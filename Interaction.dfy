/** The controller's behaviour as a function of its state: the held toy, the
    toy it last put on a surface, the finishing guard and the scene. Each
    operation of the controller is one function here; the lemmas state what
    the operations promise and the invariant they keep. */
module Interaction {
  import opened Scene
  import opened Selection

  /** `held` is the controller's `spawnedToy`, `onTable` its `toyOnTable`. */
  datatype State = State(held: Option<ObjId>, onTable: Option<ObjId>, isFinishing: bool,
                         objects: map<ObjId, GameObj>, nextId: ObjId)

  /** What one frame offers the controller: the three keys, the query results,
      the player's distance to this spawner and the hand's position. */
  datatype Frame = Frame(jDown: bool, kDown: bool, hHeld: bool,
                         overlap: seq<Collider>, ray: Option<RayHit>,
                         spawnerDist: real, handPos: Vec3)

  const PLACE_OFFSET: Vec3 := Vec3(0.0, 0.35, 0.0)
  const DROP_HEIGHT: real := 0.1
  const DEFAULT_SPAWN_RANGE: real := 0.65

  /** The engine's `r != null`: the reference is set and its object has not been destroyed. */
  predicate Alive(objects: map<ObjId, GameObj>, r: Option<ObjId>)
  {
    r.Some? && r.value in objects
  }

  /** Every id in use was allocated; the held toy is a live Toy or Finished item
      in the hand; the two slots never name the same item. */
  ghost predicate Inv(s: State)
  {
    && (forall k | k in s.objects :: k < s.nextId)
    && (s.held.Some? ==>
          s.held.value in s.objects && s.objects[s.held.value].parent == Hand
          && IsPickable(s.objects[s.held.value].tag))
    && (s.onTable.Some? ==> s.onTable.value < s.nextId)
    && (s.held.Some? && s.onTable.Some? ==> s.held.value != s.onTable.value)
  }

  function Initial(objects: map<ObjId, GameObj>, nextId: ObjId): State
  {
    State(None, None, false, objects, nextId)
  }

  // ---------------------------------------------------------------------------
  // The operations

  function PickupToy(s: State, id: ObjId, handPos: Vec3): State
  {
    s.(held := Some(id), onTable := None,
       objects := SetPositionIn(SetParentIn(s.objects, id, Hand), id, handPos))
  }

  function TryPickupToy(s: State, colliders: seq<Collider>, handPos: Vec3): State
  {
    match ChoosePickup(colliders)
    case None => s
    case Some(id) => PickupToy(s, id, handPos)
  }

  /** A new raw toy at the hand, parented to it. */
  function SpawnToy(s: State, handPos: Vec3): State
  {
    var id := s.nextId;
    s.(held := Some(id),
       objects := SetParentIn(InstantiateIn(s.objects, id, PrefabTag(ObjectToSpawn), handPos), id, Hand),
       nextId := id + 1)
  }

  /** The ray hit a Table or Spawner that has no child. */
  predicate PlaceableHit(ray: Option<RayHit>)
  {
    ray.Some? && IsSurface(ray.value.tag) && |ray.value.children| == 0
  }

  function PlaceToyOnTable(s: State, ray: Option<RayHit>): State
    requires s.held.Some?
  {
    if PlaceableHit(ray) then
      var toy := s.held.value;
      var placed := SetPositionIn(s.objects, toy, Add(ray.value.center, PLACE_OFFSET));
      s.(objects := SetParentIn(placed, toy, Under(ray.value.id)), onTable := s.held, held := None)
    else
      s
  }

  /** A held toy hangs in the hand with no offset, so it follows the hand: when
      it is unparented its world position is the hand's current position, and
      the drop keeps that position's x and z. */
  function DropToy(s: State, handPos: Vec3): State
  {
    if Alive(s.objects, s.held) then
      var toy := s.held.value;
      var unparented := SetParentIn(s.objects, toy, NoParent);
      s.(objects := SetPositionIn(unparented, toy, Vec3(handPos.x, DROP_HEIGHT, handPos.z)), held := None)
    else
      s
  }

  /** The J key: place when holding; otherwise pick up, and spawn if still empty-handed near the spawner. */
  function PrimaryAction(s: State, spawnRange: real, f: Frame): State
  {
    if Alive(s.objects, s.held) then
      PlaceToyOnTable(s, f.ray)
    else
      var picked := TryPickupToy(s, f.overlap, f.handPos);
      if !Alive(picked.objects, picked.held) && f.spawnerDist <= spawnRange then SpawnToy(picked, f.handPos)
      else picked
  }

  /** The J key, then the K key, as one frame handles them. */
  function Keys(s: State, spawnRange: real, f: Frame): State
  {
    var afterJ := if f.jDown then PrimaryAction(s, spawnRange, f) else s;
    if f.kDown then DropToy(afterJ, f.handPos) else afterJ
  }

  predicate CanBeginFinish(s: State, hHeld: bool)
  {
    hHeld && Alive(s.objects, s.onTable) && !s.isFinishing
  }

  /** The first phase of the finish coroutine, which runs at once when it is started. */
  function BeginFinish(s: State): State
  {
    s.(isFinishing := true)
  }

  /** One frame of the controller. */
  function Update(s: State, spawnRange: real, f: Frame): State
  {
    var afterKeys := Keys(s, spawnRange, f);
    if CanBeginFinish(afterKeys, f.hHeld) then BeginFinish(afterKeys) else afterKeys
  }

  /** The ray hit a Table that has a Toy child. */
  predicate FinishSwaps(ray: Option<RayHit>)
  {
    ray.Some? && ray.value.tag == Table && FirstToyIndex(ray.value.children).Some?
  }

  /** The id of the child a finish replaces. */
  function FinishTarget(ray: Option<RayHit>): ObjId
    requires FinishSwaps(ray)
  {
    ray.value.children[FirstToyIndex(ray.value.children).value].id
  }

  /** The second phase of the finish coroutine, after its delay: swap the first
      Toy on the table in front for a finished one, then clear the guard. */
  function ResolveFinish(s: State, ray: Option<RayHit>): State
    requires ReflectsRay(s.objects, ray)
  {
    var swapped :=
      if FinishSwaps(ray) then
        var toy := FinishTarget(ray);
        var pos := s.objects[toy].pos;
        var id := s.nextId;
        var created := InstantiateIn(DestroyIn(s.objects, toy), id, PrefabTag(FinishedToyPrefab), pos);
        s.(objects := SetParentIn(created, id, Under(ray.value.id)), nextId := id + 1)
      else
        s;
    swapped.(isFinishing := false)
  }

  /** The ray hit a Finished item while the tracked surface toy is alive. */
  predicate WrapSwaps(s: State, ray: Option<RayHit>)
  {
    ray.Some? && ray.value.tag == Finished && Alive(s.objects, s.onTable)
  }

  /** The second phase of the wrap coroutine, with the prefab it instantiates. */
  function WrapWith(s: State, ray: Option<RayHit>, prefab: Prefab): State
  {
    var swapped :=
      if WrapSwaps(s, ray) then
        var toy := s.onTable.value;
        var pos := s.objects[toy].pos;
        var id := s.nextId;
        var created := InstantiateIn(DestroyIn(s.objects, toy), id, PrefabTag(prefab), pos);
        var moved := SetPositionIn(created, id, Add(ray.value.center, PLACE_OFFSET));
        s.(objects := SetParentIn(moved, id, Under(ray.value.id)), onTable := Some(id), nextId := id + 1)
      else
        s;
    swapped.(isFinishing := false)
  }

  /** The wrap as the code writes it: it instantiates the finished prefab. */
  function WrapItemAsWritten(s: State, ray: Option<RayHit>): State
  {
    WrapWith(s, ray, FinishedToyPrefab)
  }

  /** The wrap as intended: it instantiates the wrapped prefab. */
  function WrapItem(s: State, ray: Option<RayHit>): State
  {
    WrapWith(s, ray, WrappedToyPrefab)
  }

  // ---------------------------------------------------------------------------
  // The invariant

  lemma InitialInv(objects: map<ObjId, GameObj>, nextId: ObjId)
    requires forall k | k in objects :: k < nextId
    ensures Inv(Initial(objects, nextId))
  {
  }

  /** The chosen object is a live, reported Toy or Finished item. */
  lemma ChosenIsLiveToy(objects: map<ObjId, GameObj>, colliders: seq<Collider>, id: ObjId)
    requires ReflectsOverlap(objects, colliders) && ChoosePickup(colliders) == Some(id)
    ensures id in objects && IsPickable(objects[id].tag)
  {
    ChosenIsReported(colliders, id);
    if exists i, k :: 0 <= i < |colliders| && IsSurface(colliders[i].tag)
                      && 0 <= k < |colliders[i].children|
                      && IsPickable(colliders[i].children[k].tag)
                      && colliders[i].children[k].id == id {
      var i, k :| 0 <= i < |colliders| && IsSurface(colliders[i].tag)
                  && 0 <= k < |colliders[i].children|
                  && IsPickable(colliders[i].children[k].tag)
                  && colliders[i].children[k].id == id;
      assert ChildrenReflect(objects, colliders[i].id, colliders[i].children);
    } else {
      var i :| 0 <= i < |colliders| && colliders[i].tag == Toy && colliders[i].id == id;
    }
  }

  lemma TryPickupKeepsInv(s: State, colliders: seq<Collider>, handPos: Vec3)
    requires Inv(s) && ReflectsOverlap(s.objects, colliders)
    ensures Inv(TryPickupToy(s, colliders, handPos))
  {
    if ChoosePickup(colliders).Some? {
      ChosenIsLiveToy(s.objects, colliders, ChoosePickup(colliders).value);
    }
  }

  lemma SpawnKeepsInv(s: State, handPos: Vec3)
    requires Inv(s)
    ensures Inv(SpawnToy(s, handPos))
  {
  }

  lemma PlaceKeepsInv(s: State, ray: Option<RayHit>)
    requires Inv(s) && s.held.Some?
    ensures Inv(PlaceToyOnTable(s, ray))
  {
  }

  lemma DropKeepsInv(s: State, handPos: Vec3)
    requires Inv(s)
    ensures Inv(DropToy(s, handPos))
  {
  }

  lemma UpdateKeepsInv(s: State, spawnRange: real, f: Frame)
    requires Inv(s) && ReflectsOverlap(s.objects, f.overlap)
    ensures Inv(Update(s, spawnRange, f))
  {
    var afterJ := if f.jDown then PrimaryAction(s, spawnRange, f) else s;
    if f.jDown && !Alive(s.objects, s.held) {
      TryPickupKeepsInv(s, f.overlap, f.handPos);
    }
    assert Inv(afterJ);
  }

  lemma ResolveFinishKeepsInv(s: State, ray: Option<RayHit>)
    requires Inv(s) && ReflectsRay(s.objects, ray)
    ensures Inv(ResolveFinish(s, ray))
  {
  }

  lemma WrapKeepsInv(s: State, ray: Option<RayHit>, prefab: Prefab)
    requires Inv(s)
    ensures Inv(WrapWith(s, ray, prefab))
  {
  }

  // ---------------------------------------------------------------------------
  // What each operation does

  /** A pickup takes the chosen item into the hand, at the hand, and forgets the
      surface toy; when nothing is chosen nothing changes. */
  lemma TryPickupEffect(s: State, colliders: seq<Collider>, handPos: Vec3)
    requires ReflectsOverlap(s.objects, colliders)
    ensures var r := TryPickupToy(s, colliders, handPos);
      match ChoosePickup(colliders)
      case None => r == s
      case Some(id) =>
        && r.held == Some(id) && r.onTable == None
        && r.isFinishing == s.isFinishing && r.nextId == s.nextId
        && r.objects.Keys == s.objects.Keys
        && id in s.objects && IsPickable(s.objects[id].tag)
        && r.objects[id] == GameObj(s.objects[id].tag, Hand, handPos)
        && forall k | k in s.objects && k != id :: r.objects[k] == s.objects[k]
  {
    if ChoosePickup(colliders).Some? {
      ChosenIsLiveToy(s.objects, colliders, ChoosePickup(colliders).value);
    }
  }

  /** Placing succeeds exactly on a Table or Spawner with no child: the toy then
      sits on it at the centre of its bounds raised by 0.35, parented to it, is
      the tracked surface toy, and the hand is empty. Otherwise nothing changes. */
  lemma PlaceEffect(s: State, ray: Option<RayHit>)
    requires Alive(s.objects, s.held)
    ensures var r := PlaceToyOnTable(s, ray);
      && (r.held == None <==> PlaceableHit(ray))
      && (!PlaceableHit(ray) ==> r == s)
      && (PlaceableHit(ray) ==>
            var toy := s.held.value;
            && r.onTable == Some(toy) && r.isFinishing == s.isFinishing && r.nextId == s.nextId
            && r.objects.Keys == s.objects.Keys
            && r.objects[toy] == GameObj(s.objects[toy].tag, Under(ray.value.id),
                                         Vec3(ray.value.center.x, ray.value.center.y + 0.35, ray.value.center.z))
            && forall k | k in s.objects && k != toy :: r.objects[k] == s.objects[k])
  {
  }

  /** A spawn allocates an id no live item and no slot uses, puts a raw toy with
      that id in the hand at the hand's position, and changes nothing else. */
  lemma SpawnEffect(s: State, handPos: Vec3)
    requires Inv(s)
    ensures s.nextId !in s.objects && s.held != Some(s.nextId) && s.onTable != Some(s.nextId)
    ensures var r := SpawnToy(s, handPos);
      && r.held == Some(s.nextId) && r.nextId == s.nextId + 1
      && r.onTable == s.onTable && r.isFinishing == s.isFinishing
      && r.objects.Keys == s.objects.Keys + {s.nextId}
      && r.objects[s.nextId] == GameObj(Toy, Hand, handPos)
      && forall k | k in s.objects :: r.objects[k] == s.objects[k]
  {
  }

  /** On a faithful ray result, a placement finds a live surface with nothing
      parented to it, and afterwards the placed toy is the only thing on it. */
  lemma PlaceOnEmptySurface(s: State, ray: Option<RayHit>)
    requires Alive(s.objects, s.held) && ReflectsRay(s.objects, ray) && PlaceableHit(ray)
    ensures ray.value.id in s.objects
    ensures forall k | k in s.objects :: s.objects[k].parent != Under(ray.value.id)
    ensures var r := PlaceToyOnTable(s, ray);
      forall k | k in r.objects && r.objects[k].parent == Under(ray.value.id) :: k == s.held.value
  {
  }

  /** Dropping a held toy unparents it at height 0.1 above the hand's current x
      and z and empties the hand; with an empty hand it does nothing. */
  lemma DropEffect(s: State, handPos: Vec3)
    ensures var r := DropToy(s, handPos);
      && (Alive(s.objects, s.held) ==>
            var toy := s.held.value;
            && r.held == None && r.onTable == s.onTable
            && r.isFinishing == s.isFinishing && r.nextId == s.nextId
            && r.objects.Keys == s.objects.Keys
            && r.objects[toy] == GameObj(s.objects[toy].tag, NoParent, Vec3(handPos.x, 0.1, handPos.z))
            && forall k | k in s.objects && k != toy :: r.objects[k] == s.objects[k])
      && (!Alive(s.objects, s.held) ==> r == s)
  {
  }

  /** Dropping twice in a row is dropping once. */
  lemma DropIdempotent(s: State, handPos: Vec3)
    ensures DropToy(DropToy(s, handPos), handPos) == DropToy(s, handPos)
  {
  }

  /** While holding a live toy, the J key only attempts placement: the overlap,
      the spawner distance and the hand position play no part, and nothing is
      created. */
  lemma PrimaryWhileHolding(s: State, spawnRange: real, f: Frame, g: Frame)
    requires Alive(s.objects, s.held) && f.ray == g.ray
    ensures PrimaryAction(s, spawnRange, f) == PrimaryAction(s, spawnRange, g)
    ensures PrimaryAction(s, spawnRange, f).nextId == s.nextId
    ensures PrimaryAction(s, spawnRange, f).objects.Keys == s.objects.Keys
  {
  }

  /** With an empty hand the J key picks up when a candidate exists (and then
      spawns nothing), otherwise spawns a raw toy in the hand exactly when the
      player is within `spawnRange` of the spawner, and otherwise does nothing. */
  lemma PrimaryWhileEmpty(s: State, spawnRange: real, f: Frame)
    requires !Alive(s.objects, s.held) && ReflectsOverlap(s.objects, f.overlap)
    ensures var r := PrimaryAction(s, spawnRange, f);
      && (ChoosePickup(f.overlap).Some? ==>
            r == TryPickupToy(s, f.overlap, f.handPos) && r.held == ChoosePickup(f.overlap)
            && r.nextId == s.nextId)
      && (ChoosePickup(f.overlap).None? && f.spawnerDist <= spawnRange ==>
            && r == SpawnToy(s, f.handPos) && r.held == Some(s.nextId) && r.nextId == s.nextId + 1
            && r.objects[s.nextId] == GameObj(Toy, Hand, f.handPos)
            && r.onTable == s.onTable && r.isFinishing == s.isFinishing)
      && (ChoosePickup(f.overlap).None? && spawnRange < f.spawnerDist ==> r == s)
  {
    if ChoosePickup(f.overlap).Some? {
      ChosenIsLiveToy(s.objects, f.overlap, ChoosePickup(f.overlap).value);
    }
  }

  /** At the default range of 0.65, an empty-handed player 0.5 from the spawner
      with nothing to pick up ends the frame holding a new raw toy in the hand. */
  lemma SpawnNearSpawner(s: State, f: Frame)
    requires s.held == None
    requires f.jDown && !f.kDown && f.overlap == [] && f.spawnerDist == 0.5
    ensures var r := Update(s, DEFAULT_SPAWN_RANGE, f);
      r.held == Some(s.nextId) && r.objects[s.nextId] == GameObj(Toy, Hand, f.handPos)
  {
  }

  // ---------------------------------------------------------------------------
  // The finishing guard

  /** The J and K keys never touch the guard. */
  lemma KeysKeepGuard(s: State, spawnRange: real, f: Frame)
    ensures Keys(s, spawnRange, f).isFinishing == s.isFinishing
  {
  }

  /** A frame leaves the guard set exactly when it was set already, or the H key
      is held while the tracked surface toy (after J and K) is alive. */
  lemma FinishStartsIff(s: State, spawnRange: real, f: Frame)
    ensures Update(s, spawnRange, f).isFinishing <==>
      s.isFinishing
      || (f.hHeld && Alive(Keys(s, spawnRange, f).objects, Keys(s, spawnRange, f).onTable))
  {
  }

  /** While a finish is pending, holding H again has no effect at all, and the
      guard stays set: only the resolve phase clears it. */
  lemma SecondTriggerIgnored(s: State, spawnRange: real, f: Frame)
    requires s.isFinishing
    ensures Update(s, spawnRange, f) == Update(s, spawnRange, f.(hHeld := false))
    ensures Update(s, spawnRange, f).isFinishing
  {
  }

  /** Resolving a finish clears the guard and leaves both slots alone; when the
      ray hits a Table with a Toy child, exactly that first Toy child is replaced
      by a new Finished item at its position, parented to the table, and nothing
      else in the scene changes. Otherwise only the guard changes. */
  lemma ResolveFinishEffect(s: State, ray: Option<RayHit>)
    requires ReflectsRay(s.objects, ray)
    ensures var r := ResolveFinish(s, ray);
      && !r.isFinishing && r.held == s.held && r.onTable == s.onTable
      && (!FinishSwaps(ray) ==> r == s.(isFinishing := false))
      && (FinishSwaps(ray) ==>
            var toy := FinishTarget(ray);
            && toy in s.objects && s.objects[toy].tag == Toy
            && r.nextId == s.nextId + 1
            && r.objects.Keys == s.objects.Keys - {toy} + {s.nextId}
            && r.objects[s.nextId] == GameObj(Finished, Under(ray.value.id), s.objects[toy].pos)
            && forall k | k in s.objects && k != toy && k != s.nextId :: r.objects[k] == s.objects[k])
  {
  }

  /** The finish never retargets `toyOnTable`: if it replaced the very item that
      slot names, the slot now names a destroyed item, which no longer passes
      the H key's null check. */
  lemma FinishLeavesStaleSlot(s: State, ray: Option<RayHit>)
    requires Inv(s) && ReflectsRay(s.objects, ray)
    requires FinishSwaps(ray) && s.onTable == Some(FinishTarget(ray))
    ensures ResolveFinish(s, ray).onTable == s.onTable
    ensures !Alive(ResolveFinish(s, ray).objects, ResolveFinish(s, ray).onTable)
  {
  }

  // ---------------------------------------------------------------------------
  // The wrap, as written and as intended

  /** As written, a successful wrap yields an item tagged Finished, not Wrapped. */
  lemma WrapAsWrittenYieldsFinished(s: State, ray: Option<RayHit>)
    requires WrapSwaps(s, ray)
    ensures WrapItemAsWritten(s, ray).onTable == Some(s.nextId)
    ensures WrapItemAsWritten(s, ray).objects[s.nextId].tag == Finished
    ensures WrapItemAsWritten(s, ray).objects[s.nextId].tag != Wrapped
  {
  }

  /** As intended, a successful wrap destroys the tracked surface toy and puts a
      Wrapped item in its place: parented to the hit object, at the centre of its
      bounds raised by 0.35, tracked as the surface toy. Otherwise only the guard
      changes. */
  lemma WrapItemEffect(s: State, ray: Option<RayHit>)
    requires Inv(s)
    ensures var r := WrapItem(s, ray);
      && !r.isFinishing && r.held == s.held
      && (!WrapSwaps(s, ray) ==> r == s.(isFinishing := false))
      && (WrapSwaps(s, ray) ==>
            var c := ray.value.center;
            var toy := s.onTable.value;
            && r.onTable == Some(s.nextId) && r.nextId == s.nextId + 1
            && r.objects.Keys == s.objects.Keys - {toy} + {s.nextId}
            && r.objects[s.nextId] == GameObj(Wrapped, Under(ray.value.id), Vec3(c.x, c.y + 0.35, c.z))
            && forall k | k in s.objects && k != toy :: r.objects[k] == s.objects[k])
  {
  }

  /** When the ray hits the tracked surface toy itself, the wrap destroys that toy
      and then parents the new item to it, so the new item's parent no longer
      exists. */
  lemma WrapOntoTrackedToy(s: State, ray: Option<RayHit>)
    requires Inv(s) && WrapSwaps(s, ray) && ray.value.id == s.onTable.value
    ensures var r := WrapItem(s, ray);
      && r.objects[s.nextId].parent == Under(s.onTable.value)
      && s.onTable.value !in r.objects
  {
  }
}
