/** The scene the controller acts on: game objects with a tag, a parent and a
    position, what the engine's spatial queries report about them, and the
    object-lifecycle operations (Instantiate, Destroy, SetParent, position). */
module Scene {

  datatype Option<T> = None | Some(value: T)

  /** Identity of a game object; the engine never hands out an id twice. */
  type ObjId = nat

  /** The tags the controller compares against; `Other` stands for every other tag. */
  datatype Tag = Toy | Finished | Wrapped | Table | Spawner | Other

  /** A world position; real arithmetic stands in for the engine's floats. */
  datatype Vec3 = Vec3(x: real, y: real, z: real)

  function Add(a: Vec3, b: Vec3): (r: Vec3)
    ensures r.x == a.x + b.x && r.y == a.y + b.y && r.z == a.z + b.z
  {
    Vec3(a.x + b.x, a.y + b.y, a.z + b.z)
  }

  /** Where a game object hangs in the transform hierarchy. */
  datatype Parent = NoParent | Hand | Under(parent: ObjId)

  datatype GameObj = GameObj(tag: Tag, parent: Parent, pos: Vec3)

  /** The prefabs the controller instantiates. */
  datatype Prefab = ObjectToSpawn | FinishedToyPrefab | WrappedToyPrefab

  /** The tag each prefab carries: the raw toy is a Toy, the others are named after their stage. */
  function PrefabTag(p: Prefab): Tag
  {
    match p
    case ObjectToSpawn => Toy
    case FinishedToyPrefab => Finished
    case WrappedToyPrefab => Wrapped
  }

  predicate IsSurface(t: Tag) { t == Table || t == Spawner }

  predicate IsPickable(t: Tag) { t == Toy || t == Finished }

  /** A direct child of a reported collider's transform, in sibling order,
      with its distance to the player. */
  datatype Child = Child(id: ObjId, tag: Tag, dist: real)

  /** One collider returned by the sphere overlap around the player: its object,
      that object's distance to the player, and the object's direct children. */
  datatype Collider = Collider(id: ObjId, tag: Tag, dist: real, children: seq<Child>)

  /** The collider hit by the forward ray: its object, the centre of its bounds and
      its direct children (the transform's `childCount` is their number). */
  datatype RayHit = RayHit(id: ObjId, tag: Tag, center: Vec3, children: seq<Child>)

  // ---------------------------------------------------------------------------
  // Object-lifecycle operations on the map from id to object

  /** `SetParent` keeps the world position, so only the parent changes. */
  function SetParentIn(objects: map<ObjId, GameObj>, id: ObjId, p: Parent): (r: map<ObjId, GameObj>)
    ensures r.Keys == objects.Keys
    ensures id in objects ==> r[id] == objects[id].(parent := p)
    ensures forall k | k in objects && k != id :: r[k] == objects[k]
  {
    if id in objects then objects[id := objects[id].(parent := p)] else objects
  }

  function SetPositionIn(objects: map<ObjId, GameObj>, id: ObjId, pos: Vec3): (r: map<ObjId, GameObj>)
    ensures r.Keys == objects.Keys
    ensures id in objects ==> r[id] == objects[id].(pos := pos)
    ensures forall k | k in objects && k != id :: r[k] == objects[k]
  {
    if id in objects then objects[id := objects[id].(pos := pos)] else objects
  }

  function DestroyIn(objects: map<ObjId, GameObj>, id: ObjId): (r: map<ObjId, GameObj>)
    ensures r.Keys == objects.Keys - {id}
    ensures forall k | k in r :: r[k] == objects[k]
  {
    objects - {id}
  }

  /** `Instantiate` creates a root object (no parent) at the given position. */
  function InstantiateIn(objects: map<ObjId, GameObj>, id: ObjId, tag: Tag, pos: Vec3): (r: map<ObjId, GameObj>)
    ensures r.Keys == objects.Keys + {id}
    ensures r[id] == GameObj(tag, NoParent, pos)
    ensures forall k | k in objects && k != id :: r[k] == objects[k]
  {
    objects[id := GameObj(tag, NoParent, pos)]
  }

  // ---------------------------------------------------------------------------
  // What the engine's queries may report

  /** Every reported child exists, carries the reported tag and is parented to
      `parent`, and every object parented to `parent` is reported. */
  predicate ChildrenReflect(objects: map<ObjId, GameObj>, parent: ObjId, children: seq<Child>)
  {
    && (forall k | 0 <= k < |children| ::
          children[k].id in objects && objects[children[k].id].tag == children[k].tag
          && objects[children[k].id].parent == Under(parent))
    && (forall id | id in objects && objects[id].parent == Under(parent) ::
          exists k | 0 <= k < |children| :: children[k].id == id)
  }

  /** The sphere overlap reports live objects with their tags and actual children. */
  predicate ReflectsOverlap(objects: map<ObjId, GameObj>, colliders: seq<Collider>)
  {
    forall i | 0 <= i < |colliders| ::
      colliders[i].id in objects && objects[colliders[i].id].tag == colliders[i].tag
      && ChildrenReflect(objects, colliders[i].id, colliders[i].children)
  }

  /** The ray cast reports a live object with its tag and actual children. */
  predicate ReflectsRay(objects: map<ObjId, GameObj>, ray: Option<RayHit>)
  {
    ray.Some? ==>
      ray.value.id in objects && objects[ray.value.id].tag == ray.value.tag
      && ChildrenReflect(objects, ray.value.id, ray.value.children)
  }

  /** The engine's object store: the live objects and the next unused id. */
  class World {
    var objects: map<ObjId, GameObj>
    var nextId: ObjId

    constructor (initial: map<ObjId, GameObj>, next: ObjId)
      requires forall k | k in initial :: k < next
      ensures objects == initial && nextId == next
    {
      objects := initial;
      nextId := next;
    }

    method Instantiate(prefab: Prefab, pos: Vec3) returns (id: ObjId)
      modifies this
      ensures id == old(nextId) && nextId == id + 1
      ensures objects == InstantiateIn(old(objects), id, PrefabTag(prefab), pos)
    {
      id := nextId;
      objects := InstantiateIn(objects, id, PrefabTag(prefab), pos);
      nextId := nextId + 1;
    }

    method Destroy(id: ObjId)
      modifies this
      ensures objects == DestroyIn(old(objects), id) && nextId == old(nextId)
    {
      objects := DestroyIn(objects, id);
    }

    method SetParent(id: ObjId, p: Parent)
      modifies this
      ensures objects == SetParentIn(old(objects), id, p) && nextId == old(nextId)
    {
      objects := SetParentIn(objects, id, p);
    }

    method SetPosition(id: ObjId, pos: Vec3)
      modifies this
      ensures objects == SetPositionIn(old(objects), id, pos) && nextId == old(nextId)
    {
      objects := SetPositionIn(objects, id, pos);
    }
  }
}
