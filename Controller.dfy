/** The interaction controller as an object: its three fields change step by
    step as the engine calls it, and every method is proved to take the
    controller and the scene exactly to the state the matching function of
    `Interaction` gives. */
module Controller {
  import opened Scene
  import opened Selection
  import Interaction

  class SpawnToys {
    const spawnRange: real
    const scene: World
    var spawnedToy: Option<ObjId>
    var toyOnTable: Option<ObjId>
    var isFinishing: bool

    ghost function Snapshot(): Interaction.State
      reads this, scene
    {
      Interaction.State(spawnedToy, toyOnTable, isFinishing, scene.objects, scene.nextId)
    }

    ghost predicate Valid()
      reads this, scene
    {
      Interaction.Inv(Snapshot())
    }

    constructor (spawnRange: real, scene: World)
      requires forall k | k in scene.objects :: k < scene.nextId
      ensures this.spawnRange == spawnRange && this.scene == scene
      ensures Snapshot() == Interaction.Initial(scene.objects, scene.nextId)
      ensures Valid()
    {
      this.spawnRange := spawnRange;
      this.scene := scene;
      spawnedToy := None;
      toyOnTable := None;
      isFinishing := false;
      new;
      Interaction.InitialInv(scene.objects, scene.nextId);
    }

    /** One frame: the J key, the K key, then the H key. */
    method Update(f: Interaction.Frame)
      requires Valid() && ReflectsOverlap(scene.objects, f.overlap) && ReflectsRay(scene.objects, f.ray)
      modifies this, scene
      ensures Valid()
      ensures Snapshot() == Interaction.Update(old(Snapshot()), spawnRange, f)
    {
      ghost var s0 := Snapshot();
      if f.jDown {
        if Interaction.Alive(scene.objects, spawnedToy) {
          PlaceToyOnTable(f.ray);
        } else {
          TryPickupToy(f.overlap, f.handPos);
          if !Interaction.Alive(scene.objects, spawnedToy) && f.spawnerDist <= spawnRange {
            SpawnToy(f.handPos);
          }
        }
      }
      if f.kDown {
        DropToy(f.handPos);
      }
      if f.hHeld && Interaction.Alive(scene.objects, toyOnTable) && !isFinishing {
        BeginFinish();
      }
      Interaction.UpdateKeepsInv(s0, spawnRange, f);
    }

    method TryPickupToy(colliders: seq<Collider>, handPos: Vec3)
      modifies this, scene
      ensures Snapshot() == Interaction.TryPickupToy(old(Snapshot()), colliders, handPos)
    {
      var closest := FindClosest(colliders);
      if closest.Some? {
        PickupToy(closest.value, handPos);
      }
    }

    method PickupToy(id: ObjId, handPos: Vec3)
      modifies this, scene
      ensures Snapshot() == Interaction.PickupToy(old(Snapshot()), id, handPos)
    {
      spawnedToy := Some(id);
      scene.SetParent(id, Hand);
      scene.SetPosition(id, handPos);
      toyOnTable := None;
    }

    method SpawnToy(handPos: Vec3)
      modifies this, scene
      ensures Snapshot() == Interaction.SpawnToy(old(Snapshot()), handPos)
    {
      var id := scene.Instantiate(ObjectToSpawn, handPos);
      spawnedToy := Some(id);
      scene.SetParent(id, Hand);
    }

    method PlaceToyOnTable(ray: Option<RayHit>)
      requires spawnedToy.Some?
      modifies this, scene
      ensures Snapshot() == Interaction.PlaceToyOnTable(old(Snapshot()), ray)
    {
      if ray.Some? {
        var hit := ray.value;
        if IsSurface(hit.tag) {
          if |hit.children| == 0 {
            var toy := spawnedToy.value;
            scene.SetPosition(toy, Add(hit.center, Interaction.PLACE_OFFSET));
            scene.SetParent(toy, Under(hit.id));
            toyOnTable := spawnedToy;
            spawnedToy := None;
          }
        }
      }
    }

    /** The held toy sits in the hand with no offset, so its world position on
        leaving the hand is `handPos`. */
    method DropToy(handPos: Vec3)
      modifies this, scene
      ensures Snapshot() == Interaction.DropToy(old(Snapshot()), handPos)
    {
      if Interaction.Alive(scene.objects, spawnedToy) {
        var toy := spawnedToy.value;
        scene.SetParent(toy, NoParent);
        scene.SetPosition(toy, Vec3(handPos.x, Interaction.DROP_HEIGHT, handPos.z));
        spawnedToy := None;
      }
    }

    /** Starting the finish coroutine runs its first phase at once. */
    method BeginFinish()
      modifies this
      ensures Snapshot() == Interaction.BeginFinish(old(Snapshot()))
    {
      isFinishing := true;
    }

    /** The finish coroutine after its delay, with the ray cast made at that moment. */
    method ResolveFinish(ray: Option<RayHit>)
      requires Valid() && ReflectsRay(scene.objects, ray)
      modifies this, scene
      ensures Valid()
      ensures Snapshot() == Interaction.ResolveFinish(old(Snapshot()), ray)
    {
      ghost var s0 := Snapshot();
      if ray.Some? && ray.value.tag == Table {
        var hit := ray.value;
        var found := FindFirstToy(hit.children);
        if found.Some? {
          var toy := hit.children[found.value].id;
          assert ChildrenReflect(scene.objects, hit.id, hit.children);
          var position := scene.objects[toy].pos;
          scene.Destroy(toy);
          var finished := scene.Instantiate(FinishedToyPrefab, position);
          scene.SetParent(finished, Under(hit.id));
        }
      }
      isFinishing := false;
      Interaction.ResolveFinishKeepsInv(s0, ray);
    }

    /** The wrap coroutine after its delay, instantiating the wrapped prefab. */
    method ResolveWrap(ray: Option<RayHit>)
      requires Valid()
      modifies this, scene
      ensures Valid()
      ensures Snapshot() == Interaction.WrapItem(old(Snapshot()), ray)
    {
      ghost var s0 := Snapshot();
      if ray.Some? && ray.value.tag == Finished {
        var hit := ray.value;
        if Interaction.Alive(scene.objects, toyOnTable) {
          var toy := toyOnTable.value;
          var position := scene.objects[toy].pos;
          scene.Destroy(toy);
          var wrapped := scene.Instantiate(WrappedToyPrefab, position);
          toyOnTable := Some(wrapped);
          scene.SetPosition(wrapped, Add(hit.center, Interaction.PLACE_OFFSET));
          scene.SetParent(wrapped, Under(hit.id));
        }
      }
      isFinishing := false;
      Interaction.WrapKeepsInv(s0, ray, WrappedToyPrefab);
    }
  }
}
