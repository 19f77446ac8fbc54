# SpawnToys interaction controller, modelled in Dafny

`SpawnToys` is the player-interaction controller of a small crafting game. The
player spawns a raw toy from a spawner, carries it in the hand, places it on a
table or spawner, drops it on the ground, or picks a toy back up. A timed
"finish" action swaps a raw toy on a table for a finished one. The controller
keeps three fields:

- `spawnedToy`: the toy in the hand.
- `toyOnTable`: the toy this controller last put on a surface.
- `isFinishing`: the guard of the finish coroutine.

Every frame, `Update` dispatches on three keys:

- J places the held toy, or picks one up, or spawns one.
- K drops the held toy.
- Holding H starts the finish.

The engine's services become inputs and a small object store:

- The sphere overlap around the player becomes a sequence of `Collider` values. Each one has a tag, a distance and its direct children in sibling order.
- The forward ray cast becomes an optional `RayHit`: tag, bounds centre and children.
- The distance from the player to the spawner is a number that is passed in.
- `Instantiate`, `Destroy`, `SetParent` and position assignment are methods of `Scene.World`. That class maps object ids to a tag, a parent and a position, and gives out ids from a counter.
- `ReflectsOverlap` and `ReflectsRay` state what the query results are taken to satisfy. They name live objects with their real tags, and list exactly the children the store parents to each reported object. `SpawnToys.Update` requires both of its frame; `ResolveFinish` requires `ReflectsRay` of its ray.

The project has four modules:

- `Scene`: the object store.
- `Selection`: the two-pass pickup search and the search for the first Toy child. Each is a loop method proved equal to a specification function, with lemmas about those functions.
- `Interaction`: the controller's state as a value. There is one function per operation, an invariant `Inv`, and lemmas about the functions.
- `Controller`: the class `SpawnToys`. It has the three fields, and every method is proved to produce the state the matching `Interaction` function gives.

Behaviour the model makes explicit:

- **Engine null checks.** The engine's `x != null` is false for a destroyed object. The model therefore reads every null check of the controller as `Alive`: the reference is set and its object still exists.
- **The finish makes `toyOnTable` stale.** The finish never updates `toyOnTable`. If it replaced the very toy that field names, the field now names a destroyed object, and holding H no longer starts a finish until a new placement sets the field again (`FinishLeavesStaleSlot`).
- **The invariant `Inv`.** The held toy is a live Toy or Finished object parented to the hand. The held slot and the surface slot never name the same object. Every id in use was allocated.

Details of the code that the model keeps:

- A pickup clears `toyOnTable` unconditionally (SpawnToys.cs:141), whatever item it names.
- The item a spawn creates is tagged `Toy`: the searches compare against `Toy` (SpawnToys.cs:58, 109, 122).
- A held toy is a child of the hand with no offset (SpawnToys.cs:139-140, 146-147), so it moves with the hand. A drop therefore lands at the hand's current x and z (`DropEffect`).

## Model

| member | source | states |
|---|---|---|
| `Selection.FindClosest` | SpawnToys.cs:99-134 | the two nested passes with their early-exit guard return exactly the object `ChoosePickup` selects |
| `Selection.ClosestIsFirstMin` | SpawnToys.cs:111-114 | a scan with strict `<` returns nothing only for no candidates; otherwise it returns a candidate of minimum distance that no earlier candidate ties |
| `Selection.EligibleMembers` | SpawnToys.cs:108-109 | a first-pass candidate of one collider is exactly a Toy- or Finished-tagged direct child, in both directions |
| `Selection.SurfacedMembers` | SpawnToys.cs:105-116 | the first pass's candidates are exactly the Toy/Finished children of Table- or Spawner-tagged colliders, in both directions |
| `Selection.LooseMembers` | SpawnToys.cs:121-122 | the second pass's candidates are exactly the Toy-tagged colliders, wherever they lie, in both directions |
| `Selection.LooseChoiceIsToy` | SpawnToys.cs:119-130 | given faithful query results, when no Table or Spawner offers a candidate the chosen object is a live Toy, so a loose Finished item is never chosen |
| `Selection.PickupPriority` | SpawnToys.cs:105-130 | when any first-pass candidate exists, the choice is the first nearest of them and loose toys play no part; otherwise it is the first nearest loose toy; nothing is chosen iff both passes are empty |
| `Selection.ChosenIsReported` | SpawnToys.cs:105-134 | the chosen object is a reported Toy/Finished child of a Table or Spawner, or, only when there is no such child, a reported Toy collider |
| `Selection.TableToyBeatsNearerLooseToy` | SpawnToys.cs:105-130 | a toy on a table at distance 0.3 is chosen over a loose toy at 0.1 |
| `Selection.FirstToyIndex` | SpawnToys.cs:56-62 | the index found holds a Toy and no earlier child is a Toy; no index means no child is a Toy |
| `Selection.FindFirstToy` | SpawnToys.cs:56-62 | the scan with `break` returns exactly `FirstToyIndex` of the children |
| `Interaction.InitialInv` | SpawnToys.cs:14-16 | a controller starting with both slots empty, over a store whose ids were all allocated, satisfies `Inv` |
| `Interaction.ChosenIsLiveToy` | SpawnToys.cs:99-134 | given faithful query results, the pickup target is a live object tagged Toy or Finished |
| `Interaction.TryPickupKeepsInv` | SpawnToys.cs:99-142 | a pickup preserves `Inv` |
| `Interaction.SpawnKeepsInv` | SpawnToys.cs:144-148 | a spawn preserves `Inv` |
| `Interaction.SpawnEffect` | SpawnToys.cs:144-148 | the new toy's id is used by no live object and by neither slot; the new Toy is held, parented to the hand at the hand's position; `toyOnTable`, the guard and every other object are unchanged |
| `Interaction.PlaceKeepsInv` | SpawnToys.cs:150-166 | a placement preserves `Inv` |
| `Interaction.DropKeepsInv` | SpawnToys.cs:168-175 | a drop preserves `Inv` |
| `Interaction.UpdateKeepsInv` | SpawnToys.cs:24-46 | every frame preserves `Inv`, so the two slots never name the same toy |
| `Interaction.ResolveFinishKeepsInv` | SpawnToys.cs:53-74 | the finish swap preserves `Inv`; in particular it never destroys the held toy |
| `Interaction.WrapKeepsInv` | SpawnToys.cs:82-96 | the wrap swap preserves `Inv` |
| `Interaction.TryPickupEffect` | SpawnToys.cs:132-142 | with no candidate nothing changes; otherwise the chosen object is held, parented to the hand at the hand's position, `toyOnTable` is cleared, and no other object changes |
| `Interaction.PlaceEffect` | SpawnToys.cs:150-166 | the hand is emptied iff the ray hits a Table or Spawner reported with no children; then the toy is parented to it at bounds centre plus (0, 0.35, 0), becomes `toyOnTable`, and nothing else changes; any other ray result changes nothing |
| `Interaction.PlaceOnEmptySurface` | SpawnToys.cs:153-161 | on a faithful ray result, a successful placement targets a live surface with nothing parented to it, and afterwards the placed toy is the only object parented to it |
| `Interaction.DropEffect` | SpawnToys.cs:168-175 | a held toy is unparented at the hand's current x and z with y = 0.1 and the hand emptied, nothing else changing; with an empty hand nothing changes |
| `Interaction.DropIdempotent` | SpawnToys.cs:168-175 | dropping twice equals dropping once |
| `Interaction.PrimaryWhileHolding` | SpawnToys.cs:25-28 | with a toy in the hand the J key only places: its outcome depends on the ray alone, and nothing is created |
| `Interaction.PrimaryWhileEmpty` | SpawnToys.cs:29-37 | empty-handed, the J key picks up when there is a candidate (and spawns nothing); otherwise it spawns iff the spawner distance is `<=` spawnRange, and the frame is exactly `SpawnToy`, a new Toy in the hand; otherwise nothing changes |
| `Interaction.SpawnNearSpawner` | SpawnToys.cs:25-38 | at range 0.65 and distance 0.5, with nothing to pick up, the frame ends holding a new Toy parented to the hand |
| `Interaction.KeysKeepGuard` | SpawnToys.cs:24-42 | the J and K keys never change `isFinishing` |
| `Interaction.FinishStartsIff` | SpawnToys.cs:43-44 | after a frame the guard is set iff it was set before, or H is held while `toyOnTable` names a live object |
| `Interaction.SecondTriggerIgnored` | SpawnToys.cs:43-50 | while a finish is pending, holding H has no effect on anything and the guard stays set |
| `Interaction.ResolveFinishEffect` | SpawnToys.cs:53-74 | the resolve phase always clears the guard and leaves both slots alone; when the ray hits a Table with a Toy child, exactly the first such child is destroyed and replaced by a new Finished object at its position, parented to the table, with every other object unchanged; otherwise only the guard changes |
| `Interaction.FinishLeavesStaleSlot` | SpawnToys.cs:48-74 | if the finish replaced the toy `toyOnTable` names, that field is unchanged and now names a destroyed object |
| `Interaction.WrapAsWrittenYieldsFinished` | SpawnToys.cs:86-92 | the wrap as written tracks a new object tagged Finished, not Wrapped |
| `Interaction.WrapItemEffect` | SpawnToys.cs:82-96 | the corrected wrap: when the ray hits a Finished object while `toyOnTable` is live, that toy is destroyed and a Wrapped object is created, parented to the hit, at its bounds centre plus (0, 0.35, 0), and tracked as `toyOnTable`; every other object is unchanged; otherwise only the guard changes, and the guard is always cleared |
| `Interaction.WrapOntoTrackedToy` | SpawnToys.cs:86-92 | when the ray hits the tracked toy itself, the new item is parented to the object the wrap just destroyed |
| `Controller.SpawnToys.constructor` | SpawnToys.cs:14-16 | a new controller has both slots empty and the guard clear, and satisfies `Inv` |
| `Controller.SpawnToys.Update` | SpawnToys.cs:24-46 | given faithful overlap and ray results, one frame mutates the fields and the scene exactly as `Interaction.Update` says, and keeps `Inv` |
| `Controller.SpawnToys.TryPickupToy` | SpawnToys.cs:99-135 | the search followed by the pickup gives the state of `Interaction.TryPickupToy` |
| `Controller.SpawnToys.PickupToy` | SpawnToys.cs:137-142 | the fields and the scene end as `Interaction.PickupToy` says |
| `Controller.SpawnToys.SpawnToy` | SpawnToys.cs:144-148 | the fields and the scene end as `Interaction.SpawnToy` says |
| `Controller.SpawnToys.PlaceToyOnTable` | SpawnToys.cs:150-166 | the fields and the scene end as `Interaction.PlaceToyOnTable` says |
| `Controller.SpawnToys.DropToy` | SpawnToys.cs:168-175 | the fields and the scene end as `Interaction.DropToy` says |
| `Controller.SpawnToys.BeginFinish` | SpawnToys.cs:49-50 | starting the coroutine sets the guard and nothing else |
| `Controller.SpawnToys.ResolveFinish` | SpawnToys.cs:53-74 | the resolve phase, including the loop with `break`, ends as `Interaction.ResolveFinish` says and keeps `Inv` |
| `Controller.SpawnToys.ResolveWrap` | SpawnToys.cs:82-96 | the corrected wrap ends as `Interaction.WrapItem` says and keeps `Inv` |

## Left out

- `Start` and `FindGameObjectWithTag` (SpawnToys.cs:19-22): the player's position and facing reach the model only through the query results and the spawner distance.
- Keyboard polling: the three keys are booleans of each `Frame`.
- The internals of `Physics.OverlapSphere` and `Physics.Raycast`. `pickupRange` and `placeDownRange` only bound those queries, so they are not fields of the model.
- Coroutine scheduling, `finishTime` and `WaitForSeconds`: the resolve phase is a separate method the host calls later, with the ray cast made at that moment. Nothing in the model forces the host to call it exactly once.
- Floating point: positions and distances are exact reals. `Mathf.Infinity` is played by "no candidate yet". `Vector3.Distance` values are supplied by the caller.
- Rotation: `playerHand.rotation` and `Quaternion.identity` are not modelled.
- Adding (0, 0, 0) to the position at SpawnToys.cs:69 is the identity and is omitted.
- `Destroy` removes only the object itself. The engine also destroys the object's children, and it does so at the end of the frame. Neither is modelled.
- The transform hierarchy is flat. Moving a parent does not move the positions of its children, and the sibling order of a newly parented object is not tracked. Child order comes from the query results.
- The prefabs' tags are assumed (`Scene.PrefabTag`): `objectToSpawn` is Toy, `finishedToyPrefab` is Finished and `wrappedToyPrefab` is Wrapped. The controller never sets a tag itself; the prefabs carry them.
- The stored position of a held toy is not updated as the hand moves. Only the drop reads it, and the drop uses the hand's position instead.
- Interaction.WrapItemEffect: when the ray hits the tracked toy itself, the new item is parented to the object just destroyed (`WrapOntoTrackedToy`). The engine destroys children along with their parent, so that item would not survive the frame. The model does not cascade destruction, so it keeps the item.
- Surface capacity is not an invariant of the store. It is stated only for placement: placement succeeds only on a surface reported with no children (`PlaceEffect`). Given a faithful ray result, that surface has nothing parented to it, and afterwards holds only the placed toy (`PlaceOnEmptySurface`).
- Only one controller instance acts on the store. The component sits on a spawner (SpawnToys.cs:34 measures the distance to its own position). With several spawners, every instance handles the J key in the same frame, so two empty-handed instances could pick up the same toy. The model does not cover that interleaving.
- `WrapItem` (SpawnToys.cs:77-97) is never started from `Update`. It is modelled as the resolve variant `ResolveWrap`, with the prefab corrected (see Findings). Its first phase is the same as `BeginFinish`.

## Findings

| source | as written | input that shows it | evidently intended | confidence | as-written member | corrected member |
|---|---|---|---|---|---|---|
| SpawnToys.cs:88 | the wrap instantiates `finishedToyPrefab`, so the "wrapped" toy is another Finished toy and `wrappedToyPrefab` (line 7) is never used | a wrap whose ray hits a Finished object while `toyOnTable` names a live toy | instantiate `wrappedToyPrefab` | medium, not executed | `Interaction.WrapAsWrittenYieldsFinished` | `Interaction.WrapItemEffect` |
