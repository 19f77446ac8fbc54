/** The searches the controller runs over query results: the two-pass
    nearest-toy search of a pickup, and the first-Toy search of a finish. */
module Selection {
  import opened Scene

  /** A pickup candidate: an object and its distance to the player. */
  datatype Cand = Cand(id: ObjId, dist: real)

  // ---------------------------------------------------------------------------
  // The candidates of each pass, flattened in visiting order

  /** The Toy- or Finished-tagged children, in sibling order. */
  function Eligible(children: seq<Child>): seq<Cand>
  {
    if children == [] then []
    else
      var n := |children| - 1;
      Eligible(children[..n])
        + (if IsPickable(children[n].tag) then [Cand(children[n].id, children[n].dist)] else [])
  }

  /** First pass: the eligible children of every Table or Spawner collider, in overlap order. */
  function Surfaced(colliders: seq<Collider>): seq<Cand>
  {
    if colliders == [] then []
    else
      var n := |colliders| - 1;
      Surfaced(colliders[..n])
        + (if IsSurface(colliders[n].tag) then Eligible(colliders[n].children) else [])
  }

  /** Second pass: the Toy-tagged colliders themselves, wherever they lie. */
  function Loose(colliders: seq<Collider>): seq<Cand>
  {
    if colliders == [] then []
    else
      var n := |colliders| - 1;
      Loose(colliders[..n])
        + (if colliders[n].tag == Toy then [Cand(colliders[n].id, colliders[n].dist)] else [])
  }

  // ---------------------------------------------------------------------------
  // The nearest candidate

  /** One comparison of the search; `None` plays the part of the initial infinite distance. */
  function Keep(best: Option<Cand>, c: Cand): Option<Cand>
  {
    if best.None? || c.dist < best.value.dist then Some(c) else best
  }

  /** The result of scanning `cands` in order with a strict comparison. */
  function Closest(cands: seq<Cand>): Option<Cand>
  {
    if cands == [] then None else Keep(Closest(cands[..|cands| - 1]), cands[|cands| - 1])
  }

  /** Index `i` holds a minimum distance, and every earlier candidate is strictly farther. */
  ghost predicate IsFirstMin(cands: seq<Cand>, i: int)
  {
    && 0 <= i < |cands|
    && (forall j | 0 <= j < |cands| :: cands[i].dist <= cands[j].dist)
    && (forall j | 0 <= j < i :: cands[i].dist < cands[j].dist)
  }

  /** The object a pickup takes: the nearest first-pass candidate if there is one,
      otherwise the nearest loose toy. */
  function ChoosePickup(colliders: seq<Collider>): Option<ObjId>
  {
    match Closest(Surfaced(colliders))
    case Some(c) => Some(c.id)
    case None =>
      match Closest(Loose(colliders))
      case Some(c) => Some(c.id)
      case None => None
  }

  lemma {:induction false} ClosestIsFirstMin(cands: seq<Cand>)
    ensures Closest(cands).None? <==> cands == []
    ensures cands != [] ==> exists i :: IsFirstMin(cands, i) && Closest(cands) == Some(cands[i])
  {
    if cands != [] {
      var n := |cands| - 1;
      var prefix := cands[..n];
      assert Closest(cands) == Keep(Closest(prefix), cands[n]);
      if prefix == [] {
        assert IsFirstMin(cands, 0);
      } else {
        ClosestIsFirstMin(prefix);
        var i0 :| IsFirstMin(prefix, i0) && Closest(prefix) == Some(prefix[i0]);
        var m := i0;
        if cands[n].dist < prefix[i0].dist {
          m := n;
        }
        ExtendFirstMin(cands, i0, m);
      }
    }
  }

  /** Adding a last candidate keeps the first minimum, unless the newcomer is strictly nearer. */
  lemma ExtendFirstMin(cands: seq<Cand>, i0: int, m: int)
    requires |cands| >= 2 && IsFirstMin(cands[..|cands| - 1], i0)
    requires m == if cands[|cands| - 1].dist < cands[i0].dist then |cands| - 1 else i0
    ensures IsFirstMin(cands, m)
  {
  }

  // ---------------------------------------------------------------------------
  // What the flattened passes contain

  lemma {:induction false} EligibleMembers(children: seq<Child>, c: Cand)
    ensures c in Eligible(children) <==>
      exists k :: 0 <= k < |children| && IsPickable(children[k].tag)
                  && c == Cand(children[k].id, children[k].dist)
  {
    if children != [] {
      var n := |children| - 1;
      EligibleMembers(children[..n], c);
      assert forall k | 0 <= k < n :: children[..n][k] == children[k];
    }
  }

  lemma {:induction false} SurfacedMembers(colliders: seq<Collider>, c: Cand)
    ensures c in Surfaced(colliders) <==>
      exists i, k :: 0 <= i < |colliders| && IsSurface(colliders[i].tag)
                     && 0 <= k < |colliders[i].children|
                     && IsPickable(colliders[i].children[k].tag)
                     && c == Cand(colliders[i].children[k].id, colliders[i].children[k].dist)
  {
    if colliders != [] {
      var n := |colliders| - 1;
      SurfacedMembers(colliders[..n], c);
      EligibleMembers(colliders[n].children, c);
      assert forall i | 0 <= i < n :: colliders[..n][i] == colliders[i];
    }
  }

  lemma {:induction false} LooseMembers(colliders: seq<Collider>, c: Cand)
    ensures c in Loose(colliders) <==>
      exists i :: 0 <= i < |colliders| && colliders[i].tag == Toy
                  && c == Cand(colliders[i].id, colliders[i].dist)
  {
    if colliders != [] {
      var n := |colliders| - 1;
      LooseMembers(colliders[..n], c);
      assert forall i | 0 <= i < n :: colliders[..n][i] == colliders[i];
    }
  }

  // ---------------------------------------------------------------------------
  // Properties of the pickup choice

  /** Toys on a table or spawner take strict priority over loose ones; within the
      winning pass the first nearest candidate is chosen; nothing is chosen only
      when both passes are empty. */
  lemma PickupPriority(colliders: seq<Collider>)
    ensures ChoosePickup(colliders).None? <==> Surfaced(colliders) == [] && Loose(colliders) == []
    ensures Surfaced(colliders) != [] ==>
      exists i :: IsFirstMin(Surfaced(colliders), i)
                  && ChoosePickup(colliders) == Some(Surfaced(colliders)[i].id)
    ensures Surfaced(colliders) == [] && Loose(colliders) != [] ==>
      exists i :: IsFirstMin(Loose(colliders), i)
                  && ChoosePickup(colliders) == Some(Loose(colliders)[i].id)
  {
    ClosestIsFirstMin(Surfaced(colliders));
    ClosestIsFirstMin(Loose(colliders));
  }

  /** Whatever is chosen is a reported Toy/Finished child of a Table or Spawner,
      or a reported loose Toy when no such child exists. */
  lemma ChosenIsReported(colliders: seq<Collider>, id: ObjId)
    requires ChoosePickup(colliders) == Some(id)
    ensures (exists i, k :: 0 <= i < |colliders| && IsSurface(colliders[i].tag)
                            && 0 <= k < |colliders[i].children|
                            && IsPickable(colliders[i].children[k].tag)
                            && colliders[i].children[k].id == id)
         || (Surfaced(colliders) == []
             && exists i :: 0 <= i < |colliders| && colliders[i].tag == Toy && colliders[i].id == id)
  {
    PickupPriority(colliders);
    if Surfaced(colliders) != [] {
      var i :| IsFirstMin(Surfaced(colliders), i) && ChoosePickup(colliders) == Some(Surfaced(colliders)[i].id);
      SurfacedMembers(colliders, Surfaced(colliders)[i]);
    } else {
      var i :| IsFirstMin(Loose(colliders), i) && ChoosePickup(colliders) == Some(Loose(colliders)[i].id);
      LooseMembers(colliders, Loose(colliders)[i]);
    }
  }

  /** A toy on a table at 0.3 beats a loose toy at 0.1. */
  lemma TableToyBeatsNearerLooseToy()
    ensures ChoosePickup([Collider(1, Toy, 0.1, []),
                          Collider(2, Table, 0.9, [Child(3, Toy, 0.3)])]) == Some(3)
  {
    var cols := [Collider(1, Toy, 0.1, []), Collider(2, Table, 0.9, [Child(3, Toy, 0.3)])];
    assert cols[..1] == [Collider(1, Toy, 0.1, [])];
    assert Surfaced(cols[..1]) == [] by {
      assert cols[..1][..0] == [];
    }
    assert [Child(3, Toy, 0.3)][..0] == [];
    assert Surfaced(cols) == [Cand(3, 0.3)];
  }

  /** The second pass accepts only the Toy tag: when no Table or Spawner offers a
      candidate, whatever is chosen is a Toy, so a Finished item lying loose is
      never chosen. */
  lemma LooseChoiceIsToy(objects: map<ObjId, GameObj>, colliders: seq<Collider>, id: ObjId)
    requires ReflectsOverlap(objects, colliders)
    requires Surfaced(colliders) == [] && ChoosePickup(colliders) == Some(id)
    ensures id in objects && objects[id].tag == Toy
  {
    PickupPriority(colliders);
    var i :| IsFirstMin(Loose(colliders), i) && ChoosePickup(colliders) == Some(Loose(colliders)[i].id);
    LooseMembers(colliders, Loose(colliders)[i]);
  }

  // ---------------------------------------------------------------------------
  // The search as the controller runs it

  lemma ClosestSnoc(prefix: seq<Cand>, c: Cand)
    ensures Closest(prefix + [c]) == Keep(Closest(prefix), c)
  {
  }

  /** The two nested passes over the overlap result, each keeping the nearest
      candidate seen so far with a strict comparison. */
  method FindClosest(colliders: seq<Collider>) returns (closest: Option<ObjId>)
    ensures closest == ChoosePickup(colliders)
  {
    var best: Option<Cand> := None;
    for i := 0 to |colliders|
      invariant best == Closest(Surfaced(colliders[..i]))
    {
      var collider := colliders[i];
      ghost var done := Surfaced(colliders[..i]);
      assert colliders[..i + 1][..i] == colliders[..i] && colliders[..i + 1][i] == collider;
      if IsSurface(collider.tag) {
        var children := collider.children;
        assert children[..0] == [] && done + [] == done;
        for k := 0 to |children|
          invariant best == Closest(done + Eligible(children[..k]))
        {
          var child := children[k];
          assert children[..k + 1][..k] == children[..k] && children[..k + 1][k] == child;
          if IsPickable(child.tag) {
            var c := Cand(child.id, child.dist);
            assert done + Eligible(children[..k + 1]) == (done + Eligible(children[..k])) + [c];
            ClosestSnoc(done + Eligible(children[..k]), c);
            if best.None? || child.dist < best.value.dist {
              best := Some(c);
            }
          } else {
            assert Eligible(children[..k + 1]) == Eligible(children[..k]);
          }
        }
        assert children[..|children|] == children;
        assert Surfaced(colliders[..i + 1]) == done + Eligible(children);
      } else {
        assert Surfaced(colliders[..i + 1]) == done + [] == done;
      }
    }
    assert colliders[..|colliders|] == colliders;
    if best.None? {
      for i := 0 to |colliders|
        invariant best == Closest(Loose(colliders[..i]))
      {
        var collider := colliders[i];
        assert colliders[..i + 1][..i] == colliders[..i] && colliders[..i + 1][i] == collider;
        if collider.tag == Toy {
          var c := Cand(collider.id, collider.dist);
          assert Loose(colliders[..i + 1]) == Loose(colliders[..i]) + [c];
          ClosestSnoc(Loose(colliders[..i]), c);
          if best.None? || collider.dist < best.value.dist {
            best := Some(c);
          }
        } else {
          assert Loose(colliders[..i + 1]) == Loose(colliders[..i]) + [] == Loose(colliders[..i]);
        }
      }
    }
    closest := if best.Some? then Some(best.value.id) else None;
  }

  // ---------------------------------------------------------------------------
  // The first Toy among a table's children

  function FirstToyIndex(children: seq<Child>): (r: Option<nat>)
    ensures r.Some? ==> r.value < |children| && children[r.value].tag == Toy
                        && forall j | 0 <= j < r.value :: children[j].tag != Toy
    ensures r.None? ==> forall j | 0 <= j < |children| :: children[j].tag != Toy
  {
    if children == [] then None
    else if children[0].tag == Toy then Some(0)
    else
      match FirstToyIndex(children[1..])
      case Some(i) => Some(i + 1)
      case None => None
  }

  /** The scan over the children that stops at the first Toy. */
  method FindFirstToy(children: seq<Child>) returns (found: Option<nat>)
    ensures found == FirstToyIndex(children)
  {
    found := None;
    var i := 0;
    while i < |children|
      invariant 0 <= i <= |children|
      invariant found == None
      invariant forall j | 0 <= j < i :: children[j].tag != Toy
    {
      if children[i].tag == Toy {
        found := Some(i);
        break;
      }
      i := i + 1;
    }
  }
}
