// Export of a sealed state, and import of a validated one.
module Materialization {
  import opened Words
  import opened Geometry
  import opened Nodes
  import opened Workspaces
  import opened Evidence
  import opened Coordinates
  import opened MapSnapshot
  import opened ListSnapshot
  import opened Engine
  import opened Snapshot

  // The vectors a retained node holds, itself included.
  ghost function Reached(n: Retained): (s: set<Ref>)
    decreases n, 0
  {
    {n.ref} + ReachedAll(n.children)
  }

  ghost function ReachedAll(ns: seq<Retained>): (s: set<Ref>)
    decreases ns, 1
  {
    if ns == [] then {} else ReachedAll(ns[..|ns| - 1]) + Reached(ns[|ns| - 1])
  }

  lemma {:induction false} ReachedItem(ns: seq<Retained>, v: Ref)
    ensures v in ReachedAll(ns) <==> exists i :: 0 <= i < |ns| && v in Reached(ns[i])
  {
    hide Reached;
    if ns != [] {
      var front := ns[..|ns| - 1];
      ReachedItem(front, v);
      if v in ReachedAll(front) {
        var i :| 0 <= i < |front| && v in Reached(front[i]);
        assert v in Reached(ns[i]);
      }
      if i :| 0 <= i < |ns| && v in Reached(ns[i]) {
        assert i < |front| ==> v in Reached(front[i]);
      }
    }
  }

  lemma ReachedNext(ns: seq<Retained>, i: nat)
    requires i < |ns|
    ensures ReachedAll(ns[..i + 1]) == ReachedAll(ns[..i]) + Reached(ns[i])
  {
    hide Reached;
    assert ns[..i + 1][..i] == ns[..i];
  }

  // Below a logged vector everything is logged.
  lemma {:induction false} ReachedLogged(b: Radix, n: Retained, log: seq<Ref>)
    requires n.Faithful(b) && n.ref in log && Closed({}, log)
    ensures Reached(n) <= Members(log)
    decreases n
  {
    forall v | v in ReachedAll(n.children)
      ensures v in log
    {
      ReachedItem(n.children, v);
      var i :| 0 <= i < |n.children| && v in Reached(n.children[i]);
      ChildLogged(n.ref, n.children[i].ref, log);
      ReachedLogged(b, n.children[i], log);
    }
  }

  lemma ChildLogged(parent: Ref, child: Ref, log: seq<Ref>)
    requires Closed({}, log) && parent in log && child in Children(parent)
    ensures child in log
  {
    var i :| 0 <= i < |log| && log[i] == parent;
    assert child in log[..i];
  }

  ghost predicate Unrepeated(log: seq<Ref>) {
    forall i, j :: 0 <= i < j < |log| ==> log[i] != log[j]
  }

  lemma ReachedIs(n: Retained)
    ensures Reached(n) == {n.ref} + ReachedAll(n.children) && ReachedAll(n.children[..0]) == {}
    ensures n.children[..|n.children|] == n.children
  {
  }

  lemma ReachedItems(n: Retained, i: nat)
    requires i < |n.children|
    ensures Reached(n.children[i]) <= Reached(n)
  {
    forall v | v in Reached(n.children[i])
      ensures v in Reached(n)
    {
      ReachedItem(n.children, v);
    }
  }

  lemma InMembers(r: Ref, out: seq<Ref>)
    ensures r in Members(out) <==> r in out
  {
  }

  // A child's vector is strictly inside its parent's.
  lemma VisitChildren(b: Radix, n: Retained)
    requires n.Faithful(b)
    ensures WellTagged(n.ref)
    ensures forall i :: 0 <= i < |n.children| ==> n.children[i].Faithful(b) && n.children[i].ref < n.ref
  {
    forall i | 0 <= i < |n.children|
      ensures n.children[i].ref < n.ref
    {
      assert Child(n.children[i].ref) in n.ref.cells;
      assert n.children[i].ref < Child(n.children[i].ref) < n.ref;
    }
  }

  lemma ChildrenLogged(b: Radix, n: Retained, out: seq<Ref>)
    requires n.Faithful(b) && ReachedAll(n.children) <= Members(out)
    ensures forall c :: c in Children(n.ref) ==> c in out
  {
    forall c | c in Children(n.ref)
      ensures c in out
    {
      assert c in ChildRefs(n.ref.cells);
      var i :| 0 <= i < |n.children| && n.children[i].ref == c;
      assert c in Reached(n.children[i]);
      ReachedItem(n.children, c);
    }
  }

  // A vector not yet logged may be appended.
  lemma Unlogged(r: Ref, out: seq<Ref>)
    requires Unrepeated(out) && r !in Members(out)
    ensures Unrepeated(out + [r]) && Members(out + [r]) == Members(out) + {r}
  {
  }

  // One export into a store that may refuse a vector.
  class Export {
    const b: Radix
    const accepts: Ref -> bool
    var seen: set<Ref>
    var out: seq<Ref>

    constructor (b: Radix, accepts: Ref -> bool)
      ensures this.b == b && this.accepts == accepts && out == [] && Valid({})
    {
      this.b := b;
      this.accepts := accepts;
      seen := {};
      out := [];
    }

    // Everything seen has been written, except the vectors being visited.
    ghost predicate Valid(visiting: set<Ref>)
      reads this
    {
      && Closed({}, out) && Unrepeated(out)
      && seen == Members(out) + visiting && visiting !! Members(out)
      && forall r :: r in out ==> accepts(r)
    }

    method Visit(n: Retained, ghost visiting: set<Ref>) returns (r: Result<(), Error>)
      requires Valid(visiting) && n.Faithful(b)
      requires forall v :: v in visiting ==> n.ref < v
      modifies this
      ensures Closed({}, out) && Unrepeated(out) && old(out) <= out
      ensures r.Ok? ==> Valid(visiting) && Members(out) == Members(old(out)) + Reached(n)
      ensures r.Err? ==> exists v :: v in Reached(n) && !accepts(v)
      decreases n
    {
      hide Closed, Reached, Unrepeated, Retained.Faithful, Members;
      ReachedIs(n);
      VisitChildren(b, n);
      if n.ref in seen {
        InMembers(n.ref, out);
        ReachedLogged(b, n, out);
        return Ok(());
      }
      seen := seen + {n.ref};
      for i := 0 to |n.children|
        invariant Valid(visiting + {n.ref}) && old(out) <= out
        invariant Members(out) == Members(old(out)) + ReachedAll(n.children[..i])
      {
        ReachedNext(n.children, i);
        var done := Visit(n.children[i], visiting + {n.ref});
        if done.Err? {
          assert forall v :: v in Reached(n.children[i]) ==> v in Reached(n) by {
            ReachedItems(n, i);
          }
          return Err(done.error);
        }
      }
      if !accepts(n.ref) {
        return Err(Incomplete);
      }
      Unlogged(n.ref, out);
      ChildrenLogged(b, n, out);
      ClosedSnoc({}, out, n.ref);
      out := out + [n.ref];
      return Ok(());
    }
  }

  // Every reachable vector is exported exactly once, after all its children; a
  // failed export has still written a closed set.
  method CopyTo(b: Radix, root: Retained, accepts: Ref -> bool) returns (r: Result<(), Error>, out: seq<Ref>)
    requires root.Faithful(b)
    ensures Closed({}, out) && Unrepeated(out)
    ensures r.Ok? <==> forall v :: v in Reached(root) ==> accepts(v)
    ensures r.Ok? ==> Members(out) == Reached(root)
  {
    var export_ := new Export(b, accepts);
    r := export_.Visit(root, {});
    out := export_.out;
  }

  // ---- Import ----

  // Full, well-tagged vectors all the way down.
  ghost predicate Whole(b: Radix, ref: Ref)
    decreases ref
  {
    && WellTagged(ref) && |ref.cells| == Slots(b)
    && forall cell :: cell in ref.cells && cell.Child? ==> Whole(b, cell.ref)
  }

  lemma {:induction false} MapWhole(b: Radix, derive: Deriver, ref: Ref, path: seq<nat>)
    requires MapAccepts(b, derive, ref, path) && ref.layout == MapLayout
    ensures Whole(b, ref)
    decreases ref
  {
    forall slot | 0 <= slot < |ref.cells|
      ensures ref.cells[slot] != Blank && Tag(ref.cells[slot]) == CHILD_NODE ==>
        ref.cells[slot].Child? && ref.cells[slot].ref.layout == ref.layout
      ensures ref.cells[slot].Child? ==> Whole(b, ref.cells[slot].ref)
    {
      assert CellAccepts(b, derive, ref.cells[slot], path + [slot]);
      if ref.cells[slot].Child? {
        MapWhole(b, derive, ref.cells[slot].ref, path + [slot]);
      }
    }
  }

  lemma {:induction false} ListWhole(b: Radix, ref: Ref, p: Position)
    requires ListAccepts(b, ref, p) && ref.layout == ListLayout && (p.root ==> |ref.cells| > 0 && ref.cells[0].Meta?)
    ensures Whole(b, ref)
    decreases ref
  {
    hide Position.Used;
    forall slot | 0 <= slot < |ref.cells|
      ensures ref.cells[slot] != Blank && Tag(ref.cells[slot]) == CHILD_NODE ==>
        ref.cells[slot].Child? && ref.cells[slot].ref.layout == ref.layout
      ensures ref.cells[slot].Child? ==> Whole(b, ref.cells[slot].ref)
    {
      if p.Base() <= slot < p.Base() + p.Used(b) {
        assert SlotAccepts(b, ref.cells[slot], p, slot - p.Base());
        if p.height > 0 {
          ListWhole(b, ref.cells[slot].ref, p.Child(slot - p.Base(), b).0);
        }
      }
    }
  }

  lemma ReadsWhole(b: Radix, derive: Deriver, root: Ref, view: View)
    requires Reads(b, derive, root, view)
    ensures Whole(b, root)
  {
    if root.layout == MapLayout {
      MapWhole(b, derive, root, []);
    } else {
      ListWhole(b, root, RootPos(root.cells[0].count, b));
    }
  }

  method Retain(source: set<Ref>, w: Workspace, ref: Ref) returns (r: Result<(), Error>)
    requires w.Valid()
    modifies w
    ensures w.Valid() && w.known.Keys >= old(w.known.Keys)
    ensures r.Ok? ==> ref in w.known
    ensures Whole(w.b, ref) && Complete(source, ref) ==> r.Ok?
    decreases ref
  {
    hide WellTagged, Retained.Faithful;
    if ref in w.known {
      return Ok(());
    }
    if ref !in source || |ref.cells| != Slots(w.b) {
      return Err(Incomplete);
    }
    for slot := 0 to |ref.cells|
      invariant w.Valid() && w.known.Keys >= old(w.known.Keys)
      invariant forall k :: 0 <= k < slot && ref.cells[k].Child? ==> ref.cells[k].ref in w.known
    {
      var cell := ref.cells[slot];
      Tagged(ref, slot);
      if cell == Blank || Tag(cell) != CHILD_NODE {
        continue;
      }
      var child := ParseChild(cell, ref);
      if child.Err? {
        return Err(child.error);
      }
      var kept := Retain(source, w, child.value);
      if kept.Err? {
        return Err(kept.error);
      }
    }
    ChildrenKnown(ref, w.known.Keys);
    r := w.PutComputed(ref);
  }

  lemma Tagged(ref: Ref, slot: nat)
    requires slot < |ref.cells|
    ensures WellTagged(ref) && ref.cells[slot] != Blank && Tag(ref.cells[slot]) == CHILD_NODE ==>
      ParseChild(ref.cells[slot], ref).Ok?
  {
  }

  lemma ChildrenKnown(ref: Ref, known: set<Ref>)
    requires forall k :: 0 <= k < |ref.cells| && ref.cells[k].Child? ==> ref.cells[k].ref in known
    ensures Children(ref) <= known
  {
  }

  // Retains exactly the state a bounded snapshot accepts.
  method Import(vc: Scheme, b: Radix, derive: Deriver, root: Ref, source: set<Ref>, max: U64)
    returns (r: Result<(Retained, View), Error>)
    requires vc.Opens()
    ensures r.Ok? ==> var (m, view) := r.value;
      m.ref == root && m.Faithful(b) && Reads(b, derive, root, view) && |view.bindings| <= max
    ensures r.Ok? ==> Complete(source, root)
    ensures r.Err? ==> forall view :: Reads(b, derive, root, view) && Complete(source, root) ==> |view.bindings| > max
  {
    hide Reads, Complete, Whole, Retained.Faithful;
    var view := SnapshotBounded(vc, b, derive, source, root, max);
    if view.Err? {
      return Err(view.error);
    }
    ReadsWhole(b, derive, root, view.value);
    var w := new Workspace(b, None);
    var kept := Retain(source, w, root);
    var m := w.Seal(root);
    return Ok((m.value, view.value));
  }
}
