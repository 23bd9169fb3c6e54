// What a graph delta is worth: complete, once each, and ordered by dependency.
module DeltaComplete {
  import opened Words
  import opened Nodes
  import opened ObjectGraph
  import opened ObjectDelta
  import opened GraphDelta

  // ---- Every CID of the new graph is visited ----

  lemma {:induction false} Covered(ix: SnapIndex, after: Snap, finished: seq<Target>, s: Snap, t: Snap)
    requires Indexes(ix, Below(after)) && Bound(Below(after)) && Made(after)
    requires DependencyOrder(ix, finished) && s in Below(after) && s.root in finished && t in Below(s)
    ensures t.root in finished
    decreases s
  {
    hide DependencyOrder, Made, Bound, Indexes;
    if t != s {
      var i :| 0 <= i < |s.children| && t in Below(s.children[i]);
      BelowTransitive(after, s);
      ResolvedChild(ix, after, s, i);
      OrderHolds(ix, finished, s.root, s.children[i].root);
      Covered(ix, after, finished, s.children[i], t);
    }
  }

  // Resolving a version by its CID keeps its dependencies.
  lemma ResolvedChild(ix: SnapIndex, after: Snap, s: Snap, i: nat)
    requires Indexes(ix, Below(after)) && Bound(Below(after)) && Made(after)
    requires s in Below(after) && i < |s.children|
    ensures Depends(ix, s.root, s.children[i].root)
  {
    hide Below;
    MadeBelow(after);
    var n := ix.byCID[s.root];
    assert WellMade(s) && n in Below(after) && SameRoots(s.children, n.children);
    assert n.children[i].root == s.children[i].root;
  }

  lemma OrderHolds(ix: SnapIndex, finished: seq<Target>, k: Target, c: Target)
    requires DependencyOrder(ix, finished) && k in finished && Depends(ix, k, c)
    ensures c in finished
  {
    hide Depends;
    var i :| 0 <= i < |finished| && finished[i] == k;
    assert c in finished[..i];
  }

  lemma AllCovered(ix: SnapIndex, after: Snap, finished: seq<Target>)
    requires Indexes(ix, Below(after)) && Bound(Below(after)) && Made(after)
    requires DependencyOrder(ix, finished) && after.root in finished
    ensures forall k :: k in ix.byCID ==> k in finished
  {
    hide Below, DependencyOrder, Made, Bound;
    AfterBelow(after);
    forall k | k in ix.byCID
      ensures k in finished
    {
      Covered(ix, after, finished, after, ix.byCID[k]);
    }
  }

  lemma AfterBelow(after: Snap)
    ensures after in Below(after)
  {
  }

  // ---- From visited CIDs to emitted deltas ----

  // The visited CIDs that need a delta.
  ghost function Kept(old_: SnapIndex, next: SnapIndex, finished: seq<Target>): (ks: seq<Target>)
    ensures forall k :: k in ks <==> k in finished && Emitted(old_, next, k)
  {
    if finished == [] then [] else
      var last := finished[|finished| - 1];
      assert finished == finished[..|finished| - 1] + [last];
      var front := Kept(old_, next, finished[..|finished| - 1]);
      if Emitted(old_, next, last) then front + [last] else front
  }

  ghost predicate DeltaOf(old_: SnapIndex, next: SnapIndex, k: Target, c: ArcSetDelta) {
    k in next.byCID && IsDelta(old_, next.byCID[k], c)
  }

  lemma {:induction false} EmitsKept(old_: SnapIndex, next: SnapIndex, finished: seq<Target>, out: seq<ArcSetDelta>)
    requires Emits(old_, next, finished, out)
    ensures |out| == |Kept(old_, next, finished)|
    ensures forall i :: 0 <= i < |out| ==> DeltaOf(old_, next, Kept(old_, next, finished)[i], out[i])
  {
    hide IsDelta;
    if finished != [] {
      var n := |finished| - 1;
      EmitsKept(old_, next, finished[..n], if Emitted(old_, next, finished[n]) then out[..|out| - 1] else out);
    }
  }

  // Filtering keeps the order, and keeps CIDs different.
  lemma {:induction false} KeptOrder(old_: SnapIndex, next: SnapIndex, finished: seq<Target>, i: nat, j: nat)
    returns (p: nat, q: nat)
    requires i < j < |Kept(old_, next, finished)|
    ensures p < q < |finished|
    ensures finished[p] == Kept(old_, next, finished)[i] && finished[q] == Kept(old_, next, finished)[j]
  {
    var n := |finished| - 1;
    var front := Kept(old_, next, finished[..n]);
    if j < |front| {
      p, q := KeptOrder(old_, next, finished[..n], i, j);
    } else {
      q := n;
      assert front[i] in finished[..n];
      p :| 0 <= p < n && finished[p] == front[i];
    }
  }

  // ---- Dependencies come first ----

  lemma {:induction false} PathFirst(ix: SnapIndex, finished: seq<Target>, path: seq<Target>, p: nat)
    returns (q: nat)
    requires DependencyOrder(ix, finished) && CidPath(ix, path) && p < |finished| && path[0] == finished[p]
    ensures q < p && finished[q] == path[|path| - 1]
    decreases |path|
  {
    hide Depends;
    var n := |path| - 1;
    assert Depends(ix, path[n - 1], path[n]);
    if n == 1 {
      assert path[1] in finished[..p];
      q :| 0 <= q < p && finished[q] == path[1];
    } else {
      var m := PathFirst(ix, finished, path[..n], p);
      assert path[n] in finished[..m];
      q :| 0 <= q < m && finished[q] == path[n];
    }
  }

  // The deltas of a write set name different roots, and each follows the deltas
  // of everything its vertex depends on, directly or through other vertices.
  lemma DeltasOrdered(old_: SnapIndex, next: SnapIndex, after: Snap, finished: seq<Target>, d: Delta, i: nat, j: nat)
    requires WriteSet(old_, next, after, finished, d) && IndexClosed(next)
    requires i < |d.arcSets| && j < |d.arcSets|
    ensures i != j ==> d.arcSets[i].after != d.arcSets[j].after
    ensures LeadsTo(next, d.arcSets[i].after, d.arcSets[j].after) ==> j < i
  {
    hide Depends, LeavesAre, Emits, IsDelta, LeadsTo;
    var ks := Kept(old_, next, finished);
    EmitsKept(old_, next, finished, d.arcSets);
    DeltaRoot(old_, next, ks[i], d.arcSets[i]);
    DeltaRoot(old_, next, ks[j], d.arcSets[j]);
    if i != j {
      var p, q := KeptOrder(old_, next, finished, if i < j then i else j, if i < j then j else i);
    }
    if LeadsTo(next, ks[i], ks[j]) {
      var path := PathOf(next, ks[i], ks[j]);
      assert ks[i] in ks;
      var p :| 0 <= p < |finished| && finished[p] == ks[i];
      var q := PathFirst(next, finished, path, p);
      KeptPlaces(old_, next, finished, i, j, p, q);
    }
  }

  lemma KeptPlaces(old_: SnapIndex, next: SnapIndex, finished: seq<Target>, i: nat, j: nat, p: nat, q: nat)
    requires DependencyOrder(next, finished) && i < |Kept(old_, next, finished)| && j < |Kept(old_, next, finished)|
    requires p < |finished| && q < |finished|
    requires finished[p] == Kept(old_, next, finished)[i] && finished[q] == Kept(old_, next, finished)[j]
    ensures i <= j ==> p <= q
  {
    hide Depends;
    if i < j {
      var a, c := KeptOrder(old_, next, finished, i, j);
      assert a == p && c == q;
    }
  }

  // How many deltas a CID has.
  ghost predicate OneDelta(d: Delta, old_: SnapIndex, n: Snap) {
    exists i :: 0 <= i < |d.arcSets| && IsDelta(old_, n, d.arcSets[i])
      && forall j :: 0 <= j < |d.arcSets| && j != i ==> d.arcSets[j].after != n.root
  }

  // Every CID of the new graph that the old graph lacks is emitted exactly once,
  // as a delta, a block or an external reference; nothing else is emitted.
  lemma DeltaIsComplete(old_: SnapIndex, next: SnapIndex, after: Snap, finished: seq<Target>, d: Delta)
    requires Indexes(next, Below(after)) && Bound(Below(after)) && Made(after)
    requires WriteSet(old_, next, after, finished, d)
    ensures forall k :: k in next.byCID && k !in old_.byCID ==> (
      if next.byCID[k].arcs.Some? then OneDelta(d, old_, next.byCID[k]) && k !in d.external && NoBlock(d, k)
      else if next.byCID[k].block.Some? then Block(k, next.byCID[k].block.value) in d.blocks && k !in d.external
      else k in d.external && NoBlock(d, k))
    ensures forall c :: c in d.arcSets ==> Emitted(old_, next, c.after)
    ensures forall x :: x in d.blocks ==> NewContent(old_, next, x.cid)
    ensures forall k :: k in d.external ==> NewExternal(old_, next, k)
  {
    hide Below, DependencyOrder, Emits, Bound, IsDelta, Made;
    MadeBelow(after);
    IndexIsClosed(next, after);
    AllCovered(next, after, finished);
    EmitsKept(old_, next, finished, d.arcSets);
    var ks := Kept(old_, next, finished);
    forall i | 0 <= i < |d.arcSets|
      ensures d.arcSets[i].after == ks[i]
    {
      DeltaRoot(old_, next, ks[i], d.arcSets[i]);
    }
    forall k | k in next.byCID && k !in old_.byCID && next.byCID[k].arcs.Some?
      ensures OneDelta(d, old_, next.byCID[k]) && next.byCID[k].block == None
    {
      assert WellMade(next.byCID[k]);
      assert k in ks;
      var i :| 0 <= i < |ks| && ks[i] == k;
      forall j | 0 <= j < |d.arcSets| && j != i
        ensures d.arcSets[j].after != k
      {
        DeltasOrdered(old_, next, after, finished, d, i, j);
      }
    }
  }

  // Every new arc set has exactly one delta, which takes the vertex of one of its
  // versions from where the previous graph had it.
  lemma DeltasFollow(old_: SnapIndex, next: SnapIndex, before: Option<Snap>, after: Snap, finished: seq<Target>,
                     d: Delta, n: Snap)
    requires Indexes(old_, Versions(before)) && Indexes(next, Below(after)) && Bound(Below(after)) && Made(after)
    requires WriteSet(old_, next, after, finished, d) && IsNew(Versions(before), Below(after), n)
    ensures exists i, m :: (
      && 0 <= i < |d.arcSets| && m in Below(after) && m.root == n.root && m.arcs == n.arcs
      && Follows(Versions(before), m, d.arcSets[i])
      && forall j :: 0 <= j < |d.arcSets| && j != i ==> d.arcSets[j].after != n.root)
  {
    hide Below, WriteSet, Follows, IsDelta, Made;
    DeltaIsComplete(old_, next, after, finished, d);
    var m := next.byCID[n.root];
    assert OneDelta(d, old_, m);
    var i :| 0 <= i < |d.arcSets| && IsDelta(old_, m, d.arcSets[i])
      && forall j :: 0 <= j < |d.arcSets| && j != i ==> d.arcSets[j].after != m.root;
    IsDeltaFollows(old_, Versions(before), m, d.arcSets[i]);
  }

  // No version of the old graph has this root, and some version of the new one has.
  ghost predicate NewRoot(old_: set<Snap>, all: set<Snap>, k: Target) {
    (exists s :: s in all && s.root == k) && forall s :: s in old_ ==> s.root != k
  }

  ghost predicate ByReference(all: set<Snap>, k: Target) {
    forall s :: s in all && s.root == k ==> s.arcs == None && s.block == None
  }

  ghost predicate Carries(all: set<Snap>, x: Block) {
    exists s :: s in all && s.root == x.cid && s.block == Some(x.data)
  }

  // All new content is listed with its bytes, and exactly those new CIDs are external
  // of which neither bytes nor arcs are known anywhere in the new graph.
  lemma LeavesFollow(old_: SnapIndex, next: SnapIndex, before: Option<Snap>, after: Snap, finished: seq<Target>,
                     d: Delta)
    requires Indexes(old_, Versions(before)) && Indexes(next, Below(after)) && Bound(Below(after)) && Made(after)
    requires WriteSet(old_, next, after, finished, d)
    ensures forall k :: k in d.external <==> (
      NewRoot(Versions(before), Below(after), k) && ByReference(Below(after), k))
    ensures forall s :: s in Below(after) && s.block.Some? && NewRoot(Versions(before), Below(after), s.root) ==> (
      exists x :: x in d.blocks && x.cid == s.root)
    ensures forall x :: x in d.blocks ==> NewRoot(Versions(before), Below(after), x.cid) && Carries(Below(after), x)
  {
    hide Below, Emits, DependencyOrder, Made, AscendingKeys;
    MadeBelow(after);
    forall k
      ensures NewRoot(Versions(before), Below(after), k) <==> k in next.byCID && k !in old_.byCID
      ensures k in next.byCID ==> (
        ByReference(Below(after), k) <==> next.byCID[k].arcs == None && next.byCID[k].block == None)
    {
    }
    forall s | s in Below(after) && s.block.Some? && NewRoot(Versions(before), Below(after), s.root)
      ensures exists x :: x in d.blocks && x.cid == s.root
    {
      var m := next.byCID[s.root];
      assert WellMade(s) && WellMade(m) && Material(m) && m.block.Some?;
      assert Block(s.root, m.block.value) in d.blocks;
    }
  }

  lemma DeltaRoot(old_: SnapIndex, next: SnapIndex, k: Target, c: ArcSetDelta)
    requires DeltaOf(old_, next, k, c) && next.byCID[k].root == k
    ensures c.after == k
  {
  }

  lemma PathOf(ix: SnapIndex, k: Target, c: Target) returns (path: seq<Target>)
    requires LeadsTo(ix, k, c)
    ensures CidPath(ix, path) && path[0] == k && path[|path| - 1] == c
  {
    path :| CidPath(ix, path) && path[0] == k && path[|path| - 1] == c;
  }

  ghost predicate NoBlock(d: Delta, k: Target) {
    forall x :: x in d.blocks ==> x.cid != k
  }
}
