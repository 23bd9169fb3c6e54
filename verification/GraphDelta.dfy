// The ordered, complete write set between two committed graphs.
module GraphDelta {
  import opened Words
  import opened Nodes
  import opened Sorting
  import opened Grouping
  import opened ByteOrder
  import opened ObjectGraph
  import opened LabelDiff
  import opened ObjectDelta

  datatype ArcSetDelta = ArcSetDelta(before: Option<Target>, after: Target, changes: seq<ArcChange>)

  datatype Block = Block(cid: Target, data: seq<byte>)

  datatype Delta = Delta(before: Option<Target>, after: Target, arcSets: seq<ArcSetDelta>,
                         blocks: seq<Block>, external: seq<Target>)

  // ---- Dependencies between CIDs ----

  ghost predicate Depends(ix: SnapIndex, k: Target, c: Target) {
    k in ix.byCID && exists i :: 0 <= i < |ix.byCID[k].children| && ix.byCID[k].children[i].root == c
  }

  ghost predicate IndexClosed(ix: SnapIndex) {
    && (forall k :: k in ix.byCID ==> ix.byCID[k].root == k)
    && (forall k, c :: Depends(ix, k, c) ==> c in ix.byCID)
    && forall k :: k in ix.byCID && ix.byCID[k].arcs.Some? ==> DistinctNames(ix.byCID[k].arcs.value)
  }

  ghost predicate CidPath(ix: SnapIndex, path: seq<Target>) {
    |path| > 1 && forall i :: 0 <= i < |path| - 1 ==> Depends(ix, path[i], path[i + 1])
  }

  ghost predicate LeadsTo(ix: SnapIndex, k: Target, c: Target) {
    exists path :: CidPath(ix, path) && path[0] == k && path[|path| - 1] == c
  }

  lemma DependsOn(ix: SnapIndex, k: Target, c: Target)
    requires Depends(ix, k, c)
    ensures LeadsTo(ix, k, c) && forall a :: LeadsTo(ix, a, k) ==> LeadsTo(ix, a, c)
  {
    assert CidPath(ix, [k, c]);
    forall a | LeadsTo(ix, a, k)
      ensures LeadsTo(ix, a, c)
    {
      var path :| CidPath(ix, path) && path[0] == a && path[|path| - 1] == k;
      assert CidPath(ix, path + [c]);
    }
  }

  // ---- What is emitted for a vertex ----

  predicate Emitted(old_: SnapIndex, next: SnapIndex, k: Target) {
    k in next.byCID && next.byCID[k].arcs.Some? && k !in old_.byCID
  }

  // The version of the same vertex in the previous graph, if it has arcs.
  function Previous(old_: SnapIndex, n: Snap): Option<Snap> {
    if n.id.Some? && n.id.value in old_.byID && old_.byID[n.id.value].arcs.Some?
    then Some(old_.byID[n.id.value]) else None
  }

  function PreviousArcs(old_: SnapIndex, n: Snap): seq<Arc> {
    var base := Previous(old_, n);
    if base.Some? && base.value.arcs.Some? then base.value.arcs.value else []
  }

  // The vertex's own previous root, and exactly the label changes since.
  ghost predicate IsDelta(old_: SnapIndex, n: Snap, d: ArcSetDelta) {
    && n.arcs.Some? && d.after == n.root
    && d.before == (if Previous(old_, n).Some? then Some(Previous(old_, n).value.root) else None)
    && Differences(ArcsMap(PreviousArcs(old_, n)), ArcsMap(n.arcs.value), d.changes)
  }

  // ---- The same, said over the versions of the two graphs alone ----

  ghost predicate SameVertex(s: Snap, n: Snap) {
    s.id.Some? && s.id == n.id
  }

  // Only real changes, and making them turns the old labels into the new ones.
  ghost predicate Turns(old_: seq<Arc>, new_: seq<Arc>, changes: seq<ArcChange>) {
    Differences(ArcsMap(old_), ArcsMap(new_), changes) && Changed(ArcsMap(old_), changes) == ArcsMap(new_)
  }

  ghost predicate Replaces(s: Snap, n: Snap, d: ArcSetDelta) {
    && SameVertex(s, n) && s.arcs.Some? && n.arcs.Some?
    && d == ArcSetDelta(Some(s.root), n.root, d.changes) && Turns(s.arcs.value, n.arcs.value, d.changes)
  }

  ghost predicate Creates(n: Snap, d: ArcSetDelta) {
    n.arcs.Some? && d == ArcSetDelta(None, n.root, d.changes) && Turns([], n.arcs.value, d.changes)
  }

  // A delta replaces a version its vertex had. It creates the vertex only where the
  // previous graph, if it holds one version of each, has none of it with arcs.
  ghost predicate Follows(all: set<Snap>, n: Snap, d: ArcSetDelta) {
    if d.before.Some? then exists s :: s in all && Replaces(s, n, d)
    else Creates(n, d) && (OneEach(all) ==> forall s :: s in all && SameVertex(s, n) ==> s.arcs == None)
  }

  lemma IsDeltaFollows(old_: SnapIndex, all: set<Snap>, n: Snap, d: ArcSetDelta)
    requires Indexes(old_, all) && IsDelta(old_, n, d)
    ensures Follows(all, n, d)
  {
    hide Differences, ArcsMap, Changed;
    DifferencesApply(ArcsMap(PreviousArcs(old_, n)), ArcsMap(n.arcs.value), d.changes);
    var base := Previous(old_, n);
    if base.Some? {
      assert Replaces(base.value, n, d);
    }
  }

  // Where the previous graph holds one version of each vertex, a delta replaces the
  // version its own vertex had.
  lemma FollowsOnly(all: set<Snap>, n: Snap, d: ArcSetDelta, s: Snap)
    requires Follows(all, n, d) && OneEach(all) && s in all && SameVertex(s, n) && s.arcs.Some?
    ensures Replaces(s, n, d)
  {
    hide Turns;
  }

  // A version of the new graph whose root no version of the old one has.
  ghost predicate IsNew(old_: set<Snap>, all: set<Snap>, n: Snap) {
    n in all && n.arcs.Some? && forall s :: s in old_ ==> s.root != n.root
  }

  lemma {:induction false} EmitsFollow(old_: SnapIndex, next: SnapIndex, was: set<Snap>, all: set<Snap>,
                                       finished: seq<Target>, out: seq<ArcSetDelta>, d: ArcSetDelta)
    requires Indexes(old_, was) && Indexes(next, all) && Emits(old_, next, finished, out) && d in out
    ensures exists n :: IsNew(was, all, n) && Follows(was, n, d)
  {
    hide IsDelta, Follows;
    var k := |finished| - 1;
    var last := finished[k];
    if Emitted(old_, next, last) && d == out[|out| - 1] {
      IsDeltaFollows(old_, was, next.byCID[last], d);
      assert IsNew(was, all, next.byCID[last]);
    } else {
      EmitsFollow(old_, next, was, all, finished[..k],
        if Emitted(old_, next, last) then out[..|out| - 1] else out, d);
    }
  }

  // The emitted deltas are those of the finished CIDs that need one, in order.
  ghost predicate Emits(old_: SnapIndex, next: SnapIndex, finished: seq<Target>, out: seq<ArcSetDelta>) {
    if finished == [] then out == [] else
      var last := finished[|finished| - 1];
      if Emitted(old_, next, last) then
        out != [] && IsDelta(old_, next.byCID[last], out[|out| - 1])
        && Emits(old_, next, finished[..|finished| - 1], out[..|out| - 1])
      else Emits(old_, next, finished[..|finished| - 1], out)
  }

  // Each CID once, after everything it depends on.
  ghost predicate DependencyOrder(next: SnapIndex, finished: seq<Target>) {
    && (forall i, j :: 0 <= i < j < |finished| ==> finished[i] != finished[j])
    && forall i, c :: 0 <= i < |finished| && Depends(next, finished[i], c) ==> c in finished[..i]
  }

  ghost predicate Progress(old_: SnapIndex, next: SnapIndex, active: set<Target>, visited: set<Target>,
                           finished: seq<Target>, out: seq<ArcSetDelta>)
  {
    && active <= next.byCID.Keys && visited <= next.byCID.Keys
    && (forall k :: k in visited <==> k in finished) && visited !! active
    && DependencyOrder(next, finished) && Emits(old_, next, finished, out)
  }

  lemma Entered(old_: SnapIndex, next: SnapIndex, active: set<Target>, visited: set<Target>,
                finished: seq<Target>, out: seq<ArcSetDelta>, key: Target)
    requires Progress(old_, next, active, visited, finished, out) && key in next.byCID && key !in active
    requires key !in visited
    ensures Progress(old_, next, active + {key}, visited, finished, out)
    ensures |next.byCID.Keys - (active + {key})| < |next.byCID.Keys - active|
  {
    hide DependencyOrder, Emits;
    assert next.byCID.Keys - active == (next.byCID.Keys - (active + {key})) + {key};
  }

  // A CID whose dependencies are visited is finished, with its delta if it needs one.
  lemma Left(old_: SnapIndex, next: SnapIndex, active: set<Target>, visited: set<Target>,
             finished: seq<Target>, out: seq<ArcSetDelta>, key: Target, d: seq<ArcSetDelta>)
    requires Progress(old_, next, active, visited, finished, out) && key in active && key in next.byCID
    requires forall j :: 0 <= j < |next.byCID[key].children| ==> next.byCID[key].children[j].root in visited
    requires if Emitted(old_, next, key) then |d| == 1 && IsDelta(old_, next.byCID[key], d[0]) else d == []
    ensures Progress(old_, next, active - {key}, visited + {key}, finished + [key], out + d)
  {
    hide DependencyOrder, Emits, IsDelta;
    FinishOrder(next, finished, key);
    if Emitted(old_, next, key) {
      EmitsNext(old_, next, finished, key, out, d[0]);
      assert d == [d[0]];
    } else {
      EmitsSkip(old_, next, finished, key, out);
      assert out + d == out;
    }
  }

  class Visitor {
    const old_: SnapIndex
    const next: SnapIndex
    var visited: set<Target>
    var active: set<Target>
    var out: seq<ArcSetDelta>
    ghost var finished: seq<Target>

    constructor (old_: SnapIndex, next: SnapIndex)
      requires IndexClosed(next)
      ensures this.old_ == old_ && this.next == next && active == {} && visited == {} && Valid()
    {
      hide IndexClosed;
      this.old_, this.next := old_, next;
      visited, active, out, finished := {}, {}, [], [];
    }

    ghost predicate Valid()
      reads this
    {
      IndexClosed(next) && Progress(old_, next, active, visited, finished, out)
    }

    // Resolves the CID against everything known locally, then its dependencies,
    // then the CID itself.
    method Visit(key: Target) returns (r: Result<(), CommitError>)
      requires Valid() && key in next.byCID && forall a :: a in active ==> LeadsTo(next, a, key)
      modifies this
      ensures r.Ok? ==> Valid() && active == old(active) && visited >= old(visited) && key in visited
      ensures r.Err? ==> exists k :: LeadsTo(next, k, k)
      decreases |next.byCID.Keys - active|
    {
      hide LeadsTo, Depends, IndexClosed, Progress, IsDelta;
      if key in active {
        assert LeadsTo(next, key, key);
        return Err(Cycle);
      }
      if key in visited {
        return Ok(());
      }
      var n := next.byCID[key];
      Entered(old_, next, active, visited, finished, out, key);
      active := active + {key};
      for i := 0 to |n.children|
        invariant Valid() && active == old(active) + {key} && visited >= old(visited)
        invariant forall j :: 0 <= j < i ==> n.children[j].root in visited
      {
        ChildDepends(next, key, i);
        DependsOn(next, key, n.children[i].root);
        var done := Visit(n.children[i].root);
        if done.Err? {
          return done;
        }
      }
      ArcsDistinct(next, key);
      var d: seq<ArcSetDelta> := [];
      if n.arcs.Some? && key !in old_.byCID {
        var change := Describe(n);
        d := [change];
      }
      Left(old_, next, active, visited, finished, out, key, d);
      active := active - {key};
      visited := visited + {key};
      finished := finished + [key];
      out := out + d;
      return Ok(());
    }

    method Describe(n: Snap) returns (d: ArcSetDelta)
      requires n.arcs.Some? && DistinctNames(n.arcs.value)
      ensures IsDelta(old_, n, d)
    {
      var base := Previous(old_, n);
      var previous: seq<Arc> := [];
      var before: Option<Target> := None;
      if base.Some? {
        before := Some(base.value.root);
        previous := base.value.arcs.value;
      }
      var changes := DiffEntries(previous, n.arcs.value);
      return ArcSetDelta(before, n.root, changes);
    }
  }

  lemma ChildDepends(next: SnapIndex, key: Target, i: nat)
    requires IndexClosed(next) && key in next.byCID && i < |next.byCID[key].children|
    ensures Depends(next, key, next.byCID[key].children[i].root) && next.byCID[key].children[i].root in next.byCID
  {
  }

  lemma FinishOrder(next: SnapIndex, finished: seq<Target>, key: Target)
    requires DependencyOrder(next, finished) && key in next.byCID && key !in finished
    requires forall j :: 0 <= j < |next.byCID[key].children| ==> next.byCID[key].children[j].root in finished
    ensures DependencyOrder(next, finished + [key])
  {
    var all := finished + [key];
    forall i, c | 0 <= i < |all| && Depends(next, all[i], c)
      ensures c in all[..i]
    {
      assert all[..i] == finished[..i];
      if i == |finished| {
        assert finished[..i] == finished;
      }
    }
  }

  lemma EmitsSkip(old_: SnapIndex, next: SnapIndex, finished: seq<Target>, key: Target, out: seq<ArcSetDelta>)
    requires Emits(old_, next, finished, out) && !Emitted(old_, next, key)
    ensures Emits(old_, next, finished + [key], out)
  {
    assert (finished + [key])[..|finished|] == finished;
  }

  lemma EmitsNext(old_: SnapIndex, next: SnapIndex, finished: seq<Target>, key: Target, out: seq<ArcSetDelta>,
                  d: ArcSetDelta)
    requires Emits(old_, next, finished, out) && Emitted(old_, next, key) && IsDelta(old_, next.byCID[key], d)
    ensures Emits(old_, next, finished + [key], out + [d])
  {
    assert (finished + [key])[..|finished|] == finished && (out + [d])[..|out|] == out;
  }

  lemma ArcsDistinct(next: SnapIndex, key: Target)
    requires IndexClosed(next) && key in next.byCID
    ensures next.byCID[key].root == key
    ensures next.byCID[key].arcs.Some? ==> DistinctNames(next.byCID[key].arcs.value)
  {
  }

  // ---- Content and external references ----

  function SelfKey(): Target -> Target {
    (k: Target) => k
  }

  ghost predicate AscendingKeys(ks: seq<Target>) {
    forall i, j :: 0 <= i < j < |ks| ==> BytesLess(ks[i], ks[j])
  }

  method SortedKeys(m: map<Target, Snap>) returns (ks: seq<Target>)
    ensures AscendingKeys(ks) && forall k :: k in ks <==> k in m
  {
    hide BytesLess;
    var rest := m.Keys;
    var found: seq<Target> := [];
    while rest != {}
      invariant rest <= m.Keys && (forall k :: k in m <==> k in rest || k in found)
      invariant forall k :: k in found ==> k !in rest
      invariant Distinct(found, SelfKey())
      decreases |rest|
    {
      var k :| k in rest;
      found := found + [k];
      rest := rest - {k};
    }
    ks := Sort(found, ByKey(SelfKey()));
    KeysSorted(found);
  }

  lemma KeysSorted(found: seq<Target>)
    requires Distinct(found, SelfKey())
    ensures var ks := Sort(found, ByKey(SelfKey())); AscendingKeys(ks) && forall k :: k in ks <==> k in found
  {
    hide BytesLess;
    var less := ByKey(SelfKey());
    var ks := Sort(found, less);
    KeyOrders(SelfKey());
    SortSorts(found, less);
    SortMembers(found, less);
    PermutedDistinct(found, ks, SelfKey());
    forall i, j | 0 <= i < j < |ks|
      ensures BytesLess(ks[i], ks[j])
    {
      assert !less(ks[j], ks[i]) && SelfKey()(ks[i]) != SelfKey()(ks[j]);
      BytesAsymmetric(ks[i], ks[j]);
    }
  }

  predicate NewContent(old_: SnapIndex, next: SnapIndex, k: Target) {
    k in next.byCID && k !in old_.byCID && next.byCID[k].block.Some?
  }

  predicate NewExternal(old_: SnapIndex, next: SnapIndex, k: Target) {
    k in next.byCID && k !in old_.byCID && next.byCID[k].block == None && next.byCID[k].arcs == None
  }

  // Each new block with its bytes and each new external CID, once, in key order.
  ghost predicate LeavesAre(old_: SnapIndex, next: SnapIndex, blocks: seq<Block>, external: seq<Target>) {
    && (forall x :: x in blocks <==> NewContent(old_, next, x.cid) && next.byCID[x.cid].block == Some(x.data))
    && (forall i, j :: 0 <= i < j < |blocks| ==> BytesLess(blocks[i].cid, blocks[j].cid))
    && (forall k :: k in external <==> NewExternal(old_, next, k)) && AscendingKeys(external)
  }

  method CollectLeaves(old_: SnapIndex, next: SnapIndex) returns (blocks: seq<Block>, external: seq<Target>)
    ensures LeavesAre(old_, next, blocks, external)
  {
    hide BytesLess;
    var ks := SortedKeys(next.byCID);
    blocks, external := [], [];
    for i := 0 to |ks|
      invariant forall x :: x in blocks <==> (
        x.cid in ks[..i] && NewContent(old_, next, x.cid) && next.byCID[x.cid].block == Some(x.data))
      invariant forall a, c :: 0 <= a < c < |blocks| ==> BytesLess(blocks[a].cid, blocks[c].cid)
      invariant forall k :: k in external <==> k in ks[..i] && NewExternal(old_, next, k)
      invariant AscendingKeys(external)
    {
      var k := ks[i];
      assert k in ks && ks[..i + 1] == ks[..i] + [k];
      KeyAfter(ks, i);
      var n := next.byCID[k];
      if k !in old_.byCID {
        if n.block.Some? {
          blocks := blocks + [Block(k, n.block.value)];
        } else if n.arcs == None {
          external := external + [k];
        }
      }
    }
    assert ks[..|ks|] == ks;
  }

  lemma KeyAfter(ks: seq<Target>, i: nat)
    requires AscendingKeys(ks) && i < |ks|
    ensures forall k :: k in ks[..i] ==> BytesLess(k, ks[i])
  {
  }

  // ---- The delta ----

  // Binding: a root determines its arcs and what its children are, and is not the
  // CID of other content.
  ghost predicate Bound(all: set<Snap>) {
    forall s, t :: s in all && t in all && s.root == t.root && s.arcs.Some? && Material(t) ==>
      t.arcs == s.arcs && SameRoots(s.children, t.children)
  }

  ghost predicate SameRoots(x: seq<Snap>, y: seq<Snap>) {
    |x| == |y| && forall i :: 0 <= i < |x| ==> x[i].root == y[i].root
  }

  lemma IndexIsClosed(ix: SnapIndex, after: Snap)
    requires Indexes(ix, Below(after)) && Made(after)
    ensures IndexClosed(ix)
  {
    hide Below;
    MadeBelow(after);
    forall k, c | Depends(ix, k, c)
      ensures c in ix.byCID
    {
      BelowTransitive(after, ix.byCID[k]);
    }
  }

  // Compares two committed graphs.
  method Diff(before: Option<Snap>, after: Snap)
    returns (r: Result<Delta, CommitError>, ghost old_: SnapIndex, ghost next: SnapIndex, ghost finished: seq<Target>)
    requires Made(after)
    ensures Indexes(old_, Versions(before)) && Indexes(next, Below(after))
    ensures r.Err? ==> exists k :: LeadsTo(next, k, k)
    ensures r.Ok? ==> r.value.after == after.root
    ensures r.Ok? ==> r.value.before == if before.Some? then Some(before.value.root) else None
    ensures r.Ok? && r.value.before == Some(after.root) ==> (
      r.value.arcSets == [] && r.value.blocks == [] && r.value.external == [])
    ensures r.Ok? && r.value.before != Some(after.root) ==>
      WriteSet(old_, next, after, finished, r.value)
    ensures r.Ok? ==> forall d :: d in r.value.arcSets ==> (
      exists n :: IsNew(Versions(before), Below(after), n) && Follows(Versions(before), n, d))
  {
    hide Below, Indexes, DependencyOrder, Emits, LeadsTo, LeavesAre, IndexClosed, Made, IsNew, Follows;
    var out := Delta(if before.Some? then Some(before.value.root) else None, after.root, [], [], []);
    var old0 := IndexSnapshots(before);
    var next0 := IndexSnapshots(Some(after));
    old_, next, finished := old0, next0, [];
    if before.Some? && before.value.root == after.root {
      return Ok(out), old_, next, finished;
    }
    IndexIsClosed(next0, after);
    RootIndexed(next0, after);
    var v := new Visitor(old0, next0);
    var visited := v.Visit(after.root);
    if visited.Err? {
      return Err(visited.error), old_, next, finished;
    }
    finished := v.finished;
    forall d | d in v.out
      ensures exists n :: IsNew(Versions(before), Below(after), n) && Follows(Versions(before), n, d)
    {
      EmitsFollow(old0, next0, Versions(before), Below(after), finished, v.out, d);
    }
    var blocks, external := CollectLeaves(old0, next0);
    r := Ok(out.(arcSets := v.out, blocks := blocks, external := external));
  }

  lemma RootIndexed(ix: SnapIndex, after: Snap)
    requires Indexes(ix, Below(after))
    ensures after.root in ix.byCID
  {
  }

  // What a delta between different roots holds.
  ghost predicate WriteSet(old_: SnapIndex, next: SnapIndex, after: Snap, finished: seq<Target>, d: Delta) {
    && after.root in finished && DependencyOrder(next, finished) && Emits(old_, next, finished, d.arcSets)
    && LeavesAre(old_, next, d.blocks, d.external)
  }
}
