// The outermost commit: either every staged history advances, or none does.
module ObjectAtomic {
  import opened Words
  import opened Nodes
  import opened ObjectGraph
  import opened ObjectCommit
  import opened ObjectDelta

  // The histories a graph can touch.
  ghost function Histories(g: Graph): set<History> {
    set o | o in g.objects && g.IsVertex(o) :: g.VertexOf(o).history
  }

  ghost predicate OwnedState(g: Graph, staged: map<History, Staged>) {
    forall h :: h in staged ==> g.IsVertex(staged[h].owner) && g.VertexOf(staged[h].owner).history == h
  }

  // Moves every staged history one version on.
  method Confirm(staged: map<History, Staged>)
    modifies staged.Keys
    ensures forall h :: h in staged ==> h.before == old(h.after) && h.after == Some(staged[h].value)
  {
    var pending := staged.Keys;
    while pending != {}
      invariant pending <= staged.Keys
      invariant forall h :: h in pending ==> h.before == old(h.before) && h.after == old(h.after)
      invariant forall h :: h in staged && h !in pending ==> (
        h.before == old(h.after) && h.after == Some(staged[h].value))
      decreases pending
    {
      var h :| h in pending;
      h.before, h.after := h.after, Some(staged[h].value);
      pending := pending - {h};
    }
  }

  // The vertices one commit finished, each once, with their versions.
  ghost predicate Finished(g: Graph, done: map<Obj, Snap>, built: seq<Obj>) {
    && (forall o :: o in done && g.IsVertex(o) <==> o in built)
    && (forall i, j :: 0 <= i < j < |built| ==> built[i] != built[j])
    && forall o :: o in built ==> g.IsVertex(o) && o in done && Committed(g, done, o)
  }

  // A history no finished vertex has.
  ghost predicate Unbuilt(g: Graph, built: seq<Obj>, h: History) {
    forall p :: p in built && g.IsVertex(p) ==> g.VertexOf(p).history != h
  }

  // Confirming advances exactly the finished vertices.
  method Settle(g: Graph, staged: map<History, Staged>, ghost done: map<Obj, Snap>, ghost built: seq<Obj>)
    requires BuiltState(g, {}, done, staged, built) && OwnedState(g, staged) && staged.Keys <= Histories(g)
    modifies Histories(g)
    ensures Finished(g, done, built) && forall o :: o in done && g.IsVertex(o) <==> o in built
    ensures forall p :: p in built && g.IsVertex(p) && p in done ==>
      g.VertexOf(p).history.before == old(g.VertexOf(p).history.after) && g.VertexOf(p).history.after == Some(done[p])
    ensures forall h :: h in Histories(g) && Unbuilt(g, built, h) ==> (
      h.before == old(h.before) && h.after == old(h.after))
  {
    hide Committed, BuiltState, Finished, StagedState;
    BuiltFacts(g, done, staged, built);
    Confirm(staged);
  }

  // Commits one vertex and everything below it. On success exactly the finished
  // vertices advance, each to the version of this commit, and every object without a
  // helper stands for the CID it answered; on any failure, even one a custom object
  // swallowed, no history changes. A cycle always fails, and so does a context that is
  // cancelled before the commit or before it ends.
  method Commit(g: Graph, o: Obj, ctx: Context)
    returns (r: Result<Target, CommitError>, ghost done: map<Obj, Snap>, ghost built: seq<Obj>, ghost ran: seq<Obj>)
    requires g.Sensible() && g.IsVertex(o) && ctx.Valid() && !ctx.struck
    modifies ctx, Histories(g)
    ensures r.Err? ==> forall h :: h in Histories(g) ==> h.before == old(h.before) && h.after == old(h.after)
    ensures r.Err? ==> Explains(g, r.error) && (r.error == Cancelled ==> ctx.struck)
    ensures Returns(g, o) || old(ctx.left) < 2 ==> r.Err?
    ensures r.Ok? ==> Finished(g, done, built) && o in built && r.value == done[o].root
    ensures r.Ok? ==> forall p :: p in built && p in done ==> Made(done[p])
    ensures r.Ok? ==> forall p :: p in built && g.IsVertex(p) && p in done ==> Holds(g, done, p, g.VertexOf(p), done[p])
    ensures r.Ok? ==> forall p :: p in done && !g.IsVertex(p) ==> Adopted(g, done, p)
    ensures r.Ok? ==> RanOrder(g, o, ran) && ReuseOrder(g, done, ran) && forall p :: p in done ==> p in ran
    ensures r.Ok? ==> forall p :: p in done ==> OneEach(Below(done[p]))
    ensures r.Ok? ==> forall p :: p in built && g.IsVertex(p) && p in done ==>
      g.VertexOf(p).history.before == old(g.VertexOf(p).history.after) && g.VertexOf(p).history.after == Some(done[p])
    ensures r.Ok? ==> forall h :: h in Histories(g) && Unbuilt(g, built, h) ==> (
      h.before == old(h.before) && h.after == old(h.after))
  {
    hide Committed, Graph.Sensible, Explains, BuiltState, StagedState, RanOrder, Finished, OwnedState, Made, Returns,
      Scope.Valid, ReuseOrder, Adopted, OneEach, Below, Holds;
    var s := new Scope(g, ctx, o);
    r := s.WithCommit(o);
    done, built, ran := s.done, s.built, s.ran;
    if r.Ok? {
      s.Results();
      NeverReturns(g, o, s.ran);
      StagedWithin(g, s.staged, s.ids);
      OneVersion(g, done, s.staged, s.ids, built);
      AllHold(g, done, s.staged, built);
      Settle(g, s.staged, done, built);
    }
  }

  lemma StagedWithin(g: Graph, staged: map<History, Staged>, ids: map<nat, History>)
    requires StagedState(g, staged, ids)
    ensures staged.Keys <= Histories(g) && OwnedState(g, staged)
  {
  }

  lemma AllHold(g: Graph, done: map<Obj, Snap>, staged: map<History, Staged>, built: seq<Obj>)
    requires BuiltState(g, {}, done, staged, built)
    ensures forall p :: p in built ==> g.IsVertex(p) && p in done && Holds(g, done, p, g.VertexOf(p), done[p])
  {
    hide Committed, Holds;
    forall p | p in built
      ensures g.IsVertex(p) && p in done && Holds(g, done, p, g.VertexOf(p), done[p])
    {
      CommittedHolds(g, done, p);
    }
  }

  lemma BuiltFacts(g: Graph, done: map<Obj, Snap>, staged: map<History, Staged>, built: seq<Obj>)
    requires BuiltState(g, {}, done, staged, built) && OwnedState(g, staged)
    ensures Finished(g, done, built)
    ensures forall o :: o in done && g.IsVertex(o) <==> o in built
    ensures forall o :: o in built ==> g.VertexOf(o).history in staged && staged[g.VertexOf(o).history].value == done[o]
    ensures forall h :: h in staged ==> staged[h].owner in built
    ensures forall h :: h in staged && g.IsVertex(staged[h].owner) ==> g.VertexOf(staged[h].owner).history == h
    ensures forall o :: o in built ==> g.IsVertex(o)
  {
    hide Committed;
  }

  // ---- One version of each vertex ----

  // The version a vertex was given carries the id of its history.
  ghost predicate VersionOf(g: Graph, done: map<Obj, Snap>, q: Obj, s: Snap) {
    q in done && g.IsVertex(q) && done[q] == s && s.id == g.VertexOf(q).history.id
  }

  // Every version with an id was given to a vertex by this commit.
  lemma {:induction false} GivenBelow(g: Graph, done: map<Obj, Snap>, p: Obj, s: Snap)
    requires p in done && s in Below(done[p]) && s.id.Some?
    requires forall q :: q in done && g.IsVertex(q) ==> Committed(g, done, q)
    requires forall q :: q in done && !g.IsVertex(q) ==> Adopted(g, done, q)
    ensures exists q :: VersionOf(g, done, q, s)
    decreases done[p], if g.IsVertex(p) then 0 else 1
  {
    hide Committed, Adopted, Below, Reused;
    if !g.IsVertex(p) {
      StandsFor(g, done, p, s);
      var q :| q in done && g.IsVertex(q) && done[q] == done[p];
      GivenBelow(g, done, q, s);
    } else if s == done[p] {
      CommittedId(g, done, p);
      assert VersionOf(g, done, p, s);
    } else {
      var q := GivenChild(g, done, p, s);
      GivenBelow(g, done, q, s);
    }
  }

  lemma StandsFor(g: Graph, done: map<Obj, Snap>, p: Obj, s: Snap)
    requires Adopted(g, done, p) && s in Below(done[p]) && s.id.Some?
    ensures exists q :: q in done && g.IsVertex(q) && done[q] == done[p]
  {
  }

  lemma CommittedId(g: Graph, done: map<Obj, Snap>, p: Obj)
    requires g.IsVertex(p) && Committed(g, done, p)
    ensures done[p].id == g.VertexOf(p).history.id
  {
    hide Links, ArcsOf;
    var v := g.VertexOf(p);
    if !v.Content? {
      var children :| Sealed(g, done, p, v, children);
    }
  }

  // A version inside a vertex's own, if it has an id, is inside that of a reference.
  lemma GivenChild(g: Graph, done: map<Obj, Snap>, p: Obj, s: Snap) returns (q: Obj)
    requires g.IsVertex(p) && Committed(g, done, p) && s in Below(done[p]) && s != done[p] && s.id.Some?
    ensures q in done && done[q] < done[p] && s in Below(done[q])
  {
    hide Links, ArcsOf;
    var v := g.VertexOf(p);
    var i :| 0 <= i < |done[p].children| && s in Below(done[p].children[i]);
    var children :| Sealed(g, done, p, v, children);
    assert i < |children|;
    q := Links(v)[i].target.value;
    assert done[p].children[i] == done[q];
  }

  // The versions below a committed object hold one version of each vertex.
  lemma OneVersion(g: Graph, done: map<Obj, Snap>, staged: map<History, Staged>, ids: map<nat, History>,
                   built: seq<Obj>)
    requires BuiltState(g, {}, done, staged, built) && StagedState(g, staged, ids)
    requires forall q :: q in done && !g.IsVertex(q) ==> Adopted(g, done, q)
    ensures forall p :: p in done ==> OneEach(Below(done[p]))
  {
    hide Committed, Adopted, Below;
    forall p, s, t | p in done && s in Below(done[p]) && t in Below(done[p]) && s.id.Some? && s.id == t.id
      ensures s == t
    {
      GivenBelow(g, done, p, s);
      GivenBelow(g, done, p, t);
      var x :| VersionOf(g, done, x, s);
      var y :| VersionOf(g, done, y, t);
      assert x in built && y in built && g.VertexOf(x).history == g.VertexOf(y).history;
    }
  }

  // ---- Cycles ----

  // A walk over what Commit methods run within a commit of `top`.
  ghost predicate Walk(g: Graph, top: Obj, path: seq<Obj>) {
    path != [] && path[0] == top && forall i :: 0 <= i < |path| - 1 ==> Visits(g, top, path[i], path[i + 1])
  }

  // Some walk comes to an object twice: the commit runs into a cycle, through
  // references or through the calls of custom objects.
  ghost predicate Returns(g: Graph, top: Obj) {
    exists path, i, j :: Walk(g, top, path) && 0 <= i < j < |path| && path[i] == path[j]
  }

  // Along a walk, Commit methods finished in the opposite order.
  lemma {:induction false} WalkBack(g: Graph, top: Obj, ran: seq<Obj>, path: seq<Obj>, i: nat, j: nat, p: nat)
    returns (q: nat)
    requires RanOrder(g, top, ran) && Walk(g, top, path) && i < j < |path| && p < |ran| && ran[p] == path[i]
    ensures q < p && ran[q] == path[j]
    decreases j - i
  {
    hide Visits;
    var m := p;
    if i + 1 < j {
      m := WalkBack(g, top, ran, path, i, j - 1, p);
    }
    assert Visits(g, top, ran[m], path[j]);
    q :| 0 <= q < m && ran[q] == path[j];
  }

  // When everything that was run has finished in order, no walk returns: a commit
  // that succeeds has met no cycle.
  lemma NeverReturns(g: Graph, top: Obj, ran: seq<Obj>)
    requires RanOrder(g, top, ran) && top in ran
    ensures !Returns(g, top)
  {
    hide Visits;
    forall path, i, j | Walk(g, top, path) && 0 <= i < j < |path|
      ensures path[i] != path[j]
    {
      var p :| 0 <= p < |ran| && ran[p] == path[0];
      if i > 0 {
        p := WalkBack(g, top, ran, path, 0, i, p);
      }
      var q := WalkBack(g, top, ran, path, i, j, p);
    }
  }
}
