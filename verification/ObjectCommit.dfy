// The recursive commit of an object graph: cycle detection, shared children,
// staging, and all-or-nothing confirmation.
module ObjectCommit {
  import opened Words
  import opened Nodes
  import opened Sorting
  import opened Coordinates
  import opened ObjectGraph

  // Cancellation may strike at any check, and then stays.
  class Context {
    var left: nat
    ghost var struck: bool    // whether a check has reported it

    ghost predicate Valid()
      reads this
    {
      struck ==> left == 0
    }

    constructor (left: nat)
      ensures Valid() && !struck
    {
      this.left := left;
      struck := false;
    }

    method Live() returns (ok: bool)
      requires Valid()
      modifies this
      ensures Valid() && (struck <==> old(struck) || !ok) && (ok ==> !struck)
      ensures if old(left) == 0 then !ok && left == 0 else ok && left == old(left) - 1
    {
      ok := left > 0;
      if ok {
        left := left - 1;
      } else {
        struck := true;
      }
    }
  }

  datatype Staged = Staged(owner: Obj, value: Snap)

  // The committed vertices are exactly the built ones, each built once, to the
  // versions of its children, and staged.
  ghost predicate BuiltState(g: Graph, active: set<Obj>, done: map<Obj, Snap>, staged: map<History, Staged>,
                             built: seq<Obj>) {
    && (forall o :: o in done && g.IsVertex(o) <==> o in built)
    && (forall i, j :: 0 <= i < j < |built| ==> built[i] != built[j])
    && (forall o :: o in built ==> g.IsVertex(o) && StagedAs(g, done, staged, o) && Committed(g, done, o))
    && (forall h :: h in staged && staged[h].owner !in active ==> staged[h].owner in built)
  }

  ghost predicate StagedAs(g: Graph, done: map<Obj, Snap>, staged: map<History, Staged>, o: Obj)
    requires g.IsVertex(o)
  {
    var h := g.VertexOf(o).history;
    o in done && h in staged && staged[h] == Staged(o, done[o])
  }

  // A staged history belongs to its owner, and no two share an id.
  ghost predicate StagedState(g: Graph, staged: map<History, Staged>, ids: map<nat, History>) {
    && (forall h :: h in staged ==>
        && g.IsVertex(staged[h].owner) && g.VertexOf(staged[h].owner).history == h
        && h.id.Some? && h.id.value in ids && ids[h.id.value] == h)
    && forall i :: i in ids ==> ids[i] in staged && ids[i].id == Some(i)
  }

  lemma StageStaged(g: Graph, staged: map<History, Staged>, ids: map<nat, History>, h: History, s: Staged)
    requires StagedState(g, staged, ids) && g.IsVertex(s.owner) && g.VertexOf(s.owner).history == h && h.id.Some?
    requires h.id.value in ids ==> ids[h.id.value] == h
    ensures StagedState(g, staged[h := s], ids[h.id.value := h])
  {
  }

  // Why a vertex may not be staged.
  lemma StageFaults(g: Graph, staged: map<History, Staged>, ids: map<nat, History>, self: Obj)
    requires StagedState(g, staged, ids) && g.IsVertex(self)
    ensures var h := g.VertexOf(self).history;
      && (h.id == None ==> Explains(g, Uninitialized))
      && (h in staged && staged[h].owner != self ==> Explains(g, Shared))
      && (h.id.Some? && h.id.value in ids && ids[h.id.value] != h ==> Explains(g, Copied))
  {
    var h := g.VertexOf(self).history;
    if h in staged && staged[h].owner != self {
      assert SameHistory(g.VertexOf(staged[h].owner), g.VertexOf(self));
    }
    if h.id.Some? && h.id.value in ids && ids[h.id.value] != h {
      var other := ids[h.id.value];
      assert CopiedHistory(g.VertexOf(staged[other].owner), g.VertexOf(self));
    }
  }

  lemma CycleFault(g: Graph)
    ensures Explains(g, Cancelled) && (HasCycle(g) ==> Explains(g, Cycle))
  {
  }

  lemma CustomFault(g: Graph, o: Obj)
    requires o in g.objects
    ensures g.objects[o].finish == Fixed(None) ==> Explains(g, Invalid)
    ensures g.objects[o].finish.Fixed? || g.objects[o].finish.OfCall? ==> Explains(g, Disagrees)
    ensures g.objects[o].finish.Refuse? || g.objects[o].finish.OfCall? ==> Explains(g, Custom)
  {
  }

  lemma VertexFault(g: Graph, o: Obj)
    requires g.IsVertex(o)
    ensures BadReferences(g, o) ==> Explains(g, Invalid)
    ensures forall arcs, payload :: g.seal(o, arcs, payload) == None ==> Explains(g, Unbuildable)
  {
  }

  // A nil reference is a bad one; in a Map it is refused before any child.
  lemma NilFault(g: Graph, o: Obj)
    requires g.IsVertex(o)
    ensures !BadReferences(g, o) ==> forall r :: r in Links(g.VertexOf(o)) ==> r.target.Some?
  {
    var v := g.VertexOf(o);
    if v.MapSet? {
      SortMembers(v.refs, RefLess());
    } else if v.ListSet? && None !in v.items {
      forall i | 0 <= i < |v.items|
        ensures Links(v)[i].target.Some?
      {
        assert v.items[i] in v.items;
      }
    }
  }

  // ---- The order in which Commit methods finish ----

  // In a scope entered by the helper of `top`, one Commit method runs another:
  // through a reference, or by a call of its own before the helper.
  ghost predicate Visits(g: Graph, top: Obj, x: Obj, y: Obj) {
    Refers(g, x, y) || (x != top && x in g.objects && y in g.objects[x].calls)
  }

  // Commit methods in the order they finished for the first time, each after all
  // it ran; whatever has a version has finished.
  ghost predicate RanOrder(g: Graph, top: Obj, ran: seq<Obj>) {
    && (forall i, j :: 0 <= i < j < |ran| ==> ran[i] != ran[j])
    && forall i, y :: 0 <= i < |ran| && Visits(g, top, ran[i], y) ==> y in ran[..i]
  }

  ghost predicate RanState(g: Graph, top: Obj, done: map<Obj, Snap>, ran: seq<Obj>) {
    && RanOrder(g, top, ran) && (forall o :: o in done ==> o in ran) && ReuseOrder(g, done, ran)
    && forall o :: o in ran && g.IsVertex(o) ==> o in done
  }

  // An object that answers the root of a vertex finished before it stands for the
  // version this commit gave a vertex.
  ghost predicate ReuseOrder(g: Graph, done: map<Obj, Snap>, ran: seq<Obj>) {
    forall i, j :: 0 <= i < j < |ran| && Echoes(g, done, ran[i], ran[j]) ==> Reused(g, done, done[ran[j]])
  }

  ghost predicate Echoes(g: Graph, done: map<Obj, Snap>, q: Obj, p: Obj) {
    q in done && p in done && g.IsVertex(q) && !g.IsVertex(p) && done[q].root == done[p].root
  }

  lemma ReuseNext(g: Graph, done: map<Obj, Snap>, ran: seq<Obj>, o: Obj, more: map<Obj, Snap>)
    requires ReuseOrder(g, done, ran) && o !in done && o !in ran
    requires more == done || (g.IsVertex(o) && more.Keys == done.Keys + {o})
    requires forall p :: p in done ==> p in more && more[p] == done[p]
    ensures ReuseOrder(g, more, ran + [o])
  {
    hide Reused, Graph.IsVertex;
    AnswerStays(g, done, more);
    var all := ran + [o];
    forall i, j | 0 <= i < j < |all| && Echoes(g, more, all[i], all[j])
      ensures Reused(g, more, more[all[j]])
    {
      assert all[i] == ran[i];
      if j < |ran| {
        assert all[j] == ran[j] && all[i] in ran && all[j] in ran;
        assert Echoes(g, done, ran[i], ran[j]);
      }
    }
  }

  // ---- Versions by CID ----

  // Versions are filed under their own CIDs, and objects without a helper have the
  // roots they answered.
  ghost predicate Answered(g: Graph, done: map<Obj, Snap>, byCID: map<Target, Snap>) {
    && (forall c :: c in byCID ==> byCID[c].root == c)
    && forall p :: p in done && !g.IsVertex(p) ==> AnswerOf(g, done, p) == Some(done[p].root)
  }

  // Exactly the versions of vertices are filed.
  ghost predicate Filed(g: Graph, done: map<Obj, Snap>, byCID: map<Target, Snap>) {
    && (forall c :: c in byCID ==> Reused(g, done, byCID[c]))
    && (forall q :: q in done && g.IsVertex(q) ==> done[q].root in byCID)
    && forall p :: p in done && !g.IsVertex(p) ==> Adopted(g, done, p)
  }

  lemma RecordFiled(g: Graph, done: map<Obj, Snap>, byCID: map<Target, Snap>, o: Obj, node: Snap)
    requires Answered(g, done, byCID) && Filed(g, done, byCID) && g.IsVertex(o) && o !in done
    ensures Answered(g, done[o := node], byCID[node.root := node])
    ensures Filed(g, done[o := node], byCID[node.root := node])
  {
    hide Reused, Adopted, AnswerOf;
    AnswerStays(g, done, done[o := node]);
    ReusedOf(g, done[o := node], o);
  }

  lemma ReusedOf(g: Graph, done: map<Obj, Snap>, o: Obj)
    requires g.IsVertex(o) && o in done
    ensures Reused(g, done, done[o])
  {
  }

  // The version an answer stands for.
  function Version(byCID: map<Target, Snap>, root: Target): Snap {
    if root in byCID then byCID[root] else Opaque(root)
  }

  lemma AdoptAnswered(g: Graph, done: map<Obj, Snap>, byCID: map<Target, Snap>, o: Obj, root: Target)
    requires Answered(g, done, byCID) && o !in done && AnswerOf(g, done, o) == Some(root)
    ensures Answered(g, done[o := Version(byCID, root)], byCID)
  {
    hide AnswerOf;
    AnswerStays(g, done, done[o := Version(byCID, root)]);
  }

  lemma AdoptFiled(g: Graph, done: map<Obj, Snap>, byCID: map<Target, Snap>, o: Obj, root: Target)
    requires g.Sensible() && Answered(g, done, byCID) && Filed(g, done, byCID)
    requires !g.IsVertex(o) && o !in done && AnswerOf(g, done, o) == Some(root)
    ensures Filed(g, done[o := Version(byCID, root)], byCID)
  {
    hide Reused, Graph.Inside, Origin;
    var node := Version(byCID, root);
    AnswerStays(g, done, done[o := node]);
  }

  lemma AdoptOrder(g: Graph, top: Obj, done: map<Obj, Snap>, ran: seq<Obj>, byCID: map<Target, Snap>, o: Obj,
                   root: Target)
    requires RanState(g, top, done, ran) && Answered(g, done, byCID) && Filed(g, done, byCID)
    requires !g.IsVertex(o) && o !in done && o in ran && AnswerOf(g, done, o) == Some(root)
    ensures RanState(g, top, done[o := Version(byCID, root)], ran)
  {
    hide Reused, RanOrder, AnswerOf;
    var more := done[o := Version(byCID, root)];
    AnswerStays(g, done, more);
    forall i, j | 0 <= i < j < |ran| && Echoes(g, more, ran[i], ran[j])
      ensures Reused(g, more, more[ran[j]])
    {
      if ran[j] == o {
        assert more[ran[i]].root in byCID;
      } else {
        assert Echoes(g, done, ran[i], ran[j]);
      }
    }
  }

  lemma RecordRan(g: Graph, top: Obj, done: map<Obj, Snap>, ran: seq<Obj>, o: Obj, node: Snap)
    requires RanState(g, top, done, ran) && g.IsVertex(o) && o !in done && forall y :: Refers(g, o, y) ==> y in done
    requires o != top && o in g.objects ==> forall c :: c in g.objects[o].calls ==> c in ran
    ensures RanState(g, top, done[o := node], ran + [o])
  {
    hide Refers, RanOrder, ReuseOrder;
    RanNext(g, top, ran, o);
    ReuseNext(g, done, ran, o, done[o := node]);
  }

  lemma RanNext(g: Graph, top: Obj, ran: seq<Obj>, o: Obj)
    requires RanOrder(g, top, ran) && o !in ran && forall y :: Visits(g, top, o, y) ==> y in ran
    ensures RanOrder(g, top, ran + [o])
  {
    hide Visits;
    var all := ran + [o];
    forall i, y | 0 <= i < |all| && Visits(g, top, all[i], y)
      ensures y in all[..i]
    {
      assert all[..i] == ran[..i];
      if i == |ran| {
        assert ran[..i] == ran;
      }
    }
  }

  lemma EnterBuilt(g: Graph, active: set<Obj>, more: set<Obj>, done: map<Obj, Snap>, staged: map<History, Staged>,
                   built: seq<Obj>)
    requires BuiltState(g, active, done, staged, built) && active <= more
    ensures BuiltState(g, more, done, staged, built)
  {
    hide Committed, StagedAs;
  }

  // A finished vertex joins the built ones.
  lemma RecordBuilt(g: Graph, active: set<Obj>, done: map<Obj, Snap>, staged: map<History, Staged>, built: seq<Obj>,
                    o: Obj, node: Snap)
    requires BuiltState(g, active, done, staged, built) && g.IsVertex(o) && o !in done
    requires Committed(g, done[o := node], o) && StagedAs(g, done[o := node], staged, o)
    ensures BuiltState(g, active - {o}, done[o := node], staged, built + [o])
  {
    hide Committed;
    BuiltGrow(g, built, done, done[o := node]);
    assert o !in built;
  }

  // An active vertex may be staged without disturbing the finished ones.
  lemma StageBuilt(g: Graph, active: set<Obj>, done: map<Obj, Snap>, staged: map<History, Staged>, built: seq<Obj>,
                   h: History, s: Staged)
    requires BuiltState(g, active, done, staged, built) && s.owner in active && s.owner !in done
    requires h in staged ==> staged[h].owner == s.owner
    ensures BuiltState(g, active, done, staged[h := s], built)
  {
    hide Committed;
  }

  lemma AdoptBuilt(g: Graph, active: set<Obj>, done: map<Obj, Snap>, staged: map<History, Staged>, built: seq<Obj>,
                   o: Obj, node: Snap)
    requires BuiltState(g, active, done, staged, built) && !g.IsVertex(o) && o !in done
    ensures BuiltState(g, active, done[o := node], staged, built)
  {
    hide Committed;
    BuiltGrow(g, built, done, done[o := node]);
  }

  // What a traversal can be asked about a moment.
  datatype Moment = Moment(active: set<Obj>, done: map<Obj, Snap>, failed: Option<CommitError>, built: seq<Obj>,
                           ran: seq<Obj>, quiet: bool, struck: bool, left: nat)

  // Committed versions are never replaced, the first failure stays, and what was
  // finished stays finished.
  ghost predicate Later(p: Moment, q: Moment) {
    && (forall o :: o in p.done ==> o in q.done && q.done[o] == p.done[o])
    && (p.failed.Some? ==> q.failed == p.failed)
    && p.built <= q.built && p.ran <= q.ran && (q.quiet ==> p.quiet) && (p.struck ==> q.struck)
    && q.left <= p.left
  }

  // A Commit method's result is explained: an error by the graph or a cancellation
  // that a check saw, and a CID is the one the object answers.
  ghost predicate Reported(g: Graph, m: Moment, o: Obj, r: Result<Option<Target>, CommitError>) {
    match r
    case Err(e) => Explains(g, e) && (e == Cancelled ==> m.struck)
    case Ok(root) => if root.None? then Explains(g, Invalid) else AnswerOf(g, m.done, o) == root
  }

  lemma ReportsStay(g: Graph, p: Moment, q: Moment, calls: seq<Obj>,
                    results: seq<Result<Option<Target>, CommitError>>)
    requires Keeps(p, q) && |calls| == |results|
    requires forall k :: 0 <= k < |calls| ==> Reported(g, p, calls[k], results[k])
    ensures forall k :: 0 <= k < |calls| ==> Reported(g, q, calls[k], results[k])
  {
    hide Explains, AnswerOf;
    KeepsFacts(p, q);
    AnswerStays(g, p.done, q.done);
  }

  // What every step of a traversal keeps; no object being committed is added.
  ghost predicate Keeps(p: Moment, q: Moment) {
    q.active == p.active && Later(p, q) && forall o :: o in q.active && o in q.done ==> o in p.done
  }

  ghost predicate Leaves(p: Moment, q: Moment, o: Obj) {
    q.active == p.active - {o} && Later(p, q) && forall x :: x in q.active && x in q.done ==> x in p.done
  }

  lemma KeepsTrans(p: Moment, q: Moment, r: Moment)
    requires Keeps(p, q) && Keeps(q, r)
    ensures Keeps(p, r)
  {
  }

  lemma LeavesTrans(p: Moment, q: Moment, r: Moment, o: Obj)
    requires Keeps(p, q) && Leaves(q, r, o)
    ensures Leaves(p, r, o)
  {
  }

  lemma KeepsFacts(p: Moment, q: Moment)
    requires Keeps(p, q)
    ensures q.active == p.active && (q.quiet ==> p.quiet) && (p.struck ==> q.struck) && q.left <= p.left
    ensures forall o :: o in p.done ==> o in q.done && q.done[o] == p.done[o]
    ensures forall o :: o in p.ran ==> o in q.ran
    ensures forall o :: o in q.active && o in q.done ==> o in p.done
  {
  }

  // Entering a vertex and leaving it again keeps everything.
  lemma EnterLeave(p: Moment, q: Moment, r: Moment, o: Obj)
    requires q == p.(active := p.active + {o}) && o !in p.active && Leaves(q, r, o)
    ensures Keeps(p, r)
  {
    assert p.active + {o} - {o} == p.active;
  }

  lemma LeavesNow(p: Moment, q: Moment, o: Obj)
    requires q == p.(active := p.active - {o})
    ensures Leaves(p, q, o)
  {
  }

  lemma LeavesRecorded(p: Moment, q: Moment, o: Obj, node: Snap)
    requires o !in p.done && q.active == p.active - {o} && q.done == p.done[o := node] && q.failed == p.failed
    requires q.built == p.built + [o] && q.ran == p.ran + [o] && (q.quiet ==> p.quiet) && q.struck == p.struck
    requires q.left == p.left
    ensures Leaves(p, q, o)
  {
  }

  lemma StayPut(p: Moment)
    ensures Keeps(p, p)
  {
  }

  // The state of one outermost commit.
  class Scope {
    const g: Graph
    const ctx: Context
    ghost const top: Obj           // the object whose helper opened the scope
    var active: set<Obj>
    var done: map<Obj, Snap>
    var byCID: map<Target, Snap>
    var staged: map<History, Staged>
    var ids: map<nat, History>
    var failed: Option<CommitError>
    ghost var built: seq<Obj>      // successful builds, in order
    ghost var ran: seq<Obj>        // Commit methods in the order they finished

    constructor (g: Graph, ctx: Context, ghost top: Obj)
      requires g.Sensible() && ctx.Valid() && !ctx.struck
      ensures this.g == g && this.ctx == ctx && this.top == top
      ensures active == {} && done == map[] && built == [] && ran == [] && failed == None && Valid() && Quiet()
    {
      this.g := g;
      this.ctx := ctx;
      this.top := top;
      active, done, byCID, staged, ids, failed, built, ran := {}, map[], map[], map[], map[], None, [], [];
    }

    // Nothing has failed, and no check has reported a cancellation.
    ghost predicate Quiet()
      reads this, ctx
    {
      failed == None && !ctx.struck
    }

    ghost predicate Valid()
      reads this, ctx
    {
      && ctx.Valid() && g.Sensible() && active <= g.objects.Keys && done.Keys <= g.objects.Keys
      && (forall c :: c in byCID ==> Made(byCID[c])) && (forall o :: o in done ==> Made(done[o]))
      && StagedState(g, staged, ids) && Answered(g, done, byCID)
      && (Quiet() ==> (
            BuiltState(g, active, done, staged, built) && RanState(g, top, done, ran) && Filed(g, done, byCID)))
      && (failed.Some? ==> Explains(g, failed.value)) && (failed == Some(Cancelled) ==> ctx.struck)
    }

    // Every object being committed leads to this one.
    ghost predicate Under(o: Obj)
      reads this
    {
      forall a :: a in active ==> a == o || Leads(g, a, o)
    }

    ghost predicate StrictlyUnder(o: Obj)
      reads this
    {
      forall a :: a in active ==> Leads(g, a, o)
    }

    // The calls an object makes before its helper have finished.
    ghost predicate Prepared(o: Obj)
      reads this
    {
      o != top && o in g.objects ==> forall c :: c in g.objects[o].calls ==> c in ran
    }

    ghost function Now(): Moment
      reads this, ctx
    {
      Moment(active, done, failed, built, ran, Quiet(), ctx.struck, ctx.left)
    }

    twostate predicate Advances()
      reads this, ctx
    {
      Keeps(old(Now()), Now())
    }

    // A context check.
    method Check() returns (ok: bool)
      requires Valid()
      modifies ctx
      ensures Valid() && Advances()
      ensures if ok then !ctx.struck && (Quiet() <==> old(Quiet())) else !Quiet() && ctx.struck
      ensures if old(ctx.left) == 0 then !ok else ok && ctx.left == old(ctx.left) - 1
    {
      hide Graph.Sensible, BuiltState, RanState, StagedState, Answered, Filed, Explains, Made;
      ok := ctx.Live();
    }

    method Fail(e: CommitError) returns (r: CommitError)
      requires Valid() && Explains(g, e) && (e == Cancelled ==> ctx.struck)
      modifies this
      ensures Valid() && Advances() && failed.Some? && r == e
      ensures done == old(done) && built == old(built)
    {
      hide Graph.Sensible, BuiltState, RanState, StagedState, Answered, Filed, Explains, Made;
      if failed == None {
        failed := Some(e);
      }
      return e;
    }

    lemma SensibleAt(o: Obj)
      requires Valid() && o in g.objects
      ensures g.objects[o].rank < g.top && (g.objects[o].finish.Helper? ==> g.IsVertex(o))
      ensures forall c :: c in g.objects[o].calls ==> c in g.objects && g.objects[c].rank < g.objects[o].rank
    {
    }

    lemma LinkInside(o: Obj, i: nat)
      requires Valid() && g.IsVertex(o) && i < |Links(g.VertexOf(o))|
      ensures var r := Links(g.VertexOf(o))[i];
        r.target.Some? ==> r.target.value in g.objects && g.objects[r.target.value].rank < g.top
    {
      hide EncodeIndex;
      var v := g.VertexOf(o);
      if v.MapSet? {
        SortMembers(v.refs, RefLess());
        assert Links(v)[i] in Links(v);
      } else if v.ListSet? {
        assert v.items[i] in v.items;
      }
    }

    // The Commit method of an object, within this scope.
    method Run(o: Obj) returns (r: Result<Option<Target>, CommitError>)
      requires Valid() && o in g.objects && StrictlyUnder(o)
      modifies this, ctx
      ensures Valid() && Advances()
      ensures Reported(g, Now(), o, r)
      ensures r.Ok? && g.objects[o].finish.Helper? ==> o in done && r.value == Some(done[o].root)
      ensures g.objects[o].finish.Refuse? ==> r.Err?
      ensures Quiet() ==> o in ran && (g.IsVertex(o) ==> o in done)
      decreases |g.objects.Keys - active|, g.objects[o].rank, 1
    {
      hide Valid, Leads, Explains, Visits, Keeps, Reported;
      SensibleAt(o);
      var b := g.objects[o];
      var results: seq<Result<Option<Target>, CommitError>> := [];
      StayPut(Now());
      for i := 0 to |b.calls|
        invariant Valid() && Advances() && |results| == i
        invariant forall k :: 0 <= k < i ==> Reported(g, Now(), b.calls[k], results[k])
        invariant Quiet() ==> forall k :: 0 <= k < i ==> b.calls[k] in ran
      {
        ghost var before := Now();
        KeepsFacts(old(Now()), before);
        UnderCall(old(Now()), o, b.calls[i]);
        var got := Run(b.calls[i]);
        KeepsFacts(before, Now());
        ReportsStay(g, before, Now(), b.calls[..i], results);
        KeepsTrans(old(Now()), before, Now());
        results := results + [got];
      }
      ghost var before := Now();
      KeepsFacts(old(Now()), before);
      StillUnder(old(Now()), o);
      var helped: Result<Target, CommitError> := Err(Custom);
      if b.helper.Some? {
        helped := WithCommit(o);
      } else {
        Finish(o);
      }
      KeepsTrans(old(Now()), before, Now());
      ReportsStay(g, before, Now(), b.calls, results);
      match b.finish {
        case Helper => r := if helped.Ok? then Ok(Some(helped.value)) else Err(helped.error);
        case Fixed(root) => r := Ok(root);
        case Refuse => r := Err(Custom);
        case OfCall(i) => r := if i < |results| then results[i] else Err(Custom);
      }
      OwnReport(o, helped, results, r);
    }

    // An object answers by its own helper, its own CID, or one of its calls.
    lemma OwnReport(o: Obj, helped: Result<Target, CommitError>, results: seq<Result<Option<Target>, CommitError>>,
                    r: Result<Option<Target>, CommitError>)
      requires Valid() && o in g.objects && |results| == |g.objects[o].calls|
      requires forall k :: 0 <= k < |results| ==> Reported(g, Now(), g.objects[o].calls[k], results[k])
      requires helped.Ok? ==> o in done && helped.value == done[o].root
      requires g.IsVertex(o) && helped.Err? ==> Explains(g, helped.error) && (helped.error == Cancelled ==> ctx.struck)
      requires r == match g.objects[o].finish
        case Helper => if helped.Ok? then Ok(Some(helped.value)) else Err(helped.error)
        case Fixed(root) => Ok(root)
        case Refuse => Err(Custom)
        case OfCall(i) => if i < |results| then results[i] else Err(Custom)
      ensures Reported(g, Now(), o, r)
    {
      hide BuiltState, RanState, StagedState, Answered, Filed, Explains, Made;
      CustomFault(g, o);
      SensibleAt(o);
    }

    // What leads to an object also leads to what it calls.
    lemma UnderCall(p: Moment, o: Obj, c: Obj)
      requires p.active == active || Keeps(p, Now())
      requires (forall a :: a in p.active ==> Leads(g, a, o)) && o in g.objects && c in g.objects[o].calls
      ensures StrictlyUnder(c)
    {
      hide Leads;
      LeadsOn(g, o, c);
    }

    lemma StillUnder(p: Moment, o: Obj)
      requires Keeps(p, Now()) && forall a :: a in p.active ==> Leads(g, a, o)
      ensures StrictlyUnder(o)
    {
      hide Leads;
    }

    // A Commit method without a helper is over.
    ghost method Finish(o: Obj)
      requires Valid() && o in g.objects && !g.IsVertex(o)
      requires (Quiet() ==> forall c :: c in g.objects[o].calls ==> c in ran)
      modifies this`ran
      ensures Valid() && Advances() && (Quiet() <==> old(Quiet())) && (Quiet() ==> o in ran)
    {
      hide Graph.Sensible, BuiltState, StagedState, Answered, Filed, ReuseOrder, Explains, Made;
      if Quiet() && o !in ran {
        RanNext(g, top, ran, o);
        ReuseNext(g, done, ran, o, done);
        ran := ran + [o];
      }
    }

    // Scopes one vertex: detects cycles, shares finished vertices, and records
    // the vertex only if neither its build nor anything before it failed.
    method WithCommit(o: Obj) returns (r: Result<Target, CommitError>)
      requires Valid() && g.IsVertex(o) && StrictlyUnder(o) && (Quiet() ==> Prepared(o))
      modifies this, ctx
      ensures Valid() && Advances()
      ensures r.Err? ==> Explains(g, r.error) && !Quiet() && (r.error == Cancelled ==> ctx.struck)
      ensures r.Ok? ==> o in done && r.value == done[o].root
      ensures r.Ok? && o !in old(done) ==> Quiet() && ctx.left + 2 <= old(ctx.left)
      ensures r.Ok? ==> ctx.left < old(ctx.left)
      ensures Quiet() ==> o in ran
      decreases |g.objects.Keys - active|, 0, 0
    {
      hide Valid, Leads, Keeps, Leaves, Explains;
      CycleFault(g);
      InGraph(o);
      ghost var start := Now();
      var live := Check();
      ghost var checked := Now();
      KeepsFacts(start, checked);
      if !live {
        return Err(Cancelled);
      }
      if o in active {
        CycleFound(o);
        var e := Fail(Cycle);
        KeepsTrans(start, checked, Now());
        return Err(e);
      }
      if o in done {
        DoneRan(o);
        return Ok(done[o].root);
      }
      Smaller(g.objects.Keys, active, o);
      Enter(o);
      ghost var entered := Now();
      UnderItself(o);
      r := Attempt(o);
      EnterLeave(checked, entered, Now(), o);
      KeepsTrans(start, checked, Now());
    }

    lemma UnderItself(o: Obj)
      requires forall a :: a in active ==> a == o || Leads(g, a, o)
      ensures Under(o)
    {
    }

    // Builds an entered vertex, and leaves it.
    method Attempt(o: Obj) returns (r: Result<Target, CommitError>)
      requires Valid() && g.IsVertex(o) && o in active && o !in done && Under(o) && (Quiet() ==> Prepared(o))
      modifies this, ctx
      ensures Valid() && Leaves(old(Now()), Now(), o)
      ensures r.Err? ==> Explains(g, r.error) && !Quiet() && (r.error == Cancelled ==> ctx.struck)
      ensures r.Ok? ==> o in done && r.value == done[o].root && Quiet() && o in ran && ctx.left < old(ctx.left)
      decreases |g.objects.Keys - active|, g.top, 3
    {
      hide Valid, Leads, Committed, Visits, Keeps, Leaves, Explains, Made, Refers, Under, Graph.IsVertex,
        Graph.VertexOf;
      CycleFault(g);
      ghost var start := Now();
      var node := Build(o);
      ghost var tried := Now();
      KeepsFacts(start, tried);
      if node.Err? {
        var e := Fail(node.error);
        KeepsTrans(start, tried, Now());
        LeaveAfter(o, start);
        return Err(e);
      }
      var live := Check();
      ghost var checked := Now();
      KeepsFacts(tried, checked);
      KeepsTrans(start, tried, checked);
      if !live {
        var e := Fail(Cancelled);
        KeepsTrans(start, checked, Now());
        LeaveAfter(o, start);
        return Err(e);
      }
      if failed.Some? {
        FailedFault();
        LeaveAfter(o, start);
        return Err(failed.value);
      }
      Record(o, node.value);
      LeavesTrans(start, checked, Now(), o);
      return Ok(node.value.root);
    }

    method LeaveAfter(o: Obj, ghost start: Moment)
      requires Valid() && failed.Some? && Keeps(start, Now())
      modifies this`active
      ensures Valid() && Leaves(start, Now(), o) && (Quiet() <==> old(Quiet()))
    {
      hide Graph.Sensible, BuiltState, RanState, StagedState, Answered, Filed, Explains, Made, Keeps, Leaves;
      ghost var before := Now();
      Leave(o);
      LeavesNow(before, Now(), o);
      LeavesTrans(start, before, Now(), o);
    }

    lemma InGraph(o: Obj)
      requires Valid() && g.IsVertex(o)
      ensures o in g.objects && (o in done ==> Made(done[o]))
    {
    }

    lemma DoneRan(o: Obj)
      requires Valid() && o in done
      ensures Quiet() ==> o in ran
    {
    }

    // What a scope that never failed leaves behind.
    lemma Results()
      requires Valid() && Quiet()
      ensures BuiltState(g, active, done, staged, built) && StagedState(g, staged, ids)
      ensures RanOrder(g, top, ran) && ReuseOrder(g, done, ran) && forall o :: o in done ==> o in ran && Made(done[o])
      ensures forall p :: p in done && !g.IsVertex(p) ==> Adopted(g, done, p)
    {
      hide Graph.Sensible, BuiltState, StagedState, Answered, RanOrder, ReuseOrder, Explains, Made, Adopted;
    }

    lemma FailedFault()
      requires Valid() && failed.Some?
      ensures Explains(g, failed.value) && (failed.value == Cancelled ==> ctx.struck)
    {
    }

    method Enter(o: Obj)
      requires Valid() && g.IsVertex(o)
      modifies this`active
      ensures Valid() && active == old(active) + {o}
    {
      hide Graph.Sensible, BuiltState, RanState, StagedState, Answered, Filed, Explains, Made;
      if failed == None && BuiltState(g, active, done, staged, built) {
        EnterBuilt(g, active, active + {o}, done, staged, built);
      }
      active := active + {o};
    }

    method Leave(o: Obj)
      requires Valid() && failed.Some?
      modifies this`active
      ensures Valid() && active == old(active) - {o}
    {
      hide Graph.Sensible, BuiltState, RanState, StagedState, Answered, Filed, Explains, Made;
      active := active - {o};
    }

    // Adds a finished vertex.
    method Record(o: Obj, node: Snap)
      requires Valid() && Quiet() && g.IsVertex(o) && o in active && o !in done && Made(node)
      requires Committed(g, done[o := node], o)
      requires var h := g.VertexOf(o).history; h in staged && staged[h] == Staged(o, node)
      requires Prepared(o) && forall y :: Refers(g, o, y) ==> y in done
      modifies this
      ensures Valid() && Quiet() && active == old(active) - {o}
      ensures done == old(done)[o := node] && built == old(built) + [o] && ran == old(ran) + [o]
      ensures Leaves(old(Now()), Now(), o)
    {
      hide Committed, Graph.Sensible, BuiltState, RanState, StagedState, Answered, Filed, Explains, Made, Refers,
        Leaves;
      ghost var start := Now();
      RecordBuilt(g, active, done, staged, built, o, node);
      RecordRan(g, top, done, ran, o, node);
      RecordFiled(g, done, byCID, o, node);
      done := done[o := node];
      byCID := byCID[node.root := node];
      built := built + [o];
      ran := ran + [o];
      active := active - {o};
      LeavesRecorded(start, Now(), o, node);
    }

    // Registers the next version of a history under its owner.
    method Stage(self: Obj, node: Snap) returns (r: Result<Snap, CommitError>)
      requires Valid() && g.IsVertex(self) && self in active && self !in done
      modifies this
      ensures Valid() && Advances() && done == old(done) && ran == old(ran) && (Quiet() <==> old(Quiet()))
      ensures r.Err? ==> Explains(g, r.error) && r.error != Cancelled
      ensures var h := g.VertexOf(self).history;
        r.Ok? ==> r.value == node.(id := h.id) && h in staged && staged[h] == Staged(self, r.value)
    {
      hide Committed, Graph.Sensible, BuiltState, RanState, StagedState, Answered, Filed, Explains, Made;
      var h := g.VertexOf(self).history;
      StageFaults(g, staged, ids, self);
      if h.id == None {
        return Err(Uninitialized);
      }
      if h in staged && staged[h].owner != self {
        return Err(Shared);
      }
      if h.id.value in ids && ids[h.id.value] != h {
        return Err(Copied);
      }
      var next := node.(id := h.id);
      if BuiltState(g, active, done, staged, built) {
        StageBuilt(g, active, done, staged, built, h, Staged(self, next));
      }
      StageStaged(g, staged, ids, h, Staged(self, next));
      ids := ids[h.id.value := h];
      staged := staged[h := Staged(self, next)];
      return Ok(next);
    }

    // What a build gives when it succeeds.
    ghost predicate Builds(o: Obj, node: Snap)
      requires g.IsVertex(o)
      reads this, ctx
    {
      && Made(node) && g.VertexOf(o).history in staged && staged[g.VertexOf(o).history] == Staged(o, node)
      && (Quiet() ==> Committed(g, done[o := node], o) && forall y :: Refers(g, o, y) ==> y in done)
    }

    // A vertex's own work: nothing for content, children first otherwise.
    method Build(o: Obj) returns (r: Result<Snap, CommitError>)
      requires Valid() && g.IsVertex(o) && o in active && o !in done && Under(o)
      modifies this, ctx
      ensures Valid() && Advances()
      ensures if r.Ok? then Builds(o, r.value) else Explains(g, r.error) && (r.error == Cancelled ==> ctx.struck)
      decreases |g.objects.Keys - active|, g.top, 2
    {
      hide Valid;
      match g.VertexOf(o)
      case Content(h, root, data) =>
        r := Stage(o, Snap(None, root, None, Some(data), []));
      case MapSet(h, refs, payload) =>
        r := CommitReferences(o, refs);
      case ListSet(h, items, payload) =>
        r := CommitLinks(o);
    }

    method CheckReferences(refs: seq<Reference>) returns (ok: bool)
      ensures ok <==> RefsOk(g, refs)
    {
      var seen: set<Label> := {};
      for i := 0 to |refs|
        invariant RefsOk(g, refs[..i]) && forall n :: n in seen <==> exists j :: 0 <= j < i && refs[j].name == n
      {
        if !g.admits(refs[i].name) || refs[i].target == None {
          assert refs[i] in refs;
          return false;
        }
        if refs[i].name in seen {
          return false;
        }
        seen := seen + {refs[i].name};
        assert refs[..i + 1] == refs[..i] + [refs[i]];
      }
      assert refs[..|refs|] == refs;
      return true;
    }

    // Validates the complete reference set of a Map before any child is committed.
    method CommitReferences(o: Obj, refs: seq<Reference>) returns (r: Result<Snap, CommitError>)
      requires Valid() && g.IsVertex(o) && o in active && o !in done && Under(o)
      requires g.VertexOf(o).MapSet? && g.VertexOf(o).refs == refs
      modifies this, ctx
      ensures Valid() && Advances()
      ensures if r.Ok? then Builds(o, r.value) else Explains(g, r.error) && (r.error == Cancelled ==> ctx.struck)
      decreases |g.objects.Keys - active|, g.top, 1
    {
      hide Valid, Explains, RefsOk, Builds;
      VertexFault(g, o);
      var ok := CheckReferences(refs);
      if !ok {
        return Err(Invalid);
      }
      r := CommitLinks(o);
    }

    // Commits the children in order, then builds and stages the vertex itself.
    method CommitLinks(o: Obj) returns (r: Result<Snap, CommitError>)
      requires Valid() && g.IsVertex(o) && o in active && o !in done && Under(o) && !g.VertexOf(o).Content?
      requires g.VertexOf(o).MapSet? ==> RefsOk(g, g.VertexOf(o).refs)
      modifies this, ctx
      ensures Valid() && Advances()
      ensures if r.Ok? then Builds(o, r.value) else Explains(g, r.error) && (r.error == Cancelled ==> ctx.struck)
      decreases |g.objects.Keys - active|, g.top, 0
    {
      hide Valid, RefsOk, Links, ArcsOf, Leads, Calls, Explains, Resolves, Made, Refers, Committed, Keeps;
      var v := g.VertexOf(o);
      var links := Links(v);
      VertexFault(g, o);
      NilFault(g, o);
      InGraph(o);
      SensibleAt(o);
      var children: seq<Snap> := [];
      ghost var start := Now();
      StayPut(start);
      ResolvesNone(done, links);
      for i := 0 to |links|
        invariant Valid() && Advances()
        invariant Resolves(done, links[..i], children)
      {
        LinkInside(o, i);
        UnderLink(start, o, i);
        ghost var before := Now();
        KeepsFacts(start, before);
        var child := CommitChild(links[i].target);
        KeepsFacts(before, Now());
        KeepsTrans(start, before, Now());
        if child.Err? {
          return Err(child.error);
        }
        ResolvesNext(before.done, done, links, i, children, child.value);
        children := children + [child.value];
      }
      assert links[..|links|] == links;
      ResolvesNone(done, links);
      var root := g.seal(o, ArcsOf(g, v, children), PayloadOf(v));
      if root == None {
        return Err(Unbuildable);
      }
      ghost var before := Now();
      KeepsFacts(start, before);
      r := Stage(o, SealedSnap(g, v, root.value, children));
      KeepsTrans(start, before, Now());
      if r.Ok? {
        SealsTo(o, children, r.value);
      }
    }

    lemma UnderLink(p: Moment, o: Obj, i: nat)
      requires Keeps(p, Now()) && g.IsVertex(o) && i < |Links(g.VertexOf(o))|
      requires forall a :: a in p.active ==> a == o || Leads(g, a, o)
      ensures var t := Links(g.VertexOf(o))[i].target; t.Some? ==> StrictlyUnder(t.value)
    {
      hide Leads, Links;
      LeadsTo(g, o, i);
    }

    // The committed version of a child, from this scope or by committing it now.
    method CommitChild(child: Option<Obj>) returns (r: Result<Snap, CommitError>)
      requires Valid() && (child.Some? ==> child.value in g.objects && StrictlyUnder(child.value))
      requires child == None ==> Explains(g, Invalid)
      modifies this, ctx
      ensures Valid() && Advances()
      ensures r.Err? ==> failed.Some? && Explains(g, r.error) && (r.error == Cancelled ==> ctx.struck)
      ensures r.Ok? ==> child.Some? && child.value in done && r.value == done[child.value]
      ensures r.Ok? && (child.value !in old(done) || !g.IsVertex(child.value)) ==>
        AnswerOf(g, done, child.value) == Some(r.value.root)
      ensures r.Ok? ==> ctx.left < old(ctx.left)
      decreases |g.objects.Keys - active|, if child.Some? then g.objects[child.value].rank else 0, 2
    {
      hide Valid, Leads, Made, Explains, Keeps;
      CycleFault(g);
      ghost var start := Now();
      var live := Check();
      ghost var at := Now();
      KeepsFacts(start, at);
      if !live {
        r := FailAfter(Cancelled, start);
        return;
      }
      if child == None {
        r := FailAfter(Invalid, start);
        return;
      }
      var o := child.value;
      CustomFault(g, o);
      if o in active {
        CycleFound(o);
        r := FailAfter(Cycle, start);
        return;
      }
      if o in done {
        AnsweredAt(o);
        return Ok(done[o]);
      }
      var root := Run(o);
      KeepsFacts(at, Now());
      KeepsTrans(start, at, Now());
      if root.Err? {
        r := FailAfter(root.error, start);
        return;
      }
      if root.value == None {
        r := FailAfter(Invalid, start);
        return;
      }
      if o in done && done[o].root != root.value.value {
        r := FailAfter(Disagrees, start);
        return;
      }
      at := Now();
      if o !in done {
        Adopt(o, root.value.value);
        KeepsTrans(start, at, Now());
      }
      AnsweredAt(o);
      return Ok(done[o]);
    }

    lemma AnsweredAt(o: Obj)
      requires Valid() && o in done
      ensures !g.IsVertex(o) ==> AnswerOf(g, done, o) == Some(done[o].root)
    {
    }

    method FailAfter(e: CommitError, ghost start: Moment) returns (r: Result<Snap, CommitError>)
      requires Valid() && Explains(g, e) && Keeps(start, Now()) && (e == Cancelled ==> ctx.struck)
      modifies this
      ensures Valid() && Keeps(start, Now()) && failed.Some? && r == Err(e)
    {
      hide Valid, Explains, Keeps;
      ghost var before := Now();
      var f := Fail(e);
      KeepsTrans(start, before, Now());
      return Err(f);
    }

    lemma CycleFound(o: Obj)
      requires o in active && StrictlyUnder(o)
      ensures Explains(g, Cycle)
    {
      hide Leads;
      assert Leads(g, o, o);
    }

    lemma AdoptRoot(root: Target)
      requires Valid()
      ensures Version(byCID, root).root == root
    {
    }

    // Records what a custom object answered: the version it delegated to, if this
    // scope knows one, or an external CID.
    method Adopt(o: Obj, root: Target)
      requires Valid() && o in g.objects && o !in done && o !in active
      requires Quiet() ==> o in ran && !g.IsVertex(o)
      requires AnswerOf(g, done, o) == Some(root)
      modifies this`done
      ensures Valid() && Advances() && o in done && done[o].root == root && AnswerOf(g, done, o) == Some(root)
      ensures done[o] == if root in byCID then byCID[root] else Opaque(root)
    {
      hide Committed, Graph.Sensible, BuiltState, RanState, StagedState, Answered, Filed, Explains, Made, AnswerOf;
      OpaqueMade(root);
      var node := Version(byCID, root);
      AdoptAnswered(g, done, byCID, o, root);
      if Quiet() {
        AdoptBuilt(g, active, done, staged, built, o, node);
        AdoptOrder(g, top, done, ran, byCID, o, root);
        AdoptFiled(g, done, byCID, o, root);
      }
      AdoptRoot(root);
      AnswerStays(g, done, done[o := node]);
      done := done[o := node];
    }

    lemma SealsTo(o: Obj, children: seq<Snap>, node: Snap)
      requires Valid() && g.IsVertex(o) && o !in done && !g.VertexOf(o).Content?
      requires g.VertexOf(o).MapSet? ==> RefsOk(g, g.VertexOf(o).refs)
      requires |children| == |Links(g.VertexOf(o))| && Resolves(done, Links(g.VertexOf(o)), children)
      requires g.seal(o, ArcsOf(g, g.VertexOf(o), children), PayloadOf(g.VertexOf(o))).Some?
      requires node == SealedSnap(g, g.VertexOf(o),
                 g.seal(o, ArcsOf(g, g.VertexOf(o), children), PayloadOf(g.VertexOf(o))).value, children)
      ensures Committed(g, done[o := node], o) && Made(node) && forall y :: Refers(g, o, y) ==> y in done
    {
      hide ArcsOf, Links, Made, RefsOk, BuiltState, RanState, StagedState, Answered, Filed;
      var v := g.VertexOf(o);
      assert Sealed(g, done[o := node], o, v, children);
      SealedMade(g, v, node.root, children);
    }
  }

  lemma ResolvesNone(done: map<Obj, Snap>, refs: seq<Reference>)
    ensures Resolves(done, refs[..0], [])
    ensures forall children :: Resolves(done, refs, children) ==> |children| == |refs|
  {
  }

  lemma ResolvesNext(was: map<Obj, Snap>, now: map<Obj, Snap>, refs: seq<Reference>, i: nat, children: seq<Snap>,
                     child: Snap)
    requires i < |refs| && Resolves(was, refs[..i], children) && forall p :: p in was ==> p in now && now[p] == was[p]
    requires refs[i].target.Some? && refs[i].target.value in now && child == now[refs[i].target.value]
    ensures Resolves(now, refs[..i + 1], children + [child])
  {
  }

  lemma LeadsTo(g: Graph, o: Obj, i: nat)
    requires g.IsVertex(o) && i < |Links(g.VertexOf(o))|
    ensures var t := Links(g.VertexOf(o))[i].target;
      t.Some? ==> Leads(g, o, t.value) && forall a :: Leads(g, a, o) ==> Leads(g, a, t.value)
  {
    hide Leads, Links;
    var t := Links(g.VertexOf(o))[i].target;
    if t.Some? {
      assert Refers(g, o, t.value);
      LeadsOn(g, o, t.value);
    }
  }

  lemma BuiltGrow(g: Graph, built: seq<Obj>, was: map<Obj, Snap>, now: map<Obj, Snap>)
    requires forall p :: p in was ==> p in now && now[p] == was[p]
    requires forall p :: p in built ==> g.IsVertex(p) && Committed(g, was, p)
    ensures forall p :: p in built ==> Committed(g, now, p)
  {
    hide Committed;
    forall p | p in built
      ensures Committed(g, now, p)
    {
      CommittedGrows(g, was, now, p);
    }
  }

  lemma Smaller<T>(all: set<T>, active: set<T>, o: T)
    requires o in all && o !in active
    ensures |all - (active + {o})| < |all - active|
  {
    assert all - active == (all - (active + {o})) + {o};
  }
}
