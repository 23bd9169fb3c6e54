// Application objects, their committed versions, and what a commit of a graph means.
module ObjectGraph {
  import opened Words
  import opened Nodes
  import opened Coordinates
  import opened Grouping
  import opened Sorting
  import opened ByteOrder

  // Objects are compared by identity.
  type Obj = nat

  datatype Arc = Arc(name: Label, target: Target)

  // One immutable version of a vertex, with the exact versions of its children.
  datatype Snap = Snap(id: Option<nat>, root: Target, arcs: Option<seq<Arc>>, block: Option<seq<byte>>,
                       children: seq<Snap>)

  // The last two committed versions of a vertex; an uninitialized one has no id.
  class History {
    const id: Option<nat>
    var before: Option<Snap>
    var after: Option<Snap>

    constructor (id: Option<nat>)
      ensures this.id == id && before == None && after == None
    {
      this.id := id;
      before := None;
      after := None;
    }
  }

  // A labelled reference; it may be nil.
  datatype Reference = Reference(name: Label, target: Option<Obj>)

  // The three built-in kinds of object: labelled references, a sequence of
  // references, and immutable bytes.
  datatype Vertex =
    | MapSet(history: History, refs: seq<Reference>, payload: Option<Target>)
    | ListSet(history: History, items: seq<Option<Obj>>, payload: Option<Target>)
    | Content(history: History, root: Target, data: seq<byte>)

  // What a Commit method answers: the result of the built-in helper, a CID of its
  // own, an error, or the result of one of its calls.
  datatype Finish =
    | Helper
    | Fixed(root: Option<Target>)
    | Refuse
    | OfCall(index: nat)

  // A Commit method calls other Commit methods, ignoring their errors, then perhaps
  // runs the built-in helper for itself, and answers.
  datatype Behaviour = Behaviour(rank: nat, calls: seq<Obj>, helper: Option<Vertex>, finish: Finish)

  datatype CommitError =
    | Cycle | Cancelled | Invalid | Unbuildable | Shared | Copied | Uninitialized | Disagrees | Custom

  datatype Graph = Graph(
    objects: map<Obj, Behaviour>,
    top: nat,                                                 // above every rank
    admits: Label -> bool,                                    // labels a Map object may use
    payloadLabel: Label,
    seal: (Obj, seq<Arc>, Option<Target>) -> Option<Target>)  // the root a vertex gets, if it can be built
  {
    // References stay within the graph, a Commit method calls another one directly
    // only along decreasing ranks, and the payload label is reserved.
    ghost predicate Sensible() {
      !admits(payloadLabel) && forall o :: o in objects ==>
        && objects[o].rank < top
        && (forall c :: c in objects[o].calls ==> c in objects && objects[c].rank < objects[o].rank)
        && (objects[o].finish.Helper? ==> objects[o].helper.Some?)
        && (objects[o].helper.Some? ==> Inside(objects[o].helper.value))
    }

    ghost predicate Inside(v: Vertex) {
      && (v.MapSet? ==> forall r :: r in v.refs && r.target.Some? ==> r.target.value in objects)
      && (v.ListSet? ==> |v.items| < TWO64 && forall x :: x in v.items && x.Some? ==> x.value in objects)
    }

    predicate IsVertex(o: Obj) {
      o in objects && objects[o].helper.Some?
    }

    function VertexOf(o: Obj): Vertex
      requires IsVertex(o)
    {
      objects[o].helper.value
    }
  }

  function RefLess(): (Reference, Reference) -> bool {
    ByKey(RefName())
  }

  function RefName(): Reference -> Label {
    (r: Reference) => r.name
  }

  // Every label admitted and used once, no nil reference.
  ghost predicate RefsOk(g: Graph, refs: seq<Reference>) {
    && (forall r :: r in refs ==> g.admits(r.name) && r.target.Some?)
    && DistinctRefs(refs)
  }

  ghost predicate DistinctRefs(refs: seq<Reference>) {
    forall i, j :: 0 <= i < j < |refs| ==> refs[i].name != refs[j].name
  }

  // The references of a vertex in the order they are committed: by label in a Map,
  // by position in a List.
  function Links(v: Vertex): seq<Reference> {
    match v
    case MapSet(_, refs, _) => Sort(refs, RefLess())
    case ListSet(_, items, _) =>
      seq(|items|, i requires 0 <= i < |items| => Reference(EncodeIndex(i % TWO64), items[i]))
    case Content(_, _, _) => []
  }

  function PayloadOf(v: Vertex): Option<Target> {
    if v.Content? then None else v.payload
  }

  // The arcs of a vertex: its references, and the payload under its reserved label
  // in a Map. A List keeps its payload beside the arcs.
  function ArcsOf(g: Graph, v: Vertex, children: seq<Snap>): (arcs: seq<Arc>)
    requires |children| == |Links(v)|
    ensures |arcs| >= |children|
    ensures forall i :: 0 <= i < |children| ==> arcs[i] == Arc(Links(v)[i].name, children[i].root)
  {
    seq(|children|, i requires 0 <= i < |children| => Arc(Links(v)[i].name, children[i].root))
    + if v.MapSet? && v.payload.Some? then [Arc(g.payloadLabel, v.payload.value)] else []
  }

  // A CID known by reference only.
  function Opaque(root: Target): Snap {
    Snap(None, root, None, None, [])
  }

  function PayloadSnaps(payload: Option<Target>): seq<Snap> {
    if payload.Some? then [Opaque(payload.value)] else []
  }

  // The committed versions of the referenced objects.
  ghost predicate Resolves(done: map<Obj, Snap>, refs: seq<Reference>, children: seq<Snap>) {
    |children| == |refs| && forall i :: 0 <= i < |refs| ==>
      refs[i].target.Some? && refs[i].target.value in done && children[i] == done[refs[i].target.value]
  }

  // The version a vertex gets from the versions of its references.
  function SealedSnap(g: Graph, v: Vertex, root: Target, children: seq<Snap>): Snap
    requires |children| == |Links(v)|
  {
    Snap(v.history.id, root, Some(ArcsOf(g, v, children)), None, children + PayloadSnaps(PayloadOf(v)))
  }

  ghost predicate Sealed(g: Graph, done: map<Obj, Snap>, o: Obj, v: Vertex, children: seq<Snap>) {
    && o in done && Resolves(done, Links(v), children)
    && var root := g.seal(o, ArcsOf(g, v, children), PayloadOf(v));
       root.Some? && done[o] == SealedSnap(g, v, root.value, children)
  }

  // A vertex is committed to exactly the committed versions of its references.
  ghost predicate Committed(g: Graph, done: map<Obj, Snap>, o: Obj)
    requires g.IsVertex(o)
  {
    o in done && match g.VertexOf(o)
      case Content(h, root, data) => done[o] == Snap(h.id, root, None, Some(data), [])
      case MapSet(_, refs, _) => RefsOk(g, refs) && exists children :: Sealed(g, done, o, g.VertexOf(o), children)
      case ListSet(_, _, _) => exists children :: Sealed(g, done, o, g.VertexOf(o), children)
  }

  // ---- What a committed vertex holds, in the terms of its own fields ----

  // The references of a Map in ascending label order, those of a List by position.
  lemma LinksOrdered(v: Vertex)
    ensures v.MapSet? ==> |Links(v)| == |v.refs| && forall r :: r in Links(v) <==> r in v.refs
    ensures v.MapSet? && DistinctRefs(v.refs) ==> (
      forall i, j :: 0 <= i < j < |Links(v)| ==> BytesLess(Links(v)[i].name, Links(v)[j].name))
    ensures v.ListSet? ==> |Links(v)| == |v.items| && forall i: U64 :: i < |v.items| ==> (
      Links(v)[i] == Reference(EncodeIndex(i), v.items[i]))
    ensures v.Content? ==> Links(v) == []
  {
    hide BytesLess, EncodeIndex, Sort;
    if v.MapSet? {
      SortMembers(v.refs, RefLess());
      if DistinctRefs(v.refs) {
        AscendingRefs(v.refs);
      }
    }
  }

  lemma AscendingRefs(refs: seq<Reference>)
    requires DistinctRefs(refs)
    ensures var r := Sort(refs, RefLess()); forall i, j :: 0 <= i < j < |r| ==> BytesLess(r[i].name, r[j].name)
  {
    hide BytesLess, Sort;
    var r := Sort(refs, RefLess());
    KeyOrders(RefName());
    SortSorts(refs, RefLess());
    assert Distinct(refs, RefName());
    PermutedDistinct(refs, r, RefName());
    forall i, j | 0 <= i < j < |r|
      ensures BytesLess(r[i].name, r[j].name)
    {
      assert !RefLess()(r[j], r[i]) && RefName()(r[i]) != RefName()(r[j]);
      BytesAsymmetric(r[i].name, r[j].name);
    }
  }

  // One arc and one child for a reference: its label with the root of the version
  // its target was committed to, and that version itself.
  ghost predicate Linked(done: map<Obj, Snap>, s: Snap, i: nat, name: Label, target: Option<Obj>) {
    && s.arcs.Some? && i < |s.arcs.value| && i < |s.children| && target.Some? && target.value in done
    && s.arcs.value[i] == Arc(name, done[target.value].root) && s.children[i] == done[target.value]
  }

  // A committed vertex: every reference has its arc and child, the payload has its
  // own, there is nothing else, and the root is the one the arcs and payload get.
  ghost predicate Holds(g: Graph, done: map<Obj, Snap>, o: Obj, v: Vertex, s: Snap) {
    match v
    case Content(h, root, data) => s == Snap(h.id, root, None, Some(data), [])
    case MapSet(h, refs, payload) =>
      var n := |refs|;
      && s.id == h.id && s.block == None && s.arcs.Some?
      && (forall r :: r in refs ==> exists i :: 0 <= i < n && Linked(done, s, i, r.name, r.target))
      && (forall i, j :: 0 <= i < j < n && j < |s.arcs.value| ==>
            BytesLess(s.arcs.value[i].name, s.arcs.value[j].name))
      && s.arcs.value[Min(n, |s.arcs.value|)..] == (if payload.Some? then [Arc(g.payloadLabel, payload.value)] else [])
      && |s.arcs.value| == |s.children| == n + (if payload.Some? then 1 else 0)
      && (payload.Some? ==> s.children[n] == Snap(None, payload.value, None, None, []))
      && g.seal(o, s.arcs.value, payload) == Some(s.root)
    case ListSet(h, items, payload) =>
      var n := |items|;
      && s.id == h.id && s.block == None && s.arcs.Some?
      && (forall i: U64 :: i < n ==> Linked(done, s, i, EncodeIndex(i), items[i]))
      && |s.arcs.value| == n && |s.children| == n + (if payload.Some? then 1 else 0)
      && (payload.Some? ==> s.children[n] == Snap(None, payload.value, None, None, []))
      && g.seal(o, s.arcs.value, payload) == Some(s.root)
  }

  lemma CommittedHolds(g: Graph, done: map<Obj, Snap>, o: Obj)
    requires g.IsVertex(o) && Committed(g, done, o)
    ensures Holds(g, done, o, g.VertexOf(o), done[o])
  {
    hide Links, BytesLess, EncodeIndex;
    var v, s := g.VertexOf(o), done[o];
    LinksOrdered(v);
    if !v.Content? {
      var children :| Sealed(g, done, o, v, children);
      var links := Links(v);
      assert s == SealedSnap(g, v, s.root, children);
      forall i | 0 <= i < |links|
        ensures Linked(done, s, i, links[i].name, links[i].target)
      {
      }
      if v.MapSet? {
        forall r | r in v.refs
          ensures exists i :: 0 <= i < |links| && Linked(done, s, i, r.name, r.target)
        {
          var i :| 0 <= i < |links| && links[i] == r;
          assert Linked(done, s, i, links[i].name, links[i].target);
        }
      } else {
        forall i: U64 | i < |v.items|
          ensures Linked(done, s, i, EncodeIndex(i), v.items[i])
        {
          assert Linked(done, s, i, links[i].name, links[i].target);
        }
      }
    }
  }

  // ---- What an object answers ----

  // The object whose own answer a Commit method passes on.
  ghost function Origin(g: Graph, o: Obj): Obj
    decreases if o in g.objects then g.objects[o].rank else 0
  {
    if Passes(g, o) then Origin(g, g.objects[o].calls[g.objects[o].finish.index]) else o
  }

  ghost predicate Passes(g: Graph, o: Obj) {
    && o in g.objects && g.objects[o].finish.OfCall? && g.objects[o].finish.index < |g.objects[o].calls|
    && var c := g.objects[o].calls[g.objects[o].finish.index];
       c in g.objects && g.objects[c].rank < g.objects[o].rank
  }

  // The CID an object answers, where its Commit method succeeds.
  ghost function AnswerOf(g: Graph, done: map<Obj, Snap>, o: Obj): Option<Target> {
    var p := Origin(g, o);
    if p !in g.objects then None else match g.objects[p].finish
      case Helper => if p in done then Some(done[p].root) else None
      case Fixed(root) => root
      case _ => None
  }

  // A version this commit gave a vertex.
  ghost predicate Reused(g: Graph, done: map<Obj, Snap>, s: Snap) {
    exists q :: q in done && g.IsVertex(q) && done[q] == s
  }

  // An object without a helper stands for the CID it answered: as the version this
  // commit gave a vertex, always when the answer comes from one, or by reference only.
  ghost predicate Adopted(g: Graph, done: map<Obj, Snap>, p: Obj) {
    && p in done && AnswerOf(g, done, p) == Some(done[p].root)
    && (Reused(g, done, done[p]) || (done[p] == Opaque(done[p].root) && !AnswersByHelper(g, Origin(g, p))))
  }

  ghost predicate AnswersByHelper(g: Graph, o: Obj) {
    o in g.objects && g.objects[o].finish.Helper?
  }

  // The answers written out: a fixed CID is taken as it is, and the result of a
  // vertex's helper as that very root, with its arcs or bytes.
  lemma AdoptedIs(g: Graph, done: map<Obj, Snap>, p: Obj)
    requires g.Sensible() && p in g.objects && Adopted(g, done, p)
    ensures !g.objects[p].finish.Refuse? && g.objects[p].finish != Fixed(None)
    ensures g.objects[p].finish.Fixed? ==> g.objects[p].finish.root == Some(done[p].root)
    ensures g.objects[p].finish.OfCall? ==> g.objects[p].finish.index < |g.objects[p].calls|
    ensures var f, calls := g.objects[p].finish, g.objects[p].calls;
      f.OfCall? && f.index < |calls| && AnswersByHelper(g, calls[f.index]) ==> (
        calls[f.index] in done && done[p].root == done[calls[f.index]].root && Reused(g, done, done[p]))
    ensures var f, calls := g.objects[p].finish, g.objects[p].calls;
      f.OfCall? && f.index < |calls| ==> AnswerOf(g, done, calls[f.index]) == Some(done[p].root)
  {
    hide Reused;
    var f, calls := g.objects[p].finish, g.objects[p].calls;
    if f.OfCall? && f.index < |calls| {
      assert Passes(g, p) && Origin(g, p) == Origin(g, calls[f.index]);
    }
  }

  // An answer stays as more is committed.
  lemma AnswerStays(g: Graph, done: map<Obj, Snap>, more: map<Obj, Snap>)
    requires forall p :: p in done ==> p in more && more[p] == done[p]
    ensures forall o :: AnswerOf(g, done, o).Some? ==> AnswerOf(g, more, o) == AnswerOf(g, done, o)
    ensures forall s :: Reused(g, done, s) ==> Reused(g, more, s)
    ensures forall p :: Adopted(g, done, p) ==> Adopted(g, more, p)
  {
    hide Graph.IsVertex, AnswersByHelper;
    forall s | Reused(g, done, s)
      ensures Reused(g, more, s)
    {
      var q :| q in done && g.IsVertex(q) && done[q] == s;
      assert q in more;
    }
  }

  // Committing more objects keeps what is committed.
  lemma CommittedGrows(g: Graph, done: map<Obj, Snap>, more: map<Obj, Snap>, o: Obj)
    requires g.IsVertex(o) && Committed(g, done, o) && forall p :: p in done ==> p in more && more[p] == done[p]
    ensures Committed(g, more, o)
  {
    hide Links, ArcsOf, SealedSnap;
    var v := g.VertexOf(o);
    if !v.Content? {
      var children :| Sealed(g, done, o, v, children);
      assert Sealed(g, more, o, v, children);
    }
  }

  // ---- The shape of versions ----

  ghost predicate DistinctNames(arcs: seq<Arc>) {
    forall i, j :: 0 <= i < j < |arcs| ==> arcs[i].name != arcs[j].name
  }

  // Arcs have distinct labels and are not content; content and CIDs known by
  // reference have no children. A List with a payload has one more child than arcs.
  ghost predicate WellMade(s: Snap) {
    if s.arcs.Some? then DistinctNames(s.arcs.value) && s.block == None else s.children == []
  }

  // A version that is well made all the way down.
  ghost predicate Made(s: Snap)
    decreases s
  {
    WellMade(s) && forall i :: 0 <= i < |s.children| ==> Made(s.children[i])
  }

  lemma OpaqueMade(root: Target)
    ensures Made(Opaque(root))
  {
  }

  // Labels of sorted references and of positions are distinct.
  lemma LinksDistinct(g: Graph, v: Vertex)
    requires g.Sensible() && g.Inside(v) && (v.MapSet? ==> RefsOk(g, v.refs))
    ensures DistinctRefs(Links(v))
    ensures v.MapSet? ==> forall i :: 0 <= i < |Links(v)| ==> Links(v)[i].name != g.payloadLabel
  {
    hide EncodeIndex, RefsOk;
    if v.MapSet? {
      SortedRefs(g, v.refs);
    } else if v.ListSet? {
      forall i, j | 0 <= i < j < |v.items|
        ensures EncodeIndex(i % TWO64) != EncodeIndex(j % TWO64)
      {
        IndexLabelsDiffer(i, j);
      }
    }
  }

  lemma SortedRefs(g: Graph, refs: seq<Reference>)
    requires !g.admits(g.payloadLabel) && RefsOk(g, refs)
    ensures DistinctRefs(Sort(refs, RefLess()))
    ensures forall r :: r in Sort(refs, RefLess()) ==> r.name != g.payloadLabel
  {
    hide Sort;
    var r := Sort(refs, RefLess());
    SortMembers(refs, RefLess());
    assert Distinct(refs, RefName());
    PermutedDistinct(refs, r, RefName());
    forall i, j | 0 <= i < j < |r|
      ensures r[i].name != r[j].name
    {
      assert RefName()(r[i]) != RefName()(r[j]);
    }
  }

  lemma IndexLabelsDiffer(i: U64, j: U64)
    requires i != j
    ensures EncodeIndex(i % TWO64) != EncodeIndex(j % TWO64)
  {
    hide EncodeIndex;
    DirectIndexLabels();
    assert Direct()(EncodeIndex(i)) == Some(AtIndex(i)) && Direct()(EncodeIndex(j)) == Some(AtIndex(j));
  }

  lemma SealedMade(g: Graph, v: Vertex, root: Target, children: seq<Snap>)
    requires g.Sensible() && g.Inside(v) && (v.MapSet? ==> RefsOk(g, v.refs)) && |children| == |Links(v)|
    requires forall i :: 0 <= i < |children| ==> Made(children[i])
    ensures Made(SealedSnap(g, v, root, children))
  {
    hide Links, RefsOk;
    LinksDistinct(g, v);
    var s := SealedSnap(g, v, root, children);
    if PayloadOf(v).Some? {
      OpaqueMade(PayloadOf(v).value);
    }
    forall i | 0 <= i < |s.children|
      ensures Made(s.children[i])
    {
    }
  }

  // A direct reference between two vertices.
  ghost predicate Refers(g: Graph, o: Obj, p: Obj) {
    g.IsVertex(o) && exists i :: 0 <= i < |Links(g.VertexOf(o))| && Links(g.VertexOf(o))[i].target == Some(p)
  }

  // A committed child is strictly inside its parent's version.
  lemma ChildInside(g: Graph, done: map<Obj, Snap>, o: Obj, p: Obj)
    requires Refers(g, o, p) && Committed(g, done, o)
    ensures p in done && done[p] < done[o]
  {
    hide Links, ArcsOf;
    var v := g.VertexOf(o);
    LinksNone(v);
    var children :| Sealed(g, done, o, v, children);
    var i :| 0 <= i < |Links(v)| && Links(v)[i].target == Some(p);
    assert done[o].children[i] == done[p];
    assert done[o].children[i] < done[o];
  }

  lemma LinksNone(v: Vertex)
    ensures v.Content? ==> Links(v) == []
  {
  }

  // A chain of references.
  ghost predicate Chain(g: Graph, path: seq<Obj>) {
    path != [] && forall i :: 0 <= i < |path| - 1 ==> Refers(g, path[i], path[i + 1])
  }

  // Where every vertex on a chain is committed, the chain never returns: a graph
  // that was committed has no cycle.
  lemma {:induction false} NoReturn(g: Graph, done: map<Obj, Snap>, path: seq<Obj>)
    requires Chain(g, path) && |path| > 1
    requires forall o :: o in path ==> o in done && g.IsVertex(o) && Committed(g, done, o)
    ensures done[path[|path| - 1]] < done[path[0]] && path[|path| - 1] != path[0]
    decreases |path|
  {
    hide Committed;
    var n := |path| - 1;
    assert Refers(g, path[n - 1], path[n]) && path[n - 1] in path && path[n] in path && path[0] in path;
    ChildInside(g, done, path[n - 1], path[n]);
    if n > 1 {
      NoReturn(g, done, path[..n]);
    }
  }

  // One Commit method may call another: through a reference or directly.
  ghost predicate Calls(g: Graph, o: Obj, p: Obj) {
    o in g.objects && (p in g.objects[o].calls || Refers(g, o, p))
  }

  ghost predicate CallPath(g: Graph, path: seq<Obj>) {
    |path| > 1 && forall i :: 0 <= i < |path| - 1 ==> Calls(g, path[i], path[i + 1])
  }

  // Some nonempty chain of calls leads from one object to another.
  ghost predicate Leads(g: Graph, o: Obj, p: Obj) {
    exists path :: CallPath(g, path) && path[0] == o && path[|path| - 1] == p
  }

  ghost predicate HasCycle(g: Graph) {
    exists o :: Leads(g, o, o)
  }

  // What must be wrong with a graph for a commit to fail in a given way.
  ghost predicate Explains(g: Graph, e: CommitError) {
    match e
    case Cycle => HasCycle(g)
    case Cancelled => true
    case Invalid => exists o :: o in g.objects && (g.objects[o].finish == Fixed(None) || BadReferences(g, o))
    case Unbuildable => exists o, arcs, payload :: g.IsVertex(o) && g.seal(o, arcs, payload) == None
    case Uninitialized => exists o :: g.IsVertex(o) && g.VertexOf(o).history.id == None
    case Shared => exists o, p :: g.IsVertex(o) && g.IsVertex(p) && o != p && SameHistory(g.VertexOf(o), g.VertexOf(p))
    case Copied => exists o, p :: g.IsVertex(o) && g.IsVertex(p) && CopiedHistory(g.VertexOf(o), g.VertexOf(p))
    case Disagrees => exists o :: o in g.objects && (g.objects[o].finish.Fixed? || g.objects[o].finish.OfCall?)
    case Custom => exists o :: o in g.objects && (g.objects[o].finish.Refuse? || g.objects[o].finish.OfCall?)
  }

  ghost predicate SameHistory(v: Vertex, w: Vertex) {
    v.history == w.history
  }

  ghost predicate CopiedHistory(v: Vertex, w: Vertex) {
    v.history != w.history && v.history.id == w.history.id
  }

  ghost predicate BadReferences(g: Graph, o: Obj) {
    g.IsVertex(o) && match g.VertexOf(o)
      case MapSet(_, refs, _) => !RefsOk(g, refs)
      case ListSet(_, items, _) => None in items
      case Content(_, _, _) => false
  }

  lemma LeadsOn(g: Graph, o: Obj, p: Obj)
    requires Calls(g, o, p)
    ensures Leads(g, o, p) && forall a :: Leads(g, a, o) ==> Leads(g, a, p)
  {
    assert CallPath(g, [o, p]);
    forall a | Leads(g, a, o)
      ensures Leads(g, a, p)
    {
      var path :| CallPath(g, path) && path[0] == a && path[|path| - 1] == o;
      assert CallPath(g, path + [p]);
    }
  }
}
