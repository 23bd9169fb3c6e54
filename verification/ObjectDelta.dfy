// The write set between two committed versions of a graph.
module ObjectDelta {
  import opened Words
  import opened Nodes
  import opened ObjectGraph

  // ---- Indexing one version of a graph ----

  // Every version in a graph.
  ghost function Below(s: Snap): (r: set<Snap>)
    ensures s in r
  {
    {s} + set i, t | 0 <= i < |s.children| && t in Below(s.children[i]) :: t
  }

  // At most one version of each vertex.
  ghost predicate OneEach(all: set<Snap>) {
    forall s, t :: s in all && t in all && s.id.Some? && s.id == t.id ==> s == t
  }

  // Whether the bytes or the arcs of a CID are known locally.
  predicate Material(s: Snap) {
    s.arcs.Some? || s.block.Some?
  }

  datatype SnapIndex = SnapIndex(byCID: map<Target, Snap>, byID: map<nat, Snap>) {
    // A version known by reference only must not hide what another one knows.
    function File(n: Snap): SnapIndex {
      SnapIndex(
        if n.root !in byCID || Material(n) then byCID[n.root := n] else byCID,
        if n.id.Some? then byID[n.id.value := n] else byID)
    }
  }

  // One entry for each CID and each vertex; local knowledge is never hidden.
  ghost predicate Indexes(ix: SnapIndex, all: set<Snap>) {
    && (forall s :: s in all ==> s.root in ix.byCID && (Material(s) ==> Material(ix.byCID[s.root])))
    && (forall k :: k in ix.byCID ==> ix.byCID[k] in all && ix.byCID[k].root == k)
    && (forall s :: s in all && s.id.Some? ==> s.id.value in ix.byID)
    && forall i :: i in ix.byID ==> ix.byID[i] in all && ix.byID[i].id == Some(i)
  }

  lemma IndexesFile(ix: SnapIndex, seen: set<Snap>, n: Snap)
    requires Indexes(ix, seen)
    ensures Indexes(ix.File(n), seen + {n})
  {
  }

  lemma NothingSeen(stack: seq<Snap>)
    ensures Indexes(SnapIndex(map[], map[]), {}) && Pending({}, stack)
  {
  }

  ghost function Versions(root: Option<Snap>): set<Snap> {
    if root.Some? then Below(root.value) else {}
  }

  method IndexSnapshots(root: Option<Snap>) returns (ix: SnapIndex)
    ensures Indexes(ix, Versions(root))
  {
    hide Below, Indexes, Pending;
    ix := SnapIndex(map[], map[]);
    var seen: set<Snap> := {};
    var stack := if root.Some? then [root.value] else [];
    BelowSelf(root);
    NothingSeen(stack);
    ghost var all := Versions(root);
    while stack != []
      invariant Indexes(ix, seen) && seen <= all && forall s :: s in stack ==> s in all
      invariant Pending(seen, stack)
      invariant root.Some? ==> root.value in seen || root.value in stack
      decreases |all - seen|, |stack|
    {
      var n := stack[|stack| - 1];
      var rest := stack[..|stack| - 1];
      assert stack == rest + [n];
      if n in seen {
        PendingPop(seen, rest, n);
        stack := rest;
        continue;
      }
      ghost var was := seen;
      seen := seen + {n};
      IndexesFile(ix, was, n);
      ix := ix.File(n);
      PendingPush(was, rest, n);
      BelowChildren(root, n);
      assert all - was == (all - seen) + {n};
      stack := rest + n.children;
    }
    if root.Some? {
      BelowSeen(root.value, seen);
      assert seen == all;
    }
  }

  // The children of every seen version are seen or still to come.
  ghost predicate Pending(seen: set<Snap>, stack: seq<Snap>) {
    forall s, i :: s in seen && 0 <= i < |s.children| ==> s.children[i] in seen || s.children[i] in stack
  }

  lemma PendingPop(seen: set<Snap>, rest: seq<Snap>, n: Snap)
    requires Pending(seen, rest + [n]) && n in seen
    ensures Pending(seen, rest)
  {
  }

  lemma PendingPush(seen: set<Snap>, rest: seq<Snap>, n: Snap)
    requires Pending(seen, rest + [n])
    ensures Pending(seen + {n}, rest + n.children)
  {
    forall s, i | s in seen + {n} && 0 <= i < |s.children|
      ensures s.children[i] in seen + {n} || s.children[i] in rest + n.children
    {
      if s in seen && s.children[i] !in seen {
        assert s.children[i] in rest + [n];
      }
    }
  }

  lemma BelowSelf(root: Option<Snap>)
    ensures root.Some? ==> root.value in Versions(root)
  {
  }

  lemma {:induction false} BelowTransitive(s: Snap, n: Snap)
    requires n in Below(s)
    ensures forall i :: 0 <= i < |n.children| ==> n.children[i] in Below(s)
    decreases s
  {
    if n == s {
      forall i | 0 <= i < |n.children|
        ensures n.children[i] in Below(s)
      {
        assert n.children[i] in Below(s.children[i]);
      }
    } else {
      var i :| 0 <= i < |s.children| && n in Below(s.children[i]);
      BelowTransitive(s.children[i], n);
    }
  }

  lemma BelowChildren(root: Option<Snap>, n: Snap)
    requires n in Versions(root)
    ensures forall c :: c in n.children ==> c in Versions(root)
  {
    hide Below;
    BelowTransitive(root.value, n);
  }

  lemma {:induction false} BelowSeen(s: Snap, seen: set<Snap>)
    requires s in seen && Pending(seen, [])
    ensures Below(s) <= seen
    decreases s
  {
    forall i | 0 <= i < |s.children|
      ensures Below(s.children[i]) <= seen
    {
      BelowSeen(s.children[i], seen);
    }
  }

  // A version that is well made all the way down holds only such versions.
  lemma {:induction false} MadeBelow(s: Snap)
    requires Made(s)
    ensures forall t :: t in Below(s) ==> WellMade(t)
    decreases s
  {
    hide WellMade;
    forall i | 0 <= i < |s.children|
      ensures forall t :: t in Below(s.children[i]) ==> WellMade(t)
    {
      MadeBelow(s.children[i]);
    }
  }
}
