// Replacement of List targets at existing indices.
module ListReplace {
  import opened Words
  import opened Geometry
  import opened Nodes
  import opened ListTree
  import opened Vectors
  import opened Workspaces
  import opened SequenceUpdate
  import opened Grouping

  datatype Edit = Edit(index: U64, before: Target, after: Target)

  // Every edit names an existing index and its current target.
  ghost predicate Matches(all: seq<Target>, edits: seq<Edit>, offset: nat) {
    forall e :: e in edits ==> Hit(all, e, offset)
  }

  ghost predicate Hit(all: seq<Target>, e: Edit, offset: nat) {
    0 <= e.index - offset < |all| && all[e.index - offset] == e.before
  }

  // The target at an index once the edits are made.
  function AfterAt(edits: seq<Edit>, index: int, t: Target): Target {
    if edits == [] then t else
      var last := edits[|edits| - 1];
      if last.index == index then last.after else AfterAt(edits[..|edits| - 1], index, t)
  }

  function Patched(all: seq<Target>, edits: seq<Edit>, offset: nat): (r: seq<Target>)
    ensures |r| == |all| && forall i :: 0 <= i < |all| ==> r[i] == AfterAt(edits, offset + i, all[i])
  {
    seq(|all|, i requires 0 <= i < |all| => AfterAt(edits, offset + i, all[i]))
  }

  // Patching a list updates exactly the named positions.
  lemma {:induction false} AfterAtIs(edits: seq<Edit>, index: int, t: Target)
    requires Distinct(edits, (e: Edit) => e.index)
    ensures forall e :: e in edits && e.index == index ==> AfterAt(edits, index, t) == e.after
    ensures (forall e :: e in edits ==> e.index != index) ==> AfterAt(edits, index, t) == t
  {
    if edits != [] {
      var n := |edits| - 1;
      AfterAtIs(edits[..n], index, t);
      assert edits == edits[..n] + [edits[n]];
      forall e | e in edits && e.index == index
        ensures AfterAt(edits, index, t) == e.after
      {
        var i :| 0 <= i <= n && edits[i] == e;
        assert i < n ==> edits[..n][i] == e;
      }
    }
  }

  lemma {:induction false} AfterAtGroup(edits: seq<Edit>, f: Edit -> nat, slot: nat, index: int, t: Target)
    requires forall e :: e in edits && e.index == index ==> f(e) == slot
    ensures AfterAt(Select(edits, f, slot), index, t) == AfterAt(edits, index, t)
  {
    if edits != [] {
      var n := |edits| - 1;
      assert edits == edits[..n] + [edits[n]];
      AfterAtGroup(edits[..n], f, slot, index, t);
      var front := Select(edits[..n], f, slot);
      if f(edits[n]) == slot {
        assert (front + [edits[n]])[..|front|] == front;
      }
    }
  }

  // Where the edits of one node go: function of the index relative to the node.
  function Router(p: Position, offset: U64, b: Radix): Edit -> nat {
    (e: Edit) => p.SlotOf(Sub(e.index, offset), b)
  }

  ghost predicate Within(edits: seq<Edit>, p: Position, offset: nat) {
    forall e :: e in edits ==> offset <= e.index < offset + p.count
  }

  lemma Routed(edits: seq<Edit>, p: Position, offset: U64, b: Radix, e: Edit)
    requires p.Fits(b) && Within(edits, p, offset) && e in edits
    ensures var d, s := Router(p, offset, b)(e) - p.Base(), Span(b, p.height);
      0 <= d < p.Used(b) && Times(d, s) <= e.index - offset < Times(d, s) + s
  {
    SubExact(e.index, offset);
    SlotExact(p, e.index - offset, b);
  }

  // The group of one digit, seen from the child it belongs to.
  lemma GroupWithin(edits: seq<Edit>, p: Position, offset: U64, b: Radix, d: nat, n: nat)
    requires p.Fits(b) && Within(edits, p, offset)
    requires d < p.Used(b) && n == Min(p.count - Times(d, Span(b, p.height)), Span(b, p.height))
    ensures var start := offset + Times(d, Span(b, p.height));
      forall e :: e in edits ==>
        (e in Select(edits, Router(p, offset, b), p.Base() + d) <==> start <= e.index < start + n)
  {
    hide Position.Fits, Position.Used, Position.SlotOf, Span, Times;
    var s := Span(b, p.height);
    forall e | e in edits
      ensures Router(p, offset, b)(e) == p.Base() + d <==> Times(d, s) <= e.index - offset < Times(d, s) + n
    {
      Routed(edits, p, offset, b, e);
      if Times(d, s) <= e.index - offset < Times(d, s) + s {
        SameDigit(Router(p, offset, b)(e) - p.Base(), d, s, e.index - offset);
      }
    }
  }

  lemma GroupPatched(all: seq<Target>, edits: seq<Edit>, f: Edit -> nat, slot: nat, offset: nat, start: nat, n: nat)
    requires start + n <= |all|
    requires forall e :: e in edits ==> (f(e) == slot <==> offset + start <= e.index < offset + start + n)
    ensures Patched(all[start..start + n], Select(edits, f, slot), offset + start)
      == Patched(all, edits, offset)[start..start + n]
  {
    hide AfterAt, Select;
    var part := Patched(all[start..start + n], Select(edits, f, slot), offset + start);
    forall i | 0 <= i < n
      ensures part[i] == Patched(all, edits, offset)[start + i]
    {
      assert offset + start + i == offset + (start + i);
      assert all[start..start + n][i] == all[start + i];
      GroupAfter(edits, f, slot, offset + start, n, offset + start + i, all[start + i]);
    }
  }

  // Within its range, the group of a slot decides what every edit decides.
  lemma GroupAfter(edits: seq<Edit>, f: Edit -> nat, slot: nat, first: nat, n: nat, index: nat, t: Target)
    requires forall e :: e in edits ==> (f(e) == slot <==> first <= e.index < first + n)
    requires first <= index < first + n
    ensures AfterAt(Select(edits, f, slot), index, t) == AfterAt(edits, index, t)
  {
    hide AfterAt, Select;
    AfterAtGroup(edits, f, slot, index, t);
  }

  lemma NoEdits(all: seq<Target>, offset: nat)
    ensures Patched(all, [], offset) == all
  {
  }

  lemma SameDigit(d: nat, e: nat, s: nat, i: nat)
    requires Times(d, s) <= i < Times(d, s) + s && Times(e, s) <= i < Times(e, s) + s
    ensures d == e
  {
    TimesNext(d, s);
    TimesNext(e, s);
    TimesMono(Min(d + 1, e), e, s);
    TimesMono(Min(e + 1, d), d, s);
  }

  // Applies the edits below one node. On a canonical node this succeeds exactly
  // when every old target matches, and then gives the canonical patched node.
  method ReplaceNode(u: NodeEdit, ref: Ref, p: Position, offset: U64, edits: seq<Edit>,
                     ghost all: seq<Target>, ghost kind: Kind)
    returns (r: Result<Ref, Error>)
    requires u.Valid() && ref in u.nodes.known && ref.layout == ListLayout
    requires |all| == p.count && p.root == kind.Root? && p.Fits(u.b) && offset + p.count < TWO64
    requires Within(edits, p, offset) && Distinct(edits, (e: Edit) => e.index)
    modifies u, u.nodes, u.builder
    ensures u.Valid() && u.nodes.written == old(u.nodes.written)
    ensures u.nodes.known.Keys >= old(u.nodes.known.Keys) && u.Avail() >= old(u.Avail())
    ensures r.Ok? ==> r.value.layout == ListLayout && r.value in u.Avail()
    ensures ref == ListNode(u.b, all, p.height, kind) ==>
      r == if Matches(all, edits, offset) then Ok(ListNode(u.b, Patched(all, edits, offset), p.height, kind))
           else Err(Mismatch)
    ensures r.Err? ==> r.error != Incomplete
    decreases p.height, 1
  {
    hide ListNode, ListCell, Position.Used, Position.Fits, ShapeOk, Span, Times, NodeEdit.Valid, Agree, Building,
      WellTagged, AfterAt, Router, Hit, Position.SlotOf, Midway, HitBelow, Matches, Patched;
    var b := u.b;
    ghost var canonical := ref == ListNode(b, all, p.height, kind);
    ghost var after := Patched(all, edits, offset);
    ghost var want := ListNode(b, after, p.height, kind).cells;
    var got := u.GetNode(ref);
    var cells := got.value;
    CanonicalShape(b, all, p.height, kind);
    var ok := CheckPosition(cells, p, b);
    if !ok {
      return Err(BadNode);
    }
    CanonicalMeta(b, all, p.height, kind);
    CanonicalMeta(b, after, p.height, kind);
    CanonicalPadding(b, after, p, kind);
    ShapePadding(cells, p, b);
    UsedFits(p, b);
    var groups := GroupBy(edits, Router(p, offset, b));
    ghost var end := p.Base() + p.Used(b);
    KeptBuilding(ref, end, u.Avail());
    MidwayStart(cells, want, p.Base());
    HitBelowStart(all, edits, p, offset, b);
    for slot := p.Base() to |cells|
      invariant u.Valid() && u.nodes.written == old(u.nodes.written)
      invariant u.nodes.known.Keys >= old(u.nodes.known.Keys) && u.Avail() >= old(u.Avail())
      invariant Children(ref) <= u.nodes.known.Keys
      invariant |cells| == Slots(b)
      invariant Building(cells, end, end, u.Avail())
      invariant canonical ==> Midway(cells, ref.cells, want, slot)
      invariant canonical ==> HitBelow(all, edits, p, offset, b, slot)
    {
      var group := Group(groups, slot);
      if group == [] {
        KeepSlot(b, all, edits, p, kind, offset, slot);
        MidwayKeep(cells, ref.cells, want, slot);
        HitBelowNext(all, edits, p, offset, b, slot);
        continue;
      }
      ghost var small := u.Avail();
      Routed(edits, p, offset, b, group[0]);
      var cell := ReplaceSlot(u, ref, p, slot, offset, group, all, edits, kind);
      HitBelowNext(all, edits, p, offset, b, slot);
      if cell.Err? {
        return Err(cell.error);
      }
      BuildingSet(cells, slot, end, cell.value, small, u.Avail());
      MidwaySet(cells, ref.cells, want, slot, cell.value);
      cells := cells[slot := cell.value];
    }
    HitBelowAll(all, edits, p, offset, b, |cells|);
    BuildingDone(cells, end, u.Avail());
    MidwayDone(cells, ref.cells, want);
    CommittableNode(cells, u.Avail());
    var node := u.Commit(ListLayout, cells);
    return Ok(node);
  }

  // Every edit routed below slot `n` names its current target.
  ghost predicate HitBelow(all: seq<Target>, edits: seq<Edit>, p: Position, offset: U64, b: Radix, n: nat) {
    forall e :: e in edits && Router(p, offset, b)(e) < n ==> Hit(all, e, offset)
  }

  lemma HitBelowStart(all: seq<Target>, edits: seq<Edit>, p: Position, offset: U64, b: Radix)
    ensures HitBelow(all, edits, p, offset, b, p.Base())
  {
    hide Hit;
  }

  lemma HitBelowNext(all: seq<Target>, edits: seq<Edit>, p: Position, offset: U64, b: Radix, n: nat)
    ensures var hits := forall e :: e in Select(edits, Router(p, offset, b), n) ==> Hit(all, e, offset);
      && (HitBelow(all, edits, p, offset, b, n) && hits ==> HitBelow(all, edits, p, offset, b, n + 1))
      && (!hits ==> !Matches(all, edits, offset))
  {
    hide Hit;
  }

  lemma HitBelowAll(all: seq<Target>, edits: seq<Edit>, p: Position, offset: U64, b: Radix, n: nat)
    requires p.Fits(b) && Within(edits, p, offset) && p.Base() + p.Used(b) <= n
    ensures HitBelow(all, edits, p, offset, b, n) ==> Matches(all, edits, offset)
  {
    hide Hit, Position.Fits, Position.Used;
    forall e | e in edits
      ensures Router(p, offset, b)(e) < n
    {
      Routed(edits, p, offset, b, e);
    }
  }

  // A slot without edits keeps its cell.
  lemma KeepSlot(b: Radix, all: seq<Target>, edits: seq<Edit>, p: Position, kind: Kind, offset: U64, slot: nat)
    requires |all| == p.count && p.root == kind.Root? && p.Fits(b) && p.Base() <= slot < Slots(b)
    requires Within(edits, p, offset) && Select(edits, Router(p, offset, b), slot) == []
    ensures ListNode(b, Patched(all, edits, offset), p.height, kind).cells[slot]
      == ListNode(b, all, p.height, kind).cells[slot]
  {
    hide ListNode, ListCell, Position.Used, Position.Fits, AfterAt, Router, Patched, Select, Within, Span, Times;
    var after, d := Patched(all, edits, offset), slot - p.Base();
    CanonicalCell(b, all, p.height, kind, d);
    CanonicalCell(b, after, p.height, kind, d);
    if d < p.Used(b) {
      KeepChunk(all, edits, p, offset, b, d);
      LeafSpan(b, d);
    }
  }

  lemma KeepChunk(all: seq<Target>, edits: seq<Edit>, p: Position, offset: U64, b: Radix, d: nat)
    requires |all| == p.count && p.Fits(b) && d < p.Used(b)
    requires Within(edits, p, offset) && Select(edits, Router(p, offset, b), p.Base() + d) == []
    ensures var after, start, s := Patched(all, edits, offset), Times(d, Span(b, p.height)), Span(b, p.height);
      start < |all| && Chunk(after, d, s) == Chunk(all, d, s) && after[start] == all[start]
  {
    hide Position.Used, Position.Fits, AfterAt, Router, Select, Within, Span, Times;
    DigitUsed(p, b, d);
    var start, s := Times(d, Span(b, p.height)), Span(b, p.height);
    var n := Min(p.count - start, s);
    GroupWithin(edits, p, offset, b, d, n);
    GroupPatched(all, edits, Router(p, offset, b), p.Base() + d, offset, start, n);
    NoEdits(all[start..start + n], offset + start);
    assert Patched(all, edits, offset)[start..start + n][0] == all[start..start + n][0];
  }

  // The new cell of a slot with edits.
  method ReplaceSlot(u: NodeEdit, ref: Ref, p: Position, slot: nat, offset: U64, group: seq<Edit>,
                     ghost all: seq<Target>, ghost edits: seq<Edit>, ghost kind: Kind)
    returns (r: Result<Cell, Error>)
    requires u.Valid() && ref in u.nodes.known && ref.layout == ListLayout
    requires WellTagged(ref) && Children(ref) <= u.nodes.known.Keys && ShapeOk(ref.cells, p, u.b)
    requires |all| == p.count && p.root == kind.Root? && p.Fits(u.b) && offset + p.count < TWO64
    requires Within(edits, p, offset) && Distinct(edits, (e: Edit) => e.index)
    requires p.Base() <= slot < p.Base() + p.Used(u.b) && slot < Slots(u.b)
    requires group == Select(edits, Router(p, offset, u.b), slot) != []
    modifies u, u.nodes, u.builder
    ensures u.Valid() && u.nodes.written == old(u.nodes.written)
    ensures u.nodes.known.Keys >= old(u.nodes.known.Keys) && u.Avail() >= old(u.Avail())
    ensures r.Ok? ==> Committable(r.value, u.Avail())
    ensures ref == ListNode(u.b, all, p.height, kind) ==>
      r == if forall e :: e in group ==> Hit(all, e, offset)
           then Ok(ListNode(u.b, Patched(all, edits, offset), p.height, kind).cells[slot])
           else Err(Mismatch)
    ensures r.Err? ==> r.error != Incomplete
    decreases p.height, 0
  {
    hide ListNode, ListCell, Position.Used, Position.Fits, Position.Child, ShapeOk, Span, Times, NodeEdit.Valid,
      WellTagged, AfterAt, Router, Hit, Matches, Patched, Within, Distinct, Select;
    var b := u.b;
    var d := slot - p.Base();
    if p.height == 0 {
      r := ReplaceLeaf(b, ref, p, slot, offset, group, all, edits, kind);
      return;
    }
    SlotPlan(b, all, edits, p, kind, offset, slot);
    ShapeChild(ref.cells, p, b, d);
    var (childPos, start) := p.Child(d, b);
    ghost var below := all[start..start + childPos.count];
    var child := ParseChild(ref.cells[slot], ref);
    if child.Err? {
      return Err(child.error);
    }
    var sub := ReplaceNode(u, child.value, childPos, offset + start, group, below, Inner);
    if sub.Err? {
      return Err(sub.error);
    }
    return Ok(Child(sub.value));
  }

  // Patching commutes with descending into the child of one slot.
  lemma SlotPlan(b: Radix, all: seq<Target>, edits: seq<Edit>, p: Position, kind: Kind, offset: U64, slot: nat)
    requires |all| == p.count && p.root == kind.Root? && p.Fits(b) && offset + p.count < TWO64 && p.height > 0
    requires Within(edits, p, offset) && Distinct(edits, (e: Edit) => e.index)
    requires p.Base() <= slot < p.Base() + p.Used(b) && slot < Slots(b)
    ensures slot - p.Base() < TWO64
    ensures var (child, start) := p.Child(slot - p.Base(), b);
      && offset + start + child.count < TWO64 && start + child.count <= |all|
      && child.height == p.height - 1 && !child.root && child.Fits(b)
    ensures var (child, start) := p.Child(slot - p.Base(), b);
      var below, group := all[start..start + child.count], Select(edits, Router(p, offset, b), slot);
      && Within(group, child, offset + start) && Distinct(group, (e: Edit) => e.index)
      && (Matches(below, group, offset + start) <==> forall e :: e in group ==> Hit(all, e, offset))
      && ListNode(b, below, child.height, Inner).layout == ListLayout
      && ListNode(b, all, p.height, kind).cells[slot] == Child(ListNode(b, below, child.height, Inner))
      && ListNode(b, Patched(all, edits, offset), p.height, kind).cells[slot]
        == Child(ListNode(b, Patched(below, group, offset + start), child.height, Inner))
  {
    hide ListNode, ListCell, Position.Used, Position.Fits, Position.Child, Span, Times, AfterAt, Router, Hit,
      Distinct, Select, Within, Matches;
    var d := slot - p.Base();
    CanonicalChild(b, all, p, kind, d);
    CanonicalChild(b, Patched(all, edits, offset), p, kind, d);
    var (child, start) := p.Child(d, b);
    CanonicalMeta(b, all[start..start + child.count], child.height, Inner);
    SlotGroup(all, edits, p, offset, b, d, child, start);
  }

  lemma SlotGroup(all: seq<Target>, edits: seq<Edit>, p: Position, offset: U64, b: Radix, d: nat, child: Position,
                  start: nat)
    requires |all| == p.count && p.Fits(b) && d < p.Used(b)
    requires Within(edits, p, offset) && Distinct(edits, (e: Edit) => e.index)
    requires start == Times(d, Span(b, p.height)) && child.count == Min(p.count - start, Span(b, p.height))
    requires start + child.count <= |all|
    ensures var below, group := all[start..start + child.count], Select(edits, Router(p, offset, b), p.Base() + d);
      && Within(group, child, offset + start) && Distinct(group, (e: Edit) => e.index)
      && (Matches(below, group, offset + start) <==> forall e :: e in group ==> Hit(all, e, offset))
      && Patched(all, edits, offset)[start..start + child.count] == Patched(below, group, offset + start)
  {
    hide Position.Used, Position.Fits, Span, Times, AfterAt, Router, Hit, Distinct, Patched, Matches;
    var slot := p.Base() + d;
    GroupWithin(edits, p, offset, b, d, child.count);
    GroupPatched(all, edits, Router(p, offset, b), slot, offset, start, child.count);
    SelectDistinct(edits, (e: Edit) => e.index, Router(p, offset, b), slot);
    GroupHits(all, Select(edits, Router(p, offset, b), slot), offset, start, child.count);
  }

  lemma GroupHits(all: seq<Target>, group: seq<Edit>, offset: nat, start: nat, n: nat)
    requires start + n <= |all|
    requires forall e :: e in group ==> offset + start <= e.index < offset + start + n
    ensures Matches(all[start..start + n], group, offset + start) <==> forall e :: e in group ==> Hit(all, e, offset)
  {
    forall e | e in group
      ensures Hit(all[start..start + n], e, offset + start) <==> Hit(all, e, offset)
    {
    }
  }

  lemma LeafPlan(b: Radix, all: seq<Target>, edits: seq<Edit>, p: Position, kind: Kind, offset: U64, slot: nat)
    requires |all| == p.count && p.root == kind.Root? && p.Fits(b) && p.height == 0
    requires Within(edits, p, offset) && Distinct(edits, (e: Edit) => e.index)
    requires p.Base() <= slot < p.Base() + p.Used(b) && slot < Slots(b)
    requires Select(edits, Router(p, offset, b), slot) != []
    ensures var group, d := Select(edits, Router(p, offset, b), slot), slot - p.Base();
      && d < |all|
      && ((forall e :: e in group ==> Hit(all, e, offset)) <==> group[0].before == all[d])
      && ListNode(b, all, 0, kind).cells[slot] == ListLeaf(all[d])
      && ListNode(b, Patched(all, edits, offset), 0, kind).cells[slot] == ListLeaf(group[0].after)
  {
    hide ListNode, ListCell, Position.Used, Position.Fits, AfterAt, Router, Hit, Select, Distinct, Within;
    var group, d := Select(edits, Router(p, offset, b), slot), slot - p.Base();
    LeafUsed(p, b);
    LeafGroup(edits, p, offset, b, slot);
    CanonicalCell(b, all, 0, kind, d);
    CanonicalCell(b, Patched(all, edits, offset), 0, kind, d);
    AfterAtIs(edits, offset + d, all[d]);
    HitOne(all, group, offset, d);
  }

  lemma HitOne(all: seq<Target>, group: seq<Edit>, offset: nat, d: nat)
    requires d < |all| && group != [] && group == [group[0]] && group[0].index == offset + d
    ensures (forall e :: e in group ==> Hit(all, e, offset)) <==> group[0].before == all[d]
  {
    assert group[0] in group;
  }

  lemma LeafGroup(edits: seq<Edit>, p: Position, offset: U64, b: Radix, slot: nat)
    requires p.Fits(b) && p.height == 0
    requires Within(edits, p, offset) && Distinct(edits, (e: Edit) => e.index)
    requires p.Base() <= slot < p.Base() + p.Used(b)
    requires Select(edits, Router(p, offset, b), slot) != []
    ensures var group := Select(edits, Router(p, offset, b), slot);
      group == [group[0]] && group[0].index == offset + (slot - p.Base()) && group[0] in edits
  {
    hide Position.Used, Position.Fits, Span, Times, Router;
    var group, d := Select(edits, Router(p, offset, b), slot), slot - p.Base();
    LeafUsed(p, b);
    LeafSpan(b, d);
    GroupWithin(edits, p, offset, b, d, 1);
    SelectDistinct(edits, (e: Edit) => e.index, Router(p, offset, b), slot);
    SingleEdit(group, offset + d);
    assert group[0] in group;
  }

  // At height zero the group of a slot is a single edit of one target.
  method ReplaceLeaf(b: Radix, ref: Ref, p: Position, slot: nat, offset: U64, group: seq<Edit>,
                     ghost all: seq<Target>, ghost edits: seq<Edit>, ghost kind: Kind)
    returns (r: Result<Cell, Error>)
    requires ShapeOk(ref.cells, p, b) && p.height == 0
    requires |all| == p.count && p.root == kind.Root? && p.Fits(b) && offset + p.count < TWO64
    requires Within(edits, p, offset) && Distinct(edits, (e: Edit) => e.index)
    requires p.Base() <= slot < p.Base() + p.Used(b) && slot < Slots(b)
    requires group == Select(edits, Router(p, offset, b), slot) != []
    ensures r.Ok? ==> Committable(r.value, {})
    ensures ref == ListNode(b, all, 0, kind) ==>
      r == if forall e :: e in group ==> Hit(all, e, offset)
           then Ok(ListNode(b, Patched(all, edits, offset), 0, kind).cells[slot])
           else Err(Mismatch)
    ensures r.Err? ==> r.error != Incomplete
  {
    hide ListNode, ListCell, Position.Used, Position.Fits, ShapeOk, AfterAt, Router, Hit, Patched, Within, Distinct;
    LeafPlan(b, all, edits, p, kind, offset, slot);
    ShapePadding(ref.cells, p, b);
    var target := ParseList(ref.cells[slot]);
    if target.Err? {
      return Err(target.error);
    }
    if target.value != group[0].before {
      return Err(Mismatch);
    }
    return Ok(ListLeaf(group[0].after));
  }

  lemma SingleEdit(group: seq<Edit>, index: nat)
    requires group != [] && Distinct(group, (e: Edit) => e.index)
    requires forall e :: e in group ==> e.index == index
    ensures group == [group[0]]
  {
    if |group| > 1 {
      TwoEdits(group);
    }
  }

  lemma TwoEdits(group: seq<Edit>)
    requires |group| > 1 && Distinct(group, (e: Edit) => e.index)
    ensures group[0] in group && group[1] in group && group[0].index != group[1].index
  {
    var key := (e: Edit) => e.index;
    assert key(group[0]) != key(group[1]);
  }

  lemma BuildingSet(cells: seq<Cell>, k: nat, end: nat, cell: Cell, small: set<Ref>, avail: set<Ref>)
    requires k < end && Committable(cell, avail)
    requires small <= avail && Building(cells, end, end, small)
    ensures Building(cells[k := cell], end, end, avail)
  {
  }

  lemma KeptBuilding(r: Ref, end: nat, avail: set<Ref>)
    requires WellTagged(r) && r.layout == ListLayout && Children(r) <= avail
    requires end <= |r.cells|
    requires forall k :: end <= k < |r.cells| ==> r.cells[k] == Blank
    ensures Building(r.cells, end, end, avail)
  {
    forall k | 0 <= k < |r.cells|
      ensures Committable(r.cells[k], avail)
    {
      KeptCommittable(r, r.cells[k], avail);
    }
  }
}
