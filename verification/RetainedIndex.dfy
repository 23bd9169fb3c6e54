// The retained relations of a writer, and how a delta edits them.
module RetainedIndex {
  import opened Words
  import opened Nodes
  import opened Bits
  import opened Coordinates
  import opened Grouping
  import opened Engine
  import opened Bindings

  // A change names its label; the coordinate is derived.
  datatype LabelChange = LabelChange(name: Label, before: Option<Target>, after: Option<Target>)

  // An absent count or payload keeps the current one; a present payload may be none.
  datatype Delta = Delta(changes: seq<LabelChange>, count: Option<U64>, payload: Option<Option<Target>>)

  // Every item is filed under its own derived coordinate.
  ghost predicate Keyed(derive: Deriver, layout: Layout, c: map<Path, Item>) {
    forall p :: p in c ==> BindingKey(c[p].at) == p && LabelCoordinate(derive, layout, c[p].name) == Ok(c[p].at)
  }

  ghost function Current(c: map<Path, Item>, at: Coordinate): Option<Item> {
    if BindingKey(at) in c then Some(c[BindingKey(at)]) else None
  }

  function Place(derive: Deriver, l: LabelChange): Change {
    var at := derive(l.name);
    Change(if at.Some? then at.value else AtIndex(0), l.name, l.before, l.after)
  }

  function Placed(derive: Deriver, changes: seq<LabelChange>): (r: seq<Change>)
    ensures |r| == |changes| && forall i :: 0 <= i < |r| ==> r[i] == Place(derive, changes[i])
  {
    seq(|changes|, i requires 0 <= i < |changes| => Place(derive, changes[i]))
  }

  // Whether a change fits the retained binding at its coordinate.
  ghost predicate Suits(derive: Deriver, layout: Layout, c: map<Path, Item>, count: nat, l: LabelChange) {
    var at := LabelCoordinate(derive, layout, l.name);
    && at.Ok? && (l.before.Some? || l.after.Some?)
    && (match Current(c, at.value)
        case None => l.before == None
        case Some(item) => item.name == l.name && l.before == Some(item.target))
    && (layout == ListLayout ==> l.after.Some? && at.value.index < count)
  }

  ghost predicate AllSuit(derive: Deriver, layout: Layout, c: map<Path, Item>, count: nat, changes: seq<LabelChange>) {
    && (forall l :: l in changes ==> Suits(derive, layout, c, count, l))
    && Distinct(Placed(derive, changes), AtOf())
  }

  // ---- The retained relations after a batch of changes ----

  ghost function Write(c: map<Path, Item>, ch: Change): map<Path, Item> {
    if ch.after.Some? then c[BindingKey(ch.at) := Item(ch.at, ch.name, ch.after.value)] else c - {BindingKey(ch.at)}
  }

  ghost function Writes(c: map<Path, Item>, changes: seq<Change>): map<Path, Item> {
    if changes == [] then c else Write(Writes(c, changes[..|changes| - 1]), changes[|changes| - 1])
  }

  ghost function WrittenItem(ch: Change): Option<Item> {
    if ch.after.Some? then Some(Item(ch.at, ch.name, ch.after.value)) else None
  }

  lemma WriteAt(c: map<Path, Item>, ch: Change, at: Coordinate)
    ensures Current(Write(c, ch), at) == if ch.at == at then WrittenItem(ch) else Current(c, at)
  {
    hide BindingKey;
    BindingKeyInjective(ch.at, at);
  }

  // A batch on distinct coordinates writes exactly those.
  lemma {:induction false} WritesAt(c: map<Path, Item>, changes: seq<Change>, at: Coordinate)
    requires Distinct(changes, AtOf())
    ensures forall ch :: ch in changes && ch.at == at ==> Current(Writes(c, changes), at) == WrittenItem(ch)
    ensures (forall ch :: ch in changes ==> ch.at != at) ==> Current(Writes(c, changes), at) == Current(c, at)
  {
    hide BindingKey, Write, Current;
    if changes != [] {
      var n := |changes| - 1;
      var last := changes[n];
      assert changes == changes[..n] + [last];
      WritesAt(c, changes[..n], at);
      WriteAt(Writes(c, changes[..n]), last, at);
      forall ch | ch in changes && ch.at == at
        ensures Current(Writes(c, changes), at) == WrittenItem(ch)
      {
        var i :| 0 <= i <= n && changes[i] == ch;
        assert i < n ==> AtOf()(changes[i]) != AtOf()(changes[n]);
        assert i < n ==> changes[..n][i] == ch;
      }
    }
  }

  lemma {:induction false} WritesKeyed(derive: Deriver, layout: Layout, c: map<Path, Item>, changes: seq<Change>)
    requires Keyed(derive, layout, c)
    requires forall ch :: ch in changes ==> LabelCoordinate(derive, layout, ch.name) == Ok(ch.at)
    ensures Keyed(derive, layout, Writes(c, changes))
    ensures |Writes(c, changes)| <= |c| + |changes|
  {
    hide BindingKey, Write, Keyed;
    if changes != [] {
      var n := |changes| - 1;
      assert changes == changes[..n] + [changes[n]];
      WritesKeyed(derive, layout, c, changes[..n]);
      WriteKeyed(derive, layout, Writes(c, changes[..n]), changes[n]);
    }
  }

  lemma WriteKeyed(derive: Deriver, layout: Layout, c: map<Path, Item>, ch: Change)
    requires Keyed(derive, layout, c) && LabelCoordinate(derive, layout, ch.name) == Ok(ch.at)
    ensures Keyed(derive, layout, Write(c, ch)) && |Write(c, ch)| <= |c| + 1
  {
    hide BindingKey, LabelCoordinate;
    WriteSize(c, ch);
  }

  lemma WriteSize(c: map<Path, Item>, ch: Change)
    ensures |Write(c, ch)| <= |c| + 1
  {
    hide BindingKey;
    var w := Write(c, ch);
    assert w.Keys <= c.Keys + {BindingKey(ch.at)};
    SubsetSize(w.Keys, c.Keys + {BindingKey(ch.at)});
    assert |w.Keys| == |w| && |c.Keys| == |c|;
  }

  lemma SubsetSize<T>(x: set<T>, y: set<T>)
    requires x <= y
    ensures |x| <= |y|
    ensures |x| == |y| ==> x == y
  {
    assert y == x + (y - x);
  }

  // ---- The dense index of a List ----

  ghost function IndexKeys(n: nat): (s: set<Path>)
    requires n <= TWO64
  {
    set i: nat | i < n :: BindingKey(AtIndex(i))
  }

  lemma {:induction false} IndexKeysSize(n: nat)
    requires n <= TWO64
    ensures |IndexKeys(n)| == n
  {
    hide BindingKey;
    if n > 0 {
      IndexKeysSize(n - 1);
      forall i: nat | i < n - 1
        ensures BindingKey(AtIndex(i)) != BindingKey(AtIndex(n - 1))
      {
        BindingKeyInjective(AtIndex(i), AtIndex(n - 1));
      }
      assert IndexKeys(n) == IndexKeys(n - 1) + {BindingKey(AtIndex(n - 1))};
    } else {
      assert IndexKeys(0) == {};
    }
  }

  // The count a delta asks for.
  ghost function CountAfter(layout: Layout, c: map<Path, Item>, delta: Delta): nat {
    if layout == ListLayout && delta.count.Some? then delta.count.value else |c|
  }

  // The relations that stay once a List is cut to its new count.
  ghost function Kept(layout: Layout, c: map<Path, Item>, count: nat): map<Path, Item> {
    if layout == ListLayout && count < |c| && count < TWO64 then Below(c, BindingKey(AtIndex(count))) else c
  }

  // The relations a delta leaves.
  ghost function After(derive: Deriver, layout: Layout, c: map<Path, Item>, delta: Delta): map<Path, Item> {
    Writes(Kept(layout, c, CountAfter(layout, c, delta)), Placed(derive, delta.changes))
  }

  // What a delta must satisfy: no sequence fields on a Map, every change in step
  // with the retained relations, and a List left dense at its new count.
  ghost predicate DeltaOk(derive: Deriver, layout: Layout, c: map<Path, Item>, delta: Delta) {
    var count := CountAfter(layout, c, delta);
    && (layout == MapLayout ==> delta.count == None && delta.payload == None)
    && AllSuit(derive, layout, c, count, delta.changes)
    && (layout == ListLayout ==> count <= TWO64 && After(derive, layout, c, delta).Keys == IndexKeys(count))
  }

  // Dropping the tail of a dense list leaves the indices below the count.
  lemma BelowDense(c: map<Path, Item>, count: U64)
    requires |c| < TWO64 && c.Keys == IndexKeys(|c|) && count <= |c|
    ensures Below(c, BindingKey(AtIndex(count))).Keys == IndexKeys(count)
  {
    hide BindingKey, Less;
    forall i: U64
      ensures Less(BindingKey(AtIndex(i)), BindingKey(AtIndex(count))) <==> i < count
    {
      IndexOrder(i, count);
    }
    assert forall i: U64 :: i < |c| ==> BindingKey(AtIndex(i)) in c;
  }

  // ---- The same in the caller's terms ----

  // A change fits: its label derives to a coordinate of the layout, where nothing is
  // bound or its own label is bound to the old target; a Map change has an effect,
  // and a List change leaves a target below the new count.
  ghost predicate ChangeFits(derive: Deriver, layout: Layout, c: map<Path, Item>, count: nat, l: LabelChange) {
    derive(l.name).Some? &&
    var at := derive(l.name).value;
    && (at.AtKey? <==> layout == MapLayout)
    && (match l.before
        case None => Current(c, at) == None
        case Some(t) => Current(c, at) == Some(Item(at, l.name, t)))
    && if layout == MapLayout then l.before.Some? || l.after.Some? else l.after.Some? && at.index < count
  }

  ghost predicate NamesIndex(derive: Deriver, changes: seq<LabelChange>, i: U64) {
    exists l :: l in changes && derive(l.name) == Some(AtIndex(i))
  }

  // A delta fits: no sequence fields on a Map, every change fits, no two at one
  // coordinate, and every index a List gains is named.
  ghost predicate DeltaFits(derive: Deriver, layout: Layout, c: map<Path, Item>, delta: Delta) {
    var count := if layout == ListLayout && delta.count.Some? then delta.count.value else |c|;
    && (layout == MapLayout ==> delta.count == None && delta.payload == None)
    && (forall l :: l in delta.changes ==> ChangeFits(derive, layout, c, count, l))
    && (forall i, j :: 0 <= i < j < |delta.changes| ==> derive(delta.changes[i].name) != derive(delta.changes[j].name))
    && (layout == ListLayout ==> forall i: U64 :: |c| <= i < count ==> NamesIndex(derive, delta.changes, i))
  }

  // The relations of a writer: a List is dense.
  ghost predicate Whole(derive: Deriver, layout: Layout, c: map<Path, Item>) {
    Keyed(derive, layout, c) && (layout == ListLayout ==> |c| < TWO64 && c.Keys == IndexKeys(|c|))
  }

  lemma SuitsIs(derive: Deriver, layout: Layout, c: map<Path, Item>, count: nat, l: LabelChange)
    requires Keyed(derive, layout, c)
    ensures Suits(derive, layout, c, count, l) <==> ChangeFits(derive, layout, c, count, l)
  {
    hide BindingKey;
    if derive(l.name).Some? && Current(c, derive(l.name).value).Some? {
      BindingKeyInjective(Current(c, derive(l.name).value).value.at, derive(l.name).value);
    }
  }

  lemma AllSuitIs(derive: Deriver, layout: Layout, c: map<Path, Item>, count: nat, changes: seq<LabelChange>)
    requires Keyed(derive, layout, c)
    ensures AllSuit(derive, layout, c, count, changes) <==> (
      && (forall l :: l in changes ==> ChangeFits(derive, layout, c, count, l))
      && forall i, j :: 0 <= i < j < |changes| ==> derive(changes[i].name) != derive(changes[j].name))
  {
    hide Keyed, Suits;
    forall l
      ensures Suits(derive, layout, c, count, l) <==> ChangeFits(derive, layout, c, count, l)
    {
      SuitsIs(derive, layout, c, count, l);
    }
    if forall l :: l in changes ==> ChangeFits(derive, layout, c, count, l) {
      forall i, j | 0 <= i < j < |changes|
        ensures AtOf()(Placed(derive, changes)[i]) != AtOf()(Placed(derive, changes)[j])
          <==> derive(changes[i].name) != derive(changes[j].name)
      {
        assert changes[i] in changes && changes[j] in changes;
      }
    }
  }

  // Every coordinate a delta names holds what it says; a List loses the indices from
  // its count on, and everything else stays.
  lemma AfterIs(derive: Deriver, layout: Layout, c: map<Path, Item>, delta: Delta, at: Coordinate)
    requires Whole(derive, layout, c)
    requires AllSuit(derive, layout, c, CountAfter(layout, c, delta), delta.changes)
    ensures forall l :: l in delta.changes && derive(l.name) == Some(at) ==> (
      Current(After(derive, layout, c, delta), at)
        == if l.after.Some? then Some(Item(at, l.name, l.after.value)) else None)
    ensures (forall l :: l in delta.changes ==> derive(l.name) != Some(at)) ==> (
      Current(After(derive, layout, c, delta), at)
        == if layout == ListLayout && at.AtIndex? && delta.count.Some? && at.index >= delta.count.value then None
           else Current(c, at))
  {
    hide BindingKey, Less, Writes, Suits, Keyed, IndexKeys;
    var count, placed := CountAfter(layout, c, delta), Placed(derive, delta.changes);
    WritesAt(Kept(layout, c, count), placed, at);
    KeptAt(derive, layout, c, delta, at);
    forall i | 0 <= i < |placed|
      ensures derive(delta.changes[i].name) == Some(placed[i].at) && placed[i] in placed
    {
      assert delta.changes[i] in delta.changes;
      SuitsDerives(derive, layout, c, count, delta.changes[i]);
    }
    forall l | l in delta.changes && derive(l.name) == Some(at)
      ensures Current(Writes(Kept(layout, c, count), placed), at)
        == if l.after.Some? then Some(Item(at, l.name, l.after.value)) else None
    {
      var i :| 0 <= i < |placed| && delta.changes[i] == l;
      assert placed[i].at == at;
    }
  }

  // The relations a delta leaves, coordinate by coordinate.
  ghost predicate Leaves(derive: Deriver, layout: Layout, c: map<Path, Item>, delta: Delta, a: map<Path, Item>) {
    && (forall l :: l in delta.changes && derive(l.name).Some? ==> (
          Current(a, derive(l.name).value)
            == if l.after.Some? then Some(Item(derive(l.name).value, l.name, l.after.value)) else None))
    && forall at :: (forall l :: l in delta.changes ==> derive(l.name) != Some(at)) ==> (
        Current(a, at)
          == if layout == ListLayout && at.AtIndex? && delta.count.Some? && at.index >= delta.count.value then None
             else Current(c, at))
  }

  lemma AfterLeaves(derive: Deriver, layout: Layout, c: map<Path, Item>, delta: Delta)
    requires Whole(derive, layout, c) && DeltaOk(derive, layout, c, delta)
    ensures Leaves(derive, layout, c, delta, After(derive, layout, c, delta))
  {
    hide Whole, AllSuit, After, Current, IndexKeys;
    forall at
      ensures forall l :: l in delta.changes && derive(l.name) == Some(at) ==> (
        Current(After(derive, layout, c, delta), at)
          == if l.after.Some? then Some(Item(at, l.name, l.after.value)) else None)
      ensures (forall l :: l in delta.changes ==> derive(l.name) != Some(at)) ==> (
        Current(After(derive, layout, c, delta), at)
          == if layout == ListLayout && at.AtIndex? && delta.count.Some? && at.index >= delta.count.value then None
             else Current(c, at))
    {
      AfterIs(derive, layout, c, delta, at);
    }
  }

  lemma KeptAt(derive: Deriver, layout: Layout, c: map<Path, Item>, delta: Delta, at: Coordinate)
    requires Whole(derive, layout, c)
    ensures Current(Kept(layout, c, CountAfter(layout, c, delta)), at)
      == if layout == ListLayout && at.AtIndex? && delta.count.Some? && at.index >= delta.count.value then None
         else Current(c, at)
  {
    hide BindingKey, Less;
    if layout == ListLayout {
      if at.AtKey? && BindingKey(at) in c {
        BindingKeyInjective(c[BindingKey(at)].at, at);
      }
      if at.AtIndex? {
        AbsentBeyond(c, at.index);
        if delta.count.Some? {
          IndexOrder(at.index, delta.count.value);
        }
      }
    }
  }

  lemma AbsentBeyond(c: map<Path, Item>, i: U64)
    requires |c| < TWO64 && c.Keys == IndexKeys(|c|)
    ensures BindingKey(AtIndex(i)) in c <==> i < |c|
  {
    hide BindingKey;
    IndexKeysAt(|c|, i);
  }

  lemma IndexKeysAt(n: nat, i: U64)
    requires n <= TWO64
    ensures BindingKey(AtIndex(i)) in IndexKeys(n) <==> i < n
  {
    hide BindingKey;
    forall j: nat | j < n
      ensures BindingKey(AtIndex(j)) == BindingKey(AtIndex(i)) <==> i == j
    {
      BindingKeyInjective(AtIndex(i), AtIndex(j));
    }
  }

  // The index checks accept exactly the deltas that fit.
  lemma DeltaOkIs(derive: Deriver, layout: Layout, c: map<Path, Item>, delta: Delta)
    requires Whole(derive, layout, c)
    ensures DeltaOk(derive, layout, c, delta) <==> DeltaFits(derive, layout, c, delta)
  {
    hide BindingKey, Less, Keyed, AllSuit, ChangeFits, After, IndexKeys;
    var count := CountAfter(layout, c, delta);
    AllSuitIs(derive, layout, c, count, delta.changes);
    if layout == ListLayout && AllSuit(derive, layout, c, count, delta.changes) {
      DenseIs(derive, c, delta);
    }
  }

  lemma DenseIs(derive: Deriver, c: map<Path, Item>, delta: Delta)
    requires Whole(derive, ListLayout, c)
    requires AllSuit(derive, ListLayout, c, CountAfter(ListLayout, c, delta), delta.changes)
    ensures After(derive, ListLayout, c, delta).Keys == IndexKeys(CountAfter(ListLayout, c, delta))
      <==> forall i: U64 :: |c| <= i < CountAfter(ListLayout, c, delta) ==> NamesIndex(derive, delta.changes, i)
  {
    hide BindingKey, Less, Keyed, AllSuit, After, IndexKeys;
    var count, a := CountAfter(ListLayout, c, delta), After(derive, ListLayout, c, delta);
    OnlyBelow(derive, c, delta);
    forall i: U64 | i < count
      ensures BindingKey(AtIndex(i)) in a <==> i < |c| || NamesIndex(derive, delta.changes, i)
      ensures BindingKey(AtIndex(i)) in IndexKeys(count)
    {
      AfterIs(derive, ListLayout, c, delta, AtIndex(i));
      IndexKeysAt(count, i);
      AbsentBeyond(c, i);
      NamedIsSet(derive, c, count, delta.changes, i);
    }
    if forall i: U64 :: |c| <= i < count ==> NamesIndex(derive, delta.changes, i) {
      IndexKeysMembers(count);
      assert a.Keys == IndexKeys(count);
    }
  }

  lemma IndexKeysMembers(n: nat)
    requires n <= TWO64
    ensures forall p :: p in IndexKeys(n) ==> exists i: U64 :: i < n && p == BindingKey(AtIndex(i))
  {
    hide BindingKey;
  }

  // A List change leaves a target.
  lemma NamedIsSet(derive: Deriver, c: map<Path, Item>, count: nat, changes: seq<LabelChange>, i: U64)
    requires AllSuit(derive, ListLayout, c, count, changes)
    ensures forall l :: l in changes && derive(l.name) == Some(AtIndex(i)) ==> l.after.Some?
  {
    hide BindingKey;
  }

  lemma OnlyBelow(derive: Deriver, c: map<Path, Item>, delta: Delta)
    requires Whole(derive, ListLayout, c)
    requires AllSuit(derive, ListLayout, c, CountAfter(ListLayout, c, delta), delta.changes)
    ensures After(derive, ListLayout, c, delta).Keys <= IndexKeys(CountAfter(ListLayout, c, delta))
  {
    hide BindingKey, Less, Keyed, AllSuit, Writes;
    var count := CountAfter(ListLayout, c, delta);
    if count < |c| {
      BelowDense(c, count);
    }
    IndexKeysGrow(Min(count, |c|), count);
    forall ch | ch in Placed(derive, delta.changes)
      ensures ch.at.AtIndex? && ch.at.index < count
    {
      PlacedSuits(derive, ListLayout, c, count, delta.changes, ch);
    }
    WritesWithin(Kept(ListLayout, c, count), Placed(derive, delta.changes), count);
  }

  // ---- Refusals ----

  // What is wrong with one change.
  ghost predicate ChangeRefused(derive: Deriver, layout: Layout, c: map<Path, Item>, count: nat, l: LabelChange,
                                e: Error) {
    if !(derive(l.name).Some? && (derive(l.name).value.AtKey? <==> layout == MapLayout)) then e == BadSelector else
      var at := derive(l.name).value;
      match e
      case Undefined => l.before == None && l.after == None
      case Collision => Current(c, at).Some? && Current(c, at).value.name != l.name
      case Mismatch =>
        if Current(c, at).Some? then l.before != Some(Current(c, at).value.target) else l.before.Some?
      case OutOfRange => layout == ListLayout && (l.after == None || at.index >= count)
      case _ => false
  }

  // What is wrong with a batch: with one change, or with two at one coordinate.
  ghost predicate ChangesRefused(derive: Deriver, layout: Layout, c: map<Path, Item>, count: nat,
                                 changes: seq<LabelChange>, e: Error) {
    || (exists l :: l in changes && ChangeRefused(derive, layout, c, count, l, e))
    || exists i, j :: 0 <= i < j < |changes| && SharesPlace(derive, changes[i], changes[j], e)
  }

  ghost predicate SharesPlace(derive: Deriver, x: LabelChange, y: LabelChange, e: Error) {
    derive(x.name).Some? && derive(x.name) == derive(y.name) && e == if x.name == y.name then Duplicate else Collision
  }

  ghost predicate DeltaRefused(derive: Deriver, layout: Layout, c: map<Path, Item>, delta: Delta, e: Error) {
    var count := if layout == ListLayout && delta.count.Some? then delta.count.value else |c|;
    || (e == BadNode && layout == MapLayout && (delta.count.Some? || delta.payload.Some?))
    || ChangesRefused(derive, layout, c, count, delta.changes, e)
    || (e == OutOfRange && layout == ListLayout
        && exists i: U64 :: |c| <= i < count && !NamesIndex(derive, delta.changes, i))
  }

  // ---- One pass over the changes ----

  predicate Replaces(layout: Layout, oldCount: nat, ch: Change) {
    (layout == MapLayout || (ch.at.AtIndex? && ch.at.index < oldCount)) && ch.before != ch.after
  }

  // The changes that edit existing tree positions and are not idle.
  function Replacements(layout: Layout, oldCount: nat, changes: seq<Change>): (r: seq<Change>)
    ensures forall ch :: ch in r <==> ch in changes && Replaces(layout, oldCount, ch)
  {
    if changes == [] then [] else
      var last := changes[|changes| - 1];
      var front := Replacements(layout, oldCount, changes[..|changes| - 1]);
      assert changes == changes[..|changes| - 1] + [last];
      if Replaces(layout, oldCount, last) then front + [last] else front
  }

  lemma {:induction false} ReplacementsDistinct(layout: Layout, oldCount: nat, changes: seq<Change>)
    requires Distinct(changes, AtOf())
    ensures Distinct(Replacements(layout, oldCount, changes), AtOf())
  {
    if changes != [] {
      var n := |changes| - 1;
      ReplacementsDistinct(layout, oldCount, changes[..n]);
      forall x | x in Replacements(layout, oldCount, changes[..n])
        ensures AtOf()(x) != AtOf()(changes[n])
      {
        var i :| 0 <= i < n && changes[..n][i] == x;
        assert changes[i] == x;
      }
    }
  }

  lemma PlacedNext(derive: Deriver, layout: Layout, oldCount: nat, c: map<Path, Item>, changes: seq<LabelChange>,
                   i: nat)
    requires i < |changes|
    ensures var ch := Place(derive, changes[i]);
      && Placed(derive, changes[..i + 1]) == Placed(derive, changes[..i]) + [ch]
      && Writes(c, Placed(derive, changes[..i + 1])) == Write(Writes(c, Placed(derive, changes[..i])), ch)
      && Replacements(layout, oldCount, Placed(derive, changes[..i + 1]))
         == Replacements(layout, oldCount, Placed(derive, changes[..i]))
            + (if Replaces(layout, oldCount, ch) then [ch] else [])
  {
    var x, y := Placed(derive, changes[..i]), Placed(derive, changes[..i + 1]);
    assert y == x + [Place(derive, changes[i])];
    assert y[..i] == x;
  }

  // Two changes at one coordinate are refused, whatever follows.
  lemma Repeated(derive: Deriver, layout: Layout, c: map<Path, Item>, count: nat, changes: seq<LabelChange>, j: nat,
                 i: nat)
    requires j < i < |changes| && derive(changes[j].name).Some? && derive(changes[j].name) == derive(changes[i].name)
    ensures !AllSuit(derive, layout, c, count, changes)
  {
    var ps := Placed(derive, changes);
    assert AtOf()(ps[j]) == AtOf()(ps[i]);
  }

  lemma SuitNext(derive: Deriver, layout: Layout, c: map<Path, Item>, count: nat, changes: seq<LabelChange>, i: nat)
    requires i < |changes| && AllSuit(derive, layout, c, count, changes[..i])
    requires Suits(derive, layout, c, count, changes[i])
    requires forall j :: 0 <= j < i ==> derive(changes[j].name) != derive(changes[i].name)
    ensures AllSuit(derive, layout, c, count, changes[..i + 1])
  {
    hide Suits;
    assert changes[..i + 1] == changes[..i] + [changes[i]];
    var x, y := Placed(derive, changes[..i]), Placed(derive, changes[..i + 1]);
    assert y == x + [Place(derive, changes[i])];
    forall j | 0 <= j < i
      ensures AtOf()(y[j]) != AtOf()(y[i])
    {
      assert changes[..i][j] in changes[..i];
      SuitsDerives(derive, layout, c, count, changes[j]);
      SuitsDerives(derive, layout, c, count, changes[i]);
    }
    forall j, k | 0 <= j < k < i + 1
      ensures AtOf()(y[j]) != AtOf()(y[k])
    {
      if k < i {
        assert AtOf()(x[j]) != AtOf()(x[k]);
      }
    }
  }

  lemma SuitsDerives(derive: Deriver, layout: Layout, c: map<Path, Item>, count: nat, l: LabelChange)
    requires Suits(derive, layout, c, count, l)
    ensures derive(l.name) == Some(Place(derive, l).at)
    ensures LabelCoordinate(derive, layout, l.name) == Ok(Place(derive, l).at)
    ensures (layout == MapLayout) == Place(derive, l).at.AtKey?
  {
  }

  // Checks one change against the retained binding at its coordinate.
  method CheckRetained(derive: Deriver, layout: Layout, base: Index, count: nat, l: LabelChange, at: Coordinate)
    returns (r: Result<(), Error>)
    requires Sound(base) && LabelCoordinate(derive, layout, l.name) == Ok(at)
    ensures r.Ok? <==> Suits(derive, layout, Contents(base), count, l)
    ensures r.Err? ==> ChangeRefused(derive, layout, Contents(base), count, l, r.error)
  {
    hide BindingKey, Bindings.Sound, Bindings.Contents;
    if l.before == None && l.after == None {
      return Err(Undefined);
    }
    var old_ := Get(base, BindingKey(at));
    if old_.Some? && old_.value.name != l.name {
      return Err(Collision);
    }
    if (old_ == None && l.before.Some?) || (old_.Some? && l.before != Some(old_.value.target)) {
      return Err(Mismatch);
    }
    if layout == ListLayout && (l.after == None || at.index >= count) {
      return Err(OutOfRange);
    }
    return Ok(());
  }

  // Checks the changes against the retained relations and edits the index,
  // collecting the replacements the tree must make.
  method Accept(derive: Deriver, layout: Layout, base: Index, start: Index, oldCount: nat, count: nat,
                changes: seq<LabelChange>)
    returns (r: Result<(Index, seq<Change>), Error>)
    requires Sound(base) && Sound(start)
    ensures r.Ok? <==> AllSuit(derive, layout, Contents(base), count, changes)
    ensures r.Err? ==> ChangesRefused(derive, layout, Contents(base), count, changes, r.error)
    ensures r.Ok? ==> Sound(r.value.0) && Contents(r.value.0) == Writes(Contents(start), Placed(derive, changes))
    ensures r.Ok? ==> r.value.1 == Replacements(layout, oldCount, Placed(derive, changes))
  {
    hide BindingKey, Less, Distinct, Bindings.Sound, Bindings.Contents, AllSuit, Suits, Writes, Write, Replacements,
      Placed, Place,
      LabelCoordinate, SeenAre, SeenLabels, ChangeRefused;
    ghost var c := Contents(base);
    var bindings := start;
    var seen: map<Coordinate, Label> := map[];
    var replacements: seq<Change> := [];
    NoChanges(derive, layout, c, Contents(start), oldCount, count);
    assert changes[..0] == [] && seen.Keys == {};
    NoLabels(derive, changes);
    for i := 0 to |changes|
      invariant Sound(bindings) && Contents(bindings) == Writes(Contents(start), Placed(derive, changes[..i]))
      invariant replacements == Replacements(layout, oldCount, Placed(derive, changes[..i]))
      invariant AllSuit(derive, layout, c, count, changes[..i])
      invariant SeenAre(derive, changes, i, seen.Keys) && SeenLabels(derive, changes, i, seen)
    {
      var l := changes[i];
      assert l in changes;
      AllSuitAt(derive, layout, c, count, changes, i);
      PlacedNext(derive, layout, oldCount, Contents(start), changes, i);
      var at := LabelCoordinate(derive, layout, l.name);
      if at.Err? {
        Unplaceable(derive, layout, c, count, l);
        return Err(at.error);
      }
      Placeable(derive, layout, l);
      SeenNext(derive, changes, i, seen.Keys);
      if at.value in seen {
        SeenTwice(derive, layout, c, count, changes, i, seen.Keys);
        SeenShares(derive, changes, i, seen);
        return Err(if seen[at.value] != l.name then Collision else Duplicate);
      }
      ghost var before := seen.Keys;
      LabelsNext(derive, changes, i, seen);
      seen := seen[at.value := l.name];
      assert seen.Keys == before + {at.value};
      var fits := CheckRetained(derive, layout, base, count, l, at.value);
      if fits.Err? {
        return Err(fits.error);
      }
      SuitNext(derive, layout, c, count, changes, i);
      var ch := Change(at.value, l.name, l.before, l.after);
      bindings := WriteIndex(bindings, ch);
      if (layout == MapLayout || at.value.index < oldCount) && l.before != l.after {
        replacements := replacements + [ch];
      }
    }
    assert changes[..|changes|] == changes;
    return Ok((bindings, replacements));
  }

  // Sets or deletes the binding a change leaves.
  method WriteIndex(bindings: Index, ch: Change) returns (r: Index)
    requires Sound(bindings)
    ensures Sound(r) && Contents(r) == Write(Contents(bindings), ch)
  {
    hide BindingKey, Bindings.Sound, Bindings.Contents;
    if ch.after.Some? {
      r := Set(bindings, BindingKey(ch.at), Item(ch.at, ch.name, ch.after.value));
    } else {
      DeleteRemoves(bindings, BindingKey(ch.at));
      r := Delete(bindings, BindingKey(ch.at));
    }
  }

  // The coordinates of the changes checked so far.
  ghost predicate SeenAre(derive: Deriver, changes: seq<LabelChange>, i: nat, seen: set<Coordinate>)
    requires i <= |changes|
  {
    && (forall j :: 0 <= j < i ==> derive(changes[j].name).Some? && derive(changes[j].name).value in seen)
    && forall at :: at in seen ==> exists j :: 0 <= j < i && derive(changes[j].name) == Some(at)
  }

  // Each with the label of its change.
  ghost predicate SeenLabels(derive: Deriver, changes: seq<LabelChange>, i: nat, seen: map<Coordinate, Label>)
    requires i <= |changes|
  {
    forall at :: at in seen ==> (
      exists j :: 0 <= j < i && derive(changes[j].name) == Some(at) && changes[j].name == seen[at])
  }

  lemma NoLabels(derive: Deriver, changes: seq<LabelChange>)
    ensures SeenLabels(derive, changes, 0, map[])
  {
  }

  lemma LabelsNext(derive: Deriver, changes: seq<LabelChange>, i: nat, seen: map<Coordinate, Label>)
    requires i < |changes| && SeenLabels(derive, changes, i, seen) && derive(changes[i].name).Some?
    ensures SeenLabels(derive, changes, i + 1, seen[derive(changes[i].name).value := changes[i].name])
  {
  }

  lemma SeenShares(derive: Deriver, changes: seq<LabelChange>, i: nat, seen: map<Coordinate, Label>)
    requires i < |changes| && SeenLabels(derive, changes, i, seen)
    requires derive(changes[i].name).Some? && derive(changes[i].name).value in seen
    ensures exists j, k :: 0 <= j < k < |changes| && SharesPlace(derive, changes[j], changes[k],
              if seen[derive(changes[i].name).value] != changes[i].name then Collision else Duplicate)
  {
    var at := derive(changes[i].name).value;
    var j :| 0 <= j < i && derive(changes[j].name) == Some(at) && changes[j].name == seen[at];
    assert SharesPlace(derive, changes[j], changes[i], if seen[at] != changes[i].name then Collision else Duplicate);
  }

  lemma SeenNext(derive: Deriver, changes: seq<LabelChange>, i: nat, seen: set<Coordinate>)
    requires i < |changes| && SeenAre(derive, changes, i, seen) && derive(changes[i].name).Some?
    ensures SeenAre(derive, changes, i + 1, seen + {derive(changes[i].name).value})
    ensures derive(changes[i].name).value !in seen ==> (
      forall j :: 0 <= j < i ==> derive(changes[j].name) != derive(changes[i].name))
  {
  }

  lemma SeenTwice(derive: Deriver, layout: Layout, c: map<Path, Item>, count: nat, changes: seq<LabelChange>, i: nat,
                  seen: set<Coordinate>)
    requires i < |changes| && SeenAre(derive, changes, i, seen)
    requires derive(changes[i].name).Some? && derive(changes[i].name).value in seen
    ensures !AllSuit(derive, layout, c, count, changes)
  {
    var j :| 0 <= j < i && derive(changes[j].name) == derive(changes[i].name);
    Repeated(derive, layout, c, count, changes, j, i);
  }

  lemma Placeable(derive: Deriver, layout: Layout, l: LabelChange)
    requires LabelCoordinate(derive, layout, l.name).Ok?
    ensures var at := LabelCoordinate(derive, layout, l.name).value;
      && derive(l.name) == Some(at) && (layout == MapLayout) == at.AtKey?
      && Place(derive, l) == Change(at, l.name, l.before, l.after)
  {
  }

  lemma Unplaceable(derive: Deriver, layout: Layout, c: map<Path, Item>, count: nat, l: LabelChange)
    requires LabelCoordinate(derive, layout, l.name).Err?
    ensures !Suits(derive, layout, c, count, l)
    ensures LabelCoordinate(derive, layout, l.name).error == BadSelector
    ensures ChangeRefused(derive, layout, c, count, l, BadSelector)
  {
  }

  lemma NoChanges(derive: Deriver, layout: Layout, c: map<Path, Item>, start: map<Path, Item>, oldCount: nat,
                  count: nat)
    ensures forall changes :: SeenAre(derive, changes, 0, {})
    ensures AllSuit(derive, layout, c, count, []) && Placed(derive, []) == []
    ensures Writes(start, []) == start && Replacements(layout, oldCount, []) == []
  {
  }

  lemma AllSuitAt(derive: Deriver, layout: Layout, c: map<Path, Item>, count: nat, changes: seq<LabelChange>, i: nat)
    requires i < |changes|
    ensures AllSuit(derive, layout, c, count, changes) ==> Suits(derive, layout, c, count, changes[i])
  {
  }

  // Each change adds at most one binding and stays below the count, so a List of
  // the right size is dense, and one with too few changes cannot be.
  lemma DenseBySize(derive: Deriver, c: map<Path, Item>, delta: Delta)
    requires Keyed(derive, ListLayout, c) && |c| < TWO64 && c.Keys == IndexKeys(|c|)
    requires var count := CountAfter(ListLayout, c, delta);
      AllSuit(derive, ListLayout, c, count, delta.changes) && count < TWO64
    ensures var a, count := After(derive, ListLayout, c, delta), CountAfter(ListLayout, c, delta);
      && Keyed(derive, ListLayout, a) && (|a| == count <==> a.Keys == IndexKeys(count))
      && (|a| == count ==> count <= |c| + |delta.changes|)
  {
    hide BindingKey, Less;
    var count := CountAfter(ListLayout, c, delta);
    var kept, placed := Kept(ListLayout, c, count), Placed(derive, delta.changes);
    if count < |c| {
      BelowDense(c, count);
    }
    IndexKeysSize(Min(count, |c|));
    IndexKeysSize(count);
    assert |kept| == |kept.Keys| == Min(count, |c|);
    KeptKeyed(derive, c, count);
    forall ch | ch in placed
      ensures LabelCoordinate(derive, ListLayout, ch.name) == Ok(ch.at) && ch.at.index < count
    {
      PlacedSuits(derive, ListLayout, c, count, delta.changes, ch);
    }
    WritesKeyed(derive, ListLayout, kept, placed);
    IndexKeysGrow(Min(count, |c|), count);
    WritesWithin(kept, placed, count);
    SubsetSize(Writes(kept, placed).Keys, IndexKeys(count));
    assert |Writes(kept, placed)| == |Writes(kept, placed).Keys|;
  }

  lemma IndexKeysGrow(m: nat, n: nat)
    requires m <= n <= TWO64
    ensures IndexKeys(m) <= IndexKeys(n)
  {
  }

  lemma KeptKeyed(derive: Deriver, c: map<Path, Item>, count: nat)
    requires Keyed(derive, ListLayout, c)
    ensures Keyed(derive, ListLayout, Kept(ListLayout, c, count))
  {
    hide BindingKey, Less, LabelCoordinate;
  }

  lemma PlacedSuits(derive: Deriver, layout: Layout, c: map<Path, Item>, count: nat, changes: seq<LabelChange>,
                    ch: Change)
    requires AllSuit(derive, layout, c, count, changes) && ch in Placed(derive, changes)
    ensures exists l :: l in changes && ch == Place(derive, l) && Suits(derive, layout, c, count, l)
    ensures LabelCoordinate(derive, layout, ch.name) == Ok(ch.at)
    ensures derive(ch.name) == Some(ch.at) && (layout == MapLayout) == ch.at.AtKey?
    ensures layout == ListLayout ==> ch.at.index < count && ch.after.Some?
    ensures (ch.before.Some? || ch.after.Some?)
      && (match Current(c, ch.at) case None => ch.before == None
          case Some(item) => item.name == ch.name && ch.before == Some(item.target))
  {
    hide BindingKey;
    var i :| 0 <= i < |changes| && Place(derive, changes[i]) == ch;
    assert changes[i] in changes;
    SuitsDerives(derive, layout, c, count, changes[i]);
  }

  lemma {:induction false} WritesWithin(c: map<Path, Item>, changes: seq<Change>, count: nat)
    requires count <= TWO64 && c.Keys <= IndexKeys(count)
    requires forall ch :: ch in changes ==> ch.at.AtIndex? && ch.at.index < count
    ensures Writes(c, changes).Keys <= IndexKeys(count)
  {
    hide BindingKey;
    if changes != [] {
      var n := |changes| - 1;
      assert changes == changes[..n] + [changes[n]];
      WritesWithin(c, changes[..n], count);
      assert BindingKey(changes[n].at) in IndexKeys(count) by {
        assert changes[n].at == AtIndex(changes[n].at.index);
      }
    }
  }
}
