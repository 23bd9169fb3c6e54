// Updating a writer to a complete desired state, and reading its state back.
module WriterUpdate {
  import opened Words
  import opened Geometry
  import opened Nodes
  import opened Bits
  import opened Coordinates
  import opened Workspaces
  import opened Engine
  import opened Bindings
  import opened RetainedIndex
  import opened Writers
  import opened WriterApply
  import opened WriterBuild

  // No coordinate is desired under another label than the retained one.
  ghost predicate NoRelabel(c: map<Path, Item>, s: map<Path, Item>) {
    forall at :: Current(c, at).Some? && Current(s, at).Some? ==> Current(c, at).value.name == Current(s, at).value.name
  }

  // The relations `w`: those of `s`, and those of `c` that are neither in `s` nor gone.
  ghost predicate Overlaid(w: map<Path, Item>, s: map<Path, Item>, c: map<Path, Item>, gone: set<Coordinate>) {
    forall at :: Current(w, at) == if Current(s, at).Some? then Current(s, at)
                                   else if at in gone then None else Current(c, at)
  }

  // The changes collected so far: acceptable, and with the intended effect.
  ghost predicate Compiled(derive: Deriver, layout: Layout, c: map<Path, Item>, s: map<Path, Item>,
                           gone: set<Coordinate>,
                           changes: seq<LabelChange>) {
    && AllSuit(derive, layout, c, TWO64, changes)
    && Overlaid(Writes(c, Placed(derive, changes)), s, c, gone)
    && forall l :: l in changes ==> derive(l.name).Some? && Touched(s, gone, derive(l.name).value)
  }

  ghost predicate Touched(s: map<Path, Item>, gone: set<Coordinate>, at: Coordinate) {
    Current(s, at).Some? || at in gone
  }

  // One more relation of the desired state.
  ghost predicate Extends(s: map<Path, Item>, next: map<Path, Item>, item: Item) {
    Current(s, item.at) == None && next == s[BindingKey(item.at) := item]
  }

  lemma ExtendsAt(s: map<Path, Item>, next: map<Path, Item>, item: Item, at: Coordinate)
    requires Extends(s, next, item)
    ensures Current(next, at) == if at == item.at then Some(item) else Current(s, at)
  {
    hide BindingKey;
    BindingKeyInjective(at, item.at);
  }

  lemma CompileNone(derive: Deriver, layout: Layout, c: map<Path, Item>)
    ensures Compiled(derive, layout, c, map[], {}, [])
  {
    NoChanges(derive, layout, c, c, 0, TWO64);
  }

  // A relation already retained needs no change.
  lemma CompileSkip(derive: Deriver, layout: Layout, c: map<Path, Item>, s: map<Path, Item>, next: map<Path, Item>,
                    item: Item, changes: seq<LabelChange>)
    requires Compiled(derive, layout, c, s, {}, changes) && Extends(s, next, item) && Current(c, item.at) == Some(item)
    ensures Compiled(derive, layout, c, next, {}, changes)
  {
    hide AllSuit, Writes, Placed, Current, Extends;
    var w := Writes(c, Placed(derive, changes));
    forall at
      ensures Current(next, at) == if at == item.at then Some(item) else Current(s, at)
    {
      ExtendsAt(s, next, item, at);
    }
    ExtendsFree(s, next, item);
    assert Current(w, item.at) == Current(c, item.at);
  }

  lemma ExtendsFree(s: map<Path, Item>, next: map<Path, Item>, item: Item)
    requires Extends(s, next, item)
    ensures Current(s, item.at) == None
  {
  }

  ghost predicate Joined(derive: Deriver, c: map<Path, Item>, changes: seq<LabelChange>, l: LabelChange,
                         at: Coordinate) {
    Current(Writes(c, Placed(derive, changes + [l])), at)
    == if at == Place(derive, l).at then WrittenItem(Place(derive, l))
       else Current(Writes(c, Placed(derive, changes)), at)
  }

  // A change at an untouched coordinate joins the batch.
  lemma CompileJoin(derive: Deriver, layout: Layout, c: map<Path, Item>, s: map<Path, Item>, gone: set<Coordinate>,
                    changes: seq<LabelChange>, l: LabelChange)
    requires Compiled(derive, layout, c, s, gone, changes) && Suits(derive, layout, c, TWO64, l)
    requires !Touched(s, gone, Place(derive, l).at)
    ensures AllSuit(derive, layout, c, TWO64, changes + [l]) && derive(l.name) == Some(Place(derive, l).at)
    ensures forall at :: Joined(derive, c, changes, l, at)
  {
    hide Suits, AllSuit, Writes, Current, Overlaid, Placed;
    SuitsDerives(derive, layout, c, TWO64, l);
    var all, n := changes + [l], |changes|;
    assert all[..n] == changes && all[..n + 1] == all && all[n] == l;
    forall j | 0 <= j < n
      ensures derive(all[j].name) != derive(l.name)
    {
      assert changes[j] in changes;
    }
    SuitNext(derive, layout, c, TWO64, all, n);
    PlacedNext(derive, layout, 0, c, all, n);
    forall at
      ensures Joined(derive, c, changes, l, at)
    {
      WriteAt(Writes(c, Placed(derive, changes)), Place(derive, l), at);
    }
  }

  lemma CompileChange(derive: Deriver, layout: Layout, c: map<Path, Item>, s: map<Path, Item>, next: map<Path, Item>,
                      item: Item, changes: seq<LabelChange>, l: LabelChange)
    requires Compiled(derive, layout, c, s, {}, changes) && Extends(s, next, item)
    requires Suits(derive, layout, c, TWO64, l) && WrittenItem(Place(derive, l)) == Some(item)
    requires Place(derive, l).at == item.at
    ensures Compiled(derive, layout, c, next, {}, changes + [l])
  {
    hide AllSuit, Suits, Writes, Placed, Current, Extends;
    ExtendsFree(s, next, item);
    CompileJoin(derive, layout, c, s, {}, changes, l);
    var w := Writes(c, Placed(derive, changes + [l]));
    forall at
      ensures Current(next, at) == if at == item.at then Some(item) else Current(s, at)
      ensures Current(w, at) == if Current(next, at).Some? then Current(next, at) else Current(c, at)
    {
      ExtendsAt(s, next, item, at);
      assert Joined(derive, c, changes, l, at);
    }
  }

  lemma CompileGone(derive: Deriver, layout: Layout, c: map<Path, Item>, s: map<Path, Item>, gone: set<Coordinate>,
                    item: Item, changes: seq<LabelChange>, l: LabelChange)
    requires Compiled(derive, layout, c, s, gone, changes) && !Touched(s, gone, item.at)
    requires Suits(derive, layout, c, TWO64, l) && WrittenItem(Place(derive, l)) == None
    requires Place(derive, l).at == item.at
    ensures Compiled(derive, layout, c, s, gone + {item.at}, changes + [l])
  {
    hide AllSuit, Suits, Writes, Placed, Current;
    CompileJoin(derive, layout, c, s, gone, changes, l);
    forall at
      ensures Current(Writes(c, Placed(derive, changes + [l])), at) == if Current(s, at).Some? then Current(s, at)
        else if at in gone + {item.at} then None else Current(c, at)
    {
      assert Joined(derive, c, changes, l, at);
    }
  }

  // ---- The same in the caller's terms ----

  // An entry puts its label where another one is retained.
  ghost predicate Relabels(derive: Deriver, c: map<Path, Item>, e: StateEntry) {
    derive(e.name).Some? && Current(c, derive(e.name).value).Some?
    && Current(c, derive(e.name).value).value.name != e.name
  }

  ghost predicate UpdateFits(derive: Deriver, layout: Layout, c: map<Path, Item>, state: State) {
    state.layout == layout && StateFits(derive, state) && forall e :: e in state.entries ==> !Relabels(derive, c, e)
  }

  // The fault an error names.
  ghost predicate UpdateRefused(derive: Deriver, layout: Layout, c: map<Path, Item>, state: State, e: Error) {
    || StateRefused(derive, state, e) || (e == BadNode && state.layout != layout)
    || (e == Collision && exists x :: x in state.entries && Relabels(derive, c, x))
  }

  lemma NoRelabelIs(derive: Deriver, c: map<Path, Item>, state: State)
    requires EntriesOk(derive, state)
    ensures NoRelabel(c, StateItems(derive, state)) <==> forall e :: e in state.entries ==> !Relabels(derive, c, e)
  {
    hide EntriesOk, StateItems, Current;
    var s := StateItems(derive, state);
    StatesIs(derive, state);
    EntriesOkIs(derive, state);
    forall e | e in state.entries && derive(e.name).Some? && NoRelabel(c, s)
      ensures !Relabels(derive, c, e)
    {
      assert Current(s, derive(e.name).value).value.name == e.name;
    }
    forall at | (forall e :: e in state.entries ==> !Relabels(derive, c, e))
      && Current(c, at).Some? && Current(s, at).Some?
      ensures Current(c, at).value.name == Current(s, at).value.name
    {
      var e :| e in state.entries && derive(e.name) == Some(at);
    }
  }

  lemma UpdateFitsIs(derive: Deriver, layout: Layout, c: map<Path, Item>, state: State)
    ensures UpdateFits(derive, layout, c, state) <==> (
      state.layout == layout && StateOk(derive, state) && NoRelabel(c, StateItems(derive, state)))
  {
    hide EntriesOk, StateItems, StateFits, NoRelabel, Relabels, IndexKeys;
    StateOkIs(derive, state);
    if StateOk(derive, state) {
      NoRelabelIs(derive, c, state);
    }
  }

  // The labels seen so far, each from an entry at its coordinate.
  ghost predicate DesiredFrom(derive: Deriver, state: State, i: nat, desired: map<Coordinate, Label>)
    requires i <= |state.entries|
  {
    forall at :: at in desired ==> exists j :: 0 <= j < i && derive(state.entries[j].name) == Some(at)
                                               && state.entries[j].name == desired[at]
  }

  lemma NothingDesired(derive: Deriver, state: State)
    ensures DesiredFrom(derive, state, 0, map[])
  {
  }

  lemma DesiredNext(derive: Deriver, state: State, i: nat, desired: map<Coordinate, Label>, v: ViewBinding)
    requires i < |state.entries| && DesiredFrom(derive, state, i, desired) && BindingOf(derive, state, v, i)
    ensures DesiredFrom(derive, state, i + 1, desired[v.at := v.name])
    ensures v.at in desired ==> StateRefused(derive, state, if desired[v.at] != v.name then Collision else Duplicate)
    ensures v.target == None ==> StateRefused(derive, state, Undefined)
  {
    assert state.entries[i] in state.entries;
    if v.at in desired {
      var j :| 0 <= j < i && derive(state.entries[j].name) == Some(v.at) && state.entries[j].name == desired[v.at];
      assert derive(state.entries[i].name) == Some(v.at);
      assert EntersTwice(derive, state.entries, desired[v.at] == v.name);
    }
  }

  // ---- From the desired entries to changes ----

  method CompileEntries(derive: Deriver, bindings: Index, state: State)
    returns (r: Result<(map<Coordinate, Label>, seq<LabelChange>), Error>)
    requires Sound(bindings) && Keyed(derive, state.layout, Contents(bindings))
    ensures r.Ok? <==> EntriesOk(derive, state) && NoRelabel(Contents(bindings), StateItems(derive, state))
    ensures r.Err? ==> UpdateRefused(derive, state.layout, Contents(bindings), state, r.error)
    ensures r.Ok? ==> forall at :: at in r.value.0 <==> Current(StateItems(derive, state), at).Some?
    ensures r.Ok? ==> Compiled(derive, state.layout, Contents(bindings), StateItems(derive, state), {}, r.value.1)
    ensures r.Ok? ==> Keyed(derive, state.layout, StateItems(derive, state))
    ensures r.Ok? ==> |StateItems(derive, state)| == |state.entries|
  {
    hide FirstOk, FirstItems, EntriesOk, StateItems, Keyed, Bindings.Sound, Bindings.Contents, BindingKey, BindingOf,
      Compiled, NoRelabel, Current, StateRefused, DesiredFrom;
    ghost var c := Contents(bindings);
    NoEntries(derive, state);
    var view := Interpret(derive, state);
    if view.Err? {
      Underivable(derive, state);
      return Err(view.error);
    }
    var desired: map<Coordinate, Label> := map[];
    var changes: seq<LabelChange> := [];
    CompileNone(derive, state.layout, c);
    NothingCurrent(c);
    NothingDesired(derive, state);
    for i := 0 to |state.entries|
      invariant FirstOk(derive, state, i) && Keyed(derive, state.layout, FirstItems(derive, state, i))
      invariant |FirstItems(derive, state, i)| == i && NoRelabel(c, FirstItems(derive, state, i))
      invariant forall at :: at in desired <==> Current(FirstItems(derive, state, i), at).Some?
      invariant DesiredFrom(derive, state, i, desired)
      invariant Compiled(derive, state.layout, c, FirstItems(derive, state, i), {}, changes)
    {
      var v := view.value[i];
      assert BindingOf(derive, state, v, i);
      EntryLabel(derive, state, v, i);
      NeedsTarget(derive, state, v, i);
      CurrentKey(FirstItems(derive, state, i), v.at);
      DesiredNext(derive, state, i, desired, v);
      if v.at in desired {
        EntryTaken(derive, state, v, i);
        return Err(if desired[v.at] != v.name then Collision else Duplicate);
      }
      if v.target == None {
        return Err(Undefined);
      }
      desired := desired[v.at := v.name];
      var old_ := Get(bindings, BindingKey(v.at));
      CurrentKey(c, v.at);
      if old_.Some? && old_.value.name != v.name {
        Relabelled(derive, state, c, v, i);
        return Err(Collision);
      }
      ghost var item := Item(v.at, v.name, v.target.value);
      ghost var s, next := FirstItems(derive, state, i), FirstItems(derive, state, i + 1);
      EntryNext(derive, state, v, i);
      ExtendsState(derive, state.layout, c, s, next, item);
      if old_.Some? && old_.value.target == v.target.value {
        RetainedItem(derive, state.layout, c, v.at);
        CompileSkip(derive, state.layout, c, s, next, item, changes);
        continue;
      }
      var change := LabelChange(v.name, if old_.Some? then Some(old_.value.target) else None, v.target);
      EntrySuits(derive, state, c, v, i, change);
      CompileChange(derive, state.layout, c, s, next, item, changes, change);
      changes := changes + [change];
    }
    return Ok((desired, changes));
  }

  lemma NothingCurrent(c: map<Path, Item>)
    ensures NoRelabel(c, map[]) && forall at :: Current(map[], at) == None
  {
  }

  lemma CurrentKey(c: map<Path, Item>, at: Coordinate)
    ensures Current(c, at) == if BindingKey(at) in c then Some(c[BindingKey(at)]) else None
  {
  }

  lemma RetainedItem(derive: Deriver, layout: Layout, c: map<Path, Item>, at: Coordinate)
    requires Keyed(derive, layout, c)
    ensures Current(c, at).Some? ==> Current(c, at).value.at == at
  {
    hide BindingKey;
    if Current(c, at).Some? {
      BindingKeyInjective(Current(c, at).value.at, at);
    }
  }

  // The retained label at a desired coordinate differs from the desired one.
  lemma Relabelled(derive: Deriver, state: State, c: map<Path, Item>, v: ViewBinding, i: nat)
    requires i < |state.entries| && BindingOf(derive, state, v, i)
    requires Current(c, v.at).Some? && Current(c, v.at).value.name != v.name
    ensures EntriesOk(derive, state) ==> !NoRelabel(c, StateItems(derive, state))
    ensures state.entries[i] in state.entries && Relabels(derive, c, state.entries[i])
  {
    hide Current, Writes, FirstItems, StateItems;
    if EntriesOk(derive, state) {
      NoEntries(derive, state);
      EntryIn(derive, state, |state.entries|, i);
    }
  }

  lemma ExtendsState(derive: Deriver, layout: Layout, c: map<Path, Item>, s: map<Path, Item>, next: map<Path, Item>,
                     item: Item)
    requires NoRelabel(c, s) && Current(s, item.at) == None && next == s[BindingKey(item.at) := item]
    requires Current(c, item.at).Some? ==> Current(c, item.at).value.name == item.name
    ensures Extends(s, next, item) && NoRelabel(c, next)
    ensures forall at :: Current(next, at).Some? <==> at == item.at || Current(s, at).Some?
  {
    hide BindingKey, Current;
    forall at
      ensures Current(next, at) == if at == item.at then Some(item) else Current(s, at)
    {
      ExtendsAt(s, next, item, at);
    }
  }

  lemma EntrySuits(derive: Deriver, state: State, c: map<Path, Item>, v: ViewBinding, i: nat, l: LabelChange)
    requires i < |state.entries| && BindingOf(derive, state, v, i) && v.target.Some?
    requires var cur := Current(c, v.at);
      && (cur.Some? ==> cur.value.name == v.name)
      && l == LabelChange(v.name, if cur.Some? then Some(cur.value.target) else None, v.target)
    ensures Suits(derive, state.layout, c, TWO64, l) && Place(derive, l).at == v.at
    ensures WrittenItem(Place(derive, l)) == Some(Item(v.at, v.name, v.target.value))
  {
    hide BindingKey;
  }

  // ---- Retained relations that are no longer desired ----

  method CompileRemovals(derive: Deriver, bindings: Index, desired: map<Coordinate, Label>, changes: seq<LabelChange>,
                         ghost s: map<Path, Item>)
    returns (all: seq<LabelChange>)
    requires Sound(bindings) && Keyed(derive, MapLayout, Contents(bindings)) && Keyed(derive, MapLayout, s)
    requires forall at :: at in desired <==> Current(s, at).Some?
    requires Compiled(derive, MapLayout, Contents(bindings), s, {}, changes)
    ensures AllSuit(derive, MapLayout, Contents(bindings), TWO64, all)
    ensures Writes(Contents(bindings), Placed(derive, all)) == s
  {
    hide Keyed, Bindings.Sound, Bindings.Contents, Compiled, Current, Less, AllSuit, Writes, Placed, Suits;
    ghost var c := Contents(bindings);
    all := changes;
    WalkAscends(bindings);
    var ws := Walk(bindings);
    ghost var gone: set<Coordinate> := {};
    for j := 0 to |ws|
      invariant Compiled(derive, MapLayout, c, s, gone, all)
      invariant forall at :: at in gone ==> exists k :: 0 <= k < j && ws[k].1.at == at
      invariant forall k :: 0 <= k < j ==> Current(s, ws[k].1.at).Some? || ws[k].1.at in gone
    {
      var item := ws[j].1;
      assert ws[j] in ws;
      if item.at !in desired {
        WalkKey(derive, c, ws, j);
        var change := LabelChange(item.name, Some(item.target), None);
        RemovalSuits(derive, c, ws[j].0, change);
        CompileGone(derive, MapLayout, c, s, gone, item, all, change);
        all := all + [change];
        gone := gone + {item.at};
      }
    }
    forall at | Current(c, at).Some?
      ensures Touched(s, gone, at)
    {
      WalkCovers(derive, c, ws, at);
      var k :| 0 <= k < |ws| && ws[k].1.at == at;
    }
    OverlayIs(derive, c, s, gone, all);
  }

  // Keys of a walk are pairwise different, so are the coordinates.
  lemma WalkKey(derive: Deriver, c: map<Path, Item>, ws: seq<(Path, Item)>, j: nat)
    requires Keyed(derive, MapLayout, c) && Lists(ws, c) && j < |ws|
    ensures forall k :: 0 <= k < j ==> ws[k].1.at != ws[j].1.at
  {
    hide BindingKey, Less, LabelCoordinate;
    forall k | 0 <= k < j
      ensures ws[k].1.at != ws[j].1.at
    {
      assert ws[k] in ws && ws[j] in ws && Less(ws[k].0, ws[j].0);
      LessTotal(ws[j].0, ws[j].0);
    }
  }

  lemma WalkCovers(derive: Deriver, c: map<Path, Item>, ws: seq<(Path, Item)>, at: Coordinate)
    requires Keyed(derive, MapLayout, c) && Lists(ws, c) && Current(c, at).Some?
    ensures exists k :: 0 <= k < |ws| && ws[k].1.at == at
  {
    hide BindingKey, Less, Keyed;
    RetainedItem(derive, MapLayout, c, at);
    var p := BindingKey(at);
    assert (p, c[p]) in ws;
    var k :| 0 <= k < |ws| && ws[k] == (p, c[p]);
  }

  lemma RemovalSuits(derive: Deriver, c: map<Path, Item>, p: Path, l: LabelChange)
    requires Keyed(derive, MapLayout, c) && p in c && l == LabelChange(c[p].name, Some(c[p].target), None)
    ensures Suits(derive, MapLayout, c, TWO64, l) && Place(derive, l).at == c[p].at
    ensures WrittenItem(Place(derive, l)) == None
  {
    hide BindingKey;
  }

  // Once everything retained is desired or gone, the outcome is the desired state.
  lemma OverlayIs(derive: Deriver, c: map<Path, Item>, s: map<Path, Item>, gone: set<Coordinate>, all: seq<LabelChange>)
    requires Keyed(derive, MapLayout, c) && Keyed(derive, MapLayout, s) && Compiled(derive, MapLayout, c, s, gone, all)
    requires forall at :: Current(c, at).Some? ==> Touched(s, gone, at)
    ensures AllSuit(derive, MapLayout, c, TWO64, all) && Writes(c, Placed(derive, all)) == s
  {
    hide BindingKey, Keyed, AllSuit, Current, Writes, Placed;
    MapKeyed(derive, c, TWO64, all);
    var w := Writes(c, Placed(derive, all));
    forall at
      ensures Current(w, at) == Current(s, at)
    {
    }
    SameRelations(derive, MapLayout, w, s);
  }

  lemma SameRelations(derive: Deriver, layout: Layout, x: map<Path, Item>, y: map<Path, Item>)
    requires Keyed(derive, layout, x) && Keyed(derive, layout, y)
    requires forall at :: Current(x, at) == Current(y, at)
    ensures x == y
  {
    hide BindingKey, LabelCoordinate;
    forall p
      ensures p in x <==> p in y
      ensures p in x ==> x[p] == y[p]
    {
      if p in x {
        assert Current(x, x[p].at) == Current(y, x[p].at);
      }
      if p in y {
        assert Current(x, y[p].at) == Current(y, y[p].at);
      }
    }
  }

  // ---- The dense List ----

  // Compiled changes of a dense desired list leave exactly that list.
  lemma ListCompiled(derive: Deriver, c: map<Path, Item>, s: map<Path, Item>, count: U64, changes: seq<LabelChange>,
                     payload: Option<Target>)
    requires Keyed(derive, ListLayout, c) && Keyed(derive, ListLayout, s) && |c| < TWO64 && c.Keys == IndexKeys(|c|)
    requires Compiled(derive, ListLayout, c, s, {}, changes) && s.Keys == IndexKeys(count)
    ensures var delta := Delta(changes, Some(count), Some(payload));
      DeltaOk(derive, ListLayout, c, delta) && After(derive, ListLayout, c, delta) == s
  {
    hide BindingKey, Keyed, AllSuit, Current, Writes, Placed, IndexKeys, Less, LabelCoordinate;
    var kept, placed := Kept(ListLayout, c, count), Placed(derive, changes);
    AllDistinct(derive, ListLayout, c, TWO64, changes);
    BelowCount(derive, c, s, count, changes);
    KeptKeyed(derive, c, count);
    forall ch | ch in placed
      ensures LabelCoordinate(derive, ListLayout, ch.name) == Ok(ch.at) && ch.at.AtIndex? && ch.at.index < count
    {
      PlacedSuits(derive, ListLayout, c, count, changes, ch);
    }
    WritesKeyed(derive, ListLayout, kept, placed);
    forall at
      ensures Current(Writes(kept, placed), at) == Current(s, at)
    {
      WritesAt(kept, placed, at);
      WritesAt(c, placed, at);
      KeptWhere(derive, c, s, count, at);
    }
    SameRelations(derive, ListLayout, Writes(kept, placed), s);
  }

  lemma BelowCount(derive: Deriver, c: map<Path, Item>, s: map<Path, Item>, count: U64, changes: seq<LabelChange>)
    requires Compiled(derive, ListLayout, c, s, {}, changes) && s.Keys == IndexKeys(count)
    ensures AllSuit(derive, ListLayout, c, count, changes)
  {
    hide BindingKey, Writes;
    forall l | l in changes
      ensures Suits(derive, ListLayout, c, count, l)
    {
      assert Suits(derive, ListLayout, c, TWO64, l);
      var at := derive(l.name).value;
      assert Touched(s, {}, at);
      InIndexKeys(count, at);
    }
  }

  lemma InIndexKeys(count: nat, at: Coordinate)
    requires count <= TWO64
    ensures BindingKey(at) in IndexKeys(count) <==> at.AtIndex? && at.index < count
  {
    hide BindingKey;
    if BindingKey(at) in IndexKeys(count) {
      var i: nat :| i < count && BindingKey(AtIndex(i)) == BindingKey(at);
      BindingKeyInjective(AtIndex(i), at);
    }
    if at.AtIndex? && at.index < count {
      assert at == AtIndex(at.index);
    }
  }

  // What is kept of a list, coordinate by coordinate.
  lemma KeptWhere(derive: Deriver, c: map<Path, Item>, s: map<Path, Item>, count: U64, at: Coordinate)
    requires |c| < TWO64 && c.Keys == IndexKeys(|c|) && s.Keys == IndexKeys(count)
    ensures Current(Kept(ListLayout, c, count), at) == if at.AtIndex? && at.index < count then Current(c, at) else None
    ensures Current(s, at).Some? <==> at.AtIndex? && at.index < count
  {
    hide BindingKey, Less, IndexKeys;
    InIndexKeys(|c|, at);
    InIndexKeys(count, at);
    if at.AtIndex? {
      IndexOrder(at.index, count);
    }
  }

  method Contiguous(desired: map<Coordinate, Label>, count: U64) returns (ok: bool)
    ensures ok <==> forall i: U64 :: i < count ==> AtIndex(i) in desired
  {
    for i := 0 to count
      invariant forall j: U64 :: j < i ==> AtIndex(j) in desired
    {
      if AtIndex(i) !in desired {
        return false;
      }
    }
    return true;
  }

  // ---- Update ----

  // What Update makes of a writer: exactly the desired relations and payload, index
  // and tree in agreement, and the link to the previous root.
  ghost predicate Reaches(b: Radix, derive: Deriver, w: Writer, state: State, next: Writer) {
    && Agrees(b, derive, next) && next.layout == w.layout == state.layout
    && Contents(next.bindings) == StateItems(derive, state) && next.payload == state.payload
    && next.previous == if next.root == w.root then w.previous else Some(w.root)
  }

  // Compiles a complete desired state to a delta and applies it. Update accepts
  // exactly the states that can be built, unless one puts another label at a
  // retained coordinate; its result holds exactly the desired relations.
  method Update(b: Radix, derive: Deriver, w: Writer, state: State) returns (r: Result<Writer, Error>)
    requires Agrees(b, derive, w) && |state.entries| < TWO64
    ensures r.Ok? <==> (
      state.layout == w.layout && StateOk(derive, state) && NoRelabel(Contents(w.bindings), StateItems(derive, state)))
    ensures if UpdateFits(derive, w.layout, Contents(w.bindings), state) then r.Ok?
      else r.Err? && UpdateRefused(derive, w.layout, Contents(w.bindings), state, r.error)
    ensures r.Ok? ==> Reaches(b, derive, w, state, r.value) && States(derive, state, Contents(r.value.bindings))
  {
    hide Keyed, Bindings.Sound, Bindings.Contents, EntriesOk, StateItems, Compiled, NoRelabel, Current, DeltaOk,
      IndexKeys, MapOf, ItemsOf, Retained.Faithful, AllSuit, Writes, Placed, UpdateFits, Relabels, States, EntryAt;
    UpdateFitsIs(derive, w.layout, Contents(w.bindings), state);
    if state.layout != w.layout {
      return Err(BadNode);
    }
    ghost var c, s := Contents(w.bindings), StateItems(derive, state);
    var compiled := CompileEntries(derive, w.bindings, state);
    if compiled.Err? {
      return Err(compiled.error);
    }
    var (desired, changes) := compiled.value;
    StatesIs(derive, state);
    var delta: Delta;
    if state.layout == MapLayout {
      if state.payload.Some? {
        return Err(BadNode);
      }
      var all := CompileRemovals(derive, w.bindings, desired, changes, s);
      delta := Delta(all, None, None);
      MapDelta(derive, c, s, all);
    } else {
      var count: U64 := |state.entries|;
      var dense := Contiguous(desired, count);
      ContiguousDense(s, count);
      AllListed(derive, state);
      if !dense {
        return Err(OutOfRange);
      }
      delta := Delta(changes, Some(count), Some(state.payload));
      ListCompiled(derive, c, s, count, changes, state.payload);
    }
    r := Apply(b, derive, w, delta);
  }

  lemma AllListed(derive: Deriver, state: State)
    requires EntriesOk(derive, state)
    ensures forall at :: Current(StateItems(derive, state), at).Some? <==> EntryAt(derive, state, at)
  {
    hide EntriesOk, StateItems, Current, EntryAt;
    forall at
      ensures Current(StateItems(derive, state), at).Some? <==> EntryAt(derive, state, at)
    {
      StateItemsSome(derive, state, at);
    }
  }

  lemma MapDelta(derive: Deriver, c: map<Path, Item>, s: map<Path, Item>, all: seq<LabelChange>)
    requires AllSuit(derive, MapLayout, c, TWO64, all) && Writes(c, Placed(derive, all)) == s
    ensures DeltaOk(derive, MapLayout, c, Delta(all, None, None))
    ensures After(derive, MapLayout, c, Delta(all, None, None)) == s
  {
    hide Writes, Placed, Current;
    forall l | l in all
      ensures Suits(derive, MapLayout, c, |c|, l)
    {
      assert Suits(derive, MapLayout, c, TWO64, l);
    }
  }

  // An updated writer and a freshly built one are the same index and root.
  lemma UpdateIsBuild(b: Radix, derive: Deriver, updated: Writer, built: Writer, state: State)
    requires Agrees(b, derive, updated) && Agrees(b, derive, built)
    requires updated.layout == built.layout == state.layout && updated.payload == built.payload == state.payload
    requires Contents(updated.bindings) == Contents(built.bindings) == StateItems(derive, state)
    ensures updated.root == built.root && updated.bindings == built.bindings
  {
    hide Agrees;
    AgreementUnique(b, derive, updated, built);
  }

  // Direct derivation never relabels a List position, so there Update accepts
  // every state that can be built.
  lemma ListNeverRelabels(derive: Deriver, c: map<Path, Item>, s: map<Path, Item>)
    requires Keyed(derive, ListLayout, c) && Keyed(derive, ListLayout, s) && OnlyIndexLabels(derive)
    ensures NoRelabel(c, s)
  {
    hide BindingKey, EncodeIndex;
    forall at | Current(c, at).Some? && Current(s, at).Some?
      ensures Current(c, at).value.name == Current(s, at).value.name
    {
      LabelOf(derive, c, at);
      LabelOf(derive, s, at);
    }
  }

  lemma LabelOf(derive: Deriver, c: map<Path, Item>, at: Coordinate)
    requires Keyed(derive, ListLayout, c) && Current(c, at).Some?
    ensures derive(Current(c, at).value.name) == Some(at) && at.AtIndex?
  {
    hide BindingKey;
    BindingKeyInjective(Current(c, at).value.at, at);
  }

  // On a Map two labels may share a coordinate; a state that replaces one by the
  // other can be built afresh but not reached by Update.
  lemma RelabelRefused(target: Target)
    ensures var derive, key := (_: Label) => Some(AtKey(seq(KEY_BITS, _ => false))), AtKey(seq(KEY_BITS, _ => false));
      var first := State(MapLayout, [StateEntry([0], Some(target))], None);
      var second := State(MapLayout, [StateEntry([1], Some(target))], None);
      && StateOk(derive, first) && StateOk(derive, second)
      && !NoRelabel(StateItems(derive, first), StateItems(derive, second))
  {
    hide BindingKey;
    var derive, key := (_: Label) => Some(AtKey(seq(KEY_BITS, _ => false))), AtKey(seq(KEY_BITS, _ => false));
    SingleState(derive, [0], target, key);
    SingleState(derive, [1], target, key);
  }

  lemma SingleState(derive: Deriver, name: Label, target: Target, at: Coordinate)
    requires derive(name) == Some(at) && at.AtKey?
    ensures var state := State(MapLayout, [StateEntry(name, Some(target))], None);
      StateOk(derive, state) && Current(StateItems(derive, state), at) == Some(Item(at, name, target))
  {
    hide BindingKey, Writes;
    var state := State(MapLayout, [StateEntry(name, Some(target))], None);
    var ps := Placed(derive, Inserts(state.entries));
    assert ps == [Change(at, name, None, Some(target))];
    assert ps[0] in ps;
    WritesAt(map[], ps, at);
  }

  // ---- Reading the state back ----

  // The retained labels and targets in coordinate order.
  method ReadState(derive: Deriver, w: Writer, ghost b: Radix) returns (state: State)
    requires Agrees(b, derive, w)
    ensures state.layout == w.layout && state.payload == w.payload
    ensures StateOk(derive, state) && StateItems(derive, state) == Contents(w.bindings)
    ensures InKeyOrder(derive, state)
  {
    hide Less, StateOk, StateItems;
    var ws := Walk(w.bindings);
    var entries: seq<StateEntry> := [];
    for i := 0 to |ws|
      invariant |entries| == i
      invariant forall j :: 0 <= j < i ==> entries[j] == StateEntry(ws[j].1.name, Some(ws[j].1.target))
    {
      entries := entries + [StateEntry(ws[i].1.name, Some(ws[i].1.target))];
    }
    state := State(w.layout, entries, w.payload);
    ReadBack(b, derive, w, state);
  }

  ghost predicate InKeyOrder(derive: Deriver, state: State) {
    forall i, j :: 0 <= i < j < |state.entries| ==> (
      && derive(state.entries[i].name).Some? && derive(state.entries[j].name).Some?
      && Less(BindingKey(derive(state.entries[i].name).value), BindingKey(derive(state.entries[j].name).value)))
  }

  lemma ReadBack(b: Radix, derive: Deriver, w: Writer, state: State)
    requires Agrees(b, derive, w) && state.layout == w.layout && state.payload == w.payload
    requires ReadsAs(Walk(w.bindings), state.entries)
    ensures StateOk(derive, state) && StateItems(derive, state) == Contents(w.bindings) && InKeyOrder(derive, state)
  {
    hide Less, BindingKey, Bindings.Sound, Bindings.Contents, Writes, MapOf, ItemsOf, Retained.Faithful;
    var c, ws := Contents(w.bindings), Walk(w.bindings);
    WalkAscends(w.bindings);
    ReadEntries(derive, w.layout, c, ws, state);
    EntriesDistinct(derive, state);
    var s := StateItems(derive, state);
    forall at
      ensures Current(s, at) == Current(c, at)
    {
      ReadAt(derive, w.layout, c, ws, state, at);
    }
    SameRelations(derive, w.layout, s, c);
    if w.layout == ListLayout {
      WalkSize(c, ws);
    }
  }

  ghost predicate ReadsAs(ws: seq<(Path, Item)>, entries: seq<StateEntry>) {
    |entries| == |ws| && forall j :: 0 <= j < |ws| ==> entries[j] == StateEntry(ws[j].1.name, Some(ws[j].1.target))
  }

  lemma ReadDerives(derive: Deriver, layout: Layout, c: map<Path, Item>, ws: seq<(Path, Item)>,
                    entries: seq<StateEntry>)
    requires Keyed(derive, layout, c) && Lists(ws, c) && ReadsAs(ws, entries)
    ensures forall i :: 0 <= i < |ws| ==> (
      && LabelCoordinate(derive, layout, entries[i].name) == Ok(ws[i].1.at)
      && derive(entries[i].name) == Some(ws[i].1.at)
      && BindingKey(ws[i].1.at) == ws[i].0)
  {
    hide Less, BindingKey;
    forall i | 0 <= i < |ws|
      ensures LabelCoordinate(derive, layout, entries[i].name) == Ok(ws[i].1.at)
      ensures BindingKey(ws[i].1.at) == ws[i].0
    {
      assert ws[i] in ws;
    }
  }

  lemma ReadEntries(derive: Deriver, layout: Layout, c: map<Path, Item>, ws: seq<(Path, Item)>, state: State)
    requires Keyed(derive, layout, c) && Lists(ws, c) && state.layout == layout && ReadsAs(ws, state.entries)
    ensures EntriesOk(derive, state) && InKeyOrder(derive, state)
    ensures forall i :: 0 <= i < |ws| ==> (
      derive(state.entries[i].name) == Some(ws[i].1.at) && BindingKey(ws[i].1.at) == ws[i].0)
  {
    hide Less, BindingKey, Keyed, Suits;
    ReadDerives(derive, layout, c, ws, state.entries);
    var l := Inserts(state.entries);
    var ps := Placed(derive, l);
    forall i, j | 0 <= i < j < |ws|
      ensures AtOf()(ps[i]) != AtOf()(ps[j])
    {
      LessTotal(ws[i].0, ws[i].0);
    }
    forall x | x in l
      ensures Suits(derive, layout, map[], TWO64, x)
    {
      var i :| 0 <= i < |l| && l[i] == x;
      InsertSuits(derive, layout, x);
    }
  }

  lemma InsertSuits(derive: Deriver, layout: Layout, l: LabelChange)
    requires LabelCoordinate(derive, layout, l.name).Ok? && l.before == None && l.after.Some?
    ensures Suits(derive, layout, map[], TWO64, l)
  {
    hide BindingKey;
  }

  lemma ReadAt(derive: Deriver, layout: Layout, c: map<Path, Item>, ws: seq<(Path, Item)>, state: State, at: Coordinate)
    requires Keyed(derive, layout, c) && Lists(ws, c) && state.layout == layout && ReadsAs(ws, state.entries)
    requires EntriesOk(derive, state)
    ensures Current(StateItems(derive, state), at) == Current(c, at)
  {
    hide Less, BindingKey, Writes, EntriesOk, Keyed;
    RetainedItem(derive, layout, c, at);
    ReadEntries(derive, layout, c, ws, state);
    EntriesDistinct(derive, state);
    var ps := Placed(derive, Inserts(state.entries));
    WritesAt(map[], ps, at);
    if Current(c, at).Some? {
      var p := BindingKey(at);
      assert (p, c[p]) in ws;
      var i :| 0 <= i < |ws| && ws[i] == (p, c[p]);
      BindingKeyInjective(c[p].at, at);
      assert ps[i] in ps;
    }
    if ch :| ch in ps && ch.at == at {
      var i :| 0 <= i < |ps| && ps[i] == ch;
      assert ws[i] in ws;
    }
  }

  lemma {:induction false} WalkSize(c: map<Path, Item>, ws: seq<(Path, Item)>)
    requires Lists(ws, c)
    ensures |ws| == |c|
    decreases |ws|
  {
    hide Less;
    if ws != [] {
      var n := |ws| - 1;
      assert ws == ws[..n] + [ws[n]];
      assert ws[n] in ws;
      LessTotal(ws[n].0, ws[n].0);
      WalkSize(c - {ws[n].0}, ws[..n]);
      assert (c - {ws[n].0}).Keys == c.Keys - {ws[n].0};
      assert |c| == |c.Keys| && |c - {ws[n].0}| == |(c - {ws[n].0}).Keys|;
    } else {
      assert c == map[];
    }
  }

  // ---- Runs ----

  // One edit of a writer: by a delta, or by a complete desired state.
  datatype Edit = ByDelta(delta: Delta) | ByState(state: State)

  // The relations and the payload an edit asks for.
  ghost function Edited(derive: Deriver, layout: Layout, c: map<Path, Item>, edit: Edit): map<Path, Item> {
    match edit
    case ByDelta(delta) => After(derive, layout, c, delta)
    case ByState(state) => StateItems(derive, state)
  }

  function EditedPayload(payload: Option<Target>, edit: Edit): Option<Target> {
    match edit
    case ByDelta(delta) => PayloadAfter(payload, delta)
    case ByState(state) => state.payload
  }

  // What a successful Apply or Update makes of a writer.
  ghost predicate Edits(b: Radix, derive: Deriver, w: Writer, edit: Edit, next: Writer) {
    match edit
    case ByDelta(delta) => Steps(b, derive, w, delta, next)
    case ByState(state) => Reaches(b, derive, w, state, next)
  }

  // A history of successful edits.
  ghost predicate Run(b: Radix, derive: Deriver, ws: seq<Writer>, edits: seq<Edit>) {
    && |ws| == |edits| + 1 && Agrees(b, derive, ws[0])
    && forall i :: 0 <= i < |edits| ==> Edits(b, derive, ws[i], edits[i], ws[i + 1])
  }

  // The relations and the payload the edits alone ask for.
  ghost function Replay(derive: Deriver, layout: Layout, c: map<Path, Item>, edits: seq<Edit>): map<Path, Item> {
    if edits == [] then c
    else Edited(derive, layout, Replay(derive, layout, c, edits[..|edits| - 1]), edits[|edits| - 1])
  }

  function PayloadReplay(payload: Option<Target>, edits: seq<Edit>): Option<Target> {
    if edits == [] then payload else EditedPayload(PayloadReplay(payload, edits[..|edits| - 1]), edits[|edits| - 1])
  }

  // After any history of deltas and updates the writer is the one a fresh
  // construction of the logical state gives: same root, same index.
  lemma {:induction false} RunAgrees(b: Radix, derive: Deriver, ws: seq<Writer>, edits: seq<Edit>, built: Writer)
    requires Run(b, derive, ws, edits) && Agrees(b, derive, built) && built.layout == ws[0].layout
    requires Contents(built.bindings) == Replay(derive, ws[0].layout, Contents(ws[0].bindings), edits)
    requires built.payload == PayloadReplay(ws[0].payload, edits)
    ensures ws[|edits|].root == built.root && ws[|edits|].bindings == built.bindings
  {
    hide Agrees, Edited, Bindings.Contents;
    RunDenotes(b, derive, ws, edits);
    AgreementUnique(b, derive, ws[|edits|], built);
  }

  lemma {:induction false} RunDenotes(b: Radix, derive: Deriver, ws: seq<Writer>, edits: seq<Edit>)
    requires Run(b, derive, ws, edits)
    ensures var last := ws[|edits|];
      && Agrees(b, derive, last) && last.layout == ws[0].layout
      && Contents(last.bindings) == Replay(derive, ws[0].layout, Contents(ws[0].bindings), edits)
      && last.payload == PayloadReplay(ws[0].payload, edits)
  {
    hide Agrees, Edited, EditedPayload, Edits, Bindings.Contents;
    if edits != [] {
      var n := |edits| - 1;
      RunDenotes(b, derive, ws[..n + 1], edits[..n]);
      assert Edits(b, derive, ws[n], edits[n], ws[n + 1]);
      EditDenotes(b, derive, ws[n], edits[n], ws[n + 1]);
    }
  }

  lemma EditDenotes(b: Radix, derive: Deriver, w: Writer, edit: Edit, next: Writer)
    requires Edits(b, derive, w, edit, next)
    ensures Agrees(b, derive, next) && next.layout == w.layout
    ensures Contents(next.bindings) == Edited(derive, w.layout, Contents(w.bindings), edit)
    ensures next.payload == EditedPayload(w.payload, edit)
  {
    hide Agrees, After, StateItems, Bindings.Contents;
  }
}
