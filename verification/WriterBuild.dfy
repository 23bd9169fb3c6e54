// Building a retained writer from a complete state, and updating one to it.
module WriterBuild {
  import opened Words
  import opened Geometry
  import opened Nodes
  import opened Coordinates
  import opened ListTree
  import opened MapTree
  import opened MapBuild
  import opened MapUpdate
  import opened Workspaces
  import opened Engine
  import opened Grouping
  import opened Bindings
  import opened RetainedIndex
  import opened Writers

  datatype StateEntry = StateEntry(name: Label, target: Option<Target>)

  // Original labels with their targets, and the optional payload of a List.
  datatype State = State(layout: Layout, entries: seq<StateEntry>, payload: Option<Target>)

  // A complete state as insertions.
  function Inserts(entries: seq<StateEntry>): (r: seq<LabelChange>)
    ensures |r| == |entries|
    ensures forall i :: 0 <= i < |r| ==> r[i] == LabelChange(entries[i].name, None, entries[i].target)
  {
    seq(|entries|, i requires 0 <= i < |entries| => LabelChange(entries[i].name, None, entries[i].target))
  }

  // The relations a state lists.
  ghost function StateItems(derive: Deriver, state: State): map<Path, Item> {
    Writes(map[], Placed(derive, Inserts(state.entries)))
  }

  // Derivable labels with targets at distinct coordinates.
  ghost predicate EntriesOk(derive: Deriver, state: State) {
    AllSuit(derive, state.layout, map[], TWO64, Inserts(state.entries))
  }

  // A state that can be built: a List is dense, a Map has no payload.
  ghost predicate StateOk(derive: Deriver, state: State) {
    && EntriesOk(derive, state)
    && (if state.layout == MapLayout then state.payload == None
        else |state.entries| < TWO64 && StateItems(derive, state).Keys == IndexKeys(|state.entries|))
  }

  // Derives the coordinate of every label.
  method Interpret(derive: Deriver, state: State) returns (r: Result<seq<ViewBinding>, Error>)
    ensures r.Ok? <==> forall e :: e in state.entries ==> LabelCoordinate(derive, state.layout, e.name).Ok?
    ensures r.Ok? ==> Interprets(derive, state, r.value)
    ensures r.Err? ==> StateRefused(derive, state, r.error)
  {
    var bindings: seq<ViewBinding> := [];
    for i := 0 to |state.entries|
      invariant |bindings| == i
      invariant forall j :: 0 <= j < i ==> BindingOf(derive, state, bindings[j], j)
    {
      var e := state.entries[i];
      var at := LabelCoordinate(derive, state.layout, e.name);
      if at.Err? {
        assert e in state.entries && !Derives(derive, state.layout, e);
        return Err(at.error);
      }
      bindings := bindings + [ViewBinding(at.value, e.name, e.target)];
    }
    forall e | e in state.entries
      ensures LabelCoordinate(derive, state.layout, e.name).Ok?
    {
      var i :| 0 <= i < |state.entries| && state.entries[i] == e;
      assert BindingOf(derive, state, bindings[i], i);
    }
    return Ok(bindings);
  }

  ghost predicate BindingOf(derive: Deriver, state: State, v: ViewBinding, i: nat)
    requires i < |state.entries|
  {
    var e := state.entries[i];
    LabelCoordinate(derive, state.layout, e.name) == Ok(v.at) && v.name == e.name && v.target == e.target
  }

  ghost predicate Interprets(derive: Deriver, state: State, bindings: seq<ViewBinding>) {
    |bindings| == |state.entries| && forall i :: 0 <= i < |bindings| ==> BindingOf(derive, state, bindings[i], i)
  }

  ghost function FirstItems(derive: Deriver, state: State, i: nat): map<Path, Item>
    requires i <= |state.entries|
  {
    Writes(map[], Placed(derive, Inserts(state.entries)[..i]))
  }

  ghost predicate FirstOk(derive: Deriver, state: State, i: nat)
    requires i <= |state.entries|
  {
    AllSuit(derive, state.layout, map[], TWO64, Inserts(state.entries)[..i])
  }

  // One more good entry at a new coordinate.
  lemma EntryNext(derive: Deriver, state: State, v: ViewBinding, i: nat)
    requires i < |state.entries| && FirstOk(derive, state, i) && BindingOf(derive, state, v, i)
    requires BindingKey(v.at) !in FirstItems(derive, state, i)
    requires Keyed(derive, state.layout, FirstItems(derive, state, i))
    ensures v.target.Some? <==> FirstOk(derive, state, i + 1)
    ensures v.target.Some? ==> (
      && FirstItems(derive, state, i + 1)
         == FirstItems(derive, state, i)[BindingKey(v.at) := Item(v.at, v.name, v.target.value)]
      && Keyed(derive, state.layout, FirstItems(derive, state, i + 1))
      && |FirstItems(derive, state, i + 1)| == |FirstItems(derive, state, i)| + 1)
  {
    hide BindingKey, Keyed, Writes, AllSuit, Suits, Placed;
    var l := Inserts(state.entries);
    PlacedNext(derive, state.layout, 0, map[], l, i);
    AllSuitAt(derive, state.layout, map[], TWO64, l[..i + 1], i);
    EntrySuitable(derive, state, v, i);
    if v.target.Some? {
      EntryApart(derive, state, v, i);
      SuitNext(derive, state.layout, map[], TWO64, l, i);
      WriteKeyed(derive, state.layout, FirstItems(derive, state, i), Place(derive, l[i]));
    }
  }

  // An entry suits an empty index exactly when it has a target.
  lemma EntrySuitable(derive: Deriver, state: State, v: ViewBinding, i: nat)
    requires i < |state.entries| && BindingOf(derive, state, v, i)
    ensures var l := Inserts(state.entries)[i];
      && (Suits(derive, state.layout, map[], TWO64, l) <==> v.target.Some?)
      && Place(derive, l) == Change(v.at, v.name, None, v.target)
  {
    hide BindingKey;
  }

  lemma EntryApart(derive: Deriver, state: State, v: ViewBinding, i: nat)
    requires i < |state.entries| && FirstOk(derive, state, i) && BindingOf(derive, state, v, i)
    requires BindingKey(v.at) !in FirstItems(derive, state, i)
    ensures forall j :: 0 <= j < i ==> derive(Inserts(state.entries)[j].name) != derive(Inserts(state.entries)[i].name)
  {
    hide BindingKey, Writes, FirstOk, FirstItems;
    forall j | 0 <= j < i
      ensures derive(Inserts(state.entries)[j].name) != derive(Inserts(state.entries)[i].name)
    {
      EntryIn(derive, state, i, j);
    }
  }

  // An accepted entry is listed under its coordinate.
  lemma EntryIn(derive: Deriver, state: State, i: nat, j: nat)
    requires j < i <= |state.entries| && FirstOk(derive, state, i)
    ensures derive(state.entries[j].name).Some? && state.entries[j].target.Some?
    ensures var at, e := derive(state.entries[j].name).value, state.entries[j];
      Current(FirstItems(derive, state, i), at) == Some(Item(at, e.name, e.target.value))
  {
    hide BindingKey, Writes;
    var l := Inserts(state.entries)[..i];
    assert l[j] in l;
    SuitsDerives(derive, state.layout, map[], TWO64, l[j]);
    var ps := Placed(derive, l);
    assert ps[j] in ps && ps[j] == Place(derive, l[j]);
    WritesAt(map[], ps, ps[j].at);
  }

  lemma NoEntries(derive: Deriver, state: State)
    ensures FirstOk(derive, state, 0) && FirstItems(derive, state, 0) == map[]
    ensures Keyed(derive, state.layout, FirstItems(derive, state, 0))
    ensures EntriesOk(derive, state) <==> FirstOk(derive, state, |state.entries|)
    ensures StateItems(derive, state) == FirstItems(derive, state, |state.entries|)
  {
    var l := Inserts(state.entries);
    assert l[..0] == [] && l[..|state.entries|] == l;
    assert Placed(derive, l[..0]) == [];
  }

  lemma FirstOkShorter(derive: Deriver, state: State, i: nat)
    requires i <= |state.entries|
    ensures EntriesOk(derive, state) ==> FirstOk(derive, state, i)
  {
    var l := Inserts(state.entries);
    if EntriesOk(derive, state) {
      var x, y := Placed(derive, l[..i]), Placed(derive, l);
      forall j, k | 0 <= j < k < i
        ensures AtOf()(x[j]) != AtOf()(x[k])
      {
        assert x[j] == y[j] && x[k] == y[k];
        assert AtOf()(y[j]) != AtOf()(y[k]);
      }
    }
  }

  // An occupied coordinate was taken by an earlier entry.
  lemma EntryTaken(derive: Deriver, state: State, v: ViewBinding, i: nat)
    requires i < |state.entries| && BindingOf(derive, state, v, i)
    requires FirstOk(derive, state, i) && BindingKey(v.at) in FirstItems(derive, state, i)
    ensures !EntriesOk(derive, state)
  {
    hide BindingKey, Writes;
    var l := Inserts(state.entries);
    if EntriesOk(derive, state) {
      var x, y := Placed(derive, l[..i]), Placed(derive, l);
      forall ch | ch in x
        ensures ch.at != v.at
      {
        var j :| 0 <= j < i && x[j] == ch;
        assert x[j] == y[j];
        assert AtOf()(y[j]) != AtOf()(y[i]);
      }
      FirstDistinct(derive, state, i);
      WritesAt(map[], x, v.at);
    }
  }

  // An occupied coordinate has the label of an earlier entry.
  lemma EntryShares(derive: Deriver, state: State, v: ViewBinding, i: nat)
    requires i < |state.entries| && BindingOf(derive, state, v, i)
    requires FirstOk(derive, state, i) && BindingKey(v.at) in FirstItems(derive, state, i)
    ensures var name := FirstItems(derive, state, i)[BindingKey(v.at)].name;
      StateRefused(derive, state, if name != v.name then Collision else Duplicate)
  {
    hide BindingKey, Writes;
    var x, name := Placed(derive, Inserts(state.entries)[..i]), FirstItems(derive, state, i)[BindingKey(v.at)].name;
    FirstDistinct(derive, state, i);
    WritesAt(map[], x, v.at);
    var ch :| ch in x && ch.at == v.at;
    var j :| 0 <= j < i && x[j] == ch;
    assert state.entries[j].name == name;
    EntryIn(derive, state, i, j);
    assert derive(state.entries[j].name) == Some(v.at) == derive(state.entries[i].name);
    assert EntersTwice(derive, state.entries, name == v.name);
  }

  lemma UndefinedEntry(derive: Deriver, state: State, v: ViewBinding, i: nat)
    requires i < |state.entries| && BindingOf(derive, state, v, i) && v.target == None
    ensures StateRefused(derive, state, Undefined)
  {
    assert state.entries[i] in state.entries;
  }

  lemma FirstDistinct(derive: Deriver, state: State, i: nat)
    requires i <= |state.entries| && FirstOk(derive, state, i)
    ensures Distinct(Placed(derive, Inserts(state.entries)[..i]), AtOf())
  {
  }

  // Files every entry under its coordinate.
  method BindingsFromState(derive: Deriver, state: State) returns (r: Result<(Index, seq<ViewBinding>), Error>)
    ensures r.Ok? <==> EntriesOk(derive, state)
    ensures r.Ok? ==> Sound(r.value.0) && Contents(r.value.0) == StateItems(derive, state)
    ensures r.Ok? ==> Keyed(derive, state.layout, StateItems(derive, state))
    ensures r.Ok? ==> |StateItems(derive, state)| == |state.entries|
    ensures r.Ok? ==> Interprets(derive, state, r.value.1)
    ensures r.Err? ==> StateRefused(derive, state, r.error)
  {
    hide FirstOk, FirstItems, EntriesOk, StateItems, Keyed, Bindings.Sound, Bindings.Contents, BindingKey, BindingOf;
    NoEntries(derive, state);
    var view := Interpret(derive, state);
    if view.Err? {
      Underivable(derive, state);
      return Err(view.error);
    }
    var root: Index := None;
    EmptyIndex();
    for i := 0 to |state.entries|
      invariant Sound(root) && Contents(root) == FirstItems(derive, state, i)
      invariant FirstOk(derive, state, i) && Keyed(derive, state.layout, FirstItems(derive, state, i))
      invariant |FirstItems(derive, state, i)| == i
    {
      var v := view.value[i];
      assert BindingOf(derive, state, v, i);
      FirstOkShorter(derive, state, i + 1);
      NeedsTarget(derive, state, v, i);
      if v.target == None {
        UndefinedEntry(derive, state, v, i);
        return Err(Undefined);
      }
      var previous := Get(root, BindingKey(v.at));
      if previous.Some? {
        EntryTaken(derive, state, v, i);
        EntryShares(derive, state, v, i);
        return Err(if previous.value.name != v.name then Collision else Duplicate);
      }
      EntryNext(derive, state, v, i);
      root := Set(root, BindingKey(v.at), Item(v.at, state.entries[i].name, v.target.value));
      EntryLabel(derive, state, v, i);
    }
    return Ok((root, view.value));
  }

  lemma EmptyIndex()
    ensures Sound(None) && Contents(None) == map[]
  {
  }

  lemma EntryLabel(derive: Deriver, state: State, v: ViewBinding, i: nat)
    requires i < |state.entries| && BindingOf(derive, state, v, i)
    ensures state.entries[i].name == v.name && state.entries[i].target == v.target
  {
  }

  lemma Underivable(derive: Deriver, state: State)
    requires !forall e :: e in state.entries ==> LabelCoordinate(derive, state.layout, e.name).Ok?
    ensures !EntriesOk(derive, state)
  {
    var e :| e in state.entries && LabelCoordinate(derive, state.layout, e.name).Err?;
    var i :| 0 <= i < |state.entries| && state.entries[i] == e;
    assert Inserts(state.entries)[i] in Inserts(state.entries);
  }

  lemma NeedsTarget(derive: Deriver, state: State, v: ViewBinding, i: nat)
    requires i < |state.entries| && BindingOf(derive, state, v, i)
    ensures EntriesOk(derive, state) ==> v.target.Some?
  {
    assert Inserts(state.entries)[i] in Inserts(state.entries);
  }

  // ---- A state in the caller's terms ----

  ghost predicate Derives(derive: Deriver, layout: Layout, e: StateEntry) {
    derive(e.name).Some? && (derive(e.name).value.AtKey? <==> layout == MapLayout)
  }

  ghost predicate EntryFits(derive: Deriver, layout: Layout, e: StateEntry) {
    Derives(derive, layout, e) && e.target.Some?
  }

  ghost predicate EntryAt(derive: Deriver, state: State, at: Coordinate) {
    exists e :: e in state.entries && derive(e.name) == Some(at)
  }

  // No two entries at one coordinate.
  ghost predicate PlacesApart(derive: Deriver, entries: seq<StateEntry>) {
    forall i, j :: 0 <= i < j < |entries| ==> derive(entries[i].name) != derive(entries[j].name)
  }

  // Every label derives to a coordinate of the layout and has a target, no coordinate
  // is listed twice, a Map has no payload, and a List lists all its indices.
  ghost predicate StateFits(derive: Deriver, state: State) {
    && (forall e :: e in state.entries ==> EntryFits(derive, state.layout, e)) && PlacesApart(derive, state.entries)
    && if state.layout == MapLayout then state.payload == None
       else |state.entries| < TWO64 && forall i: U64 :: i < |state.entries| ==> EntryAt(derive, state, AtIndex(i))
  }

  // The fault an error names.
  ghost predicate StateRefused(derive: Deriver, state: State, e: Error) {
    match e
    case BadSelector => exists x :: x in state.entries && !Derives(derive, state.layout, x)
    case Undefined => exists x :: x in state.entries && x.target == None
    case Duplicate => EntersTwice(derive, state.entries, true)
    case Collision => EntersTwice(derive, state.entries, false)
    case BadNode => state.layout == MapLayout && state.payload.Some?
    case OutOfRange => state.layout == ListLayout
      && exists i: U64 :: i < |state.entries| && !EntryAt(derive, state, AtIndex(i))
    case _ => false
  }

  ghost predicate EntersTwice(derive: Deriver, entries: seq<StateEntry>, sameLabel: bool) {
    exists i, j :: (
      && 0 <= i < j < |entries| && derive(entries[i].name).Some? && derive(entries[i].name) == derive(entries[j].name)
      && (entries[i].name == entries[j].name <==> sameLabel))
  }

  lemma EntriesOkIs(derive: Deriver, state: State)
    ensures EntriesOk(derive, state) <==> (
      (forall e :: e in state.entries ==> EntryFits(derive, state.layout, e)) && PlacesApart(derive, state.entries))
  {
    hide BindingKey, ChangeFits, EntryFits;
    var l := Inserts(state.entries);
    AllSuitIs(derive, state.layout, map[], TWO64, l);
    forall i | 0 <= i < |l|
      ensures l[i] in l && state.entries[i] in state.entries
      ensures ChangeFits(derive, state.layout, map[], TWO64, l[i])
        <==> EntryFits(derive, state.layout, state.entries[i])
    {
      InsertFits(derive, state.layout, state.entries[i]);
    }
  }

  lemma InsertFits(derive: Deriver, layout: Layout, e: StateEntry)
    ensures ChangeFits(derive, layout, map[], TWO64, LabelChange(e.name, None, e.target))
      <==> EntryFits(derive, layout, e)
  {
    hide BindingKey;
  }

  // Each coordinate holds the entry that derives to it, if there is one.
  lemma StateItemsAt(derive: Deriver, state: State, at: Coordinate)
    requires EntriesOk(derive, state)
    ensures forall e :: e in state.entries && derive(e.name) == Some(at) ==> (
      e.target.Some? && Current(StateItems(derive, state), at) == Some(Item(at, e.name, e.target.value)))
    ensures !EntryAt(derive, state, at) ==> Current(StateItems(derive, state), at) == None
  {
    hide BindingKey, Writes, EntriesOk;
    var l := Inserts(state.entries);
    var ps := Placed(derive, l);
    NoEntries(derive, state);
    EntriesDistinct(derive, state);
    forall e | e in state.entries && derive(e.name) == Some(at)
      ensures e.target.Some? && Current(StateItems(derive, state), at) == Some(Item(at, e.name, e.target.value))
    {
      var j :| 0 <= j < |state.entries| && state.entries[j] == e;
      EntryIn(derive, state, |state.entries|, j);
    }
    EntriesOkIs(derive, state);
    if !EntryAt(derive, state, at) {
      forall ch | ch in ps
        ensures ch.at != at
      {
        var i :| 0 <= i < |ps| && ps[i] == ch;
        assert state.entries[i] in state.entries;
      }
      WritesAt(map[], ps, at);
    }
  }

  lemma {:induction false} FirstSize(derive: Deriver, state: State, i: nat)
    requires i <= |state.entries| && EntriesOk(derive, state)
    ensures |FirstItems(derive, state, i)| == i && Keyed(derive, state.layout, FirstItems(derive, state, i))
  {
    hide BindingKey, Keyed, EntriesOk, FirstItems, FirstOk;
    NoEntries(derive, state);
    if i > 0 {
      FirstSize(derive, state, i - 1);
      FirstOkShorter(derive, state, i - 1);
      var e := state.entries[i - 1];
      EntriesOkIs(derive, state);
      assert e in state.entries;
      var v := ViewBinding(derive(e.name).value, e.name, e.target);
      if BindingKey(v.at) in FirstItems(derive, state, i - 1) {
        EntryTaken(derive, state, v, i - 1);
      }
      EntryNext(derive, state, v, i - 1);
    }
  }

  // A state can be built exactly when it fits.
  lemma StateOkIs(derive: Deriver, state: State)
    ensures StateOk(derive, state) <==> StateFits(derive, state)
  {
    hide BindingKey, EntryFits, EntriesOk, StateItems, FirstItems;
    EntriesOkIs(derive, state);
    if EntriesOk(derive, state) && state.layout == ListLayout && |state.entries| < TWO64 {
      DenseState(derive, state);
    }
  }

  // Every position taken, and no more positions than the count.
  lemma ContiguousDense(s: map<Path, Item>, count: U64)
    requires |s| == count
    ensures (forall i: U64 :: i < count ==> Current(s, AtIndex(i)).Some?) <==> s.Keys == IndexKeys(count)
  {
    hide BindingKey;
    assert |s| == |s.Keys|;
    IndexKeysSize(count);
    if forall i: U64 :: i < count ==> Current(s, AtIndex(i)).Some? {
      SubsetSize(IndexKeys(count), s.Keys);
    }
    if s.Keys == IndexKeys(count) {
      forall i: U64 | i < count
        ensures Current(s, AtIndex(i)).Some?
      {
        assert BindingKey(AtIndex(i)) in IndexKeys(count);
      }
    }
  }

  lemma DenseState(derive: Deriver, state: State)
    requires EntriesOk(derive, state) && |state.entries| < TWO64
    ensures StateItems(derive, state).Keys == IndexKeys(|state.entries|)
      <==> forall i: U64 :: i < |state.entries| ==> EntryAt(derive, state, AtIndex(i))
  {
    hide BindingKey, EntriesOk, StateItems, FirstItems, EntryAt;
    var s := StateItems(derive, state);
    NoEntries(derive, state);
    FirstSize(derive, state, |state.entries|);
    ContiguousDense(s, |state.entries|);
    forall i: U64
      ensures Current(s, AtIndex(i)).Some? <==> EntryAt(derive, state, AtIndex(i))
    {
      StateItemsSome(derive, state, AtIndex(i));
    }
  }

  lemma StateItemsSome(derive: Deriver, state: State, at: Coordinate)
    requires EntriesOk(derive, state)
    ensures Current(StateItems(derive, state), at).Some? <==> EntryAt(derive, state, at)
  {
    hide StateItems, Current, EntriesOk;
    StateItemsAt(derive, state, at);
  }

  // ---- The tree a state denotes ----

  lemma EntriesDistinct(derive: Deriver, state: State)
    requires EntriesOk(derive, state)
    ensures Distinct(Placed(derive, Inserts(state.entries)), AtOf())
    ensures Keyed(derive, state.layout, StateItems(derive, state))
  {
    var l := Inserts(state.entries);
    forall ch | ch in Placed(derive, l)
      ensures LabelCoordinate(derive, state.layout, ch.name) == Ok(ch.at)
    {
      PlacedSuits(derive, state.layout, map[], TWO64, l, ch);
    }
    WritesKeyed(derive, state.layout, map[], Placed(derive, l));
  }

  // A coordinate is occupied exactly when an entry derives to it.
  lemma StateCurrent(derive: Deriver, state: State, vs: seq<ViewBinding>, at: Coordinate)
    requires EntriesOk(derive, state) && Interprets(derive, state, vs)
    ensures var now := Current(StateItems(derive, state), at);
      && (forall v :: v in vs && v.at == at ==> (
            now.Some? && now == Some(Item(at, v.name, now.value.target)) && v.target == Some(now.value.target)))
      && (now.Some? ==> exists v :: v in vs && v.at == at)
  {
    hide BindingKey, Writes, EntriesOk;
    var l := Inserts(state.entries);
    var ps := Placed(derive, l);
    EntriesDistinct(derive, state);
    WritesAt(map[], ps, at);
    var now := Current(StateItems(derive, state), at);
    forall v | v in vs && v.at == at
      ensures now.Some? && now == Some(Item(at, v.name, now.value.target)) && v.target == Some(now.value.target)
    {
      var i :| 0 <= i < |vs| && vs[i] == v;
      assert BindingOf(derive, state, vs[i], i) && ps[i] in ps;
      NeedsTarget(derive, state, v, i);
    }
    if ch :| ch in ps && ch.at == at {
      var i :| 0 <= i < |ps| && ps[i] == ch;
      assert BindingOf(derive, state, vs[i], i);
      assert vs[i].at == at;
    }
  }

  lemma ViewGood(derive: Deriver, state: State, vs: seq<ViewBinding>)
    requires EntriesOk(derive, state) && Interprets(derive, state, vs)
    ensures GoodBindings(derive, View(state.layout, vs, state.payload))
    ensures forall v :: v in vs ==> v.at.AtKey? == (state.layout == MapLayout) && v.target.Some?
    ensures Distinct(vs, BindingAt())
  {
    EntriesDistinct(derive, state);
    var ps := Placed(derive, Inserts(state.entries));
    forall v | v in vs
      ensures BindingFault(derive, state.layout, v) == None
      ensures v.at.AtKey? == (state.layout == MapLayout)
    {
      var i :| 0 <= i < |vs| && vs[i] == v;
      assert BindingOf(derive, state, vs[i], i);
      NeedsTarget(derive, state, v, i);
    }
    forall i, j | 0 <= i < j < |vs|
      ensures BindingAt()(vs[i]) != BindingAt()(vs[j])
    {
      assert BindingOf(derive, state, vs[i], i) && BindingOf(derive, state, vs[j], j);
      assert AtOf()(ps[i]) != AtOf()(ps[j]);
    }
  }

  lemma StateMap(b: Radix, derive: Deriver, state: State, vs: seq<ViewBinding>, root: Ref)
    requires EntriesOk(derive, state) && Interprets(derive, state, vs) && state.layout == MapLayout
    ensures Constructs(b, derive, View(state.layout, vs, state.payload), root)
      <==> state.payload == None && root == MapRoot(b, MapOf(StateItems(derive, state)))
  {
    hide EntriesOk, Interprets, StateItems, MapRoot, ToMap, MapOf, GoodBindings, BindingKey, Distinct;
    ViewGood(derive, state, vs);
    ItemsDistinct(vs);
    forall k
      ensures Look(ToMap(MapItems(vs)), k) == Look(MapOf(StateItems(derive, state)), k)
    {
      StateMapAt(derive, state, vs, k);
    }
    SameMap(ToMap(MapItems(vs)), MapOf(StateItems(derive, state)));
  }

  lemma ItemsDistinct(vs: seq<ViewBinding>)
    requires Distinct(vs, BindingAt()) && forall v :: v in vs ==> v.at.AtKey? && v.target.Some?
    ensures Distinct(MapItems(vs), KeyOf())
  {
    var items := MapItems(vs);
    forall i, j | 0 <= i < j < |items|
      ensures KeyOf()(items[i]) != KeyOf()(items[j])
    {
      assert BindingAt()(vs[i]) != BindingAt()(vs[j]);
    }
  }

  // The view of a state and its relations agree at every key.
  lemma StateMapAt(derive: Deriver, state: State, vs: seq<ViewBinding>, k: Key)
    requires EntriesOk(derive, state) && Interprets(derive, state, vs) && state.layout == MapLayout
    requires forall v :: v in vs ==> v.at.AtKey? && v.target.Some?
    requires Distinct(MapItems(vs), KeyOf())
    ensures Look(ToMap(MapItems(vs)), k) == Look(MapOf(StateItems(derive, state)), k)
  {
    hide EntriesOk, Interprets, StateItems, ToMap, MapOf, Keyed, BindingKey, Distinct;
    var items := MapItems(vs);
    EntriesDistinct(derive, state);
    StateCurrent(derive, state, vs, AtKey(k));
    MapOfLook(derive, StateItems(derive, state), k);
    if k in ToMap(items) {
      ToMapBound(items, k);
      var i :| 0 <= i < |items| && items[i].key == k && items[i].Entry() == ToMap(items)[k];
      assert vs[i] in vs;
    }
    if v :| v in vs && v.at == AtKey(k) {
      var i :| 0 <= i < |vs| && vs[i] == v;
      ToMapGets(items, items[i]);
    }
  }

  lemma StateList(b: Radix, derive: Deriver, state: State, vs: seq<ViewBinding>, root: Ref)
    requires EntriesOk(derive, state) && Interprets(derive, state, vs) && state.layout == ListLayout && |vs| < TWO64
    requires |StateItems(derive, state)| == |vs|
    ensures var s := StateItems(derive, state);
      Constructs(b, derive, View(state.layout, vs, state.payload), root)
      <==> s.Keys == IndexKeys(|vs|) && root == ListRoot(b, ItemsOf(s), state.payload)
  {
    hide EntriesOk, Interprets, StateItems, ListRoot, ItemsOf, GoodBindings, Keyed, BindingKey, ListOf, Distinct;
    ViewGood(derive, state, vs);
    var s := StateItems(derive, state);
    forall items | ListOf(vs, items)
      ensures s.Keys == IndexKeys(|vs|) && items == ItemsOf(s)
    {
      ListIsState(derive, state, vs, items);
    }
    if s.Keys == IndexKeys(|vs|) {
      StateIsList(derive, state, vs);
    }
  }

  lemma ListIsState(derive: Deriver, state: State, vs: seq<ViewBinding>, items: seq<Target>)
    requires EntriesOk(derive, state) && Interprets(derive, state, vs) && ListOf(vs, items) && |vs| < TWO64
    requires |StateItems(derive, state)| == |vs|
    ensures StateItems(derive, state).Keys == IndexKeys(|vs|) && items == ItemsOf(StateItems(derive, state))
  {
    hide EntriesOk, Interprets, StateItems, ItemsOf, Keyed, BindingKey, Distinct;
    var s := StateItems(derive, state);
    EntriesDistinct(derive, state);
    forall p | p in s
      ensures p in IndexKeys(|vs|)
    {
      StateCurrent(derive, state, vs, s[p].at);
      KeyedAt(derive, state.layout, s, p);
      var v :| v in vs && v.at == s[p].at;
      assert v.at == AtIndex(v.at.index);
    }
    IndexKeysSize(|vs|);
    SubsetSize(s.Keys, IndexKeys(|vs|));
    assert |s.Keys| == |s|;
    forall i: U64 | i < |items|
      ensures items[i] == ItemsOf(s)[i]
    {
      StateCurrent(derive, state, vs, AtIndex(i));
    }
  }

  lemma KeyedAt(derive: Deriver, layout: Layout, c: map<Path, Item>, p: Path)
    requires Keyed(derive, layout, c) && p in c
    ensures BindingKey(c[p].at) == p && Current(c, c[p].at) == Some(c[p])
  {
  }

  lemma StateIsList(derive: Deriver, state: State, vs: seq<ViewBinding>)
    requires EntriesOk(derive, state) && Interprets(derive, state, vs) && state.layout == ListLayout && |vs| < TWO64
    requires |StateItems(derive, state)| == |vs| && StateItems(derive, state).Keys == IndexKeys(|vs|)
    ensures ListOf(vs, ItemsOf(StateItems(derive, state)))
  {
    hide EntriesOk, Interprets, StateItems, ItemsOf, Keyed, BindingKey, Distinct;
    var s := StateItems(derive, state);
    ViewGood(derive, state, vs);
    forall v | v in vs
      ensures v.at.AtIndex? && v.at.index < |vs| && v.target == Some(ItemsOf(s)[v.at.index])
    {
      StateCurrent(derive, state, vs, v.at);
      var i: nat :| i < |vs| && BindingKey(AtIndex(i)) == BindingKey(v.at);
      BindingKeyInjective(AtIndex(i), v.at);
    }
  }

  // Builds the index and the tree of a complete state.
  method BuildWriter(b: Radix, derive: Deriver, state: State) returns (r: Result<Writer, Error>)
    requires |state.entries| < TWO64
    ensures r.Ok? <==> StateOk(derive, state)
    ensures if StateFits(derive, state) then r.Ok? else r.Err? && StateRefused(derive, state, r.error)
    ensures r.Ok? ==> States(derive, state, Contents(r.value.bindings))
    ensures r.Ok? ==> Agrees(b, derive, r.value) && Contents(r.value.bindings) == StateItems(derive, state)
    ensures r.Ok? ==> r.value.layout == state.layout && r.value.payload == state.payload && r.value.previous == None
  {
    hide EntriesOk, StateItems, MapOf, ItemsOf, MapRoot, ListRoot, Keyed, Constructs, Bindings.Sound,
      Bindings.Contents, Workspace.Valid, Retained.Faithful, IndexKeys, StateFits, StateRefused, States, ViewRefused;
    StateOkIs(derive, state);
    var filed := BindingsFromState(derive, state);
    if filed.Err? {
      return Err(filed.error);
    }
    var (bindings, vs) := filed.value;
    var work := new Workspace(b, None);
    forall root
      ensures Constructs(b, derive, View(state.layout, vs, state.payload), root)
        <==> (StateOk(derive, state) && Denotes(b, state.layout, StateItems(derive, state), state.payload, root))
    {
      StateDenotes(b, derive, state, vs, root);
    }
    var root := Commit(work, derive, View(state.layout, vs, state.payload));
    if root.Err? {
      DenotesSome(b, derive, state);
      RootRefused(derive, state, vs, root.error);
      return Err(root.error);
    }
    StatesIs(derive, state);
    var nodes := work.Seal(root.value);
    return Ok(Writer(state.layout, root.value, None, state.payload, bindings, nodes.value));
  }

  // The relations are the entries of the state, and nothing else.
  ghost predicate States(derive: Deriver, state: State, c: map<Path, Item>) {
    && (forall e :: e in state.entries && derive(e.name).Some? && e.target.Some? ==> (
          Current(c, derive(e.name).value) == Some(Item(derive(e.name).value, e.name, e.target.value))))
    && forall at :: !EntryAt(derive, state, at) ==> Current(c, at) == None
  }

  lemma StatesIs(derive: Deriver, state: State)
    requires EntriesOk(derive, state)
    ensures States(derive, state, StateItems(derive, state))
  {
    hide EntriesOk, StateItems, Current, EntryAt;
    forall at
      ensures forall e :: e in state.entries && derive(e.name) == Some(at) ==> (
        e.target.Some? && Current(StateItems(derive, state), at) == Some(Item(at, e.name, e.target.value)))
      ensures !EntryAt(derive, state, at) ==> Current(StateItems(derive, state), at) == None
    {
      StateItemsAt(derive, state, at);
    }
  }

  // Once the entries are filed, only a payload on a Map or a gap in a List is refused.
  lemma RootRefused(derive: Deriver, state: State, vs: seq<ViewBinding>, e: Error)
    requires EntriesOk(derive, state) && Interprets(derive, state, vs) && |state.entries| < TWO64
    requires ViewRefused(derive, View(state.layout, vs, state.payload), e) && !StateOk(derive, state)
    ensures StateRefused(derive, state, e)
  {
    hide EntriesOk, Interprets, StateItems, BindingFault, EntryAt, EntryFits;
    ViewGood(derive, state, vs);
    EntriesOkIs(derive, state);
    StateOkIs(derive, state);
    forall v | v in vs
      ensures Selects(derive, state.layout, Selector(v.at, v.name)) && v.target.Some?
    {
      BindingFaultIs(derive, state.layout, v);
    }
    forall i, j | 0 <= i < j < |vs|
      ensures vs[i].at != vs[j].at
    {
      assert BindingAt()(vs[i]) != BindingAt()(vs[j]);
    }
  }

  lemma StateDenotes(b: Radix, derive: Deriver, state: State, vs: seq<ViewBinding>, root: Ref)
    requires EntriesOk(derive, state) && Interprets(derive, state, vs) && |vs| < TWO64
    requires |StateItems(derive, state)| == |state.entries|
    ensures Constructs(b, derive, View(state.layout, vs, state.payload), root)
      <==> (StateOk(derive, state) && Denotes(b, state.layout, StateItems(derive, state), state.payload, root))
  {
    hide EntriesOk, StateItems, MapOf, ItemsOf, MapRoot, ListRoot, Constructs, IndexKeys;
    if state.layout == MapLayout {
      StateMap(b, derive, state, vs, root);
    } else {
      StateList(b, derive, state, vs, root);
    }
  }

  lemma DenotesSome(b: Radix, derive: Deriver, state: State)
    requires |StateItems(derive, state)| == |state.entries|
    ensures StateOk(derive, state) ==>
      exists root :: Denotes(b, state.layout, StateItems(derive, state), state.payload, root)
  {
    hide StateItems, MapOf, ItemsOf, MapRoot, ListRoot, EntriesOk;
    var s := StateItems(derive, state);
    if state.layout == MapLayout {
      assert Denotes(b, MapLayout, s, None, MapRoot(b, MapOf(s)));
    } else if StateOk(derive, state) {
      assert Denotes(b, ListLayout, s, state.payload, ListRoot(b, ItemsOf(s), state.payload));
    }
  }
}
