// Binding proofs: the path prover and the path verifier for both layouts.
module Proofs {
  import opened Words
  import opened Geometry
  import opened Nodes
  import opened Coordinates
  import opened ListTree
  import opened MapTree
  import opened MapUpdate
  import opened Evidence

  const PROOF_FORMAT: string := "malt.binding/1"
  const MAX_DEPTH: nat := 256

  // Openings of one node; absent parts are empty.
  datatype NodeOpening = NodeOpening(cell: Cell, proof: OpeningProof, metadata: Cell, metadataProof: OpeningProof)

  datatype Proof = Proof(format: string, nodes: seq<NodeOpening>)

  datatype Answer = Answer(present: bool, target: Option<Target>, proof: Proof)

  // Where a traversal stands: its vector, its depth, and for a List the position
  // of the vector and the index relative to it.
  datatype Place = Place(ref: Ref, depth: nat, pos: Position, index: U64)

  datatype Found = Found(present: bool, target: Option<Target>, nodes: seq<NodeOpening>) {
    function Behind(opening: NodeOpening): Found {
      Found(present, target, [opening] + nodes)
    }
  }

  // One step of a traversal, as far as the committed data decides it.
  datatype Step =
    | Stop(answer: Result<(bool, Option<Target>), Error>, opening: NodeOpening)
    | Descend(next: Place, opening: NodeOpening)
    | Fail(error: Error)

  // The metadata part of an opening: only a List root has one.
  function MetaPart(vc: Scheme, at: Place): (Cell, OpeningProof)
    requires |at.ref.cells| > 0
  {
    if at.ref.layout == ListLayout && at.depth == 0 then (at.ref.cells[0], vc.open(at.ref, 0)) else (Blank, NO_PROOF)
  }

  function CellOpening(vc: Scheme, at: Place, slot: nat): NodeOpening
    requires slot < |at.ref.cells|
  {
    NodeOpening(at.ref.cells[slot], vc.open(at.ref, slot), MetaPart(vc, at).0, MetaPart(vc, at).1)
  }

  // What an opened Map leaf says about a label.
  function LeafAnswer(b: Radix, derive: Deriver, cell: Cell, depth: nat, key: Key, name: Label)
    : Result<(bool, Option<Target>), Error>
  {
    var leaf := ParseMap(cell);
    if leaf.Err? then Err(leaf.error) else
      var at := LabelCoordinate(derive, MapLayout, leaf.value.0);
      if at.Err? then Err(at.error)
      else if !SameRoute(b, at.value.key, key, depth) then Err(BadNode)
      else if at.value.key == key && leaf.value.0 != name then Err(Collision)
      else if leaf.value.0 == name then Ok((true, Some(leaf.value.1)))
      else Ok((false, None))
  }

  predicate SameRoute(b: Radix, leaf: Key, key: Key, depth: nat) {
    DepthOk(b, depth) && forall d :: 0 <= d <= depth ==> Digit(b, leaf, d) == Digit(b, key, d)
  }

  function MapStep(vc: Scheme, b: Radix, derive: Deriver, at: Place, key: Key, name: Label): Step
    requires |at.ref.cells| == Slots(b)
  {
    if !DepthOk(b, at.depth) then Fail(BadNode) else
      var slot := Digit(b, key, at.depth);
      var cell := at.ref.cells[slot];
      if cell == Blank then Stop(Ok((false, None)), CellOpening(vc, at, slot))
      else if Tag(cell) == MAP_LEAF then
        Stop(LeafAnswer(b, derive, cell, at.depth, key, name), CellOpening(vc, at, slot))
      else
        var child := ParseChild(cell, at.ref);
        if child.Err? then Fail(child.error)
        else Descend(Place(child.value, at.depth + 1, at.pos, at.index), CellOpening(vc, at, slot))
  }

  // The position a List traversal uses at its root.
  function Enter(b: Radix, at: Place): Result<Place, Error>
    requires |at.ref.cells| > 0
  {
    if at.depth > 0 then Ok(at) else
      var meta := ParseMetadata(at.ref.cells[0]);
      if meta.Err? then Err(meta.error) else Ok(at.(pos := RootPos(meta.value.count, b)))
  }

  function ListStep(vc: Scheme, b: Radix, start: Place): Step
    requires |start.ref.cells| == Slots(b)
  {
    var entered := Enter(b, start);
    if entered.Err? then Fail(entered.error) else
      var at := entered.value;
      if at.depth == 0 && at.index >= at.pos.count then
        Stop(Ok((false, None)), NodeOpening(Blank, NO_PROOF, at.ref.cells[0], vc.open(at.ref, 0)))
      else
        var slot := at.pos.SlotOf(at.index, b);
        if slot >= Slots(b) then Fail(OutOfRange) else
          var cell := at.ref.cells[slot];
          if cell == Blank then Fail(BadNode)
          else if at.pos.height == 0 then
            var target := ParseList(cell);
            if target.Err? then Fail(target.error) else Stop(Ok((true, Some(target.value))), CellOpening(vc, at, slot))
          else
            var child := ParseChild(cell, at.ref);
            if child.Err? then Fail(child.error) else
              var (pos, first) := at.pos.Child(slot - at.pos.Base(), b);
              Descend(Place(child.value, at.depth + 1, pos, Sub(at.index, first)), CellOpening(vc, at, slot))
  }

  function StepAt(vc: Scheme, b: Radix, derive: Deriver, at: Place, query: Selector): Step {
    if |at.ref.cells| != Slots(b) then Fail(Incomplete)
    else if query.coordinate.AtKey? then MapStep(vc, b, derive, at, query.coordinate.key, query.name)
    else ListStep(vc, b, at)
  }

  // The honest traversal: a function of the committed tree and the query alone.
  function Traverse(vc: Scheme, b: Radix, derive: Deriver, at: Place, query: Selector): (r: Result<Found, Error>)
    ensures r.Ok? ==> |r.value.nodes| > 0 && at.depth + |r.value.nodes| <= MAX_DEPTH
    ensures r.Ok? ==> (r.value.present <==> r.value.target.Some?)
    decreases MAX_DEPTH - Min(at.depth, MAX_DEPTH)
  {
    if at.depth >= MAX_DEPTH then Err(BadNode) else
      match StepAt(vc, b, derive, at, query)
      case Fail(e) => Err(e)
      case Stop(answer, opening) =>
        if answer.Err? then Err(answer.error) else Ok(Found(answer.value.0, answer.value.1, [opening]))
      case Descend(next, opening) =>
        assert next.depth == at.depth + 1;
        var rest := Traverse(vc, b, derive, next, query);
        if rest.Err? then rest else Ok(rest.value.Behind(opening))
  }

  function Start(root: Ref, c: Coordinate): Place {
    Place(root, 0, Position(0, 0, false), if c.AtIndex? then c.index else 0)
  }

  // What proving a label against a root gives when everything is available.
  function Proven(vc: Scheme, b: Radix, derive: Deriver, root: Ref, query: Selector): Result<Answer, Error> {
    var c := CheckSelector(derive, root.layout, query);
    if c.Err? then Err(c.error) else
      var found := Traverse(vc, b, derive, Start(root, c.value), query);
      if found.Err? then Err(found.error)
      else Ok(Answer(found.value.present, found.value.target, Proof(PROOF_FORMAT, found.value.nodes)))
  }

  // ---- Verification ----

  // Checks the claimed openings along the path the query takes. Only the claimed
  // cells decide where the path goes.
  function CheckFrom(vc: Scheme, b: Radix, derive: Deriver, at: Place, query: Selector,
                     claim: Found): Result<bool, Error>
    decreases |claim.nodes|
  {
    if claim.nodes == [] then Ok(false) else
      var opening, last := claim.nodes[0], |claim.nodes| == 1;
      var rest := Found(claim.present, claim.target, claim.nodes[1..]);
      if query.coordinate.AtKey? then CheckMap(vc, b, derive, at, query, claim, opening, last, rest)
      else CheckList(vc, b, derive, at, query, claim, opening, last, rest)
  }

  function CheckMap(vc: Scheme, b: Radix, derive: Deriver, at: Place, query: Selector, claim: Found,
                    opening: NodeOpening, last: bool, rest: Found): Result<bool, Error>
    requires query.coordinate.AtKey? && |rest.nodes| < |claim.nodes|
    decreases |claim.nodes|, 0
  {
    var key := query.coordinate.key;
    if opening.metadata != Blank || opening.metadataProof != NO_PROOF then Ok(false)
    else if !DepthOk(b, at.depth) then Err(BadNode)
    else if !VerifyOpening(vc, b, at.ref, Digit(b, key, at.depth), opening.cell, opening.proof) then Ok(false)
    else if opening.cell == Blank then Ok(last && !claim.present)
    else if Tag(opening.cell) == MAP_LEAF
    then CheckLeaf(b, derive, opening.cell, at.depth, key, query.name, claim, last)
    else if last then Ok(false)
    else
      var child := ParseChild(opening.cell, at.ref);
      if child.Err? then Err(child.error)
      else CheckFrom(vc, b, derive, Place(child.value, at.depth + 1, at.pos, at.index), query, rest)
  }

  function CheckLeaf(b: Radix, derive: Deriver, cell: Cell, depth: nat, key: Key, name: Label, claim: Found, last: bool)
    : Result<bool, Error>
  {
    var leaf := ParseMap(cell);
    if leaf.Err? then Err(leaf.error) else
      var at := LabelCoordinate(derive, MapLayout, leaf.value.0);
      if at.Err? then Err(at.error)
      else if !SameRoute(b, at.value.key, key, depth) then Err(BadNode)
      else if !last then Ok(false)
      else if at.value.key == key && leaf.value.0 != name then Err(Collision)
      else if claim.present then Ok(leaf.value.0 == name && claim.target == Some(leaf.value.1))
      else Ok(leaf.value.0 != name && at.value.key != key)
  }

  function CheckList(vc: Scheme, b: Radix, derive: Deriver, start: Place, query: Selector, claim: Found,
                     opening: NodeOpening, last: bool, rest: Found): Result<bool, Error>
    requires query.coordinate.AtIndex? && |rest.nodes| < |claim.nodes|
    decreases |claim.nodes|, 0
  {
    if start.depth == 0 && !VerifyOpening(vc, b, start.ref, 0, opening.metadata, opening.metadataProof) then Ok(false)
    else if start.depth > 0 && (opening.metadata != Blank || opening.metadataProof != NO_PROOF) then Ok(false)
    else
      var meta := if start.depth == 0 then ParseMetadata(opening.metadata) else Err(BadNode);
      if start.depth == 0 && meta.Err? then Err(meta.error) else
        var at := if start.depth == 0 then start.(pos := RootPos(meta.value.count, b)) else start;
        if at.depth == 0 && at.index >= at.pos.count then
          Ok(last && !claim.present && opening.cell == Blank && opening.proof == NO_PROOF)
        else
          var slot := at.pos.SlotOf(at.index, b);
          if !VerifyOpening(vc, b, at.ref, slot, opening.cell, opening.proof) then Ok(false)
          else if opening.cell == Blank then Ok(false)
          else if at.pos.height == 0 then
            var target := ParseList(opening.cell);
            if target.Err? then Err(target.error)
            else Ok(last && claim.present && claim.target == Some(target.value))
          else if last then Ok(false)
          else
            var child := ParseChild(opening.cell, at.ref);
            if child.Err? then Err(child.error) else
              var (pos, first) := at.pos.Child(slot - at.pos.Base(), b);
              CheckFrom(vc, b, derive, Place(child.value, at.depth + 1, pos, Sub(at.index, first)), query, rest)
  }

  function Verified(vc: Scheme, b: Radix, derive: Deriver, root: Ref, query: Selector,
                    answer: Answer): Result<bool, Error> {
    var c := CheckSelector(derive, root.layout, query);
    if c.Err? then Err(c.error)
    else if answer.proof.format != PROOF_FORMAT || |answer.proof.nodes| == 0 || |answer.proof.nodes| > MAX_DEPTH
      then Err(BadNode)
    else if answer.present != answer.target.Some? then Err(BadNode)
    else CheckFrom(vc, b, derive, Start(root, c.value), query, Found(answer.present, answer.target, answer.proof.nodes))
  }

  // ---- Accepted claims agree with the honest one, and the honest one is accepted ----

  // The same cells along the same path, whatever the evidence.
  ghost predicate SameCells(x: seq<NodeOpening>, y: seq<NodeOpening>) {
    |x| == |y| && forall i :: 0 <= i < |x| ==> x[i].cell == y[i].cell && x[i].metadata == y[i].metadata
  }

  ghost predicate LikeFound(claim: Found, honest: Result<Found, Error>) {
    && honest.Ok? && claim.present == honest.value.present && claim.target == honest.value.target
    && SameCells(claim.nodes, honest.value.nodes)
  }

  lemma {:induction false} CheckSound(vc: Scheme, b: Radix, derive: Deriver, at: Place, query: Selector, claim: Found)
    requires vc.Binding() && at.ref.layout == (if query.coordinate.AtKey? then MapLayout else ListLayout)
    requires claim.present <==> claim.target.Some?
    requires at.depth + |claim.nodes| <= MAX_DEPTH && CheckFrom(vc, b, derive, at, query, claim) == Ok(true)
    ensures LikeFound(claim, Traverse(vc, b, derive, at, query))
    decreases |claim.nodes|
  {
    hide Traverse, Scheme.Binding;
    var opening, last := claim.nodes[0], |claim.nodes| == 1;
    var rest := Found(claim.present, claim.target, claim.nodes[1..]);
    assert claim.nodes == [opening] + rest.nodes;
    var step := StepAt(vc, b, derive, at, query);
    if step.Descend? && CheckFrom(vc, b, derive, step.next, query, rest) == Ok(true) {
      CheckSound(vc, b, derive, step.next, query, rest);
    }
    if query.coordinate.AtKey? {
      MapSound(vc, b, derive, at, query, claim, opening, last, rest);
    } else {
      ListSound(vc, b, derive, at, query, claim, opening, last, rest);
    }
  }

  // ---- What an accepted claim shows, whatever the backend ----

  // The node an opening belongs to: the root, then each child that was opened.
  ghost function RefAt(root: Ref, nodes: seq<NodeOpening>, i: nat): Ref
    requires i < |nodes|
  {
    if i > 0 && nodes[i - 1].cell.Child? then nodes[i - 1].cell.ref else root
  }

  // Every cell has evidence at its own node, in a Map at the digit of the key. Metadata
  // is shown at a List root, and no evidence stands beside a part that is not shown.
  ghost predicate Shown(vc: Scheme, b: Radix, ref: Ref, depth: nat, query: Selector, node: NodeOpening, last: bool) {
    && (node.metadata != Blank <==> query.coordinate.AtIndex? && depth == 0)
    && (if node.metadata == Blank then node.metadataProof == []
        else VerifyOpening(vc, b, ref, 0, node.metadata, node.metadataProof))
    && (if query.coordinate.AtKey? then
          DepthOk(b, depth)
          && VerifyOpening(vc, b, ref, Digit(b, query.coordinate.key, depth), node.cell, node.proof)
        else if node.cell == Blank then node.proof == []
        else exists slot :: VerifyOpening(vc, b, ref, slot, node.cell, node.proof))
    && (!last ==> node.cell.Child? && node.cell.ref.layout == ref.layout)
  }

  ghost predicate Shows(vc: Scheme, b: Radix, ref: Ref, depth: nat, query: Selector, nodes: seq<NodeOpening>) {
    forall i :: 0 <= i < |nodes| ==>
      Shown(vc, b, RefAt(ref, nodes, i), depth + i, query, nodes[i], i == |nodes| - 1)
  }

  // What the last opening says: the label's own leaf or the item itself for a present
  // target; a blank slot, a leaf on the same route with another key, or an index not
  // below the count for an absent one.
  ghost predicate Ends(b: Radix, derive: Deriver, depth: nat, index: U64, query: Selector, claim: Found)
    requires claim.nodes != []
  {
    var node := claim.nodes[|claim.nodes| - 1];
    if query.coordinate.AtKey? then
      if claim.present then claim.target.Some? && node.cell == MapLeaf(query.name, claim.target.value)
      else node.cell == Blank || OtherLeaf(b, derive, depth + |claim.nodes| - 1, query, node.cell)
    else if claim.present then claim.target.Some? && node.cell == ListLeaf(claim.target.value)
    else depth == 0 && |claim.nodes| == 1 && node.cell == Blank && node.metadata.Meta? && node.metadata.count <= index
  }

  ghost predicate OtherLeaf(b: Radix, derive: Deriver, depth: nat, query: Selector, cell: Cell)
    requires query.coordinate.AtKey?
  {
    cell.MapLeaf? && cell.name != query.name && exists k :: (
      && derive(cell.name) == Some(AtKey(k)) && k != query.coordinate.key && DepthOk(b, depth)
      && forall d :: 0 <= d <= depth ==> Digit(b, k, d) == Digit(b, query.coordinate.key, d))
  }

  lemma ShowsNext(vc: Scheme, b: Radix, ref: Ref, depth: nat, query: Selector, opening: NodeOpening,
                  rest: seq<NodeOpening>)
    requires Shown(vc, b, ref, depth, query, opening, rest == [])
    requires rest != [] ==> opening.cell.Child? && Shows(vc, b, opening.cell.ref, depth + 1, query, rest)
    ensures Shows(vc, b, ref, depth, query, [opening] + rest)
  {
    hide Shown;
    var all := [opening] + rest;
    forall i | 0 <= i < |all|
      ensures Shown(vc, b, RefAt(ref, all, i), depth + i, query, all[i], i == |all| - 1)
    {
      if i == 1 {
        ShownChild(vc, b, ref, depth, query, opening);
      } else if i > 1 {
        ShownChild(vc, b, RefAt(opening.cell.ref, rest, i - 2), depth + 1 + (i - 2), query, rest[i - 2]);
      }
    }
  }

  lemma ShownChild(vc: Scheme, b: Radix, ref: Ref, depth: nat, query: Selector, node: NodeOpening)
    ensures Shown(vc, b, ref, depth, query, node, false) ==> node.cell.Child?
  {
  }

  lemma {:induction false} CheckShows(vc: Scheme, b: Radix, derive: Deriver, at: Place, query: Selector, claim: Found)
    requires CheckFrom(vc, b, derive, at, query, claim) == Ok(true) && (claim.present <==> claim.target.Some?)
    ensures claim.nodes != [] && Shows(vc, b, at.ref, at.depth, query, claim.nodes)
    ensures Ends(b, derive, at.depth, at.index, query, claim)
    decreases |claim.nodes|
  {
    hide Shown, OtherLeaf, CheckFrom;
    var next := CheckOpening(vc, b, derive, at, query, claim);
    var opening := claim.nodes[0];
    var rest := Found(claim.present, claim.target, claim.nodes[1..]);
    assert claim.nodes == [opening] + rest.nodes && claim.nodes[..1] == [opening];
    if rest.nodes != [] {
      CheckShows(vc, b, derive, next, query, rest);
    }
    ShowsNext(vc, b, at.ref, at.depth, query, opening, rest.nodes);
  }

  // An opening that is accepted ends the claim or leads on.
  lemma CheckOpening(vc: Scheme, b: Radix, derive: Deriver, at: Place, query: Selector, claim: Found)
    returns (next: Place)
    requires CheckFrom(vc, b, derive, at, query, claim) == Ok(true) && (claim.present <==> claim.target.Some?)
    ensures claim.nodes != []
    ensures Shown(vc, b, at.ref, at.depth, query, claim.nodes[0], |claim.nodes| == 1)
    ensures |claim.nodes| == 1 ==> Ends(b, derive, at.depth, at.index, query, claim)
    ensures |claim.nodes| > 1 ==> (
      && claim.nodes[0].cell.Child? && next.ref == claim.nodes[0].cell.ref && next.depth == at.depth + 1
      && CheckFrom(vc, b, derive, next, query, Found(claim.present, claim.target, claim.nodes[1..])) == Ok(true))
  {
    hide Digit, HeightOf, Position.Child;
    next := at;
    var opening := claim.nodes[0];
    var rest := Found(claim.present, claim.target, claim.nodes[1..]);
    var last := |claim.nodes| == 1;
    if query.coordinate.AtKey? {
      assert CheckMap(vc, b, derive, at, query, claim, opening, last, rest) == Ok(true);
      if !last {
        next := Place(opening.cell.ref, at.depth + 1, at.pos, at.index);
      }
    } else {
      assert CheckList(vc, b, derive, at, query, claim, opening, last, rest) == Ok(true);
      if !last {
        var here := if at.depth == 0 then RootPos(opening.metadata.count, b) else at.pos;
        var (pos, first) := here.Child(here.SlotOf(at.index, b) - here.Base(), b);
        next := Place(opening.cell.ref, at.depth + 1, pos, Sub(at.index, first));
      }
    }
  }

  lemma MapSound(vc: Scheme, b: Radix, derive: Deriver, at: Place, query: Selector, claim: Found,
                 opening: NodeOpening, last: bool, rest: Found)
    requires vc.Binding() && at.ref.layout == MapLayout && query.coordinate.AtKey? && at.depth < MAX_DEPTH
    requires claim.nodes == [opening] + rest.nodes && last == (rest.nodes == [])
    requires claim.present <==> claim.target.Some?
    requires rest.present == claim.present && rest.target == claim.target
    requires var step := StepAt(vc, b, derive, at, query);
      step.Descend? && CheckFrom(vc, b, derive, step.next, query, rest) == Ok(true)
      ==> LikeFound(rest, Traverse(vc, b, derive, step.next, query))
    requires CheckMap(vc, b, derive, at, query, claim, opening, last, rest) == Ok(true)
    ensures LikeFound(claim, Traverse(vc, b, derive, at, query))
  {
    hide Traverse, CheckFrom, Digit, SameRoute;
    TraverseUnfold(vc, b, derive, at, query);
    assert opening.cell == at.ref.cells[Digit(b, query.coordinate.key, at.depth)];
  }

  lemma ListSound(vc: Scheme, b: Radix, derive: Deriver, at: Place, query: Selector, claim: Found,
                  opening: NodeOpening, last: bool, rest: Found)
    requires vc.Binding() && at.ref.layout == ListLayout && query.coordinate.AtIndex? && at.depth < MAX_DEPTH
    requires claim.nodes == [opening] + rest.nodes && last == (rest.nodes == [])
    requires claim.present <==> claim.target.Some?
    requires rest.present == claim.present && rest.target == claim.target
    requires var step := StepAt(vc, b, derive, at, query);
      step.Descend? && CheckFrom(vc, b, derive, step.next, query, rest) == Ok(true)
      ==> LikeFound(rest, Traverse(vc, b, derive, step.next, query))
    requires CheckList(vc, b, derive, at, query, claim, opening, last, rest) == Ok(true)
    ensures LikeFound(claim, Traverse(vc, b, derive, at, query))
  {
    hide Traverse, CheckFrom, HeightOf, Position.SlotOf, Position.Child;
    TraverseUnfold(vc, b, derive, at, query);
  }

  lemma {:induction false} CheckComplete(vc: Scheme, b: Radix, derive: Deriver, at: Place, query: Selector,
                                         claim: Found)
    requires vc.Opens() && at.ref.layout == (if query.coordinate.AtKey? then MapLayout else ListLayout)
    requires claim.present <==> claim.target.Some?
    requires at.depth + |claim.nodes| <= MAX_DEPTH && Traverse(vc, b, derive, at, query) == Ok(claim)
    ensures CheckFrom(vc, b, derive, at, query, claim) == Ok(true)
    decreases |claim.nodes|
  {
    hide Scheme.Opens;
    var opening, last := claim.nodes[0], |claim.nodes| == 1;
    var rest := Found(claim.present, claim.target, claim.nodes[1..]);
    assert claim.nodes == [opening] + rest.nodes;
    var step := StepAt(vc, b, derive, at, query);
    if step.Descend? && Traverse(vc, b, derive, step.next, query) == Ok(rest) {
      CheckComplete(vc, b, derive, step.next, query, rest);
    }
    if query.coordinate.AtKey? {
      MapComplete(vc, b, derive, at, query, claim, opening, last, rest);
    } else {
      ListComplete(vc, b, derive, at, query, claim, opening, last, rest);
    }
  }

  // A claim that starts with the honest opening continues honestly.
  ghost predicate Continues(vc: Scheme, b: Radix, derive: Deriver, at: Place, query: Selector, claim: Found,
                            rest: Found)
    requires claim.nodes != []
  {
    match StepAt(vc, b, derive, at, query)
    case Fail(_) => false
    case Stop(answer, opening) => answer == Ok((claim.present, claim.target)) && claim.nodes == [opening]
    case Descend(next, opening) =>
      opening == claim.nodes[0] && rest.nodes != [] && Traverse(vc, b, derive, next, query) == Ok(rest)
  }

  lemma TraverseContinues(vc: Scheme, b: Radix, derive: Deriver, at: Place, query: Selector, claim: Found)
    requires claim.nodes != [] && at.depth < MAX_DEPTH
    ensures Traverse(vc, b, derive, at, query) == Ok(claim)
      <==> Continues(vc, b, derive, at, query, claim, Found(claim.present, claim.target, claim.nodes[1..]))
  {
    var rest := Found(claim.present, claim.target, claim.nodes[1..]);
    assert rest.Behind(claim.nodes[0]) == claim;
    var step := StepAt(vc, b, derive, at, query);
    if step.Descend? {
      var more := Traverse(vc, b, derive, step.next, query);
      if more.Ok? {
        assert more.value.Behind(step.opening).nodes[1..] == more.value.nodes;
      }
    }
  }

  lemma MapComplete(vc: Scheme, b: Radix, derive: Deriver, at: Place, query: Selector, claim: Found,
                    opening: NodeOpening, last: bool, rest: Found)
    requires vc.Opens() && at.ref.layout == MapLayout && query.coordinate.AtKey? && at.depth < MAX_DEPTH
    requires claim.nodes == [opening] + rest.nodes && last == (rest.nodes == [])
    requires claim.present <==> claim.target.Some?
    requires rest.present == claim.present && rest.target == claim.target
    requires var step := StepAt(vc, b, derive, at, query);
      step.Descend? && Traverse(vc, b, derive, step.next, query) == Ok(rest)
      ==> CheckFrom(vc, b, derive, step.next, query, rest) == Ok(true)
    requires Traverse(vc, b, derive, at, query) == Ok(claim)
    ensures CheckMap(vc, b, derive, at, query, claim, opening, last, rest) == Ok(true)
  {
    hide Traverse, CheckFrom, Digit, SameRoute;
    TraverseContinues(vc, b, derive, at, query, claim);
    assert claim.nodes[1..] == rest.nodes && claim.nodes[0] == opening;
  }

  lemma ListComplete(vc: Scheme, b: Radix, derive: Deriver, at: Place, query: Selector, claim: Found,
                     opening: NodeOpening, last: bool, rest: Found)
    requires vc.Opens() && at.ref.layout == ListLayout && query.coordinate.AtIndex? && at.depth < MAX_DEPTH
    requires claim.nodes == [opening] + rest.nodes && last == (rest.nodes == [])
    requires claim.present <==> claim.target.Some?
    requires rest.present == claim.present && rest.target == claim.target
    requires var step := StepAt(vc, b, derive, at, query);
      step.Descend? && Traverse(vc, b, derive, step.next, query) == Ok(rest)
      ==> CheckFrom(vc, b, derive, step.next, query, rest) == Ok(true)
    requires Traverse(vc, b, derive, at, query) == Ok(claim)
    ensures CheckList(vc, b, derive, at, query, claim, opening, last, rest) == Ok(true)
  {
    hide Traverse, CheckFrom, HeightOf, Position.SlotOf, Position.Child;
    TraverseContinues(vc, b, derive, at, query, claim);
    assert claim.nodes[1..] == rest.nodes && claim.nodes[0] == opening;
  }

  // An answer that says what the honest one says, along the same cells.
  ghost predicate LikeAnswer(answer: Answer, honest: Result<Answer, Error>) {
    && honest.Ok? && answer.present == honest.value.present && answer.target == honest.value.target
    && SameCells(answer.proof.nodes, honest.value.proof.nodes)
  }

  // On every committed root, canonical or not, whatever evidence the backend
  // accepts: an accepted answer says what the honest one says.
  lemma VerifySound(vc: Scheme, b: Radix, derive: Deriver, root: Ref, query: Selector, answer: Answer)
    requires vc.Binding() && Verified(vc, b, derive, root, query, answer) == Ok(true)
    ensures LikeAnswer(answer, Proven(vc, b, derive, root, query))
  {
    hide Traverse, CheckFrom, Scheme.Binding;
    var c := CheckSelector(derive, root.layout, query);
    var claim := Found(answer.present, answer.target, answer.proof.nodes);
    CheckSound(vc, b, derive, Start(root, c.value), query, claim);
  }

  // What an accepted answer has shown, said of the answer alone.
  ghost predicate Convinces(vc: Scheme, b: Radix, derive: Deriver, root: Ref, query: Selector, answer: Answer) {
    var nodes, c := answer.proof.nodes, query.coordinate;
    && answer.proof.format == "malt.binding/1" && 1 <= |nodes| <= 256 && (answer.present <==> answer.target.Some?)
    && Shows(vc, b, root, 0, query, nodes)
    && Ends(b, derive, 0, if c.AtIndex? then c.index else 0, query, Found(answer.present, answer.target, nodes))
    && (c.AtIndex? ==> nodes[0].metadata.Meta? && (answer.present <==> c.index < nodes[0].metadata.count))
  }

  lemma VerifiedShows(vc: Scheme, b: Radix, derive: Deriver, root: Ref, query: Selector, answer: Answer)
    requires Verified(vc, b, derive, root, query, answer) == Ok(true)
    ensures Selects(derive, root.layout, query) && Convinces(vc, b, derive, root, query, answer)
  {
    hide CheckFrom, Shows, Shown, OtherLeaf;
    var claim := Found(answer.present, answer.target, answer.proof.nodes);
    var at := Start(root, query.coordinate);
    CheckSelectorIs(derive, root.layout, query);
    CheckShows(vc, b, derive, at, query, claim);
    if query.coordinate.AtIndex? {
      CheckCount(vc, b, derive, at, query, claim);
    }
  }

  lemma CheckCount(vc: Scheme, b: Radix, derive: Deriver, at: Place, query: Selector, claim: Found)
    requires query.coordinate.AtIndex? && at.depth == 0 && CheckFrom(vc, b, derive, at, query, claim) == Ok(true)
    ensures claim.nodes != [] && claim.nodes[0].metadata.Meta?
    ensures at.index >= claim.nodes[0].metadata.count ==> !claim.present
  {
    hide HeightOf, Position.Child, Position.SlotOf;
    var rest := Found(claim.present, claim.target, claim.nodes[1..]);
    assert CheckList(vc, b, derive, at, query, claim, claim.nodes[0], |claim.nodes| == 1, rest) == Ok(true);
  }

  // No evidence stands where there is nothing to show.
  lemma NothingStray(vc: Scheme, b: Radix, derive: Deriver, root: Ref, query: Selector, answer: Answer)
    requires Convinces(vc, b, derive, root, query, answer)
    ensures forall n :: n in answer.proof.nodes ==> (
      && (n.metadata == Blank ==> n.metadataProof == [])
      && (query.coordinate.AtIndex? && n.cell == Blank ==> n.proof == []))
  {
    hide Ends, VerifyOpening;
  }

  // The honest answer is accepted.
  lemma VerifyComplete(vc: Scheme, b: Radix, derive: Deriver, root: Ref, query: Selector, answer: Answer)
    requires vc.Opens() && Proven(vc, b, derive, root, query) == Ok(answer)
    ensures Verified(vc, b, derive, root, query, answer) == Ok(true)
  {
    hide Traverse, CheckFrom, Scheme.Opens;
    var c := CheckSelector(derive, root.layout, query);
    var claim := Found(answer.present, answer.target, answer.proof.nodes);
    var found := Traverse(vc, b, derive, Start(root, c.value), query);
    assert found.Ok? && found.value == claim;
    CheckComplete(vc, b, derive, Start(root, c.value), query, claim);
  }

  // No root has two accepted answers that disagree.
  lemma VerifyUnequivocal(vc: Scheme, b: Radix, derive: Deriver, root: Ref, query: Selector, x: Answer, y: Answer)
    requires vc.Binding() && Verified(vc, b, derive, root, query, x) == Ok(true)
    requires Verified(vc, b, derive, root, query, y) == Ok(true)
    ensures x.present == y.present && x.target == y.target && SameCells(x.proof.nodes, y.proof.nodes)
  {
    hide Proven, Verified, Scheme.Binding;
    VerifySound(vc, b, derive, root, query, x);
    VerifySound(vc, b, derive, root, query, y);
  }

  // ---- What proofs say about canonical roots ----

  // What a traversal or an answer says, without its evidence.
  type Said = Result<(bool, Option<Target>), Error>

  function SaidFound(r: Result<Found, Error>): Said {
    if r.Err? then Err(r.error) else Ok((r.value.present, r.value.target))
  }

  function SaidAnswer(r: Result<Answer, Error>): Said {
    if r.Err? then Err(r.error) else Ok((r.value.present, r.value.target))
  }

  // A label is present exactly when the current binding of its key is its own, with
  // that target; another label there is a collision, never absence.
  function MapTruth(cur: Option<Entry>, name: Label): Said {
    if cur == None then Ok((false, None))
    else if cur.value.name != name then Err(Collision)
    else Ok((true, Some(cur.value.target)))
  }

  lemma {:induction false} TraverseMap(vc: Scheme, b: Radix, derive: Deriver, at: Place, query: Selector,
                                       m: map<Key, Entry>, path: seq<nat>)
    requires query.coordinate.AtKey? && derive(query.name) == Some(query.coordinate) && at.depth == |path|
    requires IsMapNode(b, derive, at.ref, m, path) && OnPath(b, query.coordinate.key, path)
    ensures SaidFound(Traverse(vc, b, derive, at, query)) == MapTruth(Look(m, query.coordinate.key), query.name)
    decreases KEY_BITS - Min(|path|, KEY_BITS)
  {
    hide MapNode, MapCell, Digit, OnPath, Traverse, SameRoute;
    var key := query.coordinate.key;
    var slot := Digit(b, key, |path|);
    var g := GroupOf(b, m, |path|, slot);
    IsMapPrefixed(b, derive, at.ref, m, path);
    MapMeta(b, m, |path|);
    DepthBound(b, |path|);
    TraverseUnfold(vc, b, derive, at, query);
    assert Look(g, key) == Look(m, key);
    var cell := at.ref.cells[slot];
    if cell != Blank && Tag(cell) == CHILD_NODE {
      SubtreeIs(b, derive, at.ref, m, path, slot);
      PathSnoc(b, key, path);
      var next := Place(cell.ref, at.depth + 1, at.pos, at.index);
      TraverseMap(vc, b, derive, next, query, g, path + [slot]);
    } else {
      TraverseLeaf(vc, b, derive, at, query, m, path);
    }
  }

  lemma TraverseLeaf(vc: Scheme, b: Radix, derive: Deriver, at: Place, query: Selector, m: map<Key, Entry>,
                     path: seq<nat>)
    requires query.coordinate.AtKey? && derive(query.name) == Some(query.coordinate) && at.depth == |path|
    requires IsMapNode(b, derive, at.ref, m, path) && OnPath(b, query.coordinate.key, path)
    requires DepthOk(b, |path|) && |at.ref.cells| == Slots(b) && at.depth < MAX_DEPTH
    requires var cell := at.ref.cells[Digit(b, query.coordinate.key, |path|)]; cell == Blank || Tag(cell) != CHILD_NODE
    ensures SaidFound(Traverse(vc, b, derive, at, query)) == MapTruth(Look(m, query.coordinate.key), query.name)
  {
    hide MapNode, MapCell, Digit, OnPath, Traverse, SameRoute, IsMapNode;
    var key := query.coordinate.key;
    var slot := Digit(b, key, |path|);
    var g := GroupOf(b, m, |path|, slot);
    var cell := at.ref.cells[slot];
    TraverseUnfold(vc, b, derive, at, query);
    assert Look(g, key) == Look(m, key);
    LeafIs(b, derive, at.ref, m, path, slot, key);
    if cell != Blank {
      var k :| g == map[k := Entry(cell.name, cell.target)] && derive(cell.name) == Some(AtKey(k))
        && OnPath(b, k, path + [slot]);
      PathSnoc(b, key, path);
      SharedRoute(b, k, key, path + [slot]);
      assert |path + [slot]| - 1 == at.depth;
      assert SameRoute(b, k, key, at.depth);
    }
  }

  lemma PathSnoc(b: Radix, key: Key, path: seq<nat>)
    requires OnPath(b, key, path)
    ensures OnPath(b, key, path + [Digit(b, key, |path|)])
  {
  }

  lemma SharedRoute(b: Radix, leaf: Key, key: Key, path: seq<nat>)
    requires OnPath(b, leaf, path) && OnPath(b, key, path) && path != [] && DepthOk(b, |path| - 1)
    ensures SameRoute(b, leaf, key, |path| - 1)
  {
    forall d | 0 <= d <= |path| - 1
      ensures Digit(b, leaf, d) == Digit(b, key, d)
    {
      assert Digit(b, leaf, d) == path[d];
    }
  }

  lemma TraverseUnfold(vc: Scheme, b: Radix, derive: Deriver, at: Place, query: Selector)
    requires at.depth < MAX_DEPTH
    ensures var step, r := StepAt(vc, b, derive, at, query), Traverse(vc, b, derive, at, query);
      && (step.Fail? ==> r == Err(step.error))
      && (step.Stop? && step.answer.Err? ==> r == Err(step.answer.error))
      && (step.Stop? && step.answer.Ok? ==>
          r == Ok(Found(step.answer.value.0, step.answer.value.1, [step.opening])))
      && (step.Descend? ==> r == Onward(step.opening, Traverse(vc, b, derive, step.next, query)))
  {
  }

  function Onward(opening: NodeOpening, rest: Result<Found, Error>): Result<Found, Error> {
    if rest.Err? then rest else Ok(rest.value.Behind(opening))
  }

  lemma ProvenMap(vc: Scheme, b: Radix, derive: Deriver, root: Ref, m: map<Key, Entry>, key: Key, name: Label)
    requires CanonicalMap(b, derive, root, m) && derive(name) == Some(AtKey(key))
    ensures SaidAnswer(Proven(vc, b, derive, root, Selector(AtKey(key), name))) == MapTruth(Look(m, key), name)
  {
    hide Traverse, MapNode;
    MapMeta(b, m, 0);
    TraverseMap(vc, b, derive, Start(root, AtKey(key)), Selector(AtKey(key), name), m, []);
  }

  // Below the root of a canonical List every index leads to its own target.
  lemma {:induction false} TraverseList(vc: Scheme, b: Radix, derive: Deriver, at: Place, query: Selector,
                                        items: seq<Target>, kind: Kind)
    requires query.coordinate.AtIndex? && |items| == at.pos.count && at.pos.root == kind.Root? && at.pos.Fits(b)
    requires at.ref == ListNode(b, items, at.pos.height, kind) && at.index < |items|
    requires at.depth + at.pos.height < MAX_DEPTH
    requires Enter(b, at) == Ok(at)
    ensures SaidFound(Traverse(vc, b, derive, at, query)) == Ok((true, Some(items[at.index])))
    decreases at.pos.height
  {
    hide ListNode, Traverse, Position.Fits, Position.Child, HeightOf, Position.SlotOf, StepAt, Enter;
    TraverseUnfold(vc, b, derive, at, query);
    if at.pos.height == 0 {
      ListLeafStep(vc, b, derive, at, query, items, kind);
    } else {
      var below := ListInnerStep(vc, b, derive, at, query, items, kind);
      TraverseList(vc, b, derive, StepAt(vc, b, derive, at, query).next, query, below, Inner);
    }
  }

  // A leaf vector stops with the item at the index.
  lemma ListLeafStep(vc: Scheme, b: Radix, derive: Deriver, at: Place, query: Selector, items: seq<Target>, kind: Kind)
    requires query.coordinate.AtIndex? && |items| == at.pos.count && at.pos.root == kind.Root? && at.pos.Fits(b)
    requires at.ref == ListNode(b, items, 0, kind) && at.index < |items| && at.pos.height == 0 && Enter(b, at) == Ok(at)
    ensures var step := StepAt(vc, b, derive, at, query);
      step.Stop? && step.answer == Ok((true, Some(items[at.index])))
  {
    hide ListNode, ListCell, Span, Times, Position.Fits, Position.Used, Position.Child, HeightOf, Position.SlotOf;
    var d := at.pos.SlotOf(at.index, b) - at.pos.Base();
    CanonicalMeta(b, items, 0, kind);
    SlotExact(at.pos, at.index, b);
    CanonicalCell(b, items, 0, kind, d);
    LeafSpan(b, d);
  }

  // An inner vector descends to the canonical vector of the items below the slot.
  lemma ListInnerStep(vc: Scheme, b: Radix, derive: Deriver, at: Place, query: Selector, items: seq<Target>, kind: Kind)
    returns (below: seq<Target>)
    requires query.coordinate.AtIndex? && |items| == at.pos.count && at.pos.root == kind.Root? && at.pos.Fits(b)
    requires at.ref == ListNode(b, items, at.pos.height, kind) && at.index < |items| && at.pos.height > 0
    requires Enter(b, at) == Ok(at)
    ensures var step := StepAt(vc, b, derive, at, query);
      && step.Descend? && step.next.depth == at.depth + 1 && step.next.pos.height == at.pos.height - 1
      && |below| == step.next.pos.count && !step.next.pos.root && step.next.pos.Fits(b)
      && step.next.ref == ListNode(b, below, step.next.pos.height, Inner)
      && step.next.index < |below| && below[step.next.index] == items[at.index]
      && Enter(b, step.next) == Ok(step.next)
  {
    hide ListNode, ListCell, Span, Times, Position.Fits, Position.Used, Position.Child, HeightOf, Position.SlotOf;
    var p, slot := at.pos, at.pos.SlotOf(at.index, b);
    var d := slot - p.Base();
    CanonicalMeta(b, items, p.height, kind);
    SlotExact(p, at.index, b);
    CanonicalChild(b, items, p, kind, d);
    ChildExact(p, d, b);
    var (child, start) := p.Child(d, b);
    SubExact(at.index, start);
    below := items[start..start + child.count];
    CanonicalMeta(b, below, child.height, Inner);
  }

  // On the canonical List of items, an index is present exactly when it is below
  // the count, with the item at that index.
  lemma ProvenList(vc: Scheme, b: Radix, derive: Deriver, items: seq<Target>, payload: Option<Target>, index: U64,
                   name: Label)
    requires |items| < TWO64 && derive(name) == Some(AtIndex(index))
    ensures var r := Proven(vc, b, derive, ListRoot(b, items, payload), Selector(AtIndex(index), name));
      && r.Ok? && (r.value.present <==> index < |items|)
      && r.value.target == (if index < |items| then Some(items[index]) else None)
      && r.value.proof.nodes != [] && r.value.proof.nodes[0].metadata == Meta(|items|, payload)
  {
    hide ListNode, ListCell, Traverse, HeightOf, Position.Fits, Position.Used, Position.SlotOf, Position.Child;
    var root, p := ListRoot(b, items, payload), RootPos(|items|, b);
    var query := Selector(AtIndex(index), name);
    CanonicalMeta(b, items, p.height, Root(payload));
    RootPositionIsLeast(|items|, b);
    RootHeightBound(|items|, b);
    var at := Start(root, AtIndex(index));
    TraverseUnfold(vc, b, derive, at, query);
    if index < |items| {
      var entered := at.(pos := p);
      TraverseUnfold(vc, b, derive, entered, query);
      assert StepAt(vc, b, derive, entered, query) == StepAt(vc, b, derive, at, query);
      TraverseList(vc, b, derive, entered, query, items, Root(payload));
    }
    FirstMetadata(vc, b, derive, at, query);
  }

  // The first opening of a List proof carries the root's metadata.
  lemma FirstMetadata(vc: Scheme, b: Radix, derive: Deriver, at: Place, query: Selector)
    requires at.depth == 0 && at.ref.layout == ListLayout && query.coordinate.AtIndex? && |at.ref.cells| == Slots(b)
    ensures var r := Traverse(vc, b, derive, at, query);
      r.Ok? ==> r.value.nodes[0].metadata == at.ref.cells[0] && r.value.nodes[0].metadataProof == vc.open(at.ref, 0)
  {
    hide Traverse, Position.SlotOf, Position.Child, HeightOf;
    TraverseUnfold(vc, b, derive, at, query);
  }
}
