// The path prover and verifier as the loops that run them.
module Prover {
  import opened Words
  import opened Geometry
  import opened Nodes
  import opened Coordinates
  import opened MapTree
  import opened MapUpdate
  import opened Evidence
  import opened Proofs

  // A prover with partial storage may stop early, and only for that reason.
  ghost predicate Attempt<T>(full: bool, r: Result<T, Error>, honest: Result<T, Error>) {
    r == honest || (!full && r == Err(Incomplete))
  }

  // What the prover reports of a step.
  ghost predicate TookStep(full: bool, got: Step, honest: Step) {
    got == honest || (!full && got == Fail(Incomplete))
  }

  // Reads an opened Map leaf for a query.
  method ReadLeaf(b: Radix, derive: Deriver, cell: Cell, depth: nat, key: Key, name: Label)
    returns (r: Result<(bool, Option<Target>), Error>)
    ensures r == LeafAnswer(b, derive, cell, depth, key, name)
  {
    var leaf := ParseMap(cell);
    if leaf.Err? {
      return Err(leaf.error);
    }
    var (stored, target) := leaf.value;
    var at := LabelCoordinate(derive, MapLayout, stored);
    if at.Err? {
      return Err(at.error);
    }
    var ok := CheckLeafRoute(b, at.value.key, key, depth);
    if !ok {
      return Err(BadNode);
    }
    if at.value.key == key && stored != name {
      return Err(Collision);
    }
    return Ok(if stored == name then (true, Some(target)) else (false, None));
  }

  method TakeMapStep(derive: Deriver, at: Place, key: Key, name: Label, work: ProofWork) returns (step: Step)
    requires work.Valid() && at.ref.layout == MapLayout
    modifies work
    ensures work.Valid()
    ensures TookStep(at.ref in work.source, step, StepAt(work.vc, work.b, derive, at, Selector(AtKey(key), name)))
  {
    hide Digit, LeafAnswer;
    var loaded := work.Load(at.ref);
    if loaded.Err? {
      return Fail(loaded.error);
    }
    var slot := ComputeDigit(work.b, key, at.depth);
    if slot.Err? {
      return Fail(slot.error);
    }
    var got := work.Open(at.ref, slot.value);
    var (cell, proof) := got.value;
    var opening := NodeOpening(cell, proof, Blank, NO_PROOF);
    if cell == Blank {
      return Stop(Ok((false, None)), opening);
    }
    if Tag(cell) == MAP_LEAF {
      var answer := ReadLeaf(work.b, derive, cell, at.depth, key, name);
      return Stop(answer, opening);
    }
    var child := ParseChild(cell, at.ref);
    if child.Err? {
      return Fail(child.error);
    }
    return Descend(Place(child.value, at.depth + 1, at.pos, at.index), opening);
  }

  method TakeListStep(derive: Deriver, start: Place, query: Selector, work: ProofWork) returns (step: Step)
    requires work.Valid() && start.ref.layout == ListLayout && query.coordinate.AtIndex?
    modifies work
    ensures work.Valid()
    ensures TookStep(start.ref in work.source, step, StepAt(work.vc, work.b, derive, start, query))
  {
    hide HeightOf;
    var at := start;
    var loaded := work.Load(at.ref);
    if loaded.Err? {
      return Fail(loaded.error);
    }
    var opening := NodeOpening(Blank, NO_PROOF, Blank, NO_PROOF);
    if at.depth == 0 {
      var meta := work.Open(at.ref, 0);
      opening := NodeOpening(Blank, NO_PROOF, meta.value.0, meta.value.1);
      var parsed := ParseMetadata(meta.value.0);
      if parsed.Err? {
        return Fail(parsed.error);
      }
      var pos := RootPosition(parsed.value.count, work.b);
      at := at.(pos := pos);
      if at.index >= parsed.value.count {
        return Stop(Ok((false, None)), opening);
      }
    }
    var slot := at.pos.SlotOf(at.index, work.b);
    var got := work.Open(at.ref, slot);
    if got.Err? {
      return Fail(got.error);
    }
    opening := opening.(cell := got.value.0, proof := got.value.1);
    if opening.cell == Blank {
      return Fail(BadNode);
    }
    if at.pos.height == 0 {
      var target := ParseList(opening.cell);
      if target.Err? {
        return Fail(target.error);
      }
      return Stop(Ok((true, Some(target.value))), opening);
    }
    var child := ParseChild(opening.cell, at.ref);
    if child.Err? {
      return Fail(child.error);
    }
    var (pos, first) := at.pos.Child(slot - at.pos.Base(), work.b);
    return Descend(Place(child.value, at.depth + 1, pos, Sub(at.index, first)), opening);
  }

  // A descent goes to a child of the vector, of the same layout.
  lemma DescendsToChild(vc: Scheme, b: Radix, derive: Deriver, at: Place, query: Selector)
    ensures var step := StepAt(vc, b, derive, at, query);
      && (step.Descend? ==> step.next.ref.layout == at.ref.layout && step.next.depth == at.depth + 1)
      && (step.Descend? ==> Child(step.next.ref) in at.ref.cells)
  {
    hide HeightOf, Position.SlotOf, Position.Child, Digit, LeafAnswer;
  }

  // Openings already produced come before those still to come.
  function Continued(done: seq<NodeOpening>, rest: Result<Found, Error>): Result<Found, Error> {
    if rest.Err? then rest else Ok(rest.value.(nodes := done + rest.value.nodes))
  }

  // Proves a selector against a root. The result is the honest answer; only a
  // vector missing from storage can stop it, and then nothing is claimed.
  method Prove(derive: Deriver, root: Ref, query: Selector, work: ProofWork) returns (r: Result<Answer, Error>)
    requires work.Valid()
    modifies work
    ensures work.Valid()
    ensures Attempt(Complete(work.source, root), r, Proven(work.vc, work.b, derive, root, query))
    ensures r.Ok? ==> Selects(derive, root.layout, query)
    ensures !Selects(derive, root.layout, query) ==> r == Err(BadSelector)
  {
    hide Traverse, StepAt;
    CheckSelectorIs(derive, root.layout, query);
    var vc, b := work.vc, work.b;
    var c := CheckSelector(derive, root.layout, query);
    if c.Err? {
      return Err(c.error);
    }
    var at := Start(root, c.value);
    var nodes: seq<NodeOpening> := [];
    ghost var honest := Traverse(vc, b, derive, at, query);
    ContinuedNone(honest);
    while at.depth < MAX_DEPTH
      invariant work.Valid() && at.depth <= MAX_DEPTH && at.ref.layout == root.layout
      invariant honest == Continued(nodes, Traverse(vc, b, derive, at, query))
      invariant Complete(work.source, root) ==> Complete(work.source, at.ref)
      decreases MAX_DEPTH - at.depth
    {
      TraverseUnfold(vc, b, derive, at, query);
      DescendsToChild(vc, b, derive, at, query);
      var step;
      if root.layout == MapLayout {
        step := TakeMapStep(derive, at, query.coordinate.key, query.name, work);
      } else {
        step := TakeListStep(derive, at, query, work);
      }
      match step
      case Fail(e) => return Err(e);
      case Stop(answer, opening) =>
        if answer.Err? {
          return Err(answer.error);
        }
        return Ok(Answer(answer.value.0, answer.value.1, Proof(PROOF_FORMAT, nodes + [opening])));
      case Descend(next, opening) =>
        ContinuedSnoc(nodes, opening, Traverse(vc, b, derive, next, query));
        nodes := nodes + [opening];
        at := next;
    }
    TraverseDeep(vc, b, derive, at, query);
    return Err(BadNode);
  }

  lemma ContinuedNone(rest: Result<Found, Error>)
    ensures Continued([], rest) == rest
  {
    if rest.Ok? {
      assert [] + rest.value.nodes == rest.value.nodes;
    }
  }

  lemma ContinuedSnoc(done: seq<NodeOpening>, opening: NodeOpening, rest: Result<Found, Error>)
    ensures Continued(done, Onward(opening, rest)) == Continued(done + [opening], rest)
  {
    if rest.Ok? {
      assert done + ([opening] + rest.value.nodes) == done + [opening] + rest.value.nodes;
    }
  }

  lemma TraverseDeep(vc: Scheme, b: Radix, derive: Deriver, at: Place, query: Selector)
    requires at.depth >= MAX_DEPTH
    ensures Traverse(vc, b, derive, at, query) == Err(BadNode)
  {
  }

  // The part of a claim whose openings are not yet checked.
  function Unchecked(answer: Answer, i: nat): Found
    requires i <= |answer.proof.nodes|
  {
    Found(answer.present, answer.target, answer.proof.nodes[i..])
  }

  // What one opening decides: the verdict, or where the path goes next.
  datatype Judgement = Verdict(r: Result<bool, Error>) | Onto(next: Place)

  ghost predicate Judges(vc: Scheme, b: Radix, derive: Deriver, at: Place, query: Selector, answer: Answer, i: nat,
                         j: Judgement)
    requires i < |answer.proof.nodes|
  {
    CheckFrom(vc, b, derive, at, query, Unchecked(answer, i))
      == if j.Verdict? then j.r else CheckFrom(vc, b, derive, j.next, query, Unchecked(answer, i + 1))
  }

  method JudgeMap(vc: Scheme, b: Radix, derive: Deriver, at: Place, query: Selector, answer: Answer,
                  i: nat) returns (j: Judgement)
    requires query.coordinate.AtKey? && i < |answer.proof.nodes|
    ensures Judges(vc, b, derive, at, query, answer, i, j)
    ensures j.Onto? ==> i + 1 < |answer.proof.nodes|
  {
    hide Digit, CheckLeaf;
    ghost var claim := Unchecked(answer, i);
    CheckUnfold(vc, b, derive, at, query, answer, i);
    var opening, last := answer.proof.nodes[i], i == |answer.proof.nodes| - 1;
    if opening.metadata != Blank || opening.metadataProof != NO_PROOF {
      return Verdict(Ok(false));
    }
    var slot := ComputeDigit(b, query.coordinate.key, at.depth);
    if slot.Err? {
      return Verdict(Err(slot.error));
    }
    if !VerifyOpening(vc, b, at.ref, slot.value, opening.cell, opening.proof) {
      return Verdict(Ok(false));
    }
    if opening.cell == Blank {
      return Verdict(Ok(last && !answer.present));
    }
    if Tag(opening.cell) == MAP_LEAF {
      var key := query.coordinate.key;
      var verdict := JudgeLeaf(b, derive, opening.cell, at.depth, key, query.name, claim, answer, last);
      return Verdict(verdict);
    }
    if last {
      return Verdict(Ok(false));
    }
    var child := ParseChild(opening.cell, at.ref);
    if child.Err? {
      return Verdict(Err(child.error));
    }
    return Onto(Place(child.value, at.depth + 1, at.pos, at.index));
  }

  method JudgeLeaf(b: Radix, derive: Deriver, cell: Cell, depth: nat, key: Key, name: Label,
                   ghost claim: Found, answer: Answer, last: bool) returns (r: Result<bool, Error>)
    requires claim.present == answer.present && claim.target == answer.target
    ensures r == CheckLeaf(b, derive, cell, depth, key, name, claim, last)
  {
    var leaf := ParseMap(cell);
    if leaf.Err? {
      return Err(leaf.error);
    }
    var (stored, target) := leaf.value;
    var at := LabelCoordinate(derive, MapLayout, stored);
    if at.Err? {
      return Err(at.error);
    }
    var ok := CheckLeafRoute(b, at.value.key, key, depth);
    if !ok {
      return Err(BadNode);
    }
    if !last {
      return Ok(false);
    }
    if at.value.key == key && stored != name {
      return Err(Collision);
    }
    if answer.present {
      return Ok(stored == name && answer.target == Some(target));
    }
    return Ok(stored != name && at.value.key != key);
  }

  method JudgeList(vc: Scheme, b: Radix, derive: Deriver, start: Place, query: Selector, answer: Answer,
                   i: nat) returns (j: Judgement)
    requires query.coordinate.AtIndex? && i < |answer.proof.nodes|
    ensures Judges(vc, b, derive, start, query, answer, i, j)
    ensures j.Onto? ==> i + 1 < |answer.proof.nodes|
  {
    hide HeightOf;
    CheckUnfold(vc, b, derive, start, query, answer, i);
    var opening, last := answer.proof.nodes[i], i == |answer.proof.nodes| - 1;
    var at := start;
    if at.depth == 0 {
      if !VerifyOpening(vc, b, at.ref, 0, opening.metadata, opening.metadataProof) {
        return Verdict(Ok(false));
      }
      var meta := ParseMetadata(opening.metadata);
      if meta.Err? {
        return Verdict(Err(meta.error));
      }
      var pos := RootPosition(meta.value.count, b);
      at := at.(pos := pos);
      if at.index >= meta.value.count {
        return Verdict(Ok(last && !answer.present && opening.cell == Blank && opening.proof == NO_PROOF));
      }
    } else if opening.metadata != Blank || opening.metadataProof != NO_PROOF {
      return Verdict(Ok(false));
    }
    var slot := at.pos.SlotOf(at.index, b);
    if !VerifyOpening(vc, b, at.ref, slot, opening.cell, opening.proof) || opening.cell == Blank {
      return Verdict(Ok(false));
    }
    if at.pos.height == 0 {
      var target := ParseList(opening.cell);
      if target.Err? {
        return Verdict(Err(target.error));
      }
      return Verdict(Ok(last && answer.present && answer.target == Some(target.value)));
    }
    if last {
      return Verdict(Ok(false));
    }
    var child := ParseChild(opening.cell, at.ref);
    if child.Err? {
      return Verdict(Err(child.error));
    }
    var (pos, first) := at.pos.Child(slot - at.pos.Base(), b);
    return Onto(Place(child.value, at.depth + 1, pos, Sub(at.index, first)));
  }

  lemma CheckUnfold(vc: Scheme, b: Radix, derive: Deriver, at: Place, query: Selector, answer: Answer, i: nat)
    requires i < |answer.proof.nodes|
    ensures var claim, rest := Unchecked(answer, i), Unchecked(answer, i + 1);
      var opening, last := answer.proof.nodes[i], i == |answer.proof.nodes| - 1;
      CheckFrom(vc, b, derive, at, query, claim)
        == if query.coordinate.AtKey? then CheckMap(vc, b, derive, at, query, claim, opening, last, rest)
           else CheckList(vc, b, derive, at, query, claim, opening, last, rest)
  {
    assert answer.proof.nodes[i..][1..] == answer.proof.nodes[i + 1..];
  }

  // Binds evidence to the caller's root and exact label.
  method Verify(vc: Scheme, b: Radix, derive: Deriver, root: Ref, query: Selector,
                answer: Answer) returns (r: Result<bool, Error>)
    ensures r == Verified(vc, b, derive, root, query, answer)
    ensures vc.Binding() && r == Ok(true) ==> LikeAnswer(answer, Proven(vc, b, derive, root, query))
    ensures vc.Opens() && Proven(vc, b, derive, root, query) == Ok(answer) ==> r == Ok(true)
    ensures r.Ok? ==> Selects(derive, root.layout, query)
    ensures !Selects(derive, root.layout, query) ==> r == Err(BadSelector)
    ensures r == Ok(true) ==> Convinces(vc, b, derive, root, query, answer)
    ensures r == Ok(true) ==> forall n :: n in answer.proof.nodes ==> (
      && (n.metadata == Blank ==> n.metadataProof == [])
      && (root.layout == ListLayout && n.cell == Blank ==> n.proof == []))
  {
    hide CheckFrom, Judges, Proven, Scheme.Binding, Scheme.Opens, Convinces;
    CheckSelectorIs(derive, root.layout, query);
    if Verified(vc, b, derive, root, query, answer) == Ok(true) {
      VerifiedShows(vc, b, derive, root, query, answer);
      NothingStray(vc, b, derive, root, query, answer);
    }
    if vc.Binding() && Verified(vc, b, derive, root, query, answer) == Ok(true) {
      VerifySound(vc, b, derive, root, query, answer);
    }
    if vc.Opens() && Proven(vc, b, derive, root, query) == Ok(answer) {
      VerifyComplete(vc, b, derive, root, query, answer);
    }
    var c := CheckSelector(derive, root.layout, query);
    if c.Err? {
      return Err(c.error);
    }
    var nodes := answer.proof.nodes;
    if answer.proof.format != PROOF_FORMAT || |nodes| == 0 || |nodes| > MAX_DEPTH {
      return Err(BadNode);
    }
    if answer.present != answer.target.Some? {
      return Err(BadNode);
    }
    var at := Start(root, c.value);
    assert nodes[0..] == nodes;
    for depth := 0 to |nodes|
      invariant Verified(vc, b, derive, root, query, answer)
        == CheckFrom(vc, b, derive, at, query, Unchecked(answer, depth))
    {
      var j;
      if root.layout == MapLayout {
        j := JudgeMap(vc, b, derive, at, query, answer, depth);
      } else {
        j := JudgeList(vc, b, derive, at, query, answer, depth);
      }
      JudgesIs(vc, b, derive, at, query, answer, depth, j);
      match j
      case Verdict(v) => return v;
      case Onto(next) => at := next;
    }
    CheckEmpty(vc, b, derive, at, query, answer);
    return Ok(false);
  }

  lemma JudgesIs(vc: Scheme, b: Radix, derive: Deriver, at: Place, query: Selector, answer: Answer, i: nat,
                 j: Judgement)
    requires i < |answer.proof.nodes| && Judges(vc, b, derive, at, query, answer, i, j)
    ensures CheckFrom(vc, b, derive, at, query, Unchecked(answer, i))
      == if j.Verdict? then j.r else CheckFrom(vc, b, derive, j.next, query, Unchecked(answer, i + 1))
  {
  }

  lemma CheckEmpty(vc: Scheme, b: Radix, derive: Deriver, at: Place, query: Selector, answer: Answer)
    ensures CheckFrom(vc, b, derive, at, query, Unchecked(answer, |answer.proof.nodes|)) == Ok(false)
  {
  }
}
