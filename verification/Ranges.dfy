// Range evidence: one metadata opening and one segment for each index.
module Ranges {
  import opened Words
  import opened Geometry
  import opened Nodes
  import opened Coordinates
  import opened ListTree
  import opened Evidence
  import opened Proofs
  import opened Prover

  datatype RangeResult = RangeResult(metadata: Metadata, evidence: Answer, segments: seq<Answer>)

  // An index no list can hold: reading it opens the metadata alone.
  const MAX_INDEX: U64 := TWO64 - 1

  function IndexSelector(index: U64): Selector {
    Selector(AtIndex(index), EncodeIndex(index))
  }

  function RangeBounds(meta: Metadata, start: U64, end: Option<U64>): Result<(U64, U64), Error> {
    var stop := if end.Some? then end.value else meta.count;
    if start > stop || stop > meta.count then Err(OutOfRange)
    else if start == stop then Ok((0, 0))
    else Ok((start, stop - start))
  }

  // The honest metadata evidence of a root.
  function ProvenMetadata(vc: Scheme, b: Radix, derive: Deriver, root: Ref): Result<(Metadata, Answer), Error> {
    if root.layout != ListLayout then Err(BadSelector) else
      var r := Proven(vc, b, derive, root, IndexSelector(MAX_INDEX));
      if r.Err? then Err(r.error) else
        var meta := ParseMetadata(r.value.proof.nodes[0].metadata);
        if meta.Err? then Err(meta.error) else Ok((meta.value, r.value))
  }

  // The honest segments of indices first .. first + count.
  function ProvenSegments(vc: Scheme, b: Radix, derive: Deriver, root: Ref, first: U64,
                          count: nat): (r: Result<seq<Answer>, Error>)
    requires first + count < TWO64
    ensures r.Ok? ==> |r.value| == count
  {
    if count == 0 then Ok([]) else
      var before := ProvenSegments(vc, b, derive, root, first, count - 1);
      if before.Err? then before else
        var segment := Proven(vc, b, derive, root, IndexSelector(first + count - 1));
        if segment.Err? then Err(segment.error)
        else if !segment.value.present then Err(BadNode)
        else Ok(before.value + [segment.value])
  }

  // Each honest segment is the honest answer for its index, and present.
  lemma {:induction false} SegmentsProven(vc: Scheme, b: Radix, derive: Deriver, root: Ref, first: U64, count: nat)
    requires first + count < TWO64
    ensures var r := ProvenSegments(vc, b, derive, root, first, count);
      r.Ok? ==> forall i :: 0 <= i < count ==> SegmentProven(vc, b, derive, root, first + i, r.value[i])
  {
    hide Proven, EncodeIndex;
    if count > 0 {
      SegmentsProven(vc, b, derive, root, first, count - 1);
      var r := ProvenSegments(vc, b, derive, root, first, count);
      if r.Ok? {
        assert SegmentProven(vc, b, derive, root, first + count - 1, r.value[count - 1]);
        assert r.value[..count - 1] == ProvenSegments(vc, b, derive, root, first, count - 1).value;
      }
    }
  }

  lemma SegmentAt(vc: Scheme, b: Radix, derive: Deriver, root: Ref, first: U64, segments: seq<Answer>, i: nat)
    requires first + |segments| < TWO64 && i < |segments|
    ensures ProvenSegments(vc, b, derive, root, first, |segments|) == Ok(segments) ==>
      SegmentProven(vc, b, derive, root, first + i, segments[i])
  {
    hide Proven, EncodeIndex, ProvenSegments, SegmentProven;
    SegmentsProven(vc, b, derive, root, first, |segments|);
  }

  ghost predicate SegmentProven(vc: Scheme, b: Radix, derive: Deriver, root: Ref, index: U64, segment: Answer) {
    segment.present && Proven(vc, b, derive, root, IndexSelector(index)) == Ok(segment)
  }

  function ProvenRange(vc: Scheme, b: Radix, derive: Deriver, root: Ref, start: U64,
                       end: Option<U64>): Result<RangeResult, Error> {
    var meta := ProvenMetadata(vc, b, derive, root);
    if meta.Err? then Err(meta.error) else
      var bounds := RangeBounds(meta.value.0, start, end);
      if bounds.Err? then Err(bounds.error) else
        var segments := ProvenSegments(vc, b, derive, root, bounds.value.0, bounds.value.1);
        if segments.Err? then Err(segments.error)
        else Ok(RangeResult(meta.value.0, meta.value.1, segments.value))
  }

  method ReadMetadata(derive: Deriver, root: Ref, work: ProofWork) returns (r: Result<(Metadata, Answer), Error>)
    requires work.Valid()
    modifies work
    ensures work.Valid()
    ensures Attempt(Complete(work.source, root), r, ProvenMetadata(work.vc, work.b, derive, root))
  {
    hide Proven, EncodeIndex;
    if root.layout != ListLayout {
      return Err(BadSelector);
    }
    var answer := Prove(derive, root, IndexSelector(MAX_INDEX), work);
    if answer.Err? {
      return Err(answer.error);
    }
    ProvenOpens(work.vc, work.b, derive, root, IndexSelector(MAX_INDEX));
    var meta := ParseMetadata(answer.value.proof.nodes[0].metadata);
    if meta.Err? {
      return Err(meta.error);
    }
    return Ok((meta.value, answer.value));
  }

  lemma ProvenOpens(vc: Scheme, b: Radix, derive: Deriver, root: Ref, query: Selector)
    ensures var r := Proven(vc, b, derive, root, query);
      r.Ok? ==> 0 < |r.value.proof.nodes| <= MAX_DEPTH
  {
  }

  // One cache serves the metadata and every segment; the evidence is the same as
  // that of independent proofs.
  method ProveRange(vc: Scheme, b: Radix, derive: Deriver, root: Ref, start: U64, end: Option<U64>, source: set<Ref>)
    returns (r: Result<RangeResult, Error>)
    requires vc.Opens()
    ensures Attempt(Complete(source, root), r, ProvenRange(vc, b, derive, root, start, end))
  {
    hide Proven, EncodeIndex, ProvenMetadata, Complete, Scheme.Opens;
    var work := new ProofWork(vc, b, source);
    var meta := ReadMetadata(derive, root, work);
    if meta.Err? {
      return Err(meta.error);
    }
    var bounds := RangeBounds(meta.value.0, start, end);
    if bounds.Err? {
      return Err(bounds.error);
    }
    var (first, count) := bounds.value;
    var segments: seq<Answer> := [];
    for offset := 0 to count
      invariant work.Valid() && work.vc == vc && work.b == b && work.source == source
      invariant ProvenSegments(vc, b, derive, root, first, offset) == Ok(segments)
    {
      var segment := Prove(derive, root, IndexSelector(first + offset), work);
      if segment.Err? || !segment.value.present {
        if segment == Proven(vc, b, derive, root, IndexSelector(first + offset)) {
          SegmentStops(vc, b, derive, root, first, offset, count);
        }
        return Err(if segment.Err? then segment.error else BadNode);
      }
      segments := segments + [segment.value];
    }
    return Ok(RangeResult(meta.value.0, meta.value.1, segments));
  }

  // A segment that cannot be proved fails the whole range the same way.
  lemma {:induction false} SegmentStops(vc: Scheme, b: Radix, derive: Deriver, root: Ref, first: U64, offset: nat,
                                        count: nat)
    requires first + count < TWO64 && offset < count && ProvenSegments(vc, b, derive, root, first, offset).Ok?
    requires var segment := Proven(vc, b, derive, root, IndexSelector(first + offset));
      segment.Err? || !segment.value.present
    ensures ProvenSegments(vc, b, derive, root, first, count)
      == Err(var segment := Proven(vc, b, derive, root, IndexSelector(first + offset));
             if segment.Err? then segment.error else BadNode)
  {
    hide Proven, EncodeIndex;
    if offset + 1 < count {
      SegmentStops(vc, b, derive, root, first, offset, count - 1);
    }
  }

  ghost predicate LikeSegments(segments: seq<Answer>, honest: seq<Answer>) {
    |segments| == |honest| && forall i :: 0 <= i < |segments| ==> LikeAnswer(segments[i], Ok(honest[i]))
  }

  // The same metadata and the same targets, whatever the evidence.
  ghost predicate LikeRange(range: RangeResult, honest: Result<RangeResult, Error>) {
    && honest.Ok? && range.metadata == honest.value.metadata
    && LikeAnswer(range.evidence, Ok(honest.value.evidence)) && LikeSegments(range.segments, honest.value.segments)
  }

  // What an accepted range has shown, said of the evidence alone: bounds within the
  // authenticated count, and one present answer for each index of the slice.
  ghost predicate RangeConvinces(vc: Scheme, b: Radix, derive: Deriver, root: Ref, start: U64, end: Option<U64>,
                                 result: RangeResult) {
    var stop := if end.Some? then end.value else result.metadata.count;
    && Convinces(vc, b, derive, root, IndexSelector(TWO64 - 1), result.evidence)
    && ParseMetadata(result.evidence.proof.nodes[0].metadata) == Ok(result.metadata)
    && start <= stop <= result.metadata.count && |result.segments| == stop - start
    && forall i :: 0 <= i < |result.segments| ==> (
        result.segments[i].present && Convinces(vc, b, derive, root, IndexSelector(start + i), result.segments[i]))
  }

  // An accepted range says what the honest one says, and the honest one is accepted.
  method VerifyRange(vc: Scheme, b: Radix, derive: Deriver, root: Ref, start: U64, end: Option<U64>,
                     result: RangeResult)
    returns (r: Result<bool, Error>)
    requires vc.Binding() && vc.Opens()
    ensures r == Ok(true) ==> LikeRange(result, ProvenRange(vc, b, derive, root, start, end))
    ensures ProvenRange(vc, b, derive, root, start, end) == Ok(result) ==> r == Ok(true)
    ensures r == Ok(true) ==> RangeConvinces(vc, b, derive, root, start, end, result)
  {
    hide Proven, EncodeIndex, Verified, Scheme.Binding, Scheme.Opens, SameCells, Convinces, Selects;
    if root.layout != ListLayout {
      return Err(BadSelector);
    }
    var valid := Verify(vc, b, derive, root, IndexSelector(MAX_INDEX), result.evidence);
    if valid != Ok(true) {
      return valid;
    }
    ProvenOpens(vc, b, derive, root, IndexSelector(MAX_INDEX));
    LikeOpens(result.evidence, Proven(vc, b, derive, root, IndexSelector(MAX_INDEX)));
    var meta := ParseMetadata(result.evidence.proof.nodes[0].metadata);
    if meta.Err? {
      return Err(meta.error);
    }
    if result.metadata != meta.value {
      return Ok(false);
    }
    var bounds := RangeBounds(meta.value, start, end);
    if bounds.Err? {
      return Err(bounds.error);
    }
    var (first, count) := bounds.value;
    if |result.segments| != count {
      return Ok(false);
    }
    assert result.segments[..count] == result.segments;
    for offset := 0 to count
      invariant LikeFirst(vc, b, derive, root, first, result.segments[..offset])
      invariant forall i :: 0 <= i < offset ==> (
        result.segments[i].present && Convinces(vc, b, derive, root, IndexSelector(first + i), result.segments[i]))
    {
      var segment := result.segments[offset];
      SegmentAt(vc, b, derive, root, first, result.segments, offset);
      if !segment.present {
        return Ok(false);
      }
      valid := Verify(vc, b, derive, root, IndexSelector(first + offset), segment);
      if valid != Ok(true) {
        return valid;
      }
      assert result.segments[..offset + 1] == result.segments[..offset] + [segment];
      LikeNext(vc, b, derive, root, first, result.segments[..offset], segment);
    }
    return Ok(true);
  }

  // Accepted segments from the first index on.
  ghost predicate LikeFirst(vc: Scheme, b: Radix, derive: Deriver, root: Ref, first: U64, segments: seq<Answer>)
    requires first + |segments| < TWO64
  {
    var honest := ProvenSegments(vc, b, derive, root, first, |segments|);
    honest.Ok? && LikeSegments(segments, honest.value)
  }

  lemma LikeNext(vc: Scheme, b: Radix, derive: Deriver, root: Ref, first: U64, segments: seq<Answer>, segment: Answer)
    requires first + |segments| + 1 < TWO64 && LikeFirst(vc, b, derive, root, first, segments) && segment.present
    requires LikeAnswer(segment, Proven(vc, b, derive, root, IndexSelector(first + |segments|)))
    ensures LikeFirst(vc, b, derive, root, first, segments + [segment])
  {
    hide Proven, EncodeIndex;
  }

  lemma LikeOpens(answer: Answer, honest: Result<Answer, Error>)
    requires LikeAnswer(answer, honest) && honest.value.proof.nodes != []
    ensures answer.proof.nodes != [] && answer.proof.nodes[0].metadata == honest.value.proof.nodes[0].metadata
  {
  }

  // ---- What a range says about a canonical List ----

  ghost predicate SegmentsAre(segments: seq<Answer>, items: seq<Target>) {
    |segments| == |items| && forall i :: 0 <= i < |items| ==> (
      segments[i].present && segments[i].target == Some(items[i]))
  }

  // On the canonical List of items, a range is provable exactly when it lies
  // within the list; its segments carry exactly the slice and its metadata is
  // the committed count and payload.
  lemma RangeIsSlice(vc: Scheme, b: Radix, derive: Deriver, items: seq<Target>, payload: Option<Target>, start: U64,
                     end: Option<U64>)
    requires |items| < TWO64 && IndexLabels(derive)
    ensures var stop, r := StopOf(items, end), ProvenRange(vc, b, derive, ListRoot(b, items, payload), start, end);
      && (r.Ok? <==> start <= stop <= |items|)
      && (r.Ok? ==> r.value.metadata == Metadata(|items|, payload))
      && (r.Ok? ==> SegmentsAre(r.value.segments, items[start..stop]))
  {
    hide Proven, ListRoot, EncodeIndex;
    var root := ListRoot(b, items, payload);
    ProvenList(vc, b, derive, items, payload, MAX_INDEX, EncodeIndex(MAX_INDEX));
    RootLayout(b, items, payload);
    var bounds := RangeBounds(Metadata(|items|, payload), start, end);
    if bounds.Ok? {
      SegmentsAreSlice(vc, b, derive, items, payload, bounds.value.0, bounds.value.1);
      assert items[start..StopOf(items, end)] == items[bounds.value.0..bounds.value.0 + bounds.value.1];
    }
  }

  function StopOf(items: seq<Target>, end: Option<U64>): nat {
    if end.Some? then end.value else |items|
  }

  lemma RootLayout(b: Radix, items: seq<Target>, payload: Option<Target>)
    requires |items| < TWO64
    ensures ListRoot(b, items, payload).layout == ListLayout
  {
  }

  lemma {:induction false} SegmentsAreSlice(vc: Scheme, b: Radix, derive: Deriver, items: seq<Target>,
                                            payload: Option<Target>,
                                            first: U64, count: nat)
    requires |items| < TWO64 && IndexLabels(derive) && first + count <= |items|
    ensures var r := ProvenSegments(vc, b, derive, ListRoot(b, items, payload), first, count);
      r.Ok? && SegmentsAre(r.value, items[first..first + count])
  {
    hide Proven, ListRoot, EncodeIndex;
    if count > 0 {
      SegmentsAreSlice(vc, b, derive, items, payload, first, count - 1);
      ProvenList(vc, b, derive, items, payload, first + count - 1, EncodeIndex(first + count - 1));
    }
  }
}
