// Index openings of committed vectors, and the per-call cache that produces them.
module Evidence {
  import opened Words
  import opened Geometry
  import opened Nodes

  // Evidence is a byte string; an absent part is empty.
  type OpeningProof = seq<byte>

  const NO_PROOF: OpeningProof := []

  // The vector commitment backend: which evidence it accepts for a cell at an index
  // of a committed vector, and which evidence it makes. Many byte strings may be
  // accepted for one cell.
  datatype Scheme = Scheme(check: (Ref, nat, Cell, OpeningProof) -> bool, open: (Ref, nat) -> OpeningProof) {
    // Binding: nothing but the vector's own entry is accepted.
    ghost predicate Binding() {
      forall ref: Ref, index: nat, cell, proof :: check(ref, index, cell, proof) ==> (
        index < |ref.cells| && ref.cells[index] == cell)
    }

    // What the backend makes for an entry, it accepts.
    ghost predicate Opens() {
      forall ref: Ref, index: nat :: index < |ref.cells| ==> check(ref, index, ref.cells[index], open(ref, index))
    }
  }

  // An opening of a full vector at one of its slots.
  predicate VerifyOpening(vc: Scheme, b: Radix, ref: Ref, index: nat, cell: Cell, proof: OpeningProof) {
    |ref.cells| == Slots(b) && index < Slots(b) && vc.check(ref, index, cell, proof)
  }

  // Every vector below a reference can be loaded.
  ghost predicate Complete(source: set<Ref>, ref: Ref)
    decreases ref
  {
    ref in source && forall cell :: cell in ref.cells && cell.Child? ==> Complete(source, cell.ref)
  }

  // Every vector below a reference is stored at full width.
  ghost predicate Loadable(b: Radix, source: set<Ref>, ref: Ref)
    decreases ref
  {
    && ref in source && |ref.cells| == Slots(b)
    && forall cell :: cell in ref.cells && cell.Child? ==> Loadable(b, source, cell.ref)
  }

  // Loads each touched vector once and reuses its verified index evidence.
  // Nothing survives the call.
  class ProofWork {
    const vc: Scheme
    const b: Radix
    const source: set<Ref>
    var nodes: set<Ref>
    var verified: map<(Ref, nat), (Cell, OpeningProof)>

    ghost predicate Valid()
      reads this
    {
      && vc.Opens() && nodes <= source
      && (forall r :: r in nodes ==> |r.cells| == Slots(b))
      && forall q :: q in verified ==>
          q.1 < |q.0.cells| && verified[q] == (q.0.cells[q.1], vc.open(q.0, q.1))
    }

    constructor (vc: Scheme, b: Radix, source: set<Ref>)
      requires vc.Opens()
      ensures Valid() && this.vc == vc && this.b == b && this.source == source
    {
      this.vc := vc;
      this.b := b;
      this.source := source;
      nodes := {};
      verified := map[];
    }

    method Load(ref: Ref) returns (r: Result<seq<Cell>, Error>)
      requires Valid()
      modifies this
      ensures Valid() && nodes >= old(nodes)
      ensures if ref in source && |ref.cells| == Slots(b)
        then r == Ok(ref.cells) && ref in nodes
        else r == Err(Incomplete)
    {
      if ref in nodes {
        return Ok(ref.cells);
      }
      if ref !in source || |ref.cells| != Slots(b) {
        return Err(Incomplete);
      }
      nodes := nodes + {ref};
      return Ok(ref.cells);
    }

    // Cached or not, the evidence is the same.
    method Open(ref: Ref, index: nat) returns (r: Result<(Cell, OpeningProof), Error>)
      requires Valid() && ref in nodes
      modifies this
      ensures Valid() && nodes == old(nodes)
      ensures if index < Slots(b) then r == Ok((ref.cells[index], vc.open(ref, index))) else r == Err(OutOfRange)
    {
      if (ref, index) in verified {
        return Ok(verified[(ref, index)]);
      }
      if index >= Slots(b) {
        return Err(OutOfRange);
      }
      var evidence := (ref.cells[index], vc.open(ref, index));
      if !VerifyOpening(vc, b, ref, index, evidence.0, evidence.1) {
        return Err(Incomplete);
      }
      verified := verified[(ref, index) := evidence];
      return Ok(evidence);
    }
  }
}
