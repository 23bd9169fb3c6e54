// Comparing a vector under construction with the vector it has to become.
module Vectors {
  import opened Nodes

  // Two vectors agree on their first n cells.
  ghost predicate Agree(cells: seq<Cell>, want: seq<Cell>, n: nat) {
    |cells| == |want| && n <= |cells| && cells[..n] == want[..n]
  }

  lemma AgreeRoot(cells: seq<Cell>, want: seq<Cell>, base: nat)
    requires |cells| == |want| && base <= 1 && (base == 1 ==> |cells| > 0 && cells[0] == want[0])
    ensures Agree(cells, want, base)
  {
  }

  lemma AgreeNext(cells: seq<Cell>, want: seq<Cell>, n: nat, cell: Cell)
    requires n < |cells|
    ensures Agree(cells, want, n) && cell == want[n] ==> Agree(cells[n := cell], want, n + 1)
  {
    if Agree(cells, want, n) && cell == want[n] {
      assert cells[n := cell][..n + 1] == cells[..n] + [cell];
      assert want[..n + 1] == want[..n] + [want[n]];
    }
  }

  lemma AgreeAll(cells: seq<Cell>, want: seq<Cell>, n: nat)
    requires n <= |cells|
    requires forall k :: n <= k < |cells| ==> cells[k] == Blank
    requires forall k :: n <= k < |want| ==> want[k] == Blank
    ensures Agree(cells, want, n) ==> cells == want
  {
    if Agree(cells, want, n) {
      assert cells == cells[..n] + cells[n..];
      assert want == want[..n] + want[n..];
      assert cells[n..] == want[n..];
    }
  }

  // A vector being overwritten in place: new cells before `n`, old cells from `n` on.
  ghost predicate Midway(cells: seq<Cell>, source: seq<Cell>, want: seq<Cell>, n: nat) {
    && |cells| == |source| == |want| && n <= |cells|
    && (forall k :: 0 <= k < n ==> cells[k] == want[k])
    && forall k :: n <= k < |cells| ==> cells[k] == source[k]
  }

  lemma MidwayStart(cells: seq<Cell>, want: seq<Cell>, base: nat)
    requires base <= 1
    ensures |cells| == |want| && base <= |cells| && (base == 1 ==> cells[0] == want[0]) ==> (
      Midway(cells, cells, want, base))
  {
  }

  lemma MidwayKeep(cells: seq<Cell>, source: seq<Cell>, want: seq<Cell>, n: nat)
    requires n < |cells|
    ensures Midway(cells, source, want, n) && want[n] == source[n] ==> Midway(cells, source, want, n + 1)
  {
  }

  lemma MidwaySet(cells: seq<Cell>, source: seq<Cell>, want: seq<Cell>, n: nat, cell: Cell)
    requires n < |cells|
    ensures Midway(cells, source, want, n) && want[n] == cell ==> Midway(cells[n := cell], source, want, n + 1)
  {
  }

  lemma MidwayDone(cells: seq<Cell>, source: seq<Cell>, want: seq<Cell>)
    ensures Midway(cells, source, want, |cells|) ==> cells == want
  {
  }
}
