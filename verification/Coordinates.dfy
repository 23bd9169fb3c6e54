// Authentication positions and the injected label derivation.
module Coordinates {
  import opened Words
  import opened Nodes

  const KEY_BITS: nat := 256

  // A sparse key as its bits, most significant first.
  type Key = k: seq<bool> | |k| == KEY_BITS witness seq(KEY_BITS, _ => false)

  datatype Coordinate = AtKey(key: Key) | AtIndex(index: U64)

  // A pure, deterministic capability; distinct labels may share a coordinate.
  type Deriver = Label -> Option<Coordinate>

  function LabelCoordinate(derive: Deriver, layout: Layout, name: Label): Result<Coordinate, Error> {
    match derive(name)
    case None => Err(BadSelector)
    case Some(c) => if (layout == MapLayout) == c.AtKey? then Ok(c) else Err(BadSelector)
  }

  datatype Selector = Selector(coordinate: Coordinate, name: Label)

  // The label itself must derive to the supplied coordinate.
  function CheckSelector(derive: Deriver, layout: Layout, query: Selector): Result<Coordinate, Error> {
    var c := LabelCoordinate(derive, layout, query.name);
    if c.Ok? && c.value != query.coordinate then Err(BadSelector) else c
  }

  // The label derives to the coordinate, and the layout has such coordinates.
  ghost predicate Selects(derive: Deriver, layout: Layout, query: Selector) {
    derive(query.name) == Some(query.coordinate) && (query.coordinate.AtKey? <==> layout == MapLayout)
  }

  lemma CheckSelectorIs(derive: Deriver, layout: Layout, query: Selector)
    ensures CheckSelector(derive, layout, query)
      == if Selects(derive, layout, query) then Ok(query.coordinate) else Err(BadSelector)
  {
  }

  // An undefined `before` means insert, an undefined `after` means delete.
  datatype Change = Change(at: Coordinate, name: Label, before: Option<Target>, after: Option<Target>)

  // ---- Canonical encodings ----

  function BigEndian(x: nat, n: nat): (bytes: seq<byte>)
    ensures |bytes| == n
  {
    if n == 0 then [] else BigEndian(x / 256, n - 1) + [(x % 256) as byte]
  }

  function BigEndianValue(bytes: seq<byte>): nat {
    if bytes == [] then 0 else
      256 * BigEndianValue(bytes[..|bytes| - 1]) + bytes[|bytes| - 1] as nat
  }

  function Pow256(n: nat): (p: nat)
    ensures p >= 1
  {
    if n == 0 then 1 else 256 * Pow256(n - 1)
  }

  lemma {:induction false} BigEndianBound(bytes: seq<byte>)
    ensures BigEndianValue(bytes) < Pow256(|bytes|)
  {
    if bytes != [] {
      BigEndianBound(bytes[..|bytes| - 1]);
    }
  }

  lemma {:induction false} BigEndianRoundTrip(x: nat, n: nat)
    requires x < Pow256(n)
    ensures BigEndianValue(BigEndian(x, n)) == x
  {
    if n > 0 {
      BigEndianRoundTrip(x / 256, n - 1);
    }
  }

  lemma {:induction false} BigEndianUnique(bytes: seq<byte>)
    ensures BigEndian(BigEndianValue(bytes), |bytes|) == bytes
  {
    if bytes != [] {
      BigEndianUnique(bytes[..|bytes| - 1]);
    }
  }

  // The canonical label of a list index: eight bytes, most significant first.
  function EncodeIndex(index: U64): Label {
    BigEndian(index, 8)
  }

  // Written out: the bytes are the base-256 digits of the index, highest first.
  lemma EncodeIndexIs(index: U64)
    ensures var e := EncodeIndex(index);
      |e| == 8 && index == 0x100_0000_0000_0000 * e[0] as nat + 0x1_0000_0000_0000 * e[1] as nat
        + 0x100_0000_0000 * e[2] as nat + 0x1_0000_0000 * e[3] as nat
        + 0x100_0000 * e[4] as nat + 0x1_0000 * e[5] as nat + 0x100 * e[6] as nat + e[7] as nat
  {
    hide BigEndianValue, BigEndian;
    Pow256Of8();
    BigEndianRoundTrip(index, 8);
    var e := EncodeIndex(index);
    assert e[..8] == e;
    forall k: nat | k < 8
      ensures BigEndianValue(e[..k + 1]) == 256 * BigEndianValue(e[..k]) + e[k] as nat
    {
      BigEndianLast(e, k);
    }
    BigEndianEmpty(e);
    assert BigEndianValue(e[..0 + 1]) == e[0] as nat;
    assert BigEndianValue(e[..1 + 1]) == 0x100 * e[0] as nat + e[1] as nat;
    assert BigEndianValue(e[..2 + 1]) == 0x1_0000 * e[0] as nat + 0x100 * e[1] as nat + e[2] as nat;
    assert BigEndianValue(e[..3 + 1]) == 256 * BigEndianValue(e[..3]) + e[3] as nat;
    assert BigEndianValue(e[..4 + 1]) == 256 * BigEndianValue(e[..4]) + e[4] as nat;
    assert BigEndianValue(e[..5 + 1]) == 256 * BigEndianValue(e[..5]) + e[5] as nat;
    assert BigEndianValue(e[..6 + 1]) == 256 * BigEndianValue(e[..6]) + e[6] as nat;
    assert BigEndianValue(e[..7 + 1]) == 256 * BigEndianValue(e[..7]) + e[7] as nat;
  }

  lemma BigEndianLast(bytes: seq<byte>, k: nat)
    requires k < |bytes|
    ensures BigEndianValue(bytes[..k + 1]) == 256 * BigEndianValue(bytes[..k]) + bytes[k] as nat
  {
    assert bytes[..k + 1][..k] == bytes[..k];
  }

  lemma BigEndianEmpty(bytes: seq<byte>)
    ensures BigEndianValue(bytes[..0]) == 0
  {
  }

  lemma Pow256Of8()
    ensures Pow256(8) == TWO64
  {
    assert Pow256(4) == 0x1_0000_0000;
    assert Pow256(8) == 256 * (256 * (256 * (256 * Pow256(4))));
  }

  // The bits of a byte string, most significant first.
  function BitsOf(bytes: seq<byte>): (bits: seq<bool>)
    ensures |bits| == 8 * |bytes|
  {
    if bytes == [] then [] else
      BitsOf(bytes[..|bytes| - 1]) + ByteBits(bytes[|bytes| - 1])
  }

  function ByteBits(x: byte): (bits: seq<bool>)
    ensures |bits| == 8
  {
    seq(8, i requires 0 <= i < 8 => (x as nat / Pow2(7 - i)) % 2 == 1)
  }

  // Bit j of byte k, counted from the most significant.
  lemma {:induction false} BitsOfAt(bytes: seq<byte>, k: nat, j: nat)
    requires k < |bytes| && j < 8
    ensures BitsOf(bytes)[8 * k + j] <==> (bytes[k] as nat / Pow2(7 - j)) % 2 == 1
  {
    if k < |bytes| - 1 {
      BitsOfAt(bytes[..|bytes| - 1], k, j);
    }
  }

  // Direct derivation reads the label itself as a coordinate.
  function Direct(): Deriver {
    (name: Label) =>
      if |name| == 8 then (BigEndianBound(name); Pow256Of8(); Some(AtIndex(BigEndianValue(name))))
      else if |name| == 32 then Some(AtKey(BitsOf(name)))
      else None
  }

  // What a List needs of its derivation: index labels derive to their index.
  ghost predicate IndexLabels(derive: Deriver) {
    forall i: U64 :: derive(EncodeIndex(i)) == Some(AtIndex(i))
  }

  // No other label derives to a list index.
  ghost predicate OnlyIndexLabels(derive: Deriver) {
    forall name, i :: derive(name) == Some(AtIndex(i)) ==> name == EncodeIndex(i)
  }

  lemma DirectIndexLabels()
    ensures IndexLabels(Direct()) && OnlyIndexLabels(Direct())
  {
    Pow256Of8();
    forall i: U64
      ensures Direct()(EncodeIndex(i)) == Some(AtIndex(i))
    {
      BigEndianRoundTrip(i, 8);
    }
    forall name, i | Direct()(name) == Some(AtIndex(i))
      ensures name == EncodeIndex(i)
    {
      BigEndianUnique(name);
    }
  }
}
