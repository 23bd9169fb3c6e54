// Byte encodings: minimal varints, multicommitments, node references, roots and cells.
module Codec {
  import opened Words
  import opened Nodes
  import opened Coordinates

  type Bytes = seq<byte>

  const TWO63: nat := 0x8000_0000_0000_0000

  // ---- Minimal unsigned varints ----

  function PutUvarint(x: nat): (data: Bytes)
    ensures |data| >= 1
  {
    if x < 128 then [x as byte] else [(x % 128 + 128) as byte] + PutUvarint(x / 128)
  }

  // Value and length of the varint at the front, read from the given place; a
  // tenth byte above one does not fit 64 bits.
  function ReadUvarint(data: Bytes, place: nat): (r: Option<(nat, nat)>)
    ensures r.Some? ==> 1 <= r.value.1 <= |data| && place + r.value.1 <= 10
    decreases |data|
  {
    if data == [] || place >= 10 then None
    else
      var x := data[0] as nat;
      if x < 128 then (if place == 9 && x > 1 then None else Some((x, 1)))
      else
        var rest := ReadUvarint(data[1..], place + 1);
        if rest.None? then None else Some((x - 128 + 128 * rest.value.0, rest.value.1 + 1))
  }

  function CanonicalUvarint(data: Bytes): (r: Option<(nat, nat)>)
    ensures r.Some? ==> r.value.1 <= |data|
  {
    var r := ReadUvarint(data, 0);
    if r.None? || r.value.1 > 9 || |PutUvarint(r.value.0)| != r.value.1 then None else r
  }

  // The length of an encoding, in 7-bit groups.
  function Pow128(n: nat): (p: nat)
    ensures p >= 1
  {
    if n == 0 then 1 else 128 * Pow128(n - 1)
  }

  lemma {:induction false} PutLength(x: nat, n: nat)
    requires n >= 1
    ensures |PutUvarint(x)| <= n <==> x < Pow128(n)
  {
    if x >= 128 && n > 1 {
      PutLength(x / 128, n - 1);
    }
  }

  lemma {:induction false} ReadPut(x: nat, rest: Bytes, place: nat)
    requires place + |PutUvarint(x)| <= 9
    ensures ReadUvarint(PutUvarint(x) + rest, place) == Some((x, |PutUvarint(x)|))
  {
    var data := PutUvarint(x) + rest;
    if x >= 128 {
      assert data[1..] == PutUvarint(x / 128) + rest;
      ReadPut(x / 128, rest, place + 1);
    }
  }

  // No encoding of a value is shorter than the minimal one, and only the minimal
  // one is as short.
  lemma {:induction false} PutRead(data: Bytes, place: nat)
    requires ReadUvarint(data, place).Some?
    ensures var (x, n) := ReadUvarint(data, place).value;
      |PutUvarint(x)| <= n && (|PutUvarint(x)| == n ==> data[..n] == PutUvarint(x))
    decreases |data|
  {
    if data[0] as nat >= 128 {
      PutRead(data[1..], place + 1);
      var (x, n) := ReadUvarint(data[1..], place + 1).value;
      var d := data[0] as nat - 128;
      if x == 0 {
        assert d + 128 * x == d;
      } else {
        assert (d + 128 * x) / 128 == x && (d + 128 * x) % 128 == d;
      }
      assert data[..n + 1] == [data[0]] + data[1..][..n];
    }
  }

  lemma Pow128Of9()
    ensures Pow128(9) == TWO63
  {
    assert Pow128(4) == 0x1000_0000;
    assert Pow128(9) == 128 * (128 * (128 * (128 * (128 * Pow128(4)))));
  }

  // Exactly the values below 2^63 are written and read back; whatever is accepted
  // re-encodes to the bytes read.
  lemma CanonicalRoundTrip(x: nat, rest: Bytes)
    ensures CanonicalUvarint(PutUvarint(x) + rest) == Some((x, |PutUvarint(x)|)) <==> x < TWO63
  {
    Pow128Of9();
    PutLength(x, 9);
    if x < TWO63 {
      ReadPut(x, rest, 0);
    }
  }

  lemma CanonicalUnique(data: Bytes)
    requires CanonicalUvarint(data).Some?
    ensures var (x, n) := CanonicalUvarint(data).value;
      data[..n] == PutUvarint(x) && x < TWO63 && data == PutUvarint(x) + data[n..]
  {
    PutRead(data, 0);
    Pow128Of9();
    PutLength(ReadUvarint(data, 0).value.0, 9);
  }

  // Groups of seven bits, lowest first, with the high bit on all but the last.
  lemma {:induction false} UvarintGroups(x: nat)
    ensures var data := PutUvarint(x);
      && (forall i :: 0 <= i < |data| ==> (data[i] >= 128 <==> i < |data| - 1))
      && GroupsValue(data) == x
  {
    if x >= 128 {
      UvarintGroups(x / 128);
      var data := PutUvarint(x);
      assert data[1..] == PutUvarint(x / 128);
    }
  }

  function GroupsValue(data: Bytes): nat {
    if data == [] then 0 else data[0] as nat % 128 + 128 * GroupsValue(data[1..])
  }

  // ---- Multicommitments ----

  const KZG4096: nat := 1
  const IPA256: nat := 2

  // The commitment size an exact profile fixes.
  function ProfileSize(id: nat): Option<nat> {
    if id == KZG4096 then Some(48) else if id == IPA256 then Some(32) else None
  }

  function Multicommitment(id: nat, commitment: Bytes): Option<Bytes> {
    if ProfileSize(id) != Some(|commitment|) then None
    else Some(PutUvarint(id) + PutUvarint(|commitment|) + commitment)
  }

  function ParseMulticommitment(data: Bytes): (r: Option<(nat, Bytes)>) {
    var id := CanonicalUvarint(data);
    if id.None? then None else
      var size := CanonicalUvarint(data[id.value.1..]);
      if size.None? then None else
        var start := id.value.1 + size.value.1;
        if ProfileSize(id.value.0) != Some(size.value.0) || |data| - start != size.value.0 then None
        else Some((id.value.0, data[start..]))
  }

  // Parsing accepts exactly what encoding produces, and gives it back.
  lemma MulticommitmentInverse(data: Bytes, id: nat, commitment: Bytes)
    ensures ParseMulticommitment(data) == Some((id, commitment)) <==> Multicommitment(id, commitment) == Some(data)
  {
    hide PutUvarint, ReadUvarint, CanonicalUvarint;
    if Multicommitment(id, commitment) == Some(data) {
      var a, c := PutUvarint(id), PutUvarint(|commitment|);
      assert data == a + (c + commitment);
      CanonicalRoundTrip(id, c + commitment);
      assert data[|a|..] == c + commitment;
      CanonicalRoundTrip(|commitment|, commitment);
      assert data[|a| + |c|..] == commitment;
    }
    ParsedMulticommitment(data);
  }

  lemma ParsedMulticommitment(data: Bytes)
    ensures var r := ParseMulticommitment(data);
      r.Some? ==> Multicommitment(r.value.0, r.value.1) == Some(data)
  {
    hide PutUvarint, ReadUvarint, CanonicalUvarint;
    if ParseMulticommitment(data).Some? {
      CanonicalUnique(data);
      var (id, n) := CanonicalUvarint(data).value;
      CanonicalUnique(data[n..]);
      var (size, m) := CanonicalUvarint(data[n..]).value;
      var commitment := data[n + m..];
      assert data[n..][m..] == commitment;
      assert |commitment| == size;
      assert data == PutUvarint(id) + (PutUvarint(size) + commitment)
        == PutUvarint(id) + PutUvarint(size) + commitment;
    }
  }

  // ---- Node references ----

  const MAP: nat := 4
  const LIST: nat := 3

  datatype NodeRef = NodeRef(layout: nat, profile: nat, commitment: Bytes)

  predicate KnownLayout(layout: nat) {
    layout == MAP || layout == LIST
  }

  function NodeRefBytes(r: NodeRef): Option<Bytes> {
    if !KnownLayout(r.layout) then None else
      var mc := Multicommitment(r.profile, r.commitment);
      if mc.None? then None else Some(['M' as int as byte, 'N' as int as byte, 0, r.layout as byte] + mc.value)
  }

  function ParseNodeRef(data: Bytes): Option<NodeRef> {
    if |data| < 4 || data[..3] != ['M' as int as byte, 'N' as int as byte, 0] then None else
      var mc := ParseMulticommitment(data[4..]);
      if mc.None? then None else
        var r := NodeRef(data[3] as nat, mc.value.0, mc.value.1);
        if NodeRefBytes(r).None? then None else Some(r)
  }

  lemma NodeRefInverse(data: Bytes, r: NodeRef)
    ensures ParseNodeRef(data) == Some(r) <==> NodeRefBytes(r) == Some(data)
  {
    hide ParseMulticommitment, Multicommitment;
    if |data| >= 4 {
      MulticommitmentInverse(data[4..], r.profile, r.commitment);
      assert data == data[..3] + [data[3]] + data[4..];
      assert data[..3] + [data[3]] == [data[0], data[1], data[2], data[3]];
    }
    if NodeRefBytes(r) == Some(data) {
      assert data[4..] == Multicommitment(r.profile, r.commitment).value;
      assert data[..3] == ['M' as int as byte, 'N' as int as byte, 0];
    }
  }

  // ---- Roots ----

  // A content identifier by its parts; the identity hash is code 0.
  datatype Cid = Undefined | Cid(version: nat, codec: nat, hash: nat, digest: Bytes)

  const IDENTITY: nat := 0
  const CODEC_BASE: nat := 0x300000
  const CODEC_MAX: nat := 0x30ffff
  const ROOT_VERSION: nat := 0

  datatype Descriptor = Descriptor(version: nat, layout: nat, derivation: byte, profile: nat)

  predicate ValidDescriptor(d: Descriptor) {
    d.version == ROOT_VERSION && KnownLayout(d.layout) && ProfileSize(d.profile).Some?
  }

  function NewRoot(d: Descriptor, commitment: Bytes): Option<Cid> {
    if !ValidDescriptor(d) then None else
      var mc := Multicommitment(d.profile, commitment);
      if mc.None? then None
      else Some(Cid(1, CODEC_BASE + d.version * 4096 + d.layout * 256 + d.derivation as nat, IDENTITY, mc.value))
  }

  function ParseRoot(root: Cid): Option<(Descriptor, Bytes)> {
    if root.Undefined? || root.version != 1 || root.codec < CODEC_BASE || root.codec > CODEC_MAX then None else
      var version, layout := (root.codec / 4096) % 16, (root.codec / 256) % 16;
      if version != ROOT_VERSION || root.hash != IDENTITY then None else
        var mc := ParseMulticommitment(root.digest);
        if mc.None? then None else
          var d := Descriptor(version, layout, (root.codec % 256) as byte, mc.value.0);
          if !ValidDescriptor(d) || NewRoot(d, mc.value.1) != Some(root) then None else Some((d, mc.value.1))
  }

  lemma RootInverse(root: Cid, d: Descriptor, commitment: Bytes)
    ensures ParseRoot(root) == Some((d, commitment)) <==> NewRoot(d, commitment) == Some(root)
  {
    hide ParseMulticommitment, Multicommitment;
    if root.Cid? {
      MulticommitmentInverse(root.digest, d.profile, commitment);
    }
  }

  // The formats written out: a multicommitment, a node reference and a root of each
  // profile, byte by byte.
  lemma Formats(commitment: Bytes, layout: nat, derivation: byte)
    requires layout == 3 || layout == 4
    ensures Multicommitment(1, commitment) == if |commitment| == 48 then Some([1, 48] + commitment) else None
    ensures Multicommitment(2, commitment) == if |commitment| == 32 then Some([2, 32] + commitment) else None
    ensures |commitment| == 48 ==> (
      NodeRefBytes(NodeRef(layout, 1, commitment)) == Some([77, 78, 0, layout as byte, 1, 48] + commitment))
    ensures |commitment| == 32 ==> (
      NodeRefBytes(NodeRef(layout, 2, commitment)) == Some([77, 78, 0, layout as byte, 2, 32] + commitment))
    ensures |commitment| == 48 ==> (
      NewRoot(Descriptor(0, layout, derivation, 1), commitment)
        == Some(Cid(1, 0x300000 + 0x100 * layout + derivation as nat, 0, [1, 48] + commitment)))
    ensures |commitment| == 32 ==> (
      NewRoot(Descriptor(0, layout, derivation, 2), commitment)
        == Some(Cid(1, 0x300000 + 0x100 * layout + derivation as nat, 0, [2, 32] + commitment)))
  {
    assert PutUvarint(1) == [1] && PutUvarint(2) == [2] && PutUvarint(48) == [48] && PutUvarint(32) == [32];
    assert [1] + [48] == [1, 48] && [2] + [32] == [2, 32];
    assert 'M' as int == 77 && 'N' as int == 78;
    assert [77, 78, 0, layout as byte] + ([1, 48] + commitment) == [77, 78, 0, layout as byte, 1, 48] + commitment;
    assert [77, 78, 0, layout as byte] + ([2, 32] + commitment) == [77, 78, 0, layout as byte, 2, 32] + commitment;
  }

  // Only the two profiles, the two layouts and version zero exist.
  lemma OtherFormats(id: nat, commitment: Bytes, r: NodeRef, d: Descriptor)
    ensures Multicommitment(id, commitment).Some? <==> (
      (id == 1 && |commitment| == 48) || (id == 2 && |commitment| == 32))
    ensures NodeRefBytes(r).Some? <==> (
      (r.layout == 3 || r.layout == 4) && Multicommitment(r.profile, r.commitment).Some?)
    ensures NewRoot(d, commitment).Some? <==> (
      d.version == 0 && (d.layout == 3 || d.layout == 4) && Multicommitment(d.profile, commitment).Some?)
  {
  }

  // ---- Cells ----

  // A byte string that decodes to a CID and re-encodes to itself.
  type Canonical = Bytes -> bool

  function MapCellBytes(name: Bytes, target: Bytes): Bytes {
    [MAP_LEAF] + PutUvarint(|name|) + name + target
  }

  function ParseMapBytes(canonical: Canonical, cell: Bytes): Option<(Bytes, Bytes)> {
    if |cell| < 3 || cell[0] != MAP_LEAF then None else
      var size := CanonicalUvarint(cell[1..]);
      if size.None? || size.value.0 >= |cell| - 1 - size.value.1 then None else
        var start := 1 + size.value.1;
        var end := start + size.value.0;
        if !canonical(cell[end..]) then None else Some((cell[start..end], cell[end..]))
  }

  // Every label and nonempty target round-trips, and what is accepted is exactly
  // what encoding gives.
  lemma MapCellInverse(canonical: Canonical, cell: Bytes, name: Bytes, target: Bytes)
    requires |name| < TWO63
    ensures ParseMapBytes(canonical, cell) == Some((name, target))
      <==> cell == MapCellBytes(name, target) && canonical(target) && target != []
  {
    hide PutUvarint, ReadUvarint, CanonicalUvarint;
    if cell == MapCellBytes(name, target) {
      var a := PutUvarint(|name|);
      assert cell[1..] == a + (name + target);
      CanonicalRoundTrip(|name|, name + target);
      assert cell[1 + |a|..1 + |a| + |name|] == name && cell[1 + |a| + |name|..] == target;
    }
    if ParseMapBytes(canonical, cell) == Some((name, target)) {
      CanonicalUnique(cell[1..]);
      var n := CanonicalUvarint(cell[1..]).value.1;
      assert cell == [cell[0]] + cell[1..][..n] + cell[1 + n..1 + n + |name|] + cell[1 + n + |name|..];
    }
  }

  function MetadataBytes(count: U64, payload: Option<Bytes>): Bytes {
    [METADATA] + BigEndian(count, 8) + if payload.Some? then payload.value else []
  }

  function ParseMetadataBytes(canonical: Canonical, cell: Bytes): Option<(nat, Option<Bytes>)> {
    if |cell| < 9 || cell[0] != METADATA then None
    else if |cell| == 9 then Some((BigEndianValue(cell[1..9]), None))
    else if !canonical(cell[9..]) then None
    else Some((BigEndianValue(cell[1..9]), Some(cell[9..])))
  }

  // The cells written out: a tag, then the framed content.
  lemma CellFormats(name: Bytes, target: Bytes, count: U64, payload: Option<Bytes>)
    ensures |name| < 128 ==> MapCellBytes(name, target) == [1, |name| as byte] + name + target
    ensures MetadataBytes(count, None) == [4] + EncodeIndex(count)
    ensures payload.Some? ==> MetadataBytes(count, payload) == [4] + EncodeIndex(count) + payload.value
  {
    hide BigEndian;
  }

  lemma MetadataInverse(canonical: Canonical, cell: Bytes, count: U64, payload: Option<Bytes>)
    ensures ParseMetadataBytes(canonical, cell) == Some((count, payload))
      <==> cell == MetadataBytes(count, payload) && (payload.Some? ==> payload.value != [] && canonical(payload.value))
  {
    hide BigEndian, BigEndianValue, Pow256;
    Pow256Of8();
    BigEndianRoundTrip(count, 8);
    if |cell| >= 9 {
      BigEndianUnique(cell[1..9]);
      assert cell == [cell[0]] + cell[1..9] + cell[9..];
    }
    var m := MetadataBytes(count, payload);
    assert m[1..9] == BigEndian(count, 8);
    assert payload.Some? ==> m[9..] == payload.value;
  }
}
