// The retained binding index: an immutable compressed binary trie over
// authentication coordinates.
module Bindings {
  import opened Words
  import opened Nodes
  import opened Bits
  import opened Coordinates

  const WIDTH: nat := 264

  type Path = k: seq<bool> | |k| == WIDTH witness seq(WIDTH, _ => false)

  // A coordinate's key: its kind, then its 256 bits; an index is right-aligned.
  function BindingKey(c: Coordinate): Path {
    match c
    case AtKey(key) => Zeros(8) + key
    case AtIndex(index) => Zeros(7) + [true] + Zeros(192) + Binary(index, 64)
  }

  function Zeros(n: nat): (bits: seq<bool>)
    ensures |bits| == n && forall i :: 0 <= i < n ==> !bits[i]
  {
    seq(n, _ => false)
  }

  // The low bits of a number, most significant first.
  function Binary(x: nat, n: nat): (bits: seq<bool>)
    ensures |bits| == n
  {
    if n == 0 then [] else Binary(x / 2, n - 1) + [x % 2 == 1]
  }

  lemma {:induction false} BinaryOrder(x: nat, y: nat, n: nat) returns (i: nat)
    requires x < y < Pow2(n)
    ensures Decides(Binary(x, n), Binary(y, n), i)
  {
    var a, c := Binary(x / 2, n - 1), Binary(y / 2, n - 1);
    if x / 2 < y / 2 {
      i := BinaryOrder(x / 2, y / 2, n - 1);
      assert Binary(x, n)[..i] == a[..i] && Binary(y, n)[..i] == c[..i];
    } else {
      i := n - 1;
      assert Binary(x, n)[..i] == a && Binary(y, n)[..i] == c;
    }
  }

  // Index keys are in index order.
  lemma IndexOrder(i: U64, j: U64)
    ensures Less(BindingKey(AtIndex(i)), BindingKey(AtIndex(j))) <==> i < j
  {
    hide Binary, Less;
    if i < j {
      IndexLess(i, j);
    } else if j < i {
      IndexLess(j, i);
      LessTotal(BindingKey(AtIndex(j)), BindingKey(AtIndex(i)));
    }
    LessTotal(BindingKey(AtIndex(i)), BindingKey(AtIndex(i)));
  }

  lemma IndexLess(i: U64, j: U64)
    requires i < j
    ensures Less(BindingKey(AtIndex(i)), BindingKey(AtIndex(j)))
    ensures BindingKey(AtIndex(i)) != BindingKey(AtIndex(j))
  {
    hide Binary, Less;
    Pow2Of64();
    var a, c := BindingKey(AtIndex(i)), BindingKey(AtIndex(j));
    var d := BinaryOrder(i, j, 64);
    assert a[200..] == Binary(i, 64) && c[200..] == Binary(j, 64);
    assert a[..200] == c[..200];
    assert a[200 + d] == Binary(i, 64)[d] && c[200 + d] == Binary(j, 64)[d];
    assert a[..200 + d] == a[..200] + Binary(i, 64)[..d] && c[..200 + d] == c[..200] + Binary(j, 64)[..d];
    assert Decides(a, c, 200 + d);
    LessIff(a, c);
  }

  // Distinct coordinates have distinct keys.
  lemma BindingKeyInjective(c: Coordinate, d: Coordinate)
    ensures BindingKey(c) == BindingKey(d) <==> c == d
  {
    hide Binary;
    if c != d {
      if c.AtKey? && d.AtKey? {
        assert BindingKey(c)[8..] == c.key && BindingKey(d)[8..] == d.key;
      } else if c.AtIndex? && d.AtIndex? {
        if c.index < d.index {
          IndexLess(c.index, d.index);
        } else {
          IndexLess(d.index, c.index);
        }
      } else {
        assert BindingKey(c)[7] != BindingKey(d)[7];
      }
    }
  }

  // The retained coordinate, label and target of one binding.
  datatype Item = Item(at: Coordinate, name: Label, target: Target)

  datatype Node =
    | Leaf(key: Path, item: Item)
    | Fork(key: Path, maximum: Path, bit: nat, size: nat, left: Node, right: Node)
  {
    function Maximum(): Path {
      if Leaf? then key else maximum
    }

    function Size(): nat {
      if Leaf? then 1 else size
    }

    ghost function Contents(): (m: map<Path, Item>) {
      if Leaf? then map[key := item] else left.Contents() + right.Contents()
    }

    // Every key below shares the bits before `bit`; `bit` itself separates the
    // two sides; the cached fields are those of the two sides.
    ghost predicate Sound() {
      Leaf? || (
        && left.Sound() && right.Sound() && bit < WIDTH
        && Side(left.Contents(), key, bit, false) && Side(right.Contents(), key, bit, true)
        && key == left.key && maximum == right.Maximum() && size == left.Size() + right.Size())
    }
  }

  ghost predicate Side(m: map<Path, Item>, prefix: Path, bit: nat, on: bool) {
    bit < WIDTH && forall k :: k in m ==> Agree(k, prefix, bit) && k[bit] == on
  }

  ghost predicate Agree(a: Path, c: Path, n: nat) {
    n <= WIDTH && forall i :: 0 <= i < n ==> a[i] == c[i]
  }

  lemma AgreeAll(a: Path, c: Path)
    ensures Agree(a, c, WIDTH) <==> a == c
  {
  }

  // An empty index has no node.
  type Index = Option<Node>

  ghost function Contents(n: Index): map<Path, Item> {
    if n.Some? then n.value.Contents() else map[]
  }

  ghost predicate Sound(n: Index) {
    n.Some? ==> n.value.Sound()
  }

  function Branch(bit: nat, left: Node, right: Node): Node {
    Fork(left.key, right.Maximum(), bit, left.Size() + right.Size(), left, right)
  }

  // ---- What the cached fields say ----

  // The least and the greatest key, and the number of bindings.
  lemma {:induction false} FieldsExact(n: Node)
    requires n.Sound()
    ensures n.key in n.Contents() && n.Maximum() in n.Contents() && |n.Contents()| == n.Size()
    ensures forall k :: k in n.Contents() ==> (
      (k == n.key || Less(n.key, k)) && (k == n.Maximum() || Less(k, n.Maximum())))
  {
    if n.Fork? {
      hide Less, Agree, Side;
      FieldsExact(n.left);
      FieldsExact(n.right);
      var x, y := n.left.Contents(), n.right.Contents();
      SidesApart(x, y, n.key, n.bit);
      assert x.Keys !! y.Keys;
      assert (x + y).Keys == x.Keys + y.Keys;
      assert |x + y| == |(x + y).Keys| && |x| == |x.Keys| && |y| == |y.Keys|;
    }
  }

  lemma SidesApart(x: map<Path, Item>, y: map<Path, Item>, prefix: Path, bit: nat)
    requires Side(x, prefix, bit, false) && Side(y, prefix, bit, true)
    ensures x.Keys !! y.Keys
    ensures forall j, k :: j in x && k in y ==> Less(j, k)
  {
    forall j, k | j in x && k in y
      ensures Less(j, k)
    {
      LessIff(j, k);
      assert j[..bit] == k[..bit];
      assert Decides(j, k, bit);
    }
  }

  // ---- Lookup ----

  method Get(n: Index, k: Path) returns (r: Option<Item>)
    requires Sound(n)
    ensures r == if k in Contents(n) then Some(Contents(n)[k]) else None
  {
    if n.None? {
      return None;
    }
    var at := n.value;
    while at.Fork?
      invariant at.Sound()
      invariant k in Contents(n) <==> k in at.Contents()
      invariant k in at.Contents() ==> Contents(n)[k] == at.Contents()[k]
      decreases at
    {
      at := if k[at.bit] then at.right else at.left;
    }
    return if at.key == k then Some(at.item) else None;
  }

  // ---- Insertion ----

  // The first position at which two keys differ.
  ghost predicate Differ(a: Path, c: Path, diff: nat) {
    Agree(a, c, diff) && (diff < WIDTH ==> a[diff] != c[diff])
  }

  method FirstDifference(a: Path, c: Path) returns (diff: nat)
    ensures Differ(a, c, diff)
  {
    diff := 0;
    while diff < WIDTH && a[diff] == c[diff]
      invariant Agree(a, c, diff)
    {
      diff := diff + 1;
    }
  }

  // The leaf that the bits of a key lead to.
  function Nearest(n: Node, k: Path): Node
    requires n.Sound()
  {
    if n.Leaf? then n else Nearest(if k[n.bit] then n.right else n.left, k)
  }

  function Insert(n: Node, leaf: Node, diff: nat): Node
    requires leaf.Leaf? && diff <= WIDTH
    requires n.Sound()
    decreases n
  {
    if n.Leaf? || n.bit >= diff then
      if diff == WIDTH then leaf
      else if leaf.key[diff] then Branch(diff, n, leaf) else Branch(diff, leaf, n)
    else if leaf.key[n.bit] then Branch(n.bit, n.left, Insert(n.right, leaf, diff))
    else Branch(n.bit, Insert(n.left, leaf, diff), n.right)
  }

  lemma {:induction false} NearestKey(n: Node, k: Path)
    requires n.Sound()
    ensures Nearest(n, k).Leaf? && Nearest(n, k).key in n.Contents()
    ensures k in n.Contents() ==> Nearest(n, k).key == k
  {
    if n.Fork? {
      NearestKey(if k[n.bit] then n.right else n.left, k);
    }
  }

  lemma {:induction false} InsertIs(n: Node, leaf: Node, diff: nat)
    requires n.Sound() && leaf.Leaf? && diff <= WIDTH && Differ(leaf.key, Nearest(n, leaf.key).key, diff)
    ensures Insert(n, leaf, diff).Sound() && Insert(n, leaf, diff).Contents() == n.Contents()[leaf.key := leaf.item]
  {
    hide Agree, Less, Differ, Side;
    var k := leaf.key;
    if n.Leaf? || n.bit >= diff {
      BelowDiffers(n, k, diff);
      if diff < WIDTH {
        ForkAt(n, leaf, diff);
      }
    } else {
      NearestShares(n, k, diff);
      if k[n.bit] {
        InsertIs(n.right, leaf, diff);
        ReplaceSide(n.right.Contents(), n.key, n.bit, leaf);
        BranchSound(n.bit, n.left, Insert(n.right, leaf, diff), n.key);
        AddRight(n.left.Contents(), n.right.Contents(), k, leaf.item);
      } else {
        InsertIs(n.left, leaf, diff);
        ReplaceSide(n.left.Contents(), n.key, n.bit, leaf);
        BranchSound(n.bit, Insert(n.left, leaf, diff), n.right, n.key);
        AbsentSide(n, k);
        AddLeft(n.left.Contents(), n.right.Contents(), k, leaf.item);
      }
    }
  }

  lemma AddLeft(x: map<Path, Item>, y: map<Path, Item>, k: Path, item: Item)
    requires k !in y
    ensures x[k := item] + y == (x + y)[k := item]
  {
  }

  lemma AddRight(x: map<Path, Item>, y: map<Path, Item>, k: Path, item: Item)
    ensures x + y[k := item] == (x + y)[k := item]
  {
  }

  // Two sound sides that part at `bit` below one prefix make a sound node.
  lemma BranchSound(bit: nat, left: Node, right: Node, prefix: Path)
    requires left.Sound() && right.Sound()
    requires Side(left.Contents(), prefix, bit, false) && Side(right.Contents(), prefix, bit, true)
    ensures Branch(bit, left, right).Sound()
    ensures Branch(bit, left, right).Contents() == left.Contents() + right.Contents()
    ensures left.Contents().Keys !! right.Contents().Keys
  {
    hide Agree, Less;
    FieldsExact(left);
    SidesApart(left.Contents(), right.Contents(), prefix, bit);
    assert Agree(left.key, prefix, bit);
    MoveSide(left.Contents(), prefix, left.key, bit, false);
    MoveSide(right.Contents(), prefix, left.key, bit, true);
  }

  lemma MoveSide(m: map<Path, Item>, prefix: Path, other: Path, bit: nat, on: bool)
    requires Side(m, prefix, bit, on) && Agree(other, prefix, bit)
    ensures Side(m, other, bit, on)
  {
  }

  lemma ReplaceSide(m: map<Path, Item>, prefix: Path, bit: nat, leaf: Node)
    requires leaf.Leaf? && bit < WIDTH && Side(m, prefix, bit, leaf.key[bit]) && Agree(leaf.key, prefix, bit)
    ensures Side(m[leaf.key := leaf.item], prefix, bit, leaf.key[bit])
  {
  }

  // A key that first differs further down shares the node's own prefix.
  lemma NearestShares(n: Node, k: Path, diff: nat)
    requires n.Fork? && n.Sound() && n.bit < diff && Differ(k, Nearest(n, k).key, diff)
    ensures Agree(k, n.key, n.bit)
  {
    NearestKey(n, k);
    assert Agree(Nearest(n, k).key, n.key, n.bit);
  }

  // When the keys below a node agree up to the difference, all of them differ
  // from the new key there; without a difference the node is the key's own leaf.
  lemma BelowDiffers(n: Node, k: Path, diff: nat)
    requires n.Sound() && Differ(k, Nearest(n, k).key, diff) && (n.Fork? ==> n.bit >= diff)
    ensures if diff < WIDTH then Side(n.Contents(), k, diff, !k[diff]) else n.Leaf? && n.key == k
  {
    hide Agree;
    if n.Fork? {
      NearestKey(n, k);
      NearestKey(if k[n.bit] then n.right else n.left, k);
      var old0 := Nearest(n, k).key;
      assert old0[n.bit] == k[n.bit];
      forall j | j in n.Contents()
        ensures Agree(j, k, diff) && j[diff] != k[diff]
      {
        AgreeVia(j, n.key, old0, k, n.bit, diff);
      }
    } else {
      AgreeAll(k, n.key);
      AgreeSwap(k, n.key, diff);
    }
  }

  lemma AgreeSwap(a: Path, c: Path, n: nat)
    requires Agree(a, c, n)
    ensures Agree(c, a, n)
  {
  }

  lemma AgreeVia(j: Path, prefix: Path, near: Path, k: Path, bit: nat, diff: nat)
    requires Agree(j, prefix, bit) && Agree(near, prefix, bit) && Agree(k, near, diff)
    requires diff < bit <= WIDTH && k[diff] != near[diff]
    ensures Agree(j, k, diff) && j[diff] != k[diff]
  {
  }

  lemma ForkAt(n: Node, leaf: Node, diff: nat)
    requires n.Sound() && leaf.Leaf? && diff < WIDTH && Side(n.Contents(), leaf.key, diff, !leaf.key[diff])
    ensures var r := if leaf.key[diff] then Branch(diff, n, leaf) else Branch(diff, leaf, n);
      r.Sound() && r.Contents() == n.Contents()[leaf.key := leaf.item]
  {
    assert Side(leaf.Contents(), leaf.key, diff, leaf.key[diff]);
    if leaf.key[diff] {
      BranchSound(diff, n, leaf, leaf.key);
    } else {
      BranchSound(diff, leaf, n, leaf.key);
    }
  }

  // Replaces or adds one binding.
  method Set(n: Index, at: Path, item: Item) returns (r: Index)
    requires Sound(n)
    ensures Sound(r) && r.Some? && Contents(r) == Contents(n)[at := item]
  {
    var leaf := Leaf(at, item);
    if n.None? {
      return Some(leaf);
    }
    var old_ := n.value;
    while old_.Fork?
      invariant old_.Sound() && Nearest(old_, at) == Nearest(n.value, at)
      decreases old_
    {
      old_ := if at[old_.bit] then old_.right else old_.left;
    }
    var diff := FirstDifference(at, old_.key);
    InsertIs(n.value, leaf, diff);
    return Some(Insert(n.value, leaf, diff));
  }

  // ---- Deletion ----

  // Deleting an absent key shares the whole node.
  function Delete(n: Index, k: Path): (r: Index) {
    if n.None? then None else DeleteFrom(n.value, k)
  }

  function DeleteFrom(n: Node, k: Path): (r: Index)
    decreases n
  {
    if n.Leaf? then if n.key == k then None else Some(n)
    else if n.bit < WIDTH && !k[n.bit] then
      var l := DeleteFrom(n.left, k);
      if l == None then Some(n.right)
      else if l.value == n.left then Some(n)
      else Some(Branch(n.bit, l.value, n.right))
    else
      var r := DeleteFrom(n.right, k);
      if r == None then Some(n.left)
      else if r.value == n.right then Some(n)
      else Some(Branch(n.bit, n.left, r.value))
  }

  // What remains of two sides.
  function Join(bit: nat, left: Index, right: Index): Index {
    if left == None then right
    else if right == None then left
    else Some(Branch(bit, left.value, right.value))
  }

  lemma JoinIs(n: Node, left: Index, right: Index)
    requires n.Sound() && n.Fork? && Sound(left) && Sound(right)
    requires Contents(left).Keys <= n.left.Contents().Keys && Contents(right).Keys <= n.right.Contents().Keys
    ensures Sound(Join(n.bit, left, right)) && Contents(Join(n.bit, left, right)) == Contents(left) + Contents(right)
  {
    hide Agree, Less;
    if left.Some? && right.Some? {
      BranchSound(n.bit, left.value, right.value, n.key);
    }
  }

  // A sound fork is the branch of its sides.
  lemma ForkIs(n: Node)
    requires n.Sound() && n.Fork?
    ensures n == Branch(n.bit, n.left, n.right) && n.bit < WIDTH && n.left.Sound() && n.right.Sound()
    ensures n.Contents() == n.left.Contents() + n.right.Contents()
    ensures n.left.Contents().Keys !! n.right.Contents().Keys
    ensures forall k :: k in n.Contents() ==> (k in n.right.Contents() <==> k[n.bit])
  {
    hide Agree, Less;
    SidesApart(n.left.Contents(), n.right.Contents(), n.key, n.bit);
  }

  lemma RemoveSide(x: map<Path, Item>, y: map<Path, Item>, k: Path)
    ensures k !in y ==> (x - {k}) + y == (x + y) - {k}
    ensures k !in x ==> x + (y - {k}) == (x + y) - {k}
  {
  }

  lemma {:induction false} DeleteIs(n: Node, k: Path)
    requires n.Sound()
    ensures Sound(DeleteFrom(n, k)) && Contents(DeleteFrom(n, k)) == n.Contents() - {k}
  {
    if n.Fork? {
      hide Node.Sound, Node.Contents;
      ForkIs(n);
      RemoveSide(n.left.Contents(), n.right.Contents(), k);
      if !k[n.bit] {
        DeleteIs(n.left, k);
        JoinIs(n, DeleteFrom(n.left, k), Some(n.right));
        AbsentSide(n, k);
      } else {
        DeleteIs(n.right, k);
        JoinIs(n, Some(n.left), DeleteFrom(n.right, k));
        AbsentSide(n, k);
      }
    }
  }

  lemma AbsentSide(n: Node, k: Path)
    requires n.Sound() && n.Fork?
    ensures k !in if k[n.bit] then n.left.Contents() else n.right.Contents()
  {
  }

  lemma DeleteRemoves(n: Index, k: Path)
    requires Sound(n)
    ensures Sound(Delete(n, k)) && Contents(Delete(n, k)) == Contents(n) - {k}
  {
    if n.Some? {
      DeleteIs(n.value, k);
    }
  }

  // ---- The part below a limit ----

  function Before(n: Index, limit: Path): Index {
    if n.None? then None else BeforeIn(n.value, limit)
  }

  function BeforeIn(n: Node, limit: Path): Index
    decreases n
  {
    if !Less(n.key, limit) then None
    else if Less(n.Maximum(), limit) then Some(n)
    else if n.Leaf? then None
    else Join(n.bit, BeforeIn(n.left, limit), BeforeIn(n.right, limit))
  }

  ghost function Below(m: map<Path, Item>, limit: Path): map<Path, Item> {
    map k | k in m && Less(k, limit) :: m[k]
  }

  lemma {:induction false} BeforeIs(n: Node, limit: Path)
    requires n.Sound()
    ensures Sound(BeforeIn(n, limit)) && Contents(BeforeIn(n, limit)) == Below(n.Contents(), limit)
  {
    hide Less, Node.Sound, Node.Contents;
    OrderFacts(n, limit);
    if Less(n.key, limit) && !Less(n.Maximum(), limit) && n.Fork? {
      ForkIs(n);
      BeforeIs(n.left, limit);
      BeforeIs(n.right, limit);
      BelowJoin(n.left.Contents(), n.right.Contents(), limit);
      JoinIs(n, BeforeIn(n.left, limit), BeforeIn(n.right, limit));
    }
  }

  // A limit not above the least key excludes all; one above the greatest, none.
  lemma OrderFacts(n: Node, limit: Path)
    requires n.Sound()
    ensures !Less(n.key, limit) ==> Below(n.Contents(), limit) == map[]
    ensures Less(n.Maximum(), limit) ==> Below(n.Contents(), limit) == n.Contents()
  {
    hide Less, Node.Sound;
    FieldsExact(n);
    forall k | k in n.Contents()
      ensures Less(k, limit) ==> Less(n.key, limit)
      ensures Less(n.Maximum(), limit) ==> Less(k, limit)
    {
      if k != n.key && Less(k, limit) {
        LessTransitive(n.key, k, limit);
      }
      if k != n.Maximum() && Less(n.Maximum(), limit) {
        LessTransitive(k, n.Maximum(), limit);
      }
    }
  }

  lemma BelowJoin(x: map<Path, Item>, y: map<Path, Item>, limit: Path)
    ensures Below(x + y, limit) == Below(x, limit) + Below(y, limit)
  {
    hide Less;
  }

  lemma BeforeRestricts(n: Index, limit: Path)
    requires Sound(n)
    ensures Sound(Before(n, limit)) && Contents(Before(n, limit)) == Below(Contents(n), limit)
  {
    if n.Some? {
      BeforeIs(n.value, limit);
    }
  }

  // ---- The in-order walk ----

  function Walk(n: Index): seq<(Path, Item)> {
    if n.None? then [] else WalkIn(n.value)
  }

  function WalkIn(n: Node): seq<(Path, Item)> {
    if n.Leaf? then [(n.key, n.item)] else WalkIn(n.left) + WalkIn(n.right)
  }

  // Every binding once, in ascending key order.
  ghost predicate Lists(ws: seq<(Path, Item)>, m: map<Path, Item>) {
    && (forall i, j :: 0 <= i < j < |ws| ==> Less(ws[i].0, ws[j].0))
    && (forall w :: w in ws ==> w.0 in m && m[w.0] == w.1)
    && (forall k :: k in m ==> (k, m[k]) in ws)
  }

  lemma {:induction false} WalkIs(n: Node)
    requires n.Sound()
    ensures Lists(WalkIn(n), n.Contents())
  {
    hide Agree, Less;
    if n.Fork? {
      WalkIs(n.left);
      WalkIs(n.right);
      SidesApart(n.left.Contents(), n.right.Contents(), n.key, n.bit);
      ListsConcat(WalkIn(n.left), WalkIn(n.right), n.left.Contents(), n.right.Contents());
    }
  }

  lemma ListsConcat(xs: seq<(Path, Item)>, ys: seq<(Path, Item)>, x: map<Path, Item>, y: map<Path, Item>)
    requires Lists(xs, x) && Lists(ys, y) && x.Keys !! y.Keys
    requires forall j, k :: j in x && k in y ==> Less(j, k)
    ensures Lists(xs + ys, x + y)
  {
    hide Less;
    var ws := xs + ys;
    forall i, j | 0 <= i < j < |ws|
      ensures Less(ws[i].0, ws[j].0)
    {
      if i < |xs| <= j {
        assert ws[i] in xs && ws[j] in ys;
      }
    }
  }

  lemma WalkAscends(n: Index)
    requires Sound(n)
    ensures Lists(Walk(n), Contents(n))
  {
    if n.Some? {
      WalkIs(n.value);
    }
  }

  // ---- History independence ----

  // Equal contents give equal tries, whatever the edits that led to them.
  lemma {:induction false} Unique(a: Node, c: Node)
    requires a.Sound() && c.Sound() && a.Contents() == c.Contents()
    ensures a == c
  {
    hide Agree, Less;
    FieldsExact(a);
    FieldsExact(c);
    if a.Fork? || c.Fork? {
      SameFork(a, c);
    }
    if a.Fork? && c.Fork? {
      SameBit(a, c);
      SameSides(a, c);
      Unique(a.left, c.left);
      Unique(a.right, c.right);
    }
  }

  lemma IndexUnique(a: Index, c: Index)
    requires Sound(a) && Sound(c)
    ensures Contents(a) == Contents(c) <==> a == c
  {
    if a.Some? {
      FieldsExact(a.value);
    }
    if c.Some? {
      FieldsExact(c.value);
    }
    if a.Some? && c.Some? && Contents(a) == Contents(c) {
      Unique(a.value, c.value);
    }
  }

  // A fork holds two keys; a leaf holds one.
  lemma SameFork(a: Node, c: Node)
    requires a.Sound() && c.Sound() && a.Contents() == c.Contents()
    ensures a.Fork? <==> c.Fork?
  {
    if a.Fork? {
      ForkKeys(a);
    }
    if c.Fork? {
      ForkKeys(c);
    }
  }

  lemma ForkKeys(n: Node)
    requires n.Sound() && n.Fork?
    ensures n.left.key in n.Contents() && n.right.key in n.Contents() && n.left.key != n.right.key
    ensures n.left.key in n.left.Contents() && n.right.key in n.right.Contents()
  {
    hide Agree, Less;
    FieldsExact(n.left);
    FieldsExact(n.right);
    SidesApart(n.left.Contents(), n.right.Contents(), n.key, n.bit);
  }

  lemma SameBit(a: Node, c: Node)
    requires a.Sound() && c.Sound() && a.Contents() == c.Contents() && a.Fork? && c.Fork?
    ensures a.bit == c.bit
  {
    BitLeast(a, c);
    BitLeast(c, a);
  }

  // The keys of a fork agree before its bit, so no fork over the same keys parts
  // earlier.
  lemma BitLeast(a: Node, c: Node)
    requires a.Sound() && c.Sound() && a.Contents() == c.Contents() && a.Fork? && c.Fork?
    ensures c.bit >= a.bit
  {
    ForkKeys(c);
    assert c.left.key in a.Contents() && c.right.key in a.Contents();
    assert Agree(c.left.key, a.key, a.bit) && Agree(c.right.key, a.key, a.bit);
  }

  lemma SameSides(a: Node, c: Node)
    requires a.Sound() && c.Sound() && a.Contents() == c.Contents() && a.Fork? && c.Fork? && a.bit == c.bit
    ensures a.left.Contents() == c.left.Contents() && a.right.Contents() == c.right.Contents()
  {
    hide Agree;
    SideIs(a, false);
    SideIs(c, false);
    SideIs(a, true);
    SideIs(c, true);
  }

  lemma SideIs(n: Node, on: bool)
    requires n.Sound() && n.Fork?
    ensures (if on then n.right else n.left).Contents()
      == (map k | k in n.Contents() && k[n.bit] == on :: n.Contents()[k])
  {
    hide Agree;
  }
}
