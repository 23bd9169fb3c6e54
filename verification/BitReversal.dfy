// The in-place bit-reversal permutation of a power-of-two array.
module BitReversal {
  import opened Words

  // The low `n` bits of x in opposite order.
  function Reverse(x: nat, n: nat): (r: nat)
    ensures r < Pow2(n)
  {
    if n == 0 then 0 else Reverse(x / 2, n - 1) + if x % 2 == 1 then Pow2(n - 1) else 0
  }

  // Bit i, counted from the least significant.
  predicate Bit(x: nat, i: nat) {
    if i == 0 then x % 2 == 1 else Bit(x / 2, i - 1)
  }

  // Bit i of the reversal is the bit that is i places below the top one.
  lemma {:induction false} ReverseBits(x: nat, n: nat, i: nat)
    requires i < n
    ensures Bit(Reverse(x, n), i) == Bit(x, n - 1 - i)
  {
    var y := Reverse(x / 2, n - 1);
    TopBit(y, n - 1, i);
    if i < n - 1 {
      ReverseBits(x / 2, n - 1, i);
    }
  }

  // A higher bit leaves the lower ones alone.
  lemma {:induction false} TopBit(y: nat, n: nat, i: nat)
    requires y < Pow2(n) && i <= n
    ensures Bit(y + Pow2(n), i) == (i == n || Bit(y, i))
    ensures i == n ==> !Bit(y, i)
  {
    if i > 0 {
      assert (y + Pow2(n)) / 2 == y / 2 + Pow2(n - 1);
      TopBit(y / 2, n - 1, i - 1);
    }
  }

  // Reading the top bit instead of the low one.
  lemma {:induction false} ReverseTop(y: nat, top: bool, n: nat)
    requires n > 0 && y < Pow2(n - 1)
    ensures Reverse(if top then y + Pow2(n - 1) else y, n) == 2 * Reverse(y, n - 1) + if top then 1 else 0
  {
    if n > 1 {
      ReverseTop(y / 2, top, n - 1);
    }
  }

  lemma {:induction false} ReverseTwice(x: nat, n: nat)
    requires x < Pow2(n)
    ensures Reverse(Reverse(x, n), n) == x
  {
    if n > 0 {
      ReverseTwice(x / 2, n - 1);
      ReverseTop(Reverse(x / 2, n - 1), x % 2 == 1, n);
    }
  }

  // Reversing a whole word and shifting back reverses the low bits alone.
  lemma {:induction false} ReverseWord(x: nat, k: nat, s: nat)
    requires x < Pow2(k)
    ensures Reverse(x, k + s) < TWO64 ==> Shr(Reverse(x, k + s), s) == Reverse(x, k)
  {
    if s > 0 {
      Pow2Mono(k, k + s - 1);
      ReverseTop(x, false, k + s);
      ReverseWord(x, k, s - 1);
    }
  }

  // The length of a word without its leading zeros.
  method BitLength(x: U64) returns (n: nat)
    ensures n <= 64 && x < Pow2(n) && (n > 0 ==> Pow2(n - 1) <= x)
  {
    n := 0;
    Pow2Of64();
    while n < 64 && Pow2(n) <= x
      invariant n <= 64 && (n > 0 ==> Pow2(n - 1) <= x)
    {
      n := n + 1;
    }
  }

  // Element i of the result is the element at the reversed index.
  ghost predicate IsReversal<T>(was: seq<T>, now: seq<T>, k: nat) {
    |was| == |now| == Pow2(k) && forall i :: 0 <= i < |now| ==> now[i] == was[Reverse(i, k)]
  }

  method BitReverse<T>(values: array<T>, ghost k: nat)
    requires values.Length == Pow2(k) && values.Length < TWO64
    modifies values
    ensures IsReversal(old(values[..]), values[..], k)
  {
    hide Reverse, Pow2, Shr, Origin, Partial, IsReversal;
    ghost var was := values[..];
    var length := BitLength(values.Length);
    ExactLength(k, length);
    var bitLen := length - 1;
    PartialEnds(was, k);
    for i := 0 to values.Length
      invariant values[..] == Partial(was, i, k)
    {
      ShiftedReverse(i, k);
      var j := Shr(Reverse(i, 64), 64 - bitLen);
      PartialNext(was, i, k);
      if j > i {
        values[i], values[j] := values[j], values[i];
      }
    }
  }

  // Where the element at x comes from once the indices below i are done.
  function Origin(x: nat, i: nat, k: nat): (y: nat)
    requires x < Pow2(k)
    ensures y < Pow2(k)
  {
    if Min(x, Reverse(x, k)) < i then Reverse(x, k) else x
  }

  lemma OriginEnds(k: nat)
    ensures forall x :: 0 <= x < Pow2(k) ==> Origin(x, 0, k) == x && Origin(x, Pow2(k), k) == Reverse(x, k)
  {
    hide Reverse;
  }

  // The array once the indices below i are done.
  ghost function Partial<T>(was: seq<T>, i: nat, k: nat): (s: seq<T>)
    requires |was| == Pow2(k)
    ensures |s| == |was|
  {
    seq(|was|, x requires 0 <= x < |was| => was[Origin(x, i, k)])
  }

  lemma PartialEnds<T>(was: seq<T>, k: nat)
    requires |was| == Pow2(k)
    ensures Partial(was, 0, k) == was && IsReversal(was, Partial(was, |was|, k), k)
  {
    hide Origin;
    OriginEnds(k);
  }

  lemma PartialNext<T>(was: seq<T>, i: nat, k: nat)
    requires |was| == Pow2(k) && i < |was|
    ensures var j, now := Reverse(i, k), Partial(was, i, k);
      j < |was| && Partial(was, i + 1, k) == if j > i then now[i := now[j]][j := now[i]] else now
  {
    hide Origin, Reverse, Pow2;
    OriginNext(i, k);
  }

  // Handling index i exchanges it with its reversal, unless that was done before.
  lemma OriginNext(i: nat, k: nat)
    requires i < Pow2(k)
    ensures var j := Reverse(i, k);
      && j < Pow2(k) && Origin(i, i + 1, k) == j
      && (j <= i ==> forall x :: 0 <= x < Pow2(k) ==> Origin(x, i + 1, k) == Origin(x, i, k))
      && (j > i ==> Origin(i, i, k) == i && Origin(j, i, k) == j && Origin(j, i + 1, k) == i)
      && (j > i ==> forall x :: 0 <= x < Pow2(k) && x != i && x != j ==> Origin(x, i + 1, k) == Origin(x, i, k))
  {
    hide Reverse, Pow2;
    Involution(i, k);
  }

  lemma ShiftedReverse(i: nat, k: nat)
    requires i < Pow2(k) < TWO64
    ensures k < 64 && Reverse(i, 64) < TWO64 && Shr(Reverse(i, 64), 64 - k) == Reverse(i, k)
  {
    Pow2Of64();
    if k >= 64 {
      Pow2Mono(64, k);
    }
    ReverseWord(i, k, 64 - k);
  }

  // Only i and its reversal are exchanged with each other.
  lemma Involution(i: nat, k: nat)
    requires i < Pow2(k)
    ensures Reverse(i, k) < Pow2(k) && Reverse(Reverse(i, k), k) == i
    ensures forall x :: 0 <= x < Pow2(k) && Reverse(x, k) == i ==> x == Reverse(i, k)
  {
    ReverseTwice(i, k);
    forall x | 0 <= x < Pow2(k) && Reverse(x, k) == i
      ensures x == Reverse(i, k)
    {
      ReverseTwice(x, k);
    }
  }

  lemma ExactLength(k: nat, length: nat)
    requires Pow2(k) < Pow2(length) && (length > 0 ==> Pow2(length - 1) <= Pow2(k))
    ensures length == k + 1
  {
    if length <= k {
      Pow2Mono(length, k);
    } else if length > k + 1 {
      Pow2Mono(k + 1, length - 1);
    }
  }

  // Reversing twice restores the array.
  lemma ReversalRestores<T>(was: seq<T>, once: seq<T>, twice: seq<T>, k: nat)
    requires IsReversal(was, once, k) && IsReversal(once, twice, k)
    ensures twice == was
  {
    forall i | 0 <= i < |twice|
      ensures twice[i] == was[i]
    {
      ReverseTwice(i, k);
    }
  }

  // A reversal is a permutation: every element occurs as often as before.
  lemma ReversalPermutes<T>(was: seq<T>, now: seq<T>, k: nat)
    requires IsReversal(was, now, k)
    ensures multiset(now) == multiset(was)
  {
    forall v: T
      ensures multiset(now)[v] == multiset(was)[v]
    {
      var p, q := Places(now, v), Places(was, v);
      PlacesCount(now, v);
      PlacesCount(was, v);
      forall i | i in p
        ensures Reverse(i, k) in q
      {
      }
      Mapped(p, q, k);
      forall i | i in q
        ensures Reverse(i, k) in p
      {
        ReverseTwice(i, k);
      }
      Mapped(q, p, k);
    }
  }

  ghost function Places<T>(s: seq<T>, v: T): set<nat> {
    set i: nat | i < |s| && s[i] == v
  }

  lemma {:induction false} PlacesCount<T>(s: seq<T>, v: T)
    ensures multiset(s)[v] == |Places(s, v)|
  {
    if s == [] {
      assert Places(s, v) == {};
    } else {
      var n := |s| - 1;
      assert s == s[..n] + [s[n]];
      PlacesCount(s[..n], v);
      assert Places(s, v) == Places(s[..n], v) + if s[n] == v then {n} else {};
    }
  }

  // Reversal sends one set of indices into another without collisions.
  lemma {:induction false} Mapped(p: set<nat>, q: set<nat>, k: nat)
    requires forall i :: i in p ==> i < Pow2(k) && Reverse(i, k) in q
    ensures |p| <= |q|
  {
    if p != {} {
      var i :| i in p;
      forall j | j in p - {i}
        ensures Reverse(j, k) in q - {Reverse(i, k)}
      {
        ReverseTwice(i, k);
        ReverseTwice(j, k);
      }
      Mapped(p - {i}, q - {Reverse(i, k)}, k);
    }
  }
}
