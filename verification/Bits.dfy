// Fixed-width keys as bit strings, most significant bit first.
module Bits {
  import opened Words

  // Byte-wise comparison of equally long keys: the first differing bit decides.
  predicate LessFrom(a: seq<bool>, c: seq<bool>, i: nat)
    requires |a| == |c| && i <= |a|
    decreases |a| - i
  {
    i < |a| && if a[i] != c[i] then c[i] else LessFrom(a, c, i + 1)
  }

  predicate Less(a: seq<bool>, c: seq<bool>)
    requires |a| == |c|
  {
    LessFrom(a, c, 0)
  }

  // The position that decides a comparison.
  ghost predicate Decides(a: seq<bool>, c: seq<bool>, i: nat)
    requires |a| == |c|
  {
    i < |a| && a[..i] == c[..i] && !a[i] && c[i]
  }

  lemma {:induction false} LessFromDecides(a: seq<bool>, c: seq<bool>, i: nat)
    requires |a| == |c| && i <= |a| && a[..i] == c[..i]
    ensures LessFrom(a, c, i) <==> exists j: nat :: Decides(a, c, j)
    decreases |a| - i
  {
    if i < |a| && a[i] == c[i] {
      assert a[..i + 1] == a[..i] + [a[i]] && c[..i + 1] == c[..i] + [c[i]];
      LessFromDecides(a, c, i + 1);
    } else {
      forall j: nat | Decides(a, c, j)
        ensures i < |a| && c[i]
      {
        if j < i {
          assert a[..i][j] == c[..i][j];
        } else if i < j {
          assert a[..j][i] == c[..j][i];
        }
      }
      if i < |a| && c[i] {
        assert Decides(a, c, i);
      }
    }
  }

  lemma LessIff(a: seq<bool>, c: seq<bool>)
    requires |a| == |c|
    ensures Less(a, c) <==> exists j: nat :: Decides(a, c, j)
  {
    LessFromDecides(a, c, 0);
  }

  // Bytewise comparison is a strict total order.
  lemma LessTotal(a: seq<bool>, c: seq<bool>)
    requires |a| == |c|
    ensures a != c ==> Less(a, c) != Less(c, a)
    ensures !Less(a, a)
  {
    LessFromTotal(a, c, 0);
    LessFromTotal(a, a, 0);
  }

  lemma {:induction false} LessFromTotal(a: seq<bool>, c: seq<bool>, i: nat)
    requires |a| == |c| && i <= |a| && a[..i] == c[..i]
    ensures a != c ==> LessFrom(a, c, i) != LessFrom(c, a, i)
    ensures a == c ==> !LessFrom(a, c, i)
    decreases |a| - i
  {
    if i < |a| && a[i] == c[i] {
      assert a[..i + 1] == a[..i] + [a[i]] && c[..i + 1] == c[..i] + [c[i]];
      LessFromTotal(a, c, i + 1);
    }
  }

  lemma LessTransitive(a: seq<bool>, c: seq<bool>, d: seq<bool>)
    requires |a| == |c| == |d| && Less(a, c) && Less(c, d)
    ensures Less(a, d)
  {
    LessIff(a, c);
    LessIff(c, d);
    LessIff(a, d);
    var i: nat :| Decides(a, c, i);
    var j: nat :| Decides(c, d, j);
    var k := Min(i, j);
    assert a[..k] == a[..i][..k] && c[..k] == c[..i][..k] == c[..j][..k] && d[..k] == d[..j][..k];
    if i < j {
      assert c[..j][i] == d[..j][i];
    } else if j < i {
      assert a[..i][j] == c[..i][j];
    }
    assert Decides(a, d, k);
  }

  // ---- Digits ----

  // Bits past the end of a key read as zero.
  function BitAt(key: seq<bool>, i: nat): nat {
    if i < |key| && key[i] then 1 else 0
  }

  // The value of `n` bits from `start`, most significant first.
  function BitsValue(key: seq<bool>, start: nat, n: nat): nat {
    if n == 0 then 0 else 2 * BitsValue(key, start, n - 1) + BitAt(key, start + n - 1)
  }

  lemma {:induction false} BitsBound(key: seq<bool>, start: nat, n: nat)
    ensures BitsValue(key, start, n) < Pow2(n)
  {
    if n > 0 {
      BitsBound(key, start, n - 1);
    }
  }

  lemma {:induction false} BitsEqual(a: seq<bool>, c: seq<bool>, start: nat, n: nat)
    ensures BitsValue(a, start, n) == BitsValue(c, start, n)
      <==> forall i :: start <= i < start + n ==> BitAt(a, i) == BitAt(c, i)
  {
    if n > 0 {
      BitsEqual(a, c, start, n - 1);
    }
  }

  // A smaller value means that the first differing bit is 0 against 1.
  lemma {:induction false} BitsLess(a: seq<bool>, c: seq<bool>, start: nat, n: nat) returns (i: nat)
    requires BitsValue(a, start, n) < BitsValue(c, start, n)
    ensures start <= i < start + n && BitAt(a, i) == 0 && BitAt(c, i) == 1
    ensures forall j :: start <= j < i ==> BitAt(a, j) == BitAt(c, j)
  {
    if BitsValue(a, start, n - 1) < BitsValue(c, start, n - 1) {
      i := BitsLess(a, c, start, n - 1);
    } else {
      BitsEqual(a, c, start, n - 1);
      i := start + n - 1;
    }
  }
}
