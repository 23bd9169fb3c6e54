// Byte strings compared byte by byte; a proper prefix comes first.
module ByteOrder {
  import opened Words
  import opened Sorting

  predicate BytesLess(x: seq<byte>, y: seq<byte>) {
    y != [] && (x == [] || x[0] < y[0] || (x[0] == y[0] && BytesLess(x[1..], y[1..])))
  }

  lemma {:induction false} BytesAsymmetric(x: seq<byte>, y: seq<byte>)
    ensures BytesLess(x, y) ==> !BytesLess(y, x)
    ensures !BytesLess(x, y) && !BytesLess(y, x) <==> x == y
  {
    if x != [] && y != [] && x[0] == y[0] {
      BytesAsymmetric(x[1..], y[1..]);
      assert x == [x[0]] + x[1..] && y == [y[0]] + y[1..];
    }
  }

  lemma {:induction false} BytesTransitive(x: seq<byte>, y: seq<byte>, z: seq<byte>)
    requires !BytesLess(y, x) && !BytesLess(z, y)
    ensures !BytesLess(z, x)
  {
    if x != [] && y != [] && z != [] && x[0] == y[0] == z[0] {
      BytesTransitive(x[1..], y[1..], z[1..]);
    }
  }

  // The first differing byte decides, and a proper prefix is smaller.
  lemma {:induction false} BytesLessIs(x: seq<byte>, y: seq<byte>)
    ensures BytesLess(x, y) <==> exists i: nat :: Parts(x, y, i)
  {
    forall i: nat | Parts(x, y, i) && i > 0
      ensures x[0] == y[0]
    {
      assert x[..i][0] == y[..i][0];
    }
    if x != [] && y != [] && x[0] == y[0] {
      assert x == [x[0]] + x[1..] && y == [y[0]] + y[1..];
      BytesLessIs(x[1..], y[1..]);
      if i: nat :| Parts(x[1..], y[1..], i) {
        assert x[..i + 1] == [x[0]] + x[1..][..i] && y[..i + 1] == [y[0]] + y[1..][..i];
        assert Parts(x, y, i + 1);
      }
      if i: nat :| Parts(x, y, i) {
        assert x[..i] == [x[0]] + x[1..][..i - 1] && y[..i] == [y[0]] + y[1..][..i - 1];
        assert Parts(x[1..], y[1..], i - 1);
      }
    } else if BytesLess(x, y) {
      assert Parts(x, y, 0);
    }
  }

  ghost predicate Parts(x: seq<byte>, y: seq<byte>, i: nat) {
    i <= |x| && i < |y| && x[..i] == y[..i] && (i == |x| || x[i] < y[i])
  }

  // Comparing items by a byte-string key orders them.
  function ByKey<T>(key: T -> seq<byte>): (T, T) -> bool {
    (x: T, y: T) => BytesLess(key(x), key(y))
  }

  lemma KeyOrders<T(!new)>(key: T -> seq<byte>)
    ensures Orders(ByKey(key))
  {
    var less := ByKey(key);
    forall x: T, y: T | less(x, y)
      ensures !less(y, x)
    {
      BytesAsymmetric(key(x), key(y));
    }
    forall x: T, y: T, z: T | !less(y, x) && !less(z, y)
      ensures !less(z, x)
    {
      BytesTransitive(key(x), key(y), key(z));
    }
  }
}
