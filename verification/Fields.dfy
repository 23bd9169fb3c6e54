// An arbitrary field given by its operations.
module Fields {
  datatype Field<!E(!new)> = Field(zero: E, one: E, add: (E, E) -> E, mul: (E, E) -> E, neg: E -> E, inv: E -> E) {
    // The laws apply to the elements a proof names.
    ghost predicate Valid() {
      && (forall x, y, z {:trigger Named(x, y, z)} ::
            add(add(x, y), z) == add(x, add(y, z)) && mul(mul(x, y), z) == mul(x, mul(y, z))
            && mul(x, add(y, z)) == add(mul(x, y), mul(x, z)))
      && (forall x, y {:trigger Named(x, x, y)} :: add(x, y) == add(y, x) && mul(x, y) == mul(y, x))
      && (forall x {:trigger Named(x, x, x)} ::
            add(x, zero) == x && add(x, neg(x)) == zero && mul(x, one) == x && (x != zero ==> mul(x, inv(x)) == one))
    }

    ghost predicate Named(x: E, y: E, z: E) {
      true
    }

    function Sub(x: E, y: E): E {
      add(x, neg(y))
    }

    // ---- Single steps ----

    lemma AddAssoc(x: E, y: E, z: E)
      requires Valid()
      ensures add(add(x, y), z) == add(x, add(y, z))
    {
      assert Named(x, y, z);
    }

    lemma AddComm(x: E, y: E)
      requires Valid()
      ensures add(x, y) == add(y, x)
    {
      assert Named(x, x, y);
    }

    lemma AddZero(x: E)
      requires Valid()
      ensures add(x, zero) == x && add(zero, x) == x && add(x, neg(x)) == zero && add(neg(x), x) == zero
    {
      assert Named(x, x, x);
      AddComm(x, zero);
      AddComm(x, neg(x));
    }

    lemma MulAssoc(x: E, y: E, z: E)
      requires Valid()
      ensures mul(mul(x, y), z) == mul(x, mul(y, z))
    {
      assert Named(x, y, z);
    }

    lemma MulComm(x: E, y: E)
      requires Valid()
      ensures mul(x, y) == mul(y, x)
    {
      assert Named(x, x, y);
    }

    lemma MulOne(x: E)
      requires Valid()
      ensures mul(x, one) == x && (x != zero ==> mul(inv(x), x) == one)
    {
      assert Named(x, x, x);
      MulComm(x, inv(x));
    }

    lemma Distribute(x: E, y: E, z: E)
      requires Valid()
      ensures mul(x, add(y, z)) == add(mul(x, y), mul(x, z))
      ensures mul(add(y, z), x) == add(mul(y, x), mul(z, x))
    {
      assert Named(x, y, z);
      MulComm(x, add(y, z));
      MulComm(x, y);
      MulComm(x, z);
    }

    // ---- Consequences ----

    // (w + x) + (y + z) == (w + y) + (x + z)
    lemma Exchange(w: E, x: E, y: E, z: E)
      requires Valid()
      ensures add(add(w, x), add(y, z)) == add(add(w, y), add(x, z))
    {
      AddAssoc(w, x, add(y, z));
      AddAssoc(x, y, z);
      AddComm(x, y);
      AddAssoc(y, x, z);
      AddAssoc(w, y, add(x, z));
    }

    // The opposite of an element is unique.
    lemma OppositeUnique(x: E, y: E)
      requires Valid() && add(x, y) == zero
      ensures y == neg(x)
    {
      AddAssoc(neg(x), x, y);
      AddZero(x);
      AddZero(y);
      AddZero(neg(x));
    }

    lemma MulZero(x: E)
      requires Valid()
      ensures mul(x, zero) == zero && mul(zero, x) == zero
    {
      var p := mul(x, zero);
      AddZero(zero);
      Distribute(x, zero, zero);
      AddAssoc(p, p, neg(p));
      AddZero(p);
      MulComm(x, zero);
    }

    lemma MulNeg(x: E, y: E)
      requires Valid()
      ensures mul(x, neg(y)) == neg(mul(x, y)) && mul(neg(y), x) == neg(mul(y, x))
    {
      Distribute(x, y, neg(y));
      AddZero(y);
      MulZero(x);
      OppositeUnique(mul(x, y), mul(x, neg(y)));
      MulComm(x, neg(y));
      MulComm(x, y);
    }

    lemma MulSub(x: E, y: E, z: E)
      requires Valid()
      ensures mul(x, Sub(y, z)) == Sub(mul(x, y), mul(x, z))
    {
      Distribute(x, y, neg(z));
      MulNeg(x, z);
    }

    // A difference that vanishes means equality.
    lemma SubZero(x: E, y: E)
      requires Valid()
      ensures Sub(x, y) == zero <==> x == y
    {
      AddZero(x);
      if Sub(x, y) == zero {
        AddAssoc(x, neg(y), y);
        AddZero(y);
      }
    }

    // (x - y) + (y - z) == x - z
    lemma SubChain(x: E, y: E, z: E)
      requires Valid()
      ensures add(Sub(x, y), Sub(y, z)) == Sub(x, z)
    {
      AddAssoc(x, neg(y), Sub(y, z));
      AddAssoc(neg(y), y, neg(z));
      AddZero(y);
      AddZero(neg(z));
    }

    // (x - y) + (w - z) == (x + w) - (y + z)
    lemma SubExchange(x: E, y: E, w: E, z: E)
      requires Valid()
      ensures add(Sub(x, y), Sub(w, z)) == Sub(add(x, w), add(y, z))
    {
      Exchange(x, neg(y), w, neg(z));
      Exchange(y, z, neg(y), neg(z));
      AddZero(y);
      AddZero(z);
      AddZero(zero);
      OppositeUnique(add(y, z), add(neg(y), neg(z)));
    }
  }

  // x_0 y_0 + ... + x_{n-1} y_{n-1}
  function Dot<E(!new)>(f: Field<E>, xs: seq<E>, ys: seq<E>, n: nat): E
    requires n <= |xs| && n <= |ys|
  {
    if n == 0 then f.zero else f.add(Dot(f, xs, ys, n - 1), f.mul(xs[n - 1], ys[n - 1]))
  }

  function Sum<E(!new)>(f: Field<E>, xs: seq<E>, n: nat): E
    requires n <= |xs|
  {
    if n == 0 then f.zero else f.add(Sum(f, xs, n - 1), xs[n - 1])
  }
}
