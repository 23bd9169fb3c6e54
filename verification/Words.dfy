// Machine words: 64-bit shifts written out over the integers.
module Words {
  const TWO64: nat := 0x1_0000_0000_0000_0000

  type U64 = x: int | 0 <= x < 0x1_0000_0000_0000_0000

  newtype byte = x: int | 0 <= x < 256

  datatype Option<+T> = None | Some(value: T)

  datatype Result<+T, +E> = Ok(value: T) | Err(error: E)

  function Min(a: int, b: int): int {
    if a <= b then a else b
  }

  function Max(a: int, b: int): int {
    if a <= b then b else a
  }

  function Pow2(n: nat): (p: nat)
    ensures p >= 1
  {
    if n == 0 then 1 else 2 * Pow2(n - 1)
  }

  // d * s, defined by repeated addition so that specifications stay linear.
  function Times(d: nat, s: nat): nat {
    if d == 0 then 0 else Times(d - 1, s) + s
  }

  // `x >> s` on uint64, one bit at a time: zero once s reaches the word size.
  function Shr(x: U64, s: nat): U64
    decreases s
  {
    if s == 0 then x else Shr(x / 2, s - 1)
  }

  // `x << s` on uint64, one bit at a time: the high bits are dropped.
  function Shl(x: U64, s: nat): U64
    decreases s
  {
    if s == 0 then x else Shl((2 * x) % TWO64, s - 1)
  }

  // `x - y` on uint64: wraps.
  function Sub(x: U64, y: U64): U64 {
    (x - y) % TWO64
  }

  lemma {:induction false} TimesIs(d: nat, s: nat)
    ensures Times(d, s) == d * s
  {
    if d > 0 {
      TimesIs(d - 1, s);
    }
  }

  lemma {:induction false} TimesMono(d: nat, e: nat, s: nat)
    requires d <= e
    ensures Times(d, s) <= Times(e, s)
  {
    if d < e {
      TimesMono(d, e - 1, s);
    }
  }

  lemma {:induction false} TimesGrows(d: nat, s: nat)
    requires 1 <= s
    ensures d <= Times(d, s)
  {
    if d > 0 {
      TimesGrows(d - 1, s);
    }
  }

  lemma {:induction false} TimesOne(d: nat)
    ensures Times(d, 1) == d
  {
    if d > 0 {
      TimesOne(d - 1);
    }
  }

  lemma {:induction false} TimesDouble(d: nat, s: nat)
    ensures Times(d, 2 * s) == 2 * Times(d, s) == Times(2 * d, s)
  {
    if d > 0 {
      TimesDouble(d - 1, s);
      assert Times(2 * d, s) == Times(2 * d - 1, s) + s;
    }
  }

  lemma {:induction false} TimesPlus(d: nat, e: nat, s: nat)
    ensures Times(d + e, s) == Times(d, s) + Times(e, s)
  {
    if e > 0 {
      TimesPlus(d, e - 1, s);
      assert d + e - 1 == d + (e - 1);
    }
  }

  lemma TimesComm(d: nat, s: nat)
    ensures Times(d, s) == Times(s, d)
  {
    TimesIs(d, s);
    TimesIs(s, d);
  }

  // n * (c * s) == (n * s) * c
  lemma {:induction false} TimesSwap(n: nat, c: nat, s: nat)
    ensures Times(n, Times(c, s)) == Times(Times(n, s), c)
  {
    if n > 0 {
      TimesSwap(n - 1, c, s);
      TimesPlus(Times(n - 1, s), s, c);
      TimesComm(c, s);
    }
  }

  // Shifting right gives the quotient: q = x >> s iff q*2^s <= x < (q+1)*2^s.
  lemma {:induction false} ShrQuotient(x: U64, s: nat)
    ensures Times(Shr(x, s), Pow2(s)) <= x < Times(Shr(x, s), Pow2(s)) + Pow2(s)
    decreases s
  {
    if s == 0 {
      TimesOne(x);
    } else {
      ShrQuotient(x / 2, s - 1);
      TimesDouble(Shr(x, s), Pow2(s - 1));
    }
  }

  // Shifting left is exact as long as the product is a word.
  lemma {:induction false} ShlExact(x: U64, s: nat)
    requires Times(x, Pow2(s)) < TWO64
    ensures Shl(x, s) == Times(x, Pow2(s))
    decreases s
  {
    if s == 0 {
      TimesOne(x);
    } else {
      TimesDouble(x, Pow2(s - 1));
      TimesGrows(2 * x, Pow2(s - 1));
      ShlExact(2 * x, s - 1);
    }
  }

  lemma {:induction false} ShrShrinks(high: U64, s: nat)
    requires 1 <= high && 1 <= s
    ensures Shr(high, s) < high
    decreases s
  {
    if s > 1 && high / 2 > 0 {
      ShrShrinks(high / 2, s - 1);
    } else if s > 1 {
      ShrZero(s - 1);
    }
  }

  lemma {:induction false} ShrZero(s: nat)
    ensures Shr(0, s) == 0
  {
    if s > 0 {
      ShrZero(s - 1);
    }
  }

  lemma {:induction false} Pow2Add(a: nat, b: nat)
    ensures Pow2(a + b) == Times(Pow2(a), Pow2(b))
  {
    if a == 0 {
      assert Times(1, Pow2(b)) == Times(0, Pow2(b)) + Pow2(b);
    } else {
      Pow2Add(a - 1, b);
      TimesDouble(Pow2(a - 1), Pow2(b));
    }
  }

  lemma {:induction false} Pow2Mono(a: nat, b: nat)
    requires a <= b
    ensures Pow2(a) <= Pow2(b)
  {
    if a < b {
      Pow2Mono(a, b - 1);
    }
  }

  lemma Pow2Of64()
    ensures Pow2(64) == TWO64
  {
    assert Pow2(8) == 0x100;
    Pow2Add(8, 8);
    TimesIs(0x100, 0x100);
    Pow2Add(16, 16);
    TimesIs(0x1_0000, 0x1_0000);
    Pow2Add(32, 32);
    TimesIs(0x1_0000_0000, 0x1_0000_0000);
  }

  lemma BelowWord(s: nat)
    ensures s < 64 <==> Pow2(s) < TWO64
  {
    Pow2Of64();
    if s < 64 {
      assert Pow2(64) == 2 * Pow2(63);
      Pow2Mono(s, 63);
    } else {
      Pow2Mono(64, s);
    }
  }
}
