// Positions of the dense List layout: a root has C-1 content slots, every
// descendant has C, where C = 2^b.
module Geometry {
  import opened Words

  type Radix = b: nat | 1 <= b witness 8

  function Slots(b: Radix): (c: nat)
    ensures 2 <= c
  {
    Pow2(b)
  }

  // Number of indices below one slot of a node at height h.
  function Span(b: Radix, h: nat): (s: nat)
    ensures 1 <= s
  {
    if h == 0 then 1 else
      TimesGrows(Slots(b), Span(b, h - 1));
      Times(Slots(b), Span(b, h - 1))
  }

  datatype Position = Position(count: U64, height: nat, root: bool) {
    function Base(): nat {
      if root then 1 else 0
    }

    function Shift(b: Radix): nat {
      height * b
    }

    function SlotOf(index: U64, b: Radix): nat {
      Base() + Shr(index, Shift(b))
    }

    function Used(b: Radix): nat {
      if count == 0 then 0 else Shr(count - 1, Shift(b)) + 1
    }

    // The selected child and the index at which its interval starts.
    function Child(digit: U64, b: Radix): (Position, U64)
      requires height > 0
    {
      var shift := Shift(b);
      var start := Shl(digit, shift);
      var rest := Sub(count, start);
      var size := if shift < 64 then Min(rest, Shl(1, shift)) else rest;
      (Position(size, height - 1, false), start)
    }

    // The count is within the capacity of a node at this height.
    predicate Fits(b: Radix) {
      count <= Times(Slots(b) - Base(), Span(b, height))
    }
  }

  // Least number of levels under a root, by repeated shifting of the last index.
  function HeightOf(high: U64, b: Radix): nat {
    if high < Slots(b) - 1 then 0 else
      ShrShrinks(high, b);
      1 + HeightOf(Shr(high, b), b)
  }

  function RootPos(count: U64, b: Radix): Position {
    Position(count, if count == 0 then 0 else HeightOf(count - 1, b), true)
  }

  method RootPosition(count: U64, b: Radix) returns (p: Position)
    ensures p == RootPos(count, b)
  {
    var height := 0;
    if count > 0 {
      var high: U64 := count - 1;
      while high >= Slots(b) - 1
        invariant height + HeightOf(high, b) == HeightOf(count - 1, b)
        decreases high
      {
        ShrShrinks(high, b);
        high := Shr(high, b);
        height := height + 1;
      }
    }
    p := Position(count, height, true);
  }

  lemma {:induction false} SpanIsShift(b: Radix, h: nat)
    ensures Span(b, h) == Pow2(h * b)
  {
    if h > 0 {
      SpanIsShift(b, h - 1);
      assert h * b == b + (h - 1) * b;
      Pow2Add(b, (h - 1) * b);
    }
  }

  lemma {:induction false} SpanMono(b: Radix, g: nat, h: nat)
    requires g <= h
    ensures Span(b, g) <= Span(b, h)
  {
    if g < h {
      SpanMono(b, g, h - 1);
      TimesMono(1, Slots(b), Span(b, h - 1));
      assert Times(1, Span(b, h - 1)) == Times(0, Span(b, h - 1)) + Span(b, h - 1);
    }
  }

  lemma CapacityStep(n: nat, b: Radix, h: nat, high: U64)
    ensures Shr(high, b) < Times(n, Span(b, h)) <==> high < Times(n, Span(b, h + 1))
  {
    var q: nat, m := Shr(high, b), Times(n, Span(b, h));
    TimesSwap(n, Slots(b), Span(b, h));
    ShrQuotient(high, b);
    if q < m {
      TimesMono(q + 1, m, Slots(b));
    } else {
      TimesMono(m, q, Slots(b));
    }
  }

  // HeightOf is the least height whose root capacity covers the last index.
  lemma {:induction false} HeightIsLeast(high: U64, b: Radix)
    ensures high < Times(Slots(b) - 1, Span(b, HeightOf(high, b)))
    ensures forall g: nat :: g < HeightOf(high, b) ==> Times(Slots(b) - 1, Span(b, g)) <= high
  {
    TimesOne(Slots(b) - 1);
    if high >= Slots(b) - 1 {
      ShrShrinks(high, b);
      HeightIsLeast(Shr(high, b), b);
      CapacityStep(Slots(b) - 1, b, HeightOf(Shr(high, b), b), high);
      forall g: nat | g < HeightOf(high, b)
        ensures Times(Slots(b) - 1, Span(b, g)) <= high
      {
        if g > 0 {
          CapacityStep(Slots(b) - 1, b, g - 1, high);
        }
      }
    }
  }

  // rootPosition chooses the least height whose capacity (C-1)*C^h covers the count.
  lemma RootPositionIsLeast(count: U64, b: Radix)
    ensures var p := RootPos(count, b);
      && p.Fits(b)
      && forall g: nat :: g < p.height ==> !Position(count, g, true).Fits(b)
  {
    if count > 0 {
      HeightIsLeast(count - 1, b);
    }
  }

  // Occupied slots are exactly the digits whose interval starts below the count.
  lemma DigitUsed(p: Position, b: Radix, d: nat)
    ensures d < p.Used(b) <==> Times(d, Span(b, p.height)) < p.count
  {
    SpanIsShift(b, p.height);
    if p.count > 0 {
      ShrQuotient(p.count - 1, p.Shift(b));
      var last := p.Used(b) - 1;
      if d <= last {
        TimesMono(d, last, Span(b, p.height));
      } else {
        TimesMono(last + 1, d, Span(b, p.height));
      }
    }
  }

  // At height zero every index has its own slot.
  lemma LeafUsed(p: Position, b: Radix)
    requires p.height == 0
    ensures p.Used(b) == p.count
  {
    assert p.Shift(b) == 0;
  }

  // Fitting positions never use more slots than the node has.
  lemma UsedFits(p: Position, b: Radix)
    requires p.Fits(b)
    ensures p.Used(b) <= Slots(b) - p.Base()
  {
    DigitUsed(p, b, Slots(b) - p.Base());
  }

  // No shift overflows: a used child's interval starts at digit*C^h exactly, also
  // when the virtual span is 2^64 or more, and the child again fits its level.
  lemma ChildExact(p: Position, digit: nat, b: Radix)
    requires p.height > 0 && digit < p.Used(b)
    ensures digit < TWO64
    ensures var (child, start) := p.Child(digit, b);
      && start == Times(digit, Span(b, p.height)) < p.count
      && child.count == Min(p.count - start, Span(b, p.height))
      && child.height == p.height - 1 && !child.root && child.Fits(b)
  {
    DigitUsed(p, b, digit);
    StartExact(digit, p.height, b, p.count);
    WidthExact(digit, p.height, b, p.count);
    SubExact(p.count, Times(digit, Span(b, p.height)));
  }

  lemma SubExact(x: U64, y: U64)
    requires y <= x
    ensures Sub(x, y) == x - y
  {
  }

  lemma StartExact(digit: nat, h: nat, b: Radix, count: U64)
    requires Times(digit, Span(b, h)) < count
    ensures digit < TWO64 && Shl(digit, h * b) == Times(digit, Span(b, h))
  {
    SpanIsShift(b, h);
    TimesGrows(digit, Span(b, h));
    ShlExact(digit, h * b);
  }

  lemma WidthExact(digit: nat, h: nat, b: Radix, count: U64)
    requires Times(digit, Span(b, h)) < count
    ensures h * b < 64 ==> Shl(1, h * b) == Span(b, h)
    ensures h * b >= 64 ==> count <= Span(b, h) && digit == 0
  {
    SpanIsShift(b, h);
    BelowWord(h * b);
    assert Times(1, Span(b, h)) == Times(0, Span(b, h)) + Span(b, h);
    TimesMono(Min(1, digit), digit, Span(b, h));
    if h * b < 64 {
      ShlExact(1, h * b);
    }
  }

  // An index below the count goes to one occupied slot, and its offset lies
  // inside that slot's interval.
  lemma SlotExact(p: Position, index: U64, b: Radix)
    requires p.Fits(b) && index < p.count
    ensures var d, s := p.SlotOf(index, b) - p.Base(), Span(b, p.height);
      && 0 <= d < p.Used(b) && p.Base() + d < Slots(b)
      && Times(d, s) <= index < Times(d, s) + s
    ensures p.height > 0 ==>
      var (child, start) := p.Child(p.SlotOf(index, b) - p.Base(), b);
      start <= index && index - start < child.count
  {
    var d := p.SlotOf(index, b) - p.Base();
    SpanIsShift(b, p.height);
    ShrQuotient(index, p.Shift(b));
    DigitUsed(p, b, d);
    UsedFits(p, b);
    if p.height > 0 {
      ChildExact(p, d, b);
    }
  }

  // The intervals of the used children partition [0, count) in order.
  lemma ChildrenPartition(p: Position, digit: nat, b: Radix)
    requires p.height > 0 && digit < p.Used(b)
    ensures digit < TWO64
    ensures digit == 0 ==> p.Child(digit, b).1 == 0
    ensures var (child, start) := p.Child(digit, b);
      if digit + 1 < p.Used(b)
      then digit + 1 < TWO64 && start + child.count == p.Child(digit + 1, b).1
      else start + child.count == p.count
  {
    DigitUsed(p, b, digit + 1);
    ChildExact(p, digit, b);
    if digit + 1 < p.Used(b) {
      ChildExact(p, digit + 1, b);
    }
  }

  // A root never needs more than 64 levels above its leaves.
  lemma RootHeightBound(count: U64, b: Radix)
    ensures RootPos(count, b).height <= 64
  {
    hide HeightOf, Position.Fits;
    RootPositionIsLeast(count, b);
    WordFits(count, b);
  }

  lemma WordFits(count: U64, b: Radix)
    ensures Position(count, 64, true).Fits(b)
  {
    SpanIsShift(b, 64);
    Pow2Of64();
    TimesIs(64, b);
    Pow2Mono(64, 64 * b);
    assert Times(1, Span(b, 64)) == Times(0, Span(b, 64)) + Span(b, 64);
    TimesMono(1, Slots(b) - 1, Span(b, 64));
  }

  // At a leaf every slot covers one index.
  lemma LeafSpan(b: Radix, d: nat)
    ensures Span(b, 0) == 1 && Times(d, 1) == d && Times(d, Span(b, 0)) == d
  {
    TimesOne(d);
  }
}
