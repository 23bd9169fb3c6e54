// The KZG index opening: the quotient loop and the equation the verifier checks,
// over an arbitrary field and a domain of any size.
module Kzg {
  import opened Fields

  // Distinct nonzero evaluation points.
  ghost predicate Domain<E(!new)>(f: Field<E>, roots: seq<E>) {
    && (forall i :: 0 <= i < |roots| ==> roots[i] != f.zero)
    && forall i, j :: 0 <= i < j < |roots| ==> roots[i] != roots[j]
  }

  // The quotient of (f - f_m) by (X - w_m), in evaluation form: right at every
  // point other than w_m, and of degree below |roots| - 1, which fixes q_m.
  ghost predicate IsQuotient<E(!new)>(f: Field<E>, roots: seq<E>, values: seq<E>, m: nat, q: seq<E>) {
    && |q| == |roots| == |values| && m < |roots|
    && (forall j :: 0 <= j < |q| ==> f.mul(q[j], f.Sub(roots[j], roots[m])) == f.Sub(values[j], values[m]))
    && Dot(f, q, roots, |q|) == f.zero
  }

  // Element-wise inverses; zero stays zero.
  method BatchInvert<E(!new, ==)>(f: Field<E>, xs: seq<E>) returns (ys: seq<E>)
    ensures |ys| == |xs| && forall i :: 0 <= i < |xs| && xs[i] != f.zero ==> ys[i] == f.inv(xs[i])
  {
    ys := seq(|xs|, i requires 0 <= i < |xs| => if xs[i] == f.zero then f.zero else f.inv(xs[i]));
  }

  // One entry of the quotient divides the difference of values by that of points.
  lemma EntryDivides<E(!new)>(f: Field<E>, d: E, num: E)
    requires f.Valid() && d != f.zero
    ensures f.mul(f.mul(num, f.inv(d)), d) == num
  {
    f.MulAssoc(num, f.inv(d), d);
    f.MulOne(d);
    f.MulOne(num);
  }

  // -(q w) / z, times z, cancels q w.
  lemma Contribution<E(!new)>(f: Field<E>, q: E, w: E, z: E)
    requires f.Valid() && z != f.zero
    ensures f.mul(f.mul(f.mul(f.neg(q), w), f.inv(z)), z) == f.neg(f.mul(q, w))
  {
    EntryDivides(f, z, f.mul(f.neg(q), w));
    f.MulNeg(w, q);
  }

  // The running correction cancels the weighted sum so far.
  ghost predicate Balanced<E(!new)>(f: Field<E>, q: seq<E>, roots: seq<E>, m: nat, n: nat)
    requires m < |q| == |roots| && n <= |q|
  {
    f.add(Dot(f, q[m := f.zero], roots, n), f.mul(q[m], roots[m])) == f.zero
  }

  // Computes the quotient in one pass, reusing the buffer of differences.
  method ProveAtIndex<E(!new, ==)>(f: Field<E>, roots: seq<E>, values: seq<E>, m: nat)
    returns (quotient: array<E>, claimed: E)
    requires f.Valid() && Domain(f, roots) && |values| == |roots| && m < |roots|
    ensures fresh(quotient) && claimed == values[m]
    ensures IsQuotient(f, roots, values, m, quotient[..])
  {
    hide Balanced, Field.Valid;
    claimed := values[m];
    var z := roots[m];
    var invZ := f.inv(z);
    var n := |roots|;
    var rootsMinusZ := new E[n](i requires 0 <= i < n => f.Sub(roots[i], z));
    rootsMinusZ[m] := f.one;
    var inverse := BatchInvert(f, rootsMinusZ[..]);
    quotient := rootsMinusZ;
    quotient[m] := f.zero;
    BalancedStart(f, quotient[..], roots, m);
    for j := 0 to n
      invariant fresh(quotient) && quotient.Length == n
      invariant forall i :: 0 <= i < j && i != m ==> f.mul(quotient[i], f.Sub(roots[i], z)) == f.Sub(values[i], claimed)
      invariant Balanced(f, quotient[..], roots, m, j)
    {
      ghost var before := quotient[..];
      if j != m {
        f.SubZero(roots[j], z);
        EntryDivides(f, f.Sub(roots[j], z), f.Sub(values[j], claimed));
        var qj := f.mul(f.Sub(values[j], claimed), inverse[j]);
        quotient[j] := qj;
        var contribution := f.mul(f.mul(f.neg(qj), roots[j]), invZ);
        quotient[m] := f.add(quotient[m], contribution);
        BalancedNext(f, before, roots, m, j, qj, quotient[..]);
      } else {
        BalancedSkip(f, before, roots, m);
      }
    }
    QuotientEnds(f, roots, values, m, quotient[..]);
  }

  lemma BalancedStart<E(!new)>(f: Field<E>, q: seq<E>, roots: seq<E>, m: nat)
    requires f.Valid() && m < |q| == |roots| && q[m] == f.zero
    ensures Balanced(f, q, roots, m, 0)
  {
    f.MulZero(roots[m]);
    f.AddZero(f.zero);
  }

  lemma BalancedNext<E(!new)>(f: Field<E>, q: seq<E>, roots: seq<E>, m: nat, j: nat, qj: E, next: seq<E>)
    requires m < |q| == |roots| == |next| && j < |q| && j != m && roots[m] != f.zero
    requires next == q[j := qj][m := f.add(q[m], f.mul(f.mul(f.neg(qj), roots[j]), f.inv(roots[m])))]
    requires Balanced(f, q, roots, m, j) && f.Valid()
    ensures Balanced(f, next, roots, m, j + 1)
  {
    var c := f.mul(f.mul(f.neg(qj), roots[j]), f.inv(roots[m]));
    var x, y := q[m := f.zero], next[m := f.zero];
    DotSame(f, x, y, roots, j);
    var p := f.mul(qj, roots[j]);
    Contribution(f, qj, roots[j], roots[m]);
    f.Distribute(roots[m], q[m], c);
    f.Exchange(Dot(f, x, roots, j), p, f.mul(q[m], roots[m]), f.neg(p));
    f.AddZero(p);
    f.AddZero(f.zero);
  }

  lemma BalancedSkip<E(!new)>(f: Field<E>, q: seq<E>, roots: seq<E>, m: nat)
    requires f.Valid() && m < |q| == |roots| && Balanced(f, q, roots, m, m)
    ensures Balanced(f, q, roots, m, m + 1)
  {
    var x := q[m := f.zero];
    f.MulZero(roots[m]);
    f.AddZero(Dot(f, x, roots, m));
  }

  lemma {:induction false} DotSame<E(!new)>(f: Field<E>, x: seq<E>, y: seq<E>, roots: seq<E>, n: nat)
    requires n <= |x| && n <= |y| && n <= |roots| && x[..n] == y[..n]
    ensures Dot(f, x, roots, n) == Dot(f, y, roots, n)
  {
    if n > 0 {
      assert x[..n - 1] == x[..n][..n - 1] && y[..n - 1] == y[..n][..n - 1];
      assert x[n - 1] == x[..n][n - 1] && y[n - 1] == y[..n][n - 1];
      DotSame(f, x, y, roots, n - 1);
    }
  }

  // Filling in one entry adds its term.
  lemma {:induction false} DotFill<E(!new)>(f: Field<E>, q: seq<E>, roots: seq<E>, m: nat, n: nat)
    requires f.Valid() && m < n <= |q| && |roots| == |q|
    ensures Dot(f, q, roots, n) == f.add(Dot(f, q[m := f.zero], roots, n), f.mul(q[m], roots[m]))
  {
    var x := q[m := f.zero];
    if n == m + 1 {
      DotSame(f, x, q, roots, m);
      f.MulZero(roots[m]);
      f.AddZero(Dot(f, x, roots, m));
    } else {
      DotFill(f, q, roots, m, n - 1);
      var d, t, u := Dot(f, x, roots, n - 1), f.mul(q[m], roots[m]), f.mul(q[n - 1], roots[n - 1]);
      f.AddAssoc(d, t, u);
      f.AddComm(t, u);
      f.AddAssoc(d, u, t);
    }
  }

  lemma QuotientEnds<E(!new)>(f: Field<E>, roots: seq<E>, values: seq<E>, m: nat, q: seq<E>)
    requires f.Valid() && m < |q| == |roots| == |values| && Balanced(f, q, roots, m, |q|)
    requires forall i :: 0 <= i < |q| && i != m ==> (
      f.mul(q[i], f.Sub(roots[i], roots[m])) == f.Sub(values[i], values[m]))
    ensures IsQuotient(f, roots, values, m, q)
  {
    DotFill(f, q, roots, m, |q|);
    f.AddZero(roots[m]);
    f.AddZero(values[m]);
    f.MulZero(q[m]);
  }

  // ---- The equation at the secret point ----

  // Values l_j of the Lagrange basis at a point a: they sum to one, and
  // l_j (a - w_j) is proportional to w_j.
  ghost predicate Lagrange<E(!new)>(f: Field<E>, roots: seq<E>, l: seq<E>, a: E, c: E) {
    && |l| == |roots| && Sum(f, l, |l|) == f.one
    && forall j :: 0 <= j < |l| ==> f.mul(l[j], f.Sub(a, roots[j])) == f.mul(c, roots[j])
  }

  // One term: q l (a - w_m) == c (q w) + (v l - v_m l).
  lemma Term<E(!new)>(f: Field<E>, q: E, l: E, w: E, v: E, a: E, c: E, wm: E, vm: E)
    requires f.Valid()
    requires f.mul(q, f.Sub(w, wm)) == f.Sub(v, vm) && f.mul(l, f.Sub(a, w)) == f.mul(c, w)
    ensures f.mul(f.mul(q, l), f.Sub(a, wm)) == f.add(f.mul(c, f.mul(q, w)), f.Sub(f.mul(v, l), f.mul(vm, l)))
  {
    f.SubChain(a, w, wm);
    f.Distribute(f.mul(q, l), f.Sub(a, w), f.Sub(w, wm));
    // q l (a - w) == q (c w) == c (q w)
    f.MulAssoc(q, l, f.Sub(a, w));
    f.MulAssoc(q, c, w);
    f.MulComm(q, c);
    f.MulAssoc(c, q, w);
    // q l (w - wm) == l (v - vm)
    f.MulComm(q, l);
    f.MulAssoc(l, q, f.Sub(w, wm));
    f.MulSub(l, v, vm);
    f.MulComm(l, v);
    f.MulComm(l, vm);
  }

  lemma {:induction false} SumTerms<E(!new)>(f: Field<E>, roots: seq<E>, values: seq<E>, q: seq<E>, l: seq<E>,
                                             a: E, c: E, m: nat, n: nat)
    requires f.Valid() && |q| == |roots| == |values| == |l| && m < |roots| && n <= |roots|
    requires forall j :: 0 <= j < |q| ==> f.mul(q[j], f.Sub(roots[j], roots[m])) == f.Sub(values[j], values[m])
    requires forall j :: 0 <= j < |l| ==> f.mul(l[j], f.Sub(a, roots[j])) == f.mul(c, roots[j])
    ensures f.mul(Dot(f, q, l, n), f.Sub(a, roots[m]))
      == f.add(f.mul(c, Dot(f, q, roots, n)), f.Sub(Dot(f, values, l, n), f.mul(values[m], Sum(f, l, n))))
  {
    var s := f.Sub(a, roots[m]);
    if n == 0 {
      f.MulZero(s);
      f.MulZero(c);
      f.MulZero(values[m]);
      f.AddZero(f.zero);
    } else {
      var i := n - 1;
      SumTerms(f, roots, values, q, l, a, c, m, i);
      Term(f, q[i], l[i], roots[i], values[i], a, c, roots[m], values[m]);
      var v, t := f.mul(values[i], l[i]), f.mul(values[m], l[i]);
      f.Distribute(s, Dot(f, q, l, i), f.mul(q[i], l[i]));
      f.Distribute(c, Dot(f, q, roots, i), f.mul(q[i], roots[i]));
      f.Distribute(values[m], Sum(f, l, i), l[i]);
      f.Exchange(f.mul(c, Dot(f, q, roots, i)), f.Sub(Dot(f, values, l, i), f.mul(values[m], Sum(f, l, i))),
                 f.mul(c, f.mul(q[i], roots[i])), f.Sub(v, t));
      f.SubExchange(Dot(f, values, l, i), f.mul(values[m], Sum(f, l, i)), v, t);
    }
  }

  // What the pairing checks of the evaluations at a: f(a) - claim == q(a) (a - w_m).
  ghost predicate Equation<E(!new)>(f: Field<E>, roots: seq<E>, values: seq<E>, q: seq<E>, l: seq<E>, a: E, m: nat,
                                    claim: E) {
    && |q| == |roots| == |values| == |l| && m < |roots|
    && f.Sub(Dot(f, values, l, |l|), claim) == f.mul(Dot(f, q, l, |l|), f.Sub(a, roots[m]))
  }

  // The honest quotient satisfies the verifier's equation at every point, and with
  // it no claimed value other than the committed one does.
  lemma OpeningVerifies<E(!new)>(f: Field<E>, roots: seq<E>, values: seq<E>, q: seq<E>, l: seq<E>, a: E, c: E, m: nat,
                                 claim: E)
    requires f.Valid() && IsQuotient(f, roots, values, m, q) && Lagrange(f, roots, l, a, c)
    ensures Equation(f, roots, values, q, l, a, m, claim) <==> m < |values| && claim == values[m]
  {
    SumTerms(f, roots, values, q, l, a, c, m, |l|);
    f.MulZero(c);
    f.MulOne(values[m]);
    var p := Dot(f, values, l, |l|);
    f.AddZero(f.Sub(p, values[m]));
    SameDifference(f, p, values[m], claim);
  }

  lemma SameDifference<E(!new)>(f: Field<E>, p: E, x: E, y: E)
    requires f.Valid()
    ensures f.Sub(p, x) == f.Sub(p, y) <==> x == y
  {
    f.AddAssoc(f.neg(p), p, f.neg(x));
    f.AddAssoc(f.neg(p), p, f.neg(y));
    f.AddZero(p);
    f.AddZero(f.neg(x));
    f.AddZero(f.neg(y));
    if f.neg(x) == f.neg(y) {
      f.AddZero(x);
      f.AddZero(y);
      f.SubZero(x, y);
    }
  }
}
