/** Sums over a window, in exact arithmetic: the reference the rolling
    accumulators are proved against. */
module Moments {

  // --------------------------------------------------------------- products

  /** A product, by name, so that a proof about sums need not look inside it. */
  function Mul(a: real, b: real): real { a * b }

  lemma Positive(a: real, b: real)
    requires a > 0.0 && b > 0.0
    ensures Mul(a, b) > 0.0
  {
  }

  lemma Negated(a: real)
    ensures Mul(-a, -a) == Mul(a, a)
  {
  }

  lemma SquareSign(x: real)
    ensures Mul(x, x) >= 0.0 && (Mul(x, x) == 0.0 <==> x == 0.0)
  {
    hide Mul;
    if x == 0.0 {
      ZeroTimes(x);
    } else if x < 0.0 {
      Positive(-x, -x);
      Negated(x);
    } else {
      Positive(x, x);
    }
  }

  lemma Expanded(x: real, c: real, s: real, n: real)
    ensures Mul(x - c, x - c) == Mul(x, x) - 2.0 * Mul(c, x) + Mul(c, c)
    ensures Mul(c, x + s) == Mul(c, x) + Mul(c, s)
    ensures Mul(n + 1.0, Mul(c, c)) == Mul(n, Mul(c, c)) + Mul(c, c)
    ensures Mul(n + 1.0, c) == Mul(n, c) + c
  {
  }

  lemma Quotient(s: real, n: real)
    requires n != 0.0
    ensures s == Mul(n, s / n)
  {
  }

  lemma CrossTerm(n: real, m: real, s: real)
    requires s == Mul(n, m)
    ensures Mul(m, s) == Mul(n, Mul(m, m))
  {
  }

  lemma Scaled(n: real, m: real, q: real)
    ensures Mul(n, q - Mul(n, Mul(m, m))) == Mul(n, q) - Mul(Mul(n, m), Mul(n, m))
  {
  }

  lemma ZeroTimes(a: real)
    ensures Mul(a, 0.0) == 0.0 && Mul(0.0, a) == 0.0
  {
  }

  lemma Cancel(n: real, a: real, s: real)
    requires n > 0.0 && s == Mul(n, a)
    ensures s / n == a
  {
  }

  /** One sample more: how the mean and the spread move. `a` is the mean of `n`
      samples, `b` the mean once `v` is among them. */
  lemma OneMore(n: real, a: real, b: real, v: real)
    requires Mul(n + 1.0, b) == Mul(n, a) + v
    ensures Mul(v - a, v - b) == Mul(v, v) - Mul(n + 1.0, Mul(b, b)) + Mul(n, Mul(a, a))
  {
    assert (n + 1.0) * (b * b) == (n * a + v) * b;
    assert (n * a + v) * b == n * a * b + v * b;
    assert a * ((n + 1.0) * b) == a * (n * a + v);
    assert a * ((n + 1.0) * b) == n * a * b + a * b;
    assert a * (n * a + v) == n * (a * a) + a * v;
  }

  // ------------------------------------------------------------------- sums

  function Sum(w: seq<real>): real {
    if w == [] then 0.0 else w[0] + Sum(w[1..])
  }

  function Squares(w: seq<real>): real {
    if w == [] then 0.0 else Mul(w[0], w[0]) + Squares(w[1..])
  }

  /** Sum of the squared distances from `c`. */
  function Deviation(w: seq<real>, c: real): (r: real)
    ensures r >= 0.0
  {
    if w == [] then 0.0 else SquareSign(w[0] - c); Mul(w[0] - c, w[0] - c) + Deviation(w[1..], c)
  }

  function Mean(w: seq<real>): real {
    if w == [] then 0.0 else Sum(w) / |w| as real
  }

  /** The population variance, by its definition. */
  function Variance(w: seq<real>): (r: real) {
    if w == [] then 0.0 else Deviation(w, Mean(w)) / |w| as real
  }

  predicate Constant(w: seq<real>) {
    forall i, j :: 0 <= i < |w| && 0 <= j < |w| ==> w[i] == w[j]
  }

  lemma {:induction false} DeviationExpanded(w: seq<real>, c: real)
    ensures Deviation(w, c) == Squares(w) - 2.0 * Mul(c, Sum(w)) + Mul(|w| as real, Mul(c, c))
  {
    hide Mul;
    if w == [] {
      ZeroTimes(c);
      ZeroTimes(Mul(c, c));
    } else {
      DeviationExpanded(w[1..], c);
      Expanded(w[0], c, Sum(w[1..]), |w[1..]| as real);
      assert |w| as real == |w[1..]| as real + 1.0;
    }
  }

  /** About the mean the cross term goes away. */
  lemma AboutMean(w: seq<real>)
    requires w != []
    ensures Sum(w) == Mul(|w| as real, Mean(w))
    ensures Deviation(w, Mean(w)) == Squares(w) - Mul(|w| as real, Mul(Mean(w), Mean(w)))
  {
    hide Mul, Sum, Squares, Deviation;
    DeviationExpanded(w, Mean(w));
    Quotient(Sum(w), |w| as real);
    CrossTerm(|w| as real, Mean(w), Sum(w));
  }

  /** n times the spread is n times the sum of squares less the squared sum. */
  lemma SpreadIdentity(w: seq<real>)
    ensures Mul(|w| as real, Deviation(w, Mean(w))) == Mul(|w| as real, Squares(w)) - Mul(Sum(w), Sum(w))
  {
    if w == [] {
      ZeroTimes(0.0);
    } else {
      hide Mul, Sum, Squares, Deviation, Mean;
      AboutMean(w);
      Scaled(|w| as real, Mean(w), Squares(w));
    }
  }

  lemma {:induction false} DeviationIsZero(w: seq<real>, c: real)
    ensures Deviation(w, c) == 0.0 <==> forall i :: 0 <= i < |w| ==> w[i] == c
  {
    hide Mul;
    if w != [] {
      DeviationIsZero(w[1..], c);
      SquareSign(w[0] - c);
      if Deviation(w, c) == 0.0 {
        forall i | 0 <= i < |w| ensures w[i] == c {
          assert i > 0 ==> w[i] == w[1..][i - 1];
        }
      } else if w[0] == c {
        var i :| 0 <= i < |w[1..]| && w[1..][i] != c;
        assert w[i + 1] != c;
      }
    }
  }

  lemma {:induction false} SumOfConstant(w: seq<real>, c: real)
    requires forall i :: 0 <= i < |w| ==> w[i] == c
    ensures Sum(w) == Mul(|w| as real, c)
  {
    hide Mul;
    if w == [] {
      ZeroTimes(c);
    } else {
      SumOfConstant(w[1..], c);
      Expanded(0.0, c, 0.0, |w[1..]| as real);
      assert |w| as real == |w[1..]| as real + 1.0;
    }
  }

  lemma ConstantMean(w: seq<real>)
    requires w != [] && Constant(w)
    ensures forall i :: 0 <= i < |w| ==> w[i] == Mean(w)
  {
    hide Mul, Sum;
    SumOfConstant(w, w[0]);
    Cancel(|w| as real, w[0], Sum(w));
  }

  /** The test for a constant window: `n * sum(x^2) == sum(x)^2` exactly when all
      samples are equal, and then, and only then, there is no spread. */
  lemma ConstantTest(w: seq<real>)
    ensures Mul(|w| as real, Squares(w)) == Mul(Sum(w), Sum(w)) <==> Constant(w)
    ensures Deviation(w, Mean(w)) == 0.0 <==> Constant(w)
  {
    SpreadIdentity(w);
    DeviationIsZero(w, Mean(w));
    ZeroTimes(|w| as real);
    if w != [] {
      hide Mul, Sum, Squares, Deviation, Mean;
      if Deviation(w, Mean(w)) != 0.0 { Positive(|w| as real, Deviation(w, Mean(w))); }
      if Constant(w) { ConstantMean(w); }
    }
  }

  lemma {:induction false} SumsRemove(w: seq<real>, i: nat)
    requires i < |w|
    ensures Sum(w) == Sum(w[..i] + w[i + 1..]) + w[i]
    ensures Squares(w) == Squares(w[..i] + w[i + 1..]) + Mul(w[i], w[i])
  {
    hide Mul;
    var rest := w[..i] + w[i + 1..];
    if i == 0 {
      assert rest == w[1..];
    } else {
      SumsRemove(w[1..], i - 1);
      assert rest[0] == w[0] && rest[1..] == w[1..][..i - 1] + w[1..][i..];
    }
  }
}
