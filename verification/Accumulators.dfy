/** The two accumulators: running sums over a bounded integer type that saturates
    and says so, and Welford's recurrence, here over the reals. */
module Accumulators {
  import opened Moments

  // ------------------------------------------------- windows of integers

  function Total(w: seq<int>): int {
    if w == [] then 0 else w[0] + Total(w[1..])
  }

  /** A square, by name, so that a proof about sums need not look inside it. */
  function Sq(x: int): int { x * x }

  function TotalSquares(w: seq<int>): int {
    if w == [] then 0 else Sq(w[0]) + TotalSquares(w[1..])
  }

  lemma SquareIsNat(x: int)
    ensures Sq(x) >= 0
  {
  }

  lemma {:induction false} TotalSquaresIsNat(w: seq<int>)
    ensures TotalSquares(w) >= 0
  {
    if w != [] {
      SquareIsNat(w[0]);
      TotalSquaresIsNat(w[1..]);
    }
  }

  lemma {:induction false} WithoutLast(w: seq<int>)
    requires w != []
    ensures var last := w[|w| - 1];
            && Total(w) == Total(w[..|w| - 1]) + last
            && TotalSquares(w) == TotalSquares(w[..|w| - 1]) + Sq(last)
  {
    if |w| > 1 {
      WithoutLast(w[1..]);
      assert w[1..][..|w| - 2] == w[..|w| - 1][1..];
    }
  }

  function Reals(w: seq<int>): (r: seq<real>)
    ensures |r| == |w| && forall i :: 0 <= i < |w| ==> r[i] == w[i] as real
  {
    seq(|w|, i requires 0 <= i < |w| => w[i] as real)
  }

  lemma RealProduct(a: int, b: int)
    ensures (a * b) as real == Mul(a as real, b as real)
  {
  }

  lemma {:induction false} RealSums(w: seq<int>)
    ensures Sum(Reals(w)) == Total(w) as real && Squares(Reals(w)) == TotalSquares(w) as real
  {
    if w != [] {
      assert Reals(w)[1..] == Reals(w[1..]);
      RealSums(w[1..]);
      RealProduct(w[0], w[0]);
      hide Mul;
    }
  }

  /** Samples of magnitude at most `m` keep both sums within `n * m` and `n * m * m`. */
  lemma {:induction false} SumsAreBounded(w: seq<int>, m: int)
    requires m >= 0 && forall i :: 0 <= i < |w| ==> -m <= w[i] <= m
    ensures -(|w| * m) <= Total(w) <= |w| * m && TotalSquares(w) <= |w| * Sq(m)
  {
    if w != [] {
      SumsAreBounded(w[1..], m);
      SquareIsBounded(w[0], m);
      var k := |w| - 1;
      assert |w| * m == k * m + m && |w| * Sq(m) == k * Sq(m) + Sq(m);
    }
  }

  lemma SquareIsBounded(x: int, m: int)
    requires -m <= x <= m
    ensures Sq(x) <= Sq(m)
  {
    assert m * m - x * x == (m - x) * (m + x);
  }

  lemma {:induction false} TotalIsNat(w: seq<int>)
    requires forall i :: 0 <= i < |w| ==> w[i] >= 0
    ensures Total(w) >= 0
  {
    if w != [] { TotalIsNat(w[1..]); }
  }

  // --------------------------------------------------- division in two parts

  /** Integer division as the machine does it, towards zero. */
  function TruncDiv(n: int, d: int): int
    requires d > 0
  {
    if n < 0 then -((-n) / d) else n / d
  }

  function TruncRem(n: int, d: int): (r: int)
    requires d > 0
    ensures -d < r < d && n == TruncDiv(n, d) * d + r
  {
    if n < 0 then -((-n) % d) else n % d
  }

  /** `div_to_f64`: quotient and remainder converted apart. */
  function DivToReal(n: int, d: int): real
    requires d > 0
  {
    TruncDiv(n, d) as real + TruncRem(n, d) as real / d as real
  }

  lemma DivIsExact(n: int, d: int)
    requires d > 0
    ensures DivToReal(n, d) == n as real / d as real
  {
    var q, r, x := TruncDiv(n, d), TruncRem(n, d), d as real;
    RealProduct(q, d);
    assert n as real == Mul(q as real, x) + r as real;
    SplitQuotient(q as real, r as real, x);
  }

  lemma SplitQuotient(q: real, r: real, d: real)
    requires d > 0.0
    ensures (Mul(q, d) + r) / d == q + r / d
  {
  }

  // -------------------------------------------------------- running sums

  datatype Status = Okay | Overflow | Unstable

  const CANCELLATION_RATIO_LIMIT: real := 450000000000.0

  /** Sums in an integer type with range `[lo, hi]`. */
  class LossyAccumulator {
    const lo: int
    const hi: int
    var sum: int
    var sumOfSquares: int
    var fill: int
    var overflowed: bool

    predicate Fits(x: int) { lo <= x <= hi }

    /** The value of the range nearest to `x`. */
    function Clamp(x: int): (r: int)
      ensures lo <= hi ==> Fits(r) && (Fits(x) ==> r == x)
      ensures lo <= hi ==> forall y :: Fits(y) ==> (if x <= r then r - x else x - r) <= (if x <= y then y - x else x - y)
    {
      if x < lo then lo else if x > hi then hi else x
    }

    ghost predicate Valid()
      reads this
    {
      && 0 < hi && (lo == 0 || lo == -hi - 1)
      && Fits(sum) && Fits(sumOfSquares) && Fits(fill)
    }

    constructor (lo: int, hi: int)
      requires 0 < hi && (lo == 0 || lo == -hi - 1)
      ensures Valid() && this.lo == lo && this.hi == hi && Exact([])
    {
      this.lo, this.hi, sum, sumOfSquares, fill, overflowed := lo, hi, 0, 0, 0, false;
    }

    /** The figures are those of the window, recomputed. */
    ghost predicate Exact(w: seq<int>)
      reads this
    {
      !overflowed && sum == Total(w) && sumOfSquares == TotalSquares(w) && fill == |w|
    }

    method Reset()
      requires Valid()
      modifies this
      ensures Valid() && Exact([])
    {
      sum, sumOfSquares, fill, overflowed := 0, 0, 0, false;
    }

    /** `checked_add`, or `saturating_add` and the news of it. */
    method SaturatingAdd(a: int, b: int) returns (r: int, saturated: bool)
      requires lo < hi
      ensures r == Clamp(a + b) && (saturated <==> !Fits(a + b))
    {
      if lo <= a + b <= hi {
        r, saturated := a + b, false;
      } else {
        r, saturated := if a + b > hi then hi else lo, true;
      }
    }

    method SaturatingMul(a: int, b: int) returns (r: int, saturated: bool)
      requires lo < hi
      ensures r == Clamp(a * b) && (saturated <==> !Fits(a * b))
    {
      r, saturated := SaturatingAdd(a * b, 0);
    }

    method AddSample(value: int)
      requires Valid() && Fits(value)
      modifies this
      ensures Valid()
      ensures sum == Clamp(old(sum) + value)
      ensures sumOfSquares == Clamp(old(sumOfSquares) + Clamp(Sq(value)))
      ensures fill == Clamp(old(fill) + 1)
      ensures overflowed <==> old(overflowed) || !Fits(old(sum) + value) || !Fits(Sq(value))
                              || !Fits(old(sumOfSquares) + Clamp(Sq(value)))
    {
      var saturated, square;
      sum, saturated := SaturatingAdd(sum, value);
      overflowed := overflowed || saturated;
      square, saturated := SaturatingMul(value, value);
      overflowed := overflowed || saturated;
      sumOfSquares, saturated := SaturatingAdd(sumOfSquares, square);
      overflowed := overflowed || saturated;
      fill, saturated := SaturatingAdd(fill, 1);
    }

    /** Removing the only sample starts from a clean state; this also clears the flag. */
    method RemoveSample(value: int)
      requires Valid() && Fits(value)
      modifies this
      ensures Valid()
      ensures old(fill) == 1 ==> Exact([])
      ensures old(fill) != 1 ==>
                && sum == Clamp(old(sum) - value)
                && sumOfSquares == Clamp(old(sumOfSquares) - Clamp(Sq(value)))
                && fill == Clamp(old(fill) - 1)
                && (overflowed <==> old(overflowed) || !Fits(old(sum) - value) || !Fits(Sq(value))
                                    || !Fits(old(sumOfSquares) - Clamp(Sq(value))))
    {
      if fill == 1 {
        Reset();
        return;
      }
      var saturated, square;
      sum, saturated := SaturatingAdd(sum, -value);
      overflowed := overflowed || saturated;
      square, saturated := SaturatingMul(value, value);
      overflowed := overflowed || saturated;
      sumOfSquares, saturated := SaturatingAdd(sumOfSquares, -square);
      overflowed := overflowed || saturated;
      fill, saturated := SaturatingAdd(fill, -1);
    }

    method Mean(ghost w: seq<int>) returns (r: real)
      requires Valid() && Exact(w)
      ensures r == Moments.Mean(Reals(w))
    {
      hide Total, TotalSquares, Sum, Squares, TruncDiv, TruncRem, DivToReal;
      if fill == 0 {
        return 0.0;
      }
      DivIsExact(sum, fill);
      RealSums(w);
      r := DivToReal(sum, fill);
    }

    /** `variance`: the mean of the squares less the square of the mean is the population variance. */
    method Variance(ghost w: seq<int>) returns (r: real)
      requires Valid() && Exact(w)
      ensures r == Moments.Variance(Reals(w)) && r >= 0.0
    {
      if fill == 0 {
        return 0.0;
      }
      MeansAndSquares(w, sum, sumOfSquares, fill);
      hide Total, TotalSquares, DivToReal, Moments.Variance, Mul;
      var mean := DivToReal(sum, fill);
      r := DivToReal(sumOfSquares, fill) - Mul(mean, mean);
      if r < 0.0 { r := 0.0; }
    }

    /** `sample_variance`: the spread over one less than the number of samples. */
    method SampleVariance(ghost w: seq<int>) returns (r: real)
      requires Valid() && Exact(w)
      ensures r == if |w| < 2 then 0.0 else Deviation(Reals(w), Moments.Mean(Reals(w))) / (|w| - 1) as real
    {
      hide Total, TotalSquares, DivToReal, Moments.Variance, Mul, Deviation;
      if fill == 0 || fill == 1 {
        return 0.0;
      }
      var variance := Variance(w);
      BesselIsExact(w, fill);
      r := Mul(variance, DivToReal(fill, fill - 1));
      if r < 0.0 { r := 0.0; }
    }

    /** `status`, with the ratios taken without rounding. On unflagged sums a constant
        window is never called unstable unless its own test overflows, and another
        window only when the ratio of the squared mean to the variance is too large. */
    method GetStatus(ghost w: seq<int>) returns (status: Status)
      requires Valid() && (overflowed || Exact(w))
      ensures status == Overflow <==> overflowed
      ensures !overflowed && w == [] ==> status == Okay
      ensures !overflowed && w != [] && Constant(Reals(w)) ==> (status == Okay <==> Fits(Total(w) * Total(w)))
      ensures !overflowed && !Constant(Reals(w)) ==>
                && Moments.Variance(Reals(w)) > 0.0
                && (status == Okay <==>
                      Mul(Moments.Mean(Reals(w)), Moments.Mean(Reals(w))) / Moments.Variance(Reals(w)) <= 450_000_000_000.0)
    {
      if overflowed {
        return Overflow;
      }
      if fill == 0 {
        return Okay;
      }
      MeansAndSquares(w, sum, sumOfSquares, fill);
      NoSpread(w);
      hide Total, TotalSquares, DivToReal, Moments.Variance, Moments.Mean, Mul, Constant;
      var mean := DivToReal(sum, fill);
      var variance := DivToReal(sumOfSquares, fill) - Mul(mean, mean);
      if variance <= 0.0 {
        var nSumSq, overflowA := SaturatingMul(fill, sumOfSquares);
        var sumSq, overflowB := SaturatingMul(sum, sum);
        return if !overflowA && !overflowB && nSumSq == sumSq then Okay else Unstable;
      }
      if Mul(mean, mean) / variance > CANCELLATION_RATIO_LIMIT {
        return Unstable;
      }
      return Okay;
    }
  }

  lemma MeansAndSquares(w: seq<int>, sum: int, squares: int, fill: int)
    requires w != [] && sum == Total(w) && squares == TotalSquares(w) && fill == |w|
    ensures DivToReal(sum, fill) == Mean(Reals(w))
    ensures var m := DivToReal(sum, fill); DivToReal(squares, fill) - Mul(m, m) == Variance(Reals(w)) >= 0.0
  {
    DivIsExact(sum, fill);
    DivIsExact(squares, fill);
    RealSums(w);
    AboutMean(Reals(w));
    var n, m, q := |w| as real, Mean(Reals(w)), Squares(Reals(w));
    hide Total, TotalSquares, Sum, Squares, TruncDiv, TruncRem, DivToReal, Deviation, Mean, Mul;
    Apart(q, n, m);
    NotNegative(Deviation(Reals(w), m), n);
  }

  lemma Apart(q: real, n: real, m: real)
    requires n > 0.0
    ensures (q - Mul(n, Mul(m, m))) / n == q / n - Mul(m, m)
  {
    var x := m * m;
    assert n * x / n == x;
  }

  lemma NotNegative(d: real, n: real)
    requires d >= 0.0 && n > 0.0
    ensures d / n >= 0.0
  {
  }

  lemma BesselIsExact(w: seq<int>, fill: int)
    requires fill == |w| >= 2
    ensures Mul(Variance(Reals(w)), DivToReal(fill, fill - 1)) == Deviation(Reals(w), Mean(Reals(w))) / (|w| - 1) as real >= 0.0
  {
    hide TruncDiv, TruncRem, DivToReal, Deviation, Mean;
    DivIsExact(fill, fill - 1);
    var d, n, k := Deviation(Reals(w), Mean(Reals(w))), fill as real, (fill - 1) as real;
    NotNegative(d, k);
    CancelTwice(d, n, k);
  }

  lemma CancelTwice(d: real, n: real, k: real)
    requires n > 0.0 && k > 0.0
    ensures Mul(d / n, n / k) == d / k
  {
    var x := d / n;
    assert d == x * n;
    assert x * n / k == x * (n / k);
  }

  /** No spread, equal samples, and the exact integer test for them, are the same thing. */
  lemma NoSpread(w: seq<int>)
    requires w != []
    ensures Variance(Reals(w)) <= 0.0 <==> Constant(Reals(w))
    ensures |w| * TotalSquares(w) == Total(w) * Total(w) <==> Constant(Reals(w))
  {
    hide Mul, Total, TotalSquares, Sum, Squares, Deviation, Mean, Constant;
    var r := Reals(w);
    ConstantTest(r);
    RealSums(w);
    RealProduct(|w|, TotalSquares(w));
    RealProduct(Total(w), Total(w));
    Sign(Deviation(r, Mean(r)), |w| as real);
  }

  lemma Sign(d: real, n: real)
    requires d >= 0.0 && n > 0.0
    ensures d / n <= 0.0 <==> d == 0.0
  {
    if d > 0.0 { PositiveQuotient(d, n); }
  }

  lemma PositiveQuotient(d: real, n: real)
    requires d > 0.0 && n > 0.0
    ensures d / n > 0.0
  {
  }

  // ------------------------------------------------------------------ Welford

  /** Mean and spread moved by each sample, without a sum of squares. */
  class WelfordAccumulator {
    var mean: real
    var m2: real
    var count: real

    constructor ()
      ensures Exact([])
    {
      mean, m2, count := 0.0, 0.0, 0.0;
    }

    /** The figures are those of the window, recomputed from their definitions. */
    ghost predicate Exact(w: seq<real>)
      reads this
    {
      count == |w| as real && mean == Moments.Mean(w) && m2 == Deviation(w, Moments.Mean(w))
    }

    method Reset()
      modifies this
      ensures Exact([])
    {
      mean, m2, count := 0.0, 0.0, 0.0;
    }

    method AddSample(value: real, ghost w: seq<real>)
      requires Exact(w)
      modifies this
      ensures Exact([value] + w)
    {
      hide Mul, Moments.Mean, Deviation;
      WelfordAdds(w, value);
      count := count + 1.0;
      var oldMean := mean;
      mean := mean + (value - mean) / count;
      m2 := m2 + Mul(value - oldMean, value - mean);
    }

    /** `w[i]` leaves the window, from any place in it. */
    method RemoveSample(value: real, ghost w: seq<real>, ghost i: nat)
      requires Exact(w) && i < |w| && w[i] == value
      modifies this
      ensures Exact(w[..i] + w[i + 1..])
    {
      hide Mul, Moments.Mean, Deviation;
      if |w| > 1 { WelfordRemoves(w, i); } else { assert w[..i] + w[i + 1..] == []; }
      count := count - 1.0;
      var oldMean := mean;
      if count == 0.0 {
        mean, m2 := 0.0, 0.0;
        EmptyWindow();
      } else {
        mean := mean - (value - mean) / count;
        m2 := m2 - Mul(value - oldMean, value - mean);
      }
    }

    method GetVariance(ghost w: seq<real>) returns (r: real)
      requires Exact(w)
      ensures r == Moments.Variance(w)
    {
      if count == 0.0 {
        return 0.0;
      }
      r := m2 / count;
    }
  }

  lemma EmptyWindow()
    ensures Mean([]) == 0.0 && Deviation([], 0.0) == 0.0
  {
  }

  lemma MeanMoves(n: real, a: real, v: real)
    requires n + 1.0 != 0.0
    ensures Mul(n + 1.0, a + (v - a) / (n + 1.0)) == Mul(n, a) + v
  {
    Quotient(v - a, n + 1.0);
    var k, x := n + 1.0, (v - a) / (n + 1.0);
    assert k * (a + x) == k * a + k * x;
    assert k * a == n * a + a;
  }

  lemma MeanMovesBack(n: real, b: real, v: real)
    requires n != 0.0
    ensures Mul(n, b - (v - b) / n) == Mul(n + 1.0, b) - v
  {
    Quotient(v - b, n);
    var x := (v - b) / n;
    assert n * (b - x) == n * b - n * x;
    assert (n + 1.0) * b == n * b + b;
  }

  /** The sums behind the mean and the spread, also for an empty window. */
  lemma BehindTheMean(w: seq<real>)
    ensures Sum(w) == Mul(|w| as real, Mean(w))
    ensures Deviation(w, Mean(w)) == Squares(w) - Mul(|w| as real, Mul(Mean(w), Mean(w)))
  {
    if w == [] {
      ZeroTimes(0.0);
    } else {
      AboutMean(w);
    }
  }

  lemma WelfordAdds(w: seq<real>, v: real)
    ensures var n, a, w' := |w| as real, Mean(w), [v] + w;
            var b := a + (v - a) / (n + 1.0);
            Mean(w') == b && Deviation(w', Mean(w')) == Deviation(w, a) + Mul(v - a, v - b)
  {
    var n, a, w' := |w| as real, Mean(w), [v] + w;
    var b := a + (v - a) / (n + 1.0);
    BehindTheMean(w);
    BehindTheMean(w');
    assert w'[1..] == w && |w'| as real == n + 1.0;
    assert Sum(w') == v + Sum(w) && Squares(w') == Mul(v, v) + Squares(w);
    hide Mul, Sum, Squares, Deviation;
    MeanMoves(n, a, v);
    Cancel(n + 1.0, b, Sum(w'));
    OneMore(n, a, b, v);
  }

  lemma WelfordRemoves(w: seq<real>, i: nat)
    requires i < |w| && |w| > 1
    ensures var n, b, v, w' := (|w| - 1) as real, Mean(w), w[i], w[..i] + w[i + 1..];
            var a := b - (v - b) / n;
            Mean(w') == a && Deviation(w', Mean(w')) == Deviation(w, b) - Mul(v - b, v - a)
  {
    hide Mul, Sum, Squares, Deviation;
    var n, b, v, w' := (|w| - 1) as real, Mean(w), w[i], w[..i] + w[i + 1..];
    var a := b - (v - b) / n;
    BehindTheMean(w);
    BehindTheMean(w');
    SumsRemove(w, i);
    assert |w'| as real == n && |w| as real == n + 1.0;
    MeanMovesBack(n, b, v);
    Cancel(n, a, Sum(w'));
    OneMore(n, a, b, v);
    Swapped(v - a, v - b);
  }

  lemma Swapped(a: real, b: real)
    ensures Mul(a, b) == Mul(b, a)
  {
  }

  /** On one window the two accumulators agree: n times Welford's spread is the
      difference the running sums are compared by. */
  lemma AccumulatorsAgree(w: seq<int>, m2: real)
    requires m2 == Deviation(Reals(w), Mean(Reals(w)))
    ensures Mul(|w| as real, m2) == (|w| * TotalSquares(w) - Total(w) * Total(w)) as real
  {
    hide Mul, Sum, Squares, Deviation, Mean, Total, TotalSquares;
    SpreadIdentity(Reals(w));
    RealSums(w);
    RealProduct(|w|, TotalSquares(w));
    RealProduct(Total(w), Total(w));
  }
}
