/** The rolling window: a ring buffer and an accumulator moved together, against
    recomputing the figures over the window. Index zero is the newest sample. */
module RingStatistics {
  import opened Words
  import opened Wrappers
  import opened Moments
  import opened Accumulators
  import opened RingCursor
  import opened RingBuffer

  datatype WindowError = TooSmall(windowSize: nat) | Capacity(error: InitError)

  /** The window after `value` came in: newest first, the oldest gone when it was full. */
  function Slide<X>(w: seq<X>, size: nat, value: X): (r: seq<X>)
    requires |w| <= size && size > 0
    ensures |r| <= size
  {
    [value] + Staying(w, size)
  }

  /** The newest sample is in front, the others keep their order, at most one is gone. */
  lemma SlideMeans<X>(w: seq<X>, size: nat, value: X)
    requires |w| <= size && size > 0
    ensures var r := Slide(w, size, value);
            && |r| == (if |w| < size then |w| + 1 else size) && r[0] == value
            && forall i :: 0 < i < |r| ==> r[i] == w[i - 1]
  {
  }

  /** What is left of the window once there is room for one more. */
  function Staying<X>(w: seq<X>, size: nat): seq<X>
    requires |w| <= size && size > 0
  {
    if |w| == size then w[..|w| - 1] else w
  }

  function SlideAll<X>(w: seq<X>, size: nat, values: seq<X>): (r: seq<X>)
    requires |w| <= size && size > 0
    ensures |r| <= size
    decreases |values|
  {
    if values == [] then w else SlideAll(Slide(w, size, values[0]), size, values[1..])
  }

  /** Any run of pushes leaves the last `size` values, newest first. */
  lemma {:induction false} WindowIsTheLastValues<X>(w: seq<X>, size: nat, values: seq<X>)
    requires |w| <= size && size > 0
    ensures var all, r := Reversed(values) + w, SlideAll(w, size, values);
            r == all[..if |all| < size then |all| else size]
    decreases |values|
  {
    if values == [] {
      assert Reversed(values) + w == w;
    } else {
      var w' := Slide(w, size, values[0]);
      WindowIsTheLastValues(w', size, values[1..]);
      assert Reversed(values) + w == Reversed(values[1..]) + ([values[0]] + w);
    }
  }

  function Reversed<X>(s: seq<X>): (r: seq<X>)
    ensures |r| == |s|
  {
    if s == [] then [] else Reversed(s[1..]) + [s[0]]
  }

  // ---------------------------------------------------- the integer window

  /** Both sums of the window are in the range of the accumulator. */
  predicate InRange(w: seq<int>, lo: int, hi: int) {
    lo <= Total(w) <= hi && TotalSquares(w) <= hi
  }

  /** What one push does to unflagged sums, step by step. */
  lemma PushSums(w: seq<int>, size: nat, value: int, lo: int, hi: int)
    requires |w| <= size && size > 0 && InRange(w, lo, hi)
    ensures var rest, w' := Staying(w, size), Slide(w, size, value);
            && Total(w') == Total(rest) + value && TotalSquares(w') == TotalSquares(rest) + Sq(value)
            && 0 <= TotalSquares(rest) <= hi && 0 <= Sq(value) && 0 <= TotalSquares(w')
            && (|w| == size ==>
                  && Total(rest) == Total(w) - w[size - 1] && TotalSquares(rest) == TotalSquares(w) - Sq(w[size - 1])
                  && 0 <= Sq(w[size - 1]) <= hi)
  {
    var rest, w' := Staying(w, size), Slide(w, size, value);
    assert w'[1..] == rest;
    TotalSquaresIsNat(rest);
    SquareIsNat(value);
    if |w| == size {
      WithoutLast(w);
      SquareIsNat(w[size - 1]);
    }
  }

  /** The accumulator has seen the samples from the `k`th on, the oldest first. */
  ghost predicate Rebuilt(a: LossyAccumulator, w: seq<int>, k: nat, lo: int, hi: int)
    reads a
  {
    && k <= |w| && a.Valid() && a.lo == lo && a.hi == hi && a.fill == |w| - k && |w| <= hi
    && (!a.overflowed <==> forall i :: k <= i <= |w| ==> InRange(w[i..], lo, hi))
    && (!a.overflowed ==> a.Exact(w[k..]))
  }

  method AddOlder(a: LossyAccumulator, value: int, ghost w: seq<int>, k: nat, ghost lo: int, ghost hi: int)
    requires k < |w| && Rebuilt(a, w, k + 1, lo, hi) && value == w[k] && lo <= value <= hi
    modifies a
    ensures Rebuilt(a, w, k, lo, hi)
  {
    hide Total, TotalSquares, Sq;
    OldestFirst(w, k, lo, hi);
    a.AddSample(value);
  }

  /** The accumulator follows the window: if it has seen all of it, `fill` counts it
      and unflagged sums are exact. */
  ghost predicate Follows(a: LossyAccumulator, w: seq<int>, tracked: bool)
    reads a
  {
    && a.Valid()
    && (tracked ==> a.fill == |w|)
    && (tracked && !a.overflowed ==> a.Exact(w) && InRange(w, a.lo, a.hi))
  }

  /** The accumulator's part of `push`: first the evicted sample out, then the new one in. */
  method Account(a: LossyAccumulator, evicted: Option<int>, value: int, ghost w: seq<int>, ghost size: nat, ghost tracked: bool)
    requires Follows(a, w, tracked) && a.lo <= value <= a.hi && |w| <= size && 3 <= size <= a.hi
    requires evicted == (if |w| == size then Some(w[size - 1]) else None) && (evicted.Some? ==> a.lo <= evicted.value <= a.hi)
    modifies a
    ensures Follows(a, Slide(w, size, value), tracked)
    ensures tracked ==>
              (!a.overflowed <==> !old(a.overflowed) && a.lo <= Total(Staying(w, size)) <= a.hi
                                  && InRange(Slide(w, size, value), a.lo, a.hi))
  {
    hide Total, TotalSquares, Sq;
    if tracked && !a.overflowed { PushSums(w, size, value, a.lo, a.hi); }
    if evicted.Some? {
      a.RemoveSample(evicted.value);
    }
    a.AddSample(value);
  }

  class Rolling {
    const buffer: RingBuffer<int>
    const windowSize: nat
    const lo: int
    const hi: int
    var accumulator: LossyAccumulator
    /** The accumulator was reset and has seen every sample of the window. */
    ghost var tracked: bool

    ghost predicate Valid()
      reads this, buffer, buffer.inner, buffer.cursor, accumulator
    {
      && buffer.Valid() && buffer.cursor.requestedCap == windowSize >= 3
      && accumulator.lo == lo && accumulator.hi == hi && windowSize <= hi
      && (forall i :: 0 <= i < |buffer.contents| ==> lo <= buffer.contents[i] <= hi)
      && Follows(accumulator, buffer.contents, tracked)
    }

    constructor (buffer: RingBuffer<int>, accumulator: LossyAccumulator)
      requires buffer.Valid() && buffer.contents == [] && 3 <= buffer.cursor.requestedCap <= accumulator.hi
      requires accumulator.Valid()
      ensures Valid() && this.buffer == buffer && this.accumulator == accumulator && windowSize == buffer.cursor.requestedCap
      ensures tracked <==> accumulator.Exact([])
    {
      this.buffer, this.windowSize := buffer, buffer.cursor.requestedCap;
      this.accumulator, this.lo, this.hi := accumulator, accumulator.lo, accumulator.hi;
      tracked := accumulator.Exact([]);
    }

    /** `try_new`. A window larger than the accumulator's range cannot be allocated. */
    static method TryNew(windowSize: nat, accumulator: LossyAccumulator) returns (result: Result<Rolling, WindowError>)
      requires windowSize < WORD && windowSize <= accumulator.hi && accumulator.Valid()
      ensures match result
              case Err(TooSmall(size)) => size == windowSize <= 2
              case Err(Capacity(e)) => windowSize > WORD / 2
              case Ok(r) =>
                && fresh(r) && r.Valid() && r.windowSize == windowSize >= 3 && r.buffer.contents == []
                && r.accumulator == accumulator && (r.tracked <==> accumulator.Exact([]))
    {
      if windowSize <= 2 {
        return Err(TooSmall(windowSize));
      }
      var ring := RingBuffer.TryNew(windowSize, false);
      match ring {
        case Err(e) => return Err(Capacity(e));
        case Ok(buffer) =>
          var r := new Rolling(buffer, accumulator);
          return Ok(r);
      }
    }

    /** `push`. The figures stay those of the window, recomputed, until the flag is raised;
        it is raised exactly when a sum leaves the range, after the eviction or after the addition. */
    method Push(value: int)
      requires Valid() && lo <= value <= hi
      modifies buffer, buffer.inner, buffer.cursor, accumulator
      ensures Valid() && |old(buffer.contents)| <= windowSize
      ensures buffer.contents == Slide(old(buffer.contents), windowSize, value)
      ensures tracked ==>
                (!accumulator.overflowed <==>
                   && !old(accumulator.overflowed)
                   && lo <= Total(Staying(old(buffer.contents), windowSize)) <= hi
                   && InRange(buffer.contents, lo, hi))
    {
      ghost var w := buffer.contents;
      hide Holds, IsPowerOfTwo, Total, TotalSquares;
      var evicted := buffer.PushHeadEvicting(value);
      Account(accumulator, evicted, value, w, windowSize, tracked);
    }

    /** `init`, from the oldest sample to the newest, and so `reset_accumulator`: the figures
        are those of the window again, unless a sum leaves the range on the way. */
    method ResetAccumulator()
      requires Valid()
      modifies this`tracked, accumulator
      ensures Valid() && tracked
      ensures !accumulator.overflowed <==> forall i :: 0 <= i <= |buffer.contents| ==> InRange(buffer.contents[i..], lo, hi)
    {
      hide Total, TotalSquares, Sq, Holds, IsPowerOfTwo;
      accumulator.Reset();
      var first, second := buffer.AsSlices();
      var values := first + second;
      var k := |values|;
      ghost var w := buffer.contents;
      assert w[k..] == [];
      while k > 0
        invariant k <= |values| == |w| && Rebuilt(accumulator, w, k, lo, hi)
      {
        k := k - 1;
        AddOlder(accumulator, values[k].value, w, k, lo, hi);
      }
      tracked := true;
      assert w[0..] == w;
    }

    /** `new_accumulator`. */
    method NewAccumulator(next: LossyAccumulator)
      requires Valid() && next.Valid() && next.lo == lo && next.hi == hi
      modifies this, next
      ensures Valid() && tracked && accumulator == next
      ensures !accumulator.overflowed <==> forall i :: 0 <= i <= |buffer.contents| ==> InRange(buffer.contents[i..], lo, hi)
    {
      accumulator, tracked := next, false;
      ResetAccumulator();
    }

    /** Samples of magnitude `m`, with n * m and n * m * m in the range of the
        accumulator: the flag is never raised, whatever comes in and goes out. */
    method PushAll(values: seq<int>, ghost m: int)
      requires Valid() && tracked && !accumulator.overflowed
      requires m >= 0 && windowSize * m <= hi && windowSize * Sq(m) <= hi
      requires forall i :: 0 <= i < |buffer.contents| ==> -m <= buffer.contents[i] <= m
      requires forall i :: 0 <= i < |values| ==> -m <= values[i] <= m && lo <= values[i] <= hi
      modifies buffer, buffer.inner, buffer.cursor, accumulator
      ensures Valid() && !accumulator.overflowed && accumulator.Exact(buffer.contents)
      ensures |old(buffer.contents)| <= windowSize
      ensures buffer.contents == SlideAll(old(buffer.contents), windowSize, values)
    {
      ghost var start := buffer.contents;
      for i := 0 to |values|
        invariant Valid() && tracked && !accumulator.overflowed && |buffer.contents| <= windowSize
        invariant forall j :: 0 <= j < |buffer.contents| ==> -m <= buffer.contents[j] <= m
        invariant SlideAll(start, windowSize, values) == SlideAll(buffer.contents, windowSize, values[i..])
      {
        ghost var w := buffer.contents;
        BoundedStays(Staying(w, windowSize), m, windowSize, lo, hi);
        BoundedStays(Slide(w, windowSize, values[i]), m, windowSize, lo, hi);
        Push(values[i]);
        assert values[i..][1..] == values[i + 1..];
      }
      assert values[|values|..] == [];
    }

    method GetMean() returns (r: real)
      requires Valid() && tracked && !accumulator.overflowed
      ensures r == Mean(Reals(buffer.contents))
    {
      r := accumulator.Mean(buffer.contents);
    }

    method GetVariance() returns (r: real)
      requires Valid() && tracked && !accumulator.overflowed
      ensures r == Variance(Reals(buffer.contents)) && r >= 0.0
    {
      r := accumulator.Variance(buffer.contents);
    }
  }

  /** One more of the older samples, while rebuilding. */
  lemma OldestFirst(w: seq<int>, k: nat, lo: int, hi: int)
    requires k < |w|
    ensures Total(w[k..]) == Total(w[k + 1..]) + w[k]
    ensures TotalSquares(w[k..]) == TotalSquares(w[k + 1..]) + Sq(w[k])
    ensures TotalSquares(w[k + 1..]) >= 0 && Sq(w[k]) >= 0
  {
    assert w[k..][1..] == w[k + 1..];
    TotalSquaresIsNat(w[k + 1..]);
    SquareIsNat(w[k]);
  }

  /** The bound of the documentation, for either kind of integer type. */
  lemma BoundedStays(w: seq<int>, m: int, size: nat, lo: int, hi: int)
    requires m >= 0 && |w| <= size && size * m <= hi && size * Sq(m) <= hi && (lo == 0 || lo == -hi - 1)
    requires forall i :: 0 <= i < |w| ==> -m <= w[i] <= m && lo <= w[i]
    ensures InRange(w, lo, hi)
  {
    hide Total, TotalSquares;
    SumsAreBounded(w, m);
    Scale(|w|, size, m);
    SquareIsNat(m);
    Scale(|w|, size, Sq(m));
    if lo == 0 { TotalIsNat(w); }
  }

  lemma Scale(a: nat, b: nat, x: int)
    requires a <= b && x >= 0
    ensures a * x <= b * x
  {
  }

  // ------------------------------------------------------- the Welford window

  class RollingWelford {
    const buffer: RingBuffer<real>
    const windowSize: nat
    const accumulator: WelfordAccumulator

    ghost predicate Valid()
      reads this, buffer, buffer.inner, buffer.cursor, accumulator
    {
      && buffer.Valid() && buffer.cursor.requestedCap == windowSize >= 3 && accumulator.Exact(buffer.contents)
    }

    constructor (buffer: RingBuffer<real>, accumulator: WelfordAccumulator)
      requires buffer.Valid() && buffer.contents == [] && buffer.cursor.requestedCap >= 3 && accumulator.Exact([])
      ensures Valid() && this.buffer == buffer && this.accumulator == accumulator
    {
      this.buffer, this.windowSize, this.accumulator := buffer, buffer.cursor.requestedCap, accumulator;
    }

    /** `push`: mean and spread are those of the window, recomputed, after any run of pushes. */
    method Push(value: real)
      requires Valid()
      modifies buffer, buffer.inner, buffer.cursor, accumulator
      ensures Valid() && |old(buffer.contents)| <= windowSize
      ensures buffer.contents == Slide(old(buffer.contents), windowSize, value)
    {
      ghost var w := buffer.contents;
      var evicted := buffer.PushHeadEvicting(value);
      if evicted.Some? {
        accumulator.RemoveSample(evicted.value, w, |w| - 1);
        assert w[..|w| - 1] + w[|w|..] == w[..|w| - 1];
      }
      accumulator.AddSample(value, Staying(w, windowSize));
    }
  }
}
