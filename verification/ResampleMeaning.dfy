/** What the resampler puts out (resample.cpp:104-132, 161-218), told of the filter and the signal alone. */
module ResampleMeaning {
  import opened Arithmetic
  import opened ResampleSpec

  /** How far input sample `k` lies behind output sample `n`, in seconds. */
  function Delay(r: Rates, k: int, n: int): real
    requires r.rin > 0 && r.rout > 0
  {
    k as real / r.rin as real - n as real / r.rout as real
  }

  /** Input sample `k` lies in the window of output sample `n`: no further away than the filter's zero crossings
      reach. */
  predicate InWindow(r: Rates, k: int, n: int)
    requires r.rin > 0 && r.rout > 0 && r.cutoff > 0.0
  {
    var width := r.zeros as real / (2.0 * r.cutoff);
    -width <= Delay(r, k, n) <= width
  }

  /** The input samples `lo` to `hi - 1` are those in the window. */
  ghost predicate IsWindow(r: Rates, n: int, lo: int, hi: int)
    requires r.rin > 0 && r.rout > 0 && r.cutoff > 0.0
  {
    lo <= hi && forall k: int :: lo <= k < hi <==> InWindow(r, k, n)
  }

  /** The signal from `lo` to `hi - 1`, each sample weighed by the filter at its delay. */
  function Filtered(r: Rates, h: Filter, signal: seq<real>, n: int, lo: int, hi: int): real
    requires r.rin > 0 && r.rout > 0 && lo <= hi
    decreases hi - lo
  {
    if lo == hi then 0.0
    else Filtered(r, h, signal, n, lo, hi - 1) + Mul(h(Delay(r, hi - 1, n)), Sample(signal, hi - 1))
  }

  function Mul(a: real, b: real): real {
    a * b
  }

  // ---------- the window ----------

  lemma {:induction false} FloorBelow(x: real, k: int)
    ensures k <= x.Floor <==> k as real <= x
    ensures Ceil(x) <= k <==> x <= k as real
  {
    CeilIs(x);
  }

  /** Comparing in seconds is comparing in samples. */
  lemma {:induction false} Seconds(k: real, rin: real, x: real, t: real, w: real, position: real, half: real)
    requires rin > 0.0 && x * rin == k && t * rin == position && w * rin == half
    ensures position - half <= k <==> t - w <= x
    ensures k <= position + half <==> x <= t + w
  {
    MulDiff(t, w, rin);
    MulSum(t, w, rin);
    CancelLess(x, t - w, rin);
    CancelLess(t + w, x, rin);
  }

  lemma {:induction false} WindowIs(r: Rates, k: int, n: int)
    requires RatesOk(r)
    ensures First(r, n) <= k <= LastIndex(r, n) <==> InWindow(r, k, n)
  {
    hide Ceil, Position;
    FloorBelow(Position(r, n) - HalfWindow(r), k);
    FloorBelow(Position(r, n) + HalfWindow(r), k);
    DivIs(k as real, r.rin as real);
    PositionInSeconds(r, n);
    Seconds(k as real, r.rin as real, k as real / r.rin as real, n as real / r.rout as real, WindowWidth(r),
            Position(r, n), HalfWindow(r));
    InSeconds(k as real / r.rin as real, n as real / r.rout as real, WindowWidth(r));
  }

  lemma InSeconds(x: real, t: real, w: real)
    ensures t - w <= x && x <= t + w <==> -w <= x - t && x - t <= w
  {
  }

  lemma {:induction false} FoundWindow(r: Rates, n: int, lo: int, hi: int)
    requires RatesOk(r) && IsWindow(r, n, lo, hi)
    ensures WindowSize(r, n) == hi - lo && (lo < hi ==> First(r, n) == lo)
  {
    hide First, LastIndex, InWindow;
    WindowIs(r, lo, n);
    WindowIs(r, hi - 1, n);
    WindowIs(r, First(r, n), n);
    WindowIs(r, LastIndex(r, n), n);
  }

  // ---------- the output ----------

  /** An output sample is the signal in its window, filtered, and divided by the input rate. */
  lemma {:induction false} OutIs(r: Rates, h: Filter, signal: seq<real>, n: int, lo: int, hi: int)
    requires RatesOk(r) && IsWindow(r, n, lo, hi)
    ensures Out(r, h, signal, n) == Filtered(r, h, signal, n, lo, hi) / r.rin as real
  {
    hide First, LastIndex, InWindow, Filtered, Products;
    FoundWindow(r, n, lo, hi);
    if lo < hi {
      ProductsAre(r, h, signal, n, hi - lo);
    } else {
      NoProducts(r, h, signal, n, lo);
    }
  }

  lemma NoProducts(r: Rates, h: Filter, signal: seq<real>, n: int, lo: int)
    requires RatesOk(r)
    ensures Products(r, h, signal, n, 0) == 0.0 && Filtered(r, h, signal, n, lo, lo) / r.rin as real == 0.0
  {
  }

  lemma {:induction false} ProductsAre(r: Rates, h: Filter, signal: seq<real>, n: int, count: nat)
    requires RatesOk(r)
    ensures Products(r, h, signal, n, count) ==
              Filtered(r, h, signal, n, First(r, n), First(r, n) + count) / r.rin as real
  {
    hide First, Mul;
    if count == 0 {
      NoProducts(r, h, signal, n, First(r, n));
    } else {
      ProductsAre(r, h, signal, n, count - 1);
      var k := First(r, n) + count - 1;
      DividedProduct(h(Delay(r, k, n)), Sample(signal, k), r.rin as real);
      DivSum(Filtered(r, h, signal, n, First(r, n), k), Mul(h(Delay(r, k, n)), Sample(signal, k)), r.rin as real);
    }
  }

  lemma DividedProduct(a: real, b: real, c: real)
    requires c > 0.0
    ensures a / c * b == Mul(a, b) / c
  {
    DivIs(a, c);
    DivIs(a * b, c);
    Assoc(a / c, c, b);
    Assoc(a / c, b, c);
    Cancel(a / c * b, Mul(a, b) / c, c);
  }

  lemma {:induction false} OutsAt(r: Rates, h: Filter, signal: seq<real>, to: nat, n: nat)
    requires RatesOk(r) && n < to
    ensures Outs(r, h, signal, 0, to)[n] == Out(r, h, signal, n)
  {
    hide Out;
    if n < to - 1 { OutsAt(r, h, signal, to - 1, n); }
  }

  // ---------- an impulse ----------

  function Impulse(total: nat, at: nat): (s: seq<real>)
    ensures |s| == total && forall k :: 0 <= k < total ==> s[k] == if k == at then 1.0 else 0.0
  {
    if total == 0 then [] else Impulse(total - 1, at) + [if total - 1 == at then 1.0 else 0.0]
  }

  lemma {:induction false} FilteredImpulse(r: Rates, h: Filter, total: nat, at: nat, n: int, lo: int, hi: int)
    requires r.rin > 0 && r.rout > 0 && lo <= hi && at < total
    ensures Filtered(r, h, Impulse(total, at), n, lo, hi) == if lo <= at < hi then h(Delay(r, at, n)) else 0.0
    decreases hi - lo
  {
    hide Delay, Impulse;
    if lo < hi {
      FilteredImpulse(r, h, total, at, n, lo, hi - 1);
      var d := h(Delay(r, hi - 1, n));
      assert Mul(d, 0.0) == 0.0 && Mul(d, 1.0) == d;
    }
  }

  /** What one input sample leads to: the filter at its delay, divided by the input rate, in every output sample whose
      window it lies in, and nothing in the others. */
  lemma {:induction false} ImpulseResponse(r: Rates, h: Filter, total: nat, at: nat, flush: bool, n: nat)
    requires RatesOk(r) && at < total && n < NumOut(r, total, flush)
    ensures Outs(r, h, Impulse(total, at), 0, NumOut(r, total, flush))[n] ==
              if InWindow(r, at, n) then h(at as real / r.rin as real - n as real / r.rout as real) / r.rin as real
              else 0.0
  {
    hide Filtered, Out, Outs, First, LastIndex, NumOut, InWindow, Impulse;
    var lo, hi := SomeWindow(r, n);
    OutsAt(r, h, Impulse(total, at), NumOut(r, total, flush), n);
    OutIs(r, h, Impulse(total, at), n, lo, hi);
    FilteredImpulse(r, h, total, at, n, lo, hi);
    NothingDivided(r.rin as real);
    assert lo <= at < hi <==> InWindow(r, at, n);
  }

  lemma NothingDivided(a: real)
    requires a > 0.0
    ensures 0.0 / a == 0.0
  {
  }

  lemma {:induction false} SomeWindow(r: Rates, n: int) returns (lo: int, hi: int)
    requires RatesOk(r)
    ensures IsWindow(r, n, lo, hi)
  {
    hide First, LastIndex, InWindow;
    lo, hi := First(r, n), LastIndex(r, n) + 1;
    if hi < lo { hi := lo; }
    forall k: int
      ensures lo <= k < hi <==> InWindow(r, k, n)
    {
      WindowIs(r, k, n);
    }
  }

  // ---------- a constant ----------

  function Constant(total: nat, c: real): (s: seq<real>)
    ensures |s| == total && forall k :: 0 <= k < total ==> s[k] == c
  {
    if total == 0 then [] else Constant(total - 1, c) + [c]
  }

  /** The filter's values over a window. */
  function FilterSum(r: Rates, h: Filter, n: int, lo: int, hi: int): real
    requires r.rin > 0 && r.rout > 0 && lo <= hi
    decreases hi - lo
  {
    if lo == hi then 0.0 else FilterSum(r, h, n, lo, hi - 1) + h(Delay(r, hi - 1, n))
  }

  lemma {:induction false} FilteredConstant(r: Rates, h: Filter, total: nat, c: real, n: int, lo: int, hi: int)
    requires r.rin > 0 && r.rout > 0 && 0 <= lo <= hi <= total
    ensures Filtered(r, h, Constant(total, c), n, lo, hi) == Mul(c, FilterSum(r, h, n, lo, hi))
    decreases hi - lo
  {
    hide Delay, Constant;
    if lo < hi {
      FilteredConstant(r, h, total, c, n, lo, hi - 1);
      var d := h(Delay(r, hi - 1, n));
      MulSum(FilterSum(r, h, n, lo, hi - 1), d, c);
    }
  }

  /** A constant stays what it is, wherever the window lies inside the input and the filter's values over it sum to the
      input rate. */
  lemma {:induction false} ConstantStays(r: Rates, h: Filter, total: nat, c: real, flush: bool, n: nat, lo: int,
                                         hi: int)
    requires RatesOk(r) && n < NumOut(r, total, flush) && IsWindow(r, n, lo, hi)
    requires 0 <= lo && hi <= total && FilterSum(r, h, n, lo, hi) == r.rin as real
    ensures Outs(r, h, Constant(total, c), 0, NumOut(r, total, flush))[n] == c
  {
    hide Filtered, Out, Outs, First, LastIndex, NumOut, InWindow, Constant, FilterSum;
    OutsAt(r, h, Constant(total, c), NumOut(r, total, flush), n);
    OutIs(r, h, Constant(total, c), n, lo, hi);
    FilteredConstant(r, h, total, c, n, lo, hi);
    BackAgain(c, r.rin as real);
  }

  lemma BackAgain(c: real, a: real)
    requires a > 0.0
    ensures Mul(c, a) / a == c
  {
    DivIs(c * a, a);
    Cancel(Mul(c, a) / a, c, a);
  }
}
