/** What the polyphase resampler (resample.cpp) computes, sample by sample and without state.  Times are exact reals. */
module ResampleSpec {

  import opened Arithmetic

  /** How many multiples of `step`, from zero on, lie below `length`. */
  function CountBelow(length: int, step: nat): (n: nat)
    requires step > 0
  {
    if length <= 0 then 0 else (length - 1) / step + 1
  }

  lemma CountBelowIs(length: int, step: nat, n: nat)
    requires step > 0
    ensures n < CountBelow(length, step) <==> n * step < length
  {
    if length > 0 {
      var q := (length - 1) / step;
      if n <= q { MulMono(n, q, step); } else { MulMono(q + 1, n, step); assert (q + 1) * step == q * step + step; }
    }
  }

  // ---------- the rates and the window ----------

  /** The rates in Hz and in samples per unit, the filter's cutoff and number of zero crossings. */
  datatype Rates = Rates(rin: nat, rout: nat, unitIn: nat, unitOut: nat, cutoff: real, zeros: nat)

  ghost predicate RatesOk(r: Rates) {
    r.rin > 0 && r.rout > 0 && r.unitIn > 0 && r.unitOut > 0 && r.cutoff > 0.0 && r.rin * r.unitOut == r.rout * r.unitIn
  }

  /** Half the window, in seconds. */
  function WindowWidth(r: Rates): real
    requires r.cutoff > 0.0
  {
    r.zeros as real / (2.0 * r.cutoff)
  }

  /** Half the window, in input samples. */
  function HalfWindow(r: Rates): real
    requires r.cutoff > 0.0
  {
    WindowWidth(r) * r.rin as real
  }

  /** Where output sample `n` lies between the input samples. */
  function Position(r: Rates, n: int): real
    requires r.unitOut > 0
  {
    (n * r.unitIn) as real / r.unitOut as real
  }

  function First(r: Rates, n: int): int
    requires r.unitOut > 0 && r.cutoff > 0.0
  {
    Ceil(Position(r, n) - HalfWindow(r))
  }

  function LastIndex(r: Rates, n: int): int
    requires r.unitOut > 0 && r.cutoff > 0.0
  {
    (Position(r, n) + HalfWindow(r)).Floor
  }

  /** The number of ticks, of which there are `rin * unitOut` a second, before the window no longer fits. */
  function Ticks(r: Rates, total: int, flush: bool): int
    requires r.cutoff > 0.0
  {
    total * r.unitOut - if flush then 0 else (WindowWidth(r) * (r.rin * r.unitOut) as real).Floor
  }

  function NumOut(r: Rates, total: int, flush: bool): nat
    requires r.unitIn > 0 && r.cutoff > 0.0
  {
    CountBelow(Ticks(r, total, flush), r.unitIn)
  }

  lemma {:induction false} PositionScaled(r: Rates, n: int)
    requires RatesOk(r)
    ensures Position(r, n) * r.unitOut as real == (n * r.unitIn) as real
    ensures HalfWindow(r) * r.unitOut as real == WindowWidth(r) * (r.rin * r.unitOut) as real
  {
    hide WindowWidth;
    DivIs((n * r.unitIn) as real, r.unitOut as real);
    MulReal(r.rin, r.unitOut);
    Assoc(WindowWidth(r), r.rin as real, r.unitOut as real);
  }

  /** The samples put out so far are those whose window, or with `flush` whose centre, lies inside the input. */
  lemma {:induction false} NumOutIs(r: Rates, total: int, flush: bool, n: nat)
    requires RatesOk(r)
    ensures n < NumOut(r, total, flush) <==> Position(r, n) + (if flush then 0.0 else HalfWindow(r)) < total as real
  {
    hide Position, HalfWindow, WindowWidth;
    var half := if flush then 0.0 else HalfWindow(r);
    var ticks := if flush then 0.0 else WindowWidth(r) * (r.rin * r.unitOut) as real;
    var c := r.unitOut as real;
    CountBelowIs(Ticks(r, total, flush), r.unitIn, n);
    PositionScaled(r, n);
    MulSum(Position(r, n), half, c);
    MulReal(total, r.unitOut);
    CancelLess(Position(r, n) + half, total as real, c);
    Whole(n * r.unitIn, total * r.unitOut, ticks);
  }

  lemma Whole(a: int, b: int, x: real)
    ensures a < b - x.Floor <==> a as real + x < b as real
  {
  }

  // ---------- the table is periodic ----------

  lemma {:induction false} PositionShift(r: Rates, n: int, u: int)
    requires RatesOk(r)
    ensures Position(r, n + u * r.unitOut) == Position(r, n) + (u * r.unitIn) as real
  {
    var c := r.unitOut as real;
    var a, b := Position(r, n + u * r.unitOut), Position(r, n) + (u * r.unitIn) as real;
    DivIs(((n + u * r.unitOut) * r.unitIn) as real, c);
    DivIs((n * r.unitIn) as real, c);
    MulSum(Position(r, n), (u * r.unitIn) as real, c);
    MulReal(u * r.unitIn, r.unitOut);
    Rearrange(n, u, r.unitOut, r.unitIn);
    Cancel(a, b, c);
  }

  lemma Rearrange(n: int, u: int, o: int, i: int)
    ensures (n + u * o) * i == n * i + u * i * o
  {
    assert (n + u * o) * i == n * i + (u * o) * i;
    assert (u * o) * i == u * i * o;
  }

  /** One table entry for each sample of a unit gives the window of every output sample. */
  lemma {:induction false} WindowShift(r: Rates, n: int, u: int)
    requires RatesOk(r)
    ensures First(r, n + u * r.unitOut) == First(r, n) + u * r.unitIn
    ensures LastIndex(r, n + u * r.unitOut) == LastIndex(r, n) + u * r.unitIn
  {
    hide Position, HalfWindow, Ceil;
    PositionShift(r, n, u);
    var k := u * r.unitIn;
    FloorShift(Position(r, n) - HalfWindow(r), k);
    FloorShift(Position(r, n) + HalfWindow(r), k);
    assert Position(r, n) + k as real - HalfWindow(r) == Position(r, n) - HalfWindow(r) + k as real;
    assert Position(r, n) + k as real + HalfWindow(r) == Position(r, n) + HalfWindow(r) + k as real;
  }

  lemma {:induction false} PositionInSeconds(r: Rates, n: int)
    requires RatesOk(r)
    ensures n as real / r.rout as real * r.rin as real == Position(r, n)
  {
    var t := n as real / r.rout as real;
    var c := r.unitOut as real;
    DivIs(n as real, r.rout as real);
    DivIs((n * r.unitIn) as real, c);
    MulReal(r.rin, r.unitOut);
    MulReal(r.rout, r.unitIn);
    MulReal(n, r.unitIn);
    Assoc(t, r.rin as real, c);
    Assoc(t, r.rout as real, r.unitIn as real);
    Cancel(t * r.rin as real, Position(r, n), c);
  }

  /** The table is computed in seconds. */
  lemma {:induction false} WindowInSeconds(r: Rates, n: int)
    requires RatesOk(r)
    ensures First(r, n) == Ceil((n as real / r.rout as real - WindowWidth(r)) * r.rin as real)
    ensures LastIndex(r, n) == ((n as real / r.rout as real + WindowWidth(r)) * r.rin as real).Floor
  {
    hide WindowWidth, Position;
    var t := n as real / r.rout as real;
    PositionInSeconds(r, n);
    MulSum(t, WindowWidth(r), r.rin as real);
    MulDiff(t, WindowWidth(r), r.rin as real);
    assert (t - WindowWidth(r)) * r.rin as real == Position(r, n) - HalfWindow(r);
  }

  // ---------- the output samples ----------

  /** The filter is any function of time. */
  type Filter = real -> real

  function Weight(r: Rates, h: Filter, k: int, n: int): real
    requires r.rin > 0 && r.rout > 0
  {
    h(k as real / r.rin as real - n as real / r.rout as real) / r.rin as real
  }

  lemma {:induction false} WeightShift(r: Rates, h: Filter, k: int, n: int, u: int)
    requires RatesOk(r)
    ensures Weight(r, h, k + u * r.unitIn, n + u * r.unitOut) == Weight(r, h, k, n)
  {
    var (a, b) := (r.rin as real, r.rout as real);
    var (x, y) := ((u * r.unitIn) as real, (u * r.unitOut) as real);
    DivIs(x, a);
    DivIs(y, b);
    // x / a == y / b, since both times are u units
    MulReal(u * r.unitIn, r.rout);
    MulReal(u * r.unitOut, r.rin);
    SameUnits(u, r.unitIn, r.unitOut, r.rin, r.rout);
    Assoc(x / a, a, b);
    Assoc(y / b, b, a);
    Positive(a, b);
    Assoc(x / a, b, a);
    Cancel(x / a, y / b, a * b);
    DivSum(k as real, x, a);
    DivSum(n as real, y, b);
  }

  lemma SameUnits(u: int, unitIn: int, unitOut: int, rin: int, rout: int)
    requires rin * unitOut == rout * unitIn
    ensures u * unitIn * rout == u * unitOut * rin
  {
    assert u * unitIn * rout == u * (rout * unitIn);
    assert u * unitOut * rin == u * (rin * unitOut);
  }

  lemma DivSum(a: real, b: real, c: real)
    requires c > 0.0
    ensures (a + b) / c == a / c + b / c
  {
    DivIs(a + b, c);
    DivIs(a, c);
    DivIs(b, c);
    MulSum(a / c, b / c, c);
    Cancel((a + b) / c, a / c + b / c, c);
  }

  /** The signal is silent before its start and after its end. */
  function Sample(signal: seq<real>, k: int): real {
    if 0 <= k < |signal| then signal[k] else 0.0
  }

  /** The first `count` products of the window of output sample `n`. */
  function Products(r: Rates, h: Filter, signal: seq<real>, n: int, count: nat): real
    requires r.rin > 0 && r.rout > 0 && r.unitOut > 0 && r.cutoff > 0.0
  {
    if count == 0 then 0.0
    else
      var k := First(r, n) + count - 1;
      Products(r, h, signal, n, count - 1) + Weight(r, h, k, n) * Sample(signal, k)
  }

  function WindowSize(r: Rates, n: int): nat
    requires r.unitOut > 0 && r.cutoff > 0.0
  {
    var size := LastIndex(r, n) - First(r, n) + 1;
    if size < 0 then 0 else size
  }

  /** Output sample `n`: the whole window. */
  function Out(r: Rates, h: Filter, signal: seq<real>, n: int): real
    requires r.rin > 0 && r.rout > 0 && r.unitOut > 0 && r.cutoff > 0.0
  {
    Products(r, h, signal, n, WindowSize(r, n))
  }

  /** Output samples `from` to `to - 1`. */
  function Outs(r: Rates, h: Filter, signal: seq<real>, from: nat, to: nat): (s: seq<real>)
    requires r.rin > 0 && r.rout > 0 && r.unitOut > 0 && r.cutoff > 0.0 && from <= to
    ensures |s| == to - from
  {
    if from == to then [] else Outs(r, h, signal, from, to - 1) + [Out(r, h, signal, to - 1)]
  }

  lemma {:induction false} OutsConcat(r: Rates, h: Filter, signal: seq<real>, a: nat, b: nat, c: nat)
    requires RatesOk(r) && a <= b <= c
    ensures Outs(r, h, signal, a, c) == Outs(r, h, signal, a, b) + Outs(r, h, signal, b, c)
    decreases c
  {
    hide Out;
    if b == c {
      assert Outs(r, h, signal, b, c) == [];
    } else {
      OutsConcat(r, h, signal, a, b, c - 1);
    }
  }

  /** An output sample whose window lies inside the input does not change when more input arrives. */
  lemma {:induction false} MoreInput(r: Rates, h: Filter, signal: seq<real>, more: seq<real>, n: nat, count: nat)
    requires RatesOk(r) && n < NumOut(r, |signal|, false) && First(r, n) + count <= LastIndex(r, n) + 1
    ensures Products(r, h, signal + more, n, count) == Products(r, h, signal, n, count)
  {
    hide Weight, Position, HalfWindow, NumOut, Ceil;
    if count > 0 {
      MoreInput(r, h, signal, more, n, count - 1);
      NumOutIs(r, |signal|, false, n);
      assert First(r, n) + count - 1 < |signal|;
    }
  }

  lemma {:induction false} MoreInputOuts(r: Rates, h: Filter, signal: seq<real>, more: seq<real>, to: nat)
    requires RatesOk(r) && to <= NumOut(r, |signal|, false)
    ensures Outs(r, h, signal + more, 0, to) == Outs(r, h, signal, 0, to)
  {
    hide Products, NumOut, First, LastIndex;
    if to > 0 {
      MoreInputOuts(r, h, signal, more, to - 1);
      if WindowSize(r, to - 1) > 0 {
        MoreInput(r, h, signal, more, to - 1, WindowSize(r, to - 1));
      } else {
        NoProducts(r, h, signal, to - 1);
        NoProducts(r, h, signal + more, to - 1);
      }
    }
  }

  lemma NoProducts(r: Rates, h: Filter, signal: seq<real>, n: int)
    requires RatesOk(r)
    ensures Products(r, h, signal, n, 0) == 0.0
  {
  }

  /** More input, or a flush, never takes output back. */
  lemma {:induction false} NumOutGrows(r: Rates, total: nat, total': nat, flush: bool)
    requires RatesOk(r) && total <= total'
    ensures NumOut(r, total, false) <= NumOut(r, total', flush)
  {
    hide Position, HalfWindow, NumOut;
    var a, b := NumOut(r, total, false), NumOut(r, total', flush);
    if b < a {
      NumOutIs(r, total, false, b);
      NumOutIs(r, total', flush, b);
      HalfPositive(r);
    }
  }

  lemma HalfPositive(r: Rates)
    requires RatesOk(r)
    ensures HalfWindow(r) >= 0.0
  {
    var (z, c) := (r.zeros as real, 2.0 * r.cutoff);
    DivIs(z, c);
    CancelLess(z / c, 0.0, c);
    MulNonNegative(z / c, r.rin as real);
  }

  // ---------- the remainder ----------

  /** The remainder kept between calls: the width of the window. */
  function RemainderSize(r: Rates): int
    requires r.cutoff > 0.0
  {
    Ceil((r.rin * r.zeros) as real / r.cutoff)
  }

  lemma {:induction false} RemainderIsWindow(r: Rates)
    requires RatesOk(r)
    ensures (r.rin * r.zeros) as real / r.cutoff == 2.0 * HalfWindow(r)
    ensures RemainderSize(r) >= 0
  {
    var (z, c, i) := (r.zeros as real, r.cutoff, r.rin as real);
    MulReal(r.rin, r.zeros);
    DivIs(i * z, c);
    DivIs(z, 2.0 * c);
    var w := z / (2.0 * c);
    Assoc(w, i, c);
    assert w * (2.0 * c) == 2.0 * (w * c);
    assert (2.0 * (w * i)) * c == 2.0 * (w * i * c);
    assert w * i * c == (w * c) * i;
    assert 2.0 * ((w * c) * i) == (2.0 * (w * c)) * i;
    assert z * i == i * z;
    Cancel((r.rin * r.zeros) as real / c, 2.0 * HalfWindow(r), c);
    HalfPositive(r);
    CeilIs(2.0 * HalfWindow(r));
  }

  /** No window of a sample still to be put out begins before the remainder. */
  lemma {:induction false} RemainderLongEnough(r: Rates, total: nat, n: nat)
    requires RatesOk(r) && n >= NumOut(r, total, false)
    ensures First(r, n) >= total - RemainderSize(r)
  {
    hide Position, HalfWindow, NumOut;
    NumOutIs(r, total, false, n);
    RemainderIsWindow(r);
    CeilIs(2.0 * HalfWindow(r));
    CeilIs(Position(r, n) - HalfWindow(r));
  }
}
