/** The polyphase resampler (resample.cpp) with its table of windows, its offsets and its remainder. */
module Resample {
  import opened Arithmetic
  import opened Divisors
  import opened ResampleSpec

  // ---------- dot products ----------

  ghost function Dot(a: seq<real>, b: seq<real>, n: nat): real
    requires n <= |a| && n <= |b|
  {
    if n == 0 then 0.0 else Dot(a, b, n - 1) + a[n - 1] * b[n - 1]
  }

  method DotProduct(a: seq<real>, b: seq<real>, n: nat) returns (sum: real)
    requires n <= |a| && n <= |b|
    ensures sum == Dot(a, b, n)
  {
    sum := 0.0;
    var i: nat := 0;
    while i != n
      invariant i <= n && sum == Dot(a, b, i)
    {
      sum := sum + a[i] * b[i];
      i := i + 1;
    }
  }

  /** The sample `d` before the end of what the remainder remembers. */
  ghost function Past(remainder: seq<real>, d: nat): real
    requires d > 0
  {
    if d <= |remainder| then remainder[|remainder| - d] else 0.0
  }

  ghost predicate RemainderOk(remainder: seq<real>, signal: seq<real>, size: int) {
    && ((remainder == [] && signal == []) || |remainder| == size)
    && forall d: nat :: 0 < d <= size ==> Past(remainder, d) == Sample(signal, |signal| - d)
  }

  class LinearResample {
    const rates: Rates
    const filter: Filter
    var firstIndex: seq<int>
    var weights: seq<seq<real>>
    var inputOffset: nat
    var outputOffset: nat
    var remainder: seq<real>

    /** The signal so far and all that was put out for it. */
    ghost var signal: seq<real>
    ghost var emitted: seq<real>

    ghost predicate UnitsAreGcd() {
      && RatesOk(rates)
      && exists g: nat ::
           && IsGcd(g, rates.rin, rates.rout) && g > 0
           && rates.unitIn == rates.rin / g && rates.unitOut == rates.rout / g
    }

    ghost predicate TableOk()
      reads this`firstIndex, this`weights
    {
      && UnitsAreGcd()
      && |firstIndex| == |weights| == rates.unitOut
      && forall i: nat :: i < rates.unitOut ==> EntryOk(rates, filter, firstIndex[i], weights[i], i)
    }

    static ghost predicate EntryOk(r: Rates, h: Filter, first: int, w: seq<real>, i: nat)
      requires RatesOk(r)
    {
      first == First(r, i) && |w| == WindowSize(r, i) && forall j: nat :: j < |w| ==> w[j] == Weight(r, h, first + j, i)
    }

    ghost predicate Valid()
      reads this
    {
      && TableOk()
      && inputOffset == |signal| && outputOffset == NumOut(rates, |signal|, false)
      && RemainderOk(remainder, signal, RemainderSize(rates))
      && emitted == Outs(rates, filter, signal, 0, outputOffset)
    }

    constructor (rin: nat, rout: nat, cutoff: real, zeros: nat, h: Filter)
      requires rin > 0 && rout > 0 && cutoff > 0.0 && cutoff * 2.0 <= rin as real && cutoff * 2.0 <= rout as real
               && zeros > 0
      ensures Valid() && signal == [] && emitted == []
      ensures rates.rin == rin && rates.rout == rout && rates.cutoff == cutoff && rates.zeros == zeros && filter == h
    {
      var baseFreq := Gcd(rin, rout);
      UnitsOk(rin, rout, baseFreq);
      rates := Rates(rin, rout, rin / baseFreq, rout / baseFreq, cutoff, zeros);
      filter := h;
      new;
      SetIndexesAndWeights();
      Reset();
    }

    /** The table: the window of each output sample of a unit (resample.cpp:104-132). */
    method SetIndexesAndWeights()
      requires UnitsAreGcd()
      modifies this`firstIndex, this`weights
      ensures TableOk()
    {
      hide UnitsAreGcd, EntryOk;
      firstIndex, weights := [], [];
      UnitsOfRates();
      var i: nat := 0;
      while i < rates.unitOut
        invariant i <= rates.unitOut && |firstIndex| == |weights| == i
        invariant forall k: nat :: k < i ==> EntryOk(rates, filter, firstIndex[k], weights[k], k)
      {
        var minInputIndex, w := Entry(i);
        firstIndex := firstIndex + [minInputIndex];
        weights := weights + [w];
        i := i + 1;
      }
    }

    /** One entry of the table. */
    method Entry(i: nat) returns (minInputIndex: int, w: seq<real>)
      requires RatesOk(rates)
      ensures EntryOk(rates, filter, minInputIndex, w, i)
    {
      hide WindowWidth, EntryOk, First, LastIndex, Weight;
      var windowWidth := rates.zeros as real / (2.0 * rates.cutoff);
      assert windowWidth == WindowWidth(rates) by { WidthIs(rates); }
      var outputT := i as real / rates.rout as real;
      var minT, maxT := outputT - windowWidth, outputT + windowWidth;
      minInputIndex := Ceil(minT * rates.rin as real);
      var maxInputIndex := (maxT * rates.rin as real).Floor;
      WindowInSeconds(rates, i);
      WindowNotEmpty(rates, i);
      var numIndices := maxInputIndex - minInputIndex + 1;
      w := Weights(minInputIndex, numIndices, outputT, i);
      MakeEntry(rates, filter, minInputIndex, w, i);
    }

    method Weights(minInputIndex: int, numIndices: nat, outputT: real, i: nat) returns (w: seq<real>)
      requires RatesOk(rates) && outputT == i as real / rates.rout as real
      ensures |w| == numIndices && forall j: nat :: j < |w| ==> w[j] == Weight(rates, filter, minInputIndex + j, i)
    {
      w := [];
      var j: nat := 0;
      while j < numIndices
        invariant j <= numIndices && |w| == j
        invariant forall k: nat :: k < j ==> w[k] == Weight(rates, filter, minInputIndex + k, i)
      {
        var inputIndex := minInputIndex + j;
        var inputT := inputIndex as real / rates.rin as real;
        var deltaT := inputT - outputT;
        w := w + [filter(deltaT) / rates.rin as real];
        j := j + 1;
      }
    }

    static lemma MakeEntry(r: Rates, h: Filter, first: int, w: seq<real>, i: nat)
      requires RatesOk(r) && first == First(r, i) && |w| == WindowSize(r, i)
      requires forall j: nat :: j < |w| ==> w[j] == Weight(r, h, first + j, i)
      ensures EntryOk(r, h, first, w, i)
    {
    }

    static lemma WidthIs(r: Rates)
      requires RatesOk(r)
      ensures r.zeros as real / (2.0 * r.cutoff) == WindowWidth(r)
    {
    }

    static lemma WindowNotEmpty(r: Rates, n: nat)
      requires RatesOk(r)
      ensures WindowSize(r, n) == LastIndex(r, n) - First(r, n) + 1
    {
      hide Position, HalfWindow;
      HalfPositive(r);
      CeilIs(Position(r, n) - HalfWindow(r));
    }

    method Reset()
      requires TableOk()
      modifies this`inputOffset, this`outputOffset, this`remainder, this`signal, this`emitted
      ensures Valid() && signal == [] && emitted == []
    {
      hide TableOk, NumOut;
      inputOffset, outputOffset, remainder := 0, 0, [];
      signal, emitted := [], [];
      NothingYet();
    }

    lemma NothingYet()
      requires TableOk()
      ensures NumOut(rates, 0, false) == 0 && Outs(rates, filter, [], 0, 0) == []
    {
      hide Position, HalfWindow, NumOut;
      HalfPositive(rates);
      NumOutIs(rates, 0, false, 0);
      assert Position(rates, 0) == 0.0 by { PositionZero(rates); }
    }

    static lemma PositionZero(r: Rates)
      requires RatesOk(r)
      ensures Position(r, 0) == 0.0
    {
    }

    /** In ticks of the least common multiple of the rates (resample.cpp:220-265). */
    method GetNumOutputSamples(inputNumSamp: nat, flush: bool) returns (num: nat)
      requires UnitsAreGcd()
      ensures num == NumOut(rates, inputNumSamp, flush)
    {
      hide UnitsAreGcd, WindowWidth, IsGcd;
      UnitsOfRates();
      var tickFreq := Lcm(rates.rin, rates.rout);
      OneUnit(tickFreq);
      var ticksPerInputPeriod := tickFreq / rates.rin;
      var intervalLengthInTicks := inputNumSamp * ticksPerInputPeriod;
      if !flush {
        var windowWidth := rates.zeros as real / (2.0 * rates.cutoff);
        assert windowWidth == WindowWidth(rates) by { WidthIs(rates); }
        var windowWidthTicks := (windowWidth * tickFreq as real).Floor;
        intervalLengthInTicks := intervalLengthInTicks - windowWidthTicks;
      }
      assert intervalLengthInTicks == Ticks(rates, inputNumSamp, flush);
      num := OutputsBefore(intervalLengthInTicks, tickFreq / rates.rout);
    }

    /** The output samples before the open end of an interval. */
    method OutputsBefore(intervalLengthInTicks: int, ticksPerOutputPeriod: nat) returns (num: nat)
      requires ticksPerOutputPeriod > 0
      ensures num == CountBelow(intervalLengthInTicks, ticksPerOutputPeriod)
    {
      if intervalLengthInTicks <= 0 { return 0; }
      var lastOutputSamp := intervalLengthInTicks / ticksPerOutputPeriod;
      OpenEnd(intervalLengthInTicks, ticksPerOutputPeriod);
      if lastOutputSamp * ticksPerOutputPeriod == intervalLengthInTicks {
        lastOutputSamp := lastOutputSamp - 1;
      }
      num := lastOutputSamp + 1;
    }

    static lemma OpenEnd(length: nat, step: nat)
      requires length > 0 && step > 0
      ensures var q := length / step;
              (length - 1) / step == if q * step == length then q - 1 else q
    {
      var (q, p) := (length / step, (length - 1) / step);
      assert q * step <= length < q * step + step;
      assert p * step <= length - 1 < p * step + step;
      if p > q { MulMono(q + 1, p, step); Distribute(q, 1, step); }
      if p < q - 1 { MulMono(p + 2, q, step); Distribute(p, 2, step); }
      Distribute(q - 1, 1, step);
      if p == q - 1 { assert q * step == p * step + step; }
    }

    lemma UnitsOfRates()
      requires UnitsAreGcd()
      ensures RatesOk(rates)
    {
    }

    lemma OneUnit(tickFreq: nat)
      requires UnitsAreGcd() && rates.rin > 0 && rates.rout > 0
      requires exists g: nat :: IsGcd(g, rates.rin, rates.rout) && g > 0
                                && tickFreq == rates.rin * (rates.rout / g) == rates.rout * (rates.rin / g)
      ensures tickFreq == rates.rin * rates.unitOut && tickFreq / rates.rin == rates.unitOut
              && tickFreq / rates.rout == rates.unitIn
    {
      hide IsGcd;
      var g: nat :| IsGcd(g, rates.rin, rates.rout) && g > 0 && rates.unitIn == rates.rin / g
          && rates.unitOut == rates.rout / g;
      var h: nat :| IsGcd(h, rates.rin, rates.rout) && h > 0
          && tickFreq == rates.rin * (rates.rout / h) == rates.rout * (rates.rin / h);
      OneGcd(g, h, rates.rin, rates.rout);
      DivExact(rates.unitOut, rates.rin);
      DivExact(rates.unitIn, rates.rout);
    }

    /** The window of output sample `sampOut`, from the table (resample.cpp:268-279). */
    method GetIndexes(sampOut: nat) returns (firstSampIn: int, sampOutWrapped: nat)
      requires TableOk()
      ensures sampOutWrapped < |weights|
      ensures firstSampIn == First(rates, sampOut) && |weights[sampOutWrapped]| == WindowSize(rates, sampOut)
      ensures forall j: nat :: j < |weights[sampOutWrapped]| ==>
                weights[sampOutWrapped][j] == Weight(rates, filter, firstSampIn + j, sampOut)
    {
      hide First, LastIndex, Weight, IsGcd;
      var unitIndex := sampOut / rates.unitOut;
      sampOutWrapped := sampOut - unitIndex * rates.unitOut;
      assert EntryOk(rates, filter, firstIndex[sampOutWrapped], weights[sampOutWrapped], sampOutWrapped);
      WindowShift(rates, sampOutWrapped, unitIndex);
      firstSampIn := firstIndex[sampOutWrapped] + unitIndex * rates.unitIn;
      forall j: nat | j < |weights[sampOutWrapped]|
        ensures weights[sampOutWrapped][j] == Weight(rates, filter, firstSampIn + j, sampOut)
      {
        WeightShift(rates, filter, firstIndex[sampOutWrapped] + j, sampOutWrapped, unitIndex);
        assert firstIndex[sampOutWrapped] + j + unitIndex * rates.unitIn == firstSampIn + j;
      }
    }

    /** What one step of the edge loop adds is the sample's share: silence before the start and after the end. */
    lemma {:induction false} EdgeSample(input: seq<real>, flush: bool, n: nat, k: int)
      requires Valid() && outputOffset <= n < NumOut(rates, |signal| + |input|, flush)
      requires First(rates, n) <= k <= LastIndex(rates, n)
      ensures var i := k - inputOffset;
              && Sample(signal + input, k) ==
                 (if i < 0 then (if |remainder| + i >= 0 then remainder[|remainder| + i] else 0.0)
                                               else if i < |input| then input[i] else 0.0)
              && (i >= |input| ==> flush)
    {
      hide Position, HalfWindow, NumOut, TableOk, Outs;
      assert RatesOk(rates) by { TableRates(); }
      var i := k - inputOffset;
      if i < 0 {
        RemainderLongEnough(rates, |signal|, n);
        assert Past(remainder, -i) == Sample(signal, |signal| - (-i));
      } else if i >= |input| && !flush {
        NumOutIs(rates, |signal| + |input|, flush, n);
        assert false;
      }
    }

    lemma TableRates()
      requires TableOk()
      ensures RatesOk(rates)
    {
    }

    /** One output sample (resample.cpp:172-209). */
    method OneSample(input: seq<real>, flush: bool, sampOut: nat) returns (thisOutput: real)
      requires Valid() && outputOffset <= sampOut < NumOut(rates, |signal| + |input|, flush)
      ensures thisOutput == Out(rates, filter, signal + input, sampOut)
    {
      hide First, LastIndex, Weight, NumOut, RemainderOk, Outs, TableOk, Sample;
      TableRates();
      var firstSampIn, sampOutWrapped := GetIndexes(sampOut);
      var w := weights[sampOutWrapped];
      var firstInputIndex := firstSampIn - inputOffset;
      if firstInputIndex >= 0 && firstInputIndex + |w| <= |input| {
        thisOutput := DotProduct(input[firstInputIndex..], w, |w|);
        InsideInput(rates, filter, signal, input, sampOut, w, |w|);
      } else {
        thisOutput := 0.0;
        var i: nat := 0;
        while i < |w|
          invariant i <= |w| && thisOutput == Products(rates, filter, signal + input, sampOut, i)
        {
          var weight := w[i];
          var inputIndex := firstInputIndex + i;
          InWindow(rates, sampOut, i);
          EdgeSample(input, flush, sampOut, firstSampIn + i);
          OneProduct(rates, filter, signal + input, sampOut, i);
          Silence(weight);
          if inputIndex < 0 && |remainder| + inputIndex >= 0 {
            thisOutput := thisOutput + weight * remainder[|remainder| + inputIndex];
          } else if inputIndex >= 0 && inputIndex < |input| {
            thisOutput := thisOutput + weight * input[inputIndex];
          } else if inputIndex >= |input| {
            assert flush;  // past the end of the input
          }
          i := i + 1;
        }
      }
    }

    static lemma Silence(w: real)
      ensures w * 0.0 == 0.0
    {
    }

    static lemma InWindow(r: Rates, n: nat, i: nat)
      requires RatesOk(r) && i < WindowSize(r, n)
      ensures First(r, n) <= First(r, n) + i <= LastIndex(r, n)
    {
    }

    static lemma OneProduct(r: Rates, h: Filter, signal: seq<real>, n: nat, i: nat)
      requires RatesOk(r)
      ensures Products(r, h, signal, n, i + 1) ==
                Products(r, h, signal, n, i) + Weight(r, h, First(r, n) + i, n) * Sample(signal, First(r, n) + i)
    {
      hide First, LastIndex, Weight, Sample;
    }

    /** A window inside the input is a dot product with it. */
    static lemma {:induction false} InsideInput(r: Rates, h: Filter, signal: seq<real>, input: seq<real>, n: nat,
                                                w: seq<real>, count: nat)
      requires RatesOk(r) && count <= |w| && First(r, n) >= |signal| && First(r, n) + count <= |signal| + |input|
      requires forall j: nat :: j < |w| ==> w[j] == Weight(r, h, First(r, n) + j, n)
      ensures count <= |input[First(r, n) - |signal|..]|
      ensures Products(r, h, signal + input, n, count) == Dot(input[First(r, n) - |signal|..], w, count)
    {
      hide First, Weight;
      if count > 0 {
        InsideInput(r, h, signal, input, n, w, count - 1);
      }
    }

    /** Keep the end of the signal (resample.cpp:281-306). */
    method SetRemainder(input: seq<real>)
      requires UnitsAreGcd() && RemainderOk(remainder, signal, RemainderSize(rates))
      modifies this`remainder
      ensures RemainderOk(remainder, signal + input, RemainderSize(rates))
    {
      hide IsGcd, RemainderSize, Past, Sample;
      RemainderIsWindow(rates);
      var oldRemainder := remainder;
      var maxRemainderNeeded: nat := Ceil((rates.rin * rates.zeros) as real / rates.cutoff);
      assert maxRemainderNeeded == RemainderSize(rates) by { SizeIs(rates); }
      remainder := Resize(remainder, maxRemainderNeeded);
      var index: int := -|remainder|;
      while index < 0
        invariant -|remainder| <= index <= 0 && |remainder| == maxRemainderNeeded
        invariant forall d: nat :: -index < d <= |remainder| ==>
                    Past(remainder, d) == Sample(signal + input, |signal| + |input| - d)
        invariant forall j: nat :: index + |remainder| <= j < |remainder| ==>
                    remainder[j] == Resize(oldRemainder, maxRemainderNeeded)[j]
      {
        var inputIndex := index + |input|;
        ghost var was := remainder;
        KeptSample(oldRemainder, signal, input, maxRemainderNeeded, index);
        if inputIndex >= 0 {
          remainder := remainder[index + |remainder| := input[inputIndex]];
        } else if inputIndex + |oldRemainder| >= 0 {
          remainder := remainder[index + |remainder| := oldRemainder[inputIndex + |oldRemainder|]];
        }
        OneKept(was, remainder, index);
        index := index + 1;
      }
    }

    static lemma SizeIs(r: Rates)
      requires RatesOk(r)
      ensures RemainderSize(r) == Ceil((r.rin * r.zeros) as real / r.cutoff)
    {
    }

    /** `std::vector::resize`: cut, or filled up with zeros. */
    static function Resize(s: seq<real>, n: nat): (r: seq<real>)
      ensures |r| == n
    {
      if n <= |s| then s[..n] else Resize(s, n - 1) + [0.0]
    }

    /** What SetRemainder stores at `index` is the sample there. */
    static lemma {:induction false} KeptSample(remainder: seq<real>, signal: seq<real>, input: seq<real>, size: nat,
                                               index: int)
      requires RemainderOk(remainder, signal, size) && 0 <= index + size && index < 0
      ensures var i := index + |input|;
              Sample(signal + input, |signal| + i) ==
                if i >= 0 then input[i]
                else if i + |remainder| >= 0 then remainder[i + |remainder|]
                else Resize(remainder, size)[index + size]
    {
      var i := index + |input|;
      if i < 0 {
        assert Past(remainder, -i) == Sample(signal, |signal| - (-i));
        if i + |remainder| < 0 {
          assert remainder == [];
          ResizeEmpty(size, index + size);
        }
      }
    }

    static lemma {:induction false} ResizeEmpty(n: nat, j: nat)
      requires j < n
      ensures Resize([], n)[j] == 0.0
    {
      if j < n - 1 { ResizeEmpty(n - 1, j); }
    }

    static lemma OneKept(before: seq<real>, after: seq<real>, index: int)
      requires |after| == |before| && 0 <= index + |before| && index < 0
      requires forall j :: 0 <= j < |before| && j != index + |before| ==> after[j] == before[j]
      ensures forall d: nat :: -index < d <= |after| ==> Past(after, d) == Past(before, d)
      ensures Past(after, -index) == after[index + |after|]
    {
    }

    /** One call (resample.cpp:161-218).  All output so far, with this call's, is the output for all input so far: so
        however a signal is cut into calls, the pieces put together are what one call with all of it gives. */
    method Resample(input: seq<real>, flush: bool) returns (output: seq<real>)
      requires Valid()
      modifies this`inputOffset, this`outputOffset, this`remainder, this`signal, this`emitted
      ensures Valid()
      ensures var all := old(signal) + input;
              && old(emitted) + output == Outs(rates, filter, all, 0, NumOut(rates, |all|, flush))
              && signal == (if flush then [] else all) && emitted == if flush then [] else old(emitted) + output
    {
      hide UnitsAreGcd, TableOk, NumOut, Out, RemainderOk, RemainderSize, RatesOk;
      TableUnits();
      var totInputSamp := inputOffset + |input|;
      var totOutputSamp := GetNumOutputSamples(totInputSamp, flush);
      NumOutGrows(rates, |signal|, totInputSamp, flush);
      assert totOutputSamp >= outputOffset;
      ghost var all := signal + input;
      MoreInputOuts(rates, filter, signal, input, outputOffset);
      OutsConcat(rates, filter, all, 0, outputOffset, totOutputSamp);
      output := OutputSamples(input, flush, totOutputSamp);
      if flush {
        Reset();
      } else {
        SetRemainder(input);
        inputOffset := totInputSamp;
        outputOffset := totOutputSamp;
        signal, emitted := all, emitted + output;
      }
    }

    /** The samples from `outputOffset` on. */
    method OutputSamples(input: seq<real>, flush: bool, totOutputSamp: nat) returns (output: seq<real>)
      requires Valid() && RatesOk(rates)
      requires outputOffset <= totOutputSamp == NumOut(rates, |signal| + |input|, flush)
      ensures output == Outs(rates, filter, signal + input, outputOffset, totOutputSamp)
    {
      hide Valid, RatesOk, Out, NumOut;
      output := [];
      var sampOut := outputOffset;
      RatesFacts();
      while sampOut < totOutputSamp
        invariant outputOffset <= sampOut <= totOutputSamp
        invariant output == Outs(rates, filter, signal + input, outputOffset, sampOut)
      {
        var thisOutput := OneSample(input, flush, sampOut);
        output := output + [thisOutput];
        sampOut := sampOut + 1;
      }
    }

    lemma RatesFacts()
      requires RatesOk(rates)
      ensures rates.rin > 0 && rates.rout > 0 && rates.unitIn > 0 && rates.unitOut > 0 && rates.cutoff > 0.0
    {
    }

    lemma TableUnits()
      requires TableOk()
      ensures UnitsAreGcd() && RatesOk(rates) && rates.rin > 0 && rates.rout > 0 && rates.unitIn > 0
              && rates.unitOut > 0 && rates.cutoff > 0.0
    {
    }
  }
}
