/** Audio as it arrives: bytes of 16-bit samples, which may have to be resampled (audio.cpp:259-284, 821-861). */
module Pcm {
  import opened Arithmetic
  import opened Divisors
  import opened ResampleSpec
  import R = Resample

  type Byte = b: int | 0 <= b < 256

  // ---------- samples and bytes ----------

  /** Little-endian, two's complement. */
  function Sample16(low: Byte, high: Byte): (v: int)
    ensures -32768 <= v < 32768
  {
    var bits := high * 256 + low;
    if bits < 32768 then bits else bits - 65536
  }

  function LowByte(v: int): Byte { v % 256 }

  function HighByte(v: int): Byte { v / 256 % 256 }

  /** Bytes and samples stand for each other. */
  lemma {:induction false} SampleBytes(v: int, low: Byte, high: Byte)
    requires -32768 <= v < 32768
    ensures Sample16(low, high) == v <==> low == LowByte(v) && high == HighByte(v)
  {
  }

  ghost predicate IsPcm(buf: seq<Byte>, scale: real, samples: seq<real>)
    requires scale > 0.0
  {
    && |samples| == |buf| / 2
    && forall i :: 0 <= i < |samples| ==> samples[i] == Sample16(buf[2 * i], buf[2 * i + 1]) as real / scale
  }

  /** An odd byte at the end is left out. */
  method Decode(buf: seq<Byte>, normalized: bool) returns (samples: seq<real>)
    ensures IsPcm(buf, if normalized then 32768.0 else 1.0, samples)
    ensures normalized ==> forall i :: 0 <= i < |samples| ==> -1.0 <= samples[i] < 1.0
  {
    var scale := if normalized then 32768.0 else 1.0;
    samples := [];
    var i := 0;
    while i < |buf| / 2
      invariant 0 <= i <= |buf| / 2 && |samples| == i
      invariant forall k :: 0 <= k < i ==> samples[k] == Sample16(buf[2 * k], buf[2 * k + 1]) as real / scale
    {
      var val := Sample16(buf[2 * i], buf[2 * i + 1]);
      samples := samples + [val as real / scale];
      i := i + 1;
    }
  }

  // ---------- resampling ----------

  /** `WavResample`: one flushed call of a new resampler. */
  method WavResample(samplingRate: nat, destRate: nat, filter: Filter, waveform: seq<real>)
    returns (samples: seq<real>, ghost r: Rates)
    requires samplingRate > 0 && destRate > 0
    ensures RatesOk(r) && r.rin == samplingRate && r.rout == destRate
    ensures samples == Outs(r, filter, waveform, 0, NumOut(r, |waveform|, true))
  {
    var minFreq := if samplingRate < destRate then samplingRate else destRate;
    var lowpassCutoff := 0.99 * 0.5 * minFreq as real;
    var resampler := new R.LinearResample(samplingRate, destRate, lowpassCutoff, 6, filter);
    r := resampler.rates;
    assert resampler.signal + waveform == waveform;
    samples := resampler.Resample(waveform, true);
    assert [] + samples == samples;
  }

  // ---------- resampling piece by piece ----------

  lemma {:induction false} CountIs(length: nat, step: nat, n: nat)
    requires step > 0 && n * step >= length && (n > 0 ==> (n - 1) * step < length)
    ensures CountBelow(length, step) == n
  {
    CountBelowIs(length, step, n);
    if n > 0 { CountBelowIs(length, step, n - 1); }
  }

  lemma {:induction false} CountBounds(length: nat, step: nat)
    requires step > 0
    ensures var n := CountBelow(length, step); n * step >= length && (n > 0 ==> (n - 1) * step < length)
  {
    var n := CountBelow(length, step);
    CountBelowIs(length, step, n);
    if n > 0 { CountBelowIs(length, step, n - 1); }
  }

  lemma {:induction false} WholeSteps(k: nat, length: nat, step: nat)
    requires step > 0
    ensures k * step + length >= 0
    ensures CountBelow(k * step, step) == k && CountBelow(k * step + length, step) == k + CountBelow(length, step)
  {
    var n := CountBelow(length, step);
    CountBounds(length, step);
    Distribute(k, n, step);
    Distribute(k, -1, step);
    MulMono(0, k, step);
    CountIs(k * step, step, k);
    if n > 0 {
      Distribute(k, n - 1, step);
      CountIs(k * step + length, step, k + n);
    } else {
      assert length == 0;
    }
  }

  /** Two parts that make whole steps only together count one more than the whole. */
  lemma {:induction false} BrokenStep(a: nat, b: nat, k: nat, l: int, rest: nat, step: nat)
    requires 0 < rest < step && a == k * step + rest && b == l * step - rest
    ensures CountBelow(a, step) + CountBelow(b, step) == CountBelow(a + b, step) + 1
  {
    if l <= 0 { MulMono(l, 0, step); }
    Distribute(k, 1, step);
    Distribute(l, -1, step);
    Distribute(k, l, step);
    Distribute(k + l, -1, step);
    CountIs(a, step, k + 1);
    CountIs(b, step, l);
    CountIs(a + b, step, k + l);
  }

  /** The samples put out for `m` samples. */
  ghost function Resampled(r: Rates, m: nat): nat
    requires RatesOk(r)
  {
    NumOut(r, m, true)
  }

  lemma {:induction false} ResampledIs(r: Rates, m: nat)
    requires RatesOk(r)
    ensures m * r.unitOut >= 0 && Resampled(r, m) == CountBelow(m * r.unitOut, r.unitIn)
  {
    MulMono(0, m, r.unitOut);
  }

  /** Audio that is resampled piece by piece keeps its length, whatever comes next, exactly when the first piece makes
      a whole number of samples; otherwise some next piece makes it one sample longer. */
  lemma {:induction false} PiecesKeepLength(r: Rates, m: nat)
    requires RatesOk(r)
    ensures (forall n: nat :: Resampled(r, m) + Resampled(r, n) == Resampled(r, m + n)) <==>
              m * r.unitOut % r.unitIn == 0
  {
    hide Resampled;
    if m * r.unitOut % r.unitIn == 0 {
      forall n: nat
        ensures Resampled(r, m) + Resampled(r, n) == Resampled(r, m + n)
      {
        WholePiece(r, m, n);
      }
    } else {
      var n := BrokenPiece(r, m);
      assert Resampled(r, m) + Resampled(r, n) != Resampled(r, m + n);
    }
  }

  lemma {:induction false} WholePiece(r: Rates, m: nat, n: nat)
    requires RatesOk(r) && m * r.unitOut % r.unitIn == 0
    ensures Resampled(r, m) + Resampled(r, n) == Resampled(r, m + n)
  {
    hide Resampled, CountBelow;
    ResampledIs(r, m);
    ResampledIs(r, n);
    ResampledIs(r, m + n);
    Distribute(m, n, r.unitOut);
    WholeSum(m * r.unitOut, n * r.unitOut, r.unitIn);
  }

  lemma {:induction false} WholeSum(a: nat, b: nat, w: nat)
    requires w > 0 && a % w == 0
    ensures CountBelow(a, w) + CountBelow(b, w) == CountBelow(a + b, w)
  {
    hide CountBelow;
    assert a == a / w * w;
    WholeSteps(a / w, b, w);
  }

  lemma {:induction false} BrokenPiece(r: Rates, m: nat) returns (n: nat)
    requires RatesOk(r) && m * r.unitOut % r.unitIn != 0
    ensures Resampled(r, m) + Resampled(r, n) == Resampled(r, m + n) + 1
  {
    hide Resampled, CountBelow;
    n := r.unitIn - m % r.unitIn;
    ResampledIs(r, m);
    ResampledIs(r, n);
    ResampledIs(r, m + n);
    Distribute(m, n, r.unitOut);
    Together(m, r.unitOut, r.unitIn);
    BrokenSum(m * r.unitOut, n * r.unitOut, (m / r.unitIn + 1) * r.unitOut, r.unitIn);
  }

  lemma {:induction false} BrokenSum(a: nat, b: nat, c: nat, w: nat)
    requires w > 0 && a % w != 0 && a + b == c * w
    ensures CountBelow(a, w) + CountBelow(b, w) == CountBelow(a + b, w) + 1
  {
    hide CountBelow;
    DivBounds(a, w);
    Subtract(c, a / w, w);
    BrokenStep(a, b, a / w, c - a / w, a % w, w);
  }

  lemma {:induction false} Together(m: nat, u: nat, w: nat)
    requires w > 0
    ensures (m + (w - m % w)) * u == (m / w + 1) * u * w
  {
    var q := m / w + 1;
    assert m + (w - m % w) == q * w by { Distribute(m / w, 1, w); DivBounds(m, w); }
    assert q * w * u == q * u * w;
  }

  /** From 48 kHz to 16 kHz, two calls of one sample each give two samples where one call gives one. */
  lemma {:induction false} SplitCallsAddSample(cutoff: real, zeros: nat)
    requires cutoff > 0.0
    ensures var r := Rates(48000, 16000, 3, 1, cutoff, zeros);
            RatesOk(r) && Resampled(r, 1) + Resampled(r, 1) == 2 && Resampled(r, 2) == 1
  {
  }
}
