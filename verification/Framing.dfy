/** Cutting a signal into overlapping windows, of which a filter bank makes one feature frame each
    (fsmn-vad-online.cpp:11-42, fsmn-vad-online.h:52-58). */
module Framing {
  import opened Arithmetic
  import opened LfrSpec

  /** The filter bank is any function of the window. */
  type Fbank = seq<real> -> Feature

  /** Samples per window and from one window to the next. */
  datatype Windowing = Windowing(length: nat, shift: nat)

  ghost predicate WindowingOk(w: Windowing) {
    0 < w.shift <= w.length
  }

  /** Integer division that truncates toward zero. */
  function TruncDiv(a: int, b: nat): int
    requires b > 0
  {
    if a >= 0 then a / b else -((-a) / b)
  }

  function ComputeFrameNum(sampleLength: nat, w: Windowing): (n: nat)
    requires w.shift > 0
  {
    var frameNum := TruncDiv(sampleLength - w.length, w.shift) + 1;
    if frameNum >= 1 && sampleLength >= w.length then frameNum else 0
  }

  /** The frames are those whose window has been received. */
  lemma {:induction false} FrameNumIs(sampleLength: nat, w: Windowing, n: nat)
    requires w.shift > 0
    ensures n < ComputeFrameNum(sampleLength, w) <==> n * w.shift + w.length <= sampleLength
  {
    if sampleLength >= w.length {
      var a := sampleLength - w.length;
      DivBounds(a, w.shift);
      if n <= a / w.shift {
        MulMono(n, a / w.shift, w.shift);
      } else {
        MulMono(a / w.shift + 1, n, w.shift);
        Distribute(a / w.shift, 1, w.shift);
      }
    } else {
      MulMono(0, n, w.shift);
    }
  }

  lemma {:induction false} FrameNumBound(sampleLength: nat, w: Windowing)
    requires WindowingOk(w)
    ensures ComputeFrameNum(sampleLength, w) * w.shift <= sampleLength
  {
    var n := ComputeFrameNum(sampleLength, w);
    if n > 0 {
      FrameNumIs(sampleLength, w, n - 1);
      Distribute(n - 1, 1, w.shift);
    }
  }

  /** Frames from the `k`-th on. */
  lemma {:induction false} FrameNumFrom(sampleLength: nat, w: Windowing, k: nat)
    requires WindowingOk(w) && k * w.shift <= sampleLength && k <= ComputeFrameNum(sampleLength, w)
    ensures ComputeFrameNum(sampleLength - k * w.shift, w) == ComputeFrameNum(sampleLength, w) - k
  {
    var (a, b) := (ComputeFrameNum(sampleLength - k * w.shift, w), ComputeFrameNum(sampleLength, w));
    FrameNumIs(sampleLength - k * w.shift, w, a);
    Distribute(a, k, w.shift);
    FrameNumIs(sampleLength, w, a + k);
    if a > 0 {
      FrameNumIs(sampleLength - k * w.shift, w, a - 1);
      Distribute(a - 1, k, w.shift);
      FrameNumIs(sampleLength, w, a - 1 + k);
    }
  }

  lemma {:induction false} FrameNumGrows(a: nat, b: nat, w: Windowing)
    requires WindowingOk(w) && a <= b
    ensures ComputeFrameNum(a, w) <= ComputeFrameNum(b, w)
  {
    var n := ComputeFrameNum(a, w);
    if n > 0 {
      FrameNumIs(a, w, n - 1);
      FrameNumIs(b, w, n - 1);
    }
  }

  function Window(samples: seq<real>, w: Windowing, i: nat): seq<real>
    requires i * w.shift + w.length <= |samples|
  {
    samples[i * w.shift..i * w.shift + w.length]
  }

  /** The feature frames `from` to `to - 1` of a signal. */
  ghost function Feats(fbank: Fbank, samples: seq<real>, w: Windowing, from: nat, to: nat): (r: seq<Feature>)
    requires w.shift > 0 && from <= to <= ComputeFrameNum(|samples|, w)
    ensures |r| == to - from
  {
    if from == to then []
    else
      FrameNumIs(|samples|, w, to - 1);
      Feats(fbank, samples, w, from, to - 1) + [fbank(Window(samples, w, to - 1))]
  }

  ghost function AllFeats(fbank: Fbank, samples: seq<real>, w: Windowing): (r: seq<Feature>)
    requires w.shift > 0
    ensures |r| == ComputeFrameNum(|samples|, w)
  {
    Feats(fbank, samples, w, 0, ComputeFrameNum(|samples|, w))
  }

  lemma {:induction false} FeatsConcat(fbank: Fbank, samples: seq<real>, w: Windowing, a: nat, b: nat, c: nat)
    requires w.shift > 0 && a <= b <= c <= ComputeFrameNum(|samples|, w)
    ensures Feats(fbank, samples, w, a, c) == Feats(fbank, samples, w, a, b) + Feats(fbank, samples, w, b, c)
    decreases c
  {
    hide ComputeFrameNum, Window;
    if b == c {
      assert Feats(fbank, samples, w, b, c) == [];
    } else {
      FeatsConcat(fbank, samples, w, a, b, c - 1);
    }
  }

  /** More samples leave the frames so far alone. */
  lemma {:induction false} FeatsMore(fbank: Fbank, samples: seq<real>, more: seq<real>, w: Windowing, from: nat,
                                     to: nat)
    requires WindowingOk(w) && from <= to <= ComputeFrameNum(|samples|, w)
    ensures to <= ComputeFrameNum(|samples + more|, w)
    ensures Feats(fbank, samples + more, w, from, to) == Feats(fbank, samples, w, from, to)
  {
    hide ComputeFrameNum, Window;
    FrameNumGrows(|samples|, |samples + more|, w);
    if from < to {
      FeatsMore(fbank, samples, more, w, from, to - 1);
      FrameNumIs(|samples|, w, to - 1);
      WindowMore(samples, more, w, to - 1);
    }
  }

  lemma WindowMore(samples: seq<real>, more: seq<real>, w: Windowing, i: nat)
    requires i * w.shift + w.length <= |samples|
    ensures Window(samples + more, w, i) == Window(samples, w, i)
  {
  }

  /** The frames of what is left of a signal after `k` shifts are its later frames. */
  lemma {:induction false} FeatsFrom(fbank: Fbank, samples: seq<real>, w: Windowing, k: nat, to: nat)
    requires WindowingOk(w) && k * w.shift <= |samples| && k + to <= ComputeFrameNum(|samples|, w)
    ensures to <= ComputeFrameNum(|samples| - k * w.shift, w)
    ensures Feats(fbank, samples[k * w.shift..], w, 0, to) == Feats(fbank, samples, w, k, k + to)
  {
    hide ComputeFrameNum, Window;
    FrameNumFrom(|samples|, w, k);
    if to > 0 {
      FeatsFrom(fbank, samples, w, k, to - 1);
      FrameNumIs(|samples|, w, k + to - 1);
      FrameNumIs(|samples| - k * w.shift, w, to - 1);
      WindowFrom(samples, w, k, to - 1);
    }
  }

  lemma {:induction false} WindowFrom(samples: seq<real>, w: Windowing, k: nat, i: nat)
    requires k * w.shift <= |samples| && (k + i) * w.shift + w.length <= |samples|
    ensures i * w.shift + w.length <= |samples[k * w.shift..]|
    ensures Window(samples[k * w.shift..], w, i) == Window(samples, w, k + i)
  {
    Distribute(k, i, w.shift);
    var (a, b) := (k * w.shift, i * w.shift);
    assert samples[a..][b..b + w.length] == samples[a + b..a + b + w.length];
  }

  /** Frame `i` is what the filter bank makes of the window `i` shifts behind the start. */
  lemma {:induction false} FeatIs(fbank: Fbank, samples: seq<real>, w: Windowing, from: nat, to: nat, i: nat)
    requires WindowingOk(w) && from <= i < to <= ComputeFrameNum(|samples|, w)
    ensures i * w.shift + w.length <= |samples|
    ensures Feats(fbank, samples, w, from, to)[i - from] == fbank(samples[i * w.shift..][..w.length])
  {
    hide ComputeFrameNum;
    FrameNumIs(|samples|, w, i);
    if i < to - 1 {
      FeatIs(fbank, samples, w, from, to - 1, i);
    } else {
      WindowSlice(samples, w, i);
    }
  }

  lemma WindowSlice(samples: seq<real>, w: Windowing, i: nat)
    requires i * w.shift + w.length <= |samples|
    ensures Window(samples, w, i) == samples[i * w.shift..][..w.length]
  {
  }

  /** Cutting off what lies after the last window changes no frame. */
  lemma {:induction false} FeatsTrimmed(fbank: Fbank, samples: seq<real>, w: Windowing)
    requires WindowingOk(w) && ComputeFrameNum(|samples|, w) > 0
    ensures var n := ComputeFrameNum(|samples|, w); var last := (n - 1) * w.shift + w.length;
            last <= |samples| && ComputeFrameNum(last, w) == n
            && AllFeats(fbank, samples[..last], w) == AllFeats(fbank, samples, w)
  {
    hide ComputeFrameNum, Feats;
    var n := ComputeFrameNum(|samples|, w);
    var last := (n - 1) * w.shift + w.length;
    FrameNumIs(|samples|, w, n - 1);
    FrameNumIs(last, w, n - 1);
    FrameNumGrows(last, |samples|, w);
    FeatsMore(fbank, samples[..last], samples[last..], w, 0, n);
    assert samples[..last] + samples[last..] == samples;
  }
}
