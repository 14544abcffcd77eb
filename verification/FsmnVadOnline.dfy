/** The streaming front end (fsmn-vad-online.cpp:11-132; paraformer-online.cpp:118-236 is the same code with other
    row sizes): samples and frames left over from one call are kept for the next. */
module FsmnVadOnline {
  import opened Arithmetic
  import opened LfrSpec
  import opened Framing
  import opened FsmnVad

  /** The padded frames so far are `p`, `c` rows of them are out, and `cache` holds the frames from row `c` on. */
  ghost predicate CacheOk(s: Lfr, p: seq<Feature>, c: nat, cache: seq<Feature>) {
    && c * s.n < |p| && cache == p[c * s.n..] && |cache| < s.m
    && (c > 0 ==> (c - 1) * s.n + s.m <= |p|)
  }

  /** A row that was never stacked. */
  ghost predicate HasUnstacked(s: Lfr, rows: seq<seq<real>>) {
    exists i :: 0 <= i < |rows| && |rows[i]| != s.m * s.bins
  }

  /** Before its last call the stream has the rows of all frames that are complete. */
  ghost predicate StreamOk(s: Lfr, feats: seq<Feature>, c: nat, cache: seq<Feature>, emitted: seq<seq<real>>,
                           passed: bool)
    requires LfrOk(s) && FramesOk(s, feats)
  {
    if feats == [] then cache == [] && c == 0 && emitted == [] && passed
    else
      var p := Padded(s, feats);
      CacheOk(s, p, c, cache) && if passed then emitted == Rows(s, p, 0, c) else HasUnstacked(s, emitted)
  }

  /** Rows that fit completely into `total` frames. */
  function FullRows(total: nat, m: nat, n: nat): (k: nat)
    requires n > 0
  {
    if total < m then 0 else (total - m) / n + 1
  }

  lemma {:induction false} FullRowsIs(total: nat, m: nat, n: nat, i: nat)
    requires n > 0
    ensures i < FullRows(total, m, n) <==> i * n + m <= total
  {
    if total >= m {
      var a := total - m;
      DivBounds(a, n);
      if i <= a / n {
        MulMono(i, a / n, n);
      } else {
        MulMono(a / n + 1, i, n);
        Distribute(a / n, 1, n);
      }
    } else {
      MulMono(0, i, n);
    }
  }

  /** The loop bound of the streaming version: all full rows, and no row after the first that is not full matters. */
  lemma {:induction false} FullRowsInLoop(total: nat, s: Lfr)
    requires LfrOk(s) && total > 0
    ensures FullRows(total, s.m, s.n) <= CeilDiv(total - LeftPad(s), s.n) || total < s.m
    ensures total >= s.m ==>
              FullRows(total, s.m, s.n) * s.n <= total - 1 && total < FullRows(total, s.m, s.n) * s.n + s.m
    ensures total >= s.m - s.n ==> CeilDiv(total - LeftPad(s), s.n) >= 0
  {
    var k, t := FullRows(total, s.m, s.n), CeilDiv(total - LeftPad(s), s.n);
    DivBounds(total - LeftPad(s) + s.n - 1, s.n);
    if total >= s.m {
      FullRowsIs(total, s.m, s.n, k);
      FullRowsIs(total, s.m, s.n, k - 1);
      Distribute(k - 1, 1, s.n);
      if t < k { MulMono(t, k - 1, s.n); }
    }
    if t < 0 { MulMono(t, -1, s.n); }
  }

  // ---------- what a call does to the stream ----------

  /** With enough frames the full rows go out and the rest is kept. */
  lemma {:induction false} Advance(s: Lfr, p: seq<Feature>, c: nat, v: seq<Feature>)
    requires LfrOk(s) && FramesOk(s, p) && c * s.n < |p| && v == p[c * s.n..] && |v| >= s.m
    ensures var k := FullRows(|v|, s.m, s.n);
            && FramesOk(s, v) && k * s.n <= |v| && CacheOk(s, p, c + k, v[k * s.n..])
            && Rows(s, p, 0, c + k) == Rows(s, p, 0, c) + Rows(s, v, 0, k)
  {
    hide Rows, CeilDiv, CacheOk;
    var k := FullRows(|v|, s.m, s.n);
    RowsSuffix(s, p, c, k);
    RowsConcat(s, p, 0, c, c + k);
    AdvanceCache(s, p, c, v);
  }

  lemma {:induction false} AdvanceCache(s: Lfr, p: seq<Feature>, c: nat, v: seq<Feature>)
    requires LfrOk(s) && FramesOk(s, p) && c * s.n < |p| && v == p[c * s.n..] && |v| >= s.m
    ensures var k := FullRows(|v|, s.m, s.n);
            FramesOk(s, v) && k * s.n <= |v| && CacheOk(s, p, c + k, v[k * s.n..])
  {
    hide CeilDiv, FullRows;
    var k := FullRows(|v|, s.m, s.n);
    FullRowsInLoop(|v|, s);
    FullRowsIs(|v|, s.m, s.n, k - 1);
    Distribute(c, k, s.n);
    Distribute(c, k - 1, s.n);
    assert v[k * s.n..] == p[c * s.n + k * s.n..];
  }

  /** The last call puts out all rows that are left. */
  lemma {:induction false} Finish(s: Lfr, feats: seq<Feature>, c: nat, v: seq<Feature>)
    requires LfrOk(s) && FramesOk(s, feats) && feats != []
    requires var p := Padded(s, feats); c * s.n < |p| && v == p[c * s.n..] && (c > 0 ==> (c - 1) * s.n + s.m <= |p|)
    ensures var left := CeilDiv(|v| - LeftPad(s), s.n);
            && left >= 0 && FramesOk(s, v) && v != []
            && Batch(s, feats) == Rows(s, Padded(s, feats), 0, c) + Rows(s, v, 0, left)
  {
    hide Rows, CeilDiv, FramesOk;
    var p := Padded(s, feats);
    assert FramesOk(s, p);
    CeilShift(|feats|, s.n, c);
    if c > 0 { InsideRow(|feats|, s.n, c - 1); }
    NoRows(|feats|, s.n);
    var left := CeilDiv(|v| - LeftPad(s), s.n);
    RowsSuffix(s, p, c, left);
    RowsConcat(s, p, 0, c, c + left);
  }

  lemma InsideRow(t: int, n: nat, i: nat)
    requires n > 0 && i * n < t
    ensures i < CeilDiv(t, n)
  {
    DivBounds(t + n - 1, n);
    if i >= CeilDiv(t, n) { MulMono(CeilDiv(t, n), i, n); }
  }

  lemma NoRows(t: nat, n: nat)
    requires n > 0
    ensures CeilDiv(t, n) >= 0
  {
  }

  /** The cache before a call, and the frames it brings: where its rows go on. */
  lemma {:induction false} Continued(s: Lfr, feats: seq<Feature>, more: seq<Feature>, c: nat, cache: seq<Feature>,
                                     start: seq<Feature>)
    requires LfrOk(s) && FramesOk(s, feats) && FramesOk(s, more) && more != []
    requires if feats == [] then cache == [] && c == 0 && start == Copies(more[0], LeftPad(s))
             else CacheOk(s, Padded(s, feats), c, cache) && start == cache
    ensures FramesOk(s, feats + more)
    ensures var p := Padded(s, feats + more);
            && c * s.n < |p| && start + more == p[c * s.n..]
            && (c > 0 ==> feats != [] && (c - 1) * s.n + s.m <= |Padded(s, feats)|)
    ensures feats != [] ==> Padded(s, feats + more) == Padded(s, feats) + more
  {
    hide FramesOk;
    FramesConcat(s, feats, more);
    if feats == [] {
      assert feats + more == more;
    } else {
      assert Padded(s, feats + more) == Padded(s, feats) + more;
    }
  }

  lemma FramesConcat(s: Lfr, a: seq<Feature>, b: seq<Feature>)
    requires FramesOk(s, a) && FramesOk(s, b)
    ensures FramesOk(s, a + b)
  {
  }

  lemma {:induction false} RowsStay(s: Lfr, feats: seq<Feature>, more: seq<Feature>, c: nat)
    requires LfrOk(s) && FramesOk(s, feats) && FramesOk(s, feats + more) && more != []
    requires feats == [] ==> c == 0
    requires feats != [] ==>
               && Padded(s, feats + more) == Padded(s, feats) + more
               && (c > 0 ==> (c - 1) * s.n + s.m <= |Padded(s, feats)|)
    ensures feats != [] ==> Rows(s, Padded(s, feats + more), 0, c) == Rows(s, Padded(s, feats), 0, c)
    ensures feats == [] ==> Rows(s, Padded(s, feats + more), 0, c) == []
  {
    hide Row, Padded, FramesOk;
    if feats != [] {
      assert FramesOk(s, Padded(s, feats)) && FramesOk(s, Padded(s, feats + more));
      RowsMore(s, Padded(s, feats), more, c);
    }
  }

  /** A whole utterance of one frame: the streaming version fails the size test and puts the frame out as it is, the
      batch version repeats it five times. */
  lemma {:induction false} OneFrameFails()
    ensures var s, feats := Lfr(5, 1, 1, [], []), [[0.0]];
            LfrOk(s) && FramesOk(s, feats) && |feats| + LeftPad(s) < s.m && feats != Batch(s, feats)
            && |Batch(s, feats)| == 1
  {
    var s, feats := Lfr(5, 1, 1, [], []), [[0.0]];
    assert |feats[0]| == 1;
    assert feats != Batch(s, feats) by { assert |feats[0]| != |Batch(s, feats)[0]|; }
  }

  class FsmnVadOnline {
    const lfr: Lfr
    const windowing: Windowing
    const fbank: Fbank
    var inputCache: seq<real>
    var lfrSpliceCache: seq<Feature>

    /** The samples so far, the rows that went out, how many of them were stacked, and whether every call with
        features passed the size test. */
    ghost var samples: seq<real>
    ghost var emitted: seq<seq<real>>
    ghost var stacked: nat
    ghost var passed: bool

    ghost predicate Setup() {
      LfrOk(lfr) && WindowingOk(windowing) && forall w :: |fbank(w)| == lfr.bins
    }

    ghost function Received(): seq<Feature>
      requires Setup()
      reads this`samples
    {
      AllFeats(fbank, samples, windowing)
    }

    ghost predicate Valid()
      reads this
    {
      && Setup() && FramesOk(lfr, Received())
      && ComputeFrameNum(|samples|, windowing) * windowing.shift <= |samples|
      && inputCache == samples[ComputeFrameNum(|samples|, windowing) * windowing.shift..]
      && StreamOk(lfr, Received(), stacked, lfrSpliceCache, emitted, passed)
    }

    constructor (lfr: Lfr, windowing: Windowing, fbank: Fbank)
      requires LfrOk(lfr) && WindowingOk(windowing) && forall w :: |fbank(w)| == lfr.bins
      ensures Valid() && samples == [] && emitted == [] && passed
      ensures this.lfr == lfr && this.windowing == windowing && this.fbank == fbank
    {
      this.lfr, this.windowing, this.fbank := lfr, windowing, fbank;
      new;
      ResetCache();
    }

    method ResetCache()
      requires Setup()
      modifies this
      ensures Valid() && samples == [] && emitted == [] && passed
    {
      inputCache, lfrSpliceCache := [], [];
      samples, emitted, stacked, passed := [], [], 0, true;
    }

    /** The frames of the new samples, with what was left of the earlier ones in front (fsmn-vad-online.cpp:11-42). */
    method FbankKaldi(input: seq<real>) returns (vadFeats: seq<Feature>)
      requires Setup() && ComputeFrameNum(|samples|, windowing) * windowing.shift <= |samples|
      requires inputCache == samples[ComputeFrameNum(|samples|, windowing) * windowing.shift..]
               && FramesOk(lfr, Received())
      modifies this`inputCache, this`samples
      ensures samples == old(samples) + input
      ensures ComputeFrameNum(|samples|, windowing) * windowing.shift <= |samples|
      ensures inputCache == samples[ComputeFrameNum(|samples|, windowing) * windowing.shift..]
      ensures FramesOk(lfr, vadFeats) && Received() == old(Received()) + vadFeats
    {
      hide ComputeFrameNum, Feats;
      ghost var (k, all) := (ComputeFrameNum(|samples|, windowing), samples + input);
      ghost var n := ComputeFrameNum(|all|, windowing);
      var waves := inputCache + input;
      assert waves == all[k * windowing.shift..];
      FeatsMore(fbank, samples, input, windowing, 0, k);
      FrameNumFrom(|all|, windowing, k);
      FeatsFrom(fbank, all, windowing, k, n - k);
      FeatsConcat(fbank, all, windowing, 0, k, n);
      FrameNumBound(|all|, windowing);
      FrameNumBound(|waves|, windowing);
      var frameNumber := ComputeFrameNum(|waves|, windowing);
      Distribute(k, frameNumber, windowing.shift);
      inputCache := waves[frameNumber * windowing.shift..];
      samples := all;
      if frameNumber == 0 {
        vadFeats := [];
        NoFeats(fbank, waves, windowing);
        return;
      }
      FeatsTrimmed(fbank, waves, windowing);
      waves := waves[..(frameNumber - 1) * windowing.shift + windowing.length];
      vadFeats := Frames(waves, frameNumber);
    }

    /** The filter bank over the trimmed samples. */
    method Frames(waves: seq<real>, frames: nat) returns (vadFeats: seq<Feature>)
      requires Setup() && frames == ComputeFrameNum(|waves|, windowing)
      ensures FramesOk(lfr, vadFeats) && vadFeats == AllFeats(fbank, waves, windowing)
    {
      hide ComputeFrameNum, Window;
      vadFeats := [];
      var i: nat := 0;
      while i != frames
        invariant i <= frames && FramesOk(lfr, vadFeats) && vadFeats == Feats(fbank, waves, windowing, 0, i)
      {
        FrameNumIs(|waves|, windowing, i);
        vadFeats := vadFeats + [fbank(Window(waves, windowing, i))];
        i := i + 1;
      }
    }

    static lemma NoFeats(fbank: Fbank, waves: seq<real>, w: Windowing)
      requires w.shift > 0 && ComputeFrameNum(|waves|, w) == 0
      ensures Feats(fbank, waves, w, 0, 0) == []
    {
    }

    /** The rows of the frames at hand; what is needed for later rows is kept (fsmn-vad-online.cpp:89-132). */
    method OnlineLfrCmvn(vadFeats: seq<Feature>, inputFinished: bool) returns (out: seq<seq<real>>)
      requires LfrOk(lfr) && FramesOk(lfr, vadFeats) && vadFeats != []
      requires if inputFinished then CeilDiv(|vadFeats| - LeftPad(lfr), lfr.n) >= 0 else |vadFeats| >= lfr.m
      modifies this`lfrSpliceCache
      ensures inputFinished ==> out == Rows(lfr, vadFeats, 0, CeilDiv(|vadFeats| - LeftPad(lfr), lfr.n))
      ensures !inputFinished ==>
                var k := FullRows(|vadFeats|, lfr.m, lfr.n);
                out == Rows(lfr, vadFeats, 0, k) && k * lfr.n <= |vadFeats| && lfrSpliceCache == vadFeats[k * lfr.n..]
    {
      hide RawOk, Rows, CeilDiv, FullRows, LfrOk, Normalized;
      LfrFacts(lfr);
      var T := |vadFeats|;
      var TLfr := Ceil((T - (lfr.m - 1) / 2) as real / lfr.n as real);
      CeilDivIs(T - LeftPad(lfr), lfr.n);
      FullRowsInLoop(T, lfr);
      var spliceFrameIdxs := TLfr;
      var outFeats: seq<seq<real>> := [];
      ghost var k := FullRows(T, lfr.m, lfr.n);
      assert RawOk(lfr, vadFeats, outFeats) by { NoRaw(lfr, vadFeats); }
      var i: nat := 0;
      while i < TLfr
        invariant i <= TLfr && |outFeats| == i && spliceFrameIdxs == TLfr && (!inputFinished ==> i <= k)
        invariant RawOk(lfr, vadFeats, outFeats)
      {
        FullRowsIs(T, lfr.m, lfr.n, i);
        RowInside(T - LeftPad(lfr), lfr.n, i);
        if lfr.m <= T - i * lfr.n {
          outFeats := StackNext(lfr, vadFeats, outFeats);
        } else {
          if inputFinished {
            outFeats := StackNext(lfr, vadFeats, outFeats);
          } else {
            spliceFrameIdxs := i;
            break;
          }
        }
        i := i + 1;
      }
      SpliceInside(spliceFrameIdxs, lfr.n);
      spliceFrameIdxs := if T - 1 < spliceFrameIdxs * lfr.n then T - 1 else spliceFrameIdxs * lfr.n;
      lfrSpliceCache := vadFeats[spliceFrameIdxs..];
      RawLengths(lfr, vadFeats, outFeats);
      out := ApplyCmvn(lfr, outFeats);
      RowsAre(lfr, vadFeats, outFeats, out, |out|);
      assert out[..|out|] == out;
    }

    static lemma NoRaw(s: Lfr, frames: seq<Feature>)
      requires frames != []
      ensures RawOk(s, frames, [])
    {
    }

    static lemma SpliceInside(i: nat, n: nat)
      ensures 0 <= i * n
    {
    }

    /** One call (fsmn-vad-online.cpp:44-87).  Unless a call had features but too few frames for a row, all rows so far
        are rows of all frames so far; after the last call they are exactly the rows one batch over all samples gives.
        A call with too few frames puts its frames out unstacked, and then they never are. */
    method ExtractFeats(waves: seq<real>, inputFinished: bool) returns (vadFeats: seq<seq<real>>)
      requires Valid()
      modifies this
      ensures Valid()
      ensures !inputFinished ==> samples == old(samples) + waves && emitted == old(emitted) + vadFeats
      ensures !inputFinished ==>
                passed == (old(passed) && PassesTest(old(lfrSpliceCache), |Received()| - |old(Received())|))
      ensures inputFinished ==> samples == [] && emitted == []
      ensures inputFinished ==>
                var all := AllFeats(fbank, old(samples) + waves, windowing);
                && FramesOk(lfr, all)
                && (old(emitted) + vadFeats == Batch(lfr, all) <==>
                    old(passed) && PassesTest(old(lfrSpliceCache), |all| - |old(Received())|))
    {
      hide CacheOk, Padded, FullRows, CeilDiv, Rows, HasUnstacked, Batch, StreamOk, FramesOk;
      var feats := FbankKaldi(waves);
      ghost var before, all := old(Received()), Received();
      vadFeats := [];
      FramesConcat(lfr, before, feats);
      if |feats| > 0 {
        vadFeats := StackFeats(feats, inputFinished, before, all);
      } else {
        assert all == before;
        if inputFinished {
          vadFeats := StackRest(before);
        }
      }
      if inputFinished {
        ResetCache();
      }
    }

    /** A call with features. */
    method StackFeats(feats: seq<Feature>, inputFinished: bool, ghost before: seq<Feature>, ghost all: seq<Feature>)
      returns (out: seq<seq<real>>)
      requires LfrOk(lfr) && FramesOk(lfr, before) && FramesOk(lfr, feats) && FramesOk(lfr, all)
               && all == before + feats && feats != []
      requires StreamOk(lfr, before, stacked, lfrSpliceCache, emitted, passed)
      modifies this`lfrSpliceCache, this`emitted, this`stacked, this`passed
      ensures !inputFinished ==> StreamOk(lfr, all, stacked, lfrSpliceCache, emitted, passed)
      ensures emitted == old(emitted) + out && passed == (old(passed) && PassesTest(old(lfrSpliceCache), |feats|))
      ensures inputFinished ==> (emitted == Batch(lfr, all) <==> passed)
    {
      hide CacheOk, Padded, FullRows, CeilDiv, Rows, HasUnstacked, Batch, FramesOk, LfrOk;
      LfrFacts(lfr);
      StreamFacts(lfr, before, stacked, lfrSpliceCache, emitted, passed);
      passed := passed && PassesTest(lfrSpliceCache, |feats|);
      if lfrSpliceCache == [] {
        PadFirst(feats[0]);
      }
      Continued(lfr, before, feats, stacked, old(lfrSpliceCache), lfrSpliceCache);
      RowsStay(lfr, before, feats, stacked);
      if |feats| + |lfrSpliceCache| >= lfr.m {
        var v := lfrSpliceCache + feats;
        ghost var p := Padded(lfr, all);
        if inputFinished { Finish(lfr, all, stacked, v); }
        Advance(lfr, p, stacked, v);
        out := OnlineLfrCmvn(v, inputFinished);
        stacked := stacked + FullRows(|v|, lfr.m, lfr.n);
      } else {
        out := feats;
        lfrSpliceCache := lfrSpliceCache + feats;
        StillCached(lfr, Padded(lfr, all), |Padded(lfr, before)|, stacked, lfrSpliceCache);
        Unstacked(lfr, feats);
      }
      UnstackedMore(lfr, emitted, out);
      emitted := emitted + out;
      UnstackedIsNotBatch(lfr, all, emitted);
    }

    /** The first frame is repeated on the left. */
    method PadFirst(first: Feature)
      requires lfr.m > 0 && lfrSpliceCache == []
      modifies this`lfrSpliceCache
      ensures lfrSpliceCache == Copies(first, LeftPad(lfr))
    {
      var i: nat := 0;
      while i < (lfr.m - 1) / 2
        invariant i <= LeftPad(lfr) && lfrSpliceCache == Copies(first, i)
      {
        lfrSpliceCache := lfrSpliceCache + [first];
        i := i + 1;
        assert lfrSpliceCache == Copies(first, i);
      }
    }

    static lemma StreamFacts(s: Lfr, feats: seq<Feature>, c: nat, cache: seq<Feature>, emitted: seq<seq<real>>,
                             passed: bool)
      requires LfrOk(s) && FramesOk(s, feats) && StreamOk(s, feats, c, cache, emitted, passed)
      ensures if feats == [] then cache == [] && c == 0 && emitted == [] && passed
              else
                && FramesOk(s, Padded(s, feats)) && Padded(s, feats) != [] && CacheOk(s, Padded(s, feats), c, cache)
                   && cache != []
                && (c > 0 ==> (c - 1) * s.n + s.m <= |Padded(s, feats)|)
                && (if passed then emitted == Rows(s, Padded(s, feats), 0, c) else HasUnstacked(s, emitted))
    {
      hide Padded, Rows;
    }

    static lemma StillCached(s: Lfr, p: seq<Feature>, before: nat, c: nat, cache: seq<Feature>)
      requires c * s.n < |p| && cache == p[c * s.n..] && |cache| < s.m && before <= |p|
               && (c > 0 ==> (c - 1) * s.n + s.m <= before)
      ensures CacheOk(s, p, c, cache)
    {
    }

    static lemma {:induction false} Unstacked(s: Lfr, feats: seq<Feature>)
      requires LfrOk(s) && FramesOk(s, feats) && feats != []
      ensures HasUnstacked(s, feats)
    {
      MulMono(2, s.m, s.bins);
      assert |feats[0]| != s.m * s.bins;
    }

    static lemma {:induction false} UnstackedMore(s: Lfr, rows: seq<seq<real>>, more: seq<seq<real>>)
      ensures HasUnstacked(s, rows) || HasUnstacked(s, more) ==> HasUnstacked(s, rows + more)
    {
      var all := rows + more;
      if HasUnstacked(s, rows) {
        var i :| 0 <= i < |rows| && |rows[i]| != s.m * s.bins;
        assert |all[i]| != s.m * s.bins;
      } else if HasUnstacked(s, more) {
        var i :| 0 <= i < |more| && |more[i]| != s.m * s.bins;
        assert |all[|rows| + i]| != s.m * s.bins;
      }
    }

    static lemma {:induction false} UnstackedIsNotBatch(s: Lfr, feats: seq<Feature>, rows: seq<seq<real>>)
      requires LfrOk(s) && FramesOk(s, feats)
      ensures HasUnstacked(s, rows) ==> rows != Batch(s, feats)
    {
    }

    /** The last call brought no features. */
    method StackRest(ghost before: seq<Feature>) returns (out: seq<seq<real>>)
      requires LfrOk(lfr) && FramesOk(lfr, before) && StreamOk(lfr, before, stacked, lfrSpliceCache, emitted, passed)
      modifies this`lfrSpliceCache, this`emitted
      ensures emitted == old(emitted) + out && (emitted == Batch(lfr, before) <==> passed)
    {
      hide Padded, FullRows, CeilDiv, Rows, HasUnstacked, FramesOk, LfrOk;
      LfrFacts(lfr);
      StreamFacts(lfr, before, stacked, lfrSpliceCache, emitted, passed);
      if lfrSpliceCache == [] {
        // no features at all
        out := [];
        EmptyBatch(lfr);
      } else {
        Finish(lfr, before, stacked, lfrSpliceCache);
        out := OnlineLfrCmvn(lfrSpliceCache, true);
      }
      UnstackedMore(lfr, emitted, out);
      emitted := emitted + out;
      UnstackedIsNotBatch(lfr, before, emitted);
    }

    static lemma EmptyBatch(s: Lfr)
      requires LfrOk(s)
      ensures Batch(s, []) == []
    {
    }

    /** Enough frames for a row, counting the copies of the first frame in the first call with features. */
    ghost predicate PassesTest(cache: seq<Feature>, frames: int)
      requires lfr.m > 0
    {
      frames > 0 ==> frames + (if cache == [] then LeftPad(lfr) else |cache|) >= lfr.m
    }
  }
}
