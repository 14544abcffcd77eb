/** The endpointing model (e2e-vad.h): window detector, frame handlers and reports, as methods that update fields.
    Each is proved against the state machine of VadSpec. */
module Vad {
  import opened Arithmetic
  import opened Sequences
  import opened VadSpec
  import opened VadRuns

  class WindowDetector {
    var winSum: int
    var winState: seq<nat>
    var curWinPos: nat
    var preSpeech: bool

    ghost predicate Valid()
      reads this
    {
      |winState| == WINDOW && curWinPos < WINDOW && Bits(winState) && winSum == Sum(Ring())
    }

    /** The circular window, oldest decision first. */
    ghost function Ring(): seq<nat>
      reads this
      requires curWinPos <= |winState|
    {
      winState[curWinPos..] + winState[..curWinPos]
    }

    ghost function View(): Window
      reads this
      requires Valid()
    {
      Window(Ring(), preSpeech)
    }

    constructor ()
      ensures Valid() && View() == FreshWindow()
    {
      winState, winSum, curWinPos, preSpeech := Zeros(WINDOW), 0, 0, false;
      SumZeros(WINDOW);
      new;
      assert Ring() == Zeros(WINDOW);
    }

    method Reset()
      modifies this
      ensures Valid() && View() == FreshWindow()
    {
      curWinPos, winSum, winState, preSpeech := 0, 0, Zeros(WINDOW), false;
      SumZeros(WINDOW);
      assert Ring() == Zeros(WINDOW);
    }

    static lemma SumOne(state: nat)
      ensures Sum([state]) == state
    {
      assert [state][1..] == [];
    }

    /** Overwriting the oldest decision and moving on puts the new one at the end of the ring. */
    static lemma RingMoves(win: seq<nat>, pos: nat, state: nat)
      requires |win| == WINDOW && pos < WINDOW
      ensures var (ring, win', pos') := (win[pos..] + win[..pos], win[pos := state], (pos + 1) % WINDOW);
              ring[0] == win[pos] && win'[pos'..] + win'[..pos'] == ring[1..] + [state]
    {
      var (win', pos') := (win[pos := state], (pos + 1) % WINDOW);
      var (a, b) := (win'[pos'..] + win'[..pos'], (win[pos..] + win[..pos])[1..] + [state]);
      assert |a| == |b|;
      forall i | 0 <= i < |a|
        ensures a[i] == b[i]
      {
      }
    }

    lemma OldestLeaves(state: nat)
      requires Valid() && state <= 1
      ensures Bits(winState[curWinPos := state])
      ensures winSum == Sum(Ring()[1..]) + winState[curWinPos] && |Ring()| == WINDOW
    {
    }

    method DetectOneFrame(speech: bool) returns (change: Change)
      requires Valid()
      modifies this
      ensures Valid() && (View(), change) == Slide(old(View()), speech)
    {
      hide Sum, Bits;
      var state := if speech then 1 else 0;
      OldestLeaves(state);
      ghost var ring := Ring();
      RingMoves(winState, curWinPos, state);
      winSum := winSum - winState[curWinPos];
      winSum := winSum + state;
      winState := winState[curWinPos := state];
      curWinPos := (curWinPos + 1) % WINDOW;
      SumConcat(ring[1..], [state]);
      SumOne(state);
      if !preSpeech && winSum >= TO_SPEECH {
        preSpeech := true;
        return SilToSpeech;
      }
      if preSpeech && winSum <= TO_SILENCE {
        preSpeech := false;
        return SpeechToSil;
      }
      return if preSpeech then SpeechToSpeech else SilToSil;
    }
  }

  datatype Machine = StartPointNotDetected | InSpeechSegment | EndPointDetected

  /** `E2EVadSpeechBufWithDoa` without its audio. */
  datatype SpeechBuf = SpeechBuf(startMs: int, endMs: int, hasStart: bool, hasEnd: bool)

  ghost predicate BufOf(b: SpeechBuf, s: Segment) {
    b == SpeechBuf(Ms(s.start), Ms(s.end), true, s.closed)
  }

  ghost predicate BufsOf(bufs: seq<SpeechBuf>, segments: seq<Segment>) {
    |bufs| == |segments| && forall i :: 0 <= i < |bufs| ==> BufOf(bufs[i], segments[i])
  }

  function Ended(b: SpeechBuf, e: nat): SpeechBuf {
    b.(endMs := Ms(e + 1), hasEnd := true)
  }

  lemma {:induction false} GrowBufs(bufs: seq<SpeechBuf>, w: VadSpec.Vad, t: nat)
    requires BufsOf(bufs, w.segments) && bufs != [] && !Last(w.segments).closed
    ensures BufsOf(Init(bufs) + [Last(bufs).(endMs := Ms(t + 1))], Grow(w, t).segments)
    ensures BufsOf(Init(bufs) + [Ended(Last(bufs), t)], Close(w, t).segments)
  {
  }

  /** Which changes a frame can make, and that a segment never opens before audio it has already popped. */
  lemma {:induction false} WindowFacts(v: VadSpec.Vad, speech: bool, t: nat)
    requires VadOk(v, t)
    ensures v.window.ring != []
    ensures var change := Slide(v.window, speech).1;
            && (v.window.speech <==> change == SpeechToSil || change == SpeechToSpeech)
            && (!v.inSpeech ==> change == SilToSil || (change == SilToSpeech && v.buffered < t))
  {
    SlideSum(v.window, speech);
  }

  lemma {:induction false} RunSnoc(v: VadSpec.Vad, frames: seq<bool>, n: nat, t: nat, final: bool, s: Settings)
    requires n < |frames| && |v.window.ring| == WINDOW
    ensures Run(v, frames[..n + 1], t, final, s) == Step(Run(v, frames[..n], t, false, s), frames[n], t + n, final, s)
  {
    hide Step;
    assert Init(frames[..n + 1]) == frames[..n] && Last(frames[..n + 1]) == frames[n];
  }

  /** What is reported so far and what is left to report are all the reports of the call. */
  ghost predicate Reported(segments: seq<Segment>, first: nat, next0: bool, i: nat, next: bool, offset: nat,
                           batch: seq<Report>) {
    && first <= |segments| && i <= |segments|
    && var (all, closed, next') := Online(segments, first, next0);
       var (rest, restClosed, restNext) := Online(segments, i, next);
       all == batch + rest && first + closed == offset + restClosed && next' == restNext
  }

  lemma {:induction false} NothingReported(segments: seq<Segment>, first: nat, next: bool)
    requires first <= |segments|
    ensures Reported(segments, first, next, first, next, first, [])
    ensures Offline(segments[..first]) == Offline(segments[..first]) + []
  {
    hide Online, Offline;
    var (all, closed, next') := Online(segments, first, next);
    assert all == [] + all;
  }

  lemma {:induction false} ReportNext(segments: seq<Segment>, first: nat, next0: bool, i: nat, next: bool, offset: nat,
                                      batch: seq<Report>)
    requires Reported(segments, first, next0, i, next, offset, batch) && i < |segments|
    ensures var seg := segments[i];
            if !next && !seg.closed then Reported(segments, first, next0, i + 1, next, offset, batch)
            else Reported(segments, first, next0, i + 1, seg.closed, if seg.closed then offset + 1 else offset,
                          batch + [(if next then Ms(seg.start) else -1, if seg.closed then Ms(seg.end) else -1)])
  {
  }

  lemma {:induction false} OfflineNext(segments: seq<Segment>, i: nat)
    requires i < |segments|
    ensures Offline(segments[..i + 1]) == Offline(segments[..i]) + [(Ms(segments[i].start), Ms(segments[i].end))]
  {
    assert Init(segments[..i + 1]) == segments[..i] && Last(segments[..i + 1]) == segments[i];
  }

  lemma AllReported(segments: seq<Segment>, next: bool)
    ensures Online(segments, |segments|, next) == ([], 0, next)
  {
  }

  lemma NoBufs()
    ensures BufsOf([], [])
  {
  }

  lemma SameSize(bufs: seq<SpeechBuf>, segments: seq<Segment>)
    requires BufsOf(bufs, segments)
    ensures |bufs| == |segments|
  {
  }

  lemma BufAt(bufs: seq<SpeechBuf>, segments: seq<Segment>, i: nat)
    requires BufsOf(bufs, segments) && i < |bufs|
    ensures i < |segments| && BufOf(bufs[i], segments[i])
  {
  }

  /** The reporting state fits the segments after the frames of a call, and fits again after the reports. */
  /** After reporting from segment `i` on, the next report begins with the segment that is still open, if one is. */
  ghost predicate Due(segments: seq<Segment>, i: nat, nextSeg: bool)
    requires i <= |segments|
  {
    var (reports, closed, next) := Online(segments, i, nextSeg);
    next == !IsOpen(segments) && i + closed == if IsOpen(segments) then |segments| - 1 else |segments|
  }

  lemma {:induction false} ReportingReady(v: VadSpec.Vad, w: VadSpec.Vad, t: nat, u: nat)
    requires VadOk(v, t) && VadOk(w, u) && Extends(v.segments, w.segments)
    ensures OnlyLastOpen(w.segments)
    ensures var i := if IsOpen(v.segments) then |v.segments| - 1 else |v.segments|;
            i <= |w.segments| && Due(w.segments, i, !IsOpen(v.segments))
  {
    hide VadOk, Told, ToldUpTo, AddAll, Online;
    OpenIffInSpeech(v, t);
    OpenIffInSpeech(w, u);
    ToldStays(v.segments, w.segments);
    OnlineTells(w.segments, if IsOpen(v.segments) then |v.segments| - 1 else |v.segments|, !IsOpen(v.segments));
  }

  lemma LastBuf(bufs: seq<SpeechBuf>, segments: seq<Segment>)
    requires BufsOf(bufs, segments) && segments != []
    ensures bufs != [] && BufOf(Last(bufs), Last(segments))
  {
  }

  lemma {:induction false} GrowTwice(w: VadSpec.Vad, t: nat, u: nat)
    requires w.segments != []
    ensures Grow(Grow(w, t), u) == Grow(w, u) && Close(Grow(w, t), u) == Close(w, u)
  {
    var n := |w.segments| - 1;
    assert Grow(Grow(w, t), u).segments == Grow(w, u).segments;
  }

  lemma {:induction false} OpenSegment(v: VadSpec.Vad, t: nat)
    requires VadOk(v, t) && v.inSpeech
    ensures v.segments != [] && !Last(v.segments).closed && Last(v.segments).end == v.buffered > 0
    ensures v.buffered + HeldBack(v.silence) == t && (v.window.speech ==> v.silence == 0)
  {
    hide Sum;
  }

  lemma {:induction false} OpenBufs(bufs: seq<SpeechBuf>, w: VadSpec.Vad, t: nat)
    requires BufsOf(bufs, w.segments)
    ensures BufsOf(bufs + [SpeechBuf(Ms(Max(w.buffered, t - LATENCY)), Ms(t + 1), true, false)], Open(w, t).segments)
  {
  }

  class E2EVadModel {
    const detector: WindowDetector
    var machine: Machine
    var frmCnt: nat
    var dataBufStartFrame: nat
    var latestConfirmedSpeechFrame: int
    var lastestConfirmedSilenceFrame: int
    var continousSilenceFrameCount: nat
    var confirmedStartFrame: int
    var confirmedEndFrame: int
    var numberEndTimeDetected: nat
    var nextSeg: bool
    var outputDataBuf: seq<SpeechBuf>
    var outputDataBufOffset: nat
    var maxEndSilFrameCntThresh: int
    var maxSingleSegmentTime: nat
    /** Samples buffered, and samples of one frame. */
    var dataBufSize: int
    var dataBufAllSize: int
    var frameSamples: nat

    /** The abstract machine. */
    ghost var vad: VadSpec.Vad

    function Limits(): Settings
      reads this`maxEndSilFrameCntThresh, this`maxSingleSegmentTime
    {
      Settings(maxEndSilFrameCntThresh, maxSingleSegmentTime / FRAME_MS)
    }

    /** Enough audio has been received for the frames counted so far, so that popping frames makes progress. */
    ghost predicate Buffered()
      reads this`dataBufSize, this`dataBufAllSize, this`frameSamples, this`frmCnt
    {
      dataBufSize >= frameSamples && dataBufAllSize >= frmCnt * frameSamples
    }

    /** The fields describe the abstract machine `v`. */
    ghost predicate Mirrors(v: VadSpec.Vad)
      reads this`outputDataBuf, this`dataBufStartFrame, this`continousSilenceFrameCount, this`numberEndTimeDetected,
            this`confirmedEndFrame, this`machine, this`confirmedStartFrame, this`latestConfirmedSpeechFrame, detector
    {
      && detector.Valid() && detector.View() == v.window
      && BufsOf(outputDataBuf, v.segments)
      && dataBufStartFrame == v.buffered && continousSilenceFrameCount == v.silence && numberEndTimeDetected == v.ends
      && confirmedEndFrame == -1
      && if v.inSpeech then
           machine == InSpeechSegment && confirmedStartFrame == v.start
           && latestConfirmedSpeechFrame + 1 == dataBufStartFrame
         else
           machine == StartPointNotDetected && confirmedStartFrame == -1 && latestConfirmedSpeechFrame == 0
           && v.start == 0
    }

    /** Before frame `t`. */
    ghost predicate Valid(t: nat)
      reads this, detector
    {
      VadOk(vad, t) && Mirrors(vad) && SilentUpTo(t)
    }

    /** An end point has been detected, and detection not yet reset. */
    ghost predicate AtEnd(v: VadSpec.Vad)
      reads this
    {
      machine == EndPointDetected && Restartable(v)
    }

    ghost predicate Restartable(v: VadSpec.Vad)
      reads this
    {
      && BufsOf(outputDataBuf, v.segments)
      && dataBufStartFrame == v.buffered && numberEndTimeDetected == v.ends
      && v.window == FreshWindow() && !v.inSpeech && v.start == 0 && v.silence == 0
    }

    lemma MirrorsBufs(v: VadSpec.Vad)
      requires Mirrors(v)
      ensures BufsOf(outputDataBuf, v.segments) && |outputDataBuf| == |v.segments| && detector.Valid()
    {
    }

    constructor ()
      ensures fresh(detector) && Valid(0) && vad == FreshVad() && frmCnt == 0 && nextSeg && outputDataBufOffset == 0
      ensures dataBufAllSize == 0
    {
      hide VadOk, BufsOf, WindowDetector.Valid, WindowDetector.View, FreshWindow;
      detector := new WindowDetector();
      machine, frmCnt, dataBufStartFrame := StartPointNotDetected, 0, 0;
      latestConfirmedSpeechFrame, lastestConfirmedSilenceFrame, continousSilenceFrameCount := 0, -1, 0;
      confirmedStartFrame, confirmedEndFrame, numberEndTimeDetected := -1, -1, 0;
      nextSeg, outputDataBuf, outputDataBufOffset := true, [], 0;
      maxEndSilFrameCntThresh, maxSingleSegmentTime := 650, 15000;
      dataBufSize, dataBufAllSize, frameSamples := 0, 0, 160;
      vad := FreshVad();
      NoBufs();
      FreshOk();
    }

    method PopDataBufTillFrame(frameIdx: int)
      requires Buffered() && frameIdx < frmCnt
      modifies this`dataBufStartFrame, this`dataBufSize
      ensures Buffered() && dataBufStartFrame == Max(old(dataBufStartFrame), frameIdx)
    {
      while dataBufStartFrame < frameIdx
        invariant Buffered() && old(dataBufStartFrame) <= dataBufStartFrame <= Max(old(dataBufStartFrame), frameIdx)
      {
        if dataBufSize >= frameSamples {
          dataBufStartFrame := dataBufStartFrame + 1;
          dataBufSize := dataBufAllSize - dataBufStartFrame * frameSamples;
          MulMono(dataBufStartFrame + 1, frmCnt, frameSamples);
        }
      }
    }

    /** One frame goes to the last segment, or to a new one. */
    method PopDataToOutputBuf(startFrm: nat, first: bool, last: bool)
      requires Buffered() && startFrm < frmCnt && dataBufStartFrame <= startFrm
      requires !first ==> outputDataBuf != [] && Last(outputDataBuf).endMs == Ms(startFrm)
      modifies this`dataBufStartFrame, this`dataBufSize, this`outputDataBuf
      ensures Buffered() && dataBufStartFrame == startFrm + 1
      ensures outputDataBuf ==
              if first then old(outputDataBuf) + [SpeechBuf(Ms(startFrm), Ms(startFrm + 1), true, last)]
              else Init(old(outputDataBuf)) +
                   [Last(old(outputDataBuf)).(endMs := Ms(startFrm + 1), hasEnd := Last(old(outputDataBuf)).hasEnd
                                              || last)]
    {
      PopDataBufTillFrame(startFrm);
      if |outputDataBuf| == 0 || first {
        outputDataBuf := outputDataBuf + [SpeechBuf(startFrm * FRAME_MS, startFrm * FRAME_MS, false, false)];
      }
      var n := |outputDataBuf| - 1;
      var curSeg := outputDataBuf[n];
      if curSeg.endMs != startFrm * FRAME_MS {
        assert false;  // "Something wrong with the VAD algorithm"
      }
      dataBufStartFrame := dataBufStartFrame + 1;
      curSeg := curSeg.(endMs := (startFrm + 1) * FRAME_MS);
      if first {
        curSeg := curSeg.(hasStart := true);
      }
      if last {
        curSeg := curSeg.(hasEnd := true);
      }
      outputDataBuf := outputDataBuf[n := curSeg];
    }

    method OnSilenceDetected(validFrame: int)
      requires Buffered() && validFrame < frmCnt && machine == StartPointNotDetected
      modifies this`lastestConfirmedSilenceFrame, this`dataBufStartFrame, this`dataBufSize
      ensures Buffered() && lastestConfirmedSilenceFrame == validFrame
      ensures dataBufStartFrame == Max(old(dataBufStartFrame), validFrame)
    {
      lastestConfirmedSilenceFrame := validFrame;
      if machine == StartPointNotDetected {
        PopDataBufTillFrame(validFrame);
      }
    }

    method OnVoiceDetected(validFrame: nat)
      requires Buffered() && validFrame < frmCnt && dataBufStartFrame == validFrame
      requires outputDataBuf != [] && Last(outputDataBuf).endMs == Ms(validFrame)
      modifies this`latestConfirmedSpeechFrame, this`dataBufStartFrame, this`dataBufSize, this`outputDataBuf
      ensures Buffered() && dataBufStartFrame == validFrame + 1 && latestConfirmedSpeechFrame == validFrame
      ensures outputDataBuf == Init(old(outputDataBuf)) + [Last(old(outputDataBuf)).(endMs := Ms(validFrame + 1))]
    {
      latestConfirmedSpeechFrame := validFrame;
      PopDataToOutputBuf(validFrame, false, false);
    }

    /** The catch-up loops: frames `from` to `to - 1` join the open segment. */
    method OnVoiceDetectedRange(from: nat, to: nat)
      requires Buffered() && from <= to <= frmCnt && dataBufStartFrame == from
      requires outputDataBuf != [] && Last(outputDataBuf).endMs == Ms(from)
      modifies this`latestConfirmedSpeechFrame, this`dataBufStartFrame, this`dataBufSize, this`outputDataBuf
      ensures Buffered() && dataBufStartFrame == to
      ensures latestConfirmedSpeechFrame == if from < to then to - 1 else old(latestConfirmedSpeechFrame)
      ensures outputDataBuf == Init(old(outputDataBuf)) + [Last(old(outputDataBuf)).(endMs := Ms(to))]
    {
      var t := from;
      while t < to
        invariant from <= t <= to && Buffered() && dataBufStartFrame == t
        invariant latestConfirmedSpeechFrame == if from < t then t - 1 else old(latestConfirmedSpeechFrame)
        invariant outputDataBuf == Init(old(outputDataBuf)) + [Last(old(outputDataBuf)).(endMs := Ms(t))]
      {
        OnVoiceDetected(t);
        t := t + 1;
      }
    }

    method OnVoiceStart(startFrame: nat, fakeResult: bool)
      requires Buffered() && startFrame < frmCnt && machine == StartPointNotDetected && confirmedStartFrame == -1
      requires !fakeResult ==> dataBufStartFrame <= startFrame
      modifies this`confirmedStartFrame, this`dataBufStartFrame, this`dataBufSize, this`outputDataBuf
      ensures Buffered() && confirmedStartFrame == startFrame
      ensures fakeResult ==> outputDataBuf == old(outputDataBuf) && dataBufStartFrame == old(dataBufStartFrame)
      ensures !fakeResult ==> dataBufStartFrame == startFrame + 1
      ensures !fakeResult ==>
                outputDataBuf == old(outputDataBuf) + [SpeechBuf(Ms(startFrame), Ms(startFrame + 1), true, false)]
    {
      if confirmedStartFrame != -1 {
        assert false;  // "not reset vad properly"
      } else {
        confirmedStartFrame := startFrame;
      }
      if !fakeResult && machine == StartPointNotDetected {
        PopDataToOutputBuf(confirmedStartFrame, true, false);
      }
    }

    method OnVoiceEnd(endFrame: nat, fakeResult: bool)
      requires Buffered() && endFrame < frmCnt && confirmedEndFrame == -1
      requires if fakeResult then latestConfirmedSpeechFrame + 1 >= endFrame
               else && 0 <= latestConfirmedSpeechFrame
                    && latestConfirmedSpeechFrame + 1 == dataBufStartFrame <= endFrame
                    && outputDataBuf != [] && Last(outputDataBuf).endMs == Ms(dataBufStartFrame)
      modifies this`latestConfirmedSpeechFrame, this`confirmedEndFrame, this`numberEndTimeDetected,
               this`dataBufStartFrame, this`dataBufSize, this`outputDataBuf
      ensures Buffered() && confirmedEndFrame == endFrame && numberEndTimeDetected == old(numberEndTimeDetected) + 1
      ensures fakeResult ==> outputDataBuf == old(outputDataBuf) && dataBufStartFrame == old(dataBufStartFrame)
      ensures !fakeResult ==> dataBufStartFrame == endFrame + 1
      ensures !fakeResult ==> outputDataBuf == Init(old(outputDataBuf)) + [Ended(Last(old(outputDataBuf)), endFrame)]
    {
      if latestConfirmedSpeechFrame + 1 < endFrame {
        OnVoiceDetectedRange(latestConfirmedSpeechFrame + 1, endFrame);
      }
      if confirmedEndFrame != -1 {
        assert false;  // "not reset vad properly"
      } else {
        confirmedEndFrame := endFrame;
      }
      if !fakeResult {
        PopDataToOutputBuf(confirmedEndFrame, false, true);
      }
      numberEndTimeDetected := numberEndTimeDetected + 1;
    }

    method ResetDetection()
      requires detector.Valid()
      modifies this`continousSilenceFrameCount, this`latestConfirmedSpeechFrame, this`lastestConfirmedSilenceFrame,
               this`confirmedStartFrame, this`confirmedEndFrame, this`machine, detector
      ensures lastestConfirmedSilenceFrame == -1
      ensures forall v :: old(Restartable(v)) ==> Mirrors(v)
    {
      continousSilenceFrameCount := 0;
      latestConfirmedSpeechFrame := 0;
      lastestConfirmedSilenceFrame := -1;
      confirmedStartFrame := -1;
      confirmedEndFrame := -1;
      machine := StartPointNotDetected;
      detector.Reset();
    }

    /** The end of the open segment, and detection marked as ended. */
    method EndSegment(e: nat, ghost w: VadSpec.Vad)
      requires Buffered() && e < frmCnt && Mirrors(w) && w.inSpeech && w.buffered <= e && 0 < w.buffered
      requires w.segments != [] && Last(w.segments).end == w.buffered && !Last(w.segments).closed
      modifies this`latestConfirmedSpeechFrame, this`confirmedEndFrame, this`numberEndTimeDetected,
               this`dataBufStartFrame, this`dataBufSize, this`outputDataBuf, this`machine
      ensures Buffered() && AtEnd(Close(w, e))
    {
      GrowBufs(outputDataBuf, w, e);
      OnVoiceEnd(e, false);
      machine := EndPointDetected;
    }

    /** `v` is the machine before frame `t`, `w` the same with the window moved and the silence counted. */
    ghost predicate Moved(v: VadSpec.Vad, w: VadSpec.Vad, change: Change, t: nat)
      reads this, detector
    {
      && Buffered() && t < frmCnt && VadOk(v, t) && Mirrors(w)
      && w == v.(window := w.window, silence := if change == SilToSil then v.silence + 1 else 0)
    }

    ghost predicate SpeechOrEnd(w: VadSpec.Vad)
      reads this, detector
    {
      Buffered() && if w.inSpeech then Mirrors(w) else AtEnd(w)
    }

    /** Speech resumes inside a segment: the frames silence held back join it first. */
    method SpeechResumes(t: nat, final: bool, ghost v: VadSpec.Vad, ghost w: VadSpec.Vad)
      requires Moved(v, w, SilToSpeech, t) && v.inSpeech
      modifies this`latestConfirmedSpeechFrame, this`confirmedEndFrame, this`numberEndTimeDetected,
               this`dataBufStartFrame, this`dataBufSize, this`outputDataBuf, this`machine
      ensures SpeechOrEnd(InSpeechStep(w, SilToSpeech, t, final, Limits()))
    {
      hide VadOk, WindowDetector.Valid, BufsOf;
      OpenSegment(v, t);
      LastBuf(outputDataBuf, w.segments);
      ghost var caughtUp := w;
      if latestConfirmedSpeechFrame + 1 < t {
        GrowBufs(outputDataBuf, w, t - 1);
        GrowTwice(w, t - 1, t);
        caughtUp := Grow(w, t - 1);
        OnVoiceDetectedRange(latestConfirmedSpeechFrame + 1, t);
      }
      SpeechGoesOn(t, final, caughtUp);
    }

    /** The frame joins the segment, or ends it if it is too long or this is the last frame. */
    method SpeechGoesOn(t: nat, final: bool, ghost w: VadSpec.Vad)
      requires Buffered() && t < frmCnt && Mirrors(w) && w.inSpeech && w.buffered == t > 0
      requires w.segments != [] && Last(w.segments).end == w.buffered && !Last(w.segments).closed
      modifies this`latestConfirmedSpeechFrame, this`confirmedEndFrame, this`numberEndTimeDetected,
               this`dataBufStartFrame, this`dataBufSize, this`outputDataBuf, this`machine
      ensures SpeechOrEnd(if TooLong(w, t, Limits()) || final then Close(w, t) else Grow(w, t))
    {
      hide WindowDetector.Valid, BufsOf;
      LastBuf(outputDataBuf, w.segments);
      GrowBufs(outputDataBuf, w, t);
      if t - confirmedStartFrame + 1 > maxSingleSegmentTime / FRAME_MS {
        EndSegment(t, w);
      } else if !final {
        OnVoiceDetected(t);
      } else {
        EndSegment(t, w);
      }
    }

    /** Silence inside a segment: it ends the segment, or the frame joins it, or is held back. */
    method SilenceGoesOn(t: nat, final: bool, ghost v: VadSpec.Vad, ghost w: VadSpec.Vad)
      requires Moved(v, w, SilToSil, t) && v.inSpeech && !v.window.speech
      modifies this`latestConfirmedSpeechFrame, this`confirmedEndFrame, this`numberEndTimeDetected,
               this`dataBufStartFrame, this`dataBufSize, this`outputDataBuf, this`machine
      ensures SpeechOrEnd(InSpeechStep(w, SilToSil, t, final, Limits()))
    {
      hide VadOk, WindowDetector.Valid, BufsOf;
      OpenSegment(v, t);
      LastBuf(outputDataBuf, w.segments);
      if continousSilenceFrameCount * FRAME_MS >= maxEndSilFrameCntThresh {
        var lookbackFrame := maxEndSilFrameCntThresh / FRAME_MS;
        lookbackFrame := lookbackFrame - LOOKAHEAD;
        lookbackFrame := lookbackFrame - 1;
        lookbackFrame := Max(0, lookbackFrame);
        EndSegment(t - lookbackFrame, w);
      } else if t - confirmedStartFrame + 1 > maxSingleSegmentTime / FRAME_MS {
        EndSegment(t, w);
      } else if !final {
        if continousSilenceFrameCount <= LOOKAHEAD {
          GrowBufs(outputDataBuf, w, t);
          OnVoiceDetected(t);
        }
      } else {
        EndSegment(t, w);
      }
    }

    /** Speech begins: the segment opens at the look-back point. */
    method SpeechBegins(t: nat, ghost v: VadSpec.Vad, ghost w: VadSpec.Vad)
      requires Moved(v, w, SilToSpeech, t) && !v.inSpeech && v.buffered < t
      modifies this`latestConfirmedSpeechFrame, this`confirmedStartFrame, this`dataBufStartFrame, this`dataBufSize,
               this`outputDataBuf, this`machine
      ensures Buffered() && Mirrors(Open(w, t))
    {
      hide VadOk, WindowDetector.Valid, BufsOf;
      var startFrame := Max(dataBufStartFrame, t - LATENCY);
      OpenBufs(outputDataBuf, w, t);
      OnVoiceStart(startFrame, false);
      machine := InSpeechSegment;
      OnVoiceDetectedRange(startFrame + 1, t + 1);
    }

    ghost predicate SilentUpTo(t: nat)
      reads this`lastestConfirmedSilenceFrame
    {
      lastestConfirmedSilenceFrame == -1 || 0 <= lastestConfirmedSilenceFrame < t - LATENCY
    }

    /** Silence outside of segments: audio before the look-back point is dropped; a last frame without any speech
        detected is an end point of its own. */
    method SilencePasses(t: nat, final: bool, ghost v: VadSpec.Vad, ghost w: VadSpec.Vad)
      requires Moved(v, w, SilToSil, t) && !v.inSpeech && SilentUpTo(t)
      modifies this`latestConfirmedSpeechFrame, this`confirmedStartFrame, this`confirmedEndFrame,
               this`numberEndTimeDetected,
               this`lastestConfirmedSilenceFrame, this`dataBufStartFrame, this`dataBufSize, this`outputDataBuf,
               this`machine
      ensures Buffered()
      ensures var w' := SilenceStep(w, SilToSil, t, final);
              if machine == EndPointDetected then AtEnd(w') else Mirrors(w') && SilentUpTo(t + 1)
    {
      hide VadOk, WindowDetector.Valid, BufsOf;
      BufferedBy(v, t);
      if final && numberEndTimeDetected == 0 {
        if lastestConfirmedSilenceFrame + 1 < t {
          OnSilenceDetectedRange(lastestConfirmedSilenceFrame + 1, t);
        }
        OnVoiceStart(0, true);
        OnVoiceEnd(0, true);
        machine := EndPointDetected;
      } else if t >= LATENCY {
        OnSilenceDetected(t - LATENCY);
      }
    }

    lemma BufferedBy(v: VadSpec.Vad, t: nat)
      requires VadOk(v, t)
      ensures v.buffered <= t
    {
    }

    method OnSilenceDetectedRange(from: nat, to: nat)
      requires Buffered() && from < to <= frmCnt && machine == StartPointNotDetected
      modifies this`lastestConfirmedSilenceFrame, this`dataBufStartFrame, this`dataBufSize
      ensures Buffered() && dataBufStartFrame == Max(old(dataBufStartFrame), to - 1)
    {
      var t := from;
      while t < to
        invariant from <= t <= to && Buffered()
        invariant dataBufStartFrame == if t == from then old(dataBufStartFrame) else Max(old(dataBufStartFrame), t - 1)
      {
        OnSilenceDetected(t);
        t := t + 1;
      }
    }

    /** The window moves, and silence is counted. */
    method MoveWindow(speech: bool, t: nat) returns (change: Change, ghost w: VadSpec.Vad)
      requires Valid(t) && Buffered() && t < frmCnt
      modifies this`continousSilenceFrameCount, detector
      ensures Moved(vad, w, change, t) && (w.window, change) == Slide(vad.window, speech)
    {
      hide VadOk, BufsOf, Slide, WindowDetector.Valid, WindowDetector.View;
      WindowFacts(vad, speech, t);
      change := detector.DetectOneFrame(speech);
      continousSilenceFrameCount := if change == SilToSil then continousSilenceFrameCount + 1 else 0;
      w := vad.(window := detector.View(), silence := continousSilenceFrameCount);
    }

    method FrameInSpeech(change: Change, t: nat, final: bool, ghost v: VadSpec.Vad, ghost w: VadSpec.Vad)
      requires Moved(v, w, change, t) && v.inSpeech
      requires v.window.speech <==> change == SpeechToSil || change == SpeechToSpeech
      modifies this`latestConfirmedSpeechFrame, this`confirmedEndFrame, this`numberEndTimeDetected,
               this`dataBufStartFrame, this`dataBufSize, this`outputDataBuf, this`machine
      ensures SpeechOrEnd(InSpeechStep(w, change, t, final, Limits()))
    {
      match change {
        case SilToSpeech => SpeechResumes(t, final, v, w);
        case SilToSil => SilenceGoesOn(t, final, v, w);
        case _ =>
          OpenSegment(v, t);
          SpeechGoesOn(t, final, w);
      }
    }

    method FrameInSilence(change: Change, t: nat, final: bool, ghost v: VadSpec.Vad, ghost w: VadSpec.Vad)
      requires Moved(v, w, change, t) && !v.inSpeech && SilentUpTo(t)
      requires change == SilToSil || (change == SilToSpeech && v.buffered < t)
      modifies this`latestConfirmedSpeechFrame, this`confirmedStartFrame, this`confirmedEndFrame,
               this`numberEndTimeDetected,
               this`lastestConfirmedSilenceFrame, this`dataBufStartFrame, this`dataBufSize, this`outputDataBuf,
               this`machine
      ensures Buffered()
      ensures var w' := SilenceStep(w, change, t, final);
              if machine == EndPointDetected then AtEnd(w') else Mirrors(w') && SilentUpTo(t + 1)
    {
      hide VadOk, WindowDetector.Valid, BufsOf, Open;
      if change == SilToSpeech {
        SpeechBegins(t, v, w);
      } else {
        SilencePasses(t, final, v, w);
      }
    }

    method HandleFrame(change: Change, t: nat, final: bool, ghost v: VadSpec.Vad, ghost w: VadSpec.Vad)
      requires Moved(v, w, change, t) && SilentUpTo(t)
      requires v.window.speech <==> change == SpeechToSil || change == SpeechToSpeech
      requires !v.inSpeech ==> change == SilToSil || (change == SilToSpeech && v.buffered < t)
      modifies this`continousSilenceFrameCount, this`latestConfirmedSpeechFrame, this`lastestConfirmedSilenceFrame,
               this`confirmedStartFrame, this`confirmedEndFrame, this`numberEndTimeDetected, this`dataBufStartFrame,
               this`dataBufSize, this`outputDataBuf, this`machine, detector
      ensures Buffered() && SilentUpTo(t + 1)
      ensures Mirrors(if v.inSpeech then InSpeechStep(w, change, t, final, Limits())
                      else SilenceStep(w, change, t, final))
    {
      hide VadOk, BufsOf, WindowDetector.Valid, WindowDetector.View, InSpeechStep, SilenceStep;
      if machine == InSpeechSegment {
        FrameInSpeech(change, t, final, v, w);
      } else {
        FrameInSilence(change, t, final, v, w);
      }
      if machine == EndPointDetected {
        ResetDetection();
      }
    }

    /** One frame. */
    method DetectOneFrame(speech: bool, t: nat, final: bool)
      requires Valid(t) && Buffered() && t < frmCnt
      modifies this`continousSilenceFrameCount, this`latestConfirmedSpeechFrame, this`lastestConfirmedSilenceFrame,
               this`confirmedStartFrame, this`confirmedEndFrame, this`numberEndTimeDetected, this`dataBufStartFrame,
               this`dataBufSize, this`outputDataBuf, this`machine, this`vad, detector
      ensures Valid(t + 1) && Buffered() && vad == Step(old(vad), speech, t, final, Limits())
    {
      hide VadOk, Mirrors, Slide, InSpeechStep, SilenceStep;
      WindowFacts(vad, speech, t);
      StepOk(vad, speech, t, final, Limits());
      RingSize(vad, t);
      var change, w := MoveWindow(speech, t);
      HandleFrame(change, t, final, vad, w);
      vad := Step(vad, speech, t, final, Limits());
    }

    /** The frames of a call that is not the last: `frmCnt` already counts them. */
    method DetectCommonFrames(frames: seq<bool>)
      requires |frames| <= frmCnt && Valid(frmCnt - |frames|) && Buffered()
      modifies this`continousSilenceFrameCount, this`latestConfirmedSpeechFrame, this`lastestConfirmedSilenceFrame,
               this`confirmedStartFrame, this`confirmedEndFrame, this`numberEndTimeDetected, this`dataBufStartFrame,
               this`dataBufSize, this`outputDataBuf, this`machine, this`vad, detector
      ensures Valid(frmCnt) && Buffered()
      ensures |old(vad).window.ring| == WINDOW
      ensures vad == Run(old(vad), frames, frmCnt - |frames|, false, Limits())
    {
      hide Mirrors, Step, Run, VadOk;
      RingSize(vad, frmCnt - |frames|);
      ghost var t0 := frmCnt - |frames|;
      EmptyRun(vad, t0, false, Limits());
      assert frames[..0] == [];
      var i := |frames| - 1;
      while i >= 0
        invariant -1 <= i < |frames| && Valid(frmCnt - 1 - i) && Buffered()
        invariant vad == Run(old(vad), frames[..|frames| - 1 - i], t0, false, Limits())
      {
        ghost var n := |frames| - 1 - i;
        RunSnoc(old(vad), frames, n, t0, false, Limits());
        DetectOneFrame(frames[|frames| - 1 - i], frmCnt - 1 - i, false);
        i := i - 1;
      }
      assert frames[..|frames|] == frames;
    }

    /** The frames of the last call: the last frame is final. */
    method DetectLastFrames(frames: seq<bool>)
      requires 0 < |frames| <= frmCnt && Valid(frmCnt - |frames|) && Buffered()
      modifies this`continousSilenceFrameCount, this`latestConfirmedSpeechFrame, this`lastestConfirmedSilenceFrame,
               this`confirmedStartFrame, this`confirmedEndFrame, this`numberEndTimeDetected, this`dataBufStartFrame,
               this`dataBufSize, this`outputDataBuf, this`machine, this`vad, detector
      ensures Valid(frmCnt) && Buffered()
      ensures |old(vad).window.ring| == WINDOW
      ensures vad == Run(old(vad), frames, frmCnt - |frames|, true, Limits())
    {
      hide Mirrors, Step, Run, VadOk;
      RingSize(vad, frmCnt - |frames|);
      ghost var t0 := frmCnt - |frames|;
      EmptyRun(vad, t0, false, Limits());
      assert frames[..0] == [];
      var i := |frames| - 1;
      while i >= 0
        invariant -1 <= i < |frames| && Valid(frmCnt - 1 - i) && Buffered()
        invariant vad == Run(old(vad), frames[..|frames| - 1 - i], t0, i == -1, Limits())
      {
        ghost var n := |frames| - 1 - i;
        RunSnoc(old(vad), frames, n, t0, i == 0, Limits());
        if i != 0 {
          DetectOneFrame(frames[|frames| - 1 - i], frmCnt - 1 - i, false);
        } else {
          DetectOneFrame(frames[|frames| - 1], frmCnt - 1, true);
        }
        i := i - 1;
      }
      assert frames[..|frames|] == frames;
    }

    /** The reports of a call. */
    method ReportSegments(online: bool) returns (segmentBatch: seq<Report>)
      requires BufsOf(outputDataBuf, vad.segments) && outputDataBufOffset <= |outputDataBuf|
      modifies this`nextSeg, this`outputDataBufOffset
      ensures online ==> var (reports, closed, next) := Online(vad.segments, old(outputDataBufOffset), old(nextSeg));
                         segmentBatch == reports && outputDataBufOffset == old(outputDataBufOffset) + closed
                         && nextSeg == next
      ensures !online ==> Offline(vad.segments) == Offline(vad.segments[..old(outputDataBufOffset)]) + segmentBatch
    {
      hide Online, Offline, BufsOf;
      segmentBatch := [];
      ghost var first := outputDataBufOffset;
      SameSize(outputDataBuf, vad.segments);
      var i := outputDataBufOffset;
      NothingReported(vad.segments, first, nextSeg);
      while i < |outputDataBuf|
        invariant first <= i <= |outputDataBuf|
        invariant online ==> Reported(vad.segments, first, old(nextSeg), i, nextSeg, outputDataBufOffset, segmentBatch)
        invariant !online ==> Offline(vad.segments[..i]) == Offline(vad.segments[..first]) + segmentBatch
      {
        var buf := outputDataBuf[i];
        BufAt(outputDataBuf, vad.segments, i);
        if online {
          ReportNext(vad.segments, first, old(nextSeg), i, nextSeg, outputDataBufOffset, segmentBatch);
          if !nextSeg && !buf.hasEnd {
            i := i + 1;
            continue;
          }
          var startMs := if nextSeg then buf.startMs else -1;
          var endMs := -1;
          if buf.hasEnd {
            endMs := buf.endMs;
            nextSeg := true;
            outputDataBufOffset := outputDataBufOffset + 1;
          } else {
            nextSeg := false;
          }
          segmentBatch := segmentBatch + [(startMs, endMs)];
        } else {
          OfflineNext(vad.segments, i);
          outputDataBufOffset := outputDataBufOffset + 1;
          segmentBatch := segmentBatch + [(buf.startMs, buf.endMs)];
        }
        i := i + 1;
      }
      assert vad.segments[..i] == vad.segments;
      AllReported(vad.segments, nextSeg);
    }

    method AllResetDetection()
      requires detector.Valid()
      modifies this`dataBufStartFrame, this`frmCnt, this`numberEndTimeDetected, this`nextSeg, this`outputDataBuf,
               this`outputDataBufOffset, this`maxEndSilFrameCntThresh, this`vad,
               this`continousSilenceFrameCount, this`latestConfirmedSpeechFrame, this`lastestConfirmedSilenceFrame,
               this`confirmedStartFrame, this`confirmedEndFrame, this`machine, detector
      ensures Valid(0) && vad == FreshVad() && frmCnt == 0 && nextSeg && outputDataBufOffset == 0
      ensures dataBufSize == old(dataBufSize) && dataBufAllSize == old(dataBufAllSize)
    {
      hide VadOk, BufsOf, WindowDetector.Valid, WindowDetector.View, FreshWindow;
      // the buffer counters survive: the program assigns local variables of their names
      dataBufStartFrame, frmCnt, numberEndTimeDetected := 0, 0, 0;
      nextSeg, outputDataBuf, outputDataBufOffset := true, [], 0;
      maxEndSilFrameCntThresh := 650;
      vad := FreshVad();
      NoBufs();
      ResetDetection();
      FreshOk();
    }

    /** Between calls. */
    ghost predicate Ready()
      reads this, detector
    {
      && Valid(frmCnt) && (dataBufAllSize != 0 ==> dataBufSize >= frameSamples)
      && nextSeg == !IsOpen(vad.segments)
      && outputDataBufOffset == if IsOpen(vad.segments) then |vad.segments| - 1 else |vad.segments|
    }

    /** The audio and the frames of a call are counted. */
    method Receive(samples: nat, count: nat, sampleRate: nat)
      requires count > 0 && samples > 0 && dataBufAllSize >= 0
      requires dataBufAllSize != 0 ==> dataBufSize >= FRAME_MS * sampleRate / 1000
      requires dataBufAllSize + samples >= (frmCnt + count) * (FRAME_MS * sampleRate / 1000)
      modifies this`frameSamples, this`dataBufAllSize, this`dataBufSize, this`frmCnt
      ensures frmCnt == old(frmCnt) + count && Buffered() && dataBufAllSize > 0
    {
      frameSamples := FRAME_MS * sampleRate / 1000;
      if dataBufAllSize == 0 {
        dataBufAllSize := samples;
        dataBufSize := dataBufAllSize;
      } else {
        dataBufAllSize := dataBufAllSize + samples;
      }
      frmCnt := frmCnt + count;
      MulMono(1, frmCnt, frameSamples);
    }

    /** The frames of a call. */
    method DetectFrames(frames: seq<bool>, final: bool)
      requires 0 < |frames| <= frmCnt && Valid(frmCnt - |frames|) && Buffered()
      modifies this`continousSilenceFrameCount, this`latestConfirmedSpeechFrame, this`lastestConfirmedSilenceFrame,
               this`confirmedStartFrame, this`confirmedEndFrame, this`numberEndTimeDetected, this`dataBufStartFrame,
               this`dataBufSize, this`outputDataBuf, this`machine, this`vad, detector
      ensures Valid(frmCnt) && Buffered()
      ensures |old(vad).window.ring| == WINDOW
      ensures vad == Run(old(vad), frames, frmCnt - |frames|, final, Limits())
      ensures Extends(old(vad).segments, vad.segments)
      ensures BufsOf(outputDataBuf, vad.segments) && |outputDataBuf| == |vad.segments| && detector.Valid()
    {
      hide Mirrors, VadOk, Run, BufsOf, Extends, WindowDetector.Valid;
      RingSize(vad, frmCnt - |frames|);
      RunOk(vad, frames, frmCnt - |frames|, final, Limits());
      if !final {
        DetectCommonFrames(frames);
      } else {
        DetectLastFrames(frames);
      }
      MirrorsBufs(vad);
    }

    /** One call: the speech decisions of its frames, and the number of samples it brings. */
    method Detect(frames: seq<bool>, samples: nat, final: bool, online: bool, maxEndSil: int, maxSegmentTime: nat,
                  sampleRate: nat)
      returns (segmentBatch: seq<Report>)
      requires Ready() && frames != [] && (online || (final && vad == FreshVad()))
      requires samples > 0 && dataBufAllSize >= 0
      requires dataBufAllSize != 0 ==> dataBufSize >= FRAME_MS * sampleRate / 1000
      requires dataBufAllSize + samples >= (frmCnt + |frames|) * (FRAME_MS * sampleRate / 1000)
      modifies this, detector
      ensures Ready()
      ensures |old(vad).window.ring| == WINDOW
      ensures var v := Run(old(vad), frames, old(frmCnt), final, Settings(maxEndSil - 150, maxSegmentTime / FRAME_MS));
              && old(outputDataBufOffset) <= |v.segments|
              && segmentBatch == (if online then Online(v.segments, old(outputDataBufOffset), old(nextSeg)).0
                                  else Offline(v.segments))
              && vad == (if final then FreshVad() else v)
      ensures frmCnt == if final then 0 else old(frmCnt) + |frames|
    {
      hide Mirrors, VadOk, Run, Online, Offline, BufsOf, Extends, WindowDetector.Valid, IsOpen, FreshVad, SilentUpTo,
          Due;
      NothingOpen();
      ghost var v, t := vad, frmCnt;
      maxEndSilFrameCntThresh := maxEndSil - 150;
      maxSingleSegmentTime := maxSegmentTime;
      Receive(samples, |frames|, sampleRate);
      DetectFrames(frames, final);
      ReportingReady(v, vad, t, frmCnt);
      segmentBatch := ReportCall(online, final);
    }

    /** The end of a call: its reports, and after the last call a clean start. */
    method ReportCall(online: bool, final: bool) returns (segmentBatch: seq<Report>)
      requires Valid(frmCnt) && (dataBufAllSize != 0 ==> dataBufSize >= frameSamples)
               && (!online ==> final && outputDataBufOffset == 0)
      requires outputDataBufOffset <= |vad.segments| == |outputDataBuf| && BufsOf(outputDataBuf, vad.segments)
               && detector.Valid()
      requires Due(vad.segments, outputDataBufOffset, nextSeg)
      modifies this`dataBufStartFrame, this`frmCnt, this`numberEndTimeDetected, this`nextSeg, this`outputDataBuf,
               this`outputDataBufOffset, this`maxEndSilFrameCntThresh, this`vad,
               this`continousSilenceFrameCount, this`latestConfirmedSpeechFrame, this`lastestConfirmedSilenceFrame,
               this`confirmedStartFrame, this`confirmedEndFrame, this`machine, detector
      ensures Ready()
      ensures segmentBatch == if online then Online(old(vad).segments, old(outputDataBufOffset), old(nextSeg)).0
              else Offline(old(vad).segments)
      ensures vad == (if final then FreshVad() else old(vad)) && frmCnt == if final then 0 else old(frmCnt)
    {
      hide Mirrors, VadOk, Online, Offline, BufsOf, WindowDetector.Valid;
      NoneOffline();
      ghost var segments := vad.segments;
      segmentBatch := ReportSegments(online);
      assert !online ==> segments[..0] == [] && [] + segmentBatch == segmentBatch;
      if final {
        AllResetDetection();
      }
    }

    static lemma NothingOpen()
      ensures FreshVad().segments == [] && !IsOpen([])
    {
    }

    lemma NoneOffline()
      ensures Offline([]) == []
    {
    }
  }
}
