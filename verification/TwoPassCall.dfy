/** The endpoint detector feeding the two-pass splitter: the reports of every call are what the splitter relies on. */
module TwoPassCall {
  import opened Arithmetic
  import opened Sequences
  import opened VadSpec
  import opened VadRuns
  import T = TwoPassSplit

  /** Every segment from `n` on starts at most the look-back before frame `t0`, and none ends after frame `t`. */
  ghost predicate Within(segments: seq<Segment>, n: nat, t0: nat, t: nat) {
    && (forall i :: n <= i < |segments| ==> t0 - LATENCY <= segments[i].start)
    && forall i :: 0 <= i < |segments| ==> segments[i].start <= segments[i].end <= t
  }

  lemma {:induction false} StepWithin(v: Vad, speech: bool, t0: nat, t: nat, final: bool, s: Settings, n: nat)
    requires VadOk(v, t) && t0 <= t && n <= |v.segments| && Within(v.segments, n, t0, t)
    ensures Within(Step(v, speech, t, final, s).segments, n, t0, t + 1)
  {
    hide Sum, Slide, Grow, Close, Open, Within;
    var (window, change) := Slide(v.window, speech);
    var w := v.(window := window, silence := if change == SilToSil then v.silence + 1 else 0);
    SameWithin(v.segments, n, t0, t);
    if v.inSpeech {
      OpenLast(v, t, s);
      GrowWithin(w, t0, t, t, n);
      if change == SilToSil && w.silence * FRAME_MS >= s.endSilence { GrowWithin(w, t0, t, t - Lookback(s), n); }
    } else {
      OpenWithin(w, t0, t, n);
    }
  }

  lemma OpenLast(v: Vad, t: nat, s: Settings)
    requires VadOk(v, t) && v.inSpeech
    ensures v.segments != [] && Last(v.segments).start <= t
    ensures (v.silence + 1) * FRAME_MS >= s.endSilence ==> Last(v.segments).start <= t - Lookback(s)
  {
    hide Sum;
  }

  lemma SameWithin(segments: seq<Segment>, n: nat, t0: nat, t: nat)
    requires Within(segments, n, t0, t)
    ensures Within(segments, n, t0, t + 1)
  {
  }

  /** Closing, or growing, the last segment at frame `e`. */
  lemma {:induction false} GrowWithin(w: Vad, t0: nat, t: nat, e: nat, n: nat)
    requires Within(w.segments, n, t0, t) && w.segments != [] && Last(w.segments).start <= e <= t
    ensures Within(Grow(w, e).segments, n, t0, t + 1) && Within(Close(w, e).segments, n, t0, t + 1)
  {
  }

  lemma {:induction false} OpenWithin(w: Vad, t0: nat, t: nat, n: nat)
    requires Within(w.segments, n, t0, t) && t0 <= t && w.buffered <= t
    ensures Within(Open(w, t).segments, n, t0, t + 1)
  {
  }

  lemma {:induction false} RunWithin(v: Vad, frames: seq<bool>, t0: nat, final: bool, s: Settings)
    requires VadOk(v, t0)
    ensures Within(Run(v, frames, t0, final, s).segments, |v.segments|, t0, t0 + |frames|)
    ensures |v.segments| <= |Run(v, frames, t0, final, s).segments|
  {
    hide Sum, Step, Within;
    if frames == [] {
      EndsBy(v, t0);
    } else {
      var w, t := Run(v, Init(frames), t0, false, s), t0 + |frames| - 1;
      RunWithin(v, Init(frames), t0, false, s);
      RunOk(v, Init(frames), t0, false, s);
      StepExtends(w, Last(frames), t, final, s);
      StepWithin(w, Last(frames), t0, t, final, s, |v.segments|);
    }
  }

  lemma {:induction false} EndsBy(v: Vad, t: nat)
    requires VadOk(v, t)
    ensures Within(v.segments, |v.segments|, t, t)
  {
    hide Sum;
    forall i | 0 <= i < |v.segments|
      ensures v.segments[i].start <= v.segments[i].end <= t
    {
      if i < |v.segments| - 1 { assert v.segments[i].end <= Last(v.segments).start; }
    }
  }

  /** The start already reported of the segment in progress, or -1. */
  function OpenAt(segments: seq<Segment>): int {
    if IsOpen(segments) then Ms(Last(segments).start) else -1
  }

  /** Reports about segments from `n` on start no earlier than the look-back allows and end within the frames. */
  ghost predicate InTime(reports: seq<Report>, t0: nat, t: nat) {
    forall i :: 0 <= i < |reports| ==>
      && (reports[i].0 != -1 ==> (t0 - LATENCY) * FRAME_MS <= reports[i].0 <= t * FRAME_MS)
      && (reports[i].1 != -1 ==> reports[i].1 <= t * FRAME_MS)
  }

  /** The reporting loop follows the protocol. */
  lemma {:induction false} OnlineProtocol(segments: seq<Segment>, i: nat, next: bool, n: nat, t0: nat, t: nat)
    requires OnlyLastOpen(segments) && i <= |segments| && (!next || IsOpen(segments) ==> i < |segments|)
    requires Within(segments, n, t0, t) && (if next then n <= i else n <= i + 1)
    ensures var reports := Online(segments, i, next).0;
            T.Protocol(reports, if next then -1 else Ms(segments[i].start)) && InTime(reports, t0, t)
    decreases |segments| - i
  {
    if i < |segments| {
      var seg := segments[i];
      if next || seg.closed {
        var (rest, closed, next') := Online(segments, i + 1, seg.closed);
        var first := (if next then Ms(seg.start) else -1, if seg.closed then Ms(seg.end) else -1);
        var reports := [first] + rest;
        assert reports[1..] == rest;
        if seg.closed {
          OnlineProtocol(segments, i + 1, true, n, t0, t);
        } else {
          assert rest == [];
        }
      } else {
        assert Online(segments, i + 1, next).0 == [];
      }
    }
  }

  /** The reports of a call. */
  function NewReports(c: Session, frames: seq<bool>, final: bool, s: Settings): seq<Report>
    requires |c.vad.window.ring| == WINDOW
  {
    var v := Run(c.vad, frames, c.t, final, s);
    if c.offset > |v.segments| then [] else Online(v.segments, c.offset, c.next).0
  }

  lemma {:induction false} NewReportsAreAppended(c: Session, frames: seq<bool>, final: bool, s: Settings)
    requires |c.vad.window.ring| == WINDOW
    ensures Call(c, frames, final, s).reports == c.reports + NewReports(c, frames, final, s)
  {
    hide Run, Online;
  }

  /** Every call's reports are well bracketed, go on from the segment left open by the calls before, start at most
      the look-back before the call's first frame, and end within the frames seen. */
  lemma {:induction false} CallProtocol(c: Session, frames: seq<bool>, final: bool, s: Settings)
    requires SessionOk(c)
    ensures |c.vad.window.ring| == WINDOW
    ensures var reports := NewReports(c, frames, final, s);
            && T.Protocol(reports, OpenAt(c.vad.segments)) && InTime(reports, c.t, c.t + |frames|)
            && AddAll(Stitch([], OpenAt(c.vad.segments), -1), reports).start ==
               OpenAt(Call(c, frames, final, s).vad.segments)
  {
    hide Run, VadOk, Online, AddAll, T.Protocol, InTime, Within, Ms;
    RingSize(c.vad, c.t);
    var v := Run(c.vad, frames, c.t, final, s);
    RunOk(c.vad, frames, c.t, final, s);
    RunWithin(c.vad, frames, c.t, final, s);
    OpenIffInSpeech(c.vad, c.t);
    OpenIffInSpeech(v, c.t + |frames|);
    OnlineProtocol(v.segments, c.offset, c.next, |c.vad.segments|, c.t, c.t + |frames|);
    OnlineTells(v.segments, c.offset, c.next);
    SpansDoNotMatter(Offline(v.segments[..c.offset]), OpenAt(c.vad.segments), -1,
                     Online(v.segments, c.offset, c.next).0);
    CallOk(c, frames, final, s);
  }

  /** What is stitched first does not change what is open afterwards. */
  lemma {:induction false} SpansDoNotMatter(spans: seq<Report>, start: int, end: int, reports: seq<Report>)
    ensures AddAll(Stitch(spans, start, end), reports).start == AddAll(Stitch([], start, end), reports).start
    ensures AddAll(Stitch(spans, start, end), reports).spans == spans + AddAll(Stitch([], start, end), reports).spans
    decreases reports
  {
    if reports != [] {
      var a, b := Add(Stitch(spans, start, end), reports[0]), Add(Stitch([], start, end), reports[0]);
      SpansDoNotMatter(a.spans, a.start, a.end, reports[1..]);
      SpansDoNotMatter(b.spans, b.start, b.end, reports[1..]);
      assert a == Stitch(spans + b.spans, b.start, b.end);
      assert (spans + b.spans) + AddAll(Stitch([], b.start, b.end), reports[1..]).spans
          == spans + (b.spans + AddAll(Stitch([], b.start, b.end), reports[1..]).spans);
    }
  }

  /** Before the call `before` samples had been received; afterwards `after`.  If the detector lagged at most 1.6 s
      behind the audio when the call began, and has seen no frame beyond the audio, then all starts lie in the
      retained two seconds. */
  lemma {:induction false} TwoSecondsSuffice(reports: seq<Report>, t0: nat, t: nat, perMs: nat, offset: int,
                                             before: nat, after: nat)
    requires InTime(reports, t0, t)
    requires forall i :: 0 <= i < |reports| ==> reports[i].0 >= -1
    requires offset <= Max(0, before - 2000 * perMs)
    requires before <= (t0 * FRAME_MS + 1600) * perMs && t * FRAME_MS * perMs <= after
    ensures T.WithinAudio(reports, perMs, offset, after)
  {
    var first := (t0 - LATENCY) * FRAME_MS;
    Subtract(t0 * FRAME_MS + 1600, 2000, perMs);
    assert (t0 * FRAME_MS + 1600) - 2000 == first;
    forall i | 0 <= i < |reports|
      ensures reports[i].0 != -1 ==> offset <= reports[i].0 * perMs <= after
      ensures reports[i].1 != -1 ==> reports[i].1 * perMs <= after
    {
      var (start, end) := reports[i];
      if start != -1 {
        MulMono(first, start, perMs);
        MulMono(0, start, perMs);
        MulMono(start, t * FRAME_MS, perMs);
      }
      if end != -1 { MulMono(end, t * FRAME_MS, perMs); }
    }
  }

  // ---------- detector and splitter together ----------

  /** Between calls: what the splitter has served is what the detector has told, its segment in progress is the one the
      detector left open, and the detector has seen no frame beyond the audio. */
  ghost predicate Joined(audio: T.Audio, c: Session)
    reads audio
  {
    && audio.Valid() && audio.frameQueue == [] && SessionOk(c)
    && Told(c.vad.segments) == Stitch(T.Spans(audio.served), audio.speechOfflineStart, -1)
    && c.t * FRAME_MS * audio.segSample <= |audio.stream|
  }

  /** The detector lags at most 1.6 s behind the audio. */
  ghost predicate SmallLag(audio: T.Audio, c: Session)
    reads audio
  {
    |audio.stream| <= (c.t * FRAME_MS + 1600) * audio.segSample
  }

  lemma {:induction false} JoinedAtStart(audio: T.Audio)
    requires audio.Valid() && audio.frameQueue == [] && audio.stream == [] && audio.served == []
             && audio.speechStart == -1
    ensures Joined(audio, StartSession()) && SmallLag(audio, StartSession())
  {
    StartOk();
  }

  lemma ProtocolStarts(reports: seq<Report>, open: int)
    requires T.Protocol(reports, open)
    ensures forall i :: 0 <= i < |reports| ==> reports[i].0 >= -1
    decreases reports
  {
    if reports != [] {
      var (start, end) := reports[0];
      ProtocolStarts(reports[1..], if start >= 0 && end == -1 then start else -1);
      forall i | 0 <= i < |reports|
        ensures reports[i].0 >= -1
      {
        if i > 0 { assert reports[i] == reports[1..][i - 1]; }
      }
    }
  }

  /** The reports of a call are what the splitter needs, and lead from what was told before to what is told after. */
  lemma {:induction false} ReportsFit(c: Session, frames: seq<bool>, final: bool, s: Settings, perMs: nat, offset: int,
                                      before: nat, after: nat)
    requires SessionOk(c) && offset <= Max(0, before - 2000 * perMs)
    requires before <= (c.t * FRAME_MS + 1600) * perMs && (c.t + |frames|) * FRAME_MS * perMs <= after
    ensures |c.vad.window.ring| == WINDOW
    ensures var reports := NewReports(c, frames, final, s);
            && T.Protocol(reports, OpenAt(c.vad.segments)) && T.WithinAudio(reports, perMs, offset, after)
            && AddAll(Told(c.vad.segments), reports) == Told(Call(c, frames, final, s).vad.segments)
  {
    hide Run, VadOk, Online, AddAll, T.Protocol, InTime, Within, Told, T.WithinAudio;
    CallProtocol(c, frames, final, s);
    var reports := NewReports(c, frames, final, s);
    ProtocolStarts(reports, OpenAt(c.vad.segments));
    TwoSecondsSuffice(reports, c.t, c.t + |frames|, perMs, offset, before, after);
    CallOk(c, frames, final, s);
    NewReportsAreAppended(c, frames, final, s);
    AddAllConcat(Stitch([], -1, -1), c.reports, reports);
  }

  lemma OpenIsTold(segments: seq<Segment>)
    ensures Told(segments).start == OpenAt(segments)
  {
  }

  /** One call (funasrruntime.cpp:524-536): audio arrives, the detector reports on its new frames, and the splitter
      serves the reports.  Over any calls with bounded lag the splitter's precondition is met, and the segments it
      has served are exactly the closed segments of the detector, the segment in progress the open one. */
  method TpassInfer(audio: T.Audio, samples: seq<real>, c: Session, frames: seq<bool>, final: bool, s: Settings,
                    chunkMs: nat)
    returns (c': Session)
    requires Joined(audio, c) && SmallLag(audio, c) && chunkMs > 0
    requires (c.t + |frames|) * FRAME_MS * audio.segSample <= |audio.stream| + |samples|
    modifies audio
    ensures |c.vad.window.ring| == WINDOW && c' == Call(c, frames, final, s)
    ensures Joined(audio, c') && audio.stream == old(audio.stream) + samples
    ensures T.Spans(audio.served) == Told(c'.vad.segments).spans && audio.speechOfflineStart == OpenAt(c'.vad.segments)
    ensures T.SessionCut(old(audio.served), old(audio.current), chunkMs, audio.segSample) ==>
              T.SessionCut(audio.served, audio.current, chunkMs, audio.segSample)
  {
    hide Run, VadOk, Online, AddAll, T.Protocol, T.WithinAudio, Told, SessionOk, Call, NewReports, T.Spans,
        T.Audio.Valid, T.SessionCut, T.ChunksCut;
    OpenIsTold(c.vad.segments);
    BufferFacts(audio);
    ReportsFit(c, frames, final, s, audio.segSample, audio.offset, |audio.stream|, |audio.stream| + |samples|);
    CallOk(c, frames, final, s);
    OpenIsTold(Call(c, frames, final, s).vad.segments);
    audio.AppendSamples(samples);
    var reports := NewReports(c, frames, final, s);
    audio.Split(reports, chunkMs);
    c' := Call(c, frames, final, s);
  }

  lemma BufferFacts(audio: T.Audio)
    requires audio.Valid()
    ensures audio.offset <= Max(0, |audio.stream| - 2000 * audio.segSample)
  {
  }
}
