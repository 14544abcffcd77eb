/** Whole runs of the endpointing state machine (e2e-vad.h), and the reports it makes call by call. */
module VadRuns {
  import opened Sequences
  import opened VadSpec

  // ---------- segment length ----------

  /** With fixed settings no segment is longer than the limit plus one frame, or than a segment that is cut right
      after it was opened. */
  function LongestSegment(s: Settings): int {
    Max(s.maxFrames + 1, LATENCY + 2)
  }

  ghost predicate ShortEnough(v: Vad, t: nat, s: Settings) {
    && (forall i :: 0 <= i < |v.segments| ==> v.segments[i].end - v.segments[i].start <= LongestSegment(s))
    && (v.inSpeech ==> t - v.start <= LongestSegment(s) - 1)
  }

  lemma {:induction false} StepShort(v: Vad, speech: bool, t: nat, final: bool, s: Settings)
    requires VadOk(v, t) && ShortEnough(v, t, s)
    ensures ShortEnough(Step(v, speech, t, final, s), t + 1, s)
  {
    hide Sum, Slide;
  }

  // ---------- what a frame does to the segments so far ----------

  /** Closed segments stay as they are, and the open one keeps its start. */
  ghost predicate Extends(before: seq<Segment>, after: seq<Segment>) {
    && |before| <= |after|
    && forall i :: 0 <= i < |before| ==>
       after[i].start == before[i].start && (before[i].closed ==> after[i] == before[i])
  }

  lemma {:induction false} StepExtends(v: Vad, speech: bool, t: nat, final: bool, s: Settings)
    requires VadOk(v, t)
    ensures Extends(v.segments, Step(v, speech, t, final, s).segments)
  {
    hide Sum, Slide;
  }

  /** The last frame closes an open segment; only a segment opened by that very frame stays open. */
  lemma {:induction false} FinalFrameCloses(v: Vad, speech: bool, t: nat, s: Settings)
    requires VadOk(v, t)
    ensures var w := Step(v, speech, t, true, s);
            w.inSpeech <==> !v.inSpeech && Slide(v.window, speech).1 == SilToSpeech
    ensures var w := Step(v, speech, t, true, s);
            w.inSpeech ==> |w.segments| == |v.segments| + 1 && Last(w.segments).end == t + 1
  {
    hide Sum;
  }

  // ---------- runs ----------

  /** The frames from `t` on; `final` marks the last of them. */
  function Run(v: Vad, frames: seq<bool>, t: nat, final: bool, s: Settings): (w: Vad)
    requires |v.window.ring| == WINDOW
    ensures |w.window.ring| == WINDOW
  {
    if frames == [] then v
    else
      var w := Run(v, Init(frames), t, false, s);
      Step(w, Last(frames), t + |frames| - 1, final, s)
  }

  lemma {:induction false} RunLast(v: Vad, frames: seq<bool>, t: nat, final: bool, s: Settings)
    requires frames != [] && |v.window.ring| == WINDOW
    ensures Run(v, frames, t, final, s) ==
              Step(Run(v, Init(frames), t, false, s), Last(frames), t + |frames| - 1, final, s)
  {
    hide Step;
  }

  lemma ExtendsSelf(segments: seq<Segment>)
    ensures Extends(segments, segments)
  {
  }

  lemma ExtendsThen(a: seq<Segment>, b: seq<Segment>, c: seq<Segment>)
    requires Extends(a, b) && Extends(b, c)
    ensures Extends(a, c)
  {
  }

  lemma {:induction false} RunOk(v: Vad, frames: seq<bool>, t: nat, final: bool, s: Settings)
    requires VadOk(v, t)
    ensures VadOk(Run(v, frames, t, final, s), t + |frames|)
    ensures Extends(v.segments, Run(v, frames, t, final, s).segments)
    ensures ShortEnough(v, t, s) ==> ShortEnough(Run(v, frames, t, final, s), t + |frames|, s)
  {
    hide Step, ShortEnough, Sum, Extends;
    if frames == [] {
      ExtendsSelf(v.segments);
    } else {
      RunOk(v, Init(frames), t, false, s);
      var w, u := Run(v, Init(frames), t, false, s), t + |frames| - 1;
      StepOk(w, Last(frames), u, final, s);
      StepExtends(w, Last(frames), u, final, s);
      ExtendsThen(v.segments, w.segments, Step(w, Last(frames), u, final, s).segments);
      if ShortEnough(v, t, s) { StepShort(w, Last(frames), u, final, s); }
    }
  }

  /** A run may be cut anywhere. */
  lemma {:induction false} RunConcat(v: Vad, a: seq<bool>, b: seq<bool>, t: nat, final: bool, s: Settings)
    requires |v.window.ring| == WINDOW && b != []
    ensures Run(v, a + b, t, final, s) == Run(Run(v, a, t, false, s), b, t + |a|, final, s)
  {
    hide Step;
    assert Init(a + b) == a + Init(b) && Last(a + b) == Last(b);
    if Init(b) == [] {
      assert a + Init(b) == a;
    } else {
      RunConcat(v, a, Init(b), t, false, s);
    }
  }

  /** Every run from the start: the segments are non-empty, ordered, disjoint, within the frames and short enough,
      and all but possibly the last are closed. */
  lemma {:induction false} RunFromStart(frames: seq<bool>, final: bool, s: Settings)
    ensures var v := Run(FreshVad(), frames, 0, final, s);
            && VadOk(v, |frames|) && Ordered(v.segments)
            && (forall i :: 0 <= i < |v.segments| ==>
                  && v.segments[i].end <= |frames|
                  && v.segments[i].end - v.segments[i].start <= LongestSegment(s)
                  && (i < |v.segments| - 1 ==> v.segments[i].closed))
  {
    hide Sum, Run, Step;
    FreshOk();
    RunOk(FreshVad(), frames, 0, final, s);
    var v := Run(FreshVad(), frames, 0, final, s);
    forall i | 0 <= i < |v.segments|
      ensures v.segments[i].end <= |frames|
    {
      if i < |v.segments| - 1 { assert v.segments[i].end <= Last(v.segments).start; }
    }
  }

  // ---------- a segment that is never closed ----------

  function BitsOf(frames: seq<bool>): (r: seq<nat>)
    ensures |r| == |frames|
  {
    if frames == [] then [] else BitsOf(Init(frames)) + [Bit(Last(frames))]
  }

  function SpeechCount(frames: seq<bool>): nat {
    if frames == [] then 0 else SpeechCount(Init(frames)) + Bit(Last(frames))
  }

  lemma {:induction false} SumOfBits(frames: seq<bool>)
    ensures Sum(BitsOf(frames)) == SpeechCount(frames)
  {
    if frames != [] {
      SumOfBits(Init(frames));
      SumConcat(BitsOf(Init(frames)), [Bit(Last(frames))]);
      OneBit(Bit(Last(frames)));
    }
  }

  lemma OneBit(b: nat)
    ensures Sum([b]) == b
  {
    assert [b][1..] == [];
  }

  lemma {:induction false} DropZero(n: nat)
    requires n > 0
    ensures Zeros(n)[1..] == Zeros(n - 1)
  {
  }

  /** The window after up to WINDOW frames. */
  function FilledRing(frames: seq<bool>): (r: seq<nat>)
    requires |frames| <= WINDOW
    ensures |r| == WINDOW
  {
    Zeros(WINDOW - |frames|) + BitsOf(frames)
  }

  /** While the window fills up, its sum counts the speech frames. */
  lemma {:induction false} RingFills(frames: seq<bool>)
    requires 0 < |frames| <= WINDOW
    ensures FilledRing(Init(frames))[1..] + [Bit(Last(frames))] == FilledRing(frames)
    ensures Sum(FilledRing(frames)) == SpeechCount(frames)
  {
    hide Sum, Zeros;
    SumConcat(Zeros(WINDOW - |frames|), BitsOf(frames));
    SumZeros(WINDOW - |frames|);
    SumOfBits(frames);
    DropZero(WINDOW - |frames| + 1);
    assert BitsOf(frames) == BitsOf(Init(frames)) + [Bit(Last(frames))];
  }

  lemma {:induction false} SlideFills(frames: seq<bool>)
    requires 0 < |frames| <= WINDOW
    ensures Slide(Window(FilledRing(Init(frames)), false), Last(frames))
            == (Window(FilledRing(frames), SpeechCount(frames) >= TO_SPEECH), if SpeechCount(frames) >= TO_SPEECH
                then SilToSpeech else SilToSil)
  {
    hide Sum, FilledRing, SpeechCount;
    RingFills(frames);
  }

  function FilledVad(frames: seq<bool>): Vad
    requires |frames| <= WINDOW
  {
    FreshVad().(window := Window(FilledRing(frames), false), silence := |frames|)
  }

  /** Before the threshold there is no segment. */
  lemma {:induction false} WindowFills(frames: seq<bool>, s: Settings)
    requires |frames| <= WINDOW && SpeechCount(frames) < TO_SPEECH
    ensures Run(FreshVad(), frames, 0, false, s) == FilledVad(frames)
  {
    hide Slide, FilledRing;
    if frames == [] {
      assert FilledRing(frames) == Zeros(WINDOW) by { NothingFilled(); }
    } else {
      WindowFills(Init(frames), s);
      SlideFills(frames);
    }
  }

  lemma NothingFilled()
    ensures FilledRing([]) == Zeros(WINDOW)
  {
  }

  /** The final frame of an utterance that fills no more than the window opens a segment, which then stays open, if and
      only if it brings the number of speech frames to the threshold. */
  lemma {:induction false} NeverClosed(frames: seq<bool>, s: Settings)
    requires 0 < |frames| <= WINDOW && SpeechCount(Init(frames)) < TO_SPEECH
    ensures IsOpen(Run(FreshVad(), frames, 0, true, s).segments) <==> SpeechCount(frames) == TO_SPEECH
  {
    hide Slide, FilledRing;
    WindowFills(Init(frames), s);
    SlideFills(frames);
  }

  function AllSpeech(n: nat): (r: seq<bool>)
    ensures |r| == n && SpeechCount(r) == n
  {
    if n == 0 then [] else Snoc(AllSpeech(n - 1), true); AllSpeech(n - 1) + [true]
  }

  /** An utterance of exactly as many speech frames as the threshold ends with its only segment open. */
  lemma {:induction false} OnlySpeechStaysOpen(s: Settings)
    ensures IsOpen(Run(FreshVad(), AllSpeech(TO_SPEECH), 0, true, s).segments)
  {
    hide Run;
    var frames := AllSpeech(TO_SPEECH);
    Snoc(AllSpeech(TO_SPEECH - 1), true);
    assert Init(frames) == AllSpeech(TO_SPEECH - 1);
    NeverClosed(frames, s);
  }

  // ---------- reports ----------

  /** A report in ms; -1 stands for a start or an end that is not known in this call. */
  type Report = (int, int)

  function Ms(frame: nat): int {
    frame * FRAME_MS
  }

  /** The online reporting loop from segment `i` on: the reports, the number of segments reported to their end, and
      whether the next report begins a segment. */
  function Online(segments: seq<Segment>, i: nat, next: bool): (seq<Report>, nat, bool)
    requires i <= |segments|
    decreases |segments| - i
  {
    if i == |segments| then ([], 0, next)
    else
      var seg := segments[i];
      if !next && !seg.closed then Online(segments, i + 1, next)
      else
        var start := if next then Ms(seg.start) else -1;
        var (reports, closed, next') := Online(segments, i + 1, seg.closed);
        ([(start, if seg.closed then Ms(seg.end) else -1)] + reports, (if seg.closed then 1 else 0) + closed, next')
  }

  function Offline(segments: seq<Segment>): seq<Report> {
    if segments == [] then [] else Offline(Init(segments)) + [(Ms(Last(segments).start), Ms(Last(segments).end))]
  }

  /** Stitching reports together, as the sorted batch splitter does (audio.cpp:1198-1224). */
  datatype Stitch = Stitch(spans: seq<Report>, start: int, end: int)

  function Add(st: Stitch, report: Report): Stitch {
    var start := if report.0 != -1 then report.0 else st.start;
    var end := if report.1 != -1 then report.1 else st.end;
    if start != -1 && end != -1 then Stitch(st.spans + [(start, end)], -1, -1) else Stitch(st.spans, start, end)
  }

  function AddAll(st: Stitch, reports: seq<Report>): Stitch
    decreases reports
  {
    if reports == [] then st else AddAll(Add(st, reports[0]), reports[1..])
  }

  lemma {:induction false} AddAllConcat(st: Stitch, a: seq<Report>, b: seq<Report>)
    ensures AddAll(st, a + b) == AddAll(AddAll(st, a), b)
    decreases a
  {
    if a == [] {
      assert a + b == b;
    } else {
      assert (a + b)[1..] == a[1..] + b;
      AddAllConcat(Add(st, a[0]), a[1..], b);
    }
  }

  ghost predicate OnlyLastOpen(segments: seq<Segment>) {
    forall i :: 0 <= i < |segments| - 1 ==> segments[i].closed
  }

  predicate IsOpen(segments: seq<Segment>) {
    segments != [] && !Last(segments).closed
  }

  /** What the reports say once all segments so far have been reported: the closed ones, and the start of an open
      one. */
  function Told(segments: seq<Segment>): Stitch {
    if IsOpen(segments) then Stitch(Offline(Init(segments)), Ms(Last(segments).start), -1)
    else Stitch(Offline(segments), -1, -1)
  }

  /** Segments before `i` are told to their end; if `next` is false the start of segment `i` is told too. */
  function ToldUpTo(segments: seq<Segment>, i: nat, next: bool): Stitch
    requires i <= |segments| && (!next ==> i < |segments|)
  {
    Stitch(Offline(segments[..i]), if next then -1 else Ms(segments[i].start), -1)
  }

  lemma {:induction false} OnlineTells(segments: seq<Segment>, i: nat, next: bool)
    requires OnlyLastOpen(segments) && i <= |segments| && (!next || IsOpen(segments) ==> i < |segments|)
    ensures var (reports, closed, next') := Online(segments, i, next);
            && AddAll(ToldUpTo(segments, i, next), reports) == Told(segments)
            && next' == !IsOpen(segments)
            && i + closed == if IsOpen(segments) then |segments| - 1 else |segments|
    decreases |segments| - i
  {
    if i == |segments| {
      assert segments[..i] == segments;
    } else {
      var seg := segments[i];
      assert Init(segments[..i + 1]) == segments[..i] && Last(segments[..i + 1]) == seg;
      if !next && !seg.closed {
        assert i == |segments| - 1 && segments[..i] == Init(segments);
        assert Online(segments, i + 1, next) == ([], 0, next);
      } else if seg.closed {
        OnlineTells(segments, i + 1, true);
        var (reports, closed, next') := Online(segments, i + 1, true);
        var first := (if next then Ms(seg.start) else -1, Ms(seg.end));
        assert Add(ToldUpTo(segments, i, next), first) == ToldUpTo(segments, i + 1, true);
        assert ([first] + reports)[1..] == reports;
      } else {
        assert i == |segments| - 1 && segments[..i] == Init(segments);
        assert Online(segments, i + 1, false) == ([], 0, false);
        assert AddAll(ToldUpTo(segments, i, next), [(Ms(seg.start), -1)]) ==
                 Add(ToldUpTo(segments, i, next), (Ms(seg.start), -1));
      }
    }
  }

  // ---------- call by call ----------

  /** The state between online calls: the machine, the next frame, the reporting state, and all reports made. */
  datatype Session = Session(vad: Vad, t: nat, offset: nat, next: bool, reports: seq<Report>)

  function StartSession(): Session {
    Session(FreshVad(), 0, 0, true, [])
  }

  ghost predicate SessionOk(c: Session) {
    && VadOk(c.vad, c.t)
    && c.next == !IsOpen(c.vad.segments)
    && c.offset == (if IsOpen(c.vad.segments) then |c.vad.segments| - 1 else |c.vad.segments|)
    && AddAll(Stitch([], -1, -1), c.reports) == Told(c.vad.segments)
  }

  /** One online call: its frames, then its reports. */
  function Call(c: Session, frames: seq<bool>, final: bool, s: Settings): Session
    requires |c.vad.window.ring| == WINDOW
  {
    var v := Run(c.vad, frames, c.t, final, s);
    if c.offset > |v.segments| then c
    else
      var (reports, closed, next) := Online(v.segments, c.offset, c.next);
      Session(v, c.t + |frames|, c.offset + closed, next, c.reports + reports)
  }

  lemma {:induction false} OfflineSame(a: seq<Segment>, b: seq<Segment>)
    requires |a| == |b| && forall i :: 0 <= i < |a| ==> a[i].start == b[i].start && a[i].end == b[i].end
    ensures Offline(a) == Offline(b)
  {
    if a != [] { OfflineSame(Init(a), Init(b)); }
  }

  /** What was told stays true when the segments grow. */
  lemma {:induction false} ToldStays(before: seq<Segment>, after: seq<Segment>)
    requires Extends(before, after) && OnlyLastOpen(before)
    ensures var i := if IsOpen(before) then |before| - 1 else |before|;
            Told(before) == ToldUpTo(after, i, !IsOpen(before)) && (IsOpen(after) ==> i < |after|)
  {
    var i := if IsOpen(before) then |before| - 1 else |before|;
    OfflineSame(before[..i], after[..i]);
    assert before[..|before|] == before;
  }

  lemma {:induction false} OpenIffInSpeech(v: Vad, t: nat)
    requires VadOk(v, t)
    ensures OnlyLastOpen(v.segments) && (IsOpen(v.segments) <==> v.inSpeech)
  {
    hide Sum;
  }

  lemma {:induction false} CallOk(c: Session, frames: seq<bool>, final: bool, s: Settings)
    requires SessionOk(c)
    ensures SessionOk(Call(c, frames, final, s))
    ensures Call(c, frames, final, s).vad == Run(c.vad, frames, c.t, final, s)
    ensures Call(c, frames, final, s).t == c.t + |frames|
  {
    hide Run, VadOk, Told, ToldUpTo, Online, AddAll;
    assert |c.vad.window.ring| == WINDOW by { RingSize(c.vad, c.t); }
    var v := Run(c.vad, frames, c.t, final, s);
    RunOk(c.vad, frames, c.t, final, s);
    OpenIffInSpeech(c.vad, c.t);
    OpenIffInSpeech(v, c.t + |frames|);
    ToldStays(c.vad.segments, v.segments);
    OnlineTells(v.segments, c.offset, c.next);
    var (reports, closed, next) := Online(v.segments, c.offset, c.next);
    AddAllConcat(Stitch([], -1, -1), c.reports, reports);
  }

  lemma RingSize(v: Vad, t: nat)
    requires VadOk(v, t)
    ensures |v.window.ring| == WINDOW
  {
  }

  function Flatten(calls: seq<seq<bool>>): seq<bool> {
    if calls == [] then [] else Flatten(Init(calls)) + Last(calls)
  }

  /** All calls of an utterance, the last one final. */
  function Calls(calls: seq<seq<bool>>, final: bool, s: Settings): (c: Session)
    ensures |c.vad.window.ring| == WINDOW
  {
    if calls == [] then StartSession() else Call(Calls(Init(calls), false, s), Last(calls), final, s)
  }

  lemma {:induction false} CallsAreOneRun(calls: seq<seq<bool>>, final: bool, s: Settings)
    requires forall i :: 0 <= i < |calls| ==> calls[i] != []
    ensures SessionOk(Calls(calls, final, s))
    ensures Calls(calls, final, s).vad == Run(FreshVad(), Flatten(calls), 0, final, s)
    ensures Calls(calls, final, s).t == |Flatten(calls)|
  {
    hide Run, VadOk, Call;
    if calls == [] {
      FreshOk();
      assert SessionOk(StartSession()) by { StartOk(); }
      assert Run(FreshVad(), [], 0, final, s) == FreshVad() by { EmptyRun(FreshVad(), 0, final, s); }
    } else {
      CallsAreOneRun(Init(calls), false, s);
      CallOk(Calls(Init(calls), false, s), Last(calls), final, s);
      RunConcat(FreshVad(), Flatten(Init(calls)), Last(calls), 0, final, s);
    }
  }

  lemma StartOk()
    ensures SessionOk(StartSession())
  {
    FreshOk();
  }

  lemma EmptyRun(v: Vad, t: nat, final: bool, s: Settings)
    requires |v.window.ring| == WINDOW
    ensures Run(v, [], t, final, s) == v
  {
  }

  /** However the frames are cut into calls, the stitched online reports are the segments one offline call over all
      frames returns; only a segment opened by the very last frame is told without an end. */
  lemma {:induction false} OnlineIsOffline(calls: seq<seq<bool>>, s: Settings)
    requires calls != [] && forall i :: 0 <= i < |calls| ==> calls[i] != []
    ensures var told := AddAll(Stitch([], -1, -1), Calls(calls, true, s).reports);
            var segments := Run(FreshVad(), Flatten(calls), 0, true, s).segments;
            if IsOpen(segments) then
              told == Stitch(Init(Offline(segments)), Ms(Last(segments).start), -1)
              && Last(segments).end == |Flatten(calls)|
            else told == Stitch(Offline(segments), -1, -1)
  {
    hide Step, VadOk, Run, Calls, Online, AddAll, Flatten;
    CallsAreOneRun(calls, true, s);
    var frames := Flatten(calls);
    var v := Run(FreshVad(), frames, 0, true, s);
    OpenIffInSpeech(v, |frames|);
    if IsOpen(v.segments) {
      InitOffline(v.segments);
      FlattenSome(calls);
      FreshOk();
      RunOk(FreshVad(), Init(frames), 0, false, s);
      RunLast(FreshVad(), frames, 0, true, s);
      FinalFrameCloses(Run(FreshVad(), Init(frames), 0, false, s), Last(frames), |frames| - 1, s);
    }
  }

  lemma InitOffline(segments: seq<Segment>)
    requires segments != []
    ensures Offline(segments) != [] && Init(Offline(segments)) == Offline(Init(segments))
  {
  }

  lemma FlattenSome(calls: seq<seq<bool>>)
    requires calls != [] && Last(calls) != []
    ensures Flatten(calls) != []
  {
  }
}
