/** Where segments begin and end (e2e-vad.h:670-781): the end that silence brings, wherever it comes, and the
    segment and the report of a whole utterance of silence, speech and silence. */
module VadShapes {
  import opened Sequences
  import opened VadSpec
  import opened VadRuns

  function Min(a: int, b: int): int {
    if a < b then a else b
  }

  // ---------- the end that silence brings ----------

  /** The window after some more frames, as long as no segment ends. */
  function WindowAfter(w: Window, frames: seq<bool>): (r: Window)
    requires |w.ring| == WINDOW
    ensures |r.ring| == WINDOW
  {
    if frames == [] then w else Slide(WindowAfter(w, Init(frames)), Last(frames)).0
  }

  /** The window never turns back to speech. */
  ghost predicate StaysSilent(w: Window, frames: seq<bool>)
    requires |w.ring| == WINDOW
  {
    !w.speech && (frames != [] ==> StaysSilent(w, Init(frames)) && !WindowAfter(w, frames).speech)
  }

  lemma SilentChange(w: Window, speech: bool)
    requires |w.ring| == WINDOW && !w.speech && !Slide(w, speech).0.speech
    ensures Slide(w, speech).1 == SilToSil
  {
  }

  /** The open segment right after the window has left speech. */
  ghost predicate JustLeft(v: Vad, t: nat) {
    VadOk(v, t) && v.inSpeech && !v.window.speech && v.silence == 0
  }

  /** As long as silence neither ends the segment nor makes it too long, the segment takes the look-ahead frames
      only. */
  function HeldBackBy(v: Vad, frames: seq<bool>, t: nat): Vad
    requires |v.window.ring| == WINDOW && v.segments != []
  {
    var end := t + Min(|frames|, LOOKAHEAD);
    v.(window := WindowAfter(v.window, frames), silence := |frames|, buffered := end,
       segments := Init(v.segments) + [Segment(v.start, end, false)])
  }

  lemma {:induction false} NothingHeldBack(v: Vad, t: nat)
    requires JustLeft(v, t)
    ensures v.segments != [] && HeldBackBy(v, [], t) == v
  {
    hide Sum, Ordered;
    assert v.segments == Init(v.segments) + [Last(v.segments)];
  }

  lemma {:induction false} OneHeldBack(v: Vad, frames: seq<bool>, t: nat, s: Settings)
    requires JustLeft(v, t) && v.segments != [] && frames != [] && StaysSilent(v.window, frames)
    requires |frames| * FRAME_MS < s.endSilence && t + |frames| - v.start <= s.maxFrames
    ensures Step(HeldBackBy(v, Init(frames), t), Last(frames), t + |frames| - 1, false, s) == HeldBackBy(v, frames, t)
  {
    hide Sum, Ordered, Slide, VadOk;
    RingOk(v, t);
    var w := HeldBackBy(v, Init(frames), t);
    StaysNow(v.window, Init(frames));
    SilentChange(w.window, Last(frames));
    var w' := w.(window := WindowAfter(v.window, frames), silence := |frames|);
    if |frames| <= LOOKAHEAD {
      assert Grow(w', t + |frames| - 1).segments == Init(v.segments) + [Segment(v.start, t + |frames|, false)];
    }
  }

  lemma StaysNow(w: Window, frames: seq<bool>)
    requires |w.ring| == WINDOW && StaysSilent(w, frames)
    ensures !WindowAfter(w, frames).speech
  {
  }

  lemma {:induction false} SilenceHolds(v: Vad, frames: seq<bool>, t: nat, s: Settings)
    requires JustLeft(v, t) && StaysSilent(v.window, frames)
    requires |frames| * FRAME_MS < s.endSilence || frames == []
    requires t + |frames| - v.start <= s.maxFrames || frames == []
    ensures |v.window.ring| == WINDOW && v.segments != []
    ensures Run(v, frames, t, false, s) == HeldBackBy(v, frames, t)
  {
    hide Step, HeldBackBy, VadOk, WindowAfter;
    NothingHeldBack(v, t);
    RingOk(v, t);
    if frames != [] {
      SilenceHolds(v, Init(frames), t, s);
      OneHeldBack(v, frames, t, s);
    }
  }

  lemma RingOk(v: Vad, t: nat)
    requires VadOk(v, t)
    ensures |v.window.ring| == WINDOW
  {
  }

  /** The end-silence time makes `k` frames, the last one perhaps in part. */
  ghost predicate EndsAfter(s: Settings, k: nat) {
    k > 0 && s.endSilence <= k * FRAME_MS && (k > 1 ==> (k - 1) * FRAME_MS < s.endSilence)
  }

  /** How many frames of the silence belong to the segment: not more than the look-ahead and one, or, if the time is not
      a whole number of frames, two. */
  function Trailing(s: Settings, k: nat): nat {
    Min(k, if s.endSilence == k * FRAME_MS then LOOKAHEAD + 1 else LOOKAHEAD + 2)
  }

  /** Once the window has left speech and does not return to it, the segment is closed by the `k`-th frame of
      silence, and ends with its first frames only. */
  lemma {:induction false} SilenceCloses(v: Vad, frames: seq<bool>, t: nat, k: nat, final: bool, s: Settings)
    requires JustLeft(v, t) && |frames| == k && EndsAfter(s, k) && StaysSilent(v.window, frames)
    requires t + k - 1 - v.start <= s.maxFrames || k == 1
    ensures |v.window.ring| == WINDOW && v.segments != []
    ensures var w := Run(v, frames, t, final, s);
            && w.segments == Init(v.segments) + [Segment(v.start, t + Trailing(s, k), true)]
            && !w.inSpeech && w.window == FreshWindow() && w.ends == v.ends + 1
  {
    hide Step, Run, VadOk, StaysSilent, HeldBackBy, EndsAfter, Trailing, FreshWindow;
    RingOk(v, t);
    SilentBefore(v.window, frames);
    NotEarlier(s, k);
    SilenceHolds(v, Init(frames), t, s);
    LastOfSilence(v, frames, t, k, final, s);
    RunLast(v, frames, t, final, s);
  }

  lemma NotEarlier(s: Settings, k: nat)
    requires EndsAfter(s, k)
    ensures k > 0 && (k > 1 ==> (k - 1) * FRAME_MS < s.endSilence)
  {
  }

  lemma SilentBefore(w: Window, frames: seq<bool>)
    requires |w.ring| == WINDOW && StaysSilent(w, frames)
    ensures frames != [] ==> StaysSilent(w, Init(frames))
  {
  }

  lemma {:induction false} LastOfSilence(v: Vad, frames: seq<bool>, t: nat, k: nat, final: bool, s: Settings)
    requires |v.window.ring| == WINDOW && v.segments != [] && v.inSpeech
    requires |frames| == k && EndsAfter(s, k) && StaysSilent(v.window, frames)
    ensures var w := Step(HeldBackBy(v, Init(frames), t), Last(frames), t + k - 1, final, s);
            && w.segments == Init(v.segments) + [Segment(v.start, t + Trailing(s, k), true)]
            && !w.inSpeech && w.window == FreshWindow() && w.ends == v.ends + 1
  {
    hide Sum, Slide;
    var w := HeldBackBy(v, Init(frames), t);
    StaysNow(v.window, Init(frames));
    SilentChange(w.window, Last(frames));
    var w' := w.(window := WindowAfter(v.window, frames), silence := k);
    var e := Max(0, t + k - 1 - Lookback(s));
    assert e + 1 == t + Trailing(s, k) by { EndIs(s, t, k); }
    assert Close(w', e).segments == Init(v.segments) + [Segment(v.start, e + 1, true)];
  }

  lemma EndIs(s: Settings, t: nat, k: nat)
    requires EndsAfter(s, k)
    ensures Max(0, t + k - 1 - Lookback(s)) + 1 == t + Trailing(s, k)
  {
  }

  /** The frame with which the window leaves speech still belongs to the segment. */
  lemma {:induction false} LeavesSpeech(v: Vad, speech: bool, q: nat, s: Settings)
    requires VadOk(v, q) && v.inSpeech && v.window.speech && !Slide(v.window, speech).0.speech
    requires q + 1 - v.start <= s.maxFrames
    ensures var w := Step(v, speech, q, false, s);
            && JustLeft(w, q + 1) && w.start == v.start && v.segments != [] && Init(w.segments) == Init(v.segments)
            && w.window == Slide(v.window, speech).0 && w.ends == v.ends
  {
    hide Sum;
    StepOk(v, speech, q, false, s);
  }

  /** A segment whose window leaves speech with frame `q`, and that only silence ends, ends at most the look-ahead and
      one frame behind it. */
  lemma {:induction false} SegmentEndsInSilence(v: Vad, speech: bool, frames: seq<bool>, q: nat, k: nat, final: bool,
                                                s: Settings)
    requires VadOk(v, q) && v.inSpeech && v.window.speech && !Slide(v.window, speech).0.speech
    requires |frames| == k && EndsAfter(s, k) && StaysSilent(Slide(v.window, speech).0, frames)
    requires q + k - v.start <= s.maxFrames
    ensures |v.window.ring| == WINDOW && v.segments != []
    ensures var w := Run(v, [speech] + frames, q, final, s);
            && w.segments == Init(v.segments) + [Segment(v.start, q + 1 + Trailing(s, k), true)]
            && !w.inSpeech && w.window == FreshWindow() && w.ends == v.ends + 1
  {
    hide Slide, VadOk, Run, StaysSilent, Step;
    RingOk(v, q);
    LeavesSpeech(v, speech, q, s);
    RunConcat(v, [speech], frames, q, final, s);
    OneFrame(v, speech, q, s);
    SilenceCloses(Step(v, speech, q, false, s), frames, q + 1, k, final, s);
  }

  lemma {:induction false} OneFrame(v: Vad, speech: bool, t: nat, s: Settings)
    requires |v.window.ring| == WINDOW
    ensures Run(v, [speech], t, false, s) == Step(v, speech, t, false, s)
  {
    hide Step;
    assert Init([speech]) == [] && Last([speech]) == speech;
    assert Run(v, Init([speech]), t, false, s) == v;
  }

  // ---------- a whole utterance ----------

  /** The first `n` frames of `c` frames of silence, then `a` of speech, then silence. */
  function Talk(c: nat, a: nat, n: nat): (r: seq<bool>)
    ensures |r| == n && forall i :: 0 <= i < n ==> (r[i] <==> c <= i < c + a)
  {
    seq(n, i requires 0 <= i < n => c <= i < c + a)
  }

  lemma TalkMore(c: nat, a: nat, n: nat)
    ensures Talk(c, a, n + 1) == Talk(c, a, n) + [c <= n < c + a]
    ensures Init(Talk(c, a, n + 1)) == Talk(c, a, n) && Last(Talk(c, a, n + 1)) == (c <= n < c + a)
  {
  }

  function Silence(n: nat): (r: seq<bool>)
    ensures |r| == n && forall i :: 0 <= i < n ==> !r[i]
  {
    if n == 0 then [] else Silence(n - 1) + [false]
  }

  lemma SilenceMore(n: nat)
    requires n > 0
    ensures Init(Silence(n)) == Silence(n - 1) && !Last(Silence(n))
  {
  }

  lemma {:induction false} TalkThenSilence(c: nat, a: nat, n: nat, m: nat)
    requires c + a <= n
    ensures Talk(c, a, n + m) == Talk(c, a, n) + Silence(m)
  {
  }

  /** The window holds the decisions of the last frames before frame `n`. */
  ghost predicate RingIs(ring: seq<nat>, c: nat, a: nat, n: nat) {
    |ring| == WINDOW && forall i :: 0 <= i < WINDOW ==> ring[i] == Bit(c <= n - WINDOW + i < c + a)
  }

  /** The speech frames among them. */
  function Overlap(c: nat, a: nat, n: nat): nat {
    Max(0, Min(c + a, n) - Max(c, n - WINDOW))
  }

  lemma {:induction false} IntervalSum(ring: seq<nat>, lo: nat, hi: nat)
    requires lo <= hi <= |ring| && forall i :: 0 <= i < |ring| ==> ring[i] == Bit(lo <= i < hi)
    ensures Sum(ring) == hi - lo
  {
    if ring != [] {
      IntervalSum(ring[1..], if lo == 0 then 0 else lo - 1, if hi == 0 then 0 else hi - 1);
    }
  }

  lemma {:induction false} OverlapIs(ring: seq<nat>, c: nat, a: nat, n: nat)
    requires RingIs(ring, c, a, n)
    ensures Sum(ring) == Overlap(c, a, n)
  {
    hide Sum;
    var lo: nat := Max(0, Min(WINDOW, c + WINDOW - n));
    var hi: nat := Max(lo, Min(WINDOW, c + a + WINDOW - n));
    forall i | 0 <= i < WINDOW
      ensures ring[i] == Bit(lo <= i < hi)
    {
    }
    IntervalSum(ring, lo, hi);
  }

  lemma {:induction false} RingNext(ring: seq<nat>, c: nat, a: nat, n: nat)
    requires RingIs(ring, c, a, n)
    ensures var ring' := ring[1..] + [Bit(c <= n < c + a)];
            RingIs(ring', c, a, n + 1) && Sum(ring') == Overlap(c, a, n + 1)
  {
    hide Sum, Bit;
    OverlapIs(ring[1..] + [Bit(c <= n < c + a)], c, a, n + 1);
  }

  lemma StartRing(c: nat, a: nat)
    ensures RingIs(FreshWindow().ring, c, a, 0)
  {
  }

  /** Where the segment begins: the look-back before the frame that brings the window to speech. */
  function SegmentStart(c: nat): nat {
    Max(0, c + TO_SPEECH - 1 - LATENCY)
  }

  ghost predicate NotYetSpeech(v: Vad, c: nat, a: nat, n: nat) {
    && RingIs(v.window.ring, c, a, n) && !v.window.speech && !v.inSpeech && v.segments == []
    && v.ends == 0 && v.start == 0 && v.buffered == Max(0, n - 1 - LATENCY)
  }

  ghost predicate Speaking(v: Vad, c: nat, a: nat, n: nat) {
    && RingIs(v.window.ring, c, a, n) && v.window.speech && v.inSpeech && v.silence == 0
    && v.start == SegmentStart(c) && v.segments == [Segment(v.start, n, false)] && v.buffered == n && v.ends == 0
  }

  lemma {:induction false} StaysQuiet(v: Vad, c: nat, a: nat, n: nat, s: Settings)
    requires a > TO_SILENCE && n < c + TO_SPEECH - 1 && NotYetSpeech(v, c, a, n)
    ensures NotYetSpeech(Step(v, c <= n < c + a, n, false, s), c, a, n + 1)
  {
    hide Sum, RingIs;
    RingSize(v.window.ring, c, a, n);
    RingNext(v.window.ring, c, a, n);
  }

  lemma RingSize(ring: seq<nat>, c: nat, a: nat, n: nat)
    requires RingIs(ring, c, a, n)
    ensures |ring| == WINDOW
  {
  }

  lemma {:induction false} Opens(v: Vad, c: nat, a: nat, final: bool, s: Settings)
    requires a > TO_SILENCE && NotYetSpeech(v, c, a, c + TO_SPEECH - 1)
    ensures Speaking(Step(v, true, c + TO_SPEECH - 1, final, s), c, a, c + TO_SPEECH)
  {
    hide Sum, RingIs;
    var n := c + TO_SPEECH - 1;
    RingSize(v.window.ring, c, a, n);
    RingNext(v.window.ring, c, a, n);
  }

  /** The frame with which the window leaves speech. */
  function LeavesAt(c: nat, a: nat): nat {
    c + a + WINDOW - TO_SILENCE - 1
  }

  lemma {:induction false} GoesOn(v: Vad, c: nat, a: nat, n: nat, s: Settings)
    requires a > TO_SILENCE && c + TO_SPEECH <= n < LeavesAt(c, a) && Speaking(v, c, a, n)
    requires n + 1 - SegmentStart(c) <= s.maxFrames
    ensures Speaking(Step(v, c <= n < c + a, n, false, s), c, a, n + 1)
  {
    hide Sum, RingIs;
    RingSize(v.window.ring, c, a, n);
    RingNext(v.window.ring, c, a, n);
  }

  /** One frame more. */
  lemma {:induction false} RunTalk(c: nat, a: nat, n: nat, final: bool, s: Settings)
    ensures |FreshVad().window.ring| == WINDOW
    ensures Run(FreshVad(), Talk(c, a, n + 1), 0, final, s) ==
              Step(Run(FreshVad(), Talk(c, a, n), 0, false, s), c <= n < c + a, n, final, s)
  {
    hide Step, Talk, Run;
    TalkMore(c, a, n);
    RunLast(FreshVad(), Talk(c, a, n + 1), 0, final, s);
  }

  lemma {:induction false} TalkBefore(c: nat, a: nat, n: nat, s: Settings)
    requires a > TO_SILENCE && n < c + TO_SPEECH
    ensures |FreshVad().window.ring| == WINDOW
    ensures NotYetSpeech(Run(FreshVad(), Talk(c, a, n), 0, false, s), c, a, n)
  {
    hide Step, RingIs, Talk, Run;
    if n == 0 {
      StartRing(c, a);
      NoRun(c, a, s);
    } else {
      TalkBefore(c, a, n - 1, s);
      RunTalk(c, a, n - 1, false, s);
      StaysQuiet(Run(FreshVad(), Talk(c, a, n - 1), 0, false, s), c, a, n - 1, s);
    }
  }

  lemma NoRun(c: nat, a: nat, s: Settings)
    ensures |FreshVad().window.ring| == WINDOW && Run(FreshVad(), Talk(c, a, 0), 0, false, s) == FreshVad()
  {
    assert Talk(c, a, 0) == [];
  }

  lemma {:induction false} TalkWhile(c: nat, a: nat, n: nat, s: Settings)
    requires a > TO_SILENCE && c + TO_SPEECH <= n <= LeavesAt(c, a)
    requires n == c + TO_SPEECH || n - SegmentStart(c) <= s.maxFrames
    ensures |FreshVad().window.ring| == WINDOW
    ensures Speaking(Run(FreshVad(), Talk(c, a, n), 0, false, s), c, a, n)
  {
    hide Step, Run, RingIs, Talk, NotYetSpeech, Speaking, SegmentStart, FreshVad;
    RunTalk(c, a, n - 1, false, s);
    if n == c + TO_SPEECH {
      TalkBefore(c, a, n - 1, s);
      Opens(Run(FreshVad(), Talk(c, a, n - 1), 0, false, s), c, a, false, s);
    } else {
      TalkWhile(c, a, n - 1, s);
      GoesOn(Run(FreshVad(), Talk(c, a, n - 1), 0, false, s), c, a, n - 1, s);
    }
  }

  // ---------- how it ends ----------

  /** The last frame of the audio, or one frame more than the longest segment, ends the segment with that frame. */
  lemma {:induction false} SpeechCut(c: nat, a: nat, n: nat, final: bool, s: Settings)
    requires a > TO_SILENCE && c + TO_SPEECH <= n < LeavesAt(c, a)
    requires n == c + TO_SPEECH || n - SegmentStart(c) <= s.maxFrames
    requires final || n + 1 - SegmentStart(c) > s.maxFrames
    ensures Run(FreshVad(), Talk(c, a, n + 1), 0, final, s).segments == [Segment(SegmentStart(c), n + 1, true)]
  {
    hide Talk, Step, Run, Speaking;
    TalkWhile(c, a, n, s);
    RunTalk(c, a, n, final, s);
    var v := Run(FreshVad(), Talk(c, a, n), 0, false, s);
    CutNow(v, c, a, n, final, s);
  }

  lemma {:induction false} CutNow(v: Vad, c: nat, a: nat, n: nat, final: bool, s: Settings)
    requires a > TO_SILENCE && c + TO_SPEECH <= n < LeavesAt(c, a) && Speaking(v, c, a, n)
    requires final || n + 1 - SegmentStart(c) > s.maxFrames
    ensures |v.window.ring| == WINDOW
    ensures Step(v, c <= n < c + a, n, final, s).segments == [Segment(SegmentStart(c), n + 1, true)]
  {
    hide Sum, RingIs;
    RingSize(v.window.ring, c, a, n);
    RingNext(v.window.ring, c, a, n);
  }

  lemma {:induction false} StillSilent(w: Window, c: nat, a: nat, n: nat, m: nat)
    requires RingIs(w.ring, c, a, n) && !w.speech && n > LeavesAt(c, a)
    ensures StaysSilent(w, Silence(m)) && RingIs(WindowAfter(w, Silence(m)).ring, c, a, n + m)
    ensures !WindowAfter(w, Silence(m)).speech
  {
    hide Slide, RingIs, Silence, LeavesAt;
    RingSize(w.ring, c, a, n);
    if m == 0 {
      assert Silence(0) == [];
    } else {
      StillSilent(w, c, a, n, m - 1);
      SilenceMore(m);
      SilentFrame(WindowAfter(w, Silence(m - 1)), c, a, n + m - 1);
    }
  }

  lemma {:induction false} SilentFrame(w: Window, c: nat, a: nat, n: nat)
    requires RingIs(w.ring, c, a, n) && !w.speech && n > LeavesAt(c, a)
    ensures |w.ring| == WINDOW
    ensures var w' := Slide(w, false).0; RingIs(w'.ring, c, a, n + 1) && !w'.speech
  {
    hide Sum, RingIs;
    RingSize(w.ring, c, a, n);
    RingNext(w.ring, c, a, n);
  }

  lemma {:induction false} TurnsSilent(v: Vad, c: nat, a: nat)
    requires a > TO_SILENCE && Speaking(v, c, a, LeavesAt(c, a))
    ensures |v.window.ring| == WINDOW
    ensures var w := Slide(v.window, false).0; !w.speech && RingIs(w.ring, c, a, LeavesAt(c, a) + 1)
  {
    hide Sum, RingIs;
    RingSize(v.window.ring, c, a, LeavesAt(c, a));
    RingNext(v.window.ring, c, a, LeavesAt(c, a));
  }

  /** Silence after the segment changes no segment. */
  ghost predicate Over(v: Vad) {
    |v.window.ring| == WINDOW && Sum(v.window.ring) == 0 && Bits(v.window.ring) && !v.window.speech && !v.inSpeech
    && v.ends > 0
  }

  lemma {:induction false} StaysOver(v: Vad, t: nat, final: bool, s: Settings)
    requires Over(v)
    ensures var w := Step(v, false, t, final, s); Over(w) && w.segments == v.segments
  {
    SlideSum(v.window, false);
  }

  lemma {:induction false} RunOver(v: Vad, m: nat, t: nat, final: bool, s: Settings)
    requires Over(v)
    ensures |v.window.ring| == WINDOW
    ensures var w := Run(v, Silence(m), t, final, s); Over(w) && w.segments == v.segments
  {
    hide Step;
    if m > 0 {
      SilenceMore(m);
      RunOver(v, m - 1, t, false, s);
      StaysOver(Run(v, Silence(m - 1), t, false, s), t + m - 1, final, s);
    }
  }

  lemma FreshIsOver(v: Vad)
    requires v.window == FreshWindow() && !v.inSpeech && v.ends > 0
    ensures Over(v)
  {
    SumZeros(WINDOW);
  }

  /** Up to the frame of silence that ends the segment. */
  lemma {:induction false} EndOfUtterance(c: nat, a: nat, k: nat, final: bool, s: Settings)
    requires a > TO_SILENCE && EndsAfter(s, k) && LeavesAt(c, a) + k - SegmentStart(c) <= s.maxFrames
    ensures var v := Run(FreshVad(), Talk(c, a, LeavesAt(c, a) + 1 + k), 0, final, s);
            && v.segments == [Segment(SegmentStart(c), LeavesAt(c, a) + 1 + Trailing(s, k), true)]
            && Over(v)
  {
    hide Talk, Silence, Slide, Run, Sum, RingIs, StaysSilent, Over, Trailing, EndsAfter, SegmentStart, VadOk,
         FreshWindow, FreshVad, LeavesAt;
    var q := LeavesAt(c, a);
    LeavesLate(c, a);
    TalkWhile(c, a, q, s);
    var v := Run(FreshVad(), Talk(c, a, q), 0, false, s);
    TurnsSilent(v, c, a);
    StillSilent(Slide(v.window, false).0, c, a, q + 1, k);
    FreshOk();
    RunOk(FreshVad(), Talk(c, a, q), 0, false, s);
    SegmentEndsInSilence(v, false, Silence(k), q, k, final, s);
    TalkThenSilence(c, a, q, k + 1);
    FirstOfSilence(k);
    RunConcat(FreshVad(), Talk(c, a, q), [false] + Silence(k), 0, final, s);
    FreshIsOver(Run(v, [false] + Silence(k), q, final, s));
    assert Init(v.segments) == [];
  }

  lemma LeavesLate(c: nat, a: nat)
    requires a > TO_SILENCE
    ensures LeavesAt(c, a) >= c + TO_SPEECH && LeavesAt(c, a) >= c + a
  {
  }

  lemma FirstOfSilence(k: nat)
    ensures Silence(k + 1) == [false] + Silence(k)
  {
  }

  /** An utterance of silence, speech and silence, whatever comes first and however long the silence behind it: one
      segment, from the look-back before the window turned to speech until the look-ahead behind it left it. */
  lemma {:induction false} OneUtterance(c: nat, a: nat, k: nat, m: nat, final: bool, s: Settings)
    requires a > TO_SILENCE && EndsAfter(s, k) && LeavesAt(c, a) + k - SegmentStart(c) <= s.maxFrames
    ensures var end := LeavesAt(c, a) + 1 + Trailing(s, k);
            var segments := Run(FreshVad(), Talk(c, a, LeavesAt(c, a) + 1 + k + m), 0, final, s).segments;
            && segments == [Segment(SegmentStart(c), end, true)]
            && Online(segments, 0, true).0 == [(FRAME_MS * SegmentStart(c), FRAME_MS * end)]
            && Offline(segments) == [(FRAME_MS * SegmentStart(c), FRAME_MS * end)]
  {
    hide Talk, Run, Over;
    var n := LeavesAt(c, a) + 1 + k;
    EndOfUtterance(c, a, k, final && m == 0, s);
    if m == 0 {
      assert Talk(c, a, n + m) == Talk(c, a, n);
    } else {
      TalkThenSilence(c, a, n, m);
      RunConcat(FreshVad(), Talk(c, a, n), Silence(m), 0, final, s);
      RunOver(Run(FreshVad(), Talk(c, a, n), 0, false, s), m, n, final, s);
    }
    OneReport(Segment(SegmentStart(c), LeavesAt(c, a) + 1 + Trailing(s, k), true));
  }

  lemma OneReport(seg: Segment)
    requires seg.closed
    ensures Online([seg], 0, true).0 == [(FRAME_MS * seg.start, FRAME_MS * seg.end)]
    ensures Offline([seg]) == [(FRAME_MS * seg.start, FRAME_MS * seg.end)]
  {
    assert Online([seg], 1, true).0 == [];
    assert Init([seg]) == [] && Last([seg]) == seg;
  }

  /** Half a second of silence, one second of speech and one of silence, with 800 ms of end silence of which the window
      takes 150: the segment is reported from 240 to 1660 ms. */
  lemma {:induction false} SecondOfSpeech()
    ensures var segments := Run(FreshVad(), Talk(50, 100, 250), 0, false, Settings(650, 1500)).segments;
            Online(segments, 0, true).0 == [(240, 1660)]
  {
    hide Run, Talk, Online, Offline;
    OneUtterance(50, 100, 65, 30, false, Settings(650, 1500));
  }
}
