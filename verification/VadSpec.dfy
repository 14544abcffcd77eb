/** Voice activity endpointing (e2e-vad.h) as a state machine over speech/silence frames, with the default
    options of VADXOptions: frames of 10 ms, a window of 20 frames with thresholds of 15, multi-utterance mode. */
module VadSpec {

  const WINDOW: nat := 20        // window_size_ms / frame_in_ms
  const TO_SPEECH: nat := 15     // sil_to_speech_time_thres / frame_in_ms
  const TO_SILENCE: nat := 15    // speech_to_sil_time_thres / frame_in_ms
  const LATENCY: nat := 40       // the window plus lookback_time_start_point / frame_in_ms
  const LOOKAHEAD: nat := 10     // lookahead_time_end_point / frame_in_ms
  const FRAME_MS: nat := 10      // frame_in_ms

  // ---------- the window detector ----------

  datatype Change = SpeechToSpeech | SpeechToSil | SilToSil | SilToSpeech

  /** The decisions of the last frames, oldest first, and the state the window is in. */
  datatype Window = Window(ring: seq<nat>, speech: bool)

  function Sum(ring: seq<nat>): nat {
    if ring == [] then 0 else ring[0] + Sum(ring[1..])
  }

  function Bit(speech: bool): nat {
    if speech then 1 else 0
  }

  function Zeros(n: nat): (r: seq<nat>)
    ensures |r| == n && forall i :: 0 <= i < n ==> r[i] == 0
  {
    if n == 0 then [] else [0] + Zeros(n - 1)
  }

  function FreshWindow(): Window {
    Window(Zeros(WINDOW), false)
  }

  function Slide(w: Window, speech: bool): (Window, Change)
    requires w.ring != []
  {
    var ring := w.ring[1..] + [Bit(speech)];
    if !w.speech && Sum(ring) >= TO_SPEECH then (Window(ring, true), SilToSpeech)
    else if w.speech && Sum(ring) <= TO_SILENCE then (Window(ring, false), SpeechToSil)
    else (Window(ring, w.speech), if w.speech then SpeechToSpeech else SilToSil)
  }

  ghost predicate Bits(ring: seq<nat>) {
    forall i :: 0 <= i < |ring| ==> ring[i] <= 1
  }

  lemma {:induction false} SumConcat(a: seq<nat>, b: seq<nat>)
    ensures Sum(a + b) == Sum(a) + Sum(b)
  {
    if a == [] {
      assert a + b == b;
    } else {
      assert (a + b)[1..] == a[1..] + b;
      SumConcat(a[1..], b);
    }
  }

  lemma {:induction false} SumBits(ring: seq<nat>)
    requires Bits(ring)
    ensures Sum(ring) <= |ring|
  {
    if ring != [] { SumBits(ring[1..]); }
  }

  lemma {:induction false} SumZeros(n: nat)
    ensures Sum(Zeros(n)) == 0
  {
    if n > 0 { SumZeros(n - 1); }
  }

  /** One frame more changes the number of speech frames in the window by at most one. */
  lemma {:induction false} SlideSum(w: Window, speech: bool)
    requires w.ring != [] && Bits(w.ring)
    ensures var ring := Slide(w, speech).0.ring;
            |ring| == |w.ring| && Bits(ring) && Sum(ring) <= Sum(w.ring) + Bit(speech) <= Sum(ring) + 1
  {
    SumConcat(w.ring[1..], [Bit(speech)]);
    assert [Bit(speech)][1..] == [];
  }

  // ---------- the endpointing state machine ----------

  /** Frames `start` to `end - 1`. */
  datatype Segment = Segment(start: nat, end: nat, closed: bool)

  /** `silence` counts the silence frames since the window last left speech or silence was reset; `buffered` is the
      first frame still in the data buffer; `ends` counts detected end points. */
  datatype Vad = Vad(window: Window, inSpeech: bool, buffered: nat, start: nat, silence: nat, ends: nat,
                     segments: seq<Segment>)

  function FreshVad(): Vad { Vad(FreshWindow(), false, 0, 0, 0, 0, []) }

  /** The settings of one call: silence (ms) that ends a segment, beyond the window's own, and the longest segment
      in frames. */
  datatype Settings = Settings(endSilence: int, maxFrames: nat)

  function Max(a: int, b: int): int {
    if a < b then b else a
  }

  /** How far before the current frame a silence end point lies. */
  function Lookback(s: Settings): nat {
    Max(0, s.endSilence / FRAME_MS - LOOKAHEAD - 1)
  }

  /** The open segment grows up to and including frame `t`. */
  function Grow(v: Vad, t: nat): Vad {
    if v.segments == [] then v
    else
      var n := |v.segments| - 1;
      v.(segments := v.segments[n := v.segments[n].(end := t + 1)], buffered := t + 1)
  }

  /** The open segment ends with frame `t`, and detection starts afresh. */
  function Close(v: Vad, t: nat): Vad {
    var g := Grow(v, t);
    if g.segments == [] then g
    else
      var n := |g.segments| - 1;
      Vad(FreshWindow(), false, g.buffered, 0, 0, g.ends + 1, g.segments[n := g.segments[n].(closed := true)])
  }

  /** A segment opens at the look-back point and already holds the frames up to `t`. */
  function Open(v: Vad, t: nat): Vad {
    var s := Max(v.buffered, t - LATENCY);
    v.(inSpeech := true, start := s, buffered := t + 1, segments := v.segments + [Segment(s, t + 1, false)])
  }

  function TooLong(v: Vad, t: nat, s: Settings): bool {
    t + 1 - v.start > s.maxFrames
  }

  /** One frame inside a segment, after the window has moved. */
  function InSpeechStep(w: Vad, change: Change, t: nat, final: bool, s: Settings): Vad {
    if change != SilToSil then
      if TooLong(w, t, s) || final then Close(w, t) else Grow(w, t)
    else if w.silence * FRAME_MS >= s.endSilence then Close(w, Max(0, t - Lookback(s)))
    else if TooLong(w, t, s) || final then Close(w, t)
    else if w.silence <= LOOKAHEAD then Grow(w, t)
    else w
  }

  /** One frame outside of segments. */
  function SilenceStep(w: Vad, change: Change, t: nat, final: bool): Vad {
    if change == SilToSpeech then Open(w, t)
    else if change == SilToSil then
      if final && w.ends == 0 then
        // no speech at all: an end point without a segment
        Vad(FreshWindow(), false, Max(w.buffered, t - 1), 0, 0, 1, w.segments)
      else w.(buffered := Max(w.buffered, t - LATENCY))
    else w
  }

  /** One frame. */
  function Step(v: Vad, speech: bool, t: nat, final: bool, s: Settings): (w: Vad)
    requires |v.window.ring| == WINDOW
    ensures |w.window.ring| == WINDOW
  {
    var (window, change) := Slide(v.window, speech);
    var w := v.(window := window, silence := if change == SilToSil then v.silence + 1 else 0);
    if v.inSpeech then InSpeechStep(w, change, t, final, s) else SilenceStep(w, change, t, final)
  }

  // ---------- what every frame keeps ----------

  ghost predicate Ordered(segments: seq<Segment>) {
    && (forall i :: 0 <= i < |segments| ==> segments[i].start < segments[i].end)
    && forall i, j :: 0 <= i < j < |segments| ==> segments[i].end <= segments[j].start
  }

  /** The frames of the open segment that silence has held back. */
  function HeldBack(silence: nat): nat {
    if silence <= LOOKAHEAD then 0 else silence - LOOKAHEAD
  }

  /** Before frame `t`. */
  ghost predicate VadOk(v: Vad, t: nat) {
    && |v.window.ring| == WINDOW && Bits(v.window.ring)
    && v.buffered <= t
    && Ordered(v.segments)
    && (v.segments != [] ==> v.segments[|v.segments| - 1].end <= v.buffered)
    && (forall i :: 0 <= i < |v.segments| ==> (v.segments[i].closed <==> i < |v.segments| - 1 || !v.inSpeech))
    && if v.inSpeech then
         && v.segments != [] && v.segments[|v.segments| - 1].start == v.start
            && v.segments[|v.segments| - 1].end == v.buffered
         && (v.window.speech ==> v.silence == 0)
         && v.buffered + HeldBack(v.silence) == t
       else !v.window.speech && v.buffered + Sum(v.window.ring) <= t
  }

  lemma FreshOk()
    ensures VadOk(FreshVad(), 0)
  {
    SumZeros(WINDOW);
  }

  lemma {:induction false} CloseOk(v: Vad, w: Vad, t: nat, e: nat)
    requires VadOk(v, t) && v.inSpeech && v.buffered <= e <= t
    requires w.segments == v.segments && w.start == v.start
    ensures VadOk(Close(w, e), t + 1) && !Close(w, e).inSpeech
  {
    SumZeros(WINDOW);
    var n := |v.segments| - 1;
    var c := Close(w, e);
    assert c.segments == v.segments[n := Segment(v.start, e + 1, true)];
  }

  lemma {:induction false} GrowOk(v: Vad, w: Vad, t: nat)
    requires VadOk(v, t) && v.inSpeech && v.buffered == t
    requires w == v.(window := w.window, silence := w.silence) && |w.window.ring| == WINDOW && Bits(w.window.ring)
    requires w.silence <= LOOKAHEAD && (w.window.speech ==> w.silence == 0)
    ensures VadOk(Grow(w, t), t + 1)
  {
    var n := |v.segments| - 1;
    assert Grow(w, t).segments == v.segments[n := Segment(v.start, t + 1, false)];
  }

  /** `w` is `v` with the window moved by one frame. */
  ghost predicate Slid(v: Vad, w: Vad, change: Change) {
    && w == v.(window := w.window, silence := if change == SilToSil then v.silence + 1 else 0)
    && |w.window.ring| == WINDOW && Bits(w.window.ring) && Sum(w.window.ring) <= Sum(v.window.ring) + 1
    && (w.window.speech <==> change == SilToSpeech || change == SpeechToSpeech)
    && (v.window.speech <==> change == SpeechToSil || change == SpeechToSpeech)
    && (change == SilToSpeech ==> Sum(w.window.ring) >= TO_SPEECH)
  }

  lemma {:induction false} SlideOk(v: Vad, speech: bool)
    requires |v.window.ring| == WINDOW && Bits(v.window.ring)
    ensures var (window, change) := Slide(v.window, speech);
            Slid(v, v.(window := window, silence := if change == SilToSil then v.silence + 1 else 0), change)
  {
    hide Sum;
    SlideSum(v.window, speech);
  }

  lemma {:induction false} InSpeechOk(v: Vad, w: Vad, change: Change, t: nat, final: bool, s: Settings)
    requires VadOk(v, t) && v.inSpeech && Slid(v, w, change)
    ensures VadOk(InSpeechStep(w, change, t, final, s), t + 1)
  {
    hide Sum, Close, Grow, Ordered, Bits;
    if change == SilToSil {
      CloseOk(v, w, t, t);
      if w.silence * FRAME_MS >= s.endSilence {
        CloseOk(v, w, t, t - Lookback(s));
      } else if !(TooLong(w, t, s) || final) && w.silence <= LOOKAHEAD {
        GrowOk(v, w, t);
      }
    } else if TooLong(w, t, s) || final {
      CloseOk(v, w, t, t);
    } else {
      SpeechGrows(v, w, change, t);
    }
  }

  lemma {:induction false} SilenceOk(v: Vad, w: Vad, change: Change, t: nat, final: bool)
    requires VadOk(v, t) && !v.inSpeech && Slid(v, w, change)
    ensures VadOk(SilenceStep(w, change, t, final), t + 1)
  {
    hide Sum, Ordered;
    SumBits(w.window.ring);
    SumZeros(WINDOW);
    if change == SilToSpeech { OpenOk(v, w, t); }
  }

  /** Segments stay non-empty, ordered and disjoint, and only the last can be open; a new one starts after what is
      already buffered away; the open one has every frame but those held back by silence. */
  lemma {:induction false} StepOk(v: Vad, speech: bool, t: nat, final: bool, s: Settings)
    requires VadOk(v, t)
    ensures VadOk(Step(v, speech, t, final, s), t + 1)
  {
    hide Slid, Slide, InSpeechStep, SilenceStep;
    SlideOk(v, speech);
    var (window, change) := Slide(v.window, speech);
    var w := v.(window := window, silence := if change == SilToSil then v.silence + 1 else 0);
    if v.inSpeech { InSpeechOk(v, w, change, t, final, s); } else { SilenceOk(v, w, change, t, final); }
  }

  lemma {:induction false} SpeechGrows(v: Vad, w: Vad, change: Change, t: nat)
    requires VadOk(v, t) && v.inSpeech && change != SilToSil
    requires w == v.(window := w.window, silence := 0) && |w.window.ring| == WINDOW && Bits(w.window.ring)
    ensures VadOk(Grow(w, t), t + 1)
  {
    var n := |v.segments| - 1;
    assert Grow(w, t).segments == v.segments[n := Segment(v.start, t + 1, false)];
  }

  lemma {:induction false} OpenOk(v: Vad, w: Vad, t: nat)
    requires VadOk(v, t) && !v.inSpeech && w == v.(window := w.window, silence := 0)
    requires |w.window.ring| == WINDOW && Bits(w.window.ring) && w.window.speech && v.buffered < t
    ensures VadOk(Open(w, t), t + 1)
  {
    var s := Max(v.buffered, t - LATENCY);
    assert Open(w, t).segments == v.segments + [Segment(s, t + 1, false)];
  }
}
