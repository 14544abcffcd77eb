/** The two-pass splitter (audio.cpp:1257-1425): endpoint reports and a sliding audio buffer become online chunks
    and offline segments.  Times in reports are in ms; -1 stands for "not in this report". */
module TwoPassSplit {
  import opened Arithmetic
  import opened Sequences
  import opened VadSpec
  import opened VadRuns
  import Pcm
  import ResampleSpec

  datatype AsrMode = AsrOffline | AsrOnline | AsrTwoPass

  datatype AudioFrame = AudioFrame(isFinal: bool, globalStart: int, globalEnd: int, data: seq<real>)

  // ---------- the protocol of the reports ----------

  /** `open` is the start of the segment in progress, or -1. */
  ghost predicate Protocol(reports: seq<Report>, open: int)
    decreases reports
  {
    reports == [] ||
    var (start, end) := (reports[0].0, reports[0].1);
    if start >= 0 && end >= 0 then open == -1 && start <= end && Protocol(reports[1..], -1)
    else if start >= 0 && end == -1 then open == -1 && Protocol(reports[1..], start)
    else start == -1 && open != -1 && open <= end && Protocol(reports[1..], -1)
  }

  /** Starts lie within the retained audio, ends within the received audio. */
  ghost predicate WithinAudio(reports: seq<Report>, perMs: nat, offset: int, received: nat) {
    forall i :: 0 <= i < |reports| ==>
      && (reports[i].0 != -1 ==> offset <= reports[i].0 * perMs <= received)
      && (reports[i].1 != -1 ==> reports[i].1 * perMs <= received)
  }

  // ---------- what a segment gets ----------

  ghost function Data(frames: seq<AudioFrame>): seq<real> {
    if frames == [] then [] else Data(Init(frames)) + Last(frames).data
  }

  /** Chunks in order, each starting where the one before ends. */
  ghost predicate Contiguous(frames: seq<AudioFrame>, start: int) {
    && (frames != [] ==> frames[0].globalStart == start)
    && forall i :: 0 < i < |frames| ==> frames[i].globalStart == frames[i - 1].globalEnd
  }

  ghost predicate NoneFinal(frames: seq<AudioFrame>) {
    forall i :: 0 <= i < |frames| ==> !frames[i].isFinal
  }

  /** The samples of the stream from millisecond `a` to `b`. */
  ghost function Span(stream: seq<real>, perMs: nat, a: nat, b: nat): seq<real>
    requires a * perMs <= b * perMs <= |stream|
  {
    stream[a * perMs..b * perMs]
  }

  /** `whole`: the segment came in one report. */
  datatype Served = Served(start: nat, end: nat, online: seq<AudioFrame>, offline: seq<AudioFrame>, whole: bool)

  /** A segment's offline frame is exactly its samples; its online chunks are contiguous, exactly the last one is final,
      and their samples begin with the segment's. */
  ghost predicate ServedOk(r: Served, stream: seq<real>, perMs: nat, mode: AsrMode) {
    && r.start * perMs <= r.end * perMs <= |stream|
    && r.offline == (if mode == AsrOnline then []
                     else [AudioFrame(true, r.start, r.end, Span(stream, perMs, r.start, r.end))])
    && if mode == AsrOffline then r.online == []
       else && r.online != [] && Last(r.online).isFinal && NoneFinal(Init(r.online)) && Contiguous(r.online, r.start)
            && Last(r.online).globalEnd == r.end && (r.whole ==> |r.online| == 1)
            && exists reach: nat :: r.end * perMs <= reach * perMs <= |stream|
                                    && Data(r.online) == Span(stream, perMs, r.start, reach)
  }

  /** The chunks of a segment in progress: from its start up to `next`. */
  ghost predicate ChunksOk(frames: seq<AudioFrame>, stream: seq<real>, perMs: nat, start: nat, next: nat) {
    && start <= next && start * perMs <= next * perMs <= |stream|
    && NoneFinal(frames) && Contiguous(frames, start)
    && (if frames == [] then next == start else Last(frames).globalEnd == next)
    && Data(frames) == Span(stream, perMs, start, next)
  }

  /** A chunk covers `chunkMs`; a final one holds no more than that, or one sample more. */
  ghost predicate IsCut(frame: AudioFrame, chunkMs: nat, perMs: nat) {
    if frame.isFinal then |frame.data| <= chunkMs * perMs + 1
    else frame.globalEnd == frame.globalStart + chunkMs && |frame.data| == chunkMs * perMs
  }

  ghost predicate AllCut(frames: seq<AudioFrame>, chunkMs: nat, perMs: nat) {
    forall i :: 0 <= i < |frames| ==> IsCut(frames[i], chunkMs, perMs)
  }

  /** The chunk of a segment that came in one report. */
  ghost predicate IsWhole(frame: AudioFrame, reports: seq<Report>) {
    frame.isFinal && frame.globalStart != -1 && frame.globalEnd != -1 && (frame.globalStart, frame.globalEnd) in reports
  }

  /** Every chunk is cut, but for those of segments that came in one report. */
  ghost predicate ChunksCut(frames: seq<AudioFrame>, reports: seq<Report>, chunkMs: nat, perMs: nat) {
    forall i :: 0 <= i < |frames| ==> IsCut(frames[i], chunkMs, perMs) || IsWhole(frames[i], reports)
  }

  /** The same of the segments served and of the one in progress, if the chunk length has not changed. */
  ghost predicate SessionCut(served: seq<Served>, current: seq<AudioFrame>, chunkMs: nat, perMs: nat) {
    AllCut(current, chunkMs, perMs) &&
    forall i :: 0 <= i < |served| ==> !served[i].whole ==> AllCut(served[i].online, chunkMs, perMs)
  }

  ghost function Wholes(served: seq<Served>): seq<bool> {
    if served == [] then [] else Wholes(Init(served)) + [Last(served).whole]
  }

  /** For each report with an end, whether it has the start too. */
  ghost function WholeEnds(reports: seq<Report>): seq<bool> {
    if reports == [] then []
    else WholeEnds(Init(reports)) + if Last(reports).1 == -1 then [] else [Last(reports).0 != -1]
  }

  lemma {:induction false} CutMore(a: seq<AudioFrame>, b: seq<AudioFrame>, chunkMs: nat, perMs: nat)
    requires AllCut(a, chunkMs, perMs) && AllCut(b, chunkMs, perMs)
    ensures AllCut(a + b, chunkMs, perMs)
  {
    hide IsCut;
  }

  lemma {:induction false} CutThen(a: seq<AudioFrame>, b: seq<AudioFrame>, reports: seq<Report>, more: seq<Report>,
                                   chunkMs: nat, perMs: nat)
    requires ChunksCut(a, reports, chunkMs, perMs) && ChunksCut(b, more, chunkMs, perMs)
    ensures ChunksCut(a + b, reports + more, chunkMs, perMs)
  {
    hide IsCut;
  }

  lemma {:induction false} ServedCut(served: seq<Served>, current: seq<AudioFrame>, served': seq<Served>,
                                     chunkMs: nat, perMs: nat)
    requires SessionCut(served, current, chunkMs, perMs) && served' != [] && Init(served') == served
    requires !Last(served').whole ==>
               current <= Last(served').online && AllCut(Last(served').online[|current|..], chunkMs, perMs)
    ensures SessionCut(served', [], chunkMs, perMs)
  {
    hide IsCut;
    var last := Last(served');
    if !last.whole {
      CutMore(current, last.online[|current|..], chunkMs, perMs);
      assert last.online == current + last.online[|current|..];
    }
    forall i | 0 <= i < |served'| && !served'[i].whole
      ensures AllCut(served'[i].online, chunkMs, perMs)
    {
      if i < |served| { assert served'[i] == served[i]; }
    }
  }

  lemma {:induction false} CurrentCut(served: seq<Served>, current: seq<AudioFrame>, current': seq<AudioFrame>,
                                      chunkMs: nat, perMs: nat)
    requires current <= current' && AllCut(current'[|current|..], chunkMs, perMs)
    ensures SessionCut(served, current, chunkMs, perMs) ==> SessionCut(served, current', chunkMs, perMs)
  {
    hide IsCut;
    if SessionCut(served, current, chunkMs, perMs) {
      CutMore(current, current'[|current|..], chunkMs, perMs);
      assert current' == current + current'[|current|..];
    }
  }

  /** With one chunk length, chunk `i` of a segment that came in two reports starts `i` chunks behind its start, and
      only the last one may be shorter. */
  lemma {:induction false} ChunkStarts(r: Served, stream: seq<real>, perMs: nat, mode: AsrMode, chunkMs: nat, i: nat)
    requires ServedOk(r, stream, perMs, mode) && AllCut(r.online, chunkMs, perMs) && i < |r.online|
    ensures r.online[i].globalStart == r.start + i * chunkMs
    ensures if i < |r.online| - 1 then |r.online[i].data| == chunkMs * perMs
            else |r.online[i].data| <= chunkMs * perMs + 1
  {
    if i < |r.online| - 1 { assert r.online[i] == Init(r.online)[i]; } else { assert r.online[i] == Last(r.online); }
    if i > 0 {
      ChunkStarts(r, stream, perMs, mode, chunkMs, i - 1);
      assert r.online[i - 1] == Init(r.online)[i - 1];
      Distribute(i - 1, 1, chunkMs);
    }
  }

  lemma CutNext(start: seq<AudioFrame>, before: seq<AudioFrame>, after: seq<AudioFrame>, chunkMs: nat, perMs: nat)
    requires start <= before && AllCut(before[|start|..], chunkMs, perMs)
    requires |after| == |before| + 1 && before <= after && IsCut(after[|before|], chunkMs, perMs)
    ensures AllCut(after[|start|..], chunkMs, perMs)
  {
    hide IsCut;
  }

  lemma NoneCut(frames: seq<AudioFrame>, chunkMs: nat, perMs: nat)
    ensures AllCut(frames[|frames|..], chunkMs, perMs) && ChunksCut(frames[|frames|..], [], chunkMs, perMs)
  {
  }

  lemma CutChunks(frames: seq<AudioFrame>, reports: seq<Report>, chunkMs: nat, perMs: nat)
    requires AllCut(frames, chunkMs, perMs)
    ensures ChunksCut(frames, reports, chunkMs, perMs)
  {
    hide IsCut;
  }

  lemma {:induction false} QueueCutThen(q: seq<AudioFrame>, q': seq<AudioFrame>, q'': seq<AudioFrame>,
                                        reports: seq<Report>, more: seq<Report>, chunkMs: nat, perMs: nat)
    requires q <= q' <= q'' && ChunksCut(q'[|q|..], reports, chunkMs, perMs)
             && ChunksCut(q''[|q'|..], more, chunkMs, perMs)
    ensures ChunksCut(q''[|q|..], reports + more, chunkMs, perMs)
  {
    hide ChunksCut;
    CutThen(q'[|q|..], q''[|q'|..], reports, more, chunkMs, perMs);
    assert q''[|q|..] == q'[|q|..] + q''[|q'|..];
  }

  lemma NoEnds()
    ensures WholeEnds([]) == []
  {
  }

  lemma {:induction false} OneEnd(report: Report)
    ensures WholeEnds([report]) == if report.1 == -1 then [] else [report.0 != -1]
  {
    assert Init([report]) == [] && Last([report]) == report;
  }

  lemma {:induction false} EndsConcat(a: seq<Report>, b: seq<Report>)
    ensures WholeEnds(a + b) == WholeEnds(a) + WholeEnds(b)
  {
    if b == [] {
      assert a + b == a;
    } else {
      assert Init(a + b) == a + Init(b) && Last(a + b) == Last(b);
      EndsConcat(a, Init(b));
    }
  }

  /** A segment served from one report. */
  lemma {:induction false} WholeCut(served: seq<Served>, current: seq<AudioFrame>, served': seq<Served>, report: Report,
                                    chunkMs: nat, perMs: nat)
    requires served' != [] && Init(served') == served && Last(served').whole && report.0 >= 0 && report.1 >= 0
    requires forall i :: 0 <= i < |Last(served').online| ==> IsWhole(Last(served').online[i], [report])
    ensures ChunksCut(Last(served').online, [report], chunkMs, perMs)
    ensures SessionCut(served, current, chunkMs, perMs) ==> SessionCut(served', [], chunkMs, perMs)
    ensures Wholes(served') == Wholes(served) + [true]
  {
    hide IsCut, AllCut;
    if SessionCut(served, current, chunkMs, perMs) { ServedCut(served, current, served', chunkMs, perMs); }
  }

  /** A segment served from two reports. */
  lemma {:induction false} EndCut(served: seq<Served>, current: seq<AudioFrame>, served': seq<Served>, report: Report,
                                  chunkMs: nat, perMs: nat)
    requires served' != [] && Init(served') == served && !Last(served').whole && report.0 == -1
    requires current <= Last(served').online && AllCut(Last(served').online[|current|..], chunkMs, perMs)
    ensures ChunksCut(Last(served').online[|current|..], [report], chunkMs, perMs)
    ensures SessionCut(served, current, chunkMs, perMs) ==> SessionCut(served', [], chunkMs, perMs)
    ensures Wholes(served') == Wholes(served) + [false]
  {
    hide IsCut, AllCut, SessionCut;
    CutChunks(Last(served').online[|current|..], [report], chunkMs, perMs);
    if SessionCut(served, current, chunkMs, perMs) { ServedCut(served, current, served', chunkMs, perMs); }
  }

  function Total(lengths: seq<nat>): nat {
    if lengths == [] then 0 else Total(Init(lengths)) + Last(lengths)
  }

  lemma {:induction false} TotalRest(lengths: seq<nat>)
    requires lengths != []
    ensures Total(lengths) == lengths[0] + Total(lengths[1..])
  {
    if |lengths| == 1 {
      assert Init(lengths) == [];
    } else {
      TotalRest(Init(lengths));
      assert Init(lengths)[1..] == Init(lengths[1..]) && Last(lengths[1..]) == Last(lengths);
    }
  }

  lemma DivMul(a: nat, b: nat)
    requires b > 0
    ensures a / b * b <= a
  {
  }

  lemma {:induction false} DataSnoc(frames: seq<AudioFrame>, frame: AudioFrame)
    ensures Data(frames + [frame]) == Data(frames) + frame.data
  {
    assert Init(frames + [frame]) == frames && Last(frames + [frame]) == frame;
  }

  /** One more chunk of `ms` milliseconds. */
  lemma {:induction false} AddChunk(frames: seq<AudioFrame>, stream: seq<real>, perMs: nat, start: nat, next: nat,
                                    ms: nat, final: bool, frame: AudioFrame)
    requires ChunksOk(frames, stream, perMs, start, next) && (next + ms) * perMs <= |stream|
    requires next * perMs <= (next + ms) * perMs
    requires frame == AudioFrame(final, next, next + ms, stream[next * perMs..(next + ms) * perMs])
    ensures !final ==> ChunksOk(frames + [frame], stream, perMs, start, next + ms)
    ensures var all := frames + [frame];
            && all != [] && Last(all) == frame && Init(all) == frames && Contiguous(all, start)
            && start * perMs <= (next + ms) * perMs && Data(all) == Span(stream, perMs, start, next + ms)
  {
    DataSnoc(frames, frame);
    var all := frames + [frame];
    assert Init(all) == frames && Last(all) == frame;
    forall i | 0 < i < |all|
      ensures all[i].globalStart == all[i - 1].globalEnd
    {
      if i == |frames| { assert all[i - 1] == Last(frames); }
    }
  }

  lemma {:induction false} MoreAudio(frames: seq<AudioFrame>, stream: seq<real>, more: seq<real>, perMs: nat,
                                     start: nat, next: nat)
    requires ChunksOk(frames, stream, perMs, start, next)
    ensures ChunksOk(frames, stream + more, perMs, start, next)
  {
    assert Span(stream + more, perMs, start, next) == Span(stream, perMs, start, next);
  }

  lemma {:induction false} ServedMoreAudio(r: Served, stream: seq<real>, more: seq<real>, perMs: nat, mode: AsrMode)
    requires ServedOk(r, stream, perMs, mode)
    ensures ServedOk(r, stream + more, perMs, mode)
  {
    assert Span(stream + more, perMs, r.start, r.end) == Span(stream, perMs, r.start, r.end);
    if mode != AsrOffline {
      var reach: nat :| r.end * perMs <= reach * perMs <= |stream|
          && Data(r.online) == Span(stream, perMs, r.start, reach);
      assert Span(stream + more, perMs, r.start, reach) == Span(stream, perMs, r.start, reach);
    }
  }

  ghost predicate EachServed(served: seq<Served>, stream: seq<real>, perMs: nat, mode: AsrMode) {
    forall i :: 0 <= i < |served| ==> ServedOk(served[i], stream, perMs, mode)
  }

  lemma {:induction false} AllMoreAudio(served: seq<Served>, stream: seq<real>, more: seq<real>, perMs: nat,
                                        mode: AsrMode)
    requires EachServed(served, stream, perMs, mode)
    ensures EachServed(served, stream + more, perMs, mode)
  {
    hide ServedOk;
    forall i | 0 <= i < |served|
      ensures ServedOk(served[i], stream + more, perMs, mode)
    {
      ServedMoreAudio(served[i], stream, more, perMs, mode);
    }
  }

  /** All chunks of a segment that ends at `end`: the last one is final. */
  ghost predicate Finished(frames: seq<AudioFrame>, stream: seq<real>, perMs: nat, start: nat, end: nat) {
    && frames != [] && Last(frames).isFinal && NoneFinal(Init(frames)) && Contiguous(frames, start)
    && Last(frames).globalEnd == end
    && exists reach: nat :: start * perMs <= end * perMs <= reach * perMs <= |stream|
                            && Data(frames) == Span(stream, perMs, start, reach)
  }

  lemma {:induction false} OneChunk(r: Served, stream: seq<real>, perMs: nat, mode: AsrMode)
    requires r.start * perMs <= r.end * perMs <= |stream|
    requires var frame := AudioFrame(true, r.start, r.end, Span(stream, perMs, r.start, r.end));
             && r.offline == (if mode == AsrOnline then [] else [frame])
             && r.online == (if mode == AsrOffline then [] else [frame])
    ensures ServedOk(r, stream, perMs, mode)
  {
    if mode != AsrOffline {
      assert Init(r.online) == [];
      assert Data(r.online) == Span(stream, perMs, r.start, r.end);
    }
  }

  lemma {:induction false} RestServed(r: Served, stream: seq<real>, perMs: nat, mode: AsrMode)
    requires r.start * perMs <= r.end * perMs <= |stream|
    requires r.offline == (if mode == AsrOnline then []
                           else [AudioFrame(true, r.start, r.end, Span(stream, perMs, r.start, r.end))])
    requires !r.whole && if mode == AsrOffline then r.online == []
             else Finished(r.online, stream, perMs, r.start, r.end)
    ensures ServedOk(r, stream, perMs, mode)
  {
  }

  // ---------- reports and queues ----------

  ghost function Spans(served: seq<Served>): seq<Report> {
    if served == [] then [] else Spans(Init(served)) + [(Last(served).start, Last(served).end)]
  }

  ghost function AllOnline(served: seq<Served>): seq<AudioFrame> {
    if served == [] then [] else AllOnline(Init(served)) + Last(served).online
  }

  ghost function AllOffline(served: seq<Served>): seq<AudioFrame> {
    if served == [] then [] else AllOffline(Init(served)) + Last(served).offline
  }

  /** The online queue grows by exactly the chunks added to the segments served and to the one in progress. */
  ghost predicate Pushed(q: seq<AudioFrame>, q': seq<AudioFrame>, served: seq<Served>, current: seq<AudioFrame>,
                         served': seq<Served>, current': seq<AudioFrame>) {
    q <= q' && AllOnline(served') + current' == AllOnline(served) + current + q'[|q|..]
  }

  ghost predicate PushedOffline(q: seq<AudioFrame>, q': seq<AudioFrame>, served: seq<Served>, served': seq<Served>) {
    q <= q' && AllOffline(served') == AllOffline(served) + q'[|q|..]
  }

  lemma {:induction false} QueuesUnchanged(q: seq<AudioFrame>, r: seq<AudioFrame>, served: seq<Served>,
                                           current: seq<AudioFrame>)
    ensures Pushed(q, q, served, current, served, current) && PushedOffline(r, r, served, served)
  {
  }

  lemma {:induction false} OneServed(served: seq<Served>, served': seq<Served>, current: seq<AudioFrame>,
                                     current': seq<AudioFrame>, q: seq<AudioFrame>, q': seq<AudioFrame>,
                                     r: seq<AudioFrame>, r': seq<AudioFrame>)
    requires served' != [] && Init(served') == served && current' == [] && current <= Last(served').online
    requires q' == q + Last(served').online[|current|..] && r' == r + Last(served').offline
    ensures Pushed(q, q', served, current, served', current') && PushedOffline(r, r', served, served')
    ensures Spans(served') == Spans(served) + [(Last(served').start, Last(served').end)]
  {
    assert Last(served').online == current + Last(served').online[|current|..];
  }

  lemma {:induction false} PushedThen(q: seq<AudioFrame>, q': seq<AudioFrame>, q'': seq<AudioFrame>,
                                      served: seq<Served>, current: seq<AudioFrame>, served': seq<Served>,
                                      current': seq<AudioFrame>, served'': seq<Served>, current'': seq<AudioFrame>)
    requires Pushed(q, q', served, current, served', current')
             && Pushed(q', q'', served', current', served'', current'')
    ensures Pushed(q, q'', served, current, served'', current'')
  {
    hide AllOnline;
    assert q''[|q|..] == q'[|q|..] + q''[|q'|..];
  }

  lemma {:induction false} PushedOfflineThen(q: seq<AudioFrame>, q': seq<AudioFrame>, q'': seq<AudioFrame>,
                                             served: seq<Served>, served': seq<Served>, served'': seq<Served>)
    requires PushedOffline(q, q', served, served') && PushedOffline(q', q'', served', served'')
    ensures PushedOffline(q, q'', served, served'')
  {
    hide AllOffline;
    assert q''[|q|..] == q'[|q|..] + q''[|q'|..];
  }

  /** What the protocol says about the first report. */
  lemma {:induction false} FirstReport(report: Report, rest: seq<Report>, open: int, perMs: nat, offset: int,
                                       received: nat)
    requires Protocol([report] + rest, open) && WithinAudio([report], perMs, offset, received)
    ensures if report.0 >= 0 && report.1 >= 0 then open == -1 && report.0 <= report.1 && Protocol(rest, -1)
            else if report.0 >= 0 then report.1 == -1 && open == -1 && Protocol(rest, report.0)
            else report.0 == -1 && open != -1 && open <= report.1 && Protocol(rest, -1)
    ensures report.0 != -1 ==> offset <= report.0 * perMs <= received
    ensures report.1 != -1 ==> report.1 * perMs <= received
  {
    assert ([report] + rest)[1..] == rest;
    assert [report][0] == report;
  }

  lemma NowBefore(now: nat, end: nat, perMs: nat)
    ensures now * perMs < end * perMs ==> now < end
  {
    if now >= end { MulMono(end, now, perMs); }
  }

  lemma {:induction false} LastChunk(frames: seq<AudioFrame>, frame: AudioFrame, stream: seq<real>, perMs: nat,
                                     start: nat, now: nat, end: nat)
    requires ChunksOk(frames, stream, perMs, start, now) && now <= end && end * perMs <= |stream|
             && now * perMs <= end * perMs
    requires frame == AudioFrame(true, now, end, stream[now * perMs..end * perMs])
    ensures Finished(frames + [frame], stream, perMs, start, end)
  {
    AddChunk(frames, stream, perMs, start, now, end - now, true, frame);
  }

  /** The chunks sent so far already reach the end: an empty chunk marks it. */
  lemma {:induction false} NothingLeft(frames: seq<AudioFrame>, stream: seq<real>, perMs: nat, start: nat, now: nat,
                                       end: nat)
    requires ChunksOk(frames, stream, perMs, start, now) && start <= end && end * perMs <= now * perMs
    ensures Finished(frames + [AudioFrame(true, now, end, [])], stream, perMs, start, end)
  {
    var frame := AudioFrame(true, now, end, []);
    var all := frames + [frame];
    DataSnoc(frames, frame);
    MulMono(start, end, perMs);
    assert Init(all) == frames && Last(all) == frame;
    forall i | 0 < i < |all|
      ensures all[i].globalStart == all[i - 1].globalEnd
    {
      if i == |frames| { assert all[i - 1] == Last(frames); }
    }
    assert Data(all) == Span(stream, perMs, start, now);
  }

  /** The last chunk takes what is left, and one sample more than the step if no more than that is left. */
  lemma {:induction false} LastStep(now: nat, endMs: nat, perMs: nat, left: nat)
    requires perMs > 0 && left > 0 && now * perMs + left == endMs * perMs
    ensures now < endMs && left == (endMs - now) * perMs
  {
    NowBefore(now, endMs, perMs);
    Subtract(endMs, now, perMs);
  }

  lemma {:induction false} NextStep(now: nat, endMs: nat, chunkMs: nat, perMs: nat, left: nat)
    requires perMs > 0 && chunkMs > 0 && now * perMs + left == endMs * perMs && chunkMs * perMs < left
    ensures now + chunkMs < endMs && (now + chunkMs) * perMs == now * perMs + chunkMs * perMs
    ensures 0 < chunkMs * perMs
  {
    Distribute(now, chunkMs, perMs);
    NowBefore(now + chunkMs, endMs, perMs);
    MulMono(1, chunkMs, perMs);
  }

  lemma {:induction false} ServeOne(served: seq<Served>, r: Served, stream: seq<real>, perMs: nat, mode: AsrMode)
    requires EachServed(served, stream, perMs, mode) && ServedOk(r, stream, perMs, mode)
    ensures EachServed(served + [r], stream, perMs, mode)
  {
    hide ServedOk;
  }

  class Audio {
    const segSample: nat          // samples per ms
    const vectorCache: nat        // samples retained: two seconds
    const mode: AsrMode
    var frameQueue: seq<nat>      // lengths of the pieces received and not yet split
    var allSamples: seq<real>
    var offset: nat
    var speechStart: int
    var speechEnd: nat
    var speechOfflineStart: int
    var asrOnlineQueue: seq<AudioFrame>
    var asrOfflineQueue: seq<AudioFrame>

    /** Everything received, the chunks of the segment in progress, and the segments served. */
    ghost var stream: seq<real>
    ghost var current: seq<AudioFrame>
    ghost var served: seq<Served>

    ghost predicate AllServed()
      reads this`served, this`stream
    {
      EachServed(served, stream, segSample, mode)
    }

    ghost predicate BufferOk()
      reads this
    {
      && segSample > 0 && vectorCache == 2000 * segSample
      && offset <= |stream| && allSamples == stream[offset..] && offset <= Max(0, |stream| - vectorCache)
      && speechEnd * segSample + Total(frameQueue) <= |stream|
    }

    ghost predicate Valid()
      reads this
    {
      && BufferOk() && AllServed()
      && if speechOfflineStart == -1 then speechStart == -1 && current == []
         else && 0 <= speechOfflineStart && offset <= speechOfflineStart * segSample
              && speechOfflineStart <= speechStart
                 && ChunksOk(current, stream, segSample, speechOfflineStart, speechStart)
              && (mode == AsrOffline ==> current == [])
    }

    constructor (sampleRate: nat, mode: AsrMode)
      requires sampleRate > 0 && sampleRate % 1000 == 0
      ensures Valid() && stream == [] && served == [] && speechStart == -1 && frameQueue == []
    {
      segSample, vectorCache, this.mode := sampleRate / 1000, sampleRate * 2, mode;
      frameQueue, allSamples, offset, speechStart, speechEnd, speechOfflineStart := [], [], 0, -1, 0, -1;
      asrOnlineQueue, asrOfflineQueue := [], [];
      stream, current, served := [], [], [];
    }

    /** Audio arrives as bytes (audio.cpp:821-861); each call is resampled by itself if its rate is another one. */
    method LoadPcmwavOnline(buf: seq<Pcm.Byte>, samplingRate: nat, normalized: bool, filter: ResampleSpec.Filter)
      returns (ghost pcm: seq<real>, ghost samples: seq<real>)
      requires Valid() && samplingRate > 0
      modifies this`allSamples, this`stream, this`frameQueue
      ensures Valid() && stream == old(stream) + samples && frameQueue == old(frameQueue) + [|samples|]
      ensures Pcm.IsPcm(buf, if normalized then 32768.0 else 1.0, pcm)
      ensures samplingRate == DestRate() ==> samples == pcm
      ensures samplingRate != DestRate() ==> exists r ::
                IsResampled(r, samplingRate, DestRate(), filter, pcm, samples)
    {
      hide Valid;
      SomeRate();
      var speechData := Pcm.Decode(buf, normalized);
      pcm := speechData;
      if samplingRate != DestRate() {
        ghost var r;
        speechData, r := Pcm.WavResample(samplingRate, DestRate(), filter, speechData);
        assert IsResampled(r, samplingRate, DestRate(), filter, pcm, speechData);
      }
      samples := speechData;
      AppendSamples(speechData);
    }

    /** `dest_sample_rate`. */
    function DestRate(): nat {
      segSample * 1000
    }

    lemma SomeRate()
      requires Valid()
      ensures DestRate() > 0
    {
    }

    /** The samples are those of one flushed resampling at these rates. */
    static ghost predicate IsResampled(r: ResampleSpec.Rates, rin: nat, rout: nat, filter: ResampleSpec.Filter,
                                       pcm: seq<real>, samples: seq<real>) {
      && ResampleSpec.RatesOk(r) && r.rin == rin && r.rout == rout
      && samples == ResampleSpec.Outs(r, filter, pcm, 0, ResampleSpec.NumOut(r, |pcm|, true))
    }

    method AppendSamples(samples: seq<real>)
      requires Valid()
      modifies this`allSamples, this`stream, this`frameQueue
      ensures Valid() && stream == old(stream) + samples && frameQueue == old(frameQueue) + [|samples|]
    {
      hide EachServed, ChunksOk;
      assert Init(frameQueue + [|samples|]) == frameQueue;
      AllMoreAudio(served, stream, samples, segSample, mode);
      if speechOfflineStart != -1 {
        MoreAudio(current, stream, samples, segSample, speechOfflineStart, speechStart);
      }
      allSamples := allSamples + samples;
      frameQueue := frameQueue + [|samples|];
      stream := stream + samples;
    }

    /** The copy of `n` samples from position `from` of the stream; it never leaves the buffer. */
    method CopySamples(from: nat, n: nat) returns (data: seq<real>)
      requires BufferOk() && offset <= from && from + n <= |stream|
      ensures data == stream[from..from + n]
    {
      data := allSamples[from - offset..from - offset + n];
    }

    method PushOnline(isFinal: bool, start: int, end: int, data: seq<real>)
      modifies this`asrOnlineQueue, this`current
      ensures var frame := AudioFrame(isFinal, start, end, data);
              asrOnlineQueue == old(asrOnlineQueue) + [frame] && current == old(current) + [frame]
    {
      var frame := AudioFrame(isFinal, start, end, data);
      asrOnlineQueue := asrOnlineQueue + [frame];
      current := current + [frame];
    }

    /** If enough audio of the segment in progress has arrived, one chunk goes online. */
    method PushChunk(chunkMs: nat)
      requires Valid() && speechOfflineStart != -1 && chunkMs > 0
      modifies this`asrOnlineQueue, this`current, this`speechStart
      ensures Valid()
      ensures mode == AsrOffline || (speechEnd - old(speechStart)) * segSample < chunkMs * segSample ==> unchanged(this)
      ensures mode != AsrOffline && (speechEnd - old(speechStart)) * segSample >= chunkMs * segSample ==>
                speechStart == old(speechStart) + chunkMs && |current| == |old(current)| + 1
      ensures old(current) <= current && asrOnlineQueue == old(asrOnlineQueue) + current[|old(current)|..]
      ensures AllCut(current[|old(current)|..], chunkMs, segSample)
    {
      hide ChunksOk, AllServed;
      var start := speechStart * segSample;
      var end := speechEnd * segSample;
      var buffLen := end - start;
      var step := chunkMs * segSample;
      Subtract(speechEnd, speechStart, segSample);
      if mode != AsrOffline {
        if buffLen >= step {
          PushStep(start, step, chunkMs);
        }
      }
    }

    method PushStep(start: nat, step: nat, ghost chunkMs: nat)
      requires Valid() && speechOfflineStart != -1 && mode != AsrOffline
      requires start == speechStart * segSample && step == chunkMs * segSample && start + step <= |stream|
      modifies this`asrOnlineQueue, this`current, this`speechStart
      ensures Valid() && speechStart == old(speechStart) + chunkMs && |current| == |old(current)| + 1
      ensures old(current) <= current && asrOnlineQueue == old(asrOnlineQueue) + current[|old(current)|..]
      ensures AllCut(current[|old(current)|..], chunkMs, segSample)
    {
      hide ChunksOk, AllServed;
      Distribute(speechStart, chunkMs, segSample);
      MulMono(speechOfflineStart, speechStart, segSample);
      DivExact(chunkMs, segSample);
      var data := CopySamples(start, step);
      ghost var frame := AudioFrame(false, speechStart, speechStart + chunkMs, data);
      AddChunk(current, stream, segSample, speechOfflineStart, speechStart, chunkMs, false, frame);
      PushOnline(false, speechStart, speechStart + step / segSample, data);
      assert current[|old(current)|..] == [frame];
      speechStart := speechStart + step / segSample;
    }

    /** The offline frame of a segment. */
    method PushOffline(startMs: nat, endMs: nat) returns (ghost offline: seq<AudioFrame>)
      requires BufferOk() && offset <= startMs * segSample <= endMs * segSample <= |stream|
      modifies this`asrOfflineQueue
      ensures offline == if mode == AsrOnline then []
              else [AudioFrame(true, startMs, endMs, Span(stream, segSample, startMs, endMs))]
      ensures asrOfflineQueue == old(asrOfflineQueue) + offline
    {
      offline := [];
      if mode != AsrOnline {
        var start := startMs * segSample;
        var end := endMs * segSample;
        var data := CopySamples(start, end - start);
        var frame := AudioFrame(true, startMs, endMs, data);
        asrOfflineQueue := asrOfflineQueue + [frame];
        offline := [frame];
      }
    }

    /** A segment that starts and ends in one report. */
    method WholeSegment(startMs: nat, endMs: nat)
      requires Valid() && speechOfflineStart == -1
      requires offset <= startMs * segSample <= endMs * segSample <= |stream|
      modifies this`asrOnlineQueue, this`asrOfflineQueue, this`current, this`served
      ensures Valid() && speechOfflineStart == -1
      ensures |served| == |old(served)| + 1 && Init(served) == old(served)
      ensures Last(served).start == startMs && Last(served).end == endMs && Last(served).whole
      ensures forall i :: 0 <= i < |Last(served).online| ==> IsWhole(Last(served).online[i], [(startMs, endMs)])
      ensures current == [] && asrOnlineQueue == old(asrOnlineQueue) + Last(served).online
      ensures asrOfflineQueue == old(asrOfflineQueue) + Last(served).offline
    {
      hide ServedOk, EachServed;
      var start := startMs * segSample;
      var end := endMs * segSample;
      if mode != AsrOffline {
        var data := CopySamples(start, end - start);
        PushOnline(true, startMs, endMs, data);
      }
      ghost var offline := PushOffline(startMs, endMs);
      ghost var r := Served(startMs, endMs, current, offline, true);
      OneChunk(r, stream, segSample, mode);
      ServeOne(served, r, stream, segSample, mode);
      current, served := [], served + [r];
    }

    /** A segment starts. */
    method SegmentStarts(startMs: nat, chunkMs: nat)
      requires Valid() && speechOfflineStart == -1 && chunkMs > 0
      requires offset <= startMs * segSample <= |stream|
      modifies this`speechStart, this`speechOfflineStart, this`asrOnlineQueue, this`current
      ensures Valid() && speechOfflineStart == startMs
      ensures speechStart == if mode != AsrOffline && (speechEnd - startMs) * segSample >= chunkMs * segSample
              then startMs + chunkMs else startMs
      ensures old(current) <= current && asrOnlineQueue == old(asrOnlineQueue) + current[|old(current)|..]
      ensures AllCut(current[|old(current)|..], chunkMs, segSample)
    {
      speechStart := startMs;
      speechOfflineStart := startMs;
      PushChunk(chunkMs);
    }

    /** The segment in progress ends: its offline frame, and what is left of it online in chunks, the last one final. */
    method SegmentEnds(endMs: nat, chunkMs: nat)
      requires Valid() && speechOfflineStart != -1 && chunkMs > 0
      requires speechOfflineStart <= endMs && endMs * segSample <= |stream|
      modifies this`speechStart, this`speechOfflineStart, this`asrOnlineQueue, this`asrOfflineQueue, this`current,
               this`served
      ensures Valid() && speechOfflineStart == -1
      ensures |served| == |old(served)| + 1 && Init(served) == old(served)
      ensures Last(served).start == old(speechOfflineStart) && Last(served).end == endMs && !Last(served).whole
      ensures current == [] && old(current) <= Last(served).online
      ensures AllCut(Last(served).online[|old(current)|..], chunkMs, segSample)
      ensures asrOnlineQueue == old(asrOnlineQueue) + Last(served).online[|old(current)|..]
      ensures asrOfflineQueue == old(asrOfflineQueue) + Last(served).offline
    {
      hide ServedOk, ChunksOk, EachServed, Finished, IsCut;
      if speechStart == -1 || speechOfflineStart == -1 {
        assert false;  // "Vad start is null while vad end is available"
      }
      MulMono(speechOfflineStart, endMs, segSample);
      ghost var offline := PushOffline(speechOfflineStart, endMs);
      if mode != AsrOffline {
        PushRest(endMs, chunkMs);
      }
      ghost var r := Served(speechOfflineStart, endMs, current, offline, false);
      RestServed(r, stream, segSample, mode);
      ServeOne(served, r, stream, segSample, mode);
      current, served := [], served + [r];
      speechStart := -1;
      speechOfflineStart := -1;
    }

    /** The chunk of the `step` samples at `position` of the stream. */
    method PushRestChunk(position: nat, step: nat, isFinal: bool, ghost now: nat, ghost ms: nat)
      requires BufferOk() && 0 <= speechOfflineStart <= now && offset <= speechOfflineStart * segSample
      requires position == now * segSample && step == ms * segSample
      requires position + step == (now + ms) * segSample <= |stream|
      requires ChunksOk(current, stream, segSample, speechOfflineStart, now)
      modifies this`asrOnlineQueue, this`current
      ensures old(current) <= current && asrOnlineQueue == old(asrOnlineQueue) + current[|old(current)|..]
      ensures current == old(current) + [AudioFrame(isFinal, now, now + ms, stream[position..position + step])]
      ensures if isFinal then Finished(current, stream, segSample, speechOfflineStart, now + ms)
              else ChunksOk(current, stream, segSample, speechOfflineStart, now + ms)
    {
      hide ChunksOk, Finished;
      DivExact(now, segSample);
      DivExact(ms, segSample);
      MulMono(speechOfflineStart, now, segSample);
      var globalStart := position / segSample;
      var data := CopySamples(position, step);
      ghost var frame := AudioFrame(isFinal, now, now + ms, data);
      AddChunk(current, stream, segSample, speechOfflineStart, now, ms, isFinal, frame);
      if isFinal { LastChunk(current, frame, stream, segSample, speechOfflineStart, now, now + ms); }
      PushOnline(isFinal, globalStart, globalStart + step / segSample, data);
    }

    /** The chunks from `speechStart` to the end of the segment. */
    method PushRest(endMs: nat, chunkMs: nat)
      requires Valid() && speechOfflineStart != -1 && chunkMs > 0 && mode != AsrOffline
      requires speechOfflineStart <= endMs && endMs * segSample <= |stream|
      modifies this`asrOnlineQueue, this`current
      ensures old(current) <= current && asrOnlineQueue == old(asrOnlineQueue) + current[|old(current)|..]
      ensures AllCut(current[|old(current)|..], chunkMs, segSample)
      ensures Finished(current, stream, segSample, speechOfflineStart, endMs)
    {
      hide ChunksOk, AllServed, Finished;
      var start := speechStart * segSample;
      var end := endMs * segSample;
      var buffLen := end - start;
      if buffLen > 0 {
        PushChunks(start, buffLen, endMs, chunkMs);
      } else {
        NothingLeft(current, stream, segSample, speechOfflineStart, speechStart, endMs);
        PushOnline(true, speechStart, endMs, []);
        assert current[|old(current)|..] == [AudioFrame(true, speechStart, endMs, [])];
      }
    }

    method PushChunks(start: nat, buffLen: nat, ghost endMs: nat, chunkMs: nat)
      requires Valid() && speechOfflineStart != -1 && chunkMs > 0 && mode != AsrOffline
      requires start == speechStart * segSample && start + buffLen == endMs * segSample <= |stream| && buffLen > 0
      modifies this`asrOnlineQueue, this`current
      ensures old(current) <= current && asrOnlineQueue == old(asrOnlineQueue) + current[|old(current)|..]
      ensures AllCut(current[|old(current)|..], chunkMs, segSample)
      ensures Finished(current, stream, segSample, speechOfflineStart, endMs)
    {
      hide ChunksOk, AllServed, Finished, AllCut;
      NoneCut(current, chunkMs, segSample);
      var step := chunkMs * segSample;
      var sampleOffset: nat := 0;
      ghost var now: nat := speechStart;
      while sampleOffset < buffLen
        invariant sampleOffset <= buffLen && speechOfflineStart <= now && BufferOk()
        invariant old(current) <= current && asrOnlineQueue == old(asrOnlineQueue) + current[|old(current)|..]
        invariant sampleOffset < buffLen ==>
                    && step == chunkMs * segSample && start + sampleOffset == now * segSample
                    && ChunksOk(current, stream, segSample, speechOfflineStart, now)
        invariant AllCut(current[|old(current)|..], chunkMs, segSample)
        invariant sampleOffset == buffLen ==> Finished(current, stream, segSample, speechOfflineStart, endMs)
        decreases buffLen - sampleOffset
      {
        var isFinal := false;
        ghost var ms := chunkMs;
        if sampleOffset + step >= buffLen - 1 {
          step := buffLen - sampleOffset;
          isFinal := true;
          LastStep(now, endMs, segSample, step);
          ms := endMs - now;
        } else {
          NextStep(now, endMs, chunkMs, segSample, buffLen - sampleOffset);
        }
        ghost var before := current;
        PushRestChunk(start + sampleOffset, step, isFinal, now, ms);
        CutNext(old(current), before, current, chunkMs, segSample);
        sampleOffset := sampleOffset + if step < buffLen - sampleOffset then step else buffLen - sampleOffset;
        now := now + ms;
      }
    }

    /** One report. */
    method HandleReport(report: Report, chunkMs: nat, ghost rest: seq<Report>)
      requires Valid() && chunkMs > 0 && Protocol([report] + rest, speechOfflineStart)
      requires WithinAudio([report], segSample, offset, |stream|)
      modifies this`speechStart, this`speechOfflineStart, this`asrOnlineQueue, this`asrOfflineQueue, this`current,
               this`served
      ensures Valid() && Protocol(rest, speechOfflineStart)
      ensures Add(Stitch(Spans(old(served)), old(speechOfflineStart), -1), report) ==
                Stitch(Spans(served), speechOfflineStart, -1)
      ensures Pushed(old(asrOnlineQueue), asrOnlineQueue, old(served), old(current), served, current)
      ensures PushedOffline(old(asrOfflineQueue), asrOfflineQueue, old(served), served)
      ensures old(asrOnlineQueue) <= asrOnlineQueue
      ensures ChunksCut(asrOnlineQueue[|old(asrOnlineQueue)|..], [report], chunkMs, segSample)
      ensures SessionCut(old(served), old(current), chunkMs, segSample) ==>
                SessionCut(served, current, chunkMs, segSample)
      ensures Wholes(served) == Wholes(old(served)) + WholeEnds([report])
    {
      hide ServedOk, ChunksOk, WithinAudio, AllServed, AllCut, ChunksCut, SessionCut, Wholes, WholeEnds;
      FirstReport(report, rest, speechOfflineStart, segSample, offset, |stream|);
      QueuesUnchanged(asrOnlineQueue, asrOfflineQueue, served, current);
      OneEnd(report);
      var speechStartI, speechEndI := report.0, report.1;
      if speechStartI != -1 && speechEndI != -1 {
        MulMono(speechStartI, speechEndI, segSample);
        WholeSegment(speechStartI, speechEndI);
        OneServed(old(served), served, old(current), current, old(asrOnlineQueue), asrOnlineQueue, old(asrOfflineQueue),
                  asrOfflineQueue);
        WholeCut(old(served), old(current), served, report, chunkMs, segSample);
      } else if speechStartI != -1 {
        SegmentStarts(speechStartI, chunkMs);
        CurrentCut(served, old(current), current, chunkMs, segSample);
        CutChunks(current[|old(current)|..], [report], chunkMs, segSample);
      } else if speechEndI != -1 {
        SegmentEnds(speechEndI, chunkMs);
        OneServed(old(served), served, old(current), current, old(asrOnlineQueue), asrOnlineQueue, old(asrOfflineQueue),
                  asrOfflineQueue);
        EndCut(old(served), old(current), served, report, chunkMs, segSample);
      }
    }

    /** The new audio counts as received. */
    method TakeFrame()
      requires Valid() && frameQueue != []
      modifies this`frameQueue, this`speechEnd
      ensures Valid() && frameQueue == old(frameQueue)[1..]
              && speechEnd == old(speechEnd) + old(frameQueue)[0] / segSample
    {
      hide EachServed, ChunksOk, Total;
      var spLen := frameQueue[0];
      TotalRest(frameQueue);
      frameQueue := frameQueue[1..];
      var ms := spLen / segSample;
      DivMul(spLen, segSample);
      Distribute(speechEnd, ms, segSample);
      speechEnd := speechEnd + ms;
    }

    /** Old audio is dropped, but two seconds before the end, or before the segment in progress, are kept. */
    method EraseSamples()
      requires Valid()
      modifies this`allSamples, this`offset
      ensures Valid()
      ensures offset == Max(old(offset),
                            (if speechOfflineStart == -1 then |stream| else speechOfflineStart * segSample)
                            - vectorCache)
    {
      if speechOfflineStart == -1 {
        if |allSamples| > vectorCache {
          var eraseNum := |allSamples| - vectorCache;
          allSamples := allSamples[eraseNum..];
          offset := offset + eraseNum;
        }
      } else {
        MulMono(speechOfflineStart, speechStart, segSample);
        var offlineStart := speechOfflineStart * segSample;
        if offlineStart - offset > vectorCache {
          var eraseNum := offlineStart - offset - vectorCache;
          allSamples := allSamples[eraseNum..];
          offset := offset + eraseNum;
        }
      }
    }

    /** All reports of one call, in order. */
    method HandleReports(reports: seq<Report>, chunkMs: nat)
      requires Valid() && chunkMs > 0 && Protocol(reports, speechOfflineStart)
      requires WithinAudio(reports, segSample, offset, |stream|)
      modifies this`speechStart, this`speechOfflineStart, this`asrOnlineQueue, this`asrOfflineQueue, this`current,
               this`served
      ensures Valid()
      ensures AddAll(Stitch(Spans(old(served)), old(speechOfflineStart), -1), reports) ==
                Stitch(Spans(served), speechOfflineStart, -1)
      ensures Pushed(old(asrOnlineQueue), asrOnlineQueue, old(served), old(current), served, current)
      ensures PushedOffline(old(asrOfflineQueue), asrOfflineQueue, old(served), served)
      ensures old(asrOnlineQueue) <= asrOnlineQueue
      ensures ChunksCut(asrOnlineQueue[|old(asrOnlineQueue)|..], reports, chunkMs, segSample)
      ensures SessionCut(old(served), old(current), chunkMs, segSample) ==>
                SessionCut(served, current, chunkMs, segSample)
      ensures Wholes(served) == Wholes(old(served)) + WholeEnds(reports)
    {
      hide ServedOk, ChunksOk, AllServed, Pushed, PushedOffline, Spans, Add, BufferOk, Valid, ChunksCut, SessionCut,
           Wholes, WholeEnds;
      NoneCut(asrOnlineQueue, chunkMs, segSample);
      assert WholeEnds([]) == [] by { NoEnds(); }
      QueuesUnchanged(asrOnlineQueue, asrOfflineQueue, served, current);
      var i := 0;
      assert reports[0..] == reports;
      while i < |reports|
        invariant 0 <= i <= |reports| && Valid() && Protocol(reports[i..], speechOfflineStart)
        invariant AddAll(Stitch(Spans(served), speechOfflineStart, -1), reports[i..])
                  == AddAll(Stitch(Spans(old(served)), old(speechOfflineStart), -1), reports)
        invariant Pushed(old(asrOnlineQueue), asrOnlineQueue, old(served), old(current), served, current)
        invariant PushedOffline(old(asrOfflineQueue), asrOfflineQueue, old(served), served)
        invariant old(asrOnlineQueue) <= asrOnlineQueue
        invariant ChunksCut(asrOnlineQueue[|old(asrOnlineQueue)|..], reports[..i], chunkMs, segSample)
        invariant SessionCut(old(served), old(current), chunkMs, segSample) ==>
                    SessionCut(served, current, chunkMs, segSample)
        invariant Wholes(served) == Wholes(old(served)) + WholeEnds(reports[..i])
      {
        ghost var (q, r, was, chunks) := (asrOnlineQueue, asrOfflineQueue, served, current);
        assert reports[i..] == [reports[i]] + reports[i + 1..];
        HandleReport(reports[i], chunkMs, reports[i + 1..]);
        PushedThen(old(asrOnlineQueue), q, asrOnlineQueue, old(served), old(current), was, chunks, served, current);
        PushedOfflineThen(old(asrOfflineQueue), r, asrOfflineQueue, old(served), was, served);
        assert reports[..i + 1] == reports[..i] + [reports[i]];
        QueueCutThen(old(asrOnlineQueue), q, asrOnlineQueue, reports[..i], [reports[i]], chunkMs, segSample);
        EndsConcat(reports[..i], [reports[i]]);
        i := i + 1;
      }
      assert reports[..i] == reports;
    }

    /** One call: the reports the detector made for the new audio are served. */
    method Split(reports: seq<Report>, chunkMs: nat)
      requires Valid() && frameQueue != [] && chunkMs > 0 && Protocol(reports, speechOfflineStart)
      requires WithinAudio(reports, segSample, offset, |stream|)
      modifies this`frameQueue, this`allSamples, this`offset, this`speechStart, this`speechEnd, this`speechOfflineStart,
               this`asrOnlineQueue, this`asrOfflineQueue, this`current, this`served
      ensures Valid() && frameQueue == old(frameQueue)[1..]
              && speechEnd == old(speechEnd) + old(frameQueue)[0] / segSample
      ensures AddAll(Stitch(Spans(old(served)), old(speechOfflineStart), -1), reports) ==
                Stitch(Spans(served), speechOfflineStart, -1)
      ensures Pushed(old(asrOnlineQueue), asrOnlineQueue, old(served), old(current), served, current)
      ensures PushedOffline(old(asrOfflineQueue), asrOfflineQueue, old(served), served)
      ensures old(asrOnlineQueue) <= asrOnlineQueue
      ensures ChunksCut(asrOnlineQueue[|old(asrOnlineQueue)|..], reports, chunkMs, segSample)
      ensures SessionCut(old(served), old(current), chunkMs, segSample) ==>
                SessionCut(served, current, chunkMs, segSample)
      ensures Wholes(served) == Wholes(old(served)) + WholeEnds(reports)
      ensures offset == Max(old(offset),
                            (if speechOfflineStart == -1 then |stream| else speechOfflineStart * segSample)
                            - vectorCache)
      ensures reports == [] && old(speechStart) != -1 && mode != AsrOffline
              && (speechEnd - old(speechStart)) * segSample >= chunkMs * segSample ==>
                speechStart == old(speechStart) + chunkMs
    {
      hide ServedOk, ChunksOk, AllServed, Spans, Add, BufferOk, WithinAudio, Protocol, AllCut, ChunksCut, SessionCut,
           Wholes, WholeEnds;
      TakeFrame();
      if reports == [] {
        QueuesUnchanged(asrOnlineQueue, asrOfflineQueue, served, current);
        NoEnds();
        if speechStart != -1 {
          PushChunk(chunkMs);
          CurrentCut(served, old(current), current, chunkMs, segSample);
          CutChunks(current[|old(current)|..], reports, chunkMs, segSample);
        } else {
          NoneCut(asrOnlineQueue, chunkMs, segSample);
        }
      } else {
        HandleReports(reports, chunkMs);
      }
      EraseSamples();
    }
  }
}
