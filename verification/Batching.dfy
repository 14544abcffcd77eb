/** Offline batches (audio.cpp:1052-1108, 1170-1240; funasrruntime.cpp:241-290): segments are sorted by length,
    fetched in batches, and the replies are put back in the order of the segments. */
module Batching {
  import opened Arithmetic
  import opened FiniteSets
  import opened Sequences
  import opened VadRuns

  /** A segment in samples. */
  datatype Frame = Frame(start: nat, end: nat)

  function Length(f: Frame): int {
    f.end - f.start
  }

  type Message = string

  /** The recognizer replies to a batch frame by frame. */
  type Forward = seq<Frame> -> seq<Message>

  // ---------- permutations ----------

  ghost predicate IsPermutation(index: seq<nat>) {
    && (forall i :: 0 <= i < |index| ==> index[i] < |index|)
    && Distinct(index)
  }

  /** Every position occurs. */
  lemma {:induction false} Occurs(index: seq<nat>, k: nat)
    requires IsPermutation(index) && k < |index|
    ensures exists i :: 0 <= i < |index| && index[i] == k
  {
    DistinctElements(index);
    var (a, b) := (Elements(index), Below(|index|));
    assert a <= b;
    if k !in index {
      assert a <= b - {k} && |b - {k}| == |b| - 1;
      SubsetSize(a, b - {k});
    }
  }

  // ---------- sorting ----------

  ghost predicate SortedBy(index: seq<nat>, frames: seq<Frame>) {
    && (forall i :: 0 <= i < |index| ==> index[i] < |frames|)
    && forall i, j :: 0 <= i < j < |index| ==> Length(frames[index[i]]) <= Length(frames[index[j]])
  }

  /** `std::sort` of the positions by the length of their frames. */
  method SortByLength(frames: seq<Frame>) returns (index: seq<nat>)
    ensures IsPermutation(index) && |index| == |frames| && SortedBy(index, frames)
  {
    hide Length;
    index := [];
    var k: nat := 0;
    while k < |frames|
      invariant k <= |frames| && |index| == k && IsPermutation(index) && SortedBy(index, frames)
    {
      var p: nat := 0;
      while p < k && Length(frames[index[p]]) <= Length(frames[k])
        invariant p <= k && forall i :: 0 <= i < p ==> Length(frames[index[i]]) <= Length(frames[k])
      {
        p := p + 1;
      }
      InsertOk(index, frames, k, p);
      index := index[..p] + [k] + index[p..];
      k := k + 1;
    }
  }

  lemma {:induction false} InsertOk(index: seq<nat>, frames: seq<Frame>, k: nat, p: nat)
    requires |index| == k < |frames| && p <= k && IsPermutation(index) && SortedBy(index, frames)
    requires forall i :: 0 <= i < p ==> Length(frames[index[i]]) <= Length(frames[k])
    requires p < k ==> Length(frames[k]) <= Length(frames[index[p]])
    ensures var index' := index[..p] + [k] + index[p..]; IsPermutation(index') && SortedBy(index', frames)
  {
    hide Length;
    var index' := index[..p] + [k] + index[p..];
    forall i, j | 0 <= i < j < |index'|
      ensures index'[i] != index'[j] && Length(frames[index'[i]]) <= Length(frames[index'[j]])
    {
      if j == p {
      } else if i == p {
        assert index'[j] == index[j - 1] && Length(frames[index[p]]) <= Length(frames[index[j - 1]]);
      } else {
        var (a, b) := (if i < p then i else i - 1, if j < p then j else j - 1);
        assert index'[i] == index[a] && index'[j] == index[b] && a < b;
      }
    }
  }

  // ---------- batches ----------

  ghost function Concat<T>(batches: seq<seq<T>>): seq<T> {
    if batches == [] then [] else Concat(Init(batches)) + Last(batches)
  }

  ghost function Replies(forward: Forward, batches: seq<seq<Frame>>): seq<Message> {
    if batches == [] then [] else Replies(forward, Init(batches)) + forward(Last(batches))
  }

  lemma {:induction false} ConcatSnoc<T>(batches: seq<seq<T>>, batch: seq<T>)
    ensures Concat(batches + [batch]) == Concat(batches) + batch
  {
    assert Init(batches + [batch]) == batches && Last(batches + [batch]) == batch;
  }

  lemma {:induction false} RepliesSnoc(forward: Forward, batches: seq<seq<Frame>>, batch: seq<Frame>)
    ensures Replies(forward, batches + [batch]) == Replies(forward, batches) + forward(batch)
  {
    assert Init(batches + [batch]) == batches && Last(batches + [batch]) == batch;
  }

  function MaxLength(batch: seq<Frame>): int {
    if batch == [] then 0 else
      var rest := MaxLength(Init(batch));
      if rest < Length(Last(batch)) then Length(Last(batch)) else rest
  }

  /** `n` frames padded to the same length. */
  function PaddedSize(length: int, n: nat): int {
    length * n
  }

  /** A batch of several frames, padded to the longest, stays within five minutes, and none of them lasts a minute. */
  ghost predicate BatchOk(batch: seq<Frame>, segSample: nat) {
    && batch != []
    && (|batch| > 1 ==>
          && PaddedSize(MaxLength(batch), |batch|) <= 300 * 1000 * segSample
          && forall i :: 0 <= i < |batch| ==> Length(batch[i]) < 60 * 1000 * segSample)
  }

  /** `frame` does not fit into the batch any more. */
  ghost predicate Full(batch: seq<Frame>, frame: Frame, segSample: nat) {
    || (exists i :: 0 <= i < |batch| && Length(batch[i]) >= 60 * 1000 * segSample)
    || Length(frame) >= 60 * 1000 * segSample
    || PaddedSize(MaxLength(batch + [frame]), |batch| + 1) > 300 * 1000 * segSample
  }

  // ---------- what fits, in samples ----------

  lemma {:induction false} LongestIs(batch: seq<Frame>)
    ensures MaxLength(batch) >= 0
    ensures forall i :: 0 <= i < |batch| ==> batch[i].end - batch[i].start <= MaxLength(batch)
    ensures MaxLength(batch) == 0 ||
            exists i :: 0 <= i < |batch| && MaxLength(batch) == batch[i].end - batch[i].start
  {
    if batch != [] {
      LongestIs(Init(batch));
      assert forall i :: 0 <= i < |batch| - 1 ==> Init(batch)[i] == batch[i];
      assert Last(batch) == batch[|batch| - 1];
    }
  }

  /** The padded size exceeds a limit exactly if some frame does, times the number of frames. */
  lemma {:induction false} PaddedMeans(batch: seq<Frame>, n: nat, limit: nat)
    ensures PaddedSize(MaxLength(batch), n) > limit <==>
              exists i :: 0 <= i < |batch| && (batch[i].end - batch[i].start) * n > limit
  {
    hide MaxLength;
    LongestIs(batch);
    forall i | 0 <= i < |batch| && (batch[i].end - batch[i].start) * n > limit
      ensures PaddedSize(MaxLength(batch), n) > limit
    {
      MulMono(batch[i].end - batch[i].start, MaxLength(batch), n);
    }
  }

  /** A batch of several frames: as often as it has frames, each frame stays within five minutes, and none lasts one. */
  lemma {:induction false} BatchMeans(batch: seq<Frame>, segSample: nat)
    ensures BatchOk(batch, segSample) <==>
              && batch != []
              && (|batch| > 1 ==> forall i :: 0 <= i < |batch| ==>
                    && (batch[i].end - batch[i].start) * |batch| <= 300 * 1000 * segSample
                    && batch[i].end - batch[i].start < 60 * 1000 * segSample)
  {
    hide MaxLength, PaddedSize;
    PaddedMeans(batch, |batch|, 300 * 1000 * segSample);
  }

  /** The frame lasts a minute, or as often as there are frames more than five minutes. */
  predicate Exceeds(f: Frame, n: nat, segSample: nat) {
    f.end - f.start >= 60 * 1000 * segSample || (f.end - f.start) * n > 300 * 1000 * segSample
  }

  /** A frame does not fit if it or one of the batch lasts a minute, or if one of them, as often as there are frames
      then, exceeds five minutes. */
  lemma {:induction false} FullMeans(batch: seq<Frame>, frame: Frame, segSample: nat)
    ensures Full(batch, frame, segSample) <==>
              exists i :: 0 <= i < |batch + [frame]| && Exceeds((batch + [frame])[i], |batch| + 1, segSample)
  {
    hide MaxLength, PaddedSize;
    var all := batch + [frame];
    PaddedMeans(all, |batch| + 1, 300 * 1000 * segSample);
    assert all[|batch|] == frame;
    assert forall i :: 0 <= i < |batch| ==> all[i] == batch[i];
  }

  /** Sorted by the number of samples. */
  lemma {:induction false} SortedMeans(index: seq<nat>, frames: seq<Frame>, i: nat, j: nat)
    requires SortedBy(index, frames) && i < j < |index|
    ensures index[i] < |frames| && index[j] < |frames|
    ensures frames[index[i]].end - frames[index[i]].start <= frames[index[j]].end - frames[index[j]].start
  {
  }

  class Audio {
    const segSample: nat
    const useGpu: bool
    var frameQueue: seq<Frame>

    constructor (segSample: nat, useGpu: bool, frame: Frame)
      requires segSample > 0
      ensures this.segSample == segSample && this.useGpu == useGpu && frameQueue == [frame]
    {
      this.segSample, this.useGpu, frameQueue := segSample, useGpu, [frame];
    }

    /** A span of ms as a frame of samples. */
    function ToFrame(span: Report): Frame
      requires 0 <= span.0 && 0 <= span.1
    {
      SpanTimes(span.0, segSample);
      SpanTimes(span.1, segSample);
      Frame(span.0 * segSample, span.1 * segSample)
    }

    static lemma SpanTimes(a: nat, b: nat)
      ensures a * b >= 0
    {
    }

    ghost predicate Spans(spans: seq<Report>) {
      forall k :: 0 <= k < |spans| ==> 0 <= spans[k].0 && 0 <= spans[k].1
    }

    ghost predicate FramesOf(spans: seq<Report>, frames: seq<Frame>) {
      Spans(spans) && |frames| == |spans| && forall k :: 0 <= k < |spans| ==> frames[k] == ToFrame(spans[k])
    }

    /** A segment is its span in samples. */
    lemma {:induction false} FrameIsSpan(spans: seq<Report>, frames: seq<Frame>, k: nat)
      requires FramesOf(spans, frames) && k < |spans|
      ensures |frames| == |spans|
      ensures frames[k].start == spans[k].0 * segSample && frames[k].end == spans[k].1 * segSample
    {
    }

    /** The segments are stitched together from the reports, and queued by length; `indexVector[i]` is the segment
        that was queued as the `i`-th. */
    method CutSplit(reports: seq<Report>) returns (indexVector: seq<nat>, ghost frames: seq<Frame>)
      requires frameQueue != [] && forall i :: 0 <= i < |reports| ==> reports[i].0 >= -1 && reports[i].1 >= -1
      modifies this`frameQueue
      ensures FramesOf(AddAll(Stitch([], -1, -1), reports).spans, frames)
      ensures IsPermutation(indexVector) && |indexVector| == |frames| && SortedBy(indexVector, frames)
      ensures |frameQueue| == |old(frameQueue)| - 1 + |frames|
              && frameQueue[..|old(frameQueue)| - 1] == old(frameQueue)[1..]
      ensures forall i :: 0 <= i < |frames| ==> frameQueue[|old(frameQueue)| - 1 + i] == frames[indexVector[i]]
    {
      hide IsPermutation, SortedBy, AddAll, ToFrame;
      frameQueue := frameQueue[1..];
      var vadFrames := StitchFrames(reports);
      indexVector := SortByLength(vadFrames);
      frames := vadFrames;
      IndexInside(indexVector, frames);
      ghost var queue := frameQueue;
      var i: nat := 0;
      while i < |indexVector|
        invariant i <= |indexVector| && |frameQueue| == |queue| + i && frameQueue[..|queue|] == queue
        invariant forall k :: 0 <= k < i ==> frameQueue[|queue| + k] == frames[indexVector[k]]
      {
        frameQueue := frameQueue + [vadFrames[indexVector[i]]];
        i := i + 1;
      }
    }

    static lemma IndexInside(index: seq<nat>, frames: seq<Frame>)
      requires SortedBy(index, frames)
      ensures forall i :: 0 <= i < |index| ==> index[i] < |frames|
    {
    }

    /** Stitch starts and ends into frames (audio.cpp:1198-1224). */
    method StitchFrames(reports: seq<Report>) returns (vadFrames: seq<Frame>)
      requires forall i :: 0 <= i < |reports| ==> reports[i].0 >= -1 && reports[i].1 >= -1
      ensures FramesOf(AddAll(Stitch([], -1, -1), reports).spans, vadFrames)
    {
      hide ToFrame, AddAll;
      var speechStartI, speechEndI := -1, -1;
      vadFrames := [];
      ghost var st := Stitch([], -1, -1);
      var i: nat := 0;
      assert reports[0..] == reports;
      while i < |reports|
        invariant i <= |reports| && speechStartI >= -1 && speechEndI >= -1 && st.start == speechStartI
                  && st.end == speechEndI
        invariant FramesOf(st.spans, vadFrames) && AddAll(st, reports[i..]) == AddAll(Stitch([], -1, -1), reports)
      {
        AddNext(st, reports, i);
        if reports[i].0 != -1 {
          speechStartI := reports[i].0;
        }
        if reports[i].1 != -1 {
          speechEndI := reports[i].1;
        }
        st := Add(st, reports[i]);
        if speechStartI != -1 && speechEndI != -1 {
          vadFrames := vadFrames + [ToFrame((speechStartI, speechEndI))];
          speechStartI := -1;
          speechEndI := -1;
        }
        i := i + 1;
      }
      NoMore(st, reports[i..]);
    }

    static lemma AddNext(st: Stitch, reports: seq<Report>, i: nat)
      requires i < |reports|
      ensures AddAll(st, reports[i..]) == AddAll(Add(st, reports[i]), reports[i + 1..])
    {
      assert reports[i..][1..] == reports[i + 1..];
    }

    static lemma NoMore(st: Stitch, reports: seq<Report>)
      requires reports == []
      ensures AddAll(st, reports) == st
    {
    }

    /** The next batch: frames from the front of the queue, at least one, and no more than fit (audio.cpp:1052-1087). */
    method FetchDynamic(batchSize: nat) returns (more: bool, batch: seq<Frame>)
      requires segSample > 0 && batchSize > 0
      modifies this`frameQueue
      ensures more == (old(frameQueue) != []) && batch + frameQueue == old(frameQueue)
      ensures more ==> BatchOk(batch, segSample) && (|batch| <= if useGpu then batchSize else 1)
      ensures more <==> batch != []
      ensures frameQueue != [] && |batch| < (if useGpu then batchSize else 1) ==> Full(batch, frameQueue[0], segSample)
    {
      hide Length, MaxLength, PaddedSize, BatchOk, Full;
      NoFrames();
      var maxAcc := 300 * 1000 * segSample;
      var maxSent := 60 * 1000 * segSample;
      var bsAcc: nat, maxLen := 0, 0;
      var maxBatch := if useGpu then batchSize else 1;
      if |frameQueue| < maxBatch { maxBatch := |frameQueue|; }
      batch := [];
      var idx: nat := 0;
      while idx < maxBatch
        invariant idx <= maxBatch && bsAcc == |batch| == idx && maxLen == MaxLength(batch)
                  && batch + frameQueue == old(frameQueue)
        invariant 0 <= maxLen < maxSent && (batch != [] ==> BatchOk(batch, segSample))
        invariant forall i :: 0 <= i < |batch| ==> Length(batch[i]) < maxSent
      {
        var frame := frameQueue[0];
        var length := Length(frame);
        MaxSnoc(batch, frame);
        if length >= maxSent {
          LongFrame(batch, frame, segSample);
          if bsAcc == 0 {
            bsAcc := bsAcc + 1;
            batch := batch + [frame];
            frameQueue := frameQueue[1..];
          }
          break;
        }
        maxLen := if maxLen < length then length else maxLen;
        if PaddedSize(maxLen, bsAcc + 1) > maxAcc {
          TooBig(batch, frame, segSample);
          break;
        }
        bsAcc := bsAcc + 1;
        batch := batch + [frame];
        frameQueue := frameQueue[1..];
        Fits(batch, segSample);
        idx := idx + 1;
      }
      more := |batch| != 0;
    }

    static lemma NoFrames()
      ensures MaxLength([]) == 0
    {
    }

    /** A frame of a minute or more is a batch of its own, whatever follows. */
    static lemma LongFrame(batch: seq<Frame>, frame: Frame, segSample: nat)
      requires Length(frame) >= 60 * 1000 * segSample
      ensures Full(batch, frame, segSample)
      ensures batch == [] ==> BatchOk(batch + [frame], segSample)
      ensures batch == [] ==> forall next :: Full(batch + [frame], next, segSample)
    {
      assert (batch + [frame])[|batch|] == frame;
    }

    static lemma TooBig(batch: seq<Frame>, frame: Frame, segSample: nat)
      requires PaddedSize(MaxLength(batch + [frame]), |batch| + 1) > 300 * 1000 * segSample
               && MaxLength(batch + [frame]) < 60 * 1000 * segSample
      ensures Full(batch, frame, segSample) && batch != []
    {
      hide MaxLength;
    }

    static lemma Fits(batch: seq<Frame>, segSample: nat)
      requires batch != [] && PaddedSize(MaxLength(batch), |batch|) <= 300 * 1000 * segSample
      requires forall i :: 0 <= i < |batch| ==> Length(batch[i]) < 60 * 1000 * segSample
      ensures BatchOk(batch, segSample)
    {
    }

    static lemma MaxSnoc(batch: seq<Frame>, frame: Frame)
      ensures MaxLength(batch + [frame]) == if MaxLength(batch) < Length(frame) then Length(frame) else MaxLength(batch)
    {
      assert Init(batch + [frame]) == batch && Last(batch + [frame]) == frame;
    }

    /** Fetch and recognize batch by batch; the replies go where `indexVector` says (funasrruntime.cpp:246-290). */
    method Drain(indexVector: seq<nat>, batchSize: nat, forward: Forward)
      returns (msgs: seq<Message>, stimes: seq<nat>, ghost batches: seq<seq<Frame>>)
      requires segSample > 0 && batchSize > 0 && IsPermutation(indexVector) && |indexVector| == |frameQueue|
      requires forall b :: |forward(b)| == |b|
      modifies this`frameQueue
      ensures frameQueue == [] && Concat(batches) == old(frameQueue) && forall b :: b in batches ==>
                BatchOk(b, segSample)
      ensures |msgs| == |stimes| == |indexVector| == |Replies(forward, batches)|
      ensures forall i :: 0 <= i < |indexVector| ==>
                msgs[indexVector[i]] == Replies(forward, batches)[i]
                && stimes[indexVector[i]] == old(frameQueue)[i].start
    {
      hide BatchOk;
      msgs, stimes := Blank(|indexVector|), Zeros(|indexVector|);
      batches := [];
      ghost var (frames, replies) := (frameQueue, []);
      var msgIdx: nat := 0;
      var more, batch := FetchDynamic(batchSize);
      assert [] + batch == batch;
      while more
        invariant Concat(batches) + batch + frameQueue == frames && replies == Replies(forward, batches)
                  && |replies| == |Concat(batches)| == msgIdx
        invariant |msgs| == |stimes| == |indexVector| == |frames| && forall b :: b in batches ==> BatchOk(b, segSample)
        invariant forall i :: 0 <= i < msgIdx ==>
                    msgs[indexVector[i]] == replies[i] && stimes[indexVector[i]] == frames[i].start
        invariant if more then batch != [] && BatchOk(batch, segSample) else batch == [] && frameQueue == []
        decreases |frameQueue| + |batch|
      {
        var msgBatch := forward(batch);
        ConcatSnoc(batches, batch);
        RepliesSnoc(forward, batches, batch);
        msgs, stimes := Scatter(indexVector, msgIdx, batch, msgBatch, msgs, stimes, frames, replies);
        msgIdx := msgIdx + |batch|;
        batches, replies := batches + [batch], replies + msgBatch;
        ghost var before := frameQueue;
        more, batch := FetchDynamic(batchSize);
        Regroup(Concat(batches), before, batch, frameQueue);
      }
      assert Concat(batches) + [] + [] == Concat(batches);
    }

    static lemma Regroup(a: seq<Frame>, before: seq<Frame>, batch: seq<Frame>, after: seq<Frame>)
      requires batch + after == before
      ensures a + batch + after == a + before
    {
    }

    static function Blank(n: nat): (r: seq<Message>)
      ensures |r| == n
    {
      if n == 0 then [] else Blank(n - 1) + [""]
    }

    static function Zeros(n: nat): (r: seq<nat>)
      ensures |r| == n
    {
      if n == 0 then [] else Zeros(n - 1) + [0]
    }

    /** The replies to one batch. */
    static method Scatter(indexVector: seq<nat>, from: nat, batch: seq<Frame>, msgBatch: seq<Message>,
                          msgs0: seq<Message>, stimes0: seq<nat>, ghost frames: seq<Frame>, ghost replies: seq<Message>)
      returns (msgs: seq<Message>, stimes: seq<nat>)
      requires IsPermutation(indexVector) && |msgs0| == |stimes0| == |indexVector| == |frames|
      requires from == |replies| && from + |batch| <= |frames| && frames[from..from + |batch|] == batch
               && |msgBatch| == |batch|
      requires forall i :: 0 <= i < from ==>
                 msgs0[indexVector[i]] == replies[i] && stimes0[indexVector[i]] == frames[i].start
      ensures |msgs| == |stimes| == |indexVector|
      ensures forall i :: 0 <= i < from + |batch| ==>
                msgs[indexVector[i]] == (replies + msgBatch)[i] && stimes[indexVector[i]] == frames[i].start
    {
      msgs, stimes := msgs0, stimes0;
      var idx: nat := 0;
      while idx < |batch|
        invariant idx <= |batch| && |msgs| == |stimes| == |indexVector|
        invariant forall i :: 0 <= i < from + idx ==>
                    msgs[indexVector[i]] == (replies + msgBatch)[i] && stimes[indexVector[i]] == frames[i].start
      {
        assert frames[from + idx] == batch[idx];
        if from + idx < |indexVector| {
          msgs := msgs[indexVector[from + idx] := msgBatch[idx]];
          stimes := stimes[indexVector[from + idx] := batch[idx].start];
        }
        idx := idx + 1;
      }
    }

    /** After sorting, batching and scattering, message `k` is the reply to segment `k`: it was fetched exactly
        once, and the message beside it is its own start. */
    static lemma {:induction false} MessageOfSegment(indexVector: seq<nat>, frames: seq<Frame>, queue: seq<Frame>,
                                                     msgs: seq<Message>, stimes: seq<nat>, replies: seq<Message>,
                                                     k: nat)
      requires IsPermutation(indexVector) && |indexVector| == |frames| == |queue| == |msgs| == |stimes| == |replies|
               && k < |frames|
      requires forall i :: 0 <= i < |indexVector| ==> queue[i] == frames[indexVector[i]]
      requires forall i :: 0 <= i < |indexVector| ==>
                 msgs[indexVector[i]] == replies[i] && stimes[indexVector[i]] == queue[i].start
      ensures exists i :: 0 <= i < |queue| && indexVector[i] == k && queue[i] == frames[k] && msgs[k] == replies[i]
      ensures stimes[k] == frames[k].start && forall i, j :: 0 <= i < j < |queue| ==>
                !(indexVector[i] == k && indexVector[j] == k)
    {
      Occurs(indexVector, k);
    }
  }
}
