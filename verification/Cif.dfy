/** The integrate-and-fire search of the streaming recognizer, chunk by chunk (paraformer-online.cpp:270-362). */
module Cif {
  import opened CifSpec

  function Zip(alphas: seq<real>, hidden: seq<Vec>): (r: seq<Item>)
    requires |alphas| == |hidden|
    ensures |r| == |alphas| && forall i :: 0 <= i < |r| ==> r[i] == Item(alphas[i], hidden[i])
  {
    if alphas == [] then [] else [Item(alphas[0], hidden[0])] + Zip(alphas[1..], hidden[1..])
  }

  /** Only the middle of a chunk counts: the weights of the frames it shares with its neighbours are zero. */
  ghost predicate IsMasked(alphas: seq<real>, masked: seq<real>, from: nat, to: nat) {
    && |masked| == |alphas|
    && forall i :: 0 <= i < |alphas| ==> masked[i] == if from <= i < to then alphas[i] else 0.0
  }

  ghost predicate SameSize(hidden: seq<Vec>, d: nat) {
    forall i :: 0 <= i < |hidden| ==> |hidden[i]| == d
  }

  lemma ZipOk(alphas: seq<real>, hidden: seq<Vec>, d: nat)
    requires |alphas| == |hidden| && SameSize(hidden, d)
    ensures ItemsOk(Zip(alphas, hidden), d)
  {
  }

  class ParaformerOnline {
    const chunkSize: (nat, nat, nat)
    const cifThreshold: real
    const tailAlphas: real
    const encoderSize: nat
    var isLastChunk: bool
    var hiddenCache: seq<Vec>
    var alphasCache: seq<real>

    /** The stream so far, and the vectors fired. */
    ghost var items: seq<Item>
    ghost var emitted: seq<Vec>

    /** One item is cached; while no weight was out of range, it is what a run over the whole stream leaves. */
    ghost predicate Valid()
      reads this`items, this`emitted, this`hiddenCache, this`alphasCache
    {
      && cifThreshold > 0.0 && |alphasCache| == |hiddenCache| == 1 && SameSize(hiddenCache, encoderSize)
      && ItemsOk(items, encoderSize) && (InRange(items, cifThreshold) ==> IsRun(CachedItem(), emitted))
    }

    ghost function CachedItem(): Item
      requires |alphasCache| == |hiddenCache| == 1
      reads this`hiddenCache, this`alphasCache
    {
      Item(alphasCache[0], hiddenCache[0])
    }

    ghost predicate IsRun(cached: Item, fired: seq<Vec>)
      requires ItemsOk(items, encoderSize)
      reads this`items
    {
      var r := Run(Start(encoderSize), cifThreshold, items, encoderSize);
      Cached(r.0) == cached && r.1 == fired
    }

    constructor (chunkSize: (nat, nat, nat), cifThreshold: real, tailAlphas: real, encoderSize: nat)
      requires cifThreshold > 0.0
      ensures Valid() && items == [] && emitted == []
    {
      this.chunkSize, this.cifThreshold, this.tailAlphas, this.encoderSize := chunkSize, cifThreshold, tailAlphas,
          encoderSize;
      new;
      InitCache();
    }

    method InitCache()
      requires cifThreshold > 0.0
      modifies this
      ensures Valid() && items == [] && emitted == [] && !isLastChunk
    {
      isLastChunk := false;
      hiddenCache, alphasCache := [ZeroVec(encoderSize)], [0.0];
      items, emitted := [], [];
    }

    /** Clear the weights of the frames before and after the chunk proper. */
    method Mask(alphas0: seq<real>) returns (alphas: seq<real>)
      requires |alphas0| >= chunkSize.0
      ensures IsMasked(alphas0, alphas, chunkSize.0, chunkSize.0 + chunkSize.1)
    {
      alphas := alphas0;
      var i: nat := 0;
      while i < chunkSize.0
        invariant i <= chunkSize.0 && IsMasked(alphas0, alphas, i, |alphas0|)
      {
        alphas := alphas[i := 0.0];
        i := i + 1;
      }
      var chunkSizeSuf := chunkSize.0 + chunkSize.1;
      i := chunkSizeSuf;
      while i < |alphas|
        invariant chunkSizeSuf <= i && |alphas| == |alphas0|
        invariant forall k :: 0 <= k < |alphas| ==>
                    alphas[k] == if k < chunkSize.0 || chunkSizeSuf <= k < i then 0.0 else alphas0[k]
      {
        alphas := alphas[i := 0.0];
        i := i + 1;
      }
    }

    method AddScaled(frames: Vec, a: real, h: Vec) returns (sum: Vec)
      requires |frames| == |h|
      ensures sum == Plus(frames, Scaled(a, h))
    {
      hide Times;
      sum := frames;
      var j: nat := 0;
      while j < |h|
        invariant j <= |h| == |sum|
        invariant forall k: nat :: k < |sum| ==> sum[k] == if k < j then frames[k] + Times(a, h[k]) else frames[k]
      {
        sum := sum[j := sum[j] + Times(a, h[j])];
        j := j + 1;
      }
    }

    method ScaleInto(frames: Vec, a: real, h: Vec) returns (scaled: Vec)
      requires |frames| == |h|
      ensures scaled == Scaled(a, h)
    {
      hide Times;
      scaled := frames;
      var j: nat := 0;
      while j < |h|
        invariant j <= |h| == |scaled|
        invariant forall k: nat :: k < j ==> scaled[k] == Times(a, h[k])
      {
        scaled := scaled[j := Times(a, h[j])];
        j := j + 1;
      }
    }

    /** Integrate a chunk from zero: its fires, and what is left. */
    method Integrate(alphas: seq<real>, hidden: seq<Vec>) returns (intergrate: real, frames: Vec, listFrame: seq<Vec>)
      requires |alphas| == |hidden| && SameSize(hidden, encoderSize)
      ensures ItemsOk(Zip(alphas, hidden), encoderSize) && |frames| == encoderSize
      ensures Run(Start(encoderSize), cifThreshold, Zip(alphas, hidden), encoderSize) ==
                (Acc(intergrate, frames), listFrame)
    {
      hide Scaled, Plus, ItemsOk, Run;
      ghost var all := Zip(alphas, hidden);
      ZipOk(alphas, hidden, encoderSize);
      intergrate, frames, listFrame := 0.0, ZeroVec(encoderSize), [];
      var i: nat := 0;
      NothingRun(cifThreshold, all, encoderSize);
      while i < |alphas|
        invariant i <= |alphas| && |frames| == encoderSize && ItemsOk(all[..i], encoderSize)
        invariant Run(Start(encoderSize), cifThreshold, all[..i], encoderSize) == (Acc(intergrate, frames), listFrame)
      {
        RunNext(Start(encoderSize), cifThreshold, all, i, encoderSize);
        var alpha := alphas[i];
        if alpha + intergrate < cifThreshold {
          frames := AddScaled(frames, alpha, hidden[i]);
          intergrate := intergrate + alpha;
          assert listFrame + [] == listFrame;
        } else {
          frames := AddScaled(frames, cifThreshold - intergrate, hidden[i]);
          listFrame := listFrame + [frames];
          intergrate := intergrate + alpha;
          intergrate := intergrate - cifThreshold;
          frames := ScaleInto(frames, intergrate, hidden[i]);
        }
        i := i + 1;
      }
      assert all[..i] == all;
    }

    static lemma NothingRun(threshold: real, items: seq<Item>, d: nat)
      ensures ItemsOk(items[..0], d) && Run(Start(d), threshold, items[..0], d) == (Start(d), [])
    {
    }

    method Average(frames: Vec, intergrate: real) returns (average: Vec)
      requires intergrate > 0.0
      ensures average == Divided(frames, intergrate)
    {
      average := ZeroVec(|frames|);
      var i: nat := 0;
      while i < |frames|
        invariant i <= |frames| == |average|
        invariant forall k: nat :: k < i ==> average[k] == frames[k] / intergrate
      {
        average := average[i := frames[i] / intergrate];
        i := i + 1;
      }
    }

    /** The part of a chunk that counts, and after the last chunk one more step with the tail weight. */
    ghost function Chunk(masked: seq<real>, hidden: seq<Vec>, last: bool): seq<Item>
      requires |masked| == |hidden|
    {
      Zip(masked, hidden) + if last then [Item(tailAlphas, ZeroVec(encoderSize))] else []
    }

    /** One chunk: the cached item goes first.  While no weight exceeds the threshold, all vectors fired so far are
        those of one run over all masked weights so far, however the stream was cut into chunks. */
    method CifSearch(hidden0: seq<Vec>, alphas0: seq<real>) returns (listFrame: seq<Vec>, ghost masked: seq<real>)
      requires Valid() && |alphas0| == |hidden0| > 0 && chunkSize.0 <= |alphas0| && SameSize(hidden0, encoderSize)
      modifies this`hiddenCache, this`alphasCache, this`items, this`emitted
      ensures Valid() && IsMasked(alphas0, masked, chunkSize.0, chunkSize.0 + chunkSize.1)
      ensures items == old(items) + Chunk(masked, hidden0, isLastChunk) && emitted == old(emitted) + listFrame
      ensures var chunk := [old(CachedItem())] + Chunk(masked, hidden0, isLastChunk);
              && ItemsOk(chunk, encoderSize)
              && var r := Run(Start(encoderSize), cifThreshold, chunk, encoderSize);
                 listFrame == r.1 && CachedItem() == Cached(r.0)
      ensures ItemsOk(items, encoderSize)
      ensures InRange(items, cifThreshold) ==> emitted == Run(Start(encoderSize), cifThreshold, items, encoderSize).1
    {
      hide Step, Cached, Zip, Run;
      var alphas := Mask(alphas0);
      var hidden := hidden0;
      masked := alphas;
      ChunkOk(masked, hidden0);
      ghost var was := CachedItem();
      if |hiddenCache| > 0 {
        hidden := hiddenCache + hidden;
        alphas := alphasCache + alphas;
      }
      if isLastChunk {
        hidden := hidden + [ZeroVec(encoderSize)];
        alphas := alphas + [tailAlphas];
      }
      ghost var chunk := Chunk(masked, hidden0, isLastChunk);
      ZipChunk(masked, hidden0, isLastChunk, was, alphas, hidden);
      var intergrate, frames;
      intergrate, frames, listFrame := Integrate(alphas, hidden);
      if InRange(items + chunk, cifThreshold) {
        InRangeBefore(items, chunk, cifThreshold);
        ChunkContinues(cifThreshold, items, chunk, encoderSize);
      }
      Cache(intergrate, frames);
      items, emitted := items + chunk, emitted + listFrame;
    }

    /** What is left is kept for the next chunk. */
    method Cache(intergrate: real, frames: Vec)
      requires |frames| == encoderSize
      modifies this`hiddenCache, this`alphasCache
      ensures |alphasCache| == |hiddenCache| == 1 && SameSize(hiddenCache, encoderSize)
      ensures CachedItem() == Cached(Acc(intergrate, frames))
    {
      alphasCache := [intergrate];
      if intergrate > 0.0 {
        var average := Average(frames, intergrate);
        hiddenCache := [average];
      } else {
        hiddenCache := [frames];
      }
    }

    static lemma InRangeBefore(a: seq<Item>, b: seq<Item>, threshold: real)
      requires InRange(a + b, threshold)
      ensures InRange(a, threshold)
    {
      assert a == (a + b)[..|a|];
    }

    lemma ChunkOk(masked: seq<real>, hidden: seq<Vec>)
      requires |masked| == |hidden| && SameSize(hidden, encoderSize)
      ensures forall last :: ItemsOk(Chunk(masked, hidden, last), encoderSize)
    {
    }

    lemma {:induction false} ZipChunk(masked: seq<real>, hidden0: seq<Vec>, last: bool, cached: Item, alphas: seq<real>,
                                      hidden: seq<Vec>)
      requires |masked| == |hidden0| && SameSize(hidden0, encoderSize) && |cached.hidden| == encoderSize
      requires alphas == [cached.alpha] + masked + (if last then [tailAlphas] else [])
      requires hidden == [cached.hidden] + hidden0 + (if last then [ZeroVec(encoderSize)] else [])
      ensures |alphas| == |hidden| && SameSize(hidden, encoderSize)
              && Zip(alphas, hidden) == [cached] + Chunk(masked, hidden0, last)
    {
      var (a, b) := (Zip(alphas, hidden), [cached] + Chunk(masked, hidden0, last));
      assert |a| == |b|;
      forall i | 0 <= i < |a|
        ensures a[i] == b[i]
      {
      }
    }
  }
}
