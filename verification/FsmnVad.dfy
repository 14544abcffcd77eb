/** The batch front end (fsmn-vad.cpp:198-238). */
module FsmnVad {
  import opened Arithmetic
  import opened LfrSpec

  /** Row `i` before normalization: `m` frames, or what is left filled up with the last frame. */
  method Stack(s: Lfr, feats: seq<Feature>, i: nat) returns (p: seq<real>)
    requires LfrOk(s) && i * s.n < |feats|
    ensures p == Joined(feats, i * s.n, s.m)
  {
    p := [];
    var T := |feats|;
    var count := if s.m <= T - i * s.n then s.m else T - i * s.n;
    var j: nat := 0;
    while j < count
      invariant j <= count && p == Joined(feats, i * s.n, j)
    {
      p := p + feats[i * s.n + j];
      j := j + 1;
    }
    var numPadding := s.m - count;
    var k: nat := 0;
    while k < numPadding
      invariant k <= numPadding && p == Joined(feats, i * s.n, count + k)
    {
      p := p + feats[|feats| - 1];
      k := k + 1;
    }
  }

  /** Rows before normalization. */
  ghost predicate RawOk(s: Lfr, frames: seq<Feature>, raw: seq<seq<real>>)
    requires frames != []
  {
    forall i: nat :: i < |raw| ==> raw[i] == Joined(frames, i * s.n, s.m) && |raw[i]| == s.m * s.bins
  }

  method StackNext(s: Lfr, feats: seq<Feature>, raw: seq<seq<real>>) returns (raw': seq<seq<real>>)
    requires LfrOk(s) && FramesOk(s, feats) && feats != [] && RawOk(s, feats, raw) && |raw| * s.n < |feats|
    ensures RawOk(s, feats, raw') && |raw'| == |raw| + 1
  {
    hide Joined;
    var p := Stack(s, feats, |raw|);
    JoinedLength(s, feats, |raw| * s.n, s.m);
    raw' := raw + [p];
  }

  lemma RawLengths(s: Lfr, frames: seq<Feature>, raw: seq<seq<real>>)
    requires frames != [] && RawOk(s, frames, raw)
    ensures forall i :: 0 <= i < |raw| ==> |raw[i]| == s.m * s.bins
  {
  }

  method ApplyCmvn(s: Lfr, rows: seq<seq<real>>) returns (out: seq<seq<real>>)
    requires LfrOk(s) && forall i :: 0 <= i < |rows| ==> |s.means| <= |rows[i]|
    ensures |out| == |rows| && forall i :: 0 <= i < |rows| ==> out[i] == Normalized(rows[i], s.means, s.vars, |s.means|)
  {
    hide Scaled;
    out := [];
    for i := 0 to |rows|
      invariant |out| == i && forall k :: 0 <= k < i ==> out[k] == Normalized(rows[k], s.means, s.vars, |s.means|)
    {
      var row := rows[i];
      for j := 0 to |s.means|
        invariant row == Normalized(rows[i], s.means, s.vars, j)
      {
        row := row[j := Scaled(row[j], s.means[j], s.vars[j])];
      }
      out := out + [row];
    }
  }

  /** Stacked frames, normalized, are the rows. */
  lemma {:induction false} RowsAre(s: Lfr, frames: seq<Feature>, raw: seq<seq<real>>, out: seq<seq<real>>, to: nat)
    requires LfrOk(s) && frames != [] && FramesOk(s, frames) && to <= |raw| == |out|
    requires RawOk(s, frames, raw)
    requires forall i: nat :: i < |raw| ==> out[i] == Normalized(raw[i], s.means, s.vars, |s.means|)
    ensures Rows(s, frames, 0, to) == out[..to]
  {
    hide Joined, Normalized;
    if to > 0 {
      RowsAre(s, frames, raw, out, to - 1);
      JoinedLength(s, frames, (to - 1) * s.n, s.m);
      assert raw[to - 1] == Joined(frames, (to - 1) * s.n, s.m);
      assert Row(s, frames, to - 1) == out[to - 1];
    }
  }

  /** All frames at once. */
  method LfrCmvn(s: Lfr, feats: seq<Feature>) returns (out: seq<seq<real>>)
    requires LfrOk(s) && FramesOk(s, feats) && feats != []
    ensures out == Batch(s, feats)
  {
    hide Joined, Normalized, Rows, LfrOk;
    LfrFacts(s);
    var padded := feats;
    var TLfr := Ceil(1.0 * |feats| as real / s.n as real);
    CeilDivIs(|feats|, s.n);
    var i: nat := 0;
    while i < (s.m - 1) / 2
      invariant i <= (s.m - 1) / 2 && padded == Copies(feats[0], i) + feats
    {
      padded := [padded[0]] + padded;
      i := i + 1;
      assert padded == Copies(feats[0], i) + feats;
    }
    assert padded == Padded(s, feats);
    var outFeats: seq<seq<real>> := [];
    var r: nat := 0;
    while r < TLfr
      invariant r <= TLfr && |outFeats| == r && RawOk(s, padded, outFeats)
    {
      RowInside(|feats|, s.n, r);
      outFeats := StackNext(s, padded, outFeats);
      r := r + 1;
    }
    RawLengths(s, padded, outFeats);
    out := ApplyCmvn(s, outFeats);
    RowsAre(s, padded, outFeats, out, |out|);
    assert out[..|out|] == out;
  }

  lemma LfrFacts(s: Lfr)
    requires LfrOk(s)
    ensures 1 <= s.n < s.m && s.bins > 0 && |s.means| <= s.m * s.bins && |s.means| <= |s.vars|
  {
  }

  /** Every row begins inside the frames. */
  lemma RowInside(t: int, n: nat, i: nat)
    requires n > 0 && i < CeilDiv(t, n)
    ensures i * n < t
  {
    DivBounds(t + n - 1, n);
    MulMono(i + 1, CeilDiv(t, n), n);
    Distribute(i, 1, n);
  }
}
