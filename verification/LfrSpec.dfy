/** Low-frame-rate stacking of feature frames as one batch computation (fsmn-vad.cpp:198-238): frames are padded on
    both sides with copies of the first and the last one, and every `n`-th run of `m` frames becomes one row. */
module LfrSpec {
  import opened Arithmetic

  type Feature = seq<real>

  function Scaled(x: real, mean: real, scale: real): real {
    (x + mean) * scale
  }

  /** Mean and variance normalization of a row, up to entry `k`. */
  function Normalized(row: seq<real>, means: seq<real>, vars: seq<real>, k: nat): (r: seq<real>)
    requires k <= |means| <= |row| && |means| <= |vars|
    ensures |r| == |row| && forall j :: k <= j < |row| ==> r[j] == row[j]
  {
    if k == 0 then row else
      var r := Normalized(row, means, vars, k - 1);
      r[k - 1 := Scaled(row[k - 1], means[k - 1], vars[k - 1])]
  }

  /** `count` copies of a frame. */
  function Copies(frame: Feature, count: nat): (r: seq<Feature>)
    ensures |r| == count && forall i :: 0 <= i < count ==> r[i] == frame
  {
    if count == 0 then [] else [frame] + Copies(frame, count - 1)
  }

  /** `count` frames in a row from `start` on, with the last frame repeated past the end. */
  function Joined(frames: seq<Feature>, start: nat, count: nat): seq<real>
    requires frames != []
  {
    if count == 0 then []
    else
      var k := start + count - 1;
      Joined(frames, start, count - 1) + frames[if k < |frames| then k else |frames| - 1]
  }

  /** The setting: frames per row, frames between rows, features per frame, and the normalization. */
  datatype Lfr = Lfr(m: nat, n: nat, bins: nat, means: seq<real>, vars: seq<real>)

  ghost predicate LfrOk(s: Lfr) {
    1 <= s.n < s.m && s.bins > 0 && |s.means| <= s.m * s.bins && |s.means| <= |s.vars|
  }

  ghost predicate FramesOk(s: Lfr, frames: seq<Feature>) {
    forall i :: 0 <= i < |frames| ==> |frames[i]| == s.bins
  }

  function LeftPad(s: Lfr): nat
    requires s.m > 0
  {
    (s.m - 1) / 2
  }

  lemma {:induction false} JoinedLength(s: Lfr, frames: seq<Feature>, start: nat, count: nat)
    requires frames != [] && FramesOk(s, frames)
    ensures |Joined(frames, start, count)| == count * s.bins
  {
    if count > 0 {
      JoinedLength(s, frames, start, count - 1);
      assert count * s.bins == (count - 1) * s.bins + s.bins;
    }
  }

  /** Row `i` of the padded frames. */
  ghost function Row(s: Lfr, frames: seq<Feature>, i: nat): (r: seq<real>)
    requires LfrOk(s) && frames != [] && FramesOk(s, frames)
    ensures |r| == s.m * s.bins
  {
    JoinedLength(s, frames, i * s.n, s.m);
    Normalized(Joined(frames, i * s.n, s.m), s.means, s.vars, |s.means|)
  }

  ghost function Rows(s: Lfr, frames: seq<Feature>, from: nat, to: nat): (r: seq<seq<real>>)
    requires LfrOk(s) && frames != [] && FramesOk(s, frames) && from <= to
    ensures |r| == to - from && forall i :: 0 <= i < |r| ==> |r[i]| == s.m * s.bins
  {
    if from == to then [] else Rows(s, frames, from, to - 1) + [Row(s, frames, to - 1)]
  }

  lemma {:induction false} RowsConcat(s: Lfr, frames: seq<Feature>, a: nat, b: nat, c: nat)
    requires LfrOk(s) && frames != [] && FramesOk(s, frames) && a <= b <= c
    ensures Rows(s, frames, a, c) == Rows(s, frames, a, b) + Rows(s, frames, b, c)
    decreases c
  {
    hide Row;
    if b == c {
      assert Rows(s, frames, b, c) == [];
    } else {
      RowsConcat(s, frames, a, b, c - 1);
    }
  }

  function CeilDiv(a: int, n: nat): int
    requires n > 0
  {
    (a + n - 1) / n
  }

  lemma {:induction false} CeilDivIs(a: int, n: nat)
    requires n > 0
    ensures Ceil(a as real / n as real) == CeilDiv(a, n)
  {
    var (x, c, d) := (a as real / n as real, CeilDiv(a, n), n as real);
    DivIs(a as real, d);
    assert x * d == a as real;
    DivBounds(a + n - 1, n);
    MulReal(c, n);
    assert c as real * d == (c * n) as real && (c * n) as real >= a as real;
    MulDiff(c as real, 1.0, d);
    assert (c as real - 1.0) * d == (c * n) as real - d && (c * n) as real - d < a as real;
    CancelLess(c as real - 1.0, x, d);
    CancelLess(c as real, x, d);
    assert c as real - 1.0 < x <= c as real;
    CeilUnique(x, c);
  }

  lemma CeilUnique(x: real, c: int)
    requires c as real - 1.0 < x <= c as real
    ensures Ceil(x) == c
  {
    CeilIs(x);
  }

  /** Counting rows from row `c` on. */
  lemma CeilShift(a: int, n: nat, c: int)
    requires n > 0
    ensures CeilDiv(a - c * n, n) == CeilDiv(a, n) - c
  {
    var (p, q) := (CeilDiv(a - c * n, n), CeilDiv(a, n));
    DivBounds(a - c * n + n - 1, n);
    DivBounds(a + n - 1, n);
    Distribute(p, c, n);
    if p + c < q { MulMono(p + c + 1, q, n); Distribute(p + c, 1, n); }
    if p + c > q { MulMono(q + 1, p + c, n); Distribute(q, 1, n); }
  }

  /** The padding on the left. */
  ghost function Padded(s: Lfr, frames: seq<Feature>): (r: seq<Feature>)
    requires LfrOk(s)
    ensures |r| == if frames == [] then 0 else LeftPad(s) + |frames|
    ensures FramesOk(s, frames) ==> FramesOk(s, r)
  {
    if frames == [] then [] else Copies(frames[0], LeftPad(s)) + frames
  }

  /** The rows of all frames at once; no frames, no rows. */
  ghost function Batch(s: Lfr, frames: seq<Feature>): (r: seq<seq<real>>)
    requires LfrOk(s) && FramesOk(s, frames)
    ensures |r| == CeilDiv(|frames|, s.n) && forall i :: 0 <= i < |r| ==> |r[i]| == s.m * s.bins
  {
    if frames == [] then [] else Rows(s, Padded(s, frames), 0, CeilDiv(|frames|, s.n))
  }

  // ---------- suffixes of the padded frames ----------

  lemma {:induction false} JoinedSuffix(frames: seq<Feature>, from: nat, start: nat, count: nat)
    requires from < |frames|
    ensures Joined(frames[from..], start, count) == Joined(frames, from + start, count)
  {
    if count > 0 { JoinedSuffix(frames, from, start, count - 1); }
  }

  /** Rows of the frames from row `c` on are the later rows. */
  lemma {:induction false} RowsSuffix(s: Lfr, frames: seq<Feature>, c: nat, to: nat)
    requires LfrOk(s) && FramesOk(s, frames) && c * s.n < |frames|
    ensures FramesOk(s, frames[c * s.n..]) && Rows(s, frames[c * s.n..], 0, to) == Rows(s, frames, c, c + to)
  {
    hide Row;
    if to > 0 {
      RowsSuffix(s, frames, c, to - 1);
      RowSuffix(s, frames, c, to - 1);
    }
  }

  lemma {:induction false} RowSuffix(s: Lfr, frames: seq<Feature>, c: nat, i: nat)
    requires LfrOk(s) && FramesOk(s, frames) && c * s.n < |frames|
    ensures FramesOk(s, frames[c * s.n..]) && Row(s, frames[c * s.n..], i) == Row(s, frames, c + i)
  {
    hide Joined, Normalized;
    JoinedSuffix(frames, c * s.n, i * s.n, s.m);
    Distribute(c, i, s.n);
  }

  /** A row that lies inside the frames does not change when more frames arrive. */
  lemma {:induction false} JoinedMore(frames: seq<Feature>, more: seq<Feature>, start: nat, count: nat)
    requires frames != [] && start + count <= |frames|
    ensures Joined(frames + more, start, count) == Joined(frames, start, count)
  {
    if count > 0 { JoinedMore(frames, more, start, count - 1); }
  }

  lemma {:induction false} RowsMore(s: Lfr, frames: seq<Feature>, more: seq<Feature>, to: nat)
    requires LfrOk(s) && frames != [] && FramesOk(s, frames) && FramesOk(s, frames + more)
    requires to > 0 ==> (to - 1) * s.n + s.m <= |frames|
    ensures Rows(s, frames + more, 0, to) == Rows(s, frames, 0, to)
  {
    if to > 0 {
      if to > 1 { MulMono(to - 2, to - 1, s.n); }
      RowsMore(s, frames, more, to - 1);
      JoinedMore(frames, more, (to - 1) * s.n, s.m);
      assert Row(s, frames + more, to - 1) == Row(s, frames, to - 1);
    }
  }
}
