/** The entries of the stacked rows, told of the feature frames alone (fsmn-vad.cpp:198-238). */
module LfrEntries {
  import opened Arithmetic
  import opened LfrSpec

  function Clamp(k: int, n: nat): (r: nat)
    requires n > 0
    ensures r < n
  {
    if k < 0 then 0 else if k >= n then n - 1 else k
  }

  lemma {:induction false} NormalizedAt(row: seq<real>, means: seq<real>, vars: seq<real>, k: nat, e: nat)
    requires k <= |means| <= |row| && |means| <= |vars| && e < |row|
    ensures Normalized(row, means, vars, k)[e] == if e < k then (row[e] + means[e]) * vars[e] else row[e]
  {
    hide Scaled;
    if k > 0 {
      NormalizedAt(row, means, vars, k - 1, e);
      assert Scaled(row[k - 1], means[k - 1], vars[k - 1]) == (row[k - 1] + means[k - 1]) * vars[k - 1] by {
        ScaledIs(row[k - 1], means[k - 1], vars[k - 1]);
      }
    }
  }

  lemma ScaledIs(x: real, mean: real, scale: real)
    ensures Scaled(x, mean, scale) == (x + mean) * scale
  {
  }

  lemma {:induction false} JoinedAt(s: Lfr, frames: seq<Feature>, start: nat, count: nat, q: nat, b: nat)
    requires frames != [] && FramesOk(s, frames) && q < count && b < s.bins
    ensures q * s.bins + b < |Joined(frames, start, count)|
    ensures Joined(frames, start, count)[q * s.bins + b] == frames[Clamp(start + q, |frames|)][b]
  {
    JoinedLength(s, frames, start, count);
    JoinedLength(s, frames, start, count - 1);
    EntryBelow(q, b, count, s.bins);
    if q < count - 1 {
      JoinedAt(s, frames, start, count - 1, q, b);
    }
  }

  lemma EntryBelow(q: nat, b: nat, count: nat, bins: nat)
    requires q < count && b < bins
    ensures q * bins + b < count * bins
  {
    MulMono(q + 1, count, bins);
    Distribute(q, 1, bins);
  }

  lemma {:induction false} PaddedAt(s: Lfr, feats: seq<Feature>, k: nat)
    requires LfrOk(s) && feats != []
    ensures |Padded(s, feats)| == LeftPad(s) + |feats|
    ensures Padded(s, feats)[Clamp(k, |Padded(s, feats)|)] == feats[Clamp(k - (s.m - 1) / 2, |feats|)]
  {
    assert LeftPad(s) == (s.m - 1) / 2;
  }

  lemma {:induction false} RowsAt(s: Lfr, frames: seq<Feature>, to: nat, i: nat)
    requires LfrOk(s) && frames != [] && FramesOk(s, frames) && i < to
    ensures Rows(s, frames, 0, to)[i] == Row(s, frames, i)
  {
    hide Row;
    if i < to - 1 { RowsAt(s, frames, to - 1, i); }
  }

  /** Entry `b` of the `q`-th frame of row `i` is that of frame `i * n + q`, counted from the middle of the first
      row on and held at both ends, and normalized where the setting has a mean for it. */
  lemma {:induction false} EntryIs(s: Lfr, feats: seq<Feature>, i: nat, q: nat, b: nat, e: nat)
    requires LfrOk(s) && FramesOk(s, feats) && feats != [] && i < CeilDiv(|feats|, s.n) && q < s.m && b < s.bins
    requires e == q * s.bins + b
    ensures e < s.m * s.bins
    ensures var x := feats[Clamp(i * s.n + q - (s.m - 1) / 2, |feats|)][b];
            Batch(s, feats)[i][e] == if e < |s.means| then (x + s.means[e]) * s.vars[e] else x
  {
    hide Normalized, Joined, Padded, Clamp, Rows, Row;
    var p := Padded(s, feats);
    EntryBelow(q, b, s.m, s.bins);
    PaddedAt(s, feats, i * s.n + q);
    RowsAt(s, p, CeilDiv(|feats|, s.n), i);
    RowEntry(s, p, i, q, b, e);
  }

  lemma {:induction false} RowEntry(s: Lfr, frames: seq<Feature>, i: nat, q: nat, b: nat, e: nat)
    requires LfrOk(s) && FramesOk(s, frames) && frames != [] && q < s.m && b < s.bins && e == q * s.bins + b
    ensures e < s.m * s.bins
    ensures var x := frames[Clamp(i * s.n + q, |frames|)][b];
            Row(s, frames, i)[e] == if e < |s.means| then (x + s.means[e]) * s.vars[e] else x
  {
    hide Normalized, Joined, Clamp;
    EntryBelow(q, b, s.m, s.bins);
    JoinedLength(s, frames, i * s.n, s.m);
    JoinedAt(s, frames, i * s.n, s.m, q, b);
    NormalizedAt(Joined(frames, i * s.n, s.m), s.means, s.vars, |s.means|, e);
  }
}
