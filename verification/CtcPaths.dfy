/** The reference meaning of connectionist temporal classification (CTC) scores.

    A label path assigns one label to every frame.  Collapsing a path merges adjacent repeats and
    then drops blanks.  The mass of a prefix is the sum, over every label path that collapses to it,
    of the product of the frame probabilities.  Probabilities are linear: a log probability `x` of the
    program stands for `exp(x)`, so its `LogAdd` is addition here, its `+` is multiplication, and its
    floor `-kFloatMax` is zero. */
module CtcPaths {
  import opened Sequences

  const BLANK: nat := 0

  type Path = seq<nat>
  type Frame = seq<real>

  // ---------- collapsing ----------

  function MergeRepeats(path: Path): Path {
    if path == [] then []
    else if |path| > 1 && Last(Init(path)) == Last(path) then MergeRepeats(Init(path))
    else MergeRepeats(Init(path)) + [Last(path)]
  }

  function DropBlanks(path: Path): Path {
    if path == [] then []
    else if Last(path) == BLANK then DropBlanks(Init(path))
    else DropBlanks(Init(path)) + [Last(path)]
  }

  function Collapse(path: Path): Path {
    DropBlanks(MergeRepeats(path))
  }

  /** The empty path counts as ending in blank: nothing blocks the next label. */
  predicate EndsInBlank(path: Path) {
    path == [] || Last(path) == BLANK
  }

  lemma {:induction false} CollapseStep(path: Path, k: nat)
    ensures Collapse(path + [k]) ==
            if k == BLANK || (path != [] && Last(path) == k) then Collapse(path) else Collapse(path) + [k]
  {
    Snoc(path, k);
    Snoc(MergeRepeats(path), k);
  }

  /** A path that ends in a proper label collapses to a prefix that ends in that label. */
  lemma {:induction false} CollapseLast(path: Path)
    requires !EndsInBlank(path)
    ensures Collapse(path) != [] && Last(Collapse(path)) == Last(path)
  {
    UnSnoc(path);
    CollapseStep(Init(path), Last(path));
    if Init(path) != [] && Last(Init(path)) == Last(path) {
      CollapseLast(Init(path));
    }
  }

  lemma {:induction false} CollapseHasNoBlank(path: Path)
    ensures BLANK !in Collapse(path)
  {
    if path != [] {
      UnSnoc(path);
      CollapseStep(Init(path), Last(path));
      CollapseHasNoBlank(Init(path));
    }
  }

  // ---------- paths through frames ----------

  ghost predicate Frames(frames: seq<Frame>, v: nat) {
    forall t :: 0 <= t < |frames| ==> |frames[t]| == v && NonNegative(frames[t])
  }

  ghost predicate NonNegative(frame: Frame) {
    forall k :: 0 <= k < |frame| ==> frame[k] >= 0.0
  }

  ghost predicate LabelsBelow(path: Path, v: nat) {
    forall i :: 0 <= i < |path| ==> path[i] < v
  }

  ghost predicate PathOf(path: Path, n: nat, v: nat) {
    |path| == n && LabelsBelow(path, v)
  }

  /** Multiplication of probabilities, the program's addition of log probabilities. */
  function Times(a: real, b: real): real {
    a * b
  }

  lemma TimesZero(c: real)
    ensures Times(0.0, c) == 0.0
  {
  }

  function Prob(frame: Frame, k: nat): real {
    if k < |frame| then frame[k] else 0.0
  }

  /** The product of the probabilities a path picks, one per frame. */
  ghost function Weight(frames: seq<Frame>, path: Path): real {
    if frames == [] || path == [] then 1.0
    else Times(Weight(Init(frames), Init(path)), Prob(Last(frames), Last(path)))
  }

  lemma {:induction false} WeightNonNegative(frames: seq<Frame>, v: nat, path: Path)
    requires Frames(frames, v) && PathOf(path, |frames|, v)
    ensures Weight(frames, path) >= 0.0
  {
    if path != [] {
      WeightNonNegative(Init(frames), v, Init(path));
    }
  }

  // ---------- every path, once ----------

  ghost function Appended(paths: seq<Path>, k: nat): (r: seq<Path>)
    ensures |r| == |paths|
  {
    if paths == [] then [] else Appended(Init(paths), k) + [Last(paths) + [k]]
  }

  ghost function Extended(paths: seq<Path>, v: nat): seq<Path> {
    if v == 0 then [] else Extended(paths, v - 1) + Appended(paths, v - 1)
  }

  /** All label paths over `n` frames with labels below `v`. */
  ghost function Paths(n: nat, v: nat): seq<Path> {
    if n == 0 then [[]] else Extended(Paths(n - 1, v), v)
  }

  ghost function Occurrences(paths: seq<Path>, path: Path): nat {
    if paths == [] then 0 else Occurrences(Init(paths), path) + if Last(paths) == path then 1 else 0
  }

  lemma {:induction false} OccurrencesConcat(p: seq<Path>, q: seq<Path>, path: Path)
    ensures Occurrences(p + q, path) == Occurrences(p, path) + Occurrences(q, path)
  {
    if q == [] {
      assert p + q == p;
    } else {
      assert Init(p + q) == p + Init(q) && Last(p + q) == Last(q);
      OccurrencesConcat(p, Init(q), path);
    }
  }

  lemma {:induction false} AppendedCount(paths: seq<Path>, k: nat, path: Path)
    ensures Occurrences(Appended(paths, k), path) ==
            if path != [] && Last(path) == k then Occurrences(paths, Init(path)) else 0
  {
    if paths != [] {
      AppendedCount(Init(paths), k, path);
      Snoc(Appended(Init(paths), k), Last(paths) + [k]);
      Snoc(Last(paths), k);
      if path != [] { UnSnoc(path); }
    }
  }

  lemma {:induction false} ExtendedCount(paths: seq<Path>, v: nat, path: Path)
    ensures Occurrences(Extended(paths, v), path) ==
            if path != [] && Last(path) < v then Occurrences(paths, Init(path)) else 0
  {
    if v > 0 {
      ExtendedCount(paths, v - 1, path);
      AppendedCount(paths, v - 1, path);
      OccurrencesConcat(Extended(paths, v - 1), Appended(paths, v - 1), path);
    }
  }

  lemma {:induction false} PathOfInit(path: Path, n: nat, v: nat)
    requires path != [] && n > 0
    ensures PathOf(path, n, v) <==> PathOf(Init(path), n - 1, v) && Last(path) < v
  {
    UnSnoc(path);
  }

  /** The enumeration is complete and has no duplicates. */
  lemma {:induction false} PathsOnce(n: nat, v: nat, path: Path)
    ensures Occurrences(Paths(n, v), path) == if PathOf(path, n, v) then 1 else 0
  {
    if n == 0 {
      assert Init(Paths(0, v)) == [];
    } else {
      ExtendedCount(Paths(n - 1, v), v, path);
      if path != [] {
        PathsOnce(n - 1, v, Init(path));
        PathOfInit(path, n, v);
      }
    }
  }

  // ---------- mass ----------

  ghost predicate AllPathsOf(paths: seq<Path>, n: nat, v: nat) {
    forall i :: 0 <= i < |paths| ==> PathOf(paths[i], n, v)
  }

  lemma {:induction false} AppendedArePaths(paths: seq<Path>, n: nat, v: nat, k: nat)
    requires AllPathsOf(paths, n, v) && k < v
    ensures AllPathsOf(Appended(paths, k), n + 1, v)
  {
    if paths != [] {
      AppendedArePaths(Init(paths), n, v, k);
    }
  }

  lemma {:induction false} ExtendedArePaths(paths: seq<Path>, n: nat, v: nat, u: nat)
    requires AllPathsOf(paths, n, v) && u <= v
    ensures AllPathsOf(Extended(paths, u), n + 1, v)
  {
    if u > 0 {
      ExtendedArePaths(paths, n, v, u - 1);
      AppendedArePaths(paths, n, v, u - 1);
    }
  }

  lemma {:induction false} PathsArePaths(n: nat, v: nat)
    ensures AllPathsOf(Paths(n, v), n, v)
  {
    if n > 0 {
      PathsArePaths(n - 1, v);
      ExtendedArePaths(Paths(n - 1, v), n - 1, v, v);
    }
  }

  ghost predicate Counts(path: Path, prefix: Path, blankEnd: bool) {
    Collapse(path) == prefix && EndsInBlank(path) == blankEnd
  }

  /** The sum of a quantity over the listed paths. */
  ghost function Sum(paths: seq<Path>, f: Path -> real): real {
    if paths == [] then 0.0 else Sum(Init(paths), f) + f(Last(paths))
  }

  /** A path's weight, if it collapses to `prefix` and ends as asked. */
  ghost function Share(frames: seq<Frame>, path: Path, prefix: Path, blankEnd: bool): real {
    if Counts(path, prefix, blankEnd) then Weight(frames, path) else 0.0
  }

  ghost function Shares(frames: seq<Frame>, prefix: Path, blankEnd: bool): Path -> real {
    path => Share(frames, path, prefix, blankEnd)
  }

  /** The sum, over the label paths that collapse to `prefix` and end (or do not end) in blank,
      of the product of the frame probabilities. */
  ghost function Mass(frames: seq<Frame>, v: nat, prefix: Path, blankEnd: bool): real {
    Sum(Paths(|frames|, v), Shares(frames, prefix, blankEnd))
  }

  lemma {:induction false} SumConcat(p: seq<Path>, q: seq<Path>, f: Path -> real)
    ensures Sum(p + q, f) == Sum(p, f) + Sum(q, f)
  {
    if q == [] {
      assert p + q == p;
    } else {
      assert Init(p + q) == p + Init(q) && Last(p + q) == Last(q);
      SumConcat(p, Init(q), f);
    }
  }

  lemma {:induction false} SumAdd(paths: seq<Path>, f: Path -> real, g: Path -> real, h: Path -> real)
    requires forall p :: f(p) == g(p) + h(p)
    ensures Sum(paths, f) == Sum(paths, g) + Sum(paths, h)
  {
    if paths != [] {
      SumAdd(Init(paths), f, g, h);
    }
  }

  lemma {:induction false} SumZero(paths: seq<Path>, f: Path -> real)
    requires paths == [] || forall p :: f(p) == 0.0
    ensures Sum(paths, f) == 0.0
  {
    if paths != [] {
      SumZero(Init(paths), f);
    }
  }

  lemma Distribute(a: real, b: real, c: real)
    ensures Times(a + b, c) == Times(a, c) + Times(b, c)
  {
  }

  lemma {:induction false} SumScaled(paths: seq<Path>, f: Path -> real, c: real)
    ensures Sum(paths, p => Times(f(p), c)) == Times(Sum(paths, f), c)
  {
    if paths != [] {
      SumScaled(Init(paths), f, c);
      Distribute(Sum(Init(paths), f), f(Last(paths)), c);
    }
  }

  lemma {:induction false} SumAppended(n: nat, v: nat, paths: seq<Path>, k: nat, f: Path -> real, g: Path -> real)
    requires AllPathsOf(paths, n, v)
    requires forall p | |p| == n :: f(p + [k]) == g(p)
    ensures Sum(Appended(paths, k), f) == Sum(paths, g)
  {
    if paths != [] {
      SumAppended(n, v, Init(paths), k, f, g);
      Snoc(Appended(Init(paths), k), Last(paths) + [k]);
      assert |Last(paths)| == n;
    }
  }

  /** If only the last label `k` leads to a nonzero quantity, only `k` contributes. */
  lemma {:induction false} SumExtended(n: nat, v: nat, paths: seq<Path>, u: nat, k: nat, f: Path -> real,
                                       g: Path -> real)
    requires AllPathsOf(paths, n, v)
    requires forall p | |p| == n :: f(p + [k]) == g(p)
    requires forall p, j | |p| == n && j != k :: f(p + [j]) == 0.0
    ensures Sum(Extended(paths, u), f) == if k < u then Sum(paths, g) else 0.0
  {
    hide Appended, Sum;
    if u == 0 {
      SumZero([], f);
    } else {
      SumExtended(n, v, paths, u - 1, k, f, g);
      if u - 1 == k {
        SumAppended(n, v, paths, k, f, g);
      } else {
        var zero := (p: Path) => 0.0;
        SumAppended(n, v, paths, u - 1, f, zero);
        SumZero(paths, zero);
      }
      SumConcat(Extended(paths, u - 1), Appended(paths, u - 1), f);
      assert Extended(paths, u) == Extended(paths, u - 1) + Appended(paths, u - 1);
    }
  }

  lemma {:induction false} WeightStep(frames: seq<Frame>, frame: Frame, path: Path, k: nat)
    requires |path| == |frames|
    ensures Weight(frames + [frame], path + [k]) == Times(Weight(frames, path), Prob(frame, k))
  {
    Snoc(path, k);
    Snoc(frames, frame);
  }

  /** The last label of the prefix repeats the one before it: a blank must separate the two. */
  predicate Repeats(prefix: Path)
    requires prefix != []
  {
    Init(prefix) != [] && Last(Init(prefix)) == Last(prefix)
  }

  /** What one more label does to one path. */
  lemma {:induction false} CountsStep(path: Path, k: nat, prefix: Path, blankEnd: bool)
    ensures Counts(path + [k], prefix, blankEnd) <==>
            if k == BLANK then blankEnd && (Counts(path, prefix, true) || Counts(path, prefix, false))
            else !blankEnd && prefix != [] && Last(prefix) == k &&
                 (Counts(path, prefix, false) ||
                  Counts(path, Init(prefix), true) ||
                  (Counts(path, Init(prefix), false) && !Repeats(prefix)))
  {
    Snoc(path, k);
    CollapseStep(path, k);
    Snoc(Collapse(path), k);
    if prefix != [] { UnSnoc(prefix); }
    if !EndsInBlank(path) { CollapseLast(path); }
  }

  /** The extension of `path` by `k` collapses to `prefix` and ends as asked. */
  ghost predicate Leads(path: Path, k: nat, prefix: Path, blankEnd: bool) {
    Counts(path + [k], prefix, blankEnd)
  }

  ghost predicate OnlyBy(k: nat, prefix: Path, blankEnd: bool) {
    forall path, j :: Leads(path, j, prefix, blankEnd) ==> j == k
  }

  ghost function ShareBefore(frames: seq<Frame>, k: nat, prefix: Path, blankEnd: bool): Path -> real {
    path => if Leads(path, k, prefix, blankEnd) then Weight(frames, path) else 0.0
  }

  /** With only one last label `k` that can lead to `prefix`, its new mass is a scaled sum over the old paths. */
  lemma {:induction false} MassStep(frames: seq<Frame>, frame: Frame, v: nat, prefix: Path, blankEnd: bool, k: nat)
    requires OnlyBy(k, prefix, blankEnd)
    ensures Mass(frames + [frame], v, prefix, blankEnd) ==
            if k < v then Times(Sum(Paths(|frames|, v), ShareBefore(frames, k, prefix, blankEnd)), Prob(frame, k))
                else 0.0
  {
    hide Times, Weight, Sum, Extended, Appended, Collapse, EndsInBlank, AllPathsOf;
    var n, paths := |frames|, Paths(|frames|, v);
    var f, g := Shares(frames + [frame], prefix, blankEnd), ShareBefore(frames, k, prefix, blankEnd);
    var h := (p: Path) => Times(g(p), Prob(frame, k));
    PathsArePaths(n, v);
    forall p: Path | |p| == n
      ensures f(p + [k]) == h(p)
    {
      WeightStep(frames, frame, p, k);
      TimesZero(Prob(frame, k));
    }
    forall p: Path, j: nat | |p| == n && j != k
      ensures f(p + [j]) == 0.0
    {
      assert !Leads(p, j, prefix, blankEnd);
    }
    SumExtended(n, v, paths, v, k, f, h);
    SumScaled(paths, g, Prob(frame, k));
  }

  /** Exact blank-ending mass after one more frame. */
  lemma {:induction false} BlankMassStep(frames: seq<Frame>, frame: Frame, v: nat, prefix: Path)
    requires v > 0
    ensures Mass(frames + [frame], v, prefix, true) ==
            Times(Mass(frames, v, prefix, true) + Mass(frames, v, prefix, false), Prob(frame, BLANK))
  {
    hide Times, Weight, Sum, Paths, Collapse, EndsInBlank;
    forall p: Path, j: nat
      ensures Leads(p, j, prefix, true) <==> j == BLANK && (Counts(p, prefix, true) || Counts(p, prefix, false))
    {
      CountsStep(p, j, prefix, true);
    }
    MassStep(frames, frame, v, prefix, true, BLANK);
    var paths, before := Paths(|frames|, v), ShareBefore(frames, BLANK, prefix, true);
    SumAdd(paths, before, Shares(frames, prefix, true), Shares(frames, prefix, false));
    assert Sum(paths, before) == Mass(frames, v, prefix, true) + Mass(frames, v, prefix, false);
  }

  /** No path that ends in a proper label collapses to the empty prefix, nor to one that ends in blank
      or in a label outside the vocabulary. */
  lemma {:induction false} NoLabelMass(frames: seq<Frame>, frame: Frame, v: nat, prefix: Path)
    requires prefix == [] || Last(prefix) == BLANK || Last(prefix) >= v
    ensures Mass(frames + [frame], v, prefix, false) == 0.0
  {
    var k := if prefix == [] || Last(prefix) == BLANK then v else Last(prefix);
    forall p: Path, j: nat
      ensures Leads(p, j, prefix, false) ==> j == k
    {
      CountsStep(p, j, prefix, false);
    }
    MassStep(frames, frame, v, prefix, false, k);
  }

  lemma {:induction false} LabelLeads(prefix: Path)
    requires prefix != [] && Last(prefix) != BLANK
    ensures forall p, j :: Leads(p, j, prefix, false) <==>
              j == Last(prefix) &&
              (Counts(p, prefix, false) || Counts(p, Init(prefix), true)
               || (Counts(p, Init(prefix), false) && !Repeats(prefix)))
  {
    forall p: Path, j: nat
      ensures Leads(p, j, prefix, false) <==>
              j == Last(prefix) &&
              (Counts(p, prefix, false) || Counts(p, Init(prefix), true)
               || (Counts(p, Init(prefix), false) && !Repeats(prefix)))
    {
      CountsStep(p, j, prefix, false);
    }
  }

  /** The mass that the last label of `prefix` can turn into mass of `prefix`. */
  ghost function FeedMass(frames: seq<Frame>, v: nat, prefix: Path): real
    requires prefix != []
  {
    var q := Init(prefix);
    Mass(frames, v, prefix, false)
    + (Mass(frames, v, q, true) + if Repeats(prefix) then 0.0 else Mass(frames, v, q, false))
  }

  lemma {:induction false} SumFeed(frames: seq<Frame>, v: nat, prefix: Path)
    requires prefix != [] && Last(prefix) != BLANK
    ensures Sum(Paths(|frames|, v), ShareBefore(frames, Last(prefix), prefix, false)) == FeedMass(frames, v, prefix)
  {
    hide Times, Weight, Sum, Paths, Collapse, EndsInBlank;
    LabelLeads(prefix);
    var paths, q := Paths(|frames|, v), Init(prefix);
    assert q != prefix by { assert |q| < |prefix|; }
    var grown := (p: Path) => Share(frames, p, q, true) + if Repeats(prefix) then 0.0 else Share(frames, p, q, false);
    var zero := (p: Path) => 0.0;
    SumZero(paths, zero);
    SumAdd(paths, ShareBefore(frames, Last(prefix), prefix, false), Shares(frames, prefix, false), grown);
    SumAdd(paths, grown, Shares(frames, q, true), if Repeats(prefix) then zero else Shares(frames, q, false));
  }

  /** Exact mass ending in a proper label, after one more frame. */
  lemma {:induction false} LabelMassStep(frames: seq<Frame>, frame: Frame, v: nat, prefix: Path)
    requires prefix != [] && BLANK != Last(prefix) < v
    ensures Mass(frames + [frame], v, prefix, false) == Times(FeedMass(frames, v, prefix), Prob(frame, Last(prefix)))
  {
    hide Times, Weight, Sum, Paths, Collapse, EndsInBlank, Mass, FeedMass;
    LabelLeads(prefix);
    MassStep(frames, frame, v, prefix, false, Last(prefix));
    SumFeed(frames, v, prefix);
  }

  /** Before any frame only the empty prefix has mass, all of it ending in blank. */
  lemma {:induction false} MassStart(v: nat, prefix: Path)
    ensures Mass([], v, prefix, true) == if prefix == [] then 1.0 else 0.0
    ensures Mass([], v, prefix, false) == 0.0
  {
    var paths: seq<Path> := Paths(0, v);
    assert |paths| == 1 && Last(paths) == [] && Init(paths) == [];
    assert Counts([], prefix, true) <==> prefix == [];
    assert Sum(Init(paths), Shares([], prefix, true)) == 0.0;
    assert Sum(Init(paths), Shares([], prefix, false)) == 0.0;
  }

  lemma {:induction false} SumNonNegative(frames: seq<Frame>, v: nat, paths: seq<Path>, prefix: Path, blankEnd: bool)
    requires Frames(frames, v) && AllPathsOf(paths, |frames|, v)
    ensures Sum(paths, Shares(frames, prefix, blankEnd)) >= 0.0
  {
    if paths != [] {
      SumNonNegative(frames, v, Init(paths), prefix, blankEnd);
      WeightNonNegative(frames, v, Last(paths));
    }
  }

  lemma {:induction false} MassNonNegative(frames: seq<Frame>, v: nat, prefix: Path, blankEnd: bool)
    requires Frames(frames, v)
    ensures Mass(frames, v, prefix, blankEnd) >= 0.0
  {
    PathsArePaths(|frames|, v);
    SumNonNegative(frames, v, Paths(|frames|, v), prefix, blankEnd);
  }
}
