/** Continuous integrate-and-fire (paraformer-online.cpp:270-345) over one uninterrupted stream of weighted vectors. */
module CifSpec {
  import opened Arithmetic
  import opened Sequences

  type Vec = seq<real>

  datatype Item = Item(alpha: real, hidden: Vec)

  /** What has been integrated since the last fire. */
  datatype Acc = Acc(integrate: real, frames: Vec)

  function Times(a: real, x: real): real {
    a * x
  }

  function Scaled(a: real, h: Vec): (r: Vec)
    ensures |r| == |h| && forall j :: 0 <= j < |h| ==> r[j] == Times(a, h[j])
  {
    if h == [] then [] else [Times(a, h[0])] + Scaled(a, h[1..])
  }

  function Plus(v: Vec, w: Vec): (r: Vec)
    requires |v| == |w|
    ensures |r| == |v| && forall j :: 0 <= j < |v| ==> r[j] == v[j] + w[j]
  {
    if v == [] then [] else [v[0] + w[0]] + Plus(v[1..], w[1..])
  }

  function ZeroVec(d: nat): (r: Vec)
    ensures |r| == d && forall j :: 0 <= j < d ==> r[j] == 0.0
  {
    if d == 0 then [] else [0.0] + ZeroVec(d - 1)
  }

  function Start(d: nat): Acc { Acc(0.0, ZeroVec(d)) }

  /** One item fires at most once. */
  function Step(acc: Acc, threshold: real, item: Item): (Acc, seq<Vec>)
    requires |acc.frames| == |item.hidden|
  {
    if item.alpha + acc.integrate < threshold then
      (Acc(acc.integrate + item.alpha, Plus(acc.frames, Scaled(item.alpha, item.hidden))), [])
    else
      var left := acc.integrate + item.alpha - threshold;
      (Acc(left, Scaled(left, item.hidden)), [Plus(acc.frames, Scaled(threshold - acc.integrate, item.hidden))])
  }

  ghost predicate ItemsOk(items: seq<Item>, d: nat) {
    forall i :: 0 <= i < |items| ==> |items[i].hidden| == d
  }

  function Run(acc: Acc, threshold: real, items: seq<Item>, d: nat): (r: (Acc, seq<Vec>))
    requires |acc.frames| == d && ItemsOk(items, d)
    ensures |r.0.frames| == d
  {
    if items == [] then (acc, [])
    else
      var (before, fired) := Run(acc, threshold, Init(items), d);
      var (after, more) := Step(before, threshold, Last(items));
      (after, fired + more)
  }

  lemma {:induction false} RunNext(acc: Acc, threshold: real, items: seq<Item>, i: nat, d: nat)
    requires |acc.frames| == d && ItemsOk(items, d) && i < |items|
    ensures ItemsOk(items[..i], d) && ItemsOk(items[..i + 1], d)
    ensures var (before, fired) := Run(acc, threshold, items[..i], d);
            var (after, more) := Step(before, threshold, items[i]);
            Run(acc, threshold, items[..i + 1], d) == (after, fired + more)
  {
    hide Step;
    assert Init(items[..i + 1]) == items[..i] && Last(items[..i + 1]) == items[i];
  }

  lemma {:induction false} RunOne(acc: Acc, threshold: real, item: Item, d: nat)
    requires |acc.frames| == d && |item.hidden| == d
    ensures Run(acc, threshold, [item], d) == Step(acc, threshold, item)
  {
    assert Init([item]) == [] && Last([item]) == item;
    assert Run(acc, threshold, [], d) == (acc, []);
    assert [] + Step(acc, threshold, item).1 == Step(acc, threshold, item).1;
  }

  /** A run may be cut anywhere. */
  lemma {:induction false} RunConcat(acc: Acc, threshold: real, a: seq<Item>, b: seq<Item>, d: nat)
    requires |acc.frames| == d && ItemsOk(a, d) && ItemsOk(b, d)
    ensures ItemsOk(a + b, d)
    ensures var (mid, fired) := Run(acc, threshold, a, d); var (after, more) := Run(mid, threshold, b, d);
            Run(acc, threshold, a + b, d) == (after, fired + more)
  {
    hide Step;
    if b == [] {
      assert a + b == a;
      var fired := Run(acc, threshold, a, d).1;
      assert fired + [] == fired;
    } else {
      RunConcat(acc, threshold, a, Init(b), d);
      assert Init(a + b) == a + Init(b) && Last(a + b) == Last(b);
      var (mid, fired) := Run(acc, threshold, a, d);
      var (before, some) := Run(mid, threshold, Init(b), d);
      var (after, more) := Step(before, threshold, Last(b));
      assert (fired + some) + more == fired + (some + more);
    }
  }

  // ---------- what a run keeps ----------

  ghost predicate InRange(items: seq<Item>, threshold: real) {
    forall i :: 0 <= i < |items| ==> 0.0 <= items[i].alpha <= threshold
  }

  ghost predicate AccOk(acc: Acc, threshold: real, d: nat) {
    && 0.0 <= acc.integrate < threshold && |acc.frames| == d
    && (acc.integrate == 0.0 ==> acc.frames == ZeroVec(d))
  }

  lemma TimesZero(x: real)
    ensures Times(0.0, x) == 0.0
  {
  }

  lemma TimesSum(a: real, b: real, x: real)
    ensures Times(a + b, x) == Times(a, x) + Times(b, x)
  {
  }

  lemma TimesDiv(a: real, x: real)
    requires a != 0.0
    ensures Times(a, x / a) == x
  {
    DivIs(x, a);
  }

  lemma {:induction false} ScaledZero(h: Vec)
    ensures Scaled(0.0, h) == ZeroVec(|h|)
  {
    hide Times;
    forall j | 0 <= j < |h|
      ensures Times(0.0, h[j]) == 0.0
    {
      TimesZero(h[j]);
    }
  }

  lemma {:induction false} StepOk(acc: Acc, threshold: real, item: Item, d: nat)
    requires AccOk(acc, threshold, d) && 0.0 <= item.alpha <= threshold && |item.hidden| == d
    ensures AccOk(Step(acc, threshold, item).0, threshold, d)
  {
    hide Times, ZeroVec;
    ScaledZero(item.hidden);
    if item.alpha + acc.integrate == 0.0 { PlusZero(ZeroVec(d)); }
  }

  lemma PlusZero(v: Vec)
    ensures Plus(v, ZeroVec(|v|)) == v && Plus(ZeroVec(|v|), v) == v
  {
  }

  /** The residual stays below the threshold. */
  lemma {:induction false} RunOk(acc: Acc, threshold: real, items: seq<Item>, d: nat)
    requires |acc.frames| == d && AccOk(acc, threshold, d) && ItemsOk(items, d) && InRange(items, threshold)
    ensures AccOk(Run(acc, threshold, items, d).0, threshold, d)
  {
    hide Step, AccOk;
    if items != [] {
      RunOk(acc, threshold, Init(items), d);
      StepOk(Run(acc, threshold, Init(items), d).0, threshold, Last(items), d);
    }
  }

  function AlphaSum(items: seq<Item>): real {
    if items == [] then 0.0 else AlphaSum(Init(items)) + Last(items).alpha
  }

  /** Component `j` of the weighted sum of the vectors. */
  function WeightedSum(items: seq<Item>, j: nat, d: nat): real
    requires ItemsOk(items, d) && j < d
  {
    if items == [] then 0.0 else WeightedSum(Init(items), j, d) + Times(Last(items).alpha, Last(items).hidden[j])
  }

  function FiredSum(fired: seq<Vec>, j: nat): real {
    if fired == [] then 0.0 else FiredSum(Init(fired), j) + if j < |Last(fired)| then Last(fired)[j] else 0.0
  }

  lemma {:induction false} FiredSumConcat(a: seq<Vec>, b: seq<Vec>, j: nat)
    ensures FiredSum(a + b, j) == FiredSum(a, j) + FiredSum(b, j)
  {
    if b == [] {
      assert a + b == a;
    } else {
      assert Init(a + b) == a + Init(b) && Last(a + b) == Last(b);
      FiredSumConcat(a, Init(b), j);
    }
  }

  /** Nothing is lost: the weights are the threshold for every fire plus the residual, and the weighted vectors are the
      fired ones plus what is still being integrated. */
  lemma {:induction false} Conservation(threshold: real, items: seq<Item>, j: nat, d: nat)
    requires ItemsOk(items, d) && j < d && threshold > 0.0
    ensures var (acc, fired) := Run(Start(d), threshold, items, d);
            && AlphaSum(items) == Times(threshold, |fired| as real) + acc.integrate
            && WeightedSum(items, j, d) == FiredSum(fired, j) + acc.frames[j]
  {
    hide Step, Times;
    if items == [] {
      TimesZeroRight(threshold);
    } else {
      Conservation(threshold, Init(items), j, d);
      var (before, fired) := Run(Start(d), threshold, Init(items), d);
      StepConserves(before, threshold, Last(items), fired, j, d);
    }
  }

  lemma TimesZeroRight(a: real)
    ensures Times(a, 0.0) == 0.0
  {
  }

  lemma {:induction false} StepConserves(acc: Acc, threshold: real, item: Item, fired: seq<Vec>, j: nat, d: nat)
    requires |acc.frames| == d && |item.hidden| == d && j < d
    ensures var (after, more) := Step(acc, threshold, item);
            && |after.frames| == d
            && Times(threshold, |fired + more| as real) + after.integrate ==
               Times(threshold, |fired| as real) + acc.integrate + item.alpha
            && FiredSum(fired + more, j) + after.frames[j] ==
               FiredSum(fired, j) + acc.frames[j] + Times(item.alpha, item.hidden[j])
  {
    hide Times, FiredSum;
    var (after, more) := Step(acc, threshold, item);
    FiredSumConcat(fired, more, j);
    if item.alpha + acc.integrate < threshold {
      assert FiredSum([], j) == 0.0 by { NoFires(j); }
    } else {
      OneFire(more[0], j);
      assert more == [more[0]];
      var left := acc.integrate + item.alpha - threshold;
      TimesSum(left, threshold - acc.integrate, item.hidden[j]);
      OneMore(threshold, |fired|);
    }
  }

  lemma NoFires(j: nat)
    ensures FiredSum([], j) == 0.0
  {
  }

  lemma OneFire(v: Vec, j: nat)
    ensures FiredSum([v], j) == if j < |v| then v[j] else 0.0
  {
    assert Init([v]) == [] && Last([v]) == v;
  }

  lemma OneMore(threshold: real, n: nat)
    ensures Times(threshold, (n + 1) as real) == Times(threshold, n as real) + threshold
  {
  }

  // ---------- cutting a stream into chunks ----------

  /** What is kept of an accumulator between chunks: its weight, and the average of the vectors in it. */
  function Cached(acc: Acc): Item {
    Item(acc.integrate, if acc.integrate > 0.0 then Divided(acc.frames, acc.integrate) else acc.frames)
  }

  function Divided(v: Vec, a: real): (r: Vec)
    requires a > 0.0
    ensures |r| == |v| && forall j :: 0 <= j < |v| ==> r[j] == v[j] / a
  {
    if v == [] then [] else [v[0] / a] + Divided(v[1..], a)
  }

  /** Integrating the cached item gives the accumulator back and fires nothing, exactly while the residual is below the
      threshold. */
  lemma {:induction false} CachedRestores(acc: Acc, threshold: real, d: nat)
    requires 0.0 <= acc.integrate && |acc.frames| == d && (acc.integrate == 0.0 ==> acc.frames == ZeroVec(d))
    ensures |Cached(acc).hidden| == d
    ensures Step(Start(d), threshold, Cached(acc)) == (acc, []) <==> acc.integrate < threshold
  {
    hide Times;
    var item := Cached(acc);
    if acc.integrate > 0.0 {
      forall j | 0 <= j < d
        ensures Times(item.alpha, item.hidden[j]) == acc.frames[j]
      {
        TimesDiv(acc.integrate, acc.frames[j]);
      }
      assert Scaled(item.alpha, item.hidden) == acc.frames;
    } else {
      ScaledZero(item.hidden);
    }
    PlusZero(acc.frames);
  }

  /** A weight of twice the threshold leaves a residual that fires once more when it is integrated again. */
  lemma {:induction false} HeavyWeightFiresAgain(threshold: real, alpha: real, h: Vec)
    requires threshold > 0.0 && alpha >= threshold + threshold
    ensures var acc := Step(Start(|h|), threshold, Item(alpha, h)).0;
            Step(Start(|h|), threshold, Cached(acc)).1 != []
  {
    hide Times;
  }

  /** A chunk that begins with the cached item goes on where the stream was cut. */
  lemma {:induction false} ChunkContinues(threshold: real, items: seq<Item>, chunk: seq<Item>, d: nat)
    requires ItemsOk(items, d) && InRange(items, threshold) && ItemsOk(chunk, d) && threshold > 0.0
    ensures var (acc, fired) := Run(Start(d), threshold, items, d);
            && |Cached(acc).hidden| == d && ItemsOk([Cached(acc)] + chunk, d)
            && var (after, more) := Run(Start(d), threshold, [Cached(acc)] + chunk, d);
               Run(Start(d), threshold, items + chunk, d) == (after, fired + more)
  {
    hide Step, Cached;
    StartOk(threshold, d);
    RunOk(Start(d), threshold, items, d);
    var (acc, fired) := Run(Start(d), threshold, items, d);
    CachedRestores(acc, threshold, d);
    RunOne(Start(d), threshold, Cached(acc), d);
    RunConcat(Start(d), threshold, [Cached(acc)], chunk, d);
    RunConcat(Start(d), threshold, items, chunk, d);
    var (after, more) := Run(acc, threshold, chunk, d);
    assert [] + more == more;
  }

  lemma StartOk(threshold: real, d: nat)
    requires threshold > 0.0
    ensures AccOk(Start(d), threshold, d)
  {
  }
}
