/** What each fired vector of integrate-and-fire is made of (paraformer-online.cpp:306-327). */
module CifShares {
  import opened Sequences
  import opened CifSpec

  function ShareSum(shares: seq<real>): real {
    if shares == [] then 0.0 else ShareSum(Init(shares)) + Last(shares)
  }

  /** Component `j` of the vectors, each times its share. */
  function Mixed(items: seq<Item>, shares: seq<real>, j: nat, d: nat): real
    requires |shares| == |items| && ItemsOk(items, d) && j < d
  {
    if items == [] then 0.0
    else Mixed(Init(items), Init(shares), j, d) + Times(Last(shares), Last(items).hidden[j])
  }

  /** `v` is made of the items' vectors, with shares that add up to `total`; if no weight is out of range, a share is
      no more than the weight of its item. */
  ghost predicate MadeOf(items: seq<Item>, threshold: real, d: nat, shares: seq<real>, total: real, v: Vec) {
    && |shares| == |items| && ItemsOk(items, d) && |v| == d && ShareSum(shares) == total
    && (forall j: nat :: j < d ==> v[j] == Mixed(items, shares, j, d))
    && (InRange(items, threshold) ==> forall i :: 0 <= i < |items| ==> 0.0 <= shares[i] <= items[i].alpha)
  }

  ghost predicate Combination(items: seq<Item>, threshold: real, d: nat, total: real, v: Vec) {
    exists shares :: MadeOf(items, threshold, d, shares, total, v)
  }

  lemma {:induction false} MixedMore(items: seq<Item>, item: Item, shares: seq<real>, share: real, j: nat, d: nat)
    requires |shares| == |items| && ItemsOk(items, d) && |item.hidden| == d && j < d
    ensures ItemsOk(items + [item], d)
    ensures Mixed(items + [item], shares + [share], j, d) == Mixed(items, shares, j, d) + Times(share, item.hidden[j])
  {
    Snoc(items, item);
    Snoc(shares, share);
  }

  /** One more item, of which a share is added. */
  lemma {:induction false} MadeOfMore(items: seq<Item>, threshold: real, d: nat, shares: seq<real>, total: real, v: Vec,
                                      item: Item, share: real, w: Vec)
    requires MadeOf(items, threshold, d, shares, total, v) && |item.hidden| == d
    requires 0.0 <= item.alpha <= threshold && InRange(items, threshold) ==> 0.0 <= share <= item.alpha
    requires |w| == d && forall j: nat :: j < d ==> w[j] == v[j] + Times(share, item.hidden[j])
    ensures MadeOf(items + [item], threshold, d, shares + [share], total + share, w)
  {
    hide Times, Mixed;
    var (items', shares') := (items + [item], shares + [share]);
    Snoc(shares, share);
    forall j: nat | j < d
      ensures ItemsOk(items', d) && w[j] == Mixed(items', shares', j, d)
    {
      MixedMore(items, item, shares, share, j, d);
    }
    if InRange(items', threshold) {
      assert items'[|items|] == item;
      forall i | 0 <= i < |items|
        ensures items'[i] == items[i]
      {
      }
      assert InRange(items, threshold);
    }
  }

  /** Only the new item. */
  lemma {:induction false} OnlyNew(items: seq<Item>, threshold: real, d: nat, item: Item, share: real, w: Vec)
    requires ItemsOk(items, d) && |item.hidden| == d
    requires 0.0 <= item.alpha <= threshold && InRange(items, threshold) ==> 0.0 <= share <= item.alpha
    requires |w| == d && forall j: nat :: j < d ==> w[j] == Times(share, item.hidden[j])
    ensures Combination(items + [item], threshold, d, share, w)
  {
    hide Times, Mixed;
    var none := Nothing(items, threshold, d);
    MadeOfMore(items, threshold, d, none, 0.0, ZeroVec(d), item, share, w);
  }

  /** No shares at all. */
  lemma {:induction false} Nothing(items: seq<Item>, threshold: real, d: nat) returns (none: seq<real>)
    requires ItemsOk(items, d)
    ensures MadeOf(items, threshold, d, none, 0.0, ZeroVec(d))
  {
    hide Times;
    if items == [] {
      none := [];
    } else {
      var item := Last(items);
      var before := Nothing(Init(items), threshold, d);
      UnSnoc(items);
      forall j: nat | j < d
        ensures Times(0.0, item.hidden[j]) == 0.0
      {
        TimesZero(item.hidden[j]);
      }
      assert InRange(items, threshold) ==> 0.0 <= item.alpha;
      MadeOfMore(Init(items), threshold, d, before, 0.0, ZeroVec(d), item, 0.0, ZeroVec(d));
      none := before + [0.0];
    }
  }

  /** More items take no share. */
  lemma {:induction false} LaterItem(items: seq<Item>, threshold: real, d: nat, total: real, v: Vec, item: Item)
    requires Combination(items, threshold, d, total, v) && |item.hidden| == d
    ensures Combination(items + [item], threshold, d, total, v)
  {
    hide Times, Mixed;
    var shares :| MadeOf(items, threshold, d, shares, total, v);
    forall j: nat | j < d
      ensures Times(0.0, item.hidden[j]) == 0.0
    {
      TimesZero(item.hidden[j]);
    }
    MadeOfMore(items, threshold, d, shares, total, v, item, 0.0, v);
  }

  /** Every fired vector is made of the items' vectors with shares that add up to the threshold, and what is still being
      integrated is made of them with shares that add up to the residual. */
  lemma {:induction false} EachFireIsFull(threshold: real, items: seq<Item>, d: nat)
    requires ItemsOk(items, d) && threshold > 0.0
    ensures var (acc, fired) := Run(Start(d), threshold, items, d);
            && (forall f :: 0 <= f < |fired| ==> Combination(items, threshold, d, threshold, fired[f]))
            && Combination(items, threshold, d, acc.integrate, acc.frames)
  {
    hide Combination, Step;
    if items == [] {
      StartsEmpty(threshold, d);
    } else {
      var (some, item) := (Init(items), Last(items));
      EachFireIsFull(threshold, some, d);
      UnSnoc(items);
      var (acc, fired) := Run(Start(d), threshold, some, d);
      var (after, more) := Step(acc, threshold, item);
      ResidualInRange(threshold, some, d);
      StepShares(threshold, some, d, acc, item);
      assert Run(Start(d), threshold, items, d) == (after, fired + more);
      forall f | 0 <= f < |fired + more|
        ensures Combination(items, threshold, d, threshold, (fired + more)[f])
      {
        if f < |fired| { LaterItem(some, threshold, d, threshold, fired[f], item); }
      }
    }
  }

  lemma StartsEmpty(threshold: real, d: nat)
    ensures Combination([], threshold, d, 0.0, ZeroVec(d))
  {
    var none := Nothing([], threshold, d);
  }

  lemma ResidualInRange(threshold: real, items: seq<Item>, d: nat)
    requires ItemsOk(items, d) && threshold > 0.0
    ensures InRange(items, threshold) ==> 0.0 <= Run(Start(d), threshold, items, d).0.integrate < threshold
  {
    hide Run;
    if InRange(items, threshold) {
      StartOk(threshold, d);
      RunOk(Start(d), threshold, items, d);
    }
  }

  lemma {:induction false} StepShares(threshold: real, items: seq<Item>, d: nat, acc: Acc, item: Item)
    requires ItemsOk(items, d) && |acc.frames| == d && |item.hidden| == d
    requires InRange(items, threshold) ==> 0.0 <= acc.integrate < threshold
    requires Combination(items, threshold, d, acc.integrate, acc.frames)
    ensures var (after, more) := Step(acc, threshold, item);
            && (forall f :: 0 <= f < |more| ==> Combination(items + [item], threshold, d, threshold, more[f]))
            && Combination(items + [item], threshold, d, after.integrate, after.frames)
  {
    hide Times, Mixed, MadeOf;
    var shares :| MadeOf(items, threshold, d, shares, acc.integrate, acc.frames);
    var (after, more) := Step(acc, threshold, item);
    if item.alpha + acc.integrate < threshold {
      MadeOfMore(items, threshold, d, shares, acc.integrate, acc.frames, item, item.alpha, after.frames);
    } else {
      MadeOfMore(items, threshold, d, shares, acc.integrate, acc.frames, item, threshold - acc.integrate, more[0]);
      assert acc.integrate + (threshold - acc.integrate) == threshold;
      OnlyNew(items, threshold, d, item, after.integrate, after.frames);
    }
  }
}
