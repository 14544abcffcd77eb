/** When the beams keep only prefixes that have mass, so that every one has its time stamps
    (ctc-prefix-decoder.cpp:161-260, 325). */
module CtcBeams {
  import opened FiniteSets
  import opened Sequences
  import opened CtcPaths
  import opened CtcHypothesis

  ghost predicate Massive(hyps: Hyps) {
    forall p :: p in hyps ==> hyps[p].Score() > 0.0
  }

  ghost predicate AllPositive(frame: Frame) {
    forall k :: 0 <= k < |frame| ==> frame[k] > 0.0
  }

  ghost function MassKeys(hyps: Hyps): (s: set<Path>)
    ensures forall p :: p in s <==> p in hyps && hyps[p].Score() > 0.0
  {
    set p | p in hyps && hyps[p].Score() > 0.0
  }

  // ---------- the second beam ----------

  /** What a beam keeps scores at least as high as what it drops; scores are masses with a positive weight. */
  ghost predicate BestKept(next: Hyps, kept: Hyps, boost: real -> real) {
    && (forall p :: p in kept ==> p in next && kept[p] == next[p])
    && (forall p :: p in next ==> next[p].Score() >= 0.0 && boost(next[p].context.score) > 0.0)
    && forall p, q :: p in next && p !in kept && q in kept ==>
         Times(next[p].Score(), boost(next[p].context.score)) <= Times(kept[q].Score(), boost(kept[q].context.score))
  }

  lemma Zero(x: real, w: real)
    requires w > 0.0 && x >= 0.0
    ensures Times(x, w) <= 0.0 <==> x == 0.0
  {
  }

  /** The second beam keeps a prefix without mass if and only if there are not enough prefixes with mass to fill it. */
  lemma {:induction false} MasslessKept(next: Hyps, kept: Hyps, boost: real -> real)
    requires BestKept(next, kept, boost)
    ensures !Massive(kept) <==> |MassKeys(next)| < |kept|
  {
    hide Times, PrefixScore.Score;
    if Massive(kept) {
      SubsetSize(kept.Keys, MassKeys(next));
    } else {
      var q :| q in kept && !(kept[q].Score() > 0.0);
      forall p | p in MassKeys(next)
        ensures p in kept.Keys - {q}
      {
        Zero(next[p].Score(), boost(next[p].context.score));
        Zero(next[q].Score(), boost(next[q].context.score));
      }
      SubsetSize(MassKeys(next), kept.Keys - {q});
    }
  }

  // ---------- what the first beam supplies ----------

  /** The frame's loops are through for the labels `ids`. */
  ghost predicate Passed(st: Step, ids: seq<nat>, done: Pairs, next: Hyps) {
    && StepOk(st) && (forall k :: k in ids ==> k < |st.frame|)
    && (forall p, k :: (p, k) in done <==> p in st.cur && k in ids)
    && forall p :: EntryOk(st, done, p, Lookup(next, p))
  }

  lemma TimesPositive(a: real, b: real)
    requires a > 0.0 && b > 0.0
    ensures Times(a, b) > 0.0
  {
  }

  lemma InMassKeys(next: Hyps, p: Path)
    requires Lookup(next, p).s >= 0.0 && Lookup(next, p).ns >= 0.0
             && (Lookup(next, p).s > 0.0 || Lookup(next, p).ns > 0.0)
    ensures p in MassKeys(next)
  {
  }

  /** A blank keeps the mass of its prefix. */
  lemma {:induction false} BlankSupplies(st: Step, ids: seq<nat>, done: Pairs, next: Hyps, p: Path)
    requires Passed(st, ids, done, next) && Massive(st.cur) && AllPositive(st.frame) && p in st.cur && BLANK in ids
    ensures p in MassKeys(next)
  {
    hide Times, StepOk, PrefixScore.Score;
    assert EntryOk(st, done, p, Lookup(next, p));
    FedSign(st, done, p);
    TimesPositive(st.cur[p].Score(), Prob(st.frame, BLANK));
    InMassKeys(next, p);
  }

  /** A label other than the last one gives its prefix a longer one with mass. */
  lemma {:induction false} LabelSupplies(st: Step, ids: seq<nat>, done: Pairs, next: Hyps, p: Path, k: nat)
    requires Passed(st, ids, done, next) && Massive(st.cur) && AllPositive(st.frame) && p in st.cur
    requires k in ids && k != BLANK && (p == [] || Last(p) != k)
    ensures p + [k] in MassKeys(next)
  {
    hide Times, StepOk, PrefixScore.Score;
    var q := p + [k];
    Snoc(p, k);
    assert EntryOk(st, done, q, Lookup(next, q));
    FedSign(st, done, q);
    TimesPositive(st.cur[p].Score(), Prob(st.frame, k));
    InMassKeys(next, q);
  }

  /** The last label of a prefix keeps its mass, or gives a longer one its mass. */
  lemma {:induction false} RepeatSupplies(st: Step, ids: seq<nat>, done: Pairs, next: Hyps, p: Path)
    requires Passed(st, ids, done, next) && Massive(st.cur) && AllPositive(st.frame) && p in st.cur
    requires Proper(p) && Last(p) in ids
    ensures p in MassKeys(next) || p + [Last(p)] in MassKeys(next)
  {
    hide Times, StepOk;
    var k, e := Last(p), st.cur[p];
    var q := p + [k];
    Snoc(p, k);
    FedSign(st, done, p);
    FedSign(st, done, q);
    assert EntryOk(st, done, p, Lookup(next, p));
    assert EntryOk(st, done, q, Lookup(next, q));
    if e.ns > 0.0 {
      TimesPositive(e.ns, Prob(st.frame, k));
      InMassKeys(next, p);
    } else {
      TimesPositive(e.s, Prob(st.frame, k));
      InMassKeys(next, q);
    }
  }

  /** The label each prefix is extended by: the first of two that is not its last. */
  function Other(p: Path, a: nat, b: nat): nat {
    if p == [] || Last(p) != a then a else b
  }

  ghost function Extensions(keys: set<Path>, a: nat, b: nat): set<Path> {
    set p | p in keys :: p + [Other(p, a, b)]
  }

  lemma {:induction false} ExtensionsSize(keys: set<Path>, a: nat, b: nat)
    ensures |Extensions(keys, a, b)| == |keys|
  {
    if keys != {} {
      var p :| p in keys;
      var rest := keys - {p};
      ExtensionsSize(rest, a, b);
      var q := p + [Other(p, a, b)];
      assert Extensions(keys, a, b) == Extensions(rest, a, b) + {q};
      forall r | r in rest
        ensures r + [Other(r, a, b)] != q
      {
        Snoc(p, Other(p, a, b));
        Snoc(r, Other(r, a, b));
      }
    }
  }

  /** The prefixes the labels make of the empty one. */
  function OneLabel(k: nat): Path {
    if k == BLANK then [] else [k]
  }

  ghost function FromEmpty(ids: seq<nat>): (s: set<Path>)
    ensures forall p :: p in s <==> exists k :: k in ids && p == OneLabel(k)
  {
    set k | k in ids :: OneLabel(k)
  }

  lemma {:induction false} FromEmptySize(ids: seq<nat>)
    requires Distinct(ids)
    ensures |FromEmpty(ids)| == |ids|
  {
    if ids != [] {
      var some, k := Init(ids), Last(ids);
      UnSnoc(ids);
      FromEmptySize(some);
      assert FromEmpty(ids) == FromEmpty(some) + {OneLabel(k)};
      assert OneLabel(k) !in FromEmpty(some);
    }
  }

  /** How many prefixes with mass the labels make of hypotheses with mass. */
  ghost function Supply(cur: Hyps, labels: nat): nat {
    if cur.Keys == {[]} then labels else if labels > 1 || |cur| == 1 then |cur| else 0
  }

  /** AllPositive probabilities make at least that many prefixes with mass. */
  lemma {:induction false} EnoughMass(st: Step, ids: seq<nat>, done: Pairs, next: Hyps)
    requires Passed(st, ids, done, next) && Massive(st.cur) && AllPositive(st.frame) && Distinct(ids) && ids != []
    requires forall p :: p in st.cur ==> p == [] || Proper(p)
    ensures |MassKeys(next)| >= Supply(st.cur, |ids|)
  {
    hide Passed, Massive, AllPositive, Distinct, MassKeys;
    if st.cur.Keys == {[]} {
      FromEmptySize(ids);
      forall k | k in ids
        ensures OneLabel(k) in MassKeys(next)
      {
        assert [] in st.cur;
        if k == BLANK {
          BlankSupplies(st, ids, done, next, []);
        } else {
          LabelSupplies(st, ids, done, next, [], k);
          assert [] + [k] == [k];
        }
      }
      SubsetSize(FromEmpty(ids), MassKeys(next));
    } else if BLANK in ids {
      forall p | p in st.cur
        ensures p in MassKeys(next)
      {
        BlankSupplies(st, ids, done, next, p);
      }
      SubsetSize(st.cur.Keys, MassKeys(next));
    } else if |ids| > 1 {
      var a, b := ids[0], ids[1];
      assert a != b by { TwoDistinct(ids); }
      forall p | p in st.cur
        ensures p + [Other(p, a, b)] in MassKeys(next)
      {
        LabelSupplies(st, ids, done, next, p, Other(p, a, b));
      }
      ExtensionsSize(st.cur.Keys, a, b);
      SubsetSize(Extensions(st.cur.Keys, a, b), MassKeys(next));
    } else if |st.cur| == 1 {
      assert st.cur.Keys != {};
      var p :| p in st.cur;
      var k := ids[0];
      if p != [] && Last(p) == k {
        RepeatSupplies(st, ids, done, next, p);
        if p in MassKeys(next) {
          SubsetSize({p}, MassKeys(next));
        } else {
          SubsetSize({p + [Last(p)]}, MassKeys(next));
        }
      } else {
        LabelSupplies(st, ids, done, next, p, k);
        SubsetSize({p + [k]}, MassKeys(next));
      }
    }
  }

  lemma TwoDistinct(ids: seq<nat>)
    requires Distinct(ids) && |ids| > 1
    ensures ids[0] != ids[1]
  {
  }
}
