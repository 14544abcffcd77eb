/** What every frame of a CTC prefix beam search keeps true of its hypotheses: their masses never exceed
    the sums over all label paths, their Viterbi scores are scores of real paths, and without pruning
    both are exact. */
module CtcInvariant {
  import opened Sequences
  import opened CtcPaths
  import opened CtcHypothesis
  import opened CtcRuns

  ghost predicate Witness(frames: seq<Frame>, v: nat, prefix: Path, blankEnd: bool, path: Path) {
    PathOf(path, |frames|, v) && Counts(path, prefix, blankEnd)
  }

  /** Some label path of this weight collapses to `prefix` and ends as asked. */
  ghost predicate Reached(frames: seq<Frame>, v: nat, prefix: Path, blankEnd: bool, w: real) {
    exists path :: Witness(frames, v, prefix, blankEnd, path) && Weight(frames, path) == w
  }

  /** No label path that collapses to `prefix` and ends as asked weighs more. */
  ghost predicate Bounds(frames: seq<Frame>, v: nat, prefix: Path, blankEnd: bool, w: real) {
    forall path :: Witness(frames, v, prefix, blankEnd, path) ==> Weight(frames, path) <= w
  }

  ghost predicate MassOk(frames: seq<Frame>, v: nat, exact: bool, prefix: Path, e: PrefixScore) {
    && e.s <= Mass(frames, v, prefix, true) && e.ns <= Mass(frames, v, prefix, false)
    && (exact ==> e.s == Mass(frames, v, prefix, true) && e.ns == Mass(frames, v, prefix, false))
  }

  /** The empty prefix has no path that ends in a proper label; its `vNs` is never above its `vS`. */
  ghost predicate ViterbiOk(frames: seq<Frame>, v: nat, exact: bool, prefix: Path, e: PrefixScore) {
    && (e.vS > 0.0 ==> Reached(frames, v, prefix, true, e.vS))
    && (prefix != [] && e.vNs > 0.0 ==> Reached(frames, v, prefix, false, e.vNs))
    && (prefix == [] ==> e.vNs <= e.vS)
    && (exact ==> Bounds(frames, v, prefix, true, e.vS) && Bounds(frames, v, prefix, false, e.vNs))
  }

  ghost predicate SignsAgree(prefix: Path, e: PrefixScore) {
    (e.s > 0.0 <==> e.vS > 0.0) && (e.ns > 0.0 <==> prefix != [] && e.vNs > 0.0)
  }

  ghost predicate HypOk(frames: seq<Frame>, v: nat, exact: bool, prefix: Path, e: PrefixScore) {
    && ScoresOk(e)
    && MassOk(frames, v, exact, prefix, e)
    && ViterbiOk(frames, v, exact, prefix, e)
    && SignsAgree(prefix, e)
  }

  ghost predicate HypsOk(frames: seq<Frame>, v: nat, exact: bool, hyps: Hyps) {
    forall prefix :: HypOk(frames, v, exact, prefix, Lookup(hyps, prefix))
  }

  // ---------- the start ----------

  /** `Reset`: the empty prefix, with probability one; the program also sets its `v_ns` to log 1. */
  const START_SCORE := FLOOR.(s := 1.0, vS := 1.0, vNs := 1.0)

  const START_MAP: Hyps := map[[] := START_SCORE]

  lemma {:induction false} StartHyps(v: nat)
    ensures HypsOk([], v, true, START_MAP)
  {
    assert Collapse([]) == [];
    assert Weight([], []) == 1.0;
    forall prefix
      ensures HypOk([], v, true, prefix, Lookup(START_MAP, prefix))
    {
      MassStart(v, prefix);
      assert Witness([], v, [], true, []);
    }
  }

  // ---------- one frame ----------

  /** All pairs of a hypothesis and a selected label have been passed on. */
  ghost predicate AllDone(st: Step, ids: set<nat>, done: Pairs) {
    forall p, k :: (p, k) in done <==> p in st.cur && k in ids
  }

  ghost predicate StepInput(frames: seq<Frame>, v: nat, exact: bool, st: Step, ids: set<nat>, done: Pairs) {
    && v > 0 && |st.frame| == v && st.now == |frames|
    && StepOk(st) && HypsOk(frames, v, exact, st.cur) && AllDone(st, ids, done)
    && (forall k :: k in ids ==> k < v)
  }

  ghost predicate AllIds(ids: set<nat>, v: nat) {
    forall k: nat :: k < v ==> k in ids
  }

  lemma {:induction false} FedAmount(st: Step, ids: set<nat>, done: Pairs, p: Path, k: nat, amount: real)
    requires StepOk(st) && AllDone(st, ids, done) && amount >= 0.0 && (p !in st.cur ==> amount == 0.0)
    ensures 0.0 <= Fed(st, done, p, k, amount) <= Times(amount, Prob(st.frame, k))
    ensures k in ids ==> Fed(st, done, p, k, amount) == Times(amount, Prob(st.frame, k))
    ensures Fed(st, done, p, k, amount) > 0.0 <==> k in ids && amount > 0.0 && Prob(st.frame, k) > 0.0
  {
    hide Times;
    TimesSign(amount, Prob(st.frame, k));
    TimesZero(Prob(st.frame, k));
  }

  lemma {:induction false} BlankMassOk(frames: seq<Frame>, v: nat, exact: bool, st: Step, ids: set<nat>, done: Pairs,
                                       prefix: Path)
    requires StepInput(frames, v, exact, st, ids, done)
    ensures var s := BlankIn(st, done, prefix);
            s <= Mass(frames + [st.frame], v, prefix, true) &&
            (exact && AllIds(ids, v) ==> s == Mass(frames + [st.frame], v, prefix, true))
  {
    hide Times, Mass;
    var e, p := Lookup(st.cur, prefix), Prob(st.frame, BLANK);
    assert HypOk(frames, v, exact, prefix, e);
    FedAmount(st, ids, done, prefix, BLANK, e.Score());
    var full := Mass(frames, v, prefix, true) + Mass(frames, v, prefix, false);
    TimesMono(e.Score(), full, p);
    BlankMassStep(frames, st.frame, v, prefix);
    if exact { assert e.Score() == full; }
  }

  ghost function FromScore(st: Step, prefix: Path): real
    requires prefix != []
  {
    var from := Lookup(st.cur, Init(prefix));
    if Repeats(prefix) then from.s else from.Score()
  }

  lemma {:induction false} LabelMassOk(frames: seq<Frame>, v: nat, exact: bool, st: Step, ids: set<nat>, done: Pairs,
                                       prefix: Path)
    requires StepInput(frames, v, exact, st, ids, done) && Proper(prefix)
    ensures var ns := StayIn(st, done, prefix) + GrowIn(st, done, prefix);
            ns <= Mass(frames + [st.frame], v, prefix, false) &&
            (exact && AllIds(ids, v) ==> ns == Mass(frames + [st.frame], v, prefix, false))
  {
    hide Times, Mass;
    var e, a := Lookup(st.cur, prefix), Last(prefix);
    var p, src := Prob(st.frame, a), FromScore(st, prefix);
    assert HypOk(frames, v, exact, prefix, e);
    assert HypOk(frames, v, exact, Init(prefix), Lookup(st.cur, Init(prefix)));
    if a >= v {
      assert StayIn(st, done, prefix) == 0.0 && GrowIn(st, done, prefix) == 0.0;
      NoLabelMass(frames, st.frame, v, prefix);
    } else {
      FedAmount(st, ids, done, prefix, a, e.ns);
      FedAmount(st, ids, done, Init(prefix), a, src);
      Distribute(e.ns, src, p);
      TimesMono(e.ns + src, FeedMass(frames, v, prefix), p);
      LabelMassStep(frames, st.frame, v, prefix);
      if exact { assert e.ns + src == FeedMass(frames, v, prefix); }
    }
  }

  lemma {:induction false} NewMassOk(frames: seq<Frame>, v: nat, exact: bool, st: Step, ids: set<nat>, done: Pairs,
                                     prefix: Path, e: PrefixScore)
    requires StepInput(frames, v, exact, st, ids, done) && EntryOk(st, done, prefix, e)
    ensures MassOk(frames + [st.frame], v, exact && AllIds(ids, v), prefix, e)
  {
    hide Times, Mass, HypsOk, AllDone, StepOk;
    BlankMassOk(frames, v, exact, st, ids, done, prefix);
    if Proper(prefix) {
      LabelMassOk(frames, v, exact, st, ids, done, prefix);
    } else {
      NoLabelMass(frames, st.frame, v, prefix);
    }
  }

  // ---------- Viterbi: attained ----------

  /** A path may be extended by a label that leads from its prefix to the new one. */
  lemma {:induction false} Extend(frames: seq<Frame>, frame: Frame, v: nat, from: Path, fromBlank: bool, w: real,
                                  k: nat, prefix: Path)
    requires Reached(frames, v, from, fromBlank, w) && k < v
    requires if k == BLANK then prefix == from
             else Proper(prefix) && Last(prefix) == k &&
                  ((from == prefix && !fromBlank) || (from == Init(prefix) && (fromBlank || !Repeats(prefix))))
    ensures Reached(frames + [frame], v, prefix, k == BLANK, Times(w, Prob(frame, k)))
  {
    hide Times, Weight, Collapse;
    var path :| Witness(frames, v, from, fromBlank, path) && Weight(frames, path) == w;
    CountsStep(path, k, prefix, k == BLANK);
    WeightStep(frames, frame, path, k);
    assert Witness(frames + [frame], v, prefix, k == BLANK, path + [k]);
  }

  lemma {:induction false} NewBlankReached(frames: seq<Frame>, v: nat, exact: bool, st: Step, ids: set<nat>,
                                           done: Pairs, prefix: Path)
    requires StepInput(frames, v, exact, st, ids, done)
    ensures var w := BestBlankIn(st, done, prefix);
            w > 0.0 ==> Reached(frames + [st.frame], v, prefix, true, w)
  {
    hide Times, Mass;
    var e := Lookup(st.cur, prefix);
    assert HypOk(frames, v, exact, prefix, e);
    FedAmount(st, ids, done, prefix, BLANK, e.ViterbiScore());
    if BestBlankIn(st, done, prefix) > 0.0 {
      if e.vS > e.vNs || prefix == [] {
        Extend(frames, st.frame, v, prefix, true, e.vS, BLANK, prefix);
      } else {
        Extend(frames, st.frame, v, prefix, false, e.vNs, BLANK, prefix);
      }
    }
  }

  lemma {:induction false} NewLabelReached(frames: seq<Frame>, v: nat, exact: bool, st: Step, ids: set<nat>,
                                           done: Pairs, prefix: Path)
    requires StepInput(frames, v, exact, st, ids, done) && Proper(prefix)
    ensures var w := Max(BestStayIn(st, done, prefix), BestGrowIn(st, done, prefix));
            w > 0.0 ==> Reached(frames + [st.frame], v, prefix, false, w)
  {
    hide Times, Mass;
    var e, f, a, q := Lookup(st.cur, prefix), Lookup(st.cur, Init(prefix)), Last(prefix), Init(prefix);
    assert HypOk(frames, v, exact, prefix, e) && HypOk(frames, v, exact, q, f);
    var src := if Repeats(prefix) then f.vS else f.ViterbiScore();
    FedAmount(st, ids, done, prefix, a, e.vNs);
    FedAmount(st, ids, done, q, a, src);
    if BestStayIn(st, done, prefix) > 0.0 {
      Extend(frames, st.frame, v, prefix, false, e.vNs, a, prefix);
    }
    if BestGrowIn(st, done, prefix) > 0.0 {
      if Repeats(prefix) || f.vS > f.vNs || q == [] {
        Extend(frames, st.frame, v, q, true, f.vS, a, prefix);
      } else {
        Extend(frames, st.frame, v, q, false, f.vNs, a, prefix);
      }
    }
  }

  // ---------- Viterbi: no path is better ----------

  lemma {:induction false} SplitWitness(frames: seq<Frame>, frame: Frame, v: nat, prefix: Path, blankEnd: bool,
                                        path: Path)
    requires Witness(frames + [frame], v, prefix, blankEnd, path)
    ensures path != [] && Last(path) < v
    ensures PathOf(Init(path), |frames|, v)
    ensures Weight(frames + [frame], path) == Times(Weight(frames, Init(path)), Prob(frame, Last(path)))
    ensures Leads(Init(path), Last(path), prefix, blankEnd)
  {
    hide Times, Collapse;
    UnSnoc(path);
    WeightStep(frames, frame, Init(path), Last(path));
  }

  lemma {:induction false} NewBlankBound(frames: seq<Frame>, v: nat, st: Step, ids: set<nat>, done: Pairs, prefix: Path)
    requires StepInput(frames, v, true, st, ids, done) && AllIds(ids, v)
    ensures Bounds(frames + [st.frame], v, prefix, true, BestBlankIn(st, done, prefix))
  {
    hide Times, Mass, Collapse, Weight;
    var e, p := Lookup(st.cur, prefix), Prob(st.frame, BLANK);
    assert HypOk(frames, v, true, prefix, e);
    FedAmount(st, ids, done, prefix, BLANK, e.ViterbiScore());
    forall path | Witness(frames + [st.frame], v, prefix, true, path)
      ensures Weight(frames + [st.frame], path) <= BestBlankIn(st, done, prefix)
    {
      SplitWitness(frames, st.frame, v, prefix, true, path);
      CountsStep(Init(path), Last(path), prefix, true);
      assert Witness(frames, v, prefix, true, Init(path)) || Witness(frames, v, prefix, false, Init(path));
      TimesMono(Weight(frames, Init(path)), e.ViterbiScore(), p);
    }
  }

  lemma {:induction false} NewLabelBound(frames: seq<Frame>, v: nat, st: Step, ids: set<nat>, done: Pairs, prefix: Path)
    requires StepInput(frames, v, true, st, ids, done) && AllIds(ids, v) && Proper(prefix)
    ensures Bounds(frames + [st.frame], v, prefix, false,
                   Max(BestStayIn(st, done, prefix), BestGrowIn(st, done, prefix)))
  {
    hide Times, Mass, Collapse, Weight;
    var e, f, a, q := Lookup(st.cur, prefix), Lookup(st.cur, Init(prefix)), Last(prefix), Init(prefix);
    assert HypOk(frames, v, true, prefix, e) && HypOk(frames, v, true, q, f);
    var src, p := if Repeats(prefix) then f.vS else f.ViterbiScore(), Prob(st.frame, a);
    FedAmount(st, ids, done, prefix, a, e.vNs);
    FedAmount(st, ids, done, q, a, src);
    forall path | Witness(frames + [st.frame], v, prefix, false, path)
      ensures Weight(frames + [st.frame], path) <= Max(BestStayIn(st, done, prefix), BestGrowIn(st, done, prefix))
    {
      var before := Init(path);
      SplitWitness(frames, st.frame, v, prefix, false, path);
      CountsStep(before, Last(path), prefix, false);
      if Counts(before, prefix, false) {
        assert Witness(frames, v, prefix, false, before);
        TimesMono(Weight(frames, before), e.vNs, p);
      } else {
        assert Witness(frames, v, q, true, before) || (!Repeats(prefix) && Witness(frames, v, q, false, before));
        TimesMono(Weight(frames, before), src, p);
      }
    }
  }

  /** No path ends in a proper label yet collapses to a prefix that does not. */
  lemma {:induction false} NoLabelBound(frames: seq<Frame>, v: nat, prefix: Path, w: real)
    requires !Proper(prefix)
    ensures Bounds(frames, v, prefix, false, w)
  {
    forall path
      ensures !Witness(frames, v, prefix, false, path)
    {
      if !EndsInBlank(path) { CollapseLast(path); }
    }
  }

  lemma {:induction false} NewViterbiOk(frames: seq<Frame>, v: nat, exact: bool, st: Step, ids: set<nat>, done: Pairs,
                                        prefix: Path, e: PrefixScore)
    requires StepInput(frames, v, exact, st, ids, done) && EntryOk(st, done, prefix, e)
    ensures ViterbiOk(frames + [st.frame], v, exact && AllIds(ids, v), prefix, e)
  {
    hide Times, Mass, HypsOk, AllDone, Reached, Bounds;
    FedSign(st, done, prefix);
    NewBlankReached(frames, v, exact, st, ids, done, prefix);
    if Proper(prefix) {
      NewLabelReached(frames, v, exact, st, ids, done, prefix);
    } else {
      NoLabelBound(frames + [st.frame], v, prefix, e.vNs);
    }
    if exact && AllIds(ids, v) {
      NewBlankBound(frames, v, st, ids, done, prefix);
      if Proper(prefix) {
        NewLabelBound(frames, v, st, ids, done, prefix);
      }
    }
  }

  lemma {:induction false} NewSignsOk(frames: seq<Frame>, v: nat, exact: bool, st: Step, ids: set<nat>, done: Pairs,
                                      prefix: Path, e: PrefixScore)
    requires StepInput(frames, v, exact, st, ids, done) && EntryOk(st, done, prefix, e)
    ensures ScoresOk(e) && SignsAgree(prefix, e)
  {
    hide Times, Mass, StampsOk, MassOk, ViterbiOk;
    var old0 := Lookup(st.cur, prefix);
    assert HypOk(frames, v, exact, prefix, old0);
    FedAmount(st, ids, done, prefix, BLANK, old0.Score());
    FedAmount(st, ids, done, prefix, BLANK, old0.ViterbiScore());
    assert old0.Score() > 0.0 <==> old0.ViterbiScore() > 0.0 by { SameSign(frames, v, exact, prefix, old0); }
    if Proper(prefix) {
      var f, a, q := Lookup(st.cur, Init(prefix)), Last(prefix), Init(prefix);
      assert HypOk(frames, v, exact, q, f);
      SameSign(frames, v, exact, q, f);
      FedAmount(st, ids, done, prefix, a, old0.ns);
      FedAmount(st, ids, done, prefix, a, old0.vNs);
      FedAmount(st, ids, done, q, a, if Repeats(prefix) then f.s else f.Score());
      FedAmount(st, ids, done, q, a, if Repeats(prefix) then f.vS else f.ViterbiScore());
    }
  }

  /** A hypothesis has mass exactly when some real path backs it. */
  lemma {:induction false} SameSign(frames: seq<Frame>, v: nat, exact: bool, prefix: Path, e: PrefixScore)
    requires HypOk(frames, v, exact, prefix, e)
    ensures e.Score() > 0.0 <==> e.ViterbiScore() > 0.0
  {
    hide MassOk;
  }

  /** One frame keeps every hypothesis sound, and exact if all labels were selected. */
  lemma {:induction false} NewHypOk(frames: seq<Frame>, v: nat, exact: bool, st: Step, ids: set<nat>, done: Pairs,
                                    prefix: Path, e: PrefixScore)
    requires StepInput(frames, v, exact, st, ids, done) && EntryOk(st, done, prefix, e)
    ensures HypOk(frames + [st.frame], v, exact && AllIds(ids, v), prefix, e)
  {
    hide EntryOk, StepInput, MassOk, ViterbiOk, ScoresOk, SignsAgree;
    NewMassOk(frames, v, exact, st, ids, done, prefix, e);
    NewViterbiOk(frames, v, exact, st, ids, done, prefix, e);
    NewSignsOk(frames, v, exact, st, ids, done, prefix, e);
  }

  // ---------- stamps ----------

  lemma {:induction false} NewBlankEmitted(frames: seq<Frame>, v: nat, exact: bool, st: Step, ids: set<nat>,
                                           done: Pairs, prefix: Path)
    requires StepInput(frames, v, exact, st, ids, done) && RunsFit(st.cur, frames, v)
    requires BestBlankIn(st, done, prefix) > 0.0
    ensures Emitted(frames + [st.frame], v, prefix, true, Lookup(st.cur, prefix).TokenTimes())
  {
    hide Times, Mass, Emitted;
    var e := Lookup(st.cur, prefix);
    assert HypOk(frames, v, exact, prefix, e);
    FedAmount(st, ids, done, prefix, BLANK, e.ViterbiScore());
    ReportedEmitted(frames, v, prefix, e);
    EmitBlank(frames, st.frame, v, prefix, prefix == [] || e.vS > e.vNs, e.TokenTimes());
  }

  lemma {:induction false} StayEmitted(frames: seq<Frame>, v: nat, exact: bool, st: Step, ids: set<nat>, done: Pairs,
                                       prefix: Path, times: seq<nat>)
    requires StepInput(frames, v, exact, st, ids, done) && RunsFit(st.cur, frames, v)
    requires Proper(prefix) && StayStamps(st, done, prefix, times)
    ensures Emitted(frames + [st.frame], v, prefix, false, times)
  {
    hide Times, Mass, Emitted;
    var e := Lookup(st.cur, prefix);
    assert HypOk(frames, v, exact, prefix, e);
    FedAmount(st, ids, done, prefix, Last(prefix), e.vNs);
    EmitRepeat(frames, st.frame, v, prefix, e.timesNs);
  }

  lemma {:induction false} GrowEmitted(frames: seq<Frame>, v: nat, exact: bool, st: Step, ids: set<nat>, done: Pairs,
                                       prefix: Path, times: seq<nat>)
    requires StepInput(frames, v, exact, st, ids, done) && RunsFit(st.cur, frames, v)
    requires Proper(prefix) && GrowStamps(st, done, prefix, times)
    ensures Emitted(frames + [st.frame], v, prefix, false, times)
  {
    hide Times, Mass, Emitted;
    var q := Init(prefix);
    var f := Lookup(st.cur, q);
    assert HypOk(frames, v, exact, q, f);
    FedAmount(st, ids, done, q, Last(prefix), if Repeats(prefix) then f.vS else f.ViterbiScore());
    if Repeats(prefix) {
      EmitNew(frames, st.frame, v, prefix, true, f.timesS);
    } else {
      ReportedEmitted(frames, v, q, f);
      EmitNew(frames, st.frame, v, prefix, q == [] || f.vS > f.vNs, f.TokenTimes());
    }
  }

  /** One frame keeps the stamps those of label paths. */
  lemma {:induction false} NewStampsEmitted(frames: seq<Frame>, v: nat, exact: bool, st: Step, ids: set<nat>,
                                            done: Pairs, prefix: Path, e: PrefixScore)
    requires StepInput(frames, v, exact, st, ids, done) && RunsFit(st.cur, frames, v) && EntryOk(st, done, prefix, e)
    ensures StampsEmitted(frames + [st.frame], v, prefix, e)
  {
    hide StepInput, RunsFit, Emitted, StayStamps, GrowStamps, StampsOk;
    if e.vS > 0.0 {
      NewBlankEmitted(frames, v, exact, st, ids, done, prefix);
    }
    if prefix != [] && e.vNs > 0.0 {
      if StayStamps(st, done, prefix, e.timesNs) {
        StayEmitted(frames, v, exact, st, ids, done, prefix, e.timesNs);
      } else {
        GrowEmitted(frames, v, exact, st, ids, done, prefix, e.timesNs);
      }
    }
  }

  /** Dropping hypotheses keeps the rest sound. */
  lemma {:induction false} DropHyps(frames: seq<Frame>, v: nat, hyps: Hyps, kept: Hyps)
    requires Frames(frames, v) && HypsOk(frames, v, false, hyps)
    requires forall p :: p in kept ==> p in hyps && kept[p] == hyps[p]
    ensures HypsOk(frames, v, false, kept)
  {
    hide Mass;
    forall prefix
      ensures HypOk(frames, v, false, prefix, Lookup(kept, prefix))
    {
      assert HypOk(frames, v, false, prefix, Lookup(hyps, prefix));
      MassNonNegative(frames, v, prefix, true);
      MassNonNegative(frames, v, prefix, false);
    }
  }
}
