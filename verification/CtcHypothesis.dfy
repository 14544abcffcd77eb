/** A decoder hypothesis (`PrefixScore` of ctc-prefix-decoder.h) and what one frame does to it
    (the four update cases of `CtcSearch`).  Probabilities are linear, see CtcPaths. */
module CtcHypothesis {
  import opened Sequences
  import opened CtcPaths
  import opened ContextGraph

  datatype Option<T> = None | Some(value: T)

  /** On the floor (zero here) the other argument is returned, as in the program. */
  function LogAdd(x: real, y: real): real {
    if x <= 0.0 then y else if y <= 0.0 then x else x + y
  }

  datatype PrefixScore = PrefixScore(
    s: real, ns: real,          // mass of the paths that end in blank, or in a proper label
    vS: real, vNs: real,        // the best such path
    tokenProb: real,            // probability of the current token
    timesS: seq<nat>, timesNs: seq<nat>,
    hasContext: bool, context: Context)
  {
    function Score(): real { LogAdd(s, ns) }

    function ViterbiScore(): real { if vS > vNs then vS else vNs }

    function TokenTimes(): seq<nat> { if vS > vNs then timesS else timesNs }

    /** Case 0: a blank keeps the prefix. */
    function AddBlank(from: PrefixScore, prob: real): PrefixScore {
      this.(s := LogAdd(s, Times(from.Score(), prob)),
            vS := Times(from.ViterbiScore(), prob),
            timesS := from.TokenTimes())
    }

    /** Case 1: the repeated last label keeps the prefix; its time stamp may move to `now`. */
    function AddRepeat(from: PrefixScore, prob: real, now: nat): PrefixScore
      requires vNs < Times(from.vNs, prob) ==> |from.timesNs| > 0
    {
      var e := this.(ns := LogAdd(ns, Times(from.ns, prob)));
      if e.vNs < Times(from.vNs, prob) then
        var f := e.(vNs := Times(from.vNs, prob));
        if f.tokenProb < prob then
          f.(tokenProb := prob, timesNs := from.timesNs[|from.timesNs| - 1 := now])
        else f
      else e
    }

    /** Cases 2 and 3: a label extends the prefix. */
    function AddLabel(mass: real, viterbi: real, times: seq<nat>, prob: real, now: nat): PrefixScore {
      var e := this.(ns := LogAdd(ns, Times(mass, prob)));
      if e.vNs < Times(viterbi, prob) then
        e.(vNs := Times(viterbi, prob), tokenProb := prob, timesNs := times + [now])
      else e
    }
  }

  /** For a repeated token and a longer path of less weight the order of the two cases decides the stamps, not the
      scores: the better path's are kept only if it comes first. */
  lemma {:induction false} OrderDecidesStamps(from: PrefixScore, mass: real, viterbi: real, times: seq<nat>, prob: real,
                                              now: nat)
    requires from.timesNs != [] && prob > 0.0 && 0.0 < Times(viterbi, prob) < Times(from.vNs, prob)
    ensures var a, b := FLOOR.AddLabel(mass, viterbi, times, prob, now), FLOOR.AddRepeat(from, prob, now);
            && a.AddRepeat(from, prob, now).vNs == b.AddLabel(mass, viterbi, times, prob, now).vNs
               == Times(from.vNs, prob)
            && a.AddRepeat(from, prob, now).timesNs == times + [now]
            && b.AddLabel(mass, viterbi, times, prob, now).timesNs == from.timesNs[|from.timesNs| - 1 := now]
  {
    hide Times;
  }

  const FLOOR := PrefixScore(0.0, 0.0, 0.0, 0.0, 0.0, [], [], false, NO_CONTEXT)

  type Hyps = map<Path, PrefixScore>

  /** A prefix that is not in the map stands for the floor scores, as the program's map insertion does. */
  function Lookup(hyps: Hyps, prefix: Path): PrefixScore {
    if prefix in hyps then hyps[prefix] else FLOOR
  }

  // ---------- facts about products ----------

  lemma TimesSign(a: real, b: real)
    requires a >= 0.0 && b >= 0.0
    ensures Times(a, b) >= 0.0 && (Times(a, b) > 0.0 <==> a > 0.0 && b > 0.0)
  {
  }

  lemma TimesMono(a: real, b: real, c: real)
    requires a <= b && c >= 0.0
    ensures Times(a, c) <= Times(b, c)
  {
  }

  // ---------- well-formed hypotheses ----------

  /** One time stamp for each of `n` tokens, increasing, all before `now`. */
  ghost predicate Stamps(times: seq<nat>, n: nat, now: nat) {
    |times| == n && (forall i :: 0 <= i < n ==> times[i] < now) && forall i, j :: 0 <= i < j < n ==> times[i] < times[j]
  }

  ghost predicate StampsOk(e: PrefixScore, prefix: Path, now: nat) {
    && (e.vS > 0.0 ==> Stamps(e.timesS, |prefix|, now))
    && (e.vNs > 0.0 ==> Stamps(e.timesNs, |prefix|, now))
    && (e.vNs == 0.0 ==> e.timesNs == [])
  }

  ghost predicate ScoresOk(e: PrefixScore) {
    e.s >= 0.0 && e.ns >= 0.0 && e.vS >= 0.0 && e.vNs >= 0.0
  }

  /** The stamps of the better of the two paths fit the prefix exactly when that path is above the floor. */
  lemma StampsFit(e: PrefixScore, prefix: Path, now: nat)
    requires ScoresOk(e) && StampsOk(e, prefix, now)
    ensures e.ViterbiScore() > 0.0 ==> Stamps(e.TokenTimes(), |prefix|, now)
    ensures |e.TokenTimes()| == |prefix| <==> e.ViterbiScore() > 0.0 || prefix == []
  {
  }

  predicate Proper(prefix: Path) {
    prefix != [] && Last(prefix) != BLANK
  }

  // ---------- one frame, part of the way through its loops ----------

  datatype Step = Step(cur: Hyps, frame: Frame, now: nat)

  ghost predicate StepOk(st: Step) {
    && NonNegative(st.frame)
    && forall prefix :: prefix in st.cur ==> ScoresOk(st.cur[prefix]) && StampsOk(st.cur[prefix], prefix, st.now)
  }

  type Pairs = set<(Path, nat)>

  ghost function Fed(st: Step, done: Pairs, from: Path, id: nat, amount: real): real {
    if (from, id) in done then Times(amount, Prob(st.frame, id)) else 0.0
  }

  /** What the pairs done so far have fed into the blank-ending mass of `prefix`. */
  ghost function BlankIn(st: Step, done: Pairs, prefix: Path): real {
    Fed(st, done, prefix, BLANK, Lookup(st.cur, prefix).Score())
  }

  ghost function StayIn(st: Step, done: Pairs, prefix: Path): real
    requires prefix != []
  {
    Fed(st, done, prefix, Last(prefix), Lookup(st.cur, prefix).ns)
  }

  ghost function GrowIn(st: Step, done: Pairs, prefix: Path): real
    requires prefix != []
  {
    var from := Lookup(st.cur, Init(prefix));
    Fed(st, done, Init(prefix), Last(prefix), if Repeats(prefix) then from.s else from.Score())
  }

  ghost function BestBlankIn(st: Step, done: Pairs, prefix: Path): real {
    Fed(st, done, prefix, BLANK, Lookup(st.cur, prefix).ViterbiScore())
  }

  ghost function BestStayIn(st: Step, done: Pairs, prefix: Path): real
    requires prefix != []
  {
    Fed(st, done, prefix, Last(prefix), Lookup(st.cur, prefix).vNs)
  }

  ghost function BestGrowIn(st: Step, done: Pairs, prefix: Path): real
    requires prefix != []
  {
    var from := Lookup(st.cur, Init(prefix));
    Fed(st, done, Init(prefix), Last(prefix), if Repeats(prefix) then from.vS else from.ViterbiScore())
  }

  function Max(a: real, b: real): real {
    if a < b then b else a
  }

  /** A repeated label takes over the stamps of its path, with the last one moved to this frame. */
  ghost predicate StayStamps(st: Step, done: Pairs, prefix: Path, times: seq<nat>)
    requires prefix != []
  {
    var from := Lookup(st.cur, prefix).timesNs;
    BestStayIn(st, done, prefix) > 0.0 && from != [] && times == from[|from| - 1 := st.now]
  }

  /** A new token takes over the stamps of the path it extends, and is stamped with this frame. */
  ghost predicate GrowStamps(st: Step, done: Pairs, prefix: Path, times: seq<nat>)
    requires prefix != []
  {
    var from := Lookup(st.cur, Init(prefix));
    BestGrowIn(st, done, prefix) > 0.0
    && times == (if Repeats(prefix) then from.timesS else from.TokenTimes()) + [st.now]
  }

  /** Where the stamps of an entry come from. */
  ghost predicate StampsFrom(st: Step, done: Pairs, prefix: Path, e: PrefixScore) {
    && (e.vS > 0.0 ==> e.timesS == Lookup(st.cur, prefix).TokenTimes())
    && (Proper(prefix) && e.vNs > 0.0 ==>
          StayStamps(st, done, prefix, e.timesNs) || GrowStamps(st, done, prefix, e.timesNs))
  }

  /** The entry of `prefix` holds exactly what the pairs done so far feed into it. */
  ghost predicate EntryOk(st: Step, done: Pairs, prefix: Path, e: PrefixScore) {
    && e.s == BlankIn(st, done, prefix)
    && e.vS == BestBlankIn(st, done, prefix)
    && e.ns == (if Proper(prefix) then StayIn(st, done, prefix) + GrowIn(st, done, prefix) else 0.0)
    && e.vNs == (if Proper(prefix) then Max(BestStayIn(st, done, prefix), BestGrowIn(st, done, prefix)) else 0.0)
    && StampsOk(e, prefix, st.now + 1) && StampsFrom(st, done, prefix, e)
    && (e.vNs == 0.0 ==> e.tokenProb == 0.0)
    && (e.vNs > 0.0 ==> e.tokenProb == Prob(st.frame, Last(prefix)) > 0.0)
  }

  ghost predicate Feeds(from: Path, id: nat, prefix: Path) {
    (id == BLANK && from == prefix)
    || (Proper(prefix) && id == Last(prefix) && (from == prefix || from == Init(prefix)))
  }

  lemma {:induction false} FloorEntry(st: Step, prefix: Path)
    ensures EntryOk(st, {}, prefix, FLOOR)
  {
  }

  lemma {:induction false} UntouchedEntry(st: Step, done: Pairs, from: Path, id: nat, prefix: Path, e: PrefixScore)
    requires EntryOk(st, done, prefix, e) && !Feeds(from, id, prefix)
    ensures EntryOk(st, done + {(from, id)}, prefix, e)
  {
  }

  lemma {:induction false} FedSign(st: Step, done: Pairs, prefix: Path)
    requires StepOk(st)
    ensures BlankIn(st, done, prefix) >= 0.0 && BestBlankIn(st, done, prefix) >= 0.0
    ensures Proper(prefix) ==> StayIn(st, done, prefix) >= 0.0 && GrowIn(st, done, prefix) >= 0.0
    ensures Proper(prefix) ==> BestStayIn(st, done, prefix) >= 0.0 && BestGrowIn(st, done, prefix) >= 0.0
  {
    hide Times;
    var e, p := Lookup(st.cur, prefix), Prob(st.frame, BLANK);
    TimesSign(e.Score(), p);
    TimesSign(e.ViterbiScore(), p);
    if Proper(prefix) {
      var f, a := Lookup(st.cur, Init(prefix)), Prob(st.frame, Last(prefix));
      TimesSign(e.ns, a);
      TimesSign(e.vNs, a);
      TimesSign(f.s, a);
      TimesSign(f.vS, a);
      TimesSign(f.Score(), a);
      TimesSign(f.ViterbiScore(), a);
    }
  }

  lemma {:induction false} BlankEntry(st: Step, done: Pairs, prefix: Path, e: PrefixScore)
    requires StepOk(st) && prefix in st.cur && EntryOk(st, done, prefix, e) && (prefix, BLANK) !in done
    ensures EntryOk(st, done + {(prefix, BLANK)}, prefix, e.AddBlank(st.cur[prefix], Prob(st.frame, BLANK)))
  {
    hide Times;
    var from, p := st.cur[prefix], Prob(st.frame, BLANK);
    FedSign(st, done, prefix);
    TimesSign(from.Score(), p);
    TimesSign(from.ViterbiScore(), p);
    StampsFit(from, prefix, st.now);
  }

  /** The program's check that a repeated token has a time stamp cannot fail. */
  lemma {:induction false} RepeatHasStamp(st: Step, done: Pairs, prefix: Path, e: PrefixScore)
    requires StepOk(st) && prefix in st.cur && Proper(prefix) && EntryOk(st, done, prefix, e)
    ensures e.vNs < Times(st.cur[prefix].vNs, Prob(st.frame, Last(prefix))) ==> |st.cur[prefix].timesNs| > 0
  {
    FedSign(st, done, prefix);
    TimesSign(st.cur[prefix].vNs, Prob(st.frame, Last(prefix)));
  }

  lemma {:induction false} RepeatEntry(st: Step, done: Pairs, prefix: Path, e: PrefixScore)
    requires StepOk(st) && prefix in st.cur && Proper(prefix) && EntryOk(st, done, prefix, e)
    requires (prefix, Last(prefix)) !in done
    requires e.vNs < Times(st.cur[prefix].vNs, Prob(st.frame, Last(prefix))) ==> |st.cur[prefix].timesNs| > 0
    ensures EntryOk(st, done + {(prefix, Last(prefix))}, prefix,
                    e.AddRepeat(st.cur[prefix], Prob(st.frame, Last(prefix)), st.now))
  {
    hide Times;
    var from, p := st.cur[prefix], Prob(st.frame, Last(prefix));
    FedSign(st, done, prefix);
    TimesSign(from.ns, p);
    TimesSign(from.vNs, p);
    assert Init(prefix) != prefix by { assert |Init(prefix)| < |prefix|; }
  }

  /** What the hypothesis `from`, one label shorter, feeds into `prefix`. */
  function Grown(from: PrefixScore, prefix: Path, e: PrefixScore, prob: real, now: nat): PrefixScore
    requires prefix != []
  {
    if Repeats(prefix) then e.AddLabel(from.s, from.vS, from.timesS, prob, now)
    else e.AddLabel(from.Score(), from.ViterbiScore(), from.TokenTimes(), prob, now)
  }

  lemma {:induction false} AddLabelKeeps(e: PrefixScore, prefix: Path, mass: real, viterbi: real, times: seq<nat>,
                                         prob: real, now: nat)
    requires prefix != [] && mass >= 0.0 && viterbi >= 0.0 && prob >= 0.0 && e.ns >= 0.0 && e.vNs >= 0.0
    requires viterbi > 0.0 ==> Stamps(times, |prefix| - 1, now)
    requires StampsOk(e, prefix, now + 1)
    requires (e.vNs == 0.0 ==> e.tokenProb == 0.0) && (e.vNs > 0.0 ==> e.tokenProb == prob > 0.0)
    ensures var r := e.AddLabel(mass, viterbi, times, prob, now);
            && r.s == e.s && r.vS == e.vS
            && r.ns == e.ns + Times(mass, prob) && r.vNs == Max(e.vNs, Times(viterbi, prob))
            && StampsOk(r, prefix, now + 1)
            && (r.vNs == 0.0 ==> r.tokenProb == 0.0) && (r.vNs > 0.0 ==> r.tokenProb == prob > 0.0)
  {
    hide Times;
    TimesSign(mass, prob);
    TimesSign(viterbi, prob);
  }

  lemma {:induction false} LabelEntry(st: Step, done: Pairs, prefix: Path, e: PrefixScore)
    requires StepOk(st) && Proper(prefix) && Init(prefix) in st.cur && EntryOk(st, done, prefix, e)
    requires (Init(prefix), Last(prefix)) !in done
    ensures EntryOk(st, done + {(Init(prefix), Last(prefix))}, prefix,
                    Grown(st.cur[Init(prefix)], prefix, e, Prob(st.frame, Last(prefix)), st.now))
  {
    hide Times, StampsOk, Stamps;
    var from, f, p := Init(prefix), st.cur[Init(prefix)], Prob(st.frame, Last(prefix));
    FedSign(st, done, prefix);
    StampsFit(f, from, st.now);
    assert f.vS > 0.0 ==> Stamps(f.timesS, |from|, st.now) by { VsStamps(f, from, st.now); }
    if Repeats(prefix) {
      AddLabelKeeps(e, prefix, f.s, f.vS, f.timesS, p, st.now);
    } else {
      AddLabelKeeps(e, prefix, f.Score(), f.ViterbiScore(), f.TokenTimes(), p, st.now);
    }
    assert from != prefix by { assert |from| < |prefix|; }
  }

  lemma VsStamps(e: PrefixScore, prefix: Path, now: nat)
    requires StampsOk(e, prefix, now)
    ensures e.vS > 0.0 ==> Stamps(e.timesS, |prefix|, now)
  {
  }
}
