/** What a time stamp means: the stamp of a token is the last frame of the run of labels that emits it, on a label path
    of positive probability. */
module CtcRuns {
  import opened Sequences
  import opened CtcPaths
  import opened CtcHypothesis

  /** On `path`, frame `t` is the last of the run that emits token `i` of `prefix`. */
  ghost predicate RunEnds(path: Path, prefix: Path, i: nat, t: nat)
    requires i < |prefix|
  {
    && t < |path| && path[t] == prefix[i] && Collapse(path[..t + 1]) == prefix[..i + 1]
    && (t + 1 < |path| ==> path[t + 1] != prefix[i])
  }

  ghost predicate Stamped(path: Path, prefix: Path, times: seq<nat>) {
    |times| == |prefix| && forall i :: 0 <= i < |prefix| ==> RunEnds(path, prefix, i, times[i])
  }

  /** A label path of positive probability emits the tokens at these frames. */
  ghost predicate RunPath(frames: seq<Frame>, v: nat, prefix: Path, blankEnd: bool, times: seq<nat>, path: Path) {
    && PathOf(path, |frames|, v) && Counts(path, prefix, blankEnd) && Weight(frames, path) > 0.0
    && Stamped(path, prefix, times)
  }

  ghost predicate Emitted(frames: seq<Frame>, v: nat, prefix: Path, blankEnd: bool, times: seq<nat>) {
    exists path :: RunPath(frames, v, prefix, blankEnd, times, path)
  }

  /** Both stamp lists of a hypothesis are those of label paths. */
  ghost predicate StampsEmitted(frames: seq<Frame>, v: nat, prefix: Path, e: PrefixScore) {
    && (e.vS > 0.0 ==> Emitted(frames, v, prefix, true, e.timesS))
    && (prefix != [] && e.vNs > 0.0 ==> Emitted(frames, v, prefix, false, e.timesNs))
  }

  ghost predicate RunsFit(hyps: Hyps, frames: seq<Frame>, v: nat) {
    forall p :: p in hyps ==> StampsEmitted(frames, v, p, hyps[p])
  }

  lemma {:induction false} StartRuns(v: nat, e: PrefixScore)
    requires e.timesS == []
    ensures StampsEmitted([], v, [], e)
  {
    assert Collapse([]) == [] && Weight([], []) == 1.0;
    assert RunPath([], v, [], true, [], []);
  }

  // ---------- one more label ----------

  /** A run that has ended stays ended; the last run of a path ends there if another label comes next. */
  lemma {:induction false} RunStays(path: Path, prefix: Path, i: nat, t: nat, k: nat, longer: Path)
    requires i < |prefix| && RunEnds(path, prefix, i, t) && prefix <= longer
    requires t + 1 == |path| ==> k != prefix[i]
    ensures RunEnds(path + [k], longer, i, t)
  {
    hide Collapse;
    assert (path + [k])[..t + 1] == path[..t + 1] && longer[..i + 1] == prefix[..i + 1];
  }

  /** The token whose run reaches the end of the path is the last one. */
  lemma {:induction false} LastRun(path: Path, prefix: Path, i: nat, t: nat)
    requires i < |prefix| && RunEnds(path, prefix, i, t) && Collapse(path) == prefix && t + 1 == |path|
    ensures i == |prefix| - 1 && Last(path) == Last(prefix) && prefix[i] != BLANK && !EndsInBlank(path)
  {
    assert path[..t + 1] == path;
    assert prefix[..i + 1] == prefix;
    CollapseHasNoBlank(path);
    assert prefix[i] in prefix;
  }

  /** Once the path ends in a blank, or the token is not the last, its run has ended before. */
  lemma {:induction false} BlankAfter(path: Path, prefix: Path, times: seq<nat>)
    requires Stamped(path, prefix, times) && Collapse(path) == prefix
    ensures Stamped(path + [BLANK], prefix, times)
  {
    hide RunEnds, Collapse;
    forall i | 0 <= i < |prefix|
      ensures RunEnds(path + [BLANK], prefix, i, times[i])
    {
      if times[i] + 1 == |path| { LastRun(path, prefix, i, times[i]); }
      RunStays(path, prefix, i, times[i], BLANK, prefix);
    }
  }

  /** The last label goes on: the run of the last token ends one frame later. */
  lemma {:induction false} RunGoesOn(path: Path, prefix: Path, times: seq<nat>)
    requires prefix != [] && Stamped(path, prefix, times) && Counts(path, prefix, false)
    ensures Stamped(path + [Last(prefix)], prefix, times[|times| - 1 := |path|])
  {
    hide RunEnds, Collapse;
    var k, n := Last(prefix), |prefix| - 1;
    CollapseLast(path);
    CollapseStep(path, k);
    var times' := times[n := |path|];
    forall i | 0 <= i < |prefix|
      ensures RunEnds(path + [k], prefix, i, times'[i])
    {
      if i < n {
        if times[i] + 1 == |path| { LastRun(path, prefix, i, times[i]); }
        RunStays(path, prefix, i, times[i], k, prefix);
      } else {
        NewRun(path, k, prefix);
      }
    }
  }

  lemma {:induction false} NewRun(path: Path, k: nat, prefix: Path)
    requires prefix != [] && Last(prefix) == k && Collapse(path + [k]) == prefix
    ensures RunEnds(path + [k], prefix, |prefix| - 1, |path|)
  {
    hide Collapse;
    assert (path + [k])[..|path| + 1] == path + [k] && prefix[..|prefix|] == prefix;
  }

  /** Another token begins. */
  lemma {:induction false} RunBegins(path: Path, prefix: Path, blankEnd: bool, times: seq<nat>, k: nat)
    requires k != BLANK && Stamped(path, prefix, times) && Counts(path, prefix, blankEnd)
    requires blankEnd || prefix == [] || Last(prefix) != k
    ensures Stamped(path + [k], prefix + [k], times + [|path|])
  {
    hide RunEnds, Collapse;
    var longer, times' := prefix + [k], times + [|path|];
    if !blankEnd { CollapseLast(path); }
    CollapseStep(path, k);
    forall i | 0 <= i < |longer|
      ensures RunEnds(path + [k], longer, i, times'[i])
    {
      if i < |prefix| {
        if times[i] + 1 == |path| { LastRun(path, prefix, i, times[i]); }
        RunStays(path, prefix, i, times[i], k, longer);
      } else {
        NewRun(path, k, longer);
      }
    }
  }

  // ---------- one more frame ----------

  lemma {:induction false} StillPositive(frames: seq<Frame>, frame: Frame, v: nat, path: Path, k: nat)
    requires PathOf(path, |frames|, v) && k < v && Weight(frames, path) > 0.0 && Prob(frame, k) > 0.0
    ensures PathOf(path + [k], |frames| + 1, v) && Weight(frames + [frame], path + [k]) > 0.0
  {
    hide Times, Weight;
    WeightStep(frames, frame, path, k);
    TimesSign(Weight(frames, path), Prob(frame, k));
  }

  lemma {:induction false} EmitBlank(frames: seq<Frame>, frame: Frame, v: nat, prefix: Path, blankEnd: bool,
                                     times: seq<nat>)
    requires v > 0 && Emitted(frames, v, prefix, blankEnd, times) && Prob(frame, BLANK) > 0.0
    ensures Emitted(frames + [frame], v, prefix, true, times)
  {
    hide Weight, Collapse, Stamped;
    var path :| RunPath(frames, v, prefix, blankEnd, times, path);
    CountsStep(path, BLANK, prefix, true);
    StillPositive(frames, frame, v, path, BLANK);
    BlankAfter(path, prefix, times);
    assert RunPath(frames + [frame], v, prefix, true, times, path + [BLANK]);
  }

  lemma {:induction false} EmitRepeat(frames: seq<Frame>, frame: Frame, v: nat, prefix: Path, times: seq<nat>)
    requires Proper(prefix) && Last(prefix) < v && Emitted(frames, v, prefix, false, times)
    requires Prob(frame, Last(prefix)) > 0.0 && times != []
    ensures Emitted(frames + [frame], v, prefix, false, times[|times| - 1 := |frames|])
  {
    hide Weight, Collapse, Stamped;
    var path :| RunPath(frames, v, prefix, false, times, path);
    CountsStep(path, Last(prefix), prefix, false);
    StillPositive(frames, frame, v, path, Last(prefix));
    RunGoesOn(path, prefix, times);
    assert RunPath(frames + [frame], v, prefix, false, times[|times| - 1 := |frames|], path + [Last(prefix)]);
  }

  lemma {:induction false} EmitNew(frames: seq<Frame>, frame: Frame, v: nat, prefix: Path, blankEnd: bool,
                                   times: seq<nat>)
    requires Proper(prefix) && Last(prefix) < v && Emitted(frames, v, Init(prefix), blankEnd, times)
    requires (blankEnd || !Repeats(prefix)) && Prob(frame, Last(prefix)) > 0.0
    ensures Emitted(frames + [frame], v, prefix, false, times + [|frames|])
  {
    hide Weight, Collapse, Stamped;
    var path :| RunPath(frames, v, Init(prefix), blankEnd, times, path);
    UnSnoc(prefix);
    CountsStep(path, Last(prefix), prefix, false);
    StillPositive(frames, frame, v, path, Last(prefix));
    RunBegins(path, Init(prefix), blankEnd, times, Last(prefix));
    assert RunPath(frames + [frame], v, prefix, false, times + [|frames|], path + [Last(prefix)]);
  }

  /** The stamps a hypothesis reports are those of a path that ends in blank exactly if its blank score is the
      better. */
  lemma {:induction false} ReportedEmitted(frames: seq<Frame>, v: nat, prefix: Path, e: PrefixScore)
    requires StampsEmitted(frames, v, prefix, e) && ScoresOk(e) && StampsOk(e, prefix, |frames|)
    requires e.ViterbiScore() > 0.0 && (prefix == [] ==> e.vNs <= e.vS)
    ensures Emitted(frames, v, prefix, prefix == [] || e.vS > e.vNs, e.TokenTimes())
  {
    hide Emitted;
    if prefix == [] {
      assert e.timesS == [] && e.timesNs == [];
    }
  }
}
