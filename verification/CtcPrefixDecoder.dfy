/** The CTC prefix beam search decoder (ctc-prefix-decoder.cpp). */
module CtcPrefixDecoder {
  import opened Arithmetic
  import opened FiniteSets
  import opened Sequences
  import opened CtcPaths
  import opened ContextGraph
  import opened CtcHypothesis
  import opened CtcRuns
  import opened CtcInvariant
  import opened CtcKeys
  import opened CtcBeams
  import opened CtcText
  import TopK

  type Entry = (Path, PrefixScore)

  datatype Token = Word(id: nat) | StartTag | EndTag

  // ---------- contexts of hypotheses ----------

  /** While `unflushed`, a context is the fold of the graph over the hypothesis's tokens. */
  ghost predicate ContextFits(graph: Option<Graph>, unflushed: bool, prefix: Path, c: Context) {
    match graph
    case None => c == NO_CONTEXT
    case Some(g) => WellFormed(g) && Usable(g, c, prefix) && (unflushed ==> c == Fold(g, prefix))
  }

  ghost predicate GraphOk(graph: Option<Graph>) {
    graph.Some? ==> WellFormed(graph.value)
  }

  /** The final update clears an unfinished hotword with the reserved word 0. */
  function Flushed(g: Graph, c: Context, n: nat): Context
    requires c.state < |g.arcs|
  {
    if c.state != 0 then Advance(g, c, 0, n) else c
  }

  function FlushedHyp(g: Graph, e: PrefixScore, n: nat): PrefixScore
    requires e.context.state < |g.arcs|
  {
    e.(context := Flushed(g, e.context, n))
  }

  /** Every hypothesis, and only its context, has been flushed. */
  ghost predicate AllFlushed(g: Graph, before: Hyps, after: Hyps) {
    && after.Keys == before.Keys
    && forall p :: p in before ==> before[p].context.state < |g.arcs| && after[p] == FlushedHyp(g, before[p], |p|)
  }

  ghost predicate BestFirst(scores: seq<real>) {
    forall i, j :: 0 <= i < j < |scores| ==> scores[i] >= scores[j]
  }

  lemma AlreadyFlushed(g: Graph, e: PrefixScore, n: nat)
    requires e.context.state < |g.arcs|
    ensures FlushedHyp(g, e, n) == if e.context.state != 0 then e.(context := Advance(g, e.context, 0, n)) else e
  {
  }

  // ---------- the hypotheses after a number of frames ----------

  ghost predicate KeysFit(hyps: Hyps, v: nat, n: nat, graph: Option<Graph>, unflushed: bool) {
    forall p :: p in hyps ==>
      KeyOk(p, v, n) && StampsOk(hyps[p], p, n) && ContextFits(graph, unflushed, p, hyps[p].context)
  }

  /** `exact` says that no pruning has dropped anything. */
  ghost predicate SearchState(hyps: Hyps, frames: seq<Frame>, v: nat, exact: bool, graph: Option<Graph>,
                              unflushed: bool) {
    && v > 0 && Frames(frames, v) && GraphOk(graph)
    && HypsOk(frames, v, exact, hyps) && RunsFit(hyps, frames, v)
    && KeysFit(hyps, v, |frames|, graph, unflushed)
    && (exact ==> forall p :: KeyOk(p, v, |frames|) ==> p in hyps)
  }

  lemma {:induction false} StartState(v: nat, graph: Option<Graph>)
    requires v > 0 && GraphOk(graph)
    ensures SearchState(START_MAP, [], v, true, graph, true)
  {
    hide HypOk;
    StartHyps(v);
    StartRuns(v, START_SCORE);
    assert forall p :: KeyOk(p, v, 0) ==> p == [];
  }

  // ---------- hypotheses in the middle of a frame ----------

  ghost predicate NextEntries(st: Step, done: Pairs, next: Hyps) {
    forall p :: EntryOk(st, done, p, Lookup(next, p))
  }

  ghost predicate NextKeys(next: Hyps, v: nat, n: nat, graph: Option<Graph>, unflushed: bool) {
    forall p :: p in next ==>
      KeyOk(p, v, n) && ContextFits(graph, unflushed, p, next[p].context) && (graph.Some? ==> next[p].hasContext)
  }

  /** Every hypothesis and every extension of one by a proper label is among the next ones. */
  ghost predicate Complete(cur: Hyps, next: Hyps, v: nat) {
    (forall p :: p in cur ==> p in next) && forall p, k :: p in cur && BLANK < k < v ==> p + [k] in next
  }

  lemma {:induction false} PassKeeps(st: Step, done: Pairs, from: Path, id: nat, next: Hyps, after: Hyps)
    requires NextEntries(st, done, next)
    requires forall p | Feeds(from, id, p) :: EntryOk(st, done + {(from, id)}, p, Lookup(after, p))
    requires forall p | !Feeds(from, id, p) :: Lookup(after, p) == Lookup(next, p)
    ensures NextEntries(st, done + {(from, id)}, after)
  {
    hide EntryOk, Feeds;
    forall p
      ensures EntryOk(st, done + {(from, id)}, p, Lookup(after, p))
    {
      if !Feeds(from, id, p) {
        UntouchedEntry(st, done, from, id, p, Lookup(next, p));
      }
    }
  }

  /** The only prefixes a pair feeds: its own prefix, and that prefix extended by the label. */
  lemma {:induction false} WhatFeeds(from: Path, id: nat, p: Path)
    ensures Feeds(from, id, p) <==>
            (p == from && (id == BLANK || (from != [] && Last(from) == id))) || (id != BLANK && p == from + [id])
  {
    Snoc(from, id);
    if p != [] { UnSnoc(p); }
  }

  lemma {:induction false} FeedsOnly(from: Path, id: nat)
    ensures forall p :: Feeds(from, id, p) <==>
              (p == from && (id == BLANK || (from != [] && Last(from) == id))) || (id != BLANK && p == from + [id])
  {
    forall p
      ensures Feeds(from, id, p) <==>
              (p == from && (id == BLANK || (from != [] && Last(from) == id))) || (id != BLANK && p == from + [id])
    {
      WhatFeeds(from, id, p);
    }
  }

  /** The context is set by whichever pair reaches the prefix first. */
  function WithContext(graph: Option<Graph>, e: PrefixScore, c: Context): PrefixScore {
    if graph.None? || e.hasContext then e else e.(hasContext := true, context := c)
  }

  lemma {:induction false} ContextFree(st: Step, done: Pairs, prefix: Path, graph: Option<Graph>, e: PrefixScore,
                                       c: Context)
    requires EntryOk(st, done, prefix, e)
    ensures EntryOk(st, done, prefix, WithContext(graph, e, c))
  {
  }

  lemma {:induction false} SetKey(next: Hyps, v: nat, n: nat, graph: Option<Graph>, unflushed: bool, prefix: Path,
                                  e: PrefixScore, c: Context)
    requires NextKeys(next, v, n, graph, unflushed) && KeyOk(prefix, v, n) && ContextFits(graph, unflushed, prefix, c)
    requires e.hasContext == Lookup(next, prefix).hasContext && e.context == Lookup(next, prefix).context
    ensures NextKeys(next[prefix := WithContext(graph, e, c)], v, n, graph, unflushed)
  {
  }

  lemma {:induction false} ContextGrows(graph: Option<Graph>, unflushed: bool, prefix: Path, c: Context, id: nat)
    requires ContextFits(graph, unflushed, prefix, c)
    ensures graph.Some? ==> c.state < |graph.value.arcs|
    ensures ContextFits(graph, unflushed, prefix + [id], if graph.Some? then Advance(graph.value, c, id, |prefix|)
                        else c)
  {
    if graph.Some? {
      Snoc(prefix, id);
      AdvanceUsable(graph.value, c, prefix, id);
    }
  }

  ghost predicate PassInput(st: Step, done: Pairs, next: Hyps, prefix: Path, id: nat, v: nat, graph: Option<Graph>,
                            unflushed: bool) {
    && StepOk(st) && GraphOk(graph) && KeysFit(st.cur, v, st.now, graph, unflushed)
    && prefix in st.cur && id < v && (prefix, id) !in done
    && NextEntries(st, done, next) && NextKeys(next, v, st.now + 1, graph, unflushed)
  }

  ghost predicate PassOutput(st: Step, done: Pairs, after: Hyps, v: nat, graph: Option<Graph>, unflushed: bool) {
    NextEntries(st, done, after) && NextKeys(after, v, st.now + 1, graph, unflushed)
  }

  /** Every access the four cases make is defined, including the last time stamp of a repeated token. */
  lemma {:induction false} PassFacts(st: Step, done: Pairs, next: Hyps, prefix: Path, id: nat, v: nat,
                                     graph: Option<Graph>, unflushed: bool)
    requires PassInput(st, done, next, prefix, id, v, graph, unflushed)
    ensures prefix in st.cur
    ensures graph.Some? ==> st.cur[prefix].context.state < |graph.value.arcs|
    ensures prefix != [] && Last(prefix) == id && id != BLANK ==>
              Lookup(next, prefix).vNs < Times(st.cur[prefix].vNs, Prob(st.frame, id)) ==> |st.cur[prefix].timesNs| > 0
  {
    hide EntryOk, Times;
    ContextGrows(graph, unflushed, prefix, st.cur[prefix].context, id);
    if prefix != [] && Last(prefix) == id && id != BLANK {
      assert EntryOk(st, done, prefix, Lookup(next, prefix));
      RepeatHasStamp(st, done, prefix, Lookup(next, prefix));
    }
  }

  lemma {:induction false} BlankCase(st: Step, done: Pairs, next: Hyps, prefix: Path, v: nat, graph: Option<Graph>,
                                     unflushed: bool)
    requires PassInput(st, done, next, prefix, BLANK, v, graph, unflushed)
    ensures var from := st.cur[prefix];
            var e := Lookup(next, prefix).AddBlank(from, Prob(st.frame, BLANK));
            PassOutput(st, done + {(prefix, BLANK)}, next[prefix := WithContext(graph, e, from.context)], v, graph,
                       unflushed)
  {
    hide EntryOk, Feeds, NextKeys, WithContext, StampsOk, ContextFits;
    var from, done' := st.cur[prefix], done + {(prefix, BLANK)};
    var e := Lookup(next, prefix).AddBlank(from, Prob(st.frame, BLANK));
    assert EntryOk(st, done, prefix, Lookup(next, prefix));
    BlankEntry(st, done, prefix, Lookup(next, prefix));
    ContextFree(st, done', prefix, graph, e, from.context);
    SetKey(next, v, st.now + 1, graph, unflushed, prefix, e, from.context);
    FeedsOnly(prefix, BLANK);
    PassKeeps(st, done, prefix, BLANK, next, next[prefix := WithContext(graph, e, from.context)]);
  }

  lemma {:induction false} RepeatCase(st: Step, done: Pairs, next: Hyps, prefix: Path, v: nat, graph: Option<Graph>,
                                      unflushed: bool)
    requires Proper(prefix) && PassInput(st, done, next, prefix, Last(prefix), v, graph, unflushed)
    ensures var from, id := st.cur[prefix], Last(prefix);
            var p, longer := Prob(st.frame, id), prefix + [id];
            && (Lookup(next, prefix).vNs < Times(from.vNs, p) ==> |from.timesNs| > 0)
            && (graph.Some? ==> from.context.state < |graph.value.arcs|)
            && var c := if graph.Some? then Advance(graph.value, from.context, id, |prefix|) else from.context;
               var e := Lookup(next, prefix).AddRepeat(from, p, st.now);
               var f := Lookup(next, longer).AddLabel(from.s, from.vS, from.timesS, p, st.now);
               PassOutput(st, done + {(prefix, id)},
                          next[prefix := WithContext(graph, e, from.context)][longer := WithContext(graph, f, c)], v,
                          graph, unflushed)
  {
    hide EntryOk, Feeds, NextKeys, WithContext, StampsOk, ContextFits, Times, Advance, LogAdd;
    var from, id, longer := st.cur[prefix], Last(prefix), prefix + [Last(prefix)];
    var p, done' := Prob(st.frame, id), done + {(prefix, id)};
    PassFacts(st, done, next, prefix, id, v, graph, unflushed);
    ContextGrows(graph, unflushed, prefix, from.context, id);
    var c := if graph.Some? then Advance(graph.value, from.context, id, |prefix|) else from.context;
    var e := Lookup(next, prefix).AddRepeat(from, p, st.now);
    var f := Lookup(next, longer).AddLabel(from.s, from.vS, from.timesS, p, st.now);
    Snoc(prefix, id);
    assert EntryOk(st, done, prefix, Lookup(next, prefix)) && EntryOk(st, done, longer, Lookup(next, longer));
    RepeatEntry(st, done, prefix, Lookup(next, prefix));
    LabelEntry(st, done, longer, Lookup(next, longer));
    ContextFree(st, done', prefix, graph, e, from.context);
    ContextFree(st, done', longer, graph, f, c);
    SetKey(next, v, st.now + 1, graph, unflushed, prefix, e, from.context);
    var between := next[prefix := WithContext(graph, e, from.context)];
    SetKey(between, v, st.now + 1, graph, unflushed, longer, f, c);
    FeedsOnly(prefix, id);
    PassKeeps(st, done, prefix, id, next, between[longer := WithContext(graph, f, c)]);
  }

  lemma {:induction false} LabelCase(st: Step, done: Pairs, next: Hyps, prefix: Path, id: nat, v: nat,
                                     graph: Option<Graph>, unflushed: bool)
    requires PassInput(st, done, next, prefix, id, v, graph, unflushed) && id != BLANK
             && (prefix == [] || Last(prefix) != id)
    ensures var from := st.cur[prefix];
            var p, longer := Prob(st.frame, id), prefix + [id];
            && (graph.Some? ==> from.context.state < |graph.value.arcs|)
            && var c := if graph.Some? then Advance(graph.value, from.context, id, |prefix|) else from.context;
               var e := Lookup(next, longer).AddLabel(from.Score(), from.ViterbiScore(), from.TokenTimes(), p, st.now);
               PassOutput(st, done + {(prefix, id)}, next[longer := WithContext(graph, e, c)], v, graph, unflushed)
  {
    hide EntryOk, Feeds, NextKeys, WithContext, StampsOk, ContextFits, Times, Advance, LogAdd;
    var from, longer := st.cur[prefix], prefix + [id];
    var p, done' := Prob(st.frame, id), done + {(prefix, id)};
    PassFacts(st, done, next, prefix, id, v, graph, unflushed);
    ContextGrows(graph, unflushed, prefix, from.context, id);
    var c := if graph.Some? then Advance(graph.value, from.context, id, |prefix|) else from.context;
    var e := Lookup(next, longer).AddLabel(from.Score(), from.ViterbiScore(), from.TokenTimes(), p, st.now);
    Snoc(prefix, id);
    assert EntryOk(st, done, longer, Lookup(next, longer));
    LabelEntry(st, done, longer, Lookup(next, longer));
    ContextFree(st, done', longer, graph, e, c);
    SetKey(next, v, st.now + 1, graph, unflushed, longer, e, c);
    FeedsOnly(prefix, id);
    PassKeeps(st, done, prefix, id, next, next[longer := WithContext(graph, e, c)]);
  }

  /** The frame's loops are through: the next hypotheses are sound for one frame more. */
  lemma {:induction false} FrameDone(frames: seq<Frame>, v: nat, exact: bool, graph: Option<Graph>, unflushed: bool,
                                     st: Step, ids: set<nat>, done: Pairs, next: Hyps)
    requires SearchState(st.cur, frames, v, exact, graph, unflushed) && StepInput(frames, v, exact, st, ids, done)
    requires NextEntries(st, done, next) && NextKeys(next, v, |frames| + 1, graph, unflushed)
    requires AllIds(ids, v) ==> Complete(st.cur, next, v)
    ensures SearchState(next, frames + [st.frame], v, exact && AllIds(ids, v), graph, unflushed)
  {
    hide HypOk, MassOk, ViterbiOk, StampsEmitted;
    forall p
      ensures HypOk(frames + [st.frame], v, exact && AllIds(ids, v), p, Lookup(next, p))
    {
      assert EntryOk(st, done, p, Lookup(next, p));
      NewHypOk(frames, v, exact, st, ids, done, p, Lookup(next, p));
    }
    forall p | p in next
      ensures StampsOk(next[p], p, |frames| + 1) && StampsEmitted(frames + [st.frame], v, p, next[p])
    {
      assert EntryOk(st, done, p, Lookup(next, p));
      NewStampsEmitted(frames, v, exact, st, ids, done, p, next[p]);
    }
    if exact && AllIds(ids, v) {
      forall p | KeyOk(p, v, |frames| + 1)
        ensures p in next
      {
        if |p| <= |frames| {
          assert KeyOk(p, v, |frames|);
        } else {
          UnSnoc(p);
          assert KeyOk(Init(p), v, |frames|) && Init(p) in st.cur;
          assert Init(p) + [Last(p)] in next;
        }
      }
    }
  }

  /** Every pair passed on has left its prefix, or the prefix extended by the label, in the map. */
  ghost predicate Produced(done: Pairs, next: Hyps) {
    forall p, k :: (p, k) in done ==> if k == BLANK then p in next else p + [k] in next
  }

  /** A frame passes exactly the labels of the first beam on from every hypothesis. */
  ghost predicate PassedBy(cur: Hyps, frame: Frame, now: nat, beam: nat, next: Hyps, values: seq<real>,
                           indices: seq<nat>, done: Pairs) {
    && TopK.IsTopK(frame, beam, values, indices)
    && (forall p, k :: (p, k) in done <==> p in cur && k in indices)
    && NextEntries(Step(cur, frame, now), done, next) && Produced(done, next)
  }

  ghost predicate FramePassed(cur: Hyps, frame: Frame, now: nat, beam: nat, next: Hyps) {
    exists values, indices, done :: PassedBy(cur, frame, now, beam, next, values, indices, done)
  }

  lemma IsPassed(cur: Hyps, frame: Frame, now: nat, beam: nat, next: Hyps, values: seq<real>, indices: seq<nat>,
                 done: Pairs)
    requires PassedBy(cur, frame, now, beam, next, values, indices, done)
    ensures FramePassed(cur, frame, now, beam, next)
  {
  }

  /** What a label takes along from a hypothesis. */
  function Along(selected: bool, amount: real, prob: real): real {
    if selected then Times(amount, prob) else 0.0
  }

  /** A prefix takes all its mass along with a blank; with its last label it keeps the part that ends in it, and takes
      its parent's mass, or only the part that ends in blank if the label repeats. */
  ghost predicate MassesPassed(cur: Hyps, frame: Frame, chosen: seq<nat>, p: Path, e: PrefixScore) {
    && e.s == Along(BLANK in chosen && p in cur, Lookup(cur, p).s + Lookup(cur, p).ns, Prob(frame, BLANK))
    && (Proper(p) ==>
          var (a, q) := (Last(p), Lookup(cur, Init(p)));
          e.ns == Along(a in chosen && p in cur, Lookup(cur, p).ns, Prob(frame, a))
                  + Along(a in chosen && Init(p) in cur, if Repeats(p) then q.s else q.s + q.ns, Prob(frame, a)))
  }

  /** The masses after a frame: passed on are the labels of the first beam, `min(k, n)` of them, none of which is less
      probable than another label. */
  lemma {:induction false} FrameMasses(cur: Hyps, frame: Frame, now: nat, beam: nat, next: Hyps)
    returns (chosen: seq<nat>)
    requires FramePassed(cur, frame, now, beam, next) && forall p :: p in cur ==> ScoresOk(cur[p])
    ensures |chosen| == if beam < |frame| then beam else |frame|
    ensures forall k, l: nat :: k in chosen && l < |frame| && l !in chosen ==> k < |frame| && frame[k] >= frame[l]
    ensures forall p: Path :: MassesPassed(cur, frame, chosen, p, Lookup(next, p))
  {
    hide EntryOk, MassesPassed, TopK.Before, ScoresOk;
    var values, indices, done :| PassedBy(cur, frame, now, beam, next, values, indices, done);
    chosen := indices;
    TopProbable(frame, beam, values, indices);
    forall p: Path
      ensures MassesPassed(cur, frame, chosen, p, Lookup(next, p))
    {
      OneMass(cur, frame, now, chosen, done, p, Lookup(next, p));
    }
  }

  lemma {:induction false} OneMass(cur: Hyps, frame: Frame, now: nat, chosen: seq<nat>, done: Pairs, p: Path,
                                   e: PrefixScore)
    requires forall p, k :: (p, k) in done <==> p in cur && k in chosen
    requires EntryOk(Step(cur, frame, now), done, p, e) && forall p :: p in cur ==> ScoresOk(cur[p])
    ensures MassesPassed(cur, frame, chosen, p, e)
  {
    hide Times, StampsOk, StampsFrom;
  }

  lemma TopProbable(frame: Frame, beam: nat, values: seq<real>, indices: seq<nat>)
    requires TopK.IsTopK(frame, beam, values, indices)
    ensures forall k, l: nat :: k in indices && l < |frame| && l !in indices ==> k < |frame| && frame[k] >= frame[l]
  {
  }

  lemma {:induction false} PassReady(st: Step, done: Pairs, next: Hyps, prefix: Path, id: nat, v: nat,
                                     graph: Option<Graph>, unflushed: bool)
    requires StepOk(st) && GraphOk(graph) && KeysFit(st.cur, v, st.now, graph, unflushed)
    requires prefix in st.cur && id < v && (prefix, id) !in done && PassOutput(st, done, next, v, graph, unflushed)
    ensures PassInput(st, done, next, prefix, id, v, graph, unflushed)
  {
  }

  lemma {:induction false} NothingDone(st: Step, v: nat, graph: Option<Graph>, unflushed: bool)
    ensures PassOutput(st, {}, map[], v, graph, unflushed) && Produced({}, map[])
  {
    forall p
      ensures EntryOk(st, {}, p, Lookup(map[], p))
    {
      FloorEntry(st, p);
    }
  }

  lemma {:induction false} SearchStep(hyps: Hyps, frames: seq<Frame>, v: nat, exact: bool, graph: Option<Graph>,
                                      unflushed: bool, frame: Frame)
    requires SearchState(hyps, frames, v, exact, graph, unflushed) && NonNegative(frame)
    ensures StepOk(Step(hyps, frame, |frames|))
  {
    hide MassOk, ViterbiOk, SignsAgree;
    forall p | p in hyps
      ensures ScoresOk(hyps[p])
    {
      assert HypOk(frames, v, exact, p, Lookup(hyps, p));
    }
  }

  /** When both loops are through, the hypotheses are sound for one frame more. */
  lemma {:induction false} LoopsDone(frames: seq<Frame>, v: nat, exact: bool, graph: Option<Graph>, unflushed: bool,
                                     st: Step, ids: set<nat>, done: Pairs, next: Hyps)
    requires SearchState(st.cur, frames, v, exact, graph, unflushed)
    requires |st.frame| == v && NonNegative(st.frame) && st.now == |frames|
    requires AllDone(st, ids, done) && (forall k :: k in ids ==> k < v)
    requires PassOutput(st, done, next, v, graph, unflushed) && Produced(done, next)
    ensures SearchState(next, frames + [st.frame], v, exact && AllIds(ids, v), graph, unflushed)
    ensures st.cur != map[] && ids != {} ==> next != map[]
  {
    hide HypOk, StampsOk, ScoresOk, EntryOk, ContextFits, Frames, NonNegative;
    SearchStep(st.cur, frames, v, exact, graph, unflushed, st.frame);
    if AllIds(ids, v) {
      forall p | p in st.cur
        ensures p in next
      {
        assert (p, BLANK) in done;
      }
      forall p, k | p in st.cur && BLANK < k < v
        ensures p + [k] in next
      {
        assert (p, k) in done;
      }
    }
    FrameDone(frames, v, exact, graph, unflushed, st, ids, done, next);
    if st.cur != map[] && ids != {} {
      var p :| p in st.cur;
      var k :| k in ids;
      assert (p, k) in done;
    }
  }

  lemma {:induction false} KeysOfState(hyps: Hyps, frames: seq<Frame>, v: nat, exact: bool, graph: Option<Graph>,
                                       unflushed: bool)
    requires SearchState(hyps, frames, v, exact, graph, unflushed)
    ensures |hyps| <= KeyCount(v, |frames|)
  {
    hide HypsOk, StampsOk, ContextFits;
    KeysBounded(v, |frames|, hyps);
  }

  lemma {:induction false} KeyCountGrows(v: nat, m: nat, n: nat)
    requires m <= n
    ensures KeyCount(v, m) <= KeyCount(v, n)
  {
    if 0 < m && v > 0 {
      KeyCountGrows(v, m - 1, n - 1);
      MulMono(KeyCount(v, m - 1), KeyCount(v, n - 1), v - 1);
    }
  }

  /** Flushing changes nothing but the contexts, and leaves those usable. */
  lemma {:induction false} FlushedState(hyps: Hyps, frames: seq<Frame>, v: nat, exact: bool, g: Graph, unflushed: bool,
                                        flushed: Hyps)
    requires SearchState(hyps, frames, v, exact, Some(g), unflushed)
    requires AllFlushed(g, hyps, flushed)
    ensures SearchState(flushed, frames, v, exact, Some(g), false)
  {
    hide HypOk, StampsOk, Stamps, Advance;
    forall p
      ensures HypOk(frames, v, exact, p, Lookup(flushed, p))
    {
      assert HypOk(frames, v, exact, p, Lookup(hyps, p));
      if p in hyps {
        OnlyContext(frames, v, exact, p, hyps[p], flushed[p]);
      }
    }
    forall p | p in flushed
      ensures StampsOk(flushed[p], p, |frames|) && ContextFits(Some(g), false, p, flushed[p].context)
      ensures StampsEmitted(frames, v, p, flushed[p])
    {
      OnlyContext'(|frames|, p, hyps[p], flushed[p]);
      EscapeHop(g, hyps[p].context, |p|);
    }
  }

  lemma {:induction false} OnlyContext(frames: seq<Frame>, v: nat, exact: bool, p: Path, e: PrefixScore,
                                       e': PrefixScore)
    requires HypOk(frames, v, exact, p, e) && e' == e.(context := e'.context)
    ensures HypOk(frames, v, exact, p, e')
  {
  }

  lemma {:induction false} OnlyContext'(n: nat, p: Path, e: PrefixScore, e': PrefixScore)
    requires StampsOk(e, p, n) && e' == e.(context := e'.context)
    ensures StampsOk(e', p, n)
  {
  }

  lemma SomeFlushed(g: Graph, before: Hyps, after: Hyps)
    requires AllFlushed(g, before, after) && before != map[]
    ensures after != map[]
  {
    var p :| p in before;
    assert p in after;
  }

  lemma SameMap(a: Hyps, b: Hyps)
    requires |a| == |b| && forall p :: p in a ==> p in b && a[p] == b[p]
    ensures a == b
  {
    assert |a| == |a.Keys| && |b| == |b.Keys|;
    SameSizeSubset(a.Keys, b.Keys);
  }

  /** A selected label is selected once. */
  lemma {:induction false} NotYet(frame: Frame, k: nat, values: seq<real>, indices: seq<nat>, i: nat)
    requires TopK.IsTopK(frame, k, values, indices) && i < |indices|
    ensures indices[i] !in indices[..i]
  {
    forall r | 0 <= r < i
      ensures indices[..i][r] != indices[i]
    {
      assert TopK.Before(frame, indices[r], indices[i]);
    }
  }

  lemma {:induction false} KeepSome(hyps: Hyps, frames: seq<Frame>, v: nat, exact: bool, graph: Option<Graph>,
                                    unflushed: bool, kept: Hyps)
    requires SearchState(hyps, frames, v, exact, graph, unflushed)
    requires forall p :: p in kept ==> p in hyps && kept[p] == hyps[p]
    ensures SearchState(kept, frames, v, exact && |kept| == |hyps|, graph, unflushed)
  {
    hide HypOk;
    if |kept| == |hyps| {
      assert kept.Keys <= hyps.Keys && |kept.Keys| == |kept| && |hyps.Keys| == |hyps|;
      SameSizeSubset(kept.Keys, hyps.Keys);
      assert kept == hyps;
    }
    if !(exact && |kept| == |hyps|) {
      forall p
        ensures HypOk(frames, v, false, p, Lookup(hyps, p))
      {
        assert HypOk(frames, v, exact, p, Lookup(hyps, p));
        Weaken(frames, v, exact, p, Lookup(hyps, p));
      }
      DropHyps(frames, v, hyps, kept);
    }
  }

  lemma {:induction false} Weaken(frames: seq<Frame>, v: nat, exact: bool, p: Path, e: PrefixScore)
    requires HypOk(frames, v, exact, p, e)
    ensures HypOk(frames, v, false, p, e)
  {
  }

  // ---------- tags ----------

  function TagsAt(prefix: Path, c: Context, i: nat): seq<Token>
    requires i < |prefix|
  {
    (if i in c.starts then [StartTag] else []) + [Word(prefix[i])] + (if i in c.ends then [EndTag] else [])
  }

  /** The hypothesis with a tag before each start position and after each end position. */
  function Tagged(prefix: Path, c: Context, n: nat): seq<Token>
    requires n <= |prefix|
  {
    if n == 0 then [] else Tagged(prefix, c, n - 1) + TagsAt(prefix, c, n - 1)
  }

  function Words(tokens: seq<Token>): Path {
    if tokens == [] then []
    else Words(Init(tokens)) + match Last(tokens) { case Word(id) => [id] case _ => [] }
  }

  lemma {:induction false} WordsConcat(a: seq<Token>, b: seq<Token>)
    ensures Words(a + b) == Words(a) + Words(b)
  {
    if b == [] {
      assert a + b == a;
    } else {
      assert Init(a + b) == a + Init(b) && Last(a + b) == Last(b);
      WordsConcat(a, Init(b));
    }
  }

  lemma {:induction false} TagsAtWords(prefix: Path, c: Context, i: nat)
    requires i < |prefix|
    ensures Words(TagsAt(prefix, c, i)) == [prefix[i]]
  {
    var s: seq<Token> := if i in c.starts then [StartTag] else [];
    var e: seq<Token> := if i in c.ends then [EndTag] else [];
    var w := [Word(prefix[i])];
    WordsConcat(s + w, e);
    WordsConcat(s, w);
    assert Init(w) == [] && Words(w) == [prefix[i]];
    assert Words(s) == [] && Words(e) == [];
  }

  lemma NoWords()
    ensures Words([]) == []
  {
  }

  /** Dropping the tags gives the hypothesis back. */
  lemma {:induction false} TaggedWords(prefix: Path, c: Context, n: nat)
    requires n <= |prefix|
    ensures Words(Tagged(prefix, c, n)) == prefix[..n]
  {
    hide Words, TagsAt;
    if n == 0 {
      assert Words([]) == [] by { NoWords(); }
    } else {
      assert prefix[..n] == prefix[..n - 1] + [prefix[n - 1]];
      TaggedWords(prefix, c, n - 1);
      TagsAtWords(prefix, c, n - 1);
      WordsConcat(Tagged(prefix, c, n - 1), TagsAt(prefix, c, n - 1));
    }
  }

  /** A tag stands right before a word if and only if a hotword begins there, and right behind it if and only if one
      ends there. */
  lemma {:induction false} TagsStand(prefix: Path, c: Context, n: nat, i: nat)
    returns (before: seq<Token>, after: seq<Token>)
    requires i < n <= |prefix|
    ensures Tagged(prefix, c, n) == before + [Word(prefix[i])] + after && Words(before) == prefix[..i]
    ensures i in c.starts <==> before != [] && Last(before) == StartTag
    ensures i in c.ends <==> after != [] && after[0] == EndTag
    decreases n
  {
    hide Words, Tagged, TagsAt;
    TaggedNext(prefix, c, n - 1);
    if i == n - 1 {
      before, after := LastWord(prefix, c, i);
    } else {
      var rest, at;
      before, rest := TagsStand(prefix, c, n - 1, i);
      at := TagsAt(prefix, c, n - 1);
      after := rest + at;
      NoEndFirst(prefix, c, n - 1);
      assert before + [Word(prefix[i])] + after == before + [Word(prefix[i])] + rest + at;
    }
  }

  lemma TaggedNext(prefix: Path, c: Context, n: nat)
    requires n < |prefix|
    ensures Tagged(prefix, c, n + 1) == Tagged(prefix, c, n) + TagsAt(prefix, c, n)
  {
  }

  lemma NoEndFirst(prefix: Path, c: Context, i: nat)
    requires i < |prefix|
    ensures TagsAt(prefix, c, i) != [] && TagsAt(prefix, c, i)[0] != EndTag
  {
  }

  lemma {:induction false} LastWord(prefix: Path, c: Context, i: nat) returns (before: seq<Token>, after: seq<Token>)
    requires i < |prefix|
    ensures Tagged(prefix, c, i) + TagsAt(prefix, c, i) == before + [Word(prefix[i])] + after
    ensures Words(before) == prefix[..i]
    ensures i in c.starts <==> before != [] && Last(before) == StartTag
    ensures i in c.ends <==> after != [] && after[0] == EndTag
  {
    hide Words, Tagged;
    var head := Tagged(prefix, c, i);
    var start: seq<Token> := if i in c.starts then [StartTag] else [];
    before, after := head + start, if i in c.ends then [EndTag] else [];
    TaggedWords(prefix, c, i);
    WordsConcat(head, start);
    NoWords();
    OneTag();
    LastNoStart(prefix, c, i);
  }

  lemma OneTag()
    ensures Words([StartTag]) == []
  {
    assert Init([StartTag]) == [];
  }

  lemma LastNoStart(prefix: Path, c: Context, n: nat)
    requires n <= |prefix|
    ensures Tagged(prefix, c, n) != [] ==> Last(Tagged(prefix, c, n)) != StartTag
  {
  }

  // ---------- second beam ----------

  ghost predicate FromMap(arr: seq<Entry>, hyps: Hyps) {
    && (forall i :: 0 <= i < |arr| ==> arr[i].0 in hyps && hyps[arr[i].0] == arr[i].1)
    && (forall i, j :: 0 <= i < j < |arr| ==> arr[i].0 != arr[j].0)
  }

  ghost predicate Listed(arr: seq<Entry>, p: Path) {
    exists i :: 0 <= i < |arr| && arr[i].0 == p
  }

  /** The map the listed entries make, later entries first overwriting earlier ones. */
  function MapOf(arr: seq<Entry>): Hyps {
    if arr == [] then map[] else MapOf(Init(arr))[Last(arr).0 := Last(arr).1]
  }

  lemma {:induction false} MapOfListed(arr: seq<Entry>, hyps: Hyps)
    requires FromMap(arr, hyps)
    ensures forall p :: p in MapOf(arr) <==> Listed(arr, p)
    ensures forall p :: p in MapOf(arr) ==> p in hyps && MapOf(arr)[p] == hyps[p]
    ensures |MapOf(arr)| == |arr|
  {
    if arr == [] {
      NoneListed();
    } else {
      hide Listed;
      MapOfListed(Init(arr), hyps);
      forall q
        ensures Listed(arr, q) <==> q == Last(arr).0 || Listed(Init(arr), q)
        ensures Listed(Init(arr), q) ==> q != Last(arr).0
      {
        ListedSnoc(arr, q);
      }
    }
  }

  lemma NoneListed()
    ensures forall p :: !Listed([], p)
  {
  }

  lemma {:induction false} ListedSnoc(arr: seq<Entry>, q: Path)
    requires arr != []
    ensures Listed(arr, q) <==> q == Last(arr).0 || Listed(Init(arr), q)
    ensures (forall i, j :: 0 <= i < j < |arr| ==> arr[i].0 != arr[j].0) && Listed(Init(arr), q) ==> q != Last(arr).0
  {
    var before := Init(arr);
    assert forall i :: 0 <= i < |before| ==> before[i] == arr[i];
    assert Last(arr) == arr[|arr| - 1];
  }

  class CtcPrefixDecoder {
    const vocabSize: nat
    const firstBeam: nat
    const secondBeam: nat
    /** The linear weight of a context score, the program's exponential. */
    const boost: real -> real
    const vocab: Vocab

    var graph: Option<Graph>
    var absTimeStep: nat
    var curHyps: Hyps
    var hypotheses: seq<Path>
    var likelihood: seq<real>
    var viterbiLikelihood: seq<real>
    var times: seq<seq<nat>>
    var outputs: seq<seq<Token>>
    var results: seq<DecodeResult>

    /** The frames since `Reset`, whether nothing has been pruned since, and whether no final context update
        has happened since. */
    ghost var frames: seq<Frame>
    ghost var exact: bool
    ghost var unflushed: bool

    /** `total_score`. */
    function Total(e: PrefixScore): real {
      Times(e.Score(), boost(e.context.score))
    }

    /** The n-best lists describe the current hypotheses. */
    ghost predicate ListsFit()
      reads this`curHyps, this`hypotheses, this`likelihood, this`times, this`outputs
    {
      && 0 < |hypotheses| == |likelihood| == |times| == |outputs| == |curHyps|
      && (forall i, j :: 0 <= i < j < |hypotheses| ==> hypotheses[i] != hypotheses[j])
      && (forall p :: p in curHyps <==> p in hypotheses)
      && forall i :: 0 <= i < |hypotheses| ==>
           var p := hypotheses[i];
           && p in curHyps
           && likelihood[i] == Total(curHyps[p]) && times[i] == curHyps[p].TokenTimes()
           && outputs[i] == Tagged(p, curHyps[p].context, |p|)
    }

    ghost predicate BoostOk() {
      forall x :: boost(x) > 0.0
    }

    /** Every hypothesis has mass, and the second beam is full or is about to be filled by the first. */
    ghost predicate Steady()
      reads this`curHyps
    {
      SteadyHyps(curHyps)
    }

    ghost predicate SteadyHyps(hyps: Hyps) {
      && Massive(hyps) && secondBeam <= firstBeam && secondBeam <= vocabSize
      && (hyps.Keys == {[]} || |hyps| == secondBeam)
    }

    ghost predicate Valid()
      reads this
    {
      && vocabSize > 0 && firstBeam > 0 && secondBeam > 0 && BoostOk() && absTimeStep == |frames|
      && SearchState(curHyps, frames, vocabSize, exact, graph, unflushed)
      && ListsFit()
    }

    constructor (vocabSize: nat, firstBeam: nat, secondBeam: nat, boost: real -> real, vocab: Vocab)
      requires vocabSize > 0 && firstBeam > 0 && secondBeam > 0 && forall x :: boost(x) > 0.0
      ensures Valid() && frames == [] && exact && unflushed && graph == None
      ensures secondBeam <= firstBeam && secondBeam <= vocabSize ==> Steady()
      ensures this.vocabSize == vocabSize && this.firstBeam == firstBeam && this.secondBeam == secondBeam
    {
      this.vocabSize, this.firstBeam, this.secondBeam, this.boost := vocabSize, firstBeam, secondBeam, boost;
      this.vocab := vocab;
      this.graph, this.results := None, [];
      new;
      Reset();
    }

    method Reset()
      requires vocabSize > 0 && firstBeam > 0 && secondBeam > 0 && BoostOk() && GraphOk(graph)
      modifies this
      ensures Valid() && graph == old(graph)
      ensures frames == [] && exact && unflushed && curHyps == START_MAP
      ensures secondBeam <= firstBeam && secondBeam <= vocabSize ==> Steady()
    {
      hide SearchState, Total, ListsFit, SteadyHyps, GraphOk, BoostOk;
      absTimeStep, curHyps := 0, START_MAP;
      outputs, hypotheses, likelihood, times, viterbiLikelihood := [[]], [[]], [Total(START_SCORE)], [[]], [];
      frames, exact, unflushed := [], true, true;
      StartState(vocabSize, graph);
      StartLists();
      StartSteady();
    }

    lemma StartSteady()
      ensures secondBeam <= firstBeam && secondBeam <= vocabSize ==> SteadyHyps(START_MAP)
    {
    }

    lemma StartLists()
      requires curHyps == START_MAP && hypotheses == [[]] && outputs == [[]] && times == [[]]
      requires likelihood == [Total(START_SCORE)]
      ensures ListsFit()
    {
      hide Total;
    }

    /** Hotwords are exchanged between utterances. */
    method ResetContext(graph: Option<Graph>)
      requires Valid() && frames == [] && curHyps == START_MAP && exact && GraphOk(graph)
      modifies this`graph
      ensures Valid() && this.graph == graph
    {
      this.graph := graph;
    }

    method UpdateOutputs(prefix: Path, e: PrefixScore)
      requires Positions(e.context.starts, |prefix|) && Positions(e.context.ends, |prefix|)
      modifies this`outputs
      ensures outputs == old(outputs) + [Tagged(prefix, e.context, |prefix|)]
    {
      var starts, ends := e.context.starts, e.context.ends;
      var output: seq<Token> := [];
      var s, t, i := 0, 0, 0;
      while i < |prefix|
        invariant 0 <= i <= |prefix| && 0 <= s <= |starts| && 0 <= t <= |ends|
        invariant (forall j :: 0 <= j < s ==> starts[j] < i) && forall j :: s <= j < |starts| ==> starts[j] >= i
        invariant (forall j :: 0 <= j < t ==> ends[j] < i) && forall j :: t <= j < |ends| ==> ends[j] >= i
        invariant output == Tagged(prefix, e.context, i)
      {
        if s < |starts| && i == starts[s] {
          output := output + [StartTag];
          s := s + 1;
        }
        output := output + [Word(prefix[i])];
        if t < |ends| && i == ends[t] {
          output := output + [EndTag];
          t := t + 1;
        }
        i := i + 1;
      }
      outputs := outputs + [output];
    }

    ghost predicate TagsUsable(arr: seq<Entry>) {
      forall i :: 0 <= i < |arr| ==>
        Positions(arr[i].1.context.starts, |arr[i].0|) && Positions(arr[i].1.context.ends, |arr[i].0|)
    }

    /** The lists describe the entries, in their order. */
    ghost predicate ListsAre(arr: seq<Entry>)
      reads this`hypotheses, this`likelihood, this`viterbiLikelihood, this`times, this`outputs
    {
      && |hypotheses| == |likelihood| == |viterbiLikelihood| == |times| == |outputs| == |arr|
      && forall j :: 0 <= j < |arr| ==>
           && hypotheses[j] == arr[j].0 && likelihood[j] == Total(arr[j].1)
           && viterbiLikelihood[j] == arr[j].1.ViterbiScore() && times[j] == arr[j].1.TokenTimes()
           && outputs[j] == Tagged(arr[j].0, arr[j].1.context, |arr[j].0|)
    }

    /** One more entry goes into all lists. */
    method AppendEntry(item: Entry, ghost before: seq<Entry>)
      requires ListsAre(before)
      requires Positions(item.1.context.starts, |item.0|) && Positions(item.1.context.ends, |item.0|)
      modifies this`hypotheses, this`likelihood, this`viterbiLikelihood, this`times, this`outputs
      ensures ListsAre(before + [item])
    {
      hide Tagged, Total, Positions, PrefixScore.ViterbiScore, PrefixScore.TokenTimes;
      UpdateOutputs(item.0, item.1);
      hypotheses := hypotheses + [item.0];
      likelihood := likelihood + [Total(item.1)];
      viterbiLikelihood := viterbiLikelihood + [item.1.ViterbiScore()];
      times := times + [item.1.TokenTimes()];
    }

    method UpdateHypotheses(arr: seq<Entry>, ghost source: Hyps)
      requires FromMap(arr, source) && TagsUsable(arr) && arr != []
      modifies this`curHyps, this`hypotheses, this`likelihood, this`viterbiLikelihood, this`times, this`outputs
      ensures curHyps == MapOf(arr) && ListsFit()
      ensures ListsAre(arr)
    {
      hide Tagged, Total, ListsFit, FromMap, Positions;
      curHyps, outputs, hypotheses, likelihood, viterbiLikelihood, times := map[], [], [], [], [], [];
      var i := 0;
      while i < |arr|
        invariant 0 <= i <= |arr|
        invariant curHyps == MapOf(arr[..i]) && ListsAre(arr[..i])
      {
        hide ListsAre;
        var item := arr[i];
        assert arr[..i + 1] == arr[..i] + [item];
        assert Init(arr[..i + 1]) == arr[..i] && Last(arr[..i + 1]) == item;
        curHyps := curHyps[item.0 := item.1];
        AppendEntry(item, arr[..i]);
        i := i + 1;
      }
      assert arr[..i] == arr;
      ListsFromEntries(arr, source);
    }

    lemma {:induction false} ListsFromEntries(arr: seq<Entry>, source: Hyps)
      requires FromMap(arr, source) && arr != [] && curHyps == MapOf(arr)
      requires ListsAre(arr)
      ensures ListsFit()
    {
      hide Tagged, Total;
      MapOfListed(arr, source);
      forall p
        ensures p in curHyps <==> p in hypotheses
      {
        if Listed(arr, p) {
          var j :| 0 <= j < |arr| && arr[j].0 == p;
          assert hypotheses[j] == p;
        }
        if p in hypotheses {
          var j :| 0 <= j < |hypotheses| && hypotheses[j] == p;
          assert Listed(arr, p);
        }
      }
      forall j | 0 <= j < |arr|
        ensures arr[j].0 in curHyps && curHyps[arr[j].0] == arr[j].1
      {
        assert Listed(arr, arr[j].0);
      }
    }

    // ---------- second beam: the entries of highest total score, best first ----------

    ghost predicate Best(arr: seq<Entry>, hyps: Hyps, size: nat) {
      && FromMap(arr, hyps) && |arr| == (if size < |hyps| then size else |hyps|)
      && (forall i, j :: 0 <= i < j < |arr| ==> Total(arr[i].1) >= Total(arr[j].1))
      && forall p, i :: p in hyps && !Listed(arr, p) && 0 <= i < |arr| ==> Total(arr[i].1) >= Total(hyps[p])
    }

    predicate IsHighest(hyps: Hyps, p: Path) {
      p in hyps && forall q :: q in hyps ==> Total(hyps[q]) <= Total(hyps[p])
    }

    lemma {:induction false} HighestExists(hyps: Hyps)
      requires hyps != map[]
      ensures exists p :: IsHighest(hyps, p)
      decreases |hyps|
    {
      hide Total;
      var p :| p in hyps;
      var rest := hyps - {p};
      if rest == map[] {
        assert forall q :: q in hyps ==> q == p || q in rest;
        assert IsHighest(hyps, p);
      } else {
        assert |hyps| == |hyps.Keys| && |rest| == |rest.Keys| && rest.Keys == hyps.Keys - {p};
        HighestExists(rest);
        var h :| IsHighest(rest, h);
        assert forall q :: q in hyps ==> q == p || q in rest;
        if Total(hyps[p]) <= Total(hyps[h]) {
          assert IsHighest(hyps, h);
        } else {
          assert IsHighest(hyps, p);
        }
      }
    }

    lemma {:induction false} ListedSnoc(arr: seq<Entry>, entry: Entry, q: Path)
      ensures Listed(arr + [entry], q) <==> Listed(arr, q) || q == entry.0
    {
      var arr' := arr + [entry];
      if Listed(arr, q) {
        var i :| 0 <= i < |arr| && arr[i].0 == q;
        assert arr'[i].0 == q;
      }
      assert arr'[|arr|].0 == entry.0;
    }

    /** One more entry is taken from what is left. */
    lemma {:induction false} TakeKeeps(hyps: Hyps, rest: Hyps, arr: seq<Entry>, p: Path)
      requires Taken(hyps, rest, arr) && IsHighest(rest, p)
      ensures Taken(hyps, rest - {p}, arr + [(p, rest[p])])
    {
      hide Total, Listed;
      var arr', rest' := arr + [(p, rest[p])], rest - {p};
      assert |rest| == |rest.Keys| && |rest'| == |rest'.Keys| && rest'.Keys == rest.Keys - {p};
      forall i | 0 <= i < |arr|
        ensures arr[i].0 != p
      {
        ListedAt(arr, i);
      }
      forall q | q in hyps
        ensures q in rest' <==> !Listed(arr', q)
      {
        ListedSnoc(arr, (p, rest[p]), q);
      }
    }

    lemma ListedAt(arr: seq<Entry>, i: nat)
      requires i < |arr|
      ensures Listed(arr, arr[i].0)
    {
    }

    ghost predicate Taken(hyps: Hyps, rest: Hyps, arr: seq<Entry>) {
      && FromMap(arr, hyps) && |rest| + |arr| == |hyps|
      && (forall p :: p in rest ==> p in hyps && rest[p] == hyps[p])
      && (forall p :: p in hyps ==> (p in rest <==> !Listed(arr, p)))
      && (forall i, j :: 0 <= i < j < |arr| ==> Total(arr[i].1) >= Total(arr[j].1))
      && forall p, i :: p in rest && 0 <= i < |arr| ==> Total(arr[i].1) >= Total(rest[p])
    }

    method SecondBeam(hyps: Hyps, size: nat) returns (arr: seq<Entry>)
      ensures Best(arr, hyps, size)
    {
      hide Total, IsHighest;
      var rest := hyps;
      arr := [];
      while rest != map[] && |arr| < size
        invariant Taken(hyps, rest, arr) && |arr| <= size
        decreases |rest|
      {
        HighestExists(rest);
        assert exists p :: p in rest && IsHighest(rest, p) by { HighestInMap(rest); }
        var p :| p in rest && IsHighest(rest, p);
        TakeKeeps(hyps, rest, arr, p);
        arr := arr + [(p, rest[p])];
        rest := rest - {p};
      }
    }

    lemma HighestInMap(hyps: Hyps)
      requires hyps != map[]
      ensures exists p :: p in hyps && IsHighest(hyps, p)
    {
      HighestExists(hyps);
    }

    // ---------- one hypothesis and one label ----------

    method PassToken(next: Hyps, prefix: Path, id: nat, prob: real, ghost st: Step, ghost done: Pairs)
      returns (after: Hyps)
      requires st.cur == curHyps && st.now == absTimeStep && prob == Prob(st.frame, id)
      requires PassInput(st, done, next, prefix, id, vocabSize, graph, unflushed)
      ensures PassOutput(st, done + {(prefix, id)}, after, vocabSize, graph, unflushed)
      ensures forall p :: p in next ==> p in after
      ensures id == BLANK ==> prefix in after
      ensures id != BLANK ==> prefix + [id] in after
    {
      hide PassInput, PassOutput, Advance, PrefixScore.AddBlank, PrefixScore.AddRepeat, PrefixScore.AddLabel;
      PassFacts(st, done, next, prefix, id, vocabSize, graph, unflushed);
      var from := curHyps[prefix];
      var score := Lookup(next, prefix);
      if id == BLANK {
        // the prefix stays and ends in blank
        after := next[prefix := WithContext(graph, score.AddBlank(from, prob), from.context)];
        BlankCase(st, done, next, prefix, vocabSize, graph, unflushed);
      } else {
        var longer := prefix + [id];
        var context := if graph.Some? then Advance(graph.value, from.context, id, |prefix|) else from.context;
        var score2 := Lookup(next, longer);
        if prefix != [] && id == Last(prefix) {
          // the last label goes on
          after := next[prefix := WithContext(graph, score.AddRepeat(from, prob, absTimeStep), from.context)];
          // behind a blank the label counts as a new one
          after := after[longer := WithContext(graph, score2.AddLabel(from.s, from.vS, from.timesS, prob, absTimeStep),
                                               context)];
          RepeatCase(st, done, next, prefix, vocabSize, graph, unflushed);
        } else {
          // another label always counts as a new one
          var mass, viterbi, times := from.Score(), from.ViterbiScore(), from.TokenTimes();
          after := next[longer := WithContext(graph, score2.AddLabel(mass, viterbi, times, prob, absTimeStep),
                                              context)];
          LabelCase(st, done, next, prefix, id, vocabSize, graph, unflushed);
        }
      }
    }

    /** One label is passed on from every hypothesis, in whatever order the map yields them. */
    method PassLabel(next: Hyps, id: nat, prob: real, ghost st: Step, ghost done: Pairs)
      returns (after: Hyps, ghost done': Pairs)
      requires st.cur == curHyps && st.now == absTimeStep && prob == Prob(st.frame, id) && id < vocabSize
      requires StepOk(st) && GraphOk(graph) && KeysFit(st.cur, vocabSize, st.now, graph, unflushed)
      requires PassOutput(st, done, next, vocabSize, graph, unflushed) && Produced(done, next)
      requires forall p :: (p, id) !in done
      ensures PassOutput(st, done', after, vocabSize, graph, unflushed) && Produced(done', after)
      ensures forall p, k :: (p, k) in done' <==> (p, k) in done || (p in curHyps && k == id)
    {
      hide PassOutput, StepOk, GraphOk, KeysFit;
      after, done' := next, done;
      var rest := curHyps.Keys;
      while rest != {}
        invariant rest <= curHyps.Keys
        invariant PassOutput(st, done', after, vocabSize, graph, unflushed) && Produced(done', after)
        invariant forall p, k :: (p, k) in done' <==> (p, k) in done || (p in curHyps && p !in rest && k == id)
        decreases rest
      {
        var prefix :| prefix in rest;
        PassReady(st, done', after, prefix, id, vocabSize, graph, unflushed);
        after := PassToken(after, prefix, id, prob, st, done');
        done' := done' + {(prefix, id)};
        rest := rest - {prefix};
      }
    }

    /** The selected labels are passed on one by one. */
    method PassLabels(frame: Frame, beam: nat, values: seq<real>, indices: seq<nat>)
      returns (next: Hyps, ghost done: Pairs)
      requires Valid() && |frame| == vocabSize && NonNegative(frame) && TopK.IsTopK(frame, beam, values, indices)
      ensures PassOutput(Step(curHyps, frame, absTimeStep), done, next, vocabSize, graph, unflushed)
      ensures Produced(done, next) && forall p, k :: (p, k) in done <==> p in curHyps && k in indices
    {
      hide HypOk, StampsOk, ContextFits, EntryOk, NextEntries, NextKeys, KeysFit, ListsFit, HypsOk, RunsFit;
      ghost var st := Step(curHyps, frame, absTimeStep);
      done, next := {}, map[];
      SearchStep(curHyps, frames, vocabSize, exact, graph, unflushed, frame);
      NothingDone(st, vocabSize, graph, unflushed);
      var i := 0;
      while i < |indices|
        invariant 0 <= i <= |indices|
        invariant PassOutput(st, done, next, vocabSize, graph, unflushed) && Produced(done, next)
        invariant forall p, k :: (p, k) in done <==> p in curHyps && k in indices[..i]
      {
        var id, prob := indices[i], values[i];
        NotYet(frame, beam, values, indices, i);
        next, done := PassLabel(next, id, prob, st, done);
        assert indices[..i + 1] == indices[..i] + [id];
        i := i + 1;
      }
      assert indices[..i] == indices;
    }

    /** The first beam: the best labels are passed on from every hypothesis. */
    method PassFrame(frame: Frame, beam: nat) returns (next: Hyps, ghost all: bool)
      requires Valid() && |frame| == vocabSize && NonNegative(frame) && 0 < beam
      ensures SearchState(next, frames + [frame], vocabSize, exact && all, graph, unflushed)
      ensures next != map[] && FramePassed(curHyps, frame, absTimeStep, beam, next)
      ensures beam >= vocabSize ==> all
      ensures Massive(curHyps) && AllPositive(frame) ==>
                |MassKeys(next)| >= Supply(curHyps, if beam < vocabSize then beam else vocabSize)
    {
      hide HypOk, StampsOk, ContextFits, EntryOk, NextEntries, NextKeys, KeysFit, ListsFit, HypsOk, FramePassed, AllIds,
           RunsFit;
      ghost var st := Step(curHyps, frame, absTimeStep);
      var values, indices := TopK.Select(frame, beam);
      ghost var done;
      next, done := PassLabels(frame, beam, values, indices);
      SearchStep(curHyps, frames, vocabSize, exact, graph, unflushed, frame);
      ghost var ids := set k | k in indices;
      all := AllIds(ids, vocabSize);
      Selected(frame, beam, values, indices, ids);
      assert curHyps != map[] by { SomeHypothesis(); }
      if Massive(curHyps) && AllPositive(frame) {
        AllPassed(frame, beam, values, indices, st, done, next);
        EnoughMass(st, indices, done, next);
      }
      LoopsDone(frames, vocabSize, exact, graph, unflushed, st, ids, done, next);
      IsPassed(curHyps, frame, absTimeStep, beam, next, values, indices, done);
    }

    static lemma {:induction false} Selected(frame: Frame, beam: nat, values: seq<real>, indices: seq<nat>,
                                             ids: set<nat>)
      requires TopK.IsTopK(frame, beam, values, indices) && ids == (set k | k in indices) && beam > 0 && frame != []
      ensures ids != {} && indices != []
      ensures beam >= |frame| ==> AllIds(ids, |frame|)
    {
      if beam >= |frame| {
        TopK.SelectsAll(frame, beam, values, indices);
        forall k: nat | k < |frame|
          ensures k in ids
        {
          assert k in indices;
        }
      }
      assert indices[0] in ids;
    }

    lemma {:induction false} AllPassed(frame: Frame, beam: nat, values: seq<real>, indices: seq<nat>, st: Step,
                                       done: Pairs, next: Hyps)
      requires Valid() && TopK.IsTopK(frame, beam, values, indices) && st == Step(curHyps, frame, absTimeStep)
               && StepOk(st)
      requires PassOutput(st, done, next, vocabSize, graph, unflushed)
      requires forall p, k :: (p, k) in done <==> p in curHyps && k in indices
      ensures Passed(st, indices, done, next) && Distinct(indices)
      ensures forall p :: p in curHyps ==> p == [] || Proper(p)
    {
      hide HypOk, StampsOk, ContextFits, EntryOk, ListsFit, HypsOk, NextKeys, StepOk;
    }

    lemma SomeHypothesis()
      requires ListsFit()
      ensures curHyps != map[]
    {
    }

    /** The hypotheses kept are the best `size` of `next`. */
    ghost predicate BestOf(next: Hyps, size: nat)
      reads this`curHyps
    {
      && (forall p :: p in curHyps ==> p in next && curHyps[p] == next[p])
      && |curHyps| == (if size < |next| then size else |next|)
      && forall p, q :: p in next && p !in curHyps && q in curHyps ==> Total(next[p]) <= Total(curHyps[q])
    }

    /** The best `size` hypotheses become the current ones, listed best first. */
    method KeepBest(next: Hyps, size: nat, ghost frames': seq<Frame>, ghost exact': bool, ghost unflushed': bool)
      requires SearchState(next, frames', vocabSize, exact', graph, unflushed') && next != map[] && size > 0
      modifies this`curHyps, this`hypotheses, this`likelihood, this`viterbiLikelihood, this`times, this`outputs
      ensures SearchState(curHyps, frames', vocabSize, exact' && |curHyps| == |next|, graph, unflushed') && ListsFit()
      ensures BestOf(next, size)
      ensures BestFirst(likelihood)
    {
      hide Total, SearchState, Best, TagsUsable, FromMap, ListsFit, MapOf;
      var arr := SecondBeam(next, size);
      BestUsable(arr, next, size, frames', exact', unflushed');
      BestSorted(arr, next, size);
      UpdateHypotheses(arr, next);
    }

    /** One frame: both beams and the update of the n-best lists.  `next` are the hypotheses before the second beam. */
    method DecodeFrame(frame: Frame, beam: nat) returns (ghost next: Hyps)
      requires Valid() && |frame| == vocabSize && NonNegative(frame)
      requires beam == if vocabSize < firstBeam then vocabSize else firstBeam
      modifies this`curHyps, this`hypotheses, this`likelihood, this`viterbiLikelihood, this`times, this`outputs,
               this`absTimeStep, this`frames, this`exact
      ensures Valid() && frames == old(frames) + [frame] && graph == old(graph) && unflushed == old(unflushed)
      ensures exact ==> old(exact)
      ensures old(exact) && firstBeam >= vocabSize && secondBeam >= KeyCount(vocabSize, |frames|) ==> exact
      ensures FramePassed(old(curHyps), frame, old(absTimeStep), beam, next)
      ensures BestOf(next, secondBeam)
      ensures BestFirst(likelihood)
      ensures !Massive(curHyps) <==> |MassKeys(next)| < |curHyps|
      ensures old(Steady()) && AllPositive(frame) ==> Steady()
    {
      hide Total, SearchState, ListsFit, KeyCount, NonNegative, BestFirst, Massive, AllPositive, MassKeys, SteadyHyps,
          Supply, BoostOk, BestOf, FramePassed;
      var hyps, all := PassFrame(frame, beam);
      next := hyps;
      KeysOfState(hyps, frames + [frame], vocabSize, exact && all, graph, unflushed);
      KeepFrame(hyps, frame, beam, exact && all);
      BestSize(hyps, secondBeam);
      frames, exact := frames + [frame], exact && all && |curHyps| == |next|;
      absTimeStep := absTimeStep + 1;
    }

    /** The second beam of a frame. */
    method KeepFrame(next: Hyps, ghost frame: Frame, ghost beam: nat, ghost exact': bool)
      requires SearchState(next, frames + [frame], vocabSize, exact', graph, unflushed) && next != map[]
      requires secondBeam > 0 && BoostOk() && beam == if vocabSize < firstBeam then vocabSize else firstBeam
      requires Massive(curHyps) && AllPositive(frame) ==> |MassKeys(next)| >= Supply(curHyps, beam)
      modifies this`curHyps, this`hypotheses, this`likelihood, this`viterbiLikelihood, this`times, this`outputs
      ensures SearchState(curHyps, frames + [frame], vocabSize, exact' && |curHyps| == |next|, graph, unflushed)
              && ListsFit()
      ensures BestOf(next, secondBeam) && BestFirst(likelihood)
      ensures !Massive(curHyps) <==> |MassKeys(next)| < |curHyps|
      ensures SteadyHyps(old(curHyps)) && AllPositive(frame) ==> SteadyHyps(curHyps)
    {
      hide Total, SearchState, ListsFit, BestFirst, Massive, AllPositive, MassKeys, SteadyHyps, Supply, BoostOk, BestOf;
      ghost var before := curHyps;
      KeepBest(next, secondBeam, frames + [frame], exact', unflushed);
      BeamsFill(before, next, frame, beam, frames + [frame], exact');
    }

    lemma BestSize(next: Hyps, size: nat)
      requires BestOf(next, size)
      ensures |curHyps| == if size < |next| then size else |next|
    {
    }

    /** The second beam has dropped mass only for mass; fed by a first beam no narrower, it stays full of it. */
    lemma {:induction false} BeamsFill(before: Hyps, next: Hyps, frame: Frame, beam: nat, frames: seq<Frame>,
                                       exact: bool)
      requires BoostOk() && SearchState(next, frames, vocabSize, exact, graph, unflushed) && secondBeam > 0
      requires BestOf(next, secondBeam)
      requires beam == if vocabSize < firstBeam then vocabSize else firstBeam
      requires Massive(before) && AllPositive(frame) ==> |MassKeys(next)| >= Supply(before, beam)
      ensures !Massive(curHyps) <==> |MassKeys(next)| < |curHyps|
      ensures SteadyHyps(before) && AllPositive(frame) ==> SteadyHyps(curHyps)
    {
      hide SearchState, Total, Massive, MassKeys, BoostOk;
      KeptIsBest(next, frames, exact);
      MasslessKept(next, curHyps, boost);
      SubsetSize(MassKeys(next), next.Keys);
      assert |next| == |next.Keys|;
    }

    lemma {:induction false} KeptIsBest(next: Hyps, frames: seq<Frame>, exact: bool)
      requires BoostOk() && SearchState(next, frames, vocabSize, exact, graph, unflushed)
      requires forall p :: p in curHyps ==> p in next && curHyps[p] == next[p]
      requires forall p, q :: p in next && p !in curHyps && q in curHyps ==> Total(next[p]) <= Total(curHyps[q])
      ensures BestKept(next, curHyps, boost)
    {
      hide Times, MassOk, ViterbiOk, SignsAgree, KeysFit, Frames, GraphOk;
      forall p | p in next
        ensures next[p].Score() >= 0.0
      {
        assert HypOk(frames, vocabSize, exact, p, Lookup(next, p));
      }
    }

    lemma BestSorted(arr: seq<Entry>, hyps: Hyps, size: nat)
      requires Best(arr, hyps, size)
      ensures |arr| == if size < |hyps| then size else |hyps|
      ensures forall i, j :: 0 <= i < j < |arr| ==> Total(arr[i].1) >= Total(arr[j].1)
      ensures FromMap(arr, hyps)
    {
    }

    /** What the second beam keeps is again a state of the search, and can be listed with its tags. */
    lemma {:induction false} BestUsable(arr: seq<Entry>, hyps: Hyps, size: nat, frames: seq<Frame>, exact: bool,
                                        unflushed: bool)
      requires Best(arr, hyps, size) && SearchState(hyps, frames, vocabSize, exact, graph, unflushed)
      ensures SearchState(MapOf(arr), frames, vocabSize, exact && |arr| == |hyps|, graph, unflushed)
      ensures TagsUsable(arr) && |MapOf(arr)| == |arr|
      ensures forall p :: p in MapOf(arr) ==> p in hyps && MapOf(arr)[p] == hyps[p]
      ensures forall p, q :: p in hyps && p !in MapOf(arr) && q in MapOf(arr) ==> Total(hyps[p]) <= Total(hyps[q])
    {
      hide Total, SearchState, MapOf, TagsUsable;
      MapOfListed(arr, hyps);
      KeepSome(hyps, frames, vocabSize, exact, graph, unflushed, MapOf(arr));
      TagsFit(arr, hyps, frames, exact, unflushed);
      forall p, q | p in hyps && p !in MapOf(arr) && q in MapOf(arr)
        ensures Total(hyps[p]) <= Total(hyps[q])
      {
        var i :| 0 <= i < |arr| && arr[i].0 == q;
      }
    }

    lemma {:induction false} TagsFit(arr: seq<Entry>, hyps: Hyps, frames: seq<Frame>, exact: bool, unflushed: bool)
      requires FromMap(arr, hyps) && SearchState(hyps, frames, vocabSize, exact, graph, unflushed)
      ensures TagsUsable(arr)
    {
      hide HypsOk, RunsFit, Frames, StampsOk, KeyOk, Positions;
      forall i | 0 <= i < |arr|
        ensures Positions(arr[i].1.context.starts, |arr[i].0|) && Positions(arr[i].1.context.ends, |arr[i].0|)
      {
        assert arr[i].0 in hyps;
        NoTagPositions(|arr[i].0|);
      }
    }

    lemma NoTagPositions(n: nat)
      ensures Positions([], n)
    {
    }

    // ---------- the end of a call ----------

    /** Every hypothesis in the middle of a hotword escapes. */
    method FlushAll(g: Graph) returns (flushed: Hyps)
      requires Valid() && graph == Some(g)
      ensures AllFlushed(g, curHyps, flushed)
    {
      hide SearchState, Advance, FlushedHyp, ListsFit;
      StatesUsable(g);
      HypothesesAreKeys();
      flushed := curHyps;
      var i := 0;
      while i < |hypotheses|
        invariant 0 <= i <= |hypotheses|
        invariant flushed.Keys == curHyps.Keys
        invariant forall p :: p in curHyps ==>
                    flushed[p] == if p in hypotheses[..i] then FlushedHyp(g, curHyps[p], |p|) else curHyps[p]
      {
        var prefix := hypotheses[i];
        OneMore(i);
        var e := flushed[prefix];
        AlreadyFlushed(g, e, |prefix|);
        if e.context.state != 0 {
          flushed := flushed[prefix := e.(context := Advance(g, e.context, 0, |prefix|))];
        }
        i := i + 1;
      }
      assert hypotheses[..i] == hypotheses;
    }

    lemma OneMore(i: nat)
      requires ListsFit() && i < |hypotheses|
      ensures hypotheses[i] !in hypotheses[..i] && hypotheses[i] in curHyps
      ensures hypotheses[..i + 1] == hypotheses[..i] + [hypotheses[i]]
    {
    }

    lemma HypothesesAreKeys()
      requires ListsFit()
      ensures forall i, j :: 0 <= i < j < |hypotheses| ==> hypotheses[i] != hypotheses[j]
      ensures forall p :: p in curHyps <==> p in hypotheses
    {
    }

    lemma {:induction false} StatesUsable(g: Graph)
      requires Valid() && graph == Some(g)
      ensures forall p :: p in curHyps ==> curHyps[p].context.state < |g.arcs|
    {
      hide HypsOk, StampsOk;
    }

    /** Unfinished hotwords are cleared, and the n-best lists are sorted again. */
    method UpdateFinalContext()
      requires Valid()
      modifies this`curHyps, this`hypotheses, this`likelihood, this`viterbiLikelihood, this`times, this`outputs,
               this`unflushed
      ensures Valid() && frames == old(frames) && exact == old(exact) && graph == old(graph)
      ensures graph.None? ==> unchanged(this)
      ensures graph.Some? ==> AllFlushed(graph.value, old(curHyps), curHyps)
      ensures graph.Some? ==> BestFirst(likelihood)
      ensures old(Steady()) ==> Steady()
    {
      hide SearchState, FlushedHyp, AllFlushed, Total, ListsFit, BestFirst, BoostOk, SteadyHyps;
      if graph.None? {
        return;
      }
      var flushed := FlushAll(graph.value);
      FlushedState(curHyps, frames, vocabSize, exact, graph.value, unflushed, flushed);
      assert flushed != map[] by { SomeHypothesis(); SomeFlushed(graph.value, curHyps, flushed); }
      KeepBest(flushed, |flushed|, frames, exact, false);
      SameMap(curHyps, flushed);
      SteadyStays(graph.value, old(curHyps), flushed);
      unflushed := false;
    }

    /** The result of a hypothesis, if it has one time stamp per token; otherwise the program aborts. */
    method ResultOf(i: nat) returns (ok: bool, path: DecodeResult)
      requires i < |hypotheses| == |likelihood| == |times|
      ensures ok <==> |hypotheses[i]| == |times[i]|
      ensures ok ==> IsResult(path, vocab, likelihood[i], hypotheses[i], times[i])
    {
      var input, stamps := hypotheses[i], times[i];
      var sentence: string := "";
      var j := 0;
      while j < |input|
        invariant 0 <= j <= |input| && sentence == Sentence(vocab, input[..j])
      {
        assert Init(input[..j + 1]) == input[..j] && Last(input[..j + 1]) == input[j];
        sentence := sentence + vocab(input[j]);
        j := j + 1;
      }
      assert input[..j] == input;
      path := DecodeResult(likelihood[i], sentence, []);
      if |input| != |stamps| {
        return false, path;
      }
      var pieces: seq<WordPiece> := [];
      j := 0;
      while j < |input|
        invariant 0 <= j <= |input| && |pieces| == j
        invariant forall k :: 0 <= k < j ==> pieces[k] == WordPiece(vocab(input[k]), 0, stamps[k])
      {
        pieces := pieces + [WordPiece(vocab(input[j]), 0, stamps[j])];
        j := j + 1;
      }
      return true, path.(wordPieces := pieces);
    }

    /** There is a result for each hypothesis, in the order of the list. */
    ghost predicate ResultsFit()
      reads this`results, this`hypotheses, this`likelihood, this`times
    {
      && |results| == |hypotheses| == |likelihood| == |times| > 0
      && forall i :: 0 <= i < |results| ==> IsResult(results[i], vocab, likelihood[i], hypotheses[i], times[i])
    }

    /** The results of a call.  `ok` is false when the program's check that there is one stamp per token aborts. */
    method UpdateResult() returns (ok: bool)
      requires Valid()
      modifies this`results
      ensures Valid()
      ensures ok <==> forall p :: p in curHyps ==> p == [] || curHyps[p].Score() > 0.0
      ensures ok ==> ResultsFit()
      ensures ok ==> forall i :: 0 <= i < |times| ==> Stamps(times[i], |hypotheses[i]|, absTimeStep)
      ensures ok ==> TimesEmitted()
    {
      hide SearchState, Total, IsResult, Stamps, GoodResult, ListsFit, TimesEmitted;
      ListSizes();
      AllEmitted();
      results := [];
      var i := 0;
      while i < |hypotheses|
        invariant 0 <= i <= |hypotheses| == |times| == |likelihood| && |results| == i
        invariant forall k :: 0 <= k < i ==> GoodResult(results[k], k)
      {
        ResultFits(i);
        var fits, path := ResultOf(i);
        if !fits {
          return false;
        }
        results := results + [path];
        i := i + 1;
      }
      ok := true;
      AllGood();
    }

    /** The time stamps of a hypothesis with mass are the last frames of the runs that emit its tokens, on a label path
        of positive probability that ends in blank exactly if the blank score is the better one. */
    ghost predicate TimesEmitted()
      reads this`curHyps, this`hypotheses, this`times, this`frames
    {
      && |hypotheses| == |times|
      && forall i :: 0 <= i < |times| ==>
           var p := hypotheses[i];
           p in curHyps && (curHyps[p].Score() > 0.0 ==>
             Emitted(frames, vocabSize, p, p == [] || curHyps[p].vS > curHyps[p].vNs, times[i]))
    }

    lemma {:induction false} AllEmitted()
      requires Valid()
      ensures TimesEmitted()
    {
      hide SearchState, Total, Emitted, PrefixScore.Score, PrefixScore.TokenTimes;
      forall i | 0 <= i < |times| && curHyps[hypotheses[i]].Score() > 0.0
        ensures var p := hypotheses[i];
                Emitted(frames, vocabSize, p, p == [] || curHyps[p].vS > curHyps[p].vNs, times[i])
      {
        StampsAreRuns(hypotheses[i]);
      }
    }

    /** The result of hypothesis `k`, which has mass, or no tokens. */
    ghost predicate GoodResult(r: DecodeResult, k: nat)
      reads this`curHyps, this`hypotheses, this`likelihood, this`times, this`absTimeStep
    {
      && k < |hypotheses| == |likelihood| == |times|
      && hypotheses[k] in curHyps && (hypotheses[k] == [] || curHyps[hypotheses[k]].Score() > 0.0)
      && Stamps(times[k], |hypotheses[k]|, absTimeStep)
      && IsResult(r, vocab, likelihood[k], hypotheses[k], times[k])
    }

    lemma ListSizes()
      requires ListsFit()
      ensures 0 < |hypotheses| == |likelihood| == |times|
    {
    }

    lemma {:induction false} ResultFits(i: nat)
      requires Valid() && i < |hypotheses| == |likelihood| == |times|
      ensures hypotheses[i] in curHyps
      ensures |hypotheses[i]| == |times[i]| <==> hypotheses[i] == [] || curHyps[hypotheses[i]].Score() > 0.0
      ensures forall r :: IsResult(r, vocab, likelihood[i], hypotheses[i], times[i]) ==> GoodResult(r, i)
    {
      hide SearchState, Total, IsResult, Stamps, PrefixScore.Score, PrefixScore.TokenTimes;
      StampsOfHypothesis(hypotheses[i]);
      NoStamps(times[i], absTimeStep);
      forall r | IsResult(r, vocab, likelihood[i], hypotheses[i], times[i])
        ensures |hypotheses[i]| == |times[i]|
      {
        ResultSizes(r, i);
      }
    }

    lemma ResultSizes(r: DecodeResult, i: nat)
      requires i < |hypotheses| == |likelihood| == |times|
      requires IsResult(r, vocab, likelihood[i], hypotheses[i], times[i])
      ensures |hypotheses[i]| == |times[i]|
    {
    }

    lemma {:induction false} AllGood()
      requires ListsFit() && |results| == |hypotheses|
      requires forall k :: 0 <= k < |results| ==> GoodResult(results[k], k)
      ensures ResultsFit() && forall p :: p in curHyps ==> p == [] || curHyps[p].Score() > 0.0
      ensures forall k :: 0 <= k < |times| ==> Stamps(times[k], |hypotheses[k]|, absTimeStep)
    {
      hide Total, IsResult, Stamps, PrefixScore.Score, PrefixScore.TokenTimes;
      forall p | p in curHyps
        ensures p == [] || curHyps[p].Score() > 0.0
      {
        var k :| 0 <= k < |hypotheses| && hypotheses[k] == p;
        assert GoodResult(results[k], k);
      }
    }

    lemma NoStamps(stamps: seq<nat>, now: nat)
      ensures stamps == [] ==> Stamps(stamps, 0, now)
    {
    }

    /** Time stamps: one per token, increasing, before the current step, exactly for the hypotheses with mass. */
    lemma {:induction false} StampsOfHypothesis(p: Path)
      requires Valid() && p in curHyps
      ensures curHyps[p].Score() > 0.0 ==> Stamps(curHyps[p].TokenTimes(), |p|, absTimeStep)
      ensures |curHyps[p].TokenTimes()| == |p| <==> p == [] || curHyps[p].Score() > 0.0
    {
      hide MassOk, ViterbiOk, SignsAgree, StampsOk, Stamps, ListsFit, PrefixScore.Score, PrefixScore.ViterbiScore,
          PrefixScore.TokenTimes;
      assert HypOk(frames, vocabSize, exact, p, Lookup(curHyps, p));
      SameSign(frames, vocabSize, exact, p, curHyps[p]);
      StampsFit(curHyps[p], p, absTimeStep);
    }

    /** Stamp `i` is the last frame of the run of token `i`: up to it the path collapses to the first `i + 1` tokens, it
        carries the token's label, and the next label, if there is one, is another. */
    lemma {:induction false} StampsAreRuns(p: Path)
      requires Valid() && p in curHyps && curHyps[p].Score() > 0.0
      ensures Emitted(frames, vocabSize, p, p == [] || curHyps[p].vS > curHyps[p].vNs, curHyps[p].TokenTimes())
      ensures exists path :: var times := curHyps[p].TokenTimes();
                && PathOf(path, |frames|, vocabSize) && Weight(frames, path) > 0.0 && Collapse(path) == p
                && (EndsInBlank(path) <==> p == [] || curHyps[p].vS > curHyps[p].vNs)
                && |times| == |p| && forall i :: 0 <= i < |p| ==>
                     && times[i] < |path| && Collapse(path[..times[i] + 1]) == p[..i + 1] && path[times[i]] == p[i]
                     && (times[i] + 1 < |path| ==> path[times[i] + 1] != p[i])
    {
      hide MassOk, SignsAgree, Stamps, ListsFit, Reached, Bounds, Collapse, Weight, PrefixScore.Score,
           PrefixScore.ViterbiScore, PrefixScore.TokenTimes;
      var e := curHyps[p];
      assert HypOk(frames, vocabSize, exact, p, Lookup(curHyps, p));
      SameSign(frames, vocabSize, exact, p, e);
      ReportedEmitted(frames, vocabSize, p, e);
      var path :| RunPath(frames, vocabSize, p, p == [] || e.vS > e.vNs, e.TokenTimes(), path);
    }

    // ---------- what a valid decoder's scores mean, after any number of frames and calls ----------

    /** Without pruning, a prefix's two scores are its two sums over label paths. */
    lemma {:induction false} ScoresAreSums(p: Path)
      requires Valid() && exact
      ensures Lookup(curHyps, p).s == Mass(frames, vocabSize, p, true)
      ensures Lookup(curHyps, p).ns == Mass(frames, vocabSize, p, false)
    {
      hide ViterbiOk, SignsAgree, Mass;
      assert HypOk(frames, vocabSize, exact, p, Lookup(curHyps, p));
    }

    /** Without pruning, the hypotheses are ranked by their sums over label paths, each times the weight of its context
        score. */
    lemma {:induction false} RankedByMass(i: nat, j: nat)
      requires Valid() && exact && BestFirst(likelihood) && i < j < |hypotheses|
      ensures var (p, q) := (hypotheses[i], hypotheses[j]);
              && p in curHyps && q in curHyps
              && Times(Mass(frames, vocabSize, p, true) + Mass(frames, vocabSize, p, false),
                       boost(curHyps[p].context.score)) >=
                   Times(Mass(frames, vocabSize, q, true) + Mass(frames, vocabSize, q, false),
                         boost(curHyps[q].context.score))
    {
      hide SearchState, Mass, Times;
      ScoresAreSums(hypotheses[i]);
      ScoresAreSums(hypotheses[j]);
      ScoreIsSum(hypotheses[i]);
      ScoreIsSum(hypotheses[j]);
    }

    lemma ScoreIsSum(p: Path)
      requires Valid() && p in curHyps
      ensures curHyps[p].Score() == curHyps[p].s + curHyps[p].ns
    {
      hide ListsFit;
      assert HypOk(frames, vocabSize, exact, p, Lookup(curHyps, p));
    }

    /** With any pruning, they never exceed those sums. */
    lemma {:induction false} ScoresNeverExceed(p: Path)
      requires Valid()
      ensures 0.0 <= Lookup(curHyps, p).s <= Mass(frames, vocabSize, p, true)
      ensures 0.0 <= Lookup(curHyps, p).ns <= Mass(frames, vocabSize, p, false)
    {
      hide ViterbiOk, SignsAgree, Mass;
      assert HypOk(frames, vocabSize, exact, p, Lookup(curHyps, p));
    }

    /** With any pruning, a Viterbi score above the floor is the weight of a label path that collapses to the prefix. */
    lemma {:induction false} ViterbiAttained(p: Path) returns (path: Path)
      requires Valid() && Lookup(curHyps, p).ViterbiScore() > 0.0
      ensures PathOf(path, |frames|, vocabSize) && Collapse(path) == p
      ensures Weight(frames, path) == Lookup(curHyps, p).ViterbiScore()
    {
      hide MassOk, Mass, Bounds, Collapse, Weight;
      var e := Lookup(curHyps, p);
      assert HypOk(frames, vocabSize, exact, p, e);
      if e.vS > e.vNs || p == [] {
        path :| Witness(frames, vocabSize, p, true, path) && Weight(frames, path) == e.vS;
      } else {
        path :| Witness(frames, vocabSize, p, false, path) && Weight(frames, path) == e.vNs;
      }
    }

    /** Without pruning, no label path that collapses to the prefix weighs more. */
    lemma {:induction false} ViterbiIsBest(p: Path, path: Path)
      requires Valid() && exact && PathOf(path, |frames|, vocabSize) && Collapse(path) == p
      ensures Weight(frames, path) <= Lookup(curHyps, p).ViterbiScore()
    {
      hide MassOk, Mass, Reached, Collapse, Weight;
      assert HypOk(frames, vocabSize, exact, p, Lookup(curHyps, p));
      assert Witness(frames, vocabSize, p, EndsInBlank(path), path);
    }

    /** Without pruning, every prefix of proper labels no longer than the frames is held; from the second frame on,
        some of them have no label path, so the time stamp check of `UpdateResult` fails. */
    lemma {:induction false} UnprunedHoldsUnreached()
      requires Valid() && exact && |frames| >= 2 && vocabSize >= 2
      ensures Ones(|frames|) in curHyps && Ones(|frames|) != [] && curHyps[Ones(|frames|)].Score() == 0.0
    {
      hide HypOk, ListsFit;
      var ones := Ones(|frames|);
      assert KeyOk(ones, vocabSize, |frames|);
      assert HypOk(frames, vocabSize, exact, ones, Lookup(curHyps, ones));
      OnesUnreached(frames, vocabSize, exact, curHyps[ones]);
      SameSign(frames, vocabSize, exact, ones, curHyps[ones]);
      NonNegativeScore(frames, vocabSize, exact, ones, curHyps[ones]);
    }

    lemma NonNegativeScore(frames: seq<Frame>, v: nat, exact: bool, p: Path, e: PrefixScore)
      requires HypOk(frames, v, exact, p, e)
      ensures e.Score() >= 0.0
    {
    }

    method DecodeFrames(logp: seq<Frame>)
      requires Valid() && Frames(logp, vocabSize) && logp != []
      modifies this
      ensures Valid() && frames == old(frames) + logp && graph == old(graph) && unflushed == old(unflushed)
      ensures exact ==> old(exact)
      ensures old(exact) && firstBeam >= vocabSize && secondBeam >= KeyCount(vocabSize, |frames|) ==> exact
      ensures BestFirst(likelihood)
      ensures old(Steady()) && (forall t :: 0 <= t < |logp| ==> AllPositive(logp[t])) ==> Steady()
    {
      hide SearchState, ListsFit, NonNegative, KeyCount, Total, BestFirst, Massive, AllPositive, MassKeys, Steady;
      var beam := if |logp[0]| < firstBeam then |logp[0]| else firstBeam;
      var t := 0;
      while t < |logp|
        invariant 0 <= t <= |logp|
        invariant Valid() && frames == old(frames) + logp[..t] && graph == old(graph) && unflushed == old(unflushed)
        invariant exact ==> old(exact)
        invariant old(exact) && firstBeam >= vocabSize && secondBeam >= KeyCount(vocabSize, |old(frames)| + |logp|) ==>
                    exact
        invariant t > 0 ==> BestFirst(likelihood)
        invariant old(Steady()) && (forall k :: 0 <= k < |logp| ==> AllPositive(logp[k])) ==> Steady()
      {
        assert logp[..t + 1] == logp[..t] + [logp[t]];
        KeyCountGrows(vocabSize, |old(frames)| + t + 1, |old(frames)| + |logp|);
        var _ := DecodeFrame(logp[t], beam);
        t := t + 1;
      }
      assert logp[..t] == logp;
    }

    /** The end of a call: the final context update and the result, which is `None` when the time stamp check aborts. */
    method CtcFinalizeDecode() returns (result: Option<string>)
      requires Valid() && BestFirst(likelihood)
      modifies this
      ensures Valid() && frames == old(frames) && exact == old(exact) && graph == old(graph) && BestFirst(likelihood)
      ensures if graph.Some? then AllFlushed(graph.value, old(curHyps), curHyps) else curHyps == old(curHyps)
      ensures result.Some? <==> forall p :: p in curHyps ==> p == [] || curHyps[p].Score() > 0.0
      ensures result.Some? ==> ResultsFit() && TimesEmitted() && result.value == Spaced(results[0].sentence)
      ensures exact && |frames| >= 2 && vocabSize >= 2 ==> result.None?
      ensures old(Steady()) ==> Steady() && result.Some?
    {
      hide SearchState, ListsFit, KeyCount, Total, Stamps, BestFirst, Massive, Steady, AllFlushed, TimesEmitted;
      UpdateFinalContext();
      if Steady() { SteadyMass(); }
      if exact && |frames| >= 2 && vocabSize >= 2 { UnprunedHoldsUnreached(); }
      var ok := UpdateResult();
      result := None;
      if ok {
        var text := ReplaceMarks(results[0].sentence);
        result := Some(text);
      }
    }

    /** A whole call.  With positive probabilities and a second beam no wider than the first the result is never
        `None`. */
    method CtcSearch(logp: seq<Frame>) returns (result: Option<string>)
      requires Valid() && Frames(logp, vocabSize)
      modifies this
      ensures Valid() && frames == old(frames) + logp && graph == old(graph)
      ensures exact ==> old(exact)
      ensures old(exact) && firstBeam >= vocabSize && secondBeam >= KeyCount(vocabSize, |frames|) ==> exact
      ensures old(unflushed) && graph.Some? && logp != [] ==> FlushedFolds(graph.value)
      ensures logp != [] ==> BestFirst(likelihood)
      ensures logp != [] ==> (result.Some? <==> forall p :: p in curHyps ==> p == [] || curHyps[p].Score() > 0.0)
      ensures exact && |frames| >= 2 && vocabSize >= 2 && logp != [] ==> result.None?
      ensures logp == [] ==> result == Some("")
      ensures old(Steady()) && (forall t :: 0 <= t < |logp| ==> AllPositive(logp[t])) ==> Steady() && result.Some?
      ensures result.Some? && logp != [] ==>
                ResultsFit() && TimesEmitted() && result.value == Spaced(results[0].sentence)
    {
      hide SearchState, ListsFit, Fold, KeyCount, Total, Stamps, BestFirst, Massive, AllPositive, Steady,
          AllFlushed, FlushedFolds, TimesEmitted;
      if |logp| == 0 {
        assert old(frames) + logp == old(frames);
        return Some("");
      }
      DecodeFrames(logp);
      ghost var before := curHyps;
      if unflushed && graph.Some? { FoldsOf(); }
      result := CtcFinalizeDecode();
      if old(unflushed) && graph.Some? { FoldsFlushed(graph.value, before); }
    }

    /** Every context is the fold of the graph over the hypothesis's tokens, flushed. */
    ghost predicate FlushedFolds(g: Graph)
      reads this`curHyps
    {
      WellFormed(g) && forall p :: p in curHyps ==> curHyps[p].context == Flushed(g, Fold(g, p), |p|)
    }

    lemma {:induction false} FoldsFlushed(g: Graph, before: Hyps)
      requires WellFormed(g) && AllFlushed(g, before, curHyps) && forall p :: p in before ==>
                 before[p].context == Fold(g, p)
      ensures FlushedFolds(g)
    {
      hide Advance, Fold;
    }

    lemma SteadyMass()
      requires Steady()
      ensures forall p :: p in curHyps ==> curHyps[p].Score() > 0.0
    {
    }

    lemma {:induction false} SteadyStays(g: Graph, a: Hyps, b: Hyps)
      requires AllFlushed(g, a, b)
      ensures SteadyHyps(a) ==> SteadyHyps(b)
    {
      hide AllFlushed, Massive;
      SameMasses(g, a, b);
    }

    static lemma {:induction false} SameMasses(g: Graph, a: Hyps, b: Hyps)
      requires AllFlushed(g, a, b)
      ensures a.Keys == b.Keys && |a| == |b| && (Massive(a) ==> Massive(b))
    {
      hide Advance;
      assert |a| == |a.Keys| && |b| == |b.Keys|;
    }

    lemma {:induction false} FoldsOf()
      requires Valid() && unflushed && graph.Some?
      ensures WellFormed(graph.value)
      ensures forall p :: p in curHyps ==> curHyps[p].context == Fold(graph.value, p)
    {
    }
  }
}
