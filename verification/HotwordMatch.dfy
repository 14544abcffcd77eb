/** What a flushed context score counts (context_graph.cpp:95-118, ctc-prefix-decoder.cpp:280-291). */
module HotwordMatch {
  import opened Sequences
  import opened CtcPaths
  import opened ContextGraph
  import opened HotwordGraph
  import opened HotwordMerge

  // ---------- hotwords in a sequence of words, without a graph ----------

  ghost predicate Begins(hotwords: seq<Hotword>, u: Hotword) {
    exists c :: 0 <= c < |hotwords| && u < hotwords[c]
  }

  /** The hotword in progress, the spans `[start, end)` of the completed ones, where hotwords were begun, and how many
      of those begun were dropped again. */
  datatype Match = Match(open: Hotword, closed: seq<(nat, nat)>, starts: seq<nat>, dropped: nat)

  /** A word completes a hotword, or continues one, or is dropped together with the one in progress. */
  ghost function Read(hotwords: seq<Hotword>, words: Path): (m: Match)
    ensures |m.open| <= |words|
  {
    if words == [] then Match([], [], [], 0)
        else ReadWord(hotwords, Read(hotwords, Init(words)), Last(words), |words| - 1)
  }

  ghost function ReadWord(hotwords: seq<Hotword>, m: Match, word: nat, at: nat): Match
    requires |m.open| <= at
  {
    var u := m.open + [word];
    var starts := if m.open == [] then m.starts + [at] else m.starts;
    if u in hotwords then Match([], m.closed + [(at - |m.open|, at + 1)], starts, m.dropped)
    else if Begins(hotwords, u) then Match(u, m.closed, starts, m.dropped)
    else Match([], m.closed, m.starts, if m.open == [] then m.dropped else m.dropped + 1)
  }

  /** The total score of the completed hotwords. */
  ghost function ClosedScore(cfg: Config, base: real, words: Path, closed: seq<(nat, nat)>): real {
    if closed == [] then 0.0
    else
      var span := Last(closed);
      ClosedScore(cfg, base, words, Init(closed)) +
      if span.0 <= span.1 <= |words| then Pending(cfg, base, words[span.0..span.1]) else 0.0
  }

  ghost predicate SpansOk(hotwords: seq<Hotword>, words: Path, closed: seq<(nat, nat)>) {
    && (forall k :: 0 <= k < |closed| ==>
        closed[k].0 < closed[k].1 <= |words| && words[closed[k].0..closed[k].1] in hotwords)
    && forall k, l :: 0 <= k < l < |closed| ==> closed[k].1 <= closed[l].0
  }

  lemma {:induction false} MoreWords(hotwords: seq<Hotword>, words: Path, word: nat, closed: seq<(nat, nat)>)
    requires SpansOk(hotwords, words, closed)
    ensures SpansOk(hotwords, words + [word], closed)
  {
    forall k | 0 <= k < |closed|
      ensures (words + [word])[closed[k].0..closed[k].1] == words[closed[k].0..closed[k].1]
    {
    }
  }

  lemma {:induction false} MoreSpans(hotwords: seq<Hotword>, words: Path, closed: seq<(nat, nat)>, span: (nat, nat))
    requires SpansOk(hotwords, words, closed) && (closed != [] ==> Last(closed).1 <= span.0)
    requires span.0 < span.1 <= |words| && words[span.0..span.1] in hotwords
    ensures SpansOk(hotwords, words, closed + [span])
  {
    var all := closed + [span];
    forall k, l | 0 <= k < l < |all|
      ensures all[k].1 <= all[l].0
    {
      if l == |closed| && k < l - 1 { assert closed[k].1 <= Last(closed).0; }
    }
  }

  ghost predicate Reading(hotwords: seq<Hotword>, words: Path, m: Match) {
    && SpansOk(hotwords, words, m.closed)
    && |m.open| <= |words| && m.open == words[|words| - |m.open|..]
    && (m.closed != [] ==> Last(m.closed).1 <= |words| - |m.open|)
  }

  lemma {:induction false} ReadWordOk(hotwords: seq<Hotword>, words: Path, m: Match, word: nat)
    requires Reading(hotwords, words, m)
    ensures Reading(hotwords, words + [word], ReadWord(hotwords, m, word, |words|))
  {
    hide SpansOk;
    var words', u := words + [word], m.open + [word];
    assert u == words'[|words'| - |u|..];
    MoreWords(hotwords, words, word, m.closed);
    if u in hotwords {
      var span := (|words| - |m.open|, |words| + 1);
      assert words'[span.0..span.1] == u;
      MoreSpans(hotwords, words', m.closed, span);
    }
  }

  /** The completed spans are hotwords, in order and disjoint; the open one is the end of the words read. */
  lemma {:induction false} ReadOk(hotwords: seq<Hotword>, words: Path)
    ensures Reading(hotwords, words, Read(hotwords, words))
  {
    if words != [] {
      ReadOk(hotwords, Init(words));
      UnSnoc(words);
      ReadWordOk(hotwords, Init(words), Read(hotwords, Init(words)), Last(words));
    }
  }

  // ---------- where the start tags stand ----------

  /** After `n` words: a start tag where each completed hotword begins, and where the open one does.  There is one
      for each hotword begun, so with none dropped the tags are those of the completed ones, in order, and of the
      open one. */
  ghost predicate Tagged(m: Match, n: nat) {
    && |m.starts| == |m.closed| + m.dropped + (if m.open == [] then 0 else 1)
    && Positions(m.starts, n)
    && (m.open != [] ==> Last(m.starts) == n - |m.open|)
    && (forall k :: 0 <= k < |m.closed| ==> m.closed[k].0 in m.starts)
    && (m.dropped == 0 ==> forall k :: 0 <= k < |m.closed| ==> m.starts[k] == m.closed[k].0)
  }

  lemma {:induction false} ReadWordTagged(hotwords: seq<Hotword>, m: Match, word: nat, at: nat)
    requires |m.open| <= at && Tagged(m, at)
    ensures Tagged(ReadWord(hotwords, m, word, at), at + 1)
  {
    hide Begins, Positions;
    var m' := ReadWord(hotwords, m, word, at);
    MorePositions(m.starts, at);
    forall k | 0 <= k < |m'.closed|
      ensures m'.closed[k].0 in m'.starts && (m'.dropped == 0 ==> m'.starts[k] == m'.closed[k].0)
    {
      if k < |m.closed| {
        assert m.closed[k].0 in m.starts;
      } else if m.open == [] {
        assert Last(m'.starts) == at;
      } else {
        assert Last(m.starts) == at - |m.open|;
      }
    }
  }

  lemma {:induction false} ReadTagged(hotwords: seq<Hotword>, words: Path)
    ensures Tagged(Read(hotwords, words), |words|)
  {
    hide Tagged, ReadWord;
    if words == [] {
      assert Tagged(Match([], [], [], 0), 0) by { NoTags(); }
    } else {
      ReadTagged(hotwords, Init(words));
      ReadWordTagged(hotwords, Read(hotwords, Init(words)), Last(words), |words| - 1);
    }
  }

  lemma NoTags()
    ensures Tagged(Match([], [], [], 0), 0)
  {
  }

  lemma {:induction false} ClosedMoreWords(cfg: Config, base: real, hotwords: seq<Hotword>, words: Path, word: nat,
                                           closed: seq<(nat, nat)>)
    requires SpansOk(hotwords, words, closed)
    ensures ClosedScore(cfg, base, words + [word], closed) == ClosedScore(cfg, base, words, closed)
  {
    hide Pending;
    if closed != [] {
      var span := Last(closed);
      ClosedMoreWords(cfg, base, hotwords, words, word, Init(closed));
      assert (words + [word])[span.0..span.1] == words[span.0..span.1];
    }
  }

  // ---------- the graph walks as the words are read ----------

  ghost predicate Setting(cfg: Config, hotwords: seq<Hotword>, base: real, bases: seq<real>, arcs: seq<seq<Arc>>,
                          names: seq<Hotword>, g: Graph, gnames: seq<Hotword>) {
    && |hotwords| == |bases| && (forall c :: 0 <= c < |bases| ==> bases[c] == base) && PrefixFree(hotwords)
    && ChainsOk(cfg, hotwords, bases, arcs, names) && Determinized(arcs, names, g, gnames)
  }

  /** The chains that are built, and then merged, are such a setting. */
  lemma {:induction false} BuiltGraph(cfg: Config, hotwords: seq<Hotword>, base: real, bases: seq<real>,
                                      arcs: seq<seq<Arc>>, names: seq<Hotword>)
    requires |hotwords| == |bases| && ChainsOk(cfg, hotwords, bases, arcs, names)
    requires (forall c :: 0 <= c < |bases| ==> bases[c] == base) && PrefixFree(hotwords)
    ensures var g := MergedGraph(arcs, names);
            Setting(cfg, hotwords, base, bases, arcs, names, g, Distinct(names)) && WellFormed(g)
  {
    hide ChainsOk, Determinized, PrefixFree;
    MergedIsDeterminized(cfg, hotwords, bases, arcs, names);
  }

  /** An arc of the graph scores what its word or its escape should, and a word arc returns to the start exactly
      when it completes a hotword. */
  ghost predicate GoodArc(cfg: Config, base: real, hotwords: seq<Hotword>, gnames: seq<Hotword>, u: Hotword, a: Arc) {
    && a.next < |gnames|
    && if a.ilabel == 0 then u != [] && a.next == 0 && a.weight == -Pending(cfg, base, u)
       else && a.weight == WordScore(cfg, base, |u|, a.ilabel)
            && if a.next == 0 then u + [a.ilabel] in hotwords
               else gnames[a.next] == u + [a.ilabel] && Begins(hotwords, u + [a.ilabel])
  }

  lemma ChainArc(arcs: seq<seq<Arc>>, names: seq<Hotword>, gnames: seq<Hotword>, q: nat, a: Arc, s: nat, i: nat)
    requires |arcs| == |names| && q < |gnames| && FromChain(arcs, names, gnames, q, a, s, i)
    ensures s < |arcs| && i < |arcs[s]|
  {
  }

  lemma {:induction false} ArcsGood(cfg: Config, hotwords: seq<Hotword>, base: real, bases: seq<real>,
                                    arcs: seq<seq<Arc>>, names: seq<Hotword>, g: Graph, gnames: seq<Hotword>, q: nat,
                                    k: nat)
    requires Setting(cfg, hotwords, base, bases, arcs, names, g, gnames) && q < |g.arcs| && k < |g.arcs[q]|
    ensures GoodArc(cfg, base, hotwords, gnames, gnames[q], g.arcs[q][k])
  {
    hide Pending, WordScore, Spelled;
    var u, a := gnames[q], g.arcs[q][k];
    assert IsOfChain(arcs, names, gnames, q, a);
    var s: nat, i: nat :| FromChain(arcs, names, gnames, q, a, s, i);
    ChainArc(arcs, names, gnames, q, a, s, i);
    assert ArcOk(cfg, hotwords, bases, names, names[s], arcs[s][i]);
    var c, j :| 0 <= c < |hotwords| && ArcOf(cfg, hotwords[c], bases[c], names, names[s], arcs[s][i], j);
    var words := hotwords[c];
    if a.ilabel != 0 {
      assert words[..j + 1] == u + [a.ilabel];
      if a.next == 0 {
        assert words[..j + 1] == words;
      } else {
        assert u + [a.ilabel] < words;
      }
    }
  }

  /** The next word of a hotword in progress has an arc; every state but the start has an escape arc. */
  lemma {:induction false} ArcExists(cfg: Config, hotwords: seq<Hotword>, base: real, bases: seq<real>,
                                     arcs: seq<seq<Arc>>, names: seq<Hotword>, g: Graph, gnames: seq<Hotword>, q: nat,
                                     c: nat)
    requires Setting(cfg, hotwords, base, bases, arcs, names, g, gnames) && q < |g.arcs| && c < |hotwords|
             && gnames[q] < hotwords[c]
    ensures HasArc(g.arcs[q], hotwords[c][|gnames[q]|]) && (gnames[q] != [] ==> HasArc(g.arcs[q], 0))
  {
    hide ArcOk, ArcOf;
    var j, words := |gnames[q]|, hotwords[c];
    assert Spelled(cfg, bases[c], arcs, names, words, j);
    var s: nat, i: nat :| SpellsWord(cfg, bases[c], arcs, names, words, j, s, i);
    assert names[s] == gnames[q];
    assert HasArc(g.arcs[q], arcs[s][i].ilabel);
    if j > 0 {
      var e :| 0 <= e < |arcs[s]| && arcs[s][e].ilabel == 0;
      assert HasArc(g.arcs[q], arcs[s][e].ilabel);
    }
  }

  lemma {:induction false} EscapeScoreIs(arcs: seq<Arc>, w: real)
    requires forall k :: 0 <= k < |arcs| && arcs[k].ilabel == 0 ==> arcs[k].weight == w
    ensures EscapeScore(arcs) == if HasArc(arcs, 0) then w else 0.0
  {
    if arcs != [] {
      if Last(arcs).ilabel == 0 {
        assert arcs[|arcs| - 1].ilabel == 0;
      } else {
        EscapeScoreIs(Init(arcs), w);
        if HasArc(arcs, 0) {
          var k :| 0 <= k < |arcs| && arcs[k].ilabel == 0;
          assert Init(arcs)[k].ilabel == 0;
        }
        if HasArc(Init(arcs), 0) {
          var k :| 0 <= k < |Init(arcs)| && Init(arcs)[k].ilabel == 0;
          assert arcs[k].ilabel == 0;
        }
      }
    }
  }

  lemma {:induction false} EscapeIs(cfg: Config, hotwords: seq<Hotword>, base: real, bases: seq<real>,
                                    arcs: seq<seq<Arc>>, names: seq<Hotword>, g: Graph, gnames: seq<Hotword>, q: nat)
    requires Setting(cfg, hotwords, base, bases, arcs, names, g, gnames) && q < |g.arcs|
    requires gnames[q] != [] ==> Begins(hotwords, gnames[q])
    ensures EscapeScore(g.arcs[q]) == -Pending(cfg, base, gnames[q])
  {
    hide Setting, Pending, WordScore;
    assert |gnames| == |g.arcs| && |hotwords| ==
             |bases| by { Sizes(cfg, hotwords, base, bases, arcs, names, g, gnames); }
    var u := gnames[q];
    forall k | 0 <= k < |g.arcs[q]| && g.arcs[q][k].ilabel == 0
      ensures g.arcs[q][k].weight == -Pending(cfg, base, u) && u != []
    {
      ArcsGood(cfg, hotwords, base, bases, arcs, names, g, gnames, q, k);
    }
    EscapeScoreIs(g.arcs[q], -Pending(cfg, base, u));
    if u != [] {
      var c :| 0 <= c < |hotwords| && u < hotwords[c];
      ArcExists(cfg, hotwords, base, bases, arcs, names, g, gnames, q, c);
    } else {
      assert Pending(cfg, base, []) == 0.0 by { NothingPending(cfg, base); }
    }
  }

  lemma NothingPending(cfg: Config, base: real)
    ensures Pending(cfg, base, []) == 0.0
  {
  }

  lemma Sizes(cfg: Config, hotwords: seq<Hotword>, base: real, bases: seq<real>, arcs: seq<seq<Arc>>,
              names: seq<Hotword>, g: Graph, gnames: seq<Hotword>)
    requires Setting(cfg, hotwords, base, bases, arcs, names, g, gnames)
    ensures |gnames| == |g.arcs| > 0 && gnames[0] == [] && (forall q :: 0 < q < |gnames| ==> gnames[q] != [])
    ensures g.finals == {0} && |hotwords| == |bases| && PrefixFree(hotwords)
  {
  }

  lemma MatchFound(arcs: seq<Arc>, ilabel: nat)
    ensures HasArc(arcs, ilabel) <==> FirstMatch(arcs, ilabel) < |arcs|
  {
  }

  /** The word completes a hotword, or continues one, or takes back what the one in progress has scored. */
  ghost predicate LeadsTo(cfg: Config, base: real, hotwords: seq<Hotword>, gnames: seq<Hotword>, u: Hotword, word: nat,
                          hop: Hop) {
    && hop.next < |gnames|
    && if u + [word] in hotwords then
         hop.next == 0 && hop.isEnd && hop.isStart == (u == []) && hop.score == WordScore(cfg, base, |u|, word)
       else if Begins(hotwords, u + [word]) then
         && gnames[hop.next] == u + [word] && !hop.isEnd && hop.isStart == (u == [])
         && hop.score == WordScore(cfg, base, |u|, word)
       else hop.next == 0 && !hop.isEnd && !hop.isStart && hop.score == -Pending(cfg, base, u)
  }

  /** Where a word leads, told without the graph. */
  lemma {:induction false} HopIs(cfg: Config, hotwords: seq<Hotword>, base: real, bases: seq<real>, arcs: seq<seq<Arc>>,
                                 names: seq<Hotword>, g: Graph, gnames: seq<Hotword>, q: nat, word: nat)
    requires Setting(cfg, hotwords, base, bases, arcs, names, g, gnames) && q < |g.arcs| == |gnames| && word != 0
    requires gnames[q] != [] ==> Begins(hotwords, gnames[q])
    ensures LeadsTo(cfg, base, hotwords, gnames, gnames[q], word, NextHop(g, q, word))
  {
    hide Setting, Pending, WordScore;
    Sizes(cfg, hotwords, base, bases, arcs, names, g, gnames);
    var u, i := gnames[q], FirstMatch(g.arcs[q], word);
    MatchFound(g.arcs[q], word);
    var v := u + [word];
    if i < |g.arcs[q]| {
      var a := g.arcs[q][i];
      ArcsGood(cfg, hotwords, base, bases, arcs, names, g, gnames, q, i);
      if a.next == 0 {
        assert v in hotwords;
      } else {
        assert Begins(hotwords, v);
        var d :| 0 <= d < |hotwords| && v < hotwords[d];
        assert v !in hotwords;
        assert gnames[a.next] != [];
      }
    } else {
      if v in hotwords || Begins(hotwords, v) {
        var c :| 0 <= c < |hotwords| && v <= hotwords[c];
        assert u < hotwords[c] && hotwords[c][|u|] == word;
        ArcExists(cfg, hotwords, base, bases, arcs, names, g, gnames, q, c);
        assert false;
      }
      EscapeIs(cfg, hotwords, base, bases, arcs, names, g, gnames, q);
    }
  }

  /** The state of a walk: the name of its state is the open hotword, its score the closed ones plus the words of
      the open one. */
  ghost predicate InStep(cfg: Config, base: real, hotwords: seq<Hotword>, g: Graph, gnames: seq<Hotword>, words: Path,
                         m: Match, c: Context) {
    && c.state < |gnames| == |g.arcs| && gnames[c.state] == m.open
    && c.score == ClosedScore(cfg, base, words, m.closed) + Pending(cfg, base, m.open)
    && (m.open != [] ==> Begins(hotwords, m.open))
    && c.starts == m.starts
    && |c.ends| == |m.closed| && forall k :: 0 <= k < |c.ends| ==> c.ends[k] + 1 == m.closed[k].1
  }

  lemma {:induction false} StepInStep(cfg: Config, hotwords: seq<Hotword>, base: real, bases: seq<real>,
                                      arcs: seq<seq<Arc>>, names: seq<Hotword>, g: Graph, gnames: seq<Hotword>,
                                      words: Path, m: Match, c: Context, word: nat)
    requires Setting(cfg, hotwords, base, bases, arcs, names, g, gnames) && word != 0
    requires Reading(hotwords, words, m) && InStep(cfg, base, hotwords, g, gnames, words, m, c)
    ensures InStep(cfg, base, hotwords, g, gnames, words + [word], ReadWord(hotwords, m, word, |words|),
                   Advance(g, c, word, |words|))
  {
    hide Setting, Pending, WordScore, SpansOk, NextHop, Begins, ClosedScore;
    Sizes(cfg, hotwords, base, bases, arcs, names, g, gnames);
    HopIs(cfg, hotwords, base, bases, arcs, names, g, gnames, c.state, word);
    ClosedMoreWords(cfg, base, hotwords, words, word, m.closed);
    PendingSnoc(cfg, base, m.open, word);
    NothingPending(cfg, base);
    if m.open + [word] in hotwords {
      ClosedOneMore(cfg, base, hotwords, words, m, word);
    }
  }

  /** The score of the hotword that a word completes. */
  lemma {:induction false} ClosedOneMore(cfg: Config, base: real, hotwords: seq<Hotword>, words: Path, m: Match,
                                         word: nat)
    requires Reading(hotwords, words, m)
    ensures var (words', span) := (words + [word], (|words| - |m.open|, |words| + 1));
            ClosedScore(cfg, base, words', m.closed + [span]) ==
              ClosedScore(cfg, base, words', m.closed) + Pending(cfg, base, m.open + [word])
  {
    hide Pending, SpansOk;
    var span := (|words| - |m.open|, |words| + 1);
    Snoc(m.closed, span);
    assert m.open + [word] == (words + [word])[span.0..span.1];
  }

  lemma {:induction false} FoldInStep(cfg: Config, hotwords: seq<Hotword>, base: real, bases: seq<real>,
                                      arcs: seq<seq<Arc>>, names: seq<Hotword>, g: Graph, gnames: seq<Hotword>,
                                      words: Path)
    requires Setting(cfg, hotwords, base, bases, arcs, names, g, gnames) && WellFormed(g)
    requires forall i :: 0 <= i < |words| ==> words[i] != 0
    ensures InStep(cfg, base, hotwords, g, gnames, words, Read(hotwords, words), Fold(g, words))
  {
    hide Setting, Pending, WordScore, SpansOk, Advance, ReadWord, Begins;
    Sizes(cfg, hotwords, base, bases, arcs, names, g, gnames);
    if words == [] {
      NothingPending(cfg, base);
    } else {
      var before := Init(words);
      FoldInStep(cfg, hotwords, base, bases, arcs, names, g, gnames, before);
      UnSnoc(words);
      ReadOk(hotwords, before);
      StepInStep(cfg, hotwords, base, bases, arcs, names, g, gnames, before, Read(hotwords, before), Fold(g, before),
                 Last(words));
    }
  }

  lemma PendingSnoc(cfg: Config, base: real, u: Hotword, word: nat)
    ensures Pending(cfg, base, u + [word]) == Pending(cfg, base, u) + WordScore(cfg, base, |u|, word)
  {
    Snoc(u, word);
  }

  /** The context score of a hypothesis after the final update is the total score of its completed hotwords, its end
      tags are their last positions, and its start tags are where hotwords were begun.  The tags pair up exactly
      when no hotword begun was dropped or left open; then they are the spans of the completed ones. */
  lemma {:induction false} OnlyCompletedCount(cfg: Config, hotwords: seq<Hotword>, base: real, bases: seq<real>,
                                              arcs: seq<seq<Arc>>, names: seq<Hotword>, g: Graph, gnames: seq<Hotword>,
                                              words: Path)
    requires Setting(cfg, hotwords, base, bases, arcs, names, g, gnames) && WellFormed(g)
    requires forall i :: 0 <= i < |words| ==> words[i] != 0
    ensures var c, m := Fold(g, words), Read(hotwords, words);
            var flushed := if c.state != 0 then Advance(g, c, 0, |words|) else c;
            && flushed.score == ClosedScore(cfg, base, words, m.closed)
            && SpansOk(hotwords, words, m.closed)
            && |flushed.ends| == |m.closed|
               && (forall k :: 0 <= k < |flushed.ends| ==> flushed.ends[k] + 1 == m.closed[k].1)
            && flushed.starts == m.starts && Tagged(m, |words|)
            && (|flushed.starts| == |flushed.ends| <==> m.dropped == 0 && m.open == [])
  {
    hide Setting, Pending, WordScore, SpansOk, NextHop;
    Sizes(cfg, hotwords, base, bases, arcs, names, g, gnames);
    FoldInStep(cfg, hotwords, base, bases, arcs, names, g, gnames, words);
    ReadOk(hotwords, words);
    ReadTagged(hotwords, words);
    var c := Fold(g, words);
    EscapeHop(g, c, |words|);
    EscapeIs(cfg, hotwords, base, bases, arcs, names, g, gnames, c.state);
    NothingPending(cfg, base);
  }

  /** A hotword that is begun and not finished leaves a start tag behind, and no end tag. */
  lemma {:induction false} DroppedLeavesTag()
    ensures Read([[1, 2]], [1, 3]) == Match([], [], [0], 1)
  {
    var hotwords: seq<Hotword> := [[1, 2]];
    assert Init([1, 3]) == [1] && Init([1]) == [];
    assert [1] < hotwords[0] && [] + [1] == [1];
    assert Read(hotwords, [1]) == Match([1], [], [0], 0);
    assert [1] + [3] == [1, 3] && forall c :: 0 <= c < |hotwords| ==> !([1, 3] < hotwords[c]);
  }
}
