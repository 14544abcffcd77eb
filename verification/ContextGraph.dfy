/** The hotword context graph as the decoder walks it (context_graph.cpp), and the context score,
    state and tag positions a decoder hypothesis carries (ctc-prefix-decoder.h). */
module ContextGraph {
  import opened Sequences
  import opened CtcPaths

  /** Label 0 is the escape arc that clears the score of an unfinished hotword. */
  datatype Arc = Arc(ilabel: nat, weight: real, next: nat)

  /** State 0 is the start state. */
  datatype Graph = Graph(arcs: seq<seq<Arc>>, finals: set<nat>)

  ghost predicate WellFormed(g: Graph) {
    |g.arcs| > 0 && forall q, i :: 0 <= q < |g.arcs| && 0 <= i < |g.arcs[q]| ==> g.arcs[q][i].next < |g.arcs|
  }

  datatype Hop = Hop(next: nat, score: real, isStart: bool, isEnd: bool)

  /** The first arc with the given label, or the number of arcs. */
  function FirstMatch(arcs: seq<Arc>, word: nat): (i: nat)
    ensures i <= |arcs|
    ensures i < |arcs| ==> arcs[i].ilabel == word
    ensures forall j :: 0 <= j < i ==> arcs[j].ilabel != word
  {
    if arcs == [] then 0 else if arcs[0].ilabel == word then 0 else 1 + FirstMatch(arcs[1..], word)
  }

  function EscapeScore(arcs: seq<Arc>): real {
    if arcs == [] then 0.0 else if Last(arcs).ilabel == 0 then Last(arcs).weight else EscapeScore(Init(arcs))
  }

  /** Where a word leads: along its arc, or back to the start with the escape arc's score. */
  function NextHop(g: Graph, state: nat, word: nat): Hop
    requires state < |g.arcs|
  {
    var arcs := g.arcs[state];
    var i := FirstMatch(arcs, word);
    if word != 0 && i < |arcs| then Hop(arcs[i].next, arcs[i].weight, state == 0, arcs[i].next in g.finals)
    else Hop(0, EscapeScore(arcs), false, false)
  }

  method GetNextState(g: Graph, state: nat, word: nat) returns (next: nat, score: real, isStart: bool, isEnd: bool)
    requires state < |g.arcs|
    ensures Hop(next, score, isStart, isEnd) == NextHop(g, state, word)
  {
    next, score, isStart, isEnd := 0, 0.0, false, false;
    var arcs := g.arcs[state];
    ghost var found := FirstMatch(arcs, word);
    var i := 0;
    while i < |arcs|
      invariant 0 <= i <= |arcs| && (word != 0 ==> i <= found)
      invariant next == 0 && !isStart && !isEnd && score == EscapeScore(arcs[..i])
    {
      var arc := arcs[i];
      assert Init(arcs[..i + 1]) == arcs[..i] && Last(arcs[..i + 1]) == arc;
      if arc.ilabel == 0 {
        score := arc.weight;
      } else if arc.ilabel == word {
        next, score := arc.next, arc.weight;
        isStart := state == 0;
        isEnd := arc.next in g.finals;
        return;
      }
      i := i + 1;
    }
    assert arcs[..i] == arcs;
  }

  // ---------- the context a hypothesis carries ----------

  datatype Context = Context(state: nat, score: real, starts: seq<nat>, ends: seq<nat>)

  const NO_CONTEXT := Context(0, 0.0, [], [])

  /** `UpdateContext`: one more word, at position `at` of the hypothesis. */
  function Advance(g: Graph, c: Context, word: nat, at: nat): Context
    requires c.state < |g.arcs|
  {
    var hop := NextHop(g, c.state, word);
    Context(hop.next, c.score + hop.score,
            if hop.isStart then c.starts + [at] else c.starts,
            if hop.isEnd then c.ends + [at] else c.ends)
  }

  /** The context of a prefix, token by token from the start state. */
  ghost function Fold(g: Graph, prefix: Path): (c: Context)
    requires WellFormed(g)
    ensures c.state < |g.arcs|
  {
    if prefix == [] then NO_CONTEXT else Advance(g, Fold(g, Init(prefix)), Last(prefix), |prefix| - 1)
  }

  /** Tag positions are increasing positions of the hypothesis. */
  ghost predicate Positions(ps: seq<nat>, n: nat) {
    (forall i :: 0 <= i < |ps| ==> ps[i] < n) && forall i, j :: 0 <= i < j < |ps| ==> ps[i] < ps[j]
  }

  ghost predicate Usable(g: Graph, c: Context, prefix: Path) {
    c.state < |g.arcs| && Positions(c.starts, |prefix|) && Positions(c.ends, |prefix|)
  }

  lemma {:induction false} AdvanceUsable(g: Graph, c: Context, prefix: Path, word: nat)
    requires WellFormed(g) && Usable(g, c, prefix)
    ensures Usable(g, Advance(g, c, word, |prefix|), prefix + [word])
  {
    hide NextHop, Positions;
    NextInGraph(g, c.state, word);
    MorePositions(c.starts, |prefix|);
    MorePositions(c.ends, |prefix|);
  }

  lemma NextInGraph(g: Graph, state: nat, word: nat)
    requires WellFormed(g) && state < |g.arcs|
    ensures NextHop(g, state, word).next < |g.arcs|
  {
  }

  lemma MorePositions(ps: seq<nat>, n: nat)
    requires Positions(ps, n)
    ensures Positions(ps, n + 1) && Positions(ps + [n], n + 1)
  {
  }

  lemma {:induction false} FoldUsable(g: Graph, prefix: Path)
    requires WellFormed(g)
    ensures Usable(g, Fold(g, prefix), prefix)
  {
    hide Advance, Positions;
    if prefix == [] {
      NoPositions();
    } else {
      FoldUsable(g, Init(prefix));
      AdvanceUsable(g, Fold(g, Init(prefix)), Init(prefix), Last(prefix));
      UnSnoc(prefix);
    }
  }

  lemma NoPositions()
    ensures Positions([], 0)
  {
  }

  /** Escaping with the reserved word 0 returns to the start state and leaves the tags alone. */
  lemma EscapeHop(g: Graph, c: Context, at: nat)
    requires c.state < |g.arcs|
    ensures Advance(g, c, 0, at) == c.(state := 0, score := c.score + EscapeScore(g.arcs[c.state]))
  {
  }
}
