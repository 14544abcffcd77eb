/** The hotword graph as it is built (context_graph.cpp): one chain of arcs a hotword, with escape arcs that
    take back the score of an unfinished hotword, and then determinized.  The theorem: with equally scored
    hotwords none of which begins another, a flushed context score counts completed hotwords only. */
module HotwordGraph {
  import opened Sequences
  import opened ContextGraph

  type Hotword = seq<nat>

  datatype Config = Config(increment: real, length: nat -> nat)

  /** The score of the word at position `i` of a hotword scored `base`. */
  function WordScore(cfg: Config, base: real, i: nat, word: nat): real {
    (i as real * cfg.increment + base) * cfg.length(word) as real
  }

  /** What the words so far have scored; the program's `escape_score`. */
  function Pending(cfg: Config, base: real, u: Hotword): real {
    if u == [] then 0.0 else Pending(cfg, base, Init(u)) + WordScore(cfg, base, |u| - 1, Last(u))
  }

  // ---------- the chains ----------

  /** Arc `a` leaves a state named `name`: it is the word arc or the escape arc of hotword `c` at position `j`. */
  ghost predicate ArcOf(cfg: Config, words: Hotword, base: real, names: seq<Hotword>, name: Hotword, a: Arc, j: nat) {
    && j < |words| && name == words[..j] && a.next < |names|
    && if a.ilabel == 0 then j > 0 && a.next == 0 && a.weight == -Pending(cfg, base, name)
       else && a.ilabel == words[j] && a.weight == WordScore(cfg, base, j, words[j])
            && (a.next == 0 <==> j + 1 == |words|)
            && (a.next != 0 ==> names[a.next] == words[..j + 1])
  }

  ghost predicate ArcOk(cfg: Config, hotwords: seq<Hotword>, bases: seq<real>, names: seq<Hotword>, name: Hotword,
                        a: Arc)
    requires |hotwords| == |bases|
  {
    exists c, j :: 0 <= c < |hotwords| && ArcOf(cfg, hotwords[c], bases[c], names, name, a, j)
  }

  predicate HasArc(arcs: seq<Arc>, ilabel: nat) {
    exists i :: 0 <= i < |arcs| && arcs[i].ilabel == ilabel
  }

  /** Arc `i` of state `q` is the one of hotword `words` for its word `j`. */
  ghost predicate SpellsWord(cfg: Config, base: real, arcs: seq<seq<Arc>>, names: seq<Hotword>, words: Hotword, j: nat,
                             q: nat, i: nat)
    requires |arcs| == |names| && j < |words|
  {
    && q < |arcs| && i < |arcs[q]| && names[q] == words[..j] && (j > 0 ==> HasArc(arcs[q], 0))
    && arcs[q][i].ilabel == words[j] != 0 && ArcOf(cfg, words, base, names, names[q], arcs[q][i], j)
  }

  /** A state named by the first `j` words has the arc of the next word with the score of its hotword, and an escape
      arc unless it is the start. */
  ghost predicate Spelled(cfg: Config, base: real, arcs: seq<seq<Arc>>, names: seq<Hotword>, words: Hotword, j: nat)
    requires |arcs| == |names| && j < |words|
  {
    exists q, i :: SpellsWord(cfg, base, arcs, names, words, j, q, i)
  }

  ghost predicate ChainsOk(cfg: Config, hotwords: seq<Hotword>, bases: seq<real>, arcs: seq<seq<Arc>>,
                           names: seq<Hotword>)
    requires |hotwords| == |bases|
  {
    && |arcs| == |names| > 0 && names[0] == []
    && (forall q :: 0 < q < |names| ==> names[q] != [])
    && (forall q, i :: 0 <= q < |arcs| && 0 <= i < |arcs[q]| ==>
        ArcOk(cfg, hotwords, bases, names, names[q], arcs[q][i]))
    && forall c, j :: 0 <= c < |hotwords| && 0 <= j < |hotwords[c]| ==>
       Spelled(cfg, bases[c], arcs, names, hotwords[c], j)
  }

  /** `arcs` with one more arc out of state `q`. */
  function AddArc(arcs: seq<seq<Arc>>, q: nat, a: Arc): seq<seq<Arc>>
    requires q < |arcs|
  {
    arcs[q := arcs[q] + [a]]
  }

  /** The part of `ChainsOk` that holds in the middle of a hotword: of the last one, `n` words are spelled. */
  ghost predicate Building(cfg: Config, hotwords: seq<Hotword>, bases: seq<real>, arcs: seq<seq<Arc>>,
                           names: seq<Hotword>, n: nat)
    requires |hotwords| == |bases| > 0 && n <= |Last(hotwords)|
  {
    && |arcs| == |names| > 0 && names[0] == []
    && (forall q :: 0 < q < |names| ==> names[q] != [])
    && (forall q, i :: 0 <= q < |arcs| && 0 <= i < |arcs[q]| ==>
        ArcOk(cfg, hotwords, bases, names, names[q], arcs[q][i]))
    && forall c, j :: 0 <= c < |hotwords| && 0 <= j < (if c == |hotwords| - 1 then n else |hotwords[c]|) ==>
       Spelled(cfg, bases[c], arcs, names, hotwords[c], j)
  }

  lemma {:induction false} StartHotword(cfg: Config, hotwords: seq<Hotword>, bases: seq<real>, arcs: seq<seq<Arc>>,
                                        names: seq<Hotword>, words: Hotword, base: real)
    requires |hotwords| == |bases| && ChainsOk(cfg, hotwords, bases, arcs, names)
    ensures Building(cfg, hotwords + [words], bases + [base], arcs, names, 0)
  {
    hide ArcOf, Spelled;
    var hotwords', bases' := hotwords + [words], bases + [base];
    Snoc(hotwords, words);
    forall q, i | 0 <= q < |arcs| && 0 <= i < |arcs[q]|
      ensures ArcOk(cfg, hotwords', bases', names, names[q], arcs[q][i])
    {
      var c, j :| 0 <= c < |hotwords| && ArcOf(cfg, hotwords[c], bases[c], names, names[q], arcs[q][i], j);
      assert ArcOf(cfg, hotwords'[c], bases'[c], names, names[q], arcs[q][i], j);
    }
    forall c, j | 0 <= c < |hotwords'| && 0 <= j < (if c == |hotwords'| - 1 then 0 else |hotwords'[c]|)
      ensures Spelled(cfg, bases'[c], arcs, names, hotwords'[c], j)
    {
      assert Spelled(cfg, bases[c], arcs, names, hotwords[c], j);
    }
  }

  /** One word: its arc, a new state unless it is the last word, and the escape arc. */
  lemma {:induction false} AddWord(cfg: Config, hotwords: seq<Hotword>, bases: seq<real>, arcs: seq<seq<Arc>>,
                                   names: seq<Hotword>, n: nat, prev: nat, arcs': seq<seq<Arc>>, names': seq<Hotword>,
                                   a: Arc)
    requires |hotwords| == |bases| > 0 && n < |Last(hotwords)| && Building(cfg, hotwords, bases, arcs, names, n)
    requires prev < |names| && names[prev] == Last(hotwords)[..n]
    requires a.ilabel == Last(hotwords)[n] && a.ilabel != 0 && a.weight == WordScore(cfg, Last(bases), n, a.ilabel)
    requires if n + 1 < |Last(hotwords)| then names' == names + [Last(hotwords)[..n + 1]] && a.next == |names|
             else names' == names && a.next == 0
    requires |arcs'| == |names'|
    requires forall q :: 0 <= q < |arcs| && q != prev ==> arcs'[q] == arcs[q]
    requires forall q :: |arcs| <= q < |arcs'| ==> arcs'[q] == []
    requires arcs'[prev] == arcs[prev] + [a] + if n > 0
             then [Arc(0, -Pending(cfg, Last(bases), Last(hotwords)[..n]), 0)] else []
    ensures Building(cfg, hotwords, bases, arcs', names', n + 1)
  {
    hide WordScore, Pending;
    var words, base, c := Last(hotwords), Last(bases), |hotwords| - 1;
    var escape := Arc(0, -Pending(cfg, base, words[..n]), 0);
    forall q, i | 0 <= q < |arcs'| && 0 <= i < |arcs'[q]|
      ensures ArcOk(cfg, hotwords, bases, names', names'[q], arcs'[q][i])
    {
      if q < |arcs| && i < |arcs[q]| {
        assert arcs'[q][i] == arcs[q][i];
        OldArc(cfg, hotwords, bases, names, names', names[q], arcs[q][i]);
      } else {
        assert q == prev;
        assert ArcOf(cfg, words, base, names', names'[prev], a, n);
        if n > 0 { assert ArcOf(cfg, words, base, names', names'[prev], escape, n); }
        assert hotwords[c] == words && bases[c] == base;
      }
    }
    forall d, j | 0 <= d < |hotwords| && 0 <= j < (if d == c then n + 1 else |hotwords[d]|)
      ensures Spelled(cfg, bases[d], arcs', names', hotwords[d], j)
    {
      if d == c && j == n {
        var out := arcs'[prev];
        assert out[|arcs[prev]|] == a;
        if n > 0 { assert out[|arcs[prev]| + 1] == escape; }
        assert n > 0 ==> HasArc(out, 0);
        assert names'[prev] == words[..n];
        assert SpellsWord(cfg, base, arcs', names', words, n, prev, |arcs[prev]|);
      } else {
        OldSpelled(cfg, bases[d], arcs, names, arcs', names', hotwords[d], j);
      }
    }
  }

  lemma {:induction false} OldArc(cfg: Config, hotwords: seq<Hotword>, bases: seq<real>, names: seq<Hotword>,
                                  names': seq<Hotword>, name: Hotword, a: Arc)
    requires |hotwords| == |bases| && names <= names' && ArcOk(cfg, hotwords, bases, names, name, a)
    ensures ArcOk(cfg, hotwords, bases, names', name, a)
  {
    hide WordScore, Pending;
    var c, j :| 0 <= c < |hotwords| && ArcOf(cfg, hotwords[c], bases[c], names, name, a, j);
    assert ArcOf(cfg, hotwords[c], bases[c], names', name, a, j);
  }

  lemma {:induction false} OldSpelled(cfg: Config, base: real, arcs: seq<seq<Arc>>, names: seq<Hotword>,
                                      arcs': seq<seq<Arc>>, names': seq<Hotword>, words: Hotword, j: nat)
    requires |arcs| == |names| && |arcs'| == |names'| && names <= names' && j < |words|
    requires forall q :: 0 <= q < |arcs| ==> arcs[q] <= arcs'[q]
    requires Spelled(cfg, base, arcs, names, words, j)
    ensures Spelled(cfg, base, arcs', names', words, j)
  {
    hide WordScore, Pending;
    var q: nat, i: nat :| SpellsWord(cfg, base, arcs, names, words, j, q, i);
    if j > 0 { MoreArcs(arcs[q], arcs'[q], 0); }
    assert SpellsWord(cfg, base, arcs', names', words, j, q, i);
  }

  lemma {:induction false} MoreArcs(arcs: seq<Arc>, arcs': seq<Arc>, ilabel: nat)
    requires arcs <= arcs' && HasArc(arcs, ilabel)
    ensures HasArc(arcs', ilabel)
  {
    var i :| 0 <= i < |arcs| && arcs[i].ilabel == ilabel;
    assert arcs'[i].ilabel == ilabel;
  }

  // ---------- which hotwords are taken, and with which score ----------

  /** A hotword as it is given: the size of its text, and its words if the vocabulary has them all. */
  datatype Query = Query(size: nat, words: Option<Hotword>)

  datatype Option<T> = None | Some(value: T)

  datatype Limits = Limits(maxContexts: nat, maxContextLength: nat)

  /** How many of the queries are not skipped as too long: the program's `count`, up to its limit. */
  function Counted(limits: Limits, queries: seq<Query>): (n: nat)
    ensures n <= |queries|
  {
    if queries == [] then 0
    else Counted(limits, Init(queries)) + if Last(queries).size > limits.maxContextLength then 0 else 1
  }

  /** The position at which query `k` looks up its score. */
  function ScoreIndex(limits: Limits, queries: seq<Query>, k: nat): (i: nat)
    requires k < |queries|
    ensures i <= k
  {
    Counted(limits, queries[..k])
  }

  predicate IsTaken(limits: Limits, queries: seq<Query>, k: nat)
    requires k < |queries|
  {
    && queries[k].size <= limits.maxContextLength && queries[k].words.Some?
    && ScoreIndex(limits, queries, k) < limits.maxContexts
  }

  /** The positions of the queries taken, among the first `n`. */
  function Taken(limits: Limits, queries: seq<Query>, n: nat): (r: seq<nat>)
    requires n <= |queries|
    ensures forall i :: 0 <= i < |r| ==> r[i] < n && IsTaken(limits, queries, r[i])
    ensures forall k: nat :: k < n && IsTaken(limits, queries, k) ==> k in r
  {
    if n == 0 then []
    else
      var r := Taken(limits, queries, n - 1);
      if IsTaken(limits, queries, n - 1) then
        assert (r + [n - 1])[|r|] == n - 1;
        r + [n - 1]
      else r
  }

  function WordsTaken(limits: Limits, queries: seq<Query>, n: nat): (r: seq<Hotword>)
    requires n <= |queries|
  {
    var taken := Taken(limits, queries, n);
    seq(|taken|, i requires 0 <= i < |taken| => queries[taken[i]].words.value)
  }

  function ScoresTaken(limits: Limits, queries: seq<Query>, scores: seq<real>, n: nat): (r: seq<real>)
    requires n <= |queries| == |scores|
  {
    var taken := Taken(limits, queries, n);
    seq(|taken|, i requires 0 <= i < |taken| => scores[ScoreIndex(limits, queries, taken[i])])
  }

  lemma {:induction false} CountedAll(limits: Limits, queries: seq<Query>)
    ensures Counted(limits, queries) == |queries| <==>
              forall k :: 0 <= k < |queries| ==> queries[k].size <= limits.maxContextLength
  {
    if queries != [] {
      CountedAll(limits, Init(queries));
      assert forall k :: 0 <= k < |queries| - 1 ==> Init(queries)[k] == queries[k];
      assert Last(queries) == queries[|queries| - 1];
    }
  }

  /** A hotword gets its own score exactly when no hotword before it is skipped as too long. */
  lemma {:induction false} OwnScore(limits: Limits, queries: seq<Query>, k: nat)
    requires k < |queries|
    ensures ScoreIndex(limits, queries, k) == k <==>
              forall i :: 0 <= i < k ==> queries[i].size <= limits.maxContextLength
  {
    CountedAll(limits, queries[..k]);
    assert forall i :: 0 <= i < k ==> queries[..k][i] == queries[i];
  }

  /** Behind a hotword that is too long, a hotword gets the score of that one. */
  lemma {:induction false} SkippedShiftsScores(limits: Limits, words: Hotword, long: Query, size: nat)
    requires long.size > limits.maxContextLength >= size && limits.maxContexts > 0
    ensures var queries := [long, Query(size, Some(words))];
            WordsTaken(limits, queries, 2) == [words] && ScoresTaken(limits, queries, [50.0, 20.0], 2) == [50.0]
  {
    var queries := [long, Query(size, Some(words))];
    assert queries[..1] == [long] && Init([long]) == [] && Last([long]) == long;
    assert queries[..0] == [];
    assert ScoreIndex(limits, queries, 1) == 0;
    assert Taken(limits, queries, 1) == Taken(limits, queries, 0) == [];
    assert Taken(limits, queries, 2) == [1];
  }

  /** One query more. */
  lemma {:induction false} TakenNext(limits: Limits, queries: seq<Query>, scores: seq<real>, n: nat)
    requires n < |queries| == |scores|
    ensures Counted(limits, queries[..n + 1]) ==
              ScoreIndex(limits, queries, n) + if queries[n].size > limits.maxContextLength then 0 else 1
    ensures WordsTaken(limits, queries, n + 1) ==
              WordsTaken(limits, queries, n) + if IsTaken(limits, queries, n) then [queries[n].words.value] else []
    ensures ScoresTaken(limits, queries, scores, n + 1) ==
              ScoresTaken(limits, queries, scores, n) +
              if IsTaken(limits, queries, n) then [scores[ScoreIndex(limits, queries, n)]] else []
  {
    hide Counted;
    CountedNext(limits, queries, n);
  }

  lemma CountedNext(limits: Limits, queries: seq<Query>, n: nat)
    requires n < |queries|
    ensures Counted(limits, queries[..n + 1]) ==
              Counted(limits, queries[..n]) + if queries[n].size > limits.maxContextLength then 0 else 1
  {
    assert Init(queries[..n + 1]) == queries[..n];
  }

  /** Behind the limit nothing is taken. */
  lemma {:induction false} NoneTaken(limits: Limits, queries: seq<Query>, scores: seq<real>, n: nat)
    requires n < |queries| == |scores| && ScoreIndex(limits, queries, n) >= limits.maxContexts
    ensures WordsTaken(limits, queries, |queries|) == WordsTaken(limits, queries, n)
    ensures ScoresTaken(limits, queries, scores, |queries|) == ScoresTaken(limits, queries, scores, n)
    decreases |queries| - n
  {
    hide Counted, Taken, WordsTaken, ScoresTaken;
    TakenNext(limits, queries, scores, n);
    if n + 1 < |queries| { NoneTaken(limits, queries, scores, n + 1); }
  }

  /** `BuildContextGraph`, before determinization; `names` spells each state.  Without queries there is no graph. */
  method BuildContextGraph(cfg: Config, limits: Limits, queries: seq<Query>, scores: seq<real>)
    returns (built: bool, arcs: seq<seq<Arc>>, ghost names: seq<Hotword>)
    requires |queries| == |scores|
    requires forall k, i :: 0 <= k < |queries| && queries[k].words.Some? && 0 <= i < |queries[k].words.value| ==>
               queries[k].words.value[i] != 0
    ensures built <==> queries != []
    ensures var (hotwords, bases) :=
              (WordsTaken(limits, queries, |queries|), ScoresTaken(limits, queries, scores, |queries|));
            |hotwords| == |bases| && (built ==> ChainsOk(cfg, hotwords, bases, arcs, names))
  {
    hide ChainsOk, Taken, Counted, Building;
    built, arcs, names := queries != [], [[]], [[]];
    if !built { return; }
    ghost var hotwords, bases := WordsTaken(limits, queries, 0), ScoresTaken(limits, queries, scores, 0);
    NoChains(cfg, limits, queries, scores);
    var count, k := 0, 0;
    while k < |queries|
      invariant 0 <= k <= |queries| && count == Counted(limits, queries[..k]) && count <= limits.maxContexts
      invariant hotwords == WordsTaken(limits, queries, k) && bases == ScoresTaken(limits, queries, scores, k)
      invariant |hotwords| == |bases| && ChainsOk(cfg, hotwords, bases, arcs, names)
    {
      TakenNext(limits, queries, scores, k);
      var context := queries[k];
      if context.size <= limits.maxContextLength {
        var score := scores[count];
        count := count + 1;
        if count > limits.maxContexts {
          NoneTaken(limits, queries, scores, k);
          break;
        }
        if context.words.Some? {
          StartHotword(cfg, hotwords, bases, arcs, names, context.words.value, score);
          Snoc(hotwords, context.words.value);
          hotwords, bases := hotwords + [context.words.value], bases + [score];
          arcs, names := BuildChain(cfg, hotwords, bases, context.words.value, score, arcs, names);
        }
      }
      k := k + 1;
    }
  }

  lemma NoChains(cfg: Config, limits: Limits, queries: seq<Query>, scores: seq<real>)
    requires |queries| == |scores|
    ensures WordsTaken(limits, queries, 0) == [] && ScoresTaken(limits, queries, scores, 0) == []
    ensures ChainsOk(cfg, [], [], [[]], [[]]) && Counted(limits, queries[..0]) == 0
  {
  }

  /** The chain of the last hotword. */
  method BuildChain(cfg: Config, ghost hotwords: seq<Hotword>, ghost bases: seq<real>, words: Hotword, base: real,
                    arcs0: seq<seq<Arc>>, ghost names0: seq<Hotword>)
    returns (arcs: seq<seq<Arc>>, ghost names: seq<Hotword>)
    requires |hotwords| == |bases| > 0 && Building(cfg, hotwords, bases, arcs0, names0, 0)
    requires words == Last(hotwords) && base == Last(bases) && forall i :: 0 <= i < |words| ==> words[i] != 0
    ensures ChainsOk(cfg, hotwords, bases, arcs, names)
  {
    hide WordScore, ArcOk, Spelled;
    arcs, names := arcs0, names0;
    var prev: nat := 0;
    var escapeScore, i := 0.0, 0;
    while i < |words|
      invariant 0 <= i <= |words| && Building(cfg, hotwords, bases, arcs, names, i)
      invariant i < |words| ==> prev < |names| && names[prev] == words[..i]
      invariant escapeScore == Pending(cfg, base, words[..i])
    {
      var score := WordScore(cfg, base, i, words[i]);
      ghost var arcs1, names1 := arcs, names;
      var next: nat := 0;
      if i + 1 < |words| {
        next := |arcs|;
        arcs, names := arcs + [[]], names + [words[..i + 1]];
      }
      var a := Arc(words[i], score, next);
      arcs := AddArc(arcs, prev, a);
      if i > 0 {
        arcs := AddArc(arcs, prev, Arc(0, -escapeScore, 0));
      }
      AddWord(cfg, hotwords, bases, arcs1, names1, i, prev, arcs, names, a);
      assert Init(words[..i + 1]) == words[..i] && Last(words[..i + 1]) == words[i];
      prev := next;
      escapeScore := escapeScore + score;
      i := i + 1;
    }
  }
}
