/** What hotwords score, counted in characters (context_graph.cpp:71-88). */
module HotwordScores {
  import opened Arithmetic
  import opened Sequences
  import opened CtcPaths
  import opened ContextGraph
  import opened HotwordGraph
  import opened HotwordMerge
  import opened HotwordMatch

  /** The characters of some words. */
  function Chars(cfg: Config, u: Hotword): nat {
    if u == [] then 0 else Chars(cfg, Init(u)) + cfg.length(Last(u))
  }

  /** The characters, each counted as often as there are words before its own. */
  function Places(cfg: Config, u: Hotword): nat {
    if u == [] then 0 else Places(cfg, Init(u)) + (|u| - 1) * cfg.length(Last(u))
  }

  lemma {:induction false} PendingIs(cfg: Config, base: real, u: Hotword)
    ensures Pending(cfg, base, u) == base * Chars(cfg, u) as real + cfg.increment * Places(cfg, u) as real
  {
    if u == [] {
      Nothing(base);
      Nothing(cfg.increment);
    } else {
      PendingIs(cfg, base, Init(u));
      var (i, l) := (|u| - 1, cfg.length(Last(u)));
      Gather(base, cfg.increment, Chars(cfg, Init(u)), Places(cfg, Init(u)), i, l);
    }
  }

  lemma Nothing(x: real)
    ensures x * 0 as real == 0.0
  {
  }

  lemma Gather(base: real, inc: real, c: nat, p: nat, i: nat, l: nat)
    ensures base * c as real + inc * p as real + (i as real * inc + base) * l as real ==
              base * (c + l) as real + inc * (p + i * l) as real
  {
    MulReal(i, l);
    MulSum(i as real * inc, base, l as real);
    Assoc(inc, i as real, l as real);
    assert i as real * inc == inc * i as real;
    Expand(base, c as real, l as real);
    Expand(inc, p as real, i as real * l as real);
  }

  lemma Expand(x: real, a: real, b: real)
    ensures x * (a + b) == x * a + x * b
  {
  }

  // ---------- the score of a reading ----------

  /** A quantity of words, summed over the spans. */
  function CharsIn(cfg: Config, words: Path, closed: seq<(nat, nat)>): nat {
    if closed == [] then 0
    else
      var span := Last(closed);
      CharsIn(cfg, words, Init(closed)) + if span.0 <= span.1 <= |words| then Chars(cfg, words[span.0..span.1]) else 0
  }

  function PlacesIn(cfg: Config, words: Path, closed: seq<(nat, nat)>): nat {
    if closed == [] then 0
    else
      var span := Last(closed);
      PlacesIn(cfg, words, Init(closed)) + if span.0 <= span.1 <= |words| then Places(cfg, words[span.0..span.1]) else 0
  }

  lemma {:induction false} ClosedScoreIs(cfg: Config, base: real, words: Path, closed: seq<(nat, nat)>)
    ensures ClosedScore(cfg, base, words, closed) ==
              base * CharsIn(cfg, words, closed) as real + cfg.increment * PlacesIn(cfg, words, closed) as real
  {
    hide Pending, Chars, Places;
    if closed == [] {
      Nothing(base);
      Nothing(cfg.increment);
    } else {
      var (span, before) := (Last(closed), Init(closed));
      ClosedScoreIs(cfg, base, words, before);
      var u := if span.0 <= span.1 <= |words| then words[span.0..span.1] else [];
      PendingIs(cfg, base, u);
      NoWordsNoChars(cfg);
      NothingPending(cfg, base);
      Expand(base, CharsIn(cfg, words, before) as real, Chars(cfg, u) as real);
      Expand(cfg.increment, PlacesIn(cfg, words, before) as real, Places(cfg, u) as real);
    }
  }

  lemma NoWordsNoChars(cfg: Config)
    ensures Chars(cfg, []) == Places(cfg, []) == 0
  {
  }

  /** The context score of a hypothesis after the final update: the score of the hotwords for each character of the
      completed ones, and the increment for each character and each word before it.  Without an increment, as by
      default, it is the score times the characters of the completed hotwords. */
  lemma {:induction false} FlushedScoreIs(cfg: Config, hotwords: seq<Hotword>, base: real, bases: seq<real>,
                                          arcs: seq<seq<Arc>>, names: seq<Hotword>, g: Graph, gnames: seq<Hotword>,
                                          words: Path)
    requires Setting(cfg, hotwords, base, bases, arcs, names, g, gnames) && WellFormed(g)
    requires forall i :: 0 <= i < |words| ==> words[i] != 0
    ensures var c, closed := Fold(g, words), Read(hotwords, words).closed;
            var flushed := if c.state != 0 then Advance(g, c, 0, |words|) else c;
            && SpansOk(hotwords, words, closed)
            && flushed.score ==
                 base * CharsIn(cfg, words, closed) as real + cfg.increment * PlacesIn(cfg, words, closed) as real
            && (cfg.increment == 0.0 ==> flushed.score == base * CharsIn(cfg, words, closed) as real)
  {
    hide Setting, WellFormed, Fold, Advance, CharsIn, PlacesIn, ClosedScore, SpansOk, Tagged, Read;
    OnlyCompletedCount(cfg, hotwords, base, bases, arcs, names, g, gnames, words);
    var closed := Read(hotwords, words).closed;
    ClosedScoreIs(cfg, base, words, closed);
    if cfg.increment == 0.0 { NoIncrement(PlacesIn(cfg, words, closed) as real); }
  }

  lemma NoIncrement(x: real)
    ensures 0.0 * x == 0.0
  {
  }

  // ---------- the arcs of one hotword ----------

  function Weights(route: seq<Arc>): real {
    if route == [] then 0.0 else Weights(Init(route)) + Last(route).weight
  }

  /** The arc of word `j` leaves a state named by the words before it, and leads to the one named by one word more, or,
      from the last word, back to the start. */
  ghost predicate OnRoute(arcs: seq<seq<Arc>>, names: seq<Hotword>, words: Hotword, j: nat, a: Arc)
    requires |arcs| == |names| && j < |words|
  {
    && a.ilabel == words[j] && a.next < |names|
    && (exists q :: 0 <= q < |arcs| && names[q] == words[..j] && a in arcs[q])
    && if j + 1 == |words| then a.next == 0 else names[a.next] == words[..j + 1]
  }

  /** These arcs spell the first words of a hotword. */
  ghost predicate Route(arcs: seq<seq<Arc>>, names: seq<Hotword>, words: Hotword, route: seq<Arc>)
    requires |arcs| == |names|
  {
    |route| <= |words| && forall j :: 0 <= j < |route| ==> OnRoute(arcs, names, words, j, route[j])
  }

  /** The arc of word `j`, with the score of its own hotword. */
  lemma {:induction false} ArcOnRoute(cfg: Config, hotwords: seq<Hotword>, bases: seq<real>, arcs: seq<seq<Arc>>,
                                      names: seq<Hotword>, c: nat, j: nat) returns (a: Arc)
    requires |hotwords| == |bases| && ChainsOk(cfg, hotwords, bases, arcs, names) && c < |hotwords|
    requires j < |hotwords[c]|
    ensures OnRoute(arcs, names, hotwords[c], j, a) && a.weight == WordScore(cfg, bases[c], j, hotwords[c][j])
  {
    hide ArcOk, WordScore, Pending;
    assert Spelled(cfg, bases[c], arcs, names, hotwords[c], j);
    var q: nat, i: nat :| SpellsWord(cfg, bases[c], arcs, names, hotwords[c], j, q, i);
    a := arcs[q][i];
    assert a in arcs[q];
  }

  lemma {:induction false} RouteTo(cfg: Config, hotwords: seq<Hotword>, bases: seq<real>, arcs: seq<seq<Arc>>,
                                   names: seq<Hotword>, c: nat, n: nat) returns (route: seq<Arc>)
    requires |hotwords| == |bases| && ChainsOk(cfg, hotwords, bases, arcs, names) && c < |hotwords|
    requires n <= |hotwords[c]|
    ensures |route| == n && Route(arcs, names, hotwords[c], route)
    ensures Weights(route) == Pending(cfg, bases[c], hotwords[c][..n])
  {
    hide ChainsOk, WordScore, OnRoute;
    var words := hotwords[c];
    if n == 0 {
      route := [];
    } else {
      var before := RouteTo(cfg, hotwords, bases, arcs, names, c, n - 1);
      var a := ArcOnRoute(cfg, hotwords, bases, arcs, names, c, n - 1);
      route := before + [a];
      Snoc(before, a);
      Snoc(words[..n - 1], words[n - 1]);
      assert words[..n] == words[..n - 1] + [words[n - 1]];
    }
  }

  /** The arcs of hotword `c` weigh its score for each of its characters, and the increment for each character and each
      word before it. */
  lemma {:induction false} HotwordWeighs(cfg: Config, hotwords: seq<Hotword>, bases: seq<real>, arcs: seq<seq<Arc>>,
                                         names: seq<Hotword>, c: nat) returns (route: seq<Arc>)
    requires |hotwords| == |bases| && ChainsOk(cfg, hotwords, bases, arcs, names) && c < |hotwords|
    ensures |route| == |hotwords[c]| && Route(arcs, names, hotwords[c], route)
    ensures Weights(route) ==
              bases[c] * Chars(cfg, hotwords[c]) as real + cfg.increment * Places(cfg, hotwords[c]) as real
  {
    hide ChainsOk, Route, Chars, Places;
    var words := hotwords[c];
    route := RouteTo(cfg, hotwords, bases, arcs, names, c, |words|);
    assert words[..|words|] == words;
    PendingIs(cfg, bases[c], words);
  }

  /** Words of one character each. */
  ghost predicate Single(cfg: Config, u: Hotword) {
    forall i :: 0 <= i < |u| ==> cfg.length(u[i]) == 1
  }

  lemma {:induction false} SingleChars(cfg: Config, u: Hotword)
    requires Single(cfg, u)
    ensures Chars(cfg, u) == |u| && 2 * Places(cfg, u) == |u| * (|u| - 1)
  {
    if u != [] {
      var n := |u| - 1;
      SingleChars(cfg, Init(u));
      assert cfg.length(u[n]) == 1 && u[n] == Last(u);
      assert (n + 1) * n == n * (n - 1) + 2 * n;
    }
  }

  /** A hotword of `n` one-character words weighs `n` times its score, plus the increment `n (n - 1) / 2` times. */
  lemma {:induction false} SingleCharactersWeigh(cfg: Config, hotwords: seq<Hotword>, bases: seq<real>,
                                                 arcs: seq<seq<Arc>>, names: seq<Hotword>, c: nat)
    returns (route: seq<Arc>)
    requires |hotwords| == |bases| && ChainsOk(cfg, hotwords, bases, arcs, names) && c < |hotwords|
    requires Single(cfg, hotwords[c])
    ensures |route| == |hotwords[c]| && Route(arcs, names, hotwords[c], route)
    ensures var n := |hotwords[c]|;
            Weights(route) == n as real * bases[c] + cfg.increment * (n * (n - 1) / 2) as real
  {
    hide ChainsOk, Route, Chars, Places, Single;
    var n := |hotwords[c]|;
    route := HotwordWeighs(cfg, hotwords, bases, arcs, names, c);
    SingleChars(cfg, hotwords[c]);
    assert n * (n - 1) / 2 == Places(cfg, hotwords[c]);
    Swap(bases[c], n as real);
  }

  lemma Swap(a: real, b: real)
    ensures a * b == b * a
  {
  }
}
