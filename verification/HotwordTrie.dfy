/** The hotword trie of the bias model (bias-lm.cpp:31-78): determinizing the prefix tree merges equal prefixes. */
module HotwordTrie {
  import opened Sequences
  import opened CtcPaths
  import opened ContextGraph
  import opened SuffixTrie

  /** `d` steps of the increment weight. */
  function Mul(inc: real, d: int): real {
    inc * d as real
  }

  lemma MulAdd(inc: real, a: int, b: int)
    ensures Mul(inc, a + b) == Mul(inc, a) + Mul(inc, b)
    ensures Mul(inc, a - b) == Mul(inc, a) - Mul(inc, b)
    ensures Mul(inc, 0) == 0.0 && Mul(inc, 1) == inc
  {
  }

  /** State `q` has exactly one arc for each label that leads on, with the increment as its weight. */
  ghost predicate ArcsOk(arcs: seq<seq<Arc>>, names: Names, inc: real) {
    && |arcs| == |names|
    && (forall q: nat, k: nat :: q < |arcs| && k < |arcs[q]| ==>
          ArcOk(names, inc, q, arcs[q][k]) && forall l: nat :: l < k ==> arcs[q][l].ilabel != arcs[q][k].ilabel)
    && forall p: nat :: 0 < p < |names| ==> Reached(arcs, names, p)
  }

  ghost predicate ArcOk(names: Names, inc: real, q: nat, a: Arc)
    requires q < |names|
  {
    a.ilabel > 0 && a.weight == inc && 0 < a.next < |names| && names[a.next] == names[q] + [a.ilabel]
  }

  /** The parent of state `p` has an arc to it. */
  ghost predicate Reached(arcs: seq<seq<Arc>>, names: Names, p: nat)
    requires p < |names| && |arcs| == |names|
  {
    exists q: nat, k: nat :: q < |arcs| && k < |arcs[q]| && arcs[q][k].next == p
  }

  // ---------- final weights ----------

  /** The least weight given to a hotword, if it is given one. */
  ghost predicate IsFinal(words: seq<Path>, name: Path) {
    name != [] && name in words
  }

  ghost function FinalWeight(words: seq<Path>, weights: seq<real>, name: Path): real
    requires |words| == |weights| && IsFinal(words, name)
    decreases |words|
  {
    IsFinalLast(words, name);
    var w := Last(weights);
    if Last(words) != name then FinalWeight(Init(words), Init(weights), name)
    else if IsFinal(Init(words), name) then Least(FinalWeight(Init(words), Init(weights), name), w)
    else w
  }

  function Least(a: real, b: real): real {
    if a < b then a else b
  }

  lemma {:induction false} IsFinalLast(words: seq<Path>, name: Path)
    requires words != []
    ensures IsFinal(words, name) <==> IsFinal(Init(words), name) || (name != [] && name == Last(words))
  {
    UnSnoc(words);
  }

  ghost predicate FinalsOk(finals: map<nat, real>, names: Names, words: seq<Path>, weights: seq<real>)
    requires |words| == |weights|
  {
    && (forall q :: q in finals ==> q < |names|)
    && forall q: nat :: q < |names| ==>
         && (q in finals <==> IsFinal(words, names[q]))
         && (q in finals ==> finals[q] == FinalWeight(words, weights, names[q]))
  }

  /** The weight is the least of those given to the hotword. */
  lemma {:induction false} FinalWeightIsLeast(words: seq<Path>, weights: seq<real>, name: Path)
    requires |words| == |weights| && IsFinal(words, name)
    ensures var w := FinalWeight(words, weights, name);
            && (forall i :: 0 <= i < |words| && words[i] == name ==> w <= weights[i])
            && exists i :: 0 <= i < |words| && words[i] == name && w == weights[i]
    decreases |words|
  {
    IsFinalLast(words, name);
    if IsFinal(Init(words), name) {
      FinalWeightIsLeast(Init(words), Init(weights), name);
      var i :| 0 <= i < |Init(words)| && Init(words)[i] == name
          && FinalWeight(Init(words), Init(weights), name) == Init(weights)[i];
      assert words[i] == name && weights[i] == Init(weights)[i];
    }
    forall j | 0 <= j < |words| && words[j] == name
      ensures FinalWeight(words, weights, name) <= weights[j]
    {
      assert j < |words| - 1 ==> Init(words)[j] == name && Init(weights)[j] == weights[j];
    }
    assert words[|words| - 1] == Last(words);
  }

  /** The states are the prefixes of the hotwords. */
  ghost predicate StatesOk(names: Names, words: seq<Path>) {
    && (forall i :: 0 <= i < |words| ==> words[i] in names)
    && forall q: nat :: 0 < q < |names| ==> exists i :: 0 <= i < |words| && names[q] <= words[i]
  }

  lemma {:induction false} AppendName(names: Names, q: nat, x: nat)
    requires PrefixClosed(names) && q < |names| && names[q] + [x] !in names
    ensures PrefixClosed(names + [names[q] + [x]])
  {
    var names' := names + [names[q] + [x]];
    Snoc(names[q], x);
    assert names'[q] == names[q];
    forall r | 0 < r < |names'|
      ensures names'[r] != [] && Init(names'[r]) in names'
    {
      assert r < |names| ==> names'[r] == names[r] && Init(names[r]) in names;
    }
  }

  lemma {:induction false} AppendState(arcs: seq<seq<Arc>>, names: Names, inc: real, q: nat, x: nat)
    requires PrefixClosed(names) && ArcsOk(arcs, names, inc) && q < |names| && x > 0
    requires names[q] + [x] !in names
    ensures |arcs| == |names|
    ensures ArcsOk(arcs[q := arcs[q] + [Arc(x, inc, |names|)]] + [[]], names + [names[q] + [x]], inc)
  {
    hide PrefixClosed;
    var p, names' := |names|, names + [names[q] + [x]];
    var arcs' := arcs[q := arcs[q] + [Arc(x, inc, p)]] + [[]];
    forall r: nat | 0 < r < |names'|
      ensures Reached(arcs', names', r)
    {
      if r < p {
        assert Reached(arcs, names, r);
        var s: nat, k: nat :| s < |arcs| && k < |arcs[s]| && arcs[s][k].next == r;
        assert arcs'[s][k].next == r;
      } else {
        assert arcs'[q][|arcs[q]|].next == p;
      }
    }
    RootNotNew(names);
    forall s: nat, k: nat | s < |arcs'| && k < |arcs'[s]|
      ensures ArcOk(names', inc, s, arcs'[s][k]) && forall l: nat :: l < k ==> arcs'[s][l].ilabel != arcs'[s][k].ilabel
    {
      if s == q && k == |arcs[q]| {
        forall l: nat | l < k
          ensures arcs'[s][l].ilabel != x
        {
          assert ArcOk(names, inc, q, arcs[q][l]);
        }
      } else {
        assert arcs'[s][k] == arcs[s][k];
        assert ArcOk(names, inc, s, arcs[s][k]);
      }
    }
  }

  lemma RootNotNew(names: Names)
    requires PrefixClosed(names)
    ensures |names| > 0
  {
  }

  /** Looking a label up is looking the longer name up. */
  lemma {:induction false} Lookup(arcs: seq<seq<Arc>>, names: Names, inc: real, q: nat, x: nat)
    requires PrefixClosed(names) && ArcsOk(arcs, names, inc) && q < |names|
    ensures var i := FirstMatch(arcs[q], x);
            && (i < |arcs[q]| <==> names[q] + [x] in names)
            && (i < |arcs[q]| ==> ArcOk(names, inc, q, arcs[q][i]))
  {
    var i := FirstMatch(arcs[q], x);
    if names[q] + [x] in names {
      var p :| 0 <= p < |names| && names[p] == names[q] + [x];
      assert Reached(arcs, names, p);
      var s: nat, k: nat :| s < |arcs| && k < |arcs[s]| && arcs[s][k].next == p;
      assert ArcOk(names, inc, s, arcs[s][k]);
      Snoc(names[q], x);
      Snoc(names[s], arcs[s][k].ilabel);
      OneState(names, s, q);
    }
  }

  /** The states added are prefixes of the word. */
  ghost predicate Added(names0: Names, names: Names, word: Path) {
    names0 <= names && forall q :: |names0| <= q < |names| ==> names[q] <= word
  }

  lemma AddOne(names0: Names, names: Names, word: Path, j: nat)
    requires Added(names0, names, word) && j <= |word|
    ensures Added(names0, names + [word[..j]], word)
  {
  }

  method AddWord(arcs0: seq<seq<Arc>>, ghost names0: Names, inc: real, word: Path)
    returns (arcs: seq<seq<Arc>>, ghost names: Names, state: nat)
    requires PrefixClosed(names0) && ArcsOk(arcs0, names0, inc)
    requires forall j :: 0 <= j < |word| ==> word[j] > 0
    ensures PrefixClosed(names) && ArcsOk(arcs, names, inc) && Added(names0, names, word)
    ensures state < |names| && names[state] == word
  {
    hide FirstMatch, ArcsOk, PrefixClosed, Added;
    arcs, names, state := arcs0, names0, 0;
    SizeOk(arcs, names, inc);
    NoneAdded(names, word);
    var j := 0;
    while j < |word|
      invariant 0 <= j <= |word| && PrefixClosed(names) && ArcsOk(arcs, names, inc) && |arcs| == |names|
      invariant state < |names| && names[state] == word[..j] && Added(names0, names, word)
      decreases |word| - j
    {
      var i := FirstMatch(arcs[state], word[j]);
      Lookup(arcs, names, inc, state, word[j]);
      assert word[..j + 1] == word[..j] + [word[j]];
      if i < |arcs[state]| {
        state := arcs[state][i].next;
      } else {
        AppendState(arcs, names, inc, state, word[j]);
        AppendName(names, state, word[j]);
        AddOne(names0, names, word, j + 1);
        names := names + [word[..j + 1]];
        arcs := arcs[state := arcs[state] + [Arc(word[j], inc, |arcs|)]] + [[]];
        state := |arcs| - 1;
      }
      j := j + 1;
    }
    assert word[..j] == word;
  }

  lemma NoneAdded(names: Names, word: Path)
    requires PrefixClosed(names)
    ensures Added(names, names, word) && |names| > 0 && names[0] == []
  {
  }

  lemma SizeOk(arcs: seq<seq<Arc>>, names: Names, inc: real)
    requires ArcsOk(arcs, names, inc)
    ensures |arcs| == |names|
  {
  }

  function SetFinal(finals: map<nat, real>, state: nat, w: real): map<nat, real> {
    finals[state := if state in finals then Least(finals[state], w) else w]
  }

  lemma {:induction false} FinalsGrow(finals: map<nat, real>, names: Names, names': Names, words: seq<Path>,
                                      weights: seq<real>, state: nat)
    requires |words| > 0 && |words| == |weights|
    requires FinalsOk(finals, names, Init(words), Init(weights)) && PrefixClosed(names') && names <= names'
    requires forall i :: 0 <= i < |Init(words)| ==> Init(words)[i] in names
    requires state < |names'| && names'[state] == Last(words)
    ensures FinalsOk(if Last(words) == [] then finals
                     else SetFinal(finals, state, Last(weights)), names', words, weights)
  {
    hide PrefixClosed;
    var finals' := if Last(words) == [] then finals else SetFinal(finals, state, Last(weights));
    forall q: nat | q < |names'|
      ensures q in finals' <==> IsFinal(words, names'[q])
      ensures q in finals' ==> finals'[q] == FinalWeight(words, weights, names'[q])
    {
      IsFinalLast(words, names'[q]);
      if names'[q] == names'[state] { OneState(names', q, state); }
      if IsFinal(Init(words), names'[q]) {
        var p :| 0 <= p < |names| && names[p] == names'[q];
        OneState(names', p, q);
      }
    }
  }

  /** The trie of the hotwords: determinizing the prefix tree merges equal prefixes and keeps the least final weight.
      All arcs have the same weight, so no residual weight is left over. */
  method Determinize(words: seq<Path>, weights: seq<real>, inc: real)
    returns (arcs: seq<seq<Arc>>, finals: map<nat, real>, ghost names: Names)
    requires |words| == |weights|
    requires forall i, j :: 0 <= i < |words| && 0 <= j < |words[i]| ==> words[i][j] > 0
    ensures PrefixClosed(names) && ArcsOk(arcs, names, inc)
    ensures StatesOk(names, words) && FinalsOk(finals, names, words, weights)
    ensures |arcs| > 0 && (forall q :: q in finals <==> 0 < q < |arcs| && names[q] in words)
  {
    hide ArcsOk, FinalsOk, PrefixClosed, StatesOk;
    assert PrefixClosed([[]]) && StatesOk([[]], words[..0]) by { OneStateTrie(); }
    arcs, finals, names := [[]], map[], [[]];
    assert ArcsOk(arcs, names, inc) by { OneStateOk(inc); }
    assert FinalsOk(finals, names, words[..0], weights[..0]) by { NoFinals(); }
    var i := 0;
    while i < |words|
      invariant 0 <= i <= |words| && PrefixClosed(names) && ArcsOk(arcs, names, inc)
      invariant StatesOk(names, words[..i]) && FinalsOk(finals, names, words[..i], weights[..i])
    {
      ghost var before := names;
      var state: nat;
      arcs, names, state := AddWord(arcs, names, inc, words[i]);
      ghost var some := words[..i + 1];
      assert Init(some) == words[..i] && Last(some) == words[i] && Init(weights[..i + 1]) == weights[..i];
      WordsAreStates(before, words[..i]);
      FinalsGrow(finals, before, names, some, weights[..i + 1], state);
      if words[i] != [] {
        finals := SetFinal(finals, state, weights[i]);
      }
      StatesGrow(before, names, some, state);
      i := i + 1;
    }
    assert words[..i] == words && weights[..i] == weights;
    FinalStates(arcs, finals, names, words, weights, inc);
  }

  /** The final states are the hotwords themselves; the root is none of them. */
  lemma {:induction false} FinalStates(arcs: seq<seq<Arc>>, finals: map<nat, real>, names: Names, words: seq<Path>,
                                       weights: seq<real>, inc: real)
    requires PrefixClosed(names) && ArcsOk(arcs, names, inc) && |words| == |weights|
             && FinalsOk(finals, names, words, weights)
    ensures 0 < |arcs| == |names| && forall q :: q in finals <==> 0 < q < |arcs| && names[q] in words
  {
    forall q: nat | q < |names|
      ensures q in finals <==> 0 < q && names[q] in words
    {
      assert IsFinal(words, names[q]) <==> q in finals;
    }
  }

  lemma OneStateTrie()
    ensures PrefixClosed([[]]) && StatesOk([[]], [])
  {
  }

  lemma WordsAreStates(names: Names, words: seq<Path>)
    requires StatesOk(names, words)
    ensures forall i :: 0 <= i < |words| ==> words[i] in names
  {
  }

  lemma OneStateOk(inc: real)
    ensures ArcsOk([[]], [[]], inc)
  {
  }

  lemma NoFinals()
    ensures FinalsOk(map[], [[]], [], [])
  {
  }

  lemma {:induction false} StatesGrow(names: Names, names': Names, words: seq<Path>, state: nat)
    requires words != [] && StatesOk(names, Init(words))
    requires state < |names'| && names'[state] == Last(words)
    requires Added(names, names', Last(words))
    ensures StatesOk(names', words)
  {
    var before := Init(words);
    forall i | 0 <= i < |words|
      ensures words[i] in names'
    {
      if i < |words| - 1 {
        assert words[i] == before[i] && before[i] in names;
        var q: nat :| q < |names| && names[q] == before[i];
        assert names'[q] == words[i];
      } else {
        assert names'[state] == words[i];
      }
    }
    forall q: nat | 0 < q < |names'|
      ensures exists i :: 0 <= i < |words| && names'[q] <= words[i]
    {
      if q < |names| {
        assert names'[q] == names[q];
        var i :| 0 <= i < |before| && names[q] <= before[i];
        assert names'[q] <= words[i];
      } else {
        assert names'[q] <= words[|words| - 1];
      }
    }
  }
}
