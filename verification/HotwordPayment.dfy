/** Which completed hotwords the automaton pays for (bias-lm.cpp:143-150): the weight is paid for the state reached, and
    for no other hotword the labels end in. */
module HotwordPayment {
  import opened Sequences
  import opened CtcPaths
  import opened SuffixTrie
  import opened HotwordTrie
  import opened BiasScore

  /** No hotword ends inside a longer beginning of a hotword. */
  ghost predicate NoInner(names: Names, words: seq<Path>) {
    forall w, v :: IsFinal(words, w) && v in names && IsSuffix(w, v) ==> v == w
  }

  /** Whatever the labels, the hotword they end in is the state they lead to. */
  ghost predicate AllReached(names: Names, words: seq<Path>) {
    forall labels, w :: IsFinal(words, w) && IsSuffix(w, labels) ==> Longest(names, labels) == w
  }

  lemma {:induction false} SuffixOfSuffix(a: Path, b: Path, s: Path)
    requires IsSuffix(a, s) && IsSuffix(b, s) && |a| <= |b|
    ensures IsSuffix(a, b)
  {
    var d := |b| - |a|;
    assert b[d..] == s[|s| - |b|..][d..] == s[|s| - |a|..];
  }

  lemma {:induction false} SuffixSelf(s: Path)
    ensures IsSuffix(s, s)
  {
    assert s[0..] == s;
  }

  /** A hotword the labels end in lies inside the state they lead to. */
  lemma {:induction false} InsideState(names: Names, words: seq<Path>, labels: Path, w: Path)
    requires PrefixClosed(names) && StatesOk(names, words) && IsFinal(words, w) && IsSuffix(w, labels)
    ensures Longest(names, labels) in names && IsSuffix(w, Longest(names, labels))
  {
    hide PrefixClosed;
    LongestIsLongest(names, labels, w);
    WordsAreStates(names, words);
    assert w in names by {
      var i :| 0 <= i < |words| && words[i] == w;
    }
    SuffixOfSuffix(w, Longest(names, labels), labels);
  }

  /** Every completed hotword is the state reached if and only if no hotword ends inside a longer beginning of one. */
  lemma {:induction false} ReachedIffNoInner(names: Names, words: seq<Path>)
    requires PrefixClosed(names) && StatesOk(names, words)
    ensures NoInner(names, words) <==> AllReached(names, words)
  {
    hide PrefixClosed, StatesOk, IsFinal, IsSuffix;
    if NoInner(names, words) {
      forall labels, w | IsFinal(words, w) && IsSuffix(w, labels)
        ensures Longest(names, labels) == w
      {
        InsideState(names, words, labels, w);
      }
    }
    if AllReached(names, words) {
      forall w, v | IsFinal(words, w) && v in names && IsSuffix(w, v)
        ensures v == w
      {
        assert Longest(names, v) == v;
      }
    }
  }

  // ---------- all hotwords the labels end in ----------

  /** Whether `words[k]` is a hotword the labels end in; of equal hotwords only the first is asked for. */
  ghost predicate EndsIn(words: seq<Path>, k: nat, labels: Path)
    requires k < |words|
  {
    words[k] != [] && IsSuffix(words[k], labels) && words[k] !in words[..k]
  }

  /** The weights of those among the first `n` hotwords that the labels end in. */
  ghost function EndWeight(words: seq<Path>, weights: seq<real>, n: nat, labels: Path): real
    requires n <= |words| == |weights|
  {
    if n == 0 then 0.0
    else EndWeight(words, weights, n - 1, labels) + if EndsIn(words, n - 1, labels)
        then FinalWeight(words, weights, words[n - 1]) else 0.0
  }

  /** The weights of all occurrences of hotwords, wherever they end. */
  ghost function OccurrenceWeight(words: seq<Path>, weights: seq<real>, labels: Path): real
    requires |words| == |weights|
  {
    if labels == [] then 0.0
    else OccurrenceWeight(words, weights, Init(labels)) + EndWeight(words, weights, |words|, labels)
  }

  /** If the labels end in at most one hotword, its weight is all there is. */
  lemma {:induction false} OneEnd(words: seq<Path>, weights: seq<real>, n: nat, labels: Path, w: Path)
    requires n <= |words| == |weights| && IsFinal(words, w) && IsSuffix(w, labels)
    requires forall k: nat :: k < |words| && EndsIn(words, k, labels) ==> words[k] == w
    ensures EndWeight(words, weights, n, labels) == if w in words[..n] then FinalWeight(words, weights, w) else 0.0
  {
    hide FinalWeight, IsSuffix;
    if n > 0 {
      OneEnd(words, weights, n - 1, labels, w);
      assert words[..n] == words[..n - 1] + [words[n - 1]];
    }
  }

  lemma {:induction false} NoEnd(words: seq<Path>, weights: seq<real>, n: nat, labels: Path)
    requires n <= |words| == |weights| && forall k: nat :: k < n ==> !EndsIn(words, k, labels)
    ensures EndWeight(words, weights, n, labels) == 0.0
  {
    hide EndsIn, FinalWeight;
    if n > 0 { NoEnd(words, weights, n - 1, labels); }
  }

  /** What is paid on arrival is the weight of the one hotword the labels end in, or nothing. */
  lemma {:induction false} ArrivalIsEndWeight(names: Names, words: seq<Path>, weights: seq<real>, labels: Path)
    requires PrefixClosed(names) && StatesOk(names, words) && |words| == |weights| && NoInner(names, words)
    ensures Arrival(words, weights, Longest(names, labels)) == EndWeight(words, weights, |words|, labels)
  {
    hide PrefixClosed, StatesOk, FinalWeight;
    ReachedIffNoInner(names, words);
    var v := Longest(names, labels);
    LongestIsLongest(names, labels, []);
    assert words[..|words|] == words;
    forall k: nat | k < |words| && EndsIn(words, k, labels)
      ensures IsFinal(words, v) && words[k] == v
    {
      assert IsFinal(words, words[k]);
    }
    if IsFinal(words, v) {
      OneEnd(words, weights, |words|, labels, v);
    } else {
      NoEnd(words, weights, |words|, labels);
    }
  }

  /** Then every occurrence of every hotword is paid, once and in full. */
  lemma {:induction false} EveryOccurrenceIsPaid(names: Names, words: seq<Path>, weights: seq<real>, labels: Path)
    requires PrefixClosed(names) && StatesOk(names, words) && |words| == |weights| && NoInner(names, words)
    ensures Arrivals(names, words, weights, labels) == OccurrenceWeight(words, weights, labels)
  {
    hide PrefixClosed, StatesOk, NoInner, Arrival, EndWeight, Longest;
    if labels != [] {
      EveryOccurrenceIsPaid(names, words, weights, Init(labels));
      ArrivalIsEndWeight(names, words, weights, labels);
    }
  }

  // ---------- and only then ----------

  ghost predicate AllPositive(weights: seq<real>) {
    forall i :: 0 <= i < |weights| ==> weights[i] > 0.0
  }

  lemma {:induction false} PositiveFinal(words: seq<Path>, weights: seq<real>, w: Path)
    requires |words| == |weights| && AllPositive(weights) && IsFinal(words, w)
    ensures FinalWeight(words, weights, w) > 0.0
  {
    FinalWeightIsLeast(words, weights, w);
  }

  /** A hotword the labels end in is counted; two different ones are both counted. */
  lemma {:induction false} CountedEnd(words: seq<Path>, weights: seq<real>, n: nat, labels: Path, u: Path, w: Path)
    requires n <= |words| == |weights| && AllPositive(weights) && u != w
    requires IsFinal(words, w) && IsSuffix(w, labels) && (IsFinal(words, u) ==> IsSuffix(u, labels))
    ensures EndWeight(words, weights, n, labels) >= 0.0
    ensures w in words[..n] ==> EndWeight(words, weights, n, labels) > 0.0
    ensures u != [] && u in words[..n] ==> EndWeight(words, weights, n, labels) >= FinalWeight(words, weights, u)
    ensures u != [] && u in words[..n] && w in words[..n] ==>
              EndWeight(words, weights, n, labels) > FinalWeight(words, weights, u)
  {
    hide IsSuffix, FinalWeight, AllPositive;
    if n > 0 {
      CountedEnd(words, weights, n - 1, labels, u, w);
      assert words[..n] == words[..n - 1] + [words[n - 1]];
      var x := words[n - 1];
      if EndsIn(words, n - 1, labels) { PositiveFinal(words, weights, x); }
      if IsFinal(words, u) { PositiveFinal(words, weights, u); }
    }
  }

  /** With positive weights: all occurrences are paid, on all labels, if and only if no hotword ends inside a longer
      beginning of one. */
  lemma {:induction false} PaidIffNoInner(names: Names, words: seq<Path>, weights: seq<real>)
    requires PrefixClosed(names) && StatesOk(names, words) && |words| == |weights| && AllPositive(weights)
    ensures NoInner(names, words) <==>
              forall labels :: Arrivals(names, words, weights, labels) == OccurrenceWeight(words, weights, labels)
  {
    hide PrefixClosed, StatesOk, Arrivals, OccurrenceWeight, AllPositive;
    if NoInner(names, words) {
      forall labels
        ensures Arrivals(names, words, weights, labels) == OccurrenceWeight(words, weights, labels)
      {
        EveryOccurrenceIsPaid(names, words, weights, labels);
      }
    } else {
      var w, v :| IsFinal(words, w) && v in names && IsSuffix(w, v) && v != w;
      InnerIsLost(names, words, weights, v, w);
    }
  }

  /** What is paid never exceeds the weights of the hotwords the labels end in. */
  lemma {:induction false} PaidAtMost(names: Names, words: seq<Path>, weights: seq<real>, labels: Path)
    requires PrefixClosed(names) && |words| == |weights| && AllPositive(weights)
    ensures Arrival(words, weights, Longest(names, labels)) <= EndWeight(words, weights, |words|, labels)
    ensures Arrivals(names, words, weights, labels) <= OccurrenceWeight(words, weights, labels)
    decreases |labels|
  {
    hide PrefixClosed, FinalWeight, AllPositive, IsSuffix;
    var v := Longest(names, labels);
    LongestIsLongest(names, labels, []);
    EndsNotNegative(words, weights, |words|, labels);
    if IsFinal(words, v) {
      assert words[..|words|] == words;
      CountedState(words, weights, |words|, labels, v);
    }
    if labels != [] { PaidAtMost(names, words, weights, Init(labels)); }
  }

  lemma {:induction false} EndsNotNegative(words: seq<Path>, weights: seq<real>, n: nat, labels: Path)
    requires n <= |words| == |weights| && AllPositive(weights)
    ensures EndWeight(words, weights, n, labels) >= 0.0
  {
    hide IsSuffix, FinalWeight, AllPositive;
    if n > 0 {
      EndsNotNegative(words, weights, n - 1, labels);
      if EndsIn(words, n - 1, labels) { PositiveFinal(words, weights, words[n - 1]); }
    }
  }

  lemma {:induction false} CountedState(words: seq<Path>, weights: seq<real>, n: nat, labels: Path, u: Path)
    requires n <= |words| == |weights| && AllPositive(weights) && IsFinal(words, u) && IsSuffix(u, labels)
    ensures EndWeight(words, weights, n, labels) >= if u in words[..n] then FinalWeight(words, weights, u) else 0.0
  {
    hide IsSuffix, FinalWeight, AllPositive;
    if n > 0 {
      CountedState(words, weights, n - 1, labels, u);
      EndsNotNegative(words, weights, n - 1, labels);
      assert words[..n] == words[..n - 1] + [words[n - 1]];
      if EndsIn(words, n - 1, labels) { PositiveFinal(words, weights, words[n - 1]); }
    }
  }

  /** The labels of a state with a hotword inside: that hotword is not paid. */
  lemma {:induction false} InnerIsLost(names: Names, words: seq<Path>, weights: seq<real>, v: Path, w: Path)
    requires PrefixClosed(names) && |words| == |weights| && AllPositive(weights)
    requires IsFinal(words, w) && v in names && IsSuffix(w, v) && v != w
    ensures Arrivals(names, words, weights, v) < OccurrenceWeight(words, weights, v)
  {
    hide PrefixClosed, FinalWeight, AllPositive;
    assert v != [] && Longest(names, v) == v;
    PaidAtMost(names, words, weights, Init(v));
    SuffixSelf(v);
    assert words[..|words|] == words;
    CountedEnd(words, weights, |words|, v, v, w);
  }

  /** A completed hotword that is not paid: `[2]` inside the beginning `[1, 2]` of another. */
  lemma {:induction false} SuffixHotwordIsNotPaid(a: real, b: real)
    ensures var words, weights, names := [[1, 2, 3], [2]], [a, b], [[], [1], [1, 2], [1, 2, 3], [2]];
            && PrefixClosed(names) && StatesOk(names, words) && IsFinal(words, [2]) && IsSuffix([2], [1, 2])
            && !NoInner(names, words) && Arrival(words, weights, Longest(names, [1, 2])) == 0.0
  {
    hide NoInner, Longest, PrefixClosed, StatesOk, FinalWeight;
    var words: seq<Path>, names: Names := [[1, 2, 3], [2]], [[], [1], [1, 2], [1, 2, 3], [2]];
    var v: Path, w: Path := [1, 2], [2];
    ExampleTrie();
    ExampleStates();
    assert names[2] == v && v in names;
    assert v[1..] == w && IsSuffix(w, v);
    assert words[1] == w && IsFinal(words, w);
    assert |words[0]| == 3 && |words[1]| == 1 && !IsFinal(words, v);
    assert Longest(names, v) == v by { InTrie(names, v); }
    if NoInner(names, words) { NoInnerAt(names, words, w, v); }
  }

  lemma NoInnerAt(names: Names, words: seq<Path>, w: Path, v: Path)
    requires NoInner(names, words) && IsFinal(words, w) && v in names && IsSuffix(w, v)
    ensures v == w
  {
  }

  lemma ExampleTrie()
    ensures PrefixClosed([[], [1], [1, 2], [1, 2, 3], [2]])
  {
    var names: Names := [[], [1], [1, 2], [1, 2, 3], [2]];
    forall q | 0 < q < |names|
      ensures names[q] != [] && Init(names[q]) in names
    {
      assert Init(names[q]) == names[if q == 4 then 0 else q - 1];
    }
    forall p, q | 0 <= p < q < |names|
      ensures names[p] != names[q]
    {
      assert |names[p]| == |names[q]| ==> p == 1 && q == 4 && names[p][0] != names[q][0];
    }
  }

  lemma ExampleStates()
    ensures StatesOk([[], [1], [1, 2], [1, 2, 3], [2]], [[1, 2, 3], [2]])
  {
    var names: Names, words: seq<Path> := [[], [1], [1, 2], [1, 2, 3], [2]], [[1, 2, 3], [2]];
    assert words[0] == names[3] && words[1] == names[4];
    forall q: nat | 0 < q < |names|
      ensures exists i :: 0 <= i < |words| && names[q] <= words[i]
    {
      assert names[q] <= words[if q == 4 then 1 else 0];
    }
  }
}
