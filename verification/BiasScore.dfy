/** What the labels of a sequence earn from the hotword automaton (bias-lm.cpp:125-183). */
module BiasScore {
  import opened Sequences
  import opened CtcPaths
  import opened SuffixTrie
  import opened HotwordTrie

  /** The depth lost at back-offs out of final states is not taken back. */
  ghost function Kept(names: Names, words: seq<Path>, inc: real, u: Path, x: nat): real
    decreases |u|
  {
    if u == [] || u + [x] in names then 0.0
    else
      var b := Longest(names, u[1..]);
      (if IsFinal(words, u) then Mul(inc, |u| - |b|) else 0.0) + Kept(names, words, inc, b, x)
  }

  ghost function Arrival(words: seq<Path>, weights: seq<real>, v: Path): real
    requires |words| == |weights|
  {
    if IsFinal(words, v) then FinalWeight(words, weights, v) else 0.0
  }

  /** Increment per label gained or lost, what is kept, and the hotword's own weight. */
  ghost function StepScore(names: Names, words: seq<Path>, weights: seq<real>, inc: real, u: Path, x: nat): real
    requires |words| == |weights|
  {
    var v := Longest(names, u + [x]);
    Mul(inc, |v| - |u|) + Kept(names, words, inc, u, x) + Arrival(words, weights, v)
  }

  lemma {:induction false} MatchStep(names: Names, words: seq<Path>, inc: real, c: Path, u: Path, x: nat)
    requires c + [x] in names
    ensures Longest(names, c + [x]) == c + [x] && Kept(names, words, inc, c, x) == 0.0
    ensures Mul(inc, |c + [x]| - |u|) == Mul(inc, |c| - |u|) + inc
  {
    MulAdd(inc, |c| - |u|, 1);
  }

  lemma {:induction false} BackOffStep(names: Names, words: seq<Path>, inc: real, c: Path, u: Path, x: nat)
    requires PrefixClosed(names) && c != [] && c + [x] !in names
    ensures var b := Longest(names, c[1..]);
            && |b| < |c| && Longest(names, b + [x]) == Longest(names, c + [x])
            && Kept(names, words, inc, c, x) ==
               (if IsFinal(words, c) then Mul(inc, |c| - |b|) else 0.0) + Kept(names, words, inc, b, x)
            && Mul(inc, |b| - |u|) == Mul(inc, |c| - |u|) + Mul(inc, |b| - |c|)
            && Mul(inc, |c| - |b|) + Mul(inc, |b| - |c|) == 0.0
  {
    hide Mul, PrefixClosed;
    var b := Longest(names, c[1..]);
    BackOff(names, c, x);
    MulAdd(inc, |c| - |u|, |b| - |c|);
    MulAdd(inc, |c| - |b|, |b| - |c|);
  }

  // ---------- whole label sequences ----------

  /** The scores of all labels, from the root. */
  ghost function Total(names: Names, words: seq<Path>, weights: seq<real>, inc: real, labels: Path): real
    requires |words| == |weights|
  {
    if labels == [] then 0.0
    else
      Total(names, words, weights, inc, Init(labels))
      + StepScore(names, words, weights, inc, Longest(names, Init(labels)), Last(labels))
  }

  ghost function Arrivals(names: Names, words: seq<Path>, weights: seq<real>, labels: Path): real
    requires |words| == |weights|
  {
    if labels == [] then 0.0
    else Arrivals(names, words, weights, Init(labels)) + Arrival(words, weights, Longest(names, labels))
  }

  ghost function AllKept(names: Names, words: seq<Path>, inc: real, labels: Path): real {
    if labels == [] then 0.0
    else AllKept(names, words, inc, Init(labels)) + Kept(names, words, inc, Longest(names, Init(labels)), Last(labels))
  }

  /** From the root the labels lead to the longest suffix that is in the trie.  The total is the increment for each of
      its labels, the weights of the final states arrived at, and what was lost at back-offs out of final states. */
  lemma {:induction false} TotalScore(names: Names, words: seq<Path>, weights: seq<real>, inc: real, labels: Path)
    requires PrefixClosed(names) && |words| == |weights|
    ensures labels != [] ==> Longest(names, labels) == Longest(names, Longest(names, Init(labels)) + [Last(labels)])
    ensures Total(names, words, weights, inc, labels)
            == Mul(inc, |Longest(names, labels)|) + Arrivals(names, words, weights, labels)
            + AllKept(names, words, inc, labels)
  {
    hide Kept, Arrival, Mul, PrefixClosed;
    if labels == [] {
      MulAdd(inc, 0, 0);
    } else {
      TotalScore(names, words, weights, inc, Init(labels));
      UnSnoc(labels);
      Absorb(names, Init(labels), Last(labels));
      MulAdd(inc, |Longest(names, labels)|, |Longest(names, Init(labels))|);
    }
  }

  // ---------- failed partial matches ----------

  ghost predicate Occurs(word: Path, labels: Path) {
    exists i: nat, j: nat :: i <= j <= |labels| && labels[i..j] == word
  }

  ghost predicate NoHotword(words: seq<Path>, labels: Path) {
    forall i :: 0 <= i < |words| && words[i] != [] ==> !Occurs(words[i], labels)
  }

  lemma {:induction false} SuffixNotFinal(words: seq<Path>, c: Path, labels: Path)
    requires NoHotword(words, labels) && IsSuffix(c, labels)
    ensures !IsFinal(words, c)
  {
    assert labels[|labels| - |c|..|labels|] == c;
  }

  lemma {:induction false} NothingKept(names: Names, words: seq<Path>, inc: real, c: Path, x: nat, labels: Path)
    requires PrefixClosed(names) && NoHotword(words, labels) && IsSuffix(c, labels)
    ensures Kept(names, words, inc, c, x) == 0.0
    decreases |c|
  {
    SuffixNotFinal(words, c, labels);
    if !(c == [] || c + [x] in names) {
      LongestIsLongest(names, c[1..], []);
      NothingKept(names, words, inc, Longest(names, c[1..]), x, labels);
    }
  }

  /** Labels that contain no hotword earn exactly the increment for the hotword prefix they end in: every partial match
      that failed on the way has been refunded. */
  lemma {:induction false} FailedMatchesAreRefunded(names: Names, words: seq<Path>, weights: seq<real>, inc: real,
                                                    labels: Path)
    requires PrefixClosed(names) && |words| == |weights| && NoHotword(words, labels)
    ensures Total(names, words, weights, inc, labels) == Mul(inc, |Longest(names, labels)|)
  {
    hide Kept, Mul, PrefixClosed, StepScore;
    TotalScore(names, words, weights, inc, labels);
    NothingEarned(names, words, weights, inc, labels);
  }

  lemma OccursAt(labels: Path, i: nat, j: nat, some: Path)
    requires i <= j <= |some| && some <= labels
    ensures labels[i..j] == some[i..j] && Occurs(some[i..j], labels)
  {
  }

  lemma {:induction false} OccursMore(word: Path, labels: Path)
    requires labels != []
    ensures Occurs(word, Init(labels)) ==> Occurs(word, labels)
  {
    var some := Init(labels);
    if Occurs(word, some) {
      var i: nat, j: nat :| i <= j <= |some| && some[i..j] == word;
      OccursAt(labels, i, j, some);
    }
  }

  lemma {:induction false} NothingEarned(names: Names, words: seq<Path>, weights: seq<real>, inc: real, labels: Path)
    requires PrefixClosed(names) && |words| == |weights| && NoHotword(words, labels)
    ensures Arrivals(names, words, weights, labels) == 0.0 && AllKept(names, words, inc, labels) == 0.0
  {
    hide Kept, Mul, PrefixClosed;
    if labels != [] {
      var some := Init(labels);
      forall i | 0 <= i < |words| && words[i] != []
        ensures !Occurs(words[i], some)
      {
        OccursMore(words[i], labels);
      }
      NothingEarned(names, words, weights, inc, some);
      LongestIsLongest(names, some, []);
      NothingKept(names, words, inc, Longest(names, some), Last(labels), some);
      LongestIsLongest(names, labels, []);
      SuffixNotFinal(words, Longest(names, labels), labels);
    }
  }
}
