/** Longest suffixes in a trie: what the back-off states of the hotword automaton (bias-lm.cpp) stand for. */
module SuffixTrie {
  import opened Sequences
  import opened CtcPaths

  /** The names of the states: the strings that lead to them. */
  type Names = seq<Path>

  /** A trie rooted at state 0. */
  ghost predicate PrefixClosed(names: Names) {
    && names != [] && names[0] == []
    && (forall q :: 0 < q < |names| ==> names[q] != [] && Init(names[q]) in names)
    && forall p, q :: 0 <= p < q < |names| ==> names[p] != names[q]
  }

  /** The longest suffix of `s` that is in the trie. */
  ghost function Longest(names: Names, s: Path): (r: Path)
    ensures |r| <= |s|
  {
    if s in names || s == [] then s else Longest(names, s[1..])
  }

  ghost predicate IsSuffix(r: Path, s: Path) {
    |r| <= |s| && r == s[|s| - |r|..]
  }

  /** It is a suffix, it is in the trie, and no suffix in the trie is longer. */
  lemma {:induction false} LongestIsLongest(names: Names, s: Path, t: Path)
    requires PrefixClosed(names)
    ensures var r := Longest(names, s); r in names && IsSuffix(r, s) && (t in names && IsSuffix(t, s) ==> |t| <= |r|)
  {
    if !(s in names || s == []) {
      LongestIsLongest(names, s[1..], t);
    }
  }

  lemma {:induction false} LongestInTrie(names: Names, s: Path)
    requires PrefixClosed(names)
    ensures Longest(names, s) in names && (s != [] ==> |Longest(names, s[1..])| < |s|)
  {
    LongestIsLongest(names, s, []);
  }

  lemma InTrie(names: Names, s: Path)
    requires s in names
    ensures Longest(names, s) == s
  {
  }

  /** Only the longest suffix of what was read so far matters for what comes next. */
  lemma {:induction false} Absorb(names: Names, s: Path, x: nat)
    requires PrefixClosed(names)
    ensures Longest(names, s + [x]) == Longest(names, Longest(names, s) + [x])
  {
    if !(s in names || s == []) {
      Absorb(names, s[1..], x);
      Snoc(s, x);
      assert (s + [x])[1..] == s[1..] + [x];
    }
  }

  /** Backing off from `c` loses nothing when `c` has no arc for `x`. */
  lemma {:induction false} BackOff(names: Names, c: Path, x: nat)
    requires PrefixClosed(names) && c != [] && c + [x] !in names
    ensures Longest(names, c + [x]) == Longest(names, Longest(names, c[1..]) + [x])
  {
    assert (c + [x])[1..] == c[1..] + [x];
    Absorb(names, c[1..], x);
  }

  lemma {:induction false} BackOffFromRoot(names: Names, x: nat)
    requires PrefixClosed(names) && [x] !in names
    ensures Longest(names, [x]) == []
  {
    assert [x][1..] == [];
  }

  lemma {:induction false} OneState(names: Names, p: nat, q: nat)
    requires PrefixClosed(names) && p < |names| && q < |names| && names[p] == names[q]
    ensures p == q
  {
  }
}
