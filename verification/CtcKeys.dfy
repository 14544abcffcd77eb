/** The prefixes a CTC prefix beam search can hold: how many there are, and which of them no path reaches. */
module CtcKeys {
  import opened Arithmetic
  import opened FiniteSets
  import opened Sequences
  import opened CtcPaths
  import opened CtcHypothesis
  import opened CtcInvariant

  /** A prefix over the labels 1 to `v - 1`, no longer than the number of frames. */
  ghost predicate KeyOk(prefix: Path, v: nat, n: nat) {
    |prefix| <= n && forall i :: 0 <= i < |prefix| ==> BLANK < prefix[i] < v
  }

  /** The number of such prefixes. */
  function KeyCount(v: nat, n: nat): nat {
    if n == 0 || v == 0 then 1 else 1 + KeyCount(v, n - 1) * (v - 1)
  }

  ghost function ExtendedBy(keys: set<Path>, a: nat): set<Path> {
    set q | q in keys :: q + [a]
  }

  ghost function ExtendedBelow(keys: set<Path>, u: nat): set<Path> {
    if u <= 1 then {} else ExtendedBelow(keys, u - 1) + ExtendedBy(keys, u - 1)
  }

  ghost function AllKeys(v: nat, n: nat): set<Path> {
    if n == 0 || v == 0 then {[]} else {[]} + ExtendedBelow(AllKeys(v, n - 1), v)
  }

  lemma {:induction false} ExtendedBySize(keys: set<Path>, a: nat)
    ensures |ExtendedBy(keys, a)| <= |keys|
  {
    if keys != {} {
      var q :| q in keys;
      var rest := keys - {q};
      ExtendedBySize(rest, a);
      assert ExtendedBy(keys, a) == ExtendedBy(rest, a) + {q + [a]};
      assert |ExtendedBy(rest, a) + {q + [a]}| <= |ExtendedBy(rest, a)| + 1;
      assert |keys| == |rest| + 1;
    }
  }

  lemma {:induction false} ExtendedBelowSize(keys: set<Path>, u: nat)
    requires u > 0
    ensures |ExtendedBelow(keys, u)| <= |keys| * (u - 1)
  {
    if u > 1 {
      ExtendedBelowSize(keys, u - 1);
      ExtendedBySize(keys, u - 1);
      assert |ExtendedBelow(keys, u)| <= |ExtendedBelow(keys, u - 1)| + |ExtendedBy(keys, u - 1)|;
      assert |keys| * (u - 1) == |keys| * (u - 2) + |keys|;
    }
  }

  lemma {:induction false} AllKeysSize(v: nat, n: nat)
    ensures |AllKeys(v, n)| <= KeyCount(v, n)
  {
    hide ExtendedBelow;
    if n > 0 && v > 0 {
      var shorter := AllKeys(v, n - 1);
      AllKeysSize(v, n - 1);
      ExtendedBelowSize(shorter, v);
      OneMore(ExtendedBelow(shorter, v));
      MulMono(|shorter|, KeyCount(v, n - 1), v - 1);
    }
  }

  lemma OneMore(keys: set<Path>)
    ensures |{[]} + keys| <= 1 + |keys|
  {
  }

  lemma {:induction false} InExtendedBelow(keys: set<Path>, u: nat, q: Path, a: nat)
    requires q in keys && 0 < a < u
    ensures q + [a] in ExtendedBelow(keys, u)
  {
    if a < u - 1 {
      InExtendedBelow(keys, u - 1, q, a);
    } else {
      assert q + [a] in ExtendedBy(keys, a);
    }
  }

  lemma {:induction false} InAllKeys(v: nat, n: nat, prefix: Path)
    requires KeyOk(prefix, v, n)
    ensures prefix in AllKeys(v, n)
  {
    if prefix != [] {
      InAllKeys(v, n - 1, Init(prefix));
      UnSnoc(prefix);
      InExtendedBelow(AllKeys(v, n - 1), v, Init(prefix), Last(prefix));
    }
  }

  /** A map whose keys are such prefixes has no more entries than there are prefixes. */
  lemma {:induction false} KeysBounded(v: nat, n: nat, hyps: Hyps)
    requires forall p :: p in hyps ==> KeyOk(p, v, n)
    ensures |hyps| <= KeyCount(v, n)
  {
    forall p | p in hyps
      ensures p in AllKeys(v, n)
    {
      InAllKeys(v, n, p);
    }
    AllKeysSize(v, n);
    SubsetSize(hyps.Keys, AllKeys(v, n));
    assert |hyps| == |hyps.Keys|;
  }

  // ---------- prefixes without a path ----------

  ghost function Ones(n: nat): Path {
    seq(n, i => 1)
  }

  lemma {:induction false} CollapseLength(path: Path)
    ensures |Collapse(path)| <= |path|
    ensures |Collapse(path)| == |path| ==> Collapse(path) == path
  {
    if path != [] {
      UnSnoc(path);
      CollapseLength(Init(path));
      CollapseStep(Init(path), Last(path));
    }
  }

  lemma {:induction false} SeparateRepeats(path: Path)
    requires |path| >= 2 && Last(path) == Last(Init(path))
    ensures Collapse(path) != path
  {
    UnSnoc(path);
    CollapseStep(Init(path), Last(path));
    CollapseLength(Init(path));
  }

  /** As many equal labels as frames leave no room for the blanks between them. */
  lemma {:induction false} OnesUnreached(frames: seq<Frame>, v: nat, exact: bool, e: PrefixScore)
    requires |frames| >= 2 && HypOk(frames, v, exact, Ones(|frames|), e)
    ensures e.ViterbiScore() == 0.0
  {
    var ones := Ones(|frames|);
    forall path, blankEnd
      ensures !Witness(frames, v, ones, blankEnd, path)
    {
      if Witness(frames, v, ones, blankEnd, path) {
        CollapseLength(path);
        assert Last(ones) == 1 == Last(Init(ones));
        SeparateRepeats(path);
      }
    }
  }
}
