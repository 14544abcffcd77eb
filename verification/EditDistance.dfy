/** Minimal edit distances and alignments of token lists, without tables (compute-wer.py:95-198). */
module EditDistance {

  type Token = string

  function Min(a: nat, b: nat): nat {
    if b < a then b else a
  }

  function SubCost(x: Token, y: Token): nat {
    if x == y then 0 else 1
  }

  /** The distance of the first `i` tokens of `a` from the first `j` tokens of `b`. */
  function Dist(a: seq<Token>, b: seq<Token>, i: nat, j: nat): nat
    requires i <= |a| && j <= |b|
  {
    if i == 0 then j
    else if j == 0 then i
    else Min(Min(Dist(a, b, i - 1, j) + 1, Dist(a, b, i, j - 1) + 1),
             Dist(a, b, i - 1, j - 1) + SubCost(a[i - 1], b[j - 1]))
  }

  // ---------- alignments ----------

  ghost predicate NonEmpty(tokens: seq<Token>) {
    forall i :: 0 <= i < |tokens| ==> tokens[i] != ""
  }

  /** A row of an alignment without its gaps. */
  function Kept(row: seq<Token>): seq<Token> {
    if row == [] then [] else (if row[0] == "" then [] else [row[0]]) + Kept(row[1..])
  }

  /** Two rows of equal length that give `a` and `b` when their gaps, written as empty tokens, are dropped. */
  ghost predicate Aligns(l: seq<Token>, r: seq<Token>, a: seq<Token>, b: seq<Token>) {
    && |l| == |r| && Kept(l) == a && Kept(r) == b
    && forall i :: 0 <= i < |l| ==> l[i] != "" || r[i] != ""
  }

  function Cost(l: seq<Token>, r: seq<Token>): nat
    requires |l| == |r|
  {
    if l == [] then 0 else SubCost(l[0], r[0]) + Cost(l[1..], r[1..])
  }

  /** One more column in front. */
  lemma {:induction false} AlignOne(x: Token, y: Token, l: seq<Token>, r: seq<Token>, a: seq<Token>, b: seq<Token>)
    requires Aligns(l, r, a, b) && (x != "" || y != "")
    ensures Aligns([x] + l, [y] + r, (if x == "" then [] else [x]) + a, (if y == "" then [] else [y]) + b)
    ensures Cost([x] + l, [y] + r) == SubCost(x, y) + Cost(l, r)
  {
    var (l', r') := ([x] + l, [y] + r);
    assert l'[1..] == l && r'[1..] == r;
    forall i | 0 <= i < |l'|
      ensures l'[i] != "" || r'[i] != ""
    {
      if i > 0 { assert l'[i] == l[i - 1] && r'[i] == r[i - 1]; }
    }
  }

  /** The distance changes by at most the cost of one more column. */
  lemma {:induction false} DistSteps(a: seq<Token>, b: seq<Token>, i: nat, j: nat)
    requires i <= |a| && j <= |b|
    ensures i < |a| ==> Dist(a, b, i + 1, j) <= Dist(a, b, i, j) + 1
    ensures j < |b| ==> Dist(a, b, i, j + 1) <= Dist(a, b, i, j) + 1
    ensures i < |a| && j < |b| ==> Dist(a, b, i + 1, j + 1) <= Dist(a, b, i, j) + SubCost(a[i], b[j])
  {
    Zeros(a, b, i, j);
  }

  lemma Zeros(a: seq<Token>, b: seq<Token>, i: nat, j: nat)
    requires i <= |a| && j <= |b|
    ensures Dist(a, b, 0, j) == j && Dist(a, b, i, 0) == i
  {
  }

  /** No alignment of the rest is cheaper than the distance that is still missing. */
  lemma {:induction false} RestCosts(a: seq<Token>, b: seq<Token>, i: nat, j: nat, l: seq<Token>, r: seq<Token>)
    requires i <= |a| && j <= |b| && Aligns(l, r, a[i..], b[j..])
    ensures Dist(a, b, |a|, |b|) <= Dist(a, b, i, j) + Cost(l, r)
    decreases |l|
  {
    hide Dist;
    if l == [] {
      assert i == |a| && j == |b|;
    } else {
      var (x, y) := (l[0], r[0]);
      var (i', j') := (if x == "" then i else i + 1, if y == "" then j else j + 1);
      assert x != "" ==> i < |a| && a[i] == x && Kept(l[1..]) == a[i + 1..];
      assert y != "" ==> j < |b| && b[j] == y && Kept(r[1..]) == b[j + 1..];
      forall k | 0 <= k < |l| - 1
        ensures l[1..][k] != "" || r[1..][k] != ""
      {
        assert l[1..][k] == l[k + 1] && r[1..][k] == r[k + 1];
      }
      RestCosts(a, b, i', j', l[1..], r[1..]);
      DistSteps(a, b, i, j);
    }
  }

  /** The distance is a lower bound for every alignment. */
  lemma {:induction false} DistIsMinimal(a: seq<Token>, b: seq<Token>, l: seq<Token>, r: seq<Token>)
    requires Aligns(l, r, a, b)
    ensures Dist(a, b, |a|, |b|) <= Cost(l, r)
  {
    assert a[0..] == a && b[0..] == b;
    RestCosts(a, b, 0, 0, l, r);
  }

  // ---------- counts ----------

  /** Reference tokens, correct ones, and errors. */
  datatype Counts = Counts(all: int, cor: int, sub: int, ins: int, del: int)

  const NO_COUNTS := Counts(0, 0, 0, 0, 0)

  function Plus(c: Counts, d: Counts): Counts {
    Counts(c.all + d.all, c.cor + d.cor, c.sub + d.sub, c.ins + d.ins, c.del + d.del)
  }

  /** What one column of an alignment counts. */
  function ColumnCounts(x: Token, y: Token): Counts {
    if x == y then Counts(1, 1, 0, 0, 0)
    else if x == "" then Counts(0, 0, 0, 1, 0)
    else if y == "" then Counts(1, 0, 0, 0, 1)
    else Counts(1, 0, 1, 0, 0)
  }

  function Columns(l: seq<Token>, r: seq<Token>): Counts
    requires |l| == |r|
  {
    if l == [] then NO_COUNTS else Plus(Columns(l[1..], r[1..]), ColumnCounts(l[0], r[0]))
  }

  lemma {:induction false} ColumnsOne(x: Token, y: Token, l: seq<Token>, r: seq<Token>)
    requires |l| == |r|
    ensures Columns([x] + l, [y] + r) == Plus(Columns(l, r), ColumnCounts(x, y))
  {
    assert ([x] + l)[1..] == l && ([y] + r)[1..] == r;
  }

  /** The counts of a list of tokens. */
  function Sum(tokens: seq<Token>, data: map<Token, Counts>): Counts {
    if tokens == [] then NO_COUNTS
    else Plus(Sum(tokens[..|tokens| - 1], data), if tokens[|tokens| - 1] in data then data[tokens[|tokens| - 1]]
              else NO_COUNTS)
  }

  lemma {:induction false} SumSnoc(tokens: seq<Token>, data: map<Token, Counts>, k: nat)
    requires k < |tokens|
    ensures Sum(tokens[..k + 1], data) ==
              Plus(Sum(tokens[..k], data), if tokens[k] in data then data[tokens[k]] else NO_COUNTS)
  {
    assert tokens[..k + 1][..k] == tokens[..k];
  }

  ghost predicate Distinct(tokens: seq<Token>) {
    forall i, j :: 0 <= i < j < |tokens| ==> tokens[i] != tokens[j]
  }

  /** Changing a token's counts. */
  lemma {:induction false} SumUpdate(tokens: seq<Token>, data: map<Token, Counts>, t: Token, c: Counts)
    requires Distinct(tokens) && t in data
    ensures t !in tokens ==> Sum(tokens, data[t := Plus(data[t], c)]) == Sum(tokens, data)
    ensures t in tokens ==> Sum(tokens, data[t := Plus(data[t], c)]) == Plus(Sum(tokens, data), c)
  {
    if tokens != [] {
      var n := |tokens| - 1;
      SumUpdate(tokens[..n], data, t, c);
      assert tokens == tokens[..n] + [tokens[n]];
    }
  }

  lemma {:induction false} SumNew(tokens: seq<Token>, data: map<Token, Counts>, t: Token)
    requires t !in tokens && t !in data
    ensures Sum(tokens + [t], data[t := NO_COUNTS]) == Sum(tokens, data)
  {
    SumOther(tokens, data, t);
    assert (tokens + [t])[..|tokens|] == tokens;
  }

  lemma {:induction false} SumOther(tokens: seq<Token>, data: map<Token, Counts>, t: Token)
    requires t !in tokens
    ensures Sum(tokens, data[t := NO_COUNTS]) == Sum(tokens, data)
  {
    if tokens != [] {
      var n := |tokens| - 1;
      assert tokens[n] != t;
      SumOther(tokens[..n], data, t);
    }
  }
}
