/** Counting: distinct numbers below `n` are at most `n`. */
module FiniteSets {
  import opened Sequences

  ghost function Below(n: nat): (s: set<nat>)
    ensures |s| == n && forall i: nat :: i in s <==> i < n
  {
    if n == 0 then {} else Below(n - 1) + {n - 1}
  }

  ghost function Elements(list: seq<nat>): (s: set<nat>)
    ensures forall i: nat :: i in s <==> i in list
  {
    if list == [] then {} else
      UnSnoc(list);
      Elements(Init(list)) + {Last(list)}
  }

  ghost predicate Distinct(list: seq<nat>) {
    forall i, j :: 0 <= i < j < |list| ==> list[i] != list[j]
  }

  lemma {:induction false} DistinctElements(list: seq<nat>)
    requires Distinct(list)
    ensures |Elements(list)| == |list|
  {
    if list != [] {
      DistinctElements(Init(list));
      assert Last(list) !in Init(list);
    }
  }

  lemma SubsetSize<T>(a: set<T>, b: set<T>)
    requires a <= b
    ensures |a| <= |b|
  {
    assert b == a + (b - a) && a !! (b - a);
  }

  lemma SameSizeSubset<T>(a: set<T>, b: set<T>)
    requires a <= b && |a| == |b|
    ensures a == b
  {
    assert b == a + (b - a) && a !! (b - a);
  }
}
