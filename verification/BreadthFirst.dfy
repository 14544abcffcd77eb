/** Breadth-first order over a trie: `order` lists the states queued so far, of which the first `head` have been
    expanded (bias-lm.cpp:80-118). */
module BreadthFirst {
  import opened FiniteSets
  import opened Sequences
  import opened CtcPaths
  import opened ContextGraph
  import opened SuffixTrie
  import opened HotwordTrie

  ghost predicate Order(names: Names, order: seq<nat>) {
    && (forall i :: 0 <= i < |order| ==> 0 < order[i] < |names|)
    && (forall i, j :: 0 <= i < j < |order| ==> order[i] != order[j] && |names[order[i]]| <= |names[order[j]]|)
  }

  ghost predicate Expanded(names: Names, popped: seq<nat>, s: Path) {
    exists j :: 0 <= j < |popped| && popped[j] < |names| && names[popped[j]] == s
  }

  /** State `n` is the target of one of the first `k` arcs of `p`. */
  ghost predicate Child(base: seq<seq<Arc>>, p: nat, k: nat, n: nat)
    requires p < |base|
  {
    exists l: nat :: l < k && l < |base[p]| && base[p][l].next == n
  }

  /** Queued are the states whose parent is the root or has been expanded, and the first `k` children of `p`. */
  ghost predicate Frontier(base: seq<seq<Arc>>, names: Names, order: seq<nat>, head: nat, p: nat, k: nat) {
    && PrefixClosed(names) && |base| == |names| && p < |names| && head <= |order|
    && forall n: nat :: 0 < n < |names| ==>
         (n in order <==>
            && names[n] != []
            && (Init(names[n]) == [] || Expanded(names, order[..head], Init(names[n])) || Child(base, p, k, n)))
  }

  ghost predicate RootFrontier(base: seq<seq<Arc>>, names: Names, order: seq<nat>, k: nat) {
    && PrefixClosed(names) && |base| == |names| && forall n: nat :: 0 < n < |names| ==>
       (n in order <==> Child(base, 0, k, n))
  }

  lemma {:induction false} ArcParent(base: seq<seq<Arc>>, names: Names, inc: real, q: nat, k: nat)
    requires PrefixClosed(names) && ArcsOk(base, names, inc) && q < |names| == |base| && k < |base[q]|
    ensures var n := base[q][k].next;
            0 < n < |names| && names[n] != [] && Init(names[n]) == names[q] && Last(names[n]) == base[q][k].ilabel
            && |names[n]| == |names[q]| + 1
  {
    assert ArcOk(names, inc, q, base[q][k]);
    Snoc(names[q], base[q][k].ilabel);
  }

  /** Two arcs of a state lead to two states. */
  lemma {:induction false} TwoTargets(base: seq<seq<Arc>>, names: Names, inc: real, q: nat, k: nat, l: nat)
    requires PrefixClosed(names) && ArcsOk(base, names, inc) && q < |names| == |base| && l < k < |base[q]|
    ensures base[q][l].next != base[q][k].next
  {
    ArcParent(base, names, inc, q, k);
    ArcParent(base, names, inc, q, l);
  }

  lemma {:induction false} ChildIffParent(base: seq<seq<Arc>>, names: Names, inc: real, p: nat, n: nat)
    requires PrefixClosed(names) && ArcsOk(base, names, inc) && p < |names| == |base| && 0 < n < |names|
    ensures Child(base, p, |base[p]|, n) <==> names[n] != [] && Init(names[n]) == names[p]
  {
    assert Reached(base, names, n);
    var q: nat, k: nat :| q < |base| && k < |base[q]| && base[q][k].next == n;
    hide ArcsOk;
    ArcParent(base, names, inc, q, k);
    if names[q] == names[p] { OneState(names, q, p); }
    forall l: nat | l < |base[p]|
      ensures names[base[p][l].next] != [] && Init(names[base[p][l].next]) == names[p]
    {
      ArcParent(base, names, inc, p, l);
    }
  }

  lemma {:induction false} RootDone(base: seq<seq<Arc>>, names: Names, inc: real, order: seq<nat>)
    requires base != [] && RootFrontier(base, names, order, |base[0]|) && ArcsOk(base, names, inc)
    ensures Frontier(base, names, order, 0, 0, 0)
  {
    hide ArcsOk;
    forall n: nat | 0 < n < |names|
      ensures n in order <==> names[n] != [] && Init(names[n]) == []
      ensures !Child(base, 0, 0, n) && !Expanded(names, order[..0], Init(names[n]))
    {
      ChildIffParent(base, names, inc, 0, n);
    }
  }

  lemma {:induction false} ChildMore(base: seq<seq<Arc>>, p: nat, k: nat, n: nat)
    requires p < |base| && k < |base[p]|
    ensures Child(base, p, k + 1, n) <==> Child(base, p, k, n) || n == base[p][k].next
  {
  }

  lemma {:induction false} NotExpanded(names: Names, order: seq<nat>, head: nat)
    requires PrefixClosed(names) && Order(names, order) && head < |order|
    ensures !Expanded(names, order[..head], names[order[head]])
  {
    forall j | 0 <= j < head
      ensures names[order[j]] != names[order[head]]
    {
      assert order[j] != order[head];
    }
  }

  /** The next child has not been queued before. */
  lemma {:induction false} NewChild(base: seq<seq<Arc>>, names: Names, inc: real, order: seq<nat>, head: nat, p: nat,
                                    k: nat)
    requires Frontier(base, names, order, head, p, k) && Order(names, order) && ArcsOk(base, names, inc)
    requires head < |order| && order[head] == p && k < |base[p]|
    ensures var n := base[p][k].next; 0 < n < |names| && n !in order && |names[n]| == |names[p]| + 1
  {
    var n := base[p][k].next;
    ArcParent(base, names, inc, p, k);
    NotExpanded(names, order, head);
    forall l: nat | l < k
      ensures base[p][l].next != n
    {
      TwoTargets(base, names, inc, p, k, l);
    }
    assert names[p] != [];
  }

  /** No queued state is more than one level below the one being expanded. */
  lemma {:induction false} NotDeeper(base: seq<seq<Arc>>, names: Names, inc: real, order: seq<nat>, head: nat, p: nat,
                                     k: nat, i: nat)
    requires Frontier(base, names, order, head, p, k) && Order(names, order) && ArcsOk(base, names, inc)
    requires head < |order| && order[head] == p && i < |order|
    ensures |names[order[i]]| <= |names[p]| + 1
  {
    var n := order[i];
    assert n in order;
    if Init(names[n]) == [] {
    } else if Expanded(names, order[..head], Init(names[n])) {
      var j :| 0 <= j < head && names[order[..head][j]] == Init(names[n]);
      assert |names[order[j]]| <= |names[order[head]]|;
    } else {
      var l: nat :| l < k && l < |base[p]| && base[p][l].next == n;
      ArcParent(base, names, inc, p, l);
    }
  }

  lemma {:induction false} Push(base: seq<seq<Arc>>, names: Names, inc: real, order: seq<nat>, head: nat, p: nat,
                                k: nat)
    requires Frontier(base, names, order, head, p, k) && Order(names, order) && ArcsOk(base, names, inc)
    requires head < |order| && order[head] == p && k < |base[p]|
    ensures Order(names, order + [base[p][k].next]) && Frontier(base, names, order + [base[p][k].next], head, p, k + 1)
  {
    PushOrder(base, names, inc, order, head, p, k);
    PushFrontier(base, names, inc, order, head, p, k);
  }

  lemma {:induction false} PushOrder(base: seq<seq<Arc>>, names: Names, inc: real, order: seq<nat>, head: nat, p: nat,
                                     k: nat)
    requires Frontier(base, names, order, head, p, k) && Order(names, order) && ArcsOk(base, names, inc)
    requires head < |order| && order[head] == p && k < |base[p]|
    ensures Order(names, order + [base[p][k].next])
  {
    hide ArcsOk, PrefixClosed, Expanded, Child;
    NewChild(base, names, inc, order, head, p, k);
    var n := base[p][k].next;
    var order' := order + [n];
    forall i, j | 0 <= i < j < |order'|
      ensures order'[i] != order'[j] && |names[order'[i]]| <= |names[order'[j]]|
    {
      if j == |order| { NotDeeper(base, names, inc, order, head, p, k, i); }
    }
  }

  lemma {:induction false} PushFrontier(base: seq<seq<Arc>>, names: Names, inc: real, order: seq<nat>, head: nat,
                                        p: nat, k: nat)
    requires Frontier(base, names, order, head, p, k) && ArcsOk(base, names, inc)
    requires head < |order| && order[head] == p && k < |base[p]|
    ensures Frontier(base, names, order + [base[p][k].next], head, p, k + 1)
  {
    hide ArcsOk, PrefixClosed, Expanded, Child;
    var n := base[p][k].next;
    var order' := order + [n];
    assert order'[..head] == order[..head];
    ArcParent(base, names, inc, p, k);
    forall m: nat | 0 < m < |names|
      ensures Child(base, p, k + 1, m) <==> Child(base, p, k, m) || m == n
    {
      ChildMore(base, p, k, m);
    }
    forall m: nat | 0 < m < |names|
      ensures m in order' <==>
                && names[m] != []
                && (Init(names[m]) == [] || Expanded(names, order'[..head], Init(names[m])) || Child(base, p, k + 1, m))
    {
      assert m in order' <==> m in order || m == n;
    }
  }

  lemma {:induction false} PushRoot(base: seq<seq<Arc>>, names: Names, inc: real, order: seq<nat>, k: nat)
    requires base != [] && RootFrontier(base, names, order, k) && Order(names, order) && ArcsOk(base, names, inc)
             && k < |base[0]|
    requires forall i :: 0 <= i < |order| ==> |names[order[i]]| == 1
    ensures var n := base[0][k].next; 0 < n < |names| && n !in order && |names[n]| == 1
    ensures Order(names, order + [base[0][k].next]) && RootFrontier(base, names, order + [base[0][k].next], k + 1)
  {
    var n := base[0][k].next;
    ArcParent(base, names, inc, 0, k);
    forall l: nat | l < k
      ensures base[0][l].next != n
    {
      TwoTargets(base, names, inc, 0, k, l);
    }
    forall m: nat | 0 < m < |names|
      ensures Child(base, 0, k + 1, m) <==> Child(base, 0, k, m) || m == n
    {
      ChildMore(base, 0, k, m);
    }
  }

  lemma {:induction false} Pop(base: seq<seq<Arc>>, names: Names, inc: real, order: seq<nat>, head: nat, p: nat)
    requires p < |base| && Frontier(base, names, order, head, p, |base[p]|) && ArcsOk(base, names, inc)
    requires head < |order| && order[head] == p
    ensures Frontier(base, names, order, head + 1, 0, 0)
  {
    hide ArcsOk;
    var popped, popped' := order[..head], order[..head + 1];
    assert popped' == popped + [p];
    forall n: nat | 0 < n < |names|
      ensures !Child(base, 0, 0, n)
      ensures names[n] != [] ==>
                (Expanded(names, popped', Init(names[n])) <==>
                 Expanded(names, popped, Init(names[n])) || Child(base, p, |base[p]|, n))
    {
      ChildIffParent(base, names, inc, p, n);
      if names[n] != [] {
        ExpandedMore(names, popped, p, Init(names[n]));
      }
    }
  }

  lemma {:induction false} StartChildren(base: seq<seq<Arc>>, names: Names, order: seq<nat>, head: nat, p: nat)
    requires Frontier(base, names, order, head, 0, 0) && Order(names, order) && head < |order| && order[head] == p
    ensures Frontier(base, names, order, head, p, 0)
  {
  }

  lemma {:induction false} ExpandedMore(names: Names, popped: seq<nat>, p: nat, s: Path)
    requires p < |names|
    ensures Expanded(names, popped + [p], s) <==> Expanded(names, popped, s) || names[p] == s
  {
    var more := popped + [p];
    if Expanded(names, popped, s) {
      var j :| 0 <= j < |popped| && popped[j] < |names| && names[popped[j]] == s;
      assert more[j] == popped[j];
    }
    assert more[|popped|] == p;
  }

  /** All states that are not deeper than the one being expanded have been queued. */
  lemma {:induction false} ShallowQueued(base: seq<seq<Arc>>, names: Names, order: seq<nat>, head: nat, p: nat, k: nat,
                                         m: nat)
    requires Frontier(base, names, order, head, p, k) && Order(names, order)
    requires head < |order| && order[head] == p && 0 < m < |names| && |names[m]| <= |names[p]|
    ensures m in order
    decreases |names[m]|
  {
    hide Child;
    var s := Init(names[m]);
    if s != [] {
      var q :| 0 <= q < |names| && names[q] == s;
      ShallowQueued(base, names, order, head, p, k, q);
      AheadOf(names, order, head, q);
    }
  }

  /** A queued state that is not as deep as the one being expanded has been expanded. */
  lemma {:induction false} AheadOf(names: Names, order: seq<nat>, head: nat, q: nat)
    requires Order(names, order) && head < |order| && q in order && q < |names| && |names[q]| < |names[order[head]]|
    ensures Expanded(names, order[..head], names[q])
  {
    var i :| 0 <= i < |order| && order[i] == q;
    assert i < head ==> order[..head][i] == q;
  }

  /** When the queue is empty every state has been queued. */
  lemma {:induction false} AllQueued(base: seq<seq<Arc>>, names: Names, order: seq<nat>, m: nat)
    requires Frontier(base, names, order, |order|, 0, 0) && Order(names, order) && 0 < m < |names|
    ensures m in order
    decreases |names[m]|
  {
    var s := Init(names[m]);
    if s != [] {
      var q :| 0 <= q < |names| && names[q] == s;
      AllQueued(base, names, order, q);
      var i :| 0 <= i < |order| && order[i] == q;
      assert order[..|order|][i] == q;
    }
  }

  // ---------- no state is queued twice, so the search ends ----------

  lemma {:induction false} QueueBound(names: Names, order: seq<nat>)
    requires Order(names, order)
    ensures |order| <= |names|
  {
    DistinctElements(order);
    SubsetSize(Elements(order), Below(|names|));
  }
}
