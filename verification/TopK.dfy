/** The k best entries of a score vector (`TopK` of util.h), as selected with a bounded priority queue. */
module TopK {
  import opened FiniteSets

  /** The program's `ValueComp`: higher values first, and on equal values the lower index first. */
  predicate Before(data: seq<real>, i: nat, j: nat)
    requires i < |data| && j < |data|
  {
    data[i] > data[j] || (data[i] == data[j] && i < j)
  }

  /** `indices` lists exactly the first `min(k, n)` entries of `data` in that order. */
  ghost predicate IsTopK(data: seq<real>, k: nat, values: seq<real>, indices: seq<nat>) {
    && |indices| == |values| == (if k < |data| then k else |data|)
    && (forall r :: 0 <= r < |indices| ==> indices[r] < |data| && values[r] == data[indices[r]])
    && (forall r, q :: 0 <= r < q < |indices| ==> Before(data, indices[r], indices[q]))
    && (forall j, r :: 0 <= j < |data| && j !in indices && 0 <= r < |indices| ==> Before(data, indices[r], j))
  }

  /** The queue's top: the entry that comes last in the order. */
  predicate IsTop(data: seq<real>, queue: set<nat>, top: nat) {
    top in queue && top < |data| && forall j :: j in queue && j != top ==> j < |data| && Before(data, j, top)
  }

  lemma {:induction false} TopExists(data: seq<real>, queue: set<nat>)
    requires queue != {} && forall j :: j in queue ==> j < |data|
    ensures exists top :: IsTop(data, queue, top)
  {
    var j :| j in queue;
    var rest := queue - {j};
    if rest == {} {
      assert queue == {j};
      assert IsTop(data, queue, j);
    } else {
      TopExists(data, rest);
      var top :| IsTop(data, rest, top);
      assert queue == rest + {j};
      if Before(data, j, top) {
        assert IsTop(data, queue, top);
      } else {
        assert IsTop(data, queue, j);
      }
    }
  }

  /** The queue holds the best entries among those looked at so far. */
  ghost predicate HoldsBest(data: seq<real>, queue: set<nat>, looked: nat) {
    && (forall j :: j in queue ==> j < looked <= |data|)
    && (forall j, i :: 0 <= j < looked <= |data| && j !in queue && i in queue ==> Before(data, i, j))
  }

  /** One more entry is looked at: it replaces the top exactly when its value is higher. */
  lemma {:induction false} LookAtNext(data: seq<real>, queue: set<nat>, i: nat, top: nat)
    requires i < |data| && HoldsBest(data, queue, i) && IsTop(data, queue, top)
    ensures HoldsBest(data, if data[top] < data[i] then queue - {top} + {i} else queue, i + 1)
  {
    forall j | j in queue
      ensures data[j] >= data[top] && (data[top] >= data[i] ==> Before(data, j, i))
    {
      assert j == top || Before(data, j, top);
    }
  }

  /** The first entries go in as they come. */
  method FirstEntries(data: seq<real>, k: nat) returns (queue: set<nat>, i: nat)
    ensures i == (if k < |data| then k else |data|) && queue == Below(i)
  {
    i, queue := 0, {};
    while i < k && i < |data|
      invariant i <= |data| && i <= k && queue == Below(i)
    {
      queue := queue + {i};
      i := i + 1;
    }
  }

  lemma FirstAreBest(data: seq<real>, i: nat)
    requires i <= |data|
    ensures HoldsBest(data, Below(i), i)
  {
  }

  method FillQueue(data: seq<real>, k: nat) returns (queue: set<nat>)
    requires k > 0
    ensures |queue| == (if k < |data| then k else |data|)
    ensures HoldsBest(data, queue, |data|)
  {
    hide Before, HoldsBest, IsTop, Below;
    var i: nat;
    queue, i := FirstEntries(data, k);
    FirstAreBest(data, i);
    while i < |data|
      invariant i <= |data| && |queue| == (if k < |data| then k else |data|)
      invariant HoldsBest(data, queue, i)
    {
      Held(data, queue, i);
      var top := Top(data, queue);
      LookAtNext(data, queue, i, top);
      if data[top] < data[i] {
        TopReplaced(data, queue, i, top);
        queue := queue - {top} + {i};
      }
      i := i + 1;
    }
  }

  /** `pqueue_.top()`. */
  method Top(data: seq<real>, queue: set<nat>) returns (top: nat)
    requires queue != {} && forall j :: j in queue ==> j < |data|
    ensures IsTop(data, queue, top) && top in queue && top < |data|
  {
    hide Before;
    TopExists(data, queue);
    top :| top in queue && IsTop(data, queue, top);
  }

  lemma Held(data: seq<real>, queue: set<nat>, looked: nat)
    requires HoldsBest(data, queue, looked)
    ensures forall j :: j in queue ==> j < |data|
  {
    hide Before;
  }

  lemma TopReplaced(data: seq<real>, queue: set<nat>, i: nat, top: nat)
    requires HoldsBest(data, queue, i) && IsTop(data, queue, top)
    ensures top < |data| && |queue - {top} + {i}| == |queue|
  {
    hide Before;
  }

  /** The entries taken from the queue stand in order behind all that are still in it. */
  ghost predicate Taken(data: seq<real>, all: set<nat>, queue: set<nat>, values: seq<real>, indices: seq<nat>) {
    && queue <= all && |indices| + |queue| == |all| && |indices| == |values|
    && (forall j :: j in all <==> j in queue || j in indices)
    && (forall r :: 0 <= r < |indices| ==> indices[r] !in queue && indices[r] < |data| && values[r] == data[indices[r]])
    && (forall r, q :: 0 <= r < q < |indices| ==> Before(data, indices[r], indices[q]))
    && (forall j, r :: j in queue && 0 <= r < |indices| ==> j < |data| && Before(data, j, indices[r]))
  }

  lemma {:induction false} TakeTop(data: seq<real>, all: set<nat>, queue: set<nat>, values: seq<real>,
                                   indices: seq<nat>, top: nat)
    requires Taken(data, all, queue, values, indices) && IsTop(data, queue, top)
    ensures Taken(data, all, queue - {top}, [data[top]] + values, [top] + indices)
  {
    hide Before;
    var indices' := [top] + indices;
    assert forall r :: 0 < r < |indices'| ==> indices'[r] == indices[r - 1];
    forall j
      ensures j in indices' <==> j == top || j in indices
    {
    }
  }

  /** The index order breaks ties, so the answer is unique: the heap's internal order cannot show. */
  method Select(data: seq<real>, k: nat) returns (values: seq<real>, indices: seq<nat>)
    requires k > 0
    ensures IsTopK(data, k, values, indices)
  {
    hide Before, Taken, IsTop, HoldsBest, IsTopK;
    var queue := FillQueue(data, k);
    values, indices := [], [];
    ghost var all := queue;
    NoneTaken(data, queue);
    while queue != {}
      invariant HoldsBest(data, all, |data|) && Taken(data, all, queue, values, indices)
      decreases queue
    {
      StillBelow(data, all, queue, values, indices);
      var top := Top(data, queue);
      TakeTop(data, all, queue, values, indices, top);
      values, indices := [data[top]] + values, [top] + indices;
      queue := queue - {top};
    }
    AllTaken(data, k, all, values, indices);
  }

  lemma NoneTaken(data: seq<real>, all: set<nat>)
    ensures Taken(data, all, all, [], [])
  {
  }

  lemma StillBelow(data: seq<real>, all: set<nat>, queue: set<nat>, values: seq<real>, indices: seq<nat>)
    requires HoldsBest(data, all, |data|) && Taken(data, all, queue, values, indices)
    ensures forall j :: j in queue ==> j < |data|
  {
    hide Before;
  }

  lemma {:induction false} AllTaken(data: seq<real>, k: nat, all: set<nat>, values: seq<real>, indices: seq<nat>)
    requires HoldsBest(data, all, |data|) && Taken(data, all, {}, values, indices)
    requires |all| == if k < |data| then k else |data|
    ensures IsTopK(data, k, values, indices)
  {
    hide Before;
  }

  /** `IsTopK` determines the selection. */
  lemma {:induction false} TopKUnique(data: seq<real>, k: nat, values: seq<real>, indices: seq<nat>, values': seq<real>,
                                      indices': seq<nat>)
    requires IsTopK(data, k, values, indices) && IsTopK(data, k, values', indices')
    ensures indices == indices' && values == values'
  {
    var m := |indices|;
    var r := 0;
    while r < m
      invariant 0 <= r <= m && indices[..r] == indices'[..r]
    {
      if indices[r] != indices'[r] {
        FirstDiffer(data, k, values, indices, values', indices', r);
        FirstDiffer(data, k, values', indices', values, indices, r);
      }
      r := r + 1;
    }
    assert indices == indices[..m] == indices'[..m] == indices';
  }

  lemma {:induction false} FirstDiffer(data: seq<real>, k: nat, values: seq<real>, indices: seq<nat>,
                                       values': seq<real>, indices': seq<nat>, r: nat)
    requires IsTopK(data, k, values, indices) && IsTopK(data, k, values', indices')
    requires r < |indices| && indices[..r] == indices'[..r] && indices[r] != indices'[r]
    ensures Before(data, indices'[r], indices[r])
  {
    forall p | 0 <= p < r
      ensures indices[p] == indices'[p]
    {
      assert indices[..r][p] == indices'[..r][p];
    }
    var x := indices[r];
    if x in indices' {
      var q :| 0 <= q < |indices'| && indices'[q] == x;
    }
  }

  /** With k at least the number of entries, every entry is selected. */
  lemma {:induction false} SelectsAll(data: seq<real>, k: nat, values: seq<real>, indices: seq<nat>)
    requires IsTopK(data, k, values, indices) && k >= |data|
    ensures forall j :: 0 <= j < |data| ==> j in indices
  {
    assert Distinct(indices);
    DistinctElements(indices);
    SameSizeSubset(Elements(indices), Below(|data|));
    assert forall j: nat :: j < |data| ==> j in Below(|data|);
  }
}
