/** Sorting the arcs of a state by label (OpenFst's ArcSort), as the hotword automaton relies on it. */
module ArcOrder {
  import opened ContextGraph
  import opened SuffixTrie
  import opened HotwordTrie

  function Insert(a: Arc, arcs: seq<Arc>): seq<Arc> {
    if arcs == [] || a.ilabel <= arcs[0].ilabel then [a] + arcs else [arcs[0]] + Insert(a, arcs[1..])
  }

  function SortArcs(arcs: seq<Arc>): seq<Arc> {
    if arcs == [] then [] else Insert(arcs[0], SortArcs(arcs[1..]))
  }

  ghost predicate Sorted(arcs: seq<Arc>) {
    forall i, j :: 0 <= i < j < |arcs| ==> arcs[i].ilabel <= arcs[j].ilabel
  }

  /** What a lookup finds: one arc, or none. */
  ghost function Found(arcs: seq<Arc>, x: nat): seq<Arc> {
    var i := FirstMatch(arcs, x);
    if i < |arcs| then [arcs[i]] else []
  }

  ghost predicate NoLabel(arcs: seq<Arc>, x: nat) {
    forall i :: 0 <= i < |arcs| ==> arcs[i].ilabel != x
  }

  lemma {:induction false} FoundFirst(arcs: seq<Arc>, x: nat)
    requires arcs != []
    ensures Found(arcs, x) == if arcs[0].ilabel == x then [arcs[0]] else Found(arcs[1..], x)
  {
  }

  lemma {:induction false} InsertSorts(a: Arc, arcs: seq<Arc>)
    requires Sorted(arcs)
    ensures Sorted(Insert(a, arcs)) && |Insert(a, arcs)| == |arcs| + 1
    ensures Insert(a, arcs)[0].ilabel == if arcs == [] || a.ilabel <= arcs[0].ilabel then a.ilabel else arcs[0].ilabel
  {
    if arcs != [] && a.ilabel > arcs[0].ilabel {
      InsertSorts(a, arcs[1..]);
      var rest := Insert(a, arcs[1..]);
      forall i, j | 0 <= i < j < |rest| + 1
        ensures ([arcs[0]] + rest)[i].ilabel <= ([arcs[0]] + rest)[j].ilabel
      {
        if i > 0 {
          assert rest[i - 1].ilabel <= rest[j - 1].ilabel;
        } else if j > 1 {
          assert rest[0].ilabel <= rest[j - 1].ilabel;
        }
      }
    }
  }

  lemma {:induction false} InsertFinds(a: Arc, arcs: seq<Arc>, x: nat)
    requires Sorted(arcs)
    ensures Found(Insert(a, arcs), x) == if a.ilabel == x then [a] else Found(arcs, x)
  {
    hide Found;
    FoundFirst(Insert(a, arcs), x);
    if arcs != [] && a.ilabel > arcs[0].ilabel {
      InsertFinds(a, arcs[1..], x);
      FoundFirst(arcs, x);
      assert Insert(a, arcs)[1..] == Insert(a, arcs[1..]);
    } else {
      assert Insert(a, arcs)[1..] == arcs;
    }
  }

  /** Sorting keeps what every lookup finds. */
  lemma {:induction false} SortFinds(arcs: seq<Arc>, x: nat)
    ensures Sorted(SortArcs(arcs)) && Found(SortArcs(arcs), x) == Found(arcs, x)
  {
    hide Found, Insert;
    if arcs != [] {
      SortFinds(arcs[1..], x);
      InsertSorts(arcs[0], SortArcs(arcs[1..]));
      InsertFinds(arcs[0], SortArcs(arcs[1..]), x);
      FoundFirst(arcs, x);
    }
  }

  /** An arc with label 0 comes first after sorting. */
  lemma {:induction false} ZeroFirst(arcs: seq<Arc>, a: Arc)
    requires Found(arcs, 0) == [a]
    ensures SortArcs(arcs) != [] && SortArcs(arcs)[0] == a
  {
    hide SortArcs;
    SortFinds(arcs, 0);
    var sorted := SortArcs(arcs);
    var i := FirstMatch(sorted, 0);
    assert sorted[0].ilabel <= sorted[i].ilabel;
  }

  /** A state's lookups are those of the trie. */
  ghost predicate LookupOk(arcs: seq<Arc>, names: Names, inc: real, q: nat, x: nat)
    requires q < |names|
  {
    var i := FirstMatch(arcs, x);
    (i < |arcs| <==> names[q] + [x] in names) && (i < |arcs| ==> ArcOk(names, inc, q, arcs[i]))
  }

  lemma {:induction false} SameLookup(arcs: seq<Arc>, arcs': seq<Arc>, names: Names, inc: real, q: nat, x: nat)
    requires q < |names| && LookupOk(arcs, names, inc, q, x) && Found(arcs', x) == Found(arcs, x)
    ensures LookupOk(arcs', names, inc, q, x)
  {
    assert Found(arcs, x) != [] ==> Found(arcs, x)[0] == arcs[FirstMatch(arcs, x)];
    assert Found(arcs', x) != [] ==> Found(arcs', x)[0] == arcs'[FirstMatch(arcs', x)];
  }

  lemma {:induction false} FoundSnoc(arcs: seq<Arc>, a: Arc, x: nat)
    ensures Found(arcs + [a], x) == if Found(arcs, x) != [] then Found(arcs, x) else if a.ilabel == x then [a] else []
  {
    hide Found;
    if arcs == [] {
      assert [] + [a] == [a] && [a][1..] == [];
      FoundFirst([a], x);
      assert Found([], x) == [] by { FoundNone(x); }
    } else {
      assert (arcs + [a])[1..] == arcs[1..] + [a];
      FoundFirst(arcs + [a], x);
      FoundFirst(arcs, x);
      FoundSnoc(arcs[1..], a, x);
    }
  }

  lemma FoundNone(x: nat)
    ensures Found([], x) == []
  {
  }

  lemma {:induction false} NoneFound(arcs: seq<Arc>, x: nat)
    ensures NoLabel(arcs, x) <==> Found(arcs, x) == []
  {
  }
}
