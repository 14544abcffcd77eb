/** The hotword automaton (bias-lm.cpp): a trie whose states back off to their longest proper suffix, built breadth
    first, and the score of one more label. */
module BiasLm {
  import opened Sequences
  import opened CtcPaths
  import opened ContextGraph
  import opened SuffixTrie
  import opened HotwordTrie
  import opened ArcOrder
  import opened BreadthFirst
  import opened BiasScore

  datatype Node = Node(score: real, isFinal: bool, backOff: int)

  const ROOT: nat := 0

  // ---------- node scores ----------

  ghost predicate ScoreOk(node: Node, q: nat, names: Names, finals: map<nat, real>, inc: real)
    requires q < |names|
  {
    node.score == Mul(inc, |names[q]|) && (node.isFinal <==> q in finals)
  }

  ghost predicate ScoresOk(nodes: seq<Node>, names: Names, finals: map<nat, real>, inc: real) {
    |nodes| == |names| && forall q: nat :: q < |nodes| ==> ScoreOk(nodes[q], q, names, finals, inc)
  }

  /** Nodes on the hotwords seen so far are scored; the others are as they were made. */
  ghost predicate ScoredSo(nodes: seq<Node>, names: Names, finals: map<nat, real>, inc: real, words: seq<Path>) {
    && |nodes| == |names| > 0 && ScoreOk(nodes[0], 0, names, finals, inc)
    && (forall q: nat :: q < |names| ==> (nodes[q].isFinal ==> q in finals))
    && forall q: nat, i: nat :: q < |names| && i < |words| && names[q] <= words[i] ==>
       ScoreOk(nodes[q], q, names, finals, inc)
  }

  /** Before the first label of a hotword only the root is a prefix of what was read of it. */
  lemma {:induction false} RootScored(nodes: seq<Node>, names: Names, finals: map<nat, real>, inc: real,
                                      words: seq<Path>, word: Path)
    requires PrefixClosed(names) && ScoredSo(nodes, names, finals, inc, words)
    ensures ScoredSo(nodes, names, finals, inc, words + [word[..0]])
  {
    hide ScoreOk;
    var seen := words + [word[..0]];
    forall q: nat, i: nat | q < |names| && i < |seen| && names[q] <= seen[i]
      ensures ScoreOk(nodes[q], q, names, finals, inc)
    {
      if i < |words| {
        assert seen[i] == words[i];
      } else {
        assert names[q] == names[0];
        OneState(names, q, 0);
      }
    }
  }

  lemma {:induction false} PrefixInTrie(names: Names, w: Path, j: nat)
    requires PrefixClosed(names) && w in names && j <= |w|
    ensures w[..j] in names
    decreases |w|
  {
    if j == |w| {
      assert w[..j] == w;
    } else {
      var q :| 0 <= q < |names| && names[q] == w;
      PrefixInTrie(names, Init(w), j);
      assert Init(w)[..j] == w[..j];
    }
  }

  /** One more label of a hotword (bias-lm.cpp:66-77). */
  lemma {:induction false} OneMoreScored(nodes: seq<Node>, nodes': seq<Node>, names: Names, finals: map<nat, real>,
                                         inc: real, words: seq<Path>, word: Path, j: nat, q: nat)
    requires PrefixClosed(names) && j < |word| && q < |names| && names[q] == word[..j + 1]
    requires ScoredSo(nodes, names, finals, inc, words + [word[..j]])
    requires |nodes'| == |nodes| && (forall p :: 0 <= p < |nodes| && p != q ==> nodes'[p] == nodes[p])
    requires ScoreOk(nodes'[q], q, names, finals, inc)
    ensures ScoredSo(nodes', names, finals, inc, words + [word[..j + 1]])
  {
    hide ScoreOk, PrefixClosed;
    var seen, seen' := words + [word[..j]], words + [word[..j + 1]];
    NamedNotRoot(names, q);
    forall p: nat, i: nat | p < |names| && i < |seen'| && names[p] <= seen'[i]
      ensures ScoreOk(nodes'[p], p, names, finals, inc)
    {
      if p != q {
        if i < |words| {
          assert seen[i] == seen'[i];
        } else {
          if names[p] == names[q] { OneState(names, p, q); }
          Shorter(names[p], word, j);
          assert seen[|words|] == word[..j];
        }
      }
    }
    forall p: nat | p < |names|
      ensures nodes'[p].isFinal ==> p in finals
    {
      if p == q { FinalIf(nodes'[q], q, names, finals, inc); }
    }
  }

  lemma FinalIf(node: Node, q: nat, names: Names, finals: map<nat, real>, inc: real)
    requires q < |names|
    ensures ScoreOk(node, q, names, finals, inc) ==> (node.isFinal <==> q in finals)
  {
  }

  lemma NamedNotRoot(names: Names, q: nat)
    requires PrefixClosed(names) && q < |names|
    ensures names[q] != [] ==> q != 0
  {
  }

  lemma Shorter(a: Path, word: Path, j: nat)
    requires j < |word| && a <= word[..j + 1] && a != word[..j + 1]
    ensures a <= word[..j]
  {
    assert a == word[..j + 1][..|a|];
    assert |a| <= j;
  }

  lemma RootName(names: Names, lab: nat)
    requires PrefixClosed(names)
    ensures names[0] == [] && ([] + [lab] !in names ==> Longest(names, [] + [lab]) == [])
  {
    assert [] + [lab] == [lab];
    if [lab] !in names { BackOffFromRoot(names, lab); }
  }

  lemma NotRootName(names: Names, q: nat)
    requires PrefixClosed(names) && 0 < q < |names|
    ensures names[q] != []
  {
  }

  class BiasLm {
    const increBias: real
    const size: int
    const blank: int
    var built: bool
    var arcs: seq<seq<Arc>>
    var finals: map<nat, real>
    var nodes: seq<Node>
    ghost var names: Names
    ghost var words: seq<Path>
    ghost var weights: seq<real>

    /** The back-off arc of a state (bias-lm.cpp:84-118). */
    static function BackOffArc(nodes: seq<Node>, q: nat, b: nat): Arc
      requires q < |nodes| && b < |nodes|
    {
      Arc(0, if nodes[q].isFinal then 0.0 else nodes[b].score - nodes[q].score, b)
    }

    static ghost predicate BacksOff(arcs: seq<seq<Arc>>, nodes: seq<Node>, names: Names, q: nat)
      requires q < |names| == |arcs| == |nodes| && names[q] != []
    {
      var b := nodes[q].backOff;
      0 <= b < |names| && names[b] == Longest(names, names[q][1..]) && arcs[q] != []
      && arcs[q][0] == BackOffArc(nodes, q, b)
    }

    ghost predicate Automaton()
      reads this
    {
      && |words| == |weights|
      && PrefixClosed(names) && StatesOk(names, words) && FinalsOk(finals, names, words, weights)
      && ScoresOk(nodes, names, finals, increBias)
      && |arcs| == |names|
      && (forall q: nat, x: nat :: q < |arcs| && x > 0 ==> LookupOk(arcs[q], names, increBias, q, x))
      && (forall q: nat :: 0 < q < |arcs| ==> BacksOff(arcs, nodes, names, q))
      && NoLabel(arcs[0], 0)
    }

    ghost predicate Valid()
      reads this
    {
      built ==> Automaton()
    }

    constructor (increBias: real, size: int, blank: int)
      ensures Valid() && !built && this.increBias == increBias && this.size == size && this.blank == blank
    {
      this.increBias, this.size, this.blank := increBias, size, blank;
      built, arcs, finals, nodes := false, [], map[], [];
      names, words, weights := [], [], [];
    }

    // ---------- building ----------

    /** What is known of the trie while the automaton is built on it. */
    ghost predicate TrieOk(base: seq<seq<Arc>>)
      reads this`names, this`words, this`weights, this`finals
    {
      && |words| == |weights|
      && PrefixClosed(names) && StatesOk(names, words) && FinalsOk(finals, names, words, weights)
      && ArcsOk(base, names, increBias)
    }

    static ghost predicate BackSet(nodes: seq<Node>, names: Names, q: nat)
      requires q < |names| == |nodes|
    {
      var b := nodes[q].backOff;
      names[q] != [] && 0 <= b < |names| && names[b] == Longest(names, names[q][1..])
    }

    /** Queued states have their back-off state and arc; the others are as in the trie. */
    static ghost predicate Linked(base: seq<seq<Arc>>, arcs: seq<seq<Arc>>, nodes: seq<Node>, names: Names,
                                  order: seq<nat>) {
      && |base| == |arcs| == |nodes| == |names|
      && forall q: nat :: q < |names| ==>
           if q in order then BackSet(nodes, names, q) && arcs[q] == base[q] + [BackOffArc(nodes, q, nodes[q].backOff)]
           else arcs[q] == base[q]
    }

    static lemma {:induction false} LinkOne(base: seq<seq<Arc>>, arcs: seq<seq<Arc>>, nodes: seq<Node>, names: Names,
                                            order: seq<nat>, n: nat, b: nat)
      requires Linked(base, arcs, nodes, names, order) && n !in order && n < |names| && b < |names|
      requires names[n] != [] && names[b] == Longest(names, names[n][1..])
      ensures var nodes' := nodes[n := nodes[n].(backOff := b)];
              Linked(base, arcs[n := arcs[n] + [BackOffArc(nodes', n, b)]], nodes', names, order + [n])
    {
      hide Longest;
      var nodes' := nodes[n := nodes[n].(backOff := b)];
      var arcs' := arcs[n := arcs[n] + [BackOffArc(nodes', n, b)]];
      forall q: nat | q < |names|
        ensures if q in order + [n] then BackSet(nodes', names, q)
                && arcs'[q] == base[q] + [BackOffArc(nodes', q, nodes'[q].backOff)]
                else arcs'[q] == base[q]
      {
        if q != n && q in order {
          assert BackOffArc(nodes', q, nodes'[q].backOff) == BackOffArc(nodes, q, nodes[q].backOff);
        }
      }
    }

    /** Set the back-off state of `n` and add the arc to it. */
    method Link(n: nat, b: nat, ghost base: seq<seq<Arc>>, ghost order: seq<nat>)
      requires Linked(base, arcs, nodes, names, order) && n !in order && n < |names| && b < |names|
      requires names[n] != [] && names[b] == Longest(names, names[n][1..])
      requires ScoresOk(nodes, names, finals, increBias)
      modifies this`arcs, this`nodes
      ensures Linked(base, arcs, nodes, names, order + [n]) && ScoresOk(nodes, names, finals, increBias)
    {
      LinkOne(base, arcs, nodes, names, order, n, b);
      ghost var was := nodes;
      nodes := nodes[n := nodes[n].(backOff := b)];
      forall q: nat | q < |nodes|
        ensures ScoreOk(nodes[q], q, names, finals, increBias)
      {
        assert ScoreOk(was[q], q, names, finals, increBias);
      }
      arcs := arcs[n := arcs[n] + [BackOffArc(nodes, n, b)]];
    }

    /** Walk the back-off states from `from` until one has an arc for `lab` (bias-lm.cpp:102-112). */
    method FindBackOff(matcher: seq<seq<Arc>>, from: nat, lab: nat, ghost s: Path) returns (b: nat)
      requires PrefixClosed(names) && ArcsOk(matcher, names, increBias) && |matcher| == |names| == |nodes|
      requires lab > 0 && from < |names| && names[from] == Longest(names, s)
      requires forall q: nat :: 0 < q < |names| && |names[q]| <= |s| ==> BackSet(nodes, names, q)
      ensures b < |names| && names[b] == Longest(names, s + [lab])
    {
      hide PrefixClosed, ArcsOk, FirstMatch, Longest, Order;
      var temp: nat := from;
      Absorb(names, s, lab);
      while true
        invariant temp < |names| && |names[temp]| <= |s|
                  && Longest(names, names[temp] + [lab]) == Longest(names, s + [lab])
        decreases |names[temp]|
      {
        Lookup(matcher, names, increBias, temp, lab);
        var i := FirstMatch(matcher[temp], lab);
        if i < |matcher[temp]| {
          InTrie(names, names[temp] + [lab]);
          return matcher[temp][i].next;
        } else if temp == ROOT {
          RootName(names, lab);
          return ROOT;
        }
        NotRootName(names, temp);
        BackOff(names, names[temp], lab);
        assert BackSet(nodes, names, temp);
        LongestInTrie(names, names[temp]);
        temp := nodes[temp].backOff;
      }
    }

    /** The scores of the nodes along one hotword. */
    method ScoreWord(i: nat, word: Path)
      requires TrieOk(arcs) && i < |words| && word == words[i] && ScoredSo(nodes, names, finals, increBias, words[..i])
      modifies this`nodes
      ensures ScoredSo(nodes, names, finals, increBias, words[..i + 1])
    {
      hide PrefixClosed, ArcsOk, FirstMatch, FinalsOk, StatesOk, ScoredSo;
      InNames(i);
      assert words[..i] + [word] == words[..i + 1];
      var curState: nat, j: nat := 0, 0;
      RootName(names, 0);
      RootScored(nodes, names, finals, increBias, words[..i], word);
      while j < |word|
        invariant j <= |word| && curState < |names| && names[curState] == word[..j] && |nodes| == |names|
        invariant ScoredSo(nodes, names, finals, increBias, words[..i] + [word[..j]])
      {
        PrefixInTrie(names, word, j + 1);
        assert word[..j + 1] == word[..j] + [word[j]];
        Lookup(arcs, names, increBias, curState, word[j]);
        var k := FirstMatch(arcs[curState], word[j]);
        if k < |arcs[curState]| {
          var nextState := arcs[curState][k].next;
          ghost var was := nodes;
          if nextState in finals {
            nodes := nodes[nextState := nodes[nextState].(isFinal := true)];
          }
          nodes := nodes[nextState := nodes[nextState].(score := Mul(increBias, j + 1))];
          FinalBefore(was, nextState, words[..i] + [word[..j]]);
          OneMoreScored(was, nodes, names, finals, increBias, words[..i], word, j, nextState);
          curState := nextState;
        }
        j := j + 1;
      }
      assert word[..j] == word;
    }

    lemma FinalBefore(nodes: seq<Node>, q: nat, words: seq<Path>)
      requires ScoredSo(nodes, names, finals, increBias, words) && q < |names|
      ensures nodes[q].isFinal ==> q in finals
    {
    }

    lemma InNames(i: nat)
      requires TrieOk(arcs) && i < |words| && ScoredSo(nodes, names, finals, increBias, words[..i])
      ensures words[i] in names && |arcs| == |names| == |nodes|
    {
    }

    // What holds while the back-off states are set, with `base` the arcs of the trie.
    ghost predicate Building(base: seq<seq<Arc>>, order: seq<nat>)
      reads this
    {
      && TrieOk(base) && ScoresOk(nodes, names, finals, increBias)
      && Linked(base, arcs, nodes, names, order) && Order(names, order)
    }

    lemma BuildingFacts(base: seq<seq<Arc>>, order: seq<nat>)
      requires Building(base, order)
      ensures |base| == |arcs| == |nodes| == |names| > 0 && PrefixClosed(names) && ArcsOk(base, names, increBias)
      ensures Linked(base, arcs, nodes, names, order) && Order(names, order)
              && ScoresOk(nodes, names, finals, increBias) && TrieOk(base)
    {
    }

    lemma LinkedArcs(base: seq<seq<Arc>>, order: seq<nat>, q: nat)
      requires Building(base, order) && q < |names| == |arcs| == |base| == |nodes|
      ensures if q in order then
                BackSet(nodes, names, q) && arcs[q] == base[q] + [BackOffArc(nodes, q, nodes[q].backOff)]
              else arcs[q] == base[q]
    {
    }

    /** The children of the root back off to the root (bias-lm.cpp:83-91). */
    method LinkRoot(ghost base: seq<seq<Arc>>) returns (queue: seq<nat>)
      requires Building(base, []) && base == arcs
      modifies this`arcs, this`nodes
      ensures Building(base, queue) && Frontier(base, names, queue, 0, 0, 0)
    {
      hide PrefixClosed, ArcsOk, Longest, ScoresOk, FinalsOk, StatesOk, Order, Frontier;
      queue := [];
      BuildingFacts(base, []);
      var k: nat := 0;
      RootName(names, 0);
      assert RootFrontier(base, names, queue, 0);
      while k < |arcs[ROOT]|
        invariant |base| == |arcs| > 0 && k <= |base[0]| && Building(base, queue) && RootFrontier(base, names, queue, k)
                  && arcs[0] == base[0]
        invariant forall i :: 0 <= i < |queue| ==> queue[i] < |names| && |names[queue[i]]| == 1
      {
        hide RootFrontier;
        var arc := arcs[ROOT][k];
        BuildingFacts(base, queue);
        PushRoot(base, names, increBias, queue, k);
        assert names[arc.next][1..] == [];
        InTrie(names, names[0]);
        Link(arc.next, ROOT, base, queue);
        queue := queue + [arc.next];
        LinkedArcs(base, queue, 0);
        k := k + 1;
      }
      RootDone(base, names, increBias, queue);
    }

    /** The back-off states of the children of `state` (bias-lm.cpp:92-119). */
    method LinkChildren(state: nat, matcher: seq<seq<Arc>>, queue0: seq<nat>, ghost order0: seq<nat>, ghost head: nat)
      returns (queue: seq<nat>, ghost order: seq<nat>)
      requires Building(matcher, order0) && Frontier(matcher, names, order0, head, 0, 0)
      requires head < |order0| && order0[head] == state && queue0 == order0[head + 1..]
      modifies this`arcs, this`nodes
      ensures Building(matcher, order) && Frontier(matcher, names, order, head + 1, 0, 0)
      ensures head < |order| && queue == order[head + 1..]
    {
      hide PrefixClosed, ArcsOk, Longest, ScoresOk, FinalsOk, StatesOk, Order, Frontier, Linked, Building;
      queue, order := queue0, order0;
      BuildingFacts(matcher, order);
      StartChildren(matcher, names, order, head, state);
      LinkedArcs(matcher, order, state);
      var k: nat := 0;
      while k < |arcs[state]|
        invariant state < |names| == |arcs| == |nodes| == |matcher| && k <= |matcher[state]| + 1
                  && Building(matcher, order)
        invariant Frontier(matcher, names, order, head, state, if k <= |matcher[state]| then k else |matcher[state]|)
        invariant head < |order| && order[head] == state && queue == order[head + 1..]
        invariant BackSet(nodes, names, state)
                  && arcs[state] == matcher[state] + [BackOffArc(nodes, state, nodes[state].backOff)]
      {
        var arc := arcs[state][k];
        var nextState := arc.next;
        var tempState := nodes[state].backOff;
        if nextState == ROOT || nextState == tempState {
          SkippedArc(matcher, order, head, state, k);
        } else {
          assert k < |matcher[state]|;
          LinkChild(state, k, arc, matcher, order, head);
          queue, order := queue + [nextState], order + [nextState];
          BuildingFacts(matcher, order);
          LinkedArcs(matcher, order, state);
        }
        k := k + 1;
      }
      BuildingFacts(matcher, order);
      Pop(matcher, names, increBias, order, head, state);
    }

    /** The back-off state of one child. */
    method LinkChild(state: nat, k: nat, arc: Arc, matcher: seq<seq<Arc>>, ghost order: seq<nat>, ghost head: nat)
      requires Building(matcher, order) && Frontier(matcher, names, order, head, state, k)
      requires head < |order| && order[head] == state && state < |names| == |arcs| == |nodes| == |matcher|
      requires k < |matcher[state]| && arc == matcher[state][k] && BackSet(nodes, names, state)
      modifies this`arcs, this`nodes
      ensures Building(matcher, order + [arc.next]) && Frontier(matcher, names, order + [arc.next], head, state, k + 1)
      ensures state in order + [arc.next]
    {
      hide PrefixClosed, ArcsOk, Longest, ScoresOk, FinalsOk, StatesOk, Order, Frontier, Linked, Building;
      BuildingFacts(matcher, order);
      NewChild(matcher, names, increBias, order, head, state, k);
      ArcParent(matcher, names, increBias, state, k);
      ShallowLinked(matcher, order, head, state, k);
      ghost var s := names[state][1..];
      assert arc.ilabel > 0 by { LabelPositive(matcher, state, k); }
      var b := FindBackOff(matcher, nodes[state].backOff, arc.ilabel, s);
      UnSnoc(names[arc.next]);
      assert names[arc.next][1..] == s + [arc.ilabel];
      Push(matcher, names, increBias, order, head, state, k);
      Link(arc.next, b, matcher, order);
      StillBuilding(matcher, order + [arc.next]);
      assert (order + [arc.next])[head] == state;
    }

    lemma LabelPositive(base: seq<seq<Arc>>, q: nat, k: nat)
      requires ArcsOk(base, names, increBias) && q < |base| && k < |base[q]|
      ensures base[q][k].ilabel > 0
    {
      assert ArcOk(names, increBias, q, base[q][k]);
    }

    lemma StillBuilding(base: seq<seq<Arc>>, order: seq<nat>)
      requires TrieOk(base) && ScoresOk(nodes, names, finals, increBias)
      requires Linked(base, arcs, nodes, names, order) && Order(names, order)
      ensures Building(base, order)
    {
    }

    /** Only the back-off arc itself is skipped: no child is the root or the back-off state. */
    lemma {:induction false} SkippedArc(base: seq<seq<Arc>>, order: seq<nat>, head: nat, p: nat, k: nat)
      requires Building(base, order) && p < |names| == |arcs| == |nodes| == |base| && k < |arcs[p]|
               && BackSet(nodes, names, p)
      requires arcs[p] == base[p] + [BackOffArc(nodes, p, nodes[p].backOff)]
      requires arcs[p][k].next == 0 || arcs[p][k].next == nodes[p].backOff
      ensures k == |base[p]|
    {
      hide PrefixClosed, ArcsOk, ScoresOk, FinalsOk, StatesOk, Order, Linked, Longest;
      LongestInTrie(names, names[p]);
      RootName(names, 0);
      if k < |base[p]| { ArcParent(base, names, increBias, p, k); }
    }

    /** The states FindBackOff may visit have their back-off states. */
    lemma {:induction false} ShallowLinked(base: seq<seq<Arc>>, order: seq<nat>, head: nat, p: nat, k: nat)
      requires Building(base, order) && Frontier(base, names, order, head, p, k) && |names| == |nodes|
      requires head < |order| && order[head] == p && p < |names| && names[p] != []
      ensures forall q: nat :: 0 < q < |names| && |names[q]| <= |names[p][1..]| ==> BackSet(nodes, names, q)
    {
      hide PrefixClosed, ArcsOk, ScoresOk, FinalsOk, StatesOk, BackSet;
      forall q: nat | 0 < q < |names| && |names[q]| <= |names[p][1..]|
        ensures BackSet(nodes, names, q)
      {
        ShallowQueued(base, names, order, head, p, k, q);
      }
    }

    /** All back-off states, breadth first. */
    method LinkAll(ghost base: seq<seq<Arc>>)
      requires Building(base, []) && base == arcs
      modifies this`arcs, this`nodes
      ensures exists order :: Building(base, order) && forall q: nat :: 0 < q < |names| ==> q in order
    {
      hide PrefixClosed, ArcsOk, Longest, ScoresOk, FinalsOk, StatesOk, Order, Frontier, Linked, Building;
      var matcher := arcs;
      var queue := LinkRoot(base);
      ghost var order, head: nat := queue, 0;
      BoundedQueue(base, order);
      while queue != []
        invariant Building(base, order) && Frontier(base, names, order, head, 0, 0)
        invariant head <= |order| <= |names| && queue == order[head..]
        decreases |names| - head
      {
        var state := queue[0];
        queue := queue[1..];
        queue, order := LinkChildren(state, matcher, queue, order, head);
        BoundedQueue(base, order);
        head := head + 1;
      }
      forall q: nat | 0 < q < |names|
        ensures q in order
      {
        BoundedQueue(base, order);
        AllQueued(base, names, order, q);
      }
    }

    lemma BoundedQueue(base: seq<seq<Arc>>, order: seq<nat>)
      requires Building(base, order)
      ensures Order(names, order) && |order| <= |names|
    {
      QueueBound(names, order);
    }

    /** `fst::ArcSort`. */
    method ArcSort()
      modifies this`arcs
      ensures |arcs| == |old(arcs)| && forall q: nat :: q < |arcs| ==> arcs[q] == SortArcs(old(arcs)[q])
    {
      var q: nat := 0;
      while q < |arcs|
        invariant q <= |arcs| == |old(arcs)|
        invariant forall p: nat :: p < |arcs| ==> arcs[p] == if p < q then SortArcs(old(arcs)[p]) else old(arcs)[p]
      {
        arcs := arcs[q := SortArcs(arcs[q])];
        q := q + 1;
      }
    }

    /** A sorted state still finds its trie arcs, and its back-off arc comes first. */
    static lemma {:induction false} SortedState(base: seq<Arc>, a: Arc, names: Names, inc: real, q: nat, x: nat)
      requires q < |names| && a.ilabel == 0 && x > 0 && LookupOk(base, names, inc, q, x) && NoLabel(base, 0)
      ensures LookupOk(SortArcs(base + [a]), names, inc, q, x) && LookupOk(SortArcs(base), names, inc, q, x)
      ensures SortArcs(base + [a]) != [] && SortArcs(base + [a])[0] == a && NoLabel(SortArcs(base), 0)
    {
      hide LookupOk, SortArcs, Found, NoLabel;
      NoneFound(base, 0);
      FoundSnoc(base, a, 0);
      ZeroFirst(base + [a], a);
      SortFinds(base, 0);
      NoneFound(SortArcs(base), 0);
      SortFinds(base, x);
      SortFinds(base + [a], x);
      FoundSnoc(base, a, x);
      SameLookup(base, SortArcs(base), names, inc, q, x);
      SameLookup(base, SortArcs(base + [a]), names, inc, q, x);
    }

    lemma {:induction false} TrieLookup(base: seq<seq<Arc>>, q: nat, x: nat)
      requires TrieOk(base) && q < |names| && |base| == |names|
      ensures LookupOk(base[q], names, increBias, q, x) && NoLabel(base[q], 0)
    {
      Lookup(base, names, increBias, q, x);
      forall k: nat | k < |base[q]|
        ensures base[q][k].ilabel != 0
      {
        LabelPositive(base, q, k);
      }
    }

    lemma {:induction false} SortedAutomaton(base: seq<seq<Arc>>, before: seq<seq<Arc>>, order: seq<nat>)
      requires TrieOk(base) && ScoresOk(nodes, names, finals, increBias)
      requires Linked(base, before, nodes, names, order) && Order(names, order)
      requires forall q: nat :: 0 < q < |names| ==> q in order
      requires |arcs| == |before| && forall q: nat :: q < |arcs| ==> arcs[q] == SortArcs(before[q])
      ensures Automaton()
    {
      hide SortArcs, LookupOk, ScoresOk, StatesOk, FinalsOk, ArcsOk, PrefixClosed, NoLabel, Longest;
      forall q: nat, x: nat | q < |arcs| && x > 0
        ensures LookupOk(arcs[q], names, increBias, q, x)
        ensures q > 0 ==> names[q] != [] && BacksOff(arcs, nodes, names, q)
        ensures q == 0 ==> NoLabel(arcs[q], 0)
      {
        TrieLookup(base, q, x);
        if q > 0 {
          var a := BackOffArc(nodes, q, nodes[q].backOff);
          assert before[q] == base[q] + [a];
          SortedState(base[q], a, names, increBias, q, x);
        } else {
          assert q !in order;
          SortedState(base[q], Arc(0, 0.0, 0), names, increBias, q, x);
        }
      }
      assert LookupOk(arcs[0], names, increBias, 0, 1) by { NotEmpty(); }
      forall q: nat | 0 < q < |arcs|
        ensures names[q] != [] && BacksOff(arcs, nodes, names, q)
      {
        assert LookupOk(arcs[q], names, increBias, q, 1);
      }
    }

    lemma NotEmpty()
      requires PrefixClosed(names)
      ensures |names| > 0
    {
    }

    static function FreshNodes(n: nat): (r: seq<Node>)
      ensures |r| == n && forall i :: 0 <= i < n ==> r[i] == Node(0.0, false, -1)
    {
      if n == 0 then [] else FreshNodes(n - 1) + [Node(0.0, false, -1)]
    }

    lemma {:induction false} FreshScored()
      requires TrieOk(arcs) && nodes == FreshNodes(|names|)
      ensures ScoredSo(nodes, names, finals, increBias, [])
    {
      MulAdd(increBias, 0, 0);
      assert !IsFinal(words, names[0]);
    }

    lemma {:induction false} AllScored()
      requires TrieOk(arcs) && ScoredSo(nodes, names, finals, increBias, words)
      ensures ScoresOk(nodes, names, finals, increBias)
    {
      hide ScoreOk, FinalsOk, ArcsOk, PrefixClosed;
      forall q: nat | q < |names|
        ensures ScoreOk(nodes[q], q, names, finals, increBias)
      {
        if q > 0 {
          var i :| 0 <= i < |words| && names[q] <= words[i];
        }
      }
    }

    /** The automaton of the hotwords (bias-lm.cpp:31-123). */
    method BuildGraph(splitIdVec: seq<Path>, customWeight: seq<real>)
      requires !built && |splitIdVec| == |customWeight|
      requires forall i, j :: 0 <= i < |splitIdVec| && 0 <= j < |splitIdVec[i]| ==> splitIdVec[i][j] > 0
      modifies this
      ensures Valid() && (built <==> splitIdVec != [])
      ensures built ==> words == splitIdVec && weights == customWeight
    {
      hide PrefixClosed, ArcsOk, FinalsOk, StatesOk, ScoredSo, ScoresOk, Linked, Order;
      if splitIdVec == [] { return; }
      words, weights := splitIdVec, customWeight;
      arcs, finals, names := Determinize(splitIdVec, customWeight, increBias);
      TrieSizes();
      nodes := FreshNodes(|arcs|);
      FreshScored();
      var i: nat := 0;
      assert words[..0] == [];
      while i < |splitIdVec|
        invariant i <= |splitIdVec| == |words| && words == splitIdVec && weights == customWeight && !built
        invariant TrieOk(arcs) && ScoredSo(nodes, names, finals, increBias, words[..i])
      {
        ScoreWord(i, splitIdVec[i]);
        i := i + 1;
      }
      assert words[..i] == words;
      AllScored();
      ghost var base := arcs;
      NoLinks();
      LinkAll(base);
      ghost var before := arcs;
      ghost var order :| Building(base, order) && forall q: nat :: 0 < q < |names| ==> q in order;
      ArcSort();
      SortedAutomaton(base, before, order);
      built := true;
    }

    lemma TrieSizes()
      requires TrieOk(arcs)
      ensures |arcs| == |names|
    {
    }

    lemma NoLinks()
      requires TrieOk(arcs) && ScoresOk(nodes, names, finals, increBias)
      ensures Building(arcs, [])
    {
    }

    /** Whether a label moves the automaton at all. */
    predicate Scored(lab: int)
      reads this`built
    {
      0 < lab < size && built && lab != blank
    }

    /** The score of label `lab` from `hisState`.  The new state is that of the longest suffix of what the old state
        stands for followed by the label; a label that is not scored leaves the caller's `newState` alone. */
    method BiasLmScore(hisState: nat, lab: int, newState0: nat) returns (score: real, newState: nat)
      requires Valid() && (built ==> hisState < |names|)
      ensures !Scored(lab) ==> score == 0.0 && newState == newState0
      ensures Scored(lab) ==> newState < |names| && names[newState] == Longest(names, names[hisState] + [lab as nat])
      ensures Scored(lab) ==> score == StepScore(names, words, weights, increBias, names[hisState], lab as nat)
    {
      hide Automaton, PrefixClosed, Longest, FirstMatch, Walking, StepScore;
      score, newState := 0.0, newState0;
      if lab <= 0 || lab >= size || !built { return; }
      if lab == blank { return; }
      var curState: nat := hisState;
      ghost var x: nat := lab;
      ghost var u := names[hisState];
      SameSizes();
      WalkStart(hisState, x);
      while true
        invariant curState < |names| && Walking(curState, u, x, score)
        decreases |names[curState]|
      {
        var prevState := curState;
        var i := FirstMatch(arcs[curState], lab);
        ArcFacts(curState, x);
        if i < |arcs[curState]| {
          var nextState := arcs[curState][i].next;
          WalkMatch(curState, u, x, score);
          score := score + arcs[curState][i].weight;
          if nodes[nextState].isFinal {
            score := score + finals[nextState];
          }
          curState := nextState;
          break;
        } else {
          if curState >= |arcs| { break; }
          if |arcs[curState]| == 0 {
            WalkRoot(curState, u, x, score);
            break;
          }
          var arc := arcs[curState][0];
          if arc.ilabel == 0 {
            WalkBack(curState, u, x, score);
            score := score + arc.weight;
            if arc.next == curState { break; }
            curState := arc.next;
          } else {
            WalkRoot(curState, u, x, score);
            break;
          }
          if prevState == ROOT && curState == ROOT { break; }
        }
      }
      newState := curState;
    }

    /** Label `x` from string `u` is being looked up; back-offs have led to state `q`. */
    ghost predicate Walking(q: nat, u: Path, x: nat, score: real)
      requires q < |names|
      reads this`names, this`words
    {
      && Longest(names, names[q] + [x]) == Longest(names, u + [x])
      && score == Mul(increBias, |names[q]| - |u|) + Kept(names, words, increBias, u, x)
         - Kept(names, words, increBias, names[q], x)
    }

    lemma WalkStart(q: nat, x: nat)
      requires q < |names|
      ensures Walking(q, names[q], x, 0.0)
    {
      hide Kept, Longest;
      MulAdd(increBias, 0, 0);
    }

    lemma {:induction false} WalkMatch(q: nat, u: Path, x: nat, score: real)
      requires Automaton() && q < |names| == |arcs| == |nodes| && x > 0 && Walking(q, u, x, score)
               && |words| == |weights|
      requires FirstMatch(arcs[q], x) < |arcs[q]|
      ensures var a := arcs[q][FirstMatch(arcs[q], x)];
              && a.next < |names| && names[a.next] == Longest(names, u + [x])
              && (nodes[a.next].isFinal ==> a.next in finals)
              && score + a.weight + (if nodes[a.next].isFinal then finals[a.next] else 0.0)
                 == StepScore(names, words, weights, increBias, u, x)
    {
      hide Automaton, Kept, Longest, FirstMatch, Mul, IsFinal, FinalWeight;
      ArcFacts(q, x);
      MatchStep(names, words, increBias, names[q], u, x);
      NodeFacts(arcs[q][FirstMatch(arcs[q], x)].next);
    }

    lemma {:induction false} WalkRoot(q: nat, u: Path, x: nat, score: real)
      requires Automaton() && q < |names| == |arcs| && x > 0 && Walking(q, u, x, score) && |words| == |weights|
      requires names[q] + [x] !in names && (arcs[q] == [] || arcs[q][0].ilabel != 0)
      ensures names[q] == Longest(names, u + [x]) && score == StepScore(names, words, weights, increBias, u, x)
    {
      hide Automaton, Kept, Longest, Mul, IsFinal, FinalWeight;
      AtRoot(q, x);
    }

    lemma {:induction false} WalkBack(q: nat, u: Path, x: nat, score: real)
      requires Automaton() && q < |names| == |arcs| == |nodes| && x > 0 && Walking(q, u, x, score)
               && PrefixClosed(names)
      requires names[q] + [x] !in names && arcs[q] != [] && arcs[q][0].ilabel == 0
      ensures var a := arcs[q][0];
              a.next < |names| && a.next != q && |names[a.next]| < |names[q]| && Walking(a.next, u, x, score + a.weight)
    {
      hide Automaton, Kept, Longest, Mul, IsFinal, BacksOff, PrefixClosed;
      SameSizes();
      NotRoot(q, x);
      BackOffStep(names, words, increBias, names[q], u, x);
      BackOffWeight(q);
    }

    lemma SameSizes()
      requires Automaton()
      ensures |arcs| == |names| == |nodes| && |words| == |weights| && PrefixClosed(names)
    {
    }

    lemma {:induction false} ArcFacts(q: nat, x: nat)
      requires Automaton() && q < |arcs| == |names| && x > 0
      ensures var i := FirstMatch(arcs[q], x);
              && (i < |arcs[q]| <==> names[q] + [x] in names)
              && (i < |arcs[q]| ==>
                    var a := arcs[q][i]; a.weight == increBias && a.next < |names| && names[a.next] == names[q] + [x])
    {
      hide FirstMatch;
      assert LookupOk(arcs[q], names, increBias, q, x);
    }

    lemma {:induction false} NodeFacts(q: nat)
      requires Automaton() && q < |nodes| == |names| && |words| == |weights|
      ensures nodes[q].isFinal <==> IsFinal(words, names[q])
      ensures nodes[q].isFinal ==> q in finals && finals[q] == FinalWeight(words, weights, names[q])
      ensures nodes[q].score == Mul(increBias, |names[q]|)
    {
      assert ScoreOk(nodes[q], q, names, finals, increBias);
    }

    /** A state without a back-off arc in front is the root. */
    lemma {:induction false} AtRoot(q: nat, x: nat)
      requires Automaton() && q < |arcs| == |names| && x > 0 && names[q] + [x] !in names
      requires arcs[q] == [] || arcs[q][0].ilabel != 0
      ensures q == 0 && names[q] == [] && Longest(names, names[q] + [x]) == []
      ensures Kept(names, words, increBias, [], x) == 0.0 && !IsFinal(words, [])
    {
      assert q > 0 ==> BacksOff(arcs, nodes, names, q);
      assert [] + [x] == [x];
      BackOffFromRoot(names, x);
    }

    lemma {:induction false} NotRoot(q: nat, x: nat)
      requires Automaton() && q < |arcs| == |names| == |nodes| && arcs[q] != [] && arcs[q][0].ilabel == 0
      ensures 0 < q && BacksOff(arcs, nodes, names, q) && names[q] != []
    {
      assert NoLabel(arcs[0], 0);
    }

    lemma {:induction false} BackOffWeight(q: nat)
      requires Automaton() && |words| == |weights| && 0 < q < |arcs| == |names| == |nodes| && names[q] != []
               && BacksOff(arcs, nodes, names, q)
      ensures var b := arcs[q][0].next;
              && b < |names| && names[b] == Longest(names, names[q][1..]) && b != q
              && arcs[q][0].weight == if IsFinal(words, names[q]) then 0.0 else Mul(increBias, |names[b]| - |names[q]|)
    {
      hide Longest, IsFinal, PrefixClosed, Mul;
      var b := arcs[q][0].next;
      Facts(q, b);
      MulAdd(increBias, |names[b]|, |names[q]|);
    }

    lemma Facts(p: nat, q: nat)
      requires Automaton() && p < |nodes| == |names| && q < |nodes| && |words| == |weights|
      ensures nodes[p].isFinal <==> IsFinal(words, names[p])
      ensures nodes[p].score == Mul(increBias, |names[p]|) && nodes[q].score == Mul(increBias, |names[q]|)
    {
      hide Mul;
      NodeFacts(p);
      NodeFacts(q);
    }
  }
}
