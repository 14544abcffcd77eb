/** The chains of the hotword graph are determinized (context_graph.cpp:72-76): states of equal names become one. */
module HotwordMerge {
  import opened Sequences
  import opened ContextGraph
  import opened HotwordGraph

  /** Arc `a` of the merged state `q` comes from arc `i` of the chain state `s` of the same name. */
  ghost predicate FromChain(arcs: seq<seq<Arc>>, names: seq<Hotword>, gnames: seq<Hotword>, q: nat, a: Arc,
                            s: nat, i: nat)
    requires |arcs| == |names| && q < |gnames|
  {
    && s < |arcs| && i < |arcs[s]| && names[s] == gnames[q]
    && arcs[s][i].ilabel == a.ilabel && arcs[s][i].weight == a.weight && a.next < |gnames|
    && (arcs[s][i].next == 0 <==> a.next == 0)
    && (a.next != 0 ==> gnames[a.next] == gnames[q] + [a.ilabel])
  }

  ghost predicate IsOfChain(arcs: seq<seq<Arc>>, names: seq<Hotword>, gnames: seq<Hotword>, q: nat, a: Arc)
    requires |arcs| == |names| && q < |gnames|
  {
    exists s, i :: FromChain(arcs, names, gnames, q, a, s, i)
  }

  /** `g` is deterministic, each of its arcs comes from a chain arc, and every chain arc is represented. */
  ghost predicate Determinized(arcs: seq<seq<Arc>>, names: seq<Hotword>, g: Graph, gnames: seq<Hotword>)
    requires |arcs| == |names|
  {
    && |g.arcs| == |gnames| > 0 && g.finals == {0} && gnames[0] == []
    && (forall q :: 0 < q < |gnames| ==> gnames[q] != [] && exists s :: 0 < s < |names| && names[s] == gnames[q])
    && (forall q :: 0 <= q < |g.arcs| ==> LabelsDiffer(g.arcs[q]))
    && (forall q, k :: 0 <= q < |g.arcs| && 0 <= k < |g.arcs[q]| ==>
          IsOfChain(arcs, names, gnames, q, g.arcs[q][k]))
    && (forall s, i, q :: 0 <= s < |arcs| && 0 <= i < |arcs[s]| && 0 <= q < |g.arcs| && names[s] == gnames[q] ==>
          HasArc(g.arcs[q], arcs[s][i].ilabel))
  }

  ghost predicate LabelsDiffer(arcs: seq<Arc>) {
    forall i, j :: 0 <= i < j < |arcs| ==> arcs[i].ilabel != arcs[j].ilabel
  }

  // ---------- the merged graph ----------

  /** The names without repetition, in the order of their first occurrence. */
  function Distinct(names: seq<Hotword>): (r: seq<Hotword>)
    ensures forall u :: u in r <==> u in names
    ensures forall i, j :: 0 <= i < j < |r| ==> r[i] != r[j]
    ensures names != [] ==> r != [] && r[0] == names[0]
  {
    if names == [] then []
    else
      var r := Distinct(Init(names));
      assert forall u :: u in names <==> u in Init(names) || u == Last(names);
      if Last(names) in r then r else r + [Last(names)]
  }

  function IndexOf(names: seq<Hotword>, u: Hotword): (q: nat)
    requires u in names
    ensures q < |names| && names[q] == u
  {
    if names[0] == u then 0 else 1 + IndexOf(names[1..], u)
  }

  /** The arcs that leave the first `n` states where they have the given name. */
  function Gathered(arcs: seq<seq<Arc>>, names: seq<Hotword>, u: Hotword, n: nat): (r: seq<Arc>)
    requires n <= |arcs| == |names|
    ensures forall a :: a in r <==> exists s :: 0 <= s < n && names[s] == u && a in arcs[s]
  {
    if n == 0 then [] else Gathered(arcs, names, u, n - 1) + if names[n - 1] == u then arcs[n - 1] else []
  }

  /** The first arc of each label. */
  function FirstOfLabel(arcs: seq<Arc>): (r: seq<Arc>)
    ensures LabelsDiffer(r)
    ensures forall i :: 0 <= i < |r| ==> r[i] in arcs
  {
    if arcs == [] then []
    else
      var r, last := FirstOfLabel(Init(arcs)), Last(arcs);
      if HasArc(r, last.ilabel) then r else r + [last]
  }

  lemma {:induction false} FirstHasLabel(arcs: seq<Arc>, i: nat)
    requires i < |arcs|
    ensures HasArc(FirstOfLabel(arcs), arcs[i].ilabel)
  {
    var r := FirstOfLabel(Init(arcs));
    if i < |arcs| - 1 {
      FirstHasLabel(Init(arcs), i);
      MoreArcs(r, FirstOfLabel(arcs), arcs[i].ilabel);
    } else if !HasArc(r, arcs[i].ilabel) {
      assert FirstOfLabel(arcs)[|r|] == arcs[i];
    }
  }

  /** A state of the chains becomes the merged state of its name. */
  function Merged(names: seq<Hotword>, gnames: seq<Hotword>, next: nat): nat {
    if 0 < next < |names| && names[next] in gnames then IndexOf(gnames, names[next]) else 0
  }

  function MergedArcs(names: seq<Hotword>, gnames: seq<Hotword>, arcs: seq<Arc>): (r: seq<Arc>)
    ensures |r| == |arcs| && forall i :: 0 <= i < |r| ==> r[i] == arcs[i].(next := Merged(names, gnames, arcs[i].next))
  {
    seq(|arcs|, i requires 0 <= i < |arcs| => arcs[i].(next := Merged(names, gnames, arcs[i].next)))
  }

  lemma MergedLabel(names: seq<Hotword>, gnames: seq<Hotword>, arcs: seq<Arc>, k: nat)
    requires k < |arcs|
    ensures MergedArcs(names, gnames, arcs)[k].ilabel == arcs[k].ilabel
  {
  }

  function OutOf(arcs: seq<seq<Arc>>, names: seq<Hotword>, u: Hotword): seq<Arc>
    requires |arcs| == |names|
  {
    MergedArcs(names, Distinct(names), FirstOfLabel(Gathered(arcs, names, u, |arcs|)))
  }

  function MergedGraph(arcs: seq<seq<Arc>>, names: seq<Hotword>): (g: Graph)
    requires |arcs| == |names|
    ensures |g.arcs| == |Distinct(names)| && g.finals == {0}
    ensures forall q :: 0 <= q < |g.arcs| ==> g.arcs[q] == OutOf(arcs, names, Distinct(names)[q])
  {
    var gnames := Distinct(names);
    Graph(seq(|gnames|, q requires 0 <= q < |gnames| => OutOf(arcs, names, gnames[q])), {0})
  }

  // ---------- what it keeps of the chains ----------

  /** A word arc of the chains leads to the name one word longer, or back to the start. */
  ghost predicate LeadsOn(names: seq<Hotword>, name: Hotword, a: Arc) {
    a.next != 0 ==> a.next < |names| && names[a.next] == name + [a.ilabel]
  }

  lemma {:induction false} ChainLeadsOn(cfg: Config, hotwords: seq<Hotword>, bases: seq<real>, arcs: seq<seq<Arc>>,
                                        names: seq<Hotword>, s: nat, i: nat)
    requires |hotwords| == |bases| && ChainsOk(cfg, hotwords, bases, arcs, names) && s < |arcs| && i < |arcs[s]|
    ensures LeadsOn(names, names[s], arcs[s][i])
  {
    hide Pending, WordScore, Spelled;
    var a := arcs[s][i];
    assert ArcOk(cfg, hotwords, bases, names, names[s], a);
    var c, j :| 0 <= c < |hotwords| && ArcOf(cfg, hotwords[c], bases[c], names, names[s], a, j);
    assert a.next != 0 ==> hotwords[c][..j + 1] == names[s] + [a.ilabel];
  }

  /** Every arc of a merged state comes from the chains. */
  lemma {:induction false} OutComesFrom(arcs: seq<seq<Arc>>, names: seq<Hotword>, q: nat, k: nat)
    requires |arcs| == |names| > 0 && names[0] == [] && (forall s :: 0 < s < |names| ==> names[s] != [])
    requires forall s, i :: 0 <= s < |arcs| && 0 <= i < |arcs[s]| ==> LeadsOn(names, names[s], arcs[s][i])
    requires q < |Distinct(names)| && k < |OutOf(arcs, names, Distinct(names)[q])|
    ensures IsOfChain(arcs, names, Distinct(names), q, OutOf(arcs, names, Distinct(names)[q])[k])
  {
    var gnames := Distinct(names);
    var u := gnames[q];
    var a := FirstOfLabel(Gathered(arcs, names, u, |arcs|))[k];
    assert a in Gathered(arcs, names, u, |arcs|);
    var s :| 0 <= s < |arcs| && names[s] == u && a in arcs[s];
    var i :| 0 <= i < |arcs[s]| && arcs[s][i] == a;
    assert LeadsOn(names, names[s], arcs[s][i]);
    assert a.next != 0 ==> names[a.next] in gnames && names[a.next] != [];
    assert FromChain(arcs, names, gnames, q, OutOf(arcs, names, u)[k], s, i);
  }

  /** Every arc of the chains is represented. */
  lemma {:induction false} OutHasArc(arcs: seq<seq<Arc>>, names: seq<Hotword>, s: nat, i: nat)
    requires |arcs| == |names| && s < |arcs| && i < |arcs[s]|
    ensures HasArc(OutOf(arcs, names, names[s]), arcs[s][i].ilabel)
  {
    hide FirstOfLabel, MergedArcs;
    var gathered := Gathered(arcs, names, names[s], |arcs|);
    assert arcs[s][i] in gathered;
    var j: nat :| j < |gathered| && gathered[j] == arcs[s][i];
    FirstHasLabel(gathered, j);
    var first := FirstOfLabel(gathered);
    var k :| 0 <= k < |first| && first[k].ilabel == arcs[s][i].ilabel;
    MergedLabel(names, Distinct(names), first, k);
  }

  /** The merged graph of well-built chains is determinized. */
  lemma {:induction false} MergedIsDeterminized(cfg: Config, hotwords: seq<Hotword>, bases: seq<real>,
                                                arcs: seq<seq<Arc>>, names: seq<Hotword>)
    requires |hotwords| == |bases| && ChainsOk(cfg, hotwords, bases, arcs, names)
    ensures var g, gnames := MergedGraph(arcs, names), Distinct(names);
            Determinized(arcs, names, g, gnames) && WellFormed(g)
  {
    hide ArcOk, Spelled, OutOf, IsOfChain;
    var g, gnames := MergedGraph(arcs, names), Distinct(names);
    forall s, i | 0 <= s < |arcs| && 0 <= i < |arcs[s]|
      ensures LeadsOn(names, names[s], arcs[s][i])
    {
      ChainLeadsOn(cfg, hotwords, bases, arcs, names, s, i);
    }
    forall q | 0 < q < |gnames|
      ensures gnames[q] != [] && exists s :: 0 < s < |names| && names[s] == gnames[q]
    {
      assert gnames[q] in names && gnames[0] != gnames[q];
    }
    forall q | 0 <= q < |g.arcs|
      ensures LabelsDiffer(g.arcs[q])
    {
      OutDiffers(arcs, names, gnames[q]);
    }
    forall q, k | 0 <= q < |g.arcs| && 0 <= k < |g.arcs[q]|
      ensures IsOfChain(arcs, names, gnames, q, g.arcs[q][k])
      ensures g.arcs[q][k].next < |g.arcs|
    {
      OutComesFrom(arcs, names, q, k);
      OfChainNext(arcs, names, gnames, q, g.arcs[q][k]);
    }
    forall s, i, q | 0 <= s < |arcs| && 0 <= i < |arcs[s]| && 0 <= q < |g.arcs| && names[s] == gnames[q]
      ensures HasArc(g.arcs[q], arcs[s][i].ilabel)
    {
      OutHasArc(arcs, names, s, i);
    }
  }

  lemma {:induction false} OutDiffers(arcs: seq<seq<Arc>>, names: seq<Hotword>, u: Hotword)
    requires |arcs| == |names|
    ensures LabelsDiffer(OutOf(arcs, names, u))
  {
    assert LabelsDiffer(FirstOfLabel(Gathered(arcs, names, u, |arcs|)));
  }

  lemma OfChainNext(arcs: seq<seq<Arc>>, names: seq<Hotword>, gnames: seq<Hotword>, q: nat, a: Arc)
    requires |arcs| == |names| && q < |gnames| && IsOfChain(arcs, names, gnames, q, a)
    ensures a.next < |gnames|
  {
  }

  // ---------- nothing is lost by taking the first arc of a label ----------

  ghost predicate PrefixFree(hotwords: seq<Hotword>) {
    forall c, d :: 0 <= c < |hotwords| && 0 <= d < |hotwords| ==> !(hotwords[c] < hotwords[d])
  }

  /** With equal scores and no hotword beginning another, arcs of one label out of states of one name agree. */
  lemma {:induction false} ArcsAgree(cfg: Config, hotwords: seq<Hotword>, bases: seq<real>, arcs: seq<seq<Arc>>,
                                     names: seq<Hotword>, s: nat, i: nat, t: nat, k: nat)
    requires |hotwords| == |bases| && ChainsOk(cfg, hotwords, bases, arcs, names) && PrefixFree(hotwords)
    requires forall c, d :: 0 <= c < |bases| && 0 <= d < |bases| ==> bases[c] == bases[d]
    requires s < |arcs| && i < |arcs[s]| && t < |arcs| && k < |arcs[t]|
    requires names[s] == names[t] && arcs[s][i].ilabel == arcs[t][k].ilabel
    ensures arcs[s][i].weight == arcs[t][k].weight
    ensures arcs[s][i].next < |names| && arcs[t][k].next < |names|
    ensures names[arcs[s][i].next] == names[arcs[t][k].next]
  {
    hide Pending, WordScore, Spelled;
    var a, b := arcs[s][i], arcs[t][k];
    assert ArcOk(cfg, hotwords, bases, names, names[s], a) && ArcOk(cfg, hotwords, bases, names, names[t], b);
    var c, j :| 0 <= c < |hotwords| && ArcOf(cfg, hotwords[c], bases[c], names, names[s], a, j);
    var d, l :| 0 <= d < |hotwords| && ArcOf(cfg, hotwords[d], bases[d], names, names[t], b, l);
    assert bases[c] == bases[d];
    TwoArcs(cfg, hotwords[c], hotwords[d], bases[c], names, names[s], a, j, b, l);
  }

  lemma {:induction false} TwoArcs(cfg: Config, words: Hotword, words': Hotword, base: real, names: seq<Hotword>,
                                   name: Hotword, a: Arc, j: nat, b: Arc, l: nat)
    requires |names| > 0 && !(words < words') && !(words' < words) && a.ilabel == b.ilabel
    requires ArcOf(cfg, words, base, names, name, a, j) && ArcOf(cfg, words', base, names, name, b, l)
    ensures a.weight == b.weight && a.next < |names| && b.next < |names| && names[a.next] == names[b.next]
  {
    hide Pending, WordScore;
    assert j == |name| == l;
    if a.ilabel != 0 {
      var longer := name + [a.ilabel];
      assert words[..j + 1] == longer == words'[..l + 1];
      assert j + 1 == |words| ==> words == longer <= words';
      assert l + 1 == |words'| ==> words' == longer <= words;
    }
  }
}
