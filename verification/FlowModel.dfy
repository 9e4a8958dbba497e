/**
  The route part of the solver model: a continuous flow from source to sink with 0/1 selection of
  the candidates it enters. Stated over the offset arrays as the model does, then over arcs.
 */
module FlowModel {
  import opened Arcs
  import opened ArcOrder
  import opened OffsetArrays

  /** The flow on the arcs that satisfy `sel`. */
  ghost function FlowWhere(arcs: seq<Arc>, flow: seq<real>, sel: Arc -> bool): real
    requires |flow| == |arcs|
  {
    if arcs == [] then 0.0
    else
      var last := |arcs| - 1;
      FlowWhere(arcs[..last], flow[..last], sel) + if sel(arcs[last]) then flow[last] else 0.0
  }

  ghost function OutFlow(arcs: seq<Arc>, flow: seq<real>, n: nat): real
    requires |flow| == |arcs|
  {
    FlowWhere(arcs, flow, (a: Arc) => a.tail == n)
  }

  ghost function InFlow(arcs: seq<Arc>, flow: seq<real>, n: nat): real
    requires |flow| == |arcs|
  {
    FlowWhere(arcs, flow, (a: Arc) => a.head == n)
  }

  function Supply(candidateCount: nat, n: nat): real {
    if n == 0 then 1.0 else if n == candidateCount + 1 then -1.0 else 0.0
  }

  /** The model's constraints on flow and selection, over arcs. */
  ghost predicate IsRouteFlow(arcs: seq<Arc>, nodeCount: nat, candidateCount: nat, flow: seq<real>, selected: seq<int>) {
    && |flow| == |arcs| && |selected| == candidateCount
    && (forall e :: 0 <= e < |flow| ==> 0.0 <= flow[e] <= 1.0)
    && (forall c :: 0 <= c < candidateCount ==> selected[c] == 0 || selected[c] == 1)
    && (forall n: nat :: n < nodeCount ==>
                           OutFlow(arcs, flow, n) - InFlow(arcs, flow, n) == Supply(candidateCount, n))
    && (forall c: nat :: 1 <= c <= candidateCount ==> selected[c - 1] as real == InFlow(arcs, flow, c))
  }

  // ---------------------------------------------------------------- sums over the offset arrays

  /** `sum(e in lo..hi-1)(values[e])` with one-based positions. */
  ghost function SumRange(values: seq<real>, lo: nat, hi: nat): real
    requires 1 <= lo && hi <= |values| + 1
    decreases hi
  {
    if lo >= hi then 0.0 else SumRange(values, lo, hi - 1) + values[hi - 2]
  }

  ghost function Listed(flow: seq<real>, ie: seq<nat>): (r: seq<real>)
    requires forall p :: 0 <= p < |ie| ==> 1 <= ie[p] <= |flow|
    ensures |r| == |ie|
  {
    seq(|ie|, p requires 0 <= p < |ie| => flow[ie[p] - 1])
  }

  /** The data file's arrays have the sizes the model declares. */
  ghost predicate WellSized(layout: Layout, nodeCount: nat, candidateCount: nat, flow: seq<real>, selected: seq<int>) {
    var Layout(af, at, os, ins, ie) := layout;
    && |flow| == |af| == |at| == |ie|
    && |selected| == candidateCount
    && |os| == nodeCount + 1 && |ins| == nodeCount + 1 && candidateCount + 2 <= nodeCount
    && (forall n :: 0 <= n <= nodeCount ==> 1 <= os[n] <= |flow| + 1)
    && (forall n :: 0 <= n <= nodeCount ==> 1 <= ins[n] <= |flow| + 1)
    && (forall p :: 0 <= p < |ie| ==> 1 <= ie[p] <= |flow|)
  }

  /** `sum(e in os[n]..os[n+1]-1)(flow[e])` */
  ghost function ModelOut(layout: Layout, nodeCount: nat, candidateCount: nat, flow: seq<real>, selected: seq<int>,
                          n: nat): real
    requires WellSized(layout, nodeCount, candidateCount, flow, selected) && n < nodeCount
  {
    SumRange(flow, layout.os[n], layout.os[n + 1])
  }

  /** `sum(p in ins[n]..ins[n+1]-1)(flow[ie[p]])` */
  ghost function ModelIn(layout: Layout, nodeCount: nat, candidateCount: nat, flow: seq<real>, selected: seq<int>,
                         n: nat): real
    requires WellSized(layout, nodeCount, candidateCount, flow, selected) && n < nodeCount
  {
    SumRange(Listed(flow, layout.ie), layout.ins[n], layout.ins[n + 1])
  }

  /** The model's constraints exactly as written, over the data file's arrays. */
  ghost predicate SatisfiesModel(layout: Layout, nodeCount: nat, candidateCount: nat, flow: seq<real>, selected: seq<int>) {
    && WellSized(layout, nodeCount, candidateCount, flow, selected)
    && (forall e :: 0 <= e < |flow| ==> 0.0 <= flow[e] <= 1.0)
    && (forall c :: 0 <= c < candidateCount ==> selected[c] == 0 || selected[c] == 1)
    && (forall n: nat :: n < nodeCount ==>
          ModelOut(layout, nodeCount, candidateCount, flow, selected, n)
          - ModelIn(layout, nodeCount, candidateCount, flow, selected, n) == Supply(candidateCount, n))
    && (forall c: nat :: 1 <= c <= candidateCount ==>
          selected[c - 1] as real == ModelIn(layout, nodeCount, candidateCount, flow, selected, c))
  }

  /** The values at the positions holding key `n`. */
  ghost function KeySum(keys: seq<nat>, values: seq<real>, n: nat): real
    requires |keys| == |values|
  {
    if keys == [] then 0.0
    else
      var last := |keys| - 1;
      KeySum(keys[..last], values[..last], n) + if keys[last] == n then values[last] else 0.0
  }

  lemma {:induction false} SumRangePrefix(values: seq<real>, m: nat, lo: nat, hi: nat)
    requires 1 <= lo && hi <= m + 1 && m <= |values|
    ensures SumRange(values[..m], lo, hi) == SumRange(values, lo, hi)
    decreases hi
  {
    if lo < hi {
      SumRangePrefix(values, m, lo, hi - 1);
    }
  }

  lemma {:induction false} RangeIsKeySum(keys: seq<nat>, values: seq<real>, n: nat, lo: nat, hi: nat)
    requires |keys| == |values| && 1 <= lo <= hi <= |keys| + 1
    requires forall e :: 0 <= e < |keys| ==> (lo <= e + 1 < hi <==> keys[e] == n)
    ensures SumRange(values, lo, hi) == KeySum(keys, values, n)
    decreases |keys|
  {
    if keys != [] {
      var last := |keys| - 1;
      var ks, vs := keys[..last], values[..last];
      if hi == |keys| + 1 {
        if lo < hi {
          assert keys[last] == n;
          RangeIsKeySum(ks, vs, n, lo, hi - 1);
          SumRangePrefix(values, last, lo, hi - 1);
        } else {
          RangeIsKeySum(ks, vs, n, lo - 1, hi - 1);
        }
      } else {
        RangeIsKeySum(ks, vs, n, lo, hi);
        SumRangePrefix(values, last, lo, hi);
      }
    }
  }

  lemma {:induction false} KeySumIsFlow(arcs: seq<Arc>, flow: seq<real>, n: nat)
    requires |flow| == |arcs|
    ensures KeySum(Tails(arcs), flow, n) == OutFlow(arcs, flow, n)
    ensures KeySum(Heads(arcs), flow, n) == InFlow(arcs, flow, n)
  {
    if arcs != [] {
      var last := |arcs| - 1;
      KeySumIsFlow(arcs[..last], flow[..last], n);
      assert Tails(arcs)[..last] == Tails(arcs[..last]);
      assert Heads(arcs)[..last] == Heads(arcs[..last]);
    }
  }

  /** The flow into `n` over the arcs that `ie` lists. */
  ghost function ListedInFlow(arcs: seq<Arc>, flow: seq<real>, ie: seq<nat>, n: nat): real
    requires |flow| == |arcs| && forall p :: 0 <= p < |ie| ==> 1 <= ie[p] <= |arcs|
  {
    if ie == [] then 0.0
    else
      var e := ie[|ie| - 1] - 1;
      ListedInFlow(arcs, flow, ie[..|ie| - 1], n) + if arcs[e].head == n then flow[e] else 0.0
  }

  lemma {:induction false} ListedIsKeySum(arcs: seq<Arc>, flow: seq<real>, ie: seq<nat>, n: nat)
    requires |flow| == |arcs| && forall p :: 0 <= p < |ie| ==> 1 <= ie[p] <= |arcs|
    ensures KeySum(ListedHeads(arcs, ie), Listed(flow, ie), n) == ListedInFlow(arcs, flow, ie, n)
  {
    if ie != [] {
      var last := |ie| - 1;
      ListedIsKeySum(arcs, flow, ie[..last], n);
      assert ListedHeads(arcs, ie)[..last] == ListedHeads(arcs, ie[..last]);
      assert Listed(flow, ie)[..last] == Listed(flow, ie[..last]);
    }
  }

  lemma {:induction false} ListedInFlowSplit(arcs: seq<Arc>, flow: seq<real>, a: seq<nat>, b: seq<nat>, n: nat)
    requires |flow| == |arcs|
    requires forall p :: 0 <= p < |a| ==> 1 <= a[p] <= |arcs|
    requires forall p :: 0 <= p < |b| ==> 1 <= b[p] <= |arcs|
    ensures ListedInFlow(arcs, flow, a + b, n) == ListedInFlow(arcs, flow, a, n) + ListedInFlow(arcs, flow, b, n)
    decreases |b|
  {
    if b == [] {
      assert a + b == a;
    } else {
      assert (a + b)[..|a + b| - 1] == a + b[..|b| - 1];
      ListedInFlowSplit(arcs, flow, a, b[..|b| - 1], n);
    }
  }

  lemma LastInFlow(arcs: seq<Arc>, flow: seq<real>, m: nat, n: nat)
    requires |flow| == |arcs| && 1 <= m <= |arcs|
    ensures InFlow(arcs[..m], flow[..m], n)
         == InFlow(arcs[..m - 1], flow[..m - 1], n) + if arcs[m - 1].head == n then flow[m - 1] else 0.0
  {
    assert arcs[..m][..m - 1] == arcs[..m - 1] && flow[..m][..m - 1] == flow[..m - 1];
  }

  /** A listed arc may be taken out of the middle. */
  lemma TakenOutInFlow(arcs: seq<Arc>, flow: seq<real>, front: seq<nat>, m: nat, back: seq<nat>, n: nat)
    requires |flow| == |arcs| && 1 <= m <= |arcs|
    requires forall p :: 0 <= p < |front + back| ==> 1 <= (front + back)[p] <= |arcs|
    ensures forall p :: 0 <= p < |(front + [m]) + back| ==> 1 <= ((front + [m]) + back)[p] <= |arcs|
    ensures ListedInFlow(arcs, flow, (front + [m]) + back, n)
         == ListedInFlow(arcs, flow, front + back, n) + if arcs[m - 1].head == n then flow[m - 1] else 0.0
  {
    hide ListedInFlow;
    assert forall p :: 0 <= p < |front| ==> front[p] == (front + back)[p];
    assert forall p :: 0 <= p < |back| ==> back[p] == (front + back)[|front| + p];
    ListedInFlowSplit(arcs, flow, front + [m], back, n);
    ListedInFlowSplit(arcs, flow, front, [m], n);
    ListedInFlowSplit(arcs, flow, front, back, n);
    OneListed(arcs, flow, m, n);
  }

  /** Listing the first `m` arcs in any order gives the flow into `n` over them. */
  lemma {:induction false} PermutedInFlow(arcs: seq<Arc>, flow: seq<real>, ie: seq<nat>, m: nat, n: nat)
    requires |flow| == |arcs| && m <= |arcs|
    requires forall p :: 0 <= p < |ie| ==> 1 <= ie[p] <= |arcs|
    requires forall e: nat :: multiset(ie)[e] == if 1 <= e <= m then 1 else 0
    ensures ListedInFlow(arcs, flow, ie, n) == InFlow(arcs[..m], flow[..m], n)
    decreases m
  {
    hide ListedInFlow;
    if m == 0 {
      NothingListed(arcs, flow, n);
      assert multiset(ie) == multiset{};
      assert |ie| == |multiset(ie)| == 0;
    } else {
      hide InFlow;
      var front, back := TakeOut(ie, m);
      PermutedInFlow(arcs, flow, front + back, m - 1, n);
      TakenOutInFlow(arcs, flow, front, m, back, n);
      LastInFlow(arcs, flow, m, n);
    }
  }

  /** A list of `1..m` in some order is a list of `1..m-1` with `m` put in. */
  lemma TakeOut(ie: seq<nat>, m: nat) returns (front: seq<nat>, back: seq<nat>)
    requires m > 0
    requires forall e: nat :: multiset(ie)[e] == if 1 <= e <= m then 1 else 0
    ensures ie == (front + [m]) + back
    ensures forall e: nat :: multiset(front + back)[e] == if 1 <= e <= m - 1 then 1 else 0
    ensures forall p :: 0 <= p < |front + back| ==> (front + back)[p] in ie
  {
    assert m in multiset(ie);
    var p :| 0 <= p < |ie| && ie[p] == m;
    front, back := ie[..p], ie[p + 1..];
    assert ie == (front + [m]) + back;
    RemoveOne(front, m, back);
    forall e: nat
      ensures multiset(front + back)[e] == if 1 <= e <= m - 1 then 1 else 0
    {
      assert multiset(ie)[e] == multiset(front + back)[e] + multiset{m}[e];
    }
    forall p | 0 <= p < |front + back|
      ensures (front + back)[p] in ie
    {
      assert (front + back)[p] in multiset(front + back);
      assert (front + back)[p] in multiset(ie);
    }
  }

  lemma RemoveOne(front: seq<nat>, m: nat, back: seq<nat>)
    ensures multiset((front + [m]) + back) == multiset(front + back) + multiset{m}
  {
  }

  lemma NothingListed(arcs: seq<Arc>, flow: seq<real>, n: nat)
    requires |flow| == |arcs|
    ensures ListedInFlow(arcs, flow, [], n) == 0.0
  {
  }

  lemma OneListed(arcs: seq<Arc>, flow: seq<real>, m: nat, n: nat)
    requires |flow| == |arcs| && 1 <= m <= |arcs|
    ensures ListedInFlow(arcs, flow, [m], n) == if arcs[m - 1].head == n then flow[m - 1] else 0.0
  {
    assert [m][..0] == [];
  }

  /** The sums over the offset arrays range over exactly the arcs leaving and entering each node. */
  lemma SumsRangeOverIncidentArcs(arcs: seq<Arc>, nodeCount: nat, candidateCount: nat, layout: Layout,
                                  flow: seq<real>, selected: seq<int>, n: nat)
    requires layout.af == Tails(arcs) && layout.at == Heads(arcs)
    requires ListsLeaving(arcs, nodeCount, layout.os) && ListsEntering(arcs, nodeCount, layout.ins, layout.ie)
    requires WellSized(layout, nodeCount, candidateCount, flow, selected) && n < nodeCount
    ensures ModelOut(layout, nodeCount, candidateCount, flow, selected, n) == OutFlow(arcs, flow, n)
    ensures ModelIn(layout, nodeCount, candidateCount, flow, selected, n) == InFlow(arcs, flow, n)
  {
    var os, ins, ie := layout.os, layout.ins, layout.ie;
    RangeIsKeySum(Tails(arcs), flow, n, os[n], os[n + 1]);
    KeySumIsFlow(arcs, flow, n);
    RangeIsKeySum(ListedHeads(arcs, ie), Listed(flow, ie), n, ins[n], ins[n + 1]);
    ListedIsKeySum(arcs, flow, ie, n);
    PermutedInFlow(arcs, flow, ie, |arcs|, n);
    assert arcs[..|arcs|] == arcs && flow[..|flow|] == flow;
  }

  /** The model as written is the route flow over arcs. */
  lemma ModelIsRouteFlow(arcs: seq<Arc>, nodeCount: nat, candidateCount: nat, layout: Layout,
                         flow: seq<real>, selected: seq<int>)
    requires candidateCount + 2 <= nodeCount
    requires layout.af == Tails(arcs) && layout.at == Heads(arcs)
    requires ListsLeaving(arcs, nodeCount, layout.os) && ListsEntering(arcs, nodeCount, layout.ins, layout.ie)
    ensures SatisfiesModel(layout, nodeCount, candidateCount, flow, selected)
       <==> IsRouteFlow(arcs, nodeCount, candidateCount, flow, selected)
  {
    if |flow| == |arcs| && |selected| == candidateCount {
      assert WellSized(layout, nodeCount, candidateCount, flow, selected);
      forall n: nat | n < nodeCount
        ensures ModelOut(layout, nodeCount, candidateCount, flow, selected, n) == OutFlow(arcs, flow, n)
        ensures ModelIn(layout, nodeCount, candidateCount, flow, selected, n) == InFlow(arcs, flow, n)
      {
        SumsRangeOverIncidentArcs(arcs, nodeCount, candidateCount, layout, flow, selected, n);
      }
      hide ModelOut, ModelIn, OutFlow, InFlow, WellSized, ListsLeaving, ListsEntering;
      if SatisfiesModel(layout, nodeCount, candidateCount, flow, selected) {
        assert IsRouteFlow(arcs, nodeCount, candidateCount, flow, selected);
      }
    }
  }
}
