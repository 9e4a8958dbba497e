/**
  The route flow is exact: on a graph without cycles, a flow with every candidate's inflow 0 or 1
  selects the candidates of a single source-to-sink walk, and every such walk is selected by one.
 */
module RouteFlow {
  import opened Arcs
  import opened FlowModel

  ghost predicate Nonnegative(flow: seq<real>) {
    forall e :: 0 <= e < |flow| ==> 0.0 <= flow[e]
  }

  // ---------------------------------------------------------------- flow on sets of arcs

  lemma {:induction false} FlowSplits(arcs: seq<Arc>, flow: seq<real>, all: Arc -> bool, one: Arc -> bool, two: Arc -> bool)
    requires |flow| == |arcs|
    requires forall a :: a in arcs ==> all(a) == (one(a) || two(a)) && !(one(a) && two(a))
    ensures FlowWhere(arcs, flow, all) == FlowWhere(arcs, flow, one) + FlowWhere(arcs, flow, two)
  {
    if arcs != [] {
      var last := |arcs| - 1;
      assert forall a :: a in arcs[..last] ==> a in arcs;
      assert arcs[last] in arcs;
      FlowSplits(arcs[..last], flow[..last], all, one, two);
    }
  }

  lemma {:induction false} FlowSame(arcs: seq<Arc>, flow: seq<real>, one: Arc -> bool, two: Arc -> bool)
    requires |flow| == |arcs|
    requires forall a :: a in arcs ==> one(a) == two(a)
    ensures FlowWhere(arcs, flow, one) == FlowWhere(arcs, flow, two)
  {
    if arcs != [] {
      var last := |arcs| - 1;
      assert forall a :: a in arcs[..last] ==> a in arcs;
      assert arcs[last] in arcs;
      FlowSame(arcs[..last], flow[..last], one, two);
    }
  }

  lemma {:induction false} FlowNonnegative(arcs: seq<Arc>, flow: seq<real>, sel: Arc -> bool)
    requires |flow| == |arcs| && Nonnegative(flow)
    ensures FlowWhere(arcs, flow, sel) >= 0.0
    ensures forall e :: 0 <= e < |arcs| && sel(arcs[e]) ==> flow[e] <= FlowWhere(arcs, flow, sel)
  {
    if arcs != [] {
      var last := |arcs| - 1;
      FlowNonnegative(arcs[..last], flow[..last], sel);
      assert forall e :: 0 <= e < last ==> arcs[..last][e] == arcs[e] && flow[..last][e] == flow[e];
    }
  }

  lemma {:induction false} FlowNone(arcs: seq<Arc>, flow: seq<real>, sel: Arc -> bool)
    requires |flow| == |arcs|
    requires forall a :: a in arcs ==> !sel(a)
    ensures FlowWhere(arcs, flow, sel) == 0.0
  {
    if arcs != [] {
      var last := |arcs| - 1;
      assert forall a :: a in arcs[..last] ==> a in arcs;
      assert arcs[last] in arcs;
      FlowNone(arcs[..last], flow[..last], sel);
    }
  }

  /** Positive flow on a set of arcs is carried by one of them. */
  lemma {:induction false} SomeArcCarries(arcs: seq<Arc>, flow: seq<real>, sel: Arc -> bool) returns (e: nat)
    requires |flow| == |arcs| && FlowWhere(arcs, flow, sel) > 0.0
    ensures e < |arcs| && sel(arcs[e]) && flow[e] > 0.0
  {
    var last := |arcs| - 1;
    if sel(arcs[last]) && flow[last] > 0.0 {
      e := last;
    } else {
      e := SomeArcCarries(arcs[..last], flow[..last], sel);
    }
  }

  // ---------------------------------------------------------------- the cut below a node

  /** Supply of the nodes below `k` that lie in the cut. */
  ghost function CutSupply(candidateCount: nat, cut: nat -> bool, k: nat): real {
    if k == 0 then 0.0
    else CutSupply(candidateCount, cut, k - 1) + if cut(k - 1) then Supply(candidateCount, k - 1) else 0.0
  }

  lemma {:induction false} CutSupplyValue(candidateCount: nat, cut: nat -> bool, k: nat)
    ensures CutSupply(candidateCount, cut, k)
         == (if k > 0 && cut(0) then 1.0 else 0.0) - (if k > candidateCount + 1 && cut(candidateCount + 1) then 1.0 else 0.0)
  {
    if k > 0 {
      CutSupplyValue(candidateCount, cut, k - 1);
    }
  }

  /** Conservation summed over the nodes of the cut below `k`. */
  lemma {:induction false} CutBalance(arcs: seq<Arc>, candidateCount: nat, flow: seq<real>, cut: nat -> bool, k: nat)
    requires |flow| == |arcs|
    requires forall n: nat :: n < k ==> OutFlow(arcs, flow, n) - InFlow(arcs, flow, n) == Supply(candidateCount, n)
    ensures FlowWhere(arcs, flow, (a: Arc) => a.tail < k && cut(a.tail))
          - FlowWhere(arcs, flow, (a: Arc) => a.head < k && cut(a.head))
         == CutSupply(candidateCount, cut, k)
  {
    var tails, heads := (a: Arc) => a.tail < k && cut(a.tail), (a: Arc) => a.head < k && cut(a.head);
    if k == 0 {
      assert forall a: Arc :: a.tail >= 0 && a.head >= 0;
      FlowNone(arcs, flow, tails);
      FlowNone(arcs, flow, heads);
    } else {
      var n := k - 1;
      CutBalance(arcs, candidateCount, flow, cut, n);
      var tails', heads' := (a: Arc) => a.tail < n && cut(a.tail), (a: Arc) => a.head < n && cut(a.head);
      if cut(n) {
        FlowSplits(arcs, flow, tails, tails', (a: Arc) => a.tail == n);
        FlowSplits(arcs, flow, heads, heads', (a: Arc) => a.head == n);
      } else {
        FlowSame(arcs, flow, tails, tails');
        FlowSame(arcs, flow, heads, heads');
      }
    }
  }

  /** What every constraint on the flow says, without the selection. */
  ghost predicate Conserved(arcs: seq<Arc>, nodeCount: nat, candidateCount: nat, flow: seq<real>) {
    && |flow| == |arcs| && Nonnegative(flow) && candidateCount + 2 <= nodeCount
    && (forall a :: a in arcs ==> a.tail < nodeCount && a.head < nodeCount)
    && (forall n: nat :: n < nodeCount ==>
                           OutFlow(arcs, flow, n) - InFlow(arcs, flow, n) == Supply(candidateCount, n))
  }

  ghost predicate Below(rank: nat -> int, c: nat, n: nat) {
    rank(n) < rank(c)
  }

  /** All the flow over the cut below a node entered by one unit goes into that node. */
  lemma CutFlow(arcs: seq<Arc>, nodeCount: nat, candidateCount: nat, flow: seq<real>, rank: nat -> int, c: nat)
    requires Conserved(arcs, nodeCount, candidateCount, flow)
    requires forall a :: a in arcs ==> rank(a.tail) < rank(a.head)
    requires InFlow(arcs, flow, c) == 1.0
    ensures Below(rank, c, 0) && !Below(rank, c, candidateCount + 1)
    ensures forall e :: 0 <= e < |arcs| && Below(rank, c, arcs[e].tail) && !Below(rank, c, arcs[e].head) && flow[e] > 0.0
                        ==> arcs[e].head == c
  {
    var cut := (n: nat) => Below(rank, c, n);
    CutBalance(arcs, candidateCount, flow, cut, nodeCount);
    CutSupplyValue(candidateCount, cut, nodeCount);
    var fromCut, toCut := (a: Arc) => a.tail < nodeCount && cut(a.tail), (a: Arc) => a.head < nodeCount && cut(a.head);
    var crossing := (a: Arc) => cut(a.tail) && !cut(a.head);
    FlowSplits(arcs, flow, fromCut, toCut, crossing);
    var into, others := (a: Arc) => a.head == c, (a: Arc) => cut(a.tail) && !cut(a.head) && a.head != c;
    FlowSplits(arcs, flow, crossing, into, others);
    FlowNonnegative(arcs, flow, others);
  }

  // ---------------------------------------------------------------- walks along positive flow

  ghost predicate Carries(arcs: seq<Arc>, flow: seq<real>, a: Arc)
    requires |flow| == |arcs|
  {
    exists e :: 0 <= e < |arcs| && arcs[e] == a && flow[e] > 0.0
  }

  ghost function PositiveArcs(arcs: seq<Arc>, flow: seq<real>): set<Arc>
    requires |flow| == |arcs|
  {
    set a | a in arcs && Carries(arcs, flow, a)
  }

  /** A walk that starts in a set and ends outside it steps out of it somewhere. */
  lemma {:induction false} WalkLeaves(steps: set<Arc>, p: seq<nat>, inside: nat -> bool) returns (a: Arc)
    requires Walk(steps, p) && inside(p[0]) && !inside(p[|p| - 1])
    ensures a in steps && inside(a.tail) && !inside(a.head) && a.head in p
    decreases |p|
  {
    if inside(p[1]) {
      a := WalkLeaves(steps, p[1..], inside);
    } else {
      a := Arc(p[0], p[1]);
    }
  }

  /** Every node of a walk but the first is entered by one of its steps. */
  lemma {:induction false} WalkEnters(steps: set<Arc>, p: seq<nat>, n: nat) returns (a: Arc)
    requires Walk(steps, p) && n in p && n != p[0]
    ensures a in steps && a.head == n
    decreases |p|
  {
    if p[1] == n {
      a := Arc(p[0], p[1]);
    } else {
      assert p == [p[0]] + p[1..];
      a := WalkEnters(steps, p[1..], n);
    }
  }

  lemma SelectedIsVisited(arcs: seq<Arc>, nodeCount: nat, candidateCount: nat, flow: seq<real>,
                          rank: nat -> int, p: seq<nat>, c: nat)
    requires Conserved(arcs, nodeCount, candidateCount, flow)
    requires Ranked(ArcSet(arcs), rank)
    requires WalkFromTo(PositiveArcs(arcs, flow), p, 0, candidateCount + 1)
    requires InFlow(arcs, flow, c) == 1.0
    ensures c in p
  {
    assert forall a :: a in arcs ==> a in ArcSet(arcs);
    CutFlow(arcs, nodeCount, candidateCount, flow, rank, c);
    var a := WalkLeaves(PositiveArcs(arcs, flow), p, (n: nat) => Below(rank, c, n));
    assert Carries(arcs, flow, a);
  }

  lemma VisitedHasInflow(arcs: seq<Arc>, flow: seq<real>, p: seq<nat>, c: nat)
    requires |flow| == |arcs| && Nonnegative(flow)
    requires Walk(PositiveArcs(arcs, flow), p) && c in p && c != p[0]
    ensures InFlow(arcs, flow, c) > 0.0
  {
    var a := WalkEnters(PositiveArcs(arcs, flow), p, c);
    assert Carries(arcs, flow, a);
    var e :| 0 <= e < |arcs| && arcs[e] == a && flow[e] > 0.0;
    var sel := (b: Arc) => b.head == c;
    FlowNonnegative(arcs, flow, sel);
    assert sel(arcs[e]);
    assert FlowWhere(arcs, flow, sel) == InFlow(arcs, flow, c);
  }

  /** A source-to-sink walk along positive flow visits every selected candidate and no other. */
  lemma PositiveWalkVisitsSelected(arcs: seq<Arc>, nodeCount: nat, candidateCount: nat, flow: seq<real>,
                                   selected: seq<int>, rank: nat -> int, p: seq<nat>, c: nat)
    requires IsRouteFlow(arcs, nodeCount, candidateCount, flow, selected)
    requires Conserved(arcs, nodeCount, candidateCount, flow)
    requires Ranked(ArcSet(arcs), rank)
    requires WalkFromTo(PositiveArcs(arcs, flow), p, 0, candidateCount + 1)
    requires 1 <= c <= candidateCount
    ensures c in p <==> selected[c - 1] == 1
  {
    assert selected[c - 1] as real == InFlow(arcs, flow, c);
    assert selected[c - 1] == 0 || selected[c - 1] == 1;
    if selected[c - 1] == 1 {
      SelectedIsVisited(arcs, nodeCount, candidateCount, flow, rank, p, c);
    } else if c in p {
      VisitedHasInflow(arcs, flow, p, c);
    }
  }

  ghost function MaxRank(rank: nat -> int, n: nat): (m: int)
    ensures forall k: nat :: k < n ==> rank(k) <= m
  {
    if n == 0 then 0
    else
      var m := MaxRank(rank, n - 1);
      if rank(n - 1) > m then rank(n - 1) else m
  }

  /** Positive flow can be followed to the sink. */
  lemma {:induction false} FollowFlow(arcs: seq<Arc>, nodeCount: nat, candidateCount: nat, flow: seq<real>,
                                      rank: nat -> int, n: nat) returns (p: seq<nat>)
    requires Conserved(arcs, nodeCount, candidateCount, flow)
    requires Ranked(ArcSet(arcs), rank)
    requires n < nodeCount && n != candidateCount + 1 && (n == 0 || InFlow(arcs, flow, n) > 0.0)
    ensures WalkFromTo(PositiveArcs(arcs, flow), p, n, candidateCount + 1)
    decreases MaxRank(rank, nodeCount) - rank(n)
  {
    FlowNonnegative(arcs, flow, (a: Arc) => a.head == n);
    assert OutFlow(arcs, flow, n) > 0.0;
    var e := SomeArcCarries(arcs, flow, (a: Arc) => a.tail == n);
    var a := arcs[e];
    assert a in ArcSet(arcs) && Carries(arcs, flow, a);
    assert a == Arc(n, a.head);
    if a.head == candidateCount + 1 {
      p := [n, a.head];
      assert p[1..] == [a.head];
    } else {
      FlowNonnegative(arcs, flow, (b: Arc) => b.head == a.head);
      var rest := FollowFlow(arcs, nodeCount, candidateCount, flow, rank, a.head);
      p := [n] + rest;
      assert p[1..] == rest;
    }
  }

  /** The candidates on a walk, as the model's 0/1 selection. */
  ghost predicate Selects(candidateCount: nat, p: seq<nat>, selected: seq<int>) {
    && |selected| == candidateCount
    && forall c: nat :: 1 <= c <= candidateCount ==> selected[c - 1] == if c in p then 1 else 0
  }

  /** A route flow selects the candidates of one source-to-sink walk. */
  lemma FlowSelectsOneWalk(arcs: seq<Arc>, nodeCount: nat, candidateCount: nat, flow: seq<real>,
                           selected: seq<int>, rank: nat -> int) returns (p: seq<nat>)
    requires candidateCount + 2 <= nodeCount
    requires forall a :: a in arcs ==> a.tail < nodeCount && a.head < nodeCount
    requires IsRouteFlow(arcs, nodeCount, candidateCount, flow, selected)
    requires Ranked(ArcSet(arcs), rank)
    ensures WalkFromTo(ArcSet(arcs), p, 0, candidateCount + 1) && Selects(candidateCount, p, selected)
  {
    assert Conserved(arcs, nodeCount, candidateCount, flow);
    p := FollowFlow(arcs, nodeCount, candidateCount, flow, rank, 0);
    forall c: nat | 1 <= c <= candidateCount
      ensures selected[c - 1] == if c in p then 1 else 0
    {
      PositiveWalkVisitsSelected(arcs, nodeCount, candidateCount, flow, selected, rank, p, c);
    }
    WalkInLarger(PositiveArcs(arcs, flow), ArcSet(arcs), p);
  }

  lemma {:induction false} WalkInLarger(small: set<Arc>, large: set<Arc>, p: seq<nat>)
    requires small <= large && Walk(small, p)
    ensures Walk(large, p)
    decreases |p|
  {
    if |p| > 1 {
      WalkInLarger(small, large, p[1..]);
    }
  }

  // ---------------------------------------------------------------- every walk is a flow

  /** One unit along a walk: one position per step of the walk carries it. */
  ghost predicate UnitFlow(arcs: seq<Arc>, flow: seq<real>, p: seq<nat>) {
    && |flow| == |arcs| && p != []
    && (forall e :: 0 <= e < |flow| ==> flow[e] == 0.0 || (flow[e] == 1.0 && arcs[e].tail in p[..|p| - 1]))
    && (forall n: nat :: OutFlow(arcs, flow, n) - InFlow(arcs, flow, n)
                         == (if n == p[0] then 1.0 else 0.0) - (if n == p[|p| - 1] then 1.0 else 0.0))
    && (forall n: nat :: InFlow(arcs, flow, n) == if n in p[1..] then 1.0 else 0.0)
  }

  lemma {:induction false} AddToFlow(arcs: seq<Arc>, flow: seq<real>, e: nat, sel: Arc -> bool)
    requires |flow| == |arcs| && e < |arcs| && flow[e] == 0.0
    ensures FlowWhere(arcs, flow[e := 1.0], sel) == FlowWhere(arcs, flow, sel) + if sel(arcs[e]) then 1.0 else 0.0
  {
    var last := |arcs| - 1;
    if e < last {
      AddToFlow(arcs[..last], flow[..last], e, sel);
      assert flow[e := 1.0][..last] == flow[..last][e := 1.0];
    } else {
      assert flow[e := 1.0][..last] == flow[..last];
    }
  }

  lemma {:induction false} ZeroFlow(arcs: seq<Arc>, flow: seq<real>, sel: Arc -> bool)
    requires |flow| == |arcs| && forall e :: 0 <= e < |flow| ==> flow[e] == 0.0
    ensures FlowWhere(arcs, flow, sel) == 0.0
  {
    if arcs != [] {
      ZeroFlow(arcs[..|arcs| - 1], flow[..|arcs| - 1], sel);
    }
  }

  /** Ranks grow along a walk, so it does not come back. */
  lemma {:induction false} WalkClimbs(arcs: set<Arc>, rank: nat -> int, p: seq<nat>)
    requires Walk(arcs, p) && Ranked(arcs, rank)
    ensures forall n: nat :: n in p[1..] ==> rank(p[0]) < rank(n)
    decreases |p|
  {
    if |p| > 1 {
      assert Arc(p[0], p[1]) in arcs;
      var rest := p[1..];
      WalkClimbs(arcs, rank, rest);
      assert rest == [rest[0]] + rest[1..];
    }
  }

  lemma {:induction false} WalkHasFlow(arcs: seq<Arc>, rank: nat -> int, p: seq<nat>) returns (flow: seq<real>)
    requires Walk(ArcSet(arcs), p) && Ranked(ArcSet(arcs), rank)
    ensures UnitFlow(arcs, flow, p)
    decreases |p|
  {
    if |p| == 1 {
      flow := seq(|arcs|, e => 0.0);
      forall n: nat
        ensures OutFlow(arcs, flow, n) == 0.0 && InFlow(arcs, flow, n) == 0.0
      {
        ZeroFlow(arcs, flow, (a: Arc) => a.tail == n);
        ZeroFlow(arcs, flow, (a: Arc) => a.head == n);
      }
    } else {
      var rest := p[1..];
      var flow' := WalkHasFlow(arcs, rank, rest);
      assert Arc(p[0], p[1]) in arcs;
      var e :| 0 <= e < |arcs| && arcs[e] == Arc(p[0], p[1]);
      WalkClimbs(ArcSet(arcs), rank, p);
      WalkClimbs(ArcSet(arcs), rank, rest);
      assert forall n: nat :: n in rest[..|rest| - 1] ==> n in rest;
      assert p[0] !in rest && p[1] !in rest[1..];
      assert flow'[e] == 0.0;
      flow := flow'[e := 1.0];
      StepAdded(arcs, flow', e, p);
    }
  }

  lemma StepAdded(arcs: seq<Arc>, flow: seq<real>, e: nat, p: seq<nat>)
    requires |p| > 1 && UnitFlow(arcs, flow, p[1..])
    requires e < |arcs| && arcs[e] == Arc(p[0], p[1]) && flow[e] == 0.0
    requires p[0] !in p[1..] && p[1] !in p[2..]
    ensures UnitFlow(arcs, flow[e := 1.0], p)
  {
    var rest, flow' := p[1..], flow[e := 1.0];
    assert rest[1..] == p[2..] && rest[..|rest| - 1] == p[1..|p| - 1];
    assert p[..|p| - 1] == [p[0]] + rest[..|rest| - 1];
    assert rest == [p[1]] + rest[1..];
    forall n: nat
      ensures OutFlow(arcs, flow', n) == OutFlow(arcs, flow, n) + if n == p[0] then 1.0 else 0.0
      ensures InFlow(arcs, flow', n) == InFlow(arcs, flow, n) + if n == p[1] then 1.0 else 0.0
    {
      AddToFlow(arcs, flow, e, (a: Arc) => a.tail == n);
      AddToFlow(arcs, flow, e, (a: Arc) => a.head == n);
    }
  }

  /** Every source-to-sink walk is selected by some route flow. */
  lemma WalkIsSelectable(arcs: seq<Arc>, nodeCount: nat, candidateCount: nat, selected: seq<int>,
                         rank: nat -> int, p: seq<nat>) returns (flow: seq<real>)
    requires candidateCount + 2 <= nodeCount
    requires Ranked(ArcSet(arcs), rank)
    requires WalkFromTo(ArcSet(arcs), p, 0, candidateCount + 1) && Selects(candidateCount, p, selected)
    ensures IsRouteFlow(arcs, nodeCount, candidateCount, flow, selected)
  {
    flow := WalkHasFlow(arcs, rank, p);
    assert p == [p[0]] + p[1..];
    forall c: nat | 1 <= c <= candidateCount
      ensures selected[c - 1] == (if c in p then 1 else 0) && selected[c - 1] as real == InFlow(arcs, flow, c)
    {
      assert c in p <==> c in p[1..];
    }
    forall c | 0 <= c < candidateCount
      ensures selected[c] == 0 || selected[c] == 1
    {
      assert selected[(c + 1) - 1] == if c + 1 in p then 1 else 0;
    }
  }
}
