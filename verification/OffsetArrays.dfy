/**
  The offset arrays `os`, `ins` and `ie` that lay a graph's arcs out for the solver, and the sums
  the solver takes over them. Array entries and arc numbers are one-based, as in the data file.
 */
module OffsetArrays {
  import opened Arcs
  import opened ArcOrder
  import Sorting

  function Tails(arcs: seq<Arc>): seq<nat> {
    seq(|arcs|, i requires 0 <= i < |arcs| => arcs[i].tail)
  }

  function Heads(arcs: seq<Arc>): seq<nat> {
    seq(|arcs|, i requires 0 <= i < |arcs| => arcs[i].head)
  }

  function CountOf(keys: seq<nat>, n: nat): nat {
    if keys == [] then 0
    else CountOf(keys[..|keys| - 1], n) + if keys[|keys| - 1] == n then 1 else 0
  }

  function CountBelow(keys: seq<nat>, n: nat): nat {
    if keys == [] then 0
    else CountBelow(keys[..|keys| - 1], n) + if keys[|keys| - 1] < n then 1 else 0
  }

  ghost predicate NonDecreasing(keys: seq<nat>) {
    forall i, j :: 0 <= i < j < |keys| ==> keys[i] <= keys[j]
  }

  lemma {:induction false} CountStep(keys: seq<nat>, n: nat)
    ensures CountBelow(keys, n + 1) == CountBelow(keys, n) + CountOf(keys, n)
    ensures CountBelow(keys, 0) == 0
    ensures CountBelow(keys, n) <= |keys|
  {
    if keys != [] {
      CountStep(keys[..|keys| - 1], n);
    }
  }

  /** In a non-decreasing list the keys below `n` come first. */
  lemma {:induction false} BelowComeFirst(keys: seq<nat>, n: nat, i: nat)
    requires NonDecreasing(keys) && i < |keys|
    ensures keys[i] < n <==> i < CountBelow(keys, n)
  {
    var last := |keys| - 1;
    CountStep(keys[..last], n);
    if i < last {
      BelowComeFirst(keys[..last], n, i);
      if keys[last] < n {
        assert keys[i] <= keys[last];
      }
    } else if keys[last] < n {
      AllBelow(keys[..last], n);
    }
  }

  lemma {:induction false} AllBelow(keys: seq<nat>, n: nat)
    requires forall i :: 0 <= i < |keys| ==> keys[i] < n
    ensures CountBelow(keys, n) == |keys|
  {
    if keys != [] {
      AllBelow(keys[..|keys| - 1], n);
    }
  }

  /** How often each node occurs; nodes that do not occur are not in the table. */
  method Counter(keys: seq<nat>) returns (count: map<nat, nat>)
    ensures forall n: nat :: (if n in count then count[n] else 0) == CountOf(keys, n)
  {
    count := map[];
    for i := 0 to |keys|
      invariant forall n: nat :: (if n in count then count[n] else 0) == CountOf(keys[..i], n)
    {
      assert keys[..i + 1][..i] == keys[..i];
      count := count[keys[i] := (if keys[i] in count then count[keys[i]] else 0) + 1];
    }
    assert keys[..|keys|] == keys;
  }

  /** Entry `n` is one more than the number of keys below `n`. */
  method Offsets(keys: seq<nat>, nodeCount: nat) returns (result: seq<nat>)
    ensures |result| == nodeCount + 1
    ensures forall n :: 0 <= n <= nodeCount ==> result[n] == 1 + CountBelow(keys, n)
  {
    var count := Counter(keys);
    result := [1];
    CountStep(keys, 0);
    for node := 0 to nodeCount
      invariant |result| == node + 1
      invariant forall n :: 0 <= n <= node ==> result[n] == 1 + CountBelow(keys, n)
    {
      CountStep(keys, node);
      result := result + [result[node] + if node in count then count[node] else 0];
    }
  }

  function ArcAt(arcs: seq<Arc>, i: nat): Arc {
    if i < |arcs| then arcs[i] else Arc(0, 0)
  }

  /** Whether the arc at one position comes no later than the arc at the other, by head and then tail. */
  predicate HeadBefore(a: Arc, b: Arc) {
    a.head < b.head || (a.head == b.head && a.tail <= b.tail)
  }

  function ByHead(arcs: seq<Arc>): (nat, nat) -> bool {
    (i: nat, j: nat) => HeadBefore(ArcAt(arcs, i), ArcAt(arcs, j))
  }

  /** The numbers below `n`. */
  function Positions(n: nat): seq<nat> {
    seq(n, i requires 0 <= i < n => i)
  }

  /** The arc positions sorted by head, then tail; ties keep their order. */
  function OrderByHead(arcs: seq<Arc>): seq<nat> {
    Sorting.Sort(ByHead(arcs), Positions(|arcs|))
  }

  ghost predicate InBounds(arcs: seq<Arc>, order: seq<nat>) {
    forall k :: 0 <= k < |order| ==> order[k] < |arcs|
  }

  lemma {:induction false} PositionsOnce(n: nat, i: nat)
    ensures multiset(Positions(n))[i] == if i < n then 1 else 0
  {
    if n > 0 {
      assert Positions(n) == Positions(n - 1) + [n - 1];
      PositionsOnce(n - 1, i);
    }
  }

  /** The order lists every arc exactly once, by head and then by tail. */
  lemma OrderByHeadPermutes(arcs: seq<Arc>)
    ensures var order := OrderByHead(arcs);
            && |order| == |arcs| && InBounds(arcs, order)
            && (forall i: nat :: multiset(order)[i] == if i < |arcs| then 1 else 0)
            && forall j, k :: 0 <= j < k < |order| ==>
                 var (a, b) := (arcs[order[j]], arcs[order[k]]); a.head < b.head || (a.head == b.head && a.tail <= b.tail)
  {
    var order := OrderByHead(arcs);
    Sorting.SortOrders(ByHead(arcs), Positions(|arcs|));
    forall i: nat
      ensures multiset(order)[i] == if i < |arcs| then 1 else 0
    {
      PositionsOnce(|arcs|, i);
    }
    forall k | 0 <= k < |order|
      ensures order[k] < |arcs|
    {
      assert order[k] in multiset(order);
    }
    forall j, k | 0 <= j < k < |order|
      ensures HeadBefore(arcs[order[j]], arcs[order[k]])
    {
      assert ByHead(arcs)(order[j], order[k]);
    }
  }

  /** The data file's arrays for one graph. */
  datatype Layout = Layout(af: seq<nat>, at: seq<nat>, os: seq<nat>, ins: seq<nat>, ie: seq<nat>)

  /** The one-based positions `offsets[n]..offsets[n+1]-1` of `keys` are exactly those holding `n`. */
  ghost predicate Delimits(keys: seq<nat>, nodeCount: nat, offsets: seq<nat>) {
    && |offsets| == nodeCount + 1
    && (forall n :: 0 <= n <= nodeCount ==> 1 <= offsets[n] <= |keys| + 1)
    && (forall n :: 0 <= n < nodeCount ==> offsets[n] <= offsets[n + 1])
    && (forall n, e :: 0 <= n < nodeCount && 0 <= e < |keys| ==>
                         (offsets[n] <= e + 1 < offsets[n + 1] <==> keys[e] == n))
  }

  /** The positions `os[n]..os[n+1]-1` are exactly the arcs leaving `n`. */
  ghost predicate ListsLeaving(arcs: seq<Arc>, nodeCount: nat, os: seq<nat>) {
    Delimits(Tails(arcs), nodeCount, os)
  }

  /** The heads of the arcs that `ie` lists. */
  ghost function ListedHeads(arcs: seq<Arc>, ie: seq<nat>): seq<nat>
    requires forall p :: 0 <= p < |ie| ==> 1 <= ie[p] <= |arcs|
  {
    seq(|ie|, p requires 0 <= p < |ie| => arcs[ie[p] - 1].head)
  }

  /** `ie` lists every arc once, and at `ins[n]..ins[n+1]-1` exactly those entering `n`. */
  ghost predicate ListsEntering(arcs: seq<Arc>, nodeCount: nat, ins: seq<nat>, ie: seq<nat>) {
    && |ie| == |arcs|
    && (forall p :: 0 <= p < |ie| ==> 1 <= ie[p] <= |arcs|)
    && (forall e: nat :: multiset(ie)[e] == if 1 <= e <= |arcs| then 1 else 0)
    && Delimits(ListedHeads(arcs, ie), nodeCount, ins)
  }

  ghost predicate IsOffsets(keys: seq<nat>, nodeCount: nat, offsets: seq<nat>) {
    |offsets| == nodeCount + 1 && forall n :: 0 <= n <= nodeCount ==> offsets[n] == 1 + CountBelow(keys, n)
  }

  lemma OffsetsDelimit(keys: seq<nat>, nodeCount: nat, offsets: seq<nat>)
    requires NonDecreasing(keys) && IsOffsets(keys, nodeCount, offsets)
    ensures Delimits(keys, nodeCount, offsets)
  {
    forall n | 0 <= n <= nodeCount
      ensures 1 <= offsets[n] <= |keys| + 1
      ensures n < nodeCount ==> offsets[n] <= offsets[n + 1]
    {
      CountStep(keys, n);
    }
    forall n, e | 0 <= n < nodeCount && 0 <= e < |keys|
      ensures offsets[n] <= e + 1 < offsets[n + 1] <==> keys[e] == n
    {
      BelowComeFirst(keys, n, e);
      BelowComeFirst(keys, n + 1, e);
    }
  }

  ghost function PickHeads(arcs: seq<Arc>, order: seq<nat>): (heads: seq<nat>)
    requires InBounds(arcs, order)
    ensures |heads| == |order| && forall k :: 0 <= k < |order| ==> heads[k] == arcs[order[k]].head
  {
    seq(|order|, k requires 0 <= k < |order| => arcs[order[k]].head)
  }

  /** How many of the listed arcs enter a node below `n`. */
  ghost function EnterBelow(arcs: seq<Arc>, order: seq<nat>, n: nat): nat {
    if order == [] then 0 else EnterBelow(arcs, order[1..], n) + if ArcAt(arcs, order[0]).head < n then 1 else 0
  }

  lemma {:induction false} InsertCounts(arcs: seq<Arc>, i: nat, order: seq<nat>, n: nat)
    ensures EnterBelow(arcs, Sorting.Insert(ByHead(arcs), i, order), n)
         == EnterBelow(arcs, order, n) + if ArcAt(arcs, i).head < n then 1 else 0
  {
    if order != [] && !ByHead(arcs)(i, order[0]) {
      InsertCounts(arcs, i, order[1..], n);
    }
  }

  lemma {:induction false} SortCounts(arcs: seq<Arc>, order: seq<nat>, n: nat)
    ensures EnterBelow(arcs, Sorting.Sort(ByHead(arcs), order), n) == EnterBelow(arcs, order, n)
  {
    if order != [] {
      SortCounts(arcs, order[1..], n);
      InsertCounts(arcs, order[0], Sorting.Sort(ByHead(arcs), order[1..]), n);
    }
  }

  lemma {:induction false} CountFront(key: nat, keys: seq<nat>, n: nat)
    ensures CountBelow([key] + keys, n) == CountBelow(keys, n) + if key < n then 1 else 0
  {
    if keys == [] {
      assert [key] + keys == [key];
    } else {
      var init := keys[..|keys| - 1];
      CountFront(key, init, n);
      assert ([key] + keys)[..|keys|] == [key] + init;
    }
  }

  lemma {:induction false} PickedBelow(arcs: seq<Arc>, order: seq<nat>, n: nat)
    requires InBounds(arcs, order)
    ensures CountBelow(PickHeads(arcs, order), n) == EnterBelow(arcs, order, n)
  {
    if order != [] {
      PickedBelow(arcs, order[1..], n);
      CountFront(arcs[order[0]].head, PickHeads(arcs, order[1..]), n);
      assert PickHeads(arcs, order) == [arcs[order[0]].head] + PickHeads(arcs, order[1..]);
    }
  }

  /** Counting heads does not depend on the order the arcs are taken in. */
  lemma OrderKeepsCounts(arcs: seq<Arc>, n: nat)
    ensures InBounds(arcs, OrderByHead(arcs))
    ensures CountBelow(PickHeads(arcs, OrderByHead(arcs)), n) == CountBelow(Heads(arcs), n)
  {
    OrderByHeadPermutes(arcs);
    SortCounts(arcs, Positions(|arcs|), n);
    PickedBelow(arcs, OrderByHead(arcs), n);
    PickedBelow(arcs, Positions(|arcs|), n);
    assert PickHeads(arcs, Positions(|arcs|)) == Heads(arcs);
  }

  lemma EnteringListed(arcs: seq<Arc>, nodeCount: nat, ins: seq<nat>, order: seq<nat>, ie: seq<nat>)
    requires IsOffsets(Heads(arcs), nodeCount, ins)
    requires order == OrderByHead(arcs)
    requires |ie| == |order| && forall k :: 0 <= k < |order| ==> ie[k] == order[k] + 1
    ensures ListsEntering(arcs, nodeCount, ins, ie)
  {
    hide Delimits, OrderByHead;
    OrderByHeadPermutes(arcs);
    OrderDelimits(arcs, nodeCount, ins, order);
    EachArcOnce(arcs, order, ie);
    assert PickHeads(arcs, order) == ListedHeads(arcs, ie);
  }

  lemma OrderDelimits(arcs: seq<Arc>, nodeCount: nat, ins: seq<nat>, order: seq<nat>)
    requires IsOffsets(Heads(arcs), nodeCount, ins)
    requires order == OrderByHead(arcs)
    ensures InBounds(arcs, order) && Delimits(PickHeads(arcs, order), nodeCount, ins)
  {
    hide Delimits, CountBelow, OrderByHead;
    OrderByHeadPermutes(arcs);
    var heads := PickHeads(arcs, order);
    forall n | 0 <= n <= nodeCount
      ensures CountBelow(heads, n) == CountBelow(Heads(arcs), n)
    {
      OrderKeepsCounts(arcs, n);
    }
    OffsetsDelimit(heads, nodeCount, ins);
  }

  lemma TailsNonDecreasing(arcs: seq<Arc>)
    requires Ordered(arcs)
    ensures NonDecreasing(Tails(arcs))
  {
  }

  /** The arrays of one graph; they list its leaving and entering arcs faithfully. */
  method LayOut(arcs: seq<Arc>, nodeCount: nat) returns (layout: Layout)
    requires Ordered(arcs)
    ensures layout.af == Tails(arcs) && layout.at == Heads(arcs)
    ensures ListsLeaving(arcs, nodeCount, layout.os)
    ensures ListsEntering(arcs, nodeCount, layout.ins, layout.ie)
  {
    hide ListsEntering, Ordered, CountBelow, Delimits;
    var af, at := Tails(arcs), Heads(arcs);
    var os := Offsets(af, nodeCount);
    var ins := Offsets(at, nodeCount);
    var order := OrderByHead(arcs);
    var ie := seq(|order|, k requires 0 <= k < |order| => order[k] + 1);
    layout := Layout(af, at, os, ins, ie);
    OffsetsDelimit(af, nodeCount, os) by { TailsNonDecreasing(arcs); }
    assert ListsLeaving(arcs, nodeCount, os);
    EnteringListed(arcs, nodeCount, ins, order, ie);
  }

  lemma EachArcOnce(arcs: seq<Arc>, order: seq<nat>, ie: seq<nat>)
    requires order == OrderByHead(arcs)
    requires |ie| == |order| && forall k :: 0 <= k < |order| ==> ie[k] == order[k] + 1
    ensures forall e: nat :: multiset(ie)[e] == if 1 <= e <= |arcs| then 1 else 0
  {
    hide OrderByHead;
    OrderByHeadPermutes(arcs);
    forall e: nat
      ensures multiset(ie)[e] == if 1 <= e <= |arcs| then 1 else 0
    {
      ShiftedBag(order, ie, e);
    }
  }

  lemma {:induction false} ShiftedBag(order: seq<nat>, ie: seq<nat>, e: nat)
    requires |ie| == |order| && forall k :: 0 <= k < |order| ==> ie[k] == order[k] + 1
    ensures multiset(ie)[e] == if e == 0 then 0 else multiset(order)[e - 1]
  {
    if order != [] {
      var last := |order| - 1;
      ShiftedBag(order[..last], ie[..last], e);
      assert order == order[..last] + [order[last]];
      assert ie == ie[..last] + [ie[last]];
    }
  }
}
