/**
  `compress_arc_intervals`: runs of consecutive successors are covered by nodes of one balanced
  tree over all possible successors, shared by every source.
 */
module IntervalCompression {
  import opened Arcs
  import opened ArcOrder
  import opened Sorting
  import opened SuccessorLists
  import opened HubErasure

  /** A tree node's two children, and the interval of leaves it covers. */
  type Pair = (nat, nat)

  ghost function Interval(low: nat, high: nat): (s: set<nat>)
    ensures forall t: nat :: t in s <==> low <= t <= high
  {
    if low > high then {} else if high == 0 then {0} else Interval(low, high - 1) + {high}
  }

  ghost function First(spans: map<nat, Pair>, x: nat): nat {
    if x in spans then spans[x].0 else x
  }

  ghost function Last(spans: map<nat, Pair>, x: nat): nat {
    if x in spans then spans[x].1 else x
  }

  /** `node` is the tree over `low..high`: a leaf stands for itself. */
  ghost predicate Covers(spans: map<nat, Pair>, limit: nat, node: nat, low: nat, high: nat) {
    low <= high < limit && if low == high then node == low else node in spans && spans[node] == (low, high)
  }

  predicate IsChild(pair: Pair, x: nat) {
    x == pair.0 || x == pair.1
  }

  function Middle(low: nat, high: nat): (m: nat)
    requires low <= high
    ensures low <= m <= high && (low < high ==> m < high)
    ensures m - low + 1 == (high - low + 2) / 2 && high - m == (high - low + 1) / 2
  {
    (low + high) / 2
  }

  /** Inner node `h` covers an interval that its children split at the middle. */
  ghost predicate Split(limit: nat, children: map<nat, Pair>, spans: map<nat, Pair>, h: nat)
    requires h in children && h in spans
  {
    var (low, high) := spans[h];
    && low < high < limit
    && Covers(spans, limit, children[h].0, low, Middle(low, high))
    && Covers(spans, limit, children[h].1, Middle(low, high) + 1, high)
  }

  ghost predicate Balanced(limit: nat, next: nat, children: map<nat, Pair>, spans: map<nat, Pair>) {
    && children.Keys == spans.Keys
    && (forall h: nat :: h in children ==> limit <= h < next)
    && (forall h: nat {:trigger Split(limit, children, spans, h)} :: h in children ==> Split(limit, children, spans, h))
  }

  /** The nodes of `picked` tile `low..high` from left to right. */
  ghost predicate Tiles(spans: map<nat, Pair>, limit: nat, picked: seq<nat>, low: nat, high: nat) {
    if picked == [] then low == high + 1
    else
      var x := picked[0];
      && First(spans, x) == low
      && Covers(spans, limit, x, low, Last(spans, x))
      && Last(spans, x) <= high
      && Tiles(spans, limit, picked[1..], Last(spans, x) + 1, high)
  }

  lemma {:induction false} TilesAppend(spans: map<nat, Pair>, limit: nat, a: seq<nat>, b: seq<nat>,
                                       low: nat, middle: nat, high: nat)
    requires Tiles(spans, limit, a, low, middle) && Tiles(spans, limit, b, middle + 1, high)
    requires middle <= high
    ensures Tiles(spans, limit, a + b, low, high)
    decreases |a|
  {
    if a == [] {
      assert a + b == b;
    } else {
      assert (a + b)[1..] == a[1..] + b;
      TilesAppend(spans, limit, a[1..], b, Last(spans, a[0]) + 1, middle, high);
    }
  }

  /** `after` extends `before` by the keys from `low` up to `high`. */
  ghost predicate Grown(before: map<nat, Pair>, after: map<nat, Pair>, low: nat, high: nat) {
    && (forall h: nat :: h in after <==> h in before || low <= h < high)
    && (forall h: nat :: h in before ==> h in after && after[h] == before[h])
  }

  /** `after` extends `before` by the two arcs of every inner node from `low` up to `high`. */
  ghost predicate ArcsGrown(before: seq<Arc>, after: seq<Arc>, children: map<nat, Pair>, low: nat, high: nat) {
    forall a :: a in after <==>
                  || a in before
                  || (low <= a.tail < high && a.tail in children && IsChild(children[a.tail], a.head))
  }

  lemma NothingGrown(m: map<nat, Pair>, n: nat, arcs: seq<Arc>)
    ensures Grown(m, m, n, n) && ArcsGrown(arcs, arcs, m, n, n)
  {
  }

  /** Growing by a left subtree, a right subtree and then node `n` itself grows by all of `n..high`. */
  lemma GrownJoin(m0: map<nat, Pair>, m1: map<nat, Pair>, m2: map<nat, Pair>, n: nat, middle: nat, high: nat,
                  pair: Pair)
    requires n < middle <= high && n !in m0
    requires Grown(m0, m1, n + 1, middle) && Grown(m1, m2, middle, high)
    ensures Grown(m0, m2[n := pair], n, high) && n !in m2
  {
  }

  lemma ArcsJoin(a0: seq<Arc>, a1: seq<Arc>, a2: seq<Arc>, m0: map<nat, Pair>, m1: map<nat, Pair>,
                 m2: map<nat, Pair>, n: nat, middle: nat, high: nat, pair: Pair)
    requires n < middle <= high && n !in m0
    requires Grown(m0, m1, n + 1, middle) && Grown(m1, m2, middle, high)
    requires ArcsGrown(a0, a1, m1, n + 1, middle) && ArcsGrown(a1, a2, m2, middle, high)
    ensures ArcsGrown(a0, a2 + [Arc(n, pair.0), Arc(n, pair.1)], m2[n := pair], n, high)
  {
  }

  lemma CoversLeaf(spans: map<nat, Pair>, limit: nat, n: nat)
    requires n < limit
    ensures Covers(spans, limit, n, n, n)
  {
  }

  lemma CoversKept(before: map<nat, Pair>, after: map<nat, Pair>, limit: nat, node: nat, low: nat, high: nat,
                   from: nat, to: nat)
    requires Covers(before, limit, node, low, high)
    requires Grown(before, after, from, to)
    ensures Covers(after, limit, node, low, high)
  {
  }

  lemma NodeAdded(limit: nat, next: nat, children: map<nat, Pair>, spans: map<nat, Pair>,
                  node: nat, left: nat, right: nat, low: nat, high: nat)
    requires Balanced(limit, next, children, spans)
    requires limit <= node < next && node !in children && low < high < limit
    requires Covers(spans, limit, left, low, Middle(low, high))
    requires Covers(spans, limit, right, Middle(low, high) + 1, high)
    ensures Balanced(limit, next, children[node := (left, right)], spans[node := (low, high)])
    ensures Covers(spans[node := (low, high)], limit, node, low, high)
  {
    hide Middle;
    var children', spans' := children[node := (left, right)], spans[node := (low, high)];
    forall h: nat | h in children'
      ensures Split(limit, children', spans', h)
    {
      if h != node {
        assert Split(limit, children, spans, h);
      }
    }
  }

  lemma TilesOne(limit: nat, next: nat, children: map<nat, Pair>, spans: map<nat, Pair>,
                 node: nat, low: nat, high: nat)
    requires Balanced(limit, next, children, spans) && Covers(spans, limit, node, low, high)
    ensures Tiles(spans, limit, [node], low, high) && low <= high
  {
  }

  lemma LeafIsTaken(spans: map<nat, Pair>, limit: nat, node: nat, low: nat, high: nat, first: nat, last: nat)
    requires Covers(spans, limit, node, low, high)
    requires first <= high && low <= last && !(first <= low && high <= last)
    ensures low < high
  {
  }

  lemma ChildrenCover(limit: nat, next: nat, children: map<nat, Pair>, spans: map<nat, Pair>,
                      node: nat, low: nat, high: nat)
    requires Balanced(limit, next, children, spans) && Covers(spans, limit, node, low, high) && low < high
    ensures node in children
    ensures Covers(spans, limit, children[node].0, low, Middle(low, high))
    ensures Covers(spans, limit, children[node].1, Middle(low, high) + 1, high)
  {
    assert Split(limit, children, spans, node);
  }

  /** Rounded-up binary logarithm: the height of the balanced tree over `n` leaves. */
  function CeilLog2(n: nat): nat {
    if n <= 1 then 0 else 1 + CeilLog2((n + 1) / 2)
  }

  lemma {:induction false} CeilLog2Monotone(m: nat, n: nat)
    requires m <= n
    ensures CeilLog2(m) <= CeilLog2(n)
    decreases n
  {
    if n > 1 && m > 1 {
      CeilLog2Monotone((m + 1) / 2, (n + 1) / 2);
    }
  }

  /** `CeilLog2(n)` is the least exponent whose power of two reaches `n`. */
  function PowerOfTwo(k: nat): nat {
    if k == 0 then 1 else 2 * PowerOfTwo(k - 1)
  }

  lemma {:induction false} CeilLog2IsLeast(n: nat)
    requires n >= 1
    ensures n <= PowerOfTwo(CeilLog2(n))
    ensures n > 1 ==> PowerOfTwo(CeilLog2(n) - 1) < n
  {
    if n > 1 {
      CeilLog2IsLeast((n + 1) / 2);
    }
  }

  function Max(a: int, b: int): int {
    if a < b then b else a
  }

  function Min(a: int, b: int): int {
    if a < b then a else b
  }

  /** Heights of the halves of a tree over `n` leaves. */
  lemma Heights(n: nat)
    requires n > 1
    ensures CeilLog2(n) == CeilLog2((n + 1) / 2) + 1 && CeilLog2(n / 2) <= CeilLog2((n + 1) / 2)
    ensures n / 2 > 1 ==> CeilLog2(n / 2) >= 1
    ensures (n + 1) / 2 > 1 ==> CeilLog2((n + 1) / 2) >= 1
  {
    CeilLog2Monotone(n / 2, (n + 1) / 2);
  }

  /** Nodes taken for one run in a tree of height `height`: at most this many. */
  function RunBoundAt(height: nat): nat {
    if height <= 1 then 1 else 2 * height - 2
  }

  /** Tree nodes needed for one run of successors among `n` leaves. */
  function RunBound(n: nat): nat {
    RunBoundAt(CeilLog2(n))
  }

  /**
    Splitting a run over two subtrees of heights `a >= b` stays within the bounds of height `a + 1`.
    `left` and `right` nodes are taken in the halves (none where the run does not reach).
   */
  lemma SplitBounds(a: nat, b: nat, fromLow: bool, toHigh: bool, left: nat, right: nat)
    requires b <= a && !(fromLow && toHigh)
    requires left <= RunBoundAt(a) && right <= RunBoundAt(b)
    requires left != 0 && (right != 0 || fromLow) ==> left <= Max(1, a)
    requires right != 0 && (left != 0 || toHigh) ==> right <= Max(1, b)
    requires left != 0 && right != 0 ==> (if fromLow then left == 1 else a >= 1)
    requires left != 0 && right != 0 ==> (if toHigh then right == 1 else b >= 1)
    ensures (fromLow && left != 0) || (toHigh && right != 0) ==> left + right <= Max(1, a + 1)
    ensures left + right <= RunBoundAt(a + 1)
  {
  }

  lemma BoundIsPositive(n: nat)
    ensures 1 <= RunBound(n)
  {
  }

  /** The bounds of `SplitBounds` for trees over `n` leaves whose halves have `m` and `k` leaves. */
  lemma CountsCombine(n: nat, m: nat, k: nat, fromLow: bool, toHigh: bool, left: nat, right: nat)
    requires m == (n + 1) / 2 && k == n / 2
    requires n > 1 && !(fromLow && toHigh)
    requires left <= RunBound(m) && right <= RunBound(k)
    requires left != 0 && (right != 0 || fromLow) ==> left <= Max(1, CeilLog2(m))
    requires right != 0 && (left != 0 || toHigh) ==> right <= Max(1, CeilLog2(k))
    requires left != 0 && right != 0 ==> (if fromLow then left == 1 else m > 1)
    requires left != 0 && right != 0 ==> (if toHigh then right == 1 else k > 1)
    ensures (fromLow && left != 0) || (toHigh && right != 0) ==> left + right <= Max(1, CeilLog2(n))
    ensures left + right <= RunBound(n)
  {
    var a, b := CeilLog2(m), CeilLog2(k);
    assert CeilLog2(n) == a + 1 && b <= a && (m > 1 ==> a >= 1) && (k > 1 ==> b >= 1) by {
      Heights(n);
    }
    SplitBounds(a, b, fromLow, toHigh, left, right);
  }

  /** The leaves below a node. */
  ghost function Part(spans: map<nat, Pair>, x: nat): set<nat> {
    Interval(First(spans, x), Last(spans, x))
  }

  /** `picked` lists nodes whose intervals increase without overlapping, from `low` on. */
  ghost predicate Spread(spans: map<nat, Pair>, limit: nat, picked: seq<nat>, low: nat) {
    if picked == [] then true
    else
      var x := picked[0];
      && low <= First(spans, x)
      && Covers(spans, limit, x, First(spans, x), Last(spans, x))
      && Spread(spans, limit, picked[1..], Last(spans, x) + 1)
  }

  ghost function PartsOf(spans: map<nat, Pair>, picked: seq<nat>): set<nat> {
    if picked == [] then {} else Part(spans, picked[0]) + PartsOf(spans, picked[1..])
  }

  lemma {:induction false} TilesSpread(spans: map<nat, Pair>, limit: nat, picked: seq<nat>, low: nat, high: nat)
    requires Tiles(spans, limit, picked, low, high)
    ensures Spread(spans, limit, picked, low)
    ensures PartsOf(spans, picked) == Interval(low, high)
    decreases |picked|
  {
    if picked != [] {
      TilesSpread(spans, limit, picked[1..], Last(spans, picked[0]) + 1, high);
    }
  }

  lemma LastInPart(spans: map<nat, Pair>, limit: nat, x: nat)
    requires Covers(spans, limit, x, First(spans, x), Last(spans, x))
    ensures Last(spans, x) in Part(spans, x)
  {
  }

  lemma {:induction false} SpreadAppend(spans: map<nat, Pair>, limit: nat, a: seq<nat>, b: seq<nat>, low: nat, middle: nat)
    requires Spread(spans, limit, a, low) && Spread(spans, limit, b, middle)
    requires forall t: nat :: t in PartsOf(spans, a) ==> t < middle
    requires low <= middle
    ensures Spread(spans, limit, a + b, low)
    ensures PartsOf(spans, a + b) == PartsOf(spans, a) + PartsOf(spans, b)
    decreases |a|
  {
    hide Covers, Part;
    if a == [] {
      assert a + b == b;
      SpreadWeaken(spans, limit, b, low, middle);
    } else {
      assert (a + b)[1..] == a[1..] + b;
      var x, rest := a[0], a[1..];
      assert PartsOf(spans, a) == Part(spans, x) + PartsOf(spans, rest);
      assert Last(spans, x) in Part(spans, x) by { LastInPart(spans, limit, x); }
      SpreadAppend(spans, limit, rest, b, Last(spans, x) + 1, middle);
      assert PartsOf(spans, a + b) == Part(spans, x) + PartsOf(spans, rest + b);
    }
  }

  lemma SpreadWeaken(spans: map<nat, Pair>, limit: nat, picked: seq<nat>, low: nat, middle: nat)
    requires Spread(spans, limit, picked, middle) && low <= middle
    ensures Spread(spans, limit, picked, low)
  {
  }

  lemma {:induction false} SpreadParts(spans: map<nat, Pair>, limit: nat, picked: seq<nat>, low: nat)
    requires Spread(spans, limit, picked, low)
    ensures forall t: nat :: t in PartsOf(spans, picked) ==> low <= t
    ensures forall x: nat :: x in picked ==> Part(spans, x) <= PartsOf(spans, picked) && (x in spans || x < limit)
    ensures forall t: nat :: t in PartsOf(spans, picked) ==> exists x: nat :: x in picked && t in Part(spans, x)
    ensures forall x: nat, y: nat :: x in picked && y in picked && x != y ==> Part(spans, x) !! Part(spans, y)
    decreases |picked|
  {
    if picked != [] {
      var rest := picked[1..];
      SpreadParts(spans, limit, rest, Last(spans, picked[0]) + 1);
      assert forall x: nat :: x in picked <==> x == picked[0] || x in rest;
      assert Part(spans, picked[0]) !! PartsOf(spans, rest);
      assert picked[0] in picked;
    }
  }

  /** The number of maximal runs of consecutive numbers in an increasing list. */
  function Runs(s: seq<nat>): nat {
    if |s| <= 1 then |s|
    else Runs(s[..|s| - 1]) + if s[|s| - 1] == s[|s| - 2] + 1 then 0 else 1
  }

  function RunSum(arcs: seq<Arc>, sources: seq<nat>): nat {
    if sources == [] then 0
    else RunSum(arcs, sources[..|sources| - 1]) + Runs(SortNodes(TargetsOf(arcs, sources[|sources| - 1])))
  }

  /** What the runs handled so far cover: all of `seen` but the current run `first..last`. */
  ghost predicate RunsCovered(spans: map<nat, Pair>, limit: nat, picked: seq<nat>, seen: seq<nat>, first: nat, last: nat) {
    && first <= last
    && Spread(spans, limit, picked, 0)
    && (forall t: nat :: t in PartsOf(spans, picked) ==> t < first)
    && (forall t: nat :: t in seen <==> t in PartsOf(spans, picked) || first <= t <= last)
  }

  lemma FirstRun(spans: map<nat, Pair>, limit: nat, target: nat)
    ensures RunsCovered(spans, limit, [], [target], target, target)
  {
  }

  lemma RunExtended(spans: map<nat, Pair>, limit: nat, picked: seq<nat>, seen: seq<nat>, first: nat, last: nat)
    requires RunsCovered(spans, limit, picked, seen, first, last)
    ensures RunsCovered(spans, limit, picked, seen + [last + 1], first, last + 1)
  {
  }

  lemma RunFinished(spans: map<nat, Pair>, limit: nat, picked: seq<nat>, more: seq<nat>, seen: seq<nat>,
                    first: nat, last: nat, target: nat)
    requires RunsCovered(spans, limit, picked, seen, first, last)
    requires Tiles(spans, limit, more, first, last)
    requires last < target
    ensures RunsCovered(spans, limit, picked + more, seen + [target], target, target)
    ensures Spread(spans, limit, picked + more, 0)
    ensures forall t: nat :: t in seen <==> t in PartsOf(spans, picked + more)
  {
    TilesSpread(spans, limit, more, first, last);
    SpreadAppend(spans, limit, picked, more, 0, first);
  }

  ghost function ArcsTo(source: nat, heads: seq<nat>): seq<Arc> {
    seq(|heads|, i requires 0 <= i < |heads| => Arc(source, heads[i]))
  }

  lemma ArcsToAppend(source: nat, a: seq<nat>, b: seq<nat>)
    ensures ArcsTo(source, a) + ArcsTo(source, b) == ArcsTo(source, a + b)
  {
  }

  lemma OneRun(source: nat, target: nat)
    ensures ArcsTo(source, []) == [] && Runs([target]) == 1
  {
  }

  lemma RunsStep(ordered: seq<nat>, j: nat, bound: nat)
    requires 1 <= j < |ordered|
    ensures Runs(ordered[..j + 1]) == Runs(ordered[..j]) + if ordered[j] == ordered[j - 1] + 1 then 0 else 1
    ensures (Runs(ordered[..j]) - 1) * bound + bound == Runs(ordered[..j]) * bound
    ensures Runs(ordered[..1]) == 1
  {
    assert ordered[..j + 1][..j] == ordered[..j];
  }

  class IntervalTree {
    const limit: nat
    var nextNode: nat
    var children: map<nat, Pair>
    var compressed: seq<Arc>
    ghost var spans: map<nat, Pair>

    constructor (candidateCount: nat)
      ensures limit == nextNode == candidateCount + 2
      ensures children == map[] && spans == map[] && compressed == []
    {
      limit := candidateCount + 2;
      nextNode := candidateCount + 2;
      children, spans, compressed := map[], map[], [];
    }

    ghost predicate Valid()
      reads this
    {
      limit <= nextNode && Balanced(limit, nextNode, children, spans)
    }

    /** Builds the tree over `low..high` with one new node per inner node and two arcs for each. */
    method Tree(low: nat, high: nat) returns (node: nat)
      requires Valid() && low <= high < limit
      modifies this
      ensures Valid()
      ensures Covers(spans, limit, node, low, high)
      ensures nextNode == old(nextNode) + (high - low)
      ensures Grown(old(children), children, old(nextNode), nextNode)
      ensures Grown(old(spans), spans, old(nextNode), nextNode)
      ensures |compressed| == |old(compressed)| + 2 * (high - low)
      ensures ArcsGrown(old(compressed), compressed, children, old(nextNode), nextNode)
      decreases high - low
    {
      hide Covers, Split, Middle, Grown, ArcsGrown;
      if low == high {
        CoversLeaf(spans, limit, low);
        NothingGrown(children, nextNode, compressed);
        NothingGrown(spans, nextNode, compressed);
        return low;
      }
      node := nextNode;
      nextNode := nextNode + 1;
      var middle := Middle(low, high);
      var left := Tree(low, middle);
      label second:
      var right := Tree(middle + 1, high);
      CoversKept(old@second(spans), spans, limit, left, low, middle, old@second(nextNode), nextNode);
      ghost var nodeRight := old@second(nextNode);
      GrownJoin(old(children), old@second(children), children, node, nodeRight, nextNode, (left, right));
      GrownJoin(old(spans), old@second(spans), spans, node, nodeRight, nextNode, (low, high));
      ArcsJoin(old(compressed), old@second(compressed), compressed,
               old(children), old@second(children), children, node, nodeRight, nextNode, (left, right));
      NodeAdded(limit, nextNode, children, spans, node, left, right, low, high);
      children := children[node := (left, right)];
      spans := spans[node := (low, high)];
      compressed := compressed + [Arc(node, left), Arc(node, right)];
    }

    /**
      Covers the successors `first..last` below `node`. Never called where it would have to take
      part of a leaf: it descends only into subtrees that overlap the run.
     */
    method Cover(source: nat, first: nat, last: nat, node: nat, low: nat, high: nat) returns (ghost picked: seq<nat>)
      requires Valid()
      requires Covers(spans, limit, node, low, high)
      requires first <= last && first <= high && low <= last
      modifies this`compressed
      ensures Valid()
      ensures compressed == old(compressed) + ArcsTo(source, picked)
      ensures Tiles(spans, limit, picked, Max(first, low), Min(last, high))
      ensures first <= low && high <= last ==> |picked| == 1
      ensures first <= low || high <= last ==> 1 <= |picked| <= Max(1, CeilLog2(high - low + 1))
      ensures 1 <= |picked| <= RunBound(high - low + 1)
      decreases high - low
    {
      hide Tiles, CeilLog2, RunBoundAt, Balanced, Covers, Middle;
      if first <= low && high <= last {
        TilesOne(limit, nextNode, children, spans, node, low, high);
        BoundIsPositive(high - low + 1);
        compressed := compressed + [Arc(source, node)];
        picked := [node];
        return;
      }
      assert low < high by { LeafIsTaken(spans, limit, node, low, high, first, last); }
      var middle := Middle(low, high);
      ChildrenCover(limit, nextNode, children, spans, node, low, high);
      var (left, right) := children[node];
      ghost var pickedLeft: seq<nat>, pickedRight: seq<nat> := [], [];
      if first <= middle {
        pickedLeft := Cover(source, first, last, left, low, middle);
      }
      if last > middle {
        pickedRight := Cover(source, first, last, right, middle + 1, high);
      }
      picked := pickedLeft + pickedRight;
      if first <= middle && last > middle {
        TilesAppend(spans, limit, pickedLeft, pickedRight, Max(first, low), middle, Min(last, high));
      } else {
        assert picked == pickedLeft || picked == pickedRight;
      }
      CountsCombine(high - low + 1, middle - low + 1, high - middle, first <= low, high <= last, |pickedLeft|, |pickedRight|);
    }

    /** Covers every maximal run of one source's successors. */
    method CoverRuns(source: nat, ordered: seq<nat>, root: nat) returns (ghost picked: seq<nat>)
      requires Valid() && limit >= 2
      requires Covers(spans, limit, root, 1, limit - 1)
      requires Increasing(ordered) && ordered != [] && forall t: nat :: t in ordered ==> 1 <= t < limit
      modifies this`compressed
      ensures Valid()
      ensures compressed == old(compressed) + ArcsTo(source, picked)
      ensures Spread(spans, limit, picked, 0)
      ensures forall t: nat :: t in PartsOf(spans, picked) <==> t in ordered
      ensures |picked| <= Runs(ordered) * RunBound(limit - 1)
    {
      hide Spread, PartsOf, Tiles, Covers, Balanced, RunBound, RunsCovered, ArcsTo, Runs;
      ghost var bound: nat := RunBound(limit - 1);
      assert ordered[0] in ordered;
      var first, last := ordered[0], ordered[0];
      picked := [];
      FirstRun(spans, limit, ordered[0]);
      assert ordered[..1] == [ordered[0]] && compressed == compressed + ArcsTo(source, []) && Runs([ordered[0]]) == 1 by {
        OneRun(source, ordered[0]);
      }
      for j := 1 to |ordered|
        invariant 1 <= first <= last < limit && last == ordered[j - 1]
        invariant compressed == old(compressed) + ArcsTo(source, picked)
        invariant RunsCovered(spans, limit, picked, ordered[..j], first, last)
        invariant |picked| <= (Runs(ordered[..j]) - 1) * bound
      {
        var target := ordered[j];
        assert target in ordered && ordered[j - 1] < ordered[j];
        assert ordered[..j + 1] == ordered[..j] + [target];
        RunsStep(ordered, j, bound);
        if target == last + 1 {
          RunExtended(spans, limit, picked, ordered[..j], first, last);
          last := target;
        } else {
          ghost var more := Cover(source, first, last, root, 1, limit - 1);
          RunFinished(spans, limit, picked, more, ordered[..j], first, last, target);
          ArcsToAppend(source, picked, more);
          picked := picked + more;
          first, last := target, target;
        }
      }
      assert ordered[..|ordered|] == ordered;
      ghost var more := Cover(source, first, last, root, 1, limit - 1);
      RunFinished(spans, limit, picked, more, ordered, first, last, last + 1);
      ArcsToAppend(source, picked, more);
      assert (Runs(ordered) - 1) * bound + bound == Runs(ordered) * bound;
      picked := picked + more;
    }
  }

  /** The leaf sets of the tree nodes, as hub erasure wants them. */
  ghost function LeafSets(spans: map<nat, Pair>): map<nat, set<nat>> {
    map h | h in spans :: Interval(spans[h].0, spans[h].1)
  }

  /** The arcs written so far: two per inner node, and those of every finished source. */
  ghost predicate Written(arcs: seq<Arc>, children: map<nat, Pair>, done: map<nat, seq<nat>>) {
    forall a :: a in arcs <==>
                  || (a.tail in children && IsChild(children[a.tail], a.head))
                  || (a.tail in done && a.head in done[a.tail])
  }

  ghost predicate SourceCovered(spans: map<nat, Pair>, limit: nat, arcs: seq<Arc>, s: nat, picked: seq<nat>) {
    && s < limit
    && Spread(spans, limit, picked, 0)
    && forall t: nat :: t in PartsOf(spans, picked) <==> Arc(s, t) in arcs
  }

  ghost predicate AllCovered(spans: map<nat, Pair>, limit: nat, arcs: seq<Arc>, done: map<nat, seq<nat>>) {
    forall s: nat {:trigger done[s]} :: s in done ==> SourceCovered(spans, limit, arcs, s, done[s])
  }

  lemma IntervalSize(low: nat, high: nat)
    requires low <= high + 1
    ensures |Interval(low, high)| == high + 1 - low
    decreases high
  {
    if low <= high && high > 0 {
      IntervalSize(low, high - 1);
    }
  }

  lemma StandsForPart(limit: nat, spans: map<nat, Pair>, node: nat, low: nat, high: nat)
    requires Covers(spans, limit, node, low, high)
    requires forall h: nat :: h in spans ==> limit <= h
    ensures Stands(LeafSets(spans), node) == Interval(low, high)
    ensures |Interval(low, high)| == high + 1 - low
    ensures node < limit || node in spans
  {
    IntervalSize(low, high);
  }

  lemma NodeFans(limit: nat, next: nat, children: map<nat, Pair>, spans: map<nat, Pair>,
                 done: map<nat, seq<nat>>, written: seq<Arc>, h: nat)
    requires Balanced(limit, next, children, spans) && Written(written, children, done)
    requires forall s: nat :: s in done ==> s < limit
    requires h in children
    ensures HelperFans(ArcSet(written), limit, LeafSets(spans), h)
    ensures forall y: nat :: Arc(h, y) in written ==> y < limit || y in spans
  {
    hide Stands, Fans, Covers, Interval, LeafSets;
    var leaves := LeafSets(spans);
    var (low, high) := spans[h];
    var (left, right) := children[h];
    assert forall y: nat :: Arc(h, y) in written <==> y == left || y == right;
    HalvesStand(limit, next, children, spans, h);
    PairFans(ArcSet(written), leaves, h, left, right);
  }

  /** What the two children of an inner node stand for. */
  lemma HalvesStand(limit: nat, next: nat, children: map<nat, Pair>, spans: map<nat, Pair>, h: nat)
    requires Balanced(limit, next, children, spans) && h in children
    ensures h in LeafSets(spans)
    ensures var leaves := LeafSets(spans);
            var (left, right) := children[h];
            && Stands(leaves, left) !! Stands(leaves, right)
            && leaves[h] == Stands(leaves, left) + Stands(leaves, right)
            && |Stands(leaves, left)| < |leaves[h]| && |Stands(leaves, right)| < |leaves[h]|
            && leaves[h] != {} && h >= limit && (forall t: nat :: t in leaves[h] ==> t < limit)
            && (left < limit || left in spans) && (right < limit || right in spans)
  {
    hide Stands, Covers, Interval;
    assert Split(limit, children, spans, h);
    var (low, high) := spans[h];
    var (left, right) := children[h];
    var middle := Middle(low, high);
    StandsForPart(limit, spans, left, low, middle);
    StandsForPart(limit, spans, right, middle + 1, high);
    IntervalSize(low, high);
    assert Interval(low, middle) + Interval(middle + 1, high) == Interval(low, high);
    assert low in LeafSets(spans)[h];
  }

  lemma SourceFans(limit: nat, next: nat, children: map<nat, Pair>, spans: map<nat, Pair>,
                   done: map<nat, seq<nat>>, written: seq<Arc>, arcs: seq<Arc>, s: nat)
    requires Balanced(limit, next, children, spans) && Written(written, children, done)
    requires s < limit
    requires if s in done then SourceCovered(spans, limit, arcs, s, done[s]) else forall a :: a in arcs ==> a.tail != s
    ensures Fans(ArcSet(written), LeafSets(spans), s, Successors(ArcSet(arcs), s))
    ensures forall y: nat :: Arc(s, y) in written ==> y < limit || y in spans
  {
    hide Stands, Split, Covers, Spread, PartsOf, Part;
    assert s !in children;
    assert forall y: nat :: Arc(s, y) in written <==> s in done && y in done[s];
    if s in done {
      assert Successors(ArcSet(arcs), s) == PartsOf(spans, done[s]) by {
        assert forall t: nat :: Arc(s, t) in arcs ==> Arc(s, t) in ArcSet(arcs);
      }
      SpreadFans(limit, spans, written, s, done[s]);
    } else {
      assert Successors(ArcSet(arcs), s) == {};
    }
  }

  lemma StandsIsPart(spans: map<nat, Pair>, x: nat)
    ensures Stands(LeafSets(spans), x) == Part(spans, x)
  {
    if x !in spans {
      assert forall t: nat :: t in Part(spans, x) <==> t == x;
    }
  }

  lemma SpreadFans(limit: nat, spans: map<nat, Pair>, written: seq<Arc>, s: nat, picked: seq<nat>)
    requires Spread(spans, limit, picked, 0)
    requires forall y: nat :: Arc(s, y) in written <==> y in picked
    ensures Fans(ArcSet(written), LeafSets(spans), s, PartsOf(spans, picked))
    ensures forall y: nat :: y in picked ==> y < limit || y in spans
  {
    hide Spread, PartsOf, Stands, Part;
    SpreadParts(spans, limit, picked, 0);
    forall x: nat
      ensures Stands(LeafSets(spans), x) == Part(spans, x)
    {
      StandsIsPart(spans, x);
    }
    forall t: nat | t in PartsOf(spans, picked)
      ensures exists y: nat :: Arc(s, y) in ArcSet(written) && t in Stands(LeafSets(spans), y)
    {
      var x: nat :| x in picked && t in Part(spans, x);
      assert Arc(s, x) in written;
    }
  }

  lemma WrittenNodes(limit: nat, next: nat, children: map<nat, Pair>, spans: map<nat, Pair>,
                     done: map<nat, seq<nat>>, written: seq<Arc>, arcs: seq<Arc>, a: Arc)
    requires Balanced(limit, next, children, spans) && Written(written, children, done)
    requires AllCovered(spans, limit, arcs, done)
    requires a in written
    ensures (a.tail < limit || a.tail in spans) && (a.head < limit || a.head in spans)
  {
    hide Fans, Split, Stands, Successors, Spread, PartsOf, Covers, Interval;
    assert a == Arc(a.tail, a.head);
    if a.tail in children {
      NodeFans(limit, next, children, spans, done, written, a.tail);
    } else {
      SourceFans(limit, next, children, spans, done, written, arcs, a.tail);
    }
  }

  lemma TreeExpands(limit: nat, next: nat, children: map<nat, Pair>, spans: map<nat, Pair>,
                    done: map<nat, seq<nat>>, written: seq<Arc>, arcs: seq<Arc>)
    requires Balanced(limit, next, children, spans) && Written(written, children, done)
    requires AllCovered(spans, limit, arcs, done)
    requires forall a :: a in arcs ==> a.tail < limit && a.head < limit && a.tail in done
    ensures Expands(ArcSet(written), limit, LeafSets(spans), ArcSet(arcs))
  {
    hide HelperFans, Fans, Split, Stands, Successors, Spread, PartsOf, Covers, Interval, Written;
    forall a | a in written
      ensures (a.tail < limit || a.tail in spans) && (a.head < limit || a.head in spans)
    {
      WrittenNodes(limit, next, children, spans, done, written, arcs, a);
    }
    forall h: nat | h in children
      ensures HelperFans(ArcSet(written), limit, LeafSets(spans), h)
    {
      NodeFans(limit, next, children, spans, done, written, h);
    }
    forall s: nat | s < limit
      ensures Fans(ArcSet(written), LeafSets(spans), s, Successors(ArcSet(arcs), s))
    {
      SourceFans(limit, next, children, spans, done, written, arcs, s);
    }
  }

  lemma RunFinishedSource(limit: nat, next: nat, children: map<nat, Pair>, spans: map<nat, Pair>,
                          done: map<nat, seq<nat>>, written: seq<Arc>, arcs: seq<Arc>,
                          source: nat, ordered: seq<nat>, picked: seq<nat>)
    requires Balanced(limit, next, children, spans) && Written(written, children, done)
    requires AllCovered(spans, limit, arcs, done)
    requires source < limit && source !in done
    requires Spread(spans, limit, picked, 0) && forall t: nat :: t in PartsOf(spans, picked) <==> t in ordered
    requires forall t: nat :: t in ordered <==> Arc(source, t) in arcs
    ensures Written(written + ArcsTo(source, picked), children, done[source := picked])
    ensures AllCovered(spans, limit, arcs, done[source := picked])
  {
    hide Spread, PartsOf, Split;
    var more := ArcsTo(source, picked);
    assert forall a: Arc :: a in more <==> a.tail == source && a.head in picked by {
      forall a: Arc | a.tail == source && a.head in picked
        ensures a in more
      {
        var i :| 0 <= i < |picked| && picked[i] == a.head;
        assert more[i] == a;
      }
    }
  }

  /** The sorted successors of one source, as `CoverRuns` uses them. */
  lemma SortedTargets(limit: nat, arcs: seq<Arc>, source: nat, targets: seq<nat>)
    requires Distinct(arcs) && forall a :: a in arcs ==> a.tail < limit && 1 <= a.head < limit
    requires targets == TargetsOf(arcs, source) && targets != []
    ensures Increasing(SortNodes(targets)) && SortNodes(targets) != []
    ensures forall t: nat :: t in SortNodes(targets) <==> Arc(source, t) in arcs
    ensures forall t: nat :: t in SortNodes(targets) ==> 1 <= t < limit
    ensures source < limit
  {
    TargetsAreSuccessors(arcs, source);
    SortIncreases(targets);
    assert Arc(source, targets[0]) in arcs;
    forall t: nat | t in SortNodes(targets)
      ensures 1 <= t < limit
    {
      assert Arc(source, t) in arcs;
    }
  }

  lemma TreeWritten(arcs: seq<Arc>, children: map<nat, Pair>, low: nat, high: nat,
                    spans: map<nat, Pair>, limit: nat, original: seq<Arc>)
    requires ArcsGrown([], arcs, children, low, high)
    requires Grown(map[], children, low, high)
    ensures Written(arcs, children, map[])
    ensures AllCovered(spans, limit, original, map[])
  {
  }

  /**
    Returns the number of nodes and the sorted arcs of the compressed graph; `leaves` says which
    original nodes each tree node stands for, and `sources` lists the nodes that had arcs.
   */
  method CompressArcIntervals(candidateCount: nat, arcs: seq<Arc>)
    returns (nodeCount: nat, compressed: seq<Arc>, ghost leaves: map<nat, set<nat>>, ghost sources: seq<nat>)
    requires Distinct(arcs)
    requires forall a :: a in arcs ==> a.tail < candidateCount + 2 && 1 <= a.head < candidateCount + 2
    ensures Expands(ArcSet(compressed), candidateCount + 2, leaves, ArcSet(arcs))
    ensures forall h: nat :: h in leaves <==> candidateCount + 2 <= h < nodeCount
    ensures Ordered(compressed)
    ensures nodeCount == 2 * candidateCount + 2
    ensures Distinct(sources) && forall s: nat :: s in sources <==> exists t: nat :: Arc(s, t) in arcs
    // Two arcs per inner tree node, and for every run of successors at most the bound of its tree.
    ensures TreeArcs(compressed, candidateCount + 2) == 2 * candidateCount
    ensures |compressed| <= 2 * candidateCount + RunSum(arcs, sources) * RunBound(candidateCount + 1)
  {
    hide Balanced, Written, AllCovered, Spread, PartsOf, Expands, Covers, Sort, TargetsOf, Grown, ArcsGrown, Runs,
         RunBound, RunSum, Increasing, TreeArcs;
    var tree := new IntervalTree(candidateCount);
    var limit := tree.limit;
    ghost var bound: nat := RunBound(candidateCount + 1);
    EmptyBalanced(limit);
    var root := tree.Tree(1, candidateCount + 1);
    ghost var children, spans := tree.children, tree.spans;
    TreeWritten(tree.compressed, children, limit, tree.nextNode, spans, limit, arcs);
    TreeOnly(tree.compressed, children, limit, tree.nextNode);
    var order, successors := GroupBySource(arcs);
    sources := order;
    ghost var done: map<nat, seq<nat>> := map[];
    for k := 0 to |order|
      invariant tree.Valid() && tree.limit == limit && tree.children == children && tree.spans == spans
      invariant Covers(spans, limit, root, 1, candidateCount + 1)
      invariant tree.nextNode == 2 * candidateCount + 2
      invariant Written(tree.compressed, children, done)
      invariant done.Keys == set s | s in order[..k]
      invariant AllCovered(spans, limit, arcs, done)
      invariant |tree.compressed| <= 2 * candidateCount + RunSum(arcs, order[..k]) * bound
      invariant TreeArcs(tree.compressed, limit) == 2 * candidateCount
    {
      var source := order[k];
      assert source in successors && source !in done by { assert source in order; }
      var ordered := SortNodes(successors[source]);
      SortedTargets(limit, arcs, source, successors[source]);
      ghost var written := tree.compressed;
      ghost var picked := tree.CoverRuns(source, ordered, root);
      RunFinishedSource(limit, tree.nextNode, children, spans, done, written, arcs, source, ordered, picked);
      SourceArcsAreNone(written, source, picked, limit);
      done := done[source := picked];
      assert order[..k + 1] == order[..k] + [source];
      RunSumStep(arcs, order, k, bound);
    }
    assert order[..|order|] == order;
    nodeCount, compressed := tree.nextNode, SortArcs(tree.compressed);
    leaves := LeafSets(spans);
    SortArcsCorrect(tree.compressed);
    SortKeepsTreeArcs(tree.compressed, limit);
    SourcesCoverArcs(arcs, order);
    TreeKeys(children, spans, limit, tree.nextNode);
    TreeExpands(limit, tree.nextNode, children, spans, done, tree.compressed, arcs);
  }

  /** How many arcs leave tree nodes. */
  function TreeArcs(arcs: seq<Arc>, limit: nat): nat {
    if arcs == [] then 0 else (if arcs[0].tail >= limit then 1 else 0) + TreeArcs(arcs[1..], limit)
  }

  lemma {:induction false} TreeArcsAppend(a: seq<Arc>, b: seq<Arc>, limit: nat)
    ensures TreeArcs(a + b, limit) == TreeArcs(a, limit) + TreeArcs(b, limit)
  {
    if a == [] {
      assert a + b == b;
    } else {
      assert (a + b)[1..] == a[1..] + b;
      TreeArcsAppend(a[1..], b, limit);
    }
  }

  lemma {:induction false} SameSideArcs(arcs: seq<Arc>, limit: nat)
    ensures (forall a :: a in arcs ==> a.tail >= limit) ==> TreeArcs(arcs, limit) == |arcs|
    ensures (forall a :: a in arcs ==> a.tail < limit) ==> TreeArcs(arcs, limit) == 0
  {
    if arcs != [] {
      assert arcs[0] in arcs;
      assert forall a :: a in arcs[1..] ==> a in arcs;
      SameSideArcs(arcs[1..], limit);
    }
  }

  lemma TreeOnly(arcs: seq<Arc>, children: map<nat, Pair>, low: nat, high: nat)
    requires ArcsGrown([], arcs, children, low, high)
    ensures TreeArcs(arcs, low) == |arcs|
  {
    SameSideArcs(arcs, low);
  }

  lemma SourceArcsAreNone(arcs: seq<Arc>, source: nat, picked: seq<nat>, limit: nat)
    requires source < limit
    ensures TreeArcs(arcs + ArcsTo(source, picked), limit) == TreeArcs(arcs, limit)
  {
    TreeArcsAppend(arcs, ArcsTo(source, picked), limit);
    SameSideArcs(ArcsTo(source, picked), limit);
  }

  lemma {:induction false} InsertTreeArcs(a: Arc, arcs: seq<Arc>, limit: nat)
    ensures TreeArcs(Insert(Before, a, arcs), limit) == TreeArcs(arcs, limit) + if a.tail >= limit then 1 else 0
  {
    if arcs != [] && !Before(a, arcs[0]) {
      InsertTreeArcs(a, arcs[1..], limit);
    }
  }

  lemma {:induction false} SortKeepsTreeArcs(arcs: seq<Arc>, limit: nat)
    ensures TreeArcs(SortArcs(arcs), limit) == TreeArcs(arcs, limit)
  {
    if arcs != [] {
      SortKeepsTreeArcs(arcs[1..], limit);
      InsertTreeArcs(arcs[0], SortArcs(arcs[1..]), limit);
    }
  }

  lemma RunSumStep(arcs: seq<Arc>, order: seq<nat>, k: nat, bound: nat)
    requires k < |order|
    ensures RunSum(arcs, order[..k + 1]) * bound
         == RunSum(arcs, order[..k]) * bound + Runs(SortNodes(TargetsOf(arcs, order[k]))) * bound
    ensures RunSum(arcs, []) == 0
  {
    hide Runs, Sort, TargetsOf;
    assert order[..k + 1][..k] == order[..k];
    var before, more := RunSum(arcs, order[..k]), Runs(SortNodes(TargetsOf(arcs, order[k])));
    assert RunSum(arcs, order[..k + 1]) == before + more;
    Distribute(before, more, bound);
  }

  lemma Distribute(a: nat, b: nat, m: nat)
    ensures (a + b) * m == a * m + b * m
  {
  }

  lemma EmptyBalanced(limit: nat)
    ensures Balanced(limit, limit, map[], map[])
  {
  }

  lemma TreeKeys(children: map<nat, Pair>, spans: map<nat, Pair>, low: nat, high: nat)
    requires Grown(map[], children, low, high) && Grown(map[], spans, low, high)
    ensures forall h: nat :: h in LeafSets(spans) <==> low <= h < high
  {
  }
}
