/**
  `compress_arc_suffixes`: identical suffixes of sorted successor lists share hash-consed hubs.
 */
module SuffixCompression {
  import opened Arcs
  import opened ArcOrder
  import opened Sorting
  import opened SuccessorLists
  import opened HubErasure

  /** A hub's dictionary key: the first successor it offers, and the node for the rest of the list. */
  type HubKey = (nat, nat)

  ghost predicate IsNode(limit: nat, leaves: map<nat, set<nat>>, x: nat) {
    x < limit || x in leaves
  }

  /** What the hub dictionary means: `keyOf` inverts it and `leaves` expands it. */
  ghost predicate HubTable(limit: nat, next: nat, hubs: map<HubKey, nat>, keyOf: map<nat, HubKey>,
                           leaves: map<nat, set<nat>>) {
    && (forall h: nat :: h in keyOf <==> limit <= h < next)
    && leaves.Keys == keyOf.Keys
    && (forall key :: key in hubs ==> hubs[key] in keyOf && keyOf[hubs[key]] == key)
    && (forall h: nat :: h in keyOf ==> keyOf[h] in hubs && hubs[keyOf[h]] == h)
    && (forall h: nat {:trigger HubExpands(limit, leaves, h, keyOf[h])} ::
          h in keyOf ==> HubExpands(limit, leaves, h, keyOf[h]))
  }

  /** Hub `h` stands for its first successor and everything its rest stands for, all of it larger. */
  ghost predicate HubExpands(limit: nat, leaves: map<nat, set<nat>>, h: nat, key: HubKey)
    requires h in leaves
  {
    && IsNode(limit, leaves, key.1)
    && leaves[h] == {key.0} + Stands(leaves, key.1)
    && Stands(leaves, key.1) != {}
    && (forall t: nat :: t in Stands(leaves, key.1) ==> key.0 < t < limit)
  }

  /** No two nodes stand for the same set: hubs are shared as far as possible. */
  ghost predicate Shared(limit: nat, leaves: map<nat, set<nat>>) {
    forall x: nat, y: nat | IsNode(limit, leaves, x) && IsNode(limit, leaves, y) ::
      Stands(leaves, x) == Stands(leaves, y) ==> x == y
  }

  /** The arcs written so far: two per hub and one per finished source. */
  ghost predicate Written(arcs: seq<Arc>, keyOf: map<nat, HubKey>, done: map<nat, nat>) {
    forall a :: a in arcs <==> || (a.tail in keyOf && a.head in {keyOf[a.tail].0, keyOf[a.tail].1})
                               || (a.tail in done && a.head == done[a.tail])
  }

  /** Every finished source points at the node that stands for its successors. */
  ghost predicate SourcesDone(limit: nat, leaves: map<nat, set<nat>>, done: map<nat, nat>, arcs: seq<Arc>) {
    forall s: nat :: s in done ==>
      s < limit && IsNode(limit, leaves, done[s]) && Stands(leaves, done[s]) == Successors(ArcSet(arcs), s)
  }

  lemma NewHub(limit: nat, next: nat, hubs: map<HubKey, nat>, keyOf: map<nat, HubKey>,
               leaves: map<nat, set<nat>>, target: nat, suffix: nat)
    requires next >= limit
    requires HubTable(limit, next, hubs, keyOf, leaves)
    requires IsNode(limit, leaves, suffix) && Stands(leaves, suffix) != {}
    requires forall t: nat :: t in Stands(leaves, suffix) ==> target < t < limit
    requires (target, suffix) !in hubs
    ensures HubTable(limit, next + 1, hubs[(target, suffix) := next], keyOf[next := (target, suffix)],
                     leaves[next := {target} + Stands(leaves, suffix)])
  {
    var key := (target, suffix);
    var hubs', keyOf', leaves' :=
      hubs[key := next], keyOf[next := key], leaves[next := {target} + Stands(leaves, suffix)];
    assert next !in leaves;
    forall h: nat | h in keyOf'
      ensures HubExpands(limit, leaves', h, keyOf'[h])
    {
      if h == next {
        assert forall t: nat :: t in Stands(leaves', suffix) <==> t in Stands(leaves, suffix);
      } else {
        assert HubExpands(limit, leaves, h, keyOf[h]);
      }
    }
  }

  /** The node standing for a target and the suffix after it can only be the hub with that key. */
  lemma OnlyHubOfKey(limit: nat, next: nat, hubs: map<HubKey, nat>, keyOf: map<nat, HubKey>,
                     leaves: map<nat, set<nat>>, target: nat, suffix: nat, x: nat)
    requires HubTable(limit, next, hubs, keyOf, leaves) && Shared(limit, leaves)
    requires IsNode(limit, leaves, suffix) && Stands(leaves, suffix) != {}
    requires forall t: nat :: t in Stands(leaves, suffix) ==> target < t < limit
    requires IsNode(limit, leaves, x)
    requires Stands(leaves, x) == {target} + Stands(leaves, suffix)
    ensures x in keyOf && keyOf[x] == (target, suffix)
  {
    var rest := Stands(leaves, suffix);
    var t :| t in rest;
    assert t in Stands(leaves, x) && target in Stands(leaves, x);
    assert x in leaves;
    var key := keyOf[x];
    assert HubExpands(limit, leaves, x, key);
    assert key.0 in leaves[x];
    assert Stands(leaves, key.1) == leaves[x] - {key.0} == rest;
  }

  lemma StaysShared(limit: nat, next: nat, hubs: map<HubKey, nat>, keyOf: map<nat, HubKey>,
                    leaves: map<nat, set<nat>>, target: nat, suffix: nat)
    requires next >= limit
    requires HubTable(limit, next, hubs, keyOf, leaves) && Shared(limit, leaves)
    requires IsNode(limit, leaves, suffix) && Stands(leaves, suffix) != {}
    requires forall t: nat :: t in Stands(leaves, suffix) ==> target < t < limit
    requires (target, suffix) !in hubs
    ensures Shared(limit, leaves[next := {target} + Stands(leaves, suffix)])
  {
    var leaves' := leaves[next := {target} + Stands(leaves, suffix)];
    assert next !in leaves;
    forall x: nat, y: nat | IsNode(limit, leaves', x) && IsNode(limit, leaves', y)
                            && Stands(leaves', x) == Stands(leaves', y)
      ensures x == y
    {
      if x != next && y == next {
        OnlyHubOfKey(limit, next, hubs, keyOf, leaves, target, suffix, x);
      } else if x == next && y != next {
        OnlyHubOfKey(limit, next, hubs, keyOf, leaves, target, suffix, y);
      } else if x != next {
        assert IsNode(limit, leaves, x) && IsNode(limit, leaves, y);
      }
    }
  }

  /** The two arcs of a hub split what it stands for. */
  lemma HubFans(limit: nat, next: nat, hubs: map<HubKey, nat>, keyOf: map<nat, HubKey>,
                leaves: map<nat, set<nat>>, done: map<nat, nat>, compressed: seq<Arc>, h: nat)
    requires HubTable(limit, next, hubs, keyOf, leaves)
    requires Written(compressed, keyOf, done) && forall s: nat :: s in done ==> s < limit
    requires h in leaves
    ensures HelperFans(ArcSet(compressed), limit, leaves, h)
    ensures forall y: nat :: Arc(h, y) in compressed ==> IsNode(limit, leaves, y)
  {
    hide Fans;
    var key := keyOf[h];
    assert HubExpands(limit, leaves, h, key);
    var t :| t in Stands(leaves, key.1);
    assert key.0 < limit && Stands(leaves, key.0) == {key.0};
    assert Arc(h, key.0) in compressed && Arc(h, key.1) in compressed;
    assert forall y: nat :: Arc(h, y) in compressed <==> y == key.0 || y == key.1;
    PairFans(ArcSet(compressed), leaves, h, key.0, key.1);
    assert |leaves[h]| == 1 + |Stands(leaves, key.1)|;
    assert Stands(leaves, key.1) == (Stands(leaves, key.1) - {t}) + {t};
  }

  lemma SourceFans(limit: nat, keyOf: map<nat, HubKey>, leaves: map<nat, set<nat>>, done: map<nat, nat>,
                   compressed: seq<Arc>, arcs: seq<Arc>, s: nat)
    requires forall h: nat :: h in keyOf ==> h >= limit
    requires Written(compressed, keyOf, done)
    requires s !in done ==> forall a :: a in arcs ==> a.tail != s
    requires s in done ==> IsNode(limit, leaves, done[s]) && Stands(leaves, done[s]) == Successors(ArcSet(arcs), s)
    requires s < limit
    ensures Fans(ArcSet(compressed), leaves, s, Successors(ArcSet(arcs), s))
    ensures forall y: nat :: Arc(s, y) in compressed ==> IsNode(limit, leaves, y)
  {
    assert forall y: nat :: Arc(s, y) in compressed <==> s in done && y == done[s];
    if s in done {
      assert Arc(s, done[s]) in compressed;
    } else {
      assert Successors(ArcSet(arcs), s) == {};
    }
  }

  /** The compression's loop invariant. */
  ghost predicate Progress(limit: nat, next: nat, hubs: map<HubKey, nat>, keyOf: map<nat, HubKey>,
                           leaves: map<nat, set<nat>>, done: map<nat, nat>, written: seq<Arc>, arcs: seq<Arc>) {
    && limit <= next
    && HubTable(limit, next, hubs, keyOf, leaves)
    && Shared(limit, leaves)
    && Written(written, keyOf, done)
    && SourcesDone(limit, leaves, done, arcs)
  }

  /** `suffix` is the node for the successors `rest`. */
  ghost predicate SuffixNode(limit: nat, leaves: map<nat, set<nat>>, suffix: nat, rest: seq<nat>) {
    IsNode(limit, leaves, suffix) && rest != [] && forall t: nat :: t in Stands(leaves, suffix) <==> t in rest
  }

  lemma HubAdded(limit: nat, next: nat, hubs: map<HubKey, nat>, keyOf: map<nat, HubKey>,
                 leaves: map<nat, set<nat>>, done: map<nat, nat>, written: seq<Arc>, arcs: seq<Arc>,
                 target: nat, suffix: nat, rest: seq<nat>)
    requires Progress(limit, next, hubs, keyOf, leaves, done, written, arcs)
    requires SuffixNode(limit, leaves, suffix, rest)
    requires forall t: nat :: t in rest ==> target < t < limit
    requires (target, suffix) !in hubs
    ensures Progress(limit, next + 1, hubs[(target, suffix) := next], keyOf[next := (target, suffix)],
                     leaves[next := {target} + Stands(leaves, suffix)], done,
                     written + [Arc(next, target), Arc(next, suffix)], arcs)
  {
    assert rest[0] in Stands(leaves, suffix);
    NewHub(limit, next, hubs, keyOf, leaves, target, suffix);
    StaysShared(limit, next, hubs, keyOf, leaves, target, suffix);
    var written' := written + [Arc(next, target), Arc(next, suffix)];
    assert next !in keyOf && next !in done;
    assert forall a :: a in written' <==> a in written || a == Arc(next, target) || a == Arc(next, suffix);
  }

  lemma SuffixNodeKept(limit: nat, next: nat, hubs: map<HubKey, nat>, keyOf: map<nat, HubKey>,
                       leaves: map<nat, set<nat>>, suffix: nat, rest: seq<nat>, more: set<nat>)
    requires next >= limit && HubTable(limit, next, hubs, keyOf, leaves)
    requires SuffixNode(limit, leaves, suffix, rest)
    ensures SuffixNode(limit, leaves[next := more], suffix, rest)
  {
  }

  lemma EmptyTable(limit: nat, arcs: seq<Arc>)
    ensures Progress(limit, limit, map[], map[], map[], map[], [], arcs)
  {
  }

  lemma HubFound(limit: nat, next: nat, hubs: map<HubKey, nat>, keyOf: map<nat, HubKey>,
                 leaves: map<nat, set<nat>>, target: nat, suffix: nat, rest: seq<nat>)
    requires HubTable(limit, next, hubs, keyOf, leaves)
    requires SuffixNode(limit, leaves, suffix, rest)
    requires (target, suffix) in hubs
    ensures SuffixNode(limit, leaves, hubs[(target, suffix)], [target] + rest)
  {
    var h := hubs[(target, suffix)];
    assert HubExpands(limit, leaves, h, keyOf[h]);
  }

  lemma SourceFinished(limit: nat, next: nat, hubs: map<HubKey, nat>, keyOf: map<nat, HubKey>,
                       leaves: map<nat, set<nat>>, done: map<nat, nat>, written: seq<Arc>, arcs: seq<Arc>,
                       source: nat, suffix: nat, rest: seq<nat>)
    requires Progress(limit, next, hubs, keyOf, leaves, done, written, arcs)
    requires SuffixNode(limit, leaves, suffix, rest)
    requires source < limit && source !in done
    requires forall t: nat :: t in rest <==> Arc(source, t) in arcs
    ensures Progress(limit, next, hubs, keyOf, leaves, done[source := suffix], written + [Arc(source, suffix)], arcs)
  {
    assert forall a :: a in written + [Arc(source, suffix)] <==> a in written || a == Arc(source, suffix);
    assert source !in keyOf;
    assert Stands(leaves, suffix) == Successors(ArcSet(arcs), source) by {
      assert forall t: nat :: Arc(source, t) in arcs ==> Arc(source, t) in ArcSet(arcs);
    }
  }

  /** The finished table is an expansion of the original arcs. */
  lemma TableExpands(limit: nat, next: nat, hubs: map<HubKey, nat>, keyOf: map<nat, HubKey>,
                     leaves: map<nat, set<nat>>, done: map<nat, nat>, compressed: seq<Arc>, arcs: seq<Arc>)
    requires Progress(limit, next, hubs, keyOf, leaves, done, compressed, arcs)
    requires forall a :: a in arcs ==> a.tail < limit && a.head < limit && a.tail in done
    ensures limit <= next && forall h: nat :: h in leaves <==> limit <= h < next
    ensures Shared(limit, leaves)
    ensures Expands(ArcSet(compressed), limit, leaves, ArcSet(arcs))
  {
    hide HelperFans, Fans, HubExpands, Successors, Stands;
    forall h: nat | h in leaves
      ensures HelperFans(ArcSet(compressed), limit, leaves, h)
      ensures forall y: nat :: Arc(h, y) in compressed ==> IsNode(limit, leaves, y)
    {
      HubFans(limit, next, hubs, keyOf, leaves, done, compressed, h);
    }
    forall s: nat | s < limit
      ensures Fans(ArcSet(compressed), leaves, s, Successors(ArcSet(arcs), s))
      ensures forall y: nat :: Arc(s, y) in compressed ==> IsNode(limit, leaves, y)
    {
      SourceFans(limit, keyOf, leaves, done, compressed, arcs, s);
    }
    forall a | a in compressed
      ensures IsNode(limit, leaves, a.tail) && IsNode(limit, leaves, a.head)
    {
      assert a == Arc(a.tail, a.head);
    }
  }

  /** The sorted successors of one source, as the inner loop uses them. */
  lemma SortedTargets(limit: nat, arcs: seq<Arc>, source: nat, targets: seq<nat>)
    requires Distinct(arcs) && forall a :: a in arcs ==> a.tail < limit && a.head < limit
    requires targets == TargetsOf(arcs, source) && targets != []
    ensures Increasing(SortNodes(targets)) && SortNodes(targets) != [] && |SortNodes(targets)| == |targets|
    ensures forall t: nat :: t in SortNodes(targets) <==> Arc(source, t) in arcs
    ensures forall t: nat :: t in SortNodes(targets) ==> t < limit
    ensures source < limit
  {
    TargetsAreSuccessors(arcs, source);
    SortIncreases(targets);
    assert Arc(source, targets[0]) in arcs;
    forall t: nat | t in SortNodes(targets)
      ensures t < limit
    {
      assert Arc(source, t) in arcs;
    }
  }

  lemma LastSuffix(limit: nat, next: nat, hubs: map<HubKey, nat>, keyOf: map<nat, HubKey>,
                   leaves: map<nat, set<nat>>, done: map<nat, nat>, written: seq<Arc>, arcs: seq<Arc>,
                   ordered: seq<nat>)
    requires Progress(limit, next, hubs, keyOf, leaves, done, written, arcs)
    requires ordered != [] && forall t: nat :: t in ordered ==> t < limit
    ensures SuffixNode(limit, leaves, ordered[|ordered| - 1], ordered[|ordered| - 1..])
  {
    assert ordered[|ordered| - 1] in ordered;
    assert ordered[|ordered| - 1..] == [ordered[|ordered| - 1]];
  }

  /** One pass of the inner loop: whether the hub is new or shared, it is the node for the longer suffix. */
  lemma HubStep(limit: nat, next: nat, hubs: map<HubKey, nat>, keyOf: map<nat, HubKey>,
                leaves: map<nat, set<nat>>, done: map<nat, nat>, written: seq<Arc>, arcs: seq<Arc>,
                ordered: seq<nat>, i: nat, suffix: nat)
    requires Progress(limit, next, hubs, keyOf, leaves, done, written, arcs)
    requires Increasing(ordered) && forall t: nat :: t in ordered ==> t < limit
    requires 0 < i < |ordered|
    requires SuffixNode(limit, leaves, suffix, ordered[i..])
    ensures var key := (ordered[i - 1], suffix);
            if key in hubs then SuffixNode(limit, leaves, hubs[key], ordered[i - 1..])
            else
              var leaves' := leaves[next := {key.0} + Stands(leaves, suffix)];
              && Progress(limit, next + 1, hubs[key := next], keyOf[next := key], leaves', done,
                          written + [Arc(next, key.0), Arc(next, suffix)], arcs)
              && SuffixNode(limit, leaves', next, ordered[i - 1..])
  {
    var target, rest := ordered[i - 1], ordered[i..];
    assert ordered[i - 1..] == [target] + rest;
    forall t: nat | t in rest
      ensures target < t < limit
    {
      var j :| i <= j < |ordered| && ordered[j] == t;
      assert t in ordered;
    }
    var key: HubKey := (target, suffix);
    if key in hubs {
      HubFound(limit, next, hubs, keyOf, leaves, target, suffix, rest);
    } else {
      HubAdded(limit, next, hubs, keyOf, leaves, done, written, arcs, target, suffix, rest);
      SuffixNodeKept(limit, next, hubs, keyOf, leaves, suffix, rest, {target} + Stands(leaves, suffix));
      HubFound(limit, next + 1, hubs[key := next], keyOf[next := key],
               leaves[next := {target} + Stands(leaves, suffix)], target, suffix, rest);
    }
  }

  /**
    Returns the number of nodes and the sorted arcs of the compressed graph; `leaves` says which
    original nodes each hub stands for, and `sources` lists the nodes that had arcs.
   */
  method CompressArcSuffixes(candidateCount: nat, arcs: seq<Arc>)
    returns (nodeCount: nat, compressed: seq<Arc>, ghost leaves: map<nat, set<nat>>, ghost sources: seq<nat>)
    requires Distinct(arcs)
    requires forall a :: a in arcs ==> a.tail < candidateCount + 2 && a.head < candidateCount + 2
    ensures Expands(ArcSet(compressed), candidateCount + 2, leaves, ArcSet(arcs))
    ensures nodeCount >= candidateCount + 2
    ensures forall h: nat :: h in leaves <==> candidateCount + 2 <= h < nodeCount
    ensures Ordered(compressed)
    // No two hubs expand to the same successors.
    ensures Shared(candidateCount + 2, leaves)
    // Two arcs per hub and one per source, which is never more than a chain of hubs per source.
    ensures Distinct(sources) && forall s: nat :: s in sources <==> exists t: nat :: Arc(s, t) in arcs
    ensures |compressed| == 2 * (nodeCount - (candidateCount + 2)) + |sources|
    ensures |compressed| <= 2 * |arcs| - |sources|
  {
    hide Progress, SuffixNode, Shared, Expands, Stands, SortNodes, TargetsOf, Increasing, Ordered, Distinct, ArcSet, SortArcs, DegreeSum;
    var limit := candidateCount + 2;
    var order, successors := GroupBySource(arcs);
    var nextNode: nat := limit;
    var hubs: map<HubKey, nat> := map[];
    var written: seq<Arc> := [];
    ghost var keyOf: map<nat, HubKey> := map[];
    ghost var done: map<nat, nat> := map[];
    leaves := map[];
    EmptyTable(limit, arcs);
    DegreeSumEmpty(arcs);
    SortIncreases(order);
    var sorted := SortNodes(order);
    sources := sorted;
    for k := 0 to |sorted|
      invariant Progress(limit, nextNode, hubs, keyOf, leaves, done, written, arcs)
      invariant forall s: nat :: s in done <==> s in sorted[..k]
      invariant |written| == 2 * (nextNode - limit) + k
      invariant nextNode - limit + k <= DegreeSum(arcs, sorted[..k])
    {
      var source := sorted[k];
      assert source in successors && source !in done by { assert source in sorted; }
      var ordered := SortNodes(successors[source]);
      SortedTargets(limit, arcs, source, successors[source]);
      var i := |ordered| - 1;
      var suffix: nat := ordered[i];
      LastSuffix(limit, nextNode, hubs, keyOf, leaves, done, written, arcs, ordered);
      ghost var before := nextNode;
      while i > 0
        invariant 0 <= i < |ordered|
        invariant Progress(limit, nextNode, hubs, keyOf, leaves, done, written, arcs)
        invariant SuffixNode(limit, leaves, suffix, ordered[i..])
        invariant |written| == 2 * (nextNode - limit) + k
        invariant nextNode - before <= |ordered| - 1 - i
      {
        HubStep(limit, nextNode, hubs, keyOf, leaves, done, written, arcs, ordered, i, suffix);
        i := i - 1;
        var target: nat := ordered[i];
        var key: HubKey := (target, suffix);
        if key !in hubs {
          leaves := leaves[nextNode := {target} + Stands(leaves, suffix)];
          hubs, keyOf := hubs[key := nextNode], keyOf[nextNode := key];
          written := written + [Arc(nextNode, target), Arc(nextNode, suffix)];
          nextNode := nextNode + 1;
        }
        suffix := hubs[key];
      }
      assert ordered[0..] == ordered;
      SourceFinished(limit, nextNode, hubs, keyOf, leaves, done, written, arcs, source, suffix, ordered);
      written := written + [Arc(source, suffix)];
      done := done[source := suffix];
      assert sorted[..k + 1] == sorted[..k] + [source];
      DegreeSumAppend(arcs, sorted[..k], source);
    }
    assert sorted[..|sorted|] == sorted;
    nodeCount, compressed := nextNode, SortArcs(written);
    SortArcsCorrect(written);
    SourcesCoverArcs(arcs, sorted);
    ListsHoldArcs(arcs, sorted);
    TableExpands(limit, nextNode, hubs, keyOf, leaves, done, written, arcs);
  }
}
