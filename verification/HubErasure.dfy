/**
  Helper nodes of a compressed candidate graph.

  A compressed graph keeps the original nodes (numbers below `limit`) and adds helper nodes
  (numbers from `limit` on). Each helper stands for the set of original nodes it fans out to.
  `Expands` says what both compressions establish about those sets; everything else here is
  proved from it alone, so it holds for either compression.
 */
module HubErasure {
  import opened Arcs

  /** The original nodes a node stands for: itself, or a helper's set. */
  ghost function Stands(leaves: map<nat, set<nat>>, x: nat): set<nat> {
    if x in leaves then leaves[x] else {x}
  }

  /** The arcs leaving `x` split `targets` into disjoint parts. */
  ghost predicate Fans(compressed: set<Arc>, leaves: map<nat, set<nat>>, x: nat, targets: set<nat>) {
    && (forall y: nat :: Arc(x, y) in compressed ==> Stands(leaves, y) <= targets)
    && (forall t: nat :: t in targets ==> exists y: nat :: Arc(x, y) in compressed && t in Stands(leaves, y))
    && (forall y: nat, z: nat :: Arc(x, y) in compressed && Arc(x, z) in compressed && y != z
                                 ==> Stands(leaves, y) !! Stands(leaves, z))
  }

  /** Two arcs to nodes standing for disjoint sets split the union of those sets. */
  lemma PairFans(compressed: set<Arc>, leaves: map<nat, set<nat>>, x: nat, left: nat, right: nat)
    requires forall y: nat :: Arc(x, y) in compressed <==> y == left || y == right
    requires left == right || Stands(leaves, left) !! Stands(leaves, right)
    ensures Fans(compressed, leaves, x, Stands(leaves, left) + Stands(leaves, right))
  {
    assert Arc(x, left) in compressed && Arc(x, right) in compressed;
  }

  /** The original nodes one original arc away from `x`, or those that helper `x` stands for. */
  ghost function Targets(leaves: map<nat, set<nat>>, original: set<Arc>, x: nat): set<nat> {
    if x in leaves then leaves[x] else Successors(original, x)
  }

  /** Helper `h` splits what it stands for, a set of original nodes, into smaller parts. */
  ghost predicate HelperFans(compressed: set<Arc>, limit: nat, leaves: map<nat, set<nat>>, h: nat)
    requires h in leaves
  {
    && h >= limit
    && leaves[h] != {}
    && (forall t: nat :: t in leaves[h] ==> t < limit)
    && (forall y: nat :: Arc(h, y) in compressed ==> |Stands(leaves, y)| < |leaves[h]|)
    && Fans(compressed, leaves, h, leaves[h])
  }

  /** `compressed` is `original` with its successor sets routed through the helpers of `leaves`. */
  ghost predicate Expands(compressed: set<Arc>, limit: nat, leaves: map<nat, set<nat>>, original: set<Arc>) {
    && (forall h: nat {:trigger HelperFans(compressed, limit, leaves, h)} ::
          h in leaves ==> HelperFans(compressed, limit, leaves, h))
    && (forall s: nat {:trigger Fans(compressed, leaves, s, Successors(original, s))} ::
          s < limit ==> Fans(compressed, leaves, s, Successors(original, s)))
    && (forall a :: a in compressed ==> (a.tail < limit || a.tail in leaves) && (a.head < limit || a.head in leaves))
    && (forall a :: a in original ==> a.tail < limit && a.head < limit)
  }

  /** A walk with its helper nodes left out. */
  ghost function Erase(limit: nat, p: seq<nat>): seq<nat> {
    if p == [] then [] else (if p[0] < limit then [p[0]] else []) + Erase(limit, p[1..])
  }

  lemma {:induction false} EraseKeepsExactlyOriginals(limit: nat, p: seq<nat>, n: nat)
    ensures n in Erase(limit, p) <==> n in p && n < limit
    decreases |p|
  {
    if p != [] {
      EraseKeepsExactlyOriginals(limit, p[1..], n);
      assert p == [p[0]] + p[1..];
    }
  }

  lemma FansOut(compressed: set<Arc>, limit: nat, leaves: map<nat, set<nat>>, original: set<Arc>, x: nat)
    requires Expands(compressed, limit, leaves, original)
    requires x < limit || x in leaves
    ensures Fans(compressed, leaves, x, Targets(leaves, original, x))
    ensures x in leaves ==> HelperFans(compressed, limit, leaves, x)
  {
    if x in leaves {
      assert HelperFans(compressed, limit, leaves, x);
    }
  }

  /** Where a step of the compressed graph leads: to a node of the graph standing for targets of `x`. */
  lemma StepStaysInTargets(compressed: set<Arc>, limit: nat, leaves: map<nat, set<nat>>, original: set<Arc>,
                           x: nat, y: nat)
    requires Expands(compressed, limit, leaves, original)
    requires Arc(x, y) in compressed
    ensures x < limit || x in leaves
    ensures y < limit || y in leaves
    ensures Stands(leaves, y) <= Targets(leaves, original, x)
    ensures x < limit ==> x !in leaves
    ensures x in leaves ==> |Stands(leaves, y)| < |leaves[x]|
  {
    assert Arc(x, y).tail == x && Arc(x, y).head == y;
    FansOut(compressed, limit, leaves, original, x);
  }

  lemma HelpersAreHigh(compressed: set<Arc>, limit: nat, leaves: map<nat, set<nat>>, original: set<Arc>, x: nat)
    requires Expands(compressed, limit, leaves, original)
    ensures x in leaves ==> x >= limit && leaves[x] != {} && forall t :: t in leaves[x] ==> t < limit
  {
    if x in leaves {
      assert HelperFans(compressed, limit, leaves, x);
    }
  }

  /** The step of the compressed graph towards target `t` of `x`; there is exactly one. */
  lemma StepTowards(compressed: set<Arc>, limit: nat, leaves: map<nat, set<nat>>, original: set<Arc>, x: nat, t: nat)
    returns (y: nat)
    requires Expands(compressed, limit, leaves, original)
    requires x < limit || x in leaves
    requires t in Targets(leaves, original, x)
    ensures Arc(x, y) in compressed && t in Stands(leaves, y)
    ensures forall z: nat :: Arc(x, z) in compressed && t in Stands(leaves, z) ==> z == y
  {
    FansOut(compressed, limit, leaves, original, x);
    y :| Arc(x, y) in compressed && t in Stands(leaves, y);
  }

  /**
    Erasing the helpers of a compressed walk that ends at an original node leaves a walk of the
    original graph with the same ends (or, from a helper, one that starts at a node it stands for).
   */
  lemma {:induction false} ErasureIsWalk(compressed: set<Arc>, limit: nat, leaves: map<nat, set<nat>>,
                                         original: set<Arc>, p: seq<nat>)
    requires Expands(compressed, limit, leaves, original)
    requires Walk(compressed, p) && p[|p| - 1] < limit
    ensures p[0] < limit || p[0] in leaves
    ensures Walk(original, Erase(limit, p))
    ensures Erase(limit, p)[0] in Stands(leaves, p[0])
    ensures Erase(limit, p)[|Erase(limit, p)| - 1] == p[|p| - 1]
    ensures p[0] < limit && |p| >= 2 ==> |Erase(limit, p)| >= 2
    decreases |p|
  {
    hide Expands, Walk, Erase;
    WalkParts(compressed, p);
    HelpersAreHigh(compressed, limit, leaves, original, p[0]);
    if |p| == 1 {
      assert p == [p[0]];
      OneNode(original, limit, p[0]);
    } else {
      StepStaysInTargets(compressed, limit, leaves, original, p[0], p[1]);
      ErasureIsWalk(compressed, limit, leaves, original, p[1..]);
      var e := Erase(limit, p[1..]);
      EraseStep(limit, p);
      WalkParts(original, e);
      assert e[0] in Targets(leaves, original, p[0]);
      if p[0] < limit {
        WalkLonger(original, p[0], e);
      }
    }
  }

  lemma EraseStep(limit: nat, p: seq<nat>)
    requires p != []
    ensures Erase(limit, p) == if p[0] < limit then [p[0]] + Erase(limit, p[1..]) else Erase(limit, p[1..])
  {
  }

  lemma WalkLonger(arcs: set<Arc>, x: nat, rest: seq<nat>)
    requires Walk(arcs, rest) && rest[0] in Successors(arcs, x)
    ensures Walk(arcs, [x] + rest)
  {
    assert ([x] + rest)[1..] == rest;
  }

  /** Every original walk that starts where `x` stands is the erasure of a compressed walk from `x`. */
  lemma {:induction false} WalkLifts(compressed: set<Arc>, limit: nat, leaves: map<nat, set<nat>>,
                                     original: set<Arc>, x: nat, q: seq<nat>) returns (p: seq<nat>)
    requires Expands(compressed, limit, leaves, original)
    requires x < limit || x in leaves
    requires Walk(original, q) && q[0] in Stands(leaves, x)
    ensures Walk(compressed, p) && p[0] == x && p[|p| - 1] == q[|q| - 1]
    ensures Erase(limit, p) == q
    decreases |q|, if x in leaves then |leaves[x]| else 0
  {
    hide Expands, Walk, Erase;
    WalkParts(original, q);
    if x in leaves {
      var y := StepTowards(compressed, limit, leaves, original, x, q[0]);
      StepStaysInTargets(compressed, limit, leaves, original, x, y);
      var rest := WalkLifts(compressed, limit, leaves, original, y, q);
      HelpersAreHigh(compressed, limit, leaves, original, x);
      p := StepBefore(compressed, limit, x, rest);
    } else if |q| == 1 {
      p := [x];
      OneNode(compressed, limit, x);
    } else {
      var y := StepTowards(compressed, limit, leaves, original, x, q[1]);
      StepStaysInTargets(compressed, limit, leaves, original, x, y);
      var rest := WalkLifts(compressed, limit, leaves, original, y, q[1..]);
      p := StepBefore(compressed, limit, x, rest);
    }
  }

  lemma WalkParts(arcs: set<Arc>, p: seq<nat>)
    requires Walk(arcs, p)
    ensures |p| >= 1 && p == [p[0]] + p[1..]
    ensures |p| > 1 ==> p[1] in Successors(arcs, p[0]) && Walk(arcs, p[1..]) && p[1..][0] == p[1]
  {
    assert |p| > 1 ==> Arc(p[0], p[1]).tail == p[0];
  }

  lemma OneNode(arcs: set<Arc>, limit: nat, x: nat)
    ensures Walk(arcs, [x]) && Erase(limit, [x]) == if x < limit then [x] else []
  {
    assert [x][1..] == [];
  }

  lemma StepBefore(arcs: set<Arc>, limit: nat, x: nat, rest: seq<nat>) returns (p: seq<nat>)
    requires Walk(arcs, rest) && Arc(x, rest[0]) in arcs
    ensures Walk(arcs, p) && p[0] == x && p[|p| - 1] == rest[|rest| - 1]
    ensures Erase(limit, p) == (if x < limit then [x] else []) + Erase(limit, rest)
  {
    p := [x] + rest;
    assert p[1..] == rest;
  }

  /** The first step of a compressed walk is decided by its first node and its erasure. */
  lemma FirstStep(compressed: set<Arc>, limit: nat, leaves: map<nat, set<nat>>, original: set<Arc>, p: seq<nat>)
    requires Expands(compressed, limit, leaves, original)
    requires Walk(compressed, p) && |p| >= 2 && p[|p| - 1] < limit
    ensures var e := Erase(limit, p[1..]);
            && |e| >= 1 && e[0] in Targets(leaves, original, p[0])
            && (forall z: nat :: Arc(p[0], z) in compressed && e[0] in Stands(leaves, z) ==> z == p[1])
  {
    hide Expands;
    StepStaysInTargets(compressed, limit, leaves, original, p[0], p[1]);
    ErasureIsWalk(compressed, limit, leaves, original, p[1..]);
    var y := StepTowards(compressed, limit, leaves, original, p[0], Erase(limit, p[1..])[0]);
  }

  /** Compressed walks from one node to original nodes with the same erasure are the same walk. */
  lemma {:induction false} ErasureInjective(compressed: set<Arc>, limit: nat, leaves: map<nat, set<nat>>,
                                            original: set<Arc>, p: seq<nat>, q: seq<nat>)
    requires Expands(compressed, limit, leaves, original)
    requires Walk(compressed, p) && p[|p| - 1] < limit
    requires Walk(compressed, q) && q[|q| - 1] < limit
    requires p[0] == q[0] && Erase(limit, p) == Erase(limit, q)
    ensures p == q
    decreases |p|
  {
    hide Expands;
    if |p| == 1 || |q| == 1 {
      assert |p| == 1 && |q| == 1 by {
        ErasureIsWalk(compressed, limit, leaves, original, p);
        ErasureIsWalk(compressed, limit, leaves, original, q);
        assert |p| == 1 ==> Erase(limit, p) == [p[0]] + Erase(limit, []);
        assert |q| == 1 ==> Erase(limit, q) == [q[0]] + Erase(limit, []);
      }
      assert p == [p[0]] && q == [q[0]];
    } else {
      assert Erase(limit, p[1..]) == Erase(limit, q[1..]) by {
        var head := if p[0] < limit then [p[0]] else [];
        assert Erase(limit, p) == head + Erase(limit, p[1..]) && Erase(limit, q) == head + Erase(limit, q[1..]);
        assert Erase(limit, p)[|head|..] == Erase(limit, p[1..]) && Erase(limit, q)[|head|..] == Erase(limit, q[1..]);
      }
      assert p[1] == q[1] by {
        FirstStep(compressed, limit, leaves, original, p);
        ErasureIsWalk(compressed, limit, leaves, original, q[1..]);
      }
      ErasureInjective(compressed, limit, leaves, original, p[1..], q[1..]);
      assert p == [p[0]] + p[1..] && q == [q[0]] + q[1..];
    }
  }

  /** `p` leaves original node `s` and reaches original node `t` through helpers alone. */
  ghost predicate HelperRoute(compressed: set<Arc>, limit: nat, p: seq<nat>, s: nat, t: nat) {
    WalkFromTo(compressed, p, s, t) && Erase(limit, p) == [s, t]
  }

  /**
    One hop: original node `s` reaches original node `t` through helpers exactly when `(s, t)` was
    an arc, and then along exactly one route.
   */
  lemma OneRoutePerArc(compressed: set<Arc>, limit: nat, leaves: map<nat, set<nat>>, original: set<Arc>,
                       s: nat, t: nat)
    requires Expands(compressed, limit, leaves, original)
    requires s < limit && t < limit
    ensures Arc(s, t) in original <==> exists p :: HelperRoute(compressed, limit, p, s, t)
    ensures forall p, q :: HelperRoute(compressed, limit, p, s, t) && HelperRoute(compressed, limit, q, s, t) ==> p == q
  {
    if Arc(s, t) in original {
      assert [s, t][1..] == [t];
      HelpersAreHigh(compressed, limit, leaves, original, s);
      var p := WalkLifts(compressed, limit, leaves, original, s, [s, t]);
      assert HelperRoute(compressed, limit, p, s, t);
    }
    forall p | HelperRoute(compressed, limit, p, s, t)
      ensures Arc(s, t) in original
    {
      ErasureIsWalk(compressed, limit, leaves, original, p);
    }
    forall p, q | HelperRoute(compressed, limit, p, s, t) && HelperRoute(compressed, limit, q, s, t)
      ensures p == q
    {
      ErasureInjective(compressed, limit, leaves, original, p, q);
    }
  }

  /**
    Hub erasure is a bijection: between any two original nodes, leaving out helpers maps the
    compressed walks one-to-one onto the original walks.
   */
  lemma WalksCorrespond(compressed: set<Arc>, limit: nat, leaves: map<nat, set<nat>>, original: set<Arc>,
                        s: nat, t: nat)
    requires Expands(compressed, limit, leaves, original)
    requires s < limit && t < limit
    ensures forall p :: WalkFromTo(compressed, p, s, t) ==> WalkFromTo(original, Erase(limit, p), s, t)
    ensures forall q :: WalkFromTo(original, q, s, t) ==>
              exists p :: WalkFromTo(compressed, p, s, t) && Erase(limit, p) == q
    ensures forall p, p' | WalkFromTo(compressed, p, s, t) && WalkFromTo(compressed, p', s, t) ::
              Erase(limit, p) == Erase(limit, p') ==> p == p'
  {
    forall p | WalkFromTo(compressed, p, s, t)
      ensures WalkFromTo(original, Erase(limit, p), s, t)
    {
      ErasureIsWalk(compressed, limit, leaves, original, p);
    }
    forall q | WalkFromTo(original, q, s, t)
      ensures exists p :: WalkFromTo(compressed, p, s, t) && Erase(limit, p) == q
    {
      HelpersAreHigh(compressed, limit, leaves, original, s);
      var p := WalkLifts(compressed, limit, leaves, original, s, q);
    }
    forall p, p' | WalkFromTo(compressed, p, s, t) && WalkFromTo(compressed, p', s, t)
                   && Erase(limit, p) == Erase(limit, p')
      ensures p == p'
    {
      ErasureInjective(compressed, limit, leaves, original, p, p');
    }
  }

  ghost function MinRank(rank: nat -> int, s: set<nat>): (m: int)
    requires s != {}
    ensures forall t :: t in s ==> m <= rank(t)
    ensures exists t :: t in s && m == rank(t)
  {
    var t :| t in s;
    if s == {t} then rank(t) else
      assert s == (s - {t}) + {t};
      var r := MinRank(rank, s - {t});
      if rank(t) < r then rank(t) else r
  }

  lemma {:induction false} BoundedSetSize(s: set<nat>, limit: nat)
    requires forall t :: t in s ==> t < limit
    ensures |s| <= limit
  {
    if limit == 0 {
      assert s == {};
    } else {
      BoundedSetSize(s - {limit - 1}, limit - 1);
    }
  }

  /**
    A topological rank of the compressed graph made from one of the original graph: helpers come
    just before the earliest node they stand for, larger helpers first.
   */
  ghost function ExpandedRank(limit: nat, leaves: map<nat, set<nat>>, rank: nat -> int, x: nat): int {
    if x in leaves && leaves[x] != {} then
      MinRank(rank, leaves[x]) * (limit + 1) - |leaves[x]|
    else
      rank(x) * (limit + 1)
  }

  /** Compression keeps the graph free of cycles. */
  lemma AcyclicityKept(compressed: set<Arc>, limit: nat, leaves: map<nat, set<nat>>, original: set<Arc>,
                       rank: nat -> int)
    requires Expands(compressed, limit, leaves, original)
    requires Ranked(original, rank)
    ensures Ranked(compressed, (x: nat) => ExpandedRank(limit, leaves, rank, x))
  {
    forall a | a in compressed
      ensures ExpandedRank(limit, leaves, rank, a.tail) < ExpandedRank(limit, leaves, rank, a.head)
    {
      RankGrows(compressed, limit, leaves, original, rank, a.tail, a.head);
    }
  }

  lemma ScaledOrder(a: int, b: int, m: nat)
    requires a <= b
    ensures a * m <= b * m && (a - 1) * m == a * m - m
  {
  }

  lemma RankGrows(compressed: set<Arc>, limit: nat, leaves: map<nat, set<nat>>, original: set<Arc>,
                  rank: nat -> int, x: nat, y: nat)
    requires Expands(compressed, limit, leaves, original)
    requires Ranked(original, rank)
    requires Arc(x, y) in compressed
    ensures ExpandedRank(limit, leaves, rank, x) < ExpandedRank(limit, leaves, rank, y)
  {
    hide Expands;
    StepStaysInTargets(compressed, limit, leaves, original, x, y);
    HelpersAreHigh(compressed, limit, leaves, original, x);
    HelpersAreHigh(compressed, limit, leaves, original, y);
    var low := y;
    if y in leaves {
      BoundedSetSize(leaves[y], limit);
      low :| low in leaves[y] && rank(low) == MinRank(rank, leaves[y]);
    }
    assert low in Targets(leaves, original, x);
    hide MinRank;
    if x in leaves {
      ScaledOrder(MinRank(rank, leaves[x]), rank(low), limit + 1);
    } else {
      assert Arc(x, low) in original;
      ScaledOrder(rank(x) + 1, rank(low), limit + 1);
    }
  }
}
