/** The compiled program: candidate graph, optional compression, offset arrays, route constraints. */
module RouteProgram {
  import opened Arcs
  import opened ArcOrder
  import opened Sorting
  import opened SuccessorLists
  import opened HubErasure
  import opened OffsetArrays
  import opened FlowModel
  import opened RouteFlow
  import opened Envelope
  import opened RouteWorth
  import SuffixCompression
  import IntervalCompression

  datatype Compression = None | Suffix | Interval

  /** A duplicate-free, sorted candidate graph without arcs into the source, as the planner builds it. */
  ghost predicate CandidateGraph(candidateCount: nat, arcs: seq<Arc>) {
    && Distinct(arcs) && Ordered(arcs)
    && forall a :: a in arcs ==> a.tail < candidateCount + 2 && 1 <= a.head < candidateCount + 2
  }

  /** A source-to-sink walk of the candidate graph whose candidates are the selected ones. */
  ghost predicate RouteOf(candidateCount: nat, arcs: set<Arc>, p: seq<nat>, selected: seq<int>) {
    WalkFromTo(arcs, p, 0, candidateCount + 1) && Selects(candidateCount, p, selected)
  }

  ghost predicate SelectsRoute(candidateCount: nat, arcs: set<Arc>, selected: seq<int>) {
    exists p :: RouteOf(candidateCount, arcs, p, selected)
  }

  /** The selections of whole routes. */
  ghost function RouteSelections(candidateCount: nat, arcs: set<Arc>): iset<seq<int>> {
    iset selected: seq<int> | SelectsRoute(candidateCount, arcs, selected)
  }

  ghost predicate Selectable(layout: Layout, nodeCount: nat, candidateCount: nat, selected: seq<int>) {
    exists flow :: SatisfiesModel(layout, nodeCount, candidateCount, flow, selected)
  }

  /** The selections the solver may take. */
  ghost function ModelSelections(layout: Layout, nodeCount: nat, candidateCount: nat): iset<seq<int>> {
    iset selected: seq<int> | Selectable(layout, nodeCount, candidateCount, selected)
  }

  lemma SelectsErased(limit: nat, candidateCount: nat, p: seq<nat>, selected: seq<int>)
    requires limit == candidateCount + 2
    ensures Selects(candidateCount, p, selected) <==> Selects(candidateCount, Erase(limit, p), selected)
  {
    forall c: nat | 1 <= c <= candidateCount
      ensures c in p <==> c in Erase(limit, p)
    {
      EraseKeepsExactlyOriginals(limit, p, c);
    }
  }

  /** Leaving out helpers keeps the selections of routes, in both directions. */
  lemma CompressionKeepsSelections(compressed: set<Arc>, candidateCount: nat, leaves: map<nat, set<nat>>,
                                   original: set<Arc>)
    requires Expands(compressed, candidateCount + 2, leaves, original)
    ensures RouteSelections(candidateCount, compressed) == RouteSelections(candidateCount, original)
  {
    hide Expands, Walk;
    var limit := candidateCount + 2;
    WalksCorrespond(compressed, limit, leaves, original, 0, candidateCount + 1);
    forall selected, p | RouteOf(candidateCount, compressed, p, selected)
      ensures SelectsRoute(candidateCount, original, selected)
    {
      SelectsErased(limit, candidateCount, p, selected);
      assert RouteOf(candidateCount, original, Erase(limit, p), selected);
    }
    forall selected, q | RouteOf(candidateCount, original, q, selected)
      ensures SelectsRoute(candidateCount, compressed, selected)
    {
      var p :| WalkFromTo(compressed, p, 0, candidateCount + 1) && Erase(limit, p) == q;
      SelectsErased(limit, candidateCount, p, selected);
      assert RouteOf(candidateCount, compressed, p, selected);
    }
  }

  /** On any graph without cycles the model admits exactly the selections of its routes. */
  lemma ModelAdmitsRoutes(arcs: seq<Arc>, nodeCount: nat, candidateCount: nat, layout: Layout, rank: nat -> int)
    requires candidateCount + 2 <= nodeCount
    requires forall a :: a in arcs ==> a.tail < nodeCount && a.head < nodeCount
    requires Ranked(ArcSet(arcs), rank)
    requires layout.af == Tails(arcs) && layout.at == Heads(arcs)
    requires ListsLeaving(arcs, nodeCount, layout.os) && ListsEntering(arcs, nodeCount, layout.ins, layout.ie)
    ensures ModelSelections(layout, nodeCount, candidateCount) == RouteSelections(candidateCount, ArcSet(arcs))
  {
    hide SatisfiesModel, IsRouteFlow, ListsLeaving, ListsEntering, Ranked, Walk;
    forall flow, selected | SatisfiesModel(layout, nodeCount, candidateCount, flow, selected)
      ensures SelectsRoute(candidateCount, ArcSet(arcs), selected)
    {
      ModelIsRouteFlow(arcs, nodeCount, candidateCount, layout, flow, selected);
      var p := FlowSelectsOneWalk(arcs, nodeCount, candidateCount, flow, selected, rank);
      assert RouteOf(candidateCount, ArcSet(arcs), p, selected);
    }
    forall p, selected | RouteOf(candidateCount, ArcSet(arcs), p, selected)
      ensures Selectable(layout, nodeCount, candidateCount, selected)
    {
      var flow := WalkIsSelectable(arcs, nodeCount, candidateCount, selected, rank, p);
      ModelIsRouteFlow(arcs, nodeCount, candidateCount, layout, flow, selected);
    }
  }

  lemma CompressedInBounds(compressed: seq<Arc>, candidateCount: nat, nodeCount: nat, leaves: map<nat, set<nat>>,
                           original: set<Arc>)
    requires Expands(ArcSet(compressed), candidateCount + 2, leaves, original)
    requires forall h: nat :: h in leaves <==> candidateCount + 2 <= h < nodeCount
    requires candidateCount + 2 <= nodeCount
    ensures forall a :: a in compressed ==> a.tail < nodeCount && a.head < nodeCount
  {
    forall a | a in compressed
      ensures a.tail < nodeCount && a.head < nodeCount
    {
      assert a in ArcSet(compressed);
    }
  }

  lemma CompressedProgram(compressed: seq<Arc>, nodeCount: nat, candidateCount: nat, leaves: map<nat, set<nat>>,
                          original: set<Arc>, layout: Layout, rank: nat -> int)
    requires Expands(ArcSet(compressed), candidateCount + 2, leaves, original)
    requires forall h: nat :: h in leaves <==> candidateCount + 2 <= h < nodeCount
    requires candidateCount + 2 <= nodeCount && Ranked(original, rank)
    requires layout.af == Tails(compressed) && layout.at == Heads(compressed)
    requires ListsLeaving(compressed, nodeCount, layout.os) && ListsEntering(compressed, nodeCount, layout.ins, layout.ie)
    ensures ModelSelections(layout, nodeCount, candidateCount) == RouteSelections(candidateCount, original)
  {
    CompressedInBounds(compressed, candidateCount, nodeCount, leaves, original);
    AcyclicityKept(ArcSet(compressed), candidateCount + 2, leaves, original, rank);
    CompressionKeepsSelections(ArcSet(compressed), candidateCount, leaves, original);
    ModelAdmitsRoutes(compressed, nodeCount, candidateCount, layout,
                      (x: nat) => ExpandedRank(candidateCount + 2, leaves, rank, x));
  }

  /** A source-to-sink walk whose checks are within the tables. */
  ghost predicate PricedRoute(rewards: Rewards, candidateCount: nat, arcs: set<Arc>, p: seq<nat>) {
    && WalkFromTo(arcs, p, 0, candidateCount + 1)
    && WellFormed(rewards) && |rewards.base| == candidateCount && WithinTables(rewards, p)
  }

  /** A priced route of the uncompressed graph that no such route is worth more than. */
  ghost predicate BestRoute(rewards: Rewards, candidateCount: nat, arcs: set<Arc>, p: seq<nat>) {
    && PricedRoute(rewards, candidateCount, arcs, p)
    && forall q :: PricedRoute(rewards, candidateCount, arcs, q) ==> Worth(rewards, q) <= Worth(rewards, p)
  }

  ghost predicate SelectsBestRoute(rewards: Rewards, candidateCount: nat, arcs: set<Arc>, selected: seq<int>) {
    exists p :: BestRoute(rewards, candidateCount, arcs, p) && Selects(candidateCount, p, selected)
  }

  /** The selection of a priced route is one the lookup model may take, at what the route is worth; and it has no other. */
  lemma PricedIsFeasible(rewards: Rewards, candidateCount: nat, arcs: set<Arc>, p: seq<nat>, selected: seq<int>)
    requires RouteOf(candidateCount, arcs, p, selected)
    ensures LookupFeasible(rewards, RouteSelections(candidateCount, arcs), selected)
       <==> PricedRoute(rewards, candidateCount, arcs, p)
    ensures PricedRoute(rewards, candidateCount, arcs, p) ==> LookupObjective(rewards, selected) == Worth(rewards, p)
  {
    hide Walk, Worth, LookupObjective, WithinTables, ChecksInDomain, WellFormed;
    if Fits(rewards, selected) {
      ObjectiveIsWorth(rewards, p, selected);
    }
  }

  /** The best selections over the routes are the selections of the best routes. */
  lemma BestSelectionsAreBestRoutes(rewards: Rewards, candidateCount: nat, arcs: set<Arc>, selected: seq<int>)
    ensures LookupOptimum(rewards, RouteSelections(candidateCount, arcs), selected)
       <==> SelectsBestRoute(rewards, candidateCount, arcs, selected)
  {
    var routes := RouteSelections(candidateCount, arcs);
    hide WalkFromTo, Selects, Worth, LookupObjective, RouteSelections, Fits, ChecksInDomain, WellFormed, WithinTables;
    if LookupOptimum(rewards, routes, selected) {
      var p := SomeRoute(rewards, candidateCount, arcs, selected);
      forall q | PricedRoute(rewards, candidateCount, arcs, q)
        ensures Worth(rewards, q) <= Worth(rewards, p)
      {
        var other := ItsSelection(rewards, candidateCount, arcs, q);
      }
      assert BestRoute(rewards, candidateCount, arcs, p);
    }
    if SelectsBestRoute(rewards, candidateCount, arcs, selected) {
      var p :| BestRoute(rewards, candidateCount, arcs, p) && Selects(candidateCount, p, selected);
      RouteIsPriced(rewards, candidateCount, arcs, p, selected);
      forall other | LookupFeasible(rewards, routes, other)
        ensures LookupObjective(rewards, other) <= LookupObjective(rewards, selected)
      {
        var q := SomeRoute(rewards, candidateCount, arcs, other);
      }
    }
  }

  lemma SomeRoute(rewards: Rewards, candidateCount: nat, arcs: set<Arc>, selected: seq<int>) returns (p: seq<nat>)
    requires LookupFeasible(rewards, RouteSelections(candidateCount, arcs), selected)
    ensures PricedRoute(rewards, candidateCount, arcs, p) && Selects(candidateCount, p, selected)
    ensures LookupObjective(rewards, selected) == Worth(rewards, p)
  {
    hide Walk, Worth, LookupObjective;
    p :| RouteOf(candidateCount, arcs, p, selected);
    PricedIsFeasible(rewards, candidateCount, arcs, p, selected);
  }

  lemma RouteIsPriced(rewards: Rewards, candidateCount: nat, arcs: set<Arc>, p: seq<nat>, selected: seq<int>)
    requires PricedRoute(rewards, candidateCount, arcs, p) && Selects(candidateCount, p, selected)
    ensures LookupFeasible(rewards, RouteSelections(candidateCount, arcs), selected)
    ensures LookupObjective(rewards, selected) == Worth(rewards, p)
  {
    hide Walk, Worth, LookupObjective;
    PricedIsFeasible(rewards, candidateCount, arcs, p, selected);
  }

  lemma ItsSelection(rewards: Rewards, candidateCount: nat, arcs: set<Arc>, p: seq<nat>) returns (selected: seq<int>)
    requires PricedRoute(rewards, candidateCount, arcs, p)
    ensures LookupFeasible(rewards, RouteSelections(candidateCount, arcs), selected)
    ensures LookupObjective(rewards, selected) == Worth(rewards, p)
  {
    hide Walk, Worth, LookupObjective;
    selected := Marks(candidateCount, p);
    RouteIsPriced(rewards, candidateCount, arcs, p, selected);
  }

  lemma BestValue(rewards: Rewards, candidateCount: nat, arcs: set<Arc>, selected: seq<int>)
    ensures forall p :: LookupOptimum(rewards, RouteSelections(candidateCount, arcs), selected) && BestRoute(rewards, candidateCount, arcs, p)
              ==> LookupObjective(rewards, selected) == Worth(rewards, p)
  {
    hide WalkFromTo, Selects, Worth, LookupObjective, RouteSelections, Fits, ChecksInDomain, WellFormed, WithinTables;
    if LookupOptimum(rewards, RouteSelections(candidateCount, arcs), selected) {
      var mine := SomeRoute(rewards, candidateCount, arcs, selected);
      forall p | BestRoute(rewards, candidateCount, arcs, p)
        ensures LookupObjective(rewards, selected) == Worth(rewards, p)
      {
        var other := ItsSelection(rewards, candidateCount, arcs, p);
      }
    }
  }

  /**
    What the solver finds over a data file: with the lookup objective its optima are the best routes,
    and so they are with the envelope objective wherever the tables are nonnegative and concave.
   */
  ghost predicate FindsBestRoutes(layout: Layout, nodeCount: nat, candidateCount: nat, arcs: set<Arc>) {
    forall rewards, selected: seq<int> ::
      && (LookupOptimum(rewards, ModelSelections(layout, nodeCount, candidateCount), selected)
          <==> SelectsBestRoute(rewards, candidateCount, arcs, selected))
      && (rewards.checkLimit >= 1 && ConcaveTables(rewards) ==>
            && (EnvelopeOptimal(rewards, ModelSelections(layout, nodeCount, candidateCount), selected)
                <==> SelectsBestRoute(rewards, candidateCount, arcs, selected))
            && forall i, p ::
                 (EnvelopeOptimum(rewards, ModelSelections(layout, nodeCount, candidateCount), selected, i)
                  && BestRoute(rewards, candidateCount, arcs, p)) ==>
                 EnvelopeObjective(rewards, selected, i) == Worth(rewards, p))
  }

  ghost predicate EnvelopeOptimal(rewards: Rewards, routes: iset<seq<int>>, selected: seq<int>) {
    exists i :: EnvelopeOptimum(rewards, routes, selected, i)
  }

  /** Admitting exactly the selections of routes is enough to find the best ones, with either information encoding. */
  lemma OptimaAreBestRoutes(layout: Layout, nodeCount: nat, candidateCount: nat, arcs: set<Arc>)
    requires ModelSelections(layout, nodeCount, candidateCount) == RouteSelections(candidateCount, arcs)
    ensures FindsBestRoutes(layout, nodeCount, candidateCount, arcs)
  {
    hide ModelSelections, RouteSelections, LookupOptimum, SelectsBestRoute, ConcaveTables;
    var routes := RouteSelections(candidateCount, arcs);
    forall rewards, selected: seq<int>
      ensures LookupOptimum(rewards, routes, selected) <==> SelectsBestRoute(rewards, candidateCount, arcs, selected)
      ensures rewards.checkLimit >= 1 && ConcaveTables(rewards) ==>
                && (EnvelopeOptimal(rewards, routes, selected) <==> SelectsBestRoute(rewards, candidateCount, arcs, selected))
                && forall i, p :: EnvelopeOptimum(rewards, routes, selected, i) && BestRoute(rewards, candidateCount, arcs, p) ==>
                     EnvelopeObjective(rewards, selected, i) == Worth(rewards, p)
    {
      BestSelectionsAreBestRoutes(rewards, candidateCount, arcs, selected);
      BestValue(rewards, candidateCount, arcs, selected);
      if rewards.checkLimit >= 1 && ConcaveTables(rewards) {
        EncodingsAgree(rewards, routes, selected);
      }
    }
  }

  /**
    The data file for one candidate graph. Whatever the compression, the model admits exactly the
    selections of the routes of the uncompressed graph; so for all rewards its optima, with the lookup
    and with the envelope encoding, are the best routes of that graph.
   */
  method Compile(compression: Compression, candidateCount: nat, arcs: seq<Arc>, ghost rank: nat -> int)
    returns (nodeCount: nat, layout: Layout)
    requires CandidateGraph(candidateCount, arcs) && Ranked(ArcSet(arcs), rank)
    ensures ModelSelections(layout, nodeCount, candidateCount) == RouteSelections(candidateCount, ArcSet(arcs))
    ensures FindsBestRoutes(layout, nodeCount, candidateCount, ArcSet(arcs))
  {
    hide Expands, Ranked, Ordered, Distinct, ListsLeaving, ListsEntering, ModelSelections, RouteSelections, FindsBestRoutes;
    var compressed: seq<Arc>;
    ghost var leaves: map<nat, set<nat>>;
    ghost var sources: seq<nat>;
    match compression {
      case None =>
        nodeCount, compressed := candidateCount + 2, arcs;
      case Suffix =>
        nodeCount, compressed, leaves, sources := SuffixCompression.CompressArcSuffixes(candidateCount, arcs);
      case Interval =>
        nodeCount, compressed, leaves, sources := IntervalCompression.CompressArcIntervals(candidateCount, arcs);
    }
    layout := LayOut(compressed, nodeCount);
    if compression == None {
      ModelAdmitsRoutes(arcs, nodeCount, candidateCount, layout, rank);
    } else {
      CompressedProgram(compressed, nodeCount, candidateCount, leaves, ArcSet(arcs), layout, rank);
    }
    OptimaAreBestRoutes(layout, nodeCount, candidateCount, ArcSet(arcs));
  }
}
