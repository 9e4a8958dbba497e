/** Successor lists of an arc sequence, and the sorting both compressions start from. */
module SuccessorLists {
  import opened Arcs
  import opened Sorting

  ghost predicate Increasing(s: seq<nat>) {
    forall i, j :: 0 <= i < j < |s| ==> s[i] < s[j]
  }

  /** Heads of the arcs leaving `s`, in arc order. */
  function TargetsOf(arcs: seq<Arc>, s: nat): seq<nat> {
    if arcs == [] then []
    else
      var last := arcs[|arcs| - 1];
      TargetsOf(arcs[..|arcs| - 1], s) + if last.tail == s then [last.head] else []
  }

  lemma {:induction false} TargetsAreSuccessors(arcs: seq<Arc>, s: nat)
    ensures forall t: nat :: t in TargetsOf(arcs, s) <==> Arc(s, t) in arcs
    ensures Distinct(arcs) ==> Distinct(TargetsOf(arcs, s))
  {
    if arcs != [] {
      var init, last := arcs[..|arcs| - 1], arcs[|arcs| - 1];
      assert arcs == init + [last];
      TargetsAreSuccessors(init, s);
      if Distinct(arcs) {
        assert forall i, j :: 0 <= i < j < |init| ==> init[i] == arcs[i] && init[j] == arcs[j];
        assert last !in init;
      }
    }
  }

  lemma SourcesCoverArcs(arcs: seq<Arc>, sources: seq<nat>)
    requires forall s: nat :: s in sources <==> TargetsOf(arcs, s) != []
    ensures forall a :: a in arcs ==> a.tail in sources
    ensures forall s: nat :: s in sources <==> exists t: nat :: Arc(s, t) in arcs
  {
    forall a | a in arcs
      ensures a.tail in sources
    {
      TargetsAreSuccessors(arcs, a.tail);
      assert Arc(a.tail, a.head) in arcs;
    }
    forall s: nat
      ensures s in sources <==> exists t: nat :: Arc(s, t) in arcs
    {
      TargetsAreSuccessors(arcs, s);
      if s in sources {
        assert Arc(s, TargetsOf(arcs, s)[0]) in arcs;
      }
    }
  }

  /** Out-degrees summed over `sources`. */
  function DegreeSum(arcs: seq<Arc>, sources: seq<nat>): nat {
    if sources == [] then 0
    else DegreeSum(arcs, sources[..|sources| - 1]) + |TargetsOf(arcs, sources[|sources| - 1])|
  }

  lemma DegreeSumEmpty(arcs: seq<Arc>)
    ensures DegreeSum(arcs, []) == 0
  {
  }

  lemma DegreeSumAppend(arcs: seq<Arc>, sources: seq<nat>, source: nat)
    ensures DegreeSum(arcs, sources + [source]) == DegreeSum(arcs, sources) + |TargetsOf(arcs, source)|
  {
    assert (sources + [source])[..|sources|] == sources;
  }

  /** The arcs from one source to the listed targets. */
  ghost function ArcsFrom(source: nat, targets: seq<nat>): seq<Arc> {
    seq(|targets|, i requires 0 <= i < |targets| => Arc(source, targets[i]))
  }

  /** The arcs that the successor lists of `sources` stand for. */
  ghost function ListedArcs(arcs: seq<Arc>, sources: seq<nat>): seq<Arc> {
    if sources == [] then []
    else
      var last := sources[|sources| - 1];
      ListedArcs(arcs, sources[..|sources| - 1]) + ArcsFrom(last, TargetsOf(arcs, last))
  }

  lemma {:induction false} TargetsOften(arcs: seq<Arc>, s: nat, t: nat)
    ensures multiset(TargetsOf(arcs, s))[t] == multiset(arcs)[Arc(s, t)]
  {
    if arcs != [] {
      var init, last := arcs[..|arcs| - 1], arcs[|arcs| - 1];
      assert arcs == init + [last];
      TargetsOften(init, s, t);
    }
  }

  lemma {:induction false} ArcsOften(source: nat, targets: seq<nat>, a: Arc)
    ensures multiset(ArcsFrom(source, targets))[a] == if a.tail == source then multiset(targets)[a.head] else 0
  {
    if targets != [] {
      var init, last := targets[..|targets| - 1], targets[|targets| - 1];
      assert targets == init + [last] && ArcsFrom(source, targets) == ArcsFrom(source, init) + [Arc(source, last)];
      ArcsOften(source, init, a);
    }
  }

  lemma {:induction false} ListedOften(arcs: seq<Arc>, sources: seq<nat>, a: Arc)
    requires Distinct(sources)
    ensures multiset(ListedArcs(arcs, sources))[a] == if a.tail in sources then multiset(arcs)[a] else 0
  {
    if sources != [] {
      var init, last := sources[..|sources| - 1], sources[|sources| - 1];
      assert sources == init + [last] && last !in init;
      ListedOften(arcs, init, a);
      ArcsOften(last, TargetsOf(arcs, last), a);
      TargetsOften(arcs, a.tail, a.head);
    }
  }

  lemma {:induction false} ListedLength(arcs: seq<Arc>, sources: seq<nat>)
    ensures |ListedArcs(arcs, sources)| == DegreeSum(arcs, sources)
  {
    if sources != [] {
      ListedLength(arcs, sources[..|sources| - 1]);
    }
  }

  lemma SameBag(a: seq<Arc>, b: seq<Arc>)
    requires forall x: Arc :: multiset(a)[x] == multiset(b)[x]
    ensures multiset(a) == multiset(b) && |a| == |b|
  {
    assert |multiset(a)| == |a| && |multiset(b)| == |b|;
  }

  /** The successor lists together hold every arc, each as often as it is given, and nothing else. */
  lemma ListsHoldArcs(arcs: seq<Arc>, sources: seq<nat>)
    requires Distinct(sources)
    requires forall a :: a in arcs ==> a.tail in sources
    ensures multiset(ListedArcs(arcs, sources)) == multiset(arcs)
    ensures DegreeSum(arcs, sources) == |arcs|
  {
    hide ListedArcs, DegreeSum;
    forall a: Arc
      ensures multiset(ListedArcs(arcs, sources))[a] == multiset(arcs)[a]
    {
      ListedOften(arcs, sources, a);
      assert a in multiset(arcs) ==> a in arcs;
    }
    SameBag(ListedArcs(arcs, sources), arcs);
    ListedLength(arcs, sources);
  }

  /** The dictionary of successor lists, with its keys in insertion order. */
  method GroupBySource(arcs: seq<Arc>) returns (order: seq<nat>, successors: map<nat, seq<nat>>)
    ensures Distinct(order)
    ensures forall s: nat :: s in order <==> s in successors
    ensures forall s: nat :: s in successors <==> TargetsOf(arcs, s) != []
    ensures forall s: nat :: s in successors ==> successors[s] == TargetsOf(arcs, s)
  {
    order, successors := [], map[];
    for i := 0 to |arcs|
      invariant Distinct(order)
      invariant forall s: nat :: s in order <==> s in successors
      invariant forall s: nat :: s in successors <==> TargetsOf(arcs[..i], s) != []
      invariant forall s: nat :: s in successors ==> successors[s] == TargetsOf(arcs[..i], s)
    {
      var source := arcs[i].tail;
      assert arcs[..i + 1][..i] == arcs[..i];
      if source !in successors {
        order := order + [source];
        successors := successors[source := []];
      }
      successors := successors[source := successors[source] + [arcs[i].head]];
    }
    assert arcs[..|arcs|] == arcs;
  }

  predicate AtMost(x: nat, y: nat) {
    x <= y
  }

  /** `sorted` on a list of node numbers. */
  function SortNodes(s: seq<nat>): seq<nat> {
    Sort(AtMost, s)
  }

  /** Sorting a list without repetitions gives the increasing list of the same numbers. */
  lemma SortIncreases(s: seq<nat>)
    requires Distinct(s)
    ensures Increasing(SortNodes(s)) && Distinct(SortNodes(s)) && |SortNodes(s)| == |s|
    ensures forall x: nat :: x in SortNodes(s) <==> x in s
  {
    SortOrders(AtMost, s);
    SortKeepsDistinct(AtMost, s);
    forall x: nat
      ensures x in SortNodes(s) <==> x in s
    {
      SortedIn(AtMost, s, x);
    }
  }
}
