/** The lexicographic order in which both compressions return their arcs. */
module ArcOrder {
  import opened Arcs
  import Sorting

  predicate Before(a: Arc, b: Arc) {
    a.tail < b.tail || (a.tail == b.tail && a.head <= b.head)
  }

  ghost predicate Ordered(arcs: seq<Arc>) {
    Sorting.IsSorted(Before, arcs)
  }

  /** `sorted` on a list of arcs. */
  function SortArcs(arcs: seq<Arc>): seq<Arc> {
    Sorting.Sort(Before, arcs)
  }

  lemma SameArcs(a: seq<Arc>, b: seq<Arc>)
    requires multiset(a) == multiset(b)
    ensures ArcSet(a) == ArcSet(b) && |a| == |b|
  {
    assert |a| == |multiset(a)| == |multiset(b)| == |b|;
    forall x: Arc
      ensures x in a <==> x in b
    {
      assert x in a <==> x in multiset(a);
      assert x in b <==> x in multiset(b);
    }
  }

  /** Sorting orders the arcs and neither drops, adds nor repeats one. */
  lemma SortArcsCorrect(arcs: seq<Arc>)
    ensures Ordered(SortArcs(arcs)) && multiset(SortArcs(arcs)) == multiset(arcs)
    ensures ArcSet(SortArcs(arcs)) == ArcSet(arcs) && |SortArcs(arcs)| == |arcs|
    ensures forall i, j :: 0 <= i < j < |arcs| ==>
              var (a, b) := (SortArcs(arcs)[i], SortArcs(arcs)[j]); a.tail < b.tail || (a.tail == b.tail && a.head <= b.head)
  {
    Sorting.SortOrders(Before, arcs);
    forall i, j | 0 <= i < j < |SortArcs(arcs)|
      ensures Before(SortArcs(arcs)[i], SortArcs(arcs)[j])
    {
    }
    SameArcs(SortArcs(arcs), arcs);
  }
}
