/** Directed graphs given by their arcs, the walks in them, and topological ranks. */
module Arcs {

  datatype Arc = Arc(tail: nat, head: nat)

  /** A nonempty sequence of nodes in which every step follows an arc. */
  ghost predicate Walk(arcs: set<Arc>, p: seq<nat>) {
    |p| >= 1 && (|p| == 1 || (Arc(p[0], p[1]) in arcs && Walk(arcs, p[1..])))
  }

  ghost predicate WalkFromTo(arcs: set<Arc>, p: seq<nat>, s: nat, t: nat) {
    Walk(arcs, p) && p[0] == s && p[|p| - 1] == t
  }

  ghost function Successors(arcs: set<Arc>, s: nat): set<nat> {
    set a | a in arcs && a.tail == s :: a.head
  }

  /** A rank that grows along every arc; a finite graph has one exactly when it has no cycle. */
  ghost predicate Ranked(arcs: set<Arc>, rank: nat -> int) {
    forall a :: a in arcs ==> rank(a.tail) < rank(a.head)
  }

  ghost function ArcSet(arcs: seq<Arc>): set<Arc> {
    set a | a in arcs
  }
}
