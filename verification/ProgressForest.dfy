/**
  The progress tree: nodes arrive in any order, with parents that may be missing or form cycles, and
  are rebuilt into one tree under the root, filtered by importance.
 */
module ProgressForest {
  import opened Options
  import opened Sorting
  import opened ProgressOrder

  /** A node id: the two reserved names, or any other. */
  datatype Id = Root | Live | Named(name: string)

  function NameOf(id: Id): string {
    match id case Root => "root" case Live => "live" case Named(name) => name
  }

  /** The order the nodes are listed in. */
  predicate IdBefore(a: Id, b: Id) {
    NodeBefore(NameOf(a), NameOf(b))
  }

  lemma IdsInOrder()
    ensures IsOrder(IdBefore)
  {
    hide NodeBefore;
    NodesInOrder();
  }

  datatype Importance = Critical | Warning | Notable | Routine | Debug

  function Rank(i: Importance): nat {
    match i case Critical => 0 case Warning => 1 case Notable => 2 case Routine => 3 case Debug => 4
  }

  /** A node with what the view depends on; an unknown importance is none. */
  datatype Node = Node(parentId: Option<Id>, importance: Option<Importance>, isRecord: bool, timeStart: Option<string>, content: string)

  datatype Forest = Forest(nodes: map<Id, Node>, order: seq<Id>, minimum: Importance)

  datatype Item = Item(id: Id, items: seq<Item>)

  /** The order lists exactly the known nodes, each once. */
  ghost predicate Valid(f: Forest) {
    Distinct(f.order) && forall id :: id in f.order <==> id in f.nodes
  }

  /** A node's parent; a parent that is not known yet is replaced by the root. */
  function ParentOf(nodes: map<Id, Node>, id: Id): Id {
    var parent := if id in nodes && nodes[id].parentId.Some? then nodes[id].parentId.value else Root;
    if parent == Root || parent == Live || parent in nodes then parent else Root
  }

  /** The children of `parent` among the first `n` nodes in order. */
  function Listed(f: Forest, parent: Id, n: nat): seq<Id>
    requires n <= |f.order|
  {
    if n == 0 then []
    else
      var id := f.order[n - 1];
      Listed(f, parent, n - 1)
      + if id != Root && id != Live && ParentOf(f.nodes, id) == parent then [id] else []
  }

  predicate ShowsLive(f: Forest) {
    Live in f.nodes || Listed(f, Live, |f.order|) != []
  }

  /** The children of a node; the live container is the root's last child once it exists or has records. */
  function ChildrenOf(f: Forest, parent: Id): seq<Id> {
    Listed(f, parent, |f.order|) + if parent == Root && ShowsLive(f) then [Live] else []
  }

  predicate Eligible(f: Forest, id: Id) {
    var importance := if id in f.nodes && f.nodes[id].importance.Some? then f.nodes[id].importance.value else Routine;
    Rank(importance) <= Rank(f.minimum)
  }

  // ---------------------------------------------------------------- paths from the root

  /** `parent` is the node's parent: the one it names if that is known, and the root if it names none that is. */
  ghost predicate HasParent(nodes: map<Id, Node>, id: Id, parent: Id) {
    && id in nodes && id != Root && id != Live
    && ((nodes[id].parentId == Some(parent) && IsKnown(nodes, parent)) || (parent == Root && !NamesKnown(nodes, id)))
  }

  ghost predicate IsKnown(nodes: map<Id, Node>, id: Id) {
    id == Root || id == Live || id in nodes
  }

  ghost predicate NamesKnown(nodes: map<Id, Node>, id: Id)
    requires id in nodes
  {
    exists parent :: nodes[id].parentId == Some(parent) && IsKnown(nodes, parent)
  }

  /** The live container is below the root once it or a record in it is known; every other node is below its parent. */
  ghost predicate IsChild(f: Forest, parent: Id, id: Id)
  {
    if id == Live then parent == Root && (Live in f.nodes || exists c :: HasParent(f.nodes, c, Live))
    else HasParent(f.nodes, id, parent)
  }

  lemma ParentIs(nodes: map<Id, Node>, id: Id, parent: Id)
    ensures HasParent(nodes, id, parent) <==> id in nodes && id != Root && id != Live && ParentOf(nodes, id) == parent
  {
    if id in nodes && nodes[id].parentId.Some? {
      assert IsKnown(nodes, nodes[id].parentId.value) ==> NamesKnown(nodes, id);
    }
  }

  lemma LiveIsShown(f: Forest)
    requires Valid(f)
    ensures ShowsLive(f) <==> Live in f.nodes || exists c :: HasParent(f.nodes, c, Live)
  {
    var n := |f.order|;
    assert f.order[..n] == f.order;
    var records := Listed(f, Live, n);
    if records != [] {
      ListedMembers(f, Live, n, records[0]);
      ParentIs(f.nodes, records[0], Live);
    }
    if c :| HasParent(f.nodes, c, Live) {
      ListedMembers(f, Live, n, c);
      ParentIs(f.nodes, c, Live);
    }
  }

  const ByImportance: seq<Importance> := [Critical, Warning, Notable, Routine, Debug]

  /** A node is important enough if its importance does not come after the limit; one without is taken for routine. */
  lemma EligibleIs(f: Forest, id: Id, i: nat, limit: nat)
    requires i < |ByImportance| && limit < |ByImportance| && f.minimum == ByImportance[limit]
    requires if id in f.nodes && f.nodes[id].importance.Some? then f.nodes[id].importance.value == ByImportance[i]
             else ByImportance[i] == Routine
    ensures Eligible(f, id) <==> i <= limit
  {
  }

  lemma {:induction false} ListedMembers(f: Forest, parent: Id, n: nat, id: Id)
    requires Valid(f) && n <= |f.order|
    ensures id in Listed(f, parent, n) <==> id in f.order[..n] && id != Root && id != Live && ParentOf(f.nodes, id) == parent
  {
    if n > 0 {
      ListedMembers(f, parent, n - 1, id);
      assert f.order[..n] == f.order[..n - 1] + [f.order[n - 1]];
    }
  }

  lemma ChildrenAre(f: Forest, parent: Id, id: Id)
    requires Valid(f)
    ensures id in ChildrenOf(f, parent) <==> IsChild(f, parent, id)
  {
    LiveIsShown(f);
    ParentIs(f.nodes, id, parent);
    ListedMembers(f, parent, |f.order|, id);
    assert f.order[..|f.order|] == f.order;
  }

  lemma {:induction false} ListedDistinct(f: Forest, parent: Id, n: nat)
    requires Valid(f) && n <= |f.order|
    ensures Distinct(Listed(f, parent, n))
  {
    if n > 0 {
      ListedDistinct(f, parent, n - 1);
      var rest := Listed(f, parent, n - 1);
      forall k | 0 <= k < |rest|
        ensures rest[k] != f.order[n - 1]
      {
        ListedMembers(f, parent, n - 1, rest[k]);
      }
    }
  }

  lemma ChildrenDistinct(f: Forest, parent: Id)
    requires Valid(f)
    ensures Distinct(ChildrenOf(f, parent))
  {
    ListedDistinct(f, parent, |f.order|);
    ListedMembers(f, parent, |f.order|, Live);
  }

  /** A parent chain from the root. */
  ghost predicate IsPath(f: Forest, p: seq<Id>)
  {
    p == [Root] || (|p| > 1 && IsPath(f, p[..|p| - 1]) && IsChild(f, p[|p| - 2], p[|p| - 1]))
  }

  /** The node at the end of a path. */
  function Last(p: seq<Id>): Id {
    if p == [] then Root else p[|p| - 1]
  }

  lemma {:induction false} PathPrefix(f: Forest, p: seq<Id>, n: nat)
    requires Valid(f) && IsPath(f, p) && 0 < n <= |p|
    ensures IsPath(f, p[..n]) && p[0] == Root
    decreases |p|
  {
    if n < |p| {
      PathPrefix(f, p[..|p| - 1], n);
      assert p[..|p| - 1][..n] == p[..n];
    } else {
      assert p[..n] == p;
      if |p| > 1 {
        PathPrefix(f, p[..|p| - 1], 1);
      }
    }
  }

  /** A node has at most one path: its parent is decided by the node. */
  lemma {:induction false} PathUnique(f: Forest, p: seq<Id>, q: seq<Id>)
    requires Valid(f) && IsPath(f, p) && IsPath(f, q) && Last(p) == Last(q)
    ensures p == q
    decreases |p|
  {
    if |p| > 1 && |q| > 1 {
      PathUnique(f, p[..|p| - 1], q[..|q| - 1]);
      assert p == p[..|p| - 1] + [Last(p)] && q == q[..|q| - 1] + [Last(q)];
    }
  }

  /** No node repeats on a path. */
  lemma PathDistinct(f: Forest, p: seq<Id>)
    requires Valid(f) && IsPath(f, p)
    ensures Distinct(p)
  {
    hide Valid, IsPath;
    forall i, j | 0 <= i < j < |p|
      ensures p[i] != p[j]
    {
      PathPrefix(f, p, i + 1);
      PathPrefix(f, p, j + 1);
      if p[i] == p[j] {
        PathUnique(f, p[..i + 1], p[..j + 1]);
      }
    }
  }

  ghost function Universe(f: Forest): set<Id> {
    f.nodes.Keys + {Root, Live}
  }

  lemma {:induction false} PathInUniverse(f: Forest, p: seq<Id>)
    requires Valid(f) && IsPath(f, p)
    ensures forall k :: 0 <= k < |p| ==> p[k] in Universe(f)
    decreases |p|
  {
    if |p| > 1 {
      PathInUniverse(f, p[..|p| - 1]);
      assert forall k :: 0 <= k < |p| - 1 ==> p[..|p| - 1][k] == p[k];
    }
  }

  lemma {:induction false} DistinctBounded(s: seq<Id>, u: set<Id>)
    requires Distinct(s) && forall k :: 0 <= k < |s| ==> s[k] in u
    ensures |s| <= |u|
  {
    if s != [] {
      var init := s[..|s| - 1];
      assert forall k :: 0 <= k < |init| ==> init[k] == s[k] && s[k] != s[|s| - 1];
      DistinctBounded(init, u - {s[|s| - 1]});
    }
  }

  /** Paths are no longer than there are nodes, which bounds the recursion. */
  lemma PathBounded(f: Forest, p: seq<Id>)
    requires Valid(f) && IsPath(f, p)
    ensures Room(f, p) > 0
  {
    PathDistinct(f, p);
    PathInUniverse(f, p);
    DistinctBounded(p, Universe(f));
  }

  // ---------------------------------------------------------------- the tree

  /** How many nodes a path of distinct nodes can still gain, and one more; none is longer. */
  ghost function Room(f: Forest, p: seq<Id>): nat {
    if |p| <= |Universe(f)| then |Universe(f)| - |p| + 1 else 0
  }

  /** The subtree at the end of a path; nodes below the importance limit stay only above retained ones. */
  ghost function Build(f: Forest, p: seq<Id>): Option<Item>
    decreases Room(f, p), 1, 0
  {
    if Room(f, p) == 0 then None
    else
      var items := BuildAll(f, p, ChildrenOf(f, Last(p)));
      if !Eligible(f, Last(p)) && items == [] then None else Some(Item(Last(p), items))
  }

  /** The subtrees of some children. */
  ghost function BuildAll(f: Forest, p: seq<Id>, ids: seq<Id>): seq<Item>
    decreases Room(f, p), 0, |ids|
  {
    if ids == [] || Room(f, p) == 0 then []
    else BuildAll(f, p, ids[..|ids| - 1]) + Listing(Build(f, p + [ids[|ids| - 1]]))
  }

  function Listing(item: Option<Item>): seq<Item> {
    match item case Some(i) => [i] case None => []
  }

  /** The paths of a subtree at the end of `p`. */
  ghost function TreePaths(item: Item, p: seq<Id>): set<seq<Id>> {
    {p} + ListPaths(item.items, p)
  }

  ghost function ListPaths(items: seq<Item>, p: seq<Id>): set<seq<Id>> {
    if items == [] then {}
    else
      var last := items[|items| - 1];
      ListPaths(items[..|items| - 1], p) + TreePaths(last, p + [last.id])
  }

  ghost predicate HasPrefix(q: seq<Id>, p: seq<Id>) {
    |p| <= |q| && q[..|p|] == p
  }

  /** The node at the end of the path, or one below it, is important enough. */
  ghost predicate Retained(f: Forest, p: seq<Id>) {
    exists r :: RetainedBy(f, p, r)
  }

  ghost predicate RetainedBy(f: Forest, p: seq<Id>, r: seq<Id>) {
    IsPath(f, r) && HasPrefix(r, p) && Eligible(f, Last(r))
  }

  ghost predicate ShownPath(f: Forest, p: seq<Id>, q: seq<Id>) {
    IsPath(f, q) && HasPrefix(q, p) && Retained(f, q)
  }

  /** The path goes on from `p` through one of `ids`. */
  ghost predicate BelowSome(p: seq<Id>, ids: seq<Id>, q: seq<Id>) {
    exists c :: Below(p, ids, q, c)
  }

  ghost predicate Below(p: seq<Id>, ids: seq<Id>, q: seq<Id>, c: Id) {
    c in ids && HasPrefix(q, p + [c])
  }

  ghost predicate SomeRetained(f: Forest, p: seq<Id>, ids: seq<Id>) {
    exists c :: OneRetained(f, p, ids, c)
  }

  ghost predicate OneRetained(f: Forest, p: seq<Id>, ids: seq<Id>, c: Id) {
    c in ids && Retained(f, p + [c])
  }

  lemma StepUp(p: seq<Id>, c: Id, q: seq<Id>)
    requires HasPrefix(q, p + [c])
    ensures HasPrefix(q, p) && q != p
  {
    assert q[..|p|] == q[..|p| + 1][..|p|];
  }

  lemma StepDown(f: Forest, p: seq<Id>, q: seq<Id>) returns (c: Id)
    requires Valid(f) && IsPath(f, p) && IsPath(f, q) && HasPrefix(q, p) && q != p
    ensures c in ChildrenOf(f, Last(p)) && HasPrefix(q, p + [c])
  {
    hide ChildrenOf;
    assert q[..|q|] == q;
    assert |q| > |p|;
    PathPrefix(f, q, |p| + 1);
    var r := q[..|p| + 1];
    assert r[..|p|] == q[..|p|];
    assert r == p + [q[|p|]];
    c := q[|p|];
    ChildrenAre(f, Last(p), c);
  }

  /** A path below `p` goes on through one of the children of its last node. */
  lemma PathGoesOn(f: Forest, p: seq<Id>, q: seq<Id>)
    requires Valid(f) && IsPath(f, p) && IsPath(f, q)
    ensures HasPrefix(q, p) <==> q == p || BelowSome(p, ChildrenOf(f, Last(p)), q)
  {
    hide ChildrenOf, IsPath, Valid;
    if HasPrefix(q, p) && q != p {
      var c := StepDown(f, p, q);
      assert Below(p, ChildrenOf(f, Last(p)), q, c);
    }
    if BelowSome(p, ChildrenOf(f, Last(p)), q) {
      var c :| Below(p, ChildrenOf(f, Last(p)), q, c);
      StepUp(p, c, q);
    }
  }

  lemma PrefixOfItself(p: seq<Id>)
    ensures HasPrefix(p, p)
  {
  }

  lemma RetainedBelow(f: Forest, p: seq<Id>)
    requires Valid(f) && IsPath(f, p)
    ensures Retained(f, p) <==> Eligible(f, Last(p)) || SomeRetained(f, p, ChildrenOf(f, Last(p)))
  {
    hide ChildrenOf, IsPath, Eligible, HasPrefix, Valid;
    var ids := ChildrenOf(f, Last(p));
    if Retained(f, p) {
      var r :| RetainedBy(f, p, r);
      if r != p {
        var c := StepDown(f, p, r);
        assert RetainedBy(f, p + [c], r);
        assert OneRetained(f, p, ids, c);
      }
    }
    PrefixOfItself(p);
    if Eligible(f, Last(p)) {
      assert RetainedBy(f, p, p);
    }
    if SomeRetained(f, p, ids) {
      var c :| OneRetained(f, p, ids, c);
      var r :| RetainedBy(f, p + [c], r);
      StepUp(p, c, r);
      assert RetainedBy(f, p, r);
    }
  }

  /** Above a retained path everything is retained. */
  lemma RetainedPrefix(f: Forest, p: seq<Id>, q: seq<Id>)
    ensures HasPrefix(q, p) && Retained(f, q) ==> Retained(f, p)
  {
    if HasPrefix(q, p) && Retained(f, q) {
      var r :| RetainedBy(f, q, r);
      assert r[..|p|] == r[..|q|][..|p|];
      assert RetainedBy(f, p, r);
    }
  }

  lemma BelowLast(p: seq<Id>, ids: seq<Id>, c: Id, q: seq<Id>)
    ensures BelowSome(p, ids + [c], q) <==> BelowSome(p, ids, q) || HasPrefix(q, p + [c])
  {
    hide HasPrefix;
    if BelowSome(p, ids + [c], q) {
      var d :| Below(p, ids + [c], q, d);
      assert d == c || Below(p, ids, q, d);
    }
    if BelowSome(p, ids, q) {
      var d :| Below(p, ids, q, d);
      assert Below(p, ids + [c], q, d);
    }
    if HasPrefix(q, p + [c]) {
      assert Below(p, ids + [c], q, c);
    }
  }

  lemma RetainedLast(f: Forest, p: seq<Id>, ids: seq<Id>, c: Id)
    ensures SomeRetained(f, p, ids + [c]) <==> SomeRetained(f, p, ids) || Retained(f, p + [c])
  {
    hide Retained;
    if SomeRetained(f, p, ids + [c]) {
      var d :| OneRetained(f, p, ids + [c], d);
      assert d == c || OneRetained(f, p, ids, d);
    }
    if SomeRetained(f, p, ids) {
      var d :| OneRetained(f, p, ids, d);
      assert OneRetained(f, p, ids + [c], d);
    }
    if Retained(f, p + [c]) {
      assert OneRetained(f, p, ids + [c], c);
    }
  }

  /** What a list of built children keeps: exactly the retained paths that go through them. */
  ghost predicate ListKeeps(f: Forest, p: seq<Id>, ids: seq<Id>, items: seq<Item>) {
    && (items != [] <==> SomeRetained(f, p, ids))
    && forall q :: q in ListPaths(items, p) <==> IsPath(f, q) && BelowSome(p, ids, q) && Retained(f, q)
  }

  /** What a built subtree keeps: it exists exactly when its node is retained, with the retained paths from there. */
  ghost predicate ItemKeeps(f: Forest, p: seq<Id>, item: Option<Item>) {
    && (item.Some? <==> Retained(f, p))
    && (item.Some? ==> item.value.id == Last(p))
    && (item.Some? ==> forall q :: q in TreePaths(item.value, p) <==> ShownPath(f, p, q))
  }

  /** All of `ids` are children of the node at the end of the path. */
  ghost predicate AreChildren(f: Forest, p: seq<Id>, ids: seq<Id>) {
    forall c :: c in ids ==> IsChild(f, Last(p), c)
  }

  lemma AllChildren(f: Forest, p: seq<Id>)
    requires Valid(f)
    ensures AreChildren(f, p, ChildrenOf(f, Last(p)))
  {
    hide ChildrenOf;
    forall c | c in ChildrenOf(f, Last(p))
      ensures IsChild(f, Last(p), c)
    {
      ChildrenAre(f, Last(p), c);
    }
  }

  lemma ChildPath(f: Forest, p: seq<Id>, ids: seq<Id>, c: Id)
    requires Valid(f) && IsPath(f, p) && AreChildren(f, p, ids + [c])
    ensures IsPath(f, p + [c]) && Room(f, p) > Room(f, p + [c]) > 0 && AreChildren(f, p, ids)
  {
    assert (p + [c])[..|p|] == p;
    assert c in ids + [c];
    assert IsPath(f, p + [c]);
    PathBounded(f, p + [c]);
  }

  lemma {:induction false} BuildKeeps(f: Forest, p: seq<Id>)
    requires Valid(f) && IsPath(f, p)
    ensures ItemKeeps(f, p, Build(f, p))
    decreases Room(f, p), 1, 0
  {
    hide ChildrenOf, IsPath, Eligible, HasPrefix, Valid, BuildAll;
    var ids := ChildrenOf(f, Last(p));
    AllChildren(f, p);
    PathBounded(f, p);
    BuildAllKeeps(f, p, ids);
    RetainedBelow(f, p);
    PrefixOfItself(p);
    if Build(f, p).Some? {
      forall q
        ensures q in TreePaths(Build(f, p).value, p) <==> ShownPath(f, p, q)
      {
        if IsPath(f, q) {
          PathGoesOn(f, p, q);
        }
      }
    }
  }

  lemma {:induction false} BuildAllKeeps(f: Forest, p: seq<Id>, ids: seq<Id>)
    requires Valid(f) && IsPath(f, p) && AreChildren(f, p, ids)
    ensures ListKeeps(f, p, ids, BuildAll(f, p, ids))
    decreases Room(f, p), 0, |ids|
  {
    hide IsPath, ListKeeps, ItemKeeps, Retained, Build, Room, Valid, AreChildren;
    PathBounded(f, p);
    if ids == [] {
      NothingKept(f, p);
    } else {
      var init, c := ids[..|ids| - 1], ids[|ids| - 1];
      assert ids == init + [c];
      ChildPath(f, p, init, c);
      BuildAllKeeps(f, p, init);
      BuildKeeps(f, p + [c]);
      ListGrows(f, p, init, c, BuildAll(f, p, init), Build(f, p + [c]));
    }
  }

  lemma NothingKept(f: Forest, p: seq<Id>)
    ensures ListKeeps(f, p, [], [])
  {
    hide Retained, IsPath;
    assert forall q, c :: !Below(p, [], q, c);
    assert forall c :: !OneRetained(f, p, [], c);
  }

  lemma ListGrows(f: Forest, p: seq<Id>, ids: seq<Id>, c: Id, items: seq<Item>, item: Option<Item>)
    requires ListKeeps(f, p, ids, items) && ItemKeeps(f, p + [c], item)
    ensures ListKeeps(f, p, ids + [c], items + Listing(item))
  {
    hide IsPath, Retained, HasPrefix, TreePaths, BelowSome, SomeRetained, ListPaths;
    RetainedLast(f, p, ids, c);
    ListPathsPush(items, item, p);
    forall q
      ensures q in ListPaths(items + Listing(item), p) <==> IsPath(f, q) && BelowSome(p, ids + [c], q) && Retained(f, q)
    {
      BelowLast(p, ids, c, q);
      RetainedPrefix(f, p + [c], q);
    }
  }

  lemma ListPathsPush(items: seq<Item>, item: Option<Item>, p: seq<Id>)
    ensures ListPaths(items + Listing(item), p)
         == ListPaths(items, p) + if item.Some? then TreePaths(item.value, p + [item.value.id]) else {}
  {
    if item.Some? {
      assert (items + [item.value])[..|items|] == items;
    } else {
      assert items + [] == items;
    }
  }

  // ---------------------------------------------------------------- each node once, with its path

  ghost function Occurrences(item: Item, id: Id): nat {
    (if item.id == id then 1 else 0) + ListOccurrences(item.items, id)
  }

  ghost function ListOccurrences(items: seq<Item>, id: Id): nat {
    if items == [] then 0
    else ListOccurrences(items[..|items| - 1], id) + Occurrences(items[|items| - 1], id)
  }

  ghost predicate Ends(paths: set<seq<Id>>, id: Id) {
    exists q :: EndsAt(paths, q, id)
  }

  ghost predicate EndsAt(paths: set<seq<Id>>, q: seq<Id>, id: Id) {
    q in paths && Last(q) == id
  }

  lemma EndsOfUnion(a: set<seq<Id>>, b: set<seq<Id>>, id: Id)
    ensures Ends(a + b, id) <==> Ends(a, id) || Ends(b, id)
  {
    if Ends(a + b, id) {
      var q :| EndsAt(a + b, q, id);
      assert EndsAt(a, q, id) || EndsAt(b, q, id);
    }
    if Ends(a, id) {
      var q :| EndsAt(a, q, id);
      assert EndsAt(a + b, q, id);
    }
    if Ends(b, id) {
      var q :| EndsAt(b, q, id);
      assert EndsAt(a + b, q, id);
    }
  }

  lemma EndsOfOne(p: seq<Id>, id: Id)
    ensures Ends({p}, id) <==> Last(p) == id
    ensures !Ends({}, id)
  {
    if Last(p) == id {
      assert EndsAt({p}, p, id);
    }
  }

  /** Paths through different children end at different nodes. */
  lemma BranchesDiffer(f: Forest, p: seq<Id>, ids: seq<Id>, c: Id, a: seq<Id>, b: seq<Id>)
    requires Valid(f) && IsPath(f, a) && IsPath(f, b) && c !in ids
    requires BelowSome(p, ids, a) && HasPrefix(b, p + [c])
    ensures Last(a) != Last(b)
  {
    var d :| Below(p, ids, a, d);
    assert a[..|p| + 1][|p|] == d && b[..|p| + 1][|p|] == c;
    hide IsPath, Valid;
    if Last(a) == Last(b) {
      PathUnique(f, a, b);
    }
  }

  ghost predicate TreeIsOnce(item: Item, p: seq<Id>, id: Id) {
    Occurrences(item, id) == if Ends(TreePaths(item, p), id) then 1 else 0
  }

  ghost predicate ListIsOnce(items: seq<Item>, p: seq<Id>, id: Id) {
    ListOccurrences(items, id) == if Ends(ListPaths(items, p), id) then 1 else 0
  }

  lemma {:induction false} TreeOnce(f: Forest, p: seq<Id>, id: Id)
    requires Valid(f) && IsPath(f, p) && Build(f, p).Some?
    ensures TreeIsOnce(Build(f, p).value, p, id)
    decreases Room(f, p), 1, 0
  {
    hide ChildrenOf, IsPath, Valid, Room, BuildAll, Build, ListKeeps, TreeIsOnce, ListIsOnce, AreChildren, Distinct;
    var ids := ChildrenOf(f, Last(p));
    AllChildren(f, p);
    ChildrenDistinct(f, Last(p));
    PathBounded(f, p);
    BuildIs(f, p);
    ListOnce(f, p, ids, id);
    BuildAllKeeps(f, p, ids);
    NodeAbove(f, p, ids, BuildAll(f, p, ids), id);
  }

  lemma BuildIs(f: Forest, p: seq<Id>)
    requires Room(f, p) > 0
    ensures var items := BuildAll(f, p, ChildrenOf(f, Last(p)));
            Build(f, p) == if !Eligible(f, Last(p)) && items == [] then None else Some(Item(Last(p), items))
  {
  }

  lemma BuildAllLast(f: Forest, p: seq<Id>, ids: seq<Id>, c: Id)
    requires Room(f, p) > 0
    ensures BuildAll(f, p, ids + [c]) == BuildAll(f, p, ids) + Listing(Build(f, p + [c]))
  {
    assert (ids + [c])[..|ids|] == ids;
    hide Room, Build;
  }

  lemma NodeAbove(f: Forest, p: seq<Id>, ids: seq<Id>, items: seq<Item>, id: Id)
    requires Valid(f) && IsPath(f, p) && ListKeeps(f, p, ids, items) && ListIsOnce(items, p, id)
    ensures TreeIsOnce(Item(Last(p), items), p, id)
  {
    hide IsPath, Retained, ListPaths, Valid, ListOccurrences;
    EndsOfUnion({p}, ListPaths(items, p), id);
    EndsOfOne(p, id);
    if Ends(ListPaths(items, p), id) && Last(p) == id {
      var q :| EndsAt(ListPaths(items, p), q, id);
      var c :| Below(p, ids, q, c);
      StepUp(p, c, q);
      PathUnique(f, p, q);
    }
  }

  lemma {:induction false} ListOnce(f: Forest, p: seq<Id>, ids: seq<Id>, id: Id)
    requires Valid(f) && IsPath(f, p) && AreChildren(f, p, ids) && Distinct(ids)
    ensures ListIsOnce(BuildAll(f, p, ids), p, id)
    decreases Room(f, p), 0, |ids|
  {
    hide IsPath, ListKeeps, ItemKeeps, Retained, Build, Room, Valid, AreChildren, ListIsOnce, TreeIsOnce;
    PathBounded(f, p);
    if ids == [] {
      NothingOnce(p, id);
    } else {
      var init, c := ids[..|ids| - 1], ids[|ids| - 1];
      assert ids == init + [c];
      assert c !in init;
      ChildPath(f, p, init, c);
      ListOnce(f, p, init, id);
      BuildAllKeeps(f, p, init);
      BuildKeeps(f, p + [c]);
      if Build(f, p + [c]).Some? {
        TreeOnce(f, p + [c], id);
      }
      OnceGrows(f, p, init, c, BuildAll(f, p, init), Build(f, p + [c]), id);
    }
  }

  lemma NothingOnce(p: seq<Id>, id: Id)
    ensures ListIsOnce([], p, id)
  {
    EndsOfOne(p, id);
  }

  lemma OnceGrows(f: Forest, p: seq<Id>, ids: seq<Id>, c: Id, items: seq<Item>, item: Option<Item>, id: Id)
    requires Valid(f) && c !in ids
    requires ListKeeps(f, p, ids, items) && ItemKeeps(f, p + [c], item)
    requires ListIsOnce(items, p, id) && (item.Some? ==> TreeIsOnce(item.value, p + [c], id))
    ensures ListIsOnce(items + Listing(item), p, id)
  {
    hide IsPath, Retained, HasPrefix, BelowSome, SomeRetained, Valid, ListPaths, TreePaths, Occurrences;
    ListPathsPush(items, item, p);
    ListOccurrencesPush(items, item, id);
    assert ListPaths(items, p) + {} == ListPaths(items, p);
    if item.Some? {
      assert p + [item.value.id] == p + [c];
      var list, tree := ListPaths(items, p), TreePaths(item.value, p + [c]);
      EndsOfUnion(list, tree, id);
      if Ends(list, id) && Ends(tree, id) {
        var a :| EndsAt(list, a, id);
        var b :| EndsAt(tree, b, id);
        BranchesDiffer(f, p, ids, c, a, b);
      }
    }
  }

  lemma ListOccurrencesPush(items: seq<Item>, item: Option<Item>, id: Id)
    ensures ListOccurrences(items + Listing(item), id)
         == ListOccurrences(items, id) + if item.Some? then Occurrences(item.value, id) else 0
  {
    if item.Some? {
      assert (items + [item.value])[..|items|] == items;
    } else {
      assert items + [] == items;
    }
  }

  /** The paths a subtree records, in the order it is built. */
  ghost function PathMap(item: Item, p: seq<Id>): map<Id, seq<Id>> {
    ListMap(item.items, p)[item.id := p]
  }

  ghost function ListMap(items: seq<Item>, p: seq<Id>): map<Id, seq<Id>> {
    if items == [] then map[]
    else
      var last := items[|items| - 1];
      ListMap(items[..|items| - 1], p) + PathMap(last, p + [last.id])
  }

  ghost predicate Records(m: map<Id, seq<Id>>, paths: set<seq<Id>>) {
    && (forall id :: id in m <==> Ends(paths, id))
    && (forall id :: id in m ==> EndsAt(paths, m[id], id))
  }

  lemma {:induction false} PathMapRecords(item: Item, p: seq<Id>)
    requires Last(p) == item.id
    ensures Records(PathMap(item, p), TreePaths(item, p))
  {
    ListMapRecords(item.items, p);
    forall id
      ensures id in PathMap(item, p) <==> Ends(TreePaths(item, p), id)
    {
      EndsOfUnion({p}, ListPaths(item.items, p), id);
      EndsOfOne(p, id);
    }
  }

  lemma {:induction false} ListMapRecords(items: seq<Item>, p: seq<Id>)
    ensures Records(ListMap(items, p), ListPaths(items, p))
  {
    if items == [] {
      forall id
        ensures !Ends(ListPaths(items, p), id)
      {
        EndsOfOne(p, id);
      }
    } else {
      var init, last := items[..|items| - 1], items[|items| - 1];
      ListMapRecords(init, p);
      PathMapRecords(last, p + [last.id]);
      RecordsJoin(ListMap(init, p), ListPaths(init, p), PathMap(last, p + [last.id]), TreePaths(last, p + [last.id]));
    }
  }

  lemma RecordsJoin(m: map<Id, seq<Id>>, a: set<seq<Id>>, n: map<Id, seq<Id>>, b: set<seq<Id>>)
    requires Records(m, a) && Records(n, b)
    ensures Records(m + n, a + b)
  {
    forall id
      ensures id in m + n <==> Ends(a + b, id)
    {
      EndsOfUnion(a, b, id);
    }
  }

  // ---------------------------------------------------------------- the rebuilt view

  ghost predicate Rebuilt(f: Forest, items: seq<Item>, paths: map<Id, seq<Id>>) {
    && items == BuildAll(f, [Root], ChildrenOf(f, Root))
    && paths == map[Root := [Root]] + ListMap(items, [Root])
  }

  /** A node that the view shows: its parent chain reaches the root, and it or a descendant is important enough. */
  ghost predicate IsShown(f: Forest, id: Id) {
    exists q :: ShowsAt(f, q, id)
  }

  ghost predicate ShowsAt(f: Forest, q: seq<Id>, id: Id) {
    IsPath(f, q) && Last(q) == id && Retained(f, q)
  }

  /** Below the root, the built paths are the retained ones. */
  lemma BelowRoot(f: Forest, items: seq<Item>, q: seq<Id>)
    requires Valid(f) && items == BuildAll(f, [Root], ChildrenOf(f, Root))
    ensures q in ListPaths(items, [Root]) <==> IsPath(f, q) && q != [Root] && Retained(f, q)
  {
    hide BuildAll, ListPaths, Retained, ChildrenOf;
    AllChildren(f, [Root]);
    BuildAllKeeps(f, [Root], ChildrenOf(f, Root));
    if IsPath(f, q) {
      PathPrefix(f, q, 1);
      assert q[..1] == [Root];
      PathGoesOn(f, [Root], q);
    }
  }

  /** A path is recorded for exactly the shown nodes and the root, and it is the node's parent chain. */
  lemma PathsAreShown(f: Forest, items: seq<Item>, paths: map<Id, seq<Id>>, id: Id)
    requires Valid(f) && Rebuilt(f, items, paths)
    ensures id in paths <==> id == Root || IsShown(f, id)
    ensures id in paths ==> IsPath(f, paths[id]) && paths[id] != [] && Last(paths[id]) == id
    ensures id in paths && id != Root ==> Retained(f, paths[id])
  {
    ListMapRecords(items, [Root]);
    RootIsPath(f);
    PathsNotEmpty(f);
    hide IsPath, Retained, ListPaths, ListMap, BuildAll, Room, ChildrenOf;
    var list := ListPaths(items, [Root]);
    if Ends(list, id) {
      var q :| EndsAt(list, q, id);
      BelowRoot(f, items, q);
      assert ShowsAt(f, q, id);
    }
    if id in ListMap(items, [Root]) {
      BelowRoot(f, items, ListMap(items, [Root])[id]);
      RootEndsOnce(f, ListMap(items, [Root])[id]);
    }
    if IsShown(f, id) {
      var q :| ShowsAt(f, q, id);
      BelowRoot(f, items, q);
      assert q == [Root] || EndsAt(list, q, id);
    }
  }

  /** Every step of a recorded path goes from a node's parent to the node, or from the root to the live container. */
  lemma PathsFollowParents(f: Forest, items: seq<Item>, paths: map<Id, seq<Id>>, id: Id, k: nat)
    requires Valid(f) && Rebuilt(f, items, paths) && id in paths && 0 < k < |paths[id]|
    ensures var p := paths[id];
            if p[k] == Live then p[k - 1] == Root else HasParent(f.nodes, p[k], p[k - 1])
  {
    hide Rebuilt, Retained, IsShown, IsChild, Valid;
    PathsAreShown(f, items, paths, id);
    var p := paths[id];
    PathPrefix(f, p, k + 1);
    ChildAt(f, p, k);
  }

  lemma ChildAt(f: Forest, p: seq<Id>, k: nat)
    requires 0 < k < |p| && IsPath(f, p[..k + 1])
    ensures if p[k] == Live then p[k - 1] == Root else HasParent(f.nodes, p[k], p[k - 1])
  {
    assert p[..k + 1] != [Root];
    assert p[..k + 1][|p[..k + 1]| - 2] == p[k - 1] && p[..k + 1][|p[..k + 1]| - 1] == p[k];
  }

  /** A node that has a path is right below its parent. */
  lemma BelowParent(f: Forest, items: seq<Item>, paths: map<Id, seq<Id>>, id: Id, parent: Id)
    requires Valid(f) && Rebuilt(f, items, paths) && id in paths && HasParent(f.nodes, id, parent)
    ensures parent in paths && paths[id] == paths[parent] + [id]
  {
    hide Rebuilt, Retained, IsShown, IsPath, Valid;
    PathsAreShown(f, items, paths, id);
    var p := paths[id];
    var k := |p| - 1;
    assert k > 0 by {
      RootIsPath(f);
      if k == 0 {
        OneNodePath(f, p);
      }
    }
    PathsFollowParents(f, items, paths, id, k);
    ParentIs(f.nodes, id, parent);
    ParentIs(f.nodes, id, p[k - 1]);
    AncestorsShown(f, items, paths, id, k);
    assert p == p[..k] + [id];
  }

  lemma OneNodePath(f: Forest, p: seq<Id>)
    requires IsPath(f, p) && |p| == 1
    ensures p == [Root]
  {
  }

  lemma PathsNotEmpty(f: Forest)
    ensures forall p :: IsPath(f, p) ==> p != []
  {
  }

  lemma RootEndsOnce(f: Forest, q: seq<Id>)
    requires Valid(f) && IsPath(f, q) && q != [Root]
    ensures Last(q) != Root
  {
    if Last(q) == Root {
      PathUnique(f, q, [Root]);
    }
  }

  /** The recorded paths are closed under ancestors. */
  lemma AncestorsShown(f: Forest, items: seq<Item>, paths: map<Id, seq<Id>>, id: Id, n: nat)
    requires Valid(f) && Rebuilt(f, items, paths) && id in paths && 0 < n <= |paths[id]|
    ensures var ancestor := paths[id][n - 1]; ancestor in paths && paths[ancestor] == paths[id][..n]
  {
    hide Rebuilt, IsPath, Retained, IsShown;
    PathsAreShown(f, items, paths, id);
    var p := paths[id];
    if id == Root {
      RootHasOnePath(f, p);
    }
    AncestorShown(f, p, n);
    PathsAreShown(f, items, paths, p[n - 1]);
    PathUnique(f, p[..n], paths[p[n - 1]]);
  }

  lemma RootHasOnePath(f: Forest, p: seq<Id>)
    requires Valid(f) && IsPath(f, p) && Last(p) == Root
    ensures p == [Root]
  {
    PathUnique(f, p, [Root]);
  }

  lemma AncestorShown(f: Forest, p: seq<Id>, n: nat)
    requires Valid(f) && IsPath(f, p) && 0 < n <= |p| && (p == [Root] || Retained(f, p))
    ensures var q := p[..n]; IsPath(f, q) && Last(q) == p[n - 1] && (Last(q) == Root || IsShown(f, Last(q)))
  {
    var q := p[..n];
    PathPrefix(f, p, n);
    if p == [Root] {
      assert q == [Root];
    } else {
      RetainedPrefix(f, q, p);
      hide Retained, IsPath;
      assert ShowsAt(f, q, Last(q));
    }
  }

  /** Every shown node is in the tree once, and nothing else is. */
  lemma ShownOnce(f: Forest, items: seq<Item>, paths: map<Id, seq<Id>>, id: Id)
    requires Valid(f) && Rebuilt(f, items, paths)
    ensures Occurrences(Item(Root, items), id) == if id in paths then 1 else 0
  {
    hide BuildAll, Room, ChildrenOf, IsPath, ListPaths, ListMap, ListOccurrences, Retained, Valid;
    var ids := ChildrenOf(f, Root);
    AllChildren(f, [Root]);
    ChildrenDistinct(f, Root);
    RootIsPath(f);
    ListOnce(f, [Root], ids, id);
    ListMapRecords(items, [Root]);
    if Ends(ListPaths(items, [Root]), id) {
      var q :| EndsAt(ListPaths(items, [Root]), q, id);
      BelowRoot(f, items, q);
      RootEndsOnce(f, q);
    }
  }

  lemma RootIsPath(f: Forest)
    ensures IsPath(f, [Root]) && Last([Root]) == Root
  {
  }

  // ---------------------------------------------------------------- the view in place

  function Get(children: map<Id, seq<Id>>, id: Id): seq<Id> {
    if id in children then children[id] else []
  }

  /** The nodes of a page, later ones replacing earlier ones. */
  ghost function Merged(nodes: map<Id, Node>, page: seq<(Id, Node)>): map<Id, Node> {
    if page == [] then nodes
    else Merged(nodes, page[..|page| - 1])[page[|page| - 1].0 := page[|page| - 1].1]
  }

  lemma SortedIds(order: seq<Id>)
    requires Distinct(order)
    ensures var sorted := Sort(IdBefore, order);
            IsSorted(IdBefore, sorted) && Distinct(sorted) && forall id :: id in sorted <==> id in order
  {
    IdsInOrder();
    SortOrders(IdBefore, order);
    SortKeepsDistinct(IdBefore, order);
    forall id
      ensures id in Sort(IdBefore, order) <==> id in order
    {
      SortedIn(IdBefore, order, id);
    }
  }

  lemma ListedBefore(f: Forest, parent: Id, n: nat, id: Id)
    requires Valid(f) && IsSorted(IdBefore, f.order) && n < |f.order| && id in Listed(f, parent, n)
    ensures IdBefore(id, f.order[n])
  {
    hide IdBefore;
    ListedMembers(f, parent, n, id);
    var i :| 0 <= i < n && f.order[..n][i] == id;
    assert f.order[i] == id;
  }

  lemma SortedPush(s: seq<Id>, id: Id)
    requires IsSorted(IdBefore, s) && forall k :: 0 <= k < |s| ==> IdBefore(s[k], id)
    ensures IsSorted(IdBefore, s + [id]) && IsSorted(IdBefore, s + [])
  {
    hide IdBefore;
    assert s + [] == s;
  }

  /** The children of a node are listed in the order of the nodes; the root's live container comes after them. */
  lemma {:induction false} ChildrenInOrder(f: Forest, parent: Id, n: nat)
    requires Valid(f) && IsSorted(IdBefore, f.order) && n <= |f.order|
    ensures IsSorted(IdBefore, Listed(f, parent, n))
  {
    hide IdBefore, Valid;
    if n > 0 {
      ChildrenInOrder(f, parent, n - 1);
      var rest := Listed(f, parent, n - 1);
      forall k | 0 <= k < |rest|
        ensures IdBefore(rest[k], f.order[n - 1])
      {
        ListedBefore(f, parent, n - 1, rest[k]);
      }
      hide IsSorted;
      SortedPush(rest, f.order[n - 1]);
    }
  }

  /** Children that are records of the log are listed in its order. */
  lemma LogChildrenInOrder(f: Forest, parent: Id, i: nat, j: nat)
    requires Valid(f) && IsSorted(IdBefore, f.order) && i < j < |Listed(f, parent, |f.order|)|
    ensures var children := Listed(f, parent, |f.order|);
            var a, b := LogSequence(NameOf(children[i])), LogSequence(NameOf(children[j]));
            a.Some? && b.Some? ==> a.value <= b.value
  {
    var children := Listed(f, parent, |f.order|);
    ChildrenInOrder(f, parent, |f.order|);
    assert IdBefore(children[i], children[j]);
    if LogSequence(NameOf(children[i])).Some? && LogSequence(NameOf(children[j])).Some? {
      LogIds(NameOf(children[i]));
      LogIds(NameOf(children[j]));
    }
  }

  /** The children lists of all nodes but the root. */
  ghost predicate Grouped(f: Forest, children: map<Id, seq<Id>>) {
    forall c :: c != Root ==> Get(children, c) == ChildrenOf(f, c)
  }

  lemma GroupedAt(f: Forest, children: map<Id, seq<Id>>, c: Id)
    requires Grouped(f, children) && c != Root
    ensures Get(children, c) == ChildrenOf(f, c)
  {
  }

  /** The recorded paths with those of one more subtree. */
  ghost function Recorded(paths: map<Id, seq<Id>>, item: Option<Item>, p: seq<Id>): map<Id, seq<Id>> {
    if item.Some? then paths + PathMap(item.value, p) else paths
  }

  /** The subtrees of `ids` below `p` are built and their paths recorded. */
  ghost predicate Building(f: Forest, p: seq<Id>, ids: seq<Id>, built: seq<Item>, before: map<Id, seq<Id>>,
                           paths: map<Id, seq<Id>>) {
    built == BuildAll(f, p, ids) && paths == before + ListMap(built, p)
  }

  lemma BuildingStart(f: Forest, p: seq<Id>, before: map<Id, seq<Id>>)
    ensures Building(f, p, [], [], before, before)
  {
    assert before + map[] == before;
  }

  lemma BuildingStep(f: Forest, p: seq<Id>, ids: seq<Id>, c: Id, built: seq<Item>, before: map<Id, seq<Id>>,
                     paths: map<Id, seq<Id>>)
    requires Valid(f) && IsPath(f, p) && AreChildren(f, p, ids + [c]) && Building(f, p, ids, built, before, paths)
    ensures Building(f, p, ids + [c], built + Listing(Build(f, p + [c])), before, Recorded(paths, Build(f, p + [c]), p + [c]))
  {
    hide IsPath, Valid, Room, Build, BuildAll, AreChildren;
    PathBounded(f, p);
    ChildPath(f, p, ids, c);
    BuildAllLast(f, p, ids, c);
    BuildKeeps(f, p + [c]);
    BuildingMap(before, built, Build(f, p + [c]), p, c);
  }

  lemma BuildListStep(f: Forest, p: seq<Id>, ids: seq<Id>, k: nat, built: seq<Item>, before: map<Id, seq<Id>>,
                      paths: map<Id, seq<Id>>)
    requires Valid(f) && IsPath(f, p) && AreChildren(f, p, ids) && k < |ids| && Building(f, p, ids[..k], built, before, paths)
    ensures var q := p + [ids[k]];
            && IsPath(f, q) && Room(f, p) > Room(f, q)
            && Building(f, p, ids[..k + 1], built + Listing(Build(f, q)), before, Recorded(paths, Build(f, q), q))
  {
    hide IsPath, Valid, Room, Build, Building, AreChildren, Recorded, Listing;
    assert ids[..k + 1] == ids[..k] + [ids[k]];
    SomeAreChildren(f, p, ids, k + 1);
    ChildPath(f, p, ids[..k], ids[k]);
    BuildingStep(f, p, ids[..k], ids[k], built, before, paths);
  }

  lemma BuildingMap(before: map<Id, seq<Id>>, built: seq<Item>, item: Option<Item>, p: seq<Id>, c: Id)
    requires item.Some? ==> item.value.id == c
    ensures before + ListMap(built + Listing(item), p) == Recorded(before + ListMap(built, p), item, p + [c])
  {
    match item
    case Some(i) => MapGrows(before, built, i, p);
    case None => assert built + [] == built;
  }

  lemma BuildingDone(f: Forest, p: seq<Id>, built: seq<Item>, before: map<Id, seq<Id>>, paths: map<Id, seq<Id>>)
    requires Valid(f) && IsPath(f, p) && Building(f, p, ChildrenOf(f, Last(p)), built, before, paths)
    ensures Build(f, p) == if !Eligible(f, Last(p)) && built == [] then None else Some(Item(Last(p), built))
    ensures built == [] ==> Recorded(before, None, p) == paths
    ensures Recorded(before, Some(Item(Last(p), built)), p) == paths[Last(p) := p]
  {
    hide ChildrenOf, IsPath, BuildAll, Valid, Eligible;
    PathBounded(f, p);
    OverrideLast(before, ListMap(built, p), Last(p), p);
  }

  lemma OverrideLast(m: map<Id, seq<Id>>, n: map<Id, seq<Id>>, id: Id, p: seq<Id>)
    ensures (m + n)[id := p] == m + n[id := p]
    ensures n == map[] ==> m + n == m && m + map[] == m
  {
  }

  function Ancestors(path: seq<Id>): set<seq<Id>> {
    set e | 1 <= e < |path| :: path[..e]
  }

  /** The ancestors of a path are its proper beginnings. */
  lemma AncestorsAre(path: seq<Id>, p: seq<Id>)
    ensures p in Ancestors(path) <==> 0 < |p| < |path| && p == path[..|p|]
  {
    if p in Ancestors(path) {
      var e :| 1 <= e < |path| && path[..e] == p;
      assert |p| == e;
    }
  }

  /** Node `n` in order is a shown record. */
  predicate Counts(order: seq<Id>, nodes: map<Id, Node>, paths: map<Id, seq<Id>>, n: nat)
    requires n < |order|
  {
    order[n] in nodes && order[n] in paths && nodes[order[n]].isRecord
  }

  /** What decides how recent a record is. */
  function StampOf(nodes: map<Id, Node>, id: Id): Stamp {
    Stamp(LogSequence(NameOf(id)), if id in nodes then nodes[id].timeStart else None)
  }

  /** The most recent shown record among the first `n` nodes; among equals the last. */
  function Newest(order: seq<Id>, nodes: map<Id, Node>, paths: map<Id, seq<Id>>, n: nat): (r: Option<nat>)
    requires n <= |order|
    ensures r.Some? ==> r.value < n && Counts(order, nodes, paths, r.value)
  {
    if n == 0 then None
    else
      var m := Newest(order, nodes, paths, n - 1);
      if Counts(order, nodes, paths, n - 1)
         && (m.None? || NoLater(StampOf(nodes, order[m.value]), StampOf(nodes, order[n - 1]))) then Some(n - 1) else m
  }

  method FindNewest(order: seq<Id>, nodes: map<Id, Node>, paths: map<Id, seq<Id>>) returns (newest: Option<nat>)
    ensures newest == Newest(order, nodes, paths, |order|)
  {
    newest := None;
    for n := 0 to |order|
      invariant newest == Newest(order, nodes, paths, n)
    {
      if Counts(order, nodes, paths, n)
         && (newest.None? || NoLater(StampOf(nodes, order[newest.value]), StampOf(nodes, order[n]))) {
        newest := Some(n);
      }
    }
  }

  /** The followed record is shown and no shown record is later; of those equally late it is the last listed. */
  lemma {:induction false} NewestIsNewest(order: seq<Id>, nodes: map<Id, Node>, paths: map<Id, seq<Id>>, n: nat, k: nat)
    requires k < n <= |order| && Counts(order, nodes, paths, k)
    ensures var m := Newest(order, nodes, paths, n);
            && m.Some? && NoLater(StampOf(nodes, order[k]), StampOf(nodes, order[m.value]))
            && (k > m.value ==> !NoLater(StampOf(nodes, order[m.value]), StampOf(nodes, order[k])))
  {
    hide NoLater, Counts, StampOf;
    var m := Newest(order, nodes, paths, n - 1);
    var at, last := StampOf(nodes, order[k]), StampOf(nodes, order[n - 1]);
    if k < n - 1 {
      NewestIsNewest(order, nodes, paths, n - 1, k);
      var best := StampOf(nodes, order[m.value]);
      if NoLater(best, last) {
        StampsTransitive(at, best, last);
      }
    } else {
      StampsCompare(at, at);
      if m.Some? {
        StampsCompare(at, StampOf(nodes, order[m.value]));
      }
    }
  }

  /** The followed record has the highest log number of all shown ones and, among those with it, the latest start time. */
  lemma FollowsLatestLog(order: seq<Id>, nodes: map<Id, Node>, paths: map<Id, seq<Id>>, k: nat)
    requires k < |order| && Counts(order, nodes, paths, k)
    ensures var m := Newest(order, nodes, paths, |order|);
            && m.Some? && order[m.value] in nodes && nodes[order[m.value]].isRecord && order[m.value] in paths
            && var mine, best := LogSequence(NameOf(order[k])), LogSequence(NameOf(order[m.value]));
               && (mine.Some? ==> best.Some? && mine.value <= best.value)
               && (mine == best ==> TimeAtMost(nodes[order[k]].timeStart, nodes[order[m.value]].timeStart))
  {
    NewestIsNewest(order, nodes, paths, |order|, k);
  }

  /** The children lists of the first `n` nodes in order. */
  ghost predicate GroupedTo(f: Forest, children: map<Id, seq<Id>>, n: nat)
    requires n <= |f.order|
  {
    forall c :: Get(children, c) == Listed(f, c, n)
  }

  lemma GroupedNone(f: Forest)
    ensures GroupedTo(f, map[], 0)
  {
  }

  lemma GroupedOne(f: Forest, children: map<Id, seq<Id>>, n: nat)
    requires n < |f.order| && GroupedTo(f, children, n)
    ensures var id := f.order[n];
            var parent := ParentOf(f.nodes, id);
            GroupedTo(f, if id != Root && id != Live then children[parent := Get(children, parent) + [id]] else children, n + 1)
  {
    var id := f.order[n];
    var parent := ParentOf(f.nodes, id);
    var grown := if id != Root && id != Live then children[parent := Get(children, parent) + [id]] else children;
    forall c
      ensures Get(grown, c) == Listed(f, c, n + 1)
    {
      assert Get(children, c) == Listed(f, c, n);
      assert Listed(f, c, n) + [] == Listed(f, c, n);
    }
  }

  /** The view is rebuilt, and the selection is a recorded path. */
  ghost predicate IsConsistent(f: Forest, items: seq<Item>, paths: map<Id, seq<Id>>, selected: seq<Id>) {
    && Valid(f) && Rebuilt(f, items, paths)
    && selected != [] && Last(selected) in paths && paths[Last(selected)] == selected
  }

  lemma ConsistentParts(f: Forest, items: seq<Item>, paths: map<Id, seq<Id>>, selected: seq<Id>)
    requires IsConsistent(f, items, paths, selected)
    ensures Valid(f) && selected != [] && PathOrRoot(paths, Last(selected)) == selected
  {
  }

  lemma SelectionHolds(f: Forest, items: seq<Item>, paths: map<Id, seq<Id>>, wanted: Id)
    requires Valid(f) && Rebuilt(f, items, paths)
    ensures IsConsistent(f, items, paths, if wanted in paths then paths[wanted] else [Root])
  {
    hide IsPath, Valid, Rebuilt, Retained, IsShown;
    PathsAreShown(f, items, paths, wanted);
    PathsAreShown(f, items, paths, Root);
    RootHasOnePath(f, paths[Root]);
  }

  lemma SelectedElsewhere(f: Forest, items: seq<Item>, paths: map<Id, seq<Id>>, selected: seq<Id>, id: Id)
    requires IsConsistent(f, items, paths, selected)
    ensures id in paths ==> IsConsistent(f, items, paths, paths[id]) && Last(paths[id]) == id
  {
    SelectionHolds(f, items, paths, id);
    hide Valid, Rebuilt, IsPath, IsShown, Retained;
    PathsAreShown(f, items, paths, id);
  }

  lemma GroupedIs(f: Forest, children: map<Id, seq<Id>>)
    requires GroupedTo(f, children, |f.order|)
    ensures Grouped(f, children)
    ensures ChildrenOf(f, Root) == Get(children, Root) + if Live in f.nodes || Get(children, Live) != [] then [Live] else []
  {
    forall c | c != Root
      ensures Get(children, c) == ChildrenOf(f, c)
    {
      assert Listed(f, c, |f.order|) + [] == Listed(f, c, |f.order|);
    }
  }

  lemma RebuiltIs(f: Forest, items: seq<Item>, paths: map<Id, seq<Id>>)
    requires Building(f, [Root], ChildrenOf(f, Root), items, map[Root := [Root]], paths)
    ensures Rebuilt(f, items, paths)
  {
  }

  lemma SomeAreChildren(f: Forest, p: seq<Id>, ids: seq<Id>, n: nat)
    requires AreChildren(f, p, ids) && n <= |ids|
    ensures AreChildren(f, p, ids[..n])
  {
  }

  lemma MapGrows(m: map<Id, seq<Id>>, items: seq<Item>, item: Item, p: seq<Id>)
    ensures m + ListMap(items + [item], p) == (m + ListMap(items, p)) + PathMap(item, p + [item.id])
  {
    assert (items + [item])[..|items|] == items;
  }

  // ---------------------------------------------------------------- search

  /** The search matches: the root if the narrative matches, then the shown matching nodes in order. */
  function Matches(order: seq<Id>, paths: map<Id, seq<Id>>, narrativeHit: bool, hit: Id -> bool, n: nat): seq<Id>
    requires n <= |order|
  {
    if n == 0 then (if narrativeHit then [Root] else [])
    else
      Matches(order, paths, narrativeHit, hit, n - 1)
      + if order[n - 1] in paths && hit(order[n - 1]) then [order[n - 1]] else []
  }

  /** The match a jump goes to. */
  function JumpIndex(count: nat, position: Option<nat>, previous: bool): nat
    requires count > 0
  {
    match position
    case Some(index) =>
      if previous then (if index == 0 then count - 1 else index - 1) else (index + 1) % count
    case None => if previous then count - 1 else 0
  }

  /** Exactly the shown nodes that match are found, so every jump has a path to select. */
  lemma {:induction false} MatchesAreShown(order: seq<Id>, paths: map<Id, seq<Id>>, narrativeHit: bool, hit: Id -> bool, n: nat, id: Id)
    requires n <= |order| && Root in paths
    ensures id in Matches(order, paths, narrativeHit, hit, n) <==>
              (id == Root && narrativeHit) || (id in order[..n] && id in paths && hit(id))
    ensures id in Matches(order, paths, narrativeHit, hit, n) ==> id in paths
  {
    if n > 0 {
      MatchesAreShown(order, paths, narrativeHit, hit, n - 1, id);
      assert order[..n] == order[..n - 1] + [order[n - 1]];
    }
  }

  /** The matches are in the order of the nodes, the root's first. */
  lemma {:induction false} MatchesInOrder(order: seq<Id>, paths: map<Id, seq<Id>>, narrativeHit: bool, hit: Id -> bool, n: nat)
    requires Distinct(order) && n <= |order| && Root in paths
    ensures var matches := Matches(order, paths, narrativeHit, hit, n); var from := if narrativeHit then 1 else 0;
            && |matches| >= from && (narrativeHit ==> matches[0] == Root)
            && forall i, j :: from <= i < j < |matches| ==>
                 exists a, b :: 0 <= a < b < n && order[a] == matches[i] && order[b] == matches[j]
  {
    if n > 0 {
      MatchesInOrder(order, paths, narrativeHit, hit, n - 1);
      var init, from := Matches(order, paths, narrativeHit, hit, n - 1), if narrativeHit then 1 else 0;
      forall i | from <= i < |init|
        ensures exists a :: 0 <= a < n - 1 && order[a] == init[i]
      {
        ListedMatch(order, paths, narrativeHit, hit, n - 1, i);
      }
    }
  }

  lemma {:induction false} ListedMatch(order: seq<Id>, paths: map<Id, seq<Id>>, narrativeHit: bool, hit: Id -> bool, n: nat, i: nat)
    requires n <= |order| && (if narrativeHit then 1 else 0) <= i < |Matches(order, paths, narrativeHit, hit, n)|
    ensures exists a :: 0 <= a < n && order[a] == Matches(order, paths, narrativeHit, hit, n)[i]
  {
    if i < |Matches(order, paths, narrativeHit, hit, n - 1)| {
      ListedMatch(order, paths, narrativeHit, hit, n - 1, i);
    }
  }

  function JumpForward(count: nat, position: nat, times: nat): nat
    requires count > 0
    decreases times
  {
    if times == 0 then position else JumpIndex(count, Some(JumpForward(count, position, times - 1)), false)
  }

  lemma JumpsNext(count: nat, position: nat)
    requires position < count
    ensures JumpIndex(count, Some(position), false) == if position == count - 1 then 0 else position + 1
  {
    if position + 1 < count {
      assert (position + 1) % count == position + 1;
    }
  }

  /** Jumping forward goes round through every match, and jumping back undoes one jump. */
  lemma {:induction false} JumpsGoRound(count: nat, position: nat, times: nat)
    requires position < count && times <= count
    ensures JumpForward(count, position, times) == if position + times < count then position + times else position + times - count
    ensures JumpIndex(count, Some(JumpIndex(count, Some(position), false)), true) == position
    ensures JumpIndex(count, None, false) == 0 && JumpIndex(count, None, true) == count - 1
    decreases times
  {
    assert JumpIndex(count, None, false) == 0 && JumpIndex(count, None, true) == count - 1;
    hide JumpIndex;
    JumpsNext(count, position);
    JumpsBack(count, position);
    if times > 0 {
      JumpsGoRound(count, position, times - 1);
      JumpsNext(count, JumpForward(count, position, times - 1));
    }
  }

  lemma JumpsBack(count: nat, position: nat)
    requires position < count
    ensures JumpIndex(count, Some(if position == count - 1 then 0 else position + 1), true) == position
  {
  }

  /** The position of the first occurrence. */
  function IndexOf(s: seq<Id>, id: Id): (r: Option<nat>)
    ensures r.Some? ==> r.value < |s| && s[r.value] == id && forall k :: 0 <= k < r.value ==> s[k] != id
    ensures r.None? ==> id !in s
  {
    if s == [] then None
    else if s[0] == id then Some(0)
    else match IndexOf(s[1..], id) case Some(k) => Some(k + 1) case None => None
  }

  /** The run's narrative as the Host last sent it. */
  datatype Narrative = Narrative(status: string, text: Option<string>)

  /** What a search term finds; the empty term finds nothing. */
  function Found(contains: (string, string) -> bool, narrative: Option<Narrative>, search: string, order: seq<Id>,
                 nodes: map<Id, Node>, paths: map<Id, seq<Id>>): seq<Id>
  {
    if search == "" then []
    else
      Matches(order, paths, NarrativeHit(contains, narrative, search), NodeHit(contains, nodes, search), |order|)
  }

  predicate NarrativeHit(contains: (string, string) -> bool, narrative: Option<Narrative>, search: string) {
    narrative.Some? && narrative.value.text.Some? && contains(narrative.value.text.value, search)
  }

  function NodeHit(contains: (string, string) -> bool, nodes: map<Id, Node>, search: string): Id -> bool {
    (id: Id) => id in nodes && contains(nodes[id].content, search)
  }

  /** A search keeps its place by id when its matches change. */
  function Carried(before: seq<Id>, position: Option<nat>, after: seq<Id>): Option<nat> {
    if position.Some? && position.value < |before| then IndexOf(after, before[position.value]) else None
  }

  /** The match positions after a jump: selecting the match finds its first occurrence. */
  function Jumped(matches: seq<Id>, position: nat): Option<nat>
    requires matches != []
  {
    IndexOf(matches, matches[JumpIndex(|matches|, Some(position), false)])
  }

  /** Matches repeat only when the root is a node of its own and both it and the narrative match. */
  lemma {:induction false} MatchesDistinct(order: seq<Id>, paths: map<Id, seq<Id>>, narrativeHit: bool, hit: Id -> bool, n: nat)
    requires Distinct(order) && n <= |order| && Root in paths
    ensures Distinct(Matches(order, paths, narrativeHit, hit, n)) <==> !(narrativeHit && Root in order[..n] && hit(Root))
  {
    if n > 0 {
      MatchesDistinct(order, paths, narrativeHit, hit, n - 1);
      var before, last := Matches(order, paths, narrativeHit, hit, n - 1), order[n - 1];
      assert order[..n] == order[..n - 1] + [last] && last !in order[..n - 1];
      MatchesAreShown(order, paths, narrativeHit, hit, n - 1, last);
      DistinctPush(before, last);
    }
  }

  lemma DistinctPush(s: seq<Id>, id: Id)
    ensures Distinct(s + [id]) <==> Distinct(s) && id !in s
    ensures s + [] == s
  {
    var t := s + [id];
    if Distinct(t) {
      assert forall i :: 0 <= i < |s| ==> t[i] == s[i] && t[|s|] == id;
    }
    if Distinct(s) && id !in s {
      forall i, j | 0 <= i < j < |t|
        ensures t[i] != t[j]
      {
      }
    }
  }

  /** Jumping reaches the match after each match if and only if no match occurs twice. */
  lemma JumpsReachAll(matches: seq<Id>)
    requires matches != []
    ensures Distinct(matches)
       <==> forall i: nat :: i < |matches| ==> Jumped(matches, i) == Some(if i == |matches| - 1 then 0 else i + 1)
  {
    hide JumpIndex;
    forall i: nat | i < |matches|
      ensures JumpIndex(|matches|, Some(i), false) == if i == |matches| - 1 then 0 else i + 1
    {
      JumpsNext(|matches|, i);
    }
    if !Distinct(matches) {
      var a, b :| 0 <= a < b < |matches| && matches[a] == matches[b];
      assert Jumped(matches, b - 1) != Some(b);
    }
  }

  /** The open paths whose nodes are still shown, where those are now. */
  ghost function StillOpen(wasOpen: set<seq<Id>>, paths: map<Id, seq<Id>>): set<seq<Id>> {
    set o | o in wasOpen && o != [] && Last(o) in paths :: paths[Last(o)]
  }

  lemma Reopened(wasOpen: set<seq<Id>>, ids: set<Id>, paths: map<Id, seq<Id>>, now: set<seq<Id>>)
    requires ids == set o | o in wasOpen && o != [] :: Last(o)
    requires now == set id | id in ids && id in paths :: paths[id]
    ensures now == StillOpen(wasOpen, paths)
  {
    forall p | p in now
      ensures p in StillOpen(wasOpen, paths)
    {
      var id :| id in ids && id in paths && paths[id] == p;
      var o :| o in wasOpen && o != [] && Last(o) == id;
      assert paths[Last(o)] == p;
    }
    forall p | p in StillOpen(wasOpen, paths)
      ensures p in now
    {
      var o :| o in wasOpen && o != [] && Last(o) in paths && paths[Last(o)] == p;
      assert Last(o) in ids;
    }
  }

  lemma RootIsShown(f: Forest, items: seq<Item>, paths: map<Id, seq<Id>>)
    requires Valid(f) && Rebuilt(f, items, paths)
    ensures Root in paths && paths[Root] == [Root]
  {
    hide IsPath, Valid, Rebuilt, Retained, IsShown;
    PathsAreShown(f, items, paths, Root);
    RootHasOnePath(f, paths[Root]);
  }

  /** The path of a node if it is shown, else the root's. */
  function PathOrRoot(paths: map<Id, seq<Id>>, id: Id): seq<Id> {
    if id in paths then paths[id] else [Root]
  }

  /** The path of the newest shown record, if there is one. */
  function Followed(order: seq<Id>, nodes: map<Id, Node>, paths: map<Id, seq<Id>>, otherwise: seq<Id>): seq<Id> {
    match Newest(order, nodes, paths, |order|) case Some(n) => paths[order[n]] case None => otherwise
  }

  /** Whether taking in the nodes of a page changes any of them on the way. */
  ghost predicate Differs(nodes: map<Id, Node>, page: seq<(Id, Node)>) {
    exists k :: 0 <= k < |page| && NodeDiffers(nodes, page, k)
  }

  ghost predicate NodeDiffers(nodes: map<Id, Node>, page: seq<(Id, Node)>, k: nat)
    requires k < |page|
  {
    var known, (id, node) := Merged(nodes, page[..k]), page[k];
    id !in known || known[id] != node
  }

  class ProgressView {
    /** Whether a text contains a search term. */
    const contains: (string, string) -> bool
    var narrative: Option<Narrative>
    var search: string
    var matches: seq<Id>
    var matchPosition: Option<nat>
    var nodes: map<Id, Node>
    var order: seq<Id>
    var minimum: Importance
    var followNewest: bool
    var items: seq<Item>
    var paths: map<Id, seq<Id>>
    var expanded: set<seq<Id>>
    var selected: seq<Id>

    ghost function View(): Forest
      reads this`nodes, this`order, this`minimum
    {
      Forest(nodes, order, minimum)
    }

    ghost predicate Consistent()
      reads this
    {
      && IsConsistent(View(), items, paths, selected) && IsSorted(IdBefore, order)
      && Searched()
    }

    /** The matches are what the search finds, and the place in them is one of them. */
    ghost predicate Searched()
      reads this
    {
      && matches == Found(contains, narrative, search, order, nodes, paths)
      && (matchPosition.Some? ==> matchPosition.value < |matches|)
    }

    /** A node is shown and selected. */
    ghost predicate Selects(id: Id)
      reads this`paths, this`selected
    {
      id in paths && selected == paths[id]
    }

    /** An empty view: the root is selected, and the root and the live container are open. */
    constructor (contains: (string, string) -> bool)
      ensures Consistent() && nodes == map[] && minimum == Routine && followNewest && selected == [Root]
      ensures narrative == None && search == "" && matches == [] && this.contains == contains
    {
      this.contains := contains;
      narrative, search, matches, matchPosition := None, "", [], None;
      nodes, order, minimum, followNewest := map[], [], Routine, true;
      items, paths, expanded, selected := [], map[], {[Root], [Root, Live]}, [Root];
      new;
      hide Rebuilt, StillOpen, Ancestors, Carried, IdBefore;
      Rebuild();
      RootIsShown(View(), items, paths);
    }

    /** Builds the subtree of `id` and records its paths. */
    method BuildItem(id: Id, parent: seq<Id>, children: map<Id, seq<Id>>) returns (item: Option<Item>)
      requires Valid(View()) && IsPath(View(), parent + [id]) && parent != [] && Grouped(View(), children)
      modifies this`paths
      ensures item == Build(View(), parent + [id])
      ensures paths == Recorded(old(paths), item, parent + [id])
      decreases Room(View(), parent + [id]), 1
    {
      var path := parent + [id];
      ghost var before := paths;
      RootEndsOnce(View(), path);
      GroupedAt(View(), children, id);
      hide IsPath, ChildrenOf, Room, Valid, Grouped, Building, Build, Recorded;
      var built := BuildList(path, Get(children, id), children);
      BuildingDone(View(), path, built, before, paths);
      var importance := if id in nodes && nodes[id].importance.Some? then nodes[id].importance.value else Routine;
      var eligible := Rank(importance) <= Rank(minimum);
      if !eligible && built == [] {
        return None;
      }
      paths := paths[id := path];
      return Some(Item(id, built));
    }

    /** Builds the subtrees of the children `ids` of the node at the end of `path`. */
    method BuildList(path: seq<Id>, ids: seq<Id>, children: map<Id, seq<Id>>) returns (built: seq<Item>)
      requires Valid(View()) && path != [] && IsPath(View(), path) && Grouped(View(), children)
      requires ids == ChildrenOf(View(), Last(path))
      modifies this`paths
      ensures Building(View(), path, ids, built, old(paths), paths)
      decreases Room(View(), path), 0
    {
      built := [];
      ghost var before := paths;
      BuildingStart(View(), path, before);
      AllChildren(View(), path);
      hide IsPath, ChildrenOf, Room, Valid, Grouped, Building, Build, Recorded, AreChildren, Listing;
      assert ids[..0] == [];
      for k := 0 to |ids|
        invariant Building(View(), path, ids[..k], built, before, paths)
      {
        BuildListStep(View(), path, ids, k, built, before, paths);
        var child := BuildItem(ids[k], path, children);
        built := built + Listing(child);
      }
      assert ids[..|ids|] == ids;
    }

    /** Groups the nodes by parent, in order. */
    method GroupByParent() returns (children: map<Id, seq<Id>>)
      ensures GroupedTo(View(), children, |order|)
    {
      children := map[];
      hide GroupedTo;
      GroupedNone(View());
      for n := 0 to |order|
        invariant GroupedTo(View(), children, n)
      {
        GroupedOne(View(), children, n);
        var id := order[n];
        if id != Root && id != Live {
          var parent := ParentOf(nodes, id);
          children := children[parent := Get(children, parent) + [id]];
        }
      }
    }

    /** Builds the root's subtrees and the paths of everything shown. */
    method BuildTree()
      requires Valid(View())
      modifies this`items, this`paths
      ensures Rebuilt(View(), items, paths)
    {
      var children := GroupByParent();
      var rootChildren := Get(children, Root);
      if Live in nodes || Get(children, Live) != [] {
        rootChildren := rootChildren + [Live];
      }
      GroupedIs(View(), children);
      RootIsPath(View());
      paths := map[Root := [Root]];
      items := BuildList([Root], rootChildren, children);
      RebuiltIs(View(), items, paths);
    }

    /** Searches again and keeps the place in the matches. */
    method RefreshMatches()
      modifies this`matches, this`matchPosition
      ensures Searched() && matchPosition == Carried(old(matches), old(matchPosition), matches)
    {
      var oldMatch := if matchPosition.Some? && matchPosition.value < |matches| then Some(matches[matchPosition.value]) else None;
      matches := [];
      if search != "" {
        if narrative.Some? && narrative.value.text.Some? && contains(narrative.value.text.value, search) {
          matches := matches + [Root];
        }
        for n := 0 to |order|
          invariant matches == Matches(order, paths, NarrativeHit(contains, narrative, search), NodeHit(contains, nodes, search), n)
        {
          if order[n] in paths && order[n] in nodes && contains(nodes[order[n]].content, search) {
            matches := matches + [order[n]];
          }
        }
      }
      matchPosition := match oldMatch case Some(id) => IndexOf(matches, id) case None => None;
    }

    /** Builds the tree anew, keeps the selection if its node is still shown, opens its ancestors and searches again. */
    method Rebuild()
      requires Valid(View()) && selected != [] && IsSorted(IdBefore, order)
      modifies this`items, this`paths, this`expanded, this`selected, this`matches, this`matchPosition
      ensures Consistent()
      ensures expanded == StillOpen(old(expanded), paths) + Ancestors(selected)
      ensures selected == PathOrRoot(paths, Last(old(selected)))
      ensures matchPosition == Carried(old(matches), old(matchPosition), matches)
    {
      hide Valid, Rebuilt, IsConsistent, IsSorted, Ancestors, StillOpen, Searched, Carried, Last;
      var wanted := Last(selected);
      var reopened := set o | o in expanded && o != [] :: Last(o);
      BuildTree();
      SelectionHolds(View(), items, paths, wanted);
      selected := PathOrRoot(paths, wanted);
      var shown := set id | id in reopened && id in paths :: paths[id];
      Reopened(expanded, reopened, paths, shown);
      expanded := shown + Ancestors(selected);
      RefreshMatches();
    }

    /** Selects a shown node, opens its ancestors and takes its place in the matches. */
    method SelectNode(id: Id) returns (found: bool)
      requires Consistent()
      modifies this`expanded, this`selected, this`matchPosition
      ensures Consistent() && found == (id in paths)
      ensures if found then Selects(id) else selected == old(selected)
      ensures found ==> Ancestors(selected) <= expanded
      ensures matchPosition == if found then IndexOf(matches, id) else old(matchPosition)
    {
      hide IsConsistent, IsSorted, Ancestors, Found, Last;
      SelectedElsewhere(View(), items, paths, selected, id);
      if id !in paths {
        return false;
      }
      expanded := expanded + Ancestors(paths[id]);
      selected := paths[id];
      SyncMatch();
      return true;
    }

    /** The selected node's place in the matches is the place of the search. */
    method SyncMatch()
      modifies this`matchPosition
      ensures matchPosition == IndexOf(matches, Last(selected))
    {
      matchPosition := IndexOf(matches, Last(selected));
    }

    /** Selects the most recent shown record, if there is one. */
    method FollowLatest()
      requires Consistent()
      modifies this`expanded, this`selected, this`matchPosition
      ensures Consistent() && selected == Followed(order, nodes, paths, old(selected))
      ensures Newest(order, nodes, paths, |order|).Some? ==> Ancestors(selected) <= expanded
    {
      hide IsConsistent, Ancestors, Newest, Found;
      var newest := FindNewest(order, nodes, paths);
      if newest.Some? {
        var found := SelectNode(order[newest.value]);
      }
    }

    /** Rebuilds the view, selects the newest record if it is followed, and takes the selection's place in the matches. */
    method RebuildAndFollow()
      requires Valid(View()) && selected != [] && IsSorted(IdBefore, order)
      modifies this`items, this`paths, this`expanded, this`selected, this`matches, this`matchPosition
      ensures Consistent() && matchPosition == IndexOf(matches, Last(selected))
      ensures var kept := PathOrRoot(paths, Last(old(selected)));
              selected == if followNewest then Followed(order, nodes, paths, kept) else kept
    {
      hide Valid, IsConsistent, IsSorted, Ancestors, StillOpen, Found, Carried, Last, Followed, Newest;
      Rebuild();
      if followNewest {
        FollowLatest();
      }
      SyncMatch();
    }

    /** Adds or replaces the nodes of a page, new ones at the end; returns whether anything changed and was added. */
    method TakeNodes(page: seq<(Id, Node)>) returns (changed: bool, added: bool)
      requires Valid(View())
      modifies this`nodes, this`order
      ensures Valid(View()) && nodes == Merged(old(nodes), page)
      ensures changed == Differs(old(nodes), page) && (added ==> changed)
      ensures !added ==> order == old(order)
      ensures !changed ==> View() == old(View())
    {
      ghost var start := View();
      changed, added := false, false;
      for k := 0 to |page|
        invariant Distinct(order) && forall id :: id in order <==> id in nodes
        invariant nodes == Merged(start.nodes, page[..k])
        invariant changed <==> exists i :: 0 <= i < k && NodeDiffers(start.nodes, page, i)
        invariant added ==> changed
        invariant !added ==> order == start.order
        invariant !changed ==> View() == start
      {
        assert page[..k + 1][..k] == page[..k];
        var (id, node) := page[k];
        if !(id in nodes && nodes[id] == node) {
          assert NodeDiffers(start.nodes, page, k);
          changed := true;
          if id !in nodes {
            order := order + [id];
            added := true;
          }
          nodes := nodes[id := node];
        } else {
          assert nodes[id := node] == nodes;
        }
      }
      assert page[..|page|] == page;
    }

    /** Takes in the nodes of a page and keeps all nodes in order; returns whether anything changed. */
    method TakeSorted(page: seq<(Id, Node)>) returns (changed: bool)
      requires Valid(View()) && IsSorted(IdBefore, order)
      modifies this`nodes, this`order
      ensures Valid(View()) && IsSorted(IdBefore, order) && nodes == Merged(old(nodes), page)
      ensures changed == Differs(old(nodes), page) && (!changed ==> View() == old(View()))
    {
      hide IdBefore, IsSorted, Merged, Differs;
      var added;
      changed, added := TakeNodes(page);
      if added {
        SortedIds(order);
        order := Sort(IdBefore, order);
      }
    }

    /**
      Takes in a page. If its narrative or a node is new, the nodes are kept in order and the view is
      rebuilt: a node that is still shown stays selected, unless the newest record is followed.
     */
    method Ingest(page: seq<(Id, Node)>, latest: Narrative)
      requires Consistent()
      modifies this
      ensures Consistent() && nodes == Merged(old(nodes), page) && narrative == Some(latest)
      ensures minimum == old(minimum) && followNewest == old(followNewest) && search == old(search)
      ensures var changed := old(narrative) != Some(latest) || Differs(old(nodes), page);
              var kept := PathOrRoot(paths, Last(old(selected)));
              && selected == (if changed && followNewest then Followed(order, nodes, paths, kept) else kept)
              && (if changed then matchPosition == IndexOf(matches, Last(selected))
                  else selected == old(selected) && matchPosition == old(matchPosition))
    {
      hide IdBefore, IsSorted, Merged, Differs, Found, Followed, Valid, IsConsistent, Last, PathOrRoot, IndexOf;
      ConsistentParts(View(), items, paths, selected);
      var changed := narrative != Some(latest);
      narrative := Some(latest);
      var some := TakeSorted(page);
      changed := changed || some;
      if changed {
        RebuildAndFollow();
      }
    }

    /** Changes the importance limit. */
    method SetMinimum(limit: Importance)
      requires Consistent()
      modifies this
      ensures Consistent() && minimum == limit && nodes == old(nodes) && followNewest == old(followNewest)
      ensures var kept := PathOrRoot(paths, Last(old(selected)));
              selected == if followNewest then Followed(order, nodes, paths, kept) else kept
      ensures matchPosition == IndexOf(matches, Last(selected))
    {
      hide IdBefore, IsSorted, Found, Followed, Searched;
      ConsistentParts(View(), items, paths, selected);
      hide Valid, IsConsistent, Last;
      minimum := limit;
      RebuildAndFollow();
    }

    /** Changes the search term; a typed character also jumps to the next match. */
    method EditSearch(term: string, typed: bool)
      requires Consistent()
      modifies this
      ensures Consistent() && search == term && nodes == old(nodes) && paths == old(paths) && narrative == old(narrative)
      ensures minimum == old(minimum) && followNewest == (old(followNewest) && !typed)
      ensures !typed || matches == [] ==> selected == old(selected) && matchPosition == Carried(old(matches), old(matchPosition), matches)
      ensures typed && matches != [] ==>
                var index := JumpIndex(|matches|, Carried(old(matches), old(matchPosition), matches), false);
                index < |matches| && Selects(matches[index]) && matchPosition == IndexOf(matches, matches[index])
    {
      hide IsConsistent, Found;
      search := term;
      RefreshMatches();
      if typed {
        JumpMatch(false);
      }
    }

    /** Selects the next or previous match, going round; stops following the newest record. */
    method JumpMatch(previous: bool)
      requires Consistent()
      modifies this`followNewest, this`expanded, this`selected, this`matchPosition
      ensures Consistent() && !followNewest
      ensures matches == [] ==> selected == old(selected) && matchPosition == old(matchPosition)
      ensures matches != [] ==>
                var index := JumpIndex(|matches|, old(matchPosition), previous);
                && index < |matches| && Selects(matches[index])
                && matchPosition == IndexOf(matches, matches[index])
    {
      hide Valid, Rebuilt, Found, IdBefore, IsSorted, Ancestors, Last;
      followNewest := false;
      if matches == [] {
        return;
      }
      var index := JumpIndex(|matches|, matchPosition, previous);
      FoundAreShown(View(), items, paths, contains, narrative, search, order, nodes, matches[index]);
      hide IsConsistent;
      var found := SelectNode(matches[index]);
    }
  }

  /** A nonempty term finds the narrative's root and the shown nodes that contain it, so whatever is found has a path to select. */
  lemma FoundAreShown(f: Forest, items: seq<Item>, paths: map<Id, seq<Id>>, contains: (string, string) -> bool,
                      narrative: Option<Narrative>, search: string, order: seq<Id>, nodes: map<Id, Node>, id: Id)
    requires Valid(f) && Rebuilt(f, items, paths)
    ensures id in Found(contains, narrative, search, order, nodes, paths) ==> id in paths
    ensures id in Found(contains, narrative, search, order, nodes, paths) <==>
              search != ""
              && ((id == Root && narrative.Some? && narrative.value.text.Some? && contains(narrative.value.text.value, search))
                  || (id in order && id in paths && id in nodes && contains(nodes[id].content, search)))
  {
    assert order[..|order|] == order;
    RootIsShown(f, items, paths);
    MatchesAreShown(order, paths, NarrativeHit(contains, narrative, search), NodeHit(contains, nodes, search), |order|, id);
  }
}
