/**
  Incremental paging of one section: the Host's journal and pages, the console's cursor, backfill
  and merge by stable id, and what the retained items are at any time.
 */
module Paging {
  import opened Options
  import opened HostCommands
  import Sorting

  /** An item with its stable id; `first` and `second` are what its list is sorted by before the id. */
  datatype Entry = Entry(id: nat, first: int, second: int, content: int)

  datatype Page = Page(items: seq<Entry>, nextCursor: nat, beforeCursor: Option<nat>, hasMore: bool)

  /** The last entry of each id. */
  ghost function Fold(entries: seq<Entry>): map<nat, Entry> {
    if entries == [] then map[]
    else
      var last := entries[|entries| - 1];
      Fold(entries[..|entries| - 1])[last.id := last]
  }

  lemma FoldNothing()
    ensures Fold([]) == map[]
  {
  }

  lemma FoldPush(entries: seq<Entry>, e: Entry)
    ensures Fold(entries + [e]) == Fold(entries)[e.id := e]
  {
    assert (entries + [e])[..|entries|] == entries;
  }

  lemma {:induction false} FoldAppend(a: seq<Entry>, b: seq<Entry>)
    ensures Fold(a + b) == Fold(a) + Fold(b)
    decreases |b|
  {
    if b == [] {
      assert a + b == a;
    } else {
      var init := b[..|b| - 1];
      assert a + b == (a + init) + [b[|b| - 1]];
      FoldPush(a + init, b[|b| - 1]);
      FoldAppend(a, init);
    }
  }

  lemma {:induction false} FoldKeys(entries: seq<Entry>, id: nat)
    ensures id in Fold(entries) <==> exists i :: 0 <= i < |entries| && entries[i].id == id
  {
    if entries != [] {
      var last := |entries| - 1;
      FoldKeys(entries[..last], id);
      assert forall i :: 0 <= i < last ==> entries[..last][i] == entries[i];
    }
  }

  // ---------------------------------------------------------------- the Host

  /** Whether no later entry has the same id. */
  predicate IsCurrent(journal: seq<Entry>, i: nat)
    requires i < |journal|
  {
    forall j :: i < j < |journal| ==> journal[j].id != journal[i].id
  }

  /** The positions from `i` on of the current entries, in the order they changed. */
  function CurrentFrom(journal: seq<Entry>, i: nat): (r: seq<nat>)
    requires i <= |journal|
    ensures forall k :: 0 <= k < |r| ==> i <= r[k] < |journal|
    decreases |journal| - i
  {
    if i == |journal| then []
    else (if IsCurrent(journal, i) then [i] else []) + CurrentFrom(journal, i + 1)
  }

  function ItemsAt(journal: seq<Entry>, positions: seq<nat>): (r: seq<Entry>)
    requires forall k :: 0 <= k < |positions| ==> positions[k] < |journal|
    ensures |r| == |positions| && forall k :: 0 <= k < |r| ==> r[k] == journal[positions[k]]
  {
    seq(|positions|, k requires 0 <= k < |positions| => journal[positions[k]])
  }

  function Take(n: nat, limit: nat): nat {
    if n < limit then n else limit
  }

  /** One page; sequence numbers are journal positions counted from one. A cursor past the end is refused. */
  function PageOf(journal: seq<Entry>, limit: nat, query: Cursor): Option<Page> {
    match query
    case After(c) =>
      if c > |journal| then None
      else
        var n := Take(|journal| - c, limit);
        Some(Page(journal[c..c + n], c + n, None, |journal| - c > n))
    case Before(b) =>
      if b > |journal| then None
      else
        var eligible := if b == 0 then 0 else b - 1;
        var n := Take(eligible, limit);
        Some(Page(journal[eligible - n..eligible], |journal|,
                  if n > 0 && eligible > n then Some(eligible - n + 1) else None, eligible > n))
    case Latest =>
      var ordered := CurrentFrom(journal, 0);
      var n := Take(|ordered|, limit);
      var selected := ordered[|ordered| - n..];
      Some(Page(ItemsAt(journal, selected), |journal|,
                if n > 0 && |ordered| > n then Some(selected[0] + 1) else None, |ordered| > n))
  }

  // ---------------------------------------------------------------- merging by stable id

  ghost predicate Distinct(entries: seq<Entry>) {
    forall i, j :: 0 <= i < j < |entries| ==> entries[i].id != entries[j].id
  }

  predicate InOrder(a: Entry, b: Entry) {
    a.first < b.first || (a.first == b.first && (a.second < b.second || (a.second == b.second && a.id <= b.id)))
  }

  ghost predicate Ordered(entries: seq<Entry>) {
    Sorting.IsSorted(InOrder, entries)
  }

  /** The shown list goes up by the first sort key, then the second, then the id. */
  lemma OrderedByKeys(entries: seq<Entry>, i: nat, j: nat)
    requires Ordered(entries) && i < j < |entries|
    ensures var a, b := entries[i], entries[j];
            && a.first <= b.first
            && (a.first == b.first ==> a.second <= b.second)
            && (a.first == b.first && a.second == b.second ==> a.id <= b.id)
  {
    assert InOrder(entries[i], entries[j]);
  }

  /** The position of an id, or the length of the list. */
  method Find(entries: seq<Entry>, id: nat) returns (i: nat)
    ensures i <= |entries| && (i < |entries| ==> entries[i].id == id)
    ensures forall k :: 0 <= k < i ==> entries[k].id != id
  {
    i := 0;
    while i < |entries| && entries[i].id != id
      invariant i <= |entries| && forall k :: 0 <= k < i ==> entries[k].id != id
    {
      i := i + 1;
    }
  }

  /** Replacing the entry of an id, or adding one, changes the fold at that id alone. */
  lemma {:induction false} FoldReplace(entries: seq<Entry>, i: nat, e: Entry)
    requires Distinct(entries) && i < |entries| && entries[i].id == e.id
    ensures Distinct(entries[i := e]) && Fold(entries[i := e]) == Fold(entries)[e.id := e]
  {
    var last := |entries| - 1;
    var init := entries[..last];
    if i < last {
      FoldReplace(init, i, e);
      assert entries[i := e][..last] == init[i := e];
    } else {
      assert entries[i := e][..last] == init;
    }
  }

  /** The retained list in the order it is shown in. */
  function SortEntries(entries: seq<Entry>): seq<Entry> {
    Sorting.Sort(InOrder, entries)
  }

  lemma FoldFront(head: Entry, rest: seq<Entry>)
    ensures Fold([head] + rest) == map[head.id := head] + Fold(rest)
  {
    FoldAppend([head], rest);
    FoldPush([], head);
    assert [] + [head] == [head];
  }

  lemma DistinctFront(head: Entry, rest: seq<Entry>)
    ensures Distinct([head] + rest) <==> Distinct(rest) && forall x :: x in rest ==> x.id != head.id
  {
    var all := [head] + rest;
    if Distinct(all) {
      forall x | x in rest
        ensures x.id != head.id
      {
        var k :| 0 <= k < |rest| && rest[k] == x;
        assert all[k + 1] == x && all[0] == head;
      }
      forall i, j | 0 <= i < j < |rest|
        ensures rest[i].id != rest[j].id
      {
        assert all[i + 1] == rest[i] && all[j + 1] == rest[j];
      }
    } else {
      var i, j :| 0 <= i < j < |all| && all[i].id == all[j].id;
      assert all[j] == rest[j - 1];
      if i > 0 {
        assert all[i] == rest[i - 1];
      }
    }
  }

  lemma {:induction false} InsertDistinct(e: Entry, entries: seq<Entry>)
    requires Distinct(entries) && forall x :: x in entries ==> x.id != e.id
    ensures Distinct(Sorting.Insert(InOrder, e, entries))
  {
    hide Distinct;
    if entries == [] || InOrder(e, entries[0]) {
      DistinctFront(e, entries);
    } else {
      var head, rest := entries[0], entries[1..];
      assert entries == [head] + rest;
      DistinctFront(head, rest);
      InsertDistinct(e, rest);
      forall x | x in Sorting.Insert(InOrder, e, rest)
        ensures x.id != head.id
      {
        Sorting.InsertedIn(InOrder, e, rest, x);
      }
      DistinctFront(head, Sorting.Insert(InOrder, e, rest));
    }
  }

  lemma {:induction false} InsertFold(e: Entry, entries: seq<Entry>)
    requires forall x :: x in entries ==> x.id != e.id
    ensures Fold(Sorting.Insert(InOrder, e, entries)) == Fold(entries)[e.id := e]
  {
    hide Fold;
    if entries == [] || InOrder(e, entries[0]) {
      FoldFront(e, entries);
      FoldKeys(entries, e.id);
    } else {
      var head, rest := entries[0], entries[1..];
      assert entries == [head] + rest;
      InsertFold(e, rest);
      FoldFront(head, rest);
      FoldFront(head, Sorting.Insert(InOrder, e, rest));
      assert head in entries;
    }
  }

  /** Sorting changes neither the ids nor the items. */
  lemma {:induction false} SortKeepsFold(entries: seq<Entry>)
    requires Distinct(entries)
    ensures Distinct(SortEntries(entries)) && Fold(SortEntries(entries)) == Fold(entries)
  {
    if entries != [] {
      var head, rest := entries[0], entries[1..];
      assert entries == [head] + rest;
      SortKeepsFold(rest);
      forall x | x in SortEntries(rest)
        ensures x.id != head.id
      {
        Sorting.SortedIn(InOrder, rest, x);
      }
      InsertDistinct(head, SortEntries(rest));
      InsertFold(head, SortEntries(rest));
      FoldFront(head, rest);
      FoldKeys(rest, head.id);
    }
  }

  lemma SortFold(entries: seq<Entry>)
    requires Distinct(entries)
    ensures Ordered(SortEntries(entries)) && Distinct(SortEntries(entries)) && Fold(SortEntries(entries)) == Fold(entries)
  {
    Sorting.SortOrders(InOrder, entries);
    SortKeepsFold(entries);
  }

  lemma FoldAdd(entries: seq<Entry>, e: Entry)
    requires Distinct(entries) && forall k :: 0 <= k < |entries| ==> entries[k].id != e.id
    ensures Distinct(entries + [e]) && Fold(entries + [e]) == Fold(entries)[e.id := e]
  {
    FoldPush(entries, e);
  }

  lemma OverridePush(older: map<nat, Entry>, newer: map<nat, Entry>, e: Entry)
    ensures (older + newer)[e.id := e] == older + newer[e.id := e]
  {
  }

  /** Replaces or adds each incoming entry, then sorts the list again. */
  method Merge(retained: seq<Entry>, incoming: seq<Entry>) returns (merged: seq<Entry>)
    requires Distinct(retained)
    ensures Distinct(merged) && Ordered(merged)
    ensures Fold(merged) == Fold(retained) + Fold(incoming)
  {
    hide Distinct, Fold, Ordered;
    merged := retained;
    FoldNothing();
    assert incoming[..0] == [];
    for k := 0 to |incoming|
      invariant Distinct(merged)
      invariant Fold(merged) == Fold(retained) + Fold(incoming[..k])
    {
      var e := incoming[k];
      var i := Find(merged, e.id);
      assert incoming[..k + 1] == incoming[..k] + [e];
      FoldPush(incoming[..k], e);
      if i < |merged| {
        FoldReplace(merged, i, e);
        merged := merged[i := e];
      } else {
        FoldAdd(merged, e);
        merged := merged + [e];
      }
      OverridePush(Fold(retained), Fold(incoming[..k]), e);
    }
    assert incoming[..|incoming|] == incoming;
    SortFold(merged);
    merged := SortEntries(merged);
  }

  /** The entries of a page whose id is not retained yet. */
  method Unknown(items: seq<Entry>, retained: seq<Entry>) returns (unknown: seq<Entry>)
    ensures Fold(retained) + Fold(unknown) == Fold(items) + Fold(retained)
  {
    unknown := [];
    assert items[..0] == [];
    for k := 0 to |items|
      invariant forall id :: id in Fold(unknown) <==> id in Fold(items[..k]) && id !in Fold(retained)
      invariant forall id :: id in Fold(unknown) ==> Fold(unknown)[id] == Fold(items[..k])[id]
    {
      var e := items[k];
      var i := Find(retained, e.id);
      assert items[..k + 1] == items[..k] + [e];
      FoldPush(items[..k], e);
      FoldKeys(retained, e.id);
      if i == |retained| {
        FoldPush(unknown, e);
        unknown := unknown + [e];
      }
    }
    assert items[..|items|] == items;
  }

  // ---------------------------------------------------------------- the console's reducer

  datatype Reply = Fresh(page: Page) | NotModified | Failed

  /** The cursors of one section and its retained items by id. */
  datatype Client = Client(cursor: Option<nat>, before: Option<nat>, items: map<nat, Entry>)

  /** The page the section asks for next. */
  function NextQuery(c: Client): Cursor {
    CursorOf(c.before, c.cursor)
  }

  /** What a reply changes; a backfill page never replaces an item that is already retained. */
  ghost function Reduced(c: Client, reply: Reply): Client {
    match reply
    case Fresh(page) =>
      var backfill, initial := c.before.Some?, c.cursor.None?;
      Client(if initial || !backfill then Some(page.nextCursor) else c.cursor,
             if (initial || backfill) && page.hasMore then page.beforeCursor else None,
             if backfill then Fold(page.items) + c.items else c.items + Fold(page.items))
    case _ => c
  }

  class SectionView {
    var cursor: Option<nat>
    var before: Option<nat>
    var retained: seq<Entry>

    ghost predicate Valid()
      reads this
    {
      Distinct(retained) && Ordered(retained)
    }

    ghost function View(): Client
      reads this
    {
      Client(cursor, before, Fold(retained))
    }

    constructor ()
      ensures Valid() && View() == Client(None, None, map[])
    {
      cursor, before, retained := None, None, [];
    }

    /** Applies an accepted reply; returns whether another page is asked for at once. */
    method Reduce(reply: Reply) returns (continuePaging: bool)
      requires Valid()
      modifies this
      ensures Valid() && View() == old(Reduced(View(), reply))
      ensures continuePaging <==> reply.Fresh? && (reply.page.hasMore || old(before.Some?))
    {
      if !reply.Fresh? {
        return false;
      }
      var page := reply.page;
      var backfill := before.Some?;
      var initial := cursor.None?;
      var hasMore := page.hasMore;
      if initial || !backfill {
        cursor := Some(page.nextCursor);
      }
      before := if (initial || backfill) && hasMore then page.beforeCursor else None;
      var items := page.items;
      if backfill {
        items := Unknown(items, retained);
      }
      retained := Merge(retained, items);
      return hasMore || backfill;
    }
  }

  // ---------------------------------------------------------------- runs

  datatype World = World(journal: seq<Entry>, client: Client)

  /** The Host appends an entry, or the console takes the reply the Host gave at some earlier or current length. */
  datatype Event = Append(entry: Entry) | Poll(version: nat, limit: nat) | NoNews

  ghost function ReplyAt(journal: seq<Entry>, version: nat, limit: nat, query: Cursor): Reply
    requires version <= |journal|
  {
    match PageOf(journal[..version], limit, query) case Some(page) => Fresh(page) case None => Failed
  }

  ghost function Next(w: World, event: Event): World {
    match event
    case Append(e) => w.(journal := w.journal + [e])
    case Poll(version, limit) =>
      if version > |w.journal| || limit == 0 then w
      else w.(client := Reduced(w.client, ReplyAt(w.journal, version, limit, NextQuery(w.client))))
    case NoNews => w.(client := Reduced(w.client, NotModified))
  }

  ghost function RunEvents(events: seq<Event>): World {
    if events == [] then World.World([], Client(None, None, map[]))
    else Next(RunEvents(events[..|events| - 1]), events[|events| - 1])
  }

  /** The last entry of each id among the positions `a` up to `c`. */
  ghost function Range(journal: seq<Entry>, a: nat, c: nat): map<nat, Entry>
    requires a <= c <= |journal|
  {
    Fold(journal[a..c])
  }

  lemma RangePrefix(journal: seq<Entry>, version: nat, a: nat, c: nat)
    requires a <= c <= version <= |journal|
    ensures Range(journal[..version], a, c) == Range(journal, a, c)
  {
    assert journal[..version][a..c] == journal[a..c];
  }

  lemma RangeGrown(journal: seq<Entry>, e: Entry, a: nat, c: nat)
    requires a <= c <= |journal|
    ensures Range(journal + [e], a, c) == Range(journal, a, c)
  {
    assert (journal + [e])[a..c] == journal[a..c];
  }

  lemma RangeJoin(journal: seq<Entry>, a: nat, b: nat, c: nat)
    requires a <= b <= c <= |journal|
    ensures Range(journal, a, c) == Range(journal, a, b) + Range(journal, b, c)
  {
    assert journal[a..c] == journal[a..b] + journal[b..c];
    FoldAppend(journal[a..b], journal[b..c]);
  }

  /** The retained items are the journal's entries from the pending backfill boundary up to the forward cursor, latest per id. */
  ghost predicate Faithful(w: World) {
    match w.client.cursor
    case None => w.client.before.None? && w.client.items == map[]
    case Some(c) =>
      && c <= |w.journal|
      && match w.client.before
         case None => w.client.items == Range(w.journal, 0, c)
         case Some(b) => 1 <= b <= c && w.client.items == Range(w.journal, b - 1, c)
  }

  lemma {:induction false} CurrentSuffix(journal: seq<Entry>, i: nat, k: nat)
    requires i <= |journal| && k < |CurrentFrom(journal, i)|
    ensures CurrentFrom(journal, i)[k..] == CurrentFrom(journal, CurrentFrom(journal, i)[k])
    decreases |journal| - i
  {
    var r := CurrentFrom(journal, i);
    if IsCurrent(journal, i) {
      if k > 0 {
        assert r == [i] + CurrentFrom(journal, i + 1);
        assert r[k..] == CurrentFrom(journal, i + 1)[k - 1..];
        CurrentSuffix(journal, i + 1, k - 1);
      }
    } else {
      CurrentSuffix(journal, i + 1, k);
    }
  }

  lemma ItemsFront(journal: seq<Entry>, i: nat, rest: seq<nat>)
    requires i < |journal| && forall k :: 0 <= k < |rest| ==> rest[k] < |journal|
    ensures ItemsAt(journal, [i] + rest) == [journal[i]] + ItemsAt(journal, rest)
  {
  }

  lemma RangeFront(journal: seq<Entry>, i: nat)
    requires i < |journal|
    ensures Range(journal, i, |journal|) == map[journal[i].id := journal[i]] + Range(journal, i + 1, |journal|)
    ensures !IsCurrent(journal, i) ==> Range(journal, i, |journal|) == Range(journal, i + 1, |journal|)
  {
    var e, rest := journal[i], journal[i + 1..|journal|];
    assert journal[i..|journal|] == [e] + rest;
    FoldFront(e, rest);
    if !IsCurrent(journal, i) {
      var j :| i < j < |journal| && journal[j].id == e.id;
      assert rest[j - i - 1] == journal[j];
      FoldKeys(rest, e.id);
    }
  }

  /** The current entries from a position on fold to the same items as everything from there on. */
  lemma {:induction false} CurrentFold(journal: seq<Entry>, i: nat)
    requires i <= |journal|
    ensures Fold(ItemsAt(journal, CurrentFrom(journal, i))) == Range(journal, i, |journal|)
    decreases |journal| - i
  {
    if i == |journal| {
      assert journal[i..|journal|] == [];
      assert ItemsAt(journal, CurrentFrom(journal, i)) == [];
    } else {
      var rest := CurrentFrom(journal, i + 1);
      assert CurrentFrom(journal, i) == if IsCurrent(journal, i) then [i] + rest else rest;
      hide Fold, Range, IsCurrent, CurrentFrom;
      CurrentFold(journal, i + 1);
      RangeFront(journal, i);
      if IsCurrent(journal, i) {
        ItemsFront(journal, i, rest);
        FoldFront(journal[i], ItemsAt(journal, rest));
      }
    }
  }

  /** The first page holds the current items that changed at or after its boundary. */
  lemma LatestPage(journal: seq<Entry>, limit: nat)
    requires limit > 0
    ensures var page := PageOf(journal, limit, Latest).value;
            && page.nextCursor == |journal|
            && (if page.hasMore
                then page.beforeCursor.Some? && 1 <= page.beforeCursor.value <= |journal|
                     && Fold(page.items) == Range(journal, page.beforeCursor.value - 1, |journal|)
                else page.beforeCursor.None? && Fold(page.items) == Range(journal, 0, |journal|))
  {
    hide Fold, Range, IsCurrent, CurrentFrom;
    var ordered := CurrentFrom(journal, 0);
    var n := Take(|ordered|, limit);
    var selected := ordered[|ordered| - n..];
    CurrentFold(journal, 0);
    if |ordered| > n {
      CurrentSuffix(journal, 0, |ordered| - n);
      assert selected[0] == ordered[|ordered| - n];
      CurrentFold(journal, selected[0]);
    } else {
      assert selected == ordered;
    }
  }

  lemma LatestKeeps(w: World, version: nat, limit: nat)
    requires Faithful(w) && w.client.cursor.None? && version <= |w.journal| && limit > 0
    ensures Faithful(Next(w, Poll(version, limit)))
  {
    hide Range, Fold;
    var j := w.journal[..version];
    var page := PageOf(j, limit, Latest).value;
    LatestPage(j, limit);
    hide PageOf;
    RangePrefix(w.journal, version, if page.hasMore then page.beforeCursor.value - 1 else 0, version);
    assert map[] + Fold(page.items) == Fold(page.items);
  }

  lemma RangeIsFold(journal: seq<Entry>, a: nat, c: nat)
    requires a <= c <= |journal|
    ensures Fold(journal[a..c]) == Range(journal, a, c)
  {
  }

  lemma AfterKeeps(w: World, version: nat, limit: nat)
    requires Faithful(w) && w.client.cursor.Some? && w.client.before.None? && version <= |w.journal| && limit > 0
    ensures Faithful(Next(w, Poll(version, limit)))
  {
    hide Range, Fold, CurrentFrom;
    var j, c := w.journal[..version], w.client.cursor.value;
    if c <= version {
      var n := Take(version - c, limit);
      RangeIsFold(j, c, c + n);
      RangePrefix(w.journal, version, c, c + n);
      RangeJoin(w.journal, 0, c, c + n);
    }
  }

  lemma BackfillKeeps(w: World, version: nat, limit: nat)
    requires Faithful(w) && w.client.cursor.Some? && w.client.before.Some? && version <= |w.journal| && limit > 0
    ensures Faithful(Next(w, Poll(version, limit)))
  {
    hide Range, Fold, CurrentFrom;
    var j, c, b := w.journal[..version], w.client.cursor.value, w.client.before.value;
    if b <= version {
      var n := Take(b - 1, limit);
      var start := b - 1 - n;
      RangeIsFold(j, start, b - 1);
      RangePrefix(w.journal, version, start, b - 1);
      RangeJoin(w.journal, start, b - 1, c);
    }
  }

  lemma AppendKeeps(w: World, e: Entry)
    requires Faithful(w)
    ensures Faithful(Next(w, Append(e)))
  {
    if w.client.cursor.Some? {
      RangeGrown(w.journal, e, if w.client.before.Some? then w.client.before.value - 1 else 0, w.client.cursor.value);
    }
  }

  /** Over every run: appends and polls in any interleaving keep the retained items faithful. */
  lemma {:induction false} AlwaysFaithful(events: seq<Event>)
    ensures Faithful(RunEvents(events))
  {
    if events != [] {
      var w, event := RunEvents(events[..|events| - 1]), events[|events| - 1];
      AlwaysFaithful(events[..|events| - 1]);
      match event
      case Append(e) => AppendKeeps(w, e);
      case NoNews =>
      case Poll(version, limit) =>
        if version <= |w.journal| && limit > 0 {
          if w.client.cursor.None? {
            LatestKeeps(w, version, limit);
          } else if w.client.before.None? {
            AfterKeeps(w, version, limit);
          } else {
            BackfillKeeps(w, version, limit);
          }
        }
    }
  }

  /** With no backfill pending, nothing up to the cursor is missing. */
  lemma NothingMissing(events: seq<Event>)
    ensures var w := RunEvents(events);
            w.client.cursor.Some? && w.client.before.None? ==>
              w.client.cursor.value <= |w.journal| && w.client.items == Range(w.journal, 0, w.client.cursor.value)
  {
    AlwaysFaithful(events);
  }

  // ---------------------------------------------------------------- convergence

  /** What is left to fetch once the journal stops growing. */
  ghost function Remaining(w: World): nat
    requires Faithful(w)
  {
    match w.client.cursor
    case None => |w.journal| + 1
    case Some(c) => |w.journal| - c + if w.client.before.Some? then w.client.before.value else 0
  }

  lemma PollKeeps(w: World, version: nat, limit: nat)
    requires Faithful(w) && version <= |w.journal| && limit > 0
    ensures Faithful(Next(w, Poll(version, limit)))
  {
    if w.client.cursor.None? {
      LatestKeeps(w, version, limit);
    } else if w.client.before.None? {
      AfterKeeps(w, version, limit);
    } else {
      BackfillKeeps(w, version, limit);
    }
  }

  /** Every answered poll of the current journal makes progress until nothing is left. */
  lemma PollAdvances(w: World, limit: nat)
    requires Faithful(w) && limit > 0
    ensures Faithful(Next(w, Poll(|w.journal|, limit)))
    ensures Next(w, Poll(|w.journal|, limit)).journal == w.journal
    ensures Remaining(w) > 0 ==> Remaining(Next(w, Poll(|w.journal|, limit))) < Remaining(w)
    ensures Remaining(w) == 0 ==> Remaining(Next(w, Poll(|w.journal|, limit))) == 0
  {
    PollKeeps(w, |w.journal|, limit);
    assert w.journal[..|w.journal|] == w.journal;
    hide Range, Fold;
    if w.client.cursor.None? {
      LatestPage(w.journal, limit);
    }
  }

  /** The state after `polls` answered polls of an unchanged journal. */
  ghost function Polled(w: World, limits: seq<nat>): World {
    if limits == [] then w
    else
      var z := Polled(w, limits[..|limits| - 1]);
      Next(z, Poll(|z.journal|, limits[|limits| - 1]))
  }

  lemma {:induction false} PollsAdvance(w: World, limits: seq<nat>)
    requires Faithful(w) && forall i :: 0 <= i < |limits| ==> limits[i] > 0
    ensures Faithful(Polled(w, limits)) && Polled(w, limits).journal == w.journal
    ensures Remaining(Polled(w, limits)) <= if |limits| <= Remaining(w) then Remaining(w) - |limits| else 0
  {
    if limits != [] {
      hide Next, Faithful, Remaining;
      var init := limits[..|limits| - 1];
      PollsAdvance(w, init);
      PollAdvances(Polled(w, init), limits[|limits| - 1]);
    }
  }

  /**
    Once the journal stops growing, at most one poll more than it has entries brings the section to
    the whole journal: no backfill pending, the cursor at the end, the items those of the Host.
   */
  lemma PagingConverges(events: seq<Event>, limits: seq<nat>)
    requires forall i :: 0 <= i < |limits| ==> limits[i] > 0
    requires |limits| > |RunEvents(events).journal|
    ensures var w := RunEvents(events); var z := Polled(w, limits);
            && z.journal == w.journal && z.client.before.None?
            && z.client.cursor == Some(|w.journal|) && z.client.items == Fold(w.journal)
  {
    hide RunEvents, Polled, Next, Fold;
    var w := RunEvents(events);
    AlwaysFaithful(events);
    assert Remaining(w) <= |w.journal| + 1;
    PollsAdvance(w, limits);
    assert w.journal[0..|w.journal|] == w.journal;
  }

  lemma {:induction false} SameItemsSameList(a: seq<Entry>, b: seq<Entry>)
    requires Distinct(a) && Ordered(a) && Distinct(b) && Ordered(b)
    requires forall e :: e in a <==> e in b
    ensures a == b
  {
    SomeMember(a);
    SomeMember(b);
    if a != [] && b != [] {
      assert a[0] in b && b[0] in a;
      assert InOrder(a[0], b[0]) && InOrder(b[0], a[0]);
      assert a[0].id == b[0].id;
      SameHead(a, b);
      DropFirst(a);
      DropFirst(b);
      SameItemsSameList(a[1..], b[1..]);
    }
  }

  lemma SomeMember(a: seq<Entry>)
    ensures a != [] <==> exists e :: e in a
  {
    if a != [] {
      assert a[0] in a;
    }
  }

  lemma SameHead(a: seq<Entry>, b: seq<Entry>)
    requires a != [] && b != [] && Distinct(a) && Distinct(b) && a[0].id == b[0].id
    requires forall e :: e in a <==> e in b
    ensures a[0] == b[0]
    ensures forall e :: e in a[1..] <==> e in b[1..]
  {
    assert a[0] in b;
    assert a == [a[0]] + a[1..] && b == [b[0]] + b[1..];
    DistinctFront(a[0], a[1..]);
    DistinctFront(b[0], b[1..]);
    forall e
      ensures e in a[1..] <==> e in b[1..]
    {
      assert e in a <==> e == a[0] || e in a[1..];
      assert e in b <==> e == b[0] || e in b[1..];
    }
  }

  lemma DropFirst(a: seq<Entry>)
    requires a != [] && Distinct(a) && Ordered(a)
    ensures Distinct(a[1..]) && Ordered(a[1..])
  {
    forall i, j | 0 <= i < j < |a| - 1
      ensures a[1..][i].id != a[1..][j].id && InOrder(a[1..][i], a[1..][j])
    {
      assert a[1..][i] == a[i + 1] && a[1..][j] == a[j + 1];
    }
  }

  lemma {:induction false} FoldMembers(entries: seq<Entry>, e: Entry)
    requires Distinct(entries)
    ensures e in entries <==> e.id in Fold(entries) && Fold(entries)[e.id] == e
  {
    if entries != [] {
      var init, last := entries[..|entries| - 1], entries[|entries| - 1];
      assert entries == init + [last];
      FoldMembers(init, e);
      if e in init {
        var k :| 0 <= k < |init| && init[k] == e;
        assert entries[k] == e;
      }
    }
  }

  /** Valid lists with the same items are the same list: what is shown does not depend on how it arrived. */
  lemma ShownListIsDetermined(a: seq<Entry>, b: seq<Entry>)
    requires Distinct(a) && Ordered(a) && Distinct(b) && Ordered(b) && Fold(a) == Fold(b)
    ensures a == b
  {
    forall e
      ensures e in a <==> e in b
    {
      FoldMembers(a, e);
      FoldMembers(b, e);
    }
    SameItemsSameList(a, b);
  }
}
