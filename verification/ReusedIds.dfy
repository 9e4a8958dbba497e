/**
  What happens when an id is in use twice: a section takes in a page that its cursors do not call for.
  When that keeps what is retained faithful, and how it loses items otherwise.
 */
module ReusedIds {
  import opened Options
  import opened HostCommands
  import opened Workers
  import opened Pipeline
  import opened RunPolls
  import opened SectionRequests
  import opened PagedRequests
  import Paging

  type Items = map<nat, Paging.Entry>

  // ---------------------------------------------------------------- any page

  /** What a page holds, the journal's entries `from` up to `to`, and the cursor and the boundary it hands out. */
  datatype Extent = Extent(from: nat, to: nat, next: nat, boundary: Option<nat>)

  /** Where the retained items start once a page has handed out its boundary. */
  function StartOf(boundary: Option<nat>): nat {
    if boundary.Some? && boundary.value > 0 then boundary.value - 1 else 0
  }

  lemma PageParts(j: seq<Paging.Entry>, limit: nat, query: Cursor)
    requires limit > 0
    ensures match Paging.PageOf(j, limit, query)
            case None => true
            case Some(page) =>
              var boundary := if page.hasMore then page.beforeCursor else None;
              match query
              case After(k) => k <= page.nextCursor <= |j| && boundary.None?
              case Before(b) =>
                && |page.items| <= StartOf(Some(b)) <= page.nextCursor == |j|
                && (boundary.Some? ==> |page.items| > 0 && boundary.value == StartOf(Some(b)) - |page.items| + 1)
              case Latest => boundary.Some? ==> 1 <= boundary.value <= |j|
  {
    hide Paging.CurrentFrom, Paging.ItemsAt, Paging.Fold, Paging.Range;
    if query.Latest? {
      hide Paging.PageOf;
      Paging.LatestPage(j, limit);
    }
  }

  /** The page the Host gives at a length of the journal; a cursor past its end is refused. */
  ghost function ExtentOf(journal: seq<Paging.Entry>, version: nat, limit: nat, query: Cursor): (r: Option<Extent>)
    requires version <= |journal| && limit > 0
    ensures r.Some? ==> InJournal(r.value, version)
  {
    hide Paging.PageOf;
    PageParts(journal[..version], limit, query);
    match Paging.PageOf(journal[..version], limit, query)
    case None => None
    case Some(page) =>
      var boundary := if page.hasMore then page.beforeCursor else None;
      match query
      case After(k) => Some(Extent(k, page.nextCursor, page.nextCursor, boundary))
      case Before(b) => Some(Extent(StartOf(Some(b)) - |page.items|, StartOf(Some(b)), page.nextCursor, boundary))
      case Latest => Some(Extent(StartOf(boundary), version, version, boundary))
  }

  ghost predicate InJournal(e: Extent, version: nat) {
    && StartOf(e.boundary) <= e.from <= e.to <= e.next <= version
    && (e.boundary.Some? ==> 1 <= e.boundary.value <= e.to)
  }

  /** `kept` holds every item of `changed` that `page` lacks, as it is there. */
  ghost predicate Covered(changed: Items, page: Items, kept: Items) {
    forall id :: id in changed && id !in page ==> id in kept && kept[id] == changed[id]
  }

  /** A first page must hold all that its cursor and its boundary promise. */
  ghost predicate FirstFits(j: seq<Paging.Entry>, e: Extent)
    requires InJournal(e, |j|)
  {
    var page := Paging.Range(j, e.from, e.to);
    && (forall id :: id in Paging.Range(j, StartOf(e.boundary), e.from) ==> id in page || id in Paging.Range(j, e.to, e.next))
    && Covered(Paging.Range(j, e.to, e.next), map[], page)
  }

  /**
    Without a backfill pending, the page's items must not have changed up to the cursor it hands out,
    and items that changed between the two cursors must be on it or be the same before and after.
   */
  ghost predicate ForwardFits(j: seq<Paging.Entry>, c: nat, e: Extent)
    requires c <= |j| && InJournal(e, |j|)
  {
    var page := Paging.Range(j, e.from, e.to);
    && (forall id :: id in Paging.Range(j, e.to, e.next) && id in page ==> page[id] == Paging.Range(j, e.to, e.next)[id])
    && if c <= e.next then Covered(Paging.Range(j, c, e.next), page, Paging.Range(j, 0, c))
       else Covered(Paging.Range(j, e.next, c), page, Paging.Range(j, 0, e.next))
  }

  /**
    With a backfill pending from `a` on, the page must bring exactly what is between its boundary and
    `a` and not retained; a boundary after `a` must not leave out a retained item.
   */
  ghost predicate BackfillFits(j: seq<Paging.Entry>, a: nat, c: nat, e: Extent)
    requires a <= c <= |j| && InJournal(e, |j|)
  {
    var page, kept, start := Paging.Range(j, e.from, e.to), Paging.Range(j, a, c), StartOf(e.boundary);
    && (e.boundary.Some? ==> e.boundary.value <= c)
    && if start <= a then
         Covered(page, kept, Paging.Range(j, start, a)) && Covered(Paging.Range(j, start, a), kept, page)
       else
         (forall id :: id in Paging.Range(j, a, start) ==> id in Paging.Range(j, start, c)) && (forall id :: id in page ==> id in kept)
  }

  /** The condition for the answer to a query, by what the section retains. */
  ghost predicate Harmless(w: Paging.World, query: Cursor, version: nat, limit: nat)
    requires version <= |w.journal| && limit > 0
  {
    match ExtentOf(w.journal, version, limit, query)
    case None => true
    case Some(e) =>
      match w.client.cursor
      case None => FirstFits(w.journal, e)
      case Some(c) =>
        c <= |w.journal| &&
        match w.client.before
        case None => ForwardFits(w.journal, c, e)
        case Some(b) => 1 <= b <= c && BackfillFits(w.journal, b - 1, c, e)
  }

  lemma FirstMaps(front: Items, page: Items, later: Items)
    ensures page == front + page + later
       <==> (forall id :: id in front ==> id in page || id in later) && Covered(later, map[], page)
  {
    var whole := front + page + later;
    if page == whole {
      forall id | id in front
        ensures id in page || id in later
      {
        assert id in whole;
      }
      forall id | id in later
        ensures id in page && page[id] == later[id]
      {
        assert id in whole && whole[id] == later[id];
      }
    }
  }

  /** `whole` is what is retained before, the page and what changed after it; `kept` is shorter or longer by `between`. */
  lemma ForwardMaps(front: Items, page: Items, later: Items, kept: Items, between: Items, whole: Items, forward: bool)
    requires whole == front + page + later
    requires if forward then whole == kept + between else kept == whole + between
    ensures kept + page == whole
       <==> (forall id :: id in later && id in page ==> page[id] == later[id])
            && Covered(between, page, if forward then kept else whole)
  {
    var taken := kept + page;
    if taken == whole {
      forall id | id in later && id in page
        ensures page[id] == later[id]
      {
        assert taken[id] == page[id] && whole[id] == later[id];
      }
      var base := if forward then kept else whole;
      forall id | id in between && id !in page
        ensures id in base && base[id] == between[id]
      {
        assert id in taken && taken[id] == kept[id] && whole[id] == taken[id];
      }
    }
  }

  lemma LowerMaps(page: Items, kept: Items, front: Items)
    ensures page + kept == front + kept <==> Covered(page, kept, front) && Covered(front, kept, page)
  {
    var taken, whole := page + kept, front + kept;
    if taken == whole {
      forall id | id in page && id !in kept
        ensures id in front && front[id] == page[id]
      {
        assert id in taken && id in whole && taken[id] == whole[id];
      }
      forall id | id in front && id !in kept
        ensures id in page && page[id] == front[id]
      {
        assert id in taken && id in whole && taken[id] == whole[id];
      }
    }
  }

  lemma UpperMaps(page: Items, front: Items, whole: Items)
    ensures page + (front + whole) == whole
       <==> (forall id :: id in front ==> id in whole) && (forall id :: id in page ==> id in front + whole)
  {
    var taken := page + (front + whole);
    if taken == whole {
      forall id | id in front
        ensures id in whole
      {
        assert id in taken;
      }
      forall id | id in page
        ensures id in front + whole
      {
        assert id in taken;
      }
    }
  }

  lemma FirstPageFits(j: seq<Paging.Entry>, e: Extent)
    requires InJournal(e, |j|)
    ensures Paging.Range(j, e.from, e.to) == Paging.Range(j, StartOf(e.boundary), e.next) <==> FirstFits(j, e)
  {
    hide Paging.Range;
    Paging.RangeJoin(j, StartOf(e.boundary), e.from, e.to);
    Paging.RangeJoin(j, StartOf(e.boundary), e.to, e.next);
    FirstMaps(Paging.Range(j, StartOf(e.boundary), e.from), Paging.Range(j, e.from, e.to), Paging.Range(j, e.to, e.next));
  }

  lemma ForwardPageFits(j: seq<Paging.Entry>, c: nat, e: Extent)
    requires c <= |j| && InJournal(e, |j|)
    ensures Paging.Range(j, 0, c) + Paging.Range(j, e.from, e.to) == Paging.Range(j, 0, e.next) <==> ForwardFits(j, c, e)
  {
    hide Paging.Range, Covered;
    Paging.RangeJoin(j, 0, e.from, e.to);
    Paging.RangeJoin(j, 0, e.to, e.next);
    var forward := c <= e.next;
    var between: Items;
    if forward {
      Paging.RangeJoin(j, 0, c, e.next);
      between := Paging.Range(j, c, e.next);
    } else {
      Paging.RangeJoin(j, 0, e.next, c);
      between := Paging.Range(j, e.next, c);
    }
    ForwardMaps(Paging.Range(j, 0, e.from), Paging.Range(j, e.from, e.to), Paging.Range(j, e.to, e.next),
                Paging.Range(j, 0, c), between, Paging.Range(j, 0, e.next), forward);
  }

  lemma BackfillPageFits(j: seq<Paging.Entry>, a: nat, c: nat, e: Extent)
    requires a < c <= |j| && InJournal(e, |j|)
    ensures (e.boundary.Some? ==> e.boundary.value <= c)
            && Paging.Range(j, e.from, e.to) + Paging.Range(j, a, c) == Paging.Range(j, StartOf(e.boundary), c)
       <==> BackfillFits(j, a, c, e)
  {
    hide Paging.Range, Covered;
    var start := StartOf(e.boundary);
    if start <= a {
      Paging.RangeJoin(j, start, a, c);
      LowerMaps(Paging.Range(j, e.from, e.to), Paging.Range(j, a, c), Paging.Range(j, start, a));
    } else if e.boundary.value <= c {
      Paging.RangeJoin(j, a, start, c);
      UpperMaps(Paging.Range(j, e.from, e.to), Paging.Range(j, a, start), Paging.Range(j, start, c));
    }
  }

  /** What a section makes of a page: what it holds, and its cursor and boundary. */
  lemma TakenPage(w: Paging.World, query: Cursor, version: nat, limit: nat)
    requires version <= |w.journal| && limit > 0
    ensures var z, c := Taken(w, query, PageAt(version, limit)), w.client;
            match ExtentOf(w.journal, version, limit, query)
            case None => z == w
            case Some(e) =>
              var page := Paging.Range(w.journal, e.from, e.to);
              && z.journal == w.journal
              && z.client == Paging.Client(if c.cursor.Some? && c.before.Some? then c.cursor else Some(e.next),
                                           if c.cursor.None? || c.before.Some? then e.boundary else None,
                                           if c.before.Some? then page + c.items else c.items + page)
  {
    hide ExtentOf, Paging.Fold, Paging.Range, Paging.PageOf;
    PageHolds(w.journal, version, limit, query);
  }

  /** The page at a length of the journal has its extent. */
  lemma PageHolds(journal: seq<Paging.Entry>, version: nat, limit: nat, query: Cursor)
    requires version <= |journal| && limit > 0
    ensures match ExtentOf(journal, version, limit, query)
            case None => Paging.PageOf(journal[..version], limit, query).None?
            case Some(e) =>
              var r := Paging.PageOf(journal[..version], limit, query);
              && r.Some? && r.value.nextCursor == e.next && (if r.value.hasMore then r.value.beforeCursor else None) == e.boundary
              && Paging.Fold(r.value.items) == Paging.Range(journal, e.from, e.to)
  {
    var j := journal[..version];
    hide Paging.Fold, Paging.CurrentFrom;
    if query.Latest? {
      hide Paging.Range;
      Paging.LatestPage(j, limit);
      Paging.RangePrefix(journal, version, ExtentOf(journal, version, limit, query).value.from, version);
    } else {
      SliceHolds(journal, version, limit, query);
    }
  }

  lemma SliceHolds(journal: seq<Paging.Entry>, version: nat, limit: nat, query: Cursor)
    requires version <= |journal| && limit > 0 && !query.Latest?
    ensures match ExtentOf(journal, version, limit, query)
            case None => Paging.PageOf(journal[..version], limit, query).None?
            case Some(e) =>
              var r := Paging.PageOf(journal[..version], limit, query);
              r.Some? && r.value.nextCursor == e.next && r.value.items == journal[e.from..e.to]
  {
    match ExtentOf(journal, version, limit, query)
    case None =>
    case Some(e) => assert journal[..version][e.from..e.to] == journal[e.from..e.to];
  }

  /**
    The answer to any query, of the journal as it was at any time, keeps what is retained faithful if
    and only if it is harmless.
   */
  lemma AnyPage(w: Paging.World, query: Cursor, version: nat, limit: nat)
    requires Paging.Faithful(w) && version <= |w.journal| && limit > 0
    ensures Paging.Faithful(Taken(w, query, PageAt(version, limit))) <==> Harmless(w, query, version, limit)
  {
    hide Taken, ExtentOf, Paging.Range, FirstFits, ForwardFits, BackfillFits;
    TakenPage(w, query, version, limit);
    match ExtentOf(w.journal, version, limit, query)
    case None =>
    case Some(e) =>
      match w.client.cursor
      case None =>
        FirstPageFits(w.journal, e);
        var page := Paging.Range(w.journal, e.from, e.to);
        assert w.client.items + page == page;
      case Some(c) =>
        match w.client.before
        case None => ForwardPageFits(w.journal, c, e);
        case Some(b) => BackfillPageFits(w.journal, b - 1, c, e);
  }

  /**
    A section past its first page and with no backfill pending stays faithful when it takes in the
    newest page once more if and only if each item that changed between its cursor and the page has
    changed again since or changed to what it was.
   */
  lemma NewestOnceMore(w: Paging.World, version: nat, limit: nat)
    requires Paging.Faithful(w) && w.client.cursor.Some? && w.client.before.None? && limit > 0
    requires w.client.cursor.value <= version <= |w.journal|
    ensures var j, c, r := w.journal, w.client.cursor.value, ExtentOf(w.journal, version, limit, Latest);
            && r.Some?
            && (Paging.Faithful(Taken(w, Latest, PageAt(version, limit)))
                <==> c < r.value.from ==>
                       Covered(Paging.Range(j, c, r.value.from), Paging.Range(j, r.value.from, version), Paging.Range(j, 0, c)))
  {
    NewestExtent(w.journal, version, limit);
    hide ExtentOf, Taken, Covered, ForwardFits, Paging.Range, Paging.Faithful;
    AnyPage(w, Latest, version, limit);
    NewestFits(w.journal, w.client.cursor.value, ExtentOf(w.journal, version, limit, Latest).value);
  }

  lemma NewestExtent(j: seq<Paging.Entry>, version: nat, limit: nat)
    requires version <= |j| && limit > 0
    ensures var r := ExtentOf(j, version, limit, Latest); r.Some? && r.value.to == r.value.next == version
  {
  }

  lemma NewestFits(j: seq<Paging.Entry>, c: nat, e: Extent)
    requires InJournal(e, |j|) && c <= e.next == e.to
    ensures ForwardFits(j, c, e)
       <==> (c < e.from ==> Covered(Paging.Range(j, c, e.from), Paging.Range(j, e.from, e.to), Paging.Range(j, 0, c)))
  {
    NothingAfter(j, e.to);
    hide Paging.Range;
    if c < e.from {
      Paging.RangeJoin(j, c, e.from, e.to);
    } else {
      Paging.RangeJoin(j, e.from, c, e.to);
    }
  }

  lemma NothingAfter(j: seq<Paging.Entry>, version: nat)
    requires version <= |j|
    ensures Paging.Range(j, version, version) == map[]
  {
  }

  // ---------------------------------------------------------------- over whole runs

  /** The page an event brings to the section, if any: its query and what the Host answered. */
  ghost predicate TakesPage(c: Console, e: Event) {
    && e.ReadAnswer? && AcceptsFirst(c) && e.answer.PageAt?
    && e.answer.version <= |c.world.journal| && e.answer.limit > 0
  }

  /** A page that is not called for is harmless. */
  ghost predicate HarmlessEvent(c: Console, e: Event) {
    TakesPage(c, e) && c.system.pipe.pool.messages[0].cursor != Paging.NextQuery(c.world.client) ==>
      Harmless(c.world, c.system.pipe.pool.messages[0].cursor, e.answer.version, e.answer.limit)
  }

  lemma EventIsHarmless(c: Console, e: Event)
    requires Paging.Faithful(c.world)
    ensures Paging.Faithful(PagedRequests.Next(c, e).world) <==> HarmlessEvent(c, e)
  {
    hide Paging.Faithful, Harmless, Taken, Moved, Paging.NextQuery;
    match e
    case Append(entry) => Paging.AppendKeeps(c.world, entry);
    case Ask(_) =>
    case Step(_) =>
    case ReadAnswer(answer) =>
      if TakesPage(c, e) {
        if c.system.pipe.pool.messages[0].cursor == Paging.NextQuery(c.world.client) {
          TakenKeeps(c.world, answer);
        } else {
          AnyPage(c.world, c.system.pipe.pool.messages[0].cursor, answer.version, answer.limit);
        }
      } else if AcceptsFirst(c) {
        NothingTaken(c.world, c.system.pipe.pool.messages[0].cursor, answer);
      }
  }

  lemma NothingTaken(w: Paging.World, query: Cursor, answer: Reply)
    requires answer.PageAt? ==> answer.version > |w.journal| || answer.limit == 0
    ensures Taken(w, query, answer) == w
  {
  }

  ghost predicate FaithfulThroughout(c: Console, events: seq<Event>) {
    forall n :: 0 <= n <= |events| ==> Paging.Faithful(RunEvents(c, events[..n]).world)
  }

  ghost predicate HarmlessThroughout(c: Console, events: seq<Event>) {
    forall n :: 0 <= n < |events| ==> HarmlessEvent(RunEvents(c, events[..n]), events[n])
  }

  lemma EventsPrefix(c: Console, events: seq<Event>, n: nat)
    requires n < |events|
    ensures RunEvents(c, events[..n + 1]) == PagedRequests.Next(RunEvents(c, events[..n]), events[n])
  {
    assert events[..n + 1][..n] == events[..n];
  }

  lemma {:induction false} HarmlessIsFaithful(c: Console, events: seq<Event>, n: nat)
    requires Paging.Faithful(c.world) && HarmlessThroughout(c, events) && n <= |events|
    ensures Paging.Faithful(RunEvents(c, events[..n]).world)
  {
    hide Paging.Faithful, HarmlessEvent, PagedRequests.Next;
    if n > 0 {
      HarmlessIsFaithful(c, events, n - 1);
      EventsPrefix(c, events, n - 1);
      EventIsHarmless(RunEvents(c, events[..n - 1]), events[n - 1]);
    }
  }

  /** Over every run, what is retained is faithful at all times if and only if each page taken in uncalled for is harmless. */
  lemma UncalledPagesDecide(c: Console, events: seq<Event>)
    requires Paging.Faithful(c.world)
    ensures FaithfulThroughout(c, events) <==> HarmlessThroughout(c, events)
  {
    hide Paging.Faithful, HarmlessEvent, PagedRequests.Next, RunEvents;
    if HarmlessThroughout(c, events) {
      forall n | 0 <= n <= |events|
        ensures Paging.Faithful(RunEvents(c, events[..n]).world)
      {
        HarmlessIsFaithful(c, events, n);
      }
    }
    if FaithfulThroughout(c, events) {
      forall n | 0 <= n < |events|
        ensures HarmlessEvent(RunEvents(c, events[..n]), events[n])
      {
        EventsPrefix(c, events, n);
        EventIsHarmless(RunEvents(c, events[..n]), events[n]);
      }
    }
  }

  // ---------------------------------------------------------------- what is lost is lost for good

  ghost function Onwards(w: Paging.World, events: seq<Paging.Event>): Paging.World {
    if events == [] then w else Paging.Next(Onwards(w, events[..|events| - 1]), events[|events| - 1])
  }

  /** An item behind the cursor that is not retained, with no backfill pending. */
  ghost predicate Lost(w: Paging.World, id: nat) {
    && w.client.before.None? && w.client.cursor.Some? && id !in w.client.items
    && w.client.cursor.value <= |w.journal|
    && forall i :: w.client.cursor.value <= i < |w.journal| ==> w.journal[i].id != id
  }

  lemma StaysLost(w: Paging.World, event: Paging.Event, id: nat)
    requires Lost(w, id) && (event.Append? ==> event.entry.id != id)
    ensures Lost(Paging.Next(w, event), id)
  {
    if event.Poll? && w.client.cursor.value <= event.version <= |w.journal| && event.limit > 0 {
      var c := w.client.cursor.value;
      NotInPage(w.journal, c, c + Paging.Take(event.version - c, event.limit), event.version, id);
      hide Paging.Fold;
    }
  }

  lemma NotInPage(journal: seq<Paging.Entry>, c: nat, end: nat, version: nat, id: nat)
    requires c <= end <= version <= |journal| && forall i :: c <= i < |journal| ==> journal[i].id != id
    ensures id !in Paging.Fold(journal[..version][c..end])
  {
    var page := journal[..version][c..end];
    Paging.FoldKeys(page, id);
    forall i | 0 <= i < |page|
      ensures page[i].id != id
    {
      assert page[i] == journal[c + i];
    }
  }

  /** A lost item is not shown again, however the journal grows and is polled, until it changes once more. */
  lemma {:induction false} LostForGood(w: Paging.World, events: seq<Paging.Event>, id: nat)
    requires Lost(w, id) && forall e :: e in events && e.Append? ==> e.entry.id != id
    ensures id !in Onwards(w, events).client.items && Lost(Onwards(w, events), id)
  {
    hide Paging.Next;
    if events != [] {
      var init, last := events[..|events| - 1], events[|events| - 1];
      assert events == init + [last] && last in events;
      LostForGood(w, init, id);
      StaysLost(Onwards(w, init), last, id);
    }
  }

  // ---------------------------------------------------------------- a view that is opened again

  /** The poll that an earlier view left answered but unread, and that a reopened view asks again. */
  function LatestPoll(): HostCommand {
    FetchOperatorView("run", Overview, Latest, false, None, 1)
  }

  function Item(id: nat): Paging.Entry {
    Paging.Entry(id, 0, 0, 0)
  }

  /** A journal of `n` items that changed once each. */
  function Changed(n: nat): (items: seq<Paging.Entry>)
    ensures |items| == n && forall i :: 0 <= i < n ==> items[i] == Item(i)
  {
    seq(n, i requires 0 <= i < n => Item(i))
  }

  /** The view is opened again while the answer for a journal of one item is unread. */
  function ReopenedConsole(): Console {
    Console(Overview, Reopened(), Paging.World.World(Changed(1), Paging.Client(None, None, map[])))
  }

  /** The reopened view asks; the answer that was left is read; then the view's own poll is dispatched. */
  function UntilSent(limit: nat): seq<Event> {
    [Ask(None), ReadAnswer(PageAt(1, limit)), Step(DispatchFirst)]
  }

  /** The next `n` items change, once each. */
  function Appends(from: nat, n: nat): (events: seq<Event>)
    ensures |events| == n && forall i :: 0 <= i < n ==> events[i] == Append(Item(from + i))
  {
    seq(n, i requires 0 <= i < n => Append(Item(from + i)))
  }

  /** The view's own poll is answered with the newest page. */
  function UntilAnswered(limit: nat): seq<Event> {
    [Step(Lanes(Receive(Evidence))), Step(Lanes(Execute(Evidence))), Step(Lanes(Answer(Evidence))),
     ReadAnswer(PageAt(limit + 2, limit))]
  }

  function Reopening(limit: nat): seq<Event> {
    UntilSent(limit) + Appends(1, limit + 1) + UntilAnswered(limit)
  }

  lemma {:induction false} RunInParts(c: Console, before: seq<Event>, after: seq<Event>)
    ensures RunEvents(c, before + after) == RunEvents(RunEvents(c, before), after)
    decreases |after|
  {
    hide PagedRequests.Next;
    if after == [] {
      assert before + after == before;
    } else {
      var init := after[..|after| - 1];
      assert before + after == (before + init) + [after[|after| - 1]];
      assert (before + after)[..|before + after| - 1] == before + init;
      RunInParts(c, before, init);
    }
  }

  lemma RunThree(c: Console, events: seq<Event>)
    requires |events| == 3
    ensures RunEvents(c, events)
         == PagedRequests.Next(PagedRequests.Next(PagedRequests.Next(c, events[0]), events[1]), events[2])
  {
    EventsPrefix(c, events, 0);
    EventsPrefix(c, events, 1);
    EventsPrefix(c, events, 2);
    assert events[..3] == events && events[..0] == [];
    hide PagedRequests.Next;
  }

  lemma AppendsStep(from: nat, n: nat)
    requires n > 0
    ensures Appends(from, n)[..n - 1] == Appends(from, n - 1) && Appends(from, n)[n - 1] == Append(Item(from + n - 1))
    ensures Changed(from + n) == Changed(from + n - 1) + [Item(from + n - 1)]
  {
  }

  lemma {:induction false} RunAppends(c: Console, from: nat, n: nat)
    requires c.world.journal == Changed(from)
    ensures RunEvents(c, Appends(from, n)) == c.(world := c.world.(journal := Changed(from + n)))
  {
    if n == 0 {
      assert Changed(from + 0) == Changed(from);
    } else {
      RunAppends(c, from, n - 1);
      AppendsStep(from, n);
    }
  }

  function AskedOnce(): Polls {
    Requested(Polls(Some("run"), NoRequests(), None), Overview, Latest, None).0
  }

  lemma AskedAgain(c: Console)
    requires c == ReopenedConsole()
    ensures var d := PagedRequests.Next(c, Ask(None));
            d.section == Overview && d.world == c.world && d.system.polls == AskedOnce()
            && d.system.pipe == Pipe([LatestPoll()], Start.(messages := [LatestPoll()]))
  {
    FirstPollAnswered();
  }

  lemma SentAgain(c: Console)
    requires c.system.pipe == Pipe([LatestPoll()], Start)
    ensures PagedRequests.Next(c, Step(DispatchFirst))
         == c.(system := c.system.(pipe := Pipe([], DispatchStep(Start, LatestPoll()).0)))
  {
  }

  /** An answer with id 1 is taken in, the first time and once more. */
  lemma AnswerTaken(c: Console, answer: Reply)
    requires c.section == Overview && c.system.pipe.pool.messages == [LatestPoll()]
    requires c.system.polls == AskedOnce() || c.system.polls == Settled(AskedOnce(), Overview)
    ensures var d := PagedRequests.Next(c, ReadAnswer(answer));
            d.section == Overview && d.system.polls == Settled(AskedOnce(), Overview) && d.world == Taken(c.world, Latest, answer)
            && d.system.pipe == c.system.pipe.(pool := c.system.pipe.pool.(messages := []))
  {
    assert LatestId(AskedOnce().requests, Overview) == 1 && AskedOnce().run == Some("run");
    hide Taken, Requested;
    assert LatestId(Settled(AskedOnce(), Overview).requests, Overview) == 1;
    assert Settled(Settled(AskedOnce(), Overview), Overview) == Settled(AskedOnce(), Overview);
  }

  lemma OwnAnswered(c: Console)
    requires c.system.pipe == Pipe([], DispatchStep(Start, LatestPoll()).0)
    ensures PagedRequests.Next(PagedRequests.Next(PagedRequests.Next(c, Step(Lanes(Receive(Evidence)))),
              Step(Lanes(Execute(Evidence)))), Step(Lanes(Answer(Evidence))))
         == c.(system := c.system.(pipe := Pipe([], Start.(messages := [LatestPoll()]))))
  {
    SentIsAnswered(LatestPoll());
    hide DispatchStep, Received, Executed, Workers.Answered;
  }

  /** Items that changed once each are all current. */
  lemma {:induction false} AllCurrent(n: nat, i: nat)
    requires i <= n
    ensures |Paging.CurrentFrom(Changed(n), i)| == n - i
    ensures forall k :: 0 <= k < n - i ==> Paging.CurrentFrom(Changed(n), i)[k] == i + k
    decreases n - i
  {
    if i < n {
      AllCurrent(n, i + 1);
      assert Paging.IsCurrent(Changed(n), i);
    }
  }

  lemma NewestOfMany(w: Paging.World, n: nat, limit: nat)
    requires w.journal == Changed(n) && limit > 0
    ensures ExtentOf(w.journal, n, limit, Latest)
         == Some(if n > limit then Extent(n - limit, n, n, Some(n - limit + 1)) else Extent(0, n, n, None))
  {
    AllCurrent(n, 0);
    assert w.journal[..n] == w.journal;
    hide Paging.CurrentFrom;
  }

  lemma InRange(n: nat, a: nat, c: nat, id: nat)
    requires a <= c <= n
    ensures id in Paging.Range(Changed(n), a, c) <==> a <= id < c
  {
    var items := Changed(n)[a..c];
    Paging.FoldKeys(items, id);
    forall i | 0 <= i < |items|
      ensures items[i].id == a + i
    {
      assert items[i] == Changed(n)[a + i];
    }
    if a <= id < c {
      assert items[id - a].id == id;
    }
  }

  /** The answer that was left is the whole journal, so no backfill is pending. */
  lemma FirstPage(limit: nat)
    requires limit > 0
    ensures var w := Paging.World.World(Changed(1), Paging.Client(None, None, map[]));
            Taken(w, Latest, PageAt(1, limit)) == w.(client := Paging.Client(Some(1), None, Paging.Range(Changed(1), 0, 1)))
  {
    var w := Paging.World.World(Changed(1), Paging.Client(None, None, map[]));
    NewestOfMany(w, 1, limit);
    Paging.LatestPage(Changed(1), limit);
    assert Changed(1)[..1] == Changed(1);
    hide Paging.Range, Paging.Fold, Paging.PageOf;
    assert map[] + Paging.Range(Changed(1), 0, 1) == Paging.Range(Changed(1), 0, 1);
  }

  /** The newest page of a journal that grew by more than a page skips the first item that changed. */
  lemma SecondPage(limit: nat)
    requires limit > 0
    ensures var w := Paging.World.World(Changed(limit + 2), Paging.Client(Some(1), None, Paging.Range(Changed(1), 0, 1)));
            var z := Taken(w, Latest, PageAt(limit + 2, limit));
            && z.journal == w.journal && z.client.cursor == Some(limit + 2) && Lost(z, 1)
            && Paging.Faithful(w) && !Harmless(w, Latest, limit + 2, limit) && !Paging.Faithful(z)
  {
    var n := limit + 2;
    var w := Paging.World.World(Changed(n), Paging.Client(Some(1), None, Paging.Range(Changed(1), 0, 1)));
    assert Changed(1) == Changed(n)[..1];
    Paging.RangePrefix(Changed(n), 1, 0, 1);
    NewestOfMany(w, n, limit);
    InRange(n, 1, n, 1);
    InRange(n, 2, n, 1);
    InRange(n, 0, 1, 1);
    hide Paging.Range, Taken, ExtentOf;
    AnyPage(w, Latest, n, limit);
    TakenPage(w, Latest, n, limit);
  }

  /** The reopened view has taken in the answer that was left, and its own poll with the same id is queued. */
  lemma LeftAnswerTaken(limit: nat)
    requires limit > 0
    ensures var c := RunEvents(ReopenedConsole(), UntilSent(limit));
            && c.section == Overview && c.system.polls == Settled(AskedOnce(), Overview)
            && c.system.pipe == Pipe([], DispatchStep(Start, LatestPoll()).0)
            && c.world == Paging.World.World(Changed(1), Paging.Client(Some(1), None, Paging.Range(Changed(1), 0, 1)))
  {
    hide PagedRequests.Next, Settled, AskedOnce, Taken, Reopened, DispatchStep, RunEvents, Paging.Range;
    var c0 := ReopenedConsole();
    AskedAgain(c0);
    var c1 := PagedRequests.Next(c0, Ask(None));
    AnswerTaken(c1, PageAt(1, limit));
    FirstPage(limit);
    SentAgain(PagedRequests.Next(c1, ReadAnswer(PageAt(1, limit))));
    RunThree(c0, UntilSent(limit));
  }

  lemma OwnAnswerTaken(c: Console, limit: nat)
    requires limit > 0 && c.section == Overview && c.system.polls == Settled(AskedOnce(), Overview)
    requires c.system.pipe == Pipe([], DispatchStep(Start, LatestPoll()).0)
    ensures RunEvents(c, UntilAnswered(limit)).world == Taken(c.world, Latest, PageAt(limit + 2, limit))
  {
    hide PagedRequests.Next, Settled, AskedOnce, Taken, DispatchStep, RunEvents;
    var lanes := UntilAnswered(limit)[..3];
    OwnAnswered(c);
    RunThree(c, lanes);
    AnswerTaken(RunEvents(c, lanes), PageAt(limit + 2, limit));
    EventsPrefix(c, UntilAnswered(limit), 3);
    assert UntilAnswered(limit)[..4] == UntilAnswered(limit);
  }

  /**
    For pages of any size: a view is opened again while the answer to its predecessor's first poll is
    unread, takes that answer in, and then also the answer to its own first poll, which has the same
    id. If one item more than a page holds changes in between, an item is skipped, and it is not shown
    any more until it changes once more.
   */
  lemma EqualIdLosesItems(limit: nat, later: seq<Paging.Event>)
    requires limit > 0
    requires forall e :: e in later && e.Append? ==> e.entry.id != 1
    ensures var w := RunEvents(ReopenedConsole(), Reopening(limit)).world;
            && w.journal == Changed(limit + 2) && w.client.cursor == Some(limit + 2) && w.client.before.None?
            && !Paging.Faithful(w) && Lost(w, 1)
            && 1 !in Onwards(w, later).client.items
  {
    hide PagedRequests.Next, Settled, AskedOnce, Taken, DispatchStep, RunEvents, Paging.Faithful, Harmless, UntilSent,
         UntilAnswered, Appends, Onwards;
    var c := RunEvents(ReopenedConsole(), UntilSent(limit));
    LeftAnswerTaken(limit);
    RunAppends(c, 1, limit + 1);
    var d := RunEvents(c, Appends(1, limit + 1));
    OwnAnswerTaken(d, limit);
    SecondPage(limit);
    RunInParts(ReopenedConsole(), UntilSent(limit), Appends(1, limit + 1));
    RunInParts(ReopenedConsole(), UntilSent(limit) + Appends(1, limit + 1), UntilAnswered(limit));
    LostForGood(RunEvents(ReopenedConsole(), Reopening(limit)).world, later, 1);
  }
}
