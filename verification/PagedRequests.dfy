/**
  Requests and pages of one section put together: a page is taken in when its answer is accepted,
  and it is the page the answered request asked for.
 */
module PagedRequests {
  import opened Options
  import opened HostCommands
  import opened Workers
  import opened Pipeline
  import opened RunPolls
  import opened SectionRequests
  import Paging

  /** One section of a run view, with the Host's journal and what the view retains of it. */
  datatype Console = Console(section: Section, system: System, world: Paging.World)

  /** What an accepted answer brings: the page at some length of the journal, no news or an error. */
  datatype Reply = PageAt(version: nat, limit: nat) | NoPage

  datatype Event =
    | Append(entry: Paging.Entry)
    | Ask(etag: Option<string>)
    | Step(move: Move)
    | ReadAnswer(answer: Reply)

  /** The section takes in the reply to `query`. */
  ghost function Taken(w: Paging.World, query: Cursor, answer: Reply): Paging.World {
    match answer
    case PageAt(version, limit) =>
      if version > |w.journal| || limit == 0 then w
      else w.(client := Paging.Reduced(w.client, Paging.ReplyAt(w.journal, version, limit, query)))
    case NoPage => w
  }

  /** Whether the first message is an answer the section accepts. */
  predicate AcceptsFirst(c: Console) {
    var y := c.system;
    y.pipe.pool.messages != [] && Awaits(y.polls, y.pipe.pool.messages[0]) && y.pipe.pool.messages[0].section == c.section
  }

  /** Moves other than asking for this section and reading, which have events of their own. */
  predicate IsOther(c: Console, m: Move) {
    !m.ReadMessage? && !(m.AskSection? && m.section == c.section)
  }

  ghost function Next(c: Console, e: Event): Console {
    match e
    case Append(entry) => c.(world := Paging.Next(c.world, Paging.Append(entry)))
    case Ask(etag) => c.(system := Moved(c.system, AskSection(c.section, Paging.NextQuery(c.world.client), etag)))
    case Step(m) => if IsOther(c, m) then c.(system := Moved(c.system, m)) else c
    case ReadAnswer(answer) =>
      c.(system := Moved(c.system, ReadMessage),
         world := if AcceptsFirst(c) then Taken(c.world, c.system.pipe.pool.messages[0].cursor, answer) else c.world)
  }

  ghost function RunEvents(c: Console, events: seq<Event>): Console {
    if events == [] then c else Next(RunEvents(c, events[..|events| - 1]), events[|events| - 1])
  }

  /** A pending section has asked for the page its cursors call for, and what is retained is faithful to the journal. */
  ghost predicate Linked(c: Console) {
    && (Pending(c.system, c.section) ==> c.system.asked[Index(c.section)] == Paging.NextQuery(c.world.client))
    && Paging.Faithful(c.world)
  }

  /** An accepted answer is the one awaited, for the page asked for. */
  lemma AcceptedIsAsked(c: Console)
    requires ExactAnswers(c.system, c.section) && AcceptsFirst(c)
    ensures Pending(c.system, c.section)
    ensures c.system.pipe.pool.messages[0].cursor == c.system.asked[Index(c.section)]
    ensures !Pending(Moved(c.system, ReadMessage), c.section)
  {
    hide Count;
    var y, s := c.system, c.section;
    var id := LatestId(y.polls.requests, s);
    ReadCount(y.pipe, Carries(y.polls.run, s, id));
    MessageIsOnly(y.pipe, CarriesAt(y.polls.run, s, id, y.asked[Index(s)]), Carries(y.polls.run, s, id));
  }

  lemma OtherKeepsAsked(y: System, m: Move, s: Section)
    requires !m.ReadMessage? && !(m.AskSection? && m.section == s)
    ensures Moved(y, m).asked[Index(s)] == y.asked[Index(s)]
    ensures Pending(Moved(y, m), s) ==> Pending(y, s)
  {
    hide Sent;
    if m.AskSection? {
      SameIndexSameSection(s, m.section);
    }
  }

  lemma IgnoredKeepsAsked(c: Console)
    requires !AcceptsFirst(c)
    ensures Pending(Moved(c.system, ReadMessage), c.section) == Pending(c.system, c.section)
    ensures Moved(c.system, ReadMessage).asked == c.system.asked
  {
    var ms := c.system.pipe.pool.messages;
    if ms != [] && ms[0].FetchOperatorView? {
      SameIndexSameSection(c.section, ms[0].section);
    }
  }

  /** Taking in the page asked for is a poll of the paging protocol. */
  lemma TakenKeeps(w: Paging.World, answer: Reply)
    requires Paging.Faithful(w)
    ensures Paging.Faithful(Taken(w, Paging.NextQuery(w.client), answer))
  {
    hide Paging.Faithful, Paging.ReplyAt, Paging.Reduced, Paging.NextQuery;
    match answer
    case PageAt(version, limit) =>
      if version <= |w.journal| && limit > 0 {
        Paging.PollKeeps(w, version, limit);
      }
    case NoPage =>
  }

  lemma NextKeepsLinked(c: Console, e: Event)
    requires Linked(c) && ExactAnswers(c.system, c.section)
    ensures Linked(Next(c, e)) && Next(c, e).section == c.section
  {
    hide ExactAnswers, Paging.Faithful, Paging.Reduced, Paging.ReplyAt;
    match e
    case Append(entry) => Paging.AppendKeeps(c.world, entry);
    case Ask(etag) =>
    case Step(m) =>
      if IsOther(c, m) {
        OtherKeepsAsked(c.system, m, c.section);
      }
    case ReadAnswer(answer) =>
      if AcceptsFirst(c) {
        AcceptedIsAsked(c);
        TakenKeeps(c.world, answer);
      } else {
        IgnoredKeepsAsked(c);
      }
  }

  lemma {:induction false} SameSection(c: Console, events: seq<Event>)
    ensures RunEvents(c, events).section == c.section
  {
    if events != [] {
      SameSection(c, events[..|events| - 1]);
    }
  }

  /**
    As long as the section's answers are exact, every page it takes in is the one its cursors call
    for, so what it retains stays faithful to the journal.
   */
  lemma {:induction false} FaithfulWhileExact(c: Console, events: seq<Event>)
    requires Linked(c)
    requires forall n :: 0 <= n < |events| ==> ExactAnswers(RunEvents(c, events[..n]).system, c.section)
    ensures Linked(RunEvents(c, events))
  {
    hide ExactAnswers, Linked, Next;
    if events != [] {
      var init := events[..|events| - 1];
      assert forall n :: 0 <= n < |init| ==> init[..n] == events[..n];
      FaithfulWhileExact(c, init);
      SameSection(c, init);
      NextKeepsLinked(RunEvents(c, init), events[|events| - 1]);
    }
  }

  // ---------------------------------------------------------------- a view with nothing left behind

  /** Every poll of the section on its way is this view's own, under an id of its own. */
  ghost predicate Own(y: System, s: Section) {
    PoolInvariant(y.pipe.pool) && DistinctIds(y, s) && OwnIds(y, s) && ExactAnswers(y, s)
  }

  lemma OwnStays(y: System, m: Move, s: Section)
    requires Own(y, s)
    ensures Own(Moved(y, m), s)
  {
    assert AskIsClear(y, m, s);
    hide PoolInvariant, DistinctIds, OwnIds, ExactAnswers, AskIsClear, Clear, Moved;
    MoveKeepsPool(y, m);
    DistinctStays(y, m, s);
    OwnIdsStay(y, m, s);
    DistinctIsClear(y, m, s);
    StepIsExact(y, m, s);
  }

  lemma {:induction false} AlwaysOwn(c: Console, events: seq<Event>)
    requires Own(c.system, c.section)
    ensures Own(RunEvents(c, events).system, c.section)
  {
    hide Own, Moved, AcceptsFirst, Taken, Paging.Next;
    if events != [] {
      var d, e := RunEvents(c, events[..|events| - 1]), events[|events| - 1];
      AlwaysOwn(c, events[..|events| - 1]);
      match e
      case Append(_) =>
      case Ask(etag) => OwnStays(d.system, AskSection(d.section, Paging.NextQuery(d.world.client), etag), c.section);
      case Step(m) => OwnStays(d.system, m, c.section);
      case ReadAnswer(_) => OwnStays(d.system, ReadMessage, c.section);
    }
  }

  /** A section that has taken in nothing yet, in a view over no poll of it that an earlier view left behind. */
  ghost predicate Fresh(c: Console) {
    && Opened(c.system) && (forall id: nat :: Carrying(c.system, c.section, id) == 0)
    && c.world.client == Paging.Client(None, None, map[])
  }

  lemma FreshIsOwn(c: Console)
    requires Fresh(c)
    ensures Own(c.system, c.section) && Linked(c)
  {
    NothingExpected(c.system, c.section);
    hide PoolInvariant, Carrying;
  }

  /** Over every run of the protocols together, what the section retains is faithful to the journal. */
  lemma RetainedIsFaithful(c: Console, events: seq<Event>)
    requires Fresh(c)
    ensures Paging.Faithful(RunEvents(c, events).world)
  {
    FreshIsOwn(c);
    hide Fresh, Paging.Faithful, Next, PoolInvariant, DistinctIds, OwnIds, ExactAnswers;
    forall n | 0 <= n < |events|
      ensures ExactAnswers(RunEvents(c, events[..n]).system, c.section)
    {
      AlwaysOwn(c, events[..n]);
    }
    FaithfulWhileExact(c, events);
  }
}
