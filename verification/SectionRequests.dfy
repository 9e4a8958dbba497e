/**
  Section polls of one run view, from the request to its answer. Each section has at most one
  accepted request at a time; its id may be taken over by an older identical poll.
 */
module SectionRequests {
  import opened Options
  import opened HostCommands
  import opened Workers
  import opened Pipeline
  import opened RunPolls

  // ---------------------------------------------------------------- the whole system

  type Cursors = a: seq<Cursor> | |a| == SectionCount witness seq(SectionCount, i => Latest)

  /** The polls of the run on display, the cursor each section last asked for, and the commands on their way. */
  datatype System = System(polls: Polls, asked: Cursors, pipe: Pipe)

  datatype Move =
    | AskSection(section: Section, cursor: Cursor, etag: Option<string>)
    | PushOther(command: HostCommand)
    | SetClaims(claims: Option<set<RefreshKey>>)
    | DispatchFirst
    | ReadMessage
    | Lanes(work: Work)

  /**
    Every step of the UI and the worker threads that touches this view's polls. Other reads may enter
    the outbox and claim or release refreshes at any time; the cursor of a request is free here.
   */
  function Moved(y: System, m: Move): System {
    match m
    case AskSection(s, cursor, etag) =>
      if !MayAsk(y.polls, s) then y
      else
        var asked := Requested(y.polls, s, cursor, etag);
        System(asked.0, y.asked[Index(s) := cursor], Pushed(y.pipe, asked.1))
    case PushOther(c) =>
      if c.FetchOperatorView? && Some(c.missionRunId) == y.polls.run then y else y.(pipe := Pushed(y.pipe, [c]))
    case SetClaims(claims) => y.(polls := y.polls.(claims := claims))
    case DispatchFirst =>
      if y.pipe.outbox == [] then y
      else
        var sent := Sent(y.pipe);
        var after := Dispatched(y.polls, sent.1);
        y.(polls := after.0, pipe := Pushed(sent.0, after.1))
    case ReadMessage =>
      if y.pipe.pool.messages == [] then y
      else y.(polls := Reduced(y.polls, y.pipe.pool.messages[0]), pipe := Read(y.pipe))
    case Lanes(w) => y.(pipe := Worked(y.pipe, w))
  }

  /** A claimed section is not asked for; other commands wait in the same outbox, behind those before them. */
  lemma ClaimedIsNotAsked(y: System, s: Section, claims: set<RefreshKey>, cursor: Cursor, etag: Option<string>, c: HostCommand)
    requires SectionRefresh(s) in claims && !c.FetchOperatorView?
    ensures Moved(Moved(y, SetClaims(Some(claims))), AskSection(s, cursor, etag)).pipe == y.pipe
    ensures y.polls.run.Some? && !IsPending(y.polls.requests, s) ==>
              |Moved(Moved(y, SetClaims(None)), AskSection(s, cursor, etag)).pipe.outbox| == |y.pipe.outbox| + 1
    ensures Moved(y, PushOther(c)).pipe.outbox == y.pipe.outbox + [c]
  {
  }

  function RunMoves(y: System, moves: seq<Move>): System {
    if moves == [] then y else Moved(RunMoves(y, moves[..|moves| - 1]), moves[|moves| - 1])
  }

  /** The commands whose answer carries `id` for section `s` of this run. */
  function Carries(run: Option<string>, s: Section, id: nat): HostCommand -> bool {
    (c: HostCommand) => c.FetchOperatorView? && Some(c.missionRunId) == run && c.section == s && c.requestId == id
  }

  /** Among those, the ones that ask for the page at `cursor`. */
  function CarriesAt(run: Option<string>, s: Section, id: nat, cursor: Cursor): HostCommand -> bool {
    (c: HostCommand) =>
      c.FetchOperatorView? && Some(c.missionRunId) == run && c.section == s && c.requestId == id && c.cursor == cursor
  }

  /** How many commands are on their way whose answer carries `id` for section `s`. */
  function Carrying(y: System, s: Section, id: nat): nat {
    Count(y.pipe, Carries(y.polls.run, s, id))
  }

  /** How many of the answers to come section `s` would accept. */
  function Awaited(y: System, s: Section): nat {
    Carrying(y, s, LatestId(y.polls.requests, s))
  }

  /** How many of those are for the page the section last asked for. */
  function AwaitedPages(y: System, s: Section): nat {
    Count(y.pipe, CarriesAt(y.polls.run, s, LatestId(y.polls.requests, s), y.asked[Index(s)]))
  }

  predicate Pending(y: System, s: Section) {
    IsPending(y.polls.requests, s)
  }

  /** Whether a step pushes a new poll of section `s`. */
  predicate Asks(y: System, m: Move, s: Section) {
    m.AskSection? && m.section == s && MayAsk(y.polls, s)
  }

  /** Whether a step dispatches the poll section `s` waits for. */
  predicate SendsAwaited(y: System, m: Move, s: Section) {
    m.DispatchFirst? && y.pipe.outbox != [] && Carries(y.polls.run, s, LatestId(y.polls.requests, s))(y.pipe.outbox[0])
  }

  // ---------------------------------------------------------------- how each step moves commands

  ghost predicate OnlyViews(keep: HostCommand -> bool, run: Option<string>) {
    forall c :: keep(c) ==> c.FetchOperatorView? && Some(c.missionRunId) == run
  }

  /** The steps that neither ask, dispatch nor read. */
  predicate IsQuiet(m: Move) {
    m.PushOther? || m.SetClaims? || m.Lanes?
  }

  lemma QuietStep(y: System, m: Move, keep: HostCommand -> bool)
    requires IsQuiet(m) && OnlyViews(keep, y.polls.run)
    ensures Count(Moved(y, m).pipe, keep) == Count(y.pipe, keep)
    ensures Moved(y, m).polls.requests == y.polls.requests && Moved(y, m).polls.run == y.polls.run && Moved(y, m).asked == y.asked
  {
    hide Count;
    match m
    case PushOther(c) => PushCount(y.pipe, c, keep);
    case SetClaims(_) =>
    case Lanes(w) => WorkCount(y.pipe, w, keep);
  }

  /** The only command a dispatch returns to the outbox is a dropped one that is no section poll. */
  lemma ReturnedCommand(p: Polls, outcome: Dispatch)
    ensures var commands := Dispatched(p, outcome).1;
            commands == [] || (outcome.Dropped? && !outcome.command.FetchOperatorView? && commands == [outcome.command])
  {
  }

  /** A poll leaves the pipeline when it is coalesced or dropped, and only then. */
  lemma DispatchFirstCount(y: System, keep: HostCommand -> bool)
    requires y.pipe.outbox != [] && OnlyViews(keep, y.polls.run)
    ensures Count(Moved(y, DispatchFirst).pipe, keep)
         == Count(y.pipe, keep) - if keep(y.pipe.outbox[0]) && Refused(Sent(y.pipe).1) then 1 else 0
  {
    hide Count, Dispatched, DispatchStep;
    var (pipe, outcome) := Sent(y.pipe);
    SendCount(y.pipe, keep);
    OutcomeCommand(y.pipe.pool, y.pipe.outbox[0]);
    ReturnedCommand(y.polls, outcome);
    var commands := Dispatched(y.polls, outcome).1;
    if commands == [] {
      assert Pushed(pipe, commands) == pipe;
    } else {
      PushCount(pipe, commands[0], keep);
    }
  }

  lemma AskStepCount(y: System, m: Move, keep: HostCommand -> bool)
    requires m.AskSection?
    ensures Count(Moved(y, m).pipe, keep)
         == Count(y.pipe, keep)
            + if MayAsk(y.polls, m.section) && keep(Requested(y.polls, m.section, m.cursor, m.etag).1[0]) then 1 else 0
  {
    hide Count;
    if MayAsk(y.polls, m.section) {
      PushCount(y.pipe, Requested(y.polls, m.section, m.cursor, m.etag).1[0], keep);
    }
  }

  /** Dispatching any other command leaves a section's request as it was. */
  lemma OtherRequest(y: System, s: Section)
    requires y.pipe.outbox != [] && !SendsAwaited(y, DispatchFirst, s)
    ensures var z := Moved(y, DispatchFirst);
            LatestId(z.polls.requests, s) == LatestId(y.polls.requests, s) && Pending(z, s) == Pending(y, s)
  {
    OutcomeCommand(y.pipe.pool, y.pipe.outbox[0]);
    if y.pipe.outbox[0].FetchOperatorView? {
      SameIndexSameSection(s, y.pipe.outbox[0].section);
    }
  }

  /** Dispatching the awaited poll keeps its request, gives it up, or hands it an older poll's id. */
  lemma AwaitedRequest(y: System, s: Section)
    requires SendsAwaited(y, DispatchFirst, s)
    ensures var z, outcome := Moved(y, DispatchFirst), Sent(y.pipe).1;
            && (outcome.Dropped? ==> !Pending(z, s) && LatestId(z.polls.requests, s) == LatestId(y.polls.requests, s))
            && (!outcome.Dropped? ==> Pending(z, s) == Pending(y, s))
            && (outcome.Coalesced? && outcome.originalRequestId.Some? ==>
                  LatestId(z.polls.requests, s) == outcome.originalRequestId.value)
            && (!Refused(outcome) ==> LatestId(z.polls.requests, s) == LatestId(y.polls.requests, s))
  {
    OutcomeCommand(y.pipe.pool, y.pipe.outbox[0]);
  }

  lemma SameRun(y: System, m: Move)
    ensures Moved(y, m).polls.run == y.polls.run
    ensures m.AskSection? || Moved(y, m).asked == y.asked
    ensures Moved(y, m).polls.requests.sequence
         == y.polls.requests.sequence + if m.AskSection? && MayAsk(y.polls, m.section) then 1 else 0
  {
  }

  lemma MoveKeepsPool(y: System, m: Move)
    requires PoolInvariant(y.pipe.pool)
    ensures PoolInvariant(Moved(y, m).pipe.pool)
  {
    hide PoolInvariant;
    match m
    case DispatchFirst =>
      if y.pipe.outbox != [] {
        DispatchKeepsPool(y.pipe.pool, y.pipe.outbox[0]);
      }
    case ReadMessage => ReadKeepsPool(y.pipe.pool);
    case Lanes(w) => WorkKeepsPool(y.pipe.pool, w);
    case _ =>
  }

  lemma {:induction false} RunKeepsPool(y: System, moves: seq<Move>)
    requires PoolInvariant(y.pipe.pool)
    ensures PoolInvariant(RunMoves(y, moves).pipe.pool)
  {
    hide PoolInvariant, Moved;
    if moves != [] {
      RunKeepsPool(y, moves[..|moves| - 1]);
      MoveKeepsPool(RunMoves(y, moves[..|moves| - 1]), moves[|moves| - 1]);
    }
  }

  /** An awaited poll that is coalesced has a live twin, which asks for the same page under the reported id. */
  lemma TwinAsks(y: System, s: Section) returns (original: nat)
    requires PoolInvariant(y.pipe.pool) && SendsAwaited(y, DispatchFirst, s) && Sent(y.pipe).1.Coalesced?
    ensures Sent(y.pipe).1.originalRequestId == Some(original)
    ensures PoolCount(y.pipe.pool, Carries(y.polls.run, s, original)) >= 1
    ensures PoolCount(y.pipe.pool, CarriesAt(y.polls.run, s, original, y.pipe.outbox[0].cursor)) >= 1
  {
    var c := y.pipe.outbox[0];
    var twin := TwinOf(y.pipe.pool, c);
    original := twin.requestId;
    hide PoolCount, PoolInvariant;
    assert Carries(y.polls.run, s, original)(twin);
    assert CarriesAt(y.polls.run, s, original, c.cursor)(twin);
  }

  lemma CoalescedCounts(y: System, s: Section) returns (original: nat)
    requires PoolInvariant(y.pipe.pool) && SendsAwaited(y, DispatchFirst, s) && Sent(y.pipe).1.Coalesced?
    ensures var z := Moved(y, DispatchFirst);
            && Sent(y.pipe).1.originalRequestId == Some(original)
            && LatestId(z.polls.requests, s) == original && Pending(z, s) == Pending(y, s)
            && Carrying(z, s, original) >= 1
            && Count(z.pipe, CarriesAt(y.polls.run, s, original, y.pipe.outbox[0].cursor)) >= 1
  {
    original := TwinAsks(y, s);
    AwaitedRequest(y, s);
    assert Moved(y, DispatchFirst).pipe.pool == y.pipe.pool && Moved(y, DispatchFirst).polls.run == y.polls.run;
    hide PoolCount, PoolInvariant, Matches, Moved, Sent;
  }

  // ---------------------------------------------------------------- no orphaned request

  /** A pending section still has its answer to come. */
  ghost predicate Expected(y: System, s: Section) {
    Pending(y, s) ==> Awaited(y, s) >= 1
  }

  ghost predicate NoOrphans(y: System) {
    PoolInvariant(y.pipe.pool) && forall s: Section :: Expected(y, s)
  }

  lemma DispatchKeepsExpected(y: System, s: Section)
    requires PoolInvariant(y.pipe.pool) && Expected(y, s) && y.pipe.outbox != []
    ensures Expected(Moved(y, DispatchFirst), s)
  {
    hide PoolInvariant, Count;
    SameRun(y, DispatchFirst);
    hide Moved, Sent;
    DispatchFirstCount(y, Carries(y.polls.run, s, LatestId(y.polls.requests, s)));
    if SendsAwaited(y, DispatchFirst, s) {
      AwaitedRequest(y, s);
      if Sent(y.pipe).1.Coalesced? {
        var original := CoalescedCounts(y, s);
      }
    } else {
      OtherRequest(y, s);
    }
  }

  lemma AskKeepsExpected(y: System, m: Move, s: Section)
    requires m.AskSection? && Expected(y, s)
    ensures Expected(Moved(y, m), s)
  {
    hide Count;
    var id := LatestId(Moved(y, m).polls.requests, s);
    SameIndexSameSection(s, m.section);
    AskStepCount(y, m, Carries(y.polls.run, s, id));
  }

  lemma ReadKeepsExpected(y: System, s: Section)
    requires y.pipe.pool.messages != [] && Expected(y, s)
    ensures Expected(Moved(y, ReadMessage), s)
  {
    hide Count;
    var c := y.pipe.pool.messages[0];
    SameIndexSameSection(s, if c.FetchOperatorView? then c.section else s);
    ReadCount(y.pipe, Carries(y.polls.run, s, LatestId(y.polls.requests, s)));
  }

  lemma MoveKeepsExpected(y: System, m: Move, s: Section)
    requires PoolInvariant(y.pipe.pool) && Expected(y, s)
    ensures Expected(Moved(y, m), s)
  {
    hide PoolInvariant, Count;
    match m
    case AskSection(_, _, _) => AskKeepsExpected(y, m, s);
    case DispatchFirst => if y.pipe.outbox != [] { DispatchKeepsExpected(y, s); }
    case ReadMessage => if y.pipe.pool.messages != [] { ReadKeepsExpected(y, s); }
    case _ => QuietStep(y, m, Carries(y.polls.run, s, LatestId(y.polls.requests, s)));
  }

  /** A view that has asked for nothing yet, on top of whatever earlier views left in the pipeline. */
  ghost predicate Opened(y: System) {
    PoolInvariant(y.pipe.pool) && y.polls.requests == NoRequests()
  }

  /**
    Over every run from any such start, a pending section has at least one command in the pipeline
    whose answer will be accepted, whatever was coalesced, dropped or answered on the way.
   */
  lemma {:induction false} NoOrphanedRequest(y: System, moves: seq<Move>)
    requires Opened(y)
    ensures NoOrphans(RunMoves(y, moves))
  {
    hide Moved, PoolInvariant, Expected;
    if moves == [] {
      forall s: Section
        ensures Expected(y, s)
      {
        NothingExpected(y, s);
      }
    } else {
      var z, m := RunMoves(y, moves[..|moves| - 1]), moves[|moves| - 1];
      NoOrphanedRequest(y, moves[..|moves| - 1]);
      MoveKeepsPool(z, m);
      forall s: Section
        ensures Expected(Moved(z, m), s)
      {
        MoveKeepsExpected(z, m, s);
      }
    }
  }

  lemma NothingExpected(y: System, s: Section)
    requires y.polls.requests == NoRequests()
    ensures Expected(y, s) && !Pending(y, s) && LatestId(y.polls.requests, s) == 0
  {
  }

  // ---------------------------------------------------------------- exactly one answer

  /** A pending section has exactly one answer to come, for the page it last asked for; an idle one has none. */
  ghost predicate ExactAnswers(y: System, s: Section) {
    && Awaited(y, s) == (if Pending(y, s) then 1 else 0)
    && (Pending(y, s) ==> AwaitedPages(y, s) == 1)
  }

  /**
    What can be looked up before a step: the id a new poll will get is not on its way already, and
    the older poll that an awaited one is coalesced onto is the only one with its id.
   */
  predicate Clear(y: System, m: Move, s: Section) {
    && (Asks(y, m, s) ==> Carrying(y, s, y.polls.requests.sequence + 1) == 0)
    && (SendsAwaited(y, m, s) && Sent(y.pipe).1.Coalesced? && Sent(y.pipe).1.originalRequestId.Some? ==>
          Carrying(y, s, Sent(y.pipe).1.originalRequestId.value) == 1)
  }

  lemma PagesWithin(y: System, s: Section)
    ensures AwaitedPages(y, s) <= Awaited(y, s)
  {
    var id := LatestId(y.polls.requests, s);
    CountWider(y.pipe, CarriesAt(y.polls.run, s, id, y.asked[Index(s)]), Carries(y.polls.run, s, id));
  }

  /** A new poll of a section gets exactly one answer exactly when its id is not on its way already. */
  lemma AskIsExact(y: System, m: Move, s: Section)
    requires Asks(y, m, s)
    ensures Pending(Moved(y, m), s)
    ensures Awaited(Moved(y, m), s) == Carrying(y, s, y.polls.requests.sequence + 1) + 1
    ensures ExactAnswers(Moved(y, m), s) <==> Carrying(y, s, y.polls.requests.sequence + 1) == 0
  {
    hide Count;
    var id := y.polls.requests.sequence + 1;
    AskStepCount(y, m, Carries(y.polls.run, s, id));
    AskStepCount(y, m, CarriesAt(y.polls.run, s, id, m.cursor));
    PagesWithin(Moved(y, m), s);
  }

  lemma AskElsewhere(y: System, m: Move, s: Section)
    requires m.AskSection? && !Asks(y, m, s) && ExactAnswers(y, s)
    ensures ExactAnswers(Moved(y, m), s)
  {
    hide Count;
    var id := LatestId(y.polls.requests, s);
    SameIndexSameSection(s, m.section);
    AskStepCount(y, m, Carries(y.polls.run, s, id));
    AskStepCount(y, m, CarriesAt(y.polls.run, s, id, y.asked[Index(s)]));
  }

  lemma ReadKeepsExact(y: System, s: Section)
    requires ExactAnswers(y, s) && y.pipe.pool.messages != []
    ensures ExactAnswers(Moved(y, ReadMessage), s)
  {
    hide Count;
    var c, id := y.pipe.pool.messages[0], LatestId(y.polls.requests, s);
    SameIndexSameSection(s, if c.FetchOperatorView? then c.section else s);
    ReadCount(y.pipe, Carries(y.polls.run, s, id));
    ReadCount(y.pipe, CarriesAt(y.polls.run, s, id, y.asked[Index(s)]));
  }

  lemma QuietKeepsExact(y: System, m: Move, s: Section)
    requires ExactAnswers(y, s) && IsQuiet(m)
    ensures ExactAnswers(Moved(y, m), s)
  {
    hide Count;
    var id := LatestId(y.polls.requests, s);
    QuietStep(y, m, Carries(y.polls.run, s, id));
    QuietStep(y, m, CarriesAt(y.polls.run, s, id, y.asked[Index(s)]));
  }

  /** Dispatching anything but the awaited poll, or dispatching that without coalescing it, keeps exactness. */
  lemma DispatchKeepsExact(y: System, s: Section)
    requires ExactAnswers(y, s) && y.pipe.outbox != []
    requires SendsAwaited(y, DispatchFirst, s) ==> !Sent(y.pipe).1.Coalesced?
    ensures ExactAnswers(Moved(y, DispatchFirst), s)
  {
    hide Count;
    var id := LatestId(y.polls.requests, s);
    SameRun(y, DispatchFirst);
    DispatchFirstCount(y, Carries(y.polls.run, s, id));
    DispatchFirstCount(y, CarriesAt(y.polls.run, s, id, y.asked[Index(s)]));
    hide Moved, Sent;
    if SendsAwaited(y, DispatchFirst, s) {
      AwaitedRequest(y, s);
    } else {
      OtherRequest(y, s);
    }
  }

  /** Coalescing the awaited poll leaves one answer exactly when the older poll's id is on its way once. */
  lemma CoalescedIsExact(y: System, s: Section)
    requires PoolInvariant(y.pipe.pool) && ExactAnswers(y, s)
    requires SendsAwaited(y, DispatchFirst, s) && Sent(y.pipe).1.Coalesced?
    ensures Pending(y, s) && Sent(y.pipe).1.originalRequestId.Some?
    ensures ExactAnswers(Moved(y, DispatchFirst), s) <==> Carrying(y, s, Sent(y.pipe).1.originalRequestId.value) == 1
  {
    hide Count, PoolInvariant;
    var z, c, id := Moved(y, DispatchFirst), y.pipe.outbox[0], LatestId(y.polls.requests, s);
    SameRun(y, DispatchFirst);
    hide Moved, Sent;
    FirstCounts(y.pipe, Carries(y.polls.run, s, id));
    FirstIsOnly(y.pipe, CarriesAt(y.polls.run, s, id, y.asked[Index(s)]), Carries(y.polls.run, s, id));
    var original := CoalescedCounts(y, s);
    DispatchFirstCount(y, Carries(y.polls.run, s, original));
    PagesWithin(z, s);
  }

  /** One step from a state with exact answers reaches another exactly when the step is clear. */
  lemma StepIsExact(y: System, m: Move, s: Section)
    requires PoolInvariant(y.pipe.pool) && ExactAnswers(y, s)
    ensures ExactAnswers(Moved(y, m), s) <==> Clear(y, m, s)
  {
    hide PoolInvariant, ExactAnswers, Moved, Carrying, Sent;
    if m.AskSection? {
      if Asks(y, m, s) {
        AskIsExact(y, m, s);
      } else {
        AskElsewhere(y, m, s);
      }
    } else if m.DispatchFirst? {
      if y.pipe.outbox == [] {
        assert Moved(y, m) == y by { NothingToSend(y); }
      } else if SendsAwaited(y, m, s) && Sent(y.pipe).1.Coalesced? {
        CoalescedIsExact(y, s);
      } else {
        DispatchKeepsExact(y, s);
      }
    } else if m.ReadMessage? {
      if y.pipe.pool.messages == [] {
        assert Moved(y, m) == y by { NothingToRead(y); }
      } else {
        ReadKeepsExact(y, s);
      }
    } else {
      QuietKeepsExact(y, m, s);
    }
  }

  lemma NothingToSend(y: System)
    requires y.pipe.outbox == []
    ensures Moved(y, DispatchFirst) == y
  {
  }

  lemma NothingToRead(y: System)
    requires y.pipe.pool.messages == []
    ensures Moved(y, ReadMessage) == y
  {
  }

  ghost predicate ExactThroughout(y: System, moves: seq<Move>, s: Section) {
    forall n :: 0 <= n <= |moves| ==> ExactAnswers(RunMoves(y, moves[..n]), s)
  }

  ghost predicate ClearThroughout(y: System, moves: seq<Move>, s: Section) {
    forall n :: 0 <= n < |moves| ==> Clear(RunMoves(y, moves[..n]), moves[n], s)
  }

  lemma RunPrefix(y: System, moves: seq<Move>, n: nat)
    requires n < |moves|
    ensures RunMoves(y, moves[..n + 1]) == Moved(RunMoves(y, moves[..n]), moves[n])
  {
    assert moves[..n + 1][..n] == moves[..n];
  }

  lemma {:induction false} ClearIsExact(y: System, moves: seq<Move>, s: Section, n: nat)
    requires PoolInvariant(y.pipe.pool) && ExactAnswers(y, s) && ClearThroughout(y, moves, s) && n <= |moves|
    ensures ExactAnswers(RunMoves(y, moves[..n]), s)
  {
    hide PoolInvariant, ExactAnswers, Clear, Moved;
    if n > 0 {
      ClearIsExact(y, moves, s, n - 1);
      RunKeepsPool(y, moves[..n - 1]);
      RunPrefix(y, moves, n - 1);
      StepIsExact(RunMoves(y, moves[..n - 1]), moves[n - 1], s);
    }
  }

  /**
    Over every run, a pending section has exactly one answer to come, for the page it last asked for,
    and an idle one none, as long as and only as long as every step is clear.
   */
  lemma ExactlyOneAnswer(y: System, moves: seq<Move>, s: Section)
    requires PoolInvariant(y.pipe.pool) && ExactAnswers(y, s)
    ensures ExactThroughout(y, moves, s) <==> ClearThroughout(y, moves, s)
  {
    hide PoolInvariant, ExactAnswers, Clear, Moved, RunMoves;
    if ClearThroughout(y, moves, s) {
      forall n | 0 <= n <= |moves|
        ensures ExactAnswers(RunMoves(y, moves[..n]), s)
      {
        ClearIsExact(y, moves, s, n);
      }
    }
    if ExactThroughout(y, moves, s) {
      forall n | 0 <= n < |moves|
        ensures Clear(RunMoves(y, moves[..n]), moves[n], s)
      {
        RunKeepsPool(y, moves[..n]);
        RunPrefix(y, moves, n);
        StepIsExact(RunMoves(y, moves[..n]), moves[n], s);
      }
    }
  }

  // ---------------------------------------------------------------- when only asking matters

  /** No two commands on their way carry the same id for section `s`. */
  ghost predicate DistinctIds(y: System, s: Section) {
    forall id: nat :: Carrying(y, s, id) <= 1
  }

  predicate AskIsClear(y: System, m: Move, s: Section) {
    Asks(y, m, s) ==> Carrying(y, s, y.polls.requests.sequence + 1) == 0
  }

  ghost predicate AsksAreClear(y: System, moves: seq<Move>, s: Section) {
    forall n :: 0 <= n < |moves| ==> AskIsClear(RunMoves(y, moves[..n]), moves[n], s)
  }

  /** Only asking ever adds a command with an id. */
  lemma CarryingMoved(y: System, m: Move, s: Section, id: nat)
    ensures Carrying(Moved(y, m), s, id)
         <= Carrying(y, s, id) + if Asks(y, m, s) && id == y.polls.requests.sequence + 1 then 1 else 0
  {
    hide Count;
    var keep := Carries(y.polls.run, s, id);
    match m
    case AskSection(_, _, _) => AskStepCount(y, m, keep);
    case DispatchFirst =>
      if y.pipe.outbox != [] {
        DispatchFirstCount(y, keep);
        SameRun(y, m);
        hide Moved;
      }
    case ReadMessage => if y.pipe.pool.messages != [] { ReadCount(y.pipe, keep); }
    case _ => QuietStep(y, m, keep);
  }

  lemma DistinctStays(y: System, m: Move, s: Section)
    requires DistinctIds(y, s) && AskIsClear(y, m, s)
    ensures DistinctIds(Moved(y, m), s)
  {
    hide Carrying, Moved, Asks;
    forall id: nat
      ensures Carrying(Moved(y, m), s, id) <= 1
    {
      CarryingMoved(y, m, s, id);
    }
  }

  /** With distinct ids on their way, coalescing never gets in the way. */
  lemma DistinctIsClear(y: System, m: Move, s: Section)
    requires PoolInvariant(y.pipe.pool) && DistinctIds(y, s)
    ensures Clear(y, m, s) <==> AskIsClear(y, m, s)
  {
    hide PoolInvariant, PoolCount, Matches;
    if SendsAwaited(y, m, s) && Sent(y.pipe).1.Coalesced? {
      var original := TwinAsks(y, s);
      assert Carrying(y, s, original) >= 1;
    }
  }

  lemma {:induction false} DistinctThroughout(y: System, moves: seq<Move>, s: Section, n: nat)
    requires DistinctIds(y, s) && AsksAreClear(y, moves, s) && n <= |moves|
    ensures DistinctIds(RunMoves(y, moves[..n]), s)
  {
    hide DistinctIds, AskIsClear, Moved;
    if n > 0 {
      DistinctThroughout(y, moves, s, n - 1);
      RunPrefix(y, moves, n - 1);
      DistinctStays(RunMoves(y, moves[..n - 1]), moves[n - 1], s);
    }
  }

  /**
    In a new view over distinct leftovers, each section has exactly one answer to come whenever it is
    pending, as long as and only as long as no new poll gets an id that is still on its way.
   */
  lemma ReusedIdsDecide(y: System, moves: seq<Move>, s: Section)
    requires Opened(y) && DistinctIds(y, s) && Carrying(y, s, 0) == 0
    ensures ExactThroughout(y, moves, s) <==> AsksAreClear(y, moves, s)
  {
    NothingExpected(y, s);
    hide PoolInvariant, Clear, Carrying, Moved, RunMoves, DistinctIds, AskIsClear;
    ExactlyOneAnswer(y, moves, s);
    if AsksAreClear(y, moves, s) {
      forall n | 0 <= n < |moves|
        ensures Clear(RunMoves(y, moves[..n]), moves[n], s)
      {
        DistinctThroughout(y, moves, s, n);
        RunKeepsPool(y, moves[..n]);
        DistinctIsClear(RunMoves(y, moves[..n]), moves[n], s);
      }
    }
    if ClearThroughout(y, moves, s) {
      forall n | 0 <= n < |moves|
        ensures AskIsClear(RunMoves(y, moves[..n]), moves[n], s)
      {
        assert Clear(RunMoves(y, moves[..n]), moves[n], s);
        ClearAsks(RunMoves(y, moves[..n]), moves[n], s);
      }
    }
  }

  lemma ClearAsks(y: System, m: Move, s: Section)
    requires Clear(y, m, s)
    ensures AskIsClear(y, m, s)
  {
  }

  /** Every id on its way was issued by this view. */
  ghost predicate OwnIds(y: System, s: Section) {
    forall id: nat :: id == 0 || id > y.polls.requests.sequence ==> Carrying(y, s, id) == 0
  }

  lemma OwnIdsStay(y: System, m: Move, s: Section)
    requires OwnIds(y, s)
    ensures OwnIds(Moved(y, m), s)
  {
    SameRun(y, m);
    hide Carrying, Moved;
    forall id: nat | id == 0 || id > Moved(y, m).polls.requests.sequence
      ensures Carrying(Moved(y, m), s, id) == 0
    {
      CarryingMoved(y, m, s, id);
    }
  }

  lemma {:induction false} OwnIdsThroughout(y: System, moves: seq<Move>, s: Section)
    requires OwnIds(y, s)
    ensures OwnIds(RunMoves(y, moves), s)
  {
    hide OwnIds, Moved;
    if moves != [] {
      OwnIdsThroughout(y, moves[..|moves| - 1], s);
      OwnIdsStay(RunMoves(y, moves[..|moves| - 1]), moves[|moves| - 1], s);
    }
  }

  /** With no poll of a section left behind by an earlier view of the run, the answers are exact over every run. */
  lemma NothingLeftBehind(y: System, moves: seq<Move>, s: Section)
    requires Opened(y) && forall id: nat :: Carrying(y, s, id) == 0
    ensures ExactAnswers(RunMoves(y, moves), s)
  {
    hide PoolInvariant, Carrying, Moved, RunMoves;
    forall n | 0 <= n < |moves|
      ensures AskIsClear(RunMoves(y, moves[..n]), moves[n], s)
    {
      OwnIdsThroughout(y, moves[..n], s);
    }
    ReusedIdsDecide(y, moves, s);
    assert moves[..|moves|] == moves;
  }

  // ---------------------------------------------------------------- a view that is opened again

  function FirstView(): System {
    System(Polls(Some("run"), NoRequests(), None), seq(SectionCount, i => Latest), Pipe([], Start))
  }

  /** The first view asks for the overview, and the answer reaches the channel. */
  function FirstPoll(): seq<Move> {
    [AskSection(Overview, Latest, None), DispatchFirst, Lanes(Receive(Evidence)), Lanes(Execute(Evidence)), Lanes(Answer(Evidence))]
  }

  /** The view is closed and opened again before the answer is read. */
  function Reopened(): System {
    FirstView().(pipe := RunMoves(FirstView(), FirstPoll()).pipe)
  }

  lemma FirstPollSent()
    ensures var c := FetchOperatorView("run", Overview, Latest, false, None, 1);
            RunMoves(FirstView(), FirstPoll()[..2]).pipe == Pipe([], DispatchStep(Start, c).0)
  {
    var c := FetchOperatorView("run", Overview, Latest, false, None, 1);
    assert Moved(FirstView(), FirstPoll()[0]).pipe == Pipe([c], Start);
    assert FirstPoll()[..0] == [];
    RunPrefix(FirstView(), FirstPoll(), 0);
    RunPrefix(FirstView(), FirstPoll(), 1);
  }

  lemma SentIsAnswered(c: HostCommand)
    requires c.FetchOperatorView?
    ensures var sent := DispatchStep(Start, c).0;
            Answered(Executed(Received(sent, Evidence), Evidence), Evidence) == Start.(messages := [c])
  {
    var sent := DispatchStep(Start, c).0;
    assert Received(sent, Evidence) == sent.(evidence := LaneState([], Executing(c)));
    assert Executed(Received(sent, Evidence), Evidence) == Start.(evidence := LaneState([], Answering(c)));
  }

  lemma FirstPollAnswered()
    ensures Reopened().pipe == Pipe([], Start.(messages := [FetchOperatorView("run", Overview, Latest, false, None, 1)]))
  {
    hide DispatchStep, Received, Executed, Answered, RunMoves;
    var moves := FirstPoll();
    FirstPollSent();
    SentIsAnswered(FetchOperatorView("run", Overview, Latest, false, None, 1));
    RunPrefix(FirstView(), moves, 2);
    RunPrefix(FirstView(), moves, 3);
    RunPrefix(FirstView(), moves, 4);
    assert moves[..5] == moves;
  }

  /** Two answers are then on their way for the first poll of the reopened view: its id is in use again. */
  lemma EqualIdsAnswerTwice()
    ensures Opened(Reopened())
    ensures var ask := AskSection(Overview, Latest, None);
            && !Clear(Reopened(), ask, Overview)
            && Pending(Moved(Reopened(), ask), Overview) && Awaited(Moved(Reopened(), ask), Overview) == 2
  {
    hide PoolInvariant, Count;
    StartHolds();
    RunKeepsPool(FirstView(), FirstPoll());
    FirstPollAnswered();
    LeftoverCounts();
    AskIsExact(Reopened(), AskSection(Overview, Latest, None), Overview);
  }

  lemma LeftoverCounts()
    ensures Carrying(Reopened(), Overview, 1) == 1
  {
    FirstPollAnswered();
    var c, keep := FetchOperatorView("run", Overview, Latest, false, None, 1), Carries(Some("run"), Overview, 1);
    hide Matches, Reopened;
    MatchesAdds([], c, keep);
    StartCount(keep);
  }
}
