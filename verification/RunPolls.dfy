/**
  The poll bookkeeping of the run on display: which sections are asked for, which final refreshes
  are claimed, and what a dispatch outcome or an answer changes.
 */
module RunPolls {
  import opened Options
  import opened HostCommands
  import opened Workers
  import opened Preflight

  const SectionCount: nat := 9

  function Index(s: Section): (i: nat)
    ensures i < SectionCount
  {
    match s
    case Overview => 0 case Progress => 1 case Agents => 2 case Beliefs => 3 case Context => 4
    case World => 5 case Environment => 6 case Stack => 7 case Artifacts => 8
  }

  lemma SameIndexSameSection(s: Section, t: Section)
    ensures Index(s) == Index(t) <==> s == t
  {
  }

  /** The request ids and pending flags of one run view. */
  datatype Bookkeeping = Bookkeeping(latest: seq<nat>, pending: seq<bool>, sequence: nat)

  type Requests = v: Bookkeeping | |v.latest| == SectionCount && |v.pending| == SectionCount
    witness Bookkeeping(seq(SectionCount, i => 0), seq(SectionCount, i => false), 0)

  /** A view that has asked for nothing. */
  function NoRequests(): Requests {
    Bookkeeping(seq(SectionCount, i => 0), seq(SectionCount, i => false), 0)
  }

  /** The run on display, its view's requests and, once it has ended, the refreshes already claimed. */
  datatype Polls = Polls(run: Option<string>, requests: Requests, claims: Option<set<RefreshKey>>)

  function LatestId(v: Requests, s: Section): nat {
    v.latest[Index(s)]
  }

  function IsPending(v: Requests, s: Section): bool {
    v.pending[Index(s)]
  }

  // ---------------------------------------------------------------- the steps on values

  /** Whether a poll may be issued, and the claims with it. */
  function Claimed(claims: Option<set<RefreshKey>>, key: RefreshKey): (Option<set<RefreshKey>>, bool) {
    match claims case None => (None, true) case Some(done) => (Some(done + {key}), key !in done)
  }

  function Released(claims: Option<set<RefreshKey>>, key: RefreshKey): Option<set<RefreshKey>> {
    match claims case None => None case Some(done) => Some(done - {key})
  }

  /** Whether `request_section` goes ahead: a run on display, nothing pending and the refresh not claimed yet. */
  predicate MayAsk(p: Polls, s: Section) {
    p.run.Some? && !IsPending(p.requests, s) && Claimed(p.claims, SectionRefresh(s)).1
  }

  function Requested(p: Polls, s: Section, cursor: Cursor, etag: Option<string>): (Polls, seq<HostCommand>) {
    if !MayAsk(p, s) then (p, [])
    else
      var v, id, i := p.requests, p.requests.sequence + 1, Index(s);
      (p.(requests := v.(sequence := id, latest := v.latest[i := id], pending := v.pending[i := true]),
          claims := Claimed(p.claims, SectionRefresh(s)).0),
       [FetchOperatorView(p.run.value, s, cursor, false, etag, id)])
  }

  /** Whether a section poll, its answer or its drop is the one its section waits for. */
  predicate Awaits(p: Polls, c: HostCommand) {
    c.FetchOperatorView? && Some(c.missionRunId) == p.run && LatestId(p.requests, c.section) == c.requestId
  }

  function Settled(p: Polls, s: Section): Polls {
    p.(requests := p.requests.(pending := p.requests.pending[Index(s) := false]))
  }

  /** The claim of a poll that is dropped; section polls are treated on their own. */
  function ClaimOf(c: HostCommand): Option<RefreshKey> {
    match c
    case PollCurrent(_) => Some(CurrentRefresh)
    case FetchWorldFrame(_, source, _) => Some(FrameRefresh(source))
    case FetchConversationEntries(_, artifact) => Some(ConversationRefresh(artifact))
    case FetchArtifactContent(ServiceLog, _, artifact, offset, _) => Some(ServiceLogRefresh(artifact, offset))
    case _ => None
  }

  /** What a dispatch outcome changes, and the commands it returns to the outbox; preflight queries belong to Launch. */
  function Dispatched(p: Polls, outcome: Dispatch): (Polls, seq<HostCommand>) {
    match outcome
    case Dropped(c) =>
      if c.FetchOperatorView? then
        (if Awaits(p, c) then Settled(p, c.section).(claims := Released(p.claims, SectionRefresh(c.section))) else p, [])
      else if ClaimOf(c).Some? then (p.(claims := Released(p.claims, ClaimOf(c).value)), [])
      else (p, if c.Preflight? then [] else [c])
    case Coalesced(c, Some(original)) =>
      (if Awaits(p, c) then p.(requests := p.requests.(latest := p.requests.latest[Index(c.section) := original])) else p, [])
    case _ => (p, [])
  }

  /** What an answer does to the request it answers. */
  function Reduced(p: Polls, c: HostCommand): Polls {
    if Awaits(p, c) then Settled(p, c.section) else p
  }

  /** A claim is granted once until it is released, and neither touches another one; before the run has ended all are granted. */
  lemma ClaimedOnce(claims: Option<set<RefreshKey>>, key: RefreshKey, other: RefreshKey)
    requires other != key
    ensures var (taken, _) := Claimed(claims, key);
            && (claims.None? <==> taken.None?)
            && Claimed(taken, key).1 == claims.None?
            && Claimed(taken, other).1 == Claimed(claims, other).1
            && Claimed(Released(taken, key), key).1
            && Claimed(Released(claims, key), other).1 == Claimed(claims, other).1
            && (Released(claims, key).None? <==> claims.None?)
  {
  }

  /**
    A section that asks takes the next id of its view, is pending and has its refresh claimed; it may
    not ask again until its answer is settled and, after the run has ended, the claim is released.
   */
  lemma AskedOnceOnly(p: Polls, s: Section, cursor: Cursor, etag: Option<string>)
    requires MayAsk(p, s)
    ensures var (q, commands) := Requested(p, s, cursor, etag);
            && |commands| == 1 && Awaits(q, commands[0]) && commands[0].section == s && commands[0].cursor == cursor && !commands[0].raw
            && commands[0].etag == etag && Some(commands[0].missionRunId) == p.run && commands[0].requestId > p.requests.sequence
            && q.requests.sequence == commands[0].requestId && IsPending(q.requests, s) && !MayAsk(q, s)
            && (MayAsk(Settled(q, s), s) <==> p.claims.None?)
            && MayAsk(Settled(q, s).(claims := Released(q.claims, SectionRefresh(s))), s)
  {
  }

  /**
    A dropped section poll may be asked for again at once if it was the awaited one, the section's last
    for the run on display; any other leaves everything as it was. It is not put back into the outbox.
   */
  lemma DroppedMayAskAgain(p: Polls, c: HostCommand)
    requires c.FetchOperatorView?
    ensures var (q, commands), v, s := Dispatched(p, Dropped(c)), p.requests, c.section;
            && commands == [] && q.requests.sequence == v.sequence && LatestId(q.requests, s) == LatestId(v, s)
            && if p.run == Some(c.missionRunId) && LatestId(v, s) == c.requestId
               then MayAsk(q, s) && (q.claims.None? <==> p.claims.None?)
               else q == p
  {
  }

  /** A coalesced section poll waits for the answer of the older one; one not awaited changes nothing. */
  lemma CoalescedWaitsForOlder(p: Polls, c: HostCommand, original: nat)
    requires c.FetchOperatorView?
    ensures var (q, commands), v, s := Dispatched(p, Coalesced(c, Some(original))), p.requests, c.section;
            && commands == [] && q.claims == p.claims && q.requests.pending == v.pending
            && if p.run == Some(c.missionRunId) && LatestId(v, s) == c.requestId
               then LatestId(q.requests, s) == original && Awaits(q, c.(requestId := original))
               else q == p
  {
  }

  /**
    Other dropped polls of the run on display only give their claim back: `/current`, frames,
    conversations and the service log. Anything else that is dropped returns to the outbox, except
    preflight queries, which Launch asks again.
   */
  lemma DroppedReadsRelease(p: Polls, c: HostCommand)
    requires !c.FetchOperatorView?
    ensures var (q, commands) := Dispatched(p, Dropped(c));
            var claimed := c.PollCurrent? || c.FetchWorldFrame? || c.FetchConversationEntries?
                           || (c.FetchArtifactContent? && c.purpose == ServiceLog);
            && q.requests == p.requests && q.run == p.run
            && commands == (if claimed || c.Preflight? then [] else [c])
            && (!claimed ==> q == p)
            && (c.PollCurrent? ==> Claimed(q.claims, CurrentRefresh).1)
            && (c.FetchWorldFrame? ==> Claimed(q.claims, FrameRefresh(c.source)).1)
            && (c.FetchConversationEntries? ==> Claimed(q.claims, ConversationRefresh(c.artifactId)).1)
            && (c.FetchArtifactContent? && c.purpose == ServiceLog ==> Claimed(q.claims, ServiceLogRefresh(c.artifactId, c.offset)).1)
  {
  }

  predicate SameFor(p: Polls, q: Polls, s: Section) {
    LatestId(q.requests, s) == LatestId(p.requests, s) && IsPending(q.requests, s) == IsPending(p.requests, s) && MayAsk(q, s) == MayAsk(p, s)
  }

  /** Asking for one section and settling its answer leave the others as they were. */
  lemma OthersUntouched(p: Polls, s: Section, other: Section, cursor: Cursor, etag: Option<string>)
    requires other != s
    ensures SameFor(p, Requested(p, s, cursor, etag).0, other) && SameFor(p, Settled(p, s), other)
  {
    hide Index, Requested, SameFor;
    SameIndexSameSection(s, other);
    AskingLeaves(p, s, other, cursor, etag);
    SettlingLeaves(p, s, other);
  }

  lemma AskingLeaves(p: Polls, s: Section, other: Section, cursor: Cursor, etag: Option<string>)
    requires Index(other) != Index(s) && other != s
    ensures SameFor(p, Requested(p, s, cursor, etag).0, other)
  {
    hide Index, Claimed;
    ClaimedOnce(p.claims, SectionRefresh(s), SectionRefresh(other));
  }

  lemma SettlingLeaves(p: Polls, s: Section, other: Section)
    requires Index(other) != Index(s)
    ensures SameFor(p, Settled(p, s), other)
  {
    hide Index;
  }

  // ---------------------------------------------------------------- the same steps in place

  class RunPoller {
    var run: Option<string>
    var requests: Requests
    var claims: Option<set<RefreshKey>>
    var outbox: seq<HostCommand>
    const launch: LaunchState

    function View(): Polls
      reads this
    {
      Polls(run, requests, claims)
    }

    constructor (launch: LaunchState)
      ensures this.launch == launch && View() == Polls(None, NoRequests(), None) && outbox == []
    {
      this.launch := launch;
      run, requests, claims, outbox := None, NoRequests(), None, [];
    }

    method ClaimRefresh(key: RefreshKey) returns (granted: bool)
      modifies this`claims
      ensures (claims, granted) == Claimed(old(claims), key)
    {
      if claims.None? {
        return true;
      }
      granted := key !in claims.value;
      claims := Some(claims.value + {key});
    }

    method ReleaseRefresh(key: RefreshKey)
      modifies this`claims
      ensures claims == Released(old(claims), key)
    {
      if claims.Some? {
        claims := Some(claims.value - {key});
      }
    }

    /** Asks for the section's next page unless there is no run, it is pending or its refresh is already claimed. */
    method RequestSection(s: Section, before: Option<nat>, after: Option<nat>, etag: Option<string>)
      modifies this`requests, this`claims, this`outbox
      ensures var (p, commands) := Requested(old(View()), s, CursorOf(before, after), if before.Some? then None else etag);
              View() == p && outbox == old(outbox) + commands
    {
      if run.None? {
        return;
      }
      if requests.pending[Index(s)] {
        return;
      }
      ghost var before' := claims;
      var granted := ClaimRefresh(SectionRefresh(s));
      if !granted {
        assert before'.value + {SectionRefresh(s)} == before'.value;
        return;
      }
      requests := requests.(sequence := requests.sequence + 1);
      var id := requests.sequence;
      requests := requests.(latest := requests.latest[Index(s) := id]);
      requests := requests.(pending := requests.pending[Index(s) := true]);
      outbox := outbox + [FetchOperatorView(run.value, s, CursorOf(before, after), false, if before.Some? then None else etag, id)];
    }

    /** Dispatch backpressure: releases claims, keeps the id of an older identical poll, or tries again. */
    method ApplyDispatch(outcome: Dispatch, now: int)
      modifies this`requests, this`claims, this`outbox, launch
      ensures var (p, commands) := Dispatched(old(View()), outcome);
              View() == p && outbox == old(outbox) + commands
      ensures launch.View() == DispatchApplied(old(launch.View()), outcome, now)
    {
      match outcome
      case Dropped(c) => {
        match c
        case FetchOperatorView(runId, section, _, _, _, id) =>
          if run == Some(runId) && requests.latest[Index(section)] == id {
            requests := requests.(pending := requests.pending[Index(section) := false]);
            ReleaseRefresh(SectionRefresh(section));
          }
        case PollCurrent(_) => ReleaseRefresh(CurrentRefresh);
        case FetchWorldFrame(_, source, _) => ReleaseRefresh(FrameRefresh(source));
        case FetchConversationEntries(_, artifact) => ReleaseRefresh(ConversationRefresh(artifact));
        case FetchArtifactContent(ServiceLog, _, artifact, offset, _) => ReleaseRefresh(ServiceLogRefresh(artifact, offset));
        case Preflight(id, _) => launch.RetryDroppedPreflight(id, now);
        case _ => outbox := outbox + [c];
      }
      case Coalesced(c, Some(original)) => {
        match c
        case FetchOperatorView(runId, section, _, _, _, id) =>
          if run == Some(runId) && requests.latest[Index(section)] == id {
            requests := requests.(latest := requests.latest[Index(section) := original]);
          }
        case Preflight(id, _) => launch.AdoptPreflightRequest(id, original);
        case _ =>
      }
      case _ =>
    }

    /** Whether an answer is accepted, which settles its section's request. */
    method ReduceOperatorView(answered: HostCommand) returns (accepted: bool)
      requires answered.FetchOperatorView?
      modifies this`requests
      ensures accepted == old(Awaits(View(), answered))
      ensures View() == old(Reduced(View(), answered))
    {
      if requests.latest[Index(answered.section)] != answered.requestId || run != Some(answered.missionRunId) {
        return false;
      }
      requests := requests.(pending := requests.pending[Index(answered.section) := false]);
      return true;
    }
  }
}
