/**
  History browsing. A read-only historical run is displayed in place of the current run, whose
  context is parked behind it; messages are routed to the context they are about. What a page does
  inside a run's context is left open as `Rules`, so everything here holds for any such reducers.
 */
module History {
  import opened Options
  import H = HostCommands
  import Workers
  import Preflight
  import RunPolls

  datatype Result<T> = Ok(value: T) | Err(error: string)

  datatype Screen = Connecting | Launch | Review | Run | Error(message: string, retryConnect: bool)

  datatype RunRecord = RunRecord(missionRunId: string, status: string)

  /** The parts of a run's context that its pages and polls change; `requests` and `view` make up the run's view. */
  datatype Body<V> = Body(view: V, requests: RunPolls.Requests, finalRefresh: Option<set<H.RefreshKey>>,
                          finalComplete: set<H.Section>, finalNarrativeReady: bool,
                          nextTerminalRefresh: Option<int>, notice: Option<string>)

  /** Everything that is swapped when a run is parked. */
  datatype Context<V> = Context(screen: Screen, run: Option<RunRecord>, body: Body<V>)

  datatype Loading = Loading(since: int, timedOut: nat)

  datatype HistoricalView<V> = HistoricalView(runId: string, unavailable: Option<string>, loading: Option<Loading>, current: Context<V>)

  datatype Origin = CleanExit | ContinueConsole

  datatype CancellationState = Idle | Confirming | Requested(requestId: string)

  datatype Cancellation = Cancellation(state: CancellationState, origin: Option<Origin>, requestId: Option<string>,
                                       submitting: bool, deadline: Option<int>)

  datatype CleanExit = Cancelled

  /** What belongs to the console rather than to a run's context. */
  datatype Shared = Shared(attention: seq<(RunRecord, Option<string>)>, cancellation: Cancellation, recovered: Option<string>,
                           cleanExit: Option<CleanExit>, credential: string, launch: Preflight.Launch)

  datatype App<V> = App(context: Context<V>, historical: Option<HistoricalView<V>>, shared: Shared, outbox: seq<H.HostCommand>)

  /** How the Host answers a section poll. */
  datatype PageAnswer = Page(content: nat) | NotModified | Mismatched | RootGone(message: string) | TimedOut | Failure(error: string)

  datatype Payload = OperatorView(section: H.Section, requestId: nat, answer: PageAnswer) | OtherRead(content: nat)

  datatype CancelReply = Accepted(missionRunId: string, requestId: string, requested: bool) | Rejected(reason: string)

  /** Messages about a run; `removable` says whether the owner's session file can be removed. */
  datatype Message =
    | Current(record: Result<Option<RunRecord>>, removable: bool)
    | Intent(runId: string, text: Result<string>)
    | CancelReplied(reply: CancelReply)
    | ReceiptExported(outcome: nat)
    | RunScoped(runId: string, payload: Payload)

  datatype Scope = Full | Lifecycle | Historical

  /** How pages and polls change a context, and the commands they push; `poll` asks for sections once `/current` is polled. */
  datatype Rules<!V> = Rules(
    newView: V,
    phase: Body<V> -> Option<string>,
    reduce: (Body<V>, Payload, bool) -> (Body<V>, seq<H.HostCommand>),
    receipt: (Body<V>, Option<RunRecord>, nat) -> (Body<V>, seq<H.HostCommand>),
    poll: (Body<V>, RunRecord, Scope, int) -> (Body<V>, seq<H.HostCommand>))

  predicate IsTerminal(run: RunRecord) {
    run.status == "succeeded" || run.status == "failed" || run.status == "cancelled"
  }

  function NewBody<V>(rules: Rules<V>): Body<V> {
    Body(rules.newView, RunPolls.NoRequests(), None, {}, false, None, None)
  }

  function RunId<V>(c: Context<V>): Option<string> {
    match c.run case Some(run) => Some(run.missionRunId) case None => None
  }

  // ---------------------------------------------------------------- what a message does to the context on display

  /** Edge detection sees the current run only, never a historical one. */
  function Observed<V>(rules: Rules<V>, a: App<V>): App<V> {
    if a.historical.Some? || a.context.run.None? then a
    else a.(shared := a.shared.(attention := a.shared.attention + [(a.context.run.value, rules.phase(a.context.body))]))
  }

  function LaunchEntered<V>(a: App<V>, now: int): App<V> {
    var b := a.(context := a.context.(screen := Launch));
    if a.shared.launch.presets.None? then b.(outbox := b.outbox + [H.FetchPresets])
    else b.(shared := b.shared.(launch := Preflight.Scheduled(b.shared.launch, now, 0)))
  }

  /** Leaving a finished run for a new intent, once the owner's session file is removed. */
  function NewIntent<V>(rules: Rules<V>, a: App<V>, removable: bool, now: int): App<V> {
    if !removable then a.(context := a.context.(body := a.context.body.(notice := Some("could not remove owner session"))))
    else
      LaunchEntered(a.(context := a.context.(run := None, body := NewBody(rules)),
                       shared := a.shared.(recovered := None, cancellation := Cancellation(Idle, None, None, false, None))), now)
  }

  /** The record becomes the displayed run's; another run starts with a new body, and a finished one with its final refresh. */
  function RunTaken<V>(rules: Rules<V>, c: Context<V>, record: Option<RunRecord>, recovering: bool, now: int): Context<V> {
    var id := match record case Some(run) => Some(run.missionRunId) case None => None;
    var body := if RunId(c) == id then c.body else NewBody(rules).(notice := c.body.notice);
    var last := if record.Some? && IsTerminal(record.value) && body.finalRefresh.None?
                then body.(finalRefresh := Some({H.CurrentRefresh}), nextTerminalRefresh := Some(now)) else body;
    Context(if recovering && record.Some? then Run else c.screen, record, last)
  }

  /** A cancelled run completes the exit, or the cancellation, that asked for it. */
  function CancelledRun<V>(a: App<V>, removable: bool): App<V> {
    var cancelled := a.context.run.Some? && a.context.run.value.status == "cancelled";
    var origin := a.shared.cancellation.origin;
    if cancelled && origin == Some(CleanExit) then
      if removable then a.(shared := a.shared.(cleanExit := Some(Cancelled), cancellation := a.shared.cancellation.(deadline := None)))
      else a.(context := a.context.(body := a.context.body.(notice := Some("could not remove owner session"))))
    else if cancelled && origin == Some(ContinueConsole) then
      a.(shared := a.shared.(cancellation := Cancellation(Idle, None, None, false, a.shared.cancellation.deadline)))
    else a
  }

  function CurrentReduced<V>(rules: Rules<V>, a: App<V>, record: Option<RunRecord>, removable: bool, now: int): App<V> {
    var owner := a.shared.recovered;
    if owner.Some? && (record.None? || record.value.missionRunId != owner.value) then
      var c := a.context.(run := None, body := a.context.body.(notice := Some("recovered owner run is not current")));
      LaunchEntered(a.(context := c, shared := a.shared.(recovered := None)), now)
    else
      Observed(rules, CancelledRun(a.(context := RunTaken(rules, a.context, record, owner.Some?, now)), removable))
  }

  /** The milliseconds between two polls of a run that has ended. */
  const TerminalCadence: int := 2000

  /** Whether every section of a run that has ended has been refreshed after its final narrative. */
  predicate PollingStopped<V>(body: Body<V>) {
    body.finalNarrativeReady && forall s: H.Section :: s in body.finalComplete
  }

  /** Whether a run is to be polled now; one that has ended only every so often until it is complete. */
  predicate MayPoll<V>(body: Body<V>, now: int) {
    body.finalRefresh.None?
    || (!PollingStopped(body) && (body.nextTerminalRefresh.None? || now >= body.nextTerminalRefresh.value))
  }

  /** `/current` is polled unless its refresh is claimed; a run that has ended is due again a little later. */
  function CurrentPolled<V>(a: App<V>, now: int): App<V> {
    var (claims, granted) := RunPolls.Claimed(a.context.body.finalRefresh, H.CurrentRefresh);
    var next := if a.context.body.finalRefresh.Some? then Some(now + TerminalCadence) else a.context.body.nextTerminalRefresh;
    a.(context := a.context.(body := a.context.body.(finalRefresh := claims, nextTerminalRefresh := next)),
       outbox := a.outbox + if granted then [H.PollCurrent(a.shared.credential)] else [])
  }

  /** `poll_run`: `/current`, whatever the scope, and then the sections. */
  function PolledFull<V>(rules: Rules<V>, a: App<V>, scope: Scope, now: int): App<V> {
    var within := scope == Historical || a.shared.cancellation.deadline.None? || now <= a.shared.cancellation.deadline.value;
    if a.context.screen != Run || !within || !MayPoll(a.context.body, now) then a
    else
      var b := CurrentPolled(a, now);
      match a.context.run
      case None => b
      case Some(run) =>
        var (polled, commands) := rules.poll(b.context.body, run, scope, now);
        b.(context := b.context.(body := polled), outbox := b.outbox + commands)
  }

  function CancelReduced<V>(rules: Rules<V>, a: App<V>, reply: CancelReply, now: int): App<V> {
    var c := a.shared.cancellation;
    if reply.Accepted? && c.requestId.None? then a
    else if reply.Accepted? && RunId(a.context) == Some(reply.missionRunId) && c.requestId == Some(reply.requestId) && reply.requested then
      var b := a.(shared := a.shared.(cancellation := c.(state := Requested(reply.requestId), requestId := None, submitting := false)));
      PolledFull(rules, b, Full, now)
    else
      var failure := if reply.Accepted? then "cancellation contract failure" else reply.reason;
      a.(shared := a.shared.(cancellation := c.(state := Idle, requestId := None, submitting := false,
                                                origin := if c.origin == Some(ContinueConsole) then None else c.origin)),
         context := a.context.(body := a.context.body.(notice := Some(failure))))
  }

  /** The request bookkeeping of the run on display. */
  function PollsOf<V>(c: Context<V>): RunPolls.Polls {
    RunPolls.Polls(RunId(c), c.body.requests, c.body.finalRefresh)
  }

  function WithPolls<V>(c: Context<V>, p: RunPolls.Polls): Context<V> {
    c.(body := c.body.(requests := p.requests, finalRefresh := p.claims))
  }

  /** What an answer about the run on display does to a historical view's loading state. */
  function LoadingAfter<V>(h: HistoricalView<V>, payload: Payload): HistoricalView<V> {
    match payload
    case OperatorView(section, _, Page(_)) => if section == H.Overview then h.(loading := None) else h
    case OperatorView(section, _, NotModified) => if section == H.Overview then h.(loading := None) else h
    case OperatorView(_, _, RootGone(message)) => h.(unavailable := Some(message), loading := None)
    case OperatorView(_, _, TimedOut) =>
      if h.loading.Some? then h.(loading := Some(h.loading.value.(timedOut := h.loading.value.timedOut + 1))) else h
    case _ => h
  }

  /** Whether the run on display takes an answer: it is about that run, and a section's answer is the one awaited. */
  predicate Takes<V>(c: Context<V>, runId: string, payload: Payload) {
    && RunId(c) == Some(runId)
    && (payload.OperatorView? ==> RunPolls.LatestId(c.body.requests, payload.section) == payload.requestId)
  }

  /** The section that an answer settles is not pending any more. */
  function Answered<V>(c: Context<V>, payload: Payload): Context<V> {
    if payload.OperatorView? then WithPolls(c, RunPolls.Settled(PollsOf(c), payload.section)) else c
  }

  /** A page, failure or frame of a run; only the run on display takes it. */
  function RunReduced<V>(rules: Rules<V>, a: App<V>, runId: string, payload: Payload): App<V> {
    if !Takes(a.context, runId, payload) then a
    else
      var loading := a.historical.Some? && a.historical.value.loading.Some?;
      var settled := Answered(a.context, payload);
      var (body, commands) := rules.reduce(settled.body, payload, loading);
      var h := match a.historical case None => None case Some(view) => Some(LoadingAfter(view, payload));
      var b := a.(context := settled.(body := body), outbox := a.outbox + commands, historical := h);
      if payload.OperatorView? && payload.section == H.Overview && payload.answer.Page? then Observed(rules, b) else b
  }

  /** `apply_host_message` for the messages about a run. */
  function Applied<V>(rules: Rules<V>, a: App<V>, m: Message, now: int): App<V> {
    match m
    case Current(Ok(record), removable) => CurrentReduced(rules, a, record, removable, now)
    case Current(Err(error), _) => a.(context := a.context.(body := Released(a.context.body).(notice := Some(error))))
    case Intent(runId, Ok(text)) =>
      if a.shared.recovered == Some(runId) then a.(shared := a.shared.(launch := a.shared.launch.(text := text))) else a
    case Intent(_, Err(error)) =>
      if a.shared.recovered.Some? then a.(context := a.context.(screen := Screen.Error(error, false))) else a
    case CancelReplied(reply) => CancelReduced(rules, a, reply, now)
    case ReceiptExported(outcome) =>
      var (body, commands) := rules.receipt(a.context.body, a.context.run, outcome);
      a.(context := a.context.(body := body), outbox := a.outbox + commands)
    case RunScoped(runId, payload) => RunReduced(rules, a, runId, payload)
  }

  function Released<V>(body: Body<V>): Body<V> {
    body.(finalRefresh := RunPolls.Released(body.finalRefresh, H.CurrentRefresh))
  }

  /** `apply_dispatch`: backpressure on the polls of the run on display, and on Launch's preflight. */
  function DispatchReduced<V>(a: App<V>, outcome: Workers.Dispatch, now: int): App<V> {
    var (polls, commands) := RunPolls.Dispatched(PollsOf(a.context), outcome);
    a.(context := WithPolls(a.context, polls), outbox := a.outbox + commands,
       shared := a.shared.(launch := Preflight.DispatchApplied(a.shared.launch, outcome, now)))
  }

  // ---------------------------------------------------------------- parking and routing

  function ReturnsToRun<V>(h: HistoricalView<V>): bool {
    h.current.screen == Run
  }

  /** The context on display and the given one change places. */
  function Swapped<V>(a: App<V>, c: Context<V>): (App<V>, Context<V>) {
    (a.(context := c), a.context)
  }

  /** The console with history closed: the current run back on display. */
  function Unparked<V>(a: App<V>): App<V> {
    match a.historical case None => a case Some(h) => Swapped(a, h.current).0.(historical := None)
  }

  /** Runs `f` against the current run's context, parked or on display. */
  function WithCurrentRun<V>(a: App<V>, f: App<V> -> App<V>): App<V> {
    match a.historical
    case None => f(a)
    case Some(h) =>
      var (inner, shown) := Swapped(a.(historical := None), h.current);
      var (outer, current) := Swapped(f(inner), shown);
      outer.(historical := Some(h.(current := current)))
  }

  predicate ForParkedRun<V>(a: App<V>, m: Message) {
    a.historical.Some? &&
    match m
    case RunScoped(runId, _) => RunId(a.historical.value.current) == Some(runId)
    case _ => true
  }

  /** A `/current` answer refreshes the record of the displayed run; with Launch parked it goes no further. */
  function CurrentSynced<V>(a: App<V>, m: Message, now: int): (App<V>, bool) {
    if !m.Current? || a.historical.None? then (a, false)
    else
      var parkedRun := ReturnsToRun(a.historical.value);
      match m.record
      case Ok(Some(record)) =>
        if RunId(a.context) == Some(record.missionRunId) then
          var b := a.(context := a.context.(run := Some(record)));
          (if IsTerminal(record) && b.context.body.finalRefresh.None?
           then b.(context := b.context.(body := b.context.body.(finalRefresh := Some({H.CurrentRefresh}), nextTerminalRefresh := Some(now))))
           else b, !parkedRun)
        else (a, !parkedRun)
      case Ok(None) => (a, !parkedRun)
      case Err(_) => (if parkedRun then a else a.(context := a.context.(body := Released(a.context.body))), !parkedRun)
  }

  /** `handle_host_message` for the messages about a run. */
  function Handled<V>(rules: Rules<V>, a: App<V>, m: Message, now: int): App<V> {
    var (b, consumed) := CurrentSynced(a, m, now);
    if consumed then b
    else if ForParkedRun(b, m) then WithCurrentRun(b, x => Applied(rules, x, m, now))
    else Applied(rules, b, m, now)
  }

  /** Backpressure goes to the parked run for its own reads and, over a parked Run screen, for every `/current` poll. */
  predicate DispatchForParked<V>(a: App<V>, outcome: Workers.Dispatch) {
    a.historical.Some? && (outcome.Dropped? || outcome.Coalesced?) &&
    match H.RunIdOf(outcome.command)
    case Some(runId) => RunId(a.historical.value.current) == Some(runId)
    case None => outcome.command.PollCurrent? && ReturnsToRun(a.historical.value)
  }

  /** `handle_dispatch`. */
  function Backpressured<V>(a: App<V>, outcome: Workers.Dispatch, now: int): App<V> {
    if DispatchForParked(a, outcome) then WithCurrentRun(a, x => DispatchReduced(x, outcome, now))
    else DispatchReduced(a, outcome, now)
  }

  /** `request_poll`: the displayed run's sections and, behind them, the current run's lifecycle. */
  function Polled<V>(rules: Rules<V>, a: App<V>, now: int): App<V> {
    if a.historical.Some? then WithCurrentRun(PolledFull(rules, a, Historical, now), x => PolledFull(rules, x, Lifecycle, now))
    else PolledFull(rules, a, Full, now)
  }

  /** Displays a run read-only; the current context is parked, or stays parked. */
  function Displayed<V>(rules: Rules<V>, a: App<V>, record: RunRecord, now: int): App<V> {
    var terminal := IsTerminal(record);
    var body := NewBody(rules).(finalRefresh := if terminal then Some({H.CurrentRefresh}) else None,
                                nextTerminalRefresh := if terminal then Some(now) else None);
    var (b, previous) := Swapped(a, Context(Run, Some(record), body));
    var loading := Some(Loading(now, 0));
    match a.historical
    case Some(h) => b.(historical := Some(HistoricalView(record.missionRunId, None, loading, h.current)))
    case None => b.(historical := Some(HistoricalView(record.missionRunId, None, loading, previous)))
  }

  /** Opening a run displays it and polls at once. */
  function Opened<V>(rules: Rules<V>, a: App<V>, record: RunRecord, now: int): App<V> {
    Polled(rules, Displayed(rules, a, record, now), now)
  }

  /** Esc brings the current run back and, on a Run screen, polls at once. */
  function Closed<V>(rules: Rules<V>, a: App<V>, now: int): App<V> {
    if a.historical.None? then a else PolledFull(rules, Unparked(a), Full, now)
  }

  /** Enter on a history row: the current run on a Run screen is shown live, the displayed run stays, any other is opened. */
  function RowOpened<V>(rules: Rules<V>, a: App<V>, record: RunRecord, available: bool, now: int): App<V> {
    var current := match a.historical case Some(h) => h.current case None => a.context;
    if !available then a
    else if current.screen == Run && RunId(current) == Some(record.missionRunId) then Closed(rules, a, now)
    else if RunId(a.context) == Some(record.missionRunId) && a.historical.Some? then a
    else Opened(rules, a, record, now)
  }

  // ---------------------------------------------------------------- the same in place

  class ConsoleApp<V> {
    const rules: Rules<V>
    var screen: Screen
    var run: Option<RunRecord>
    var body: Body<V>
    var historical: Option<HistoricalView<V>>
    var shared: Shared
    var outbox: seq<H.HostCommand>

    function View(): App<V>
      reads this
    {
      App(Context(screen, run, body), historical, shared, outbox)
    }

    constructor (rules: Rules<V>, shared: Shared)
      ensures this.rules == rules && View() == App(Context(Connecting, None, NewBody(rules)), None, shared, [])
    {
      this.rules := rules;
      screen, run, body, historical := Connecting, None, NewBody(rules), None;
      this.shared, outbox := shared, [];
    }

    /** Exchanges the displayed context with `parked`. */
    method SwapContext(parked: Context<V>) returns (displaced: Context<V>)
      modifies this`screen, this`run, this`body
      ensures (View(), displaced) == old(Swapped(View(), parked))
    {
      displaced := Context(screen, run, body);
      screen, run, body := parked.screen, parked.run, parked.body;
    }

    method ObserveAttention()
      modifies this`shared
      ensures View() == old(Observed(rules, View()))
    {
      if historical.Some? {
        return;
      }
      if run.None? {
        return;
      }
      shared := shared.(attention := shared.attention + [(run.value, rules.phase(body))]);
    }

    method EnterLaunch(now: int)
      modifies this
      ensures View() == old(LaunchEntered(View(), now))
    {
      screen := Launch;
      if shared.launch.presets.None? {
        outbox := outbox + [H.FetchPresets];
      } else {
        shared := shared.(launch := Preflight.Scheduled(shared.launch, now, 0));
      }
    }

    method StartNewIntent(removable: bool, now: int)
      modifies this
      ensures View() == old(NewIntent(rules, View(), removable, now))
    {
      if !removable {
        body := body.(notice := Some("could not remove owner session"));
        return;
      }
      run := None;
      body := Body(rules.newView, RunPolls.NoRequests(), None, {}, false, None, None);
      shared := shared.(recovered := None, cancellation := Cancellation(Idle, None, None, false, None));
      EnterLaunch(now);
    }

    method OnCurrent(record: Option<RunRecord>, removable: bool, now: int)
      modifies this
      ensures View() == old(CurrentReduced(rules, View(), record, removable, now))
    {
      hide RunTaken, CancelledRun, LaunchEntered;
      var owner := shared.recovered;
      if owner.Some? && (record.None? || record.value.missionRunId != owner.value) {
        body := body.(notice := Some("recovered owner run is not current"));
        shared := shared.(recovered := None);
        run := None;
        EnterLaunch(now);
        return;
      }
      TakeRun(record, owner.Some?, now);
      SettleCancelledRun(removable);
      ObserveAttention();
    }

    method TakeRun(record: Option<RunRecord>, recovering: bool, now: int)
      modifies this`screen, this`run, this`body
      ensures Context(screen, run, body) == old(RunTaken(rules, Context(screen, run, body), record, recovering, now))
    {
      var id := match record case Some(r) => Some(r.missionRunId) case None => None;
      if RunId(Context(screen, run, body)) != id {
        body := Body(rules.newView, RunPolls.NoRequests(), None, {}, false, None, body.notice);
      }
      run := record;
      if run.Some? && IsTerminal(run.value) && body.finalRefresh.None? {
        body := body.(finalRefresh := Some({H.CurrentRefresh}), nextTerminalRefresh := Some(now));
      }
      if recovering && run.Some? {
        screen := Run;
      }
    }

    method SettleCancelledRun(removable: bool)
      modifies this`shared, this`body
      ensures View() == old(CancelledRun(View(), removable))
    {
      var cancelled := run.Some? && run.value.status == "cancelled";
      var origin := shared.cancellation.origin;
      if cancelled && origin == Some(CleanExit) {
        if removable {
          shared := shared.(cleanExit := Some(Cancelled), cancellation := shared.cancellation.(deadline := None));
        } else {
          body := body.(notice := Some("could not remove owner session"));
        }
      } else if cancelled && origin == Some(ContinueConsole) {
        shared := shared.(cancellation := Cancellation(Idle, None, None, false, shared.cancellation.deadline));
      }
    }

    method PollRun(scope: Scope, now: int)
      modifies this`body, this`outbox
      ensures View() == old(PolledFull(rules, View(), scope, now))
    {
      hide PollingStopped, CurrentPolled;
      var within := scope == Historical || shared.cancellation.deadline.None? || now <= shared.cancellation.deadline.value;
      if screen != Run || !within {
        return;
      }
      if body.finalRefresh.Some?
         && (PollingStopped(body) || (body.nextTerminalRefresh.Some? && now < body.nextTerminalRefresh.value)) {
        return;
      }
      PollCurrent(now);
      if run.None? {
        return;
      }
      var (polled, commands) := rules.poll(body, run.value, scope, now);
      body := polled;
      outbox := outbox + commands;
    }

    method PollCurrent(now: int)
      modifies this`body, this`outbox
      ensures View() == old(CurrentPolled(View(), now))
    {
      if body.finalRefresh.Some? {
        body := body.(nextTerminalRefresh := Some(now + TerminalCadence));
      }
      var (claims, granted) := RunPolls.Claimed(body.finalRefresh, H.CurrentRefresh);
      body := body.(finalRefresh := claims);
      if granted {
        outbox := outbox + [H.PollCurrent(shared.credential)];
      }
    }

    /** Polls the run on display and, with a historical one on display, the lifecycle of the parked one. */
    method RequestPoll(now: int)
      modifies this
      ensures View() == old(Polled(rules, View(), now))
    {
      if historical.None? {
        PollRun(Full, now);
        return;
      }
      PollRun(Historical, now);
      var parked := historical.value;
      historical := None;
      var shown := SwapContext(parked.current);
      PollRun(Lifecycle, now);
      var current := SwapContext(shown);
      historical := Some(parked.(current := current));
    }

    method OnCancelled(reply: CancelReply, now: int)
      modifies this
      ensures View() == old(CancelReduced(rules, View(), reply, now))
    {
      var c := shared.cancellation;
      var failure := "cancellation contract failure";
      match reply {
        case Accepted(runId, requestId, requested) =>
          if c.requestId.None? {
            return;
          }
          if RunId(Context(screen, run, body)) == Some(runId) && c.requestId == Some(requestId) && requested {
            shared := shared.(cancellation := c.(state := Requested(requestId), requestId := None, submitting := false));
            PollRun(Full, now);
            return;
          }
        case Rejected(reason) => failure := reason;
      }
      shared := shared.(cancellation := c.(state := Idle, requestId := None, submitting := false,
                                           origin := if c.origin == Some(ContinueConsole) then None else c.origin));
      body := body.(notice := Some(failure));
    }

    /** A page, failure or frame of the displayed run. */
    method ReduceRun(runId: string, payload: Payload)
      modifies this
      ensures View() == old(RunReduced(rules, View(), runId, payload))
    {
      if run.None? || run.value.missionRunId != runId {
        return;
      }
      if payload.OperatorView? {
        if body.requests.latest[RunPolls.Index(payload.section)] != payload.requestId {
          return;
        }
        body := body.(requests := body.requests.(pending := body.requests.pending[RunPolls.Index(payload.section) := false]));
      }
      var loading := historical.Some? && historical.value.loading.Some?;
      var (reduced, commands) := rules.reduce(body, payload, loading);
      body := reduced;
      outbox := outbox + commands;
      if historical.Some? {
        NoteLoading(payload);
      }
      if payload.OperatorView? && payload.section == H.Overview && payload.answer.Page? {
        ObserveAttention();
      }
    }

    /** An overview page ends a historical run's loading, a missing Run Root makes it unavailable, a timeout is counted. */
    method NoteLoading(payload: Payload)
      requires historical.Some?
      modifies this`historical
      ensures historical == Some(LoadingAfter(old(historical).value, payload))
    {
      if payload.OtherRead? {
        return;
      }
      match payload.answer
      case Page(_) =>
        if payload.section == H.Overview {
          historical := Some(historical.value.(loading := None));
        }
      case NotModified =>
        if payload.section == H.Overview {
          historical := Some(historical.value.(loading := None));
        }
      case RootGone(message) => historical := Some(historical.value.(unavailable := Some(message), loading := None));
      case TimedOut =>
        if historical.value.loading.Some? {
          var since := historical.value.loading.value;
          historical := Some(historical.value.(loading := Some(since.(timedOut := since.timedOut + 1))));
        }
      case _ =>
    }

    method ApplyHostMessage(m: Message, now: int)
      modifies this
      ensures View() == old(Applied(rules, View(), m, now))
    {
      match m
      case Current(Ok(record), removable) => OnCurrent(record, removable, now);
      case Current(Err(error), _) => body := Released(body).(notice := Some(error));
      case Intent(runId, Ok(text)) =>
        if shared.recovered == Some(runId) {
          shared := shared.(launch := shared.launch.(text := text));
        }
      case Intent(_, Err(error)) =>
        if shared.recovered.Some? {
          screen := Screen.Error(error, false);
        }
      case CancelReplied(reply) => OnCancelled(reply, now);
      case ReceiptExported(outcome) =>
        var (exported, commands) := rules.receipt(body, run, outcome);
        body := exported;
        outbox := outbox + commands;
      case RunScoped(runId, payload) => ReduceRun(runId, payload);
    }

    /** Refreshes the displayed run from a `/current` answer; returns whether the answer goes no further. */
    method SyncDisplayedCurrent(m: Message, now: int) returns (consumed: bool)
      modifies this`run, this`body
      ensures (View(), consumed) == old(CurrentSynced(View(), m, now))
    {
      if !m.Current? || historical.None? {
        return false;
      }
      var parkedRun := ReturnsToRun(historical.value);
      match m.record {
        case Ok(Some(record)) =>
          if RunId(Context(screen, run, body)) == Some(record.missionRunId) {
            run := Some(record);
            if IsTerminal(record) && body.finalRefresh.None? {
              body := body.(finalRefresh := Some({H.CurrentRefresh}), nextTerminalRefresh := Some(now));
            }
          }
        case Ok(None) =>
        case Err(_) =>
          if !parkedRun {
            body := Released(body);
          }
      }
      return !parkedRun;
    }

    /** Reduces a message into the context it is about, swapping the parked one in and out. */
    method HandleHostMessage(m: Message, now: int)
      modifies this
      ensures View() == old(Handled(rules, View(), m, now))
    {
      var consumed := SyncDisplayedCurrent(m, now);
      if consumed {
        return;
      }
      if ForParkedRun(View(), m) {
        var parked := historical.value;
        historical := None;
        var shown := SwapContext(parked.current);
        ApplyHostMessage(m, now);
        var current := SwapContext(shown);
        historical := Some(parked.(current := current));
      } else {
        ApplyHostMessage(m, now);
      }
    }

    method ApplyDispatch(outcome: Workers.Dispatch, now: int)
      modifies this
      ensures View() == old(DispatchReduced(View(), outcome, now))
    {
      var (polls, commands) := RunPolls.Dispatched(PollsOf(Context(screen, run, body)), outcome);
      body := body.(requests := polls.requests, finalRefresh := polls.claims);
      outbox := outbox + commands;
      shared := shared.(launch := Preflight.DispatchApplied(shared.launch, outcome, now));
    }

    /** Reports backpressure to the context it is routed to. */
    method HandleDispatch(outcome: Workers.Dispatch, now: int)
      modifies this
      ensures View() == old(Backpressured(View(), outcome, now))
    {
      if DispatchForParked(View(), outcome) {
        var parked := historical.value;
        historical := None;
        var shown := SwapContext(parked.current);
        ApplyDispatch(outcome, now);
        var current := SwapContext(shown);
        historical := Some(parked.(current := current));
      } else {
        ApplyDispatch(outcome, now);
      }
    }

    method OpenHistorical(record: RunRecord, now: int)
      modifies this
      ensures View() == old(Opened(rules, View(), record, now))
    {
      var terminal := IsTerminal(record);
      var shown := Body(rules.newView, RunPolls.NoRequests(), if terminal then Some({H.CurrentRefresh}) else None, {}, false,
                        if terminal then Some(now) else None, None);
      var context := SwapContext(Context(Run, Some(record), shown));
      var parked := if historical.Some? then historical.value.current else context;
      historical := Some(HistoricalView(record.missionRunId, None, Some(Loading(now, 0)), parked));
      RequestPoll(now);
    }

    method CloseHistoricalView(now: int)
      modifies this
      ensures View() == old(Closed(rules, View(), now))
    {
      if historical.Some? {
        var displaced := SwapContext(historical.value.current);
        historical := None;
        if screen == Run {
          RequestPoll(now);
        }
      }
    }
  }

  // ---------------------------------------------------------------- no interference

  /** The same current run, attention, cancellation and owner state; the outboxes may differ. */
  ghost predicate SameCurrent<V>(a: App<V>, b: App<V>) {
    a.historical.None? && b.historical.None? && a.context == b.context && a.shared == b.shared
  }

  /** Parking is undone by `Unparked`, and routing keeps the displayed context aside. */
  lemma RoutedActsUnparked<V>(rules: Rules<V>, a: App<V>, f: App<V> -> App<V>)
    requires a.historical.Some? && f(Unparked(a)).historical.None?
    ensures Unparked(WithCurrentRun(a, f)) == f(Unparked(a))
    ensures WithCurrentRun(a, f).context == a.context && WithCurrentRun(a, f).historical.Some?
    ensures WithCurrentRun(a, f).historical.value == a.historical.value.(current := f(Unparked(a)).context)
  {
    assert Unparked(a) == Swapped(a.(historical := None), a.historical.value.current).0;
  }

  // ---------------------------------------------------------------- what messages about the current run do

  function IdOf(record: Option<RunRecord>): Option<string> {
    match record case Some(run) => Some(run.missionRunId) case None => None
  }

  /** Nothing of the run is owned by another console session, or the answer is the owned run. */
  predicate OwnerAgrees<V>(a: App<V>, record: Option<RunRecord>) {
    a.shared.recovered.None? || IdOf(record) == a.shared.recovered
  }

  /** With history closed, an answer about the run already on display keeps its view, what it has asked for and what is complete. */
  lemma SameRunKeepsView<V>(rules: Rules<V>, a: App<V>, record: Option<RunRecord>, removable: bool, now: int)
    requires a.historical.None? && OwnerAgrees(a, record) && IdOf(record) == IdOf(a.context.run)
    ensures var b, before := Handled(rules, a, Current(Ok(record), removable), now), a.context.body;
            && b.context.run == record && b.historical.None? && b.outbox == a.outbox
            && b.context.body.view == before.view && b.context.body.requests == before.requests
            && b.context.body.finalComplete == before.finalComplete
            && b.context.body.finalNarrativeReady == before.finalNarrativeReady
            && b.context.body.finalRefresh
               == (if before.finalRefresh.None? && record.Some? && IsTerminal(record.value) then Some({H.CurrentRefresh}) else before.finalRefresh)
            && b.context.body.nextTerminalRefresh
               == (if before.finalRefresh.None? && record.Some? && IsTerminal(record.value) then Some(now) else before.nextTerminalRefresh)
  {
    hide CancelledRun;
    SettledKeepsBody(a.(context := RunTaken(rules, a.context, record, a.shared.recovered.Some?, now)), removable);
  }

  /** An answer about another run starts a new view that has asked for nothing; a run that has ended waits for its final refresh. */
  lemma OtherRunStartsAnew<V>(rules: Rules<V>, a: App<V>, record: Option<RunRecord>, removable: bool, now: int)
    requires a.historical.None? && OwnerAgrees(a, record) && IdOf(record) != IdOf(a.context.run)
    ensures var b := Handled(rules, a, Current(Ok(record), removable), now); var body := b.context.body;
            && b.context.run == record && b.historical.None? && b.outbox == a.outbox
            && body.view == rules.newView && body.finalComplete == {} && !body.finalNarrativeReady
            && body.requests.sequence == 0
            && (removable || a.shared.cancellation.origin != Some(CleanExit) ==> body.notice == a.context.body.notice)
            && (forall s: H.Section :: !RunPolls.IsPending(body.requests, s) && RunPolls.LatestId(body.requests, s) == 0)
            && (if record.Some? && IsTerminal(record.value)
                then body.finalRefresh == Some({H.CurrentRefresh}) && body.nextTerminalRefresh == Some(now)
                else body.finalRefresh.None? && body.nextTerminalRefresh.None?)
  {
    hide CancelledRun;
    SettledKeepsBody(a.(context := RunTaken(rules, a.context, record, a.shared.recovered.Some?, now)), removable);
  }

  lemma SettledKeepsBody<V>(a: App<V>, removable: bool)
    ensures var b := CancelledRun(a, removable);
            && (b.context.body.notice == a.context.body.notice || (a.shared.cancellation.origin == Some(CleanExit) && !removable))
            && b.historical == a.historical && b.outbox == a.outbox && b.context.run == a.context.run && b.context.screen == a.context.screen
            && b.context.body == a.context.body.(notice := b.context.body.notice)
  {
  }

  /** The owned run is not the current one any more: nothing is displayed, the ownership is given up and Launch entered. */
  lemma LostOwnerLaunches<V>(rules: Rules<V>, a: App<V>, record: Option<RunRecord>, removable: bool, now: int)
    requires a.historical.None? && !OwnerAgrees(a, record)
    ensures var b := Handled(rules, a, Current(Ok(record), removable), now);
            && b.context.screen == Launch && b.context.run.None? && b.shared.recovered.None?
            && b.context.body.notice.Some? && b.context.body == a.context.body.(notice := b.context.body.notice)
            && b.shared.attention == a.shared.attention && b.shared.cancellation == a.shared.cancellation
            && b.outbox == a.outbox + if a.shared.launch.presets.None? then [H.FetchPresets] else []
  {
  }

  /** A record is shown to attention with the phase of its view; without a run nothing is. */
  lemma CurrentIsObserved<V>(rules: Rules<V>, a: App<V>, record: Option<RunRecord>, removable: bool, now: int)
    requires a.historical.None? && OwnerAgrees(a, record)
    ensures var b := Handled(rules, a, Current(Ok(record), removable), now);
            && b.shared.attention
               == a.shared.attention + (if record.Some? then [(record.value, rules.phase(b.context.body))] else [])
            && b.context.screen == (if a.shared.recovered.Some? then Run else a.context.screen)
            && b.shared.recovered == a.shared.recovered && b.shared.launch == a.shared.launch
  {
    hide RunTaken, IsTerminal;
    RunTakenIs(rules, a.context, record, a.shared.recovered.Some?, now);
    SettledKeepsBody(a.(context := RunTaken(rules, a.context, record, a.shared.recovered.Some?, now)), removable);
  }

  lemma RunTakenIs<V>(rules: Rules<V>, c: Context<V>, record: Option<RunRecord>, recovering: bool, now: int)
    ensures var d := RunTaken(rules, c, record, recovering, now);
            d.run == record && d.screen == (if recovering && record.Some? then Run else c.screen)
  {
  }

  /**
    A cancelled run completes a clean exit if the session file is removed, and ends a cancellation to
    go on; whoever else sees it cancelled, and any other run, leaves the cancellation alone.
   */
  lemma CancelledRunSettles<V>(rules: Rules<V>, a: App<V>, run: RunRecord, removable: bool, now: int)
    requires a.historical.None? && OwnerAgrees(a, Some(run))
    ensures var b := Handled(rules, a, Current(Ok(Some(run)), removable), now);
            var before, after := a.shared.cancellation, b.shared.cancellation;
            if run.status == "cancelled" && before.origin == Some(CleanExit) then
              && (removable ==> b.shared.cleanExit == Some(Cancelled) && after == before.(deadline := None))
              && (!removable ==> b.shared.cleanExit == a.shared.cleanExit && after == before && b.context.body.notice.Some?)
            else
              && b.shared.cleanExit == a.shared.cleanExit
              && if run.status == "cancelled" && before.origin == Some(ContinueConsole)
                 then after.state == Idle && after.origin.None? && after.requestId.None? && !after.submitting && after.deadline == before.deadline
                 else after == before
  {
    hide RunTaken, IsTerminal;
    RunTakenIs(rules, a.context, Some(run), a.shared.recovered.Some?, now);
  }

  /** Leaving a finished run forgets it, unless the session file cannot be removed. */
  lemma NewIntentForgets<V>(rules: Rules<V>, a: App<V>, removable: bool, now: int)
    ensures var b := NewIntent(rules, a, removable, now);
            if removable then
              && b.context.screen == Launch && b.context.run.None? && b.context.body.view == rules.newView
              && b.context.body.requests.sequence == 0 && b.context.body.finalRefresh.None? && b.context.body.notice.None?
              && b.shared.recovered.None? && b.shared.cancellation.state == Idle && b.shared.cancellation.origin.None?
              && b.shared.cancellation.requestId.None? && !b.shared.cancellation.submitting && b.shared.cancellation.deadline.None?
              && (if a.shared.launch.presets.None? then b.outbox == a.outbox + [H.FetchPresets] && b.shared.launch == a.shared.launch
                  else b.outbox == a.outbox && b.shared.launch == a.shared.launch.(due := Some(now)))
            else
              b == a.(context := b.context) && b.context.run == a.context.run && b.context.screen == a.context.screen
              && b.context.body.notice.Some?
  {
  }

  /** The reply the operator's request waits for marks it as requested; any other reply ends the request with a notice. */
  lemma CancelReplies<V>(rules: Rules<V>, a: App<V>, reply: CancelReply, now: int)
    requires a.historical.None?
    ensures var b := Handled(rules, a, CancelReplied(reply), now);
            var before, after := a.shared.cancellation, b.shared.cancellation;
            if reply.Accepted? && before.requestId.None? then b == a
            else
              && after.requestId.None? && !after.submitting && after.deadline == before.deadline
              && if reply.Accepted? && reply.requested && Some(reply.requestId) == before.requestId
                    && Some(reply.missionRunId) == RunId(a.context)
                 then after.state == Requested(reply.requestId) && after.origin == before.origin && b.context.run == a.context.run
                 else
                   && after.state == Idle && b.outbox == a.outbox && b.context.body.notice.Some?
                   && after.origin == (if before.origin == Some(ContinueConsole) then None else before.origin)
  {
    hide MayPoll, CurrentPolled;
    if reply.Accepted? {
      PollKeepsRun(rules, a.(shared := a.shared.(cancellation := a.shared.cancellation.(state := Requested(reply.requestId),
                                                                  requestId := None, submitting := false))), Full, now);
    }
  }

  // ---------------------------------------------------------------- when the current run is polled

  /** Whether a run that has ended has nothing left to fetch. */
  ghost predicate Finished<V>(body: Body<V>) {
    && body.finalNarrativeReady
    && {H.Overview, H.Progress, H.Agents, H.Beliefs, H.Context, H.World, H.Environment, H.Stack, H.Artifacts} <= body.finalComplete
  }

  /**
    With history closed nothing is polled off the Run screen or past the cancellation's deadline, nor of
    an ended run that is finished or was polled within two seconds; otherwise `/current` is asked for
    first, unless its refresh is claimed already.
   */
  lemma PollsWhenDue<V>(rules: Rules<V>, a: App<V>, now: int)
    requires a.historical.None?
    ensures var b, body := Polled(rules, a, now), a.context.body;
            var late := a.shared.cancellation.deadline.Some? && now > a.shared.cancellation.deadline.value;
            var resting := body.finalRefresh.Some?
                           && (Finished(body) || (body.nextTerminalRefresh.Some? && now < body.nextTerminalRefresh.value));
            if a.context.screen != Run || late || resting then b == a
            else
              && b.shared == a.shared && b.context.run == a.context.run
              && |b.outbox| >= |a.outbox| && b.outbox[..|a.outbox|] == a.outbox
              && (body.finalRefresh.None? || H.CurrentRefresh !in body.finalRefresh.value ==>
                    |b.outbox| > |a.outbox| && b.outbox[|a.outbox|] == H.PollCurrent(a.shared.credential))
              && (a.context.run.None? ==>
                    (body.finalRefresh.Some? && H.CurrentRefresh in body.finalRefresh.value ==> b.outbox == a.outbox)
                    && b.context.body.view == body.view && b.context.body.requests == body.requests)
              && (a.context.run.Some? ==>
                    var (polled, commands) := rules.poll(CurrentPolled(a, now).context.body, a.context.run.value, Full, now);
                    b.context.body == polled && b.outbox == CurrentPolled(a, now).outbox + commands)
  {
    FinishedStops(a.context.body);
    hide Finished, PollingStopped;
  }

  lemma FinishedStops<V>(body: Body<V>)
    ensures Finished(body) <==> PollingStopped(body)
  {
    forall s: H.Section | Finished(body)
      ensures s in body.finalComplete
    {
      match s
      case Overview => case Progress => case Agents => case Beliefs => case Context =>
      case World => case Environment => case Stack => case Artifacts =>
    }
  }

  /** After a poll of an ended run the next one is two seconds away, and `/current` is not asked for again until its claim is released. */
  lemma EndedRunRests<V>(a: App<V>, now: int, later: int)
    requires a.context.body.finalRefresh.Some?
    ensures var b := CurrentPolled(a, now);
            && (MayPoll(b.context.body, later) <==> !Finished(a.context.body) && later >= now + 2000)
            && CurrentPolled(b, later).outbox == b.outbox
            && CurrentPolled(b.(context := b.context.(body := Released(b.context.body))), later).outbox
               == b.outbox + [H.PollCurrent(a.shared.credential)]
  {
    FinishedStops(a.context.body);
    hide Finished;
  }

  /** A failed `/current` poll releases its claim and is reported. */
  lemma FailedCurrentReleases<V>(rules: Rules<V>, a: App<V>, error: string, removable: bool, now: int)
    requires a.historical.None?
    ensures var b := Handled(rules, a, Current(Err(error), removable), now);
            && b == a.(context := b.context) && b.context.body.notice == Some(error)
            && b.context.body.view == a.context.body.view && b.context.body.requests == a.context.body.requests
            && CurrentPolled(b, now).outbox == a.outbox + [H.PollCurrent(a.shared.credential)]
  {
  }

  // ---------------------------------------------------------------- what an answer does

  /** Taking an answer leaves the ids asked for as they were and ends the wait of its own section only. */
  lemma AnsweredSettles<V>(c: Context<V>, payload: Payload, s: H.Section)
    ensures var d := Answered(c, payload);
            && d == c.(body := c.body.(requests := d.body.requests))
            && RunPolls.LatestId(d.body.requests, s) == RunPolls.LatestId(c.body.requests, s)
            && (RunPolls.IsPending(d.body.requests, s)
                <==> RunPolls.IsPending(c.body.requests, s) && !(payload.OperatorView? && payload.section == s))
  {
    if payload.OperatorView? {
      RunPolls.SameIndexSameSection(s, payload.section);
    }
  }

  /** An answer of another run, or of another request than the section's last, changes nothing; any other one is reduced. */
  lemma AnswersAreReduced<V>(rules: Rules<V>, a: App<V>, runId: string, payload: Payload, now: int)
    requires a.historical.None?
    ensures var b := Handled(rules, a, RunScoped(runId, payload), now);
            if RunId(a.context) != Some(runId)
               || (payload.OperatorView? && payload.requestId != RunPolls.LatestId(a.context.body.requests, payload.section))
            then b == a
            else
              var (body, commands) := rules.reduce(Answered(a.context, payload).body, payload, false);
              && b.context == a.context.(body := body) && b.outbox == a.outbox + commands && b.historical.None?
              && b.shared == a.shared.(attention := b.shared.attention)
              && b.shared.attention
                 == (if payload.OperatorView? && payload.section == H.Overview && payload.answer.Page?
                     then a.shared.attention + [(a.context.run.value, rules.phase(body))] else a.shared.attention)
  {
    if Takes(a.context, runId, payload) {
      AnsweredSettles(a.context, payload, H.Overview);
    }
    hide Answered;
  }

  /** The displayed historical run takes its answers too: its loading state follows, and nothing of the current run changes. */
  lemma HistoricalAnswersAreReduced<V>(rules: Rules<V>, a: App<V>, runId: string, payload: Payload, now: int)
    requires a.historical.Some? && RunId(a.historical.value.current) != Some(runId) && Takes(a.context, runId, payload)
    ensures var b, h := Handled(rules, a, RunScoped(runId, payload), now), a.historical.value;
            var (body, commands) := rules.reduce(Answered(a.context, payload).body, payload, h.loading.Some?);
            && b.context == a.context.(body := body) && b.outbox == a.outbox + commands && b.shared == a.shared
            && b.historical == Some(LoadingAfter(h, payload))
  {
    hide Answered, LoadingAfter;
    AnsweredSettles(a.context, payload, H.Overview);
  }

  /** The intent of a recovered run becomes the text of Launch; a failure to read it ends the session. Others are ignored. */
  lemma RecoveredIntent<V>(rules: Rules<V>, a: App<V>, runId: string, text: Result<string>, now: int)
    requires a.historical.None?
    ensures var b := Handled(rules, a, Intent(runId, text), now);
            match text
            case Ok(t) =>
              && b == a.(shared := b.shared) && b.shared == a.shared.(launch := b.shared.launch)
              && b.shared.launch == if a.shared.recovered == Some(runId) then a.shared.launch.(text := t) else a.shared.launch
            case Err(error) =>
              && b == a.(context := b.context) && b.context == a.context.(screen := b.context.screen)
              && b.context.screen == if a.shared.recovered.Some? then Screen.Error(error, false) else a.context.screen
  {
  }

  lemma ReceiptIsReduced<V>(rules: Rules<V>, a: App<V>, outcome: nat, now: int)
    requires a.historical.None?
    ensures var b := Handled(rules, a, ReceiptExported(outcome), now);
            var (body, commands) := rules.receipt(a.context.body, a.context.run, outcome);
            b.context == a.context.(body := body) && b.outbox == a.outbox + commands && b.shared == a.shared && b.historical.None?
  {
  }

  /** A historical view stops loading with an overview answer or a missing Run Root, and counts timeouts until then. */
  lemma LoadingEnds<V>(h: HistoricalView<V>, payload: Payload)
    ensures var g := LoadingAfter(h, payload);
            var overview := payload.OperatorView? && payload.section == H.Overview && (payload.answer.Page? || payload.answer.NotModified?);
            var gone := payload.OperatorView? && payload.answer.RootGone?;
            && g.runId == h.runId && g.current == h.current
            && (overview || gone ==> g.loading.None?)
            && g.unavailable == (if gone then Some(payload.answer.message) else h.unavailable)
            && (!overview && !gone ==>
                  g.loading == (if payload.OperatorView? && payload.answer.TimedOut? && h.loading.Some?
                                then Some(Loading(h.loading.value.since, h.loading.value.timedOut + 1)) else h.loading))
  {
  }

  /** A displayed historical run is a Run screen with a fresh view that loads; behind it the same context stays parked. */
  lemma DisplayedIsFresh<V>(rules: Rules<V>, a: App<V>, record: RunRecord, now: int)
    ensures var b := Displayed(rules, a, record, now);
            && b.context.screen == Run && b.context.run == Some(record) && b.context.body.view == rules.newView
            && b.context.body.requests.sequence == 0 && (forall s: H.Section :: !RunPolls.IsPending(b.context.body.requests, s))
            && b.context.body.finalComplete == {} && !b.context.body.finalNarrativeReady && b.context.body.notice.None?
            && (if IsTerminal(record)
                then b.context.body.finalRefresh == Some({H.CurrentRefresh}) && b.context.body.nextTerminalRefresh == Some(now)
                else b.context.body.finalRefresh.None? && b.context.body.nextTerminalRefresh.None?)
            && b.historical.Some? && b.historical.value.runId == record.missionRunId && b.historical.value.unavailable.None?
            && b.historical.value.loading == Some(Loading(now, 0))
            && b.historical.value.current == (if a.historical.Some? then a.historical.value.current else a.context)
            && b.outbox == a.outbox && b.shared == a.shared
  {
  }

  /** An answer without a run leaves the displayed one; a failure with Launch parked releases its claim on `/current` as well. */
  lemma DisplayedHearsFailures<V>(a: App<V>, record: Result<Option<RunRecord>>, removable: bool, now: int)
    requires a.historical.Some? && (record.Ok? ==> record.value.None?)
    ensures var (b, consumed) := CurrentSynced(a, Current(record, removable), now);
            && consumed == (a.historical.value.current.screen != Run)
            && (if record.Err? && consumed
                then b.context.run == a.context.run && b.context.body.view == a.context.body.view
                     && CurrentPolled(b, now).outbox == a.outbox + [H.PollCurrent(a.shared.credential)]
                else b == a)
  {
  }

  /** A `/current` answer about the displayed historical run refreshes its record and nothing else of an unfinished run. */
  lemma DisplayedRecordRefreshes<V>(a: App<V>, record: RunRecord, removable: bool, now: int)
    requires a.historical.Some?
    ensures var (b, consumed) := CurrentSynced(a, Current(Ok(Some(record)), removable), now);
            && consumed == (a.historical.value.current.screen != Run)
            && b == a.(context := b.context) && b.context.screen == a.context.screen
            && (if RunId(a.context) == Some(record.missionRunId) then
                  && b.context.run == Some(record)
                  && b.context.body == if IsTerminal(record) && a.context.body.finalRefresh.None?
                                       then a.context.body.(finalRefresh := Some({H.CurrentRefresh}), nextTerminalRefresh := Some(now))
                                       else a.context.body
                else b == a)
  {
  }

  lemma AppliedKeepsClosed<V>(rules: Rules<V>, a: App<V>, m: Message, now: int)
    requires a.historical.None?
    ensures Applied(rules, a, m, now).historical.None?
  {
  }

  /** A message about another run leaves the current run alone. */
  lemma ForeignIsIgnored<V>(rules: Rules<V>, a: App<V>, m: Message, now: int)
    requires m.RunScoped? && RunId(a.context) != Some(m.runId)
    ensures Applied(rules, a, m, now) == a
  {
  }

  /**
    With a Run screen parked, every message about a run changes the current run's context, the
    attention tracker and the cancellation state exactly as if history had never been opened; a
    message about the parked run also pushes the same commands.
   */
  lemma HistoryDoesNotInterfere<V>(rules: Rules<V>, a: App<V>, m: Message, now: int)
    requires a.historical.Some? && ReturnsToRun(a.historical.value)
    ensures Handled(rules, a, m, now).historical.Some?
    ensures SameCurrent(Unparked(Handled(rules, a, m, now)), Handled(rules, Unparked(a), m, now))
    ensures ForParkedRun(a, m) ==> Unparked(Handled(rules, a, m, now)) == Handled(rules, Unparked(a), m, now)
  {
    var (b, consumed) := CurrentSynced(a, m, now);
    SyncKeepsParked(a, m, now);
    AppliedKeepsClosed(rules, Unparked(a), m, now);
    assert Handled(rules, Unparked(a), m, now) == Applied(rules, Unparked(a), m, now);
    if ForParkedRun(b, m) {
      RoutedActsUnparked(rules, b, x => Applied(rules, x, m, now));
    } else {
      ForeignIsIgnored(rules, Unparked(a), m, now);
      DisplayedTakesIt(rules, b, m, now);
    }
    hide Applied;
  }

  lemma SyncKeepsParked<V>(a: App<V>, m: Message, now: int)
    requires a.historical.Some?
    ensures var (b, consumed) := CurrentSynced(a, m, now);
            && b.historical == a.historical && b.shared == a.shared && b.outbox == a.outbox
            && Unparked(b) == Unparked(a)
            && (consumed <==> m.Current? && !ReturnsToRun(a.historical.value))
            && (ForParkedRun(b, m) <==> ForParkedRun(a, m))
            && (!m.Current? ==> b == a)
  {
  }

  /** A message about the displayed run changes neither the parked context nor attention nor cancellation. */
  lemma DisplayedTakesIt<V>(rules: Rules<V>, a: App<V>, m: Message, now: int)
    requires a.historical.Some? && !ForParkedRun(a, m)
    ensures var b := Applied(rules, a, m, now);
            b.historical.Some? && b.historical.value.current == a.historical.value.current && b.shared == a.shared
  {
  }

  /**
    With a historical run displayed: a message for any other run than the parked one leaves the
    parked context, attention and cancellation as they were; a message for the parked run, which is
    not the displayed one, leaves the displayed context as it was.
   */
  lemma MessagesStayApart<V>(rules: Rules<V>, a: App<V>, runId: string, payload: Payload, now: int)
    requires a.historical.Some?
    ensures var b := Handled(rules, a, RunScoped(runId, payload), now);
            if RunId(a.historical.value.current) == Some(runId) then b.context == a.context
            else b.historical.Some? && b.historical.value.current == a.historical.value.current && b.shared == a.shared
  {
    var m := RunScoped(runId, payload);
    if ForParkedRun(a, m) {
      AppliedKeepsClosed(rules, Unparked(a), m, now);
      RoutedActsUnparked(rules, a, x => Applied(rules, x, m, now));
    } else {
      DisplayedTakesIt(rules, a, m, now);
    }
    hide Applied;
  }

  /** A displayed run's message reaches its context exactly when the parked run is another one. */
  lemma DisplayedIsServed<V>(rules: Rules<V>, a: App<V>, payload: Payload, now: int)
    requires a.historical.Some? && a.context.run.Some?
    ensures var id := a.context.run.value.missionRunId;
            var m := RunScoped(id, payload);
            if RunId(a.historical.value.current) != Some(id)
            then Handled(rules, a, m, now) == RunReduced(rules, a, id, payload)
            else Handled(rules, a, m, now).context == a.context
  {
    MessagesStayApart(rules, a, a.context.run.value.missionRunId, payload, now);
  }

  /**
    The parked run can be the displayed one: with Launch parked over a run, opening that run from
    history sends its pages to the parked context, so the view on display never gets them.
   */
  lemma SameRunIsStarved<V>(rules: Rules<V>, a: App<V>, record: RunRecord, payload: Payload, now: int)
    requires a.historical.None? && a.context.screen == Launch && RunId(a.context) == Some(record.missionRunId)
    ensures var h := Opened(rules, a, record, now); var b := Handled(rules, h, RunScoped(record.missionRunId, payload), now);
            && b.context == h.context && h.context.run == Some(record)
            && (Takes(a.context, record.missionRunId, payload) ==>
                  Unparked(b).context.body == rules.reduce(Answered(a.context, payload).body, payload, false).0)
  {
    var h := Opened(rules, a, record, now);
    OpenAndCloseRestore(rules, a, record, now);
    var m := RunScoped(record.missionRunId, payload);
    AppliedKeepsClosed(rules, Unparked(h), m, now);
    RoutedActsUnparked(rules, h, x => Applied(rules, x, m, now));
  }

  /**
    Such a state is reached: after a finished run the operator returns to Launch while a `/current`
    poll is still out, and its answer brings the run's record back behind the Launch screen.
   */
  lemma LateAnswerStarves<V>(rules: Rules<V>, a: App<V>, record: RunRecord, removable: bool, payload: Payload, now: int)
    requires a.historical.None?
    ensures var launch := Handled(rules, NewIntent(rules, a, true, now), Current(Ok(Some(record)), removable), now);
            && launch.historical.None? && launch.context.screen == Launch && launch.context.run == Some(record)
            && var h := Opened(rules, launch, record, now);
               Handled(rules, h, RunScoped(record.missionRunId, payload), now).context == h.context
  {
    var launch := Handled(rules, NewIntent(rules, a, true, now), Current(Ok(Some(record)), removable), now);
    SameRunIsStarved(rules, launch, record, payload, now);
  }

  /**
    Opening any historical run keeps the current run, which is polled for its lifecycle at once, and
    closing brings it back, polled in full on a Run screen.
   */
  lemma OpenAndCloseRestore<V>(rules: Rules<V>, a: App<V>, record: RunRecord, now: int)
    ensures Unparked(Displayed(rules, a, record, now)) == Unparked(a)
    ensures var h := Opened(rules, a, record, now);
            && h.historical.Some? && h.context.run == Some(record) && h.shared == a.shared
            && SameCurrent(Unparked(h), PolledFull(rules, Unparked(a), Lifecycle, now))
            && SameCurrent(Closed(rules, h, now), PolledFull(rules, PolledFull(rules, Unparked(a), Lifecycle, now), Full, now))
    ensures Unparked(a).context.screen != Run ==> SameCurrent(Closed(rules, Opened(rules, a, record, now), now), Unparked(a))
  {
    var d := Displayed(rules, a, record, now);
    var h := Opened(rules, a, record, now);
    PollDoesNotInterfere(rules, d, Unparked(a), now);
    DisplayedStays(rules, d, now);
    PollIgnoresOutbox(rules, Unparked(h), PolledFull(rules, Unparked(a), Lifecycle, now), Full, now);
  }

  lemma DisplayedStays<V>(rules: Rules<V>, a: App<V>, now: int)
    requires a.historical.Some?
    ensures Polled(rules, a, now).historical.Some? && Polled(rules, a, now).context.run == a.context.run
    ensures Polled(rules, a, now).shared == a.shared
  {
  }

  lemma PollIgnoresOutbox<V>(rules: Rules<V>, a: App<V>, b: App<V>, scope: Scope, now: int)
    requires SameCurrent(a, b)
    ensures SameCurrent(PolledFull(rules, a, scope, now), PolledFull(rules, b, scope, now))
  {
  }

  /** Over a parked Run screen, opening a row never displays the parked run itself. */
  ghost predicate RunsApart<V>(a: App<V>) {
    a.historical.Some? && ReturnsToRun(a.historical.value) ==> RunId(a.context) != RunId(a.historical.value.current)
  }

  /** Opening rows keeps the displayed and the parked run apart, so each gets its own messages, and keeps the current run. */
  lemma RowsKeepRunsApart<V>(rules: Rules<V>, a: App<V>, record: RunRecord, available: bool, now: int)
    requires RunsApart(a)
    ensures var b := RowOpened(rules, a, record, available, now);
            && RunsApart(b)
            && (SameCurrent(Unparked(b), Unparked(a)) || SameCurrent(Unparked(b), PolledFull(rules, Unparked(a), Full, now))
                || SameCurrent(Unparked(b), PolledFull(rules, Unparked(a), Lifecycle, now)))
  {
    OpenAndCloseRestore(rules, a, record, now);
    PollKeepsRun(rules, Unparked(a), Lifecycle, now);
    PollKeepsRun(rules, Unparked(a), Full, now);
    hide PolledFull, Opened;
  }

  lemma PollKeepsRun<V>(rules: Rules<V>, a: App<V>, scope: Scope, now: int)
    ensures var b := PolledFull(rules, a, scope, now);
            && b.context.run == a.context.run && b.context.screen == a.context.screen && b.historical == a.historical
            && b.shared == a.shared
  {
  }

  /** What Enter on a row does: nothing for a run that is not available or already displayed, else that run is displayed, live if it is the current one. */
  lemma RowsDisplay<V>(rules: Rules<V>, a: App<V>, record: RunRecord, available: bool, now: int)
    ensures var b := RowOpened(rules, a, record, available, now);
            var current := Unparked(a).context;
            var live := current.screen == Run && RunId(current) == Some(record.missionRunId);
            && (!available || (!live && a.historical.Some? && RunId(a.context) == Some(record.missionRunId)) ==> b == a)
            && (available && live ==>
                  b.historical.None? && RunId(b.context) == Some(record.missionRunId) && (a.historical.None? ==> b == a))
            && (available && !live && (a.historical.None? || RunId(a.context) != Some(record.missionRunId)) ==>
                  b.historical.Some? && b.historical.value.runId == record.missionRunId && b.context.run == Some(record))
  {
    DisplayedIsFresh(rules, a, record, now);
    OpenAndCloseRestore(rules, a, record, now);
    PollKeepsRun(rules, Unparked(a), Full, now);
    DisplayedKeepsId(rules, Displayed(rules, a, record, now), now);
    hide PolledFull, Displayed;
  }

  lemma DisplayedKeepsId<V>(rules: Rules<V>, a: App<V>, now: int)
    requires a.historical.Some?
    ensures var b := Polled(rules, a, now); b.historical.Some? && b.historical.value.runId == a.historical.value.runId
  {
    PollKeepsRun(rules, a, Historical, now);
    hide PolledFull;
  }

  // ---------------------------------------------------------------- backpressure

  /**
    With a historical run displayed: a dropped section poll that the parked or the displayed run awaits
    may be asked for again by that run at once, and the other run's context stays as it was.
   */
  lemma DroppedReachesItsRun<V>(a: App<V>, c: H.HostCommand, now: int)
    requires a.historical.Some? && c.FetchOperatorView?
    ensures var b, parked := Backpressured(a, Workers.Dropped(c), now), a.historical.value.current;
            && b.historical.Some?
            && if RunId(parked) == Some(c.missionRunId) then
                 && b.context == a.context
                 && (RunPolls.LatestId(parked.body.requests, c.section) == c.requestId ==>
                       RunPolls.MayAsk(PollsOf(b.historical.value.current), c.section))
               else
                 && b.historical.value.current == parked
                 && (RunId(a.context) == Some(c.missionRunId) && RunPolls.LatestId(a.context.body.requests, c.section) == c.requestId ==>
                       RunPolls.MayAsk(PollsOf(b.context), c.section))
  {
    RunPolls.DroppedMayAskAgain(PollsOf(a.context), c);
    RunPolls.DroppedMayAskAgain(PollsOf(a.historical.value.current), c);
    hide RunPolls.Dispatched, RunPolls.MayAsk;
  }

  /** The outcome of a preflight query reaches Launch whatever is displayed: a dropped one is asked again, a coalesced one waits for the older answer. */
  lemma PreflightReachesLaunch<V>(a: App<V>, id: nat, query: H.PreflightQuery, original: nat, now: int)
    ensures var launch, c := a.shared.launch, H.Preflight(id, query);
            var dropped, coalesced := Backpressured(a, Workers.Dropped(c), now), Backpressured(a, Workers.Coalesced(c, Some(original)), now);
            && dropped.context == a.context && coalesced.context == a.context
            && dropped.outbox == a.outbox && coalesced.outbox == a.outbox
            && (id != launch.responseId ==> dropped == a && coalesced == a)
            && (id == launch.responseId ==>
                  && dropped.shared.launch == launch.(inFlight := None, due := dropped.shared.launch.due)
                  && (launch.presets.Some? ==> dropped.shared.launch.due == Some(now + 300))
                  && coalesced.shared.launch == launch.(responseId := original))
  {
  }

  /** A dropped `/current` poll is the parked run's over a parked Run screen and the displayed one's otherwise; its claim is free again. */
  lemma DroppedCurrentReleases<V>(a: App<V>, credential: string, now: int)
    requires a.historical.Some?
    ensures var b, parked := Backpressured(a, Workers.Dropped(H.PollCurrent(credential)), now), a.historical.value.current;
            && b.historical.Some?
            && if parked.screen == Run
               then b.context == a.context && !Holds(b.historical.value.current, H.CurrentRefresh)
               else b.historical.value.current == parked && !Holds(b.context, H.CurrentRefresh)
  {
  }

  predicate Holds<V>(c: Context<V>, key: H.RefreshKey) {
    c.body.finalRefresh.Some? && key in c.body.finalRefresh.value
  }

  /** Whether a dispatch outcome changes a context: it ends an awaited request, releases a held claim or hands over an id. */
  predicate Touches<V>(c: Context<V>, outcome: Workers.Dispatch) {
    match outcome
    case Dropped(command) =>
      if command.FetchOperatorView? then
        RunPolls.Awaits(PollsOf(c), command)
        && (RunPolls.IsPending(c.body.requests, command.section) || Holds(c, H.SectionRefresh(command.section)))
      else RunPolls.ClaimOf(command).Some? && Holds(c, RunPolls.ClaimOf(command).value)
    case Coalesced(command, Some(original)) =>
      RunPolls.Awaits(PollsOf(c), command) && RunPolls.LatestId(c.body.requests, command.section) != original
    case _ => false
  }

  lemma TouchesExactly<V>(a: App<V>, outcome: Workers.Dispatch, now: int)
    ensures DispatchReduced(a, outcome, now).context == a.context <==> !Touches(a.context, outcome)
  {
    var c, d := a.context, DispatchReduced(a, outcome, now).context;
    match outcome
    case Dropped(command) =>
      if command.FetchOperatorView? {
        var i, key := RunPolls.Index(command.section), H.SectionRefresh(command.section);
        if RunPolls.Awaits(PollsOf(c), command) {
          assert d.body.requests.pending[i] == false && !Holds(d, key);
          if !RunPolls.IsPending(c.body.requests, command.section) && !Holds(c, key) {
            assert c.body.requests.pending[i := false] == c.body.requests.pending;
            assert c.body.finalRefresh.Some? ==> c.body.finalRefresh.value - {key} == c.body.finalRefresh.value;
          }
        }
      } else if RunPolls.ClaimOf(command).Some? {
        var key := RunPolls.ClaimOf(command).value;
        assert !Holds(d, key);
        if !Holds(c, key) {
          assert c.body.finalRefresh.Some? ==> c.body.finalRefresh.value - {key} == c.body.finalRefresh.value;
        }
      }
    case Coalesced(command, Some(original)) =>
      if RunPolls.Awaits(PollsOf(c), command) {
        assert RunPolls.LatestId(d.body.requests, command.section) == original;
        if RunPolls.LatestId(c.body.requests, command.section) == original {
          assert c.body.requests.latest[RunPolls.Index(command.section) := original] == c.body.requests.latest;
        }
      }
    case _ =>
  }

  lemma DispatchKeepsClosed<V>(a: App<V>, outcome: Workers.Dispatch, now: int)
    ensures DispatchReduced(a, outcome, now).historical == a.historical
  {
  }

  /**
    Backpressure that is routed to the parked run acts on it as with history closed; any other leaves
    it alone. So the parked context changes exactly when the outcome is routed to it and touches it.
   */
  lemma ParkedChangesWhenTouched<V>(a: App<V>, outcome: Workers.Dispatch, now: int)
    requires a.historical.Some?
    ensures var b := Backpressured(a, outcome, now);
            && b.historical.Some?
            && b.shared == DispatchReduced(Unparked(a), outcome, now).shared
            && (DispatchForParked(a, outcome) ==>
                  Unparked(b) == DispatchReduced(Unparked(a), outcome, now) && b.context == a.context)
            && (!DispatchForParked(a, outcome) ==> b.historical == a.historical)
            && (b.historical.value.current == a.historical.value.current <==>
                  !(DispatchForParked(a, outcome) && Touches(a.historical.value.current, outcome)))
  {
    DispatchKeepsClosed(Unparked(a), outcome, now);
    DispatchKeepsClosed(a, outcome, now);
    TouchesExactly(Unparked(a), outcome, now);
    if DispatchForParked(a, outcome) {
      RoutedDispatch(a, outcome, now);
    }
    hide Touches, DispatchForParked;
  }

  lemma RoutedDispatch<V>(a: App<V>, outcome: Workers.Dispatch, now: int)
    requires a.historical.Some?
    ensures var b := WithCurrentRun(a, x => DispatchReduced(x, outcome, now));
            && Unparked(b) == DispatchReduced(Unparked(a), outcome, now) && b.context == a.context && b.historical.Some?
            && b.historical.value.current == DispatchReduced(Unparked(a), outcome, now).context
  {
    DispatchKeepsClosed(Unparked(a), outcome, now);
    assert Unparked(a) == Swapped(a.(historical := None), a.historical.value.current).0;
    hide DispatchReduced;
  }

  /** The current run has ended and its `/current` refresh is claimed until `due`. */
  function EndedRun<V>(rules: Rules<V>, shared: Shared, due: int): App<V> {
    App(Context(Run, Some(RunRecord("current", "succeeded")),
                NewBody(rules).(finalRefresh := Some({H.CurrentRefresh}), nextTerminalRefresh := Some(due))),
        None, shared, [])
  }

  /**
    Backpressure does interfere: a row opened with a status that is not terminal polls `/current`
    for the run on display, although that is documented never to happen. With the control queue full
    the poll is dropped, and the claim that is released is the parked run's, which never asked.
   */
  lemma DroppedPollInterferes<V>(rules: Rules<V>, shared: Shared, p: Workers.Pool, now: int)
    requires !Workers.HasRoom(p, H.Control) && H.CurrentKey !in p.inFlight
    ensures var a := Opened(rules, EndedRun(rules, shared, now + 1), RunRecord("old", "running"), now);
            && a.outbox != [] && a.outbox[0] == H.PollCurrent(shared.credential)
            && Unparked(a).context == EndedRun(rules, shared, now + 1).context
            && var outcome := Workers.DispatchStep(p, a.outbox[0]).1;
               && outcome == Workers.Dropped(a.outbox[0])
               && Backpressured(a, outcome, now).context == a.context
               && Unparked(Backpressured(a, outcome, now)).context.body.finalRefresh == Some({})
  {
    var ended := EndedRun(rules, shared, now + 1);
    var d := Displayed(rules, ended, RunRecord("old", "running"), now);
    var polled := PolledFull(rules, d, Historical, now);
    assert polled.outbox[0] == H.PollCurrent(shared.credential);
    assert !MayPoll(ended.context.body, now);
    RoutedActsUnparked(rules, polled, x => PolledFull(rules, x, Lifecycle, now));
    var a := Opened(rules, ended, RunRecord("old", "running"), now);
    assert Unparked(polled).outbox == polled.outbox && Unparked(polled).context == ended.context;
    RoutedDispatch(a, Workers.Dropped(H.PollCurrent(shared.credential)), now);
    assert {H.CurrentRefresh} - {H.CurrentRefresh} == {};
  }

  // ---------------------------------------------------------------- whole runs

  /** `byHistory` marks the outcome of a command that was issued for the historical run on display. */
  datatype Event =
    | Open(record: RunRecord, at: int)
    | Close(at: int)
    | Tell(message: Message, at: int)
    | Poll(at: int)
    | Backpressure(outcome: Workers.Dispatch, byHistory: bool, at: int)

  function Next<V>(rules: Rules<V>, a: App<V>, e: Event): App<V> {
    match e
    case Open(record, at) => Opened(rules, a, record, at)
    case Close(at) => Closed(rules, a, at)
    case Tell(m, at) => Handled(rules, a, m, at)
    case Poll(at) => Polled(rules, a, at)
    case Backpressure(outcome, _, at) => Backpressured(a, outcome, at)
  }

  function RunEvents<V>(rules: Rules<V>, a: App<V>, events: seq<Event>): App<V> {
    if events == [] then a else Next(rules, RunEvents(rules, a, events[..|events| - 1]), events[|events| - 1])
  }

  /** The outcome of a read of the historical run; a historical run issues nothing but reads and `/current` polls. */
  predicate OfHistory(outcome: Workers.Dispatch, byHistory: bool) {
    byHistory && (outcome.Dropped? || outcome.Coalesced?)
    && (H.RunIdOf(outcome.command).Some? || outcome.command.PollCurrent?)
  }

  /**
    One step of the console with history never opened. It polls whenever the console does, for the
    run's lifecycle only while a historical run is displayed, and never sees that run's outcomes.
   */
  function ShadowNext<V>(rules: Rules<V>, console: App<V>, b: App<V>, e: Event): App<V> {
    match e
    case Open(_, at) => PolledFull(rules, b, Lifecycle, at)
    case Close(at) => if console.historical.Some? then PolledFull(rules, b, Full, at) else b
    case Tell(m, at) => Handled(rules, b, m, at)
    case Poll(at) => PolledFull(rules, b, if console.historical.Some? then Lifecycle else Full, at)
    case Backpressure(outcome, byHistory, at) => if OfHistory(outcome, byHistory) then b else DispatchReduced(b, outcome, at)
  }

  function Undisturbed<V>(rules: Rules<V>, a: App<V>, events: seq<Event>): App<V> {
    if events == [] then a
    else
      var init := events[..|events| - 1];
      ShadowNext(rules, RunEvents(rules, a, init), Undisturbed(rules, a, init), events[|events| - 1])
  }

  /**
    What can be looked up before a dispatch outcome is reported: one of the historical run's reads
    that reaches the current run, or one of the current run's that does not, must not touch it.
   */
  predicate Harmless<V>(a: App<V>, e: Event) {
    e.Backpressure? ==>
      var reaches := a.historical.None? || DispatchForParked(a, e.outcome);
      OfHistory(e.outcome, e.byHistory) == reaches ==> !Touches(Unparked(a).context, e.outcome)
  }

  /** Whenever a historical run is displayed, Esc returns to a Run screen. */
  ghost predicate RunStaysParked<V>(rules: Rules<V>, a: App<V>, events: seq<Event>) {
    forall n :: 0 <= n <= |events| ==> ParkedRun(RunEvents(rules, a, events[..n]))
  }

  ghost predicate ParkedRun<V>(a: App<V>) {
    a.historical.Some? ==> ReturnsToRun(a.historical.value)
  }

  lemma AppliedIgnoresOutbox<V>(rules: Rules<V>, a: App<V>, b: App<V>, m: Message, now: int)
    requires SameCurrent(a, b)
    ensures SameCurrent(Applied(rules, a, m, now), Applied(rules, b, m, now))
  {
    assert a == b.(outbox := a.outbox);
    match m
    case Current(Ok(record), removable) => CurrentIgnoresOutbox(rules, b, a.outbox, record, removable, now);
    case _ =>
  }

  lemma CurrentIgnoresOutbox<V>(rules: Rules<V>, a: App<V>, outbox: seq<H.HostCommand>, record: Option<RunRecord>, removable: bool, now: int)
    requires a.historical.None?
    ensures SameCurrent(CurrentReduced(rules, a.(outbox := outbox), record, removable, now), CurrentReduced(rules, a, record, removable, now))
  {
    hide RunTaken, IsTerminal;
  }

  lemma HandledIgnoresOutbox<V>(rules: Rules<V>, a: App<V>, b: App<V>, m: Message, now: int)
    requires SameCurrent(a, b)
    ensures SameCurrent(Handled(rules, a, m, now), Handled(rules, b, m, now))
  {
    AppliedIgnoresOutbox(rules, a, b, m, now);
    hide Applied;
  }

  lemma PollDoesNotInterfere<V>(rules: Rules<V>, a: App<V>, b: App<V>, now: int)
    requires SameCurrent(Unparked(a), b)
    ensures SameCurrent(Unparked(Polled(rules, a, now)), PolledFull(rules, b, if a.historical.Some? then Lifecycle else Full, now))
    ensures Polled(rules, a, now).historical.Some? <==> a.historical.Some?
  {
    if a.historical.Some? {
      var c := PolledFull(rules, a, Historical, now);
      assert SameCurrent(Unparked(c), b);
      RoutedActsUnparked(rules, c, x => PolledFull(rules, x, Lifecycle, now));
    }
  }

  lemma DispatchIgnoresOutbox<V>(a: App<V>, b: App<V>, outcome: Workers.Dispatch, now: int)
    requires SameCurrent(a, b)
    ensures SameCurrent(DispatchReduced(a, outcome, now), DispatchReduced(b, outcome, now))
  {
  }

  /** Outcomes of reads never concern Launch. */
  lemma ReadsLeaveLaunch<V>(a: App<V>, outcome: Workers.Dispatch, byHistory: bool, now: int)
    requires OfHistory(outcome, byHistory)
    ensures DispatchReduced(a, outcome, now).shared == a.shared
  {
  }

  /** An outcome leaves the current run as without history exactly when it is harmless. */
  lemma BackpressureIsHarmless<V>(rules: Rules<V>, a: App<V>, b: App<V>, e: Event)
    requires e.Backpressure? && SameCurrent(Unparked(a), b)
    ensures SameCurrent(Unparked(Next(rules, a, e)), ShadowNext(rules, a, b, e)) <==> Harmless(a, e)
  {
    var current := Unparked(a);
    TouchesExactly(current, e.outcome, e.at);
    DispatchIgnoresOutbox(current, b, e.outcome, e.at);
    DispatchKeepsClosed(b, e.outcome, e.at);
    if OfHistory(e.outcome, e.byHistory) {
      ReadsLeaveLaunch(current, e.outcome, e.byHistory, e.at);
    }
    if a.historical.Some? {
      ParkedChangesWhenTouched(a, e.outcome, e.at);
      SharedIsSeen(a, e);
    }
    hide Touches, DispatchForParked, DispatchReduced, OfHistory;
  }

  lemma SharedIsSeen<V>(a: App<V>, e: Event)
    requires e.Backpressure? && a.historical.Some?
    ensures DispatchReduced(Unparked(a), e.outcome, e.at).shared == DispatchReduced(a, e.outcome, e.at).shared
    ensures !DispatchForParked(a, e.outcome) ==>
              Unparked(Backpressured(a, e.outcome, e.at)).context == Unparked(a).context
  {
  }

  ghost predicate SameThroughout<V>(rules: Rules<V>, a: App<V>, events: seq<Event>) {
    forall n :: 0 <= n <= |events| ==>
      SameCurrent(Unparked(RunEvents(rules, a, events[..n])), Undisturbed(rules, a, events[..n]))
  }

  ghost predicate HarmlessThroughout<V>(rules: Rules<V>, a: App<V>, events: seq<Event>) {
    forall n :: 0 <= n < |events| ==> Harmless(RunEvents(rules, a, events[..n]), events[n])
  }

  lemma RunPrefix<V>(rules: Rules<V>, a: App<V>, events: seq<Event>, n: nat)
    requires n < |events|
    ensures RunEvents(rules, a, events[..n + 1]) == Next(rules, RunEvents(rules, a, events[..n]), events[n])
    ensures Undisturbed(rules, a, events[..n + 1])
         == ShadowNext(rules, RunEvents(rules, a, events[..n]), Undisturbed(rules, a, events[..n]), events[n])
  {
    assert events[..n + 1][..n] == events[..n];
  }

  /** One event leaves the current run as without history exactly when it is harmless. */
  lemma NextIsHarmless<V>(rules: Rules<V>, a: App<V>, b: App<V>, e: Event)
    requires SameCurrent(Unparked(a), b) && ParkedRun(a)
    ensures SameCurrent(Unparked(Next(rules, a, e)), ShadowNext(rules, a, b, e)) <==> Harmless(a, e)
  {
    hide Applied, PolledFull, Harmless, DispatchReduced;
    match e
    case Open(record, at) =>
      OpenAndCloseRestore(rules, a, record, at);
      PollIgnoresOutbox(rules, Unparked(a), b, Lifecycle, at);
      OthersAreHarmless(a, e);
    case Close(at) =>
      PollIgnoresOutbox(rules, Unparked(a), b, Full, at);
      PollKeepsRun(rules, Unparked(a), Full, at);
      OthersAreHarmless(a, e);
    case Poll(at) =>
      PollDoesNotInterfere(rules, a, b, at);
      OthersAreHarmless(a, e);
    case Tell(m, at) =>
      if a.historical.Some? {
        HistoryDoesNotInterfere(rules, a, m, at);
      }
      HandledIgnoresOutbox(rules, Unparked(a), b, m, at);
      OthersAreHarmless(a, e);
    case Backpressure(_, _, _) => BackpressureIsHarmless(rules, a, b, e);
  }

  lemma OthersAreHarmless<V>(a: App<V>, e: Event)
    requires !e.Backpressure?
    ensures Harmless(a, e)
  {
  }

  lemma {:induction false} HarmlessIsSame<V>(rules: Rules<V>, a: App<V>, events: seq<Event>, n: nat)
    requires a.historical.None? && RunStaysParked(rules, a, events) && HarmlessThroughout(rules, a, events) && n <= |events|
    ensures SameCurrent(Unparked(RunEvents(rules, a, events[..n])), Undisturbed(rules, a, events[..n]))
  {
    hide Next, ShadowNext, Harmless, SameCurrent;
    if n == 0 {
      assert SameCurrent(Unparked(a), a) by { SameAsItself(a); }
    } else {
      HarmlessIsSame(rules, a, events, n - 1);
      RunPrefix(rules, a, events, n - 1);
      NextIsHarmless(rules, RunEvents(rules, a, events[..n - 1]), Undisturbed(rules, a, events[..n - 1]), events[n - 1]);
    }
  }

  lemma SameAsItself<V>(a: App<V>)
    requires a.historical.None?
    ensures SameCurrent(Unparked(a), a)
  {
  }

  /**
    Over every run: however history is opened, switched and closed between messages, polls and
    dispatch outcomes, the current run, the attention tracker and the cancellation state are at all
    times as without history, exactly when every dispatch outcome is harmless.
   */
  lemma HistoryIsInvisible<V>(rules: Rules<V>, a: App<V>, events: seq<Event>)
    requires a.historical.None? && RunStaysParked(rules, a, events)
    ensures SameThroughout(rules, a, events) <==> HarmlessThroughout(rules, a, events)
  {
    hide Next, ShadowNext, Harmless, SameCurrent, RunEvents, Undisturbed;
    if HarmlessThroughout(rules, a, events) {
      forall n | 0 <= n <= |events|
        ensures SameCurrent(Unparked(RunEvents(rules, a, events[..n])), Undisturbed(rules, a, events[..n]))
      {
        HarmlessIsSame(rules, a, events, n);
      }
    }
    if SameThroughout(rules, a, events) {
      forall n | 0 <= n < |events|
        ensures Harmless(RunEvents(rules, a, events[..n]), events[n])
      {
        RunPrefix(rules, a, events, n);
        NextIsHarmless(rules, RunEvents(rules, a, events[..n]), Undisturbed(rules, a, events[..n]), events[n]);
      }
    }
  }
}
