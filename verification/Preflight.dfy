/**
  The Launch screen's preflight protocol: a debounced query for the current selection whose latest
  answer wins, on top of the coalescing worker lanes.
 */
module Preflight {
  import opened Options
  import opened HostCommands
  import opened Workers
  import opened Pipeline

  datatype Preset = Preset(presetId: string, text: string, airsim: bool, perception: string, updateOwnership: string,
                           simulationLimit: nat)

  datatype Check = Check(checkId: string, title: string, status: string)

  /** The Host's answer, which names the selection it is about. */
  datatype StackPreflight = StackPreflight(presetId: string, airsim: bool, perception: string, updateOwnership: string,
                                           launchable: bool, checks: seq<Check>)

  datatype HostAnswer = Ok(preflight: StackPreflight) | Err(error: string)

  datatype Blocker =
    | IntentEmpty
    | PresetsUnavailable(error: string)
    | WaitingForPresets
    | PreflightUnavailable(error: string)
    | PreflightRunning
    | NotLaunchable
    | Failed(titles: seq<string>)

  datatype Launch = Launch(
    presets: Option<seq<Preset>>, presetsError: Option<string>, presetIndex: nat,
    airsim: bool, perception: string, updateOwnership: string, simulationLimit: nat, text: string,
    preflight: Option<StackPreflight>, preflightError: Option<string>,
    due: Option<int>, requestId: nat, responseId: nat, inFlight: Option<PreflightQuery>,
    selectedCheck: Option<string>, detail: bool)

  /** Milliseconds without a change before a query is sent. */
  const Debounce: int := 300

  function PresetOf(l: Launch): Option<Preset> {
    if l.presets.Some? && l.presetIndex < |l.presets.value| then Some(l.presets.value[l.presetIndex]) else None
  }

  /** The query for the current selection. */
  function QueryOf(l: Launch): Option<PreflightQuery> {
    match PresetOf(l)
    case None => None
    case Some(preset) => Some(PreflightQuery(preset.presetId, l.airsim, l.perception, l.updateOwnership))
  }

  predicate About(p: StackPreflight, q: PreflightQuery) {
    p.presetId == q.presetId && p.airsim == q.airsim && p.perception == q.perception && p.updateOwnership == q.updateOwnership
  }

  function CurrentPreflight(l: Launch): Option<StackPreflight> {
    var q := QueryOf(l);
    if q.Some? && l.preflight.Some? && About(l.preflight.value, q.value) then l.preflight else None
  }

  predicate Pending(l: Launch) {
    l.due.Some? || l.inFlight.Some?
  }

  /** The characters that trimming removes: those with the Unicode property White_Space. */
  const Spaces: seq<char> := [
    '\U{9}', '\U{A}', '\U{B}', '\U{C}', '\U{D}', '\U{20}', '\U{85}', '\U{A0}', '\U{1680}', '\U{2000}', '\U{2001}', '\U{2002}',
    '\U{2003}', '\U{2004}', '\U{2005}', '\U{2006}', '\U{2007}', '\U{2008}', '\U{2009}', '\U{200A}', '\U{2028}', '\U{2029}',
    '\U{202F}', '\U{205F}', '\U{3000}']

  predicate Blank(text: string) {
    forall c :: c in text ==> c in Spaces
  }

  function FailedTitles(checks: seq<Check>): seq<string> {
    if checks == [] then []
    else (if checks[0].status == "fail" then [checks[0].title] else []) + FailedTitles(checks[1..])
  }

  predicate AllowsLaunch(p: StackPreflight) {
    p.launchable && forall c :: c in p.checks ==> c.status != "fail"
  }

  /** Why launching is not possible right now, if it is not. */
  function LaunchBlocker(l: Launch): Option<Blocker> {
    if Blank(l.text) then Some(IntentEmpty)
    else if PresetOf(l).None? then
      Some(match l.presetsError case Some(error) => PresetsUnavailable(error) case None => WaitingForPresets)
    else if l.preflightError.Some? && !Pending(l) then Some(PreflightUnavailable(l.preflightError.value))
    else if CurrentPreflight(l).None? || Pending(l) then Some(PreflightRunning)
    else if AllowsLaunch(CurrentPreflight(l).value) then None
    else
      var failed := FailedTitles(CurrentPreflight(l).value.checks);
      Some(if failed == [] then NotLaunchable else Failed(failed))
  }

  // ---------------------------------------------------------------- protocol steps

  function Scheduled(l: Launch, now: int, delay: int): Launch {
    if l.presets.Some? then l.(due := Some(now + delay)) else l
  }

  /** Whether the operator has not edited the intent. */
  predicate Untouched(l: Launch) {
    Blank(l.text) || (PresetOf(l).Some? && PresetOf(l).value.text == l.text)
  }

  function Selected(l: Launch, index: nat, now: int): Launch {
    if l.presets.None? || index >= |l.presets.value| then l
    else
      var preset := l.presets.value[index];
      Scheduled(l.(presetIndex := index, airsim := preset.airsim, perception := preset.perception,
                   updateOwnership := preset.updateOwnership, simulationLimit := preset.simulationLimit,
                   text := if Untouched(l) then preset.text else l.text),
                now, Debounce)
  }

  function Toggled(l: Launch, airsim: bool, perception: string, updateOwnership: string, now: int): Launch {
    Scheduled(l.(airsim := airsim, perception := perception, updateOwnership := updateOwnership), now, Debounce)
  }

  function DefaultIndex(presets: seq<Preset>, id: string): nat {
    if presets == [] || presets[0].presetId == id then 0
    else
      var rest := DefaultIndex(presets[1..], id);
      if rest < |presets| - 1 && presets[rest + 1].presetId == id then rest + 1 else 0
  }

  function PresetsArrived(l: Launch, presets: seq<Preset>, defaultId: string, now: int): Launch {
    Scheduled(Selected(l.(presets := Some(presets), presetsError := None), DefaultIndex(presets, defaultId), now), now, 0)
  }

  /** The debounce has elapsed: the new state and the query to send. */
  function DueTaken(l: Launch, now: int): (Launch, Option<HostCommand>) {
    if l.due.None? || now < l.due.value then (l, None)
    else if QueryOf(l).None? then (l.(due := None), None)
    else
      var id := l.requestId + 1;
      (l.(due := None, requestId := id, responseId := id, inFlight := QueryOf(l)),
       Some(HostCommand.Preflight(id, QueryOf(l).value)))
  }

  function RetryDropped(l: Launch, id: nat, now: int): Launch {
    if id == l.responseId then Scheduled(l.(inFlight := None), now, Debounce) else l
  }

  function Adopted(l: Launch, id: nat, original: nat): Launch {
    if id == l.responseId then l.(responseId := original) else l
  }

  predicate Lists(checks: seq<Check>, id: string) {
    exists c :: c in checks && c.checkId == id
  }

  /** A selected check that the panel no longer shows loses its selection and its detail. */
  function CheckKept(l: Launch): Launch {
    if l.selectedCheck.Some? && l.preflight.Some? && Lists(l.preflight.value.checks, l.selectedCheck.value) then l
    else l.(selectedCheck := None, detail := false)
  }

  function Applied(l: Launch, id: nat, result: HostAnswer): Launch {
    if id != l.responseId then l
    else match result
      case Ok(p) => CheckKept(l.(inFlight := None, preflight := Some(p), preflightError := None))
      case Err(error) => CheckKept(l.(inFlight := None, preflight := None, preflightError := Some(error)))
  }

  /** What a dispatch outcome changes in Launch. */
  function DispatchApplied(l: Launch, outcome: Dispatch, now: int): Launch {
    match outcome
    case Dropped(c) => if c.Preflight? then RetryDropped(l, c.requestId, now) else l
    case Coalesced(c, Some(original)) => if c.Preflight? then Adopted(l, c.requestId, original) else l
    case _ => l
  }

  /**
    A chosen preset is what is asked about, with its own toggles, once the debounce has elapsed and not
    before; its text replaces an intent that is blank or still the former preset's.
   */
  lemma ChosenIsAsked(l: Launch, index: nat, now: int, later: int)
    requires l.presets.Some? && index < |l.presets.value|
    ensures var preset, n := l.presets.value[index], Selected(l, index, now);
            && PresetOf(n) == Some(preset) && n.simulationLimit == preset.simulationLimit
            && n.text == (if Blank(l.text) || (l.presetIndex < |l.presets.value| && l.text == l.presets.value[l.presetIndex].text)
                          then preset.text else l.text)
            && (later < now + 300 ==> DueTaken(n, later) == (n, None))
            && (later >= now + 300 ==>
                  var query := PreflightQuery(preset.presetId, preset.airsim, preset.perception, preset.updateOwnership);
                  && DueTaken(n, later).1 == Some(HostCommand.Preflight(l.requestId + 1, query))
                  && DueTaken(n, later).0.inFlight == Some(query))
  {
    hide Blank;
  }

  lemma {:induction false} DefaultIsFirst(presets: seq<Preset>, id: string)
    ensures var k := DefaultIndex(presets, id);
            if exists p :: p in presets && p.presetId == id
            then k < |presets| && presets[k].presetId == id && forall i :: 0 <= i < k ==> presets[i].presetId != id
            else k == 0
  {
    if presets != [] && presets[0].presetId != id {
      DefaultIsFirst(presets[1..], id);
      var rest := DefaultIndex(presets[1..], id);
      assert presets == [presets[0]] + presets[1..];
      assert rest < |presets| - 1 ==> presets[1..][rest] == presets[rest + 1];
    }
  }

  /** When presets arrive the default one is chosen, or the first if it is missing, and asked about at once. */
  lemma ArrivedIsAsked(l: Launch, presets: seq<Preset>, defaultId: string, now: int)
    requires presets != []
    ensures var n, k := PresetsArrived(l, presets, defaultId, now), DefaultIndex(presets, defaultId);
            && n.presets == Some(presets) && n.presetsError.None? && k < |presets| && PresetOf(n) == Some(presets[k])
            && (presets[k].presetId == defaultId || (k == 0 && forall p :: p in presets ==> p.presetId != defaultId))
            && DueTaken(n, now).1 == Some(HostCommand.Preflight(l.requestId + 1,
                 PreflightQuery(presets[k].presetId, presets[k].airsim, presets[k].perception, presets[k].updateOwnership)))
  {
    DefaultIsFirst(presets, defaultId);
    hide Blank, DefaultIndex;
  }

  /** A due query is sent once, and nothing is due without one. */
  lemma AskedOnlyOnce(l: Launch, now: int, later: int)
    ensures var (n, command) := DueTaken(l, now);
            && (command.Some? <==> l.due.Some? && now >= l.due.value && PresetOf(l).Some?)
            && (l.due.Some? && now >= l.due.value ==> n.due.None? && DueTaken(n, later) == (n, None))
            && (command.Some? ==>
                  && n.inFlight == QueryOf(l) && n.requestId == n.responseId == l.requestId + 1
                  && QueryOf(n) == QueryOf(l) && CurrentPreflight(n) == CurrentPreflight(l))
            && (command.None? ==> n == l.(due := n.due))
  {
  }

  /** An accepted answer replaces the former one, an error empties the panel, and a selected check stays selected while it is listed. */
  lemma AnswerIsShown(l: Launch, id: nat, result: HostAnswer)
    ensures var n := Applied(l, id, result);
            if id != l.responseId then n == l
            else
              var listed := result.Ok? && exists c :: c in result.preflight.checks && Some(c.checkId) == l.selectedCheck;
              && n.inFlight.None? && n.due == l.due
              && n.preflight == (if result.Ok? then Some(result.preflight) else None)
              && n.preflightError == (if result.Err? then Some(result.error) else None)
              && n.selectedCheck == (if listed then l.selectedCheck else None)
              && n.detail == (listed && l.detail)
  {
  }

  /** Changed toggles are what is asked about, after a debounce of their own. */
  lemma ToggledIsAsked(l: Launch, airsim: bool, perception: string, updateOwnership: string, now: int, later: int)
    requires PresetOf(l).Some?
    ensures var n := Toggled(l, airsim, perception, updateOwnership, now);
            && PresetOf(n) == PresetOf(l) && n.text == l.text && n.simulationLimit == l.simulationLimit
            && (later < now + 300 ==> DueTaken(n, later) == (n, None))
            && (later >= now + 300 ==>
                  DueTaken(n, later).1 == Some(HostCommand.Preflight(l.requestId + 1,
                    PreflightQuery(PresetOf(l).value.presetId, airsim, perception, updateOwnership))))
  {
  }

  // ---------------------------------------------------------------- the same steps in place

  class LaunchState {
    var presets: Option<seq<Preset>>
    var presetsError: Option<string>
    var presetIndex: nat
    var airsim: bool
    var perception: string
    var updateOwnership: string
    var simulationLimit: nat
    var text: string
    var preflight: Option<StackPreflight>
    var preflightError: Option<string>
    var due: Option<int>
    var requestId: nat
    var responseId: nat
    var inFlight: Option<PreflightQuery>
    var selectedCheck: Option<string>
    var detail: bool

    function View(): Launch
      reads this
    {
      Launch(presets, presetsError, presetIndex, airsim, perception, updateOwnership, simulationLimit, text, preflight,
             preflightError, due, requestId, responseId, inFlight, selectedCheck, detail)
    }

    method SchedulePreflight(now: int, delay: int)
      modifies this`due
      ensures View() == old(Scheduled(View(), now, delay))
    {
      if presets.Some? {
        due := Some(now + delay);
      }
    }

    method SelectPreset(index: nat, now: int)
      modifies this`presetIndex, this`airsim, this`perception, this`updateOwnership, this`simulationLimit, this`text, this`due
      ensures View() == old(Selected(View(), index, now))
    {
      hide Untouched, PresetOf, Scheduled;
      var untouched := Untouched(View());
      if presets.None? || index >= |presets.value| {
        return;
      }
      var preset := presets.value[index];
      presetIndex, airsim, perception := index, preset.airsim, preset.perception;
      updateOwnership, simulationLimit := preset.updateOwnership, preset.simulationLimit;
      if untouched {
        text := preset.text;
      }
      SchedulePreflight(now, Debounce);
    }

    method TakeDuePreflight(now: int) returns (command: Option<HostCommand>)
      modifies this
      ensures (View(), command) == old(DueTaken(View(), now))
    {
      if due.None? || now < due.value {
        return None;
      }
      due := None;
      var query := QueryOf(View());
      if query.None? {
        return None;
      }
      requestId := requestId + 1;
      responseId := requestId;
      inFlight := query;
      return Some(HostCommand.Preflight(requestId, query.value));
    }

    method RetryDroppedPreflight(id: nat, now: int)
      modifies this
      ensures View() == old(RetryDropped(View(), id, now))
    {
      if id == responseId {
        inFlight := None;
        SchedulePreflight(now, Debounce);
      }
    }

    method AdoptPreflightRequest(id: nat, original: nat)
      modifies this
      ensures View() == old(Adopted(View(), id, original))
    {
      if id == responseId {
        responseId := original;
      }
    }

    method ApplyPreflight(id: nat, result: HostAnswer)
      modifies this`inFlight, this`preflight, this`preflightError, this`selectedCheck, this`detail
      ensures View() == old(Applied(View(), id, result))
    {
      hide Lists;
      if id != responseId {
        return;
      }
      inFlight := None;
      match result {
        case Ok(p) => preflight, preflightError := Some(p), None;
        case Err(error) => preflight, preflightError := None, Some(error);
      }
      var kept := selectedCheck.Some? && preflight.Some? && Lists(preflight.value.checks, selectedCheck.value);
      if !kept {
        selectedCheck, detail := None, false;
      }
    }
  }

  // ---------------------------------------------------------------- the whole session

  /** The Launch state with its pipeline, the query issued last and the last accepted answer with its query. */
  datatype Session = Session(launch: Launch, pipe: Pipe, issued: Option<PreflightQuery>,
                             accepted: Option<(PreflightQuery, HostAnswer)>)

  datatype Move =
    | LoadPresets(presets: seq<Preset>, defaultId: string, now: int)
    | FailPresets(error: string)
    | Select(index: nat, now: int)
    | Toggle(airsim: bool, perception: string, updateOwnership: string, now: int)
    | EditText(text: string)
    | Refresh(now: int, delay: int)
    | Deadline(now: int)
    | PushOther(command: HostCommand)
    | DispatchFirst(now: int)
    | ReadMessage(result: HostAnswer)
    | Lanes(work: Work)

  /** The answered command is given the Host's `result`. */
  function ReadFirst(y: Session, result: HostAnswer): Session {
    if y.pipe.pool.messages == [] then y
    else
      var c, z := y.pipe.pool.messages[0], y.(pipe := Read(y.pipe));
      if c.Preflight? && c.requestId == y.launch.responseId
      then z.(launch := Applied(y.launch, c.requestId, result), accepted := Some((c.query, result)))
      else z
  }

  function DispatchedFirst(y: Session, now: int): Session {
    if y.pipe.outbox == [] then y
    else
      var (pipe, outcome) := Sent(y.pipe);
      y.(launch := DispatchApplied(y.launch, outcome, now), pipe := pipe)
  }

  function DeadlinePassed(y: Session, now: int): Session {
    match DueTaken(y.launch, now)
    case (l, None) => y.(launch := l)
    case (l, Some(c)) => y.(launch := l, pipe := Pushed(y.pipe, [c]), issued := QueryOf(y.launch))
  }

  /** Other commands may enter the outbox at any time, a dropped one again included. */
  function Moved(y: Session, m: Move): Session {
    match m
    case LoadPresets(presets, defaultId, now) => y.(launch := PresetsArrived(y.launch, presets, defaultId, now))
    case FailPresets(error) => y.(launch := y.launch.(presetsError := Some(error)))
    case Select(index, now) => y.(launch := Selected(y.launch, index, now))
    case Toggle(airsim, perception, ownership, now) => y.(launch := Toggled(y.launch, airsim, perception, ownership, now))
    case EditText(text) => y.(launch := y.launch.(text := text))
    case Refresh(now, delay) => y.(launch := Scheduled(y.launch, now, delay))
    case Deadline(now) => DeadlinePassed(y, now)
    case PushOther(c) => if c.Preflight? then y else y.(pipe := Pushed(y.pipe, [c]))
    case DispatchFirst(now) => DispatchedFirst(y, now)
    case ReadMessage(result) => ReadFirst(y, result)
    case Lanes(w) => y.(pipe := Worked(y.pipe, w))
  }

  function RunMoves(y: Session, moves: seq<Move>): Session {
    if moves == [] then y else Moved(RunMoves(y, moves[..|moves| - 1]), moves[|moves| - 1])
  }

  const FirstLaunch: Launch :=
    Launch(None, None, 0, false, "", "", 0, "", None, None, None, 0, 0, None, None, false)

  const Opening: Session := Session(FirstLaunch, Pipe([], Start), None, None)

  // ---------------------------------------------------------------- counting queries on their way

  function Asks(id: nat): HostCommand -> bool {
    (c: HostCommand) => c.Preflight? && c.requestId == id
  }

  function AsksFor(id: nat, q: PreflightQuery): HostCommand -> bool {
    (c: HostCommand) => c.Preflight? && c.requestId == id && c.query == q
  }

  ghost predicate OnlyPreflights(keep: HostCommand -> bool) {
    forall c :: keep(c) ==> c.Preflight?
  }

  lemma DeadlineCount(y: Session, now: int, keep: HostCommand -> bool)
    ensures Count(DeadlinePassed(y, now).pipe, keep)
         == Count(y.pipe, keep) + match DueTaken(y.launch, now).1 case None => 0 case Some(c) => if keep(c) then 1 else 0
  {
    hide Count;
    match DueTaken(y.launch, now).1
    case None =>
    case Some(c) => PushCount(y.pipe, c, keep);
  }

  predicate IsQuiet(m: Move) {
    m.Lanes? || m.PushOther?
  }

  predicate ChangesLaunch(m: Move) {
    m.LoadPresets? || m.FailPresets? || m.Select? || m.Toggle? || m.EditText? || m.Refresh?
  }

  lemma QuietCount(y: Session, m: Move, keep: HostCommand -> bool)
    requires IsQuiet(m) && OnlyPreflights(keep)
    ensures Count(Moved(y, m).pipe, keep) == Count(y.pipe, keep)
    ensures Moved(y, m).launch == y.launch && Moved(y, m).issued == y.issued && Moved(y, m).accepted == y.accepted
  {
    hide Count;
    match m
    case Lanes(w) => WorkCount(y.pipe, w, keep);
    case PushOther(c) => PushCount(y.pipe, c, keep);
  }

  // ---------------------------------------------------------------- the invariant

  ghost predicate IdUsed(y: Session, id: nat) {
    Count(y.pipe, Asks(id)) <= if 1 <= id <= y.launch.requestId then 1 else 0
  }

  /** The recorded query was issued last and has exactly its answer or its drop to come. */
  ghost predicate InFlightAwaited(y: Session) {
    match y.launch.inFlight
    case Some(q) => Count(y.pipe, AsksFor(y.launch.responseId, q)) >= 1 && y.issued == y.launch.inFlight && y.launch.presets.Some?
    case None => Count(y.pipe, Asks(y.launch.responseId)) == 0
  }

  /** With nothing due, the query issued last is the one for the current selection, and it is in flight or answered. */
  ghost predicate Current(y: Session) {
    y.launch.due.None? && QueryOf(y.launch).Some? ==>
      && y.issued == QueryOf(y.launch)
      && (y.launch.inFlight.None? ==> y.accepted.Some? && Some(y.accepted.value.0) == y.issued)
  }

  /** The stored answer or error is the accepted answer. */
  ghost predicate Stores(y: Session) {
    match y.accepted
    case None => y.launch.preflight.None? && y.launch.preflightError.None?
    case Some((_, Ok(p))) => y.launch.preflight == Some(p) && y.launch.preflightError.None?
    case Some((_, Err(error))) => y.launch.preflight.None? && y.launch.preflightError == Some(error)
  }

  ghost predicate Invariant(y: Session) {
    PoolInvariant(y.pipe.pool) && (forall id: nat :: IdUsed(y, id)) && InFlightAwaited(y) && Current(y) && Stores(y)
  }

  lemma MoveKeepsPool(y: Session, m: Move)
    requires PoolInvariant(y.pipe.pool)
    ensures PoolInvariant(Moved(y, m).pipe.pool)
  {
    hide PoolInvariant;
    match m
    case DispatchFirst(_) =>
      if y.pipe.outbox != [] {
        DispatchKeepsPool(y.pipe.pool, y.pipe.outbox[0]);
      }
    case ReadMessage(_) => ReadKeepsPool(y.pipe.pool);
    case Lanes(w) => WorkKeepsPool(y.pipe.pool, w);
    case _ =>
  }

  lemma QuietIds(y: Session, m: Move, id: nat)
    requires Invariant(y) && IsQuiet(m)
    ensures IdUsed(Moved(y, m), id)
  {
    hide PoolInvariant, Count;
    assert IdUsed(y, id);
    QuietCount(y, m, Asks(id));
    hide Moved;
  }

  lemma QuietRest(y: Session, m: Move)
    requires Invariant(y) && IsQuiet(m)
    ensures var z := Moved(y, m);
            InFlightAwaited(z) && Current(z) && Stores(z)
  {
    hide PoolInvariant, Count;
    QuietCount(y, m, Asks(y.launch.responseId));
    if y.launch.inFlight.Some? {
      QuietCount(y, m, AsksFor(y.launch.responseId, y.launch.inFlight.value));
    }
    hide Moved;
  }

  lemma QuietKeeps(y: Session, m: Move)
    requires Invariant(y) && IsQuiet(m)
    ensures Invariant(Moved(y, m))
  {
    assert PoolInvariant(Moved(y, m).pipe.pool) by { MoveKeepsPool(y, m); }
    forall id: nat
      ensures IdUsed(Moved(y, m), id)
    {
      QuietIds(y, m, id);
    }
    QuietRest(y, m);
    hide Moved;
  }

  /** Whatever changes the selection schedules a query for it. */
  lemma SelectionKeeps(y: Session, m: Move)
    requires Invariant(y) && ChangesLaunch(m)
    ensures Invariant(Moved(y, m))
  {
    hide PoolInvariant, Count;
    var z := Moved(y, m);
    assert z.pipe == y.pipe;
    assert z.launch.inFlight == y.launch.inFlight && z.launch.responseId == y.launch.responseId;
    assert z.launch.requestId == y.launch.requestId;
    forall id: nat
      ensures IdUsed(z, id)
    {
      assert IdUsed(y, id);
    }
  }

  lemma DeadlineKeeps(y: Session, now: int)
    requires Invariant(y)
    ensures Invariant(DeadlinePassed(y, now))
  {
    hide PoolInvariant, Count;
    var l, z := y.launch, DeadlinePassed(y, now);
    assert PoolInvariant(z.pipe.pool);
    forall id: nat
      ensures IdUsed(z, id)
    {
      assert IdUsed(y, id);
      DeadlineCount(y, now, Asks(id));
    }
    DeadlineCount(y, now, Asks(l.responseId));
    if z.launch.inFlight.Some? {
      DeadlineCount(y, now, AsksFor(z.launch.responseId, z.launch.inFlight.value));
    }
  }

  lemma ReadIds(y: Session, result: HostAnswer, id: nat)
    requires Invariant(y)
    ensures IdUsed(ReadFirst(y, result), id)
  {
    hide PoolInvariant, Count;
    assert IdUsed(y, id);
    if y.pipe.pool.messages != [] {
      ReadCount(y.pipe, Asks(id));
    }
  }

  /** An answer with the awaited id settles the query issued last. */
  lemma ReadAccepted(y: Session, result: HostAnswer)
    requires Invariant(y) && y.pipe.pool.messages != []
    requires Asks(y.launch.responseId)(y.pipe.pool.messages[0])
    ensures var z := ReadFirst(y, result);
            InFlightAwaited(z) && Current(z) && Stores(z) && z.launch.inFlight.None?
            && y.issued == Some(y.pipe.pool.messages[0].query)
  {
    hide PoolInvariant, Count;
    ReadCount(y.pipe, Asks(y.launch.responseId));
    assert IdUsed(y, y.launch.responseId);
    AnswerIsAwaited(y);
  }

  lemma ReadIgnored(y: Session, result: HostAnswer)
    requires Invariant(y) && y.pipe.pool.messages != []
    requires !Asks(y.launch.responseId)(y.pipe.pool.messages[0])
    ensures var z := ReadFirst(y, result);
            InFlightAwaited(z) && Current(z) && Stores(z)
  {
    hide PoolInvariant, Count;
    ReadCount(y.pipe, Asks(y.launch.responseId));
    if y.launch.inFlight.Some? {
      ReadCount(y.pipe, AsksFor(y.launch.responseId, y.launch.inFlight.value));
    }
  }

  lemma ReadKeeps(y: Session, result: HostAnswer)
    requires Invariant(y)
    ensures Invariant(ReadFirst(y, result))
  {
    MoveKeepsPool(y, ReadMessage(result));
    if y.pipe.pool.messages != [] {
      forall id: nat
        ensures IdUsed(ReadFirst(y, result), id)
      {
        ReadIds(y, result, id);
      }
      hide PoolInvariant, Count, ReadFirst, InFlightAwaited, Current, Stores, IdUsed;
      if Asks(y.launch.responseId)(y.pipe.pool.messages[0]) {
        ReadAccepted(y, result);
      } else {
        ReadIgnored(y, result);
      }
    }
  }

  /** The first message, if it carries the awaited id, answers the recorded query. */
  lemma AnswerIsAwaited(y: Session)
    requires Invariant(y) && y.pipe.pool.messages != [] && Asks(y.launch.responseId)(y.pipe.pool.messages[0])
    ensures y.launch.inFlight == Some(y.pipe.pool.messages[0].query)
  {
    hide PoolInvariant, Count;
    var id := y.launch.responseId;
    ReadCount(y.pipe, Asks(id));
    assert IdUsed(y, id);
    MessageIsOnly(y.pipe, AsksFor(id, y.launch.inFlight.value), Asks(id));
  }

  // ---------------------------------------------------------------- dispatch

  lemma DispatchIds(y: Session, now: int, id: nat)
    requires Invariant(y) && y.pipe.outbox != []
    ensures IdUsed(DispatchedFirst(y, now), id)
  {
    hide PoolInvariant, Count, InFlightAwaited, Current, Stores, DispatchStep;
    assert IdUsed(y, id);
    SendCount(y.pipe, Asks(id));
    assert DispatchedFirst(y, now).launch.requestId == y.launch.requestId;
  }

  /** A query with the awaited id is the recorded one. */
  lemma FirstIsAwaited(y: Session)
    requires Invariant(y) && y.pipe.outbox != [] && Asks(y.launch.responseId)(y.pipe.outbox[0])
    ensures y.launch.inFlight == Some(y.pipe.outbox[0].query)
  {
    hide PoolInvariant, Count;
    var id := y.launch.responseId;
    assert IdUsed(y, id);
    FirstCounts(y.pipe, Asks(id));
    FirstIsOnly(y.pipe, AsksFor(id, y.launch.inFlight.value), Asks(id));
  }

  lemma DispatchAccepted(y: Session, now: int)
    requires Invariant(y) && y.pipe.outbox != [] && !(Asks(y.launch.responseId)(y.pipe.outbox[0]) && Refused(Sent(y.pipe).1))
    ensures var z := DispatchedFirst(y, now);
            z.launch == y.launch && InFlightAwaited(z) && Current(z) && Stores(z)
  {
    hide PoolInvariant, Count, DispatchStep;
    var z := DispatchedFirst(y, now);
    assert z.launch == y.launch by { OutcomeCommand(y.pipe.pool, y.pipe.outbox[0]); }
    SendCount(y.pipe, Asks(y.launch.responseId));
    if y.launch.inFlight.Some? {
      SendCount(y.pipe, AsksFor(y.launch.responseId, y.launch.inFlight.value));
    }
  }

  /** Dropping the awaited query forgets it and schedules it again. */
  lemma DispatchDropped(y: Session, now: int)
    requires Invariant(y) && y.pipe.outbox != [] && Asks(y.launch.responseId)(y.pipe.outbox[0])
    requires Sent(y.pipe).1.Dropped?
    ensures var z := DispatchedFirst(y, now);
            InFlightAwaited(z) && Current(z) && Stores(z) && z.launch.due == Some(now + Debounce)
  {
    hide PoolInvariant, Count, DispatchStep;
    OutcomeCommand(y.pipe.pool, y.pipe.outbox[0]);
    FirstIsAwaited(y);
    assert DispatchedFirst(y, now).launch == RetryDropped(y.launch, y.launch.responseId, now);
    SendCount(y.pipe, Asks(y.launch.responseId));
    assert IdUsed(y, y.launch.responseId);
  }

  /** Coalescing the awaited query waits for its live twin, which asks about the same selection. */
  lemma DispatchCoalesced(y: Session, now: int)
    requires Invariant(y) && y.pipe.outbox != [] && Asks(y.launch.responseId)(y.pipe.outbox[0])
    requires Sent(y.pipe).1.Coalesced?
    ensures var z := DispatchedFirst(y, now);
            InFlightAwaited(z) && Current(z) && Stores(z)
  {
    hide PoolInvariant, Count, DispatchStep, DispatchedFirst, IdUsed, PoolCount;
    var c := y.pipe.outbox[0];
    FirstIsAwaited(y);
    var twin := TwinOf(y.pipe.pool, c);
    CoalescedLaunch(y, now, twin.requestId);
    TwinAsks(DispatchedFirst(y, now).pipe, twin, c.query);
  }

  lemma CoalescedLaunch(y: Session, now: int, original: nat)
    requires y.pipe.outbox != [] && Asks(y.launch.responseId)(y.pipe.outbox[0])
    requires Sent(y.pipe).1.Coalesced? && Sent(y.pipe).1.originalRequestId == Some(original)
    ensures var z := DispatchedFirst(y, now);
            z == y.(launch := y.launch.(responseId := original), pipe := z.pipe) && z.pipe.pool == y.pipe.pool
  {
    OutcomeCommand(y.pipe.pool, y.pipe.outbox[0]);
  }

  lemma TwinAsks(p: Pipe, twin: HostCommand, q: PreflightQuery)
    requires KeyOf(twin) == Some(PreflightKey(q))
    requires forall keep: HostCommand -> bool :: keep(twin) ==> PoolCount(p.pool, keep) >= 1
    ensures Count(p, AsksFor(twin.requestId, q)) >= 1
  {
    hide PoolCount, Matches;
    assert AsksFor(twin.requestId, q)(twin);
  }

  lemma DispatchRest(y: Session, now: int)
    requires Invariant(y) && y.pipe.outbox != []
    ensures var z := DispatchedFirst(y, now);
            InFlightAwaited(z) && Current(z) && Stores(z)
  {
    hide Invariant, DispatchedFirst, InFlightAwaited, Current, Stores, Sent;
    if !(Asks(y.launch.responseId)(y.pipe.outbox[0]) && Refused(Sent(y.pipe).1)) {
      DispatchAccepted(y, now);
    } else if Sent(y.pipe).1.Dropped? {
      DispatchDropped(y, now);
    } else {
      DispatchCoalesced(y, now);
    }
  }

  lemma Together(y: Session)
    requires PoolInvariant(y.pipe.pool) && (forall id: nat :: IdUsed(y, id)) && InFlightAwaited(y) && Current(y) && Stores(y)
    ensures Invariant(y)
  {
  }

  lemma DispatchKeeps(y: Session, now: int)
    requires Invariant(y)
    ensures Invariant(DispatchedFirst(y, now))
  {
    if y.pipe.outbox != [] {
      hide Invariant, DispatchedFirst, InFlightAwaited, Current, Stores, IdUsed;
      forall id: nat
        ensures IdUsed(DispatchedFirst(y, now), id)
      {
        DispatchIds(y, now, id);
      }
      DispatchRest(y, now);
      DispatchPool(y, now);
      Together(DispatchedFirst(y, now));
    }
  }

  lemma DispatchPool(y: Session, now: int)
    requires Invariant(y)
    ensures PoolInvariant(DispatchedFirst(y, now).pipe.pool)
  {
    hide PoolInvariant, Count;
    MoveKeepsPool(y, DispatchFirst(now));
  }

  lemma MoveKeeps(y: Session, m: Move)
    requires Invariant(y)
    ensures Invariant(Moved(y, m))
  {
    hide Invariant;
    if IsQuiet(m) {
      QuietKeeps(y, m);
    } else if ChangesLaunch(m) {
      SelectionKeeps(y, m);
    } else {
      match m
      case Deadline(now) => DeadlineKeeps(y, now);
      case DispatchFirst(now) => DispatchKeeps(y, now);
      case ReadMessage(result) => ReadKeeps(y, result);
    }
  }

  lemma OpeningUnused(id: nat)
    ensures Count(Opening.pipe, Asks(id)) == 0
  {
    StartCount(Asks(id));
  }

  lemma OpeningHolds()
    ensures Invariant(Opening)
  {
    hide PoolInvariant, Count;
    StartHolds();
    forall id: nat
      ensures IdUsed(Opening, id)
    {
      OpeningUnused(id);
    }
    OpeningUnused(0);
  }

  lemma {:induction false} RunKeeps(moves: seq<Move>)
    ensures Invariant(RunMoves(Opening, moves))
  {
    if moves == [] {
      OpeningHolds();
    } else {
      hide Invariant;
      RunKeeps(moves[..|moves| - 1]);
      MoveKeeps(RunMoves(Opening, moves[..|moves| - 1]), moves[|moves| - 1]);
    }
  }

  // ---------------------------------------------------------------- what holds over every run

  /** An accepted answer was issued for the query issued last, whatever other answers are still on their way. */
  lemma AcceptedIsLatest(moves: seq<Move>, result: HostAnswer)
    ensures var y := RunMoves(Opening, moves);
            y.pipe.pool.messages != [] && Asks(y.launch.responseId)(y.pipe.pool.messages[0]) ==>
              && y.issued == Some(y.pipe.pool.messages[0].query)
              && Moved(y, ReadMessage(result)).accepted == Some((y.pipe.pool.messages[0].query, result))
              && Moved(y, ReadMessage(result)).launch.inFlight.None?
  {
    var y := RunMoves(Opening, moves);
    RunKeeps(moves);
    hide Invariant, RunMoves;
    if y.pipe.pool.messages != [] && Asks(y.launch.responseId)(y.pipe.pool.messages[0]) {
      ReadAccepted(y, result);
    }
  }

  /** A recorded query is the one issued last and has exactly one answer or drop to come. */
  lemma InFlightIsAnswered(moves: seq<Move>)
    ensures var y := RunMoves(Opening, moves);
            y.launch.inFlight.Some? ==>
              && y.issued == y.launch.inFlight
              && Count(y.pipe, Asks(y.launch.responseId)) == 1
              && Count(y.pipe, AsksFor(y.launch.responseId, y.launch.inFlight.value)) == 1
  {
    var y := RunMoves(Opening, moves);
    RunKeeps(moves);
    assert IdUsed(y, y.launch.responseId);
    if y.launch.inFlight.Some? {
      CountWider(y.pipe, AsksFor(y.launch.responseId, y.launch.inFlight.value), Asks(y.launch.responseId));
    }
  }

  lemma {:induction false} FailedTitlesEmpty(checks: seq<Check>)
    ensures FailedTitles(checks) == [] <==> forall c :: c in checks ==> c.status != "fail"
  {
    if checks != [] {
      assert checks == [checks[0]] + checks[1..];
      FailedTitlesEmpty(checks[1..]);
    }
  }

  /** The titles listed are those of the failed checks, in order. */
  lemma {:induction false} FailedTitlesAppend(a: seq<Check>, b: seq<Check>)
    ensures FailedTitles(a + b) == FailedTitles(a) + FailedTitles(b)
    ensures |b| == 1 ==> FailedTitles(b) == if b[0].status == "fail" then [b[0].title] else []
  {
    if |b| == 1 {
      FailedTitlesStep(b[0], []);
      assert b == [b[0]];
    }
    hide FailedTitles;
    if a == [] {
      NoTitles();
      assert a + b == b;
    } else {
      assert a == [a[0]] + a[1..] && a + b == [a[0]] + (a[1..] + b);
      FailedTitlesAppend(a[1..], b);
      FailedTitlesStep(a[0], a[1..]);
      FailedTitlesStep(a[0], a[1..] + b);
    }
  }

  lemma NoTitles()
    ensures FailedTitles([]) == []
  {
  }

  lemma FailedTitlesStep(c: Check, rest: seq<Check>)
    ensures FailedTitles([c] + rest) == (if c.status == "fail" then [c.title] else []) + FailedTitles(rest)
  {
    assert ([c] + rest)[1..] == rest;
  }

  /** Why launching is not possible: an empty intent first, then the presets, then the preflight and its answer. */
  lemma BlockerSaysWhy(l: Launch)
    ensures var b, empty, chosen := LaunchBlocker(l), !exists c :: c in l.text && c !in Spaces, PresetOf(l).Some?;
            var waiting := l.due.Some? || l.inFlight.Some?;
            && (b == Some(IntentEmpty) <==> empty)
            && (b == Some(WaitingForPresets) <==> !empty && !chosen && l.presetsError.None?)
            && (forall e :: b == Some(PresetsUnavailable(e)) <==> !empty && !chosen && l.presetsError == Some(e))
            && (forall e :: b == Some(PreflightUnavailable(e)) <==> !empty && chosen && !waiting && l.preflightError == Some(e))
            && (!empty && chosen && waiting ==> b == Some(PreflightRunning))
            && (b == Some(NotLaunchable) ==>
                  l.preflight.Some? && !l.preflight.value.launchable && forall c :: c in l.preflight.value.checks ==> c.status != "fail")
            && (forall titles :: b == Some(Failed(titles)) ==>
                  l.preflight.Some? && titles == FailedTitles(l.preflight.value.checks) && titles != [])
  {
    if l.preflight.Some? {
      FailedTitlesEmpty(l.preflight.value.checks);
    }
    hide FailedTitles;
  }

  /**
    Launching is possible exactly when the intent is not blank, nothing is pending and the stored
    answer is the one accepted for the current preset and toggles, names them, is launchable and has
    no failed check.
   */
  lemma LaunchIsClear(moves: seq<Move>)
    ensures var y := RunMoves(Opening, moves);
            LaunchBlocker(y.launch).None? <==>
              var l := y.launch;
              && (exists c :: c in l.text && c !in Spaces) && l.due.None? && l.inFlight.None?
              && l.presets.Some? && l.presetIndex < |l.presets.value|
              && y.accepted.Some? && y.accepted.value.1.Ok?
              && var id, answer := l.presets.value[l.presetIndex].presetId, y.accepted.value.1.preflight;
                 && y.accepted.value.0 == PreflightQuery(id, l.airsim, l.perception, l.updateOwnership)
                 && answer.presetId == id && answer.airsim == l.airsim && answer.perception == l.perception
                 && answer.updateOwnership == l.updateOwnership
                 && answer.launchable && forall c :: c in answer.checks ==> c.status != "fail"
  {
    var y := RunMoves(Opening, moves);
    RunKeeps(moves);
    hide RunMoves, PoolInvariant, Count;
    assert Stores(y) && Current(y);
  }

  // ---------------------------------------------------------------- a launch that succeeds

  lemma {:induction false} RunMove(y: Session, m: Move, rest: seq<Move>)
    ensures RunMoves(y, [m] + rest) == RunMoves(Moved(y, m), rest)
    decreases |rest|
  {
    hide Moved;
    if rest == [] {
      assert [m][..0] == [] && [m] + rest == [m];
    } else {
      var last := |rest| - 1;
      RunMove(y, m, rest[..last]);
      assert ([m] + rest)[..last + 1] == [m] + rest[..last];
    }
  }

  /** The operator chooses a preset, sets toggles, writes an intent and waits for the debounce. */
  function Choosing(presets: seq<Preset>, k: nat, q: PreflightQuery, text: string, now: int): seq<Move> {
    [LoadPresets(presets, "", now), Select(k, now), Toggle(q.airsim, q.perception, q.updateOwnership, now), EditText(text),
     Deadline(now + 300), DispatchFirst(now + 300)]
  }

  /** The control lane answers. */
  function Serving(answer: StackPreflight): seq<Move> {
    [Lanes(Receive(Control)), Lanes(Execute(Control)), Lanes(Answer(Control)), ReadMessage(Ok(answer))]
  }

  ghost predicate Asked(y: Session, presets: seq<Preset>, k: nat, q: PreflightQuery, text: string, id: nat) {
    && y.launch.presets == Some(presets) && y.launch.presetIndex == k && y.launch.text == text && QueryOf(y.launch) == Some(q)
    && y.launch.due.None? && y.launch.responseId == id && y.launch.preflightError.None?
  }

  lemma ChoiceIsAsked(presets: seq<Preset>, k: nat, q: PreflightQuery, text: string, now: int)
    requires k < |presets| && q.presetId == presets[k].presetId
    ensures var y := RunMoves(Opening, Choosing(presets, k, q, text, now));
            Asked(y, presets, k, q, text, 1) && y.pipe == Pipe([], DispatchStep(Start, HostCommand.Preflight(1, q)).0)
  {
    hide RunMoves, DispatchStep;
    var m := Choosing(presets, k, q, text, now);
    assert m == [m[0]] + ([m[1]] + ([m[2]] + ([m[3]] + ([m[4]] + ([m[5]] + [])))));
    RunMove(Opening, m[0], [m[1]] + ([m[2]] + ([m[3]] + ([m[4]] + ([m[5]] + [])))));
    var y := Moved(Opening, m[0]);
    RunMove(y, m[1], [m[2]] + ([m[3]] + ([m[4]] + ([m[5]] + []))));
    var z := Chosen(y, presets, k, q, text, now);
    RunMove(Moved(y, m[1]), m[2], [m[3]] + ([m[4]] + ([m[5]] + [])));
    RunMove(Moved(Moved(y, m[1]), m[2]), m[3], [m[4]] + ([m[5]] + []));
    RunMove(z, m[4], [m[5]] + []);
    RunMove(Moved(z, m[4]), m[5], []);
    RunNothing(Moved(Moved(z, m[4]), m[5]));
    QueryIsSent(z, q, now);
  }

  lemma RunNothing(y: Session)
    ensures RunMoves(y, []) == y
  {
  }

  lemma Chosen(y: Session, presets: seq<Preset>, k: nat, q: PreflightQuery, text: string, now: int) returns (z: Session)
    requires y == Moved(Opening, LoadPresets(presets, "", now)) && k < |presets| && q.presetId == presets[k].presetId
    ensures z == Moved(Moved(Moved(y, Select(k, now)), Toggle(q.airsim, q.perception, q.updateOwnership, now)), EditText(text))
    ensures z.pipe == Opening.pipe && z.launch.requestId == 0 && z.launch.due == Some(now + 300) && z.launch.preflightError.None?
    ensures z.launch.presets == Some(presets) && z.launch.presetIndex == k && z.launch.text == text && QueryOf(z.launch) == Some(q)
  {
    hide DefaultIndex, Blank;
    z := Moved(Moved(Moved(y, Select(k, now)), Toggle(q.airsim, q.perception, q.updateOwnership, now)), EditText(text));
  }

  lemma QueryIsSent(z: Session, q: PreflightQuery, now: int)
    requires z.pipe == Opening.pipe && z.launch.requestId == 0 && z.launch.due == Some(now + 300) && QueryOf(z.launch) == Some(q)
    ensures var d := Moved(z, Deadline(now + 300)); var y := Moved(d, DispatchFirst(now + 300));
            && y.launch == z.launch.(due := None, requestId := 1, responseId := 1, inFlight := Some(q))
            && y.pipe == Pipe([], DispatchStep(Start, HostCommand.Preflight(1, q)).0)
  {
    assert DispatchStep(Start, HostCommand.Preflight(1, q)).1 == Queued;
  }

  lemma AnswerArrives(y: Session, q: PreflightQuery, answer: StackPreflight)
    requires y.launch.responseId == 1 && y.pipe == Pipe([], DispatchStep(Start, HostCommand.Preflight(1, q)).0)
    ensures RunMoves(y, Serving(answer)).launch == Applied(y.launch, 1, Ok(answer))
  {
    hide RunMoves, Applied;
    var m := Serving(answer);
    assert m == [m[0]] + ([m[1]] + ([m[2]] + ([m[3]] + [])));
    RunMove(y, m[0], [m[1]] + ([m[2]] + ([m[3]] + [])));
    var a := Moved(y, m[0]);
    RunMove(a, m[1], [m[2]] + ([m[3]] + []));
    var b := Moved(a, m[1]);
    RunMove(b, m[2], [m[3]] + []);
    var c := Moved(b, m[2]);
    RunMove(c, m[3], []);
    RunNothing(Moved(c, m[3]));
    LaneAnswers(HostCommand.Preflight(1, q));
    hide DispatchStep, Received, Executed, Answered;
  }

  lemma LaneAnswers(c: HostCommand)
    requires c.Preflight?
    ensures Answered(Executed(Received(DispatchStep(Start, c).0, Control), Control), Control) == Start.(messages := [c])
  {
    var sent := DispatchStep(Start, c).0;
    assert Received(sent, Control) == sent.(control := LaneState([], Executing(c)));
    assert Executed(Received(sent, Control), Control) == Start.(control := LaneState([], Answering(c)));
  }

  lemma {:induction false} RunInTwo(y: Session, a: seq<Move>, b: seq<Move>)
    ensures RunMoves(y, a + b) == RunMoves(RunMoves(y, a), b)
    decreases |b|
  {
    hide Moved;
    if b == [] {
      assert a + b == a;
    } else {
      RunInTwo(y, a, b[..|b| - 1]);
      assert (a + b)[..|a + b| - 1] == a + b[..|b| - 1];
    }
  }

  /** Any preset with any toggles and any intent that is not blank can be launched once the Host finds the stack launchable. */
  lemma LaunchIsReached(presets: seq<Preset>, k: nat, q: PreflightQuery, text: string, answer: StackPreflight, now: int)
    requires k < |presets| && q.presetId == presets[k].presetId
    requires (exists c :: c in text && c !in Spaces) && About(answer, q) && AllowsLaunch(answer)
    ensures LaunchBlocker(RunMoves(Opening, Choosing(presets, k, q, text, now) + Serving(answer)).launch).None?
  {
    hide RunMoves, Choosing, Serving, DispatchStep;
    var y := RunMoves(Opening, Choosing(presets, k, q, text, now));
    ChoiceIsAsked(presets, k, q, text, now);
    AnswerArrives(y, q, answer);
    RunInTwo(Opening, Choosing(presets, k, q, text, now), Serving(answer));
  }

  /** Presets that could not be fetched are reported; a refresh asks for the current selection again. */
  lemma FailuresAndRefreshes(y: Session, error: string, now: int, delay: nat)
    ensures !Blank(y.launch.text) && PresetOf(y.launch).None? ==>
              LaunchBlocker(Moved(y, FailPresets(error)).launch) == Some(PresetsUnavailable(error))
    ensures PresetOf(y.launch).Some? ==>
              var z := Moved(Moved(y, Refresh(now, delay)), Deadline(now + delay));
              && z.issued == QueryOf(y.launch)
              && z.pipe.outbox == y.pipe.outbox + [HostCommand.Preflight(y.launch.requestId + 1, QueryOf(y.launch).value)]
  {
    hide Blank;
  }
}
