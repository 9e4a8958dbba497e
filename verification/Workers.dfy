/**
  The three worker lanes. `Pool` is what the threads share; its step functions say what each thread
  does to it, and class `WorkerPool` carries the same steps out in place. A `History` adds what has
  happened so far, so that invariants can speak of whole runs.
 */
module Workers {
  import opened Options
  import opened HostCommands

  function Capacity(lane: Lane): nat {
    match lane case Control => 16 case Evidence => 32 case Media => 4
  }

  /** Where a worker thread stands in its loop, with the command in hand. */
  datatype Activity = Waiting | Executing(command: HostCommand) | Answering(command: HostCommand)

  datatype LaneState = LaneState(queue: seq<HostCommand>, activity: Activity)

  /** A message is represented by the command it answers. */
  datatype Pool = Pool(control: LaneState, evidence: LaneState, media: LaneState,
                       inFlight: map<PollKey, Option<nat>>, backlog: seq<HostCommand>, messages: seq<HostCommand>)

  datatype Dispatch =
    | Queued
    | Coalesced(command: HostCommand, originalRequestId: Option<nat>)
    | Deferred
    | Dropped(command: HostCommand)

  function At(p: Pool, lane: Lane): LaneState {
    match lane case Control => p.control case Evidence => p.evidence case Media => p.media
  }

  function With(p: Pool, lane: Lane, state: LaneState): (r: Pool)
    ensures forall l :: At(r, l) == if l == lane then state else At(p, l)
    ensures r.inFlight == p.inFlight && r.backlog == p.backlog && r.messages == p.messages
  {
    match lane
    case Control => p.(control := state)
    case Evidence => p.(evidence := state)
    case Media => p.(media := state)
  }

  function Enqueue(p: Pool, c: HostCommand): Pool {
    var lane := At(p, LaneOf(c));
    With(p, LaneOf(c), lane.(queue := lane.queue + [c]))
  }

  predicate HasRoom(p: Pool, lane: Lane) {
    |At(p, lane).queue| < Capacity(lane)
  }

  // ---------------------------------------------------------------- steps of the UI thread

  function DispatchStep(p: Pool, c: HostCommand): (Pool, Dispatch) {
    var key := KeyOf(c);
    if key.Some? && key.value in p.inFlight then (p, Coalesced(c, p.inFlight[key.value]))
    else if key.None? && p.backlog != [] then (p.(backlog := p.backlog + [c]), Deferred)
    else if HasRoom(p, LaneOf(c)) then
      (Enqueue(if key.Some? then p.(inFlight := p.inFlight[key.value := RequestIdOf(c)]) else p, c), Queued)
    else if key.Some? then (p, Dropped(c))
    else (p.(backlog := p.backlog + [c]), Deferred)
  }

  function Flushed(p: Pool): Pool
    decreases |p.backlog|
  {
    if p.backlog == [] || !HasRoom(p, LaneOf(p.backlog[0])) then p
    else Flushed(Enqueue(p.(backlog := p.backlog[1..]), p.backlog[0]))
  }

  // ---------------------------------------------------------------- steps of a worker thread

  function Received(p: Pool, lane: Lane): Pool {
    match At(p, lane)
    case LaneState(queue, Waiting) =>
      if queue == [] then p else With(p, lane, LaneState(queue[1..], Executing(queue[0])))
    case _ => p
  }

  function Executed(p: Pool, lane: Lane): Pool {
    match At(p, lane)
    case LaneState(queue, Executing(c)) =>
      var q := if KeyOf(c).Some? then p.(inFlight := p.inFlight - {KeyOf(c).value}) else p;
      With(q, lane, LaneState(queue, Answering(c)))
    case _ => p
  }

  function Answered(p: Pool, lane: Lane): Pool {
    match At(p, lane)
    case LaneState(queue, Answering(c)) => With(p, lane, LaneState(queue, Waiting)).(messages := p.messages + [c])
    case _ => p
  }

  // ---------------------------------------------------------------- the same steps in place

  class WorkerPool {
    var control: LaneState
    var evidence: LaneState
    var media: LaneState
    var inFlight: map<PollKey, Option<nat>>
    var backlog: seq<HostCommand>
    var messages: seq<HostCommand>

    function View(): Pool
      reads this
    {
      Pool(control, evidence, media, inFlight, backlog, messages)
    }

    constructor ()
      ensures View() == Start
    {
      var idle := LaneState([], Waiting);
      control, evidence, media := idle, idle, idle;
      inFlight, backlog, messages := map[], [], [];
    }

    /** Hands `c` to its lane if the queue has room. */
    method TrySend(c: HostCommand) returns (sent: bool)
      modifies this
      ensures sent == old(HasRoom(View(), LaneOf(c)))
      ensures View() == if sent then old(Enqueue(View(), c)) else old(View())
    {
      sent := HasRoom(View(), LaneOf(c));
      if sent {
        match LaneOf(c)
        case Control => control := control.(queue := control.queue + [c]);
        case Evidence => evidence := evidence.(queue := evidence.queue + [c]);
        case Media => media := media.(queue := media.queue + [c]);
      }
    }

    method DispatchCommand(c: HostCommand) returns (outcome: Dispatch)
      modifies this
      ensures (View(), outcome) == old(DispatchStep(View(), c))
    {
      var key := KeyOf(c);
      ghost var before := View();
      if key.Some? {
        if key.value in inFlight {
          return Coalesced(c, inFlight[key.value]);
        }
        inFlight := inFlight[key.value := RequestIdOf(c)];
      } else if backlog != [] {
        backlog := backlog + [c];
        return Deferred;
      }
      var sent := TrySend(c);
      if sent {
        return Queued;
      }
      if key.Some? {
        inFlight := inFlight - {key.value};
        assert inFlight == before.inFlight;
        return Dropped(c);
      }
      backlog := backlog + [c];
      return Deferred;
    }

    method FlushBacklog()
      modifies this
      ensures View() == old(Flushed(View()))
    {
      while backlog != []
        invariant Flushed(View()) == old(Flushed(View()))
        decreases |backlog|
      {
        var c := backlog[0];
        var rest := backlog[1..];
        backlog := rest;
        var sent := TrySend(c);
        if !sent {
          backlog := [c] + backlog;
          return;
        }
      }
    }
  }

  const Start: Pool := Pool(LaneState([], Waiting), LaneState([], Waiting), LaneState([], Waiting), map[], [], [])

  // ---------------------------------------------------------------- runs

  datatype Step =
    | UiDispatch(command: HostCommand)
    | UiFlush
    | UiRead
    | LaneReceive(lane: Lane)
    | LaneExecute(lane: Lane)
    | LaneAnswer(lane: Lane)

  /** A pool with what was dispatched, taken from the queues, answered and read so far. */
  datatype History = History(pool: Pool, dispatched: seq<HostCommand>, taken: seq<HostCommand>,
                             answered: seq<HostCommand>, read: seq<HostCommand>)

  function Next(h: History, step: Step): History {
    var p := h.pool;
    match step
    case UiDispatch(c) => h.(pool := DispatchStep(p, c).0, dispatched := h.dispatched + [c])
    case UiFlush => h.(pool := Flushed(p))
    case UiRead =>
      if p.messages == [] then h
      else h.(pool := p.(messages := p.messages[1..]), read := h.read + [p.messages[0]])
    case LaneReceive(l) =>
      if At(p, l).activity.Waiting? && At(p, l).queue != []
      then h.(pool := Received(p, l), taken := h.taken + [At(p, l).queue[0]]) else h
    case LaneExecute(l) => h.(pool := Executed(p, l))
    case LaneAnswer(l) =>
      if At(p, l).activity.Answering?
      then h.(pool := Answered(p, l), answered := h.answered + [At(p, l).activity.command]) else h
  }

  function RunFrom(h: History, steps: seq<Step>): History {
    if steps == [] then h else Next(RunFrom(h, steps[..|steps| - 1]), steps[|steps| - 1])
  }

  const Beginning: History := History(Start, [], [], [], [])

  // ---------------------------------------------------------------- filtered command lists

  function Filter<T>(cs: seq<T>, keep: T -> bool): seq<T> {
    if cs == [] then [] else (if keep(cs[0]) then [cs[0]] else []) + Filter(cs[1..], keep)
  }

  lemma {:induction false} FilterAppend<T>(a: seq<T>, b: seq<T>, keep: T -> bool)
    ensures Filter(a + b, keep) == Filter(a, keep) + Filter(b, keep)
  {
    if a == [] {
      assert a + b == b;
    } else {
      FilterAppend(a[1..], b, keep);
      var first := if keep(a[0]) then [a[0]] else [];
      assert (a + b)[0] == a[0] && (a + b)[1..] == a[1..] + b;
      assert first + (Filter(a[1..], keep) + Filter(b, keep)) == (first + Filter(a[1..], keep)) + Filter(b, keep);
    }
  }

  lemma FilterOne<T>(c: T, keep: T -> bool)
    ensures Filter([c], keep) == if keep(c) then [c] else []
  {
  }

  lemma FilterPush<T>(a: seq<T>, c: T, keep: T -> bool)
    ensures Filter(a + [c], keep) == Filter(a, keep) + if keep(c) then [c] else []
  {
    FilterAppend(a, [c], keep);
    FilterOne(c, keep);
  }

  function Mutations(cs: seq<HostCommand>): seq<HostCommand> {
    Filter(cs, IsMutation)
  }

  function ServedBy(lane: Lane): HostCommand -> bool {
    c => LaneOf(c) == lane
  }

  function HasKey(key: PollKey): HostCommand -> bool {
    c => KeyOf(c) == Some(key)
  }

  /** The command a worker has taken and not yet answered. */
  function InHand(a: Activity): seq<HostCommand> {
    if a.Waiting? then [] else [a.command]
  }

  /** The commands that still hold their key: queued, or taken and not yet executed. */
  function Live(s: LaneState): seq<HostCommand> {
    (if s.activity.Executing? then [s.activity.command] else []) + s.queue
  }

  function LiveIn(p: Pool, lane: Lane): seq<HostCommand> {
    Live(At(p, lane))
  }

  function KeyCount(cs: seq<HostCommand>, key: PollKey): nat {
    |Filter(cs, HasKey(key))|
  }

  lemma KeyCountAdds(a: seq<HostCommand>, c: HostCommand, key: PollKey)
    ensures KeyCount(a + [c], key) == KeyCount(a, key) + if KeyOf(c) == Some(key) then 1 else 0
    ensures KeyCount([c] + a, key) == KeyCount(a, key) + if KeyOf(c) == Some(key) then 1 else 0
  {
    FilterPush(a, c, HasKey(key));
    FilterAppend([c], a, HasKey(key));
    FilterOne(c, HasKey(key));
  }

  function LiveCount(p: Pool, key: PollKey): nat {
    KeyCount(LiveIn(p, Control), key) + KeyCount(LiveIn(p, Evidence), key) + KeyCount(LiveIn(p, Media), key)
  }

  // ---------------------------------------------------------------- invariants

  ghost predicate Bounded(p: Pool) {
    forall l: Lane :: |At(p, l).queue| <= Capacity(l)
  }

  ghost predicate Placed(p: Pool) {
    forall l: Lane, c :: c in At(p, l).queue || c in InHand(At(p, l).activity) ==> LaneOf(c) == l
  }

  /** Each key in flight has exactly one live command, which is the one whose id is recorded. */
  ghost predicate KeysHeld(p: Pool) {
    && (forall k: PollKey :: LiveCount(p, k) == if k in p.inFlight then 1 else 0)
    && (forall l: Lane, c :: c in LiveIn(p, l) && !IsMutation(c) ==>
          KeyOf(c).value in p.inFlight && p.inFlight[KeyOf(c).value] == RequestIdOf(c))
  }

  /** The dispatched mutations, in order: first those taken, then the control queue, then the backlog. */
  ghost predicate MutationsKept(h: History) {
    Mutations(h.dispatched) == Mutations(h.taken) + Mutations(h.pool.control.queue) + h.pool.backlog
  }

  /** Each lane answers every command it took, once and in order. */
  ghost predicate AnswersOnce(h: History) {
    && (forall l: Lane :: Filter(h.taken, ServedBy(l)) == Filter(h.answered, ServedBy(l)) + InHand(At(h.pool, l).activity))
    && h.answered == h.read + h.pool.messages
  }

  ghost predicate PoolInvariant(p: Pool) {
    Bounded(p) && Placed(p) && KeysHeld(p) && forall c :: c in p.backlog ==> IsMutation(c)
  }

  ghost predicate Invariant(h: History) {
    PoolInvariant(h.pool) && MutationsKept(h) && AnswersOnce(h)
  }

  lemma MutationsAreControl(c: HostCommand)
    ensures IsMutation(c) ==> LaneOf(c) == Control
  {
  }

  /** A command that joins a queue is the only new live command. */
  lemma EnqueueLive(p: Pool, c: HostCommand, key: PollKey)
    ensures forall l :: LiveIn(Enqueue(p, c), l) == LiveIn(p, l) + if l == LaneOf(c) then [c] else []
    ensures LiveCount(Enqueue(p, c), key) == LiveCount(p, key) + if KeyOf(c) == Some(key) then 1 else 0
  {
    hide KeyCount;
    EnqueueAtEnd(p, c);
    KeyCountAdds(LiveIn(p, LaneOf(c)), c, key);
  }

  lemma EnqueueAtEnd(p: Pool, c: HostCommand)
    ensures forall l :: LiveIn(Enqueue(p, c), l) == LiveIn(p, l) + if l == LaneOf(c) then [c] else []
  {
  }

  lemma EnqueueKeeps(p: Pool, c: HostCommand)
    requires Bounded(p) && Placed(p) && HasRoom(p, LaneOf(c))
    ensures Bounded(Enqueue(p, c)) && Placed(Enqueue(p, c))
  {
  }

  /** A poll joins its queue together with its key. */
  lemma PollQueued(p: Pool, c: HostCommand)
    requires KeysHeld(p) && !IsMutation(c) && KeyOf(c).value !in p.inFlight
    ensures KeysHeld(Enqueue(p.(inFlight := p.inFlight[KeyOf(c).value := RequestIdOf(c)]), c))
  {
    hide LiveCount, LiveIn;
    var key := KeyOf(c).value;
    var q := p.(inFlight := p.inFlight[key := RequestIdOf(c)]);
    SameLanes(p, q);
    forall k: PollKey
      ensures LiveCount(Enqueue(q, c), k) == if k in q.inFlight then 1 else 0
    {
      EnqueueLive(q, c, k);
    }
    forall l: Lane, d | d in LiveIn(Enqueue(q, c), l) && !IsMutation(d)
      ensures KeyOf(d).value in q.inFlight && q.inFlight[KeyOf(d).value] == RequestIdOf(d)
    {
      EnqueueLive(q, c, key);
      if d != c {
        assert d in LiveIn(p, l);
      }
    }
  }

  lemma SameLive(p: Pool, q: Pool)
    requires forall l :: LiveIn(p, l) == LiveIn(q, l)
    ensures forall k :: LiveCount(p, k) == LiveCount(q, k)
  {
    hide KeyCount, LiveIn;
  }

  lemma SameLanes(p: Pool, q: Pool)
    requires forall l :: At(p, l) == At(q, l)
    ensures forall l :: LiveIn(p, l) == LiveIn(q, l)
    ensures forall k :: LiveCount(p, k) == LiveCount(q, k)
  {
    hide LiveCount;
    SameLive(p, q);
  }

  lemma MutationQueued(p: Pool, c: HostCommand)
    requires KeysHeld(p) && IsMutation(c)
    ensures KeysHeld(Enqueue(p, c))
  {
    hide LiveCount, LiveIn;
    forall k: PollKey
      ensures LiveCount(Enqueue(p, c), k) == if k in p.inFlight then 1 else 0
    {
      EnqueueLive(p, c, k);
    }
    forall l: Lane, d | d in LiveIn(Enqueue(p, c), l) && !IsMutation(d)
      ensures KeyOf(d).value in p.inFlight && p.inFlight[KeyOf(d).value] == RequestIdOf(d)
    {
      EnqueueLive(p, c, KeyOf(d).value);
      assert d in LiveIn(p, l);
    }
  }

  lemma OutsideQueuesKeeps(p: Pool, q: Pool)
    requires PoolInvariant(p) && forall l :: At(p, l) == At(q, l)
    requires p.inFlight == q.inFlight && forall c :: c in q.backlog ==> IsMutation(c)
    ensures PoolInvariant(q)
  {
    hide LiveCount;
    SameLive(p, q);
  }

  lemma DispatchKeepsPool(p: Pool, c: HostCommand)
    requires PoolInvariant(p)
    ensures PoolInvariant(DispatchStep(p, c).0)
  {
    hide KeysHeld, Bounded, Placed;
    var q := DispatchStep(p, c).0;
    if forall l :: At(p, l) == At(q, l) {
      assert forall d :: d in q.backlog ==> IsMutation(d);
      OutsideQueuesKeeps(p, q);
    } else if IsMutation(c) {
      MutationQueued(p, c);
      EnqueueKeeps(p, c);
    } else {
      PollQueued(p, c);
      var r := p.(inFlight := p.inFlight[KeyOf(c).value := RequestIdOf(c)]);
      assert Bounded(r) && Placed(r) by { OnlyKeysChanged(p, r); }
      EnqueueKeeps(r, c);
    }
  }

  lemma OnlyKeysChanged(p: Pool, q: Pool)
    requires Bounded(p) && Placed(p) && forall l :: At(p, l) == At(q, l)
    ensures Bounded(q) && Placed(q)
  {
  }

  lemma {:induction false} FlushKeepsPool(p: Pool)
    requires PoolInvariant(p)
    ensures PoolInvariant(Flushed(p))
    decreases |p.backlog|
  {
    if p.backlog != [] && HasRoom(p, LaneOf(p.backlog[0])) {
      var q := p.(backlog := p.backlog[1..]);
      assert forall c :: c in q.backlog ==> c in p.backlog;
      OutsideQueuesKeeps(p, q);
      var c := p.backlog[0];
      assert IsMutation(c);
      MutationQueued(q, c);
      EnqueueKeeps(q, c);
      FlushKeepsPool(Enqueue(q, c));
    }
  }

  lemma ReceiveKeepsPool(p: Pool, lane: Lane)
    requires PoolInvariant(p)
    ensures PoolInvariant(Received(p, lane))
  {
    hide LiveCount;
    var q := Received(p, lane);
    assert forall l :: LiveIn(q, l) == LiveIn(p, l);
    SameLive(p, q);
  }

  lemma AnswerKeepsPool(p: Pool, lane: Lane)
    requires PoolInvariant(p)
    ensures PoolInvariant(Answered(p, lane))
  {
    hide LiveCount;
    hide KeysHeld;
    var q := Answered(p, lane);
    AnsweredKeeps(p, lane);
    SameLive(p, q);
    assert KeysHeld(q) by { KeysDependOnLive(p, q); }
  }

  lemma AnsweredKeeps(p: Pool, lane: Lane)
    ensures var q := Answered(p, lane);
            && (forall l :: LiveIn(q, l) == LiveIn(p, l) && At(q, l).queue == At(p, l).queue)
            && (forall l :: At(q, l).activity == At(p, l).activity || At(q, l).activity.Waiting?)
            && q.inFlight == p.inFlight && q.backlog == p.backlog
  {
  }

  lemma KeysDependOnLive(p: Pool, q: Pool)
    requires KeysHeld(p) && p.inFlight == q.inFlight && forall l :: LiveIn(p, l) == LiveIn(q, l)
    ensures KeysHeld(q)
  {
    hide LiveCount, LiveIn;
    SameLive(p, q);
  }

  lemma {:induction false} FilterMember<T>(cs: seq<T>, c: T, keep: T -> bool)
    requires c in cs && keep(c)
    ensures |Filter(cs, keep)| >= 1
  {
    if cs[0] != c {
      FilterMember(cs[1..], c, keep);
    }
  }

  lemma {:induction false} MemberCounts(p: Pool, lane: Lane, c: HostCommand)
    requires c in LiveIn(p, lane) && !IsMutation(c)
    ensures LiveCount(p, KeyOf(c).value) >= 1
  {
    FilterMember(LiveIn(p, lane), c, HasKey(KeyOf(c).value));
  }

  /** An executed command leaves the live commands. */
  lemma ExecuteLive(p: Pool, lane: Lane, key: PollKey)
    requires At(p, lane).activity.Executing?
    ensures var c := At(p, lane).activity.command;
            && (forall l :: LiveIn(p, l) == (if l == lane then [c] else []) + LiveIn(Executed(p, lane), l))
            && LiveCount(p, key) == LiveCount(Executed(p, lane), key) + if KeyOf(c) == Some(key) then 1 else 0
  {
    hide KeyCount;
    ExecuteFirst(p, lane);
    KeyCountAdds(LiveIn(Executed(p, lane), lane), At(p, lane).activity.command, key);
  }

  lemma ExecuteFirst(p: Pool, lane: Lane)
    requires At(p, lane).activity.Executing?
    ensures forall l :: LiveIn(p, l) == (if l == lane then [At(p, lane).activity.command] else []) + LiveIn(Executed(p, lane), l)
  {
  }

  lemma ExecuteKeepsPool(p: Pool, lane: Lane)
    requires PoolInvariant(p)
    ensures PoolInvariant(Executed(p, lane))
  {
    hide LiveCount, LiveIn;
    if At(p, lane).activity.Executing? {
      var q, c := Executed(p, lane), At(p, lane).activity.command;
      assert Bounded(q) && Placed(q);
      forall k: PollKey
        ensures LiveCount(q, k) == if k in q.inFlight then 1 else 0
      {
        ExecuteLive(p, lane, k);
      }
      forall l: Lane, d | d in LiveIn(q, l) && !IsMutation(d)
        ensures KeyOf(d).value in q.inFlight && q.inFlight[KeyOf(d).value] == RequestIdOf(d)
      {
        ExecuteLive(p, lane, KeyOf(d).value);
        assert d in LiveIn(p, l);
        MemberCounts(q, l, d);
      }
    }
  }

  // ---------------------------------------------------------------- whole runs

  /** Moving the backlog into the control queue keeps the order of what is waiting there. */
  lemma {:induction false} FlushKeepsOrder(p: Pool)
    requires forall c :: c in p.backlog ==> IsMutation(c)
    ensures Mutations(Flushed(p).control.queue) + Flushed(p).backlog == Mutations(p.control.queue) + p.backlog
    ensures forall l :: At(Flushed(p), l).activity == At(p, l).activity
    ensures Flushed(p).messages == p.messages
    decreases |p.backlog|
  {
    if p.backlog != [] && HasRoom(p, LaneOf(p.backlog[0])) {
      var c := p.backlog[0];
      assert IsMutation(c);
      MutationsAreControl(c);
      FilterPush(p.control.queue, c, IsMutation);
      FlushKeepsOrder(Enqueue(p.(backlog := p.backlog[1..]), c));
      assert p.backlog == [c] + p.backlog[1..];
    }
  }

  lemma DispatchEffect(p: Pool, c: HostCommand)
    ensures var (q, outcome) := DispatchStep(p, c);
            && (forall l :: At(q, l).activity == At(p, l).activity)
            && (forall l :: At(q, l).queue == At(p, l).queue + if outcome.Queued? && l == LaneOf(c) then [c] else [])
            && q.messages == p.messages
            && q.backlog == p.backlog + (if outcome.Deferred? then [c] else [])
            && (IsMutation(c) ==> outcome.Queued? || outcome.Deferred?)
            && (outcome.Deferred? ==> IsMutation(c))
            && (IsMutation(c) && outcome.Queued? ==> p.backlog == [])
  {
  }

  /** The mutations still waiting, in order. */
  function StillWaiting(p: Pool): seq<HostCommand> {
    Mutations(p.control.queue) + p.backlog
  }

  lemma DispatchMutations(p: Pool, c: HostCommand)
    ensures StillWaiting(DispatchStep(p, c).0) == StillWaiting(p) + if IsMutation(c) then [c] else []
  {
    var (q, outcome) := DispatchStep(p, c);
    DispatchEffect(p, c);
    assert At(q, Control) == q.control && At(p, Control) == p.control;
    MutationsAreControl(c);
    FilterPush(p.control.queue, c, IsMutation);
    hide DispatchStep, Filter;
    assert p.control.queue + [] == p.control.queue;
  }

  lemma AppendBehind<T>(all: seq<T>, taken: seq<T>, waiting: seq<T>, more: seq<T>, waiting': seq<T>)
    requires all == taken + waiting && waiting' == waiting + more
    ensures all + more == taken + waiting'
  {
  }

  lemma DispatchKeepsOrder(h: History, c: HostCommand)
    requires MutationsKept(h)
    ensures MutationsKept(Next(h, UiDispatch(c)))
  {
    var q := DispatchStep(h.pool, c).0;
    assert Next(h, UiDispatch(c)) == h.(pool := q, dispatched := h.dispatched + [c]);
    hide DispatchStep, Filter, Next, IsMutation;
    FilterPush(h.dispatched, c, IsMutation);
    DispatchMutations(h.pool, c);
    KeptAsWaiting(h);
    KeptAsWaiting(h.(pool := q, dispatched := h.dispatched + [c]));
    hide MutationsKept, StillWaiting;
    AppendBehind(Mutations(h.dispatched), Mutations(h.taken), StillWaiting(h.pool), if IsMutation(c) then [c] else [], StillWaiting(q));
  }

  lemma KeptAsWaiting(h: History)
    ensures MutationsKept(h) <==> Mutations(h.dispatched) == Mutations(h.taken) + StillWaiting(h.pool)
  {
    var taken, queued := Mutations(h.taken), Mutations(h.pool.control.queue);
    assert taken + queued + h.pool.backlog == taken + (queued + h.pool.backlog);
  }

  lemma DispatchKeepsAnswers(h: History, c: HostCommand)
    requires AnswersOnce(h)
    ensures AnswersOnce(Next(h, UiDispatch(c)))
  {
    hide Filter, DispatchStep;
    DispatchEffect(h.pool, c);
  }

  lemma FlushKeeps(h: History)
    requires MutationsKept(h) && AnswersOnce(h) && forall c :: c in h.pool.backlog ==> IsMutation(c)
    ensures MutationsKept(Next(h, UiFlush)) && AnswersOnce(Next(h, UiFlush))
  {
    hide Filter, Flushed;
    FlushKeepsOrder(h.pool);
    var waiting, waiting' := Mutations(h.pool.control.queue), Mutations(Flushed(h.pool).control.queue);
    assert Mutations(h.taken) + waiting + h.pool.backlog == Mutations(h.taken) + (waiting + h.pool.backlog);
    assert Mutations(h.taken) + waiting' + Flushed(h.pool).backlog == Mutations(h.taken) + (waiting' + Flushed(h.pool).backlog);
  }

  lemma ReceiveEffect(p: Pool, lane: Lane)
    requires At(p, lane).activity.Waiting? && At(p, lane).queue != [] && LaneOf(At(p, lane).queue[0]) == lane
    ensures var c, q := At(p, lane).queue[0], Received(p, lane);
            && q.backlog == p.backlog
            && Mutations(p.control.queue) == (if IsMutation(c) then [c] else []) + Mutations(q.control.queue)
  {
    MutationsAreControl(At(p, lane).queue[0]);
  }

  lemma ReceiveKeepsOrder(h: History, lane: Lane)
    requires MutationsKept(h)
    requires At(h.pool, lane).activity.Waiting? && At(h.pool, lane).queue != []
    requires LaneOf(At(h.pool, lane).queue[0]) == lane
    ensures MutationsKept(Next(h, LaneReceive(lane)))
  {
    var c, q := At(h.pool, lane).queue[0], Received(h.pool, lane);
    FilterPush(h.taken, c, IsMutation);
    ReceiveEffect(h.pool, lane);
    assert Mutations(h.taken + [c]) == Mutations(h.taken) + if IsMutation(c) then [c] else [];
    hide Filter, Received, Mutations;
    TakeFirst(Mutations(h.dispatched), Mutations(h.taken), if IsMutation(c) then [c] else [],
              Mutations(h.pool.control.queue), Mutations(q.control.queue), h.pool.backlog);
  }

  lemma TakeFirst<T>(all: seq<T>, taken: seq<T>, first: seq<T>, waiting: seq<T>, rest: seq<T>, backlog: seq<T>)
    requires all == taken + waiting + backlog && waiting == first + rest
    ensures all == (taken + first) + rest + backlog
  {
    assert taken + (first + rest) == (taken + first) + rest;
  }

  lemma ReceiveKeepsAnswers(h: History, lane: Lane)
    requires PoolInvariant(h.pool) && AnswersOnce(h)
    requires At(h.pool, lane).activity.Waiting? && At(h.pool, lane).queue != []
    ensures AnswersOnce(Next(h, LaneReceive(lane)))
  {
    hide Filter;
    var c := At(h.pool, lane).queue[0];
    assert LaneOf(c) == lane;
    forall l: Lane
      ensures Filter(h.taken + [c], ServedBy(l))
           == Filter(h.answered, ServedBy(l)) + InHand(At(Received(h.pool, lane), l).activity)
    {
      FilterPush(h.taken, c, ServedBy(l));
    }
  }

  lemma AnswerKeepsAnswers(h: History, lane: Lane)
    requires PoolInvariant(h.pool) && AnswersOnce(h) && At(h.pool, lane).activity.Answering?
    ensures AnswersOnce(Next(h, LaneAnswer(lane)))
  {
    hide Filter;
    var c := At(h.pool, lane).activity.command;
    assert c in InHand(At(h.pool, lane).activity);
    assert LaneOf(c) == lane;
    forall l: Lane
      ensures Filter(h.taken, ServedBy(l))
           == Filter(h.answered + [c], ServedBy(l)) + InHand(At(Answered(h.pool, lane), l).activity)
    {
      FilterPush(h.answered, c, ServedBy(l));
    }
  }

  lemma NextKeepsPool(h: History, step: Step)
    requires PoolInvariant(h.pool)
    ensures PoolInvariant(Next(h, step).pool)
  {
    hide PoolInvariant;
    match step
    case UiDispatch(c) => DispatchKeepsPool(h.pool, c);
    case UiFlush => FlushKeepsPool(h.pool);
    case UiRead => ReadKeepsPool(h.pool);
    case LaneReceive(l) => ReceiveKeepsPool(h.pool, l);
    case LaneExecute(l) => ExecuteKeepsPool(h.pool, l);
    case LaneAnswer(l) => AnswerKeepsPool(h.pool, l);
  }

  lemma ReadKeepsPool(p: Pool)
    requires PoolInvariant(p)
    ensures p.messages != [] ==> PoolInvariant(p.(messages := p.messages[1..]))
  {
    if p.messages != [] {
      OutsideQueuesKeeps(p, p.(messages := p.messages[1..]));
    }
  }

  lemma ExecuteKeepsRest(p: Pool, lane: Lane)
    ensures var q := Executed(p, lane);
            && q.backlog == p.backlog && q.messages == p.messages
            && forall l :: At(q, l).queue == At(p, l).queue && InHand(At(q, l).activity) == InHand(At(p, l).activity)
  {
  }

  /** Every step of every thread keeps the whole invariant. */
  lemma NextKeeps(h: History, step: Step)
    requires Invariant(h)
    ensures Invariant(Next(h, step))
  {
    hide PoolInvariant, Filter;
    NextKeepsPool(h, step);
    match step
    case UiDispatch(c) =>
      DispatchKeepsOrder(h, c);
      DispatchKeepsAnswers(h, c);
    case UiFlush =>
      assert forall c :: c in h.pool.backlog ==> IsMutation(c) by { BacklogIsMutations(h.pool); }
      FlushKeeps(h);
    case UiRead =>
    case LaneReceive(l) =>
      if At(h.pool, l).activity.Waiting? && At(h.pool, l).queue != [] {
        assert LaneOf(At(h.pool, l).queue[0]) == l by { QueuedInPlace(h.pool, l); }
        ReceiveKeepsOrder(h, l);
        ReceiveKeepsAnswers(h, l);
      }
    case LaneExecute(l) => ExecuteKeepsRest(h.pool, l);
    case LaneAnswer(l) =>
      if At(h.pool, l).activity.Answering? {
        AnswerKeepsAnswers(h, l);
        AnsweredKeeps(h.pool, l);
      }
  }

  lemma QueuedInPlace(p: Pool, lane: Lane)
    requires PoolInvariant(p)
    ensures forall c :: c in At(p, lane).queue ==> LaneOf(c) == lane
  {
  }

  lemma BacklogIsMutations(p: Pool)
    requires PoolInvariant(p)
    ensures forall c :: c in p.backlog ==> IsMutation(c)
  {
  }

  lemma StartHolds()
    ensures PoolInvariant(Start)
  {
    forall l: Lane
      ensures At(Start, l) == LaneState([], Waiting)
    {
    }
  }

  lemma {:induction false} RunKeeps(steps: seq<Step>)
    ensures Invariant(RunFrom(Beginning, steps))
  {
    if steps == [] {
      StartHolds();
    } else {
      hide Invariant;
      RunKeeps(steps[..|steps| - 1]);
      NextKeeps(RunFrom(Beginning, steps[..|steps| - 1]), steps[|steps| - 1]);
    }
  }

  lemma {:induction false} MutationsOfLane(cs: seq<HostCommand>)
    ensures Mutations(Filter(cs, ServedBy(Control))) == Mutations(cs)
  {
    if cs != [] {
      MutationsAreControl(cs[0]);
      MutationsOfLane(cs[1..]);
      var rest := Filter(cs[1..], ServedBy(Control));
      var first := if LaneOf(cs[0]) == Control then [cs[0]] else [];
      assert Filter(cs, ServedBy(Control)) == first + rest;
      FilterAppend(first, rest, IsMutation);
      FilterOne(cs[0], IsMutation);
    }
  }

  /**
    Over every run: the dispatched mutations are, in order, those answered, the one in hand, those
    queued and those in the backlog; and the queues stay within their capacity.
   */
  lemma MutationsConserved(steps: seq<Step>)
    ensures var h := RunFrom(Beginning, steps);
            && Mutations(h.dispatched) == Mutations(h.answered) + Mutations(InHand(h.pool.control.activity))
                                        + Mutations(h.pool.control.queue) + h.pool.backlog
            && |h.pool.control.queue| <= 16 && |h.pool.evidence.queue| <= 32 && |h.pool.media.queue| <= 4
  {
    var h := RunFrom(Beginning, steps);
    RunKeeps(steps);
    assert At(h.pool, Control) == h.pool.control && At(h.pool, Evidence) == h.pool.evidence && At(h.pool, Media) == h.pool.media;
    assert |At(h.pool, Control).queue| <= 16 && |At(h.pool, Evidence).queue| <= 32 && |At(h.pool, Media).queue| <= 4;
    assert Filter(h.taken, ServedBy(Control))
        == Filter(h.answered, ServedBy(Control)) + InHand(h.pool.control.activity);
    MutationsOfLane(h.taken);
    MutationsOfLane(h.answered);
    FilterAppend(Filter(h.answered, ServedBy(Control)), InHand(h.pool.control.activity), IsMutation);
  }

  /** Over every run: each key in flight has exactly one live command, and every command taken is answered once. */
  lemma PollsAccountedFor(steps: seq<Step>)
    ensures var h := RunFrom(Beginning, steps);
            && (forall k: PollKey :: LiveCount(h.pool, k) == if k in h.pool.inFlight then 1 else 0)
            && (forall l: Lane, c :: c in LiveIn(h.pool, l) && !IsMutation(c) ==>
                  KeyOf(c).value in h.pool.inFlight && h.pool.inFlight[KeyOf(c).value] == RequestIdOf(c))
            && (forall l: Lane :: Filter(h.taken, ServedBy(l))
                               == Filter(h.read + h.pool.messages, ServedBy(l)) + InHand(At(h.pool, l).activity))
  {
    hide RunFrom, LiveCount, LiveIn, Filter, At;
    RunKeeps(steps);
  }

  // ---------------------------------------------------------------- nothing waits for ever

  function LaneWeight(s: LaneState): nat {
    3 * |s.queue| + match s.activity case Waiting => 0 case Executing(_) => 2 case Answering(_) => 1
  }

  /** How many steps of the workers and flushes are still to come at most. */
  function Weight(p: Pool): nat {
    4 * |p.backlog| + LaneWeight(p.control) + LaneWeight(p.evidence) + LaneWeight(p.media)
  }

  predicate Idle(p: Pool) {
    p.backlog == [] && forall l: Lane :: At(p, l) == LaneState([], Waiting)
  }

  /** The step a lane takes next. */
  function LaneStep(p: Pool, lane: Lane): Step {
    match At(p, lane).activity case Waiting => LaneReceive(lane) case Executing(_) => LaneExecute(lane) case Answering(_) => LaneAnswer(lane)
  }

  lemma LaneWorks(h: History, lane: Lane)
    requires At(h.pool, lane) != LaneState([], Waiting)
    ensures Weight(Next(h, LaneStep(h.pool, lane)).pool) < Weight(h.pool)
  {
  }

  lemma {:induction false} FlushWeighs(p: Pool)
    ensures Weight(Flushed(p)) <= Weight(p)
    ensures p.backlog != [] && HasRoom(p, LaneOf(p.backlog[0])) ==> Weight(Flushed(p)) < Weight(p)
    decreases |p.backlog|
  {
    if p.backlog != [] && HasRoom(p, LaneOf(p.backlog[0])) {
      var q := Enqueue(p.(backlog := p.backlog[1..]), p.backlog[0]);
      EnqueueWeighs(p.(backlog := p.backlog[1..]), p.backlog[0]);
      FlushWeighs(q);
    }
  }

  lemma EnqueueWeighs(p: Pool, c: HostCommand)
    ensures Weight(Enqueue(p, c)) == Weight(p) + 3
  {
  }

  lemma {:induction false} RunFirst(h: History, step: Step, rest: seq<Step>)
    ensures RunFrom(h, [step] + rest) == RunFrom(Next(h, step), rest)
    decreases |rest|
  {
    hide Next;
    if rest == [] {
      assert [step][..0] == [] && [step] + rest == [step];
    } else {
      var last := |rest| - 1;
      RunFirst(h, step, rest[..last]);
      assert ([step] + rest)[..last + 1] == [step] + rest[..last];
    }
  }

  /** From every state the workers and flushes, without a further dispatch, get everything done. */
  lemma {:induction false} AllGetsDone(h: History) returns (steps: seq<Step>)
    ensures |steps| <= Weight(h.pool) && forall s :: s in steps ==> !s.UiDispatch?
    ensures Idle(RunFrom(h, steps).pool) && RunFrom(h, steps).dispatched == h.dispatched
    decreases Weight(h.pool)
  {
    hide Weight, Next, Flushed;
    if lane: Lane :| At(h.pool, lane) != LaneState([], Waiting) {
      LaneWorks(h, lane);
      steps := DoneAfter(h, LaneStep(h.pool, lane));
    } else if h.pool.backlog != [] {
      FlushWeighs(h.pool);
      assert HasRoom(h.pool, LaneOf(h.pool.backlog[0]));
      FlushIs(h);
      steps := DoneAfter(h, UiFlush);
    } else {
      steps := [];
    }
  }

  lemma FlushIs(h: History)
    ensures Next(h, UiFlush).pool == Flushed(h.pool)
  {
  }

  lemma {:induction false} DoneAfter(h: History, step: Step) returns (steps: seq<Step>)
    requires Weight(Next(h, step).pool) < Weight(h.pool) && !step.UiDispatch?
    ensures |steps| <= Weight(h.pool) && forall s :: s in steps ==> !s.UiDispatch?
    ensures Idle(RunFrom(h, steps).pool) && RunFrom(h, steps).dispatched == h.dispatched
    decreases Weight(h.pool), 0
  {
    assert Next(h, step).dispatched == h.dispatched;
    hide Weight, Next;
    var rest := AllGetsDone(Next(h, step));
    RunFirst(h, step, rest);
    steps := [step] + rest;
  }

  /** So after every run each dispatched mutation can still be answered, and then all are, in order. */
  lemma MutationsGetAnswered(steps: seq<Step>) returns (more: seq<Step>)
    ensures forall s :: s in more ==> !s.UiDispatch?
    ensures var h := RunFrom(Beginning, steps + more);
            h.dispatched == RunFrom(Beginning, steps).dispatched && Mutations(h.answered) == Mutations(h.dispatched)
  {
    hide RunFrom, Idle;
    more := AllGetsDone(RunFrom(Beginning, steps));
    RunInTwo(Beginning, steps, more);
    MutationsConserved(steps + more);
    IdleHoldsNothing(RunFrom(Beginning, steps + more).pool);
  }

  lemma IdleHoldsNothing(p: Pool)
    requires Idle(p)
    ensures p.backlog == [] && Mutations(InHand(p.control.activity)) == [] && Mutations(p.control.queue) == []
  {
    assert At(p, Control) == p.control;
  }

  lemma {:induction false} RunInTwo(h: History, a: seq<Step>, b: seq<Step>)
    ensures RunFrom(h, a + b) == RunFrom(RunFrom(h, a), b)
    decreases |b|
  {
    hide Next;
    if b == [] {
      assert a + b == a;
    } else {
      RunInTwo(h, a, b[..|b| - 1]);
      assert (a + b)[..|a + b| - 1] == a + b[..|b| - 1];
    }
  }

  /** What the dispatcher reports, in terms of the live commands. */
  lemma DispatchReports(p: Pool, c: HostCommand)
    requires PoolInvariant(p)
    ensures var outcome := DispatchStep(p, c).1;
            && (outcome.Coalesced? <==> !IsMutation(c) && LiveCount(p, KeyOf(c).value) > 0)
            && (outcome.Coalesced? ==> forall l: Lane, d :: d in LiveIn(p, l) && KeyOf(d) == KeyOf(c) ==>
                  outcome.originalRequestId == RequestIdOf(d))
            && (outcome.Dropped? <==> !IsMutation(c) && LiveCount(p, KeyOf(c).value) == 0 && !HasRoom(p, LaneOf(c)))
            && (outcome.Deferred? <==> IsMutation(c) && (p.backlog != [] || !HasRoom(p, Control)))
  {
    MutationsAreControl(c);
    hide LiveCount, LiveIn;
    if !IsMutation(c) {
      assert LiveCount(p, KeyOf(c).value) == if KeyOf(c).value in p.inFlight then 1 else 0;
    }
  }
}
