/** Counting the commands on their way through the worker lanes, and what each step does to the count. */
module Pipeline {
  import opened Options
  import opened HostCommands
  import opened Workers

  /** How many of the commands match. */
  function Matches(cs: seq<HostCommand>, keep: HostCommand -> bool): nat {
    |Filter(cs, keep)|
  }

  lemma MatchesAdds(cs: seq<HostCommand>, c: HostCommand, keep: HostCommand -> bool)
    ensures Matches(cs + [c], keep) == Matches(cs, keep) + if keep(c) then 1 else 0
    ensures Matches([c] + cs, keep) == Matches(cs, keep) + if keep(c) then 1 else 0
    ensures Matches([c], keep) == if keep(c) then 1 else 0
    ensures Matches([], keep) == 0
  {
    FilterPush(cs, c, keep);
    FilterAppend([c], cs, keep);
    FilterOne(c, keep);
  }

  function LanePart(p: Pool, l: Lane, keep: HostCommand -> bool): nat {
    Matches(InHand(At(p, l).activity), keep) + Matches(At(p, l).queue, keep)
  }

  function PoolCount(p: Pool, keep: HostCommand -> bool): nat {
    LanePart(p, Control, keep) + LanePart(p, Evidence, keep) + LanePart(p, Media, keep)
    + Matches(p.backlog, keep) + Matches(p.messages, keep)
  }

  lemma DispatchCount(p: Pool, c: HostCommand, keep: HostCommand -> bool)
    ensures var (q, outcome) := DispatchStep(p, c);
            PoolCount(q, keep) == PoolCount(p, keep) + if (outcome.Queued? || outcome.Deferred?) && keep(c) then 1 else 0
  {
    var (q, outcome) := DispatchStep(p, c);
    DispatchEffect(p, c);
    hide DispatchStep, At, Matches;
    MatchesAdds(p.backlog, c, keep);
    forall l: Lane
      ensures LanePart(q, l, keep) == LanePart(p, l, keep) + if outcome.Queued? && l == LaneOf(c) && keep(c) then 1 else 0
    {
      MatchesAdds(At(p, l).queue, c, keep);
      assert At(p, l).queue + [] == At(p, l).queue;
    }
    assert p.backlog + [] == p.backlog;
  }

  lemma EnqueueCount(p: Pool, c: HostCommand, keep: HostCommand -> bool)
    ensures PoolCount(Enqueue(p, c), keep) == PoolCount(p, keep) + if keep(c) then 1 else 0
  {
    hide Matches;
    MatchesAdds(At(p, LaneOf(c)).queue, c, keep);
  }

  lemma {:induction false} FlushCount(p: Pool, keep: HostCommand -> bool)
    ensures PoolCount(Flushed(p), keep) == PoolCount(p, keep)
    decreases |p.backlog|
  {
    if p.backlog != [] && HasRoom(p, LaneOf(p.backlog[0])) {
      hide Matches, Enqueue;
      var c, q := p.backlog[0], p.(backlog := p.backlog[1..]);
      assert p.backlog == [c] + q.backlog;
      MatchesAdds(q.backlog, c, keep);
      assert forall l :: At(q, l) == At(p, l);
      EnqueueCount(q, c, keep);
      assert Enqueue(q, c).backlog == q.backlog by { EnqueueBacklog(q, c); }
      FlushCount(Enqueue(q, c), keep);
    }
  }

  lemma EnqueueBacklog(p: Pool, c: HostCommand)
    ensures Enqueue(p, c).backlog == p.backlog
  {
  }

  lemma ReceiveCount(p: Pool, lane: Lane, keep: HostCommand -> bool)
    ensures PoolCount(Received(p, lane), keep) == PoolCount(p, keep)
  {
    hide Matches;
    var queue := At(p, lane).queue;
    if queue != [] {
      assert queue == [queue[0]] + queue[1..];
      MatchesAdds(queue[1..], queue[0], keep);
    }
  }

  lemma ExecuteCount(p: Pool, lane: Lane, keep: HostCommand -> bool)
    ensures PoolCount(Executed(p, lane), keep) == PoolCount(p, keep)
  {
    hide Matches;
  }

  lemma AnswerCount(p: Pool, lane: Lane, keep: HostCommand -> bool)
    ensures PoolCount(Answered(p, lane), keep) == PoolCount(p, keep)
  {
    hide Matches;
    if At(p, lane).activity.Answering? {
      MatchesAdds(p.messages, At(p, lane).activity.command, keep);
    }
  }

  lemma OutcomeCommand(p: Pool, c: HostCommand)
    ensures var outcome := DispatchStep(p, c).1;
            (outcome.Coalesced? ==> outcome.command == c) && (outcome.Dropped? ==> outcome.command == c)
  {
  }

  lemma {:induction false} MatchesMember(cs: seq<HostCommand>, c: HostCommand, keep: HostCommand -> bool)
    requires c in cs && keep(c)
    ensures Matches(cs, keep) >= 1
  {
    FilterMember(cs, c, keep);
  }

  lemma LiveWithKey(p: Pool, key: PollKey) returns (d: HostCommand, l: Lane)
    requires PoolInvariant(p) && key in p.inFlight
    ensures d in LiveIn(p, l) && KeyOf(d) == Some(key) && p.inFlight[key] == RequestIdOf(d)
  {
    assert LiveCount(p, key) == 1;
    if KeyCount(LiveIn(p, Control), key) > 0 {
      l := Control;
    } else if KeyCount(LiveIn(p, Evidence), key) > 0 {
      l := Evidence;
    } else {
      l := Media;
    }
    d := FilterWitness(LiveIn(p, l), HasKey(key));
    assert HasKey(key)(d);
    assert !IsMutation(d);
  }

  lemma {:induction false} FilterWitness(cs: seq<HostCommand>, keep: HostCommand -> bool) returns (c: HostCommand)
    requires |Filter(cs, keep)| > 0
    ensures c in cs && keep(c)
  {
    if keep(cs[0]) {
      c := cs[0];
    } else {
      c := FilterWitness(cs[1..], keep);
    }
  }

  lemma {:induction false} MatchesWider(cs: seq<HostCommand>, narrow: HostCommand -> bool, wide: HostCommand -> bool)
    requires forall c :: narrow(c) ==> wide(c)
    ensures Matches(cs, narrow) <= Matches(cs, wide)
  {
    if cs != [] {
      MatchesWider(cs[1..], narrow, wide);
    }
  }

  lemma PoolCountWider(p: Pool, narrow: HostCommand -> bool, wide: HostCommand -> bool)
    requires forall c :: narrow(c) ==> wide(c)
    ensures PoolCount(p, narrow) <= PoolCount(p, wide)
  {
    hide Matches;
    forall l: Lane
      ensures LanePart(p, l, narrow) <= LanePart(p, l, wide)
    {
      MatchesWider(InHand(At(p, l).activity), narrow, wide);
      MatchesWider(At(p, l).queue, narrow, wide);
    }
    MatchesWider(p.backlog, narrow, wide);
    MatchesWider(p.messages, narrow, wide);
  }

  lemma StartCount(keep: HostCommand -> bool)
    ensures PoolCount(Start, keep) == 0 && Matches([], keep) == 0
  {
    forall l: Lane
      ensures LanePart(Start, l, keep) == 0
    {
    }
  }

  // ---------------------------------------------------------------- the outbox in front of the lanes

  /** The console's outbox and the worker lanes behind it. */
  datatype Pipe = Pipe(outbox: seq<HostCommand>, pool: Pool)

  /** A step of the lanes that leaves the console's own state alone. */
  datatype Work = Flush | Receive(lane: Lane) | Execute(lane: Lane) | Answer(lane: Lane)

  function WorkedPool(p: Pool, w: Work): Pool {
    match w
    case Flush => Flushed(p)
    case Receive(l) => Received(p, l)
    case Execute(l) => Executed(p, l)
    case Answer(l) => Answered(p, l)
  }

  function Worked(p: Pipe, w: Work): Pipe {
    p.(pool := WorkedPool(p.pool, w))
  }

  function Pushed(p: Pipe, cs: seq<HostCommand>): Pipe {
    p.(outbox := p.outbox + cs)
  }

  /** Dispatches the first command of the outbox. */
  function Sent(p: Pipe): (Pipe, Dispatch)
    requires p.outbox != []
  {
    var (pool, outcome) := DispatchStep(p.pool, p.outbox[0]);
    (Pipe(p.outbox[1..], pool), outcome)
  }

  /** Takes the first message off the channel. */
  function Read(p: Pipe): Pipe
    requires p.pool.messages != []
  {
    p.(pool := p.pool.(messages := p.pool.messages[1..]))
  }

  predicate Refused(outcome: Dispatch) {
    outcome.Coalesced? || outcome.Dropped?
  }

  /** The commands still to be answered: in the outbox, the backlog, a queue, a worker's hand or the channel. */
  function Count(p: Pipe, keep: HostCommand -> bool): nat {
    Matches(p.outbox, keep) + PoolCount(p.pool, keep)
  }

  lemma WorkCount(p: Pipe, w: Work, keep: HostCommand -> bool)
    ensures Count(Worked(p, w), keep) == Count(p, keep)
  {
    hide PoolCount;
    match w
    case Flush => FlushCount(p.pool, keep);
    case Receive(l) => ReceiveCount(p.pool, l, keep);
    case Execute(l) => ExecuteCount(p.pool, l, keep);
    case Answer(l) => AnswerCount(p.pool, l, keep);
  }

  lemma PushCount(p: Pipe, c: HostCommand, keep: HostCommand -> bool)
    ensures Count(Pushed(p, [c]), keep) == Count(p, keep) + if keep(c) then 1 else 0
  {
    hide Matches, PoolCount;
    MatchesAdds(p.outbox, c, keep);
  }

  /** Dispatching removes a command exactly when it is coalesced or dropped. */
  lemma SendCount(p: Pipe, keep: HostCommand -> bool)
    requires p.outbox != []
    ensures Count(Sent(p).0, keep) == Count(p, keep) - if keep(p.outbox[0]) && Refused(Sent(p).1) then 1 else 0
  {
    var c := p.outbox[0];
    assert p.outbox == [c] + p.outbox[1..];
    DispatchCount(p.pool, c, keep);
    hide PoolCount, DispatchStep, Matches;
    MatchesAdds(p.outbox[1..], c, keep);
  }

  lemma ReadCount(p: Pipe, keep: HostCommand -> bool)
    requires p.pool.messages != []
    ensures Count(Read(p), keep) == Count(p, keep) - if keep(p.pool.messages[0]) then 1 else 0
  {
    hide Matches;
    var ms := p.pool.messages;
    assert ms == [ms[0]] + ms[1..];
    MatchesAdds(ms[1..], ms[0], keep);
  }

  lemma CountWider(p: Pipe, narrow: HostCommand -> bool, wide: HostCommand -> bool)
    requires forall c :: narrow(c) ==> wide(c)
    ensures Count(p, narrow) <= Count(p, wide)
  {
    PoolCountWider(p.pool, narrow, wide);
    MatchesWider(p.outbox, narrow, wide);
  }

  lemma FirstCounts(p: Pipe, keep: HostCommand -> bool)
    requires p.outbox != [] && keep(p.outbox[0])
    ensures Count(p, keep) >= 1
  {
    hide Matches, PoolCount;
    assert p.outbox == [p.outbox[0]] + p.outbox[1..];
    MatchesAdds(p.outbox[1..], p.outbox[0], keep);
  }

  /** The first command of the outbox, if it matches `wide` and is its only match, is the match of anything narrower. */
  lemma FirstIsOnly(p: Pipe, narrow: HostCommand -> bool, wide: HostCommand -> bool)
    requires p.outbox != [] && wide(p.outbox[0]) && (forall c :: narrow(c) ==> wide(c))
    requires Count(p, wide) <= 1 && Count(p, narrow) >= 1
    ensures narrow(p.outbox[0])
  {
    var c, rest := p.outbox[0], p.(outbox := p.outbox[1..]);
    assert p.outbox == [c] + rest.outbox;
    hide Matches, PoolCount;
    MatchesAdds(rest.outbox, c, narrow);
    MatchesAdds(rest.outbox, c, wide);
    CountWider(rest, narrow, wide);
  }

  /** The same for the first message of the channel. */
  lemma MessageIsOnly(p: Pipe, narrow: HostCommand -> bool, wide: HostCommand -> bool)
    requires p.pool.messages != [] && wide(p.pool.messages[0]) && (forall c :: narrow(c) ==> wide(c))
    requires Count(p, wide) <= 1 && Count(p, narrow) >= 1
    ensures narrow(p.pool.messages[0])
  {
    hide Count;
    ReadCount(p, narrow);
    ReadCount(p, wide);
    CountWider(Read(p), narrow, wide);
  }

  /** A coalesced poll has a live twin with the same key, which carries the reported id. */
  lemma TwinOf(p: Pool, c: HostCommand) returns (twin: HostCommand)
    requires PoolInvariant(p) && DispatchStep(p, c).1.Coalesced?
    ensures KeyOf(twin) == KeyOf(c) && DispatchStep(p, c).1.originalRequestId == RequestIdOf(twin)
    ensures forall keep: HostCommand -> bool :: keep(twin) ==> PoolCount(p, keep) >= 1
  {
    hide Matches, PoolInvariant;
    var d, l := LiveWithKey(p, KeyOf(c).value);
    twin := d;
    forall keep: HostCommand -> bool | keep(d)
      ensures PoolCount(p, keep) >= 1
    {
      if d in At(p, l).queue {
        MatchesMember(At(p, l).queue, d, keep);
      } else {
        MatchesMember(InHand(At(p, l).activity), d, keep);
      }
      assert LanePart(p, l, keep) >= 1;
    }
  }

  lemma WorkKeepsPool(p: Pool, w: Work)
    requires PoolInvariant(p)
    ensures PoolInvariant(WorkedPool(p, w))
  {
    hide PoolInvariant;
    match w
    case Flush => FlushKeepsPool(p);
    case Receive(l) => ReceiveKeepsPool(p, l);
    case Execute(l) => ExecuteKeepsPool(p, l);
    case Answer(l) => AnswerKeepsPool(p, l);
  }
}
