/** Why no task is handled twice at once: the lease of 3 x Timeout + 10s against
    the clocks of the consumers.

    Consumers run the state machine of the processor over the queue protocol,
    each on a clock of its own. Any of them may rest between two tasks, lose a
    mark or a release, or crash. What is assumed is written in Timed and in
    Possible: a handler returns by HandleTimeout, a mark is made within its 5s
    or not at all, at most `pause` goes by between the look at BatchTimeout and
    the start of the handler and between its return and the start of the mark,
    and no clock of the consumers of a queue is more than `skew` ahead of
    another. The lease covers a skew and two pauses of Timeout + 5s together, to
    the nanosecond after. */
module LeaseTiming {
  import opened Common
  import opened Errors
  import opened TaskTable
  import opened QueueProtocol
  import P = Processor

  type Consumer = nat

  const MARK_TIMEOUT: Duration := 5 * SECOND

  /** The settings of every queue, and the queue each consumer serves. */
  datatype Setup = Setup(fleet: Fleet, serves: Consumer -> string, batch: string -> int, skew: Duration,
                         pause: Duration)
  {
    function Timeout(c: Consumer): Duration {
      fleet(serves(c)).timeout
    }

    /** newProcessor: HandleTimeout and BatchTimeout are both Timeout. */
    function Processor(c: Consumer): P.Config {
      P.Config(batch(serves(c)), Timeout(c), true)
    }
  }

  type Phase = P.Phase<Leased>

  /** `since` is the clock of the consumer as it came to the phase. */
  datatype Work = Off | Claiming(start: Time) | On(leaseId: LeaseId, phase: Phase, since: Time)

  datatype Agent = Agent(clock: Time, work: Work)

  datatype State = State(log: Log, agents: map<Consumer, Agent>)

  datatype Event =
    | Elapse(clocks: map<Consumer, Time>)
    | ReadClock(c: Consumer)
    | Claim(c: Consumer, leaseId: LeaseId, batch: seq<Leased>)
    | ClaimFails(c: Consumer)
    | Move(c: Consumer, move: P.Move, applied: bool)  // a mark or a release may fail
    | Crash(c: Consumer)
    | Other(e: Entry)                                 // a producer or a cleaner

  function With(s: State, c: Consumer, w: Work): map<Consumer, Agent>
    requires c in s.agents
  {
    s.agents[c := s.agents[c].(work := w)]
  }

  /** What a move writes to the log of the queue. */
  function Written(setup: Setup, s: State, phase: Phase, move: P.Move, applied: bool): seq<Entry> {
    match (phase, move)
    case (Handling(_, item, _, _, _), Return(outcome)) => [Handled(item, outcome)]
    case (Marking(_, item, _, began, outcome), Settle) =>
      var held := Held(Replay(setup.fleet, s.log), item.id, item.leaseId);
      if !applied then [] else
      if outcome.Some? then [MarkedFailed(item, outcome.value, began, held)] else [MarkedDone(item, held)]
    case (Releasing(rest), HandBack) => if applied && rest != [] then [Released(rest)] else []
    case _ => []
  }

  function After(setup: Setup, s: State, ev: Event): State {
    match ev
    case Elapse(clocks) =>
      s.(agents := map c | c in s.agents :: if c in clocks then s.agents[c].(clock := clocks[c]) else s.agents[c])
    case ReadClock(c) => if c in s.agents then s.(agents := With(s, c, Claiming(s.agents[c].clock))) else s
    case Claim(c, leaseId, batch) =>
      if c in s.agents && s.agents[c].work.Claiming? then
        var start := s.agents[c].work.start;
        State(s.log + [Claimed(setup.serves(c), start, leaseId, batch)],
              With(s, c, On(leaseId, P.Between(start, batch), s.agents[c].clock)))
      else s
    case ClaimFails(c) => if c in s.agents then s.(agents := With(s, c, Off)) else s
    case Move(c, move, applied) =>
      if c in s.agents && s.agents[c].work.On? && P.Next(setup.Processor(c), s.agents[c].work.phase, move).Some? then
        var w := s.agents[c].work;
        var next := P.Next(setup.Processor(c), w.phase, move).value;
        State(s.log + Written(setup, s, w.phase, move, applied),
              With(s, c, if next.Resting? then Off else On(w.leaseId, next, s.agents[c].clock)))
      else s
    case Crash(c) => if c in s.agents then s.(agents := With(s, c, Off)) else s
    case Other(e) => s.(log := s.log + [e])
  }

  /** The assumptions on time, as the invariant of a timed automaton: the clocks
      cannot advance past them. */
  ghost predicate Timed(setup: Setup, agents: map<Consumer, Agent>) {
    && (forall c <- agents | agents[c].work.On? ::
          var w := agents[c].work;
          && (w.phase.Handling? ==> agents[c].clock <= w.since + setup.Timeout(c))
          && (w.phase.Marking? ==> agents[c].clock <= w.since + setup.pause + MARK_TIMEOUT))
    && (forall c, d | c in agents && d in agents && setup.serves(c) == setup.serves(d) ::
          agents[d].clock <= agents[c].clock + setup.skew)
  }

  ghost predicate Possible(setup: Setup, s: State, ev: Event) {
    match ev
    case Elapse(clocks) =>
      && clocks.Keys == s.agents.Keys
      && (forall c <- s.agents :: s.agents[c].clock <= clocks[c])
      && Timed(setup, After(setup, s, ev).agents)
    case ReadClock(c) => c in s.agents && s.agents[c].work.Off?
    case Claim(c, leaseId, batch) =>
      && c in s.agents && s.agents[c].work.Claiming?
      && Legal(setup.fleet, s.log, Claimed(setup.serves(c), s.agents[c].work.start, leaseId, batch))
    case ClaimFails(c) => c in s.agents && s.agents[c].work.Claiming?
    case Move(c, move, _) =>
      && c in s.agents && s.agents[c].work.On?
      && P.Next(setup.Processor(c), s.agents[c].work.phase, move).Some?
      && (move.Begin? ==>
            var a := s.agents[c];
            a.work.since <= move.checked <= move.began <= a.clock <= move.checked + setup.pause)
      && (move.Stop? ==> move.checked == s.agents[c].clock)
    case Crash(c) => c in s.agents
    case Other(e) => (e.Inserted? || e.Cleaned?) && Legal(setup.fleet, s.log, e)
  }

  /** A run: its events, from an empty table and resting consumers. */
  ghost predicate Run(setup: Setup, first: State, events: seq<Event>) {
    if events == [] then
      first.log == [] && (forall c <- first.agents :: first.agents[c].work.Off?) && Timed(setup, first.agents)
    else
      var before := events[..|events| - 1];
      Run(setup, first, before) && Possible(setup, Reached(setup, first, before), events[|events| - 1])
  }

  function Reached(setup: Setup, first: State, events: seq<Event>): State {
    if events == [] then first else
      After(setup, Reached(setup, first, events[..|events| - 1]), events[|events| - 1])
  }

  // ----- the invariant -----

  /** The tasks of the batch a phase may still handle or mark. */
  function Tasks(phase: Phase): seq<Leased> {
    match phase
    case Resting => []
    case Between(_, rest) => rest
    case Handling(_, item, rest, _, _) => [item] + rest
    case Marking(_, item, rest, _, _) => [item] + rest
    case Releasing(rest) => rest
  }

  ghost predicate LeasedAt(rows: Rows, t: Leased, start: Time) {
    Held(rows, t.id, t.leaseId) && rows[t.id].lease.value.at == start
  }

  /** The instant, on the clock of the consumer, before which a batch claimed at
      `start` makes its last mark. */
  function Deadline(setup: Setup, c: Consumer, start: Time): Time {
    start + 2 * setup.Timeout(c) + 2 * setup.pause + MARK_TIMEOUT
  }

  ghost predicate DistinctIds(ts: seq<Leased>) {
    forall i, j | 0 <= i < j < |ts| :: ts[i].id != ts[j].id
  }

  /** A batch that may still start or mark a task. */
  ghost predicate Open(phase: Phase) {
    phase.Between? || phase.Handling? || phase.Marking?
  }

  /** What is true of the batch of a consumer, whatever the others do: until the
      last instant it can mark a task, every task of it is under its lease. */
  ghost predicate Sound(setup: Setup, log: Log, c: Consumer, a: Agent) {
    match a.work
    case Off => true
    case Claiming(start) => start <= a.clock
    case On(leaseId, phase, since) =>
      && leaseId in LeaseIds(log)
      && DistinctIds(Tasks(phase))
      && (forall t <- Tasks(phase) :: t.leaseId == leaseId && t in HandedOut(log) && t.queue == setup.serves(c))
      && (phase.Handling? ==> since < phase.start + setup.Timeout(c) + setup.pause)
      && (phase.Marking? ==> since < phase.start + 2 * setup.Timeout(c) + setup.pause)
      && (phase.Marking? ==> Handled(phase.item, phase.outcome) in log)
      && (Open(phase) && a.clock < Deadline(setup, c, phase.start) ==>
            forall t <- Tasks(phase) :: LeasedAt(Replay(setup.fleet, log), t, phase.start))
  }

  ghost predicate OwnLeases(agents: map<Consumer, Agent>) {
    forall c, d | c in agents && d in agents && c != d && agents[c].work.On? && agents[d].work.On? ::
      agents[c].work.leaseId != agents[d].work.leaseId
  }

  ghost predicate Inv(setup: Setup, s: State) {
    && Valid(setup.fleet, s.log)
    && Timed(setup, s.agents)
    && OwnLeases(s.agents)
    && forall c <- s.agents :: Sound(setup, s.log, c, s.agents[c])
  }

  lemma Append(fleet: Fleet, log: Log, e: Entry)
    requires Valid(fleet, log) && Legal(fleet, log, e)
    ensures Valid(fleet, log + [e])
    ensures Replay(fleet, log + [e]) == Apply(fleet, Replay(fleet, log), e)
    ensures LeaseIds(log) <= LeaseIds(log + [e]) && HandedOut(log) <= HandedOut(log + [e])
    ensures e.Claimed? ==> e.leaseId in LeaseIds(log + [e]) && forall t <- e.batch :: t in HandedOut(log + [e])
  {
    assert Init(log + [e]) == log && Last(log + [e]) == e;
  }

  /** An entry that cannot take a task from under a lease taken at `start`. */
  ghost predicate Spares(fleet: Fleet, e: Entry, t: Leased, start: Time) {
    match e
    case Claimed(queue, now, _, _) => queue == t.queue ==> now - fleet(queue).Lease() <= start
    case MarkedDone(u, _) => u.leaseId != t.leaseId || u.id != t.id
    case MarkedFailed(u, _, _, _) => u.leaseId != t.leaseId || u.id != t.id
    case Released(tasks) => tasks != [] && tasks[0].leaseId != t.leaseId
    case _ => true
  }

  lemma SparedLease(fleet: Fleet, log: Log, e: Entry, t: Leased, start: Time)
    requires Valid(fleet, log) && Legal(fleet, log, e)
    requires t in HandedOut(log) && LeasedAt(Replay(fleet, log), t, start)
    requires Spares(fleet, e, t, start)
    ensures LeasedAt(Apply(fleet, Replay(fleet, log), e), t, start)
  {
    AlwaysFenced(fleet, log);
  }

  /** A consumer that did not move stays sound when an entry spares its lease. */
  lemma SoundKept(setup: Setup, log: Log, e: Entry, c: Consumer, a: Agent)
    requires Valid(setup.fleet, log) && Legal(setup.fleet, log, e) && Sound(setup, log, c, a)
    requires a.work.On? && Open(a.work.phase) && a.clock < Deadline(setup, c, a.work.phase.start) ==>
               forall t <- Tasks(a.work.phase) :: Spares(setup.fleet, e, t, a.work.phase.start)
    ensures Sound(setup, log + [e], c, a)
  {
    Append(setup.fleet, log, e);
    if a.work.On? && Open(a.work.phase) && a.clock < Deadline(setup, c, a.work.phase.start) {
      forall t | t in Tasks(a.work.phase) ensures LeasedAt(Replay(setup.fleet, log + [e]), t, a.work.phase.start) {
        SparedLease(setup.fleet, log, e, t, a.work.phase.start);
      }
    }
  }

  /** What the settings must give: a positive Timeout, and a skew and pauses the
      lease covers. */
  ghost predicate CoveredSkew(setup: Setup, s: State) {
    && setup.pause >= 0
    && forall c <- s.agents ::
         setup.Timeout(c) > 0 && setup.skew + 2 * setup.pause <= setup.Timeout(c) + MARK_TIMEOUT + 1
  }

  /** The timing argument: a claim of the same queue cannot reach a batch whose
      consumer can still mark a task. */
  lemma ClaimSparesOpenBatch(setup: Setup, s: State, d: Consumer, c: Consumer, leaseId: LeaseId, batch: seq<Leased>)
    requires Inv(setup, s) && CoveredSkew(setup, s)
    requires Possible(setup, s, Claim(d, leaseId, batch)) && c in s.agents && c != d
    requires s.agents[c].work.On? && Open(s.agents[c].work.phase)
    requires s.agents[c].clock < Deadline(setup, c, s.agents[c].work.phase.start)
    ensures forall t <- Tasks(s.agents[c].work.phase) ::
              Spares(setup.fleet, Claimed(setup.serves(d), s.agents[d].work.start, leaseId, batch), t,
                     s.agents[c].work.phase.start)
  {
    var start := s.agents[c].work.phase.start;
    var now := s.agents[d].work.start;
    if setup.serves(d) == setup.serves(c) {
      var T := setup.Timeout(c);
      assert now <= s.agents[d].clock <= s.agents[c].clock + T + MARK_TIMEOUT + 1 - 2 * setup.pause;
      assert now - (3 * T + 10 * SECOND) <= start;
    }
  }

  /** The batch of a claim is sound as the claim returns. */
  lemma ClaimedIsSound(setup: Setup, log: Log, d: Consumer, start: Time, clock: Time, leaseId: LeaseId,
                       batch: seq<Leased>)
    requires Valid(setup.fleet, log) && Legal(setup.fleet, log, Claimed(setup.serves(d), start, leaseId, batch))
    ensures Sound(setup, log + [Claimed(setup.serves(d), start, leaseId, batch)], d,
                  Agent(clock, On(leaseId, P.Between(start, batch), clock)))
  {
    var log' := log + [Claimed(setup.serves(d), start, leaseId, batch)];
    Append(setup.fleet, log, Claimed(setup.serves(d), start, leaseId, batch));
    forall t | t in batch ensures LeasedAt(Replay(setup.fleet, log'), t, start) {
      assert t.id in Ids(batch);
    }
  }

  lemma ClaimKeepsOthers(setup: Setup, s: State, d: Consumer, leaseId: LeaseId, batch: seq<Leased>, c: Consumer)
    requires Inv(setup, s) && CoveredSkew(setup, s) && Possible(setup, s, Claim(d, leaseId, batch))
    requires c in s.agents && c != d
    ensures Sound(setup, s.log + [Claimed(setup.serves(d), s.agents[d].work.start, leaseId, batch)], c, s.agents[c])
  {
    if s.agents[c].work.On? && Open(s.agents[c].work.phase)
       && s.agents[c].clock < Deadline(setup, c, s.agents[c].work.phase.start) {
      ClaimSparesOpenBatch(setup, s, d, c, leaseId, batch);
    }
    SoundKept(setup, s.log, Claimed(setup.serves(d), s.agents[d].work.start, leaseId, batch), c, s.agents[c]);
  }

  /** A new lease id is nobody's. */
  lemma NewLeaseIsOwn(setup: Setup, s: State, d: Consumer, a: Agent)
    requires Inv(setup, s) && d in s.agents && a.work.On? && a.work.leaseId !in LeaseIds(s.log)
    ensures OwnLeases(s.agents[d := a])
  {
    assert forall c <- s.agents | s.agents[c].work.On? ::
             Sound(setup, s.log, c, s.agents[c]) && s.agents[c].work.leaseId != a.work.leaseId;
  }

  lemma InvClaim(setup: Setup, s: State, d: Consumer, leaseId: LeaseId, batch: seq<Leased>)
    requires Inv(setup, s) && CoveredSkew(setup, s) && Possible(setup, s, Claim(d, leaseId, batch))
    ensures Inv(setup, After(setup, s, Claim(d, leaseId, batch)))
  {
    var s' := After(setup, s, Claim(d, leaseId, batch));
    var start := s.agents[d].work.start;
    Append(setup.fleet, s.log, Claimed(setup.serves(d), start, leaseId, batch));
    ClaimedIsSound(setup, s.log, d, start, s.agents[d].clock, leaseId, batch);
    forall c | c in s.agents ensures Sound(setup, s'.log, c, s'.agents[c]) {
      if c != d { ClaimKeepsOthers(setup, s, d, leaseId, batch, c); }
    }
    NewLeaseIsOwn(setup, s, d, s'.agents[d]);
    TimedKept(setup, s.agents, d, s'.agents[d]);
  }

  lemma InvOther(setup: Setup, s: State, e: Entry)
    requires Inv(setup, s) && Possible(setup, s, Other(e))
    ensures Inv(setup, After(setup, s, Other(e)))
  {
    Append(setup.fleet, s.log, e);
    forall c | c in s.agents ensures Sound(setup, s.log + [e], c, s.agents[c]) {
      SoundKept(setup, s.log, e, c, s.agents[c]);
    }
  }

  lemma InvElapse(setup: Setup, s: State, clocks: map<Consumer, Time>)
    requires Inv(setup, s) && Possible(setup, s, Elapse(clocks))
    ensures Inv(setup, After(setup, s, Elapse(clocks)))
  {
    var s' := After(setup, s, Elapse(clocks));
    forall c | c in s.agents ensures Sound(setup, s.log, c, s'.agents[c]) {
      assert s'.agents[c] == s.agents[c].(clock := clocks[c]);
      assert Sound(setup, s.log, c, s.agents[c]);
    }
    assert OwnLeases(s'.agents);
  }

  ghost predicate InTime(setup: Setup, c: Consumer, a: Agent) {
    a.work.On? ==>
      && (a.work.phase.Handling? ==> a.clock <= a.work.since + setup.Timeout(c))
      && (a.work.phase.Marking? ==> a.clock <= a.work.since + setup.pause + MARK_TIMEOUT)
  }

  lemma TimedKept(setup: Setup, agents: map<Consumer, Agent>, c: Consumer, a: Agent)
    requires Timed(setup, agents) && c in agents && a.clock == agents[c].clock && InTime(setup, c, a)
    ensures Timed(setup, agents[c := a])
  {
    var agents' := agents[c := a];
    assert forall d <- agents' :: agents'[d].clock == agents[d].clock;
  }

  /** What c works on after a move is under the lease it had, or nothing. */
  ghost predicate SameLease(agents: map<Consumer, Agent>, c: Consumer, a: Agent)
    requires c in agents
  {
    a.work.On? ==> agents[c].work.On? && a.work.leaseId == agents[c].work.leaseId
  }

  lemma OwnKept(agents: map<Consumer, Agent>, c: Consumer, a: Agent)
    requires OwnLeases(agents) && c in agents && SameLease(agents, c, a)
    ensures OwnLeases(agents[c := a])
  {
  }

  /** The invariant after one consumer moved, from what its move must show. */
  lemma InvOneMoved(setup: Setup, s: State, c: Consumer, log: Log, a: Agent)
    requires Timed(setup, s.agents) && OwnLeases(s.agents) && c in s.agents && Valid(setup.fleet, log)
    requires a.clock == s.agents[c].clock && SameLease(s.agents, c, a)
    requires InTime(setup, c, a) && Sound(setup, log, c, a)
    requires forall d <- s.agents | d != c :: Sound(setup, log, d, s.agents[d])
    ensures Inv(setup, State(log, s.agents[c := a]))
  {
    TimedKept(setup, s.agents, c, a);
    OwnKept(s.agents, c, a);
  }

  lemma InvQuiet(setup: Setup, s: State, ev: Event)
    requires Inv(setup, s) && Possible(setup, s, ev)
    requires ev.ReadClock? || ev.ClaimFails? || ev.Crash?
    ensures Inv(setup, After(setup, s, ev))
  {
    InvOneMoved(setup, s, ev.c, s.log, After(setup, s, ev).agents[ev.c]);
  }

  lemma InvBegin(setup: Setup, s: State, c: Consumer, move: P.Move, applied: bool)
    requires Inv(setup, s) && CoveredSkew(setup, s) && Possible(setup, s, Move(c, move, applied)) && move.Begin?
    ensures Inv(setup, After(setup, s, Move(c, move, applied)))
  {
    var phase := s.agents[c].work.phase;
    var s' := After(setup, s, Move(c, move, applied));
    assert s'.log == s.log + [] == s.log;
    assert [phase.rest[0]] + phase.rest[1..] == phase.rest;
    InvOneMoved(setup, s, c, s.log, s'.agents[c]);
  }

  lemma InvLocal(setup: Setup, s: State, c: Consumer, move: P.Move, applied: bool)
    requires Inv(setup, s) && CoveredSkew(setup, s) && Possible(setup, s, Move(c, move, applied))
    requires move.Begin? || move.Stop? || move.Finish?
    ensures Inv(setup, After(setup, s, Move(c, move, applied)))
  {
    if move.Begin? {
      InvBegin(setup, s, c, move, applied);
    } else {
      var s' := After(setup, s, Move(c, move, applied));
      assert s'.log == s.log + [] == s.log;
      InvOneMoved(setup, s, c, s.log, s'.agents[c]);
    }
  }

  /** An entry about the lease of one consumer spares every other. */
  lemma OthersKept(setup: Setup, s: State, c: Consumer, e: Entry)
    requires Inv(setup, s) && c in s.agents && s.agents[c].work.On? && Legal(setup.fleet, s.log, e)
    requires match e
             case Handled(_, _) => true
             case MarkedDone(u, _) => u.leaseId == s.agents[c].work.leaseId
             case MarkedFailed(u, _, _, _) => u.leaseId == s.agents[c].work.leaseId
             case Released(tasks) => tasks != [] && tasks[0].leaseId == s.agents[c].work.leaseId
             case _ => false
    ensures forall d <- s.agents | d != c :: Sound(setup, s.log + [e], d, s.agents[d])
  {
    forall d | d in s.agents && d != c ensures Sound(setup, s.log + [e], d, s.agents[d]) {
      SoundKept(setup, s.log, e, d, s.agents[d]);
    }
  }

  /** The agent after its handler returned. */
  function Back(a: Agent, outcome: Option<Error>): Agent
    requires a.work.On? && a.work.phase.Handling?
  {
    var phase := a.work.phase;
    a.(work := On(a.work.leaseId, P.Marking(phase.start, phase.item, phase.rest, phase.began, outcome), a.clock))
  }

  lemma BackIsSound(setup: Setup, log: Log, c: Consumer, a: Agent, outcome: Option<Error>)
    requires Sound(setup, log, c, a) && a.work.On? && a.work.phase.Handling? && InTime(setup, c, a)
    requires Handled(a.work.phase.item, outcome) in log
    ensures Sound(setup, log, c, Back(a, outcome))
  {
  }

  lemma InvReturn(setup: Setup, s: State, c: Consumer, outcome: Option<Error>, applied: bool)
    requires Inv(setup, s) && CoveredSkew(setup, s) && Possible(setup, s, Move(c, P.Return(outcome), applied))
    ensures Inv(setup, After(setup, s, Move(c, P.Return(outcome), applied)))
  {
    var a := s.agents[c];
    var e := Handled(a.work.phase.item, outcome);
    assert After(setup, s, Move(c, P.Return(outcome), applied)) == State(s.log + [e], s.agents[c := Back(a, outcome)]);
    InvReturned(setup, s, c, outcome);
  }

  lemma InvReturned(setup: Setup, s: State, c: Consumer, outcome: Option<Error>)
    requires Inv(setup, s) && CoveredSkew(setup, s) && c in s.agents && s.agents[c].work.On? &&
             s.agents[c].work.phase.Handling?
    ensures Inv(setup, State(s.log + [Handled(s.agents[c].work.phase.item, outcome)],
                             s.agents[c := Back(s.agents[c], outcome)]))
  {
    var a := s.agents[c];
    var e := Handled(a.work.phase.item, outcome);
    assert a.work.phase.item in Tasks(a.work.phase);
    Append(setup.fleet, s.log, e);
    OthersKept(setup, s, c, e);
    SoundKept(setup, s.log, e, c, a);
    BackIsSound(setup, s.log + [e], c, a, outcome);
    InvOneMoved(setup, s, c, s.log + [e], Back(a, outcome));
  }

  /** The agent after its mark, whatever became of it. */
  function Settled(a: Agent): Agent
    requires a.work.On? && a.work.phase.Marking?
  {
    var phase := a.work.phase;
    var next := if P.Stops(phase.outcome) then P.Releasing(phase.rest) else P.Between(phase.start, phase.rest);
    a.(work := On(a.work.leaseId, next, a.clock))
  }

  lemma InvSettle(setup: Setup, s: State, c: Consumer, applied: bool)
    requires Inv(setup, s) && Possible(setup, s, Move(c, P.Settle, applied))
    ensures Inv(setup, After(setup, s, Move(c, P.Settle, applied)))
  {
    var a := s.agents[c];
    var s' := After(setup, s, Move(c, P.Settle, applied));
    assert s'.agents == s.agents[c := Settled(a)];
    RestIsSound(setup, s.log, c, a);
    if !applied {
      assert s'.log == s.log + [] == s.log;
      InvOneMoved(setup, s, c, s.log, Settled(a));
    } else {
      var e := Written(setup, s, a.work.phase, P.Settle, applied)[0];
      assert s'.log == s.log + [e];
      InvMarked(setup, s, c, e);
    }
  }

  lemma InvMarked(setup: Setup, s: State, c: Consumer, e: Entry)
    requires Inv(setup, s) && c in s.agents && s.agents[c].work.On? && s.agents[c].work.phase.Marking?
    requires Legal(setup.fleet, s.log, e)
    requires (e.MarkedDone? && e.t == s.agents[c].work.phase.item) ||
             (e.MarkedFailed? && e.t == s.agents[c].work.phase.item)
    ensures Inv(setup, State(s.log + [e], s.agents[c := Settled(s.agents[c])]))
  {
    var a := s.agents[c];
    assert a.work.phase.item in Tasks(a.work.phase);
    RestIsSound(setup, s.log, c, a);
    Append(setup.fleet, s.log, e);
    OthersKept(setup, s, c, e);
    SoundKept(setup, s.log, e, c, Settled(a));
    InvOneMoved(setup, s, c, s.log + [e], Settled(a));
  }

  lemma RestIsDistinct(item: Leased, rest: seq<Leased>)
    requires DistinctIds([item] + rest)
    ensures DistinctIds(rest) && forall t <- rest :: t.id != item.id && t in [item] + rest
  {
    var all := [item] + rest;
    assert all[0] == item && forall i | 0 <= i < |rest| :: rest[i] == all[i + 1];
    forall t | t in rest ensures t.id != item.id && t in all {
      var i :| 0 <= i < |rest| && rest[i] == t;
      assert all[i + 1] == t;
    }
  }

  /** The rest of a batch is sound without the task being marked, and none of
      it is that task. */
  lemma RestIsSound(setup: Setup, log: Log, c: Consumer, a: Agent)
    requires Sound(setup, log, c, a) && a.work.On? && a.work.phase.Marking?
    ensures Sound(setup, log, c, Settled(a))
    ensures forall t <- a.work.phase.rest :: t.id != a.work.phase.item.id
  {
    RestIsDistinct(a.work.phase.item, a.work.phase.rest);
  }

  lemma InvHandBack(setup: Setup, s: State, c: Consumer, applied: bool)
    requires Inv(setup, s) && Possible(setup, s, Move(c, P.HandBack, applied))
    ensures Inv(setup, After(setup, s, Move(c, P.HandBack, applied)))
  {
    var rest := s.agents[c].work.phase.rest;
    var s' := After(setup, s, Move(c, P.HandBack, applied));
    var off := s.agents[c].(work := Off);
    assert s'.agents == s.agents[c := off];
    if applied && rest != [] {
      var e := Released(rest);
      assert s'.log == s.log + [e];
      assert rest[0] in rest;
      Append(setup.fleet, s.log, e);
      OthersKept(setup, s, c, e);
      InvOneMoved(setup, s, c, s.log + [e], off);
    } else {
      assert s'.log == s.log + [] == s.log;
      InvOneMoved(setup, s, c, s.log, off);
    }
  }

  lemma InvStep(setup: Setup, s: State, ev: Event)
    requires Inv(setup, s) && CoveredSkew(setup, s) && Possible(setup, s, ev)
    ensures Inv(setup, After(setup, s, ev)) && CoveredSkew(setup, After(setup, s, ev))
  {
    match ev
    case Claim(c, leaseId, batch) => InvClaim(setup, s, c, leaseId, batch);
    case Other(e) => InvOther(setup, s, e);
    case Elapse(clocks) => InvElapse(setup, s, clocks);
    case Move(c, move, applied) =>
      match move {
        case Return(outcome) => InvReturn(setup, s, c, outcome, applied);
        case Settle => InvSettle(setup, s, c, applied);
        case HandBack => InvHandBack(setup, s, c, applied);
        case _ => InvLocal(setup, s, c, move, applied);
      }
    case _ => InvQuiet(setup, s, ev);
  }

  lemma {:induction false} InvAlways(setup: Setup, first: State, events: seq<Event>)
    requires Run(setup, first, events) && CoveredSkew(setup, first)
    ensures Inv(setup, Reached(setup, first, events)) && CoveredSkew(setup, Reached(setup, first, events))
  {
    if events != [] {
      var before := events[..|events| - 1];
      InvAlways(setup, first, before);
      InvStep(setup, Reached(setup, first, before), events[|events| - 1]);
    }
  }

  // ----- the theorems -----

  /** The task a consumer is inside the handler of, or is about to mark. */
  ghost predicate Busy(s: State, c: Consumer, t: Leased) {
    && c in s.agents && s.agents[c].work.On?
    && (s.agents[c].work.phase.Handling? || s.agents[c].work.phase.Marking?)
    && s.agents[c].work.phase.item == t
  }

  /** A consumer busy with a task holds its lease. */
  lemma BusyHoldsLease(setup: Setup, s: State, c: Consumer, t: Leased)
    requires Inv(setup, s) && setup.pause >= 0 && Busy(s, c, t)
    ensures LeasedAt(Replay(setup.fleet, s.log), t, s.agents[c].work.phase.start)
    ensures s.agents[c].clock < Deadline(setup, c, s.agents[c].work.phase.start)
    ensures t.leaseId == s.agents[c].work.leaseId
  {
    assert t in Tasks(s.agents[c].work.phase);
  }

  /** In every run, no two consumers are ever busy with one task. */
  lemma MutualExclusion(setup: Setup, first: State, events: seq<Event>, c: Consumer, d: Consumer, t: Leased, u: Leased)
    requires Run(setup, first, events) && CoveredSkew(setup, first)
    requires Busy(Reached(setup, first, events), c, t) && Busy(Reached(setup, first, events), d, u) && t.id == u.id
    ensures c == d
  {
    var s := Reached(setup, first, events);
    InvAlways(setup, first, events);
    BusyHoldsLease(setup, s, c, t);
    BusyHoldsLease(setup, s, d, u);
  }

  /** In every run, no claim takes a task before its holder has marked it. */
  lemma NoReclaimWhileBusy(setup: Setup, first: State, events: seq<Event>, d: Consumer, leaseId: LeaseId,
                           batch: seq<Leased>, c: Consumer, t: Leased)
    requires Run(setup, first, events) && CoveredSkew(setup, first)
    requires Possible(setup, Reached(setup, first, events), Claim(d, leaseId, batch))
    requires Busy(Reached(setup, first, events), c, t)
    ensures t.id !in Ids(batch)
  {
    var s := Reached(setup, first, events);
    InvAlways(setup, first, events);
    BusyHoldsLease(setup, s, c, t);
    ClaimSparesOpenBatch(setup, s, d, c, leaseId, batch);
    AlwaysFenced(setup.fleet, s.log);
    assert t in Tasks(s.agents[c].work.phase);
  }

  /** In every run, a mark that is made finds its lease: none is lost. */
  lemma MarksKeepTheirLease(setup: Setup, first: State, events: seq<Event>, c: Consumer, t: Leased)
    requires Run(setup, first, events) && CoveredSkew(setup, first)
    requires Busy(Reached(setup, first, events), c, t)
    ensures Held(Replay(setup.fleet, Reached(setup, first, events).log), t.id, t.leaseId)
  {
    InvAlways(setup, first, events);
    BusyHoldsLease(setup, Reached(setup, first, events), c, t);
  }

  /** A consumer whose claim failed or that crashed is busy with nothing and may
      start anew, and the table does not know. */
  lemma CrashedIsIdle(setup: Setup, s: State, ev: Event)
    requires Possible(setup, s, ev) && (ev.Crash? || ev.ClaimFails?)
    ensures
      var s' := After(setup, s, ev);
      s'.log == s.log && (forall t :: !Busy(s', ev.c, t)) && Possible(setup, s', ReadClock(ev.c))
  {
  }

  /** A move that is applied writes to the queue what the tick calls: the mark it
      makes, or the release of the rest. */
  lemma WritesItsCalls(setup: Setup, s: State, c: Consumer, phase: Phase, move: P.Move)
    requires P.Next(setup.Processor(c), phase, move).Some?
    ensures
      var calls, entries := P.CallsOf(setup.Processor(c), phase, move), Written(setup, s, phase, move, true);
      && (move.HandBack? ==>
            if phase.rest == [] then calls == [] && entries == []
            else calls == [P.Release(phase.rest)] && entries == [Released(phase.rest)])
      && (move.Settle? ==>
            && |calls| == |entries| == 1
            && (calls[0].MarkDone? ==> entries[0].MarkedDone? && entries[0].t == calls[0].item)
            && (calls[0].MarkFailed? ==>
                  entries[0].MarkedFailed? && entries[0].t == calls[0].item &&
                  entries[0].error == calls[0].error && entries[0].now == calls[0].now))
  {
  }

  /** A timed run is a run of the queue, so all that holds of every run of the
      queue holds of it. */
  lemma TimedRunIsQueueRun(setup: Setup, first: State, events: seq<Event>)
    requires Run(setup, first, events) && CoveredSkew(setup, first)
    ensures Valid(setup.fleet, Reached(setup, first, events).log)
  {
    InvAlways(setup, first, events);
  }
}
