/** The skew and the pauses the lease covers, exactly: past them a run handles a
    task twice at once. */
module LeaseSkew {
  import opened Common
  import opened TaskTable
  import opened QueueProtocol
  import opened LeaseTiming
  import P = Processor

  lemma Extend(setup: Setup, first: State, events: seq<Event>, ev: Event)
    requires Run(setup, first, events) && Possible(setup, Reached(setup, first, events), ev)
    ensures Run(setup, first, events + [ev])
    ensures Reached(setup, first, events + [ev]) == After(setup, Reached(setup, first, events), ev)
  {
    assert (events + [ev])[..|events|] == events;
  }

  const ROW := Row("q", "k", None, "", 0, 0, None, None, None)

  function Pair(skew: Duration, elapsed: Time, c: Work, d: Work): map<Consumer, Agent> {
    map[0 := Agent(elapsed, c), 1 := Agent(elapsed + skew, d)]
  }

  const TASK := ToLeased(0, ROW, 0)
  const BETWEEN := On(0, P.Between(0, [TASK]), 0)
  const INSERTED := [Inserted(0, ROW)]
  const CLAIMED := INSERTED + [Claimed("q", 0, 0, [TASK])]
  const HANDLED := CLAIMED + [Handled(TASK, None)]

  ghost predicate Step(setup: Setup, s: State, ev: Event, s': State) {
    Possible(setup, s, ev) && After(setup, s, ev) == s'
  }

  /** Two consumers of one queue, the second as far ahead as the skew lets it. */
  ghost predicate TwoConsumers(setup: Setup, T: Duration) {
    && T > 0 && setup.skew >= 0 && setup.pause >= 0
    && setup.fleet("q").timeout == T
    && setup.serves(0) == "q" && setup.serves(1) == "q"
  }

  lemma TheLog(fleet: Fleet)
    ensures Replay(fleet, INSERTED) == map[0 := ROW]
    ensures Replay(fleet, CLAIMED) == Replay(fleet, HANDLED) == map[0 := ROW.(lease := Some(TaskTable.Lease(0, 0)))]
    ensures LeaseIds(INSERTED) == {} && LeaseIds(HANDLED) == {0}
    ensures TASK in HandedOut(CLAIMED)
  {
    assert Init(INSERTED) == [] && Init(CLAIMED) == INSERTED && Init(HANDLED) == CLAIMED;
    assert Replay(fleet, INSERTED) == map[0 := ROW];
    assert Ids([TASK]) == {0} by { assert TASK in [TASK]; }
    assert LeaseIds(INSERTED) == {};
    assert LeaseIds(CLAIMED) == {0};
  }

  lemma PairIsTimed(setup: Setup, T: Duration, to: Time, c: Work)
    requires TwoConsumers(setup, T) && InTime(setup, 0, Agent(to, c))
    ensures Timed(setup, Pair(setup.skew, to, c, Off))
  {
  }

  lemma PairElapsed(setup: Setup, log: Log, from: Time, to: Time, c: Work)
    ensures
      var k := setup.skew;
      After(setup, State(log, Pair(k, from, c, Off)), Elapse(map[0 := to, 1 := to + k])) ==
          State(log, Pair(k, to, c, Off))
  {
    var k := setup.skew;
    assert After(setup, State(log, Pair(k, from, c, Off)), Elapse(map[0 := to, 1 := to + k])).agents ==
           Pair(k, to, c, Off);
  }

  lemma PairElapses(setup: Setup, T: Duration, log: Log, from: Time, to: Time, c: Work)
    requires TwoConsumers(setup, T) && from <= to && InTime(setup, 0, Agent(to, c))
    ensures
      var k := setup.skew;
      Step(setup, State(log, Pair(k, from, c, Off)), Elapse(map[0 := to, 1 := to + k]), State(log, Pair(k, to, c, Off)))
  {
    PairElapsed(setup, log, from, to, c);
    PairIsTimed(setup, T, to, c);
  }

  // The steps of the run, each from the state the one before leaves.

  lemma Begins(setup: Setup, T: Duration)
    requires TwoConsumers(setup, T)
    ensures
      var k := setup.skew;
      && Step(setup, State([], Pair(k, 0, Off, Off)), Other(INSERTED[0]), State(INSERTED, Pair(k, 0, Off, Off)))
      && Step(setup, State(INSERTED, Pair(k, 0, Off, Off)), ReadClock(0), State(INSERTED, Pair(k, 0, Claiming(0), Off)))
  {
    var k := setup.skew;
    assert With(State(INSERTED, Pair(k, 0, Off, Off)), 0, Claiming(0)) == Pair(k, 0, Claiming(0), Off);
  }

  lemma HolderClaims(setup: Setup, T: Duration)
    requires TwoConsumers(setup, T)
    ensures
      var k := setup.skew;
      Step(setup, State(INSERTED, Pair(k, 0, Claiming(0), Off)), Claim(0, 0, [TASK]),
           State(CLAIMED, Pair(k, 0, BETWEEN, Off)))
  {
    TheLog(setup.fleet);
    var s := State(INSERTED, Pair(setup.skew, 0, Claiming(0), Off));
    assert With(s, 0, BETWEEN) == Pair(setup.skew, 0, BETWEEN, Off);
  }

  function HandlingFrom(looks: Time, begins: Time): Work {
    On(0, P.Handling(0, TASK, [], looks, begins), begins)
  }

  function MarkingFrom(begins: Time, back: Time): Work {
    On(0, P.Marking(0, TASK, [], begins, None), back)
  }

  lemma HolderBegins(setup: Setup, T: Duration, looks: Time, begins: Time)
    requires TwoConsumers(setup, T) && 0 <= looks < T && looks <= begins <= looks + setup.pause
    ensures
      var k := setup.skew;
      Step(setup, State(CLAIMED, Pair(k, begins, BETWEEN, Off)), Move(0, P.Begin(looks, begins), true),
           State(CLAIMED, Pair(k, begins, HandlingFrom(looks, begins), Off)))
  {
    var s := State(CLAIMED, Pair(setup.skew, begins, BETWEEN, Off));
    assert [TASK][1..] == [] && CLAIMED + [] == CLAIMED;
    assert With(s, 0, HandlingFrom(looks, begins)) == Pair(setup.skew, begins, HandlingFrom(looks, begins), Off);
  }

  lemma HolderReturns(setup: Setup, T: Duration, looks: Time, begins: Time, back: Time)
    requires TwoConsumers(setup, T)
    ensures
      var k := setup.skew;
      Step(setup, State(CLAIMED, Pair(k, back, HandlingFrom(looks, begins), Off)), Move(0, P.Return(None), true),
           State(HANDLED, Pair(k, back, MarkingFrom(begins, back), Off)))
  {
    var s := State(CLAIMED, Pair(setup.skew, back, HandlingFrom(looks, begins), Off));
    assert With(s, 0, MarkingFrom(begins, back)) == Pair(setup.skew, back, MarkingFrom(begins, back), Off);
  }

  const RIVAL := ToLeased(0, ROW, 1)

  function Reclaimed(now: Time): Log {
    HANDLED + [Claimed("q", now, 1, [RIVAL])]
  }

  /** The second consumer reclaims the task when the lease is over on its clock. */
  lemma RivalClaims(setup: Setup, T: Duration, holder: Work, now: Time)
    requires TwoConsumers(setup, T) && now + setup.skew > 3 * T + 10 * SECOND
    ensures
      var k := setup.skew;
      && Step(setup, State(HANDLED, Pair(k, now, holder, Off)), ReadClock(1),
              State(HANDLED, Pair(k, now, holder, Claiming(now + k))))
      && Step(setup, State(HANDLED, Pair(k, now, holder, Claiming(now + k))), Claim(1, 1, [RIVAL]),
              State(Reclaimed(now + k), Pair(k, now, holder, On(1, P.Between(now + k, [RIVAL]), now + k))))
  {
    var k := setup.skew;
    var s1, s2 := State(HANDLED, Pair(k, now, holder, Off)), State(HANDLED, Pair(k, now, holder, Claiming(now + k)));
    TheLog(setup.fleet);
    assert With(s1, 1, Claiming(now + k)) == Pair(k, now, holder, Claiming(now + k));
    assert With(s2, 1, On(1, P.Between(now + k, [RIVAL]), now + k)) ==
           Pair(k, now, holder, On(1, P.Between(now + k, [RIVAL]), now + k));
  }

  lemma RivalBegins(setup: Setup, T: Duration, log: Log, holder: Work, now: Time)
    requires TwoConsumers(setup, T)
    ensures
      var k := setup.skew;
      Step(setup, State(log, Pair(k, now, holder, On(1, P.Between(now + k, [RIVAL]), now + k))),
           Move(1, P.Begin(now + k, now + k), true),
           State(log, Pair(k, now, holder, On(1, P.Handling(now + k, RIVAL, [], now + k, now + k), now + k))))
  {
    var k := setup.skew;
    var handling := On(1, P.Handling(now + k, RIVAL, [], now + k, now + k), now + k);
    var s := State(log, Pair(k, now, holder, On(1, P.Between(now + k, [RIVAL]), now + k)));
    assert [RIVAL][1..] == [] && log + [] == log;
    assert With(s, 1, handling) == Pair(k, now, holder, handling);
  }

  lemma Waited(setup: Setup, T: Duration, first: State, events: seq<Event>, log: Log, from: Time, to: Time, c: Work)
    returns (longer: seq<Event>)
    requires TwoConsumers(setup, T) && from <= to && InTime(setup, 0, Agent(to, c))
    requires Run(setup, first, events) && Reached(setup, first, events) == State(log, Pair(setup.skew, from, c, Off))
    ensures Run(setup, first, longer) && Reached(setup, first, longer) == State(log, Pair(setup.skew, to, c, Off))
  {
    PairElapses(setup, T, log, from, to, c);
    longer := Taken(setup, first, events, Elapse(map[0 := to, 1 := to + setup.skew]),
                    State(log, Pair(setup.skew, to, c, Off)));
  }

  lemma ClaimedRun(setup: Setup, T: Duration, first: State) returns (events: seq<Event>)
    requires TwoConsumers(setup, T) && first == State([], Pair(setup.skew, 0, Off, Off))
    ensures Run(setup, first, events) && Reached(setup, first, events) ==
            State(CLAIMED, Pair(setup.skew, 0, BETWEEN, Off))
  {
    var k := setup.skew;
    assert Run(setup, first, []);
    Begins(setup, T);
    events := Taken(setup, first, [], Other(INSERTED[0]), State(INSERTED, Pair(k, 0, Off, Off)));
    events := Taken(setup, first, events, ReadClock(0), State(INSERTED, Pair(k, 0, Claiming(0), Off)));
    HolderClaims(setup, T);
    events := Taken(setup, first, events, Claim(0, 0, [TASK]), State(CLAIMED, Pair(k, 0, BETWEEN, Off)));
  }

  lemma BegunRun(setup: Setup, T: Duration, first: State, looks: Time, begins: Time) returns (events: seq<Event>)
    requires TwoConsumers(setup, T) && first == State([], Pair(setup.skew, 0, Off, Off))
    requires 0 <= looks < T && looks <= begins <= looks + setup.pause
    ensures Run(setup, first, events)
    ensures Reached(setup, first, events) == State(CLAIMED, Pair(setup.skew, begins, HandlingFrom(looks, begins), Off))
  {
    events := ClaimedRun(setup, T, first);
    events := Waited(setup, T, first, events, CLAIMED, 0, begins, BETWEEN);
    HolderBegins(setup, T, looks, begins);
    events := Taken(setup, first, events, Move(0, P.Begin(looks, begins), true),
                    State(CLAIMED, Pair(setup.skew, begins, HandlingFrom(looks, begins), Off)));
  }

  lemma MarkingRun(setup: Setup, T: Duration, first: State, looks: Time, begins: Time, back: Time, now: Time)
    returns (events: seq<Event>)
    requires TwoConsumers(setup, T) && first == State([], Pair(setup.skew, 0, Off, Off))
    requires 0 <= looks < T && looks <= begins <= looks + setup.pause
    requires begins <= back <= begins + T && back <= now <= back + setup.pause + MARK_TIMEOUT
    ensures Run(setup, first, events)
    ensures Reached(setup, first, events) == State(HANDLED, Pair(setup.skew, now, MarkingFrom(begins, back), Off))
  {
    var k := setup.skew;
    events := BegunRun(setup, T, first, looks, begins);
    events := Waited(setup, T, first, events, CLAIMED, begins, back, HandlingFrom(looks, begins));
    HolderReturns(setup, T, looks, begins, back);
    events := Taken(setup, first, events, Move(0, P.Return(None), true),
                    State(HANDLED, Pair(k, back, MarkingFrom(begins, back), Off)));
    events := Waited(setup, T, first, events, HANDLED, back, now, MarkingFrom(begins, back));
  }

  lemma ReclaimedRun(setup: Setup, T: Duration, first: State, events: seq<Event>, holder: Work, now: Time)
    returns (longer: seq<Event>)
    requires TwoConsumers(setup, T) && now + setup.skew > 3 * T + 10 * SECOND
    requires Run(setup, first, events) && Reached(setup, first, events) ==
             State(HANDLED, Pair(setup.skew, now, holder, Off))
    ensures
      var k := setup.skew;
      && Run(setup, first, longer)
      && Reached(setup, first, longer) ==
         State(Reclaimed(now + k), Pair(k, now, holder, On(1, P.Between(now + k, [RIVAL]), now + k)))
  {
    var k := setup.skew;
    RivalClaims(setup, T, holder, now);
    longer := Taken(setup, first, events, ReadClock(1), State(HANDLED, Pair(k, now, holder, Claiming(now + k))));
    longer := Taken(setup, first, longer, Claim(1, 1, [RIVAL]),
                    State(Reclaimed(now + k), Pair(k, now, holder, On(1, P.Between(now + k, [RIVAL]), now + k))));
  }

  lemma RivalRun(setup: Setup, T: Duration, first: State, events: seq<Event>, holder: Work, now: Time)
    returns (longer: seq<Event>)
    requires TwoConsumers(setup, T) && now + setup.skew > 3 * T + 10 * SECOND
    requires Run(setup, first, events) && Reached(setup, first, events) ==
             State(HANDLED, Pair(setup.skew, now, holder, Off))
    ensures
      var k := setup.skew;
      && Run(setup, first, longer)
      && Reached(setup, first, longer) ==
         State(Reclaimed(now + k),
               Pair(k, now, holder, On(1, P.Handling(now + k, RIVAL, [], now + k, now + k), now + k)))
  {
    var k := setup.skew;
    longer := ReclaimedRun(setup, T, first, events, holder, now);
    RivalBegins(setup, T, Reclaimed(now + k), holder, now);
    longer := Taken(setup, first, longer, Move(1, P.Begin(now + k, now + k), true),
                    State(Reclaimed(now + k),
                          Pair(k, now, holder, On(1, P.Handling(now + k, RIVAL, [], now + k, now + k), now + k))));
  }

  lemma BothBusy(s: State, k: Duration, log: Log, begins: Time, back: Time, now: Time)
    requires s == State(log,
                        Pair(k, now, MarkingFrom(begins, back),
                             On(1, P.Handling(now + k, RIVAL, [], now + k, now + k), now + k)))
    ensures Busy(s, 0, TASK) && Busy(s, 1, RIVAL) && TASK.id == RIVAL.id
  {
  }

  /** The bound is exact: from one nanosecond past what CoveredSkew allows,
      whatever the Timeout and however skew and pauses share it, a run puts two
      consumers in one task. */
  lemma SkewBoundIsTight(setup: Setup, T: Duration) returns (first: State, events: seq<Event>)
    requires TwoConsumers(setup, T) && setup.skew + 2 * setup.pause >= T + MARK_TIMEOUT + 2
    ensures Run(setup, first, events)
    ensures
      var s := Reached(setup, first, events);
      exists t, u :: Busy(s, 0, t) && Busy(s, 1, u) && t.id == u.id
  {
    var looks := T - 1;
    var begins := looks + setup.pause;
    var back := begins + T;
    var now := back + setup.pause + MARK_TIMEOUT;
    first := State([], Pair(setup.skew, 0, Off, Off));
    events := MarkingRun(setup, T, first, looks, begins, back, now);
    events := RivalRun(setup, T, first, events, MarkingFrom(begins, back), now);
    BothBusy(Reached(setup, first, events), setup.skew, Reclaimed(now + setup.skew), begins, back, now);
  }

  lemma Taken(setup: Setup, first: State, events: seq<Event>, ev: Event, s: State) returns (longer: seq<Event>)
    requires Run(setup, first, events) && Step(setup, Reached(setup, first, events), ev, s)
    ensures longer == events + [ev]
    ensures Run(setup, first, longer) && Reached(setup, first, longer) == s
  {
    longer := events + [ev];
    Extend(setup, first, events, ev);
  }
}
