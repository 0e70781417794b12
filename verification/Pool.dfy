/** worker/pool.go: a Pool over every interleaving of Submit, Cancel, Shutdown and
    the jobs.

    A section under the mutex is one step, and so is each channel operation and
    each change of the wait group. The key of a job is the index of its Submit. */
module Pool {
  import opened Common

  type Call = nat

  /** Where a Submit is, and after it registered, where its job is. */
  datatype Phase =
    | Entering | Selecting | Holding | BackingOut
    | Refused | GivenUp
    | Queued | Executing | Ending | Untracked | Releasing | Finished

  /** Where a Shutdown is. */
  datatype Stop = Calling | Waiting | Drained | ReturnedNil | ReturnedErr

  datatype State = State(
    slots: nat,          // len(sem)
    wg: nat,
    running: set<Call>,
    canceled: set<Call>, // jobs whose context was canceled
    closed: bool,        // isShutdown
    calls: seq<Phase>,
    stops: seq<Stop>)

  const INITIAL := State(0, 0, {}, {}, false, [], [])

  /** NewPool: the capacity of the semaphore. */
  function Capacity(maxConcurrent: int): (n: nat)
    ensures maxConcurrent >= 1 ==> n == maxConcurrent
    ensures maxConcurrent <= 0 ==> n == 1
  {
    Max(maxConcurrent, 1)
  }

  datatype Event =
    | Submit | Enter(c: Call) | Refuse(c: Call) | GiveUp(c: Call) | Acquire(c: Call) | Register(c: Call)
    | BackOut(c: Call)
    | Begin(c: Call) | End(c: Call) | Untrack(c: Call) | Done(c: Call) | Release(c: Call)
    | Cancel(c: Call)
    | Shutdown | Close(t: nat) | WaitEnds(t: nat) | ReturnNil(t: nat) | ReturnErr(t: nat)

  predicate At(s: State, c: Call, p: Phase) {
    c < |s.calls| && s.calls[c] == p
  }

  predicate Enabled(n: nat, s: State, e: Event) {
    match e
    case Submit => true
    case Enter(c) => At(s, c, Entering) && !s.closed
    case Refuse(c) => (At(s, c, Entering) || At(s, c, Selecting)) && s.closed
    case GiveUp(c) => At(s, c, Selecting)
    case Acquire(c) => At(s, c, Selecting) && s.slots < n
    case Register(c) => At(s, c, Holding)
    case BackOut(c) => At(s, c, BackingOut) && s.slots > 0
    case Begin(c) => At(s, c, Queued)
    case End(c) => At(s, c, Executing)
    case Untrack(c) => At(s, c, Ending)
    case Done(c) => At(s, c, Untracked) && s.wg > 0
    case Release(c) => At(s, c, Releasing) && s.slots > 0
    case Cancel(c) => true
    case Shutdown => true
    case Close(t) => t < |s.stops| && s.stops[t].Calling?
    case WaitEnds(t) => t < |s.stops| && s.stops[t].Waiting? && s.wg == 0
    case ReturnNil(t) => t < |s.stops| && s.stops[t].Drained?
    case ReturnErr(t) => t < |s.stops| && (s.stops[t].Waiting? || s.stops[t].Drained?)
  }

  function Move(s: State, c: Call, p: Phase): State
    requires c < |s.calls|
  {
    s.(calls := s.calls[c := p])
  }

  function After(n: nat, s: State, e: Event): State
    requires Enabled(n, s, e)
  {
    match e
    case Submit => s.(calls := s.calls + [Entering])
    case Enter(c) => Move(s, c, Selecting)
    case Refuse(c) => Move(s, c, Refused)
    case GiveUp(c) => Move(s, c, GivenUp)
    case Acquire(c) => Move(s, c, Holding).(slots := s.slots + 1)
    case Register(c) =>
      if s.closed then Move(s, c, BackingOut)
      else Move(s, c, Queued).(running := s.running + {c}, wg := s.wg + 1)
    case BackOut(c) => Move(s, c, Refused).(slots := s.slots - 1)
    case Begin(c) => Move(s, c, Executing)
    case End(c) => Move(s, c, Ending)
    case Untrack(c) => Move(s, c, Untracked).(running := s.running - {c}, canceled := s.canceled + {c})
    case Done(c) => Move(s, c, Releasing).(wg := s.wg - 1)
    case Release(c) => Move(s, c, Finished).(slots := s.slots - 1)
    case Cancel(c) => if c in s.running then s.(canceled := s.canceled + {c}) else s
    case Shutdown => s.(stops := s.stops + [Calling])
    case Close(t) => s.(stops := s.stops[t := Waiting], closed := true, canceled := s.canceled + s.running)
    case WaitEnds(t) => s.(stops := s.stops[t := Drained])
    case ReturnNil(t) => s.(stops := s.stops[t := ReturnedNil])
    case ReturnErr(t) => s.(stops := s.stops[t := ReturnedErr])
  }

  ghost predicate Run(n: nat, s: State, events: seq<Event>, s': State)
    decreases |events|
  {
    if events == [] then s == s' else Enabled(n, s, events[0]) && Run(n, After(n, s, events[0]), events[1..], s')
  }

  // ----- who holds a slot, who is counted by the wait group -----

  predicate HoldsSlot(p: Phase) {
    p.Holding? || p.BackingOut? || p.Queued? || p.Executing? || p.Ending? || p.Untracked? || p.Releasing?
  }

  predicate Counted(p: Phase) {
    p.Queued? || p.Executing? || p.Ending? || p.Untracked?
  }

  predicate Tracked(p: Phase) {
    p.Queued? || p.Executing? || p.Ending?
  }

  function Where(calls: seq<Phase>, p: Phase -> bool): set<Call> {
    set i: nat | i < |calls| && p(calls[i])
  }

  function Weight(b: bool): nat { if b then 1 else 0 }

  lemma OneMoves(calls: seq<Phase>, c: Call, to: Phase, p: Phase -> bool)
    requires c < |calls|
    ensures |Where(calls[c := to], p)| + Weight(p(calls[c])) == |Where(calls, p)| + Weight(p(to))
  {
    var others := Where(calls, p) - {c};
    if p(calls[c]) { assert Where(calls, p) == others + {c}; } else { assert Where(calls, p) == others; }
    if p(to) { assert Where(calls[c := to], p) == others + {c}; } else { assert Where(calls[c := to], p) == others; }
  }

  lemma OneArrives(calls: seq<Phase>, p: Phase -> bool)
    requires !p(Entering)
    ensures Where(calls + [Entering], p) == Where(calls, p)
  {
  }

  /** The semaphore holds a slot for each call that took one and has not given it
      back; the wait group counts the registered jobs; `running` are those not
      yet untracked; a closed pool has canceled them all; and a Shutdown that saw
      the wait group empty leaves it empty. */
  ghost predicate Inv(n: nat, s: State) {
    && s.slots == |Where(s.calls, HoldsSlot)| <= n
    && s.wg == |Where(s.calls, Counted)|
    && s.running == Where(s.calls, Tracked)
    && (s.closed ==> s.running <= s.canceled)
    && (forall t | 0 <= t < |s.stops| :: !s.stops[t].Calling? ==> s.closed)
    && (forall t | 0 <= t < |s.stops| :: s.stops[t].Drained? || s.stops[t].ReturnedNil? ==> s.wg == 0)
  }

  lemma SlotsKept(n: nat, s: State, e: Event)
    requires s.slots == |Where(s.calls, HoldsSlot)| <= n && Enabled(n, s, e) && Steps(e)
    ensures var s' := After(n, s, e); s'.slots == |Where(s'.calls, HoldsSlot)| <= n
  {
    OneMoves(s.calls, e.c, After(n, s, e).calls[e.c], HoldsSlot);
  }

  lemma CountKept(n: nat, s: State, e: Event)
    requires s.wg == |Where(s.calls, Counted)| && Enabled(n, s, e) && Steps(e)
    ensures var s' := After(n, s, e); s'.wg == |Where(s'.calls, Counted)|
  {
    OneMoves(s.calls, e.c, After(n, s, e).calls[e.c], Counted);
  }

  lemma RunningKept(n: nat, s: State, e: Event)
    requires s.running == Where(s.calls, Tracked) && (s.closed ==> s.running <= s.canceled)
    requires Enabled(n, s, e) && Steps(e)
    ensures
      var s' := After(n, s, e);
      s'.running == Where(s'.calls, Tracked) && (s'.closed ==> s'.running <= s'.canceled)
  {
    RunningMoves(s, e.c, After(n, s, e).calls[e.c]);
  }

  lemma CallKeepsInv(n: nat, s: State, e: Event)
    requires Inv(n, s) && Enabled(n, s, e) && Steps(e)
    ensures Inv(n, After(n, s, e))
  {
    SlotsKept(n, s, e);
    CountKept(n, s, e);
    RunningKept(n, s, e);
  }

  predicate Steps(e: Event) {
    !e.Submit? && !e.Cancel? && !e.Shutdown? && !e.Close? && !e.WaitEnds? && !e.ReturnNil? && !e.ReturnErr?
  }

  lemma RunningMoves(s: State, c: Call, to: Phase)
    requires c < |s.calls|
    ensures Where(s.calls[c := to], Tracked) ==
            if Tracked(to) then Where(s.calls, Tracked) + {c} else Where(s.calls, Tracked) - {c}
  {
  }

  lemma OthersKeepInv(n: nat, s: State, e: Event)
    requires Inv(n, s) && Enabled(n, s, e) && !Steps(e)
    ensures Inv(n, After(n, s, e))
  {
    OneArrives(s.calls, HoldsSlot);
    OneArrives(s.calls, Counted);
    OneArrives(s.calls, Tracked);
  }

  lemma {:induction false} InvAlways(n: nat, s: State, events: seq<Event>, s': State)
    requires Inv(n, s) && Run(n, s, events, s')
    ensures Inv(n, s')
    decreases |events|
  {
    if events != [] {
      if Steps(events[0]) { CallKeepsInv(n, s, events[0]); } else { OthersKeepInv(n, s, events[0]); }
      InvAlways(n, After(n, s, events[0]), events[1..], s');
    }
  }

  lemma Reached(n: nat, events: seq<Event>, s: State)
    requires Run(n, INITIAL, events, s)
    ensures Inv(n, s)
  {
    assert Where([], HoldsSlot) == {} && Where([], Counted) == {} && Where([], Tracked) == {};
    InvAlways(n, INITIAL, events, s);
  }

  // ----- the theorems -----

  /** Never more jobs execute than MaxConcurrent, or than one when it is not
      positive, and Running counts at least those. */
  lemma ConcurrencyIsBounded(maxConcurrent: int, events: seq<Event>, s: State)
    requires Run(Capacity(maxConcurrent), INITIAL, events, s)
    ensures |Where(s.calls, (p: Phase) => p.Executing?)| <= |s.running| <= Max(maxConcurrent, 1)
  {
    Reached(Capacity(maxConcurrent), events, s);
    var executing := Where(s.calls, (p: Phase) => p.Executing?);
    assert executing <= s.running <= Where(s.calls, HoldsSlot);
    SubsetIsSmaller(executing, s.running);
    SubsetIsSmaller(s.running, Where(s.calls, HoldsSlot));
  }

  lemma SubsetIsSmaller(a: set<Call>, b: set<Call>)
    requires a <= b
    ensures |a| <= |b|
  {
    assert b == a + (b - a);
  }

  function Acquired(events: seq<Event>): nat {
    if events == [] then 0 else Weight(events[0].Acquire?) + Acquired(events[1..])
  }

  function GivenBack(events: seq<Event>): nat {
    if events == [] then 0 else Weight(events[0].BackOut? || events[0].Release?) + GivenBack(events[1..])
  }

  /** The semaphore holds the slots taken and not given back. */
  lemma {:induction false} SlotsAreAccounted(n: nat, s: State, events: seq<Event>, s': State)
    requires Run(n, s, events, s')
    ensures s.slots + Acquired(events) == s'.slots + GivenBack(events)
    decreases |events|
  {
    if events != [] {
      SlotsAreAccounted(n, After(n, s, events[0]), events[1..], s');
    }
  }

  /** When every Submit has failed or its job is finished, every slot is back. */
  lemma EverySlotIsGivenBack(n: nat, events: seq<Event>, s: State)
    requires Run(n, INITIAL, events, s)
    requires forall c | 0 <= c < |s.calls| :: s.calls[c].Refused? || s.calls[c].GivenUp? || s.calls[c].Finished?
    ensures s.slots == 0 && Acquired(events) == GivenBack(events)
  {
    Reached(n, events, s);
    assert Where(s.calls, HoldsSlot) == {};
    SlotsAreAccounted(n, INITIAL, events, s);
  }

  /** The next step of a call that holds a slot: it waits for nobody. */
  function NextStep(s: State, c: Call): Event
    requires c < |s.calls| && HoldsSlot(s.calls[c])
  {
    match s.calls[c]
    case Holding => Register(c)
    case BackingOut => BackOut(c)
    case Queued => Begin(c)
    case Executing => End(c)
    case Ending => Untrack(c)
    case Untracked => Done(c)
    case _ => Release(c)
  }

  function StepsLeft(p: Phase): nat {
    match p
    case Entering => 8
    case Selecting => 7
    case Holding => 6
    case Queued => 5
    case Executing => 4
    case Ending => 3
    case Untracked => 2
    case Releasing => 1
    case BackingOut => 1
    case _ => 0
  }

  lemma NextStepIsEnabled(n: nat, s: State, c: Call)
    requires Inv(n, s) && c < |s.calls| && HoldsSlot(s.calls[c])
    ensures Enabled(n, s, NextStep(s, c)) && Inv(n, After(n, s, NextStep(s, c)))
    ensures var s' := After(n, s, NextStep(s, c));
            && s'.calls == s.calls[c := s'.calls[c]] && s'.stops == s.stops && s'.closed == s.closed
            && StepsLeft(s'.calls[c]) < StepsLeft(s.calls[c])
  {
    assert c in Where(s.calls, HoldsSlot);
    if Counted(s.calls[c]) { assert c in Where(s.calls, Counted); }
    CallKeepsInv(n, s, NextStep(s, c));
  }

  /** A call that holds a slot can give it back by its own steps. */
  lemma {:induction false} CallEnds(n: nat, s: State, c: Call) returns (events: seq<Event>, s': State)
    requires Inv(n, s) && c < |s.calls|
    ensures Run(n, s, events, s') && Inv(n, s')
    ensures |s'.calls| == |s.calls| && !HoldsSlot(s'.calls[c]) && s'.stops == s.stops && s'.closed == s.closed
    ensures forall d | 0 <= d < |s.calls| && d != c :: s'.calls[d] == s.calls[d]
    decreases StepsLeft(s.calls[c])
  {
    if !HoldsSlot(s.calls[c]) {
      events, s' := [], s;
    } else {
      NextStepIsEnabled(n, s, c);
      var e := NextStep(s, c);
      var rest, last := CallEnds(n, After(n, s, e), c);
      events, s' := [e] + rest, last;
      assert events[1..] == rest;
    }
  }

  lemma {:induction false} Joined(n: nat, s: State, a: seq<Event>, s1: State, b: seq<Event>, s2: State)
    requires Run(n, s, a, s1) && Run(n, s1, b, s2)
    ensures Run(n, s, a + b, s2)
    decreases |a|
  {
    if a == [] {
      assert a + b == b;
    } else {
      Joined(n, After(n, s, a[0]), a[1..], s1, b, s2);
      assert (a + b)[1..] == a[1..] + b;
    }
  }

  /** From every reachable state, once the jobs end, every slot comes back and the
      wait group empties, whoever else is waiting. */
  lemma {:induction false} CallsEnd(n: nat, s: State, k: nat) returns (events: seq<Event>, s': State)
    requires Inv(n, s) && k <= |s.calls| && forall c | k <= c < |s.calls| :: !HoldsSlot(s.calls[c])
    ensures Run(n, s, events, s') && Inv(n, s') && s'.slots == 0 && s'.wg == 0
    ensures s'.stops == s.stops && s'.closed == s.closed
    decreases k
  {
    if k == 0 {
      events, s' := [], s;
      assert Where(s.calls, HoldsSlot) == {} && Where(s.calls, Counted) == {};
    } else {
      var e1, s1 := CallEnds(n, s, k - 1);
      var e2, s2 := CallsEnd(n, s1, k - 1);
      Joined(n, s, e1, s1, e2, s2);
      events, s' := e1 + e2, s2;
    }
  }

  // ----- every run ends -----

  function StopsLeft(t: Stop): nat {
    match t
    case Calling => 3
    case Waiting => 2
    case Drained => 1
    case _ => 0
  }

  function Sum<T(!new)>(xs: seq<T>, left: T -> nat): nat {
    if xs == [] then 0 else Sum(xs[..|xs| - 1], left) + left(xs[|xs| - 1])
  }

  lemma {:induction false} SumUpdate<T(!new)>(xs: seq<T>, i: nat, x: T, left: T -> nat)
    requires i < |xs|
    ensures Sum(xs[i := x], left) + left(xs[i]) == Sum(xs, left) + left(x)
    decreases |xs|
  {
    var before := xs[..|xs| - 1];
    if i == |xs| - 1 {
      assert xs[i := x][..|xs| - 1] == before;
    } else {
      assert xs[i := x][..|xs| - 1] == before[i := x];
      SumUpdate(before, i, x, left);
    }
  }

  /** The steps all the calls and all the Shutdowns can still make. */
  function Rank(s: State): nat {
    Sum(s.calls, StepsLeft) + Sum(s.stops, StopsLeft)
  }

  /** An event of the world rather than a step of a call, a job or a Shutdown. */
  predicate FromOutside(e: Event) {
    e.Submit? || e.Shutdown? || e.Cancel?
  }

  lemma CallMovesOn(n: nat, s: State, e: Event)
    requires Enabled(n, s, e) && Steps(e)
    ensures
      var s' := After(n, s, e);
      && e.c < |s.calls| == |s'.calls| && s'.calls == s.calls[e.c := s'.calls[e.c]] && s'.stops == s.stops
      && StepsLeft(s'.calls[e.c]) < StepsLeft(s.calls[e.c])
  {
  }

  lemma StopMovesOn(n: nat, s: State, e: Event)
    requires Enabled(n, s, e) && !Steps(e) && !FromOutside(e)
    ensures
      var s' := After(n, s, e);
      && e.t < |s.stops| == |s'.stops| && s'.stops == s.stops[e.t := s'.stops[e.t]] && s'.calls == s.calls
      && StopsLeft(s'.stops[e.t]) < StopsLeft(s.stops[e.t])
  {
  }

  lemma StepsUseRank(n: nat, s: State, e: Event)
    requires Enabled(n, s, e) && !FromOutside(e)
    ensures Rank(After(n, s, e)) < Rank(s)
  {
    if Steps(e) {
      CallMovesOn(n, s, e);
      SumUpdate(s.calls, e.c, After(n, s, e).calls[e.c], StepsLeft);
    } else {
      StopMovesOn(n, s, e);
      SumUpdate(s.stops, e.t, After(n, s, e).stops[e.t], StopsLeft);
    }
  }

  /** Without a new Submit, Shutdown or Cancel a run has at most Rank steps. */
  lemma {:induction false} RunsAreBounded(n: nat, s: State, events: seq<Event>, s': State)
    requires Run(n, s, events, s') && forall e <- events :: !FromOutside(e)
    ensures |events| + Rank(s') <= Rank(s)
    decreases |events|
  {
    if events != [] {
      StepsUseRank(n, s, events[0]);
      RunsAreBounded(n, After(n, s, events[0]), events[1..], s');
    }
  }

  /** A step nobody outside has to make: not a Submit whose context ends, nor a
      Shutdown whose context does. */
  predicate Forced(e: Event) {
    !FromOutside(e) && !e.GiveUp? && !e.ReturnErr?
  }

  ghost predicate AtRest(n: nat, s: State) {
    forall e | Enabled(n, s, e) :: !Forced(e)
  }

  predicate Over(p: Phase) {
    p.Refused? || p.GivenUp? || p.Finished?
  }

  lemma NoneHolds(n: nat, s: State)
    requires Inv(n, s) && AtRest(n, s)
    ensures s.slots == 0 && s.wg == 0 && forall c | 0 <= c < |s.calls| :: !HoldsSlot(s.calls[c])
  {
    forall c | 0 <= c < |s.calls| ensures !HoldsSlot(s.calls[c]) {
      if HoldsSlot(s.calls[c]) {
        NextStepIsEnabled(n, s, c);
      }
    }
    assert Where(s.calls, HoldsSlot) == {} && Where(s.calls, Counted) == {};
  }

  /** A run that no step can go on has every slot back, every Submit refused,
      given up or its job finished, and every Shutdown returned: with
      RunsAreBounded, every pool left alone comes to that. */
  lemma RestIsOver(maxConcurrent: int, events: seq<Event>, s: State)
    requires Run(Capacity(maxConcurrent), INITIAL, events, s) && AtRest(Capacity(maxConcurrent), s)
    ensures s.slots == 0 && s.wg == 0
    ensures forall c | 0 <= c < |s.calls| :: Over(s.calls[c])
    ensures forall t | 0 <= t < |s.stops| :: s.stops[t].ReturnedNil? || s.stops[t].ReturnedErr?
  {
    var n := Capacity(maxConcurrent);
    Reached(n, events, s);
    NoneHolds(n, s);
    forall c | 0 <= c < |s.calls| ensures Over(s.calls[c]) {
      assert !Enabled(n, s, Enter(c)) && !Enabled(n, s, Refuse(c)) && !Enabled(n, s, Acquire(c));
    }
    forall t | 0 <= t < |s.stops| ensures s.stops[t].ReturnedNil? || s.stops[t].ReturnedErr? {
      assert !Enabled(n, s, Close(t)) && !Enabled(n, s, WaitEnds(t)) && !Enabled(n, s, ReturnNil(t));
    }
  }

  lemma RunDrains(n: nat, s: State, events: seq<Event>, s': State)
    requires Inv(n, s) && Run(n, s, events, s') && forall e <- events :: !FromOutside(e)
    ensures |events| <= Rank(s) && (AtRest(n, s') ==> s'.slots == 0 && s'.wg == 0)
  {
    RunsAreBounded(n, s, events, s');
    InvAlways(n, s, events, s');
    if AtRest(n, s') { NoneHolds(n, s'); }
  }

  /** From every reachable state all slots can come back, whoever else waits, and
      then a waiting Shutdown can return; and nothing else can become of a pool
      left alone: every run from there ends within Rank, with all slots back. */
  lemma NeverStuck(n: nat, events: seq<Event>, s: State) returns (more: seq<Event>, s': State)
    requires Run(n, INITIAL, events, s)
    ensures Run(n, s, more, s') && s'.slots == 0 && s'.wg == 0
    ensures s'.stops == s.stops
    ensures forall t | 0 <= t < |s.stops| && s.stops[t].Waiting? :: Enabled(n, s', WaitEnds(t))
    ensures forall any, end | Run(n, s, any, end) && (forall e <- any :: !FromOutside(e)) ::
              |any| <= Rank(s) && (AtRest(n, end) ==> end.slots == 0 && end.wg == 0)
  {
    Reached(n, events, s);
    more, s' := CallsEnd(n, s, |s.calls|);
    forall any, end | Run(n, s, any, end) && (forall e <- any :: !FromOutside(e))
      ensures |any| <= Rank(s) && (AtRest(n, end) ==> end.slots == 0 && end.wg == 0)
    {
      RunDrains(n, s, any, end);
    }
  }

  // ----- after a Shutdown -----

  /** Once the pool is shut down, every job still tracked is canceled. */
  lemma ShutdownCancelsAll(n: nat, events: seq<Event>, s: State, c: Call)
    requires Run(n, INITIAL, events, s) && s.closed
    requires At(s, c, Queued) || At(s, c, Executing)
    ensures c in s.canceled
  {
    Reached(n, events, s);
    assert c in Where(s.calls, Tracked);
  }

  // ----- what can happen, and in which order -----

  lemma OneStep(n: nat, s: State, e: Event)
    ensures Enabled(n, s, e) ==> Run(n, s, [e], After(n, s, e))
  {
    if Enabled(n, s, e) {
      assert [e][0] == e && [e][1..] == [];
      assert Run(n, After(n, s, e), [], After(n, s, e));
    }
  }

  /** A Submit, a Cancel and a Shutdown can come in any state. A Submit waits for a
      slot: it takes one that is free, gives up with its context, and is refused by
      a pool that is closed. A Shutdown sees the end of the jobs and returns nil, or
      returns with its context before or after it. */
  lemma Offered(n: nat, s: State, c: Call, t: nat)
    ensures Run(n, s, [Submit], s.(calls := s.calls + [Entering]))
    ensures Run(n, s, [Shutdown], s.(stops := s.stops + [Calling]))
    ensures exists s' :: Run(n, s, [Cancel(c)], s')
    ensures At(s, c, Selecting) ==> Run(n, s, [GiveUp(c)], s.(calls := s.calls[c := GivenUp]))
    ensures At(s, c, Selecting) && s.slots < n ==>
              Run(n, s, [Acquire(c)], s.(calls := s.calls[c := Holding], slots := s.slots + 1))
    ensures (At(s, c, Entering) || At(s, c, Selecting)) && s.closed ==>
              Run(n, s, [Refuse(c)], s.(calls := s.calls[c := Refused]))
    ensures t < |s.stops| && (s.stops[t].Waiting? || s.stops[t].Drained?) ==>
              Run(n, s, [ReturnErr(t)], s.(stops := s.stops[t := ReturnedErr]))
    ensures t < |s.stops| && s.stops[t].Waiting? && s.wg == 0 ==>
              Run(n, s, [WaitEnds(t)], s.(stops := s.stops[t := Drained]))
    ensures t < |s.stops| && s.stops[t].Drained? ==>
              Run(n, s, [ReturnNil(t)], s.(stops := s.stops[t := ReturnedNil]))
  {
    OneStep(n, s, Submit);
    OneStep(n, s, Shutdown);
    OneStep(n, s, Cancel(c));
    OneStep(n, s, GiveUp(c));
    OneStep(n, s, Acquire(c));
    OneStep(n, s, Refuse(c));
    OneStep(n, s, ReturnErr(t));
    OneStep(n, s, WaitEnds(t));
    OneStep(n, s, ReturnNil(t));
  }

  /** Where a Submit and its job may go from where they are. */
  predicate Follows(p: Phase, q: Phase) {
    match p
    case Entering => q.Selecting? || q.Refused?
    case Selecting => q.Holding? || q.GivenUp? || q.Refused?
    case Holding => q.Queued? || q.BackingOut?
    case BackingOut => q.Refused?
    case Queued => q.Executing?
    case Executing => q.Ending?
    case Ending => q.Untracked?
    case Untracked => q.Releasing?
    case Releasing => q.Finished?
    case _ => false
  }

  predicate StopFollows(a: Stop, b: Stop) {
    match a
    case Calling => b.Waiting?
    case Waiting => b.Drained? || b.ReturnedErr?
    case Drained => b.ReturnedNil? || b.ReturnedErr?
    case _ => false
  }

  lemma PhasesInOrder(n: nat, s: State, e: Event, s': State, c: Call, t: nat)
    requires Run(n, s, [e], s')
    ensures c < |s.calls| ==> c < |s'.calls| && (s'.calls[c] == s.calls[c] || Follows(s.calls[c], s'.calls[c]))
    ensures t < |s.stops| ==> t < |s'.stops| && (s'.stops[t] == s.stops[t] || StopFollows(s.stops[t], s'.stops[t]))
    ensures s.canceled <= s'.canceled && (s.closed ==> s'.closed)
  {
    assert [e][0] == e && [e][1..] == [];
  }

  /** A Submit is refused, or backs out, only by a pool that was shut down. */
  lemma {:induction false} RefusedOnlyByClosing(n: nat, s: State, events: seq<Event>, s': State, c: Call)
    requires Run(n, s, events, s') && (At(s, c, Refused) || At(s, c, BackingOut) ==> s.closed)
    ensures At(s', c, Refused) || At(s', c, BackingOut) ==> s'.closed
    decreases |events|
  {
    if events != [] {
      RefusedOnlyByClosing(n, After(n, s, events[0]), events[1..], s', c);
    }
  }

  /** And a pool is closed only by a Shutdown. */
  lemma {:induction false} ClosedByShutdown(n: nat, s: State, events: seq<Event>, s': State)
    requires Run(n, s, events, s') && !s.closed && s'.closed
    ensures exists t :: Close(t) in events
    decreases |events|
  {
    var s1 := After(n, s, events[0]);
    if s1.closed {
      assert events[0].Close? && events[0] == Close(events[0].t);
    } else {
      ClosedByShutdown(n, s1, events[1..], s');
      var t :| Close(t) in events[1..];
      assert Close(t) in events;
    }
  }

  // ----- who is canceled -----

  ghost predicate EndedAreCanceled(s: State) {
    forall c: Call | c < |s.calls| && (s.calls[c].Untracked? || s.calls[c].Releasing? || s.calls[c].Finished?) ::
      c in s.canceled
  }

  /** A job that has ended leaves no context behind. */
  lemma {:induction false} EndedIsCanceled(n: nat, s: State, events: seq<Event>, s': State)
    requires Run(n, s, events, s') && EndedAreCanceled(s)
    ensures EndedAreCanceled(s')
    decreases |events|
  {
    if events != [] {
      EndedIsCanceled(n, After(n, s, events[0]), events[1..], s');
    }
  }

  /** A Cancel of a job that is not done yet cancels it and no other, and changes
      nothing else; a Cancel of any other key changes nothing. */
  lemma CancelCancelsOne(n: nat, events: seq<Event>, s: State, c: Call, s': State)
    requires Run(n, INITIAL, events, s) && Run(n, s, [Cancel(c)], s')
    ensures
      if At(s, c, Queued) || At(s, c, Executing) || At(s, c, Ending) then s' == s.(canceled := s.canceled + {c})
      else s' == s
  {
    Reached(n, events, s);
    assert [Cancel(c)][0] == Cancel(c) && [Cancel(c)][1..] == [];
    assert c in Where(s.calls, Tracked) <==> At(s, c, Queued) || At(s, c, Executing) || At(s, c, Ending);
  }

  /** In a pool that is not closed a job is canceled by a Cancel of its key or by
      its own end, and by nothing else. */
  lemma {:induction false} CanceledByItself(n: nat, s: State, events: seq<Event>, s': State, c: Call)
    requires Run(n, s, events, s') && !s'.closed && c in s'.canceled && c !in s.canceled
    ensures Cancel(c) in events || Untrack(c) in events
    decreases |events|
  {
    if events != [] {
      var s1 := After(n, s, events[0]);
      if c in s1.canceled {
        OpenUntilClosed(n, s1, events[1..], s');
        assert events[0] == Cancel(c) || events[0] == Untrack(c);
      } else {
        CanceledByItself(n, s1, events[1..], s', c);
      }
    }
  }

  lemma {:induction false} OpenUntilClosed(n: nat, s: State, events: seq<Event>, s': State)
    requires Run(n, s, events, s') && !s'.closed
    ensures !s.closed
    decreases |events|
  {
    if events != [] {
      OpenUntilClosed(n, After(n, s, events[0]), events[1..], s');
    }
  }

  /** A closed pool stays closed, registers nothing, and its wait group does not
      grow. */
  lemma {:induction false} ClosedStaysClosed(n: nat, s: State, events: seq<Event>, s': State, i: nat)
    requires Run(n, s, events, s') && s.closed && Inv(n, s)
    ensures s'.closed && s'.wg <= s.wg
    ensures i < |events| && s.wg == 0 ==> !events[i].Begin?
    decreases |events|
  {
    if events != [] {
      var s1 := After(n, s, events[0]);
      if Steps(events[0]) { CallKeepsInv(n, s, events[0]); } else { OthersKeepInv(n, s, events[0]); }
      ClosedStaysClosed(n, s1, events[1..], s', if i > 0 then i - 1 else 0);
      if events[0].Begin? { assert events[0].c in Where(s.calls, Counted); }
    }
  }

  /** Once a Shutdown has returned nil, no job executes, and in every continuation
      none ever begins. */
  lemma NothingRunsAfterShutdown(n: nat, events: seq<Event>, s: State, t: nat, more: seq<Event>, s': State)
    requires Run(n, INITIAL, events, s) && t < |s.stops| && s.stops[t].ReturnedNil? && Run(n, s, more, s')
    ensures forall e <- more :: !e.Begin?
    ensures forall c | 0 <= c < |s'.calls| :: !s'.calls[c].Executing? && !s'.calls[c].Queued?
  {
    Reached(n, events, s);
    forall i | 0 <= i < |more| ensures !more[i].Begin? {
      ClosedStaysClosed(n, s, more, s', i);
    }
    ClosedStaysClosed(n, s, more, s', 0);
    InvAlways(n, s, more, s');
    forall c | 0 <= c < |s'.calls| ensures !s'.calls[c].Executing? && !s'.calls[c].Queued? {
      assert c !in Where(s'.calls, Counted);
    }
  }

  /** A Submit that arrives after the pool was closed is refused: it never holds a
      slot. */
  lemma {:induction false} LateSubmitIsRefused(n: nat, s: State, c: Call, events: seq<Event>, s': State)
    requires s.closed && (At(s, c, Entering) || At(s, c, Refused)) && Run(n, s, events, s')
    ensures At(s', c, Entering) || At(s', c, Refused)
    decreases |events|
  {
    if events != [] {
      LateSubmitIsRefused(n, After(n, s, events[0]), c, events[1..], s');
    }
  }
}
