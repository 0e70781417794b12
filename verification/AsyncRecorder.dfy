/** auditlog/async.go: the shutdown of an AsyncRecorder, over every interleaving
    of its producers, its coordinator and its workers.

    The order of the two channels and of the write lock is one thing: the
    coordinator closes done, takes the write lock, sets closing, releases the
    lock and closes drainReady, so where it is says which of them happened. A
    reader is admitted whenever the writer does not hold the lock, a waiting one
    included, which is more than Go's RWMutex does. */
module AsyncRecorder {
  type Call = nat  // the index of a Record call

  /** The recorder: its shards and their capacity, and the shard of each call,
      which the model of its entry decides. */
  datatype Setup = Setup(shards: nat, buffer: nat, blockOnFull: bool, shardOf: Call -> nat)

  ghost predicate WellFormed(u: Setup) {
    u.shards > 0 && u.buffer > 0 && forall c: Call :: u.shardOf(c) < u.shards
  }

  /** NewAsyncRecorder: 4 workers and a buffer of 256 unless positive ones are
      set. */
  function Configured(workers: int, buffer: int, blockOnFull: bool, hash: Call -> nat): (u: Setup)
    ensures WellFormed(u) && u.blockOnFull == blockOnFull
    ensures workers > 0 ==> u.shards == workers
    ensures workers <= 0 ==> u.shards == 4
    ensures buffer > 0 ==> u.buffer == buffer
    ensures buffer <= 0 ==> u.buffer == 256
    ensures forall c, d: Call :: hash(c) == hash(d) ==> u.shardOf(c) == u.shardOf(d)
  {
    var n: nat := if workers <= 0 then 4 else workers;
    Setup(n, if buffer <= 0 then 256 else buffer, blockOnFull, (c: Call) => hash(c) % n)
  }

  /** Where a Record call is. From Locked to Leaving it holds the read lock. */
  datatype Record = Arriving | Locked | Sending | Leaving | Returned

  datatype Coordinator =
    | AwaitCancel
    | AwaitLock      // done is closed
    | InLock
    | Unlocked       // closing is set
    | Finished       // drainReady is closed

  datatype Worker = Serving | Writing(c: Call) | AwaitReady | Draining | DrainWriting(c: Call) | Exited

  datatype State = State(
    started: bool,
    canceled: bool,
    coord: Coordinator,
    calls: seq<Record>,
    queues: seq<seq<Call>>,
    workers: seq<Worker>,
    enqueued: seq<seq<Call>>,  // what each shard was sent, ever
    written: seq<seq<Call>>,   // what each worker wrote, ever
    dropped: seq<Call>)        // what OnDrop was told, ever

  function Initial(u: Setup): State {
    State(false, false, AwaitCancel, [], seq(u.shards, i => []), seq(u.shards, i => Serving),
          seq(u.shards, i => []), seq(u.shards, i => []), [])
  }

  predicate DoneClosed(s: State) {
    !s.coord.AwaitCancel?
  }

  predicate Closing(s: State) {
    s.coord.Unlocked? || s.coord.Finished?
  }

  predicate Reads(r: Record) {
    r.Locked? || r.Sending? || r.Leaving?
  }

  datatype Event =
    | Arrive
    | RLock(c: Call) | Check(c: Call) | Enqueue(c: Call) | DropFull(c: Call) | DropDone(c: Call) | RUnlock(c: Call)
    | Start | Cancel
    | CloseDone | Lock | SetClosing | CloseReady
    | Take(w: nat) | Wrote(w: nat) | SeeCancel(w: nat) | SeeReady(w: nat) | Exit(w: nat)

  ghost predicate Enabled(u: Setup, s: State, e: Event)
    requires WellFormed(u) && Shaped(u, s)
  {
    match e
    case Arrive => true
    case RLock(c) => c < |s.calls| && s.calls[c].Arriving? && !s.coord.InLock?
    case Check(c) => c < |s.calls| && s.calls[c].Locked?
    case Enqueue(c) => c < |s.calls| && s.calls[c].Sending? && |s.queues[u.shardOf(c)]| < u.buffer
    case DropFull(c) => c < |s.calls| && s.calls[c].Sending? && !u.blockOnFull && |s.queues[u.shardOf(c)]| >= u.buffer
    case DropDone(c) => c < |s.calls| && s.calls[c].Sending? && u.blockOnFull && DoneClosed(s)
    case RUnlock(c) => c < |s.calls| && s.calls[c].Leaving?
    case Start => !s.started
    case Cancel => !s.canceled
    case CloseDone => s.started && s.canceled && s.coord.AwaitCancel?
    case Lock => s.coord.AwaitLock? && forall r <- s.calls :: !Reads(r)
    case SetClosing => s.coord.InLock?
    case CloseReady => s.coord.Unlocked?
    case Take(w) => s.started && w < u.shards && (s.workers[w].Serving? || s.workers[w].Draining?) && s.queues[w] != []
    case Wrote(w) => w < u.shards && (s.workers[w].Writing? || s.workers[w].DrainWriting?)
    case SeeCancel(w) => s.started && s.canceled && w < u.shards && s.workers[w].Serving?
    case SeeReady(w) => w < u.shards && s.workers[w].AwaitReady? && s.coord.Finished?
    case Exit(w) => w < u.shards && s.workers[w].Draining? && s.queues[w] == []
  }

  ghost predicate Shaped(u: Setup, s: State) {
    |s.queues| == |s.workers| == |s.enqueued| == |s.written| == u.shards
  }

  ghost function After(u: Setup, s: State, e: Event): State
    requires WellFormed(u) && Shaped(u, s) && Enabled(u, s, e)
  {
    match e
    case Arrive => s.(calls := s.calls + [Arriving])
    case RLock(c) => s.(calls := s.calls[c := Locked])
    case Check(c) =>
      if Closing(s) then s.(calls := s.calls[c := Leaving], dropped := s.dropped + [c])
      else s.(calls := s.calls[c := Sending])
    case Enqueue(c) =>
      var i := u.shardOf(c);
      s.(calls := s.calls[c := Leaving], queues := s.queues[i := s.queues[i] + [c]],
         enqueued := s.enqueued[i := s.enqueued[i] + [c]])
    case DropFull(c) => s.(calls := s.calls[c := Leaving], dropped := s.dropped + [c])
    case DropDone(c) => s.(calls := s.calls[c := Leaving], dropped := s.dropped + [c])
    case RUnlock(c) => s.(calls := s.calls[c := Returned])
    case Start => s.(started := true)
    case Cancel => s.(canceled := true)
    case CloseDone => s.(coord := AwaitLock)
    case Lock => s.(coord := InLock)
    case SetClosing => s.(coord := Unlocked)
    case CloseReady => s.(coord := Finished)
    case Take(w) =>
      var c := s.queues[w][0];
      s.(queues := s.queues[w := s.queues[w][1..]],
         workers := s.workers[w := if s.workers[w].Serving? then Writing(c) else DrainWriting(c)])
    case Wrote(w) =>
      s.(written := s.written[w := s.written[w] + [s.workers[w].c]],
         workers := s.workers[w := if s.workers[w].Writing? then Serving else Draining])
    case SeeCancel(w) => s.(workers := s.workers[w := AwaitReady])
    case SeeReady(w) => s.(workers := s.workers[w := Draining])
    case Exit(w) => s.(workers := s.workers[w := Exited])
  }

  // ----- the invariant -----

  function Hand(w: Worker): seq<Call> {
    if w.Writing? || w.DrainWriting? then [w.c] else []
  }

  /** The shard i of s: what was sent to it is written, in hand or queued. */
  ghost predicate ShardInOrder(u: Setup, s: State, i: nat)
    requires Shaped(u, s) && i < u.shards
  {
    s.enqueued[i] == s.written[i] + Hand(s.workers[i]) + s.queues[i] && |s.queues[i]| <= u.buffer
  }

  /** A shard loses and reorders nothing: what was sent is what was written, then
      what the worker has in hand, then what is buffered. */
  ghost predicate InOrder(u: Setup, s: State)
    requires Shaped(u, s)
  {
    forall i | 0 <= i < u.shards :: ShardInOrder(u, s, i)
  }

  function Placed(s: State, c: Call): nat {
    if c < |s.calls| && (s.calls[c].Leaving? || s.calls[c].Returned?) then 1 else 0
  }

  /** A call is sent to its shard or dropped: once when it is past its select,
      not before, and to no other shard. */
  ghost predicate PlacedOnce(u: Setup, s: State)
    requires Shaped(u, s) && WellFormed(u)
  {
    && (forall c: Call :: multiset(s.enqueued[u.shardOf(c)])[c] + multiset(s.dropped)[c] == Placed(s, c))
    && (forall c: Call, i | 0 <= i < u.shards && i != u.shardOf(c) :: c !in s.enqueued[i])
  }

  ghost predicate Ordered(u: Setup, s: State)
    requires Shaped(u, s)
  {
    && (s.coord.InLock? ==> forall r <- s.calls :: !Reads(r))
    && (Closing(s) ==> forall r <- s.calls :: !r.Sending?)
    && (!s.coord.AwaitCancel? ==> s.started && s.canceled)
    && (forall w <- s.workers :: (w.Draining? || w.DrainWriting? || w.Exited?) ==> s.coord.Finished?)
    && (forall w <- s.workers :: !w.Serving? ==> s.started)
    && (forall w <- s.workers :: w.AwaitReady? ==> s.canceled)
    && (forall i | 0 <= i < u.shards :: s.workers[i].Exited? ==> s.queues[i] == [])
  }

  ghost predicate Inv(u: Setup, s: State) {
    WellFormed(u) && Shaped(u, s) && InOrder(u, s) && PlacedOnce(u, s) && Ordered(u, s)
  }

  ghost predicate Run(u: Setup, s: State, events: seq<Event>, s': State)
    decreases |events|
  {
    if events == [] then s == s' else
      WellFormed(u) && Shaped(u, s) && Enabled(u, s, events[0]) && Run(u, After(u, s, events[0]), events[1..], s')
  }

  lemma InvInitial(u: Setup)
    requires WellFormed(u)
    ensures Inv(u, Initial(u))
  {
  }

  lemma EnqueueKeepsShard(u: Setup, s: State, c: Call, i: nat)
    requires WellFormed(u) && Shaped(u, s) && Enabled(u, s, Enqueue(c)) && i < u.shards && ShardInOrder(u, s, i)
    ensures ShardInOrder(u, After(u, s, Enqueue(c)), i)
  {
    SentLast(s.written[i], Hand(s.workers[i]), s.queues[i], c);
  }

  lemma TakeKeepsShard(u: Setup, s: State, w: nat, i: nat)
    requires WellFormed(u) && Shaped(u, s) && Enabled(u, s, Take(w)) && i < u.shards && ShardInOrder(u, s, i)
    ensures ShardInOrder(u, After(u, s, Take(w)), i)
  {
    if i == w { TakenFirst(s.written[i], s.queues[i]); }
  }

  lemma WroteKeepsShard(u: Setup, s: State, w: nat, i: nat)
    requires WellFormed(u) && Shaped(u, s) && Enabled(u, s, Wrote(w)) && i < u.shards && ShardInOrder(u, s, i)
    ensures ShardInOrder(u, After(u, s, Wrote(w)), i)
  {
    if i == w {
      assert s.written[i] + [s.workers[i].c] + s.queues[i] == (s.written[i] + [s.workers[i].c]) + [] + s.queues[i];
    }
  }

  lemma OthersKeepShard(u: Setup, s: State, e: Event, i: nat)
    requires WellFormed(u) && Shaped(u, s) && Enabled(u, s, e) && i < u.shards && ShardInOrder(u, s, i)
    requires !e.Enqueue? && !e.Take? && !e.Wrote?
    ensures Shaped(u, After(u, s, e)) && ShardInOrder(u, After(u, s, e), i)
  {
    assert Hand(After(u, s, e).workers[i]) == Hand(s.workers[i]);
  }

  lemma ShardsKept(u: Setup, s: State, e: Event)
    requires WellFormed(u) && Shaped(u, s) && InOrder(u, s) && Enabled(u, s, e)
    ensures Shaped(u, After(u, s, e)) && InOrder(u, After(u, s, e))
  {
    forall i: nat | i < u.shards ensures ShardInOrder(u, After(u, s, e), i) {
      assert ShardInOrder(u, s, i);
      match e
      case Enqueue(c) => EnqueueKeepsShard(u, s, c, i);
      case Take(w) => TakeKeepsShard(u, s, w, i);
      case Wrote(w) => WroteKeepsShard(u, s, w, i);
      case _ => OthersKeepShard(u, s, e, i);
    }
  }

  lemma SentLast(a: seq<Call>, b: seq<Call>, c: seq<Call>, x: Call)
    ensures a + b + c + [x] == a + b + (c + [x])
  {
  }

  lemma TakenFirst(a: seq<Call>, b: seq<Call>)
    requires b != []
    ensures a + [] + b == a + [b[0]] + b[1..]
  {
  }

  lemma PlacedKept(u: Setup, s: State, e: Event)
    requires WellFormed(u) && Shaped(u, s) && PlacedOnce(u, s) && Enabled(u, s, e)
    ensures Shaped(u, After(u, s, e)) && PlacedOnce(u, After(u, s, e))
  {
    var s' := After(u, s, e);
    if e.Enqueue? {
      SentIsPlaced(u, s, e.c);
    } else if e.DropFull? || e.DropDone? || (e.Check? && Closing(s)) {
      DroppedIsPlaced(u, s, e.c, s');
    } else {
      OthersKeepPlaces(u, s, e);
    }
  }

  lemma OthersKeepPlaces(u: Setup, s: State, e: Event)
    requires WellFormed(u) && Shaped(u, s) && PlacedOnce(u, s) && Enabled(u, s, e)
    requires !(e.Enqueue? || e.DropFull? || e.DropDone? || (e.Check? && Closing(s)))
    ensures Shaped(u, After(u, s, e)) && PlacedOnce(u, After(u, s, e))
  {
    var s' := After(u, s, e);
    assert s'.enqueued == s.enqueued && s'.dropped == s.dropped;
    forall c: Call ensures Placed(s', c) == Placed(s, c) {
    }
  }

  lemma SentIsPlaced(u: Setup, s: State, c: Call)
    requires WellFormed(u) && Shaped(u, s) && PlacedOnce(u, s) && Enabled(u, s, Enqueue(c))
    ensures Shaped(u, After(u, s, Enqueue(c))) && PlacedOnce(u, After(u, s, Enqueue(c)))
  {
    var s', i := After(u, s, Enqueue(c)), u.shardOf(c);
    assert multiset(s'.enqueued[i]) == multiset(s.enqueued[i]) + multiset{c};
    forall d: Call ensures multiset(s'.enqueued[u.shardOf(d)])[d] + multiset(s'.dropped)[d] == Placed(s', d) {
      assert multiset(s.enqueued[u.shardOf(d)])[d] + multiset(s.dropped)[d] == Placed(s, d);
      if d != c {
        assert Placed(s', d) == Placed(s, d);
      }
    }
  }

  lemma DroppedIsPlaced(u: Setup, s: State, c: Call, s': State)
    requires WellFormed(u) && Shaped(u, s) && PlacedOnce(u, s) && c < |s.calls| && !s.calls[c].Leaving? &&
             !s.calls[c].Returned?
    requires s' == s.(calls := s.calls[c := Leaving], dropped := s.dropped + [c])
    ensures Shaped(u, s') && PlacedOnce(u, s')
  {
    assert multiset(s'.dropped) == multiset(s.dropped) + multiset{c};
    assert forall d: Call | d != c :: Placed(s', d) == Placed(s, d);
  }

  lemma CallsKeepOrder(u: Setup, s: State, e: Event)
    requires WellFormed(u) && Shaped(u, s) && Ordered(u, s) && Enabled(u, s, e)
    requires e.Arrive? || e.RLock? || e.Check? || e.Enqueue? || e.DropFull? || e.DropDone? || e.RUnlock?
    ensures Shaped(u, After(u, s, e)) && Ordered(u, After(u, s, e))
  {
    var s' := After(u, s, e);
    assert forall r <- s'.calls :: r in s.calls || (e.Arrive? && r.Arriving?) || (!e.Arrive? && r == s'.calls[e.c]);
    if !e.Arrive? {
      assert s.calls[e.c] in s.calls;
    }
    if e.Enqueue? {
      assert forall i | 0 <= i < u.shards :: s.workers[i] in s.workers;
    }
  }

  lemma CoordinatorKeepsOrder(u: Setup, s: State, e: Event)
    requires WellFormed(u) && Shaped(u, s) && Ordered(u, s) && Enabled(u, s, e)
    requires e.Start? || e.Cancel? || e.CloseDone? || e.Lock? || e.SetClosing? || e.CloseReady?
    ensures Shaped(u, After(u, s, e)) && Ordered(u, After(u, s, e))
  {
  }

  lemma WorkersKeepOrder(u: Setup, s: State, e: Event)
    requires WellFormed(u) && Shaped(u, s) && Ordered(u, s) && Enabled(u, s, e)
    requires e.Take? || e.Wrote? || e.SeeCancel? || e.SeeReady? || e.Exit?
    ensures Shaped(u, After(u, s, e)) && Ordered(u, After(u, s, e))
  {
    var s' := After(u, s, e);
    assert s.workers[e.w] in s.workers;
    assert forall w <- s'.workers :: w in s.workers || w == s'.workers[e.w];
  }

  lemma InvKept(u: Setup, s: State, e: Event)
    requires Inv(u, s) && Enabled(u, s, e)
    ensures Inv(u, After(u, s, e))
  {
    ShardsKept(u, s, e);
    PlacedKept(u, s, e);
    if e.Take? || e.Wrote? || e.SeeCancel? || e.SeeReady? || e.Exit? {
      WorkersKeepOrder(u, s, e);
    } else if e.Start? || e.Cancel? || e.CloseDone? || e.Lock? || e.SetClosing? || e.CloseReady? {
      CoordinatorKeepsOrder(u, s, e);
    } else {
      CallsKeepOrder(u, s, e);
    }
  }

  lemma {:induction false} InvAlways(u: Setup, s: State, events: seq<Event>, s': State)
    requires Inv(u, s) && Run(u, s, events, s')
    ensures Inv(u, s')
    decreases |events|
  {
    if events != [] {
      InvKept(u, s, events[0]);
      InvAlways(u, After(u, s, events[0]), events[1..], s');
    }
  }

  // ----- what a shutdown keeps -----

  ghost predicate StartReturned(s: State) {
    s.started && forall w <- s.workers :: w.Exited?
  }

  /** When Start returns, no shard holds an entry, and each entry whose Record has
      returned has been written once or dropped once, and not both. */
  lemma NothingLost(u: Setup, events: seq<Event>, s: State, c: Call)
    requires WellFormed(u) && Run(u, Initial(u), events, s) && StartReturned(s)
    ensures Shaped(u, s) && forall i | 0 <= i < u.shards :: s.queues[i] == []
    ensures c < |s.calls| && s.calls[c].Returned? ==> multiset(s.written[u.shardOf(c)])[c] + multiset(s.dropped)[c] == 1
    ensures forall i | 0 <= i < u.shards && i != u.shardOf(c) :: c !in s.written[i]
  {
    InvInitial(u);
    InvAlways(u, Initial(u), events, s);
    forall i | 0 <= i < u.shards ensures s.queues[i] == [] && s.written[i] == s.enqueued[i] {
      assert ShardInOrder(u, s, i);
      assert s.workers[i] in s.workers;
      assert s.written[i] + [] + [] == s.written[i];
    }
  }

  /** In every state of every run a worker has written a prefix of what its shard
      was sent, in the order it was sent; the entries of one model share a
      shard. */
  lemma WritesFollowEnqueueOrder(u: Setup, events: seq<Event>, s: State, i: nat)
    requires WellFormed(u) && Run(u, Initial(u), events, s) && i < u.shards
    ensures Shaped(u, s) && s.written[i] <= s.enqueued[i]
  {
    InvInitial(u);
    InvAlways(u, Initial(u), events, s);
    assert ShardInOrder(u, s, i);
    assert s.enqueued[i] == s.written[i] + (Hand(s.workers[i]) + s.queues[i]);
  }

  // ----- what can happen -----

  /** What comes from outside can come in any state: a Record call, the one Start
      and the one cancellation. */
  lemma OutsideSteps(u: Setup, s: State)
    requires WellFormed(u) && Shaped(u, s)
    ensures Run(u, s, [Arrive], s.(calls := s.calls + [Arriving]))
    ensures !s.started ==> Run(u, s, [Start], s.(started := true))
    ensures !s.canceled ==> Run(u, s, [Cancel], s.(canceled := true))
  {
    forall e: Event ensures [e][0] == e && [e][1..] == [] { }
  }

  /** Where a Record call may go next: the read lock, the check, its select or out,
      and the return; and the coordinator closes done, takes the lock, sets closing
      and closes drainReady, in this order. */
  lemma StepsInOrder(u: Setup, s: State, e: Event, s': State, c: Call)
    requires Run(u, s, [e], s')
    ensures c < |s.calls| && c < |s'.calls| && s'.calls[c] != s.calls[c] ==>
              match s.calls[c]
              case Arriving => s'.calls[c].Locked?
              case Locked => s'.calls[c].Sending? || s'.calls[c].Leaving?
              case Sending => s'.calls[c].Leaving?
              case Leaving => s'.calls[c].Returned?
              case Returned => false
    ensures s'.coord != s.coord ==>
              match s.coord
              case AwaitCancel => s'.coord.AwaitLock?
              case AwaitLock => s'.coord.InLock?
              case InLock => s'.coord.Unlocked?
              case Unlocked => s'.coord.Finished?
              case Finished => false
  {
    StepAppends(u, s, e, s');
  }

  // ----- before Start and after it -----

  /** The writer of the lock is alone in it. */
  lemma WriterIsAlone(u: Setup, events: seq<Event>, s: State, c: Call)
    requires WellFormed(u) && Run(u, Initial(u), events, s) && s.coord.InLock? && c < |s.calls|
    ensures s.calls[c].Arriving? || s.calls[c].Returned?
  {
    InvInitial(u);
    InvAlways(u, Initial(u), events, s);
    assert s.calls[c] in s.calls;
  }

  ghost predicate NotStarted(s: State) {
    && !s.started && s.coord.AwaitCancel?
    && (forall w <- s.workers :: w.Serving?) && (forall x <- s.written :: x == [])
  }

  lemma NotStartedNext(u: Setup, s: State, e: Event)
    requires WellFormed(u) && Shaped(u, s) && Enabled(u, s, e) && NotStarted(s) && !e.Start?
    ensures NotStarted(After(u, s, e))
  {
    assert forall w | 0 <= w < |s.workers| :: s.workers[w] in s.workers;
  }

  /** Until Start is called nothing is written and no entry leaves its buffer. */
  lemma {:induction false} NothingBeforeStart(u: Setup, s: State, events: seq<Event>, s': State)
    requires WellFormed(u) && Run(u, s, events, s') && NotStarted(s) && forall e <- events :: !e.Start?
    ensures NotStarted(s')
    decreases |events|
  {
    if events != [] {
      NotStartedNext(u, s, events[0]);
      NothingBeforeStart(u, After(u, s, events[0]), events[1..], s');
    }
  }

  lemma BuffersUntilStart(u: Setup, events: seq<Event>, s: State, i: nat)
    requires WellFormed(u) && Run(u, Initial(u), events, s) && (forall e <- events :: !e.Start?) && i < u.shards
    ensures Shaped(u, s) && s.written[i] == [] && s.queues[i] == s.enqueued[i]
  {
    InvInitial(u);
    InvAlways(u, Initial(u), events, s);
    NothingBeforeStart(u, Initial(u), events, s);
    assert ShardInOrder(u, s, i) && s.workers[i] in s.workers && s.written[i] in s.written;
    assert s.enqueued[i] == [] + [] + s.queues[i];
  }

  /** Once Start has returned no entry is sent any more: a Record drops it. */
  lemma {:induction false} DropsAfterStart(u: Setup, s: State, events: seq<Event>, s': State)
    requires Inv(u, s) && s.coord.Finished? && Run(u, s, events, s')
    ensures s'.enqueued == s.enqueued && s'.coord.Finished?
    decreases |events|
  {
    if events != [] {
      assert forall c | 0 <= c < |s.calls| :: s.calls[c] in s.calls;
      InvKept(u, s, events[0]);
      DropsAfterStart(u, After(u, s, events[0]), events[1..], s');
    }
  }

  lemma LateRecordDrops(u: Setup, events: seq<Event>, s: State, more: seq<Event>, s': State, c: Call)
    requires WellFormed(u) && Run(u, Initial(u), events, s) && StartReturned(s) && Run(u, s, more, s')
    requires |s.calls| <= c < |s'.calls| && s'.calls[c].Returned?
    ensures c in s'.dropped
  {
    InvInitial(u);
    InvAlways(u, Initial(u), events, s);
    assert s.workers[0] in s.workers;
    DropsAfterStart(u, s, more, s');
    InvAlways(u, s, more, s');
    assert multiset(s.enqueued[u.shardOf(c)])[c] + multiset(s.dropped)[c] == Placed(s, c);
    assert multiset(s'.enqueued[u.shardOf(c)])[c] + multiset(s'.dropped)[c] == Placed(s', c);
  }

  /** A worker that runs takes the oldest entry of its shard whenever there is one,
      and writes what it took. */
  lemma WorkersServe(u: Setup, events: seq<Event>, s: State, w: nat) returns (e: Event, s': State)
    requires WellFormed(u) && Run(u, Initial(u), events, s) && s.started && w < u.shards
    ensures Shaped(u, s) && Shaped(u, s')
    ensures s.workers[w].Serving? && s.queues[w] != [] ==>
              Run(u, s, [e], s') && s'.workers[w] == Writing(s.queues[w][0]) && s'.queues[w] == s.queues[w][1..]
    ensures s.workers[w].Writing? ==>
              Run(u, s, [e], s') && s'.workers[w] == Serving && s'.written[w] == s.written[w] + [s.workers[w].c]
  {
    InvInitial(u);
    InvAlways(u, Initial(u), events, s);
    e, s' := Arrive, s;
    if s.workers[w].Serving? && s.queues[w] != [] {
      e := Take(w);
      s' := After(u, s, e);
    } else if s.workers[w].Writing? {
      e := Wrote(w);
      s' := After(u, s, e);
    }
    assert [e][1..] == [] && Run(u, s', [], s');
  }

  // ----- why an entry is dropped -----

  lemma StepAppends(u: Setup, s: State, e: Event, s': State)
    requires Run(u, s, [e], s')
    ensures WellFormed(u) && Shaped(u, s) && Enabled(u, s, e) && s' == After(u, s, e)
  {
    assert [e][0] == e && [e][1..] == [];
  }

  /** What may make a Record drop its entry: the recorder is closing; or it does
      not block and the shard of the entry is full; or it blocks and the
      coordinator saw the cancellation. */
  ghost predicate MayDrop(u: Setup, s: State, c: Call)
    requires WellFormed(u) && Shaped(u, s)
  {
    || s.coord.Unlocked? || s.coord.Finished?
    || (!u.blockOnFull && |s.queues[u.shardOf(c)]| == u.buffer)
    || (u.blockOnFull && !s.coord.AwaitCancel?)
  }

  /** In every run a step that drops anything drops one entry, and only for one of
      those reasons. */
  lemma DroppedOnlyFor(u: Setup, events: seq<Event>, s: State, e: Event, s': State)
    requires WellFormed(u) && Run(u, Initial(u), events, s) && Run(u, s, [e], s') && s'.dropped != s.dropped
    ensures Shaped(u, s) && exists c: Call :: s'.dropped == s.dropped + [c] && c < |s.calls| && MayDrop(u, s, c)
  {
    InvInitial(u);
    InvAlways(u, Initial(u), events, s);
    StepAppends(u, s, e, s');
    assert s'.dropped == s.dropped + [e.c];
    assert ShardInOrder(u, s, u.shardOf(e.c));
  }

  /** A call at its select whose shard has room can be sent there, whatever else
      it could do. */
  lemma RoomIsOffered(u: Setup, events: seq<Event>, s: State, c: Call) returns (s': State)
    requires WellFormed(u) && Run(u, Initial(u), events, s) && c < |s.calls| && s.calls[c].Sending?
    ensures Shaped(u, s) && Shaped(u, s')
    ensures |s.queues[u.shardOf(c)]| < u.buffer ==>
              Run(u, s, [Enqueue(c)], s') && s'.enqueued[u.shardOf(c)] == s.enqueued[u.shardOf(c)] + [c]
  {
    InvInitial(u);
    InvAlways(u, Initial(u), events, s);
    s' := s;
    if |s.queues[u.shardOf(c)]| < u.buffer {
      s' := After(u, s, Enqueue(c));
      assert [Enqueue(c)][1..] == [];
      assert Run(u, s', [], s');
    }
  }

  /** A recorder that does not block sends an entry whose shard has room: no step
      takes its Record past the select in another way. */
  lemma RoomIsTaken(u: Setup, events: seq<Event>, s: State, c: Call, e: Event, s': State)
    requires WellFormed(u) && Run(u, Initial(u), events, s) && c < |s.calls| && s.calls[c].Sending? && !u.blockOnFull
    requires Run(u, s, [e], s') && c < |s'.calls| && !s'.calls[c].Sending?
    ensures Shaped(u, s) && Shaped(u, s')
    ensures |s.queues[u.shardOf(c)]| < u.buffer ==> s'.enqueued[u.shardOf(c)] == s.enqueued[u.shardOf(c)] + [c]
  {
    InvInitial(u);
    InvAlways(u, Initial(u), events, s);
    StepAppends(u, s, e, s');
    InvKept(u, s, e);
    assert s.calls[c] in s.calls;
  }

  ghost predicate HasRoom(u: Setup, s: State)
    requires Shaped(u, s)
  {
    forall i | 0 <= i < u.shards :: |s.queues[i]| < u.buffer
  }

  /** No shard is full in any state of the run. */
  ghost predicate NeverFull(u: Setup, s: State, events: seq<Event>, s': State)
    requires Run(u, s, events, s')
    decreases |events|
  {
    (Shaped(u, s) ==> HasRoom(u, s)) && (events != [] ==> NeverFull(u, After(u, s, events[0]), events[1..], s'))
  }

  ghost predicate NoneDropped(s: State) {
    s.dropped == [] && !s.canceled && s.coord.AwaitCancel?
  }

  lemma {:induction false} NoneDroppedAlways(u: Setup, s: State, events: seq<Event>, s': State)
    requires WellFormed(u) && Run(u, s, events, s') && NoneDropped(s)
    requires (forall e <- events :: !e.Cancel?) && (u.blockOnFull || NeverFull(u, s, events, s'))
    ensures NoneDropped(s')
    decreases |events|
  {
    if events != [] {
      NoneDroppedNext(u, s, events[0]);
      NoneDroppedAlways(u, After(u, s, events[0]), events[1..], s');
    }
  }

  lemma NoneDroppedNext(u: Setup, s: State, e: Event)
    requires WellFormed(u) && Shaped(u, s) && Enabled(u, s, e) && NoneDropped(s) && !e.Cancel?
    requires u.blockOnFull || HasRoom(u, s)
    ensures NoneDropped(After(u, s, e))
  {
  }

  /** Until it is canceled, a recorder that blocks drops nothing, and one that does
      not drops nothing either while no shard is full: each entry whose Record has
      returned was sent to its shard, once. */
  lemma SentUntilCanceled(u: Setup, events: seq<Event>, s: State, c: Call)
    requires WellFormed(u) && Run(u, Initial(u), events, s) && forall e <- events :: !e.Cancel?
    requires u.blockOnFull || NeverFull(u, Initial(u), events, s)
    ensures s.dropped == []
    ensures Shaped(u, s) && (c < |s.calls| && s.calls[c].Returned? ==> multiset(s.enqueued[u.shardOf(c)])[c] == 1)
  {
    InvInitial(u);
    InvAlways(u, Initial(u), events, s);
    NoneDroppedAlways(u, Initial(u), events, s);
    assert multiset(s.enqueued[u.shardOf(c)])[c] + multiset(s.dropped)[c] == Placed(s, c);
  }

  // ----- why a shutdown ends -----

  ghost predicate Settled(s: State) {
    StartReturned(s) && forall r <- s.calls :: r.Returned?
  }

  /** What the recorder does by itself, with a waiting writer keeping new readers
      out. */
  ghost predicate Moves(u: Setup, s: State, e: Event)
    requires WellFormed(u) && Shaped(u, s)
  {
    Enabled(u, s, e) && !e.Arrive? && !e.Start? && !e.Cancel? && (e.RLock? ==> !s.coord.AwaitLock?)
  }

  lemma CallMoves(u: Setup, s: State, c: Call) returns (e: Event)
    requires WellFormed(u) && Shaped(u, s) && c < |s.calls| && !s.calls[c].Returned? && DoneClosed(s)
    requires s.calls[c].Arriving? ==> s.coord.Finished?
    ensures Moves(u, s, e)
  {
    match s.calls[c]
    case Arriving => e := RLock(c);
    case Locked => e := Check(c);
    case Sending =>
      if u.blockOnFull {
        e := DropDone(c);
      } else if |s.queues[u.shardOf(c)]| < u.buffer {
        e := Enqueue(c);
      } else {
        e := DropFull(c);
      }
    case Leaving => e := RUnlock(c);
  }

  lemma WorkerMoves(u: Setup, s: State, w: nat) returns (e: Event)
    requires WellFormed(u) && Shaped(u, s) && w < u.shards && !s.workers[w].Exited?
    requires s.started && s.canceled && s.coord.Finished?
    ensures Moves(u, s, e)
  {
    match s.workers[w]
    case Serving => e := SeeCancel(w);
    case Writing(_) => e := Wrote(w);
    case AwaitReady => e := SeeReady(w);
    case Draining => e := if s.queues[w] == [] then Exit(w) else Take(w);
    case DrainWriting(_) => e := Wrote(w);
  }

  /** After the cancellation no reachable state is stuck, parked producers of a
      full shard included: while Start or a Record has not returned, the recorder
      can move. */
  lemma NeverStuck(u: Setup, events: seq<Event>, s: State) returns (e: Event)
    requires WellFormed(u) && Run(u, Initial(u), events, s) && s.started && s.canceled && !Settled(s)
    ensures Shaped(u, s) && Moves(u, s, e)
  {
    InvInitial(u);
    InvAlways(u, Initial(u), events, s);
    match s.coord
    case AwaitCancel => e := CloseDone;
    case AwaitLock =>
      if c: nat :| c < |s.calls| && Reads(s.calls[c]) {
        e := CallMoves(u, s, c);
      } else {
        e := Lock;
      }
    case InLock => e := SetClosing;
    case Unlocked => e := CloseReady;
    case Finished =>
      if w: nat :| w < u.shards && !s.workers[w].Exited? {
        e := WorkerMoves(u, s, w);
      } else {
        var c: nat :| c < |s.calls| && !s.calls[c].Returned?;
        e := CallMoves(u, s, c);
      }
  }

  function CallRank(r: Record): nat {
    match r case Arriving => 6 case Locked => 5 case Sending => 4 case Leaving => 1 case Returned => 0
  }

  function CallsRank(calls: seq<Record>): nat {
    if calls == [] then 0 else CallsRank(calls[..|calls| - 1]) + CallRank(calls[|calls| - 1])
  }

  function ShardRank(queue: seq<Call>, w: Worker): nat {
    2 * |queue| +
    match w
    case Serving => 3
    case Writing(_) => 4
    case AwaitReady => 2
    case Draining => 1
    case DrainWriting(_) => 2
    case Exited => 0
  }

  ghost function ShardsRank(s: State, n: nat): nat
    requires n <= |s.queues| == |s.workers|
  {
    if n == 0 then 0 else ShardsRank(s, n - 1) + ShardRank(s.queues[n - 1], s.workers[n - 1])
  }

  function CoordRank(c: Coordinator): nat {
    match c case AwaitCancel => 4 case AwaitLock => 3 case InLock => 2 case Unlocked => 1 case Finished => 0
  }

  /** The moves the recorder has left, at most. */
  ghost function Rank(u: Setup, s: State): nat
    requires Shaped(u, s)
  {
    CallsRank(s.calls) + ShardsRank(s, u.shards) + CoordRank(s.coord)
  }

  lemma {:induction false} CallsRankUpdate(calls: seq<Record>, c: nat, r: Record)
    requires c < |calls|
    ensures CallsRank(calls[c := r]) + CallRank(calls[c]) == CallsRank(calls) + CallRank(r)
  {
    var n := |calls| - 1;
    if c < n {
      assert calls[c := r][..n] == calls[..n][c := r];
      CallsRankUpdate(calls[..n], c, r);
    } else {
      assert calls[c := r][..n] == calls[..n];
    }
  }

  lemma {:induction false} ShardsRankUpdate(s: State, s': State, w: nat, n: nat)
    requires n <= |s.queues| == |s.workers| == |s'.queues| == |s'.workers| && w < |s.queues|
    requires forall i | 0 <= i < |s.queues| && i != w :: s'.queues[i] == s.queues[i] && s'.workers[i] == s.workers[i]
    ensures ShardsRank(s', n) + (if w < n then ShardRank(s.queues[w], s.workers[w]) else 0)
            == ShardsRank(s, n) + (if w < n then ShardRank(s'.queues[w], s'.workers[w]) else 0)
  {
    if n > 0 {
      ShardsRankUpdate(s, s', w, n - 1);
    }
  }

  lemma WorkerUsesRank(u: Setup, s: State, e: Event)
    requires WellFormed(u) && Shaped(u, s) && Enabled(u, s, e)
    requires e.Take? || e.Wrote? || e.SeeCancel? || e.SeeReady? || e.Exit?
    ensures Shaped(u, After(u, s, e)) && Rank(u, After(u, s, e)) < Rank(u, s)
  {
    ShardsRankUpdate(s, After(u, s, e), e.w, u.shards);
  }

  lemma CallUsesRank(u: Setup, s: State, e: Event)
    requires WellFormed(u) && Shaped(u, s) && Enabled(u, s, e)
    requires e.RLock? || e.Check? || e.DropFull? || e.DropDone? || e.RUnlock?
    ensures Shaped(u, After(u, s, e)) && Rank(u, After(u, s, e)) < Rank(u, s)
  {
    var s' := After(u, s, e);
    assert s'.calls == s.calls[e.c := s'.calls[e.c]];
    CallsRankUpdate(s.calls, e.c, s'.calls[e.c]);
    ShardsRankUpdate(s, s', 0, u.shards);
  }

  lemma EnqueueUsesRank(u: Setup, s: State, c: Call)
    requires WellFormed(u) && Shaped(u, s) && Enabled(u, s, Enqueue(c))
    ensures Shaped(u, After(u, s, Enqueue(c))) && Rank(u, After(u, s, Enqueue(c))) < Rank(u, s)
  {
    CallsRankUpdate(s.calls, c, Leaving);
    ShardsRankUpdate(s, After(u, s, Enqueue(c)), u.shardOf(c), u.shards);
  }

  lemma CoordinatorUsesRank(u: Setup, s: State, e: Event)
    requires WellFormed(u) && Shaped(u, s) && Enabled(u, s, e)
    requires e.CloseDone? || e.Lock? || e.SetClosing? || e.CloseReady?
    ensures Shaped(u, After(u, s, e)) && Rank(u, After(u, s, e)) < Rank(u, s)
  {
    ShardsRankUpdate(s, After(u, s, e), 0, u.shards);
  }

  /** Every move uses up rank, whatever the state. */
  lemma MovesUseRank(u: Setup, s: State, e: Event)
    requires WellFormed(u) && Shaped(u, s) && Enabled(u, s, e) && !e.Arrive? && !e.Start? && !e.Cancel?
    ensures Shaped(u, After(u, s, e)) && Rank(u, After(u, s, e)) < Rank(u, s)
  {
    if e.Take? || e.Wrote? || e.SeeCancel? || e.SeeReady? || e.Exit? {
      WorkerUsesRank(u, s, e);
    } else if e.Enqueue? {
      EnqueueUsesRank(u, s, e.c);
    } else if e.CloseDone? || e.Lock? || e.SetClosing? || e.CloseReady? {
      CoordinatorUsesRank(u, s, e);
    } else {
      CallUsesRank(u, s, e);
    }
  }

  /** With no new Record call a run has at most Rank moves: with NeverStuck, a
      canceled recorder always comes to rest with Start and every Record
      returned. */
  lemma {:induction false} RunsAreBounded(u: Setup, s: State, events: seq<Event>, s': State)
    requires WellFormed(u) && Shaped(u, s) && Run(u, s, events, s')
    requires forall e <- events :: !e.Arrive? && !e.Start? && !e.Cancel?
    ensures |events| <= Rank(u, s)
    decreases |events|
  {
    if events != [] {
      MovesUseRank(u, s, events[0]);
      RunsAreBounded(u, After(u, s, events[0]), events[1..], s');
    }
  }
}
