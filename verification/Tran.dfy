/** dbx/tran.go and queue/scheduler.go: a unit of work and the tasks it
    schedules, in one transaction. */
module Tran {
  import opened Common
  import opened Errors
  import opened Retry

  datatype Write = Domain(change: string) | Task(queue: string, kind: string, payload: string)

  // ----- scheduling -----

  /** A scheduled value: nil, or a value of a Go type. */
  datatype Value = Nil | Of(typ: string, body: string)

  datatype Route = Route(queue: string, kind: string, drop: bool, encode: string -> Result<string>)

  type Registry = map<string, Route>

  /** Scheduler.Schedule up to its insert: the task to write, if any. */
  function Scheduled(reg: Registry, v: Value): Result<Option<Write>> {
    if v.Nil? then Err("queue schedule: value is nil")
    else if v.typ !in reg then Err("queue schedule: type " + v.typ + " is not registered")
    else
      var rt := reg[v.typ];
      if rt.drop then Ok(None) else
      var payload := rt.encode(v.body);
      if payload.Err? then Err("queue schedule " + rt.kind + ": encode: " + payload.message)
      else if rt.queue == "" then Err("queue schedule: queue is required")
      else if rt.kind == "" then Err("queue schedule: kind is required")
      else Ok(Some(Task(rt.queue, rt.kind, payload.value)))
  }

  // ----- what fn does in a transaction -----

  /** The body of a unit of work: statements, scheduled values and joined
      WithinTran calls, each with what fn does next on success and on an error
      it got. */
  datatype Body =
    | Return(err: Option<Error>)
    | Raise(reason: string)
    | Exec(change: string, fails: Option<Error>, ok: Body, failed: Body)
    | Schedule(v: Value, fails: Option<Error>, ok: Body, failed: Body)
    | Joined(inner: Body, ok: Body, failed: Body)

  /** A transaction in progress; after a failed statement it takes no other. */
  datatype Tx = Tx(pending: seq<Write>, aborted: bool)

  function Begin(): Tx {
    Tx([], false)
  }

  /** A statement that writes w, unless it fails: then the transaction aborts. */
  function Statement(tx: Tx, w: Write, fails: Option<Error>): (Tx, bool) {
    if tx.aborted || fails.Some? then (tx.(aborted := true), false)
    else (tx.(pending := tx.pending + [w]), true)
  }

  /** One statement or one scheduled value, and whether it gave no error. A value
      with no task to write, for want of a route or because the route drops it,
      leaves tx as it is. */
  function Step(reg: Registry, b: Body, tx: Tx): (Tx, bool)
    requires b.Exec? || b.Schedule?
  {
    if b.Exec? then Statement(tx, Domain(b.change), b.fails)
    else
      var task := Scheduled(reg, b.v);
      if task.Err? then (tx, false)
      else if task.value.None? then (tx, true)
      else Statement(tx, task.value.value, b.fails)
  }

  /** Running fn on tx. A joined WithinTran runs its body on the same tx, and
      neither commits nor rolls back. */
  function Execute(reg: Registry, b: Body, tx: Tx): (r: (Tx, Exit))
    ensures tx.pending <= r.0.pending
    ensures tx.aborted ==> r.0.aborted && r.0.pending == tx.pending
    decreases b
  {
    match b
    case Return(err) => (tx, if err.Some? then Failed(err.value) else Done)
    case Raise(reason) => (tx, Panicked(reason))
    case Exec(_, _, ok, failed) =>
      var (tx', done) := Step(reg, b, tx);
      Execute(reg, if done then ok else failed, tx')
    case Schedule(_, _, ok, failed) =>
      var (tx', done) := Step(reg, b, tx);
      Execute(reg, if done then ok else failed, tx')
    case Joined(inner, ok, failed) =>
      var (tx', exit) := Execute(reg, inner, tx);
      match exit
      case Done => Execute(reg, ok, tx')
      case Failed(_) => Execute(reg, failed, tx')
      case Panicked(_) => (tx', exit)
  }

  /** A statement adds its change and goes on; one that fails, or comes after one
      that failed, adds nothing, gives its error to fn, and leaves the transaction
      aborted. */
  lemma ExecRuns(reg: Registry, b: Body, tx: Tx)
    requires b.Exec?
    ensures Execute(reg, b, tx) ==
            if b.fails.Some? || tx.aborted then Execute(reg, b.failed, Tx(tx.pending, true))
            else Execute(reg, b.ok, Tx(tx.pending + [Domain(b.change)], false))
  {
  }

  /** Scheduling a value of a type whose route does not drop it adds the task with
      the queue and the kind of the route and the payload its encoder wrote; one
      of a type that is dropped adds nothing; and a nil value, an unknown type or
      an encoding that fails is an error the transaction outlives. */
  lemma ScheduleRuns(reg: Registry, b: Body, tx: Tx)
    requires b.Schedule?
    ensures
      if b.v.Nil? || b.v.typ !in reg then Execute(reg, b, tx) == Execute(reg, b.failed, tx)
      else
        var route := reg[b.v.typ];
        var payload := route.encode(b.v.body);
        if route.drop then Execute(reg, b, tx) == Execute(reg, b.ok, tx)
        else if payload.Err? || route.queue == "" || route.kind == "" then
          Execute(reg, b, tx) == Execute(reg, b.failed, tx)
        else if b.fails.Some? || tx.aborted then
          Execute(reg, b, tx) == Execute(reg, b.failed, Tx(tx.pending, true))
        else
          Execute(reg, b, tx) ==
          Execute(reg, b.ok, Tx(tx.pending + [Task(route.queue, route.kind, payload.value)], false))
  {
  }

  /** A task that was scheduled, and a change that was made, are among the writes of
      the transaction, whatever fn does next. */
  lemma WrittenStays(reg: Registry, b: Body, tx: Tx, w: Write)
    requires (b.Exec? || b.Schedule?) && Step(reg, b, tx).1 && w in Step(reg, b, tx).0.pending
    ensures w in Execute(reg, b, tx).0.pending
  {
    assert Step(reg, b, tx).0.pending <= Execute(reg, b, tx).0.pending;
  }

  // ----- one attempt -----

  /** What the database answers to a commit; a lost reply is an error although
      the transaction was committed. */
  datatype Reply = Accepted | Rejected(err: Error) | Lost(err: Error)

  datatype Attempt = Attempt(begin: Option<Error>, body: Body, reply: Reply)

  /** The writes of one run of fn. */
  function WritesOf(reg: Registry, a: Attempt): seq<Write> {
    Execute(reg, a.body, Begin()).0.pending
  }

  /** Whether the run came to a commit the database can accept. */
  predicate Commits(reg: Registry, a: Attempt) {
    a.begin.None? && Execute(reg, a.body, Begin()).1.Done? && !Execute(reg, a.body, Begin()).0.aborted
  }

  const ABORTED := Plain("dbx: commit tran: transaction is aborted")

  /** DB.tran, on the transactions committed so far. */
  function Transact(reg: Registry, committed: seq<seq<Write>>, a: Attempt): (seq<seq<Write>>, Exit) {
    if a.begin.Some? then (committed, Failed(Wrap("dbx: begin tran", a.begin.value)))
    else
      var (tx, exit) := Execute(reg, a.body, Begin());
      if !exit.Done? then (committed, exit)
      else if tx.aborted then (committed, Failed(ABORTED))
      else match a.reply
        case Accepted => (committed + [tx.pending], Done)
        case Rejected(e) => (committed, Failed(Wrap("dbx: commit tran", e)))
        case Lost(e) => (committed + [tx.pending], Failed(Wrap("dbx: commit tran", e)))
  }

  /** A commit of the attempt was made, and its reply was an error. */
  predicate IsLost(reg: Registry, a: Attempt) {
    Commits(reg, a) && a.reply.Lost?
  }

  /** The transactions the first n attempts committed. */
  function Committed(reg: Registry, attempts: nat -> Attempt, n: nat): seq<seq<Write>> {
    if n == 0 then [] else
      Committed(reg, attempts, n - 1) +
      if Commits(reg, attempts(n)) && !attempts(n).reply.Rejected? then [WritesOf(reg, attempts(n))] else []
  }

  /** How an attempt ends, whatever was committed before. */
  function Ended(reg: Registry, a: Attempt): Exit {
    Transact(reg, [], a).1
  }

  /** Whether the n-th attempt is followed by another: it failed with an error
      the classifier calls retryable, it was not the third, and the wait after
      it ran to its end. */
  predicate RunsAgain(reg: Registry, retryable: Error -> bool, waits: nat -> bool, attempts: nat -> Attempt, n: nat) {
    var exit := Ended(reg, attempts(n));
    exit.Failed? && retryable(exit.err) && n < 3 && waits(n)
  }

  class DB {
    var committed: seq<seq<Write>>

    /** DB.within: retry.Do over DB.tran, three attempts, retrying only what the
        classifier calls retryable. */
    method Within(reg: Registry, retryable: Error -> bool, waits: nat -> bool, attempts: nat -> Attempt)
      returns (exit: Exit, runs: nat)
      modifies this
      ensures 1 <= runs <= 3
      ensures forall n | 1 <= n < runs :: RunsAgain(reg, retryable, waits, attempts, n)
      ensures !RunsAgain(reg, retryable, waits, attempts, runs)
      ensures exit == Ended(reg, attempts(runs))
      ensures forall n | 1 <= n < runs ::
                var e := Ended(reg, attempts(n)); e.Failed? && retryable(e.err) && waits(n)
      ensures exit.Failed? && retryable(exit.err) ==> runs == 3 || !waits(runs)
      ensures committed == old(committed) + Committed(reg, attempts, runs)
      ensures exit.Done? <==> Commits(reg, attempts(runs)) && attempts(runs).reply.Accepted?
      ensures forall n | 1 <= n < runs :: !(Commits(reg, attempts(n)) && attempts(n).reply.Accepted?)
    {
      var noticed;
      var fn := (c: seq<seq<Write>>, n: nat) => Transact(reg, c, attempts(n));
      ghost var was := committed;
      var terminal := (e: Error) => !retryable(e);
      committed, exit, runs, noticed := Do(3, terminal, waits, fn, committed);
      CommittedByDo(reg, attempts, was, runs, fn);
      forall n | 1 <= n <= runs ensures ExitOf(fn, was, n) == Ended(reg, attempts(n)) {
        EndedAnyway(reg, StateAfter(fn, was, n - 1), attempts(n));
      }
      forall n | 1 <= n < runs
        ensures RunsAgain(reg, retryable, waits, attempts, n)
        ensures !(Commits(reg, attempts(n)) && attempts(n).reply.Accepted?)
      {
        assert Retries(Budget(3), terminal, waits, fn, was, n);
        DoneIffAccepted(reg, attempts(n));
      }
    }
  }

  lemma DoneIffAccepted(reg: Registry, a: Attempt)
    ensures Ended(reg, a).Done? <==> Commits(reg, a) && a.reply.Accepted?
  {
  }

  lemma EndedAnyway(reg: Registry, committed: seq<seq<Write>>, a: Attempt)
    ensures Transact(reg, committed, a).1 == Ended(reg, a)
  {
  }

  lemma {:induction false} CommittedByDo(reg: Registry, attempts: nat -> Attempt, committed: seq<seq<Write>>, n: nat,
                                         fn: Op<seq<seq<Write>>>)
    requires forall c, k :: fn(c, k) == Transact(reg, c, attempts(k))
    ensures StateAfter(fn, committed, n) == committed + Committed(reg, attempts, n)
  {
    if n > 0 {
      CommittedByDo(reg, attempts, committed, n - 1, fn);
    } else {
      assert committed + [] == committed;
    }
  }

  // ----- atomicity -----

  /** What a unit of work promises: on success the writes of its last run, its
      domain changes and its tasks together, are committed once; on an error or
      a panic nothing is. */
  ghost predicate Atomic(reg: Registry, attempts: nat -> Attempt, exit: Exit, runs: nat)
    requires runs >= 1
  {
    Committed(reg, attempts, runs) == if exit.Done? then [WritesOf(reg, attempts(runs))] else []
  }

  lemma {:induction false} CommittedCounts(reg: Registry, attempts: nat -> Attempt, n: nat)
    requires forall k | 1 <= k <= n :: !(Commits(reg, attempts(k)) && attempts(k).reply.Accepted?)
    ensures Committed(reg, attempts, n) == [] <==> forall k | 1 <= k <= n :: !IsLost(reg, attempts(k))
  {
    if n > 0 {
      CommittedCounts(reg, attempts, n - 1);
      if Committed(reg, attempts, n) == [] {
        assert Committed(reg, attempts, n - 1) == [];
      }
    }
  }

  /** Across all retries a unit of work is atomic exactly when no reply to a
      commit is lost: an error then may come after a commit, and a retry after it
      commits a second time. */
  lemma AtomicIffNoReplyLost(reg: Registry, attempts: nat -> Attempt, exit: Exit, runs: nat)
    requires runs >= 1
    requires exit.Done? <==> Commits(reg, attempts(runs)) && attempts(runs).reply.Accepted?
    requires forall n | 1 <= n < runs :: !(Commits(reg, attempts(n)) && attempts(n).reply.Accepted?)
    ensures Atomic(reg, attempts, exit, runs) <==> forall n | 1 <= n <= runs :: !IsLost(reg, attempts(n))
  {
    CommittedCounts(reg, attempts, runs - 1);
    if !exit.Done? {
      CommittedCounts(reg, attempts, runs);
    } else {
      assert !IsLost(reg, attempts(runs));
      var last := WritesOf(reg, attempts(runs));
      var before := Committed(reg, attempts, runs - 1);
      assert Committed(reg, attempts, runs) == before + [last];
      assert before == [] <==> before + [last] == [last] by {
        if before + [last] == [last] { assert |before| == 0; }
      }
    }
  }

  /** The number of attempts and the exit of Within are these and no other. */
  lemma RunsAreDetermined(reg: Registry, retryable: Error -> bool, waits: nat -> bool, attempts: nat -> Attempt,
                          m: nat, n: nat)
    requires m >= 1 && n >= 1
    requires (forall k | 1 <= k < m :: RunsAgain(reg, retryable, waits, attempts, k)) &&
             !RunsAgain(reg, retryable, waits, attempts, m)
    requires (forall k | 1 <= k < n :: RunsAgain(reg, retryable, waits, attempts, k)) &&
             !RunsAgain(reg, retryable, waits, attempts, n)
    ensures m == n
  {
  }

  /** A lost reply whose error is retryable: fn runs again, the work ends well and
      is committed twice. */
  lemma LostReplyCommitsTwice(reg: Registry, retryable: Error -> bool, waits: nat -> bool, attempts: nat -> Attempt)
    requires IsLost(reg, attempts(1)) && retryable(Wrap("dbx: commit tran", attempts(1).reply.err)) && waits(1)
    requires Commits(reg, attempts(2)) && attempts(2).reply.Accepted?
    ensures RunsAgain(reg, retryable, waits, attempts, 1) && !RunsAgain(reg, retryable, waits, attempts, 2)
    ensures Ended(reg, attempts(2)).Done?
    ensures Committed(reg, attempts, 2) == [WritesOf(reg, attempts(1))] + [WritesOf(reg, attempts(2))]
    ensures !Atomic(reg, attempts, Done, 2)
  {
    assert Committed(reg, attempts, 1) == [] + [WritesOf(reg, attempts(1))];
  }

  /** A lost reply whose error is not: an error, after one commit. */
  lemma LostReplyFailsCommitted(reg: Registry, retryable: Error -> bool, waits: nat -> bool, attempts: nat -> Attempt)
    requires IsLost(reg, attempts(1)) && !retryable(Wrap("dbx: commit tran", attempts(1).reply.err))
    ensures !RunsAgain(reg, retryable, waits, attempts, 1)
    ensures Ended(reg, attempts(1)) == Failed(Wrap("dbx: commit tran", attempts(1).reply.err))
    ensures Committed(reg, attempts, 1) == [WritesOf(reg, attempts(1))]
    ensures !Atomic(reg, attempts, Ended(reg, attempts(1)), 1)
  {
    assert Committed(reg, attempts, 1) == [] + [WritesOf(reg, attempts(1))];
  }

  /** Such attempts there are: one that pays, once more after a lost reply. */
  lemma PaidTwice(reg: Registry, err: Error) returns (attempts: nat -> Attempt)
    ensures IsLost(reg, attempts(1)) && attempts(1).reply.err == err
    ensures Commits(reg, attempts(2)) && attempts(2).reply.Accepted?
    ensures WritesOf(reg, attempts(1)) == WritesOf(reg, attempts(2)) == [Domain("paid")]
  {
    var body := Exec("paid", None, Return(None), Return(Some(err)));
    attempts := (n: nat) => Attempt(None, body, if n == 1 then Lost(err) else Accepted);
    var tx := Tx([] + [Domain("paid")], false);
    assert Step(reg, body, Begin()) == (tx, true) && tx.pending == [Domain("paid")];
    assert Execute(reg, body, Begin()) == (tx, Done);
  }

  // ----- nesting -----

  /** b with what follows it put in place of its returns. */
  function Then(b: Body, ok: Body, failed: Body): Body {
    match b
    case Return(err) => if err.Some? then failed else ok
    case Raise(_) => b
    case Exec(change, fails, o, f) => Exec(change, fails, Then(o, ok, failed), Then(f, ok, failed))
    case Schedule(v, fails, o, f) => Schedule(v, fails, Then(o, ok, failed), Then(f, ok, failed))
    case Joined(inner, o, f) => Joined(inner, Then(o, ok, failed), Then(f, ok, failed))
  }

  /** b with every joined WithinTran written out in place. */
  function Inline(b: Body): Body {
    match b
    case Return(_) => b
    case Raise(_) => b
    case Exec(change, fails, ok, failed) => Exec(change, fails, Inline(ok), Inline(failed))
    case Schedule(v, fails, ok, failed) => Schedule(v, fails, Inline(ok), Inline(failed))
    case Joined(inner, ok, failed) => Then(Inline(inner), Inline(ok), Inline(failed))
  }

  predicate Flat(b: Body) {
    match b
    case Return(_) => true
    case Raise(_) => true
    case Exec(_, _, ok, failed) => Flat(ok) && Flat(failed)
    case Schedule(_, _, ok, failed) => Flat(ok) && Flat(failed)
    case Joined(_, _, _) => false
  }

  /** What Then(b, ok, failed) does is what b does, and then ok or failed. */
  ghost predicate RunsThen(reg: Registry, b: Body, ok: Body, failed: Body, tx: Tx) {
    var (tx', exit) := Execute(reg, b, tx);
    Execute(reg, Then(b, ok, failed), tx) ==
    match exit
    case Done => Execute(reg, ok, tx')
    case Failed(_) => Execute(reg, failed, tx')
    case Panicked(_) => (tx', exit)
  }

  lemma StepRunsThen(reg: Registry, b: Body, ok: Body, failed: Body, tx: Tx)
    requires b.Exec? || b.Schedule?
    requires var (tx', done) := Step(reg, b, tx); RunsThen(reg, if done then b.ok else b.failed, ok, failed, tx')
    ensures RunsThen(reg, b, ok, failed, tx)
  {
    assert Step(reg, Then(b, ok, failed), tx) == Step(reg, b, tx);
  }

  lemma {:induction false} ThenRuns(reg: Registry, b: Body, ok: Body, failed: Body, tx: Tx)
    ensures RunsThen(reg, b, ok, failed, tx)
    decreases b
  {
    match b
    case Return(_) =>
    case Raise(_) =>
    case Exec(_, _, o, f) =>
      var (tx', done) := Step(reg, b, tx);
      ThenRuns(reg, if done then o else f, ok, failed, tx');
      StepRunsThen(reg, b, ok, failed, tx);
    case Schedule(_, _, o, f) =>
      var (tx', done) := Step(reg, b, tx);
      ThenRuns(reg, if done then o else f, ok, failed, tx');
      StepRunsThen(reg, b, ok, failed, tx);
    case Joined(inner, o, f) =>
      var (tx', exit) := Execute(reg, inner, tx);
      if exit.Done? {
        ThenRuns(reg, o, ok, failed, tx');
      } else if exit.Failed? {
        ThenRuns(reg, f, ok, failed, tx');
      }
  }

  lemma {:induction false} ThenFlat(b: Body, ok: Body, failed: Body)
    requires Flat(b) && Flat(ok) && Flat(failed)
    ensures Flat(Then(b, ok, failed))
  {
    match b
    case Return(_) =>
    case Raise(_) =>
    case Exec(_, _, o, f) => ThenFlat(o, ok, failed); ThenFlat(f, ok, failed);
    case Schedule(_, _, o, f) => ThenFlat(o, ok, failed); ThenFlat(f, ok, failed);
  }

  /** Units of work nested to any depth write and end as one flat transaction
      does, so nesting keeps atomicity. */
  lemma {:induction false} NestingIsInline(reg: Registry, b: Body, tx: Tx)
    ensures Execute(reg, Inline(b), tx) == Execute(reg, b, tx)
    ensures Flat(Inline(b))
    decreases b
  {
    match b
    case Return(_) =>
    case Raise(_) =>
    case Exec(_, _, ok, failed) =>
      var tx' := Step(reg, b, tx).0;
      NestingIsInline(reg, ok, tx');
      NestingIsInline(reg, failed, tx');
      assert Step(reg, Inline(b), tx) == Step(reg, b, tx);
    case Schedule(_, _, ok, failed) =>
      var tx' := Step(reg, b, tx).0;
      NestingIsInline(reg, ok, tx');
      NestingIsInline(reg, failed, tx');
      assert Step(reg, Inline(b), tx) == Step(reg, b, tx);
    case Joined(inner, ok, failed) =>
      NestingIsInline(reg, inner, tx);
      var tx' := Execute(reg, inner, tx).0;
      NestingIsInline(reg, ok, tx');
      NestingIsInline(reg, failed, tx');
      ThenRuns(reg, Inline(inner), Inline(ok), Inline(failed), tx);
      ThenFlat(Inline(inner), Inline(ok), Inline(failed));
  }
}
