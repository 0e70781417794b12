/** The leased queue as a protocol over one table: every interleaving of the
    statements of any number of consumers, producers and cleaners.

    A run is its log. The table is what the log replays to, and an entry is
    legal when the code can produce it there: a mark or a release may come from
    any task ever handed out, however long ago, so stale, repeated and late
    statements are all runs. */
module QueueProtocol {
  import opened Common
  import opened Errors
  import opened TaskTable

  /** The settings of the workers of a queue, defaults applied: the timeout of a
      task, the delay after a failed attempt, and when the attempts are spent. */
  datatype Config = Config(timeout: Duration, next: int -> Duration, exhausted: int -> bool)
  {
    function Lease(): Duration {
      3 * timeout + 10 * SECOND
    }
  }

  type Fleet = string -> Config

  const DEAD_RETENTION: Duration := 7 * DAY

  datatype Entry =
    | Inserted(id: TaskId, row: Row)
    | Claimed(queue: string, now: Time, leaseId: LeaseId, batch: seq<Leased>)
    | Handled(t: Leased, outcome: Option<Error>)
    | MarkedDone(t: Leased, held: bool)
    | MarkedFailed(t: Leased, error: Error, now: Time, held: bool)
    | Released(tasks: seq<Leased>)
    | Cleaned(queue: string, now: Time)

  type Log = seq<Entry>

  /** consumer.MarkFailed: whether a failure kills the task. */
  predicate Dies(fleet: Fleet, t: Leased, error: Error) {
    IsPermanent(error) || fleet(t.queue).exhausted(t.attempts + 1)
  }

  /** consumer.MarkFailed: when a failed task is due again, counted from the
      start of the failed attempt. */
  function DueAgain(fleet: Fleet, t: Leased, now: Time): Time {
    now + fleet(t.queue).next(t.attempts + 1)
  }

  function Apply(fleet: Fleet, rows: Rows, e: Entry): Rows {
    match e
    case Inserted(id, row) => rows[id := row]
    case Claimed(_, now, leaseId, batch) => AfterClaim(rows, Ids(batch), TaskTable.Lease(leaseId, now))
    case Handled(_, _) => rows
    case MarkedDone(t, _) => AfterDone(rows, t)
    case MarkedFailed(t, error, now, _) =>
      AfterFailed(rows, t, Text(error), Dies(fleet, t, error), now, DueAgain(fleet, t, now))
    case Released(tasks) => if tasks == [] then rows else AfterRelease(rows, Ids(tasks), tasks[0].leaseId)
    case Cleaned(queue, now) => rows - DeadBefore(rows, queue, now - DEAD_RETENTION)
  }

  function Replay(fleet: Fleet, log: Log): Rows {
    if log == [] then map[] else Apply(fleet, Replay(fleet, Init(log)), Last(log))
  }

  function Init(log: Log): Log
    requires log != []
  {
    log[..|log| - 1]
  }

  function Last(log: Log): Entry
    requires log != []
  {
    log[|log| - 1]
  }

  // ----- what the log says happened -----

  function InsertedIds(log: Log): set<TaskId> {
    if log == [] then {} else
      InsertedIds(Init(log)) + match Last(log) case Inserted(id, _) => {id} case _ => {}
  }

  function LeaseIds(log: Log): set<LeaseId> {
    if log == [] then {} else
      LeaseIds(Init(log)) + match Last(log) case Claimed(_, _, leaseId, _) => {leaseId} case _ => {}
  }

  function HandedOut(log: Log): set<Leased> {
    if log == [] then {} else
      HandedOut(Init(log)) + match Last(log) case Claimed(_, _, _, batch) => (set t | t in batch) case _ => {}
  }

  /** The tasks removed by a done mark that matched. */
  function DoneIds(log: Log): set<TaskId> {
    if log == [] then {} else
      DoneIds(Init(log)) + match Last(log) case MarkedDone(t, true) => {t.id} case _ => {}
  }

  /** The tasks removed by a cleaner. */
  function CleanedIds(fleet: Fleet, log: Log): set<TaskId> {
    if log == [] then {} else
      CleanedIds(fleet, Init(log)) +
      match Last(log)
      case Cleaned(queue, now) => DeadBefore(Replay(fleet, Init(log)), queue, now - DEAD_RETENTION)
      case _ => {}
  }

  /** The failed marks of a task that took effect. */
  function FailedMarks(log: Log, id: TaskId): nat {
    if log == [] then 0 else
      FailedMarks(Init(log), id) +
      match Last(log)
      case MarkedFailed(t, _, _, true) => (if t.id == id then 1 else 0)
      case _ => 0
  }

  /** The marks under one lease of a task that took effect. */
  function EffectiveMarks(log: Log, id: TaskId, leaseId: LeaseId): nat {
    if log == [] then 0 else
      EffectiveMarks(Init(log), id, leaseId) +
      match Last(log)
      case MarkedDone(t, true) => (if t.id == id && t.leaseId == leaseId then 1 else 0)
      case MarkedFailed(t, _, _, true) => (if t.id == id && t.leaseId == leaseId then 1 else 0)
      case _ => 0
  }

  // ----- runs -----

  ghost predicate Legal(fleet: Fleet, log: Log, e: Entry) {
    var rows := Replay(fleet, log);
    match e
    case Inserted(id, row) =>
      && id !in InsertedIds(log)
      && row.attempts == 0 && row.lease.None? && row.doneAt.None?
      && (row.key.Some? ==> !KeyTaken(rows, row.queue, row.key.value))
    case Claimed(queue, now, leaseId, batch) =>
      leaseId !in LeaseIds(log) && IsClaim(rows, queue, now, fleet(queue).Lease(), leaseId, batch)
    case Handled(t, _) => t in HandedOut(log)
    case MarkedDone(t, held) =>
      t in HandedOut(log) && Handled(t, None) in log && held == Held(rows, t.id, t.leaseId)
    case MarkedFailed(t, error, _, held) =>
      t in HandedOut(log) && Handled(t, Some(error)) in log && held == Held(rows, t.id, t.leaseId)
    case Released(tasks) =>
      tasks != [] && forall t <- tasks :: t in HandedOut(log) && t.leaseId == tasks[0].leaseId
    case Cleaned(_, _) => true
  }

  ghost predicate Valid(fleet: Fleet, log: Log) {
    log == [] || (Valid(fleet, Init(log)) && Legal(fleet, Init(log), Last(log)))
  }

  /** Every prefix of a run is a run, and its next entry is legal there. */
  lemma {:induction false} PrefixIsRun(fleet: Fleet, log: Log, k: nat)
    requires Valid(fleet, log) && k <= |log|
    ensures Valid(fleet, log[..k])
    ensures k < |log| ==> Legal(fleet, log[..k], log[k])
  {
    if k == |log| {
      assert log[..k] == log;
    } else {
      assert Init(log)[..k] == log[..k];
      if k == |log| - 1 {
        assert log[..k] == Init(log);
      } else {
        PrefixIsRun(fleet, Init(log), k);
      }
    }
  }

  // ----- fencing -----

  /** A task that is leased is alive, its lease was once issued, and what its
      holder was handed is still what the table says. */
  ghost predicate Fenced(fleet: Fleet, log: Log) {
    var rows := Replay(fleet, log);
    && rows.Keys <= InsertedIds(log)
    && (forall id <- rows | rows[id].lease.Some? :: rows[id].doneAt.None? && rows[id].lease.value.id in LeaseIds(log))
    && (forall t <- HandedOut(log) :: t.leaseId in LeaseIds(log) && t.id in InsertedIds(log))
    && (forall t <- HandedOut(log) | Held(rows, t.id, t.leaseId) :: t == ToLeased(t.id, rows[t.id], t.leaseId))
  }

  lemma {:induction false} AlwaysFenced(fleet: Fleet, log: Log)
    requires Valid(fleet, log)
    ensures Fenced(fleet, log)
  {
    if log != [] {
      AlwaysFenced(fleet, Init(log));
      if Last(log).Claimed? {
        ClaimKeepsFence(fleet, log);
      } else if Last(log).MarkedDone? || Last(log).MarkedFailed? {
        MarkKeepsFence(fleet, log);
      } else {
        OtherKeepsFence(fleet, log);
      }
    }
  }

  lemma ClaimKeepsFence(fleet: Fleet, log: Log)
    requires log != [] && Valid(fleet, log) && Last(log).Claimed? && Fenced(fleet, Init(log))
    ensures Fenced(fleet, log)
  {
  }

  lemma MarkKeepsFence(fleet: Fleet, log: Log)
    requires log != [] && Valid(fleet, log) && Fenced(fleet, Init(log))
    requires Last(log).MarkedDone? || Last(log).MarkedFailed?
    ensures Fenced(fleet, log)
  {
  }

  lemma OtherKeepsFence(fleet: Fleet, log: Log)
    requires log != [] && Valid(fleet, log) && Fenced(fleet, Init(log))
    requires Last(log).Inserted? || Last(log).Handled? || Last(log).Released? || Last(log).Cleaned?
    ensures Fenced(fleet, log)
  {
  }

  /** A lease once lost is lost for good: from then on every mark and release
      under it leaves the table as it is. */
  lemma {:induction false} LostLeaseStaysLost(fleet: Fleet, log: Log, k: nat, t: Leased)
    requires Valid(fleet, log) && k <= |log|
    requires t in HandedOut(log[..k]) && !Held(Replay(fleet, log[..k]), t.id, t.leaseId)
    ensures t in HandedOut(log) && !Held(Replay(fleet, log), t.id, t.leaseId)
  {
    if k == |log| {
      assert log[..k] == log;
    } else {
      assert Init(log)[..k] == log[..k];
      LostLeaseStaysLost(fleet, Init(log), k, t);
      StaysLostNext(fleet, log, t);
    }
  }

  /** A lease comes to a row only with its own claim. */
  lemma NoLeaseAppears(fleet: Fleet, rows: Rows, e: Entry, id: TaskId, leaseId: LeaseId)
    requires !Held(rows, id, leaseId)
    requires (e.Claimed? ==> e.leaseId != leaseId) && (e.Inserted? ==> e.row.lease.None?)
    ensures !Held(Apply(fleet, rows, e), id, leaseId)
  {
  }

  lemma StaysLostNext(fleet: Fleet, log: Log, t: Leased)
    requires log != [] && Valid(fleet, log)
    requires t in HandedOut(Init(log)) && !Held(Replay(fleet, Init(log)), t.id, t.leaseId)
    ensures t in HandedOut(log) && !Held(Replay(fleet, log), t.id, t.leaseId)
  {
    AlwaysFenced(fleet, Init(log));
    NoLeaseAppears(fleet, Replay(fleet, Init(log)), Last(log), t.id, t.leaseId);
  }

  /** The attempts of a task are exactly its failed marks that took effect,
      although a failed mark writes what its holder was handed, plus one. */
  lemma {:induction false} AttemptsAreExact(fleet: Fleet, log: Log)
    requires Valid(fleet, log)
    ensures forall id <- Replay(fleet, log) :: Replay(fleet, log)[id].attempts == FailedMarks(log, id)
    ensures forall id | id !in InsertedIds(log) :: FailedMarks(log, id) == 0
  {
    if log != [] {
      AttemptsAreExact(fleet, Init(log));
      AlwaysFenced(fleet, Init(log));
    }
  }

  /** A claim counts at most one outcome, and while its lease stands, none. */
  lemma {:induction false} OneMarkPerClaim(fleet: Fleet, log: Log, id: TaskId, leaseId: LeaseId)
    requires Valid(fleet, log)
    ensures EffectiveMarks(log, id, leaseId) <= 1
    ensures Held(Replay(fleet, log), id, leaseId) || leaseId !in LeaseIds(log) ==> EffectiveMarks(log, id, leaseId) == 0
  {
    if log != [] {
      OneMarkPerClaim(fleet, Init(log), id, leaseId);
      AlwaysFenced(fleet, Init(log));
    }
  }

  // ----- conservation -----

  /** A task that was inserted is in the table, was removed as done, or was
      removed by a cleaner; and only one of these. */
  lemma {:induction false} Conservation(fleet: Fleet, log: Log)
    requires Valid(fleet, log)
    ensures InsertedIds(log) == Replay(fleet, log).Keys + DoneIds(log) + CleanedIds(fleet, log)
    ensures Replay(fleet, log).Keys !! DoneIds(log) !! CleanedIds(fleet, log)
  {
    if log != [] {
      Conservation(fleet, Init(log));
      KeysAfter(fleet, Init(log), Last(log));
    }
  }

  /** The tasks of the table change only by an insert, a done mark that
      matches, and a cleaner. */
  lemma KeysAfter(fleet: Fleet, log: Log, e: Entry)
    requires Legal(fleet, log, e)
    ensures
      var rows := Replay(fleet, log);
      Apply(fleet, rows, e).Keys ==
      match e
      case Inserted(id, _) => rows.Keys + {id}
      case MarkedDone(t, true) => rows.Keys - {t.id}
      case Cleaned(queue, now) => rows.Keys - DeadBefore(rows, queue, now - DEAD_RETENTION)
      case _ => rows.Keys
  {
  }

  /** A (queue, key) pair names at most one task of the table. */
  lemma {:induction false} KeysStayUnique(fleet: Fleet, log: Log)
    requires Valid(fleet, log)
    ensures UniqueKeys(Replay(fleet, log))
  {
    if log != [] {
      KeysStayUnique(fleet, Init(log));
      AlwaysFenced(fleet, Init(log));
      var rows, rows' := Replay(fleet, Init(log)), Replay(fleet, log);
      if Last(log).Inserted? {
        var id := Last(log).id;
        assert forall x <- rows' | x != id :: rows'[x] == rows[x];
      } else {
        KeysAreKept(fleet, Init(log), Last(log));
      }
    }
  }

  lemma KeysAreKept(fleet: Fleet, log: Log, e: Entry)
    requires Legal(fleet, log, e) && !e.Inserted?
    ensures
      var rows, rows' := Replay(fleet, log), Apply(fleet, Replay(fleet, log), e);
      forall id <- rows' :: id in rows && rows'[id].queue == rows[id].queue && rows'[id].key == rows[id].key
  {
  }

  ghost predicate Waiting(rows: Rows, id: TaskId) {
    id in rows && rows[id].lease.None? && rows[id].doneAt.None?
  }

  ghost predicate Leasing(rows: Rows, id: TaskId) {
    id in rows && rows[id].lease.Some?
  }

  ghost predicate Dead(rows: Rows, id: TaskId) {
    id in rows && rows[id].doneAt.Some?
  }

  ghost function One(b: bool): nat {
    if b then 1 else 0
  }

  /** In every reachable state an inserted task is exactly one of waiting,
      leased, dead, done or cleaned, and a task never inserted is none. */
  lemma ExactlyOnePlace(fleet: Fleet, log: Log, id: TaskId)
    requires Valid(fleet, log)
    ensures
      var rows := Replay(fleet, log);
      One(Waiting(rows, id)) + One(Leasing(rows, id)) + One(Dead(rows, id))
      + One(id in DoneIds(log)) + One(id in CleanedIds(fleet, log)) == One(id in InsertedIds(log))
  {
    AlwaysFenced(fleet, log);
    Conservation(fleet, log);
  }

  /** The k-th entry of the log killed the task at `at`. */
  ghost predicate DeathAt(fleet: Fleet, log: Log, k: int, id: TaskId, at: Time) {
    && 0 <= k < |log|
    && log[k].MarkedFailed? && log[k].held && log[k].t.id == id && log[k].now == at
    && Dies(fleet, log[k].t, log[k].error)
  }

  /** A dead task died by a failed mark that took effect, at that instant. */
  lemma {:induction false} DeadByMark(fleet: Fleet, log: Log, id: TaskId)
    requires Valid(fleet, log) && Dead(Replay(fleet, log), id)
    ensures exists k :: DeathAt(fleet, log, k, id, Replay(fleet, log)[id].doneAt.value)
  {
    var init, at := Init(log), Replay(fleet, log)[id].doneAt.value;
    var before := Replay(fleet, init);
    if Dead(before, id) && before[id].doneAt.value == at {
      DeadByMark(fleet, init, id);
      var k :| DeathAt(fleet, init, k, id, at);
      assert DeathAt(fleet, log, k, id, at);
    } else {
      AlwaysFenced(fleet, init);
      assert DeathAt(fleet, log, |log| - 1, id, at);
    }
  }

  lemma ReplayNext(fleet: Fleet, log: Log, k: nat)
    requires k < |log|
    ensures Replay(fleet, log[..k + 1]) == Apply(fleet, Replay(fleet, log[..k]), log[k])
  {
    assert Init(log[..k + 1]) == log[..k];
  }

  /** In every run a release frees the tasks given that are still under the lease of
      the first, with no attempt counted, and changes no other row. */
  lemma ReleaseFrees(fleet: Fleet, log: Log, k: nat, id: TaskId)
    requires k < |log| && log[k].Released? && id in Replay(fleet, log[..k])
    ensures id in Replay(fleet, log[..k + 1])
    ensures
      var tasks, row, row' := log[k].tasks, Replay(fleet, log[..k])[id], Replay(fleet, log[..k + 1])[id];
      if id in Ids(tasks) && row.lease.Some? && row.lease.value.id == tasks[0].leaseId
      then row'.lease.None? && row' == row.(lease := None)
      else row' == row
  {
    ReplayNext(fleet, log, k);
  }

  /** A task leaves the table in one of two ways: by a done mark under the lease
      it is then under, after its handler returned nil; or by a cleaner that
      runs more than 7 days after the failed mark that killed it. */
  lemma LeavesDoneOrDead(fleet: Fleet, log: Log, k: nat, id: TaskId)
    requires Valid(fleet, log) && k < |log|
    requires id in Replay(fleet, log[..k]) && id !in Replay(fleet, log[..k + 1])
    ensures
      var rows := Replay(fleet, log[..k]);
      || (&& log[k].MarkedDone? && log[k].t.id == id && Held(rows, id, log[k].t.leaseId)
          && log[k].t == ToLeased(id, rows[id], log[k].t.leaseId)
          && Handled(log[k].t, None) in log[..k])
      || (&& log[k].Cleaned?
          && exists j, died :: DeathAt(fleet, log, j, id, died) && j < k && log[k].now - died > DEAD_RETENTION)
  {
    PrefixIsRun(fleet, log, k);
    ReplayNext(fleet, log, k);
    var rows := Replay(fleet, log[..k]);
    if log[k].MarkedDone? {
      AlwaysFenced(fleet, log[..k]);
    } else {
      assert log[k].Cleaned?;
      DeadByMark(fleet, log[..k], id);
      var j :| DeathAt(fleet, log[..k], j, id, rows[id].doneAt.value);
      assert DeathAt(fleet, log, j, id, rows[id].doneAt.value) && j < k;
    }
  }

  /** After a mark that killed it, a task is out of every later claim. */
  lemma {:induction false} StaysDead(fleet: Fleet, log: Log, i: nat, id: TaskId, died: Time)
    requires Valid(fleet, log) && DeathAt(fleet, log, i, id, died)
    ensures Dead(Replay(fleet, log), id) || id !in Replay(fleet, log)
    ensures id in InsertedIds(log)
  {
    var init := Init(log);
    AlwaysFenced(fleet, init);
    if i < |log| - 1 {
      assert DeathAt(fleet, init, i, id, died);
      StaysDead(fleet, init, i, id, died);
    }
  }

  lemma DeadIsNeverClaimed(fleet: Fleet, log: Log, i: nat, j: nat, id: TaskId, died: Time)
    requires Valid(fleet, log) && i < j < |log|
    requires DeathAt(fleet, log, i, id, died) && log[j].Claimed?
    ensures id !in Ids(log[j].batch)
  {
    PrefixIsRun(fleet, log, j);
    assert DeathAt(fleet, log[..j], i, id, died);
    StaysDead(fleet, log[..j], i, id, died);
  }

  // ----- when a task is due -----

  /** When a task is due by the log: at the time its insert gave it, or the one
      the last failed mark that took effect and did not kill it gave it. */
  function DueOf(fleet: Fleet, log: Log, id: TaskId): Time {
    if log == [] then 0 else
      match Last(log)
      case Inserted(i, row) => if i == id then row.runAt else DueOf(fleet, Init(log), id)
      case MarkedFailed(t, error, now, held) =>
        if t.id == id && held && !Dies(fleet, t, error)
        then now + fleet(t.queue).next(t.attempts + 1) else DueOf(fleet, Init(log), id)
      case _ => DueOf(fleet, Init(log), id)
  }

  lemma {:induction false} DueIsExact(fleet: Fleet, log: Log, id: TaskId)
    requires Valid(fleet, log) && id in Replay(fleet, log)
    ensures Replay(fleet, log)[id].runAt == DueOf(fleet, log, id)
  {
    if !(Last(log).Inserted? && Last(log).id == id) {
      DueIsExact(fleet, Init(log), id);
    }
  }

  /** In every run no claim hands out a task before it is due. */
  lemma ClaimedWhenDue(fleet: Fleet, log: Log, m: nat, id: TaskId)
    requires Valid(fleet, log) && m < |log| && log[m].Claimed? && id in Ids(log[m].batch)
    ensures DueOf(fleet, log[..m], id) <= log[m].now
  {
    PrefixIsRun(fleet, log, m);
    DueIsExact(fleet, log[..m], id);
  }

  /** A failed mark of the task that took effect. */
  predicate FailsTask(e: Entry, id: TaskId) {
    e.MarkedFailed? && e.held && e.t.id == id
  }

  ghost predicate NoFailureBetween(log: Log, k: nat, m: nat, id: TaskId)
    requires m <= |log|
  {
    forall i | k < i < m :: !FailsTask(log[i], id)
  }

  lemma {:induction false} DueStays(fleet: Fleet, log: Log, k: nat, m: nat, id: TaskId)
    requires Valid(fleet, log) && k < m <= |log| && NoFailureBetween(log, k, m, id)
    requires id in InsertedIds(log[..k + 1])
    ensures DueOf(fleet, log[..m], id) == DueOf(fleet, log[..k + 1], id)
    ensures id in InsertedIds(log[..m])
    decreases m
  {
    if k + 1 < m {
      DueStays(fleet, log, k, m - 1, id);
      DueNext(fleet, log, m - 1, id);
    }
  }

  lemma EntryAt(log: Log, k: nat)
    requires k < |log|
    ensures Init(log[..k + 1]) == log[..k] && Last(log[..k + 1]) == log[k]
  {
  }

  lemma HeldIsInserted(fleet: Fleet, log: Log, id: TaskId)
    requires Valid(fleet, log) && id in Replay(fleet, log)
    ensures id in InsertedIds(log)
  {
    Conservation(fleet, log);
  }

  lemma MarkedIsInserted(fleet: Fleet, log: Log, k: nat, id: TaskId)
    requires Valid(fleet, log) && k < |log| && FailsTask(log[k], id)
    ensures id in InsertedIds(log[..k])
  {
    PrefixIsRun(fleet, log, k);
    HeldIsInserted(fleet, log[..k], id);
  }

  /** In every run a task that failed and lives is handed out again no sooner than
      its backoff after the start of the failed attempt. */
  lemma BackoffIsWaited(fleet: Fleet, log: Log, k: nat, m: nat, id: TaskId)
    requires Valid(fleet, log) && k < m < |log| && FailsTask(log[k], id) && !Dies(fleet, log[k].t, log[k].error)
    requires log[m].Claimed? && id in Ids(log[m].batch) && NoFailureBetween(log, k, m, id)
    ensures log[m].now >= log[k].now + fleet(log[k].t.queue).next(log[k].t.attempts + 1)
  {
    MarkedIsInserted(fleet, log, k, id);
    DueNext(fleet, log, k, id);
    DueStays(fleet, log, k, m, id);
    ClaimedWhenDue(fleet, log, m, id);
  }

  /** Nor is a task that has not failed handed out before the time of its
      insert. */
  lemma DelayIsWaited(fleet: Fleet, log: Log, k: nat, m: nat)
    requires Valid(fleet, log) && k < m < |log| && log[k].Inserted?
    requires log[m].Claimed? && log[k].id in Ids(log[m].batch) && NoFailureBetween(log, k, m, log[k].id)
    ensures log[m].now >= log[k].row.runAt
  {
    DueAtInsert(fleet, log, k);
    DueStays(fleet, log, k, m, log[k].id);
    ClaimedWhenDue(fleet, log, m, log[k].id);
  }

  /** The consumers of a claim read their clock no earlier than it did, and no
      backoff goes back in time. */
  ghost predicate ClocksGoOn(fleet: Fleet, log: Log) {
    && (forall i, j | 0 <= i < j < |log| && log[i].Claimed? && log[j].MarkedFailed? && log[j].t in log[i].batch ::
          log[i].now <= log[j].now)
    && (forall j | 0 <= j < |log| && log[j].MarkedFailed? :: fleet(log[j].t.queue).next(log[j].t.attempts + 1) >= 0)
  }

  lemma {:induction false} HandedOutBy(log: Log, t: Leased) returns (i: nat)
    requires t in HandedOut(log)
    ensures i < |log| && log[i].Claimed? && t in log[i].batch
  {
    if t in HandedOut(Init(log)) {
      i := HandedOutBy(Init(log), t);
    } else {
      i := |log| - 1;
    }
  }

  /** What one more entry does to the due time of a task that was inserted. */
  lemma DueNext(fleet: Fleet, log: Log, j: nat, id: TaskId)
    requires Valid(fleet, log) && j < |log| && id in InsertedIds(log[..j])
    ensures id in InsertedIds(log[..j + 1])
    ensures DueOf(fleet, log[..j + 1], id) ==
            if FailsTask(log[j], id) && !Dies(fleet, log[j].t, log[j].error)
            then log[j].now + fleet(log[j].t.queue).next(log[j].t.attempts + 1) else DueOf(fleet, log[..j], id)
  {
    EntryAt(log, j);
    PrefixIsRun(fleet, log, j);
  }

  lemma DueAtInsert(fleet: Fleet, log: Log, k: nat)
    requires Valid(fleet, log) && k < |log| && log[k].Inserted?
    ensures DueOf(fleet, log[..k + 1], log[k].id) == log[k].row.runAt && log[k].id in InsertedIds(log[..k + 1])
  {
    EntryAt(log, k);
  }

  lemma {:induction false} DueAfterInsert(fleet: Fleet, log: Log, k: nat, m: nat)
    requires Valid(fleet, log) && ClocksGoOn(fleet, log) && k < m <= |log| && log[k].Inserted?
    ensures DueOf(fleet, log[..m], log[k].id) >= log[k].row.runAt
    ensures log[k].id in InsertedIds(log[..m])
    decreases m
  {
    if m == k + 1 {
      DueAtInsert(fleet, log, k);
    } else {
      var j := m - 1;
      DueAfterInsert(fleet, log, k, j);
      DueNext(fleet, log, j, log[k].id);
      if FailsTask(log[j], log[k].id) {
        var i := ClaimOf(fleet, log, j);
        HandedOutAfterInsert(fleet, log, k, i, log[k].id);
        DueAfterInsert(fleet, log, k, i);
        ClaimedWhenDue(fleet, log, i, log[k].id);
      }
    }
  }

  /** The claim that handed out the task of a mark. */
  lemma ClaimOf(fleet: Fleet, log: Log, j: nat) returns (i: nat)
    requires Valid(fleet, log) && j < |log| && log[j].MarkedFailed?
    ensures i < j && log[i].Claimed? && log[j].t in log[i].batch && log[j].t.id in Ids(log[i].batch)
  {
    PrefixIsRun(fleet, log, j);
    i := HandedOutBy(log[..j], log[j].t);
    assert log[i] == log[..j][i];
  }

  lemma HandedOutAfterInsert(fleet: Fleet, log: Log, k: nat, i: nat, id: TaskId)
    requires Valid(fleet, log) && k < |log| && i < |log| && log[k].Inserted? && log[k].id == id
    requires log[i].Claimed? && id in Ids(log[i].batch)
    ensures k < i
  {
    if i < k {
      ClaimedIsInserted(fleet, log, i, id);
      assert log[..k][..i] == log[..i];
      InsertedStays(log[..k], i, id);
      PrefixIsRun(fleet, log, k);
    }
  }

  lemma ClaimedIsInserted(fleet: Fleet, log: Log, i: nat, id: TaskId)
    requires Valid(fleet, log) && i < |log| && log[i].Claimed? && id in Ids(log[i].batch)
    ensures id in InsertedIds(log[..i])
  {
    PrefixIsRun(fleet, log, i);
    HeldIsInserted(fleet, log[..i], id);
  }

  lemma {:induction false} InsertedStays(log: Log, k: nat, id: TaskId)
    requires k <= |log| && id in InsertedIds(log[..k])
    ensures id in InsertedIds(log)
    decreases |log|
  {
    if k == |log| {
      assert log[..k] == log;
    } else {
      assert Init(log)[..k] == log[..k];
      InsertedStays(Init(log), k, id);
    }
  }

  /** With clocks that go on, no claim of any run hands out a task before the time
      its insert gave it, however often it failed since. */
  lemma NeverBeforeItsTime(fleet: Fleet, log: Log, k: nat, m: nat)
    requires Valid(fleet, log) && ClocksGoOn(fleet, log) && k < m < |log| && log[k].Inserted?
    requires log[m].Claimed? && log[k].id in Ids(log[m].batch)
    ensures log[m].now >= log[k].row.runAt
  {
    DueAfterInsert(fleet, log, k, m);
    ClaimedWhenDue(fleet, log, m, log[k].id);
  }
}
