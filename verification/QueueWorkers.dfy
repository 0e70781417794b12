/** queue/workers.go: the settings of the workers of a queue, and one batch of
    theirs on the table. */
module QueueWorkers {
  import opened Common
  import opened Errors
  import opened Backoffs
  import opened TaskTable
  import opened QueueProtocol
  import P = Processor

  /** queue.Config as the service writes it; a zero field takes its default. */
  datatype Settings = Settings(queue: string, concurrency: int, batch: int, timeout: Duration, poll: Duration)

  function Or(x: int, default: int): int {
    if x != 0 then x else default
  }

  function WithDefaults(c: Settings): Settings {
    Settings(c.queue, Or(c.concurrency, 1), Or(c.batch, 1), Or(c.timeout, 30 * SECOND), Or(c.poll, SECOND))
  }

  /** newOptions: the backoff of the workers, from what WithBackoff set. */
  function BackoffOf(b: Backoff): Backoff {
    b.(base := Or(b.base, 2 * SECOND),
       factor := if b.factor != 0.0 then b.factor else 2.0,
       max := Or(b.max, 5 * MINUTE))
  }

  const NO_BACKOFF := Backoff(0, 0, 0.0, 0, 0.0)

  function ConfigOf(c: Settings, b: Backoff): QueueProtocol.Config {
    QueueProtocol.Config(WithDefaults(c).timeout, n => BackoffOf(b).Next(n), n => BackoffOf(b).Exhausted(n))
  }

  /** newProcessor. */
  function ProcessorOf(c: Settings): P.Config {
    P.Config(WithDefaults(c).batch, WithDefaults(c).timeout, true)
  }

  /** A zero field takes its default and any other is kept: one worker, one task a
      batch, 30s a task, a poll a second; and a backoff of 2s doubling to 5 minutes
      that never gives up. */
  lemma DefaultWorkers(c: Settings, b: Backoff)
    ensures
      var d := WithDefaults(c);
      && d.queue == c.queue
      && (if c.concurrency == 0 then d.concurrency == 1 else d.concurrency == c.concurrency)
      && (if c.batch == 0 then d.batch == 1 else d.batch == c.batch)
      && (if c.timeout == 0 then d.timeout == 30 * SECOND else d.timeout == c.timeout)
      && (if c.poll == 0 then d.poll == SECOND else d.poll == c.poll)
    ensures
      var d := BackoffOf(b);
      && (if b.base == 0 then d.base == 2 * SECOND else d.base == b.base)
      && (if b.factor == 0.0 then d.factor == 2.0 else d.factor == b.factor)
      && (if b.max == 0 then d.max == 5 * MINUTE else d.max == b.max)
      && d.maxAttempts == b.maxAttempts && d.jitter == b.jitter
    ensures BackoffOf(NO_BACKOFF) == QUEUE_BACKOFF
  {
  }

  /** The settings at work: a task has Timeout, its batch has no longer to start one,
      its lease is 3 x Timeout + 10s, and the delays and the budget are those of the
      backoff. */
  lemma WorkersRunBy(c: Settings, b: Backoff, n: int)
    ensures
      var timeout, cfg := if c.timeout == 0 then 30 * SECOND else c.timeout, ConfigOf(c, b);
      && cfg.timeout == timeout && cfg.Lease() == 3 * timeout + 10 * SECOND
      && cfg.next(n) == BackoffOf(b).Next(n) && (cfg.exhausted(n) <==> b.maxAttempts > 0 && n >= b.maxAttempts)
      && ProcessorOf(c).batchTimeout == timeout && ProcessorOf(c).releases
    ensures c.batch == 0 ==> ProcessorOf(c).BatchSize() == 1
    ensures c.batch > 0 ==> ProcessorOf(c).BatchSize() == c.batch
    ensures c.batch < 0 ==> ProcessorOf(c).BatchSize() == 100
  {
  }

  // ----- one batch on the table, no one else in between -----

  function AfterCall(fleet: Fleet, rows: Rows, call: P.Action<Leased>): Rows {
    match call
    case Handle(_) => rows
    case MarkDone(t, _) => AfterDone(rows, t)
    case MarkFailed(t, e, terminal, now) =>
      var attempts := t.attempts + 1;
      var cfg := fleet(t.queue);
      AfterFailed(rows, t, Text(e), terminal || cfg.exhausted(attempts), now, now + cfg.next(attempts))
    case Release(rest) => if rest == [] then rows else AfterRelease(rows, Ids(rest), rest[0].leaseId)
  }

  function AfterCalls(fleet: Fleet, rows: Rows, calls: seq<P.Action<Leased>>): Rows {
    if calls == [] then rows else
      AfterCall(fleet, AfterCalls(fleet, rows, calls[..|calls| - 1]), calls[|calls| - 1])
  }

  lemma CallsAppend(fleet: Fleet, rows: Rows, calls: seq<P.Action<Leased>>, call: P.Action<Leased>)
    ensures AfterCalls(fleet, rows, calls + [call]) == AfterCall(fleet, AfterCalls(fleet, rows, calls), call)
  {
    assert (calls + [call])[..|calls|] == calls;
  }

  /** A batch just claimed: each task under the one lease, as it was handed out. */
  ghost predicate JustClaimed(rows: Rows, batch: seq<Leased>, leaseId: LeaseId) {
    && (forall t <- batch :: Held(rows, t.id, leaseId) && t == ToLeased(t.id, rows[t.id], leaseId))
    && Distinct(batch)
  }

  ghost predicate Distinct(batch: seq<Leased>) {
    forall i, j | 0 <= i < j < |batch| :: batch[i].id != batch[j].id
  }

  /** What becomes of the row of a handled task. */
  function Marked(fleet: Fleet, row: Row, t: Leased, outcome: Option<Error>, now: Time): Option<Row> {
    if outcome.None? then None
    else Some(FailedRow(row, t, Text(outcome.value), Dies(fleet, t, outcome.value), now, DueAgain(fleet, t, now)))
  }

  function Get(rows: Rows, id: TaskId): Option<Row> {
    if id in rows then Some(rows[id]) else None
  }

  lemma MarkOnTable(fleet: Fleet, w: P.Script<Leased>, rows: Rows, t: Leased, i: nat)
    requires Held(rows, t.id, t.leaseId)
    ensures
      var rows' := AfterCall(fleet, rows, P.Mark(w, t, i));
      && Get(rows', t.id) == Marked(fleet, rows[t.id], t, P.Outcome(w, t, i), w.began(i))
      && forall id | id != t.id :: Get(rows', id) == Get(rows, id)
  {
  }

  /** What becomes of each task of the batch, if it is handled. */
  ghost function Fates(fleet: Fleet, w: P.Script<Leased>, rows: Rows, batch: seq<Leased>): (fates: seq<Option<Row>>)
    requires forall t <- batch :: t.id in rows
    ensures |fates| == |batch|
    ensures forall i | 0 <= i < |batch| ::
              fates[i] == Marked(fleet, rows[batch[i].id], batch[i], P.Outcome(w, batch[i], i), w.began(i))
  {
    seq(|batch|, i requires 0 <= i < |batch| =>
      assert batch[i] in batch; Marked(fleet, rows[batch[i].id], batch[i], P.Outcome(w, batch[i], i), w.began(i)))
  }

  /** The first k tasks have met their fates, and the table is otherwise as it
      was. */
  ghost predicate Progress(rows: Rows, batch: seq<Leased>, fates: seq<Option<Row>>, k: nat, rows': Rows)
    requires k <= |batch| == |fates|
  {
    && (forall i | 0 <= i < k :: Get(rows', batch[i].id) == fates[i])
    && (forall id | id !in Ids(batch[..k]) :: Get(rows', id) == Get(rows, id))
  }

  /** The table after the first k tasks are handled and marked. */
  function TableAfter(fleet: Fleet, w: P.Script<Leased>, rows: Rows, batch: seq<Leased>, k: nat): Rows
    requires k <= |batch|
    decreases k
  {
    if k == 0 then rows else AfterCall(fleet, TableAfter(fleet, w, rows, batch, k - 1), P.Mark(w, batch[k - 1], k - 1))
  }

  lemma {:induction false} WorkedIsTableAfter(fleet: Fleet, w: P.Script<Leased>, rows: Rows, batch: seq<Leased>, k: nat)
    requires k <= |batch|
    ensures AfterCalls(fleet, rows, P.Worked(w, batch, k)) == TableAfter(fleet, w, rows, batch, k)
    decreases k
  {
    if k > 0 {
      var before := P.Worked(w, batch, k - 1);
      var handle, mark := P.Handle(batch[k - 1]), P.Mark(w, batch[k - 1], k - 1);
      assert P.Worked(w, batch, k) == (before + [handle]) + [mark];
      CallsAppend(fleet, rows, before, handle);
      CallsAppend(fleet, rows, before + [handle], mark);
      WorkedIsTableAfter(fleet, w, rows, batch, k - 1);
    }
  }

  /** A table where one row met its fate and no other changed. */
  ghost predicate Met(rows: Rows, rows': Rows, id: TaskId, fate: Option<Row>) {
    Get(rows', id) == fate && forall other | other != id :: Get(rows', other) == Get(rows, other)
  }

  /** A table for every task handled: each time a task that is as it was claimed
      meets its fate. */
  ghost predicate Meets(rows: Rows, batch: seq<Leased>, fates: seq<Option<Row>>, tables: seq<Rows>) {
    && |batch| == |fates| && 0 < |tables| <= |batch| + 1 && tables[0] == rows
    && forall i | 0 <= i < |tables| - 1 :: MetAt(rows, tables[i], tables[i + 1], batch[i].id, fates[i])
  }

  ghost predicate MetAt(rows: Rows, before: Rows, after: Rows, id: TaskId, fate: Option<Row>) {
    Get(before, id) == Get(rows, id) ==> Met(before, after, id, fate)
  }

  lemma ProgressNext(rows: Rows, batch: seq<Leased>, fates: seq<Option<Row>>, k: nat, rows1: Rows, rows': Rows)
    requires k < |batch| == |fates| && Progress(rows, batch, fates, k, rows1)
    requires Distinct(batch)
    requires MetAt(rows, rows1, rows', batch[k].id, fates[k])
    ensures Progress(rows, batch, fates, k + 1, rows')
  {
    assert batch[k].id !in Ids(batch[..k]);
    assert batch[..k + 1] == batch[..k] + [batch[k]];
    assert Ids(batch[..k + 1]) == Ids(batch[..k]) + {batch[k].id};
  }

  lemma ProgressNone(rows: Rows, batch: seq<Leased>, fates: seq<Option<Row>>)
    requires |batch| == |fates|
    ensures Progress(rows, batch, fates, 0, rows)
  {
  }

  lemma ProgressAt(rows: Rows, batch: seq<Leased>, fates: seq<Option<Row>>, tables: seq<Rows>, k: nat)
    requires Meets(rows, batch, fates, tables) && k < |tables| && Distinct(batch)
    ensures Progress(rows, batch, fates, k, tables[k])
  {
    ProgressNone(rows, batch, fates);
    for i := 0 to k
      invariant Progress(rows, batch, fates, i, tables[i])
    {
      ProgressNext(rows, batch, fates, i, tables[i], tables[i + 1]);
    }
  }

  lemma MarkMeetsFate(fleet: Fleet, w: P.Script<Leased>, rows: Rows, batch: seq<Leased>, leaseId: LeaseId, k: nat,
                      rows1: Rows)
    requires JustClaimed(rows, batch, leaseId) && k < |batch|
    ensures MetAt(rows, rows1, AfterCall(fleet, rows1, P.Mark(w, batch[k], k)), batch[k].id,
                  Fates(fleet, w, rows, batch)[k])
  {
    assert batch[k] in batch;
    if Get(rows1, batch[k].id) == Get(rows, batch[k].id) {
      MarkOnTable(fleet, w, rows1, batch[k], k);
    }
  }

  ghost function Tables(fleet: Fleet, w: P.Script<Leased>, rows: Rows, batch: seq<Leased>, k: nat): (tables: seq<Rows>)
    requires k <= |batch|
    ensures |tables| == k + 1
    ensures forall i | 0 <= i <= k :: tables[i] == TableAfter(fleet, w, rows, batch, i)
  {
    seq(k + 1, i requires 0 <= i <= k => TableAfter(fleet, w, rows, batch, i))
  }

  lemma TablesMeet(fleet: Fleet, w: P.Script<Leased>, rows: Rows, batch: seq<Leased>, leaseId: LeaseId, k: nat,
                   tables: seq<Rows>)
    requires JustClaimed(rows, batch, leaseId) && k <= |batch| && tables == Tables(fleet, w, rows, batch, k)
    ensures Meets(rows, batch, Fates(fleet, w, rows, batch), tables)
  {
    forall i | 0 <= i < k
      ensures MetAt(rows, tables[i], tables[i + 1], batch[i].id, Fates(fleet, w, rows, batch)[i])
    {
      MarkMeetsFate(fleet, w, rows, batch, leaseId, i, tables[i]);
    }
  }

  lemma MarksMeet(fleet: Fleet, w: P.Script<Leased>, rows: Rows, batch: seq<Leased>, leaseId: LeaseId, k: nat)
    requires JustClaimed(rows, batch, leaseId) && k <= |batch|
    ensures Progress(rows, batch, Fates(fleet, w, rows, batch), k, TableAfter(fleet, w, rows, batch, k))
  {
    var tables := Tables(fleet, w, rows, batch, k);
    TablesMeet(fleet, w, rows, batch, leaseId, k, tables);
    ProgressAt(rows, batch, Fates(fleet, w, rows, batch), tables, k);
  }

  /** A tick on the table: a handled task is removed or failed by its outcome, a
      task of the rest is free again and otherwise as it was, and no other task
      changes. */
  ghost predicate Split(rows: Rows, batch: seq<Leased>, fates: seq<Option<Row>>, k: nat, rows': Rows)
    requires k <= |batch| == |fates| && forall t <- batch :: t.id in rows
  {
    && (forall i | 0 <= i < k :: Get(rows', batch[i].id) == fates[i])
    && (forall i | k <= i < |batch| :: Get(rows', batch[i].id) == Some(rows[batch[i].id].(lease := None)))
    && (forall id | id !in Ids(batch) :: Get(rows', id) == Get(rows, id))
  }

  lemma RestOnTable(rows: Rows, batch: seq<Leased>, fates: seq<Option<Row>>, leaseId: LeaseId, k: nat, rows1: Rows)
    requires JustClaimed(rows, batch, leaseId) && k < |batch| == |fates| && Progress(rows, batch, fates, k, rows1)
    ensures Split(rows, batch, fates, k, AfterRelease(rows1, Ids(batch[k..]), leaseId))
  {
    var rest := batch[k..];
    var rows' := AfterRelease(rows1, Ids(rest), leaseId);
    forall i | k <= i < |batch| ensures Get(rows', batch[i].id) == Some(rows[batch[i].id].(lease := None)) {
      assert batch[i] in rest && batch[i] in batch;
      assert Get(rows1, batch[i].id) == Get(rows, batch[i].id);
    }
    forall i | 0 <= i < k ensures Get(rows', batch[i].id) == Get(rows1, batch[i].id) {
      assert batch[i].id !in Ids(rest);
    }
    forall id | id !in Ids(batch) ensures Get(rows', id) == Get(rows, id) {
      assert forall i | 0 <= i < |batch| :: batch[i] in batch;
      assert id !in Ids(rest);
    }
  }

  lemma DrainOnTable(fleet: Fleet, cfg: P.Config, w: P.Script<Leased>, rows: Rows, batch: seq<Leased>, leaseId: LeaseId)
    requires JustClaimed(rows, batch, leaseId) && cfg.releases
    ensures
      var k := P.HandledCount(cfg, w, batch, 0);
      Split(rows, batch, Fates(fleet, w, rows, batch), k,
            AfterCalls(fleet, rows, P.Worked(w, batch, k) + P.HandedBack(cfg, batch[k..])))
  {
    var k := P.HandledCount(cfg, w, batch, 0);
    var fates := Fates(fleet, w, rows, batch);
    MarksMeet(fleet, w, rows, batch, leaseId, k);
    WorkedIsTableAfter(fleet, w, rows, batch, k);
    SplitAt(fleet, cfg, rows, batch, fates, leaseId, k, P.Worked(w, batch, k));
  }

  lemma SplitAt(fleet: Fleet, cfg: P.Config, rows: Rows, batch: seq<Leased>, fates: seq<Option<Row>>, leaseId: LeaseId,
                k: nat, worked: seq<P.Action<Leased>>)
    requires JustClaimed(rows, batch, leaseId) && cfg.releases && k <= |batch| == |fates|
    requires Progress(rows, batch, fates, k, AfterCalls(fleet, rows, worked))
    ensures Split(rows, batch, fates, k, AfterCalls(fleet, rows, worked + P.HandedBack(cfg, batch[k..])))
  {
    var rows1 := AfterCalls(fleet, rows, worked);
    if k < |batch| {
      assert P.HandedBack(cfg, batch[k..]) == [P.Release(batch[k..])];
      CallsAppend(fleet, rows, worked, P.Release(batch[k..]));
      assert AfterCall(fleet, rows1, P.Release(batch[k..])) == AfterRelease(rows1, Ids(batch[k..]), leaseId) by {
        assert batch[k] in batch;
      }
      RestOnTable(rows, batch, fates, leaseId, k, rows1);
    } else {
      assert P.HandedBack(cfg, batch[k..]) == [] && worked + [] == worked;
      assert batch[..k] == batch;
    }
  }

  /** The row of a failed task: an attempt more, free, with the text of the error;
      dead at the start of the attempt when the error is permanent or the attempts
      are spent, and else due a backoff after that start. */
  ghost predicate IsFailed(cfg: QueueProtocol.Config, row: Row, e: Error, began: Time, row': Row) {
    && row'.attempts == row.attempts + 1 && row'.lease.None? && row'.lastError == Some(Text(e))
    && row'.queue == row.queue && row'.kind == row.kind && row'.key == row.key && row'.payload == row.payload
    && if IsPermanent(e) || cfg.exhausted(row.attempts + 1)
       then row'.doneAt == Some(began) && row'.runAt == row.runAt
       else row'.doneAt == row.doneAt && row'.runAt == began + cfg.next(row.attempts + 1)
  }

  /** What the handler of a task did, on its row: a nil outcome removes it, an
      error leaves it failed. */
  ghost predicate RowFollows(cfg: QueueProtocol.Config, row: Row, outcome: Option<Error>, began: Time,
                             after: Option<Row>) {
    if outcome.None? then after.None? else after.Some? && IsFailed(cfg, row, outcome.value, began, after.value)
  }

  lemma FateFollows(fleet: Fleet, row: Row, t: Leased, outcome: Option<Error>, began: Time)
    requires t.attempts == row.attempts && t.queue == row.queue
    ensures RowFollows(fleet(row.queue), row, outcome, began, Marked(fleet, row, t, outcome, began))
  {
  }

  lemma ClaimedRow(rows: Rows, batch: seq<Leased>, leaseId: LeaseId, i: nat)
    requires JustClaimed(rows, batch, leaseId) && i < |batch|
    ensures
      var t := batch[i];
      t in batch && t.id in rows && t.attempts == rows[t.id].attempts && t.queue == rows[t.id].queue
  {
    assert batch[i] in batch;
  }

  /** On the table a handled task goes by what its handler did: a panic by what
      OnPanic makes of it, so a task whose OnPanic gives an error is still there,
      with an attempt more; any other error by itself. */
  lemma HandledRow(fleet: Fleet, cfg: P.Config, w: P.Script<Leased>, rows: Rows, batch: seq<Leased>, leaseId: LeaseId,
                   i: nat)
    requires JustClaimed(rows, batch, leaseId) && cfg.releases && i < P.HandledCount(cfg, w, batch, 0)
    ensures batch[i].id in rows
    ensures
      var k := P.HandledCount(cfg, w, batch, 0);
      var rows' := AfterCalls(fleet, rows, P.Worked(w, batch, k) + P.HandedBack(cfg, batch[k..]));
      var row, after := rows[batch[i].id], Get(rows', batch[i].id);
      var settings := fleet(row.queue);
      match w.results(i)
      case Panicked(reason) => RowFollows(settings, row, w.onPanic(batch[i], Panic(reason)), w.began(i), after)
      case Returned(None) => after.None?
      case Returned(Some(e)) =>
        if P.NoPanicIn(e) then RowFollows(settings, row, Some(e), w.began(i), after)
        else exists p <- Chain(e) :: p.Panic? && RowFollows(settings, row, w.onPanic(batch[i], p), w.began(i), after)
  {
    var row := rows[batch[i].id];
    ClaimedRow(rows, batch, leaseId, i);
    DrainOnTable(fleet, cfg, w, rows, batch, leaseId);
    FateFollows(fleet, row, batch[i], P.Outcome(w, batch[i], i), w.began(i));
    OutcomeOfResult(w, batch[i], i);
  }

  lemma OutcomeOfResult(w: P.Script<Leased>, t: Leased, i: nat)
    ensures
      match w.results(i)
      case Panicked(reason) => P.Outcome(w, t, i) == w.onPanic(t, Panic(reason))
      case Returned(None) => P.Outcome(w, t, i) == None
      case Returned(Some(e)) =>
        if P.NoPanicIn(e) then P.Outcome(w, t, i) == Some(e)
        else exists p <- Chain(e) :: p.Panic? && P.Outcome(w, t, i) == w.onPanic(t, p)
  {
    if w.results(i).Panicked? {
      var p := Panic(w.results(i).reason);
      assert Chain(p) == {p};
    } else if w.results(i).err.Some? && !P.NoPanicIn(w.results(i).err.value) {
      var p := PanicOf(w.results(i).err).value;
      assert p in Chain(w.results(i).err.value);
    }
  }

  /** A batch whose handlers all halt counts an attempt of one task, the first,
      however long the batch: the rest keeps its attempts and its place. */
  lemma AllHaltCountsOne(fleet: Fleet, cfg: P.Config, w: P.Script<Leased>, rows: Rows, batch: seq<Leased>,
                         leaseId: LeaseId)
    requires JustClaimed(rows, batch, leaseId) && cfg.releases && batch != []
    requires !P.Expired(cfg, w, 0)
    requires forall i | 0 <= i < |batch| :: P.Stops(P.Outcome(w, batch[i], i))
    ensures
      var k := P.HandledCount(cfg, w, batch, 0);
      var rows' := AfterCalls(fleet, rows, P.Worked(w, batch, k) + P.HandedBack(cfg, batch[k..]));
      && rows'.Keys == rows.Keys
      && (forall id <- rows :: rows'[id].attempts == rows[id].attempts + if id == batch[0].id then 1 else 0)
      && (forall id <- rows | id != batch[0].id ::
            rows'[id].runAt == rows[id].runAt && rows'[id].doneAt == rows[id].doneAt)
  {
    var k := P.HandledCount(cfg, w, batch, 0);
    assert k == 1;
    DrainOnTable(fleet, cfg, w, rows, batch, leaseId);
    assert P.Outcome(w, batch[0], 0).Some?;
    FirstCounts(fleet, w, rows, batch, AfterCalls(fleet, rows, P.Worked(w, batch, k) + P.HandedBack(cfg, batch[k..])));
  }

  lemma FirstCounts(fleet: Fleet, w: P.Script<Leased>, rows: Rows, batch: seq<Leased>, rows': Rows)
    requires batch != [] && (forall t <- batch :: t.id in rows && t.attempts == rows[t.id].attempts)
    requires Split(rows, batch, Fates(fleet, w, rows, batch), 1, rows') && P.Outcome(w, batch[0], 0).Some?
    ensures rows'.Keys == rows.Keys
    ensures forall id <- rows :: rows'[id].attempts == rows[id].attempts + if id == batch[0].id then 1 else 0
    ensures forall id <- rows | id != batch[0].id ::
              rows'[id].runAt == rows[id].runAt && rows'[id].doneAt == rows[id].doneAt
  {
    assert batch[0] in batch;
    forall id
      ensures id in rows' <==> id in rows
      ensures id in rows ==> rows'[id].attempts == rows[id].attempts + if id == batch[0].id then 1 else 0
      ensures id in rows && id != batch[0].id ==>
                rows'[id].runAt == rows[id].runAt && rows'[id].doneAt == rows[id].doneAt
    {
      if id in Ids(batch) {
        var i :| 0 <= i < |batch| && batch[i].id == id;
        assert Get(rows', id).Some? && batch[i] in batch;
      } else {
        assert Get(rows', id) == Get(rows, id);
      }
    }
  }

  // ----- the budget of attempts over runs -----

  /** Every queue of the fleet that is this one runs with this budget. */
  ghost predicate Budgeted(fleet: Fleet, queue: string, c: Settings, b: Backoff) {
    fleet(queue) == ConfigOf(c, b) && b.maxAttempts > 0
  }

  ghost predicate WithinBudget(rows: Rows, queue: string, m: int) {
    forall id <- rows | rows[id].queue == queue && rows[id].doneAt.None? :: rows[id].attempts < m
  }

  /** A task that lives has failed less often than its queue allows. */
  lemma {:induction false} AliveIsWithinBudget(fleet: Fleet, log: Log, queue: string, c: Settings, b: Backoff)
    requires Valid(fleet, log) && Budgeted(fleet, queue, c, b)
    ensures WithinBudget(Replay(fleet, log), queue, b.maxAttempts)
  {
    if log != [] {
      AliveIsWithinBudget(fleet, Init(log), queue, c, b);
      BudgetKept(fleet, Init(log), Last(log), queue, c, b);
    }
  }

  lemma BudgetKept(fleet: Fleet, log: Log, e: Entry, queue: string, c: Settings, b: Backoff)
    requires Valid(fleet, log) && Legal(fleet, log, e) && Budgeted(fleet, queue, c, b)
    requires WithinBudget(Replay(fleet, log), queue, b.maxAttempts)
    ensures WithinBudget(Apply(fleet, Replay(fleet, log), e), queue, b.maxAttempts)
  {
    if e.MarkedFailed? && e.held {
      AlwaysFenced(fleet, log);
    }
  }

  /** With MaxAttempts m a task dies at its m-th failed mark that takes effect, and
      at an earlier one only when the error is permanent; there is no later one.
      Without MaxAttempts only a permanent error kills it. */
  lemma DiesAtTheLastAttempt(fleet: Fleet, log: Log, k: nat, id: TaskId, c: Settings, b: Backoff)
    requires Valid(fleet, log) && k < |log| && FailsTask(log[k], id) && fleet(log[k].t.queue) == ConfigOf(c, b)
    ensures b.maxAttempts > 0 ==> 1 <= FailedMarks(log[..k + 1], id) <= b.maxAttempts
    ensures id in Replay(fleet, log[..k + 1])
    ensures Replay(fleet, log[..k + 1])[id].doneAt.Some? <==>
            IsPermanent(log[k].error) || (b.maxAttempts > 0 && FailedMarks(log[..k + 1], id) == b.maxAttempts)
  {
    var t, rows := log[k].t, Replay(fleet, log[..k]);
    PrefixIsRun(fleet, log, k);
    PrefixIsRun(fleet, log, k + 1);
    AlwaysFenced(fleet, log[..k]);
    ReplayNext(fleet, log, k);
    if b.maxAttempts > 0 {
      AliveIsWithinBudget(fleet, log[..k], t.queue, c, b);
    }
    AttemptsAreExact(fleet, log[..k + 1]);
  }
}
