/** queue/pgqueue.go: the table queue_tasks and the statements that run on it.

    Each statement is one atomic step. lease_id and leased_at are written
    together by every statement, so they are one optional lease here. */
module TaskTable {
  import opened Common
  import opened Ranking

  type TaskId = nat
  type LeaseId = nat  // a fresh UUID per claim

  datatype Lease = Lease(id: LeaseId, at: Time)

  datatype Row = Row(
    queue: string,
    kind: string,
    key: Option<string>,
    payload: string,
    runAt: Time,
    attempts: nat,
    lease: Option<Lease>,
    lastError: Option<string>,
    doneAt: Option<Time>)

  type Rows = map<TaskId, Row>

  /** A task under the lease of the claim that returned it: what a consumer
      holds of it, however stale it grows. */
  datatype Leased = Leased(
    id: TaskId,
    leaseId: LeaseId,
    queue: string,
    kind: string,
    key: string,
    payload: string,
    runAt: Time,
    attempts: nat,
    lastError: string)

  datatype Params = Params(queue: string, kind: string, key: string, payload: string, delay: Duration)

  function OrEmpty(s: Option<string>): string {
    if s.Some? then s.value else ""
  }

  function ToLeased(id: TaskId, row: Row, leaseId: LeaseId): Leased {
    Leased(id, leaseId, row.queue, row.kind, OrEmpty(row.key), row.payload, row.runAt, row.attempts,
           OrEmpty(row.lastError))
  }

  predicate Ready(row: Row, queue: string, now: Time, lease: Duration) {
    && row.queue == queue
    && row.doneAt.None?
    && row.runAt <= now
    && (row.lease.None? || row.lease.value.at < now - lease)
  }

  /** Whether the lease guard of a mark or a release of (id, leaseId) matches. */
  predicate Held(rows: Rows, id: TaskId, leaseId: LeaseId) {
    id in rows && rows[id].lease.Some? && rows[id].lease.value.id == leaseId
  }

  /** ORDER BY run_at, id. */
  predicate Before(rows: Rows, a: TaskId, b: TaskId) {
    a in rows && b in rows &&
    (rows[a].runAt < rows[b].runAt || (rows[a].runAt == rows[b].runAt && a < b))
  }

  function Ids(batch: seq<Leased>): set<TaskId> {
    set t | t in batch :: t.id
  }

  // ----- the statements, as functions of the table -----

  function AfterClaim(rows: Rows, ids: set<TaskId>, lease: Lease): Rows {
    map id | id in rows :: if id in ids then rows[id].(lease := Some(lease)) else rows[id]
  }

  function AfterDone(rows: Rows, t: Leased): Rows {
    if Held(rows, t.id, t.leaseId) then rows - {t.id} else rows
  }

  function FailedRow(row: Row, t: Leased, message: string, dead: bool, now: Time, runAt: Time): Row {
    var failed := row.(lease := None, attempts := t.attempts + 1, lastError := Some(message));
    if dead then failed.(doneAt := Some(now)) else failed.(runAt := runAt)
  }

  function AfterFailed(rows: Rows, t: Leased, message: string, dead: bool, now: Time, runAt: Time): Rows {
    if Held(rows, t.id, t.leaseId)
    then rows[t.id := FailedRow(rows[t.id], t, message, dead, now, runAt)]
    else rows
  }

  function AfterRelease(rows: Rows, ids: set<TaskId>, leaseId: LeaseId): Rows {
    map id | id in rows :: if id in ids && Held(rows, id, leaseId) then rows[id].(lease := None) else rows[id]
  }

  function DeadBefore(rows: Rows, queue: string, before: Time): set<TaskId> {
    set id | id in rows && rows[id].queue == queue && rows[id].doneAt.Some? && rows[id].doneAt.value < before
  }

  predicate KeyTaken(rows: Rows, queue: string, key: string) {
    exists id <- rows :: rows[id].queue == queue && rows[id].key == Some(key)
  }

  /** What a claim may return: ready tasks, each once, in run_at, id order, as
      they are in the table. SKIP LOCKED may pass over any ready task. */
  ghost predicate IsClaim(rows: Rows, queue: string, now: Time, lease: Duration, leaseId: LeaseId, batch: seq<Leased>) {
    && (forall t <- batch ::
          t.id in rows && Ready(rows[t.id], queue, now, lease) && t == ToLeased(t.id, rows[t.id], leaseId))
    && (forall i, j | 0 <= i < j < |batch| :: Before(rows, batch[i].id, batch[j].id))
  }

  /** A claim takes no locked task, and leaves a ready one only for the limit:
      then it goes after the whole batch. */
  ghost predicate TakesFirst(rows: Rows, queue: string, now: Time, lease: Duration, limit: nat, locked: set<TaskId>,
                             batch: seq<Leased>) {
    && Ids(batch) !! locked
    && |batch| <= limit
    && forall id <- rows | Ready(rows[id], queue, now, lease) && id !in locked && id !in Ids(batch) ::
         |batch| == limit && forall x <- Ids(batch) :: Before(rows, x, id)
  }

  ghost predicate InOrder(rows: Rows, batch: seq<Leased>) {
    forall i, j | 0 <= i < j < |batch| :: Before(rows, batch[i].id, batch[j].id)
  }

  function ReadyIds(rows: Rows, queue: string, now: Time, lease: Duration, locked: set<TaskId>): set<TaskId> {
    set id | id in rows && Ready(rows[id], queue, now, lease) && id !in locked
  }

  lemma BeforeIsStrictOrder(rows: Rows, ids: set<TaskId>)
    requires ids <= rows.Keys
    ensures StrictOrderOn(ids, (a: TaskId, b: TaskId) => Before(rows, a, b))
  {
  }

  /** The next CTE of a claim: the first `limit` ready tasks not in `locked`. */
  function Select(rows: Rows, queue: string, now: Time, lease: Duration, limit: nat, locked: set<TaskId>)
    : (next: seq<TaskId>)
    ensures forall id <- next :: id in rows && Ready(rows[id], queue, now, lease) && id !in locked
    ensures forall i, j | 0 <= i < j < |next| :: Before(rows, next[i], next[j])
    ensures |next| <= limit
    ensures forall id <- rows | Ready(rows[id], queue, now, lease) && id !in locked && id !in next ::
              |next| == limit && forall x <- next :: Before(rows, x, id)
  {
    var ready := ReadyIds(rows, queue, now, lease, locked);
    BeforeIsStrictOrder(rows, ready);
    First(ready, (a: TaskId, b: TaskId) => Before(rows, a, b), limit)
  }

  /** The rows of a claim as the outer SELECT returns them. */
  function LeasedAll(rows: Rows, ids: seq<TaskId>, leaseId: LeaseId): (batch: seq<Leased>)
    requires forall id <- ids :: id in rows
    ensures |batch| == |ids|
    ensures forall i | 0 <= i < |ids| :: batch[i] == ToLeased(ids[i], rows[ids[i]], leaseId)
    ensures forall id :: id in Ids(batch) <==> id in ids
  {
    var batch := seq(|ids|, i requires 0 <= i < |ids| => ToLeased(ids[i], rows[ids[i]], leaseId));
    assert forall id <- ids :: id in Ids(batch) by {
      forall id | id in ids ensures id in Ids(batch) {
        var i :| 0 <= i < |ids| && ids[i] == id;
        assert batch[i] in batch;
      }
    }
    batch
  }

  lemma SelectedIsClaim(rows: Rows, queue: string, now: Time, lease: Duration, limit: nat, leaseId: LeaseId,
                        locked: set<TaskId>)
    ensures
      var batch := LeasedAll(rows, Select(rows, queue, now, lease, limit, locked), leaseId);
      && IsClaim(rows, queue, now, lease, leaseId, batch) && TakesFirst(rows, queue, now, lease, limit, locked, batch)
      && InOrder(rows, batch)
  {
  }

  /** Rows that keep their queue and their key keep the unique index. */
  lemma SameKeysStayUnique(rows: Rows, rows': Rows)
    requires UniqueKeys(rows) && rows'.Keys <= rows.Keys
    requires forall id <- rows' :: rows'[id].queue == rows[id].queue && rows'[id].key == rows[id].key
    ensures UniqueKeys(rows')
  {
  }

  /** A failed mark, column by column: a row under the lease of the mark loses it,
      counts the attempt and gets the error; it ends or is due again. */
  ghost predicate FailsRow(row: Row, row': Row, t: Leased, message: string, dead: bool, now: Time, runAt: Time) {
    && row'.lease.None? && row'.attempts == t.attempts + 1 && row'.lastError == Some(message)
    && row'.doneAt == (if dead then Some(now) else row.doneAt)
    && row'.runAt == (if dead then row.runAt else runAt)
    && row'.queue == row.queue && row'.kind == row.kind && row'.key == row.key && row'.payload == row.payload
  }

  lemma IsAfterFailed(rows: Rows, rows': Rows, t: Leased, message: string, dead: bool, now: Time, runAt: Time)
    requires rows'.Keys == rows.Keys && UniqueKeys(rows)
    requires forall id <- rows :: if id == t.id && Held(rows, id, t.leaseId)
                                  then FailsRow(rows[id], rows'[id], t, message, dead, now, runAt)
                                  else rows'[id] == rows[id]
    ensures rows' == AfterFailed(rows, t, message, dead, now, runAt) && UniqueKeys(rows')
  {
    SameKeysStayUnique(rows, rows');
  }

  lemma ClaimKeepsKeys(rows: Rows, ids: set<TaskId>, lease: Lease)
    requires UniqueKeys(rows)
    ensures UniqueKeys(AfterClaim(rows, ids, lease))
  {
  }

  /** A guard that does not match changes nothing, one that matches does: a mark
      under an old lease is a no-op, and a release is one when it holds none of
      its tasks any more. */
  lemma StaleGuardIsNoOp(rows: Rows, t: Leased, message: string, dead: bool, now: Time, runAt: Time, tasks: set<TaskId>)
    ensures AfterDone(rows, t) == rows <==> !Held(rows, t.id, t.leaseId)
    ensures AfterFailed(rows, t, message, dead, now, runAt) == rows <==> !Held(rows, t.id, t.leaseId)
    ensures AfterRelease(rows, tasks, t.leaseId) == rows <==> forall id <- tasks :: !Held(rows, id, t.leaseId)
  {
    if Held(rows, t.id, t.leaseId) {
      assert t.id !in AfterDone(rows, t);
      assert AfterFailed(rows, t, message, dead, now, runAt)[t.id].lease.None?;
    }
    if id :| id in tasks && Held(rows, id, t.leaseId) {
      assert AfterRelease(rows, tasks, t.leaseId)[id].lease.None?;
    } else {
      assert AfterRelease(rows, tasks, t.leaseId) == rows;
    }
  }

  lemma SizeWithout(rows: Rows, ids: set<TaskId>)
    requires ids <= rows.Keys
    ensures |rows - ids| == |rows| - |ids|
  {
    assert rows.Keys == (rows - ids).Keys + ids;
  }

  /** What a consumer is handed of a row; a NULL column is an empty string. */
  ghost predicate Shows(t: Leased, row: Row) {
    && t.queue == row.queue && t.kind == row.kind && t.payload == row.payload
    && t.runAt == row.runAt && t.attempts == row.attempts
    && (row.key.Some? ==> t.key == row.key.value) && (row.key.None? ==> t.key == "")
    && (row.lastError.Some? ==> t.lastError == row.lastError.value) && (row.lastError.None? ==> t.lastError == "")
  }

  /** Whether a claim may take the row, column by column: it is of the queue, not
      ended, due, and free or under a lease that ended. */
  ghost predicate Takeable(row: Row, queue: string, now: Time, lease: Duration) {
    && row.queue == queue && row.doneAt.None? && row.runAt <= now
    && (row.lease.Some? ==> row.lease.value.at + lease < now)
  }

  /** A claim, column by column: the tasks handed out could be taken and were not
      locked, and show their rows, by run_at and then by id; any other that could be
      taken and was not locked is left only for the limit, and comes later; and the
      rows handed out, and no others, get the new lease. */
  ghost predicate ClaimedByColumn(rows: Rows, rows': Rows, queue: string, now: Time, lease: Duration, limit: nat,
                                  leaseId: LeaseId, locked: set<TaskId>, batch: seq<Leased>) {
    && (forall t <- batch ::
          && t.id in rows && Takeable(rows[t.id], queue, now, lease) && t.id !in locked
          && t.leaseId == leaseId && Shows(t, rows[t.id]))
    && (forall i, j | 0 <= i < j < |batch| ::
          batch[i].runAt < batch[j].runAt || (batch[i].runAt == batch[j].runAt && batch[i].id < batch[j].id))
    && (forall id <- rows | Takeable(rows[id], queue, now, lease) && id !in locked && id !in Ids(batch) ::
          |batch| == limit &&
          forall t <- batch :: t.runAt < rows[id].runAt || (t.runAt == rows[id].runAt && t.id < id))
    && rows'.Keys == rows.Keys
    && (forall t <- batch ::
          t.id in rows && t.id in rows' && rows'[t.id] == rows[t.id].(lease := Some(Lease(leaseId, now))))
    && (forall id <- rows | id !in Ids(batch) :: rows'[id] == rows[id])
  }

  lemma ClaimByColumn(rows: Rows, rows': Rows, queue: string, now: Time, lease: Duration, limit: nat,
                      leaseId: LeaseId, locked: set<TaskId>, batch: seq<Leased>)
    requires IsClaim(rows, queue, now, lease, leaseId, batch)
    requires TakesFirst(rows, queue, now, lease, limit, locked, batch)
    requires InOrder(rows, batch)
    requires rows' == AfterClaim(rows, Ids(batch), Lease(leaseId, now))
    ensures ClaimedByColumn(rows, rows', queue, now, lease, limit, leaseId, locked, batch)
  {
    forall t <- batch ensures t.id in Ids(batch) { }
  }

  class PG {
    var rows: Rows
    var nextId: TaskId

    /** Ids come from the sequence, and the unique index on (queue, key) holds. */
    ghost predicate Valid()
      reads this
    {
      && (forall id <- rows :: id < nextId)
      && UniqueKeys(rows)
    }

    constructor ()
      ensures Valid() && rows == map[]
    {
      rows := map[];
      nextId := 0;
    }

    /** INSERT ... ON CONFLICT DO NOTHING: a conflict still takes an id from
        the sequence. */
    method Insert(p: Params, now: Time) returns (r: Result<bool>)
      requires Valid()
      modifies this
      ensures Valid()
      ensures r.Err? <==> p.queue == "" || p.kind == ""
      ensures r.Err? ==> rows == old(rows)
      ensures r.Ok? ==>
                (r.value <==>
                   p.key == "" ||
                   forall id <- old(rows) :: !(old(rows)[id].queue == p.queue && old(rows)[id].key == Some(p.key)))
      ensures r == Ok(false) ==> rows == old(rows)
      ensures r == Ok(true) ==> old(nextId) !in old(rows) &&
                                rows == old(rows)[old(nextId) := NewRow(p, now)]
      ensures r == Ok(true) ==>
                var row := rows[old(nextId)];
                && row.queue == p.queue && row.kind == p.kind && row.payload == p.payload
                && row.key == (if p.key == "" then None else Some(p.key))
                && row.runAt == now + p.delay && row.attempts == 0
                && row.lease.None? && row.lastError.None? && row.doneAt.None?
    {
      if p.queue == "" {
        return Err("queue schedule: queue is required");
      }
      if p.kind == "" {
        return Err("queue schedule: kind is required");
      }
      var id := nextId;
      nextId := nextId + 1;
      if p.key != "" && KeyTaken(rows, p.queue, p.key) {
        return Ok(false);
      }
      rows := rows[id := NewRow(p, now)];
      return Ok(true);
    }

    /** The next CTE picks the first `limit` ready tasks none else has locked;
        the UPDATE leases them; the outer SELECT returns them in order. */
    method Claim(queue: string, now: Time, lease: Duration, limit: nat, leaseId: LeaseId, locked: set<TaskId>)
      returns (batch: seq<Leased>)
      requires Valid()
      modifies this`rows
      ensures Valid()
      ensures IsClaim(old(rows), queue, now, lease, leaseId, batch)
      ensures TakesFirst(old(rows), queue, now, lease, limit, locked, batch)
      ensures rows == AfterClaim(old(rows), Ids(batch), Lease(leaseId, now))
      ensures ClaimedByColumn(old(rows), rows, queue, now, lease, limit, leaseId, locked, batch)
    {
      var next := Select(rows, queue, now, lease, limit, locked);
      SelectedIsClaim(rows, queue, now, lease, limit, leaseId, locked);
      batch := LeasedAll(rows, next, leaseId);
      ClaimKeepsKeys(rows, Ids(batch), Lease(leaseId, now));
      ghost var was := rows;
      rows := AfterClaim(rows, Ids(batch), Lease(leaseId, now));
      ClaimByColumn(was, rows, queue, now, lease, limit, leaseId, locked, batch);
    }

    method MarkDone(t: Leased) returns (held: bool)
      requires Valid()
      modifies this`rows
      ensures Valid()
      ensures held == Held(old(rows), t.id, t.leaseId)
      ensures rows == AfterDone(old(rows), t)
      ensures held <==> t.id in old(rows) && old(rows)[t.id].lease.Some? && old(rows)[t.id].lease.value.id == t.leaseId
      ensures rows.Keys == old(rows).Keys - (if held then {t.id} else {})
      ensures forall id <- rows :: rows[id] == old(rows)[id]
    {
      var matched := set id | id in rows && id == t.id && rows[id].lease.Some? && rows[id].lease.value.id == t.leaseId;
      rows := rows - matched;
      held := matched != {};
      assert held ==> t.id in matched;
      assert matched == if Held(old(rows), t.id, t.leaseId) then {t.id} else {};
    }

    method MarkFailed(t: Leased, message: string, dead: bool, now: Time, runAt: Time) returns (held: bool)
      requires Valid()
      modifies this`rows
      ensures Valid()
      ensures held == Held(old(rows), t.id, t.leaseId)
      ensures rows == AfterFailed(old(rows), t, message, dead, now, runAt)
      ensures held <==> t.id in old(rows) && old(rows)[t.id].lease.Some? && old(rows)[t.id].lease.value.id == t.leaseId
      ensures rows.Keys == old(rows).Keys
      ensures forall id <- rows | !(held && id == t.id) :: rows[id] == old(rows)[id]
      ensures held ==> FailsRow(old(rows)[t.id], rows[t.id], t, message, dead, now, runAt)
    {
      held := Held(rows, t.id, t.leaseId);
      ghost var was := rows;
      var attempts := t.attempts + 1;
      if dead {
        rows := map id | id in rows :: if id == t.id && Held(rows, id, t.leaseId)
                                       then rows[id].(lease := None, attempts := attempts,
                                                      lastError := Some(message), doneAt := Some(now))
                                       else rows[id];
      } else {
        rows := map id | id in rows :: if id == t.id && Held(rows, id, t.leaseId)
                                       then rows[id].(lease := None, attempts := attempts,
                                                      lastError := Some(message), runAt := runAt)
                                       else rows[id];
      }
      IsAfterFailed(was, rows, t, message, dead, now, runAt);
    }

    /** The tasks of one claim; only those still under the lease of the first
        are released. */
    method Release(tasks: seq<Leased>)
      requires Valid()
      modifies this`rows
      ensures Valid()
      ensures rows == if tasks == [] then old(rows) else AfterRelease(old(rows), Ids(tasks), tasks[0].leaseId)
      ensures rows.Keys == old(rows).Keys && forall id <- rows ::
                if (exists t <- tasks :: t.id == id) && old(rows)[id].lease.Some? &&
                   old(rows)[id].lease.value.id == tasks[0].leaseId
                then rows[id] == old(rows)[id].(lease := None)
                else rows[id] == old(rows)[id]
    {
      if |tasks| == 0 {
        return;
      }
      var ids: seq<TaskId> := [];
      for i := 0 to |tasks|
        invariant rows == old(rows)
        invariant |ids| == i && forall k | 0 <= k < i :: ids[k] == tasks[k].id
      {
        ids := ids + [tasks[i].id];
      }
      var leaseId := tasks[0].leaseId;
      assert forall id :: id in ids <==> id in Ids(tasks) by {
        forall id | id in Ids(tasks) ensures id in ids {
          var k :| 0 <= k < |tasks| && tasks[k].id == id;
          assert ids[k] == id;
        }
      }
      rows := map id | id in rows :: if id in ids && Held(rows, id, leaseId)
                                     then rows[id].(lease := None)
                                     else rows[id];
    }

    method Cleanup(queue: string, before: Time) returns (n: nat)
      requires Valid()
      modifies this`rows
      ensures Valid()
      ensures rows == old(rows) - DeadBefore(old(rows), queue, before)
      ensures n == |old(rows)| - |rows|
      ensures forall id :: id in rows <==>
                id in old(rows) &&
                !(old(rows)[id].queue == queue && old(rows)[id].doneAt.Some? && old(rows)[id].doneAt.value < before)
      ensures forall id <- rows :: rows[id] == old(rows)[id]
    {
      var dead := DeadBefore(rows, queue, before);
      n := |dead|;
      SizeWithout(rows, dead);
      rows := rows - dead;
    }
  }

  ghost predicate UniqueKeys(rows: Rows) {
    forall a, b | a in rows && b in rows && rows[a].queue == rows[b].queue && rows[a].key == rows[b].key ::
      rows[a].key.Some? ==> a == b
  }

  function NewRow(p: Params, now: Time): Row {
    Row(p.queue, p.kind, if p.key != "" then Some(p.key) else None, p.payload, now + p.delay, 0, None, None, None)
  }
}
