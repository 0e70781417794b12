/** queue/workers.go, worker/processor.go: one batch of a worker on a table that
    others use at the same time.

    Between any two calls of the tick the table may become anything a run of the
    protocol can make of it; the tick never learns that it lost a lease. */
module QueueInterleaved {
  import opened Common
  import opened TaskTable
  import opened QueueProtocol
  import opened QueueWorkers
  import P = Processor

  /** What is still under the lease is as it was left; nothing comes under it. */
  ghost predicate KeepsLease(rows: Rows, rows': Rows, leaseId: LeaseId) {
    forall id | Held(rows', id, leaseId) :: Get(rows', id) == Get(rows, id)
  }

  // ----- every run of the protocol keeps a lease -----

  lemma EntryKeepsLease(fleet: Fleet, log: Log, e: Entry, leaseId: LeaseId)
    requires Legal(fleet, log, e) && leaseId in LeaseIds(log)
    ensures KeepsLease(Replay(fleet, log), Apply(fleet, Replay(fleet, log), e), leaseId)
  {
  }

  lemma KeepsLeaseTwice(rows: Rows, rows1: Rows, rows2: Rows, leaseId: LeaseId)
    requires KeepsLease(rows, rows1, leaseId) && KeepsLease(rows1, rows2, leaseId)
    ensures KeepsLease(rows, rows2, leaseId)
  {
    forall id | Held(rows2, id, leaseId) ensures Get(rows2, id) == Get(rows, id) {
      assert Get(rows2, id) == Get(rows1, id);
    }
  }

  lemma IssuedStaysIssued(log: Log, k: nat)
    requires k <= |log|
    ensures LeaseIds(log[..k]) <= LeaseIds(log)
    decreases |log|
  {
    if k == |log| {
      assert log[..k] == log;
    } else {
      assert Init(log)[..k] == log[..k];
      IssuedStaysIssued(Init(log), k);
    }
  }

  /** Whatever a run goes on to do, by whomever: a task still under a lease that
      was issued is as it was, and no other task comes under it. */
  lemma {:induction false} RunKeepsLease(fleet: Fleet, log: Log, k: nat, leaseId: LeaseId)
    requires Valid(fleet, log) && k <= |log| && leaseId in LeaseIds(log[..k])
    ensures KeepsLease(Replay(fleet, log[..k]), Replay(fleet, log), leaseId)
    decreases |log|
  {
    if k == |log| {
      assert log[..k] == log;
    } else {
      assert Init(log)[..k] == log[..k];
      RunKeepsLease(fleet, Init(log), k, leaseId);
      IssuedStaysIssued(Init(log), k);
      EntryKeepsLease(fleet, Init(log), Last(log), leaseId);
      KeepsLeaseTwice(Replay(fleet, log[..k]), Replay(fleet, Init(log)), Replay(fleet, log), leaseId);
    }
  }

  /** A batch is just claimed in the table its claim leaves. */
  lemma ClaimedBatch(fleet: Fleet, log: Log)
    requires Valid(fleet, log) && log != [] && Last(log).Claimed?
    ensures JustClaimed(Replay(fleet, log), Last(log).batch, Last(log).leaseId)
  {
    var batch, rows := Last(log).batch, Replay(fleet, Init(log));
    forall t | t in batch ensures Held(Replay(fleet, log), t.id, Last(log).leaseId) {
      assert t.id in Ids(batch);
    }
  }

  // ----- a tick among others -----

  /** The table as a call leaves it: a mark or a release may fail, and then it is
      only logged. */
  function Left(fleet: Fleet, rows: Rows, call: P.Action<Leased>, applied: bool): Rows {
    if applied then AfterCall(fleet, rows, call) else rows
  }

  /** The calls of a tick, which of them are applied, and the table as each of
      them meets it; the last table is the one some time after the last call. */
  datatype Course = Course(calls: seq<P.Action<Leased>>, applied: seq<bool>, tables: seq<Rows>)

  ghost predicate Interleaved(fleet: Fleet, rows: Rows, leaseId: LeaseId, x: Course) {
    && |x.applied| == |x.calls| && |x.tables| == |x.calls| + 1
    && KeepsLease(rows, x.tables[0], leaseId)
    && forall i | 0 <= i < |x.calls| ::
         KeepsLease(Left(fleet, x.tables[i], x.calls[i], x.applied[i]), x.tables[i + 1], leaseId)
  }

  lemma CallKeepsLease(fleet: Fleet, rows: Rows, call: P.Action<Leased>, applied: bool, leaseId: LeaseId)
    ensures KeepsLease(rows, Left(fleet, rows, call, applied), leaseId)
  {
  }

  lemma LaterKeepsLease(fleet: Fleet, rows: Rows, leaseId: LeaseId, x: Course, from: nat, to: nat)
    requires Interleaved(fleet, rows, leaseId, x) && from <= to <= |x.calls|
    ensures KeepsLease(x.tables[from], x.tables[to], leaseId)
  {
    for i := from to to
      invariant KeepsLease(x.tables[from], x.tables[i], leaseId)
    {
      var after := Left(fleet, x.tables[i], x.calls[i], x.applied[i]);
      CallKeepsLease(fleet, x.tables[i], x.calls[i], x.applied[i], leaseId);
      KeepsLeaseTwice(x.tables[from], x.tables[i], after, leaseId);
      KeepsLeaseTwice(x.tables[from], after, x.tables[i + 1], leaseId);
    }
  }

  /** At every call, what the tick still holds is as it was claimed. */
  lemma HeldIsAsClaimed(fleet: Fleet, rows: Rows, leaseId: LeaseId, x: Course, i: nat)
    requires Interleaved(fleet, rows, leaseId, x) && i <= |x.calls|
    ensures KeepsLease(rows, x.tables[i], leaseId)
  {
    LaterKeepsLease(fleet, rows, leaseId, x, 0, i);
    KeepsLeaseTwice(rows, x.tables[0], x.tables[i], leaseId);
  }

  /** A mark among others: a task still held meets the fate of its outcome, one
      that was lost is left to whoever has it now. */
  ghost predicate MarkedIfHeld(rows: Rows, rows': Rows, t: Leased, fate: Option<Row>) {
    if Held(rows, t.id, t.leaseId) then Met(rows, rows', t.id, fate) else rows' == rows
  }

  /** A release among others: what is still held is free again and otherwise as
      it was claimed, and nothing else changes. */
  ghost predicate FreedIfHeld(claimed: Rows, rows: Rows, rows': Rows, rest: seq<Leased>, leaseId: LeaseId) {
    forall id :: Get(rows', id) == if id in Ids(rest) && Held(rows, id, leaseId) && id in claimed
                                   then Some(claimed[id].(lease := None)) else Get(rows, id)
  }

  function CallsOf(cfg: P.Config, w: P.Script<Leased>, batch: seq<Leased>): (calls: seq<P.Action<Leased>>)
    ensures |calls| >= 2 * P.HandledCount(cfg, w, batch, 0)
  {
    var k := P.HandledCount(cfg, w, batch, 0);
    P.Worked(w, batch, k) + P.HandedBack(cfg, batch[k..])
  }

  lemma MarkDropsLease(fleet: Fleet, w: P.Script<Leased>, at: Rows, t: Leased, i: nat)
    ensures !Held(at, t.id, t.leaseId) ==> AfterCall(fleet, at, P.Mark(w, t, i)) == at
    ensures !Held(AfterCall(fleet, at, P.Mark(w, t, i)), t.id, t.leaseId)
  {
  }

  lemma MarkAmongOthers(fleet: Fleet, w: P.Script<Leased>, rows: Rows, batch: seq<Leased>, leaseId: LeaseId, at: Rows,
                        i: nat)
    requires JustClaimed(rows, batch, leaseId) && i < |batch| && KeepsLease(rows, at, leaseId)
    ensures MarkedIfHeld(at, AfterCall(fleet, at, P.Mark(w, batch[i], i)), batch[i], Fates(fleet, w, rows, batch)[i])
    ensures !Held(AfterCall(fleet, at, P.Mark(w, batch[i], i)), batch[i].id, leaseId)
  {
    assert batch[i].leaseId == leaseId by { assert batch[i] in batch; }
    MarkDropsLease(fleet, w, at, batch[i], i);
    if Held(at, batch[i].id, leaseId) {
      MarkMeetsFate(fleet, w, rows, batch, leaseId, i, at);
    }
  }

  lemma ReleaseAmongOthers(fleet: Fleet, rows: Rows, batch: seq<Leased>, leaseId: LeaseId, at: Rows, k: nat)
    requires JustClaimed(rows, batch, leaseId) && k < |batch| && KeepsLease(rows, at, leaseId)
    ensures FreedIfHeld(rows, at, AfterCall(fleet, at, P.Release(batch[k..])), batch[k..], leaseId)
    ensures forall i | k <= i < |batch| :: !Held(AfterCall(fleet, at, P.Release(batch[k..])), batch[i].id, leaseId)
  {
    var rest := batch[k..];
    assert batch[k] in batch;
    var after := AfterRelease(at, Ids(rest), leaseId);
    forall i | k <= i < |batch| ensures !Held(after, batch[i].id, leaseId) {
      assert batch[i] in rest;
    }
    forall id ensures Get(after, id) == if id in Ids(rest) && Held(at, id, leaseId) && id in rows
                                        then Some(rows[id].(lease := None)) else Get(at, id) {
      if Held(at, id, leaseId) {
        assert Get(at, id) == Get(rows, id);
      }
    }
  }

  /** The calls of a tick: item i is marked by call 2i + 1, and what is left of
      the batch, if anything, is handed back by the last call. */
  lemma CallsInOrder(cfg: P.Config, w: P.Script<Leased>, batch: seq<Leased>, k: nat, calls: seq<P.Action<Leased>>)
    requires cfg.releases && k == P.HandledCount(cfg, w, batch, 0) && calls == CallsOf(cfg, w, batch)
    ensures |calls| == if k < |batch| then 2 * k + 1 else 2 * k
    ensures forall i | 0 <= i < k :: calls[2 * i + 1] == P.Mark(w, batch[i], i)
    ensures k < |batch| ==> calls[2 * k] == P.Release(batch[k..])
  {
  }

  lemma LostForGood(fleet: Fleet, rows: Rows, leaseId: LeaseId, x: Course, i: nat, id: TaskId)
    requires Interleaved(fleet, rows, leaseId, x) && i < |x.calls|
    requires !Held(Left(fleet, x.tables[i], x.calls[i], x.applied[i]), id, leaseId)
    ensures !Held(x.tables[|x.calls|], id, leaseId)
  {
    assert !Held(x.tables[i + 1], id, leaseId);
    LaterKeepsLease(fleet, rows, leaseId, x, i + 1, |x.calls|);
  }

  lemma TickMarks(fleet: Fleet, w: P.Script<Leased>, rows: Rows, batch: seq<Leased>, leaseId: LeaseId, x: Course,
                  i: nat, c: nat)
    requires JustClaimed(rows, batch, leaseId) && Interleaved(fleet, rows, leaseId, x)
    requires i < |batch| && c < |x.calls| && x.calls[c] == P.Mark(w, batch[i], i) && x.applied[c]
    ensures MarkedIfHeld(x.tables[c], AfterCall(fleet, x.tables[c], x.calls[c]), batch[i],
                         Fates(fleet, w, rows, batch)[i])
    ensures !Held(x.tables[|x.calls|], batch[i].id, leaseId)
  {
    HeldIsAsClaimed(fleet, rows, leaseId, x, c);
    MarkAmongOthers(fleet, w, rows, batch, leaseId, x.tables[c], i);
    LostForGood(fleet, rows, leaseId, x, c, batch[i].id);
  }

  lemma TickReleases(fleet: Fleet, rows: Rows, batch: seq<Leased>, leaseId: LeaseId, x: Course, k: nat, c: nat)
    requires JustClaimed(rows, batch, leaseId) && Interleaved(fleet, rows, leaseId, x)
    requires k < |batch| && c < |x.calls| && x.calls[c] == P.Release(batch[k..]) && x.applied[c]
    ensures FreedIfHeld(rows, x.tables[c], AfterCall(fleet, x.tables[c], x.calls[c]), batch[k..], leaseId)
    ensures forall i | k <= i < |batch| :: !Held(x.tables[|x.calls|], batch[i].id, leaseId)
  {
    HeldIsAsClaimed(fleet, rows, leaseId, x, c);
    ReleaseAmongOthers(fleet, rows, batch, leaseId, x.tables[c], k);
    forall i | k <= i < |batch| ensures !Held(x.tables[|x.calls|], batch[i].id, leaseId) {
      LostForGood(fleet, rows, leaseId, x, c, batch[i].id);
    }
  }

  /** The call that marks or releases task i of a batch of which k are handled. */
  function SettledBy(k: nat, i: nat): nat {
    if i < k then 2 * i + 1 else 2 * k
  }

  /** In every interleaving a tick marks the handled prefix by its outcomes and
      frees the rest, on the tasks it still holds and on no others; and whatever
      happens after, a task whose mark or release was applied is not under the
      lease, and one still under it is as it was claimed. */
  lemma TickAmongOthers(fleet: Fleet, cfg: P.Config, w: P.Script<Leased>, rows: Rows, batch: seq<Leased>,
                        leaseId: LeaseId, k: nat, x: Course)
    requires JustClaimed(rows, batch, leaseId) && cfg.releases
    requires k == P.HandledCount(cfg, w, batch, 0) && x.calls == CallsOf(cfg, w, batch)
    requires Interleaved(fleet, rows, leaseId, x)
    ensures |x.calls| == if k < |batch| then 2 * k + 1 else 2 * k
    ensures forall i | 0 <= i < k && x.applied[2 * i + 1] ::
              MarkedIfHeld(x.tables[2 * i + 1], AfterCall(fleet, x.tables[2 * i + 1], x.calls[2 * i + 1]), batch[i],
                           Fates(fleet, w, rows, batch)[i])
    ensures k < |batch| && x.applied[2 * k] ==>
              FreedIfHeld(rows, x.tables[2 * k], AfterCall(fleet, x.tables[2 * k], x.calls[2 * k]), batch[k..], leaseId)
    ensures forall i | 0 <= i < |batch| && x.applied[SettledBy(k, i)] ::
              !Held(x.tables[|x.calls|], batch[i].id, leaseId)
    ensures KeepsLease(rows, x.tables[|x.calls|], leaseId)
  {
    CallsInOrder(cfg, w, batch, k, x.calls);
    HeldIsAsClaimed(fleet, rows, leaseId, x, |x.calls|);
    forall i | 0 <= i < k && x.applied[2 * i + 1]
      ensures MarkedIfHeld(x.tables[2 * i + 1], AfterCall(fleet, x.tables[2 * i + 1], x.calls[2 * i + 1]), batch[i],
                           Fates(fleet, w, rows, batch)[i])
      ensures !Held(x.tables[|x.calls|], batch[i].id, leaseId)
    {
      TickMarks(fleet, w, rows, batch, leaseId, x, i, 2 * i + 1);
    }
    if k < |batch| && x.applied[2 * k] {
      TickReleases(fleet, rows, batch, leaseId, x, k, 2 * k);
    }
  }
}
