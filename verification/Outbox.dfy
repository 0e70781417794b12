/** outbox/handler.go: events published from a queue, through an outage of any
    length. */
module Outbox {
  import opened Common
  import opened Errors
  import opened Backoffs
  import opened TaskTable
  import opened QueueProtocol
  import opened QueueWorkers
  import P = Processor

  /** What the publisher did with an event. */
  datatype Answer = Answered(err: Option<Error>) | Crashed(reason: string)

  /** Handler: the error of an event task. */
  function HandlerError(decodes: bool, kind: string, err: Option<Error>): Option<Error> {
    if !decodes then MarkPermanent(Some(Wrap("outbox: decode envelope of " + kind, Plain("invalid"))))
    else if err.Some? && IsBrokerPermanent(err.value) then MarkPermanent(err)
    else MarkHalt(err)
  }

  /** The outcome of an event task: the error of Handler, or the panic when the
      publisher panicked, as a queue without WithOnPanic has it. */
  function EventOutcome(decodes: bool, kind: string, a: Answer): Option<Error> {
    var err := if !decodes || a.Answered? then HandlerError(decodes, kind, if a.Answered? then a.err else None)
               else Some(Panic(a.reason));
    var panic := PanicOf(err);
    if panic.Some? then panic else err
  }

  /** An answer that condemns the event: an error marked permanent, by the broker
      or by the queue, and not a recovered panic. */
  ghost predicate Condemns(a: Answer) {
    && a.Answered? && a.err.Some?
    && (IsBrokerPermanent(a.err.value) || IsPermanent(a.err.value))
    && forall x <- Chain(a.err.value) :: !x.Panic?
  }

  /** An answer that stops the batch: an error the broker did not mark permanent,
      or one that is marked Halt itself, and not a recovered panic. */
  ghost predicate Halts(a: Answer) {
    && a.Answered? && a.err.Some?
    && (!IsBrokerPermanent(a.err.value) || IsHalt(a.err.value))
    && forall x <- Chain(a.err.value) :: !x.Panic?
  }

  /** Which events go to the dead letters at once, which are done, and which stop
      the batch. */
  lemma EventFate(decodes: bool, kind: string, a: Answer)
    ensures
      var outcome := EventOutcome(decodes, kind, a);
      && (outcome.None? <==> decodes && a == Answered(None))
      && (outcome.Some? && IsPermanent(outcome.value) <==> !decodes || Condemns(a))
      && (P.Stops(outcome) <==> decodes && Halts(a))
  {
    if !decodes {
      var e := Wrap("outbox: decode envelope of " + kind, Plain("invalid"));
      assert Chain(Plain("invalid")) == {Plain("invalid")};
      assert Chain(e) == {e, Plain("invalid")};
      assert Chain(Permanent(e)) == {Permanent(e), e, Plain("invalid")};
      MarksAreFoundAnywhere(e);
    } else if a.Answered? && a.err.Some? {
      var e := a.err.value;
      MarksAreFoundAnywhere(e);
      assert Chain(Permanent(e)) == {Permanent(e)} + Chain(e);
      assert Chain(Halt(e)) == {Halt(e)} + Chain(e);
      var panic := PanicOf(HandlerError(decodes, kind, a.err));
      if panic.Some? {
        assert Chain(panic.value) == {panic.value};
        MarksAreFoundAnywhere(panic.value);
      }
    } else if a.Crashed? {
      assert Chain(Panic(a.reason)) == {Panic(a.reason)};
      MarksAreFoundAnywhere(Panic(a.reason));
    }
  }

  /** An error the broker did not mark condemns an event all the same when it is
      marked by the queue. */
  lemma QueueMarkCondemns(kind: string)
    ensures
      var err := Permanent(Plain("x"));
      && !IsBrokerPermanent(err)
      && Condemns(Answered(Some(err)))
      && EventOutcome(true, kind, Answered(Some(err))).Some?
      && IsPermanent(EventOutcome(true, kind, Answered(Some(err))).value)
  {
    var err := Permanent(Plain("x"));
    assert Chain(Plain("x")) == {Plain("x")};
    assert Chain(err) == {err, Plain("x")};
    MarksAreFoundAnywhere(err);
    EventFate(true, kind, Answered(Some(err)));
  }

  /** outbox.Config. */
  function EventSettings(name: string): Settings {
    Settings(name, 0, 100, 5 * SECOND, 2 * SECOND)
  }

  /** A queue of events: a batch of 100, 5 seconds for a publish and for the batch
      under a lease of 25, a poll every 2 seconds, and one worker. */
  lemma EventWorkers(name: string, n: int)
    ensures
      var c := EventSettings(name);
      && c.queue == name && WithDefaults(c).concurrency == 1 && WithDefaults(c).poll == 2 * SECOND
      && ProcessorOf(c).BatchSize() == 100 && ProcessorOf(c).batchTimeout == 5 * SECOND
      && ConfigOf(c, NO_BACKOFF).Lease() == 25 * SECOND && !ConfigOf(c, NO_BACKOFF).exhausted(n)
  {
  }

  /** A run of a fleet in which `queue` runs events with default options: each
      handled event of it got the answer at the same place of `answers`. */
  ghost predicate EventRun(fleet: Fleet, log: Log, queue: string, decodes: string -> bool, answers: seq<Answer>) {
    && Valid(fleet, log)
    && fleet(queue) == ConfigOf(EventSettings(queue), NO_BACKOFF)
    && |answers| == |log|
    && forall i | 0 <= i < |log| && log[i].Handled? && log[i].t.queue == queue ::
         log[i].outcome == EventOutcome(decodes(log[i].t.payload), log[i].t.kind, answers[i])
  }

  /** The event was inserted into the queue with a payload that decodes, and the
      publisher never condemned it. */
  ghost predicate Deliverable(log: Log, queue: string, decodes: string -> bool, answers: seq<Answer>, id: TaskId)
    requires |answers| == |log|
  {
    && (forall i | 0 <= i < |log| && log[i].Inserted? && log[i].id == id ::
        log[i].row.queue == queue && decodes(log[i].row.payload))
    && (forall i | 0 <= i < |log| && log[i].Handled? && log[i].t.id == id :: !Condemns(answers[i]))
  }

  /** A task keeps the queue and the payload it was inserted with. */
  lemma {:induction false} PayloadIsFixed(fleet: Fleet, log: Log, id: TaskId)
    requires Valid(fleet, log) && id in Replay(fleet, log)
    ensures exists i | 0 <= i < |log| :: log[i].Inserted? && log[i].id == id
              && log[i].row.queue == Replay(fleet, log)[id].queue
              && log[i].row.payload == Replay(fleet, log)[id].payload
  {
    var init := Init(log);
    var row := Replay(fleet, log)[id];
    if Last(log).Inserted? && Last(log).id == id {
      assert log[|log| - 1].Inserted?;
    } else {
      PayloadIsFixed(fleet, init, id);
      var i :| 0 <= i < |init| && init[i].Inserted? && init[i].id == id
               && init[i].row.queue == Replay(fleet, init)[id].queue
               && init[i].row.payload == Replay(fleet, init)[id].payload;
      assert log[i] == init[i];
      KeepsContents(fleet, init, Last(log), id);
    }
  }

  lemma KeepsContents(fleet: Fleet, log: Log, e: Entry, id: TaskId)
    requires id in Apply(fleet, Replay(fleet, log), e) && !(e.Inserted? && e.id == id)
    ensures
      var rows, rows' := Replay(fleet, log), Apply(fleet, Replay(fleet, log), e);
      id in rows && rows'[id].queue == rows[id].queue && rows'[id].payload == rows[id].payload
  {
  }

  /** A failed mark of a deliverable event that takes effect does not kill it. */
  lemma FailureIsNotDeath(fleet: Fleet, log: Log, queue: string, decodes: string -> bool, answers: seq<Answer>,
                          id: TaskId, k: nat)
    requires EventRun(fleet, log, queue, decodes, answers) && Deliverable(log, queue, decodes, answers, id)
    requires k < |log| && log[k].MarkedFailed? && log[k].held && log[k].t.id == id
    ensures !Dies(fleet, log[k].t, log[k].error)
    ensures
      var row := Get(Replay(fleet, log[..k + 1]), id);
      row.Some? && row.value.doneAt.None? && 2 * SECOND <= row.value.runAt - log[k].now <= 5 * MINUTE
  {
    var t, e := log[k].t, log[k].error;
    PrefixIsRun(fleet, log, k);
    AlwaysFenced(fleet, log[..k]);
    var row := Replay(fleet, log[..k])[id];
    PayloadIsFixed(fleet, log[..k], id);
    var n :| 0 <= n < k && log[..k][n].Inserted? && log[..k][n].id == id
             && log[..k][n].row.queue == row.queue && log[..k][n].row.payload == row.payload;
    assert log[n] == log[..k][n];
    var i :| 0 <= i < k && log[..k][i] == Handled(t, Some(e));
    assert log[i] == Handled(t, Some(e));
    assert Some(e) == EventOutcome(true, t.kind, answers[i]);
    EventFate(true, t.kind, answers[i]);
    DefaultWorkers(EventSettings(queue), NO_BACKOFF);
    QueueDelays(t.attempts + 1);
    ReplayNext(fleet, log, k);
  }

  /** An outage of any length sends no deliverable event to the dead letters. */
  lemma OutageNeverDeadLetters(fleet: Fleet, log: Log, queue: string, decodes: string -> bool, answers: seq<Answer>,
                               id: TaskId)
    requires EventRun(fleet, log, queue, decodes, answers) && Deliverable(log, queue, decodes, answers, id)
    ensures !Dead(Replay(fleet, log), id)
  {
    if Dead(Replay(fleet, log), id) {
      DeadByMark(fleet, log, id);
      var k :| DeathAt(fleet, log, k, id, Replay(fleet, log)[id].doneAt.value);
      FailureIsNotDeath(fleet, log, queue, decodes, answers, id, k);
      assert false;
    }
  }

  /** A deliverable event leaves the table only after a publish that succeeded. */
  lemma RemovedOnlyAfterPublish(fleet: Fleet, log: Log, queue: string, decodes: string -> bool, answers: seq<Answer>,
                                id: TaskId, k: nat)
    requires EventRun(fleet, log, queue, decodes, answers) && Deliverable(log, queue, decodes, answers, id)
    requires k < |log| && id in Replay(fleet, log[..k]) && id !in Replay(fleet, log[..k + 1])
    ensures exists i | 0 <= i < k :: log[i].Handled? && log[i].t.id == id && answers[i] == Answered(None)
  {
    LeavesDoneOrDead(fleet, log, k, id);
    if log[k].Cleaned? {
      var j, died :| DeathAt(fleet, log, j, id, died) && j < k && log[k].now - died > DEAD_RETENTION;
      FailureIsNotDeath(fleet, log, queue, decodes, answers, id, j);
      assert false;
    } else {
      var t := log[k].t;
      var i :| 0 <= i < k && log[..k][i] == Handled(t, None);
      assert log[i] == Handled(t, None);
      PrefixIsRun(fleet, log, k);
      PayloadIsFixed(fleet, log[..k], id);
      var row := Replay(fleet, log[..k])[id];
      var n :| 0 <= n < k && log[..k][n].Inserted? && log[..k][n].id == id
               && log[..k][n].row.queue == row.queue && log[..k][n].row.payload == row.payload;
      assert log[n] == log[..k][n];
      EventFate(decodes(t.payload), t.kind, answers[i]);
    }
  }
}
