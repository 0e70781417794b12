/** queue/scheduler.go and outbox/doc.go: events scheduled in units of work that
    run through WithinTran, in one run with the queue that publishes them. A
    commit whose reply is lost is a commit all the same. */
module Delivery {
  import opened Common
  import opened Errors
  import opened TaskTable
  import opened QueueProtocol
  import opened Outbox
  import opened Scheduling
  import T = Tran

  /** What the units do and what the world answers to them. */
  datatype Setup = Setup(
    fleet: Fleet,
    reg: T.Registry,
    retryable: Error -> bool,
    waits: (Unit, nat) -> bool,
    attempts: (Unit, nat) -> T.Attempt)
  {
    function AttemptsOf(u: Unit): nat -> T.Attempt {
      (n: nat) => attempts(u, n)
    }

    function WaitsOf(u: Unit): nat -> bool {
      (n: nat) => waits(u, n)
    }

    /** Whether the n-th attempt of the unit committed, whatever it was told. */
    predicate Committed(u: Unit, n: nat) {
      T.Commits(reg, attempts(u, n)) && !attempts(u, n).reply.Rejected?
    }

    predicate RunsAgain(u: Unit, n: nat) {
      T.RunsAgain(reg, retryable, WaitsOf(u), AttemptsOf(u), n)
    }

    /** The tasks the n-th attempt of the unit leaves in the table. */
    function Tasks(u: Unit, n: nat): seq<Item> {
      if Committed(u, n) then TasksIn(T.WritesOf(reg, attempts(u, n))) else []
    }

    function Planned(): Plan {
      Plan((u: Unit, n: nat) => RunsAgain(u, n), (u: Unit, n: nat) => Tasks(u, n))
    }
  }

  function TasksIn(ws: seq<T.Write>): (items: seq<Item>)
    ensures forall x :: x in items <==> T.Task(x.queue, x.kind, x.payload) in ws
  {
    if ws == [] then [] else
      var w := ws[|ws| - 1];
      TasksIn(ws[..|ws| - 1]) + if w.Task? then [Item(w.queue, w.kind, w.payload)] else []
  }

  function AllTasks(committed: seq<seq<T.Write>>): seq<Item> {
    if committed == [] then [] else
      AllTasks(committed[..|committed| - 1]) + TasksIn(committed[|committed| - 1])
  }

  lemma PlannedIs(setup: Setup, u: Unit, n: nat)
    ensures setup.Planned().again(u, n) == setup.RunsAgain(u, n)
    ensures setup.Planned().tasks(u, n) == setup.Tasks(u, n)
  {
  }

  lemma CommittedNext(setup: Setup, u: Unit, n: nat)
    requires n >= 1
    ensures AllTasks(T.Committed(setup.reg, setup.AttemptsOf(u), n)) ==
            AllTasks(T.Committed(setup.reg, setup.AttemptsOf(u), n - 1)) + setup.Tasks(u, n)
  {
    var before := T.Committed(setup.reg, setup.AttemptsOf(u), n - 1);
    if setup.Committed(u, n) {
      var writes := T.WritesOf(setup.reg, setup.attempts(u, n));
      assert (before + [writes])[..|before|] == before;
    } else {
      assert before + [] == before;
    }
  }

  lemma {:induction false} PlannedAreCommitted(setup: Setup, u: Unit, n: nat)
    ensures TasksAfter(setup.Planned(), u, n) == AllTasks(T.Committed(setup.reg, setup.AttemptsOf(u), n))
  {
    if n > 0 {
      PlannedAreCommitted(setup, u, n - 1);
      CommittedNext(setup, u, n);
      PlannedIs(setup, u, n);
    }
  }

  ghost predicate Run(setup: Setup, steps: seq<Step>) {
    Scheduling.Run(setup.fleet, setup.Planned(), steps)
  }

  /** What a unit has in the log are the tasks of the transactions it committed,
      each once and in order, after any number of its attempts. */
  lemma TasksAreCommitted(setup: Setup, steps: seq<Step>, u: Unit)
    requires Steps(setup.Planned(), steps)
    ensures OfUnit(Events(setup.Planned(), steps), u) ==
            AllTasks(T.Committed(setup.reg, setup.AttemptsOf(u), Tries(steps, u)))
  {
    TasksOfUnit(setup.Planned(), steps, u);
    PlannedAreCommitted(setup, u, Tries(steps, u));
  }

  /** Each attempt of a unit but its last is one WithinTran follows by another. */
  lemma UnitRanAgain(setup: Setup, steps: seq<Step>, u: Unit, k: nat)
    requires Steps(setup.Planned(), steps) && 1 <= k < Tries(steps, u)
    ensures setup.RunsAgain(u, k)
  {
    TriedAgain(setup.Planned(), steps, u, k);
    PlannedIs(setup, u, k);
  }

  /** What the unit returned. */
  ghost predicate ReturnedNil(setup: Setup, steps: seq<Step>, u: Unit) {
    T.Ended(setup.reg, setup.attempts(u, Tries(steps, u))).Done?
  }

  ghost predicate NoReplyLost(setup: Setup, steps: seq<Step>, u: Unit) {
    forall n | 1 <= n <= Tries(steps, u) :: !T.IsLost(setup.reg, setup.attempts(u, n))
  }

  /** A unit that returned made the runs WithinTran makes. */
  lemma TriesAreRuns(setup: Setup, steps: seq<Step>, u: Unit, runs: nat)
    requires Steps(setup.Planned(), steps) && Returned(setup.Planned(), steps, u) && runs >= 1
    requires (forall n | 1 <= n < runs :: setup.RunsAgain(u, n)) && !setup.RunsAgain(u, runs)
    ensures Tries(steps, u) == runs
  {
    var waits, attempts := setup.WaitsOf(u), setup.AttemptsOf(u);
    PlannedIs(setup, u, Tries(steps, u));
    forall k | 1 <= k < Tries(steps, u) ensures T.RunsAgain(setup.reg, setup.retryable, waits, attempts, k) {
      UnitRanAgain(setup, steps, u, k);
    }
    forall k | 1 <= k < runs ensures T.RunsAgain(setup.reg, setup.retryable, waits, attempts, k) {
      assert setup.RunsAgain(u, k);
    }
    T.RunsAreDetermined(setup.reg, setup.retryable, waits, attempts, Tries(steps, u), runs);
  }

  /** No task for a change that rolled back, and none missing for one that was
      committed: a unit that returned nil left the tasks of its last run, each
      once, and one that returned an error left none, when no reply was lost. */
  lemma AllTasksOrNone(setup: Setup, steps: seq<Step>, u: Unit)
    requires Steps(setup.Planned(), steps) && Returned(setup.Planned(), steps, u) && NoReplyLost(setup, steps, u)
    ensures OfUnit(Events(setup.Planned(), steps), u) ==
            if ReturnedNil(setup, steps, u)
            then TasksIn(T.WritesOf(setup.reg, setup.attempts(u, Tries(steps, u)))) else []
  {
    var n, attempts := Tries(steps, u), setup.AttemptsOf(u);
    TasksAreCommitted(setup, steps, u);
    forall k | 1 <= k < n ensures !(T.Commits(setup.reg, attempts(k)) && attempts(k).reply.Accepted?) {
      UnitRanAgain(setup, steps, u, k);
      T.DoneIffAccepted(setup.reg, attempts(k));
    }
    T.DoneIffAccepted(setup.reg, attempts(n));
    T.AtomicIffNoReplyLost(setup.reg, attempts, T.Ended(setup.reg, attempts(n)), n);
    OneTransaction(T.WritesOf(setup.reg, attempts(n)));
  }

  lemma OneTransaction(writes: seq<T.Write>)
    ensures AllTasks([writes]) == TasksIn(writes)
  {
    assert [writes][..0] == [];
  }

  // ----- none is lost -----

  /** What is no longer in the table has left it. */
  lemma {:induction false} HasLeft(fleet: Fleet, log: Log, id: TaskId) returns (k: nat)
    requires Valid(fleet, log) && id in InsertedIds(log) && id !in Replay(fleet, log)
    ensures k < |log| && id in Replay(fleet, log[..k]) && id !in Replay(fleet, log[..k + 1])
  {
    var init := Init(log);
    if id in Replay(fleet, init) {
      k := |log| - 1;
      assert log[..k] == init && log[..k + 1] == log;
    } else {
      k := HasLeft(fleet, init, id);
      assert log[..k] == init[..k] && log[..k + 1] == init[..k + 1];
    }
  }

  ghost predicate Published(log: Log, answers: seq<Answer>, id: TaskId)
    requires |answers| == |log|
  {
    exists i | 0 <= i < |log| :: log[i].Handled? && log[i].t.id == id && answers[i] == Answered(None)
  }

  ghost predicate NeverCondemned(log: Log, answers: seq<Answer>, id: TaskId)
    requires |answers| == |log|
  {
    forall i | 0 <= i < |log| && log[i].Handled? && log[i].t.id == id :: !Condemns(answers[i])
  }

  /** A task of the queue whose envelope decodes. */
  predicate IsEventOf(item: Item, queue: string, decodes: string -> bool) {
    item.queue == queue && decodes(item.payload)
  }

  lemma EventIsDeliverable(setup: Setup, steps: seq<Step>, queue: string, decodes: string -> bool,
                           answers: seq<Answer>, a: nat)
    requires Run(setup, steps) && |answers| == |LogOf(setup.Planned(), steps)| && a < |Events(setup.Planned(), steps)|
    requires IsEventOf(Events(setup.Planned(), steps)[a].item, queue, decodes)
    requires NeverCondemned(LogOf(setup.Planned(), steps), answers, Events(setup.Planned(), steps)[a].id)
    ensures Deliverable(LogOf(setup.Planned(), steps), queue, decodes, answers, Events(setup.Planned(), steps)[a].id)
    ensures Events(setup.Planned(), steps)[a].id in InsertedIds(LogOf(setup.Planned(), steps))
  {
    var log, ev := LogOf(setup.Planned(), steps), Events(setup.Planned(), steps)[a];
    var i := Place(setup.Planned(), steps, a);
    PlaceIsEntry(setup.Planned(), steps, a);
    IsInserted(log, i);
    forall j | 0 <= j < |log| && log[j].Inserted? && log[j].id == ev.id
      ensures log[j].row.queue == queue && decodes(log[j].row.payload)
    {
      InsertedOnce(setup.fleet, log, i, j);
    }
  }

  /** No event of a committed transaction is lost, through an outage of any
      length: it is in the table and alive until a publish of it succeeded. */
  lemma NoEventIsLost(setup: Setup, steps: seq<Step>, queue: string, decodes: string -> bool,
                      answers: seq<Answer>, a: nat)
    requires Run(setup, steps) && EventRun(setup.fleet, LogOf(setup.Planned(), steps), queue, decodes, answers)
    requires a < |Events(setup.Planned(), steps)|
    requires IsEventOf(Events(setup.Planned(), steps)[a].item, queue, decodes)
    requires NeverCondemned(LogOf(setup.Planned(), steps), answers, Events(setup.Planned(), steps)[a].id)
    ensures
      var rows, id := Replay(setup.fleet, LogOf(setup.Planned(), steps)), Events(setup.Planned(), steps)[a].id;
      && !Dead(rows, id)
      && (id in rows || Published(LogOf(setup.Planned(), steps), answers, id))
  {
    var log, id := LogOf(setup.Planned(), steps), Events(setup.Planned(), steps)[a].id;
    EventIsDeliverable(setup, steps, queue, decodes, answers, a);
    OutageNeverDeadLetters(setup.fleet, log, queue, decodes, answers, id);
    if id !in Replay(setup.fleet, log) {
      var k := HasLeft(setup.fleet, log, id);
      RemovedOnlyAfterPublish(setup.fleet, log, queue, decodes, answers, id, k);
    }
  }

  /** An event of a unit that returned nil is in the table and alive until it was
      published, when no reply to the unit was lost. */
  lemma NilIsDelivered(setup: Setup, steps: seq<Step>, u: Unit, x: Item, queue: string, decodes: string -> bool,
                       answers: seq<Answer>) returns (a: nat)
    requires Run(setup, steps) && EventRun(setup.fleet, LogOf(setup.Planned(), steps), queue, decodes, answers)
    requires Returned(setup.Planned(), steps, u) && ReturnedNil(setup, steps, u) && NoReplyLost(setup, steps, u)
    requires T.Task(x.queue, x.kind, x.payload) in T.WritesOf(setup.reg, setup.attempts(u, Tries(steps, u)))
    requires IsEventOf(x, queue, decodes)
    requires forall ev <- Events(setup.Planned(), steps) | ev.u == u ::
               NeverCondemned(LogOf(setup.Planned(), steps), answers, ev.id)
    ensures
      var events := Events(setup.Planned(), steps);
      a < |events| && events[a].u == u && events[a].item == x
    ensures
      var rows, id := Replay(setup.fleet, LogOf(setup.Planned(), steps)), Events(setup.Planned(), steps)[a].id;
      && !Dead(rows, id)
      && (id in rows || Published(LogOf(setup.Planned(), steps), answers, id))
  {
    AllTasksOrNone(setup, steps, u);
    FoundInUnit(Events(setup.Planned(), steps), u, x);
    var ev :| ev in Events(setup.Planned(), steps) && ev.u == u && ev.item == x;
    a :| 0 <= a < |Events(setup.Planned(), steps)| && Events(setup.Planned(), steps)[a] == ev;
    NoEventIsLost(setup, steps, queue, decodes, answers, a);
  }

  /** An event of a unit that returned an error is nowhere. */
  lemma FailedIsNowhere(setup: Setup, steps: seq<Step>, u: Unit)
    requires Steps(setup.Planned(), steps)
    requires Returned(setup.Planned(), steps, u) && !ReturnedNil(setup, steps, u) && NoReplyLost(setup, steps, u)
    ensures forall ev <- Events(setup.Planned(), steps) :: ev.u != u
  {
    AllTasksOrNone(setup, steps, u);
    forall ev <- Events(setup.Planned(), steps) ensures ev.u != u {
      FoundInUnit(Events(setup.Planned(), steps), u, ev.item);
    }
  }

  // ----- none is published that was not committed -----

  ghost predicate InsertedBefore(log: Log, i: nat, t: Leased) {
    i < |log| && log[i].Inserted? && log[i].id == t.id && log[i].row.queue == t.queue && log[i].row.payload == t.payload
  }

  /** What was handed out was inserted, with the payload it has. */
  lemma {:induction false} HandedOutWasInserted(fleet: Fleet, log: Log, t: Leased) returns (i: nat)
    requires Valid(fleet, log) && t in HandedOut(log)
    ensures InsertedBefore(log, i, t)
  {
    var init := Init(log);
    if t in HandedOut(init) {
      i := HandedOutWasInserted(fleet, init, t);
      assert log[i] == init[i];
    } else {
      PayloadIsFixed(fleet, init, t.id);
      var j :| 0 <= j < |init| && init[j].Inserted? && init[j].id == t.id
               && init[j].row.queue == Replay(fleet, init)[t.id].queue
               && init[j].row.payload == Replay(fleet, init)[t.id].payload;
      i := j;
      assert log[i] == init[i];
    }
  }

  /** The n-th attempt of the unit of the event committed, with the event. */
  ghost predicate CommittedWith(setup: Setup, steps: seq<Step>, ev: Event, n: nat) {
    1 <= n <= Tries(steps, ev.u) && setup.Committed(ev.u, n) &&
    T.Task(ev.item.queue, ev.item.kind, ev.item.payload) in T.WritesOf(setup.reg, setup.attempts(ev.u, n))
  }

  lemma EventWasCommitted(setup: Setup, steps: seq<Step>, a: nat) returns (n: nat)
    requires Steps(setup.Planned(), steps) && a < |Events(setup.Planned(), steps)|
    ensures CommittedWith(setup, steps, Events(setup.Planned(), steps)[a], n)
  {
    n := EventOfAttempt(setup.Planned(), steps, a);
    PlannedIs(setup, Events(setup.Planned(), steps)[a].u, n);
  }

  /** An event is never published unless its domain write commits: what a handler
      of the queue is given came into the table before, in a transaction of a unit
      that was committed, whoever lost a reply. */
  lemma PublishedWasCommitted(setup: Setup, steps: seq<Step>, queue: string, i: nat) returns (a: nat, n: nat)
    requires Run(setup, steps) && OnlyScheduled(steps, queue)
    requires
      var log := LogOf(setup.Planned(), steps);
      i < |log| && log[i].Handled? && log[i].t.queue == queue
    ensures
      && a < |Events(setup.Planned(), steps)| && Place(setup.Planned(), steps, a) < i
      && CommittedWith(setup, steps, Events(setup.Planned(), steps)[a], n)
      && Events(setup.Planned(), steps)[a].id == LogOf(setup.Planned(), steps)[i].t.id
      && Events(setup.Planned(), steps)[a].item.payload == LogOf(setup.Planned(), steps)[i].t.payload
  {
    var log := LogOf(setup.Planned(), steps);
    PrefixIsRun(setup.fleet, log, i);
    var j := HandedOutWasInserted(setup.fleet, log[..i], log[i].t);
    assert log[j] == log[..i][j];
    a := InsertIsEvent(setup.Planned(), steps, queue, j);
    PlaceIsEntry(setup.Planned(), steps, a);
    n := EventWasCommitted(setup, steps, a);
  }
}
