/** queue/scheduler.go: units of work that schedule tasks, in one run with the
    queue that runs them.

    Any number of units run at once, each through its attempts. The tasks of an
    attempt come into the table together, when its transaction commits; between
    two such commits the workers of the queue and other producers do what a run of
    the queue allows. What the attempts write is a plan here; `Delivery` says what
    it is for WithinTran. */
module Scheduling {
  import opened Common
  import opened TaskTable
  import opened QueueProtocol

  type Unit = nat  // a call of WithinTran on the pool

  /** A task as a unit writes it. */
  datatype Item = Item(queue: string, kind: string, payload: string)

  /** The tasks each attempt of a unit leaves in the table, and which attempts are
      followed by another. */
  datatype Plan = Plan(again: (Unit, nat) -> bool, tasks: (Unit, nat) -> seq<Item>)

  /** The id and the time a task gets as it is inserted. */
  datatype Stamp = Stamp(id: TaskId, at: Time)

  datatype Step =
    | Try(u: Unit, stamps: seq<Stamp>)  // the next attempt of the unit, to its end
    | Queue(e: Entry)                   // a worker, a cleaner or another producer

  /** A task of a unit in the table. */
  datatype Event = Event(u: Unit, id: TaskId, item: Item)

  predicate Shows(row: Row, item: Item) {
    row.queue == item.queue && row.kind == item.kind && row.payload == item.payload
  }

  function EntryOf(item: Item, stamp: Stamp): Entry {
    Inserted(stamp.id, NewRow(Params(item.queue, item.kind, "", item.payload, 0), stamp.at))
  }

  function EntriesOf(items: seq<Item>, stamps: seq<Stamp>): (entries: Log)
    requires |stamps| == |items|
    ensures |entries| == |items|
    ensures forall i | 0 <= i < |items| :: entries[i] == EntryOf(items[i], stamps[i])
  {
    seq(|items|, i requires 0 <= i < |items| => EntryOf(items[i], stamps[i]))
  }

  function EventsOf(u: Unit, items: seq<Item>, stamps: seq<Stamp>): (events: seq<Event>)
    requires |stamps| == |items|
    ensures |events| == |items|
    ensures forall i | 0 <= i < |items| :: events[i] == Event(u, stamps[i].id, items[i])
  {
    seq(|items|, i requires 0 <= i < |items| => Event(u, stamps[i].id, items[i]))
  }

  // ----- runs -----

  function Tries(steps: seq<Step>, u: Unit): nat {
    if steps == [] then 0 else
      var last := steps[|steps| - 1];
      Tries(steps[..|steps| - 1], u) + if last.Try? && last.u == u then 1 else 0
  }

  /** A unit is tried again only when its last attempt asks for it. */
  ghost predicate Possible(plan: Plan, before: seq<Step>, step: Step) {
    step.Try? ==>
      var n := Tries(before, step.u);
      (n == 0 || plan.again(step.u, n)) && |step.stamps| == |plan.tasks(step.u, n + 1)|
  }

  ghost predicate Steps(plan: Plan, steps: seq<Step>) {
    steps == [] || (Steps(plan, steps[..|steps| - 1]) && Possible(plan, steps[..|steps| - 1], steps[|steps| - 1]))
  }

  /** What a step writes to the log of the queue. */
  ghost function Written(plan: Plan, before: seq<Step>, step: Step): Log
    requires Possible(plan, before, step)
  {
    match step
    case Queue(e) => [e]
    case Try(u, stamps) => EntriesOf(plan.tasks(u, Tries(before, u) + 1), stamps)
  }

  ghost function LogOf(plan: Plan, steps: seq<Step>): Log
    requires Steps(plan, steps)
  {
    if steps == [] then [] else
      LogOf(plan, steps[..|steps| - 1]) + Written(plan, steps[..|steps| - 1], steps[|steps| - 1])
  }

  ghost function Added(plan: Plan, before: seq<Step>, step: Step): seq<Event>
    requires Possible(plan, before, step)
  {
    match step
    case Queue(_) => []
    case Try(u, stamps) => EventsOf(u, plan.tasks(u, Tries(before, u) + 1), stamps)
  }

  /** The tasks of the units, in the order in which they came into the table. */
  ghost function Events(plan: Plan, steps: seq<Step>): seq<Event>
    requires Steps(plan, steps)
  {
    if steps == [] then [] else
      Events(plan, steps[..|steps| - 1]) + Added(plan, steps[..|steps| - 1], steps[|steps| - 1])
  }

  ghost predicate Run(fleet: Fleet, plan: Plan, steps: seq<Step>) {
    Steps(plan, steps) && Valid(fleet, LogOf(plan, steps))
  }

  // ----- each event is one entry of the log -----

  /** The place in the log of the a-th event. */
  ghost function Place(plan: Plan, steps: seq<Step>, a: nat): nat
    requires Steps(plan, steps) && a < |Events(plan, steps)|
    decreases |steps|
  {
    var before := steps[..|steps| - 1];
    var n := |Events(plan, before)|;
    if a < n then Place(plan, before, a) else |LogOf(plan, before)| + (a - n)
  }

  ghost predicate InsertedAt(log: Log, i: nat, ev: Event) {
    i < |log| && log[i].Inserted? && log[i].id == ev.id && Shows(log[i].row, ev.item)
  }

  lemma AddedIsWritten(plan: Plan, before: seq<Step>, step: Step, j: nat)
    requires Possible(plan, before, step) && j < |Added(plan, before, step)|
    ensures InsertedAt(Written(plan, before, step), j, Added(plan, before, step)[j])
  {
  }

  lemma OldEntry(log: Log, more: Log, i: nat, ev: Event)
    requires InsertedAt(log, i, ev)
    ensures InsertedAt(log + more, i, ev)
  {
  }

  lemma NewEntry(log: Log, more: Log, j: nat, ev: Event)
    requires InsertedAt(more, j, ev)
    ensures InsertedAt(log + more, |log| + j, ev)
  {
  }

  lemma LastPlace(plan: Plan, steps: seq<Step>, a: nat)
    requires Steps(plan, steps) && a < |Events(plan, steps)|
    ensures
      var k := |steps| - 1;
      && k >= 0 && Steps(plan, steps[..k]) && Possible(plan, steps[..k], steps[k])
      && LogOf(plan, steps) == LogOf(plan, steps[..k]) + Written(plan, steps[..k], steps[k])
      && var n := |Events(plan, steps[..k])|;
         if a < n
         then && Place(plan, steps, a) == Place(plan, steps[..k], a)
              && Events(plan, steps)[a] == Events(plan, steps[..k])[a]
         else && Place(plan, steps, a) == |LogOf(plan, steps[..k])| + (a - n)
              && a - n < |Added(plan, steps[..k], steps[k])|
              && Events(plan, steps)[a] == Added(plan, steps[..k], steps[k])[a - n]
  {
  }

  lemma {:induction false} PlaceIsEntry(plan: Plan, steps: seq<Step>, a: nat)
    requires Steps(plan, steps) && a < |Events(plan, steps)|
    ensures InsertedAt(LogOf(plan, steps), Place(plan, steps, a), Events(plan, steps)[a])
    decreases |steps|
  {
    LastPlace(plan, steps, a);
    var before, last := steps[..|steps| - 1], steps[|steps| - 1];
    var log, more, n := LogOf(plan, before), Written(plan, before, last), |Events(plan, before)|;
    if a < n {
      PlaceIsEntry(plan, before, a);
      OldEntry(log, more, Place(plan, before, a), Events(plan, before)[a]);
    } else {
      AddedIsWritten(plan, before, last, a - n);
      NewEntry(log, more, a - n, Added(plan, before, last)[a - n]);
    }
  }

  lemma {:induction false} PlacesGrow(plan: Plan, steps: seq<Step>, a: nat, b: nat)
    requires Steps(plan, steps) && a < b < |Events(plan, steps)|
    ensures Place(plan, steps, a) < Place(plan, steps, b)
    decreases |steps|
  {
    var before, n := steps[..|steps| - 1], |Events(plan, steps[..|steps| - 1])|;
    if b < n {
      PlacesGrow(plan, before, a, b);
    } else if a < n {
      PlaceIsEntry(plan, before, a);
    }
  }

  lemma {:induction false} IsInserted(log: Log, i: nat)
    requires i < |log| && log[i].Inserted?
    ensures log[i].id in InsertedIds(log)
  {
    if i < |log| - 1 {
      assert Init(log)[i] == log[i];
      IsInserted(Init(log), i);
    }
  }

  /** An id is inserted once. */
  lemma InsertedOnce(fleet: Fleet, log: Log, i: nat, j: nat)
    requires Valid(fleet, log) && i < |log| && j < |log| && log[i].Inserted? && log[j].Inserted?
    requires log[i].id == log[j].id
    ensures i == j
  {
    if i < j {
      PrefixIsRun(fleet, log, j);
      assert log[..j][i] == log[i];
      IsInserted(log[..j], i);
    } else if j < i {
      PrefixIsRun(fleet, log, i);
      assert log[..i][j] == log[j];
      IsInserted(log[..i], j);
    }
  }

  /** The tasks of all units have ids of their own. */
  lemma EventsDiffer(fleet: Fleet, plan: Plan, steps: seq<Step>, a: nat, b: nat)
    requires Run(fleet, plan, steps) && a < b < |Events(plan, steps)|
    ensures Events(plan, steps)[a].id != Events(plan, steps)[b].id
  {
    PlaceIsEntry(plan, steps, a);
    PlaceIsEntry(plan, steps, b);
    PlacesGrow(plan, steps, a, b);
    var log, i, j := LogOf(plan, steps), Place(plan, steps, a), Place(plan, steps, b);
    if log[i].id == log[j].id {
      InsertedOnce(fleet, log, i, j);
    }
  }

  // ----- the tasks of a unit -----

  function OfUnit(events: seq<Event>, u: Unit): seq<Item> {
    if events == [] then [] else
      OfUnit(events[..|events| - 1], u) + if events[|events| - 1].u == u then [events[|events| - 1].item] else []
  }

  lemma {:induction false} OfUnitAppends(a: seq<Event>, b: seq<Event>, u: Unit)
    ensures OfUnit(a + b, u) == OfUnit(a, u) + OfUnit(b, u)
  {
    if b == [] {
      assert a + b == a;
    } else {
      var front := b[..|b| - 1];
      assert (a + b)[..|a + b| - 1] == a + front;
      OfUnitAppends(a, front, u);
    }
  }

  lemma {:induction false} OwnEvents(v: Unit, items: seq<Item>, stamps: seq<Stamp>, u: Unit)
    requires |stamps| == |items|
    ensures OfUnit(EventsOf(v, items, stamps), u) == if u == v then items else []
  {
    if items != [] {
      var n := |items| - 1;
      assert EventsOf(v, items, stamps)[..n] == EventsOf(v, items[..n], stamps[..n]);
      OwnEvents(v, items[..n], stamps[..n], u);
      assert items == items[..n] + [items[n]];
    } else {
      assert EventsOf(v, items, stamps) == [];
    }
  }

  /** The tasks of the unit in its first n attempts. */
  function TasksAfter(plan: Plan, u: Unit, n: nat): seq<Item> {
    if n == 0 then [] else TasksAfter(plan, u, n - 1) + plan.tasks(u, n)
  }

  lemma AddedTasks(plan: Plan, before: seq<Step>, step: Step, u: Unit)
    requires Possible(plan, before, step)
    ensures OfUnit(Added(plan, before, step), u) ==
            if step.Try? && step.u == u then plan.tasks(u, Tries(before, u) + 1) else []
  {
    if step.Try? {
      OwnEvents(step.u, plan.tasks(step.u, Tries(before, step.u) + 1), step.stamps, u);
    }
  }

  lemma TasksNext(plan: Plan, before: seq<Step>, step: Step, u: Unit, events: seq<Event>)
    requires Possible(plan, before, step) && OfUnit(events, u) == TasksAfter(plan, u, Tries(before, u))
    ensures
      var n := Tries(before, u);
      OfUnit(events + Added(plan, before, step), u) ==
      TasksAfter(plan, u, if step.Try? && step.u == u then n + 1 else n)
  {
    OfUnitAppends(events, Added(plan, before, step), u);
    AddedTasks(plan, before, step, u);
  }

  /** What a unit has in the log are the tasks of its attempts, each once and in
      order. */
  lemma {:induction false} TasksOfUnit(plan: Plan, steps: seq<Step>, u: Unit)
    requires Steps(plan, steps)
    ensures OfUnit(Events(plan, steps), u) == TasksAfter(plan, u, Tries(steps, u))
    decreases |steps|
  {
    if steps != [] {
      var before := steps[..|steps| - 1];
      TasksOfUnit(plan, before, u);
      TasksNext(plan, before, steps[|steps| - 1], u, Events(plan, before));
    }
  }

  lemma {:induction false} TriedAgain(plan: Plan, steps: seq<Step>, u: Unit, k: nat)
    requires Steps(plan, steps) && 1 <= k < Tries(steps, u)
    ensures plan.again(u, k)
  {
    var before := steps[..|steps| - 1];
    if k < Tries(before, u) {
      TriedAgain(plan, before, u, k);
    }
  }

  /** The unit has returned: it was tried and is not tried again. */
  ghost predicate Returned(plan: Plan, steps: seq<Step>, u: Unit) {
    Tries(steps, u) >= 1 && !plan.again(u, Tries(steps, u))
  }

  lemma {:induction false} FoundInUnit(events: seq<Event>, u: Unit, w: Item)
    ensures w in OfUnit(events, u) <==> exists ev <- events :: ev.u == u && ev.item == w
  {
    if events != [] {
      FoundInUnit(events[..|events| - 1], u, w);
      assert events == events[..|events| - 1] + [events[|events| - 1]];
    }
  }

  // ----- where a task came from -----

  /** Tasks of the queue are scheduled in units of work only. */
  ghost predicate OnlyScheduled(steps: seq<Step>, queue: string) {
    forall step <- steps :: step.Queue? && step.e.Inserted? ==> step.e.row.queue != queue
  }

  /** An entry that inserts a task of the queue is that of an event. */
  lemma {:induction false} InsertIsEvent(plan: Plan, steps: seq<Step>, queue: string, i: nat) returns (a: nat)
    requires Steps(plan, steps) && OnlyScheduled(steps, queue)
    requires i < |LogOf(plan, steps)| && LogOf(plan, steps)[i].Inserted?
    requires LogOf(plan, steps)[i].row.queue == queue
    ensures a < |Events(plan, steps)| && Place(plan, steps, a) == i
    decreases |steps|
  {
    var before, last := steps[..|steps| - 1], steps[|steps| - 1];
    assert last in steps && forall step <- before :: step in steps;
    var m := |LogOf(plan, before)|;
    if i < m {
      a := InsertIsEvent(plan, before, queue, i);
    } else {
      a := |Events(plan, before)| + (i - m);
    }
  }

  /** The step adds the event to those of the steps before it. */
  ghost predicate Brings(plan: Plan, before: seq<Step>, step: Step, ev: Event) {
    Possible(plan, before, step) && ev in Added(plan, before, step)
  }

  lemma LastEvents(plan: Plan, steps: seq<Step>, a: nat)
    requires Steps(plan, steps) && a < |Events(plan, steps)|
    ensures
      var n := |steps| - 1;
      && n >= 0 && Steps(plan, steps[..n])
      && (if a < |Events(plan, steps[..n])| then Events(plan, steps)[a] == Events(plan, steps[..n])[a]
          else Brings(plan, steps[..n], steps[n], Events(plan, steps)[a]))
  {
  }

  /** The step that brought the a-th event into the table. */
  lemma {:induction false} StepOf(plan: Plan, steps: seq<Step>, a: nat) returns (q: nat)
    requires Steps(plan, steps) && a < |Events(plan, steps)|
    ensures q < |steps| && Brings(plan, steps[..q], steps[q], Events(plan, steps)[a])
    decreases |steps|
  {
    var n := |steps| - 1;
    LastEvents(plan, steps, a);
    if a < |Events(plan, steps[..n])| {
      q := StepOf(plan, steps[..n], a);
      assert steps[..n][..q] == steps[..q];
    } else {
      q := n;
    }
  }

  lemma {:induction false} TriesGrow(steps: seq<Step>, q: nat, u: Unit)
    requires q < |steps| && steps[q].Try? && steps[q].u == u
    ensures Tries(steps[..q], u) + 1 <= Tries(steps, u)
  {
    var n := |steps| - 1;
    if q < n {
      assert steps[..n][..q] == steps[..q];
      TriesGrow(steps[..n], q, u);
    }
  }

  /** The attempt whose task the a-th event is. */
  lemma EventOfAttempt(plan: Plan, steps: seq<Step>, a: nat) returns (n: nat)
    requires Steps(plan, steps) && a < |Events(plan, steps)|
    ensures
      var ev := Events(plan, steps)[a];
      1 <= n <= Tries(steps, ev.u) && ev.item in plan.tasks(ev.u, n)
  {
    var ev := Events(plan, steps)[a];
    var q := StepOf(plan, steps, a);
    BroughtByAttempt(plan, steps[..q], steps[q], ev);
    TriesGrow(steps, q, ev.u);
    n := Tries(steps[..q], ev.u) + 1;
  }

  lemma BroughtByAttempt(plan: Plan, before: seq<Step>, step: Step, ev: Event)
    requires Brings(plan, before, step, ev)
    ensures step.Try? && ev.u == step.u && ev.item in plan.tasks(ev.u, Tries(before, ev.u) + 1)
  {
  }
}
