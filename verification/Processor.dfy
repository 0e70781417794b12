/** worker/processor.go: one tick of a batch processor.

    What the world answers to a tick is a script: the claimed batch, the clock,
    the cancellation of the tick and what each Handle call does. The tick
    answers with the calls it makes, in order. */
module Processor {
  import opened Common
  import opened Errors

  datatype Config = Config(batchSize: int, batchTimeout: Duration, releases: bool)
  {
    /** The batch size a claim asks for: 100 unless a positive one is set. */
    function BatchSize(): (n: nat)
      ensures n > 0
    {
      if batchSize <= 0 then 100 else batchSize
    }
  }

  /** What Handle of an item did. */
  datatype Return = Returned(err: Option<Error>) | Panicked(reason: string)

  datatype Script<!T> = Script(
    start: Time,                                     // Now, as the tick starts
    claimed: Result<seq<T>>,
    canceled: nat -> bool,                           // ctx.Err() != nil before item i
    checked: nat -> Time,                            // Now, read by expired before item i
    began: nat -> Time,                              // Now, read as item i starts
    results: nat -> Return,
    onPanic: (T, Error) -> Option<Error>)

  datatype Pace = Idle | Busy

  /** A call of the tick on its steps. */
  datatype Action<T> =
    | Handle(item: T)
    | MarkDone(item: T, now: Time)
    | MarkFailed(item: T, error: Error, terminal: bool, now: Time)
    | Release(rest: seq<T>)

  /** The outcome of item i: the error of Handle, unless it carries a panic;
      then what OnPanic makes of it. */
  function Outcome<T>(w: Script<T>, item: T, i: nat): Option<Error> {
    var err := match w.results(i) case Returned(e) => e case Panicked(r) => Some(Panic(r));
    var panic := PanicOf(err);
    if panic.Some? then w.onPanic(item, panic.value) else err
  }

  predicate Expired<T>(cfg: Config, w: Script<T>, i: nat) {
    w.canceled(i) || (cfg.batchTimeout > 0 && w.checked(i) - w.start >= cfg.batchTimeout)
  }

  predicate Stops(outcome: Option<Error>) {
    outcome.Some? && IsHalt(outcome.value)
  }

  /** The mark of an item whose handling began at `began`. */
  function MarkOf<T>(item: T, began: Time, outcome: Option<Error>): Action<T> {
    match outcome
    case Some(e) => MarkFailed(item, e, IsPermanent(e), began)
    case None => MarkDone(item, began)
  }

  function Mark<T>(w: Script<T>, item: T, i: nat): Action<T> {
    MarkOf(item, w.began(i), Outcome(w, item, i))
  }

  /** How many items of the batch the tick handles: it stops before the first
      item it finds expired, and after the first whose outcome stops it. */
  function HandledCount<T>(cfg: Config, w: Script<T>, items: seq<T>, from: nat): (k: nat)
    requires from <= |items|
    ensures from <= k <= |items|
    ensures forall i | from <= i < k :: !Expired(cfg, w, i)
    ensures forall i | from <= i < k - 1 :: !Stops(Outcome(w, items[i], i))
    ensures k < |items| ==> Expired(cfg, w, k) || (k > from && Stops(Outcome(w, items[k - 1], k - 1)))
    decreases |items| - from
  {
    if from == |items| || Expired(cfg, w, from) then from
    else if Stops(Outcome(w, items[from], from)) then from + 1
    else HandledCount(cfg, w, items, from + 1)
  }

  /** Each of the items from `from` handled once, then marked once, in order. */
  function Worked<T>(w: Script<T>, items: seq<T>, k: nat): (a: seq<Action<T>>)
    requires k <= |items|
    ensures |a| == 2 * k
    ensures forall i | 0 <= i < k :: a[2 * i] == Handle(items[i]) && a[2 * i + 1] == Mark(w, items[i], i)
  {
    if k == 0 then [] else
      var before := Worked(w, items, k - 1);
      before + [Handle(items[k - 1]), Mark(w, items[k - 1], k - 1)]
  }

  /** The rest of a batch that stops, handed back in one call; a batch with no
      rest, or a source that cannot take it back, gets no call. */
  function HandedBack<T>(cfg: Config, rest: seq<T>): seq<Action<T>> {
    if cfg.releases && rest != [] then [Release(rest)] else []
  }

  // ----- the same, from the script -----

  ghost predicate NoPanicIn(e: Error) {
    forall x <- Chain(e) :: !x.Panic?
  }

  /** The mark of an outcome: done without an error; with one failed, at once for
      good when it is permanent. */
  predicate MarksOutcome<T(==)>(call: Action<T>, item: T, outcome: Option<Error>, began: Time) {
    if outcome.None? then call == MarkDone(item, began)
    else call == MarkFailed(item, outcome.value, IsPermanent(outcome.value), began)
  }

  /** How item i is marked, by what its handler did: a panic is marked as OnPanic
      makes of it, whether Handle panicked or returned an error with a panic in
      it, and any other error as it is. */
  ghost predicate MarkedByResult<T>(w: Script<T>, item: T, i: nat, call: Action<T>) {
    match w.results(i)
    case Panicked(reason) => MarksOutcome(call, item, w.onPanic(item, Panic(reason)), w.began(i))
    case Returned(None) => MarksOutcome(call, item, None, w.began(i))
    case Returned(Some(e)) =>
      if NoPanicIn(e) then MarksOutcome(call, item, Some(e), w.began(i))
      else exists p <- Chain(e) :: p.Panic? && MarksOutcome(call, item, w.onPanic(item, p), w.began(i))
  }

  /** A mark that stops the batch. */
  predicate MarksHalt<T>(call: Action<T>) {
    call.MarkFailed? && IsHalt(call.error)
  }

  /** The calls of a tick that handles the first k items. It handles none once it
      is canceled or BatchTimeout has passed since its start, it stops at once
      after a Halt, and it stops for nothing else. */
  ghost predicate IsTick<T>(cfg: Config, w: Script<T>, items: seq<T>, k: nat, calls: seq<Action<T>>) {
    && k <= |items|
    && |calls| == 2 * k + (if k < |items| && cfg.releases then 1 else 0)
    && (forall i | 0 <= i < k :: calls[2 * i] == Handle(items[i]) && MarkedByResult(w, items[i], i, calls[2 * i + 1]))
    && (k < |items| && cfg.releases ==> calls[2 * k] == Release(items[k..]))
    && (forall i | 0 <= i < k :: !w.canceled(i) && (cfg.batchTimeout > 0 ==> w.checked(i) < w.start + cfg.batchTimeout))
    && (forall i | 0 <= i < k - 1 :: !MarksHalt(calls[2 * i + 1]))
    && (k < |items| ==>
          || w.canceled(k) || (cfg.batchTimeout > 0 && w.checked(k) >= w.start + cfg.batchTimeout)
          || (k > 0 && MarksHalt(calls[2 * (k - 1) + 1])))
  }

  lemma MarkIsByResult<T>(w: Script<T>, item: T, i: nat)
    ensures MarkedByResult(w, item, i, Mark(w, item, i))
    ensures MarksHalt(Mark(w, item, i)) <==> Stops(Outcome(w, item, i))
  {
    if w.results(i).Panicked? {
      var p := Panic(w.results(i).reason);
      assert Chain(p) == {p};
    }
  }

  lemma WorkedByResult<T>(w: Script<T>, items: seq<T>, k: nat, rest: seq<Action<T>>, i: nat)
    requires i < k <= |items|
    ensures
      var calls := Worked(w, items, k) + rest;
      && calls[2 * i] == Handle(items[i]) && MarkedByResult(w, items[i], i, calls[2 * i + 1])
      && (MarksHalt(calls[2 * i + 1]) <==> Stops(Outcome(w, items[i], i)))
  {
    MarkIsByResult(w, items[i], i);
  }

  lemma TickIsFromScript<T>(cfg: Config, w: Script<T>, items: seq<T>, k: nat, calls: seq<Action<T>>)
    requires k == HandledCount(cfg, w, items, 0) && calls == Worked(w, items, k) + HandedBack(cfg, items[k..])
    ensures IsTick(cfg, w, items, k, calls)
    ensures k > 0 ==> (MarksHalt(calls[2 * (k - 1) + 1]) <==> Stops(Outcome(w, items[k - 1], k - 1)))
  {
    var rest := HandedBack(cfg, items[k..]);
    forall i | 0 <= i < k
      ensures calls[2 * i] == Handle(items[i]) && MarkedByResult(w, items[i], i, calls[2 * i + 1])
    {
      WorkedByResult(w, items, k, rest, i);
    }
    forall i | 0 <= i < k
      ensures !w.canceled(i) && (cfg.batchTimeout > 0 ==> w.checked(i) < w.start + cfg.batchTimeout)
    {
      assert !Expired(cfg, w, i);
    }
    forall i | 0 <= i < k - 1 ensures !MarksHalt(calls[2 * i + 1]) {
      WorkedByResult(w, items, k, rest, i);
      assert !Stops(Outcome(w, items[i], i));
    }
    if k > 0 { WorkedByResult(w, items, k, rest, k - 1); }
  }

  // ----- the loop -----

  /** The items of a batch in turn, to its end or to where it stops; whether it
      stopped after a Halt. */
  method Work<T>(cfg: Config, w: Script<T>, items: seq<T>) returns (calls: seq<Action<T>>, halted: bool)
    ensures
      var k := HandledCount(cfg, w, items, 0);
      && calls == Worked(w, items, k) + HandedBack(cfg, items[k..])
      && (halted <==> k > 0 && Stops(Outcome(w, items[k - 1], k - 1)))
  {
    calls := [];
    ghost var k := HandledCount(cfg, w, items, 0);
    var i := 0;
    while i < |items|
      invariant 0 <= i <= |items|
      invariant k == HandledCount(cfg, w, items, i)
      invariant calls == Worked(w, items, i)
      invariant i > 0 ==> !Stops(Outcome(w, items[i - 1], i - 1))
    {
      if Expired(cfg, w, i) {
        calls := calls + HandedBack(cfg, items[i..]);
        return calls, false;
      }
      var outcome := Outcome(w, items[i], i);
      calls := calls + [Handle(items[i]), Mark(w, items[i], i)];
      if Stops(outcome) {
        calls := calls + HandedBack(cfg, items[i + 1..]);
        return calls, true;
      }
      i := i + 1;
    }
    assert items[k..] == [];
    halted := false;
  }

  /** Every mix of Halt, cancellation, BatchTimeout and panic splits the batch
      in two: a prefix whose items are each handled once and marked once by
      what their handler did, and an untouched rest that is handed back. */
  method Drain<T>(cfg: Config, w: Script<T>) returns (pace: Pace, err: Option<string>, calls: seq<Action<T>>)
    ensures w.claimed.Err? ==> pace == Idle && err == Some(w.claimed.message) && calls == []
    ensures w.claimed.Ok? ==>
              var items := w.claimed.value;
              var k := HandledCount(cfg, w, items, 0);
              && err.None?
              && calls == Worked(w, items, k) + HandedBack(cfg, items[k..])
              && IsTick(cfg, w, items, k, calls)
              && (pace == Busy <==>
                    |items| >= (if cfg.batchSize <= 0 then 100 else cfg.batchSize) &&
                    !(k > 0 && MarksHalt(calls[2 * (k - 1) + 1])))
  {
    if w.claimed.Err? {
      return Idle, Some(w.claimed.message), [];
    }
    var halted;
    calls, halted := Work(cfg, w, w.claimed.value);
    TickIsFromScript(cfg, w, w.claimed.value, HandledCount(cfg, w, w.claimed.value, 0), calls);
    pace := if !halted && |w.claimed.value| >= cfg.BatchSize() then Busy else Idle;
    err := None;
  }

  // ----- the tick as a state machine -----

  /** Where a tick is between two of its calls. */
  datatype Phase<T> =
    | Resting
    | Between(start: Time, rest: seq<T>)
    | Handling(start: Time, item: T, rest: seq<T>, checked: Time, began: Time)
    | Marking(start: Time, item: T, rest: seq<T>, began: Time, outcome: Option<Error>)
    | Releasing(rest: seq<T>)

  datatype Move =
    | Begin(checked: Time, began: Time)        // not expired at `checked`: Handle is called
    | Return(outcome: Option<Error>)           // Handle, or OnPanic, returned
    | Settle                                   // the mark is made
    | Stop(canceled: bool, checked: Time)      // expired
    | HandBack                                 // the rest is released
    | Finish                                   // no item is left

  predicate TimedOut(cfg: Config, start: Time, checked: Time) {
    cfg.batchTimeout > 0 && checked - start >= cfg.batchTimeout
  }

  function Next<T>(cfg: Config, p: Phase<T>, m: Move): Option<Phase<T>> {
    match (p, m)
    case (Between(start, rest), Begin(checked, began)) =>
      if rest != [] && !TimedOut(cfg, start, checked)
      then Some(Handling(start, rest[0], rest[1..], checked, began)) else None
    case (Between(start, rest), Stop(canceled, checked)) =>
      if rest != [] && (canceled || TimedOut(cfg, start, checked)) then Some(Releasing(rest)) else None
    case (Between(_, rest), Finish) =>
      if rest == [] then Some(Resting) else None
    case (Handling(start, item, rest, _, began), Return(outcome)) =>
      Some(Marking(start, item, rest, began, outcome))
    case (Marking(start, _, rest, _, outcome), Settle) =>
      Some(if Stops(outcome) then Releasing(rest) else Between(start, rest))
    case (Releasing(_), HandBack) => Some(Resting)
    case _ => None
  }

  /** The calls a move makes. */
  function CallsOf<T>(cfg: Config, p: Phase<T>, m: Move): seq<Action<T>> {
    match (p, m)
    case (Between(_, rest), Begin(_, _)) => if rest == [] then [] else [Handle(rest[0])]
    case (Marking(_, item, _, began, outcome), Settle) => [MarkOf(item, began, outcome)]
    case (Releasing(rest), HandBack) => HandedBack(cfg, rest)
    case _ => []
  }

  /** The calls of a whole sequence of moves, when each is possible in turn and
      the last one ends the tick. */
  function Trace<T>(cfg: Config, p: Phase<T>, moves: seq<Move>): Option<seq<Action<T>>>
    decreases |moves|
  {
    if moves == [] then (if p.Resting? then Some([]) else None) else
      var q := Next(cfg, p, moves[0]);
      if q.None? then None else
        var rest := Trace(cfg, q.value, moves[1..]);
        if rest.None? then None else Some(CallsOf(cfg, p, moves[0]) + rest.value)
  }

  /** The moves of the tick from its i-th item on. */
  function Moves<T>(cfg: Config, w: Script<T>, items: seq<T>, i: nat): seq<Move>
    requires i <= |items|
    decreases |items| - i
  {
    if i == |items| then [Finish]
    else if Expired(cfg, w, i) then [Stop(w.canceled(i), w.checked(i)), HandBack]
    else
      // A canceled tick never reaches this item, so its clock was read or has no bound.
      var outcome := Outcome(w, items[i], i);
      [Begin(w.checked(i), w.began(i)), Return(outcome), Settle] +
      if Stops(outcome) then [HandBack] else Moves(cfg, w, items, i + 1)
  }

  /** The state machine is the loop: its moves make exactly the calls of Drain. */
  lemma {:induction false} MachineIsDrain<T>(cfg: Config, w: Script<T>, items: seq<T>, i: nat)
    requires i <= |items|
    ensures
      var k := HandledCount(cfg, w, items, i);
      var trace := Trace(cfg, Between(w.start, items[i..]), Moves(cfg, w, items, i));
      trace.Some? && Worked(w, items, i) + trace.value == Worked(w, items, k) + HandedBack(cfg, items[k..])
    decreases |items| - i
  {
    var p := Between(w.start, items[i..]);
    if i == |items| {
      TraceStep(cfg, p, Finish, []);
    } else if Expired(cfg, w, i) {
      StopTrace(cfg, p, Stop(w.canceled(i), w.checked(i)));
    } else if Stops(Outcome(w, items[i], i)) {
      ItemTrace(cfg, w, items, i, [HandBack]);
      TraceStep(cfg, Releasing(items[i + 1..]), HandBack, []);
      var back := HandedBack(cfg, items[i + 1..]);
      assert [HandBack] == [HandBack] + [] && back + [] == back;
      WorkedNext(w, items, i, back);
    } else {
      var tail := Moves(cfg, w, items, i + 1);
      ItemTrace(cfg, w, items, i, tail);
      MachineIsDrain(cfg, w, items, i + 1);
      WorkedNext(w, items, i, Trace(cfg, Between(w.start, items[i + 1..]), tail).value);
    }
  }

  /** The moves of a tick over these items, as a grammar: it finishes a batch that
      has no item left, stops only when it is canceled or BatchTimeout has passed,
      and begins an item only when it has not; an item is begun, returned and
      marked, and a Halt is followed by the release. */
  ghost predicate TickMoves<T>(cfg: Config, start: Time, items: seq<T>, moves: seq<Move>)
    decreases |items|
  {
    if items == [] then moves == [Finish]
    else if |moves| == 2 then
      && moves[0].Stop? && moves[1] == HandBack
      && (moves[0].canceled || (cfg.batchTimeout > 0 && moves[0].checked >= start + cfg.batchTimeout))
    else
      && |moves| >= 3 && moves[0].Begin? && moves[1].Return? && moves[2] == Settle
      && !(cfg.batchTimeout > 0 && moves[0].checked >= start + cfg.batchTimeout)
      && if Stops(moves[1].outcome) then moves[3..] == [HandBack] else TickMoves(cfg, start, items[1..], moves[3..])
  }

  lemma TraceFirst<T>(cfg: Config, p: Phase<T>, moves: seq<Move>)
    requires moves != []
    ensures Trace(cfg, p, moves).Some? <==>
            Next(cfg, p, moves[0]).Some? && Trace(cfg, Next(cfg, p, moves[0]).value, moves[1..]).Some?
  {
  }

  lemma RestingTrace<T>(cfg: Config, moves: seq<Move>)
    ensures Trace(cfg, Phase<T>.Resting, moves).Some? <==> moves == []
  {
  }

  lemma ReleasingTrace<T>(cfg: Config, rest: seq<T>, moves: seq<Move>)
    ensures Trace(cfg, Releasing(rest), moves).Some? <==> moves == [HandBack]
  {
    if moves != [] {
      TraceFirst(cfg, Releasing(rest), moves);
      RestingTrace<T>(cfg, moves[1..]);
      assert moves == [moves[0]] + moves[1..];
    }
  }

  lemma BegunTrace<T>(cfg: Config, start: Time, items: seq<T>, moves: seq<Move>)
    requires moves != [] && moves[0].Begin? && Next(cfg, Between(start, items), moves[0]).Some?
    ensures Trace(cfg, Between(start, items), moves).Some? <==>
            && |moves| >= 3 && moves[1].Return? && moves[2] == Settle
            && if Stops(moves[1].outcome) then moves[3..] == [HandBack]
               else Trace(cfg, Between(start, items[1..]), moves[3..]).Some?
  {
    TraceFirst(cfg, Between(start, items), moves);
    var p := Next(cfg, Between(start, items), moves[0]).value;
    if |moves| > 1 {
      TraceFirst(cfg, p, moves[1..]);
      if moves[1].Return? && |moves| > 2 {
        var q := Next(cfg, p, moves[1]).value;
        assert moves[1..][1..] == moves[2..] && moves[2..][1..] == moves[3..];
        TraceFirst(cfg, q, moves[2..]);
        ReleasingTrace(cfg, items[1..], moves[3..]);
      }
    }
  }

  /** The machine makes those moves and no others. */
  lemma {:induction false} TracesAreTicks<T>(cfg: Config, start: Time, items: seq<T>, moves: seq<Move>)
    ensures Trace(cfg, Between(start, items), moves).Some? <==> TickMoves(cfg, start, items, moves)
    decreases |items|
  {
    var p := Between(start, items);
    if moves != [] && Next(cfg, p, moves[0]).Some? {
      if moves[0].Begin? {
        BegunTrace(cfg, start, items, moves);
        if |moves| >= 3 { TracesAreTicks(cfg, start, items[1..], moves[3..]); }
      } else {
        TraceFirst(cfg, p, moves);
        RestingTrace<T>(cfg, moves[1..]);
        ReleasingTrace(cfg, items, moves[1..]);
        assert moves == [moves[0]] + moves[1..];
      }
    }
  }

  lemma WorkedNext<T>(w: Script<T>, items: seq<T>, i: nat, rest: seq<Action<T>>)
    requires i < |items|
    ensures Worked(w, items, i) + ([Handle(items[i]), Mark(w, items[i], i)] + rest) == Worked(w, items, i + 1) + rest
  {
  }

  lemma StopTrace<T>(cfg: Config, p: Phase<T>, stop: Move)
    requires stop.Stop? && Next(cfg, p, stop).Some?
    ensures Trace(cfg, p, [stop, HandBack]) == Some(HandedBack(cfg, p.rest))
  {
    TraceStep(cfg, p, stop, [HandBack]);
    TraceStep(cfg, Releasing(p.rest), HandBack, []);
    assert [stop, HandBack] == [stop] + [HandBack] && [HandBack] == [HandBack] + [];
    var back := HandedBack(cfg, p.rest);
    assert [] + (back + []) == back;
  }

  lemma ItemTrace<T>(cfg: Config, w: Script<T>, items: seq<T>, i: nat, tail: seq<Move>)
    requires i < |items| && !Expired(cfg, w, i)
    ensures
      var outcome := Outcome(w, items[i], i);
      var next := if Stops(outcome) then Releasing(items[i + 1..]) else Between(w.start, items[i + 1..]);
      var rest := Trace(cfg, next, tail);
      Trace(cfg, Between(w.start, items[i..]), [Begin(w.checked(i), w.began(i)), Return(outcome), Settle] + tail)
      == if rest.None? then None else Some([Handle(items[i]), Mark(w, items[i], i)] + rest.value)
  {
    var outcome := Outcome(w, items[i], i);
    var begin, back := Begin(w.checked(i), w.began(i)), Return(outcome);
    assert items[i..][1..] == items[i + 1..];
    var p1 := Between(w.start, items[i..]);
    var p2 := Handling(w.start, items[i], items[i + 1..], w.checked(i), w.began(i));
    var p3 := Marking(w.start, items[i], items[i + 1..], w.began(i), outcome);
    TraceStep(cfg, p1, begin, [back] + ([Settle] + tail));
    TraceStep(cfg, p2, back, [Settle] + tail);
    TraceStep(cfg, p3, Settle, tail);
    assert [begin, back, Settle] + tail == [begin] + ([back] + ([Settle] + tail));
    assert Next(cfg, p1, begin) == Some(p2) && Next(cfg, p2, back) == Some(p3);
    var handle, mark := Handle(items[i]), Mark(w, items[i], i);
    assert CallsOf(cfg, p1, begin) == [handle] && CallsOf(cfg, p2, back) == [] && CallsOf(cfg, p3, Settle) == [mark];
    var rest := Trace(cfg, Next(cfg, p3, Settle).value, tail);
    if rest.Some? {
      assert [handle] + ([] + ([mark] + rest.value)) == [handle, mark] + rest.value;
    }
  }

  lemma TraceStep<T>(cfg: Config, p: Phase<T>, m: Move, tail: seq<Move>)
    requires Next(cfg, p, m).Some?
    ensures
      var rest := Trace(cfg, Next(cfg, p, m).value, tail);
      Trace(cfg, p, [m] + tail) == if rest.None? then None else Some(CallsOf(cfg, p, m) + rest.value)
  {
    assert ([m] + tail)[1..] == tail;
  }
}
