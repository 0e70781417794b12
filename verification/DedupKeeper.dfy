/** dedup/dedup.go: Keeper.Do, with the calls of other holders in between. */
module DedupKeeper {
  import opened Common
  import opened Register

  /** What fn does: a value and its encoding, an error with a value, a panic. */
  datatype Work =
    | Gives(value: string, encoded: Result<string>)
    | Fails(value: string, err: string)
    | Panics(reason: string)

  /** What Do gives its caller. `Repeat` is the stored value, to be decoded. */
  datatype Outcome =
    | EmptyKey
    | Unavailable(err: string)
    | Busy
    | Repeat(stored: string)
    | Fresh(value: string)
    | Failed(value: string, err: string)
    | NotEncoded(err: string)
    | Panicked(reason: string)

  /** The calls of others that take effect while fn runs: later than its start,
      and never with its token. */
  ghost predicate Meanwhile(calls: seq<Call>, token: string, start: Time, finish: Time) {
    && InOrder(calls)
    && start <= finish
    && forall c <- calls :: start <= c.now <= finish && c.op.token != token
  }

  /** What a call of Do does to the register: it settles its key once if it ran
      fn, storing a success and freeing the key otherwise; a store that is down
      leaves the key to its lease. */
  function Settled(reg: Reg, key: string, token: string, w: Work, ttl: Duration, now: Time): Reg {
    if w.Gives? && w.encoded.Ok? then Step(reg, Op.Complete(key, token, w.encoded.value, ttl), now).0
    else Step(reg, Op.Release(key, token), now).0
  }

  /** The store a Keeper is built on, as its contract has it: every call does
      what the register does. `DedupStores.Memory.Do` and `DedupStores.Redis.Do`
      have the same contract. */
  class Store {
    var reg: Reg
    ghost var clock: Time

    constructor (reg: Reg, ghost clock: Time)
      ensures this.reg == reg && this.clock == clock
    {
      this.reg := reg;
      this.clock := clock;
    }

    method Do(call: Call) returns (a: Answer)
      requires clock <= call.now
      modifies this
      ensures clock == call.now && (reg, a) == Step(old(reg), call.op, call.now)
    {
      var step := Step(reg, call.op, call.now);
      reg, a, clock := step.0, step.1, call.now;
    }
  }

  /** How a call of the store comes back: well, or with an error, before or after
      it took effect. */
  datatype Reply = Received | Failing(err: string, effective: bool)

  predicate Effective(r: Reply) {
    r.Received? || r.effective
  }

  /** What other callers do while fn runs. */
  method Others(m: Store, others: seq<Call>, finish: Time)
    requires (forall c <- others :: m.clock <= c.now <= finish) && InOrder(others) && m.clock <= finish
    modifies m
    ensures m.reg == After(old(m.reg), others) && m.clock <= finish
  {
    for i := 0 to |others|
      invariant m.reg == After(old(m.reg), others[..i])
      invariant m.clock == if i == 0 then old(m.clock) else others[i - 1].now
      invariant m.clock <= finish
    {
      assert others[i] in others;
      assert others[..i + 1][..i] == others[..i];
      var _ := m.Do(others[i]);
    }
    assert others[..|others|] == others;
  }

  /** Do on a store. `acquire` and `settle` are the replies of the store to the
      first call and to the last. */
  method Do(m: Store, key: string, token: string, w: Work, lease: Duration, ttl: Duration,
            acquire: Reply, settle: Reply, start: Time, others: seq<Call>, finish: Time)
    returns (r: Outcome, ran: bool)
    requires m.clock <= start && Meanwhile(others, token, start, finish)
    modifies m
    ensures m.clock <= finish
    ensures ran <==> key != "" && acquire.Received? && View(old(m.reg), key, start).Free?
    ensures key == "" ==> r == EmptyKey && m.reg == old(m.reg)
    ensures key != "" && acquire.Failing? ==>
              r == Unavailable(acquire.err) &&
              m.reg == if acquire.effective
                       then Step(old(m.reg), Op.Acquire(key, token, lease), start).0
                       else old(m.reg)
    ensures key != "" && acquire.Received? && View(old(m.reg), key, start).Running? ==> r == Busy && m.reg == old(m.reg)
    ensures key != "" && acquire.Received? && View(old(m.reg), key, start).Stored? ==>
              r == Repeat(View(old(m.reg), key, start).value) && m.reg == old(m.reg)
    ensures ran && w.Gives? && w.encoded.Ok? ==> r == Fresh(w.value)
    ensures ran && w.Gives? && w.encoded.Err? ==> r == NotEncoded(w.encoded.message)
    ensures ran && w.Fails? ==> r == Failed(w.value, w.err)
    ensures ran && w.Panics? ==> r == Panicked(w.reason)
    ensures ran ==>
              var held := After(old(m.reg)[key := Running(token, start + lease)], others);
              m.reg == if Effective(settle) then Settled(held, key, token, w, ttl, finish) else held
  {
    ran := false;
    if key == "" {
      return EmptyKey, false;
    }
    var a := InProgress;
    if Effective(acquire) {
      a := m.Do(Call(Op.Acquire(key, token, lease), start));
    }
    if acquire.Failing? {
      return Unavailable(acquire.err), false;
    }
    if a == InProgress {
      return Busy, false;
    }
    if a.Found? {
      return Repeat(a.value), false;
    }
    ran := true;
    Others(m, others, finish);
    var kept := false;
    match w {
      case Panics(reason) => r := Panicked(reason);
      case Fails(value, err) => r := Failed(value, err);
      case Gives(value, Err(message)) => r := NotEncoded(message);
      case Gives(value, Ok(encoded)) =>
        kept := true;
        if Effective(settle) {
          var _ := m.Do(Call(Op.Complete(key, token, encoded, ttl), finish));
        }
        r := Fresh(value);
    }
    if !kept && Effective(settle) {
      var _ := m.Do(Call(Op.Release(key, token), finish));
    }
  }

  /** Others leave the record of a running call alone while its lease lasts. */
  lemma {:induction false} OthersLeaveHolder(r: Reg, calls: seq<Call>, key: string, token: string, until: Time)
    requires key in r && r[key] == Running(token, until)
    requires forall c <- calls :: c.op.token != token && c.now < until
    ensures key in After(r, calls) && After(r, calls)[key] == Running(token, until)
  {
    if calls != [] {
      var n := |calls| - 1;
      assert forall c <- calls[..n] :: c in calls;
      OthersLeaveHolder(r, calls[..n], key, token, until);
      assert calls[n] in calls;
    }
  }

  /** The promise of Do: a fn that succeeds within its lease has run for the key,
      and for the whole TTL from then every repeat gets its value without running
      again, whatever else is called; an fn that fails frees the key at once. */
  lemma RunsOncePerKey(reg: Reg, key: string, token: string, w: Work, lease: Duration, ttl: Duration,
                       start: Time, others: seq<Call>, finish: Time, later: seq<Call>, now: Time)
    requires Meanwhile(others, token, start, finish) && finish < start + lease && w.Gives? && w.encoded.Ok?
    requires finish <= now < finish + ttl && forall c <- later :: c.now <= now
    ensures
      var held := After(reg[key := Running(token, start + lease)], others);
      View(After(Settled(held, key, token, w, ttl, finish), later), key, now) == Stored(w.encoded.value, finish + ttl)
  {
    var running := reg[key := Running(token, start + lease)];
    OthersLeaveHolder(running, others, key, token, start + lease);
    var held := After(running, others);
    StoredStays(Settled(held, key, token, w, ttl, finish), later, key, w.encoded.value, finish + ttl);
  }

  lemma {:induction false} StoredStays(r: Reg, calls: seq<Call>, key: string, value: string, until: Time)
    requires key in r && r[key] == Stored(value, until) && forall c <- calls :: c.now < until
    ensures key in After(r, calls) && After(r, calls)[key] == Stored(value, until)
  {
    if calls != [] {
      var n := |calls| - 1;
      assert forall c <- calls[..n] :: c in calls;
      StoredStays(r, calls[..n], key, value, until);
      assert calls[n] in calls;
    }
  }

  /** After an error, a value that does not encode or a panic the key is free at
      once, and stays so while nobody takes it. */
  lemma FailureFreesKey(reg: Reg, key: string, token: string, w: Work, lease: Duration, ttl: Duration,
                        start: Time, others: seq<Call>, finish: Time, now: Time)
    requires Meanwhile(others, token, start, finish) && finish < start + lease && !(w.Gives? && w.encoded.Ok?)
    ensures
      var held := After(reg[key := Running(token, start + lease)], others);
      View(Settled(held, key, token, w, ttl, finish), key, now).Free?
  {
    OthersLeaveHolder(reg[key := Running(token, start + lease)], others, key, token, start + lease);
  }

  /** A result that was not stored leaves the key to its lease: whatever others
      did within it, the key is busy until the lease ends and free from then. */
  lemma LostResultFreesAtLeaseEnd(reg: Reg, key: string, token: string, start: Time, lease: Duration,
                                  others: seq<Call>, now: Time)
    requires forall c <- others :: c.op.token != token && c.now < start + lease
    ensures
      var held := After(reg[key := Running(token, start + lease)], others);
      View(held, key, now) == if now < start + lease then Running(token, start + lease) else Free
  {
    OthersLeaveHolder(reg[key := Running(token, start + lease)], others, key, token, start + lease);
  }

  /** A call of Do on the key: its token, its fn, its time and what others do while
      fn runs. The replies of the store are received. */
  datatype Turn = Turn(token: string, w: Work, start: Time, others: seq<Call>, finish: Time)

  predicate Unsuccessful(r: Outcome) {
    r.Failed? || r.NotEncoded? || r.Panicked?
  }

  /** Do, and Do again on the key after what others did in between. When the first
      ran and settled within its lease: after a success the second gets its
      encoding for the whole TTL, whatever others did, and does not run; after an
      error, a value that does not encode or a panic it runs, unless another took
      the key in between. */
  method DoAgain(m: Store, key: string, a: Turn, b: Turn, lease: Duration, ttl: Duration, between: seq<Call>)
    returns (first: Outcome, ran: bool, second: Outcome, again: bool)
    requires m.clock <= a.start && Meanwhile(a.others, a.token, a.start, a.finish)
    requires InOrder(between) && a.finish <= b.start && forall c <- between :: a.finish <= c.now <= b.start
    requires Meanwhile(b.others, b.token, b.start, b.finish)
    modifies m
    ensures ran && first.Fresh? && a.finish < a.start + lease && b.start < a.finish + ttl ==>
              a.w.Gives? && a.w.encoded.Ok? && first.value == a.w.value &&
              second == Repeat(a.w.encoded.value) && !again
    ensures ran && Unsuccessful(first) && a.finish < a.start + lease && between == [] ==> again
  {
    ghost var was := m.reg;
    first, ran := Do(m, key, a.token, a.w, lease, ttl, Received, Received, a.start, a.others, a.finish);
    ghost var held := After(was[key := Running(a.token, a.start + lease)], a.others);
    if ran && a.finish < a.start + lease {
      if first.Fresh? {
        if b.start < a.finish + ttl {
          RunsOncePerKey(was, key, a.token, a.w, lease, ttl, a.start, a.others, a.finish, between, b.start);
        }
      } else {
        FailureFreesKey(was, key, a.token, a.w, lease, ttl, a.start, a.others, a.finish, b.start);
      }
    }
    Others(m, between, b.start);
    second, again := Do(m, key, b.token, b.w, lease, ttl, Received, Received, b.start, b.others, b.finish);
  }
}
