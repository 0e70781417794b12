/** dedup/memory.go and dedup/redis.go: two stores that answer as one register. */
module DedupStores {
  import opened Common
  import opened Register

  /** The record of a key: a running one holds the token of its call, a done one
      holds the stored value and no token. */
  datatype Entry = Entry(token: string, value: string, expires: Time)

  const SWEEP_EVERY: Duration := MINUTE

  function EntryView(entries: map<string, Entry>, key: string, now: Time): Slot {
    if key !in entries || now >= entries[key].expires then Free
    else if entries[key].token != "" then Running(entries[key].token, entries[key].expires)
    else Stored(entries[key].value, entries[key].expires)
  }

  /** From `clock` on, the entries and the register hold the same records. */
  ghost predicate Agrees(entries: map<string, Entry>, reg: Reg, clock: Time) {
    forall key: string, now: Time | now >= clock :: EntryView(entries, key, now) == View(reg, key, now)
  }

  class Memory {
    var entries: map<string, Entry>
    var swept: Time
    const sweeps: bool  // the sweep can be left out, to compare

    ghost var reg: Reg
    ghost var clock: Time

    ghost predicate Valid()
      reads this
    {
      Agrees(entries, reg, clock)
    }

    constructor (sweeps: bool, swept: Time, ghost clock: Time)
      ensures Valid() && reg == map[] && this.clock == clock
    {
      entries := map[];
      this.swept := swept;
      this.sweeps := sweeps;
      reg := map[];
      this.clock := clock;
    }

    /** Expired records are dropped, at most once per SWEEP_EVERY; no answer
        depends on it. */
    method Sweep(now: Time)
      requires Valid() && clock <= now
      modifies this`entries, this`swept, this`clock
      ensures Valid() && clock == now
      ensures entries.Keys <= old(entries).Keys
    {
      clock := now;
      if !sweeps || now - swept < SWEEP_EVERY {
        return;
      }
      swept := now;
      entries := map key | key in entries && now < entries[key].expires :: entries[key];
    }

    method Acquire(key: string, token: string, lease: Duration, now: Time) returns (a: Answer)
      requires Valid() && clock <= now && token != ""
      modifies this
      ensures Valid() && clock == now
      ensures (reg, a) == Step(old(reg), Op.Acquire(key, token, lease), now)
    {
      Sweep(now);
      assert EntryView(entries, key, now) == View(reg, key, now);
      if key in entries && now < entries[key].expires {
        if entries[key].token != "" {
          return InProgress;
        }
        return Found(entries[key].value);
      }
      ghost var was, wasReg := entries, reg;
      entries := entries[key := Entry(token, "", now + lease)];
      reg := reg[key := Running(token, now + lease)];
      assert forall k: string, t: Time | t >= now && k != key ::
               EntryView(entries, k, t) == EntryView(was, k, t) && View(reg, k, t) == View(wasReg, k, t);
      return Acquired;
    }

    method Complete(key: string, token: string, value: string, ttl: Duration, now: Time) returns (ok: bool)
      requires Valid() && clock <= now && token != ""
      modifies this
      ensures Valid() && clock == now
      ensures (reg, Completed(ok)) == Step(old(reg), Op.Complete(key, token, value, ttl), now)
    {
      clock := now;
      assert EntryView(entries, key, now) == View(reg, key, now);
      if key !in entries || entries[key].token != token || now >= entries[key].expires {
        return false;
      }
      ghost var was, wasReg := entries, reg;
      entries := entries[key := Entry("", value, now + ttl)];
      reg := reg[key := Stored(value, now + ttl)];
      assert forall k: string, t: Time | t >= now && k != key ::
               EntryView(entries, k, t) == EntryView(was, k, t) && View(reg, k, t) == View(wasReg, k, t);
      return true;
    }

    /** An expired record of the token is deleted too, which no one can see. */
    method Release(key: string, token: string, now: Time)
      requires Valid() && clock <= now && token != ""
      modifies this
      ensures Valid() && clock == now
      ensures reg == Step(old(reg), Op.Release(key, token), now).0
    {
      clock := now;
      assert EntryView(entries, key, now) == View(reg, key, now);
      ghost var was := entries;
      if key in entries && entries[key].token == token {
        entries := entries - {key};
      }
      reg := Step(reg, Op.Release(key, token), now).0;
      assert forall k: string, t: Time | t >= now && k != key :: EntryView(entries, k, t) == EntryView(was, k, t);
    }

    method Do(call: Call) returns (a: Answer)
      requires Valid() && clock <= call.now && call.op.token != ""
      modifies this
      ensures Valid() && clock == call.now
      ensures (reg, a) == Step(old(reg), call.op, call.now)
    {
      match call.op
      case Acquire(key, token, lease) => a := Acquire(key, token, lease, call.now);
      case Complete(key, token, value, ttl) =>
        var ok := Complete(key, token, value, ttl, call.now);
        a := Completed(ok);
      case Release(key, token) =>
        Release(key, token, call.now);
        a := Released;
    }
  }

  // ----- Redis -----

  const PREFIX := "dedup:"
  const RUNNING_MARK := "p:"
  const DONE_MARK := "d:"

  predicate HasPrefix(s: string, prefix: string) {
    prefix <= s
  }

  /** A duration for PX: whole milliseconds, at least 1. */
  function Millis(d: Duration): (ms: int)
    ensures ms >= 1
  {
    Max(d / MILLISECOND, 1)
  }

  function Kept(d: Duration): Duration {
    Millis(d) * MILLISECOND
  }

  /** PX keeps a duration as it is exactly when it is whole milliseconds, and
      some. */
  predicate WholeMillis(d: Duration) {
    d >= MILLISECOND && d % MILLISECOND == 0
  }

  lemma KeptIffWholeMillis(d: Duration)
    ensures Kept(d) == d <==> WholeMillis(d)
  {
  }

  /** A string key and when it expires. */
  datatype Record = Record(text: string, expires: Time)

  function Get(db: map<string, Record>, key: string, now: Time): Option<string> {
    if key in db && now < db[key].expires then Some(db[key].text) else None
  }

  function Parse(text: string): Option<Answer> {
    if HasPrefix(text, RUNNING_MARK) then Some(InProgress)
    else if HasPrefix(text, DONE_MARK) then Some(Found(text[|DONE_MARK|..]))
    else None
  }

  /** The text of a record. */
  function TextOf(slot: Slot): Option<string> {
    match slot
    case Free => None
    case Running(token, _) => Some(RUNNING_MARK + token)
    case Stored(value, _) => Some(DONE_MARK + value)
  }

  /** The text says which record it is: a running one is never taken for a done
      one, and the token or the value comes back. */
  lemma TextIsFaithful(a: Slot, b: Slot)
    requires TextOf(a) == TextOf(b)
    ensures a.Running? <==> b.Running?
    ensures a.Stored? <==> b.Stored?
    ensures a.Running? ==> a.token == b.token
    ensures a.Stored? ==> a.value == b.value
    ensures a.Running? ==> Parse(TextOf(a).value) == Some(InProgress)
    ensures a.Stored? ==> Parse(TextOf(a).value) == Some(Found(a.value))
  {
    if a.Running? && b.Running? {
      assert (RUNNING_MARK + a.token)[2..] == a.token && (RUNNING_MARK + b.token)[2..] == b.token;
    } else if a.Stored? && b.Stored? {
      assert (DONE_MARK + a.value)[2..] == a.value && (DONE_MARK + b.value)[2..] == b.value;
    }
    if a.Stored? {
      assert (DONE_MARK + a.value)[0] == 'd' && (DONE_MARK + a.value)[2..] == a.value;
    }
  }

  /** From `clock` on, the keys of the store hold the records of the register. */
  ghost predicate Mirrors(db: map<string, Record>, reg: Reg, clock: Time) {
    forall key: string, now: Time | now >= clock :: Get(db, PREFIX + key, now) == TextOf(View(reg, key, now))
  }

  lemma PrefixIsInjective(a: string, b: string)
    ensures PREFIX + a == PREFIX + b <==> a == b
  {
    assert (PREFIX + a)[|PREFIX|..] == a && (PREFIX + b)[|PREFIX|..] == b;
  }

  lemma MirrorsAfterSet(db: map<string, Record>, reg: Reg, clock: Time, now: Time, key: string, slot: Slot)
    requires Mirrors(db, reg, clock) && clock <= now && !slot.Free?
    ensures Mirrors(db[PREFIX + key := Record(TextOf(slot).value, slot.until)], reg[key := slot], now)
  {
    var db', reg' := db[PREFIX + key := Record(TextOf(slot).value, slot.until)], reg[key := slot];
    forall k: string, t: Time | t >= now
      ensures Get(db', PREFIX + k, t) == TextOf(View(reg', k, t))
    {
      PrefixIsInjective(k, key);
      assert Get(db, PREFIX + k, t) == TextOf(View(reg, k, t));
    }
  }

  lemma MirrorsAfterDelete(db: map<string, Record>, reg: Reg, clock: Time, now: Time, key: string)
    requires Mirrors(db, reg, clock) && clock <= now
    ensures Mirrors(db - {PREFIX + key}, reg[key := Free], now)
  {
    var db', reg' := db - {PREFIX + key}, reg[key := Free];
    forall k: string, t: Time | t >= now
      ensures Get(db', PREFIX + k, t) == TextOf(View(reg', k, t))
    {
      PrefixIsInjective(k, key);
      assert Get(db, PREFIX + k, t) == TextOf(View(reg, k, t));
    }
  }

  class Redis {
    var db: map<string, Record>

    ghost var reg: Reg
    ghost var clock: Time

    ghost predicate Valid()
      reads this
    {
      Mirrors(db, reg, clock)
    }

    constructor (ghost clock: Time)
      ensures Valid() && reg == map[] && this.clock == clock
    {
      db := map[];
      reg := map[];
      this.clock := clock;
    }

    /** acquireScript and what acquire makes of its reply. A key that is not a
        dedup record is an error, and there is none. */
    method Acquire(key: string, token: string, lease: Duration, now: Time) returns (r: Result<Answer>)
      requires Valid() && clock <= now
      modifies this
      ensures Valid() && clock == now
      ensures r.Ok? && (reg, r.value) == Step(old(reg), Op.Acquire(key, token, Kept(lease)), now)
    {
      var v := Get(db, PREFIX + key, now);
      ghost var slot := View(reg, key, now);
      assert v == TextOf(slot);
      TextIsFaithful(slot, slot);
      if v.None? {
        MirrorsAfterSet(db, reg, clock, now, key, Running(token, now + Kept(lease)));
        db := db[PREFIX + key := Record(RUNNING_MARK + token, now + Kept(lease))];
        reg := reg[key := Running(token, now + Kept(lease))];
        clock := now;
        return Ok(Acquired);
      }
      clock := now;
      if HasPrefix(v.value, RUNNING_MARK) {
        return Ok(InProgress);
      }
      if !HasPrefix(v.value, DONE_MARK) {
        return Err("redis acquire: key " + key + " is not a dedup record");
      }
      return Ok(Found(v.value[|DONE_MARK|..]));
    }

    method Complete(key: string, token: string, value: string, ttl: Duration, now: Time) returns (ok: bool)
      requires Valid() && clock <= now
      modifies this
      ensures Valid() && clock == now
      ensures (reg, Completed(ok)) == Step(old(reg), Op.Complete(key, token, value, Kept(ttl)), now)
    {
      ghost var slot := View(reg, key, now);
      assert Get(db, PREFIX + key, now) == TextOf(slot);
      ok := Get(db, PREFIX + key, now) == Some(RUNNING_MARK + token);
      if ok {
        TextIsFaithful(slot, Running(token, 0));
        MirrorsAfterSet(db, reg, clock, now, key, Stored(value, now + Kept(ttl)));
        db := db[PREFIX + key := Record(DONE_MARK + value, now + Kept(ttl))];
        reg := reg[key := Stored(value, now + Kept(ttl))];
      }
      clock := now;
    }

    method Release(key: string, token: string, now: Time)
      requires Valid() && clock <= now
      modifies this
      ensures Valid() && clock == now
      ensures reg == Step(old(reg), Op.Release(key, token), now).0
    {
      ghost var slot := View(reg, key, now);
      assert Get(db, PREFIX + key, now) == TextOf(slot);
      if Get(db, PREFIX + key, now) == Some(RUNNING_MARK + token) {
        TextIsFaithful(slot, Running(token, 0));
        MirrorsAfterDelete(db, reg, clock, now, key);
        db := db - {PREFIX + key};
        reg := reg[key := Free];
      }
      clock := now;
    }

    method Do(call: Call) returns (a: Answer)
      requires Valid() && clock <= call.now
      modifies this
      ensures Valid() && clock == call.now
      ensures (reg, a) == Step(old(reg), RoundedOp(call.op), call.now)
    {
      match call.op
      case Acquire(key, token, lease) =>
        var r := Acquire(key, token, lease, call.now);
        a := r.value;
      case Complete(key, token, value, ttl) =>
        var ok := Complete(key, token, value, ttl, call.now);
        a := Completed(ok);
      case Release(key, token) =>
        Release(key, token, call.now);
        a := Released;
    }
  }

  // ----- sequences of calls -----

  /** The operation with the duration PX makes of its own. */
  function RoundedOp(op: Op): Op {
    match op
    case Acquire(key, token, lease) => Op.Acquire(key, token, Kept(lease))
    case Complete(key, token, value, ttl) => Op.Complete(key, token, value, Kept(ttl))
    case Release(_, _) => op
  }

  function Rounded(calls: seq<Call>): (rounded: seq<Call>)
    ensures |rounded| == |calls|
    ensures forall i | 0 <= i < |calls| :: rounded[i] == Call(RoundedOp(calls[i].op), calls[i].now)
  {
    seq(|calls|, i requires 0 <= i < |calls| => Call(RoundedOp(calls[i].op), calls[i].now))
  }

  predicate WholeOp(op: Op) {
    match op
    case Acquire(_, _, lease) => WholeMillis(lease)
    case Complete(_, _, _, ttl) => WholeMillis(ttl)
    case Release(_, _) => true
  }

  ghost predicate AnswersOf(calls: seq<Call>, answers: seq<Answer>) {
    |answers| == |calls| && forall i | 0 <= i < |calls| :: answers[i] == AnswerAt(calls, i)
  }

  function FirstReading(calls: seq<Call>): Time {
    if calls == [] then 0 else calls[0].now
  }

  method MemoryAnswers(calls: seq<Call>, sweeps: bool, swept: Time) returns (answers: seq<Answer>)
    requires InOrder(calls) && forall c <- calls :: c.op.token != ""
    ensures AnswersOf(calls, answers)
  {
    var m := new Memory(sweeps, swept, FirstReading(calls));
    answers := [];
    for i := 0 to |calls|
      invariant m.Valid() && m.reg == After(map[], calls[..i])
      invariant m.clock == if i == 0 then FirstReading(calls) else calls[i - 1].now
      invariant |answers| == i && forall k | 0 <= k < i :: answers[k] == AnswerAt(calls, k)
    {
      AfterNext(calls, i);
      assert calls[i] in calls;
      var a := m.Do(calls[i]);
      assert a == AnswerAt(calls, i) && m.reg == After(map[], calls[..i + 1]);
      answers := answers + [a];
    }
  }

  /** Redis answers as the register does on the durations PX makes of those it is
      given. */
  method RedisAnswers(calls: seq<Call>) returns (answers: seq<Answer>)
    requires InOrder(calls)
    ensures AnswersOf(Rounded(calls), answers)
  {
    ghost var rounded := Rounded(calls);
    var r := new Redis(FirstReading(calls));
    answers := [];
    for i := 0 to |calls|
      invariant r.Valid() && r.reg == After(map[], rounded[..i])
      invariant r.clock == if i == 0 then FirstReading(calls) else calls[i - 1].now
      invariant |answers| == i && forall k | 0 <= k < i :: answers[k] == AnswerAt(rounded, k)
    {
      AfterNext(rounded, i);
      var a := r.Do(calls[i]);
      answers := answers + [a];
    }
  }

  /** Two sequences of calls that the register answers alike. */
  ghost predicate AnsweredAlike(calls: seq<Call>, others: seq<Call>) {
    |calls| == |others| && forall i | 0 <= i < |calls| :: AnswerAt(calls, i) == AnswerAt(others, i)
  }

  lemma AlikeIffSameAnswers(calls: seq<Call>, others: seq<Call>, a: seq<Answer>, b: seq<Answer>)
    requires |calls| == |others| && AnswersOf(calls, a) && AnswersOf(others, b)
    ensures a == b <==> AnsweredAlike(calls, others)
  {
    if a == b {
      forall i | 0 <= i < |calls| ensures AnswerAt(calls, i) == AnswerAt(others, i) {
        assert a[i] == b[i];
      }
    }
  }

  lemma WholeIsRounded(calls: seq<Call>)
    requires forall c <- calls :: WholeOp(c.op)
    ensures Rounded(calls) == calls
  {
    forall i | 0 <= i < |calls| ensures Rounded(calls)[i] == calls[i] {
      assert calls[i] in calls;
      if calls[i].op.Acquire? { KeptIffWholeMillis(calls[i].op.lease); }
      if calls[i].op.Complete? { KeptIffWholeMillis(calls[i].op.ttl); }
    }
  }

  /** The memory store, the memory store that never sweeps and the Redis store on
      one sequence of calls: the first two answer as the register, and Redis as
      they do exactly when rounding the durations changes no answer of it, as it
      does not for whole milliseconds. */
  method AnswerAll(calls: seq<Call>, swept: Time)
    returns (memory: seq<Answer>, unswept: seq<Answer>, redis: seq<Answer>)
    requires InOrder(calls) && forall c <- calls :: c.op.token != ""
    ensures AnswersOf(calls, memory) && memory == unswept && AnswersOf(Rounded(calls), redis)
    ensures memory == redis <==> AnsweredAlike(calls, Rounded(calls))
    ensures (forall c <- calls :: WholeOp(c.op)) ==> memory == redis
  {
    memory := MemoryAnswers(calls, true, swept);
    unswept := MemoryAnswers(calls, false, swept);
    redis := RedisAnswers(calls);
    AlikeIffSameAnswers(calls, Rounded(calls), memory, redis);
    if forall c <- calls :: WholeOp(c.op) {
      WholeIsRounded(calls);
    }
  }

  // ----- the exact condition on the durations -----

  /** The calls of Keepers with this lease and this TTL. */
  ghost predicate Uses(calls: seq<Call>, lease: Duration, ttl: Duration) {
    && (forall c <- calls :: c.op.token != "")
    && (forall c <- calls :: c.op.Acquire? ==> c.op.lease == lease)
    && (forall c <- calls :: c.op.Complete? ==> c.op.ttl == ttl)
  }

  /** Where a duration and the one PX makes of it are told apart. */
  function Between(d: Duration): Time {
    Max(Min(d, Kept(d)), 0)
  }

  lemma ToldApart(d: Duration)
    ensures Between(d) >= 0
    ensures (Between(d) < d <==> Between(d) < Kept(d)) <==> WholeMillis(d)
  {
    KeptIffWholeMillis(d);
  }

  /** Acquired, and acquired again as the shorter of the two leases ends. */
  function LeaseCalls(token: string, other: string, lease: Duration): seq<Call> {
    [Call(Op.Acquire("k", token, lease), 0), Call(Op.Acquire("k", other, lease), Between(lease))]
  }

  /** Acquired and completed, and acquired again as the shorter TTL ends. */
  function TtlCalls(token: string, other: string, value: string, lease: Duration, ttl: Duration): seq<Call> {
    [Call(Op.Acquire("k", token, lease), 0), Call(Op.Complete("k", token, value, ttl), 0),
     Call(Op.Acquire("k", other, lease), Between(ttl))]
  }

  lemma AcquiredTwice(token: string, other: string, lease: Duration, again: Time)
    requires again >= 0
    ensures
      var calls := [Call(Op.Acquire("k", token, lease), 0), Call(Op.Acquire("k", other, lease), again)];
      && AnswerAt(calls, 0) == Acquired
      && AnswerAt(calls, 1) == if again < lease then InProgress else Acquired
  {
    var calls := [Call(Op.Acquire("k", token, lease), 0), Call(Op.Acquire("k", other, lease), again)];
    assert After(map[], calls[..0]) == map[];
    AfterNext(calls, 0);
  }

  lemma LeaseIsTold(token: string, other: string, lease: Duration)
    ensures
      var calls := LeaseCalls(token, other, lease);
      AnsweredAlike(calls, Rounded(calls)) <==> WholeMillis(lease)
  {
    var calls, again := LeaseCalls(token, other, lease), Between(lease);
    ToldApart(lease);
    AcquiredTwice(token, other, lease, again);
    AcquiredTwice(token, other, Kept(lease), again);
    assert Rounded(calls) ==
           [Call(Op.Acquire("k", token, Kept(lease)), 0), Call(Op.Acquire("k", other, Kept(lease)), again)];
    assert AnsweredAlike(calls, Rounded(calls)) <==> AnswerAt(calls, 1) == AnswerAt(Rounded(calls), 1);
  }

  lemma CompletedThenAcquired(token: string, other: string, value: string, lease: Duration, ttl: Duration, again: Time)
    requires again >= 0 && lease > 0
    ensures
      var calls := [Call(Op.Acquire("k", token, lease), 0), Call(Op.Complete("k", token, value, ttl), 0),
                    Call(Op.Acquire("k", other, lease), again)];
      && AnswerAt(calls, 0) == Acquired && AnswerAt(calls, 1) == Completed(true)
      && AnswerAt(calls, 2) == if again < ttl then Found(value) else Acquired
  {
    var calls := [Call(Op.Acquire("k", token, lease), 0), Call(Op.Complete("k", token, value, ttl), 0),
                  Call(Op.Acquire("k", other, lease), again)];
    assert After(map[], calls[..0]) == map[];
    AfterNext(calls, 0);
    AfterNext(calls, 1);
  }

  lemma TtlIsTold(token: string, other: string, value: string, lease: Duration, ttl: Duration)
    requires lease > 0
    ensures
      var calls := TtlCalls(token, other, value, lease, ttl);
      AnsweredAlike(calls, Rounded(calls)) <==> WholeMillis(ttl)
  {
    var calls, again := TtlCalls(token, other, value, lease, ttl), Between(ttl);
    ToldApart(ttl);
    CompletedThenAcquired(token, other, value, lease, ttl, again);
    CompletedThenAcquired(token, other, value, Kept(lease), Kept(ttl), again);
    assert Rounded(calls) ==
           [Call(Op.Acquire("k", token, Kept(lease)), 0), Call(Op.Complete("k", token, value, Kept(ttl)), 0),
            Call(Op.Acquire("k", other, Kept(lease)), again)];
    assert AnsweredAlike(calls, Rounded(calls)) <==> AnswerAt(calls, 2) == AnswerAt(Rounded(calls), 2);
  }

  /** The two stores answer every sequence of calls of Keepers alike if and only if
      their lease and their TTL are whole milliseconds: for all durations, positive
      or not. */
  lemma StoresAgreeIff(lease: Duration, ttl: Duration)
    ensures (forall calls | InOrder(calls) && Uses(calls, lease, ttl) :: AnsweredAlike(calls, Rounded(calls)))
            <==> WholeMillis(lease) && WholeMillis(ttl)
  {
    if WholeMillis(lease) && WholeMillis(ttl) {
      forall calls | InOrder(calls) && Uses(calls, lease, ttl) ensures AnsweredAlike(calls, Rounded(calls)) {
        WholeIsRounded(calls);
      }
    } else if !WholeMillis(lease) {
      var calls := LeaseCalls("a", "b", lease);
      LeaseIsTold("a", "b", lease);
      assert InOrder(calls) && Uses(calls, lease, ttl);
    } else {
      var calls := TtlCalls("a", "b", "v", lease, ttl);
      TtlIsTold("a", "b", "v", lease, ttl);
      assert InOrder(calls) && Uses(calls, lease, ttl);
    }
  }

  /** Two acquires tell a lease that is not whole milliseconds on the stores. */
  method LeaseTold(lease: Duration, token: string, other: string, swept: Time)
    returns (memory: seq<Answer>, redis: seq<Answer>)
    requires token != "" && other != ""
    ensures AnswersOf(LeaseCalls(token, other, lease), memory)
    ensures AnswersOf(Rounded(LeaseCalls(token, other, lease)), redis)
    ensures memory == redis <==> WholeMillis(lease)
  {
    var calls := LeaseCalls(token, other, lease);
    LeaseIsTold(token, other, lease);
    var unswept;
    memory, unswept, redis := AnswerAll(calls, swept);
  }

  /** An acquire, a complete and an acquire tell such a TTL. */
  method TtlTold(lease: Duration, ttl: Duration, token: string, other: string, value: string, swept: Time)
    returns (memory: seq<Answer>, redis: seq<Answer>)
    requires lease > 0 && token != "" && other != ""
    ensures AnswersOf(TtlCalls(token, other, value, lease, ttl), memory)
    ensures AnswersOf(Rounded(TtlCalls(token, other, value, lease, ttl)), redis)
    ensures memory == redis <==> WholeMillis(ttl)
  {
    var calls := TtlCalls(token, other, value, lease, ttl);
    TtlIsTold(token, other, value, lease, ttl);
    var unswept;
    memory, unswept, redis := AnswerAll(calls, swept);
  }
}
