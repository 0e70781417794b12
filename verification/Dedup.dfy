/** dedup: an expiring register per key, the two stores that keep it, and Do.

    Register is what the store contract of dedup/dedup.go promises. A call of
    the store reads the clock once; the readings of one store are taken to be in
    the order in which its calls take effect. */
module Register {
  import opened Common

  datatype Slot =
    | Free
    | Running(token: string, until: Time)
    | Stored(value: string, until: Time)

  type Reg = map<string, Slot>

  datatype Op =
    | Acquire(key: string, token: string, lease: Duration)
    | Complete(key: string, token: string, value: string, ttl: Duration)
    | Release(key: string, token: string)

  datatype Answer = Acquired | InProgress | Found(value: string) | Completed(ok: bool) | Released

  /** What is under a key at `now`: an expired record is none. */
  function View(r: Reg, key: string, now: Time): Slot {
    if key in r && !r[key].Free? && now < r[key].until then r[key] else Free
  }

  function Step(r: Reg, op: Op, now: Time): (Reg, Answer) {
    var slot := View(r, op.key, now);
    match op
    case Acquire(key, token, lease) =>
      (match slot
       case Free => (r[key := Running(token, now + lease)], Acquired)
       case Running(_, _) => (r, InProgress)
       case Stored(v, _) => (r, Found(v)))
    case Complete(key, token, value, ttl) =>
      if slot.Running? && slot.token == token then (r[key := Stored(value, now + ttl)], Completed(true))
      else (r, Completed(false))
    case Release(key, token) =>
      if slot.Running? && slot.token == token then (r[key := Free], Released) else (r, Released)
  }

  /** A call and the clock it read. */
  datatype Call = Call(op: Op, now: Time)

  ghost predicate InOrder(calls: seq<Call>) {
    forall i, j | 0 <= i <= j < |calls| :: calls[i].now <= calls[j].now
  }

  /** The register after the calls. */
  function After(r: Reg, calls: seq<Call>): Reg {
    if calls == [] then r else
      var last := calls[|calls| - 1];
      Step(After(r, calls[..|calls| - 1]), last.op, last.now).0
  }

  /** The answer to the i-th of the calls, on a register empty before them. */
  function AnswerAt(calls: seq<Call>, i: nat): Answer
    requires i < |calls|
  {
    Step(After(map[], calls[..i]), calls[i].op, calls[i].now).1
  }

  lemma AfterNext(calls: seq<Call>, i: nat)
    requires i < |calls|
    ensures After(map[], calls[..i + 1]) == Step(After(map[], calls[..i]), calls[i].op, calls[i].now).0
  {
    assert calls[..i + 1][..i] == calls[..i];
  }

  // ----- safety over runs -----

  /** Every call of Do draws a token of its own. */
  ghost predicate FreshTokens(calls: seq<Call>) {
    forall i, j | 0 <= i < j < |calls| && calls[i].op.Acquire? && calls[j].op.Acquire? ::
      calls[i].op.token != calls[j].op.token
  }

  /** The call at i got the key. */
  ghost predicate Gets(calls: seq<Call>, i: nat, key: string, token: string) {
    i < |calls| && calls[i].op.Acquire? && calls[i].op.key == key && calls[i].op.token == token &&
        AnswerAt(calls, i) == Acquired
  }

  /** The call at m completes or releases the key with the token. */
  ghost predicate Settles(calls: seq<Call>, m: nat, key: string, token: string) {
    m < |calls| && !calls[m].op.Acquire? && calls[m].op.key == key && calls[m].op.token == token
  }

  /** The call that got the key at i still holds it before the call at j: it has
      not settled it, and its lease has not ended. */
  ghost predicate Holds(calls: seq<Call>, i: nat, j: nat, key: string, token: string) {
    && i < j < |calls|
    && Gets(calls, i, key, token)
    && (forall m | i < m < j :: !Settles(calls, m, key, token))
    && calls[j].now < calls[i].now + calls[i].op.lease
  }

  /** A running record stays through any call within its time that does not
      settle it. */
  lemma RunningStaysOneCall(r: Reg, op: Op, now: Time, key: string, token: string, until: Time)
    requires key in r && r[key] == Running(token, until) && now < until
    requires op.key == key && op.token == token ==> op.Acquire?
    ensures var r' := Step(r, op, now).0; key in r' && r'[key] == Running(token, until)
  {
  }

  lemma {:induction false} HolderIsInTheSlot(calls: seq<Call>, i: nat, j: nat, key: string, token: string)
    requires InOrder(calls) && Holds(calls, i, j, key, token)
    ensures After(map[], calls[..j]).Keys >= {key}
    ensures After(map[], calls[..j])[key] == Running(token, calls[i].now + calls[i].op.lease)
    decreases j
  {
    if j == i + 1 {
      AfterNext(calls, i);
    } else {
      assert calls[j - 1].now <= calls[j].now;
      HolderIsInTheSlot(calls, i, j - 1, key, token);
      AfterNext(calls, j - 1);
      assert !Settles(calls, j - 1, key, token);
      RunningStaysOneCall(After(map[], calls[..j - 1]), calls[j - 1].op, calls[j - 1].now,
                          key, token, calls[i].now + calls[i].op.lease);
    }
  }

  /** A key has at most one holder. */
  lemma OneHolder(calls: seq<Call>, i: nat, k: nat, j: nat, key: string, token: string, other: string)
    requires InOrder(calls) && Holds(calls, i, j, key, token) && Holds(calls, k, j, key, other)
    ensures token == other
    ensures FreshTokens(calls) ==> i == k
  {
    HolderIsInTheSlot(calls, i, j, key, token);
    HolderIsInTheSlot(calls, k, j, key, other);
  }

  /** While a call holds the key, no other gets it. */
  lemma HolderKeepsOthersOut(calls: seq<Call>, i: nat, j: nat, key: string, token: string)
    requires InOrder(calls) && Holds(calls, i, j, key, token) && calls[j].op.Acquire? && calls[j].op.key == key
    ensures AnswerAt(calls, j) == InProgress
  {
    HolderIsInTheSlot(calls, i, j, key, token);
  }

  /** A completion that reported true at i. */
  ghost predicate CompletedAt(calls: seq<Call>, i: nat) {
    i < |calls| && calls[i].op.Complete? && AnswerAt(calls, i) == Completed(true)
  }

  /** A stored value stays through any call within its time. */
  lemma StoredStaysOneCall(r: Reg, op: Op, now: Time, key: string, value: string, until: Time)
    requires key in r && r[key] == Stored(value, until) && now < until
    ensures var r' := Step(r, op, now).0; key in r' && r'[key] == Stored(value, until)
  {
  }

  lemma {:induction false} CompletionStays(calls: seq<Call>, i: nat, j: nat)
    requires InOrder(calls) && CompletedAt(calls, i) && i < j <= |calls|
    requires j < |calls| ==> calls[j].now < calls[i].now + calls[i].op.ttl
    requires j == |calls| ==> calls[j - 1].now < calls[i].now + calls[i].op.ttl
    ensures calls[i].op.key in After(map[], calls[..j])
    ensures After(map[], calls[..j])[calls[i].op.key] == Stored(calls[i].op.value, calls[i].now + calls[i].op.ttl)
    decreases j
  {
    AfterNext(calls, j - 1);
    if j > i + 1 {
      assert j < |calls| ==> calls[j - 1].now <= calls[j].now;
      CompletionStays(calls, i, j - 1);
      StoredStaysOneCall(After(map[], calls[..j - 1]), calls[j - 1].op, calls[j - 1].now,
                         calls[i].op.key, calls[i].op.value, calls[i].now + calls[i].op.ttl);
    }
  }

  /** Once a completion reported true, every acquire within the TTL finds that
      value, whatever completions and releases came in between. */
  lemma CompletedIsFound(calls: seq<Call>, i: nat, j: nat)
    requires InOrder(calls) && CompletedAt(calls, i) && i < j < |calls|
    requires calls[j].op.Acquire? && calls[j].op.key == calls[i].op.key && calls[j].now < calls[i].now + calls[i].op.ttl
    ensures AnswerAt(calls, j) == Found(calls[i].op.value)
  {
    CompletionStays(calls, i, j);
  }

  /** A running record was put there by the acquire of its token. */
  lemma {:induction false} RunningSince(calls: seq<Call>, j: nat, key: string)
    requires j <= |calls| && key in After(map[], calls[..j]) && After(map[], calls[..j])[key].Running?
    ensures exists i | 0 <= i < j :: Gets(calls, i, key, After(map[], calls[..j])[key].token)
              && After(map[], calls[..j])[key].until == calls[i].now + calls[i].op.lease
  {
    var slot := After(map[], calls[..j])[key];
    AfterNext(calls, j - 1);
    var before := After(map[], calls[..j - 1]);
    if key in before && before[key] == slot {
      RunningSince(calls, j - 1, key);
      var i :| 0 <= i < j - 1 && Gets(calls, i, key, slot.token) && slot.until == calls[i].now + calls[i].op.lease;
      assert 0 <= i < j && Gets(calls, i, key, slot.token);
    } else {
      assert Gets(calls, j - 1, key, slot.token);
    }
  }

  /** A call whose lease ended changes nothing when it settles: it overwrites and
      frees no record of a successor. */
  lemma LateSettleChangesNothing(calls: seq<Call>, i: nat, j: nat, key: string, token: string)
    requires FreshTokens(calls) && i < j < |calls| && Gets(calls, i, key, token) && Settles(calls, j, key, token)
    requires calls[i].now + calls[i].op.lease <= calls[j].now
    ensures After(map[], calls[..j + 1]) == After(map[], calls[..j])
    ensures calls[j].op.Complete? ==> AnswerAt(calls, j) == Completed(false)
  {
    AfterNext(calls, j);
    var r := After(map[], calls[..j]);
    if key in r && r[key].Running? && r[key].token == token {
      RunningSince(calls, j, key);
      var k :| 0 <= k < j && Gets(calls, k, key, token) && r[key].until == calls[k].now + calls[k].op.lease;
      assert k == i;
    }
  }

  /** A call that holds the key settles it: its completion reports true and stores
      the value for the TTL, its release frees the key, and neither touches
      another. */
  lemma HolderSettles(calls: seq<Call>, i: nat, j: nat, key: string, token: string)
    requires InOrder(calls) && Holds(calls, i, j, key, token) && Settles(calls, j, key, token)
    ensures
      var before, after := After(map[], calls[..j]), After(map[], calls[..j + 1]);
      && key in after
      && (calls[j].op.Complete? ==>
            && AnswerAt(calls, j) == Completed(true)
            && after[key] == Stored(calls[j].op.value, calls[j].now + calls[j].op.ttl))
      && (calls[j].op.Release? ==> after[key].Free?)
      && forall k | k != key :: (k in after <==> k in before) && (k in before ==> after[k] == before[k])
  {
    HolderIsInTheSlot(calls, i, j, key, token);
    AfterNext(calls, j);
  }

  // ----- what an acquire is told -----

  /** What is in the register under the key before the m-th call. */
  function SlotAt(calls: seq<Call>, m: nat, key: string): Slot
    requires m <= |calls|
  {
    var r := After(map[], calls[..m]);
    if key in r then r[key] else Free
  }

  lemma SlotNext(calls: seq<Call>, m: nat, key: string)
    requires m < |calls|
    ensures
      var r, op := After(map[], calls[..m]), calls[m].op;
      var r' := Step(r, op, calls[m].now).0;
      SlotAt(calls, m + 1, key) == if key in r' then r'[key] else Free
  {
    AfterNext(calls, m);
  }

  /** The call that put the slot there, where it has been since. */
  ghost predicate PutBy(calls: seq<Call>, i: nat, j: nat, key: string, slot: Slot)
    requires j <= |calls|
  {
    && i < j && calls[i].op.key == key
    && (forall m | i < m <= j :: SlotAt(calls, m, key) == slot)
    && match slot
       case Free => true
       case Running(token, until) => Gets(calls, i, key, token) && until == calls[i].now + calls[i].op.lease
       case Stored(value, until) =>
         CompletedAt(calls, i) && value == calls[i].op.value && until == calls[i].now + calls[i].op.ttl
  }

  lemma PutNow(calls: seq<Call>, j: nat, key: string)
    requires 0 < j <= |calls| && !SlotAt(calls, j, key).Free? && SlotAt(calls, j - 1, key) != SlotAt(calls, j, key)
    ensures PutBy(calls, j - 1, j, key, SlotAt(calls, j, key))
  {
    SlotNext(calls, j - 1, key);
  }

  lemma {:induction false} SlotSince(calls: seq<Call>, j: nat, key: string) returns (i: nat)
    requires j <= |calls| && !SlotAt(calls, j, key).Free?
    ensures PutBy(calls, i, j, key, SlotAt(calls, j, key))
    decreases j
  {
    var slot := SlotAt(calls, j, key);
    assert SlotAt(calls, 0, key).Free?;
    if SlotAt(calls, j - 1, key) == slot {
      i := SlotSince(calls, j - 1, key);
    } else {
      i := j - 1;
      PutNow(calls, j, key);
    }
  }

  lemma SettledMoves(calls: seq<Call>, m: nat, key: string, token: string, until: Time)
    requires m < |calls| && SlotAt(calls, m, key) == Running(token, until) && calls[m].now < until
    requires Settles(calls, m, key, token)
    ensures SlotAt(calls, m + 1, key) != Running(token, until)
  {
    SlotNext(calls, m, key);
  }

  /** A lease stands before the j-th call: some call got the key, did not settle it,
      and its lease has not ended. */
  ghost predicate IsHeld(calls: seq<Call>, j: nat, key: string) {
    exists i: nat, token :: Holds(calls, i, j, key, token)
  }

  /** A result stands before the j-th call: some completion reported true and its
      TTL has not ended. */
  ghost predicate IsStored(calls: seq<Call>, j: nat, key: string)
    requires j < |calls|
  {
    exists i: nat :: i < j && CompletedAt(calls, i) && calls[i].op.key == key &&
                     calls[j].now < calls[i].now + calls[i].op.ttl
  }

  lemma RunningIsHeld(calls: seq<Call>, j: nat, key: string)
    requires InOrder(calls) && j < |calls| && SlotAt(calls, j, key).Running?
    requires calls[j].now < SlotAt(calls, j, key).until
    ensures IsHeld(calls, j, key)
  {
    var slot := SlotAt(calls, j, key);
    var i := SlotSince(calls, j, key);
    forall m | i < m < j ensures !Settles(calls, m, key, slot.token) {
      assert SlotAt(calls, m, key) == slot == SlotAt(calls, m + 1, key) && calls[m].now <= calls[j].now;
      if Settles(calls, m, key, slot.token) { SettledMoves(calls, m, key, slot.token, slot.until); }
    }
    assert Holds(calls, i, j, key, slot.token);
  }

  /** What an acquire is told, in every sequence of calls: in progress exactly when
      a lease of the key stands, a result exactly when one stands, and otherwise it
      gets the key. */
  lemma AcquireIsTold(calls: seq<Call>, j: nat)
    requires InOrder(calls) && j < |calls| && calls[j].op.Acquire?
    ensures AnswerAt(calls, j) == InProgress <==> IsHeld(calls, j, calls[j].op.key)
    ensures AnswerAt(calls, j).Found? <==> IsStored(calls, j, calls[j].op.key)
    ensures AnswerAt(calls, j) == Acquired <==>
            !IsHeld(calls, j, calls[j].op.key) && !IsStored(calls, j, calls[j].op.key)
  {
    var key := calls[j].op.key;
    if i: nat, token :| Holds(calls, i, j, key, token) {
      HolderKeepsOthersOut(calls, i, j, key, token);
    }
    if i: nat :| i < j && CompletedAt(calls, i) && calls[i].op.key == key &&
                 calls[j].now < calls[i].now + calls[i].op.ttl {
      CompletedIsFound(calls, i, j);
    }
    var slot := SlotAt(calls, j, key);
    if AnswerAt(calls, j) == InProgress {
      RunningIsHeld(calls, j, key);
    } else if AnswerAt(calls, j).Found? {
      var i := SlotSince(calls, j, key);
      assert PutBy(calls, i, j, key, slot);
    }
  }
}
