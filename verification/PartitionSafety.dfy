/** partition/partition.go: what Maintain keeps, over one call and over runs of
    calls and inserts. */
module PartitionSafety {
  import opened Common
  import opened Schemes
  import opened Partition
  import Periods
  import opened PartitionRuns

  ghost predicate RowsInRange(r: Relation) {
    forall t <- r.rows :: r.from <= t < r.to
  }

  /** Postgres keeps rows in range, and a relation whose name reads as a partition
      has the range of its name. Relations of other names may be there. */
  ghost predicate Honest(k: Keeper, db: Relations) {
    && WellNamed(db)
    && (forall n <- db :: RowsInRange(db[n]))
    && (forall n <- db | Read(k, db[n]).Some? ::
          db[n].from == Read(k, db[n]).value.from && db[n].to == Read(k, db[n]).value.to)
  }

  /** The year of period i after the one of now has four digits. */
  predicate ShortAt(k: Keeper, now: Time, i: nat) {
    ShortIn(k.scheme, k.scheme.index(now) + i)
  }

  /** Every year of the window of now has four digits. */
  predicate ShortWindow(k: Keeper, now: Time) {
    forall i: nat | i <= k.ahead :: ShortAt(k, now, i)
  }

  /** The relation a create makes is read as what it is exactly when its year has
      four digits. */
  lemma NewIsRead(k: Keeper, now: Time, i: nat, x: nat)
    requires WellMade(k) && x < |k.tables|
    ensures var p := WantedAt(k, now, i, x);
            && |Prefix(p.table)| <= |p.name|
            && FullName(p.table, NewRelation(p).relname) == p.name
            && Read(k, NewRelation(p)) == if ShortAt(k, now, i) then Some(p) else None
  {
    var c, j := k.scheme, k.scheme.index(now) + i;
    NthStart(c, now, i);
    NameIsFull(k, k.tables[x], c.at(j));
    ParseOfPart(k, k.tables[x], j);
    var p := WantedAt(k, now, i, x);
    assert p.name[|Prefix(p.table)|..] == RelationName(k, k.tables[x], c.at(j));
  }

  /** A relation read under the name of a wanted partition is that partition, and
      its year has four digits. */
  lemma ReadUnderWantedName(k: Keeper, now: Time, db: Relations, i: nat, x: nat)
    requires WellMade(k) && WellNamed(db) && x < |k.tables| && WantedAt(k, now, i, x).name in Have(k, db)
    ensures var p := WantedAt(k, now, i, x);
            Read(k, db[p.name]) == Some(p) && ShortAt(k, now, i)
  {
    var p := WantedAt(k, now, i, x);
    var r := db[p.name];
    PartOfParse(k, r.table, r.relname);
    NthStart(k.scheme, now, i);
    var q := Read(k, r).value;
    PartNamesAreInjective(k, q.table, k.scheme.index(q.from), k.tables[x], k.scheme.index(now) + i);
  }

  lemma WantedIsNotExpired(k: Keeper, now: Time, r: Relation, i: nat, x: nat)
    requires WellMade(k) && i <= k.ahead && x < |k.tables|
    requires Read(k, r).Some? ==> Read(k, r).value == WantedAt(k, now, i, x)
    ensures !Expires(k, now, r)
  {
    WantedEndsLater(k, now, WantedAt(k, now, i, x));
  }

  // ----- a second run -----

  lemma NewIsNotExpired(k: Keeper, now: Time, p: Part)
    requires WellMade(k) && IsWanted(k, now, k.ahead + 1, p)
    ensures |Prefix(p.table)| <= |p.name| && !Expires(k, now, NewRelation(p))
  {
    var i, x := Placed(k, now, p);
    NewIsRead(k, now, i, x);
    WantedIsNotExpired(k, now, NewRelation(p), i, x);
  }

  /** Right after a Maintain nothing is expired. */
  lemma NothingLeftToDrop(k: Keeper, now: Time, db: Relations, db': Relations, n: string)
    requires WellMade(k) && IsMaintained(k, now, db, db') && n in db'
    ensures !Expires(k, now, db'[n])
  {
    if !(n in db && !Expires(k, now, db[n])) {
      var p :| Creates(k, now, db, p) && p.name == n;
      NewIsNotExpired(k, now, p);
    }
  }

  /** After a Maintain each wanted partition is in the database. */
  lemma WantedIsThere(k: Keeper, now: Time, db: Relations, db': Relations, i: nat, x: nat)
    requires WellMade(k) && WellNamed(db) && IsMaintained(k, now, db, db') && i <= k.ahead && x < |k.tables|
    ensures var p := WantedAt(k, now, i, x);
            && p.name in db'
            && (Read(k, db'[p.name]) == if ShortAt(k, now, i) then Some(p) else None)
            && (p.name in Have(k, db) ==> p.name in db && db'[p.name] == db[p.name])
            && (p.name !in Have(k, db) ==> |Prefix(p.table)| <= |p.name| && db'[p.name] == NewRelation(p))
  {
    var p := WantedAt(k, now, i, x);
    if p.name in Have(k, db) {
      ReadUnderWantedName(k, now, db, i, x);
      WantedIsNotExpired(k, now, db[p.name], i, x);
    } else {
      assert Creates(k, now, db, p);
      NewIsRead(k, now, i, x);
    }
  }

  /** Planned again at the same time, a partition of the window is to be created
      exactly when its year does not have four digits. */
  lemma CreatedAgainIffLongYear(k: Keeper, now: Time, db: Relations, db': Relations, i: nat, x: nat)
    requires WellMade(k) && WellNamed(db) && IsMaintained(k, now, db, db') && i <= k.ahead && x < |k.tables|
    ensures Creates(k, now, db', WantedAt(k, now, i, x)) <==> !ShortAt(k, now, i)
  {
    WantedIsThere(k, now, db, db', i, x);
    CreatedIffUnread(k, now, db', i, x);
  }

  lemma CreatedIffUnread(k: Keeper, now: Time, db: Relations, i: nat, x: nat)
    requires i <= k.ahead && x < |k.tables| && WantedAt(k, now, i, x).name in db
    ensures Creates(k, now, db, WantedAt(k, now, i, x)) <==> Read(k, db[WantedAt(k, now, i, x).name]).None?
  {
  }

  lemma ShortCreatesNothing(k: Keeper, now: Time, db: Relations, db': Relations, p: Part)
    requires WellMade(k) && WellNamed(db) && IsMaintained(k, now, db, db') && ShortWindow(k, now)
    ensures !Creates(k, now, db', p)
  {
    if IsWanted(k, now, k.ahead + 1, p) {
      var i, x := Placed(k, now, p);
      CreatedAgainIffLongYear(k, now, db, db', i, x);
    }
  }

  lemma LongIsCreatedAgain(k: Keeper, now: Time, db: Relations, db': Relations) returns (p: Part)
    requires WellMade(k) && k.tables != [] && WellNamed(db) && IsMaintained(k, now, db, db') && !ShortWindow(k, now)
    ensures Creates(k, now, db', p) && p.name in db'
  {
    var i: nat :| i <= k.ahead && !ShortAt(k, now, i);
    CreatedAgainIffLongYear(k, now, db, db', i, 0);
    WantedIsThere(k, now, db, db', i, 0);
    p := WantedAt(k, now, i, 0);
  }

  /** With nothing to create and nothing expired, Maintain changes nothing. */
  lemma NothingToDo(k: Keeper, now: Time, db: Relations, db': Relations)
    requires IsMaintained(k, now, db, db')
    requires (forall p :: !Creates(k, now, db, p)) && forall n <- db :: !Expires(k, now, db[n])
    ensures db' == db
  {
  }

  /** A second run at the same time can succeed exactly when the years of the
      window have four digits, and then it changes nothing. With a longer year the
      name is not read back, and the create fails on the partition that is
      there. */
  lemma SecondRun(k: Keeper, now: Time, db: Relations, db': Relations)
    requires WellMade(k) && k.tables != [] && WellNamed(db) && IsMaintained(k, now, db, db')
    ensures CanMaintain(k, now, db') <==> ShortWindow(k, now)
    ensures (forall p :: !Creates(k, now, db', p)) <==> ShortWindow(k, now)
    ensures ShortWindow(k, now) ==> forall db'' | IsMaintained(k, now, db', db'') :: db'' == db'
  {
    if ShortWindow(k, now) {
      forall p ensures !Creates(k, now, db', p) { ShortCreatesNothing(k, now, db, db', p); }
      forall n <- db' ensures !Expires(k, now, db'[n]) { NothingLeftToDrop(k, now, db, db', n); }
      forall db'' | IsMaintained(k, now, db', db'') ensures db'' == db' { NothingToDo(k, now, db', db''); }
    } else {
      var p := LongIsCreatedAgain(k, now, db, db');
      assert !CanCreate(db', p);
    }
  }

  // ----- rows -----

  /** A relation that Maintain does not keep as it was is one whose name reads as
      expired. */
  lemma KeptOrExpired(k: Keeper, now: Time, db: Relations, db': Relations, n: string)
    requires IsMaintained(k, now, db, db') && n in db
    ensures if Expires(k, now, db[n]) then n !in db' else n in db' && db'[n] == db[n]
  {
    if Expires(k, now, db[n]) {
      assert n in Have(k, db);
    }
  }

  /** No row younger than Retention is dropped, nor any at all without a
      Retention. */
  lemma DroppedRowsAreOld(k: Keeper, now: Time, db: Relations, db': Relations, n: string, t: Time)
    requires Honest(k, db) && IsMaintained(k, now, db, db') && n in db && t in db[n].rows
    ensures (n in db' && db'[n].rows == db[n].rows) || (k.retention > 0 && now - t > k.retention)
  {
    KeptOrExpired(k, now, db, db', n);
    assert RowsInRange(db[n]);
  }

  /** The names decide: a partition whose name reads as expired goes, whatever its
      range and rows. */
  lemma MisnamedIsDropped(k: Keeper, now: Time, db: Relations, db': Relations, n: string)
    requires IsMaintained(k, now, db, db') && n in db && k.retention > 0
    requires Read(k, db[n]).Some? && Read(k, db[n]).value.to <= now - k.retention
    ensures n !in db'
  {
    KeptOrExpired(k, now, db, db', n);
  }

  lemma NewIsHonest(k: Keeper, now: Time, p: Part)
    requires WellMade(k) && IsWanted(k, now, k.ahead + 1, p)
    ensures |Prefix(p.table)| <= |p.name|
    ensures var r := NewRelation(p);
            && p.name == FullName(r.table, r.relname) && RowsInRange(r)
            && (Read(k, r).Some? ==> r.from == Read(k, r).value.from && r.to == Read(k, r).value.to)
  {
    var i, x := Placed(k, now, p);
    NewIsRead(k, now, i, x);
  }

  lemma MaintainKeepsHonest(k: Keeper, now: Time, db: Relations, db': Relations)
    requires WellMade(k) && Honest(k, db) && IsMaintained(k, now, db, db')
    ensures Honest(k, db')
  {
    forall n <- db'
      ensures n == FullName(db'[n].table, db'[n].relname) && RowsInRange(db'[n])
      ensures Read(k, db'[n]).Some? ==> db'[n].from == Read(k, db'[n]).value.from
      ensures Read(k, db'[n]).Some? ==> db'[n].to == Read(k, db'[n]).value.to
    {
      if !(n in db && !Expires(k, now, db[n])) {
        var p :| Creates(k, now, db, p) && p.name == n;
        NewIsHonest(k, now, p);
      }
    }
  }

  /** A partition of the table takes a row of this time. */
  ghost predicate Takes(db: Relations, table: string, t: Time) {
    exists n :: n in db && db[n].table == table && db[n].from <= t < db[n].to
  }

  ghost predicate Covered(k: Keeper, now: Time, db: Relations) {
    forall table, t :: table in k.tables && k.scheme.start(now) <= t < k.scheme.add(k.scheme.start(now), k.ahead + 1)
      ==> Takes(db, table, t)
  }

  lemma WantedTakes(k: Keeper, now: Time, db: Relations, db': Relations, i: nat, x: nat, t: Time)
    requires WellMade(k) && Honest(k, db) && IsMaintained(k, now, db, db') && i <= k.ahead && x < |k.tables|
    requires Holds(k.scheme, now, i, t)
    ensures Takes(db', k.tables[x], t)
  {
    var p := WantedAt(k, now, i, x);
    WantedIsThere(k, now, db, db', i, x);
    PeriodsAdjoin(k.scheme, now, i);
    if p.name in Have(k, db) {
      ReadUnderWantedName(k, now, db, i, x);
      ReadKeepsName(k, db, p.name);
    }
    assert db'[p.name].table == k.tables[x] && db'[p.name].from == p.from && db'[p.name].to == p.to;
  }

  /** The period of the window that holds a time in it. */
  lemma HeldIn(c: Scheme, now: Time, ahead: nat, t: Time) returns (i: nat)
    requires Tiles(c) && c.start(now) <= t < c.add(c.start(now), ahead + 1)
    ensures i <= ahead && Holds(c, now, i, t)
  {
    WindowIffHeld(c, now, ahead, t);
    i :| 0 <= i <= ahead && Holds(c, now, i, t);
  }

  /** After a Maintain, a row stamped from the start of the current period to the
      end of the window has a partition. */
  lemma MaintainCovers(k: Keeper, now: Time, db: Relations, db': Relations)
    requires WellMade(k) && Honest(k, db) && IsMaintained(k, now, db, db')
    ensures Covered(k, now, db')
  {
    forall table, t | table in k.tables && k.scheme.start(now) <= t < k.scheme.add(k.scheme.start(now), k.ahead + 1)
      ensures Takes(db', table, t)
    {
      var i := HeldIn(k.scheme, now, k.ahead, t);
      var x :| 0 <= x < |k.tables| && k.tables[x] == table;
      WantedTakes(k, now, db, db', i, x, t);
    }
  }

  // ----- a database of the Keeper alone -----

  /** Every partition is one a Keeper of k made, with a four-digit year. */
  ghost predicate Own(k: Keeper, db: Relations) {
    forall n <- db :: OwnOne(k, n, db[n])
  }

  ghost predicate OwnOne(k: Keeper, n: string, r: Relation) {
    var c := k.scheme;
    && r.table in k.tables && n == PartOf(k, r.table, r.from).name && r.relname == RelationName(k, r.table, r.from)
    && r.from == c.at(c.index(r.from)) && r.to == c.at(c.index(r.from) + 1) && ShortIn(c, c.index(r.from))
    && RowsInRange(r)
  }

  lemma OwnIsRead(k: Keeper, n: string, r: Relation)
    requires WellMade(k) && OwnOne(k, n, r)
    ensures Read(k, r) == Some(PartOf(k, r.table, r.from)) && PartOf(k, r.table, r.from).to == r.to
    ensures n == FullName(r.table, r.relname)
  {
    var c := k.scheme;
    ParseOfPart(k, r.table, c.index(r.from));
    NameIsFull(k, r.table, r.from);
    assert c.add(c.at(c.index(r.from)), 1) == c.at(c.index(r.from) + 1);
  }

  lemma OwnIsHonest(k: Keeper, db: Relations)
    requires WellMade(k) && Own(k, db)
    ensures Honest(k, db) && Have(k, db) == db.Keys
  {
    forall n <- db
      ensures n == FullName(db[n].table, db[n].relname) && Read(k, db[n]).Some?
      ensures db[n].from == Read(k, db[n]).value.from && db[n].to == Read(k, db[n]).value.to
    {
      OwnIsRead(k, n, db[n]);
    }
  }

  lemma OwnIsDisjoint(k: Keeper, now: Time, n: string, r: Relation, i: nat, x: nat)
    requires WellMade(k) && OwnOne(k, n, r) && x < |k.tables| && n != WantedAt(k, now, i, x).name
    ensures Disjoint(r, WantedAt(k, now, i, x))
  {
    var c, j, w := k.scheme, k.scheme.index(r.from), k.scheme.index(now) + i;
    WantedSpan(k, now, i, x);
    NthStart(c, now, i);
    if r.table == k.tables[x] {
      PeriodsApart(c, j, w);
    }
  }

  /** On a database of its own a Maintain always can create what is missing. */
  lemma OwnCanMaintain(k: Keeper, now: Time, db: Relations)
    requires WellMade(k) && Own(k, db)
    ensures CanMaintain(k, now, db)
  {
    OwnIsHonest(k, db);
    forall p | Creates(k, now, db, p) ensures CanCreate(db, p) {
      var i, x := Placed(k, now, p);
      NewIsRead(k, now, i, x);
      forall n <- db ensures Disjoint(db[n], p) {
        OwnIsDisjoint(k, now, n, db[n], i, x);
      }
    }
  }

  lemma NewIsOwn(k: Keeper, now: Time, p: Part)
    requires WellMade(k) && ShortWindow(k, now) && IsWanted(k, now, k.ahead + 1, p)
    ensures |Prefix(p.table)| <= |p.name| && OwnOne(k, p.name, NewRelation(p))
  {
    var c := k.scheme;
    var i, x := Placed(k, now, p);
    NewIsRead(k, now, i, x);
    NthStart(c, now, i);
    StartIndex(c, c.index(now) + i);
    NameIsFull(k, p.table, p.from);
  }

  lemma StartIndex(c: Scheme, i: int)
    requires Tiles(c)
    ensures c.index(c.at(i)) == i
  {
    StartBeforeIff(c, i, c.at(i));
    StartBeforeIff(c, i + 1, c.at(i));
    StartsGrow(c, i, i + 1);
  }

  lemma MaintainKeepsOwn(k: Keeper, now: Time, db: Relations, db': Relations)
    requires WellMade(k) && Own(k, db) && ShortWindow(k, now) && IsMaintained(k, now, db, db')
    ensures Own(k, db')
  {
    forall n <- db' ensures OwnOne(k, n, db'[n]) {
      if !(n in db && !Expires(k, now, db[n])) {
        var p :| Creates(k, now, db, p) && p.name == n;
        NewIsOwn(k, now, p);
      }
    }
  }

  // ----- runs -----

  /** `last` is the time of the last Maintain that succeeded. */
  datatype State = State(db: Relations, last: Option<Time>)

  datatype Event =
    | Maintain(now: Time)
    | Failed
    | Insert(table: string, t: Time, into: string)

  ghost predicate Step(k: Keeper, s: State, e: Event, s': State) {
    match e
    case Maintain(now) => CanMaintain(k, now, s.db) && IsMaintained(k, now, s.db, s'.db) && s'.last == Some(now)
    case Failed => s' == s
    case Insert(table, t, into) =>
      && into in s.db && s.db[into].table == table && s.db[into].from <= t < s.db[into].to
      && s' == s.(db := s.db[into := s.db[into].(rows := s.db[into].rows + multiset{t})])
  }

  ghost predicate IsRun(k: Keeper, states: seq<State>, events: seq<Event>) {
    |states| == |events| + 1 && forall i | 0 <= i < |events| :: Step(k, states[i], events[i], states[i + 1])
  }

  ghost predicate Safe(k: Keeper, s: State) {
    Honest(k, s.db) && (s.last.Some? ==> Covered(k, s.last.value, s.db))
  }

  lemma RowAdded(r: Relation, t: Time)
    requires RowsInRange(r) && r.from <= t < r.to
    ensures RowsInRange(r.(rows := r.rows + multiset{t}))
  {
  }

  lemma InsertKeepsHonest(k: Keeper, s: State, e: Event, s': State)
    requires e.Insert? && Honest(k, s.db) && Step(k, s, e, s')
    ensures Honest(k, s'.db)
  {
    RowAdded(s.db[e.into], e.t);
    forall n <- s'.db ensures RowsInRange(s'.db[n]) && Read(k, s'.db[n]) == Read(k, s.db[n]) {
      if n != e.into { assert s'.db[n] == s.db[n]; }
    }
  }

  lemma InsertKeepsCovered(k: Keeper, now: Time, s: State, e: Event, s': State)
    requires e.Insert? && Covered(k, now, s.db) && Step(k, s, e, s')
    ensures Covered(k, now, s'.db)
  {
    forall table, t | table in k.tables && k.scheme.start(now) <= t < k.scheme.add(k.scheme.start(now), k.ahead + 1)
      ensures Takes(s'.db, table, t)
    {
      assert Takes(s.db, table, t);
      var n :| n in s.db && s.db[n].table == table && s.db[n].from <= t < s.db[n].to;
      assert n in s'.db && s'.db[n].table == table && s'.db[n].from <= t < s'.db[n].to;
    }
  }

  lemma StepKeepsSafe(k: Keeper, s: State, e: Event, s': State)
    requires WellMade(k) && Safe(k, s) && Step(k, s, e, s')
    ensures Safe(k, s')
  {
    match e
    case Maintain(now) =>
      MaintainKeepsHonest(k, now, s.db, s'.db);
      MaintainCovers(k, now, s.db, s'.db);
    case Failed =>
    case Insert(_, _, _) =>
      InsertKeepsHonest(k, s, e, s');
      if s.last.Some? { InsertKeepsCovered(k, s.last.value, s, e, s'); }
  }

  lemma {:induction false} SafeAlways(k: Keeper, states: seq<State>, events: seq<Event>, i: nat)
    requires WellMade(k) && IsRun(k, states, events) && Safe(k, states[0]) && i <= |events|
    ensures Safe(k, states[i])
    decreases i
  {
    if i > 0 {
      SafeAlways(k, states, events, i - 1);
      assert Step(k, states[i - 1], events[i - 1], states[i]);
      StepKeepsSafe(k, states[i - 1], events[i - 1], states[i]);
    }
  }

  /** In every run, clocks that go back included: a row that is there stays, or
      the Maintain that took it away found it older than Retention. */
  lemma RowsStayWhileYoung(k: Keeper, states: seq<State>, events: seq<Event>, i: nat, n: string, t: Time)
    requires WellMade(k) && IsRun(k, states, events) && Safe(k, states[0]) && i < |events|
    requires n in states[i].db && t in states[i].db[n].rows
    ensures || (n in states[i + 1].db && t in states[i + 1].db[n].rows)
            || (events[i].Maintain? && k.retention > 0 && events[i].now - t > k.retention)
  {
    SafeAlways(k, states, events, i);
    assert Step(k, states[i], events[i], states[i + 1]);
    if events[i].Maintain? {
      DroppedRowsAreOld(k, events[i].now, states[i].db, states[i + 1].db, n, t);
    }
  }

  /** In every run, a row stamped in the window of the last Maintain that
      succeeded has a partition. */
  lemma RowHasPartition(k: Keeper, states: seq<State>, events: seq<Event>, i: nat, table: string, t: Time)
    requires WellMade(k) && IsRun(k, states, events) && Safe(k, states[0]) && i <= |events|
    requires states[i].last.Some? && table in k.tables
    requires var now := states[i].last.value;
             k.scheme.start(now) <= t < k.scheme.add(k.scheme.start(now), k.ahead + 1)
    ensures Takes(states[i].db, table, t)
  {
    SafeAlways(k, states, events, i);
  }

  ghost predicate ShortRun(k: Keeper, events: seq<Event>) {
    forall i | 0 <= i < |events| && events[i].Maintain? :: ShortWindow(k, events[i].now)
  }

  lemma StepKeepsOwn(k: Keeper, s: State, e: Event, s': State)
    requires WellMade(k) && Own(k, s.db) && Step(k, s, e, s') && (e.Maintain? ==> ShortWindow(k, e.now))
    ensures Own(k, s'.db)
  {
    if e.Maintain? {
      MaintainKeepsOwn(k, e.now, s.db, s'.db);
    } else if e.Insert? {
      InsertKeepsOwn(k, s, e, s');
    }
  }

  lemma InsertKeepsOwn(k: Keeper, s: State, e: Event, s': State)
    requires e.Insert? && Own(k, s.db) && Step(k, s, e, s')
    ensures Own(k, s'.db)
  {
    assert OwnOne(k, e.into, s.db[e.into]);
    RowAdded(s.db[e.into], e.t);
    forall n <- s'.db ensures OwnOne(k, n, s'.db[n]) {
      if n != e.into { assert s'.db[n] == s.db[n]; }
    }
  }

  lemma {:induction false} OwnAlways(k: Keeper, states: seq<State>, events: seq<Event>, i: nat)
    requires WellMade(k) && IsRun(k, states, events) && Own(k, states[0].db) && ShortRun(k, events) && i <= |events|
    ensures Own(k, states[i].db)
    decreases i
  {
    if i > 0 {
      OwnAlways(k, states, events, i - 1);
      assert Step(k, states[i - 1], events[i - 1], states[i]);
      StepKeepsOwn(k, states[i - 1], events[i - 1], states[i]);
    }
  }

  /** In every run from a database of the Keeper's own partitions, an empty one
      say, with four-digit years: Maintain can always create what is missing. */
  lemma MaintainNeverBlocked(k: Keeper, states: seq<State>, events: seq<Event>, i: nat, now: Time)
    requires WellMade(k) && IsRun(k, states, events) && Own(k, states[0].db) && ShortRun(k, events) && i <= |events|
    ensures CanMaintain(k, now, states[i].db)
  {
    OwnAlways(k, states, events, i);
    OwnCanMaintain(k, now, states[i].db);
  }

  // ----- a Keeper that New built -----

  /** The years of a window have four digits exactly when the first and the last
      have. */
  lemma ShortWindowIff(k: Keeper, now: Time)
    requires Lawful(k.scheme)
    ensures var first := k.scheme.index(now);
            ShortWindow(k, now) <==> 0 <= k.scheme.year(first) && k.scheme.year(first + k.ahead) <= 9999
  {
    var c, first := k.scheme, k.scheme.index(now);
    if 0 <= c.year(first) && c.year(first + k.ahead) <= 9999 {
      forall i: nat | i <= k.ahead ensures ShortAt(k, now, i) {
        assert c.year(first) <= c.year(first + i) <= c.year(first + k.ahead);
      }
    }
    if ShortWindow(k, now) {
      assert ShortAt(k, now, 0) && ShortAt(k, now, k.ahead);
    }
  }

  lemma December9999IsLong(cfg: Config, now: Time)
    requires Acceptable(cfg) && cfg.period.Month? && cfg.ahead == 1 && now == Periods.Boundary(Periods.Month, 119999)
    ensures !ShortAt(KeeperOf(cfg), now, 1)
  {
    IndexOfBoundary(Periods.Month, 119999);
    LastShortMonth();
  }

  /** In the December of 9999, whatever the database, a Keeper of months whose run
      succeeded fails on the partition of January 10000 when it runs again. */
  lemma SecondRunInDecember9999(cfg: Config, now: Time, db: Relations, db': Relations)
    requires Acceptable(cfg) && cfg.period.Month? && cfg.ahead == 1 && now == Periods.Boundary(Periods.Month, 119999)
    requires WellNamed(db) && IsMaintained(KeeperOf(cfg), now, db, db')
    ensures !CanMaintain(KeeperOf(cfg), now, db')
  {
    December9999IsLong(cfg, now);
    BuiltIsWellMade(cfg);
    SecondRun(KeeperOf(cfg), now, db, db');
  }

  /** From an empty database a Maintain can create its window and succeeds. */
  lemma FirstRun(k: Keeper, now: Time) returns (db: Relations)
    requires WellMade(k)
    ensures IsMaintained(k, now, map[], db)
  {
    OwnCanMaintain(k, now, map[]);
    assert IsExisting(k, map[], []);
    CreatesWork(k, now, map[], []);
    var mid := CreateAll(map[], ToCreate(k, now, [])).value;
    DropsWork(k, now, map[], [], mid);
    db := DropAll(mid, ToDrop(k, now, [])).value;
    AppliedIsMaintained(k, now, map[], [], mid, db);
  }

  /** So the first run on an empty database succeeds and the second fails. */
  lemma StuckInTheYear10000(cfg: Config, now: Time) returns (db: Relations)
    requires Acceptable(cfg) && cfg.period.Month? && cfg.ahead == 1 && now == Periods.Boundary(Periods.Month, 119999)
    ensures CanMaintain(KeeperOf(cfg), now, map[]) && IsMaintained(KeeperOf(cfg), now, map[], db)
    ensures !CanMaintain(KeeperOf(cfg), now, db)
  {
    BuiltIsWellMade(cfg);
    OwnCanMaintain(KeeperOf(cfg), now, map[]);
    db := FirstRun(KeeperOf(cfg), now);
    SecondRunInDecember9999(cfg, now, map[], db);
  }
}
