/** partition/partition.go: Maintain on a database, and what holds over its runs.

    A Maintain is one transaction under an advisory lock, so runs take their
    turns. */
module PartitionRuns {
  import opened Common
  import opened Ranking
  import opened Schemes
  import opened Partition

  /** A partition in the database: its table, its name in the schema of the table,
      its range and the times of its rows. */
  datatype Relation = Relation(table: string, relname: string, from: Time, to: Time, rows: multiset<Time>)

  /** The partitions by their full names. */
  type Relations = map<string, Relation>

  ghost predicate WellNamed(db: Relations) {
    forall n <- db :: n == FullName(db[n].table, db[n].relname)
  }

  /** What the Keeper makes of a relation. */
  function Read(k: Keeper, r: Relation): Option<Part> {
    if r.table in k.tables then Parse(k, r.table, r.relname) else None
  }

  function NewRelation(p: Part): Relation
    requires |Prefix(p.table)| <= |p.name|
  {
    Relation(p.table, p.name[|Prefix(p.table)|..], p.from, p.to, multiset{})
  }

  predicate Disjoint(r: Relation, p: Part) {
    r.table != p.table || r.to <= p.from || p.to <= r.from
  }

  /** CREATE TABLE ... PARTITION OF: the name is free and no partition of the table
      overlaps. */
  predicate CanCreate(db: Relations, p: Part) {
    |Prefix(p.table)| <= |p.name| && p.name !in db && forall n <- db :: Disjoint(db[n], p)
  }

  predicate CanDrop(db: Relations, p: Part) {
    p.name in db && db[p.name].table == p.table
  }

  /** The partitions after all of ps were created in turn, or a failure. */
  function CreateAll(db: Relations, ps: seq<Part>): Option<Relations> {
    if ps == [] then Some(db) else
      var front, p := CreateAll(db, ps[..|ps| - 1]), ps[|ps| - 1];
      if front.None? || !CanCreate(front.value, p) then None else Some(front.value[p.name := NewRelation(p)])
  }

  function DropAll(db: Relations, ps: seq<Part>): Option<Relations> {
    if ps == [] then Some(db) else
      var front, p := DropAll(db, ps[..|ps| - 1]), ps[|ps| - 1];
      if front.None? || !CanDrop(front.value, p) then None else Some(front.value - {p.name})
  }

  /** The names of the relations read as partitions. */
  function Have(k: Keeper, db: Relations): set<string> {
    set n | n in db && Read(k, db[n]).Some?
  }

  /** The result of the query: each relation read as a partition, once. */
  ghost predicate IsExisting(k: Keeper, db: Relations, existing: seq<Part>) {
    && (forall p <- existing :: p.name in db && Read(k, db[p.name]) == Some(p))
    && (forall n <- db | Read(k, db[n]).Some? :: Read(k, db[n]).value in existing)
    && (forall i, j | 0 <= i < j < |existing| :: existing[i].name != existing[j].name)
  }

  /** p is to be created: wanted, and no relation read as a partition has its
      name. */
  predicate Creates(k: Keeper, now: Time, db: Relations, p: Part) {
    IsWanted(k, now, k.ahead + 1, p) && p.name !in Have(k, db)
  }

  predicate Expires(k: Keeper, now: Time, r: Relation) {
    k.retention > 0 && Read(k, r).Some? && Read(k, r).value.to <= now - k.retention
  }

  ghost predicate CanMaintain(k: Keeper, now: Time, db: Relations) {
    forall p | Creates(k, now, db, p) :: CanCreate(db, p)
  }

  /** What a successful Maintain does: the missing partitions of the window are
      there and empty, the expired ones are gone, and every other is as it was. */
  ghost predicate IsMaintained(k: Keeper, now: Time, db: Relations, db': Relations) {
    && (forall n <- db' :: (n in db && !Expires(k, now, db[n])) || exists p :: Creates(k, now, db, p) && p.name == n)
    && (forall n <- db | !Expires(k, now, db[n]) :: n in db' && db'[n] == db[n])
    && (forall p | Creates(k, now, db, p) ::
          |Prefix(p.table)| <= |p.name| && p.name in db' && db'[p.name] == NewRelation(p))
  }

  // ----- creating and dropping in turn -----

  predicate Apart(p: Part, q: Part) {
    p.name != q.name && (p.table != q.table || p.to <= q.from || q.to <= p.from)
  }

  ghost predicate AllApart(ps: seq<Part>) {
    forall a, b | 0 <= a < b < |ps| :: Apart(ps[a], ps[b])
  }

  ghost predicate Added(db: Relations, ps: seq<Part>, db': Relations) {
    && (forall n <- db' :: n in db || exists p :: p in ps && p.name == n)
    && (forall n <- db :: n in db' && db'[n] == db[n])
    && (forall p <- ps :: |Prefix(p.table)| <= |p.name| && p.name in db' && db'[p.name] == NewRelation(p))
  }

  ghost predicate AllCreatable(db: Relations, ps: seq<Part>) {
    forall p <- ps :: CanCreate(db, p)
  }

  lemma CreatableAfter(db: Relations, ps: seq<Part>, p: Part, db': Relations)
    requires Added(db, ps, db') && forall q <- ps :: Apart(q, p)
    ensures CanCreate(db', p) <==> CanCreate(db, p)
  {
    if CanCreate(db, p) {
      forall n <- db' ensures Disjoint(db'[n], p) && n != p.name {
        if n !in db {
          var q :| q in ps && q.name == n;
          assert Apart(q, p);
        }
      }
    }
    if CanCreate(db', p) {
      forall n <- db ensures Disjoint(db[n], p) {
        assert Disjoint(db'[n], p);
      }
    }
  }

  lemma AddedNext(db: Relations, ps: seq<Part>, p: Part, db': Relations)
    requires Added(db, ps, db') && CanCreate(db', p)
    ensures Added(db, ps + [p], db'[p.name := NewRelation(p)])
  {
    var all, db'' := ps + [p], db'[p.name := NewRelation(p)];
    forall n <- db'' ensures n in db || exists q :: q in all && q.name == n {
      if n == p.name {
        assert p in all;
      } else if n !in db {
        var q :| q in ps && q.name == n;
        assert q in all;
      }
    }
  }

  lemma CreateNext(db: Relations, ps: seq<Part>, p: Part)
    requires forall q <- ps :: Apart(q, p)
    requires CreateAll(db, ps).Some? <==> AllCreatable(db, ps)
    requires CreateAll(db, ps).Some? ==> Added(db, ps, CreateAll(db, ps).value)
    ensures CreateAll(db, ps + [p]).Some? <==> AllCreatable(db, ps + [p])
    ensures CreateAll(db, ps + [p]).Some? ==> Added(db, ps + [p], CreateAll(db, ps + [p]).value)
  {
    assert (ps + [p])[..|ps + [p]| - 1] == ps;
    assert AllCreatable(db, ps + [p]) <==> AllCreatable(db, ps) && CanCreate(db, p);
    var mid := CreateAll(db, ps);
    if mid.Some? {
      CreatableAfter(db, ps, p, mid.value);
      if CanCreate(mid.value, p) {
        AddedNext(db, ps, p, mid.value);
      }
    }
  }

  lemma FrontIsApart(ps: seq<Part>, p: Part)
    requires AllApart(ps + [p])
    ensures AllApart(ps) && forall q <- ps :: Apart(q, p)
  {
    var all := ps + [p];
    forall a, b | 0 <= a < b < |ps| ensures Apart(ps[a], ps[b]) { assert Apart(all[a], all[b]); }
    forall q <- ps ensures Apart(q, p) {
      var a :| 0 <= a < |ps| && ps[a] == q;
      assert Apart(all[a], all[|ps|]);
    }
  }

  /** Partitions that are apart can all be created exactly when each can. */
  lemma {:induction false} CreateAllIff(db: Relations, ps: seq<Part>)
    requires AllApart(ps)
    ensures CreateAll(db, ps).Some? <==> AllCreatable(db, ps)
    ensures CreateAll(db, ps).Some? ==> Added(db, ps, CreateAll(db, ps).value)
  {
    if ps != [] {
      var front, p := ps[..|ps| - 1], ps[|ps| - 1];
      assert ps == front + [p];
      FrontIsApart(front, p);
      CreateAllIff(db, front);
      CreateNext(db, front, p);
    }
  }

  ghost predicate Removed(db: Relations, ps: seq<Part>, db': Relations) {
    && (forall n :: n in db' <==> n in db && forall p <- ps :: p.name != n)
    && (forall n <- db' :: db'[n] == db[n])
  }

  ghost predicate NamesDiffer(ps: seq<Part>) {
    forall a, b | 0 <= a < b < |ps| :: ps[a].name != ps[b].name
  }

  lemma FrontDiffers(ps: seq<Part>)
    requires ps != [] && NamesDiffer(ps)
    ensures NamesDiffer(ps[..|ps| - 1]) && forall q <- ps[..|ps| - 1] :: q.name != ps[|ps| - 1].name
  {
    forall q <- ps[..|ps| - 1] ensures q.name != ps[|ps| - 1].name {
      var a :| 0 <= a < |ps| - 1 && ps[a] == q;
    }
  }

  ghost predicate AllThere(db: Relations, ps: seq<Part>) {
    forall p <- ps :: p.name in db && db[p.name].table == p.table
  }

  lemma DropLast(db: Relations, front: seq<Part>, p: Part, mid: Option<Relations>)
    requires mid == DropAll(db, front)
    ensures DropAll(db, front + [p]) ==
            if mid.None? || !CanDrop(mid.value, p) then None else Some(mid.value - {p.name})
  {
    assert (front + [p])[..|front + [p]| - 1] == front;
  }

  lemma RemovedNext(db: Relations, front: seq<Part>, p: Part, mid: Relations)
    requires Removed(db, front, mid) && forall q <- front :: q.name != p.name
    ensures CanDrop(mid, p) <==> p.name in db && db[p.name].table == p.table
    ensures Removed(db, front + [p], mid - {p.name})
  {
  }

  /** Partitions of different names can all be dropped exactly when each is there as
      one of its table. */
  lemma {:induction false} DropAllIff(db: Relations, ps: seq<Part>)
    requires NamesDiffer(ps)
    ensures DropAll(db, ps).Some? <==> AllThere(db, ps)
    ensures DropAll(db, ps).Some? ==> Removed(db, ps, DropAll(db, ps).value)
  {
    if ps != [] {
      var front, p := ps[..|ps| - 1], ps[|ps| - 1];
      var mid := DropAll(db, front);
      FrontDiffers(ps);
      DropAllIff(db, front);
      DropLast(db, front, p, mid);
      if mid.Some? { RemovedNext(db, front, p, mid.value); }
      assert ps == front + [p];
    }
  }

  // ----- the plan on a database -----

  lemma ReadKeepsName(k: Keeper, db: Relations, n: string)
    requires Lawful(k.scheme) && WellNamed(db) && n in db && Read(k, db[n]).Some?
    ensures Read(k, db[n]).value.name == n && Read(k, db[n]).value.table == db[n].table
  {
    PartOfParse(k, db[n].table, db[n].relname);
  }

  ghost predicate ReadsTrue(k: Keeper, db: Relations) {
    forall n <- db | Read(k, db[n]).Some? :: Read(k, db[n]).value.name == n && Read(k, db[n]).value.table == db[n].table
  }

  lemma ReadsAreTrue(k: Keeper, db: Relations)
    requires Lawful(k.scheme) && WellNamed(db)
    ensures ReadsTrue(k, db)
  {
    forall n <- db | Read(k, db[n]).Some?
      ensures Read(k, db[n]).value.name == n && Read(k, db[n]).value.table == db[n].table
    {
      ReadKeepsName(k, db, n);
    }
  }

  lemma ExistingNames(k: Keeper, db: Relations, existing: seq<Part>)
    requires Lawful(k.scheme) && WellNamed(db) && IsExisting(k, db, existing)
    ensures NamesIn(existing) == Have(k, db)
  {
    forall n | n in Have(k, db) ensures n in NamesIn(existing) {
      ReadKeepsName(k, db, n);
      assert Read(k, db[n]).value in existing;
    }
  }

  lemma WantedAreApart(k: Keeper, now: Time, i: int, x: nat, j: int, y: nat)
    requires WellMade(k) && x < |k.tables| && y < |k.tables| && (i != j || x != y)
    ensures Apart(WantedAt(k, now, i, x), WantedAt(k, now, j, y))
  {
    var c, first := k.scheme, k.scheme.index(now);
    WantedSpan(k, now, i, x);
    WantedSpan(k, now, j, y);
    if i + 1 < j { StartsGrow(c, first + i + 1, first + j); }
    if j + 1 < i { StartsGrow(c, first + j + 1, first + i); }
    if x < y { assert k.tables[x] != k.tables[y]; }
    if y < x { assert k.tables[y] != k.tables[x]; }
    if WantedAt(k, now, i, x).name == WantedAt(k, now, j, y).name {
      PartNamesAreInjective(k, k.tables[x], first + i, k.tables[y], first + j);
    }
  }

  lemma Placed(k: Keeper, now: Time, p: Part) returns (i: nat, x: nat)
    requires IsWanted(k, now, k.ahead + 1, p)
    ensures i <= k.ahead && x < |k.tables| && p == WantedAt(k, now, i, x)
  {
    i, x :| i < k.ahead + 1 && x < |k.tables| && p == WantedAt(k, now, i, x);
  }

  lemma EarlierIsOther(tables: seq<string>, p: Part, q: Part)
    requires Earlier(tables, p, q) && forall x, y | 0 <= x < y < |tables| :: tables[x] != tables[y]
    ensures p != q
  {
  }

  lemma EarlierIsApart(k: Keeper, now: Time, p: Part, q: Part)
    requires WellMade(k) && IsWanted(k, now, k.ahead + 1, p) && IsWanted(k, now, k.ahead + 1, q) &&
             Earlier(k.tables, p, q)
    ensures Apart(p, q)
  {
    EarlierIsOther(k.tables, p, q);
    var i, x := Placed(k, now, p);
    var j, y := Placed(k, now, q);
    WantedAreApart(k, now, i, x, j, y);
  }

  lemma ToCreateIsApart(k: Keeper, now: Time, existing: seq<Part>)
    requires WellMade(k)
    ensures AllApart(ToCreate(k, now, existing))
  {
    var ps := ToCreate(k, now, existing);
    CreatedInOrder(k, now, existing);
    forall a, b | 0 <= a < b < |ps| ensures Apart(ps[a], ps[b]) {
      CreatesExactly(k, now, existing, ps[a]);
      CreatesExactly(k, now, existing, ps[b]);
      EarlierIsApart(k, now, ps[a], ps[b]);
    }
  }

  lemma SameNameSamePart(ps: seq<Part>, p: Part, q: Part)
    requires NamesDiffer(ps) && p in ps && q in ps && p.name == q.name
    ensures p == q
  {
    var a :| 0 <= a < |ps| && ps[a] == p;
    var b :| 0 <= b < |ps| && ps[b] == q;
    assert a == b;
  }

  lemma {:induction false} ExpiredDiffer(ps: seq<Part>, table: string, cutoff: Time)
    requires NamesDiffer(ps)
    ensures NamesDiffer(Expired(ps, table, cutoff))
  {
    if ps != [] {
      var front, last := ps[..|ps| - 1], ps[|ps| - 1];
      ExpiredDiffer(front, table, cutoff);
      forall q <- Expired(front, table, cutoff) ensures q.name != last.name {
        InExpired(front, table, cutoff, q);
        var a :| 0 <= a < |front| && front[a] == q;
        assert ps[a].name != ps[|ps| - 1].name;
      }
    }
  }

  lemma {:induction false} DropsDiffer(tables: seq<string>, i: nat, ps: seq<Part>, cutoff: Time)
    requires i <= |tables| && NamesDiffer(ps) && forall x, y | 0 <= x < y < |tables| :: tables[x] != tables[y]
    ensures NamesDiffer(Drops(tables, i, ps, cutoff))
    decreases |tables| - i
  {
    if i < |tables| {
      DropsDiffer(tables, i + 1, ps, cutoff);
      ExpiredDiffer(ps, tables[i], cutoff);
      var later, these := Drops(tables, i + 1, ps, cutoff), Expired(ps, tables[i], cutoff);
      forall p <- later, q <- these ensures p.name != q.name {
        OfDifferentTables(tables, i, ps, cutoff, p, q);
      }
      AppendDiffer(later, these);
    }
  }

  lemma AppendDiffer(ps: seq<Part>, qs: seq<Part>)
    requires NamesDiffer(ps) && NamesDiffer(qs) && forall p <- ps, q <- qs :: p.name != q.name
    ensures NamesDiffer(ps + qs)
  {
    var all := ps + qs;
    forall a, b | 0 <= a < b < |all| ensures all[a].name != all[b].name {
      if a < |ps| <= b { assert all[a] in ps && all[b] in qs; }
    }
  }

  lemma OfDifferentTables(tables: seq<string>, i: nat, ps: seq<Part>, cutoff: Time, p: Part, q: Part)
    requires i < |tables| && NamesDiffer(ps) && forall x, y | 0 <= x < y < |tables| :: tables[x] != tables[y]
    requires p in Drops(tables, i + 1, ps, cutoff) && q in Expired(ps, tables[i], cutoff)
    ensures p.name != q.name
  {
    InDrops(tables, i + 1, ps, cutoff, p);
    InExpired(ps, tables[i], cutoff, q);
    var y :| 0 <= y < |tables[i + 1..]| && tables[i + 1..][y] == p.table;
    assert tables[i] != tables[i + 1 + y];
    if p.name == q.name { SameNameSamePart(ps, p, q); }
  }

  /** The creates of a plan, all of them or none. */
  lemma CreatesWork(k: Keeper, now: Time, db: Relations, existing: seq<Part>)
    requires WellMade(k) && WellNamed(db) && IsExisting(k, db, existing)
    ensures var create := ToCreate(k, now, existing);
            && (forall p :: p in create <==> Creates(k, now, db, p))
            && (CreateAll(db, create).Some? <==> CanMaintain(k, now, db))
            && (CreateAll(db, create).Some? ==> Added(db, create, CreateAll(db, create).value))
  {
    var create := ToCreate(k, now, existing);
    ExistingNames(k, db, existing);
    forall p ensures p in create <==> Creates(k, now, db, p) {
      CreatesExactly(k, now, existing, p);
    }
    ToCreateIsApart(k, now, existing);
    CreateAllIff(db, create);
  }

  lemma DropIffExpires(k: Keeper, now: Time, db: Relations, existing: seq<Part>, n: string)
    requires WellMade(k) && WellNamed(db) && IsExisting(k, db, existing)
    ensures (exists p :: p in ToDrop(k, now, existing) && p.name == n) <==> n in db && Expires(k, now, db[n])
  {
    if n in db && Expires(k, now, db[n]) {
      var p := Read(k, db[n]).value;
      ReadKeepsName(k, db, n);
      DropsExactly(k, now, existing, p);
    }
    forall p | p in ToDrop(k, now, existing) && p.name == n ensures n in db && Expires(k, now, db[n]) {
      DropsExactly(k, now, existing, p);
    }
  }

  lemma DropsWork(k: Keeper, now: Time, db: Relations, existing: seq<Part>, mid: Relations)
    requires WellMade(k) && WellNamed(db) && IsExisting(k, db, existing)
    requires forall n <- db :: n in mid && mid[n] == db[n]
    ensures var drop := ToDrop(k, now, existing);
            DropAll(mid, drop).Some? && Removed(mid, drop, DropAll(mid, drop).value)
  {
    var drop := ToDrop(k, now, existing);
    forall p <- drop ensures CanDrop(mid, p) {
      DropsExactly(k, now, existing, p);
      ReadKeepsName(k, db, p.name);
    }
    DropsDiffer(k.tables, 0, existing, now - k.retention);
    DropAllIff(mid, drop);
  }

  /** Applying a plan in turn is what IsMaintained says of the whole. */
  lemma AppliedIsMaintained(k: Keeper, now: Time, db: Relations, existing: seq<Part>, mid: Relations, db': Relations)
    requires WellMade(k) && WellNamed(db) && IsExisting(k, db, existing)
    requires Added(db, ToCreate(k, now, existing), mid) && Removed(mid, ToDrop(k, now, existing), db')
    ensures IsMaintained(k, now, db, db')
  {
    var create, drop := ToCreate(k, now, existing), ToDrop(k, now, existing);
    CreatesWork(k, now, db, existing);
    forall n ensures (exists p :: p in drop && p.name == n) <==> n in db && Expires(k, now, db[n]) {
      DropIffExpires(k, now, db, existing, n);
    }
    forall p | Creates(k, now, db, p)
      ensures |Prefix(p.table)| <= |p.name| && p.name in db' && db'[p.name] == NewRelation(p)
    {
      assert p in create;
      forall q <- drop ensures q.name != p.name {
        NothingCreatedAndDropped(k, now, existing, p, q);
      }
    }
    forall n <- db' ensures (n in db && !Expires(k, now, db[n])) || exists p :: Creates(k, now, db, p) && p.name == n {
      if n !in db {
        var p :| p in create && p.name == n;
      }
    }
  }

  // ----- the database -----

  class Database {
    var relations: Relations

    constructor ()
      ensures relations == map[]
    {
      relations := map[];
    }

    /** The names of the partitions of a table, ordered by relname. */
    method SelectPartitions(table: string) returns (names: seq<string>)
      ensures forall n :: n in names <==> n in relations && relations[n].table == table
      ensures ByRelname(relations, names)
    {
      var db := relations;
      var found := set n | n in db && db[n].table == table;
      RelnamesAreStrictOrder(db, found);
      names := Ascending(found, (a: string, b: string) => Sorts(db, a, b));
      SortedByRelname(db, names);
    }

    /** apply: the creates, then the drops; the first failure ends it. */
    method Apply(create: seq<Part>, drop: seq<Part>) returns (ok: bool)
      modifies this
      ensures var mid := CreateAll(old(relations), create);
              if mid.None? then !ok else
              var end := DropAll(mid.value, drop);
              if end.None? then !ok else ok && relations == end.value
    {
      for i := 0 to |create|
        invariant CreateAll(old(relations), create[..i]) == Some(relations)
      {
        var p := create[i];
        assert create[..i + 1][..i] == create[..i];
        if !CanCreate(relations, p) {
          CreateFails(old(relations), create, i + 1);
          return false;
        }
        relations := relations[p.name := NewRelation(p)];
      }
      assert create[..|create|] == create;
      ghost var mid := relations;
      for i := 0 to |drop|
        invariant DropAll(mid, drop[..i]) == Some(relations)
      {
        var p := drop[i];
        assert drop[..i + 1][..i] == drop[..i];
        if !CanDrop(relations, p) {
          DropFails(mid, drop, i + 1);
          return false;
        }
        relations := relations - {p.name};
      }
      assert drop[..|drop|] == drop;
      ok := true;
    }

    /** Maintain: it succeeds exactly when every missing partition can be created
        and the transaction commits, and a failure changes nothing. */
    method Maintain(k: Keeper, now: Time, commits: bool) returns (ok: bool)
      requires WellMade(k) && WellNamed(relations)
      modifies this
      ensures ok <==> commits && CanMaintain(k, now, old(relations))
      ensures !ok ==> relations == old(relations)
      ensures ok ==> IsMaintained(k, now, old(relations), relations)
    {
      var before := relations;
      var existing := Partitions(k);
      var create, drop := Plan(k, now, existing);
      CreatesWork(k, now, before, existing);
      ok := Apply(create, drop);
      ghost var mid := CreateAll(before, create);
      if mid.Some? {
        DropsWork(k, now, before, existing, mid.value);
        AppliedIsMaintained(k, now, before, existing, mid.value, relations);
      }
      if !commits {
        ok := false;
      }
      if !ok {
        relations := before;
      }
    }

    /** The partitions the tables have, table by table in the order of their
        periods. */
    method Partitions(k: Keeper) returns (existing: seq<Part>)
      requires WellMade(k) && WellNamed(relations)
      ensures IsExisting(k, relations, existing)
      ensures Listed(k.tables, existing)
    {
      existing := [];
      ReadsAreTrue(k, relations);
      for i := 0 to |k.tables|
        invariant ReadUpTo(k, relations, k.tables[..i], [], existing)
        invariant Listed(k.tables, existing)
      {
        assert k.tables[i] !in k.tables[..i];
        assert k.tables[..i + 1] == k.tables[..i] + [k.tables[i]];
        var names := SelectPartitions(k.tables[i]);
        var more := ReadPartitions(k, k.tables[i], names);
        AllRead(k, relations, k.tables[..i], names, existing);
        TableIsRead(k, relations, k.tables[..i], k.tables[i], names, existing + more);
        TableIsListed(k, relations, i, names, existing);
        existing := existing + more;
      }
      assert k.tables[..|k.tables|] == k.tables;
    }

    method ReadPartitions(k: Keeper, table: string, names: seq<string>) returns (existing: seq<Part>)
      requires table in k.tables && forall n <- names :: n in relations && relations[n].table == table
      ensures existing == ReadAll(k, relations, names)
    {
      existing := [];
      for j := 0 to |names|
        invariant existing == ReadAll(k, relations, names[..j])
      {
        assert names[..j + 1][..j] == names[..j];
        var p := Parse(k, table, relations[names[j]].relname);
        if p.Some? {
          existing := existing + [p.value];
        }
      }
      assert names[..|names|] == names;
    }
  }

  // ----- the partitions in order -----

  /** ORDER BY relname; what is of one relname is in any order, here by name. */
  predicate Sorts(db: Relations, a: string, b: string) {
    a in db && b in db && (Less(db[a].relname, db[b].relname) || (db[a].relname == db[b].relname && Less(a, b)))
  }

  ghost predicate ByRelname(db: Relations, names: seq<string>) {
    forall i, j | 0 <= i < j < |names| ::
      names[i] in db && names[j] in db && names[i] != names[j] && !Less(db[names[j]].relname, db[names[i]].relname)
  }

  lemma SortsOneWay(db: Relations, a: string, b: string)
    requires a in db && b in db
    ensures !Sorts(db, a, a) && (a == b || Sorts(db, a, b) || Sorts(db, b, a))
    ensures Sorts(db, a, b) ==> a != b && !Less(db[b].relname, db[a].relname)
  {
    LessIsStrict(a, b);
    LessIsStrict(db[a].relname, db[b].relname);
    if Less(db[a].relname, db[b].relname) { LessIsOneWay(db[a].relname, db[b].relname); }
  }

  lemma SortsOn(db: Relations, a: string, b: string, c: string)
    requires Sorts(db, a, b) && Sorts(db, b, c)
    ensures Sorts(db, a, c)
  {
    var x, y, z := db[a].relname, db[b].relname, db[c].relname;
    if Less(x, y) && Less(y, z) {
      LessIsTransitive(x, y, z);
    } else if x == y == z {
      LessIsTransitive(a, b, c);
    }
  }

  lemma RelnamesAreStrictOrder(db: Relations, names: set<string>)
    requires names <= db.Keys
    ensures StrictOrderOn(names, (a: string, b: string) => Sorts(db, a, b))
  {
    forall a, b | a in names && b in names ensures !Sorts(db, a, a) && (a == b || Sorts(db, a, b) || Sorts(db, b, a)) {
      SortsOneWay(db, a, b);
    }
    forall a, b, c | Sorts(db, a, b) && Sorts(db, b, c) ensures Sorts(db, a, c) { SortsOn(db, a, b, c); }
  }

  lemma SortedByRelname(db: Relations, names: seq<string>)
    requires forall i, j | 0 <= i < j < |names| :: Sorts(db, names[i], names[j])
    ensures ByRelname(db, names)
  {
    forall i, j | 0 <= i < j < |names|
      ensures names[i] in db && names[j] in db && names[i] != names[j] &&
              !Less(db[names[j]].relname, db[names[i]].relname)
    {
      SortsOneWay(db, names[i], names[j]);
    }
  }

  /** Names that sort later are of later periods. */
  lemma LaterNameIsLater(k: Keeper, table: string, r: string, s: string)
    requires Lawful(k.scheme) && NamesInOrder(k.scheme) && Parse(k, table, r).Some? && Parse(k, table, s).Some?
    requires r != s && !Less(s, r)
    ensures Parse(k, table, r).value.to <= Parse(k, table, s).value.from
  {
    var c, p, q := k.scheme, Parse(k, table, r).value, Parse(k, table, s).value;
    PartOfParse(k, table, r);
    PartOfParse(k, table, s);
    NotBefore(k, table, c.index(p.from), c.index(q.from));
    PeriodsApart(c, c.index(p.from), c.index(q.from));
    if c.at(c.index(q.from) + 1) <= c.at(c.index(p.from)) {
      StartsGrow(c, c.index(q.from), c.index(q.from) + 1);
      StartBeforeIff(c, c.index(q.from) + 1, p.from);
    }
  }

  lemma NotBefore(k: Keeper, table: string, i: int, j: int)
    requires NamesInOrder(k.scheme) && ShortIn(k.scheme, i) && ShortIn(k.scheme, j)
    requires RelationName(k, table, k.scheme.at(i)) != RelationName(k, table, k.scheme.at(j))
    requires !Less(RelationName(k, table, k.scheme.at(j)), RelationName(k, table, k.scheme.at(i)))
    ensures i < j
  {
    var c := k.scheme;
    LessAfterPrefix(BaseName(table) + "_", c.format(c.at(j)), c.format(c.at(i)));
  }

  lemma RelnamesDiffer(db: Relations, m: string, n: string)
    requires WellNamed(db) && m in db && n in db && m != n && db[m].table == db[n].table
    ensures db[m].relname != db[n].relname
  {
  }

  lemma {:induction false} ReadOldestFirst(k: Keeper, db: Relations, table: string, names: seq<string>)
    requires WellMade(k) && WellNamed(db) && ReadsTrue(k, db) && ByRelname(db, names)
    requires forall n <- names :: n in db && db[n].table == table
    ensures OldestFirst(ReadAll(k, db, names))
    ensures forall p <- ReadAll(k, db, names) :: p.table == table && p.name in names && Read(k, db[p.name]) == Some(p)
    decreases |names|
  {
    if names != [] {
      var front, n := names[..|names| - 1], names[|names| - 1];
      ReadOldestFirst(k, db, table, front);
      if Read(k, db[n]).Some? {
        forall p <- ReadAll(k, db, front) ensures p.to <= Read(k, db[n]).value.from {
          var a :| 0 <= a < |front| && front[a] == p.name;
          assert names[a] == p.name;
          RelnamesDiffer(db, p.name, n);
          LaterNameIsLater(k, table, db[p.name].relname, db[n].relname);
        }
      }
    }
  }

  lemma TableIsListed(k: Keeper, db: Relations, i: nat, names: seq<string>, existing: seq<Part>)
    requires WellMade(k) && WellNamed(db) && ReadsTrue(k, db) && ByRelname(db, names) && i < |k.tables|
    requires forall n <- names :: n in db && db[n].table == k.tables[i]
    requires Listed(k.tables, existing) && forall p <- existing :: p.table in k.tables[..i]
    ensures Listed(k.tables, existing + ReadAll(k, db, names))
  {
    ReadOldestFirst(k, db, k.tables[i], names);
    forall p <- existing ensures Precedes(k.tables, p.table, k.tables[i]) {
      var x :| 0 <= x < |k.tables[..i]| && k.tables[..i][x] == p.table;
      assert k.tables[x] == p.table;
    }
    ListedAppend(k.tables, existing, ReadAll(k, db, names), k.tables[i]);
  }

  /** What is read of the relations of these names. */
  function ReadAll(k: Keeper, db: Relations, names: seq<string>): seq<Part>
    requires forall n <- names :: n in db
  {
    if names == [] then [] else
      var p := Read(k, db[names[|names| - 1]]);
      ReadAll(k, db, names[..|names| - 1]) + if p.Some? then [p.value] else []
  }

  lemma {:induction false} AllRead(k: Keeper, db: Relations, tables: seq<string>, names: seq<string>,
                                   existing: seq<Part>)
    requires ReadsTrue(k, db) && ReadUpTo(k, db, tables, [], existing)
    requires forall n <- names :: n in db && db[n].table !in tables
    requires forall i, j | 0 <= i < j < |names| :: names[i] != names[j]
    ensures ReadUpTo(k, db, tables, names, existing + ReadAll(k, db, names))
    decreases |names|
  {
    if names == [] {
      assert existing + ReadAll(k, db, names) == existing;
    } else {
      var front, n := names[..|names| - 1], names[|names| - 1];
      assert n !in front;
      AllRead(k, db, tables, front, existing);
      OneMoreRead(k, db, tables, front, n, existing);
      assert names == front + [n];
    }
  }

  lemma OneMoreRead(k: Keeper, db: Relations, tables: seq<string>, front: seq<string>, n: string, existing: seq<Part>)
    requires ReadsTrue(k, db) && n in db && n !in front && db[n].table !in tables
    requires (forall x <- front :: x in db) && ReadUpTo(k, db, tables, front, existing + ReadAll(k, db, front))
    ensures ReadUpTo(k, db, tables, front + [n], existing + ReadAll(k, db, front + [n]))
  {
    ReadNext(k, db, tables, front, n, existing + ReadAll(k, db, front));
    AppendedRead(k, db, existing, front, n);
  }

  lemma AppendedRead(k: Keeper, db: Relations, existing: seq<Part>, front: seq<string>, n: string)
    requires n in db && forall x <- front :: x in db
    ensures existing + ReadAll(k, db, front + [n]) ==
            if Read(k, db[n]).Some? then existing + ReadAll(k, db, front) + [Read(k, db[n]).value]
            else existing + ReadAll(k, db, front)
  {
    assert (front + [n])[..|front + [n]| - 1] == front;
  }

  lemma ReadNext(k: Keeper, db: Relations, tables: seq<string>, names: seq<string>, n: string, existing: seq<Part>)
    requires ReadsTrue(k, db) && ReadUpTo(k, db, tables, names, existing)
    requires n in db && n !in names && db[n].table !in tables
    ensures ReadUpTo(k, db, tables, names + [n],
                     if Read(k, db[n]).Some? then existing + [Read(k, db[n]).value] else existing)
  {
    if Read(k, db[n]).Some? {
      assert forall q <- existing :: q.name != n;
      AppendDiffer(existing, [Read(k, db[n]).value]);
    }
  }

  lemma TableIsRead(k: Keeper, db: Relations, tables: seq<string>, table: string, names: seq<string>,
                    existing: seq<Part>)
    requires ReadsTrue(k, db) && ReadUpTo(k, db, tables, names, existing)
    requires forall n :: n in names <==> n in db && db[n].table == table
    ensures ReadUpTo(k, db, tables + [table], [], existing)
  {
  }

  lemma {:induction false} CreateFails(db: Relations, ps: seq<Part>, i: nat)
    requires i <= |ps| && CreateAll(db, ps[..i]).None?
    ensures CreateAll(db, ps).None?
    decreases |ps|
  {
    if i == |ps| {
      assert ps[..i] == ps;
    } else {
      assert ps[..|ps| - 1][..i] == ps[..i];
      CreateFails(db, ps[..|ps| - 1], i);
    }
  }

  lemma {:induction false} DropFails(db: Relations, ps: seq<Part>, i: nat)
    requires i <= |ps| && DropAll(db, ps[..i]).None?
    ensures DropAll(db, ps).None?
    decreases |ps|
  {
    if i == |ps| {
      assert ps[..i] == ps;
    } else {
      assert ps[..|ps| - 1][..i] == ps[..i];
      DropFails(db, ps[..|ps| - 1], i);
    }
  }

  /** The relations of some tables and some more by name are read, each once. */
  ghost predicate ReadUpTo(k: Keeper, db: Relations, tables: seq<string>, names: seq<string>, existing: seq<Part>) {
    && (forall p <- existing ::
          p.name in db && Read(k, db[p.name]) == Some(p) && (p.table in tables || p.name in names))
    && (forall n <- db | Read(k, db[n]).Some? && (db[n].table in tables || n in names) ::
          Read(k, db[n]).value in existing)
    && NamesDiffer(existing)
  }
}
