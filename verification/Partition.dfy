/** partition/partition.go: a Keeper, and which partitions it creates and drops. */
module Partition {
  import opened Common
  import opened Periods
  import opened Schemes
  import Calendar
  import N = PartitionNames

  // ----- tables -----

  /** The place of the first dot, or the length. */
  function DotAt(t: string): (k: nat)
    ensures k <= |t| && (k < |t| ==> t[k] == '.') && forall i | 0 <= i < k :: t[i] != '.'
  {
    if t == "" || t[0] == '.' then 0 else 1 + DotAt(t[1..])
  }

  /** The name without its schema. */
  function BaseName(t: string): string {
    var k := DotAt(t);
    if k < |t| then t[k + 1..] else t
  }

  /** The schema with its dot, or nothing. */
  function Prefix(t: string): string {
    var k := DotAt(t);
    if k < |t| then t[..k + 1] else ""
  }

  lemma PrefixAndBase(t: string)
    ensures Prefix(t) + BaseName(t) == t
  {
  }

  predicate NameStart(c: char) { 'a' <= c <= 'z' || c == '_' }

  predicate NameChar(c: char) { NameStart(c) || '0' <= c <= '9' }

  predicate PlainName(s: string) {
    |s| > 0 && NameStart(s[0]) && forall i | 0 <= i < |s| :: NameChar(s[i])
  }

  predicate IsTableName(t: string) {
    var k := DotAt(t);
    PlainName(BaseName(t)) && (k < |t| ==> PlainName(t[..k]))
  }

  const LETTERS := "abcdefghijklmnopqrstuvwxyz_"
  const DIGITS := "0123456789"

  /** [a-z_][a-z0-9_]* */
  ghost predicate IsWord(s: string) {
    s != "" && s[0] in LETTERS && forall c <- s :: c in LETTERS + DIGITS
  }

  lemma LetterIff(c: char)
    ensures NameStart(c) <==> c in LETTERS
  {
    if 'a' <= c <= 'z' {
      var i := c as int - 'a' as int;
      assert LETTERS[i] == c;
    }
  }

  lemma CharIff(c: char)
    ensures NameChar(c) <==> c in LETTERS + DIGITS
  {
    LetterIff(c);
    if '0' <= c <= '9' {
      var i := c as int - '0' as int;
      assert DIGITS[i] == c;
    }
  }

  lemma WordIff(s: string)
    ensures PlainName(s) <==> IsWord(s)
  {
    if s != "" {
      LetterIff(s[0]);
      forall i | 0 <= i < |s| ensures NameChar(s[i]) <==> s[i] in LETTERS + DIGITS { CharIff(s[i]); }
      if PlainName(s) {
        forall c <- s ensures c in LETTERS + DIGITS {
          var i :| 0 <= i < |s| && s[i] == c;
        }
      }
    }
  }

  lemma WordHasNoDot(s: string)
    requires IsWord(s)
    ensures '.' !in s
  {
    assert '.' !in LETTERS + DIGITS;
  }

  lemma DotIsThere(t: string, a: string, b: string)
    requires t == a + "." + b && '.' !in a
    ensures DotAt(t) == |a| && t[..|a|] == a && BaseName(t) == b
  {
    assert t[|a|] == '.' && forall i | 0 <= i < |a| :: t[i] == a[i] && a[i] in a;
  }

  /** A table name is a word, or two with a dot between them. */
  lemma TableNameIff(t: string)
    ensures IsTableName(t) <==> IsWord(t) || exists a, b :: t == a + "." + b && IsWord(a) && IsWord(b)
  {
    var k := DotAt(t);
    WordIff(t);
    WordIff(BaseName(t));
    if k < |t| {
      WordIff(t[..k]);
      assert t == t[..k] + "." + BaseName(t);
      if IsWord(t) { WordHasNoDot(t); }
    }
    if a, b :| t == a + "." + b && IsWord(a) && IsWord(b) {
      WordHasNoDot(a);
      DotIsThere(t, a, b);
    }
  }

  // ----- configuration -----

  datatype Config = Config(tables: seq<string>, period: Period, ahead: int, retention: Duration)

  datatype Keeper = Keeper(scheme: Scheme, tables: seq<string>, ahead: nat, retention: nat)

  datatype Refusal =
    | UnknownPeriod | Negative | NoTables
    | BadName(table: string) | TooLong(table: string) | Twice(table: string)

  datatype Built = Made(keeper: Keeper) | Refused(refusal: Refusal)

  const MAX_NAME := 63

  predicate Fits(p: Period, table: string) {
    |BaseName(table)| + 1 + N.Length(p.Day?) <= MAX_NAME
  }

  predicate GoodTable(cfg: Config, i: nat)
    requires i < |cfg.tables|
  {
    IsTableName(cfg.tables[i]) && Fits(cfg.period, cfg.tables[i]) && cfg.tables[i] !in cfg.tables[..i]
  }

  predicate Acceptable(cfg: Config) {
    && (cfg.period.Day? || cfg.period.Month?)
    && cfg.ahead >= 0 && cfg.retention >= 0
    && cfg.tables != []
    && forall i | 0 <= i < |cfg.tables| :: GoodTable(cfg, i)
  }

  /** The tables before i are good, and table i is the one refused. */
  predicate Blames(cfg: Config, i: nat, r: Refusal) {
    && i < |cfg.tables|
    && (forall j | 0 <= j < i :: GoodTable(cfg, j))
    && match r
       case BadName(t) => t == cfg.tables[i] && !IsTableName(t)
       case TooLong(t) => t == cfg.tables[i] && IsTableName(t) && !Fits(cfg.period, t)
       case Twice(t) => t == cfg.tables[i] && IsTableName(t) && Fits(cfg.period, t) && t in cfg.tables[..i]
       case _ => false
  }

  /** New, with an Ahead of 1 for none: a Keeper exactly for an acceptable
      configuration, else the first thing wrong with it. */
  method New(cfg: Config) returns (r: Built)
    ensures r.Made? <==> Acceptable(cfg)
    ensures r.Made? ==> r.keeper == KeeperOf(cfg)
    ensures r.Refused? ==> match r.refusal
      case UnknownPeriod => cfg.period.Unknown?
      case Negative => !cfg.period.Unknown? && (cfg.ahead < 0 || cfg.retention < 0)
      case NoTables => !cfg.period.Unknown? && cfg.ahead >= 0 && cfg.retention >= 0 && cfg.tables == []
      case _ => exists i: nat :: Blames(cfg, i, r.refusal)
  {
    var ahead := if cfg.ahead == 0 then 1 else cfg.ahead;
    if cfg.period.Unknown? {
      return Refused(UnknownPeriod);
    }
    if ahead < 0 || cfg.retention < 0 {
      return Refused(Negative);
    }
    if |cfg.tables| == 0 {
      return Refused(NoTables);
    }
    var blamed := CheckTables(cfg);
    if blamed.Some? {
      return Refused(blamed.value);
    }
    r := Made(Keeper(SchemeOf(cfg.period), cfg.tables, ahead, cfg.retention));
  }

  method CheckTables(cfg: Config) returns (blamed: Option<Refusal>)
    ensures blamed.None? <==> forall i | 0 <= i < |cfg.tables| :: GoodTable(cfg, i)
    ensures blamed.Some? ==> exists i: nat :: Blames(cfg, i, blamed.value)
  {
    var seen: set<string> := {};
    for i := 0 to |cfg.tables|
      invariant forall t :: t in seen <==> t in cfg.tables[..i]
      invariant forall j | 0 <= j < i :: GoodTable(cfg, j)
    {
      var table := cfg.tables[i];
      if !IsTableName(table) {
        assert Blames(cfg, i, BadName(table)) && !GoodTable(cfg, i);
        return Some(BadName(table));
      }
      if |BaseName(table)| + 1 + N.Length(cfg.period.Day?) > MAX_NAME {
        assert Blames(cfg, i, TooLong(table)) && !GoodTable(cfg, i);
        return Some(TooLong(table));
      }
      if table in seen {
        assert Blames(cfg, i, Twice(table)) && !GoodTable(cfg, i);
        return Some(Twice(table));
      }
      seen := seen + {table};
      assert cfg.tables[..i + 1] == cfg.tables[..i] + [table];
    }
    blamed := None;
  }

  function KeeperOf(cfg: Config): Keeper
    requires Acceptable(cfg)
  {
    Keeper(SchemeOf(cfg.period), cfg.tables, if cfg.ahead == 0 then 1 else cfg.ahead, cfg.retention)
  }

  /** What New accepts: a known period, no negative setting, and tables that are
      plainly named, leave room for the names of their partitions, and are listed
      once. */
  lemma AcceptableIff(cfg: Config)
    ensures Acceptable(cfg) <==>
            && (cfg.period == Day || cfg.period == Month) && cfg.ahead >= 0 && cfg.retention >= 0 && |cfg.tables| > 0
            && (forall t <- cfg.tables :: IsTableName(t) && Fits(cfg.period, t)) && NoneTwice(cfg.tables)
  {
    if Acceptable(cfg) {
      forall t <- cfg.tables ensures IsTableName(t) && Fits(cfg.period, t) {
        var i :| 0 <= i < |cfg.tables| && cfg.tables[i] == t;
        assert GoodTable(cfg, i);
      }
      forall i, j | 0 <= i < j < |cfg.tables| ensures cfg.tables[i] != cfg.tables[j] {
        assert GoodTable(cfg, j) && cfg.tables[..j][i] == cfg.tables[i];
      }
    }
  }

  /** A table fits when its partitions have names of at most 63 bytes, the longest
      Postgres keeps: all of them or none, while the years have four digits. */
  lemma FitsIffNamesFit(p: Period, table: string, i: int)
    requires Short(p, i)
    ensures Fits(p, table) <==> |BaseName(table) + "_" + FormatTime(p, Boundary(p, i))| <= 63
  {
    DateOfStart(p, i);
    N.FormatPieces(p.Day?, Calendar.DateOf(FirstDay(p, i)));
  }

  /** The Keeper New builds: the tables in their order, an Ahead of 1 for none, and
      the retention as it is. */
  lemma KeeperIs(cfg: Config)
    requires Acceptable(cfg)
    ensures KeeperOf(cfg).tables == cfg.tables && KeeperOf(cfg).scheme == SchemeOf(cfg.period)
    ensures KeeperOf(cfg).retention == cfg.retention
    ensures if cfg.ahead == 0 then KeeperOf(cfg).ahead == 1 else KeeperOf(cfg).ahead == cfg.ahead
  {
  }

  /** What every Keeper that New builds has. */
  ghost predicate WellMade(k: Keeper) {
    Lawful(k.scheme) && NamesInOrder(k.scheme) && NoneTwice(k.tables)
  }

  ghost predicate NoneTwice(tables: seq<string>) {
    forall i, j | 0 <= i < j < |tables| :: tables[i] != tables[j]
  }

  lemma BuiltIsWellMade(cfg: Config)
    requires Acceptable(cfg)
    ensures WellMade(KeeperOf(cfg)) && KeeperOf(cfg).ahead >= 1
  {
    PeriodIsLawful(cfg.period);
    PeriodNamesInOrder(cfg.period);
    forall i, j | 0 <= i < j < |cfg.tables| ensures cfg.tables[i] != cfg.tables[j] {
      assert GoodTable(cfg, j) && cfg.tables[..j][i] == cfg.tables[i];
    }
  }

  // ----- partitions and their names -----

  datatype Part = Part(table: string, name: string, from: Time, to: Time)

  function PartOf(k: Keeper, table: string, from: Time): Part {
    Part(table, table + "_" + k.scheme.format(from), from, k.scheme.add(from, 1))
  }

  /** The partition a relation is, by its name without the schema. */
  function Parse(k: Keeper, table: string, relname: string): Option<Part> {
    var prefix := BaseName(table) + "_";
    if !(prefix <= relname) then None else
    var from := k.scheme.parse(relname[|prefix|..]);
    if from.None? then None else Some(PartOf(k, table, from.value))
  }

  /** The name of a relation in the schema of its table. */
  function FullName(table: string, relname: string): string {
    Prefix(table) + relname
  }

  function RelationName(k: Keeper, table: string, from: Time): string {
    BaseName(table) + "_" + k.scheme.format(from)
  }

  lemma NameIsFull(k: Keeper, table: string, from: Time)
    ensures PartOf(k, table, from).name == FullName(table, RelationName(k, table, from))
  {
    PrefixAndBase(table);
    Regrouped(Prefix(table), BaseName(table), "_", k.scheme.format(from));
  }

  lemma Regrouped(a: string, b: string, c: string, d: string)
    ensures a + (b + c + d) == a + b + c + d
  {
  }

  lemma SuffixIsFormat(k: Keeper, table: string, from: Time)
    ensures var prefix := BaseName(table) + "_";
            prefix <= RelationName(k, table, from) && RelationName(k, table, from)[|prefix|..] == k.scheme.format(from)
  {
  }

  /** The relation of a partition is read as that partition exactly when its year
      has four digits; otherwise it is not seen at all. */
  lemma ParseOfPart(k: Keeper, table: string, i: int)
    requires Lawful(k.scheme)
    ensures var from := k.scheme.at(i);
            Parse(k, table, RelationName(k, table, from)) ==
            if ShortIn(k.scheme, i) then Some(PartOf(k, table, from)) else None
  {
    SuffixIsFormat(k, table, k.scheme.at(i));
  }

  /** What is read of a relation is a whole period with the name of the
      relation. */
  lemma PartOfParse(k: Keeper, table: string, relname: string)
    requires Lawful(k.scheme) && Parse(k, table, relname).Some?
    ensures var p := Parse(k, table, relname).value;
            && p.table == table && p.name == FullName(table, relname)
            && p == PartOf(k, table, k.scheme.at(k.scheme.index(p.from)))
            && p.from == k.scheme.at(k.scheme.index(p.from))
            && p.to == k.scheme.at(k.scheme.index(p.from) + 1) && ShortIn(k.scheme, k.scheme.index(p.from))
            && relname == RelationName(k, table, p.from)
  {
    var p := Parse(k, table, relname).value;
    var prefix := BaseName(table) + "_";
    assert relname == prefix + relname[|prefix|..];
    NameIsFull(k, table, p.from);
    assert k.scheme.add(k.scheme.at(k.scheme.index(p.from)), 1) == k.scheme.at(k.scheme.index(p.from) + 1);
  }

  /** Two partitions of one name are one partition. */
  lemma PartNamesAreInjective(k: Keeper, t: string, i: int, u: string, j: int)
    requires Lawful(k.scheme) && PartOf(k, t, k.scheme.at(i)).name == PartOf(k, u, k.scheme.at(j)).name
    ensures t == u && i == j
  {
    assert NameOf(k.scheme, t, i) == NameOf(k.scheme, u, j);
  }

  // ----- the plan -----

  /** The partitions of one period, for the first m tables. */
  function Row(k: Keeper, now: Time, i: int, m: nat): seq<Part>
    requires m <= |k.tables|
  {
    if m == 0 then [] else
      Row(k, now, i, m - 1) + [PartOf(k, k.tables[m - 1], k.scheme.add(k.scheme.start(now), i))]
  }

  /** The partitions of the first n periods from the current one on. */
  function Wanted(k: Keeper, now: Time, n: nat): seq<Part> {
    if n == 0 then [] else Wanted(k, now, n - 1) + Row(k, now, n - 1, |k.tables|)
  }

  function Missing(ps: seq<Part>, have: set<string>): seq<Part> {
    if ps == [] then [] else
      var last := ps[|ps| - 1];
      Missing(ps[..|ps| - 1], have) + if last.name in have then [] else [last]
  }

  /** The partitions of a table that ended no later than the cutoff. */
  function Expired(ps: seq<Part>, table: string, cutoff: Time): seq<Part> {
    if ps == [] then [] else
      var last := ps[|ps| - 1];
      Expired(ps[..|ps| - 1], table, cutoff) + if last.table == table && last.to <= cutoff then [last] else []
  }

  /** The expired partitions of the tables from index i on, the last table
      first. */
  function Drops(tables: seq<string>, i: nat, ps: seq<Part>, cutoff: Time): seq<Part>
    requires i <= |tables|
    decreases |tables| - i
  {
    if i == |tables| then [] else Drops(tables, i + 1, ps, cutoff) + Expired(ps, tables[i], cutoff)
  }

  function NamesIn(ps: seq<Part>): set<string> {
    set p | p in ps :: p.name
  }

  function ToCreate(k: Keeper, now: Time, existing: seq<Part>): seq<Part> {
    Missing(Wanted(k, now, k.ahead + 1), NamesIn(existing))
  }

  function ToDrop(k: Keeper, now: Time, existing: seq<Part>): seq<Part> {
    if k.retention == 0 then [] else Drops(k.tables, 0, existing, now - k.retention)
  }

  lemma MissingNext(ps: seq<Part>, p: Part, have: set<string>)
    ensures Missing(ps + [p], have) == Missing(ps, have) + if p.name in have then [] else [p]
  {
    assert (ps + [p])[..|ps + [p]| - 1] == ps;
  }

  lemma MissingInRow(k: Keeper, now: Time, i: nat, m: nat, before: seq<Part>, have: set<string>)
    requires m < |k.tables|
    ensures var p := PartOf(k, k.tables[m], k.scheme.add(k.scheme.start(now), i));
            Missing(before + Row(k, now, i, m + 1), have) ==
              Missing(before + Row(k, now, i, m), have) + if p.name in have then [] else [p]
  {
    var p := PartOf(k, k.tables[m], k.scheme.add(k.scheme.start(now), i));
    MissingNext(before + Row(k, now, i, m), p, have);
    assert before + Row(k, now, i, m) + [p] == before + Row(k, now, i, m + 1);
  }

  method Plan(k: Keeper, now: Time, existing: seq<Part>) returns (create: seq<Part>, drop: seq<Part>)
    ensures create == ToCreate(k, now, existing) && drop == ToDrop(k, now, existing)
  {
    var have := CollectNames(existing);
    create := SelectMissing(k, now, have);
    if k.retention == 0 {
      return create, [];
    }
    drop := SelectDrops(k.tables, existing, now - k.retention);
  }

  method SelectDrops(tables: seq<string>, existing: seq<Part>, cutoff: Time) returns (drop: seq<Part>)
    ensures drop == Drops(tables, 0, existing, cutoff)
  {
    drop := [];
    var n := |tables|;
    while n > 0
      invariant 0 <= n <= |tables|
      invariant drop == Drops(tables, n, existing, cutoff)
    {
      n := n - 1;
      var expired := SelectExpired(existing, tables[n], cutoff);
      drop := drop + expired;
    }
  }

  method CollectNames(existing: seq<Part>) returns (have: set<string>)
    ensures have == NamesIn(existing)
  {
    have := {};
    for i := 0 to |existing|
      invariant have == NamesIn(existing[..i])
    {
      have := have + {existing[i].name};
      assert existing[..i + 1] == existing[..i] + [existing[i]];
    }
    assert existing[..|existing|] == existing;
  }

  method SelectMissing(k: Keeper, now: Time, have: set<string>) returns (create: seq<Part>)
    ensures create == Missing(Wanted(k, now, k.ahead + 1), have)
  {
    create := [];
    var current := k.scheme.start(now);
    for i := 0 to k.ahead + 1
      invariant create == Missing(Wanted(k, now, i), have)
    {
      create := SelectMissingRow(k, now, k.scheme.add(current, i), i, have, create);
    }
  }

  /** The missing partitions of the period i, which starts at `from`. */
  method SelectMissingRow(k: Keeper, now: Time, from: Time, i: nat, have: set<string>, sofar: seq<Part>)
    returns (create: seq<Part>)
    requires from == k.scheme.add(k.scheme.start(now), i) && sofar == Missing(Wanted(k, now, i), have)
    ensures create == Missing(Wanted(k, now, i + 1), have)
  {
    create := sofar;
    ghost var before := Wanted(k, now, i);
    assert before + Row(k, now, i, 0) == before;
    for m := 0 to |k.tables|
      invariant create == Missing(before + Row(k, now, i, m), have)
    {
      var p := PartOf(k, k.tables[m], from);
      MissingInRow(k, now, i, m, before, have);
      if p.name !in have {
        create := create + [p];
      }
    }
  }

  method SelectExpired(ps: seq<Part>, table: string, cutoff: Time) returns (r: seq<Part>)
    ensures r == Expired(ps, table, cutoff)
  {
    r := [];
    for i := 0 to |ps|
      invariant r == Expired(ps[..i], table, cutoff)
    {
      assert ps[..i + 1][..i] == ps[..i];
      if ps[i].table == table && !(ps[i].to > cutoff) {
        r := r + [ps[i]];
      }
    }
    assert ps[..|ps|] == ps;
  }

  // ----- what a plan is -----

  function WantedAt(k: Keeper, now: Time, i: int, x: nat): Part
    requires x < |k.tables|
  {
    PartOf(k, k.tables[x], k.scheme.add(k.scheme.start(now), i))
  }

  /** p is the partition of a table for one of the first n periods. */
  predicate IsWanted(k: Keeper, now: Time, n: nat, p: Part) {
    exists i: nat, x: nat | i < n && x < |k.tables| :: p == WantedAt(k, now, i, x)
  }

  lemma {:induction false} InRow(k: Keeper, now: Time, i: int, m: nat, p: Part)
    requires m <= |k.tables|
    ensures p in Row(k, now, i, m) <==> exists x: nat | x < m :: p == WantedAt(k, now, i, x)
    decreases m
  {
    if m > 0 {
      InRow(k, now, i, m - 1, p);
      assert WantedAt(k, now, i, m - 1) == PartOf(k, k.tables[m - 1], k.scheme.add(k.scheme.start(now), i));
    }
  }

  lemma {:induction false} InWanted(k: Keeper, now: Time, n: nat, p: Part)
    ensures p in Wanted(k, now, n) <==> IsWanted(k, now, n, p)
    decreases n
  {
    if n > 0 {
      InWanted(k, now, n - 1, p);
      InRow(k, now, n - 1, |k.tables|, p);
    }
  }

  lemma {:induction false} InMissing(ps: seq<Part>, have: set<string>, p: Part)
    ensures p in Missing(ps, have) <==> p in ps && p.name !in have
  {
    if ps != [] {
      InMissing(ps[..|ps| - 1], have, p);
      assert ps == ps[..|ps| - 1] + [ps[|ps| - 1]];
    }
  }

  lemma {:induction false} InExpired(ps: seq<Part>, table: string, cutoff: Time, p: Part)
    ensures p in Expired(ps, table, cutoff) <==> p in ps && p.table == table && p.to <= cutoff
  {
    if ps != [] {
      InExpired(ps[..|ps| - 1], table, cutoff, p);
      assert ps == ps[..|ps| - 1] + [ps[|ps| - 1]];
    }
  }

  lemma {:induction false} InDrops(tables: seq<string>, i: nat, ps: seq<Part>, cutoff: Time, p: Part)
    requires i <= |tables|
    ensures p in Drops(tables, i, ps, cutoff) <==> p in ps && p.to <= cutoff && p.table in tables[i..]
    decreases |tables| - i
  {
    if i < |tables| {
      InDrops(tables, i + 1, ps, cutoff, p);
      InExpired(ps, tables[i], cutoff, p);
      assert tables[i..] == [tables[i]] + tables[i + 1..];
    }
  }

  lemma InAllDrops(tables: seq<string>, ps: seq<Part>, cutoff: Time, p: Part)
    ensures p in Drops(tables, 0, ps, cutoff) <==> p in ps && p.to <= cutoff && p.table in tables
  {
    InDrops(tables, 0, ps, cutoff, p);
    assert tables[0..] == tables;
  }

  /** A plan creates what the window lacks by name, and nothing else. */
  lemma CreatesExactly(k: Keeper, now: Time, existing: seq<Part>, p: Part)
    ensures p in ToCreate(k, now, existing) <==> IsWanted(k, now, k.ahead + 1, p) && p.name !in NamesIn(existing)
  {
    InWanted(k, now, k.ahead + 1, p);
    InMissing(Wanted(k, now, k.ahead + 1), NamesIn(existing), p);
  }

  /** It drops what ended Retention ago, and nothing else. */
  lemma DropsExactly(k: Keeper, now: Time, existing: seq<Part>, p: Part)
    ensures p in ToDrop(k, now, existing) <==>
            k.retention > 0 && p in existing && p.table in k.tables && p.to <= now - k.retention
  {
    var cutoff := now - k.retention;
    InAllDrops(k.tables, existing, cutoff, p);
    var drops := Drops(k.tables, 0, existing, cutoff);
    assert ToDrop(k, now, existing) == if k.retention == 0 then [] else drops;
  }

  lemma WantedSpan(k: Keeper, now: Time, i: int, x: nat)
    requires Tiles(k.scheme) && x < |k.tables|
    ensures WantedAt(k, now, i, x).from == k.scheme.at(k.scheme.index(now) + i)
    ensures WantedAt(k, now, i, x).to == k.scheme.at(k.scheme.index(now) + i + 1)
  {
    NthStart(k.scheme, now, i);
  }

  lemma WantedEndsLater(k: Keeper, now: Time, p: Part)
    requires Tiles(k.scheme) && IsWanted(k, now, k.ahead + 1, p)
    ensures p.to > now && p.from >= k.scheme.start(now)
  {
    var i: nat, x: nat :| i < k.ahead + 1 && x < |k.tables| && p == WantedAt(k, now, i, x);
    WantedAtEndsLater(k, now, i, x);
  }

  lemma WantedAtEndsLater(k: Keeper, now: Time, i: nat, x: nat)
    requires Tiles(k.scheme) && x < |k.tables|
    ensures WantedAt(k, now, i, x).to > now && WantedAt(k, now, i, x).from >= k.scheme.start(now)
  {
    WantedSpan(k, now, i, x);
    LaterPeriod(k.scheme, now, i);
  }

  lemma LaterPeriod(c: Scheme, now: Time, i: nat)
    requires Tiles(c)
    ensures c.at(c.index(now) + i + 1) > now && c.at(c.index(now) + i) >= c.start(now)
  {
    StartBeforeIff(c, c.index(now) + i + 1, now);
    if i > 0 { StartsGrow(c, c.index(now), c.index(now) + i); }
  }

  /** No plan creates and drops the same partition: what it drops has ended and
      what it creates has not, and the names differ. */
  lemma NothingCreatedAndDropped(k: Keeper, now: Time, existing: seq<Part>, p: Part, q: Part)
    requires Tiles(k.scheme) && p in ToCreate(k, now, existing) && q in ToDrop(k, now, existing)
    ensures q.to <= now < p.to && p.name != q.name
  {
    CreatesExactly(k, now, existing, p);
    DropsExactly(k, now, existing, q);
    WantedEndsLater(k, now, p);
  }

  // ----- the order of a plan -----

  predicate Precedes(tables: seq<string>, t: string, u: string) {
    exists x: nat, y: nat | x < y < |tables| :: tables[x] == t && tables[y] == u
  }

  /** p comes before q: its period is earlier, or its table is. */
  predicate Earlier(tables: seq<string>, p: Part, q: Part) {
    p.from < q.from || (p.from == q.from && Precedes(tables, p.table, q.table))
  }

  ghost predicate InOrder(tables: seq<string>, ps: seq<Part>) {
    forall a, b | 0 <= a < b < |ps| :: Earlier(tables, ps[a], ps[b])
  }

  lemma OrderAppend(tables: seq<string>, ps: seq<Part>, p: Part)
    requires InOrder(tables, ps) && forall q <- ps :: Earlier(tables, q, p)
    ensures InOrder(tables, ps + [p])
  {
  }

  ghost predicate ComesNext(k: Keeper, now: Time, i: nat, m: nat)
    requires m < |k.tables|
  {
    forall q <- Wanted(k, now, i) + Row(k, now, i, m) :: Earlier(k.tables, q, WantedAt(k, now, i, m))
  }

  lemma RowFollows(k: Keeper, now: Time, i: nat, m: nat)
    requires Tiles(k.scheme) && m < |k.tables|
    ensures ComesNext(k, now, i, m)
  {
    forall q <- Wanted(k, now, i) + Row(k, now, i, m) ensures Earlier(k.tables, q, WantedAt(k, now, i, m)) {
      if q in Row(k, now, i, m) { EarlierInRow(k, now, i, m, q); } else { EarlierRow(k, now, i, m, q); }
    }
  }

  lemma EarlierInRow(k: Keeper, now: Time, i: nat, m: nat, q: Part)
    requires m < |k.tables| && q in Row(k, now, i, m)
    ensures Earlier(k.tables, q, WantedAt(k, now, i, m))
  {
    InRow(k, now, i, m, q);
    var x: nat :| x < m && q == WantedAt(k, now, i, x);
    assert Precedes(k.tables, k.tables[x], k.tables[m]);
  }

  lemma EarlierRow(k: Keeper, now: Time, i: nat, m: nat, q: Part)
    requires Tiles(k.scheme) && m < |k.tables| && q in Wanted(k, now, i)
    ensures Earlier(k.tables, q, WantedAt(k, now, i, m))
  {
    InWanted(k, now, i, q);
    var j: nat, x: nat :| j < i && x < |k.tables| && q == WantedAt(k, now, j, x);
    WantedSpan(k, now, j, x);
    WantedSpan(k, now, i, m);
    StartsGrow(k.scheme, k.scheme.index(now) + j, k.scheme.index(now) + i);
  }

  lemma RowNext(k: Keeper, now: Time, i: nat, m: nat)
    requires m < |k.tables| && ComesNext(k, now, i, m) && InOrder(k.tables, Wanted(k, now, i) + Row(k, now, i, m))
    ensures InOrder(k.tables, Wanted(k, now, i) + Row(k, now, i, m + 1))
  {
    var ps, p := Wanted(k, now, i) + Row(k, now, i, m), WantedAt(k, now, i, m);
    OrderAppend(k.tables, ps, p);
    assert Wanted(k, now, i) + Row(k, now, i, m + 1) == ps + [p];
  }

  /** Each partition of the row comes after all before it. */
  ghost predicate RowFits(k: Keeper, now: Time, i: nat) {
    forall x: nat | x < |k.tables| :: ComesNext(k, now, i, x)
  }

  lemma RowAlwaysFits(k: Keeper, now: Time, i: nat)
    requires Tiles(k.scheme)
    ensures RowFits(k, now, i)
  {
    forall x: nat | x < |k.tables| ensures ComesNext(k, now, i, x) { RowFollows(k, now, i, x); }
  }

  lemma {:induction false} RowInOrder(k: Keeper, now: Time, i: nat, m: nat)
    requires m <= |k.tables| && InOrder(k.tables, Wanted(k, now, i)) && RowFits(k, now, i)
    ensures InOrder(k.tables, Wanted(k, now, i) + Row(k, now, i, m))
    decreases m
  {
    if m == 0 {
      assert Wanted(k, now, i) + Row(k, now, i, m) == Wanted(k, now, i);
    } else {
      RowInOrder(k, now, i, m - 1);
      RowNext(k, now, i, m - 1);
    }
  }

  lemma {:induction false} WantedInOrder(k: Keeper, now: Time, n: nat)
    requires forall i: nat | i < n :: RowFits(k, now, i)
    ensures InOrder(k.tables, Wanted(k, now, n))
    decreases n
  {
    if n > 0 {
      WantedInOrder(k, now, n - 1);
      RowInOrder(k, now, n - 1, |k.tables|);
    }
  }

  lemma {:induction false} MissingInOrder(tables: seq<string>, ps: seq<Part>, have: set<string>)
    requires InOrder(tables, ps)
    ensures InOrder(tables, Missing(ps, have))
  {
    if ps != [] {
      var front, last := ps[..|ps| - 1], ps[|ps| - 1];
      MissingInOrder(tables, front, have);
      forall q <- Missing(front, have) ensures Earlier(tables, q, last) {
        InMissing(front, have, q);
        var a :| 0 <= a < |front| && front[a] == q;
        assert Earlier(tables, ps[a], ps[|ps| - 1]);
      }
      OrderAppend(tables, Missing(front, have), last);
    }
  }

  /** A dropped table comes before the tables listed ahead of it. */
  ghost predicate InReverse(tables: seq<string>, ps: seq<Part>) {
    forall a, b | 0 <= a < b < |ps| :: ps[a].table == ps[b].table || Precedes(tables, ps[b].table, ps[a].table)
  }

  /** Of one table the older partition comes first. */
  ghost predicate OldestFirst(ps: seq<Part>) {
    forall a, b | 0 <= a < b < |ps| && ps[a].table == ps[b].table :: ps[a].to <= ps[b].from
  }

  /** Table by table in the order of the tables, and of one table the oldest
      first. */
  ghost predicate Listed(tables: seq<string>, ps: seq<Part>) {
    forall a, b | 0 <= a < b < |ps| ::
      (ps[a].table == ps[b].table && ps[a].to <= ps[b].from) || Precedes(tables, ps[a].table, ps[b].table)
  }

  lemma ListedAppend(tables: seq<string>, ps: seq<Part>, qs: seq<Part>, t: string)
    requires Listed(tables, ps) && OldestFirst(qs) && (forall q <- qs :: q.table == t)
    requires forall p <- ps :: Precedes(tables, p.table, t)
    ensures Listed(tables, ps + qs)
  {
    var all := ps + qs;
    forall a, b | 0 <= a < b < |all|
      ensures (all[a].table == all[b].table && all[a].to <= all[b].from) || Precedes(tables, all[a].table, all[b].table)
    {
      if b >= |ps| {
        assert all[b] in qs;
        if a >= |ps| { assert all[a] in qs; } else { assert all[a] in ps; }
      }
    }
  }

  lemma ListedIsOldestFirst(tables: seq<string>, ps: seq<Part>)
    requires Listed(tables, ps) && NoneTwice(tables)
    ensures OldestFirst(ps)
  {
    forall a, b | 0 <= a < b < |ps| ensures ps[a].table == ps[b].table ==> ps[a].to <= ps[b].from {
      if Precedes(tables, ps[a].table, ps[b].table) {
        var x: nat, y: nat :| x < y < |tables| && tables[x] == ps[a].table && tables[y] == ps[b].table;
      }
    }
  }

  lemma {:induction false} ExpiredOldestFirst(ps: seq<Part>, table: string, cutoff: Time)
    requires OldestFirst(ps)
    ensures OldestFirst(Expired(ps, table, cutoff))
  {
    if ps != [] {
      var front, last := ps[..|ps| - 1], ps[|ps| - 1];
      ExpiredOldestFirst(front, table, cutoff);
      forall q <- Expired(front, table, cutoff) ensures q.table == last.table ==> q.to <= last.from {
        InExpired(front, table, cutoff, q);
        var a :| 0 <= a < |front| && front[a] == q;
        assert ps[a] == q && ps[|ps| - 1] == last;
      }
    }
  }

  lemma OldestFirstAppend(ps: seq<Part>, qs: seq<Part>)
    requires OldestFirst(ps) && OldestFirst(qs) && forall p <- ps, q <- qs :: p.table != q.table
    ensures OldestFirst(ps + qs)
  {
    var all := ps + qs;
    forall a, b | 0 <= a < b < |all| ensures all[a].table == all[b].table ==> all[a].to <= all[b].from {
      if a < |ps| <= b { assert all[a] in ps && all[b] in qs; }
    }
  }

  lemma {:induction false} DropsOldestFirst(tables: seq<string>, i: nat, ps: seq<Part>, cutoff: Time)
    requires i <= |tables| && NoneTwice(tables) && OldestFirst(ps)
    ensures OldestFirst(Drops(tables, i, ps, cutoff))
    decreases |tables| - i
  {
    if i < |tables| {
      DropsOldestFirst(tables, i + 1, ps, cutoff);
      ExpiredOldestFirst(ps, tables[i], cutoff);
      var later, these := Drops(tables, i + 1, ps, cutoff), Expired(ps, tables[i], cutoff);
      forall p <- later, q <- these ensures p.table != q.table {
        LaterTable(tables, i, ps, cutoff, p);
        InExpired(ps, tables[i], cutoff, q);
        InDrops(tables, i + 1, ps, cutoff, p);
        var y :| 0 <= y < |tables[i + 1..]| && tables[i + 1..][y] == p.table;
        assert tables[i] != tables[i + 1 + y];
      }
      OldestFirstAppend(later, these);
    }
  }

  lemma ReverseAppend(tables: seq<string>, ps: seq<Part>, qs: seq<Part>, t: string)
    requires InReverse(tables, ps) && (forall q <- qs :: q.table == t)
    requires forall p <- ps :: Precedes(tables, t, p.table)
    ensures InReverse(tables, ps + qs)
  {
    var all := ps + qs;
    forall a, b | 0 <= a < b < |all|
      ensures all[a].table == all[b].table || Precedes(tables, all[b].table, all[a].table) {
      if b >= |ps| {
        assert all[b] in qs;
        if a >= |ps| { assert all[a] in qs; } else { assert all[a] in ps; }
      }
    }
  }

  lemma {:induction false} DropsInReverse(tables: seq<string>, i: nat, ps: seq<Part>, cutoff: Time)
    requires i <= |tables|
    ensures InReverse(tables, Drops(tables, i, ps, cutoff))
    decreases |tables| - i
  {
    if i < |tables| {
      DropsInReverse(tables, i + 1, ps, cutoff);
      var t := tables[i];
      var later, these := Drops(tables, i + 1, ps, cutoff), Expired(ps, t, cutoff);
      forall q <- these ensures q.table == t { InExpired(ps, t, cutoff, q); }
      forall p <- later ensures Precedes(tables, t, p.table) { LaterTable(tables, i, ps, cutoff, p); }
      ReverseAppend(tables, later, these, t);
    }
  }

  lemma LaterTable(tables: seq<string>, i: nat, ps: seq<Part>, cutoff: Time, p: Part)
    requires i < |tables| && p in Drops(tables, i + 1, ps, cutoff)
    ensures Precedes(tables, tables[i], p.table)
  {
    InDrops(tables, i + 1, ps, cutoff, p);
    var y :| 0 <= y < |tables[i + 1..]| && tables[i + 1..][y] == p.table;
    assert tables[i + 1 + y] == p.table;
  }

  /** Partitions are created period by period in the order of the tables. */
  lemma CreatedInOrder(k: Keeper, now: Time, existing: seq<Part>)
    requires Tiles(k.scheme)
    ensures InOrder(k.tables, ToCreate(k, now, existing))
  {
    forall i: nat | i < k.ahead + 1 ensures RowFits(k, now, i) { RowAlwaysFits(k, now, i); }
    WantedInOrder(k, now, k.ahead + 1);
    MissingInOrder(k.tables, Wanted(k, now, k.ahead + 1), NamesIn(existing));
  }

  /** They are dropped in the reverse order of the tables, and of one table the
      oldest first when they are listed in order. */
  lemma DroppedInReverse(k: Keeper, now: Time, existing: seq<Part>)
    ensures InReverse(k.tables, ToDrop(k, now, existing))
    ensures NoneTwice(k.tables) && Listed(k.tables, existing) ==> OldestFirst(ToDrop(k, now, existing))
  {
    DropsInReverse(k.tables, 0, existing, now - k.retention);
    if NoneTwice(k.tables) && Listed(k.tables, existing) {
      ListedIsOldestFirst(k.tables, existing);
      DropsOldestFirst(k.tables, 0, existing, now - k.retention);
    }
  }
}
