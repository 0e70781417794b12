/** partition/partition.go: what the planner needs of a period, and that days and
    months give it. */
module Schemes {
  import opened Common
  import C = Calendar
  import N = PartitionNames
  import opened Periods
  import Ranking

  // ----- what a period is for the planner -----

  /** The operations of a period: start, add, and its time in names, written and
      read. `at` numbers the starts of the periods, `index` is the number of the
      period of a time, and `year` the year a period starts in. */
  datatype Scheme = Scheme(
    start: Time -> Time,
    add: (Time, int) -> Time,
    format: Time -> string,
    parse: string -> Option<Time>,
    at: int -> Time,
    index: Time -> int,
    year: int -> int)

  function FormatTime(p: Period, t: Time): string {
    N.Format(p.Day?, C.DateOf(DayAt(t)))
  }

  function ParseTime(p: Period, s: string): Option<Time> {
    var d := N.Parse(p.Day?, s);
    if d.None? then None else Some(Midnight(C.DayOf(d.value.year, d.value.month, d.value.day)))
  }

  /** The year period i starts in. */
  function YearOf(p: Period, i: int): int {
    C.DateOf(FirstDay(p, i)).year
  }

  predicate Short(p: Period, i: int) {
    N.FourDigits(YearOf(p, i))
  }

  function SchemeOf(p: Period): Scheme {
    Scheme(t => Start(p, t), (t, n) => Add(p, t, n), t => FormatTime(p, t), s => ParseTime(p, s),
           i => Boundary(p, i), t => Index(p, t), i => YearOf(p, i))
  }

  ghost predicate Starts(c: Scheme) {
    forall t {:trigger c.start(t)} :: c.start(t) == c.at(c.index(t))
  }

  ghost predicate Adds(c: Scheme) {
    forall i, n {:trigger c.add(c.at(i), n)} :: c.add(c.at(i), n) == c.at(i + n)
  }

  ghost predicate Indexes(c: Scheme) {
    forall t {:trigger c.index(t)} :: c.at(c.index(t)) <= t < c.at(c.index(t) + 1)
  }

  ghost predicate Grows(c: Scheme) {
    forall i, j {:trigger c.at(i), c.at(j)} :: i < j ==> c.at(i) < c.at(j)
  }

  /** The starts go up without bound and every time is in the period of its
      index. */
  ghost predicate Tiles(c: Scheme) {
    Starts(c) && Adds(c) && Indexes(c) && Grows(c)
  }

  function NameOf(c: Scheme, table: string, i: int): string {
    table + "_" + c.format(c.at(i))
  }

  predicate ShortIn(c: Scheme, i: int) {
    N.FourDigits(c.year(i))
  }

  ghost predicate ReadBack(c: Scheme) {
    forall i {:trigger c.parse(c.format(c.at(i)))} ::
      c.parse(c.format(c.at(i))) == if ShortIn(c, i) then Some(c.at(i)) else None
  }

  ghost predicate WrittenBack(c: Scheme) {
    forall s {:trigger c.parse(s)} :: c.parse(s).Some? ==>
      var t := c.parse(s).value; t == c.at(c.index(t)) && ShortIn(c, c.index(t)) && c.format(t) == s
  }

  ghost predicate ToldApart(c: Scheme) {
    forall t, i, u, j :: NameOf(c, t, i) == NameOf(c, u, j) ==> t == u && i == j
  }

  ghost predicate YearsGrow(c: Scheme) {
    forall i, j {:trigger c.year(i), c.year(j)} :: i <= j ==> c.year(i) <= c.year(j)
  }

  ghost predicate NamesInOrder(c: Scheme) {
    forall i, j {:trigger c.at(i), c.at(j)} :: i < j && ShortIn(c, i) && ShortIn(c, j) ==>
      Ranking.Less(c.format(c.at(i)), c.format(c.at(j)))
  }

  /** Time is tiled. A written start is read back exactly when its year has four
      digits, what is read is written back as it was, and names tell tables and
      periods apart. Years go up. */
  ghost predicate Lawful(c: Scheme) {
    Tiles(c) && ReadBack(c) && WrittenBack(c) && ToldApart(c) && YearsGrow(c)
  }

  // ----- Day and Month are lawful -----

  lemma PeriodStarts(p: Period)
    ensures Starts(SchemeOf(p))
  {
    forall t ensures SchemeOf(p).start(t) == SchemeOf(p).at(SchemeOf(p).index(t)) {
      StartIsBoundary(p, t);
    }
  }

  ghost predicate AddsAt(c: Scheme, i: int, n: int) {
    c.add(c.at(i), n) == c.at(i + n)
  }

  lemma AddsEverywhere(c: Scheme)
    requires forall i, n :: AddsAt(c, i, n)
    ensures Adds(c)
  {
    forall i, n ensures c.add(c.at(i), n) == c.at(i + n) { assert AddsAt(c, i, n); }
  }

  lemma PeriodAddsAt(p: Period, i: int, n: int)
    ensures AddsAt(SchemeOf(p), i, n)
  {
    AddIsBoundary(p, i, n);
  }

  lemma PeriodAdds(p: Period)
    ensures Adds(SchemeOf(p))
  {
    forall i, n ensures AddsAt(SchemeOf(p), i, n) { PeriodAddsAt(p, i, n); }
    AddsEverywhere(SchemeOf(p));
  }

  lemma PeriodIndexes(p: Period)
    ensures Indexes(SchemeOf(p))
  {
    forall t ensures SchemeOf(p).at(SchemeOf(p).index(t)) <= t < SchemeOf(p).at(SchemeOf(p).index(t) + 1) {
      IndexHolds(p, t);
    }
  }

  lemma PeriodGrows(p: Period)
    ensures Grows(SchemeOf(p))
  {
    forall i, j | i < j ensures SchemeOf(p).at(i) < SchemeOf(p).at(j) {
      BoundariesGrow(p, i, j);
    }
  }

  lemma PeriodTiles(p: Period)
    ensures Tiles(SchemeOf(p))
  {
    PeriodStarts(p);
    PeriodAdds(p);
    PeriodIndexes(p);
    PeriodGrows(p);
  }

  lemma DateOfStart(p: Period, i: int)
    ensures C.DateOf(DayAt(Boundary(p, i))) == C.DateOf(FirstDay(p, i))
    ensures !p.Day? ==> C.DateOf(FirstDay(p, i)).day == 1
  {
    WholeDays(FirstDay(p, i));
    if !p.Day? { StartsOnFirst(i); }
  }

  /** A name that was written is read back exactly when its year has four
      digits. */
  lemma StartIsReadBack(p: Period, i: int)
    ensures ParseTime(p, FormatTime(p, Boundary(p, i))) == if Short(p, i) then Some(Boundary(p, i)) else None
  {
    var d := C.DateOf(FirstDay(p, i));
    DateOfStart(p, i);
    N.ParseOfFormat(p.Day?, d);
    C.DateOfDay(FirstDay(p, i));
  }

  /** The number of the period that a date read from a name starts. */
  function IndexOfDate(p: Period, d: C.Date): int {
    if p.Day? then C.DayOf(d.year, d.month, d.day) else 12 * d.year + d.month - 1
  }

  lemma DateIsStart(p: Period, d: C.Date)
    requires C.IsDate(d) && (!p.Day? ==> d.day == 1)
    ensures FirstDay(p, IndexOfDate(p, d)) == C.DayOf(d.year, d.month, d.day)
    ensures C.DateOf(FirstDay(p, IndexOfDate(p, d))) == d
  {
    C.DayOfDate(d);
  }

  lemma IndexOfBoundary(p: Period, i: int)
    ensures Index(p, Boundary(p, i)) == i
  {
    WholeDays(FirstDay(p, i));
    if !p.Day? {
      C.MonthFollows(i);
      C.MonthIsUnique(C.MonthStart(i), i);
    }
  }

  lemma ReadIsStart(p: Period, s: string)
    requires ParseTime(p, s).Some?
    ensures var t := ParseTime(p, s).value;
            t == Boundary(p, Index(p, t)) && Short(p, Index(p, t)) && FormatTime(p, t) == s
  {
    var d := N.Parse(p.Day?, s).value;
    N.FormatOfParse(p.Day?, s);
    DateIsStart(p, d);
    IndexOfBoundary(p, IndexOfDate(p, d));
    DateOfStart(p, IndexOfDate(p, d));
  }

  lemma NameTellsApart(p: Period, t: string, i: int, u: string, j: int)
    requires t + "_" + FormatTime(p, Boundary(p, i)) == u + "_" + FormatTime(p, Boundary(p, j))
    ensures t == u && i == j
  {
    var d, e := C.DateOf(FirstDay(p, i)), C.DateOf(FirstDay(p, j));
    DateOfStart(p, i);
    DateOfStart(p, j);
    N.NamesAreInjective(p.Day?, t, d, u, e);
    C.DateOfDay(FirstDay(p, i));
    C.DateOfDay(FirstDay(p, j));
    IndexOfBoundary(p, i);
    IndexOfBoundary(p, j);
  }

  lemma PeriodReadBack(p: Period)
    ensures ReadBack(SchemeOf(p))
  {
    var c := SchemeOf(p);
    forall i ensures c.parse(c.format(c.at(i))) == if ShortIn(c, i) then Some(c.at(i)) else None {
      StartIsReadBack(p, i);
    }
  }

  lemma PeriodWrittenBack(p: Period)
    ensures WrittenBack(SchemeOf(p))
  {
    var c := SchemeOf(p);
    forall s | c.parse(s).Some?
      ensures var t := c.parse(s).value; t == c.at(c.index(t)) && ShortIn(c, c.index(t)) && c.format(t) == s
    {
      ReadIsStart(p, s);
    }
  }

  lemma PeriodToldApart(p: Period)
    ensures ToldApart(SchemeOf(p))
  {
    var c := SchemeOf(p);
    forall t, i, u, j | NameOf(c, t, i) == NameOf(c, u, j) ensures t == u && i == j {
      NameTellsApart(p, t, i, u, j);
    }
  }

  lemma YearsOfPeriodsGrow(p: Period, i: int, j: int)
    requires i <= j
    ensures YearOf(p, i) <= YearOf(p, j)
  {
    if !p.Day? { C.MonthsGrow(i, j); }
    C.YearsInOrder(FirstDay(p, i), FirstDay(p, j));
  }

  lemma PeriodYearsGrow(p: Period)
    ensures YearsGrow(SchemeOf(p))
  {
    forall i, j | i <= j ensures SchemeOf(p).year(i) <= SchemeOf(p).year(j) {
      YearsOfPeriodsGrow(p, i, j);
    }
  }

  lemma SoonerStarts(p: Period, i: int, j: int)
    requires i < j
    ensures N.Sooner(C.DateOf(FirstDay(p, i)), C.DateOf(FirstDay(p, j)))
  {
    if p.Day? {
      C.MonthsInOrder(i, j);
    } else {
      StartsOnFirst(i);
      StartsOnFirst(j);
    }
  }

  /** The names of later periods sort later, while the years have four digits. */
  lemma LaterNamesSortLater(p: Period, i: int, j: int)
    requires i < j && Short(p, i) && Short(p, j)
    ensures Ranking.Less(FormatTime(p, Boundary(p, i)), FormatTime(p, Boundary(p, j)))
  {
    DateOfStart(p, i);
    DateOfStart(p, j);
    SoonerStarts(p, i, j);
    N.DatesInNameOrder(p.Day?, C.DateOf(FirstDay(p, i)), C.DateOf(FirstDay(p, j)));
  }

  lemma PeriodNamesInOrder(p: Period)
    ensures NamesInOrder(SchemeOf(p))
  {
    var c := SchemeOf(p);
    forall i, j | i < j && ShortIn(c, i) && ShortIn(c, j) ensures Ranking.Less(c.format(c.at(i)), c.format(c.at(j))) {
      LaterNamesSortLater(p, i, j);
    }
  }

  /** Days and months in UTC tile time without gap or overlap, over all month
      lengths and leap years, and their names are injective over tables and are
      read back for four-digit years. */
  lemma PeriodIsLawful(p: Period)
    ensures Lawful(SchemeOf(p))
  {
    PeriodTiles(p);
    PeriodReadBack(p);
    PeriodWrittenBack(p);
    PeriodToldApart(p);
    PeriodYearsGrow(p);
  }

  // ----- windows -----

  /** Period i after the one of now holds x. */
  predicate Holds(c: Scheme, now: Time, i: int, x: Time) {
    c.add(c.start(now), i) <= x < c.add(c.start(now), i + 1)
  }

  lemma HoldsIffIndex(c: Scheme, now: Time, i: int, x: Time)
    requires Tiles(c)
    ensures Holds(c, now, i, x) <==> c.index(x) == c.index(now) + i
  {
    StartBeforeIff(c, c.index(now) + i, x);
    StartBeforeIff(c, c.index(now) + i + 1, x);
  }

  lemma StartBeforeIff(c: Scheme, i: int, x: Time)
    requires Tiles(c)
    ensures c.at(i) <= x <==> i <= c.index(x)
  {
    var j := c.index(x);
    assert c.at(j) <= x < c.at(j + 1);
    if i < j { assert c.at(i) < c.at(j); }
    if j + 1 < i { assert c.at(j + 1) < c.at(i); }
  }

  lemma NthStart(c: Scheme, now: Time, i: int)
    requires Tiles(c)
    ensures c.add(c.start(now), i) == c.at(c.index(now) + i)
    ensures c.add(c.add(c.start(now), i), 1) == c.at(c.index(now) + i + 1)
  {
    assert c.add(c.at(c.index(now)), i) == c.at(c.index(now) + i);
    assert c.add(c.at(c.index(now) + i), 1) == c.at(c.index(now) + i + 1);
  }

  lemma StartsGrow(c: Scheme, i: int, j: int)
    requires Tiles(c) && i < j
    ensures c.at(i) < c.at(j)
  {
  }

  lemma PeriodsApart(c: Scheme, i: int, j: int)
    requires Tiles(c) && i != j
    ensures c.at(i + 1) <= c.at(j) || c.at(j + 1) <= c.at(i)
  {
    if i + 1 < j { StartsGrow(c, i + 1, j); }
    if j + 1 < i { StartsGrow(c, j + 1, i); }
  }

  lemma PeriodsAdjoin(c: Scheme, now: Time, i: int)
    requires Tiles(c)
    ensures c.add(c.add(c.start(now), i), 1) == c.add(c.start(now), i + 1)
  {
    var first := c.index(now);
    assert c.add(c.at(first), i) == c.at(first + i) && c.add(c.at(first), i + 1) == c.at(first + (i + 1));
    assert c.add(c.at(first + i), 1) == c.at(first + i + 1);
  }

  lemma WindowIffHeld(c: Scheme, now: Time, ahead: nat, x: Time)
    requires Tiles(c)
    ensures c.start(now) <= x < c.add(c.start(now), ahead + 1) <==> exists i :: 0 <= i <= ahead && Holds(c, now, i, x)
  {
    var first := c.index(now);
    StartBeforeIff(c, first, x);
    StartBeforeIff(c, first + (ahead + 1), x);
    HoldsIffIndex(c, now, c.index(x) - first, x);
    forall i | Holds(c, now, i, x) ensures i == c.index(x) - first {
      HoldsIffIndex(c, now, i, x);
    }
  }

  /** The current period holds now; each period ends where the next starts; and an
      instant is in the window of the current period and `ahead` more exactly when
      one of these periods holds it, and then only one does. */
  lemma WindowTiles(c: Scheme, now: Time, ahead: nat, x: Time)
    requires Tiles(c)
    ensures c.start(now) <= now < c.add(c.start(now), 1)
    ensures forall i :: c.add(c.add(c.start(now), i), 1) == c.add(c.start(now), i + 1)
    ensures c.start(now) <= x < c.add(c.start(now), ahead + 1) <==> exists i :: 0 <= i <= ahead && Holds(c, now, i, x)
    ensures forall i, j :: Holds(c, now, i, x) && Holds(c, now, j, x) ==> i == j
  {
    HoldsIffIndex(c, now, 0, now);
    assert c.add(c.at(c.index(now)), 0) == c.at(c.index(now) + 0);
    forall i ensures c.add(c.add(c.start(now), i), 1) == c.add(c.start(now), i + 1) {
      PeriodsAdjoin(c, now, i);
    }
    WindowIffHeld(c, now, ahead, x);
    forall i, j | Holds(c, now, i, x) && Holds(c, now, j, x) ensures i == j {
      HoldsIffIndex(c, now, i, x);
      HoldsIffIndex(c, now, j, x);
    }
  }

  /** The same of the days or months themselves. */
  lemma PeriodsTile(p: Period, now: Time, ahead: nat, x: Time)
    ensures Start(p, now) <= now < Add(p, Start(p, now), 1)
    ensures forall i :: Add(p, Add(p, Start(p, now), i), 1) == Add(p, Start(p, now), i + 1)
    ensures Start(p, now) <= x < Add(p, Start(p, now), ahead + 1) <==>
            exists i :: 0 <= i <= ahead && Holds(SchemeOf(p), now, i, x)
    ensures forall i, j :: Holds(SchemeOf(p), now, i, x) && Holds(SchemeOf(p), now, j, x) ==> i == j
  {
    var c := SchemeOf(p);
    PeriodTiles(p);
    WindowTiles(c, now, ahead, x);
    forall i ensures Add(p, Add(p, Start(p, now), i), 1) == Add(p, Start(p, now), i + 1) {
      assert c.add(c.add(c.start(now), i), 1) == c.add(c.start(now), i + 1);
    }
  }

  /** December 9999 is the last month whose partition is read back. */
  lemma LastShortMonth()
    ensures YearOf(Month, 12 * 9999 + 11) == 9999 && YearOf(Month, 12 * 9999 + 12) == 10000
  {
    StartsOnFirst(12 * 9999 + 11);
    StartsOnFirst(12 * 9999 + 12);
  }
}
