/** partition/partition.go: the periods of partitions, a day or a month in UTC. */
module Periods {
  import opened Common
  import opened Calendar

  /** As in the code, what is not Day counts as a month. */
  datatype Period = Day | Month | Unknown(n: int)

  /** The day of a time, the time of the day, and the midnight a day starts at, in
      nanoseconds. */
  function DayAt(t: Time): int { t / 86_400_000_000_000 }

  function Clock(t: Time): int { t % 86_400_000_000_000 }

  function Midnight(day: int): Time { day * 86_400_000_000_000 }

  /** The start of the period that holds t. */
  function Start(p: Period, t: Time): Time {
    var d := DateOf(DayAt(t));
    Midnight(if p.Day? then DayOf(d.year, d.month, d.day) else DayOf(d.year, d.month, 1))
  }

  /** The start of the period n periods after the one that starts at `start`. */
  function Add(p: Period, start: Time, n: int): Time {
    var d := DateOf(DayAt(start));
    Midnight(if p.Day? then DayOf(d.year, d.month, d.day + n) else DayOf(d.year, d.month + n, d.day)) + Clock(start)
  }

  // ----- the periods as a numbered tiling of time -----

  /** The day period i starts on. */
  function FirstDay(p: Period, i: int): int {
    if p.Day? then i else MonthStart(i)
  }

  function Boundary(p: Period, i: int): Time {
    Midnight(FirstDay(p, i))
  }

  function Index(p: Period, t: Time): int {
    if p.Day? then DayAt(t) else MonthOf(DayAt(t))
  }

  lemma StartIsBoundary(p: Period, t: Time)
    ensures Start(p, t) == Boundary(p, Index(p, t))
  {
    DateOfDay(DayAt(t));
    FirstOfMonth(MonthOf(DayAt(t)));
  }

  lemma FirstOfMonth(i: int)
    ensures DayOf(i / 12, i % 12 + 1, 1) == MonthStart(i)
  {
    assert 12 * (i / 12) + i % 12 == i;
  }

  lemma StartsOnFirst(i: int)
    ensures DateOf(MonthStart(i)) == Date(i / 12, i % 12 + 1, 1)
  {
    MonthFollows(i);
    MonthIsUnique(MonthStart(i), i);
  }

  lemma WholeDays(d: int)
    ensures DayAt(Midnight(d)) == d && Clock(Midnight(d)) == 0
  {
  }

  lemma DayAdds(d: int, n: int)
    ensures var date := DateOf(d); DayOf(date.year, date.month, date.day + n) == d + n
  {
    DateOfDay(d);
  }

  lemma MonthAdds(i: int, n: int)
    ensures DayOf(i / 12, i % 12 + 1 + n, 1) == MonthStart(i + n)
  {
    assert 12 * (i / 12) + (i % 12 + 1 + n) - 1 == i + n;
  }

  lemma AddIsBoundary(p: Period, i: int, n: int)
    ensures Add(p, Boundary(p, i), n) == Boundary(p, i + n)
  {
    if p.Day? {
      WholeDays(i);
      DayAdds(i, n);
    } else {
      WholeDays(MonthStart(i));
      StartsOnFirst(i);
      MonthAdds(i, n);
    }
  }

  lemma DaysInOrder(a: int, b: int)
    requires a < b
    ensures Midnight(a) < Midnight(b)
  {
  }

  lemma BoundariesGrow(p: Period, i: int, j: int)
    requires i < j
    ensures Boundary(p, i) < Boundary(p, j)
  {
    if !p.Day? {
      MonthsGrow(i, j);
    }
    DaysInOrder(FirstDay(p, i), FirstDay(p, j));
  }

  lemma BetweenDays(a: int, day: int, b: int, t: Time)
    requires a <= day < b && day == DayAt(t)
    ensures Midnight(a) <= t < Midnight(b)
  {
  }

  lemma IndexHolds(p: Period, t: Time)
    ensures Boundary(p, Index(p, t)) <= t < Boundary(p, Index(p, t) + 1)
  {
    var i := Index(p, t);
    BetweenDays(FirstDay(p, i), DayAt(t), FirstDay(p, i + 1), t);
  }
}
