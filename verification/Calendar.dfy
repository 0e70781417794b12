/** The proleptic Gregorian calendar in UTC, as time.Date and AddDate count it. A
    day is a number of days since 1 January 1970, a month the number
    12 * year + month - 1. */
module Calendar {
  predicate Leap(y: int) {
    y % 4 == 0 && (y % 100 != 0 || y % 400 == 0)
  }

  /** The length of a month, counted from 0. */
  function DaysIn(leap: bool, m: int): int
    requires 0 <= m < 12
  {
    if m == 1 then if leap then 29 else 28
    else if m == 3 || m == 5 || m == 8 || m == 10 then 30 else 31
  }

  function MonthLength(i: int): (n: int)
    ensures 28 <= n <= 31
  {
    DaysIn(Leap(i / 12), i % 12)
  }

  const EPOCH_MONTH := 23640  // January 1970

  /** The first day of a month: month after month from the epoch on. */
  function MonthStart(i: int): int
    decreases if i < EPOCH_MONTH then EPOCH_MONTH - i else i - EPOCH_MONTH
  {
    if i == EPOCH_MONTH then 0
    else if i > EPOCH_MONTH then MonthStart(i - 1) + MonthLength(i - 1)
    else MonthStart(i + 1) - MonthLength(i)
  }

  lemma MonthFollows(i: int)
    ensures MonthStart(i + 1) == MonthStart(i) + MonthLength(i)
  {
  }

  lemma {:induction false} MonthsGrow(i: int, j: int)
    requires i <= j
    ensures MonthStart(i) + 28 * (j - i) <= MonthStart(j)
    decreases j - i
  {
    if i < j {
      MonthFollows(j - 1);
      MonthsGrow(i, j - 1);
    }
  }

  ghost predicate InMonth(day: int, i: int) {
    MonthStart(i) <= day < MonthStart(i + 1)
  }

  /** The month of a day, found from month i on. */
  function MonthFrom(day: int, i: int): (j: int)
    ensures InMonth(day, j)
    decreases if day < MonthStart(i) then MonthStart(i) - day
              else if day >= MonthStart(i + 1) then day - MonthStart(i) else 0
  {
    MonthFollows(i - 1);
    MonthFollows(i);
    MonthFollows(i + 1);
    if day < MonthStart(i) then MonthFrom(day, i - 1)
    else if day >= MonthStart(i + 1) then MonthFrom(day, i + 1)
    else i
  }

  function MonthOf(day: int): (i: int)
    ensures InMonth(day, i)
  {
    MonthFrom(day, 1970 * 12)
  }

  lemma LaterMonth(day: int, i: int, j: int)
    requires day < MonthStart(i + 1) && i < j
    ensures day < MonthStart(j)
  {
    MonthsGrow(i + 1, j);
  }

  lemma MonthIsUnique(day: int, i: int)
    requires InMonth(day, i)
    ensures MonthOf(day) == i
  {
    SameMonth(day, i, MonthOf(day));
  }

  lemma SameMonth(day: int, i: int, j: int)
    requires InMonth(day, i) && InMonth(day, j)
    ensures i == j
  {
    if i < j {
      LaterMonth(day, i, j);
    } else if j < i {
      LaterMonth(day, j, i);
    }
  }

  /** A date as Time.Year, Time.Month and Time.Day give it. */
  datatype Date = Date(year: int, month: int, day: int)

  function DateOf(day: int): (d: Date)
    ensures 1 <= d.month <= 12 && 1 <= d.day <= DaysIn(Leap(d.year), d.month - 1)
  {
    var i := MonthOf(day);
    MonthFollows(i);
    Date(i / 12, i % 12 + 1, day - MonthStart(i) + 1)
  }

  /** time.Date at midnight: a month outside 1..12 and a day outside the month
      carry over. */
  function DayOf(year: int, month: int, day: int): int {
    MonthStart(12 * year + month - 1) + day - 1
  }

  predicate IsDate(d: Date) {
    1 <= d.month <= 12 && 1 <= d.day <= DaysIn(Leap(d.year), d.month - 1)
  }

  /** Days and dates are in one-to-one correspondence. */
  lemma DateOfDay(day: int)
    ensures var d := DateOf(day); DayOf(d.year, d.month, d.day) == day
  {
  }

  lemma DayOfDate(d: Date)
    requires IsDate(d)
    ensures DateOf(DayOf(d.year, d.month, d.day)) == d
  {
    var i := 12 * d.year + d.month - 1;
    MonthFollows(i);
    MonthIsUnique(DayOf(d.year, d.month, d.day), i);
  }

  lemma MonthsInOrder(a: int, b: int)
    requires a <= b
    ensures MonthOf(a) <= MonthOf(b)
  {
    var i, j := MonthOf(a), MonthOf(b);
    if j < i {
      LaterMonth(b, j, i);
    }
  }

  lemma YearsInOrder(a: int, b: int)
    requires a <= b
    ensures DateOf(a).year <= DateOf(b).year
  {
    MonthsInOrder(a, b);
    DivisionInOrder(MonthOf(a), MonthOf(b));
  }

  lemma DivisionInOrder(i: int, j: int)
    requires i <= j
    ensures i / 12 <= j / 12
  {
  }

  // ----- the years -----

  /** The days from 1 January of year 0 to 1 January of year y. */
  function DaysBeforeYear(y: int): int {
    365 * y + (y + 3) / 4 - (y + 99) / 100 + (y + 399) / 400
  }

  lemma EveryFourth(y: int)
    ensures (y + 4) / 4 == (y + 3) / 4 + if y % 4 == 0 then 1 else 0
  {
  }

  lemma EveryHundredth(y: int)
    ensures (y + 100) / 100 == (y + 99) / 100 + if y % 100 == 0 then 1 else 0
  {
    var q, r := y / 100, y % 100;
    assert y == 100 * q + r;
    if r > 0 { assert y + 99 == 100 * (q + 1) + (r - 1); }
  }

  lemma EveryFourHundredth(y: int)
    ensures (y + 400) / 400 == (y + 399) / 400 + if y % 400 == 0 then 1 else 0
  {
    var q, r := y / 400, y % 400;
    assert y == 400 * q + r;
    if r > 0 { assert y + 399 == 400 * (q + 1) + (r - 1); }
  }

  lemma CenturiesAreFourths(y: int)
    ensures y % 100 == 0 ==> y % 4 == 0
  {
    if y % 100 == 0 { assert y == 4 * (25 * (y / 100)); }
  }

  lemma FourthCenturiesAreCenturies(y: int)
    ensures y % 400 == 0 ==> y % 100 == 0
  {
    if y % 400 == 0 { assert y == 100 * (4 * (y / 400)); }
  }

  lemma YearLength(y: int)
    ensures DaysBeforeYear(y + 1) == DaysBeforeYear(y) + if Leap(y) then 366 else 365
  {
    EveryFourth(y);
    EveryHundredth(y);
    EveryFourHundredth(y);
    CenturiesAreFourths(y);
    FourthCenturiesAreCenturies(y);
  }

  /** The days of a year before its month m, counted from 0. */
  function DaysBeforeMonth(leap: bool, m: int): int
    requires 0 <= m <= 12
  {
    [0, 31, 59, 90, 120, 151, 181, 212, 243, 273, 304, 334, 365][m] + if leap && m >= 2 then 1 else 0
  }

  /** The first day of a month by the days before its year and before the month in
      the year, as time.Date counts. */
  function MonthStartByYear(i: int): int {
    DaysBeforeYear(i / 12) + DaysBeforeMonth(Leap(i / 12), i % 12) - 719528
  }

  lemma NextByYear(i: int)
    ensures MonthStartByYear(i + 1) == MonthStartByYear(i) + MonthLength(i)
  {
    var y, m := i / 12, i % 12;
    if m == 11 {
      assert (i + 1) / 12 == y + 1 && (i + 1) % 12 == 0;
      YearLength(y);
    } else {
      assert (i + 1) / 12 == y && (i + 1) % 12 == m + 1;
    }
  }

  /** Both counts step from month to month in the same way. */
  lemma SameStep(i: int)
    ensures MonthStart(i + 1) - MonthStartByYear(i + 1) == MonthStart(i) - MonthStartByYear(i)
  {
    NextByYear(i);
    MonthFollows(i);
  }

  lemma SameEpoch()
    ensures MonthStart(EPOCH_MONTH) == MonthStartByYear(EPOCH_MONTH)
  {
  }

  lemma {:induction false} SameAfterEpoch(n: nat)
    ensures MonthStart(EPOCH_MONTH + n) == MonthStartByYear(EPOCH_MONTH + n)
  {
    if n == 0 {
      SameEpoch();
    } else {
      SameAfterEpoch(n - 1);
      SameStep(EPOCH_MONTH + n - 1);
    }
  }

  lemma {:induction false} SameBeforeEpoch(n: nat)
    ensures MonthStart(EPOCH_MONTH - n) == MonthStartByYear(EPOCH_MONTH - n)
  {
    if n == 0 {
      SameEpoch();
    } else {
      SameBeforeEpoch(n - 1);
      SameStep(EPOCH_MONTH - n);
    }
  }

  /** The two counts agree: the leap rule, the table of the days before a month and
      the lengths of the months fit together. */
  lemma MonthStartIsByYear(i: int)
    ensures MonthStart(i) == MonthStartByYear(i)
  {
    if i >= EPOCH_MONTH { SameAfterEpoch(i - EPOCH_MONTH); } else { SameBeforeEpoch(EPOCH_MONTH - i); }
  }
}
