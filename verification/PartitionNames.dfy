/** partition/partition.go: the time in the name of a partition, written and read
    by the layouts 2006_01 and 2006_01_02. */
module PartitionNames {
  import opened Common
  import opened Calendar
  import opened Ranking

  // ----- decimal numbers padded with zeros -----

  predicate IsDigit(c: char) { '0' <= c <= '9' }

  predicate AllDigits(s: string) { forall i | 0 <= i < |s| :: IsDigit(s[i]) }

  function Digit(n: int): (c: char)
    requires 0 <= n < 10
    ensures IsDigit(c) && c as int - '0' as int == n
  {
    '0' + n as char
  }

  /** n in decimal, with at least w digits. */
  function Pad(n: nat, w: nat): (s: string)
    ensures |s| >= w && AllDigits(s)
    decreases n, w
  {
    if n == 0 && w == 0 then "" else Pad(n / 10, if w == 0 then 0 else w - 1) + [Digit(n % 10)]
  }

  function Value(s: string): nat
    requires AllDigits(s)
  {
    if s == "" then 0 else Value(s[..|s| - 1]) * 10 + (s[|s| - 1] as int - '0' as int)
  }

  lemma {:induction false} ValueOfPad(n: nat, w: nat)
    ensures Value(Pad(n, w)) == n
    decreases n, w
  {
    if n != 0 || w != 0 {
      var front := Pad(n / 10, if w == 0 then 0 else w - 1);
      ValueOfPad(n / 10, if w == 0 then 0 else w - 1);
      assert Pad(n, w)[..|Pad(n, w)| - 1] == front;
    }
  }

  lemma {:induction false} PadOfValue(s: string)
    requires AllDigits(s)
    ensures Pad(Value(s), |s|) == s
  {
    if s != "" {
      var front := s[..|s| - 1];
      PadOfValue(front);
      var v, d := Value(front), s[|s| - 1] as int - '0' as int;
      assert (v * 10 + d) / 10 == v && (v * 10 + d) % 10 == d;
      assert s == front + [s[|s| - 1]];
    }
  }

  function Pow10(w: nat): nat { if w == 0 then 1 else 10 * Pow10(w - 1) }

  lemma {:induction false} PadLength(n: nat, w: nat)
    ensures |Pad(n, w)| == w <==> n < Pow10(w)
    decreases n, w
  {
    if n != 0 || w != 0 {
      PadLength(n / 10, if w == 0 then 0 else w - 1);
      if w > 0 {
        var q := Pow10(w - 1);
        assert n / 10 < q <==> n < 10 * q;
      }
    }
  }

  lemma PadTwo(n: nat)
    requires n < 100
    ensures |Pad(n, 2)| == 2
  {
    assert Pow10(2) == 10 * (10 * Pow10(0));
    PadLength(n, 2);
  }

  lemma PadFour(n: nat)
    ensures |Pad(n, 4)| == 4 <==> n < 10000
  {
    assert Pow10(4) == 10 * (10 * Pow10(2)) && Pow10(2) == 10 * (10 * Pow10(0));
    PadLength(n, 4);
  }

  // ----- dates -----

  /** How Time.Format writes a year. */
  function YearText(y: int): string {
    if y < 0 then "-" + Pad(-y, 4) else Pad(y, 4)
  }

  function MonthText(d: Date): string
    requires IsDate(d)
  {
    "_" + Pad(d.month, 2)
  }

  function DayText(d: Date): string
    requires IsDate(d)
  {
    "_" + Pad(d.day, 2)
  }

  /** The date by the layout 2006_01_02, or 2006_01. */
  function Format(days: bool, d: Date): string
    requires IsDate(d)
  {
    YearText(d.year) + MonthText(d) + if days then DayText(d) else ""
  }

  function Length(days: bool): nat { if days then 10 else 7 }

  /** time.Parse by the same layout: four digits, two, and two; the month and the
      day must exist. Without a day it is the first. */
  function Parse(days: bool, s: string): Option<Date> {
    if |s| != Length(days) || !AllDigits(s[..4]) || s[4] != '_' || !AllDigits(s[5..7]) then None else
    if days && (s[7] != '_' || !AllDigits(s[8..10])) then None else
    var d := Date(Value(s[..4]), Value(s[5..7]), if days then Value(s[8..10]) else 1);
    if IsDate(d) then Some(d) else None
  }

  predicate FourDigits(y: int) { 0 <= y <= 9999 }

  lemma FormatPieces(days: bool, d: Date)
    requires IsDate(d) && FourDigits(d.year)
    ensures var s := Format(days, d);
            && |s| == Length(days)
            && s[..4] == Pad(d.year, 4) && s[4] == '_' && s[5..7] == Pad(d.month, 2)
            && (days ==> s[7] == '_' && s[8..10] == Pad(d.day, 2))
  {
    PadFour(d.year);
    PadTwo(d.month);
    PadTwo(d.day);
  }

  lemma LongYearDoesNotParse(days: bool, d: Date)
    requires IsDate(d) && !FourDigits(d.year)
    ensures Parse(days, Format(days, d)).None?
  {
    PadTwo(d.month);
    PadTwo(d.day);
    if d.year < 0 {
      assert Format(days, d)[0] == '-';
    } else {
      PadFour(d.year);
      assert |Format(days, d)| > Length(days);
    }
  }

  /** A written date is read back exactly when its year has four digits. */
  lemma ParseOfFormat(days: bool, d: Date)
    requires IsDate(d) && (!days ==> d.day == 1)
    ensures Parse(days, Format(days, d)) == if FourDigits(d.year) then Some(d) else None
  {
    if FourDigits(d.year) {
      FormatPieces(days, d);
      ValueOfPad(d.year, 4);
      ValueOfPad(d.month, 2);
      ValueOfPad(d.day, 2);
    } else {
      LongYearDoesNotParse(days, d);
    }
  }

  lemma YearOfDigits(t: string)
    requires AllDigits(t) && |t| == 4
    ensures FourDigits(Value(t)) && YearText(Value(t)) == t
  {
    PadOfValue(t);
    PadFour(Value(t));
  }

  lemma TwoDigits(t: string)
    requires AllDigits(t) && |t| == 2
    ensures Pad(Value(t), 2) == t
  {
    PadOfValue(t);
  }

  lemma Reassembled(days: bool, s: string)
    requires |s| == Length(days) && s[4] == '_' && (days ==> s[7] == '_')
    ensures s == s[..4] + ("_" + s[5..7]) + if days then "_" + s[8..10] else ""
  {
  }

  /** What is read is written back as it was. */
  lemma FormatOfParse(days: bool, s: string)
    requires Parse(days, s).Some?
    ensures var d := Parse(days, s).value;
            IsDate(d) && FourDigits(d.year) && (!days ==> d.day == 1) && Format(days, d) == s
  {
    YearOfDigits(s[..4]);
    TwoDigits(s[5..7]);
    if days { TwoDigits(s[8..10]); }
    Reassembled(days, s);
  }

  // ----- dates in order -----

  /** Numbers of one width sort as they count. */
  lemma {:induction false} PadsInOrder(m: nat, n: nat, w: nat)
    requires m < n < Pow10(w)
    ensures Less(Pad(m, w), Pad(n, w))
    decreases w
  {
    var a, b := Pad(m / 10, w - 1), Pad(n / 10, w - 1);
    PadLength(m / 10, w - 1);
    PadLength(n / 10, w - 1);
    assert m / 10 < Pow10(w - 1) && n / 10 < Pow10(w - 1);
    if m / 10 < n / 10 {
      PadsInOrder(m / 10, n / 10, w - 1);
      LessExtends(a, b, [Digit(m % 10)], [Digit(n % 10)]);
    } else {
      assert m / 10 == n / 10 && m % 10 < n % 10;
      LessAfterPrefix(a, [Digit(m % 10)], [Digit(n % 10)]);
    }
  }

  predicate Sooner(d: Date, e: Date) {
    d.year < e.year || (d.year == e.year && (d.month < e.month || (d.month == e.month && d.day < e.day)))
  }

  lemma YearsInNameOrder(y: int, z: int)
    requires FourDigits(y) && FourDigits(z) && y < z
    ensures |YearText(y)| == |YearText(z)| == 4 && Less(YearText(y), YearText(z))
  {
    assert Pow10(4) == 10 * (10 * Pow10(2)) && Pow10(2) == 10 * (10 * Pow10(0));
    PadFour(y);
    PadFour(z);
    PadsInOrder(y, z, 4);
  }

  lemma PartsInNameOrder(m: nat, n: nat)
    requires m < n < 100
    ensures |"_" + Pad(m, 2)| == |"_" + Pad(n, 2)| == 3 && Less("_" + Pad(m, 2), "_" + Pad(n, 2))
  {
    assert Pow10(2) == 10 * (10 * Pow10(0));
    PadTwo(m);
    PadTwo(n);
    PadsInOrder(m, n, 2);
    LessAfterPrefix("_", Pad(m, 2), Pad(n, 2));
  }

  lemma TailsInNameOrder(days: bool, d: Date, e: Date)
    requires IsDate(d) && IsDate(e) && d.year == e.year && Sooner(d, e) && (!days ==> d.day == e.day == 1)
    ensures Less(Tail(days, d), Tail(days, e))
  {
    if d.month < e.month {
      PartsInNameOrder(d.month, e.month);
      LessExtends(MonthText(d), MonthText(e), if days then DayText(d) else "", if days then DayText(e) else "");
    } else {
      PartsInNameOrder(d.day, e.day);
      LessAfterPrefix(MonthText(d), DayText(d), DayText(e));
    }
  }

  /** Names of four-digit years sort by their dates. */
  lemma DatesInNameOrder(days: bool, d: Date, e: Date)
    requires IsDate(d) && IsDate(e) && FourDigits(d.year) && FourDigits(e.year)
    requires Sooner(d, e) && (!days ==> d.day == e.day == 1)
    ensures Less(Format(days, d), Format(days, e))
  {
    assert Format(days, d) == YearText(d.year) + Tail(days, d) && Format(days, e) == YearText(e.year) + Tail(days, e);
    if d.year < e.year {
      YearsInNameOrder(d.year, e.year);
      LessExtends(YearText(d.year), YearText(e.year), Tail(days, d), Tail(days, e));
    } else {
      TailsInNameOrder(days, d, e);
      LessAfterPrefix(YearText(d.year), Tail(days, d), Tail(days, e));
    }
  }

  // ----- names -----

  lemma NoLaterUnderscore(a: string, x: string, b: string, y: string)
    requires a + "_" + x == b + "_" + y && '_' !in x
    ensures |b| <= |a|
  {
    var s := a + "_" + x;
    assert forall i | |a| < i < |s| :: s[i] == x[i - |a| - 1];
    assert (b + "_" + y)[|b|] == '_';
  }

  lemma LastUnderscore(a: string, x: string, b: string, y: string)
    requires a + "_" + x == b + "_" + y && '_' !in x && '_' !in y
    ensures a == b && x == y
  {
    var s := a + "_" + x;
    NoLaterUnderscore(a, x, b, y);
    NoLaterUnderscore(b, y, a, x);
    assert a == s[..|a|] && x == s[|a| + 1..] && b == s[..|b|] && y == s[|b| + 1..];
  }

  lemma YearTextIsInjective(y: int, z: int)
    requires YearText(y) == YearText(z)
    ensures y == z
  {
    assert YearText(y)[0] == '-' <==> y < 0;
    assert YearText(z)[0] == '-' <==> z < 0;
    if y < 0 {
      ValueOfPad(-y, 4);
      ValueOfPad(-z, 4);
      assert Pad(-y, 4) == YearText(y)[1..] && Pad(-z, 4) == YearText(z)[1..];
    } else {
      ValueOfPad(y, 4);
      ValueOfPad(z, 4);
    }
  }

  lemma YearTextHasNoUnderscore(y: int)
    ensures '_' !in YearText(y)
  {
  }

  function Tail(days: bool, d: Date): string
    requires IsDate(d)
  {
    MonthText(d) + if days then DayText(d) else ""
  }

  lemma SameNumber(m: nat, n: nat)
    requires Pad(m, 2) == Pad(n, 2)
    ensures m == n
  {
    ValueOfPad(m, 2);
    ValueOfPad(n, 2);
  }

  lemma TextLengths(d: Date)
    requires IsDate(d)
    ensures |MonthText(d)| == 3 && |DayText(d)| == 3
  {
    PadTwo(d.month);
    PadTwo(d.day);
  }

  lemma SameDayText(d: Date, e: Date)
    requires IsDate(d) && IsDate(e) && DayText(d) == DayText(e)
    ensures d.day == e.day
  {
    assert Pad(d.day, 2) == DayText(d)[1..] && Pad(e.day, 2) == DayText(e)[1..];
    SameNumber(d.day, e.day);
  }

  lemma SameMonthText(d: Date, e: Date)
    requires IsDate(d) && IsDate(e) && MonthText(d) == MonthText(e)
    ensures d.month == e.month
  {
    assert Pad(d.month, 2) == MonthText(d)[1..] && Pad(e.month, 2) == MonthText(e)[1..];
    SameNumber(d.month, e.month);
  }

  lemma TailIsInjective(days: bool, d: Date, e: Date)
    requires IsDate(d) && IsDate(e)
    ensures |Tail(days, d)| == |Tail(days, e)|
    ensures Tail(days, d) == Tail(days, e) ==> d.month == e.month && (days ==> d.day == e.day)
  {
    TextLengths(d);
    TextLengths(e);
    if Tail(days, d) == Tail(days, e) {
      SplitAtEnd(MonthText(d), Tail(days, d)[3..], MonthText(e), Tail(days, e)[3..]);
      SameMonthText(d, e);
      if days {
        assert Tail(days, d)[3..] == DayText(d) && Tail(days, e)[3..] == DayText(e);
        SameDayText(d, e);
      }
    }
  }

  lemma SplitAtEnd(a: string, x: string, b: string, y: string)
    requires a + x == b + y && |x| == |y|
    ensures a == b && x == y
  {
    assert a == (a + x)[..|a|] && x == (a + x)[|a|..];
    assert b == (b + y)[..|b|] && y == (b + y)[|b|..];
  }

  lemma NameSplits(days: bool, t: string, d: Date)
    requires IsDate(d)
    ensures t + "_" + Format(days, d) == (t + "_" + YearText(d.year)) + Tail(days, d)
  {
  }

  /** The names of two partitions are the same only for the same table and the
      same date, whatever the tables are called and whatever the years. */
  lemma NamesAreInjective(days: bool, t: string, d: Date, u: string, e: Date)
    requires IsDate(d) && IsDate(e) && (!days ==> d.day == e.day == 1)
    requires t + "_" + Format(days, d) == u + "_" + Format(days, e)
    ensures t == u && d == e
  {
    TailIsInjective(days, d, e);
    NameSplits(days, t, d);
    NameSplits(days, u, e);
    SplitAtEnd(t + "_" + YearText(d.year), Tail(days, d), u + "_" + YearText(e.year), Tail(days, e));
    YearTextHasNoUnderscore(d.year);
    YearTextHasNoUnderscore(e.year);
    LastUnderscore(t, YearText(d.year), u, YearText(e.year));
    YearTextIsInjective(d.year, e.year);
  }
}
