/**
 Civil dates from day numbers, and the time stamps built from them. The algorithm works
 in 400-year eras that start on 1 March; the calendar it is proved against is the
 ordinary one, counted year by year and month by month from 1970-01-01.
 */
module Calendar {
  // ---------------------------------------------------------------- the calendar

  predicate Leap(y: int) { y % 4 == 0 && (y % 100 != 0 || y % 400 == 0) }

  function YearLength(y: int): int { if Leap(y) then 366 else 365 }

  function MonthLength(y: int, m: int): int {
    if m == 2 then (if Leap(y) then 29 else 28)
    else if m == 4 || m == 6 || m == 9 || m == 11 then 30
    else 31
  }

  datatype Date = Date(year: int, month: int, day: int) {
    predicate Valid() { 1 <= month <= 12 && 1 <= day <= MonthLength(year, month) }

    /** The day after. */
    function Next(): Date {
      if day < MonthLength(year, month) then Date(year, month, day + 1)
      else if month < 12 then Date(year, month + 1, 1)
      else Date(year + 1, 1, 1)
    }
  }

  /** Days from 1970-01-01 to the first day of year `y`. */
  function DaysToYear(y: int): int
    decreases if y < 1970 then 1970 - y else y - 1970
  {
    if y == 1970 then 0
    else if y > 1970 then DaysToYear(y - 1) + YearLength(y - 1)
    else DaysToYear(y + 1) - YearLength(y)
  }

  function DaysToMonth(y: int, m: int): int
    requires 1 <= m
    decreases m
  {
    if m == 1 then 0 else DaysToMonth(y, m - 1) + MonthLength(y, m - 1)
  }

  /** The day number of a date: days since 1970-01-01. */
  function DayNumber(d: Date): int
    requires d.Valid()
  {
    DaysToYear(d.year) + DaysToMonth(d.year, d.month) + d.day - 1
  }

  // ---------------------------------------------------------------- the algorithm

  /** Rust's division, which truncates toward zero. */
  function Div(a: int, b: int): int
    requires b > 0
  {
    if a >= 0 then a / b else -((-a) / b)
  }

  datatype Place = Place(era: int, doe: int, yoe: int, doy: int, mp: int)

  /** The era of a day, the day of the era, the year of the era, the day and month of the year. */
  function Locate(day: int): Place {
    var z := day + 719_468;
    var era := Div(if z >= 0 then z else z - 146_096, 146_097);
    var doe := z - era * 146_097;
    var yoe := Div(doe - Div(doe, 1460) + Div(doe, 36_524) - Div(doe, 146_096), 365);
    var doy := doe - (365 * yoe + Div(yoe, 4) - Div(yoe, 100));
    Place(era, doe, yoe, doy, Div(5 * doy + 2, 153))
  }

  function CivilFromDays(day: int): Date {
    var p := Locate(day);
    var y := p.yoe + p.era * 400;
    var d := p.doy - Div(153 * p.mp + 2, 5) + 1;
    var m := if p.mp < 10 then p.mp + 3 else p.mp - 9;
    Date(if m <= 2 then y + 1 else y, m, d)
  }

  // ---------------------------------------------------------------- years

  /** Leap days in the years before `y`, relative to year 1. */
  function LeapDays(y: int): int { (y - 1) / 4 - (y - 1) / 100 + (y - 1) / 400 }

  lemma Multiple(y: int, b: int)
    requires b == 4 || b == 100 || b == 400
    ensures y / b - (y - 1) / b == if y % b == 0 then 1 else 0
  {
  }

  lemma Remainder(a: int, q: int, b: int)
    requires b == 4 || b == 100 || b == 400
    ensures (b * q + a) % b == a % b
  {
  }

  lemma CenturiesAreMultiplesOfFour(y: int)
    ensures y % 100 == 0 ==> y % 4 == 0
    ensures y % 400 == 0 ==> y % 100 == 0
  {
    if y % 100 == 0 {
      assert y == 4 * (25 * (y / 100)) + 0;
      Remainder(0, 25 * (y / 100), 4);
    }
    if y % 400 == 0 {
      assert y == 100 * (4 * (y / 400)) + 0;
      Remainder(0, 4 * (y / 400), 100);
    }
  }

  lemma LeapDaysStep(y: int)
    ensures LeapDays(y + 1) - LeapDays(y) == if Leap(y) then 1 else 0
  {
    CenturiesAreMultiplesOfFour(y);
    Multiple(y, 4);
    Multiple(y, 100);
    Multiple(y, 400);
  }

  lemma {:induction false} DaysToYearClosed(y: int)
    ensures DaysToYear(y) == 365 * (y - 1970) + LeapDays(y) - LeapDays(1970)
    decreases if y < 1970 then 1970 - y else y - 1970
  {
    if y > 1970 {
      DaysToYearClosed(y - 1);
      LeapDaysStep(y - 1);
    } else if y < 1970 {
      DaysToYearClosed(y + 1);
      LeapDaysStep(y);
    }
  }

  /** Day of era of 1 March of the `yoe`-th year of an era. */
  function EraDays(yoe: int): int { 365 * yoe + yoe / 4 - yoe / 100 }

  lemma FirstOfMarch(y: int)
    ensures DaysToYear(y) + DaysToMonth(y, 3) == 365 * (y - 1970) + LeapDays(y + 1) - LeapDays(1970) + 59
  {
    DaysToYearClosed(y);
    LeapDaysStep(y);
    assert DaysToMonth(y, 3) == 31 + MonthLength(y, 2);
  }

  /** 1 March of year `400 * era + yoe`, counted from 0000-03-01. */
  lemma MarchFirst(era: int, yoe: int)
    requires 0 <= yoe < 400
    ensures DaysToYear(400 * era + yoe) + DaysToMonth(400 * era + yoe, 3) + 719_468 == era * 146_097 + EraDays(yoe)
  {
    var y := 400 * era + yoe;
    FirstOfMarch(y);
    EraLeapDays(era, yoe);
    assert LeapDays(1970) == 477;
  }

  lemma EraLeapDays(era: int, yoe: int)
    requires 0 <= yoe < 400
    ensures LeapDays(400 * era + yoe + 1) == 97 * era + yoe / 4 - yoe / 100
  {
    var y := 400 * era + yoe;
    assert y / 4 == 100 * era + yoe / 4;
    assert y / 100 == 4 * era + yoe / 100;
    assert y / 400 == era;
  }

  /** A day of an era by century, four-year group and day of the group. */
  lemma SplitEra(doe: int) returns (c: int, q: int, s: int)
    requires 0 <= doe < 146_097
    ensures 0 <= c <= 3 && 0 <= q <= 24 && 0 <= s <= 1460
    ensures doe == 36_524 * c + 1461 * q + s
    ensures s == 1460 && q == 24 ==> c == 3
  {
    c := if doe == 146_096 then 3 else doe / 36_524;
    var r := doe - 36_524 * c;
    q := r / 1461;
    s := r - 1461 * q;
  }

  lemma Centuries(doe: int, c: int, rest: int)
    requires 0 <= doe < 146_097 && 0 <= c <= 3 && doe == 36_524 * c + rest
    requires 0 <= rest <= 36_524 && (rest == 36_524 ==> c == 3)
    ensures doe / 36_524 - doe / 146_096 == c
  {
  }

  lemma FourYears(doe: int, n: int, rest: int)
    requires 0 <= n && doe == 1460 * n + rest && 0 <= rest < 2920
    ensures doe / 1460 == n + if rest < 1460 then 0 else 1
  {
  }

  /** The year-of-era formula finds the March-based year a day of an era lies in. */
  lemma YearOfEra(doe: int) returns (yoe: int)
    requires 0 <= doe < 146_097
    ensures yoe == (doe - doe / 1460 + doe / 36_524 - doe / 146_096) / 365
    ensures 0 <= yoe < 400 && 0 <= doe - EraDays(yoe) <= 365
    ensures doe - EraDays(yoe) == 365 ==> Leap(yoe + 1)
  {
    var c, q, s := SplitEra(doe);
    var k := if s == 1460 then 3 else s / 365;
    yoe := 100 * c + 4 * q + k;
    Centuries(doe, c, 1461 * q + s);
    FourYears(doe, 25 * c + q, 24 * c + q + s);
    assert yoe / 4 == 25 * c + q && yoe / 100 == c;
  }

  // ---------------------------------------------------------------- months

  /** Days from 1 March to the first of the `mp`-th month after it. */
  function MarchDays(mp: int): int { (153 * mp + 2) / 5 }

  lemma MonthsFromMarch(y: int, m: int)
    requires 3 <= m <= 12
    ensures DaysToMonth(y, m) == DaysToMonth(y, 3) + MarchDays(m - 3)
  {
    if m > 3 {
      MonthsFromMarch(y, m - 1);
    }
  }

  lemma MonthsIntoNextYear(y: int, m: int)
    requires 1 <= m <= 2
    ensures DaysToYear(y + 1) + DaysToMonth(y + 1, m) == DaysToYear(y) + DaysToMonth(y, 3) + MarchDays(m + 9)
  {
    DaysToYearClosed(y);
    DaysToYearClosed(y + 1);
    LeapDaysStep(y);
    assert DaysToMonth(y, 3) == 31 + MonthLength(y, 2);
  }

  /** The month formula finds the month a day of a March-based year lies in. */
  lemma MonthOfYear(doy: int) returns (mp: int)
    requires 0 <= doy <= 365
    ensures mp == (5 * doy + 2) / 153
    ensures 0 <= mp <= 11 && MarchDays(mp) <= doy && (mp < 11 ==> doy < MarchDays(mp + 1))
  {
    mp := (5 * doy + 2) / 153;
  }

  lemma LeapInEra(era: int, yoe: int)
    ensures Leap(400 * era + yoe) == Leap(yoe)
  {
    Remainder(yoe, 100 * era, 4);
    Remainder(yoe, 4 * era, 100);
    Remainder(yoe, era, 400);
  }

  lemma FloorToEra(z: int)
    ensures Div(if z >= 0 then z else z - 146_096, 146_097) == z / 146_097
  {
  }

  // ---------------------------------------------------------------- the inverse

  lemma Positive(a: int, b: int)
    requires a >= 0 && b > 0
    ensures Div(a, b) == a / b
  {
  }

  /** The year of the era, as the algorithm divides. */
  lemma YearEvaluates(doe: int) returns (yoe: int)
    requires 0 <= doe < 146_097
    ensures yoe == Div(doe - Div(doe, 1460) + Div(doe, 36_524) - Div(doe, 146_096), 365)
    ensures 0 <= yoe < 400 && 0 <= doe - EraDays(yoe) <= 365
    ensures doe - EraDays(yoe) == 365 ==> Leap(yoe + 1)
    ensures EraDays(yoe) == 365 * yoe + Div(yoe, 4) - Div(yoe, 100)
  {
    yoe := YearOfEra(doe);
    Positive(doe, 1460);
    Positive(doe, 36_524);
    Positive(doe, 146_096);
    Positive(doe - doe / 1460 + doe / 36_524 - doe / 146_096, 365);
    Positive(yoe, 4);
    Positive(yoe, 100);
  }

  lemma MonthEvaluates(doy: int) returns (mp: int)
    requires 0 <= doy <= 365
    ensures mp == Div(5 * doy + 2, 153) && MarchDays(mp) == Div(153 * mp + 2, 5)
    ensures 0 <= mp <= 11 && MarchDays(mp) <= doy && (mp < 11 ==> doy < MarchDays(mp + 1))
  {
    mp := MonthOfYear(doy);
    Positive(5 * doy + 2, 153);
    Positive(153 * mp + 2, 5);
  }

  lemma Placed(day: int, p: Place)
    requires p.era == Div(if day + 719_468 >= 0 then day + 719_468 else day + 719_468 - 146_096, 146_097)
    requires p.doe == day + 719_468 - p.era * 146_097
    requires p.yoe == Div(p.doe - Div(p.doe, 1460) + Div(p.doe, 36_524) - Div(p.doe, 146_096), 365)
    requires p.doy == p.doe - (365 * p.yoe + Div(p.yoe, 4) - Div(p.yoe, 100))
    requires p.mp == Div(5 * p.doy + 2, 153)
    ensures Locate(day) == p
  {
  }

  /** Where a day lies: `doy` days into the `yoe`-th March-based year of an era, in its month `mp`. */
  lemma Located(day: int) returns (p: Place)
    ensures Locate(day) == p
    ensures p.doe == day + 719_468 - p.era * 146_097
    ensures 0 <= p.yoe < 400 && p.doy == p.doe - EraDays(p.yoe) && (p.doy == 365 ==> Leap(p.yoe + 1))
    ensures MarchDays(p.mp) == Div(153 * p.mp + 2, 5)
    ensures 0 <= p.mp <= 11 && MarchDays(p.mp) <= p.doy <= 365 && (p.mp < 11 ==> p.doy < MarchDays(p.mp + 1))
  {
    var z := day + 719_468;
    var era := Div(if z >= 0 then z else z - 146_096, 146_097);
    var doe := z - era * 146_097;
    assert 0 <= doe < 146_097 by { FloorToEra(z); }
    var yoe := YearEvaluates(doe);
    var doy := doe - EraDays(yoe);
    var mp := MonthEvaluates(doy);
    p := Place(era, doe, yoe, doy, mp);
    Placed(day, p);
  }

  lemma Dated(day: int, p: Place)
    requires Locate(day) == p && MarchDays(p.mp) == Div(153 * p.mp + 2, 5)
    ensures CivilFromDays(day) ==
      Date(if (if p.mp < 10 then p.mp + 3 else p.mp - 9) <= 2 then p.yoe + p.era * 400 + 1 else p.yoe + p.era * 400,
           if p.mp < 10 then p.mp + 3 else p.mp - 9, p.doy - MarchDays(p.mp) + 1)
  {
  }

  lemma Counted(day: int, era: int, doe: int, yoe: int, doy: int)
    requires 0 <= yoe < 400 && doe == day + 719_468 - era * 146_097
    requires doy == doe - EraDays(yoe) && (doy == 365 ==> Leap(yoe + 1))
    ensures DaysToYear(yoe + era * 400) + DaysToMonth(yoe + era * 400, 3) + doy == day
    ensures doy == 365 ==> Leap(yoe + era * 400 + 1)
  {
    MarchFirst(era, yoe);
    LeapInEra(era, yoe + 1);
  }

  /** What the chain of divisions comes to. */
  lemma Unfolded(day: int) returns (y: int, mp: int, doy: int)
    ensures 0 <= mp <= 11 && MarchDays(mp) <= doy <= 365 && (mp < 11 ==> doy < MarchDays(mp + 1))
    ensures doy == 365 ==> Leap(y + 1)
    ensures DaysToYear(y) + DaysToMonth(y, 3) + doy == day
    ensures CivilFromDays(day) ==
      Date(if mp < 10 then y else y + 1, if mp < 10 then mp + 3 else mp - 9, doy - MarchDays(mp) + 1)
  {
    var p := Located(day);
    Dated(day, p);
    y, mp, doy := p.yoe + p.era * 400, p.mp, p.doy;
    Counted(day, p.era, p.doe, p.yoe, p.doy);
  }

  lemma MonthFits(y: int, mp: int, doy: int)
    requires 0 <= mp <= 11 && MarchDays(mp) <= doy && (mp < 11 ==> doy < MarchDays(mp + 1))
    requires doy <= 365 && (doy == 365 ==> Leap(y + 1))
    ensures 1 <= doy - MarchDays(mp) + 1 <= MonthLength(if mp < 10 then y else y + 1, if mp < 10 then mp + 3 else mp - 9)
  {
  }

  /** For every day number, those before the epoch too: the algorithm yields a valid date,
      and it is the date of that day. */
  lemma DateOfDay(day: int)
    ensures CivilFromDays(day).Valid() && DayNumber(CivilFromDays(day)) == day
  {
    var y, mp, doy := Unfolded(day);
    MonthFits(y, mp, doy);
    if mp < 10 {
      MonthsFromMarch(y, mp + 3);
    } else {
      MonthsIntoNextYear(y, mp - 9);
    }
  }

  /** Consecutive dates have consecutive day numbers. */
  lemma NextDay(d: Date)
    requires d.Valid()
    ensures d.Next().Valid() && DayNumber(d.Next()) == DayNumber(d) + 1
  {
    if d.month == 12 && d.day == 31 {
      DaysToYearClosed(d.year);
      DaysToYearClosed(d.year + 1);
      LeapDaysStep(d.year);
      MonthsFromMarch(d.year, 12);
      assert DaysToMonth(d.year, 3) == 31 + MonthLength(d.year, 2);
    }
  }

  // ---------------------------------------------------------------- order

  predicate Earlier(a: Date, b: Date) {
    || a.year < b.year
    || (a.year == b.year && (a.month < b.month || (a.month == b.month && a.day < b.day)))
  }

  lemma {:induction false} YearsGrow(a: int, b: int)
    requires a <= b
    ensures DaysToYear(b) - DaysToYear(a) >= 365 * (b - a)
    decreases b - a
  {
    if a < b {
      YearsGrow(a, b - 1);
      DaysToYearClosed(b);
      DaysToYearClosed(b - 1);
      LeapDaysStep(b - 1);
    }
  }

  lemma {:induction false} MonthsGrow(y: int, a: int, b: int)
    requires 1 <= a < b
    ensures DaysToMonth(y, a) + MonthLength(y, a) <= DaysToMonth(y, b)
    decreases b
  {
    if a < b - 1 {
      MonthsGrow(y, a, b - 1);
    }
  }

  lemma WithinYear(d: Date)
    requires d.Valid()
    ensures DaysToYear(d.year) <= DayNumber(d) < DaysToYear(d.year + 1)
  {
    DaysToYearClosed(d.year);
    DaysToYearClosed(d.year + 1);
    LeapDaysStep(d.year);
    MonthsFromMarch(d.year, 12);
    assert DaysToMonth(d.year, 3) == 31 + MonthLength(d.year, 2);
    if d.month < 12 {
      MonthsGrow(d.year, d.month, 12);
    }
    if d.month > 1 {
      MonthsGrow(d.year, 1, d.month);
    }
  }

  /** The day number orders dates as the calendar does. */
  lemma EarlierIsSmaller(a: Date, b: Date)
    requires a.Valid() && b.Valid() && Earlier(a, b)
    ensures DayNumber(a) < DayNumber(b)
  {
    if a.year < b.year {
      WithinYear(a);
      WithinYear(b);
      YearsGrow(a.year + 1, b.year);
    } else if a.month < b.month {
      MonthsGrow(a.year, a.month, b.month);
    }
  }

  /** Two dates with the same day number are the same date. */
  lemma SameNumber(a: Date, b: Date)
    requires a.Valid() && b.Valid() && DayNumber(a) == DayNumber(b)
    ensures a == b
  {
    if Earlier(a, b) {
      EarlierIsSmaller(a, b);
    } else if Earlier(b, a) {
      EarlierIsSmaller(b, a);
    }
  }

  /** The other direction of the inverse: no date is missed. */
  lemma DayOfDate(d: Date)
    requires d.Valid()
    ensures CivilFromDays(DayNumber(d)) == d
  {
    DateOfDay(DayNumber(d));
    SameNumber(CivilFromDays(DayNumber(d)), d);
  }

  lemma Follows(d: Date, e: Date, day: int)
    requires d.Valid() && e.Valid() && DayNumber(d) == day && DayNumber(e) == day + 1
    ensures e == d.Next()
  {
    NextDay(d);
    SameNumber(e, d.Next());
  }

  /** Consecutive days map to consecutive dates. */
  lemma ConsecutiveDays(day: int)
    ensures CivilFromDays(day + 1) == CivilFromDays(day).Next()
  {
    DateOfDay(day);
    DateOfDay(day + 1);
    Follows(CivilFromDays(day), CivilFromDays(day + 1), day);
  }
}
