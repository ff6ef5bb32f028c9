/**
 The UTC stamps that name diagnostics files, and how far their order as strings is the
 order of the instants they stand for.
 */
module TimeStamps {
  import opened Calendar
  import opened Lexical

  /** An instant is a count of nanoseconds from the epoch; one before it stamps as the epoch. */
  function Second(t: int): nat { if t < 0 then 0 else t / 1_000_000_000 }

  datatype Parts = Parts(date: Date, hour: int, minute: int, second: int)

  function PartsOf(t: int): Parts {
    var days := Second(t) / 86_400;
    var sod := Second(t) % 86_400;
    Parts(CivilFromDays(days), sod / 3600, (sod % 3600) / 60, sod % 60)
  }

  function Clock(p: Parts): string
    requires p.hour >= 0 && p.minute >= 0 && p.second >= 0
  {
    Padded(p.hour, 2) + (Padded(p.minute, 2) + Padded(p.second, 2))
  }

  function Compact(p: Parts): string
    requires p.date.year >= 0 && p.date.Valid() && p.hour >= 0 && p.minute >= 0 && p.second >= 0
  {
    Padded(p.date.year, 4) + (Padded(p.date.month, 2) + (Padded(p.date.day, 2) + ("-" + Clock(p))))
  }

  /** `YYYYMMDD-HHMMSS`. */
  function UtcCompact(t: int): string {
    InRange(t);
    Compact(PartsOf(t))
  }

  // ---------------------------------------------------------------- the fields

  lemma FromTheEpoch(day: nat)
    ensures CivilFromDays(day).Valid() && CivilFromDays(day).year >= 1970
  {
    var d := CivilFromDays(day);
    DateOfDay(day);
    if d.year < 1970 {
      WithinYear(d);
      YearsGrow(d.year + 1, 1970);
    }
  }

  /** Every field of a stamp is a valid one. */
  lemma InRange(t: int)
    ensures var p := PartsOf(t);
      && p.date.Valid() && p.date.year >= 1970
      && 0 <= p.hour < 24 && 0 <= p.minute < 60 && 0 <= p.second < 60
  {
    FromTheEpoch(Second(t) / 86_400);
  }

  /** The stamp loses nothing above a second. */
  lemma SecondOfParts(t: int)
    ensures var p := PartsOf(t);
      && p.date.Valid()
      && DayNumber(p.date) * 86_400 + p.hour * 3600 + p.minute * 60 + p.second == Second(t)
  {
    DateOfDay(Second(t) / 86_400);
    SecondOfDay(Second(t) % 86_400);
  }

  lemma SecondOfDay(sod: nat)
    ensures sod / 3600 * 3600 + sod % 3600 / 60 * 60 + sod % 60 == sod
  {
    assert sod % 3600 % 60 == sod % 60;
  }

  predicate ClockBefore(p: Parts, q: Parts) {
    || p.hour < q.hour
    || (p.hour == q.hour && (p.minute < q.minute || (p.minute == q.minute && p.second < q.second)))
  }

  predicate Before(p: Parts, q: Parts) { Earlier(p.date, q.date) || (p.date == q.date && ClockBefore(p, q)) }

  lemma DateOrder(a: Date, b: Date)
    requires a.Valid() && b.Valid()
    ensures Earlier(a, b) <==> DayNumber(a) < DayNumber(b)
    ensures a == b <==> DayNumber(a) == DayNumber(b)
  {
    if Earlier(a, b) {
      EarlierIsSmaller(a, b);
    } else if Earlier(b, a) {
      EarlierIsSmaller(b, a);
    }
  }

  lemma ClockOrder(p: Parts, q: Parts)
    requires 0 <= p.hour < 24 && 0 <= p.minute < 60 && 0 <= p.second < 60
    requires 0 <= q.hour < 24 && 0 <= q.minute < 60 && 0 <= q.second < 60
    ensures ClockBefore(p, q) <==> p.hour * 3600 + p.minute * 60 + p.second < q.hour * 3600 + q.minute * 60 + q.second
  {
  }

  lemma PartsOrder(t: int, u: int)
    ensures Before(PartsOf(t), PartsOf(u)) <==> Second(t) < Second(u)
  {
    var p, q := PartsOf(t), PartsOf(u);
    InRange(t);
    InRange(u);
    SecondOfParts(t);
    SecondOfParts(u);
    DateOrder(p.date, q.date);
    ClockOrder(p, q);
  }

  // ---------------------------------------------------------------- the strings

  lemma FieldOrder(m: nat, n: nat, w: nat, x: string, y: string)
    requires 1 <= w && m < Power10(w) && n < Power10(w)
    ensures Less(Padded(m, w) + x, Padded(n, w) + y) <==> m < n || (m == n && Less(x, y))
  {
    PaddedWidth(m, w);
    PaddedWidth(n, w);
    Prefixed(Padded(m, w), Padded(n, w), x, y);
    PaddedOrder(m, n, w);
  }

  lemma Powers()
    ensures Power10(2) == 100 && Power10(4) == 10_000
  {
  }

  lemma ClockStrings(p: Parts, q: Parts, x: string, y: string)
    requires 0 <= p.hour < 24 && 0 <= p.minute < 60 && 0 <= p.second < 60
    requires 0 <= q.hour < 24 && 0 <= q.minute < 60 && 0 <= q.second < 60
    ensures Less(Clock(p) + x, Clock(q) + y) <==>
      ClockBefore(p, q) || (p.hour == q.hour && p.minute == q.minute && p.second == q.second && Less(x, y))
  {
    Powers();
    FieldOrder(p.hour, q.hour, 2, Padded(p.minute, 2) + (Padded(p.second, 2) + x), Padded(q.minute, 2) + (Padded(q.second, 2) + y));
    FieldOrder(p.minute, q.minute, 2, Padded(p.second, 2) + x, Padded(q.second, 2) + y);
    FieldOrder(p.second, q.second, 2, x, y);
    ClockAppend(p, x);
    ClockAppend(q, y);
  }

  lemma ClockAppend(p: Parts, x: string)
    requires p.hour >= 0 && p.minute >= 0 && p.second >= 0
    ensures Clock(p) + x == Padded(p.hour, 2) + (Padded(p.minute, 2) + (Padded(p.second, 2) + x))
  {
  }

  lemma CompactAppend(p: Parts, x: string)
    requires p.date.year >= 0 && p.date.Valid() && p.hour >= 0 && p.minute >= 0 && p.second >= 0
    ensures Compact(p) + x ==
      Padded(p.date.year, 4) + (Padded(p.date.month, 2) + (Padded(p.date.day, 2) + ("-" + (Clock(p) + x))))
  {
  }

  lemma CompactStrings(p: Parts, q: Parts, x: string, y: string)
    requires p.date.Valid() && q.date.Valid() && 0 <= p.date.year <= 9999 && 0 <= q.date.year <= 9999
    requires 0 <= p.hour < 24 && 0 <= p.minute < 60 && 0 <= p.second < 60
    requires 0 <= q.hour < 24 && 0 <= q.minute < 60 && 0 <= q.second < 60
    ensures Less(Compact(p) + x, Compact(q) + y) <==> Before(p, q) || (p == q && Less(x, y))
  {
    Powers();
    var c, e := "-" + (Clock(p) + x), "-" + (Clock(q) + y);
    CompactAppend(p, x);
    CompactAppend(q, y);
    FieldOrder(p.date.year, q.date.year, 4, Padded(p.date.month, 2) + (Padded(p.date.day, 2) + c), Padded(q.date.month, 2) + (Padded(q.date.day, 2) + e));
    FieldOrder(p.date.month, q.date.month, 2, Padded(p.date.day, 2) + c, Padded(q.date.day, 2) + e);
    FieldOrder(p.date.day, q.date.day, 2, c, e);
    Irreflexive("-");
    Prefixed("-", "-", Clock(p) + x, Clock(q) + y);
    ClockStrings(p, q, x, y);
  }

  // ---------------------------------------------------------------- the order of stamps

  /** The first second of the year 10000. */
  const FIVE_DIGIT_YEARS := 253_402_300_800

  lemma TenThousand()
    ensures DaysToYear(10_000) == 2_932_897 && 2_932_897 * 86_400 == FIVE_DIGIT_YEARS
  {
    DaysToYearClosed(10_000);
  }

  /** The year has four digits exactly up to the last second of 9999. */
  lemma FourDigitYears(t: int)
    ensures 1970 <= PartsOf(t).date.year <= 9999 <==> Second(t) < FIVE_DIGIT_YEARS
  {
    var d := PartsOf(t).date;
    InRange(t);
    DateOfDay(Second(t) / 86_400);
    WithinYear(d);
    TenThousand();
    if d.year <= 9999 {
      YearsGrow(d.year + 1, 10_000);
    } else {
      YearsGrow(10_000, d.year);
    }
  }

  lemma TakeField(n: nat, w: nat, rest: string)
    requires 1 <= w && n < Power10(w)
    ensures |Padded(n, w) + rest| == w + |rest|
    ensures Number((Padded(n, w) + rest)[..w]) == n && (Padded(n, w) + rest)[w..] == rest
  {
    PaddedWidth(n, w);
    PaddedReads(n, w);
    assert (Padded(n, w) + rest)[..w] == Padded(n, w);
  }

  lemma ClockReads(p: Parts)
    requires 0 <= p.hour < 24 && 0 <= p.minute < 60 && 0 <= p.second < 60
    ensures var s := Clock(p);
      && |s| == 6 && Number(s[..2]) == p.hour && Number(s[2..][..2]) == p.minute && Number(s[2..][2..]) == p.second
  {
    Powers();
    TakeField(p.hour, 2, Padded(p.minute, 2) + Padded(p.second, 2));
    TakeField(p.minute, 2, Padded(p.second, 2));
    PaddedWidth(p.second, 2);
    PaddedReads(p.second, 2);
  }

  /** Up to the end of 9999 a stamp has the shape `YYYYMMDD-HHMMSS`, and each field reads as
      the number it stands for. */
  lemma StampReads(t: int)
    requires Second(t) < FIVE_DIGIT_YEARS
    ensures var p, s := PartsOf(t), UtcCompact(t);
      && |s| == 15
      && Number(s[..4]) == p.date.year && Number(s[4..][..2]) == p.date.month && Number(s[4..][2..][..2]) == p.date.day
      && s[4..][2..][2..][..1] == "-"
      && Number(s[4..][2..][2..][1..][..2]) == p.hour
      && Number(s[4..][2..][2..][1..][2..][..2]) == p.minute
      && Number(s[4..][2..][2..][1..][2..][2..]) == p.second
  {
    var p := PartsOf(t);
    InRange(t);
    FourDigitYears(t);
    ReadsAsParts(p);
  }

  lemma ReadsAsParts(p: Parts)
    requires p.date.Valid() && 0 <= p.date.year <= 9999
    requires 0 <= p.hour < 24 && 0 <= p.minute < 60 && 0 <= p.second < 60
    ensures var s := Compact(p);
      && |s| == 15
      && Number(s[..4]) == p.date.year && Number(s[4..][..2]) == p.date.month && Number(s[4..][2..][..2]) == p.date.day
      && s[4..][2..][2..][..1] == "-" && s[4..][2..][2..][1..] == Clock(p)
      && Number(s[4..][2..][2..][1..][..2]) == p.hour
      && Number(s[4..][2..][2..][1..][2..][..2]) == p.minute
      && Number(s[4..][2..][2..][1..][2..][2..]) == p.second
  {
    Powers();
    var c := "-" + Clock(p);
    ClockReads(p);
    TakeField(p.date.year, 4, Padded(p.date.month, 2) + (Padded(p.date.day, 2) + c));
    TakeField(p.date.month, 2, Padded(p.date.day, 2) + c);
    TakeField(p.date.day, 2, c);
    assert c[..1] == "-" && c[1..] == Clock(p);
  }

  /** Up to the end of 9999 names that start with a stamp sort by the second first, and by
      what follows the stamp only within a second. */
  lemma NamesSortByTime(t: int, u: int, x: string, y: string)
    requires Second(t) < FIVE_DIGIT_YEARS && Second(u) < FIVE_DIGIT_YEARS
    ensures Less(UtcCompact(t) + x, UtcCompact(u) + y) <==>
      Second(t) < Second(u) || (Second(t) == Second(u) && Less(x, y))
  {
    InRange(t);
    InRange(u);
    FourDigitYears(t);
    FourDigitYears(u);
    CompactStrings(PartsOf(t), PartsOf(u), x, y);
    PartsOrder(t, u);
    PartsOrder(u, t);
    SecondOfParts(t);
    SecondOfParts(u);
  }

  lemma StampsSortByTime(t: int, u: int)
    requires Second(t) < FIVE_DIGIT_YEARS && Second(u) < FIVE_DIGIT_YEARS
    ensures Less(UtcCompact(t), UtcCompact(u)) <==> Second(t) < Second(u)
  {
    assert UtcCompact(t) + [] == UtcCompact(t) && UtcCompact(u) + [] == UtcCompact(u);
    NamesSortByTime(t, u, [], []);
  }

  lemma FirstDigits(m: nat, n: nat)
    requires m == 9999 && n == 10_000
    ensures Padded(m, 4)[0] == '9' && Padded(n, 4)[0] == '1'
  {
    assert Padded(999, 3)[0] == Padded(99, 2)[0] == Padded(9, 1)[0];
    assert Padded(1000, 3)[0] == Padded(100, 2)[0] == Padded(10, 1)[0] == Padded(1, 0)[0];
  }

  lemma YearFirst(t: int)
    ensures PartsOf(t).date.year >= 0 && |UtcCompact(t)| >= 1
    ensures UtcCompact(t)[..1] == Padded(PartsOf(t).date.year, 4)[..1]
  {
    InRange(t);
  }

  lemma DateAt(t: int, day: nat)
    requires Second(t) / 86_400 == day
    ensures PartsOf(t).date == CivilFromDays(day)
  {
  }

  /** Names of the last second of 9999 sort after names of the first of 10000. */
  lemma FiveDigitsSortFirst(t: int, u: int, x: string, y: string)
    requires Second(t) == FIVE_DIGIT_YEARS && Second(u) == FIVE_DIGIT_YEARS - 1
    ensures Less(UtcCompact(t) + x, UtcCompact(u) + y)
  {
    var m, n := PartsOf(u).date.year, PartsOf(t).date.year;
    YearFirst(t);
    YearFirst(u);
    assert n == 10_000 && m == 9999 by {
      DateAt(t, 2_932_897);
      DateAt(u, 2_932_896);
      NewYear(PartsOf(t).date, PartsOf(u).date);
    }
    FirstDigits(m, n);
    FirstDecides(UtcCompact(t), UtcCompact(u), Padded(n, 4), Padded(m, 4), x, y);
  }

  lemma FirstDecides(a: string, b: string, c: string, d: string, x: string, y: string)
    requires |a| >= 1 && |b| >= 1 && |c| >= 1 && |d| >= 1
    requires a[..1] == c[..1] && b[..1] == d[..1] && c[0] < d[0]
    ensures Less(a + x, b + y)
  {
    assert a[..1][0] == a[0] && b[..1][0] == b[0] && c[..1][0] == c[0] && d[..1][0] == d[0];
  }

  lemma NewYear(d: Date, e: Date)
    requires d == CivilFromDays(2_932_897) && e == CivilFromDays(2_932_896)
    ensures d.year == 10_000 && e.year == 9999
  {
    TenThousand();
    DayOfDate(Date(10_000, 1, 1));
    LastDay();
    DayOfDate(Date(9999, 12, 31));
  }

  lemma LastDay()
    ensures Date(9999, 12, 31).Valid() && DayNumber(Date(9999, 12, 31)) == 2_932_896
  {
    TenThousand();
    NextDay(Date(9999, 12, 31));
  }

  /** The stamps of every two instants below a limit sort by time exactly when no instant
      below the limit has a five-digit year. */
  lemma SortedBelow(limit: nat)
    ensures (forall t, u :: Second(t) < limit && Second(u) < limit ==>
                (Less(UtcCompact(t), UtcCompact(u)) <==> Second(t) < Second(u)))
      <==> limit <= FIVE_DIGIT_YEARS
  {
    if limit <= FIVE_DIGIT_YEARS {
      forall t, u | Second(t) < limit && Second(u) < limit
        ensures Less(UtcCompact(t), UtcCompact(u)) <==> Second(t) < Second(u)
      {
        StampsSortByTime(t, u);
      }
    } else {
      var t, u := FIVE_DIGIT_YEARS * 1_000_000_000, (FIVE_DIGIT_YEARS - 1) * 1_000_000_000;
      FiveDigitsSortFirst(t, u, [], []);
      assert UtcCompact(t) + [] == UtcCompact(t) && UtcCompact(u) + [] == UtcCompact(u);
    }
  }
}
