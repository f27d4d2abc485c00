/** The proleptic Gregorian calendar as Python's `datetime` module computes
    it: day ordinals (`toordinal`, day 1 is 0001-01-01), weekdays, ISO 8601
    week dates (`isocalendar`), and the date-time records that `strptime`
    produces, with their comparison and elapsed seconds. */
module Calendar {

  predicate IsLeap(y: int) {
    y % 4 == 0 && (y % 100 != 0 || y % 400 == 0)
  }

  function DaysInYear(y: int): int {
    if IsLeap(y) then 366 else 365
  }

  function DaysInMonth(y: int, m: int): (n: int)
    requires 1 <= m <= 12
    ensures 28 <= n <= 31
  {
    if m == 2 then (if IsLeap(y) then 29 else 28)
    else if m == 4 || m == 6 || m == 9 || m == 11 then 30
    else 31
  }

  /** Days in the months of year `y` before month `m`. */
  function DaysBeforeMonth(y: int, m: int): int
    requires 1 <= m <= 12
  {
    [0, 31, 59, 90, 120, 151, 181, 212, 243, 273, 304, 334][m - 1]
    + (if m > 2 && IsLeap(y) then 1 else 0)
  }

  /** Days in the years before year `y` (counting from year 1). */
  function DaysBeforeYear(y: int): int {
    var p := y - 1;
    p * 365 + p / 4 - p / 100 + p / 400
  }

  /** `date(y, m, d).toordinal()`. */
  function Ordinal(y: int, m: int, d: int): int
    requires 1 <= m <= 12
  {
    DaysBeforeYear(y) + DaysBeforeMonth(y, m) + d
  }

  /** `weekday()` of a day ordinal: Monday is 0, Sunday is 6. */
  function Weekday(n: int): int {
    (n + 6) % 7
  }

  predicate ValidDate(y: int, m: int, d: int) {
    1 <= y <= 9999 && 1 <= m <= 12 && 1 <= d <= DaysInMonth(y, m)
  }

  // ---------------------------------------------------------------- ISO 8601 weeks

  /** `_isoweek1monday`: the Monday starting ISO week 1 of a year whose
      January 1 has ordinal `firstDay` is the Monday of that week if January 1
      falls on Monday..Thursday, otherwise the next Monday. */
  function Week1MondayPython(firstDay: int): int {
    var firstWeekday := (firstDay + 6) % 7;
    var monday := firstDay - firstWeekday;
    if firstWeekday > 3 then monday + 7 else monday
  }

  /** ISO 8601's own definition: week 1 is the week holding January 4, so
      it starts on the Monday on or before January 4. */
  function Week1MondayFrom(firstDay: int): int {
    firstDay + 3 - Weekday(firstDay + 3)
  }

  /** `date(y, 1, 1).toordinal()`. */
  function NewYear(y: int): int {
    DaysBeforeYear(y) + 1
  }

  lemma NewYearOrdinal(y: int)
    ensures NewYear(y) == Ordinal(y, 1, 1)
  {
  }

  /** The ordinal of the Monday that starts ISO week 1 of year `y`. */
  function IsoWeek1Monday(y: int): int {
    Week1MondayFrom(NewYear(y))
  }

  /** An ISO 8601 week date: ISO year, week 1..53 and weekday 1 (Monday) .. 7. */
  datatype IsoDate = IsoDate(year: int, week: int, weekday: int)

  /** `date(y, m, d).isocalendar()`. */
  function IsoCalendar(y: int, m: int, d: int): IsoDate
    requires 1 <= m <= 12
  {
    IsoWeekDate(y, Ordinal(y, m, d), IsoWeek1Monday(y - 1), IsoWeek1Monday(y), IsoWeek1Monday(y + 1))
  }

  /** The body of `isocalendar` for a day `today` of year `y`, given the
      week-1 Mondays of the years `y - 1`, `y` and `y + 1`: count whole weeks
      from this year's week-1 Monday; before it the day belongs to the last
      week of the previous ISO year, and from next year's week-1 Monday on to
      week 1 of the next ISO year. (Python reads `previous` and `next` only in
      the branches that use them.) */
  function IsoWeekDate(y: int, today: int, previous: int, monday: int, next: int): IsoDate {
    var week := (today - monday) / 7;
    var day := (today - monday) % 7;
    if week < 0 then
      IsoDate(y - 1, (today - previous) / 7 + 1, (today - previous) % 7 + 1)
    else if week >= 52 && today >= next then
      IsoDate(y + 1, 1, day + 1)
    else
      IsoDate(y, week + 1, day + 1)
  }

  // ---------------------------------------------------------------- date-times

  /** A `datetime` with one-second resolution. */
  datatype DateTime = DateTime(year: int, month: int, day: int, hour: int, minute: int, second: int)
  {
    predicate Valid() {
      ValidDate(year, month, day) && 0 <= hour < 24 && 0 <= minute < 60 && 0 <= second < 60
    }

    function DayOrdinal(): int
      requires 1 <= month <= 12
    {
      Ordinal(year, month, day)
    }

    /** `(self - datetime.min).total_seconds()` shifted by one day: the value
        whose differences are `timedelta.total_seconds()` of subtractions. */
    function Seconds(): int
      requires 1 <= month <= 12
    {
      DayOrdinal() * 86400 + hour * 3600 + minute * 60 + second
    }

    function Iso(): IsoDate
      requires 1 <= month <= 12
    {
      IsoCalendar(year, month, day)
    }
  }

  /** Python's `a < b` on datetimes: field-by-field comparison. */
  predicate Before(a: DateTime, b: DateTime) {
    if a.year != b.year then a.year < b.year
    else if a.month != b.month then a.month < b.month
    else if a.day != b.day then a.day < b.day
    else if a.hour != b.hour then a.hour < b.hour
    else if a.minute != b.minute then a.minute < b.minute
    else a.second < b.second
  }

  predicate AtOrBefore(a: DateTime, b: DateTime) {
    Before(a, b) || a == b
  }

  /** Midnight at the start of a day. */
  function StartOfDay(y: int, m: int, d: int): DateTime {
    DateTime(y, m, d, 0, 0, 0)
  }

  /** The last second of a day: `end_date + ' 23:59:59'`. */
  function EndOfDay(y: int, m: int, d: int): DateTime {
    DateTime(y, m, d, 23, 59, 59)
  }

  // ---------------------------------------------------------------- ordinal lemmas

  lemma DivisionStep(y: int)
    ensures y / 4 - (y - 1) / 4 == (if y % 4 == 0 then 1 else 0)
    ensures y / 100 - (y - 1) / 100 == (if y % 100 == 0 then 1 else 0)
    ensures y / 400 - (y - 1) / 400 == (if y % 400 == 0 then 1 else 0)
  {
  }

  /** Consecutive years are `DaysInYear` apart. */
  lemma DaysBeforeYearStep(y: int)
    ensures DaysBeforeYear(y + 1) == DaysBeforeYear(y) + DaysInYear(y)
  {
    DivisionStep(y);
  }

  lemma {:induction false} DaysBeforeYearMonotone(a: int, b: int)
    requires a < b
    ensures DaysBeforeYear(a) + DaysInYear(a) <= DaysBeforeYear(b)
    decreases b - a
  {
    DaysBeforeYearStep(a);
    if a + 1 < b {
      DaysBeforeYearMonotone(a + 1, b);
    }
  }

  /** The months of a year tile it: each month ends where the next starts. */
  lemma MonthSpan(y: int, m1: int, m2: int)
    requires 1 <= m1 < m2 <= 12
    ensures DaysBeforeMonth(y, m1) + DaysInMonth(y, m1) <= DaysBeforeMonth(y, m2)
    ensures DaysBeforeMonth(y, m1 + 1) == DaysBeforeMonth(y, m1) + DaysInMonth(y, m1)
  {
  }

  lemma LastMonthSpan(y: int, m: int)
    requires 1 <= m <= 12
    ensures DaysBeforeMonth(y, m) + DaysInMonth(y, m) <= DaysInYear(y)
    ensures m == 12 ==> DaysBeforeMonth(y, m) + DaysInMonth(y, m) == DaysInYear(y)
  {
  }

  /** A valid date's ordinal lies inside its year. */
  lemma OrdinalInYear(y: int, m: int, d: int)
    requires ValidDate(y, m, d)
    ensures DaysBeforeYear(y) < Ordinal(y, m, d) <= DaysBeforeYear(y) + DaysInYear(y)
  {
    LastMonthSpan(y, m);
  }

  /** A valid date lies between its year's January 1 and the next one's. */
  lemma OrdinalBetweenNewYears(y: int, m: int, d: int)
    requires ValidDate(y, m, d)
    ensures NewYear(y) <= Ordinal(y, m, d) < NewYear(y + 1)
    ensures 365 <= NewYear(y + 1) - NewYear(y) <= 366
  {
    OrdinalInYear(y, m, d);
    DaysBeforeYearStep(y);
  }

  /** Ordinals increase with dates in calendar order. */
  lemma OrdinalMonotone(y1: int, m1: int, d1: int, y2: int, m2: int, d2: int)
    requires ValidDate(y1, m1, d1) && ValidDate(y2, m2, d2)
    requires y1 < y2 || (y1 == y2 && (m1 < m2 || (m1 == m2 && d1 < d2)))
    ensures Ordinal(y1, m1, d1) < Ordinal(y2, m2, d2)
  {
    OrdinalInYear(y1, m1, d1);
    OrdinalInYear(y2, m2, d2);
    if y1 < y2 {
      DaysBeforeYearMonotone(y1, y2);
    } else if m1 < m2 {
      MonthSpan(y1, m1, m2);
    }
  }

  /** The day after the last day of a month is the first of the next month. */
  lemma LastDayOfMonth(y: int, m: int)
    requires 1 <= m <= 12
    ensures m < 12 ==> Ordinal(y, m, DaysInMonth(y, m)) + 1 == Ordinal(y, m + 1, 1)
    ensures m == 12 ==> Ordinal(y, m, DaysInMonth(y, m)) + 1 == NewYear(y + 1)
  {
    if m < 12 {
      MonthSpan(y, m, m + 1);
    } else {
      LastMonthSpan(y, m);
      DaysBeforeYearStep(y);
    }
  }

  // ---------------------------------------------------------------- date-time lemmas

  /** For valid date-times, Python's comparison is comparison of elapsed
      seconds: the model may use either. */
  lemma BeforeIsSecondsLess(a: DateTime, b: DateTime)
    requires a.Valid() && b.Valid()
    ensures Before(a, b) <==> a.Seconds() < b.Seconds()
  {
    if a.year != b.year || a.month != b.month || a.day != b.day {
      if Before(a, b) {
        OrdinalMonotone(a.year, a.month, a.day, b.year, b.month, b.day);
      } else {
        OrdinalMonotone(b.year, b.month, b.day, a.year, a.month, a.day);
      }
    }
  }

  /** Distinct valid date-times are distinct instants. */
  lemma SecondsInjective(a: DateTime, b: DateTime)
    requires a.Valid() && b.Valid() && a.Seconds() == b.Seconds()
    ensures a == b
  {
    BeforeIsSecondsLess(a, b);
    BeforeIsSecondsLess(b, a);
  }

  lemma AtOrBeforeIsSecondsAtMost(a: DateTime, b: DateTime)
    requires a.Valid() && b.Valid()
    ensures AtOrBefore(a, b) <==> a.Seconds() <= b.Seconds()
  {
    BeforeIsSecondsLess(a, b);
    if a.Seconds() == b.Seconds() {
      SecondsInjective(a, b);
    }
  }

  // ---------------------------------------------------------------- ISO week lemmas

  /** Python's branch on the weekday of January 1 finds the Monday on or
      before January 4. */
  lemma Week1MondayAgrees(f: int)
    ensures Week1MondayPython(f) == Week1MondayFrom(f)
  {
  }

  lemma Week1MondayFromShape(f: int)
    ensures Weekday(Week1MondayFrom(f)) == 0 && Week1MondayFrom(f) % 7 == 1
    ensures f - 3 <= Week1MondayFrom(f) <= f + 3
    ensures Weekday(Week1MondayFrom(f) + 3) == 3
    ensures f <= Week1MondayFrom(f) + 3 <= f + 6
  {
  }

  lemma Week1MondayFromStep(f: int, g: int)
    requires g - f == 365 || g - f == 366
    ensures Week1MondayFrom(f) + 364 <= Week1MondayFrom(g) <= Week1MondayFrom(f) + 371
    ensures (Week1MondayFrom(g) - Week1MondayFrom(f)) % 7 == 0
  {
    Week1MondayFromShape(f);
    Week1MondayFromShape(g);
  }

  /** Week 1 starts on a Monday within three days of January 1. */
  lemma Week1MondayShape(y: int)
    ensures Weekday(IsoWeek1Monday(y)) == 0 && IsoWeek1Monday(y) % 7 == 1
    ensures NewYear(y) - 3 <= IsoWeek1Monday(y) <= NewYear(y) + 3
  {
    Week1MondayFromShape(NewYear(y));
  }

  lemma Week1MondayNear(y: int)
    ensures NewYear(y) - 3 <= IsoWeek1Monday(y) <= NewYear(y) + 3
  {
    Week1MondayShape(y);
  }

  /** ISO 8601: week 01 is the week holding the year's first Thursday. The
      Thursday of week 1 is one of the first seven days of January. */
  lemma Week1HoldsFirstThursday(y: int)
    ensures Weekday(IsoWeek1Monday(y) + 3) == 3
    ensures Ordinal(y, 1, 1) <= IsoWeek1Monday(y) + 3 <= Ordinal(y, 1, 7)
  {
    Week1MondayFromShape(NewYear(y));
  }

  /** An ISO year has 52 or 53 whole weeks. */
  lemma Week1MondayStep(y: int)
    ensures IsoWeek1Monday(y) + 364 <= IsoWeek1Monday(y + 1) <= IsoWeek1Monday(y) + 371
    ensures (IsoWeek1Monday(y + 1) - IsoWeek1Monday(y)) % 7 == 0
  {
    DaysBeforeYearStep(y);
    assert NewYear(y + 1) == NewYear(y) + DaysInYear(y);
    Week1MondayFromStep(NewYear(y), NewYear(y + 1));
  }

  lemma {:induction false} Week1MondayMonotone(a: int, b: int)
    requires a < b
    ensures IsoWeek1Monday(a + 1) <= IsoWeek1Monday(b)
    decreases b - a
  {
    if a + 1 < b {
      Week1MondayStep(a + 1);
      Week1MondayMonotone(a + 1, b);
    }
  }

  /** A day `n` in the week run starting at Monday `m` (`m % 7 == 1`): its
      week number counted from `m` and its weekday. */
  lemma WeeksFrom(n: int, m: int, limit: int)
    requires m % 7 == 1 && m <= n < m + limit && limit <= 371
    ensures 1 <= (n - m) / 7 + 1 <= 53
    ensures (n - m) % 7 == Weekday(n)
    ensures m + 7 * ((n - m) / 7) + (n - m) % 7 == n
  {
    MondayResidue(n, m);
  }

  /** Counted from any Monday, a day's remainder modulo 7 is its weekday. */
  lemma MondayResidue(n: int, m: int)
    requires m % 7 == 1
    ensures (n - m) % 7 == Weekday(n)
  {
  }

  /** `i` places day `n` in the ISO year whose weeks run from Monday `m0`
      up to (not including) Monday `m1`. */
  predicate PlacedIn(n: int, i: IsoDate, m0: int, m1: int) {
    && 1 <= i.week && 1 <= i.weekday <= 7 && i.weekday == Weekday(n) + 1
    && m0 + 7 * (i.week - 1) + (i.weekday - 1) == n
    && n < m1
  }

  /** ISO week date and day ordinal of a valid date, placed as
      `IsoCalendarCorrect` places them. */
  predicate PlacedAt(n: int, i: IsoDate) {
    PlacedIn(n, i, IsoWeek1Monday(i.year), IsoWeek1Monday(i.year + 1))
  }

  /** The arithmetic behind `isocalendar`, over the three candidate week-1
      Mondays `a`, `b`, `c` of the years before, of and after the date's. */
  lemma IsoWeekDateCorrect(y: int, n: int, first: int, next: int, a: int, b: int, c: int) returns (iso: IsoDate)
    requires first <= n < next && 365 <= next - first <= 366
    requires a % 7 == 1 && b % 7 == 1 && c % 7 == 1
    requires first - 3 <= b <= first + 3 && next - 3 <= c <= next + 3
    requires a + 364 <= b <= a + 371
    ensures iso == IsoWeekDate(y, n, a, b, c)
    ensures iso.week <= 53 && y - 1 <= iso.year <= y + 1
    ensures iso.year == y - 1 ==> PlacedIn(n, iso, a, b)
    ensures iso.year == y ==> PlacedIn(n, iso, b, c)
    ensures iso.year == y + 1 ==> PlacedIn(n, iso, c, c + 364)
  {
    iso := IsoWeekDate(y, n, a, b, c);
    if n < b {
      WeeksFrom(n, a, 371);
    } else if (n - b) / 7 >= 52 && n >= c {
      WeeksFrom(n, c, 7);
      MondayResidue(n, b);
    } else {
      assert 364 <= c - b <= 371;
      WeeksFrom(n, b, c - b);
    }
  }

  /** `IsoWeekDateCorrect` restated over the week-1 Mondays of the three
      years themselves. */
  lemma IsoWeekDateOfYear(y: int, n: int, first: int, next: int)
    requires first <= n < next && 365 <= next - first <= 366
    requires first - 3 <= IsoWeek1Monday(y) <= first + 3
    requires next - 3 <= IsoWeek1Monday(y + 1) <= next + 3
    ensures PlacedAt(n, IsoWeekDate(y, n, IsoWeek1Monday(y - 1), IsoWeek1Monday(y), IsoWeek1Monday(y + 1)))
    ensures IsoWeekDate(y, n, IsoWeek1Monday(y - 1), IsoWeek1Monday(y), IsoWeek1Monday(y + 1)).week <= 53
    ensures y - 1 <= IsoWeekDate(y, n, IsoWeek1Monday(y - 1), IsoWeek1Monday(y), IsoWeek1Monday(y + 1)).year <= y + 1
  {
    var a, b, c := IsoWeek1Monday(y - 1), IsoWeek1Monday(y), IsoWeek1Monday(y + 1);
    Week1MondayShape(y - 1);
    Week1MondayShape(y);
    Week1MondayShape(y + 1);
    Week1MondayStep(y - 1);
    var iso := IsoWeekDateCorrect(y, n, first, next, a, b, c);
    if iso.year == y + 1 {
      Week1MondayStep(y + 1);
    }
  }

  /** What `isocalendar` returns: the ISO year whose week 1 Monday is the
      latest one not after the date, the number of whole weeks since that
      Monday plus one, and the ISO weekday. */
  lemma IsoCalendarCorrect(y: int, m: int, d: int)
    requires ValidDate(y, m, d)
    ensures PlacedAt(Ordinal(y, m, d), IsoCalendar(y, m, d))
    ensures IsoCalendar(y, m, d).week <= 53
    ensures y - 1 <= IsoCalendar(y, m, d).year <= y + 1
  {
    OrdinalBetweenNewYears(y, m, d);
    Week1MondayNear(y);
    Week1MondayNear(y + 1);
    IsoWeekDateOfYear(y, Ordinal(y, m, d), NewYear(y), NewYear(y + 1));
  }

  /** Distinct ISO years own disjoint runs of days. */
  lemma IsoYearUnique(n: int, a: int, b: int)
    requires IsoWeek1Monday(a) <= n < IsoWeek1Monday(a + 1)
    requires IsoWeek1Monday(b) <= n < IsoWeek1Monday(b + 1)
    ensures a == b
  {
    if a < b {
      Week1MondayMonotone(a, b);
    } else if b < a {
      Week1MondayMonotone(b, a);
    }
  }

  /** The Monday of week `w` counted from Monday `m` is `m + 7 * (w - 1)`. */
  lemma MondayOfWeek(n: int, m: int, w: int, d: int)
    requires 1 <= d <= 7 && d == Weekday(n) + 1
    requires m + 7 * (w - 1) + (d - 1) == n
    ensures n - Weekday(n) == m + 7 * (w - 1)
  {
  }

  /** The arithmetic of `SameWeekIffSameMonday`: day `n1` is placed at `i1`
      in the year whose weeks run from Monday `a1` to `b1`, likewise `n2`,
      and years in order own runs in order. */
  lemma SameWeekArithmetic(n1: int, i1: IsoDate, a1: int, b1: int, n2: int, i2: IsoDate, a2: int, b2: int)
    requires PlacedIn(n1, i1, a1, b1) && PlacedIn(n2, i2, a2, b2)
    requires i1.year == i2.year ==> a1 == a2
    requires i1.year < i2.year ==> b1 <= a2
    requires i2.year < i1.year ==> b2 <= a1
    ensures (i1.year == i2.year && i1.week == i2.week) <==> n1 - Weekday(n1) == n2 - Weekday(n2)
  {
    MondayOfWeek(n1, a1, i1.week, i1.weekday);
    MondayOfWeek(n2, a2, i2.week, i2.weekday);
  }

  /** Days `n1`, `n2` placed at week dates `i1`, `i2` as `IsoCalendarCorrect`
      places them share their ISO week exactly when they share a Monday. */
  lemma SameWeekIffSameMonday(n1: int, i1: IsoDate, n2: int, i2: IsoDate)
    requires PlacedAt(n1, i1) && PlacedAt(n2, i2)
    ensures (i1.year == i2.year && i1.week == i2.week) <==> n1 - Weekday(n1) == n2 - Weekday(n2)
  {
    var a1, b1 := IsoWeek1Monday(i1.year), IsoWeek1Monday(i1.year + 1);
    var a2, b2 := IsoWeek1Monday(i2.year), IsoWeek1Monday(i2.year + 1);
    if i1.year < i2.year {
      Week1MondayMonotone(i1.year, i2.year);
    } else if i2.year < i1.year {
      Week1MondayMonotone(i2.year, i1.year);
    }
    SameWeekArithmetic(n1, i1, a1, b1, n2, i2, a2, b2);
  }

  /** Weeks start on Monday: two dates share an ISO (year, week) exactly when
      they share the Monday before them. */
  lemma SameIsoWeekIffSameMonday(y1: int, m1: int, d1: int, y2: int, m2: int, d2: int)
    requires ValidDate(y1, m1, d1) && ValidDate(y2, m2, d2)
    ensures var i1, i2 := IsoCalendar(y1, m1, d1), IsoCalendar(y2, m2, d2);
            var n1, n2 := Ordinal(y1, m1, d1), Ordinal(y2, m2, d2);
            (i1.year == i2.year && i1.week == i2.week) <==> n1 - Weekday(n1) == n2 - Weekday(n2)
  {
    IsoCalendarCorrect(y1, m1, d1);
    IsoCalendarCorrect(y2, m2, d2);
    SameWeekIffSameMonday(Ordinal(y1, m1, d1), IsoCalendar(y1, m1, d1), Ordinal(y2, m2, d2), IsoCalendar(y2, m2, d2));
  }

  /** ISO weeks can cross the calendar year: 2024-12-30 (a Monday) and
      2025-01-02 both lie in week 1 of ISO year 2025. */
  lemma IsoWeekCrossesYearEnd()
    ensures IsoCalendar(2024, 12, 30) == IsoDate(2025, 1, 1)
    ensures IsoCalendar(2025, 1, 2) == IsoDate(2025, 1, 4)
  {
    assert DaysBeforeYear(2024) == 738885;
    assert DaysBeforeYear(2025) == 739251;
    assert DaysBeforeYear(2026) == 739616;
    assert DaysBeforeYear(2023) == 738520;
    assert IsoWeek1Monday(2024) == 738886;
    assert IsoWeek1Monday(2025) == 739250;
    assert IsoWeek1Monday(2026) == 739614;
    assert Ordinal(2024, 12, 30) == 739250;
    assert Ordinal(2025, 1, 2) == 739253;
  }
}
