/** The front end's timestamp and date-input helpers (`utils.js`): the
    `datetime-local` text of the current time, its conversion to the store's
    timestamp format, the default date ranges, and the fill-only-empty rule
    for datetime inputs. The clock is a parameter. */
module FormUtils {
  import opened Wrappers
  import opened Text
  import opened Calendar
  import opened Timestamps

  /** What a JavaScript `Date` reports through `getFullYear`, `getMonth`
      (0-based), `getDate`, `getHours` and `getMinutes`. */
  datatype LocalTime = LocalTime(year: int, monthIndex: int, date: int, hours: int, minutes: int)
  {
    predicate Valid() {
      && 0 <= monthIndex < 12 && 1 <= date <= DaysInMonth(year, monthIndex + 1)
      && 0 <= hours < 24 && 0 <= minutes < 60
    }
  }

  /** `String(n).padStart(2, '0')`. */
  function Pad2(n: nat): string {
    PadZeros(n, 2)
  }

  /** `getCurrentTimestamp()` for the clock reading `now`: the year as
      printed, then month (1-based), day, hours and minutes padded to two
      digits, in `datetime-local` form `YYYY-MM-DDTHH:MM`. */
  function CurrentTimestamp(now: LocalTime): (r: string)
    requires now.Valid()
    ensures 1000 <= now.year <= 9999 ==> |r| == 16 && r[10] == 'T'
  {
    var s := IntToString(now.year) + "-" + Pad2(now.monthIndex + 1) + "-" + Pad2(now.date)
             + "T" + Pad2(now.hours) + ":" + Pad2(now.minutes);
    if 1000 <= now.year <= 9999 then
      CurrentTimestampShape(now);
      s
    else s
  }

  /** `s` with its first `c` replaced by `d`: JavaScript's
      `s.replace(c, d)` with a string pattern. */
  function ReplaceFirst(s: string, c: char, d: char): (r: string)
    ensures |r| == |s|
    ensures IndexOf(s, c) < |s| ==> r == s[IndexOf(s, c) := d]
    ensures IndexOf(s, c) == |s| ==> r == s
  {
    var i := IndexOf(s, c);
    if i < |s| then s[i := d] else s
  }

  /** `toDbTimestamp(datetimeLocal)`: first `T` to a space, then `:00`. */
  function ToDbTimestamp(local: string): (r: string)
    ensures |r| == |local| + 3
    ensures r[|local|..] == ":00"
    ensures 'T' !in local ==> r == local + ":00"
  {
    if 'T' in local then ReplaceFirst(local, 'T', ' ') + ":00"
    else
      IndexOfAbsent(local, 'T');
      ReplaceFirst(local, 'T', ' ') + ":00"
  }

  // ---------------------------------------------------------------- properties

  lemma CurrentTimestampShape(now: LocalTime)
    requires now.Valid() && 1000 <= now.year <= 9999
    ensures IntToString(now.year) + "-" + Pad2(now.monthIndex + 1) + "-" + Pad2(now.date)
            + "T" + Pad2(now.hours) + ":" + Pad2(now.minutes)
            == DateText(now.year, now.monthIndex + 1, now.date, '-') + "T"
               + PadZeros(now.hours, 2) + ":" + PadZeros(now.minutes, 2)
    ensures |DateText(now.year, now.monthIndex + 1, now.date, '-')| == 10
    ensures |PadZeros(now.hours, 2)| == 2 && |PadZeros(now.minutes, 2)| == 2
  {
    assert Pow10(3) == 1000 && Pow10(4) == 10000 && Pow10(2) == 100;
    WideIsUnpadded(now.year, 4);
    PadZerosValue(now.year, 4);
    PadZerosValue(now.monthIndex + 1, 2);
    PadZerosValue(now.date, 2);
    PadZerosValue(now.hours, 2);
    PadZerosValue(now.minutes, 2);
  }

  /** A date-time text with a `T` between the date and a `T`-free time
      becomes date, space, time and `:00`. */
  lemma ToDbTimestampSplit(date: string, time: string)
    requires 'T' !in date
    ensures ToDbTimestamp(date + "T" + time) == date + " " + time + ":00"
  {
    IndexOfPrefix(date, 'T', time);
    var s := date + "T" + time;
    assert s[|date| := ' '] == date + " " + time;
  }

  /** `getCurrentTimestamp` is the store's date text, a `T`, and hours and
      minutes. */
  lemma CurrentTimestampParts(now: LocalTime)
    requires now.Valid() && 1000 <= now.year <= 9999
    ensures CurrentTimestamp(now) == DateText(now.year, now.monthIndex + 1, now.date, '-') + "T"
                                     + (PadZeros(now.hours, 2) + ":" + PadZeros(now.minutes, 2))
    ensures 'T' !in DateText(now.year, now.monthIndex + 1, now.date, '-')
  {
    CurrentTimestampShape(now);
    var date := DateText(now.year, now.monthIndex + 1, now.date, '-');
    assert forall i :: 0 <= i < |date| ==> date[i] != 'T' by {
      assert AllDigits(PadZeros(now.year, 4)) && AllDigits(PadZeros(now.monthIndex + 1, 2));
      assert AllDigits(PadZeros(now.date, 2));
    }
  }

  /** The clock text of a whole minute ends in `:00`. */
  lemma WholeMinute(h: nat, mi: nat)
    ensures ClockText(h, mi, 0) == PadZeros(h, 2) + ":" + PadZeros(mi, 2) + ":00"
  {
    assert PadZeros(0, 2) == "00";
  }

  /** The current time converted for the store is the store's canonical
      text of that minute: `getCurrentTimestamp` then `toDbTimestamp` gives
      `YYYY-MM-DD HH:MM:00`, which the server parses back to the same
      instant. */
  lemma CurrentTimestampForStore(now: LocalTime)
    requires now.Valid() && 1000 <= now.year <= 9999
    ensures ToDbTimestamp(CurrentTimestamp(now)) ==
            FormatDb(DateTime(now.year, now.monthIndex + 1, now.date, now.hours, now.minutes, 0))
    ensures Parse(ToDbTimestamp(CurrentTimestamp(now)), '-', " ") ==
            Some(DateTime(now.year, now.monthIndex + 1, now.date, now.hours, now.minutes, 0))
  {
    var dt := DateTime(now.year, now.monthIndex + 1, now.date, now.hours, now.minutes, 0);
    var date := DateText(now.year, now.monthIndex + 1, now.date, '-');
    var time := PadZeros(now.hours, 2) + ":" + PadZeros(now.minutes, 2);
    CurrentTimestampParts(now);
    ToDbTimestampSplit(date, time);
    WholeMinute(now.hours, now.minutes);
    assert date + " " + time + ":00" == date + " " + ClockText(now.hours, now.minutes, 0);
    ParseRender(dt, '-', " ");
  }

  // ---------------------------------------------------------------- date inputs

  /** The year the `Date` constructor uses: ECMAScript's MakeFullYear reads
      a year argument of 0 to 99 as 1900 to 1999. */
  function FullYear(year: int): int {
    if 0 <= year <= 99 then 1900 + year else year
  }

  /** `new Date(year, monthIndex + 1, 0).getDate()`: month `monthIndex + 1`
      (0-based) rolls over into January of the next year when it is 12, and
      day 0 of a month is the last day of the month before it, in the year
      the constructor makes of `year`. */
  function LastDayByRollover(year: int, monthIndex: int): (d: int)
    requires 0 <= monthIndex < 12
    ensures d == DaysInMonth(FullYear(year), monthIndex + 1)
  {
    var next := monthIndex + 1;
    var (y, m) := if next == 12 then (FullYear(year) + 1, 0) else (FullYear(year), next);
    if m == 0 then DaysInMonth(y - 1, 12) else DaysInMonth(y, m)
  }

  /** The constructor's two-digit years change the month's length only in
      February of year 0: 1900 is not a leap year, year 0 is, and 1901 to
      1999 are leap years exactly when 1 to 99 are. */
  lemma RolloverAgrees(year: int, monthIndex: int)
    requires 0 <= monthIndex < 12
    ensures LastDayByRollover(year, monthIndex) == DaysInMonth(year, monthIndex + 1) <==> !(year == 0 && monthIndex == 1)
    ensures LastDayByRollover(0, 1) == 28 && DaysInMonth(0, 2) == 29
  {
    if 1 <= year <= 99 {
      assert (1900 + year) % 4 == 0 <==> year % 4 == 0;
      assert (1900 + year) % 100 != 0 && year % 100 != 0;
    }
  }

  /** The four date inputs `initializeDateInputs` writes. */
  class DateInputs {
    var chartStart: string
    var chartEnd: string
    var summaryStart: string
    var summaryEnd: string

    constructor ()
      ensures chartStart == "" && chartEnd == "" && summaryStart == "" && summaryEnd == ""
    {
      chartStart, chartEnd, summaryStart, summaryEnd := "", "", "", "";
    }

    /** `initializeDateInputs()` for the clock reading `now`. */
    method Initialize(now: LocalTime)
      requires now.Valid()
      modifies this
      ensures chartStart == IntToString(now.year) + "-01-01"
      ensures chartEnd == IntToString(now.year) + "-12-31"
      ensures summaryStart == IntToString(now.year) + "-" + Pad2(now.monthIndex + 1) + "-01"
      ensures summaryEnd == IntToString(now.year) + "-" + Pad2(now.monthIndex + 1) + "-"
                            + IntToString(DaysInMonth(FullYear(now.year), now.monthIndex + 1))
    {
      var year := IntToString(now.year);
      var month := Pad2(now.monthIndex + 1);
      chartStart := year + "-01-01";
      chartEnd := year + "-12-31";
      var lastDay := LastDayByRollover(now.year, now.monthIndex);
      summaryStart := year + "-" + month + "-01";
      summaryEnd := year + "-" + month + "-" + IntToString(lastDay);
    }
  }

  /** For a four-digit year the inputs hold the dates of the first and last
      day of the year and of the month, in the store's date format (such a
      year is its own full year). */
  lemma DefaultRanges(now: LocalTime)
    requires now.Valid() && 1000 <= now.year <= 9999
    ensures IntToString(now.year) + "-01-01" == DateText(now.year, 1, 1, '-')
    ensures IntToString(now.year) + "-12-31" == DateText(now.year, 12, 31, '-')
    ensures IntToString(now.year) + "-" + Pad2(now.monthIndex + 1) + "-01" == DateText(now.year, now.monthIndex + 1, 1, '-')
    ensures IntToString(now.year) + "-" + Pad2(now.monthIndex + 1) + "-" + IntToString(DaysInMonth(FullYear(now.year), now.monthIndex + 1))
            == DateText(now.year, now.monthIndex + 1, DaysInMonth(now.year, now.monthIndex + 1), '-')
  {
    assert FullYear(now.year) == now.year;
    assert Pow10(3) == 1000 && Pow10(1) == 10;
    WideIsUnpadded(now.year, 4);
    var last := DaysInMonth(now.year, now.monthIndex + 1);
    WideIsUnpadded(last, 2);
    assert PadZeros(1, 2) == "01" && PadZeros(12, 2) == "12" && PadZeros(31, 2) == "31";
  }

  /** The summary range ends on the month's last day: the next day is the
      first of the next month (or of January of the next year). The one
      exception is February of year 0, whose range stops at the 28th. */
  lemma SummaryEndIsLastDay(now: LocalTime)
    requires now.Valid()
    ensures var m, last := now.monthIndex + 1, LastDayByRollover(now.year, now.monthIndex);
            && (m < 12 && !(now.year == 0 && m == 2) ==> Ordinal(now.year, m, last) + 1 == Ordinal(now.year, m + 1, 1))
            && (m == 12 ==> Ordinal(now.year, m, last) + 1 == Ordinal(now.year + 1, 1, 1))
            && (now.year == 0 && m == 2 ==> last == 28 && last < DaysInMonth(now.year, m))
  {
    RolloverAgrees(now.year, now.monthIndex);
    LastDayOfMonth(now.year, now.monthIndex + 1);
  }

  // ---------------------------------------------------------------- datetime inputs

  /** The input values after `setCurrentTimestamp`: every empty value takes
      `stamp`, every other value stays. */
  function FillEmpty(values: seq<string>, stamp: string): (r: seq<string>)
    ensures |r| == |values|
  {
    if values == [] then []
    else FillEmpty(values[..|values| - 1], stamp) + [if values[|values| - 1] == "" then stamp else values[|values| - 1]]
  }

  lemma {:induction false} FillEmptyElements(values: seq<string>, stamp: string)
    ensures forall i :: 0 <= i < |values| ==>
              FillEmpty(values, stamp)[i] == if values[i] == "" then stamp else values[i]
  {
    if values != [] {
      FillEmptyElements(values[..|values| - 1], stamp);
    }
  }

  /** Filled-in values are never empty, and filling again changes nothing. */
  lemma FillEmptyIdempotent(values: seq<string>, stamp: string)
    requires stamp != ""
    ensures forall i :: 0 <= i < |values| ==> FillEmpty(values, stamp)[i] != ""
    ensures FillEmpty(FillEmpty(values, stamp), stamp) == FillEmpty(values, stamp)
  {
    var once := FillEmpty(values, stamp);
    FillEmptyElements(values, stamp);
    FillEmptyElements(once, stamp);
  }

  /** The loop of `setCurrentTimestamp`: write `stamp` into each empty
      value. */
  method FillEmptyInPlace(inputs: array<string>, stamp: string)
    modifies inputs
    ensures inputs[..] == FillEmpty(old(inputs[..]), stamp)
  {
    ghost var before := inputs[..];
    FillEmptyElements(before, stamp);
    var i := 0;
    while i < inputs.Length
      invariant 0 <= i <= inputs.Length
      invariant forall k :: 0 <= k < i ==> inputs[k] == FillEmpty(before, stamp)[k]
      invariant forall k :: i <= k < inputs.Length ==> inputs[k] == before[k]
    {
      if inputs[i] == "" {
        inputs[i] := stamp;
      }
      i := i + 1;
    }
  }

  /** `setCurrentTimestamp()`: one timestamp for the clock reading `now`,
      written into each datetime input whose value is empty. */
  method SetCurrentTimestamp(inputs: array<string>, now: LocalTime)
    requires now.Valid()
    modifies inputs
    ensures inputs[..] == FillEmpty(old(inputs[..]), CurrentTimestamp(now))
  {
    var stamp := CurrentTimestamp(now);
    FillEmptyInPlace(inputs, stamp);
  }
}
