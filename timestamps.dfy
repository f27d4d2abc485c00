/** The fixed-width timestamp texts the system reads and writes:
    `%Y-%m-%d %H:%M:%S` (the store's format), `%Y/%m/%d  %H:%M:%S` and
    `%Y/%m/%d %H:%M:%S` (the CSV exports), `%Y-%m-%d` and `%Y/%m/%d` (dates),
    with parsing, rendering, and the fact that makes the store's string
    comparisons meaningful: canonical texts order as the instants do. */
module Timestamps {
  import opened Wrappers
  import opened Text
  import opened Calendar

  /** `strftime` of a date: four-digit year, two-digit month and day. */
  function DateText(y: nat, m: nat, d: nat, sep: char): string {
    PadZeros(y, 4) + [sep] + PadZeros(m, 2) + [sep] + PadZeros(d, 2)
  }

  /** `strftime('%H:%M:%S')`. */
  function ClockText(h: nat, mi: nat, s: nat): string {
    PadZeros(h, 2) + ":" + PadZeros(mi, 2) + ":" + PadZeros(s, 2)
  }

  /** `strftime` of a date-time whose date separator is `sep` and whose date
      and time are joined by `gap`. */
  function Render(dt: DateTime, sep: char, gap: string): string
    requires dt.Valid()
  {
    DateText(dt.year, dt.month, dt.day, sep) + gap + ClockText(dt.hour, dt.minute, dt.second)
  }

  /** `strftime('%Y-%m-%d %H:%M:%S')`, the store's timestamp format. */
  function FormatDb(dt: DateTime): string
    requires dt.Valid()
  {
    Render(dt, '-', " ")
  }

  /** `strptime(s, fmt)` for the fixed-width format `Render` writes: every
      field has its full width, the separators are where `Render` puts them,
      and the fields form a real date and time. */
  function Parse(s: string, sep: char, gap: string): (r: Option<DateTime>)
    ensures r.Some? ==> r.value.Valid()
  {
    var g := |gap|;
    if |s| != 18 + g then None
    else if s[4] != sep || s[7] != sep || s[10..10 + g] != gap || s[12 + g] != ':' || s[15 + g] != ':' then None
    else
      var dt := DateTime(ParseNat(s[..4]), ParseNat(s[5..7]), ParseNat(s[8..10]),
                         ParseNat(s[10 + g..12 + g]), ParseNat(s[13 + g..15 + g]), ParseNat(s[16 + g..]));
      if dt.Valid() then Some(dt) else None
  }

  // ---------------------------------------------------------------- lengths and slices

  lemma FieldWidths(dt: DateTime)
    requires dt.Valid()
    ensures |PadZeros(dt.year, 4)| == 4 && |PadZeros(dt.month, 2)| == 2 && |PadZeros(dt.day, 2)| == 2
    ensures |PadZeros(dt.hour, 2)| == 2 && |PadZeros(dt.minute, 2)| == 2 && |PadZeros(dt.second, 2)| == 2
  {
    assert Pow10(2) == 100 && Pow10(4) == 10000;
    PadZerosValue(dt.year, 4);
    PadZerosValue(dt.month, 2);
    PadZerosValue(dt.day, 2);
    PadZerosValue(dt.hour, 2);
    PadZerosValue(dt.minute, 2);
    PadZerosValue(dt.second, 2);
  }

  /** Where each field of a rendered date-time sits. */
  lemma RenderSlices(dt: DateTime, sep: char, gap: string)
    requires dt.Valid()
    ensures var s, g := Render(dt, sep, gap), |gap|;
            && |s| == 18 + g
            && s[..4] == PadZeros(dt.year, 4) && s[4] == sep && s[5..7] == PadZeros(dt.month, 2)
            && s[7] == sep && s[8..10] == PadZeros(dt.day, 2) && s[10..10 + g] == gap
            && s[10 + g..12 + g] == PadZeros(dt.hour, 2) && s[12 + g] == ':'
            && s[13 + g..15 + g] == PadZeros(dt.minute, 2) && s[15 + g] == ':'
            && s[16 + g..] == PadZeros(dt.second, 2)
  {
    FieldWidths(dt);
    var date := DateText(dt.year, dt.month, dt.day, sep);
    var clock := ClockText(dt.hour, dt.minute, dt.second);
    var s := Render(dt, sep, gap);
    assert s == date + gap + clock;
    assert |date| == 10 && |clock| == 8;
    assert s[..10] == date;
    assert s[10..10 + |gap|] == gap;
    assert s[10 + |gap|..] == clock;
    assert date[..4] == PadZeros(dt.year, 4);
    assert date[5..7] == PadZeros(dt.month, 2);
    assert date[8..10] == PadZeros(dt.day, 2);
    assert clock[..2] == PadZeros(dt.hour, 2);
    assert clock[3..5] == PadZeros(dt.minute, 2);
    assert clock[6..] == PadZeros(dt.second, 2);
  }

  // ---------------------------------------------------------------- round trips

  /** Parsing what was rendered gives the date-time back. */
  lemma ParseRender(dt: DateTime, sep: char, gap: string)
    requires dt.Valid()
    ensures Parse(Render(dt, sep, gap), sep, gap) == Some(dt)
  {
    RenderSlices(dt, sep, gap);
    PadZerosParse(dt.year, 4);
    PadZerosParse(dt.month, 2);
    PadZerosParse(dt.day, 2);
    PadZerosParse(dt.hour, 2);
    PadZerosParse(dt.minute, 2);
    PadZerosParse(dt.second, 2);
  }

  /** Two texts of the format's length that agree on every field and every
      separator are equal. */
  lemma SameFields(r: string, s: string, g: nat)
    requires |r| == |s| == 18 + g
    requires r[..4] == s[..4] && r[4] == s[4] && r[5..7] == s[5..7] && r[7] == s[7]
    requires r[8..10] == s[8..10] && r[10..10 + g] == s[10..10 + g]
    requires r[10 + g..12 + g] == s[10 + g..12 + g] && r[12 + g] == s[12 + g]
    requires r[13 + g..15 + g] == s[13 + g..15 + g] && r[15 + g] == s[15 + g] && r[16 + g..] == s[16 + g..]
    ensures r == s
  {
    forall i | 0 <= i < |s| ensures r[i] == s[i] {
      if i < 4 { assert r[i] == r[..4][i] && s[i] == s[..4][i]; }
      else if 5 <= i < 7 { assert r[i] == r[5..7][i - 5] && s[i] == s[5..7][i - 5]; }
      else if 8 <= i < 10 { assert r[i] == r[8..10][i - 8] && s[i] == s[8..10][i - 8]; }
      else if 10 <= i < 10 + g { assert r[i] == r[10..10 + g][i - 10] && s[i] == s[10..10 + g][i - 10]; }
      else if 10 + g <= i < 12 + g { assert r[i] == r[10 + g..12 + g][i - 10 - g] && s[i] == s[10 + g..12 + g][i - 10 - g]; }
      else if 13 + g <= i < 15 + g { assert r[i] == r[13 + g..15 + g][i - 13 - g] && s[i] == s[13 + g..15 + g][i - 13 - g]; }
      else if 16 + g <= i { assert r[i] == r[16 + g..][i - 16 - g] && s[i] == s[16 + g..][i - 16 - g]; }
    }
  }

  /** The store's text of a date-time has 19 characters and reads back. */
  lemma FormatDbShape(dt: DateTime)
    requires dt.Valid()
    ensures |FormatDb(dt)| == 19 && Parse(FormatDb(dt), '-', " ") == Some(dt)
  {
    RenderSlices(dt, '-', " ");
    ParseRender(dt, '-', " ");
  }

  /** A text that parses is exactly the rendering of what it parses to: the
      format has a single spelling of each instant. */
  lemma RenderParse(s: string, sep: char, gap: string)
    requires Parse(s, sep, gap).Some?
    ensures Render(Parse(s, sep, gap).value, sep, gap) == s
  {
    var g := |gap|;
    var dt := Parse(s, sep, gap).value;
    PadZerosOfDigits(s[..4]);
    PadZerosOfDigits(s[5..7]);
    PadZerosOfDigits(s[8..10]);
    PadZerosOfDigits(s[10 + g..12 + g]);
    PadZerosOfDigits(s[13 + g..15 + g]);
    PadZerosOfDigits(s[16 + g..]);
    RenderSlices(dt, sep, gap);
    SameFields(Render(dt, sep, gap), s, g);
  }

  // ---------------------------------------------------------------- order

  /** Appending equal-length texts: order by the first parts, then the second. */
  lemma AppendOrder(a1: string, a2: string, b1: string, b2: string)
    requires |a1| == |b1|
    ensures LexLess(a1 + a2, b1 + b2) <==> LexLess(a1, b1) || (a1 == b1 && LexLess(a2, b2))
    ensures a1 + a2 == b1 + b2 <==> a1 == b1 && a2 == b2
  {
    LexLessConcat(a1, a2, b1, b2);
    if a1 + a2 == b1 + b2 {
      assert a1 == (a1 + a2)[..|a1|] && b1 == (b1 + b2)[..|b1|];
      assert a2 == (a1 + a2)[|a1|..] && b2 == (b1 + b2)[|b1|..];
    }
  }

  /** Appending a padded field of fixed width. */
  lemma FieldOrder(a: string, b: string, n: nat, m: nat, w: nat)
    requires |a| == |b| && 1 <= w && n < Pow10(w) && m < Pow10(w)
    ensures LexLess(a + PadZeros(n, w), b + PadZeros(m, w)) <==> LexLess(a, b) || (a == b && n < m)
    ensures a + PadZeros(n, w) == b + PadZeros(m, w) <==> a == b && n == m
  {
    AppendOrder(a, PadZeros(n, w), b, PadZeros(m, w));
    PadZerosOrder(n, m, w);
    PadZerosValue(n, w);
    PadZerosValue(m, w);
  }

  /** Appending the same separator. */
  lemma SeparatorOrder(a: string, b: string, c: string)
    requires |a| == |b|
    ensures LexLess(a + c, b + c) <==> LexLess(a, b)
    ensures a + c == b + c <==> a == b
  {
    AppendOrder(a, c, b, c);
    LexLessIrreflexive(c);
  }

  /** Dates in the text order as they do in the calendar. */
  lemma DateTextOrder(a: DateTime, b: DateTime, sep: char)
    requires a.Valid() && b.Valid()
    ensures var ta, tb := DateText(a.year, a.month, a.day, sep), DateText(b.year, b.month, b.day, sep);
            && (LexLess(ta, tb) <==> a.year < b.year || (a.year == b.year && (a.month < b.month || (a.month == b.month && a.day < b.day))))
            && (ta == tb <==> a.year == b.year && a.month == b.month && a.day == b.day)
            && |ta| == 10 && |tb| == 10
  {
    FieldWidths(a);
    FieldWidths(b);
    assert Pow10(2) == 100 && Pow10(4) == 10000;
    var ya, yb := PadZeros(a.year, 4), PadZeros(b.year, 4);
    FieldOrder([], [], a.year, b.year, 4);
    assert [] + ya == ya && [] + yb == yb;
    SeparatorOrder(ya, yb, [sep]);
    FieldOrder(ya + [sep], yb + [sep], a.month, b.month, 2);
    var ma, mb := ya + [sep] + PadZeros(a.month, 2), yb + [sep] + PadZeros(b.month, 2);
    SeparatorOrder(ma, mb, [sep]);
    FieldOrder(ma + [sep], mb + [sep], a.day, b.day, 2);
  }

  /** Times of day in the text order as they do on the clock. */
  lemma ClockTextOrder(a: DateTime, b: DateTime)
    requires a.Valid() && b.Valid()
    ensures var ta, tb := ClockText(a.hour, a.minute, a.second), ClockText(b.hour, b.minute, b.second);
            && (LexLess(ta, tb) <==> a.hour < b.hour || (a.hour == b.hour && (a.minute < b.minute || (a.minute == b.minute && a.second < b.second))))
            && (ta == tb <==> a.hour == b.hour && a.minute == b.minute && a.second == b.second)
            && |ta| == 8 && |tb| == 8
  {
    FieldWidths(a);
    FieldWidths(b);
    assert Pow10(2) == 100;
    var ha, hb := PadZeros(a.hour, 2), PadZeros(b.hour, 2);
    FieldOrder([], [], a.hour, b.hour, 2);
    assert [] + ha == ha && [] + hb == hb;
    SeparatorOrder(ha, hb, ":");
    FieldOrder(ha + ":", hb + ":", a.minute, b.minute, 2);
    var ma, mb := ha + ":" + PadZeros(a.minute, 2), hb + ":" + PadZeros(b.minute, 2);
    SeparatorOrder(ma, mb, ":");
    FieldOrder(ma + ":", mb + ":", a.second, b.second, 2);
  }

  /** The store compares timestamps as strings (`BETWEEN`, `ORDER BY`, `<=`):
      on canonical texts that is the chronological order of Python's
      `datetime` comparison. */
  lemma FormatDbOrder(a: DateTime, b: DateTime)
    requires a.Valid() && b.Valid()
    ensures LexLess(FormatDb(a), FormatDb(b)) <==> Before(a, b)
    ensures FormatDb(a) == FormatDb(b) <==> a == b
  {
    var da, db := DateText(a.year, a.month, a.day, '-'), DateText(b.year, b.month, b.day, '-');
    var ca, cb := ClockText(a.hour, a.minute, a.second), ClockText(b.hour, b.minute, b.second);
    DateTextOrder(a, b, '-');
    ClockTextOrder(a, b);
    SeparatorOrder(da, db, " ");
    AppendOrder(da + " ", ca, db + " ", cb);
  }

  /** `timestamp >= start_date` with a bare date `YYYY-MM-DD`: the timestamp
      is at or after midnight of that date. */
  lemma StartDateBound(t: DateTime, y: int, m: int, d: int)
    requires t.Valid() && ValidDate(y, m, d)
    ensures !LexLess(FormatDb(t), DateText(y, m, d, '-')) <==> AtOrBefore(StartOfDay(y, m, d), t)
  {
    var s := StartOfDay(y, m, d);
    var dt, ds := DateText(t.year, t.month, t.day, '-'), DateText(y, m, d, '-');
    DateTextOrder(t, s, '-');
    DateTextOrder(s, t, '-');
    assert FormatDb(t) == dt + (" " + ClockText(t.hour, t.minute, t.second));
    assert ds + [] == ds;
    AppendOrder(dt, " " + ClockText(t.hour, t.minute, t.second), ds, []);
  }

  /** Python's comparison of date-times is total. */
  lemma BeforeTotal(a: DateTime, b: DateTime)
    ensures Before(a, b) || a == b || Before(b, a)
  {
  }

  lemma LastSecondText()
    ensures ClockText(23, 59, 59) == "23:59:59"
  {
    assert PadZeros(23, 2) == "23" && PadZeros(59, 2) == "59";
  }

  /** `end_date + ' 23:59:59'` is the canonical text of the last second of
      that day, so `timestamp <= end_date + ' 23:59:59'` keeps the whole day. */
  lemma EndDateBound(t: DateTime, y: int, m: int, d: int)
    requires t.Valid() && ValidDate(y, m, d)
    ensures DateText(y, m, d, '-') + " 23:59:59" == FormatDb(EndOfDay(y, m, d))
    ensures !LexLess(DateText(y, m, d, '-') + " 23:59:59", FormatDb(t)) <==> AtOrBefore(t, EndOfDay(y, m, d))
  {
    var e := EndOfDay(y, m, d);
    LastSecondText();
    assert FormatDb(e) == DateText(y, m, d, '-') + " " + "23:59:59";
    FormatDbOrder(e, t);
    BeforeTotal(e, t);
  }
}
