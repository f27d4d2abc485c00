/** The dashboard summary (`handle_get_summary`): one record per intake in
    the requested date range, in timestamp order, correlating it with the
    nearest insulin dose, the glucose level before it, the average glucose
    around each of the twelve following hours and the events of the next
    twelve hours. Every query is a filter or a minimum over the tables. */
module Summary {
  import opened Wrappers
  import opened Text
  import opened Calendar
  import opened Timestamps
  import opened Rounding
  import opened Readings
  import opened Grouping
  import opened Sorting
  import opened Tables
  import opened TimeWeighted

  // ---------------------------------------------------------------- the intakes

  /** A row of `SELECT i.timestamp, i.nutrition_kcal, n.nutrition_name`. */
  datatype Joined = Joined(time: DateTime, kcal: real, name: string)

  /** `FROM intake i JOIN nutrition n ON i.nutrition_id = n.id`: an intake
      whose nutrition row is missing drops out. */
  function JoinNutrition(intakes: seq<IntakeRow>, nutrition: seq<NutritionRow>): (js: seq<Joined>)
    ensures |js| <= |intakes|
  {
    if intakes == [] then []
    else
      var js := JoinNutrition(intakes[..|intakes| - 1], nutrition);
      var i := intakes[|intakes| - 1];
      match FindNutrition(nutrition, i.nutritionId)
      case None => js
      case Some(n) => js + [Joined(i.time, i.kcal, n.name)]
  }

  /** `WHERE i.timestamp BETWEEN ? AND ?` with `start_date` and
      `end_date + ' 23:59:59'`, compared as the stored texts. */
  predicate InRange(t: DateTime, start: string, end: string) {
    t.Valid() && !LexLess(FormatDb(t), start) && !LexLess(end + " 23:59:59", FormatDb(t))
  }

  function JoinedKey(j: Joined): int {
    Instant(j.time)
  }

  /** The intake query: join, range filter, `ORDER BY i.timestamp`. */
  function SelectIntakes(intakes: seq<IntakeRow>, nutrition: seq<NutritionRow>, start: string, end: string): seq<Joined> {
    SortBy(Filter(JoinNutrition(intakes, nutrition), (j: Joined) => InRange(j.time, start, end)), JoinedKey)
  }

  // ---------------------------------------------------------------- the per-intake queries

  /** `ABS(julianday(timestamp) - julianday(?))`, in seconds. */
  function Distance(t: DateTime, at: int): nat {
    if Instant(t) >= at then Instant(t) - at else at - Instant(t)
  }

  /** `ORDER BY time_diff ASC LIMIT 1`: a dose nearest in time, before or
      after; the order among equally near doses is left open. */
  function NearestInsulin(insulin: seq<InsulinRow>, at: int): (r: Option<InsulinRow>)
    ensures r.None? <==> insulin == []
    ensures r.Some? ==> r.value in insulin
    ensures r.Some? ==> forall x :: x in insulin ==> Distance(r.value.time, at) <= Distance(x.time, at)
  {
    if insulin == [] then None
    else
      var init, last := insulin[..|insulin| - 1], insulin[|insulin| - 1];
      assert insulin == init + [last];
      var r := NearestInsulin(init, at);
      if r.Some? && Distance(r.value.time, at) <= Distance(last.time, at) then r else Some(last)
  }

  /** `WHERE timestamp <= ? ORDER BY timestamp DESC LIMIT 1`: a latest
      reading at or before the intake. */
  function LatestAtOrBefore(glucose: seq<Reading>, at: int): (r: Option<Reading>)
    ensures r.None? <==> forall x :: x in glucose ==> Instant(x.time) > at
    ensures r.Some? ==> r.value in glucose && Instant(r.value.time) <= at
    ensures r.Some? ==> forall x :: x in glucose && Instant(x.time) <= at ==> Instant(x.time) <= Instant(r.value.time)
  {
    if glucose == [] then None
    else
      var init, last := glucose[..|glucose| - 1], glucose[|glucose| - 1];
      assert glucose == init + [last];
      var r := LatestAtOrBefore(init, at);
      if Instant(last.time) > at || (r.Some? && Instant(last.time) <= Instant(r.value.time)) then r else Some(last)
  }

  /** `WHERE timestamp BETWEEN lo AND hi`: a closed window. */
  function InWindow(glucose: seq<Reading>, lo: int, hi: int): seq<Reading> {
    Filter(glucose, (g: Reading) => lo <= Instant(g.time) <= hi)
  }

  function LevelSum(rs: seq<Reading>): int {
    if rs == [] then 0 else LevelSum(rs[..|rs| - 1]) + rs[|rs| - 1].level
  }

  /** `AVG(level)`: `NULL` over no rows. */
  function Average(rs: seq<Reading>): (a: Option<real>)
    ensures a.None? <==> rs == []
  {
    if rs == [] then None else Some(LevelSum(rs) as real / |rs| as real)
  }

  /** The window of hour `h`: thirty minutes either side of `h` hours after
      the intake. */
  function HourWindow(glucose: seq<Reading>, at: int, h: int): seq<Reading> {
    InWindow(glucose, at + 3600 * h - 1800, at + 3600 * h + 1800)
  }

  /** `round(avg, 1) if avg else None`: an average of zero is falsy. */
  function HourlyMean(glucose: seq<Reading>, at: int, h: int): Option<real> {
    match Average(HourWindow(glucose, at, h))
    case None => None
    case Some(a) => if a == 0.0 then None else Some(Round1(a))
  }

  function EventKey(e: EventRow): int {
    Instant(e.time)
  }

  /** `WHERE timestamp BETWEEN intake_time AND end_time ORDER BY timestamp`,
      `end_time` twelve hours after the intake. */
  function EventsWithin(events: seq<EventRow>, at: int): seq<EventRow> {
    SortBy(Filter(events, (e: EventRow) => at <= Instant(e.time) <= at + 43200), EventKey)
  }

  function Names(es: seq<EventRow>): (ns: seq<string>)
    ensures |ns| == |es| && forall i :: 0 <= i < |es| ==> ns[i] == es[i].name
  {
    if es == [] then [] else Names(es[..|es| - 1]) + [es[|es| - 1].name]
  }

  /** `', '.join(...) if events else ''`. */
  function GroupedEvents(events: seq<EventRow>, at: int): string {
    Join(Names(EventsWithin(events, at)), ", ")
  }

  // ---------------------------------------------------------------- the record

  // ---------------------------------------------------------------- datetime.max

  /** The last whole second of `datetime.max` (9999-12-31 23:59:59.999999):
      adding a `timedelta` that passes it raises `OverflowError`. */
  const LastSecond := DateTime(9999, 12, 31, 23, 59, 59)

  /** The instant of `LastSecond` (`HoursFitBoundary` shows it is). */
  const MaxInstant: int := 315537983999

  /** The twelve hourly windows stay within `datetime.max`: the last one
      ends twelve and a half hours after the intake. */
  predicate HoursFit(at: int) {
    at + 3600 * 12 + 1800 <= MaxInstant
  }

  /** The latest intake time whose summary can be computed. */
  const LastSummarizable := DateTime(9999, 12, 31, 11, 29, 59)

  /** Some selected intake makes `handle_get_summary` raise. */
  predicate SummaryOverflows(sel: seq<Joined>) {
    exists i :: 0 <= i < |sel| && !HoursFit(Instant(sel[i].time))
  }

  /** `glucose_levels`: `before`, then `+1hr` .. `+12hr` at `hourly[0..11]`. */
  datatype GlucoseLevels = GlucoseLevels(before: Option<int>, hourly: seq<Option<real>>)

  function BeforeLevel(glucose: seq<Reading>, at: int): Option<int> {
    match LatestAtOrBefore(glucose, at)
    case None => None
    case Some(g) => Some(g.level)
  }

  function LevelsAround(glucose: seq<Reading>, at: int): (gl: GlucoseLevels)
    ensures |gl.hourly| == 12
    ensures forall h :: 1 <= h <= 12 ==> gl.hourly[h - 1] == HourlyMean(glucose, at, h)
  {
    GlucoseLevels(BeforeLevel(glucose, at), seq(12, k => HourlyMean(glucose, at, k + 1)))
  }

  /** The `before` query and the loop over `range(1, 13)`; `None` is the
      `OverflowError` of an hour whose window passes `datetime.max`. */
  method GetGlucoseLevels(glucose: seq<Reading>, at: int) returns (gl: Option<GlucoseLevels>)
    ensures gl.None? <==> !HoursFit(at)
    ensures gl.Some? ==> gl.value == LevelsAround(glucose, at)
  {
    var before := BeforeLevel(glucose, at);
    var hourly: seq<Option<real>> := [];
    var hour := 1;
    while hour < 13
      invariant 1 <= hour <= 13
      invariant |hourly| == hour - 1
      invariant forall h :: 1 <= h < hour ==> hourly[h - 1] == HourlyMean(glucose, at, h)
      invariant hour > 1 ==> at + 3600 * (hour - 1) + 1800 <= MaxInstant
    {
      // `intake_dt + timedelta(hours=hour)` and the window's end raise once past the last second
      if at + 3600 * hour + 1800 > MaxInstant {
        return None;
      }
      var w := InWindow(glucose, at + 3600 * hour - 1800, at + 3600 * hour + 1800);
      var avg := Average(w);
      var level := if avg.Some? && avg.value != 0.0 then Some(Round1(avg.value)) else None;
      hourly := hourly + [level];
      hour := hour + 1;
    }
    gl := Some(GlucoseLevels(before, hourly));
    assert hourly == LevelsAround(glucose, at).hourly;
  }

  /** One element of `summary_data`. */
  datatype SummaryRow = SummaryRow(amPm: string, date: string, doseTime: Option<string>, intakeTime: string,
                                   dosage: Option<real>, nutrition: string, glucoseLevels: GlucoseLevels,
                                   kcalIntake: real, groupedEvents: string)

  /** `'AM' if intake_dt.hour < 12 else 'PM'`. */
  function AmPm(t: DateTime): string {
    if t.hour < 12 then "AM" else "PM"
  }

  predicate InsulinValid(insulin: seq<InsulinRow>) {
    forall x :: x in insulin ==> x.time.Valid()
  }

  /** `insulin_row[0] if insulin_row else None`: the dose's stored text. */
  function DoseTime(insulin: seq<InsulinRow>, at: int): Option<string>
    requires InsulinValid(insulin)
  {
    match NearestInsulin(insulin, at)
    case None => None
    case Some(x) => Some(FormatDb(x.time))
  }

  /** `insulin_row[1] if insulin_row else None`. */
  function Dosage(insulin: seq<InsulinRow>, at: int): Option<real> {
    match NearestInsulin(insulin, at)
    case None => None
    case Some(x) => Some(x.level)
  }

  /** `intake_dt.strftime('%Y-%m-%d')`. */
  function DateOf(t: DateTime): string
    requires t.Valid()
  {
    DateText(t.year, t.month, t.day, '-')
  }

  /** The record of one intake. */
  function SummaryOf(j: Joined, glucose: seq<Reading>, insulin: seq<InsulinRow>, events: seq<EventRow>): SummaryRow
    requires j.time.Valid() && InsulinValid(insulin)
  {
    SummaryRow(AmPm(j.time), DateOf(j.time), DoseTime(insulin, Instant(j.time)), FormatDb(j.time),
               Dosage(insulin, Instant(j.time)), j.name, LevelsAround(glucose, Instant(j.time)),
               j.kcal, GroupedEvents(events, Instant(j.time)))
  }

  /** `rows` holds, in order, the record of each intake of `sel`. */
  predicate Summarizes(rows: seq<SummaryRow>, sel: seq<Joined>, glucose: seq<Reading>, insulin: seq<InsulinRow>, events: seq<EventRow>)
    requires InsulinValid(insulin)
  {
    |rows| == |sel| &&
    forall i :: 0 <= i < |sel| ==> sel[i].time.Valid() && rows[i] == SummaryOf(sel[i], glucose, insulin, events)
  }

  /** `handle_get_summary(start_date, end_date)` on the tables; `None` is
      the `OverflowError` that leaves the request without a response. */
  method GetSummary(glucose: seq<Reading>, insulin: seq<InsulinRow>, nutrition: seq<NutritionRow>,
                    intakes: seq<IntakeRow>, events: seq<EventRow>, start: string, end: string)
    returns (summary: Option<seq<SummaryRow>>)
    requires InsulinValid(insulin)
    ensures summary.None? <==> SummaryOverflows(SelectIntakes(intakes, nutrition, start, end))
    ensures summary.Some? ==> Summarizes(summary.value, SelectIntakes(intakes, nutrition, start, end), glucose, insulin, events)
  {
    var sel := SelectIntakes(intakes, nutrition, start, end);
    SelectedValid(intakes, nutrition, start, end);
    summary := GetRecords(sel, glucose, insulin, events);
  }

  /** The loop over the selected intakes, appending one record each; the
      first intake whose record raises ends the request. */
  method GetRecords(sel: seq<Joined>, glucose: seq<Reading>, insulin: seq<InsulinRow>, events: seq<EventRow>)
    returns (summary: Option<seq<SummaryRow>>)
    requires InsulinValid(insulin)
    requires forall i :: 0 <= i < |sel| ==> sel[i].time.Valid()
    ensures summary.None? <==> SummaryOverflows(sel)
    ensures summary.Some? ==> Summarizes(summary.value, sel, glucose, insulin, events)
  {
    var rows := [];
    var i := 0;
    while i < |sel|
      invariant 0 <= i <= |sel|
      invariant Summarizes(rows, sel[..i], glucose, insulin, events)
      invariant !SummaryOverflows(sel[..i])
    {
      var row := GetRecord(sel[i], glucose, insulin, events);
      if row.None? {
        OverflowsAt(sel, i);
        return None;
      }
      FitsSnoc(sel, i);
      SummarizesSnoc(rows, sel[..i], row.value, sel[i], glucose, insulin, events);
      TakeSnoc(sel, i);
      rows := rows + [row.value];
      i := i + 1;
    }
    assert sel[..i] == sel;
    summary := Some(rows);
  }

  lemma OverflowsAt(sel: seq<Joined>, i: nat)
    requires i < |sel| && !HoursFit(Instant(sel[i].time))
    ensures SummaryOverflows(sel)
  {
  }

  lemma FitsSnoc(sel: seq<Joined>, i: nat)
    requires i < |sel| && !SummaryOverflows(sel[..i]) && HoursFit(Instant(sel[i].time))
    ensures !SummaryOverflows(sel[..i + 1])
  {
    var p, q := sel[..i], sel[..i + 1];
    forall k | 0 <= k < |q| ensures HoursFit(Instant(q[k].time)) {
      if k < i {
        assert q[k] == p[k];
      }
    }
  }

  lemma SummarizesSnoc(rows: seq<SummaryRow>, sel: seq<Joined>, row: SummaryRow, j: Joined,
                       glucose: seq<Reading>, insulin: seq<InsulinRow>, events: seq<EventRow>)
    requires InsulinValid(insulin) && Summarizes(rows, sel, glucose, insulin, events)
    requires j.time.Valid() && row == SummaryOf(j, glucose, insulin, events)
    ensures Summarizes(rows + [row], sel + [j], glucose, insulin, events)
  {
    var rs, ss := rows + [row], sel + [j];
    forall k | 0 <= k < |ss| ensures ss[k].time.Valid() && rs[k] == SummaryOf(ss[k], glucose, insulin, events) {
      if k < |sel| {
        assert ss[k] == sel[k] && rs[k] == rows[k];
      }
    }
  }

  /** The body of the loop over the intakes: the queries for one intake
      and the dictionary appended to `summary_data`. */
  method GetRecord(j: Joined, glucose: seq<Reading>, insulin: seq<InsulinRow>, events: seq<EventRow>)
    returns (row: Option<SummaryRow>)
    requires j.time.Valid() && InsulinValid(insulin)
    ensures row.None? <==> !HoursFit(Instant(j.time))
    ensures row.Some? ==> row.value == SummaryOf(j, glucose, insulin, events)
  {
    var at := Instant(j.time);
    var dose := NearestInsulin(insulin, at);
    var doseTime, dosage := None, None;
    if dose.Some? {
      doseTime, dosage := Some(FormatDb(dose.value.time)), Some(dose.value.level);
    }
    var levels := GetGlucoseLevels(glucose, at);
    if levels.None? {
      return None;
    }
    // `intake_dt + timedelta(hours=12)` cannot raise once the hourly windows fit
    assert at + 43200 <= MaxInstant;
    var grouped := GroupedEvents(events, at);
    row := Some(SummaryRow(AmPm(j.time), DateOf(j.time), doseTime, FormatDb(j.time), dosage, j.name, levels.value, j.kcal, grouped));
  }

  // ---------------------------------------------------------------- properties

  /** Every selected intake has a valid timestamp (it passed the range
      test). */
  lemma SelectedValid(intakes: seq<IntakeRow>, nutrition: seq<NutritionRow>, start: string, end: string)
    ensures forall j :: j in SelectIntakes(intakes, nutrition, start, end) ==> InRange(j.time, start, end)
    ensures var sel := SelectIntakes(intakes, nutrition, start, end);
            forall i :: 0 <= i < |sel| ==> sel[i].time.Valid()
  {
    var f := Filter(JoinNutrition(intakes, nutrition), (j: Joined) => InRange(j.time, start, end));
    var sel := SortBy(f, JoinedKey);
    assert forall j :: j in sel <==> j in f by {
      forall j ensures j in sel <==> j in f {
        assert j in sel <==> j in multiset(sel);
      }
    }
    forall i | 0 <= i < |sel| ensures sel[i].time.Valid() {
      assert sel[i] in sel;
    }
  }

  /** The join pairs each intake with the nutrition row of its id. */
  lemma {:induction false} JoinNutritionMembers(intakes: seq<IntakeRow>, nutrition: seq<NutritionRow>)
    requires UniqueIds(nutrition)
    ensures forall x :: x in JoinNutrition(intakes, nutrition) <==>
              exists i, n :: i in intakes && n in nutrition && n.id == i.nutritionId && x == Joined(i.time, i.kcal, n.name)
  {
    if intakes != [] {
      var init, last := intakes[..|intakes| - 1], intakes[|intakes| - 1];
      assert intakes == init + [last];
      JoinNutritionMembers(init, nutrition);
      forall n | n in nutrition && n.id == last.nutritionId ensures FindNutrition(nutrition, last.nutritionId) == Some(n) {
        FindUnique(nutrition, n);
      }
    }
  }

  /** When every intake has its nutrition row, the join keeps every intake,
      in table order. */
  lemma {:induction false} JoinNutritionKeepsAll(intakes: seq<IntakeRow>, nutrition: seq<NutritionRow>)
    requires forall k :: 0 <= k < |intakes| ==> FindNutrition(nutrition, intakes[k].nutritionId).Some?
    ensures |JoinNutrition(intakes, nutrition)| == |intakes|
    ensures forall k :: 0 <= k < |intakes| ==>
              JoinNutrition(intakes, nutrition)[k] ==
              Joined(intakes[k].time, intakes[k].kcal, FindNutrition(nutrition, intakes[k].nutritionId).value.name)
  {
    if intakes != [] {
      var init, last := intakes[..|intakes| - 1], intakes[|intakes| - 1];
      assert forall k :: 0 <= k < |init| ==> init[k] == intakes[k];
      JoinNutritionKeepsAll(init, nutrition);
      var n := FindNutrition(nutrition, last.nutritionId);
      assert n.Some?;
      assert JoinNutrition(intakes, nutrition) == JoinNutrition(init, nutrition) + [Joined(last.time, last.kcal, n.value.name)];
    }
  }

  /** The selection: exactly the joined intakes whose stored timestamp lies
      between the bounds, each once, in time order. */
  lemma SelectIntakesSpec(intakes: seq<IntakeRow>, nutrition: seq<NutritionRow>, start: string, end: string)
    requires UniqueIds(nutrition)
    ensures forall x :: x in SelectIntakes(intakes, nutrition, start, end) <==>
              InRange(x.time, start, end) &&
              exists i, n :: i in intakes && n in nutrition && n.id == i.nutritionId && x == Joined(i.time, i.kcal, n.name)
    ensures SortedBy(SelectIntakes(intakes, nutrition, start, end), JoinedKey)
    ensures multiset(SelectIntakes(intakes, nutrition, start, end)) ==
            multiset(Filter(JoinNutrition(intakes, nutrition), (j: Joined) => InRange(j.time, start, end)))
  {
    var f := Filter(JoinNutrition(intakes, nutrition), (j: Joined) => InRange(j.time, start, end));
    JoinNutritionMembers(intakes, nutrition);
    SortBySorted(f, JoinedKey);
    forall x ensures x in SortBy(f, JoinedKey) <==> x in f {
      assert x in SortBy(f, JoinedKey) <==> x in multiset(SortBy(f, JoinedKey));
    }
  }

  /** `ORDER BY i.timestamp`: the stored texts of the selected intakes never
      decrease. */
  lemma SelectedInTextOrder(intakes: seq<IntakeRow>, nutrition: seq<NutritionRow>, start: string, end: string)
    ensures var sel := SelectIntakes(intakes, nutrition, start, end);
            forall i, j :: 0 <= i < j < |sel| ==>
              (sel[i].time.Valid() && sel[j].time.Valid() && !LexLess(FormatDb(sel[j].time), FormatDb(sel[i].time)))
  {
    var f := Filter(JoinNutrition(intakes, nutrition), (j: Joined) => InRange(j.time, start, end));
    var sel := SortBy(f, JoinedKey);
    SelectedValid(intakes, nutrition, start, end);
    SortBySorted(f, JoinedKey);
    forall i, j | 0 <= i < j < |sel|
      ensures !LexLess(FormatDb(sel[j].time), FormatDb(sel[i].time))
    {
      assert JoinedKey(sel[i]) <= JoinedKey(sel[j]);
      FormatDbOrder(sel[j].time, sel[i].time);
      BeforeIsSecondsLess(sel[j].time, sel[i].time);
    }
  }

  /** With bare dates as bounds, the range is every second from midnight of
      the start date to the last second of the end date. */
  lemma RangeIsWholeDays(t: DateTime, y1: int, m1: int, d1: int, y2: int, m2: int, d2: int)
    requires t.Valid() && ValidDate(y1, m1, d1) && ValidDate(y2, m2, d2)
    ensures InRange(t, DateText(y1, m1, d1, '-'), DateText(y2, m2, d2, '-')) <==>
            AtOrBefore(StartOfDay(y1, m1, d1), t) && AtOrBefore(t, EndOfDay(y2, m2, d2))
  {
    StartDateBound(t, y1, m1, d1);
    EndDateBound(t, y2, m2, d2);
  }

  lemma {:induction false} LevelSumWithin(rs: seq<Reading>, lo: int, hi: int)
    requires forall x :: x in rs ==> lo <= x.level <= hi
    ensures |rs| * lo <= LevelSum(rs) <= |rs| * hi
  {
    if rs != [] {
      var init := rs[..|rs| - 1];
      assert forall x :: x in init ==> x in rs;
      assert rs[|rs| - 1] in rs;
      LevelSumWithin(init, lo, hi);
      SumStep(|init|, LevelSum(init), rs[|rs| - 1].level, lo, hi);
    }
  }

  lemma SumStep(n: int, sum: int, x: int, lo: int, hi: int)
    requires n * lo <= sum <= n * hi && lo <= x <= hi
    ensures (n + 1) * lo <= sum + x <= (n + 1) * hi
  {
  }

  /** `AVG` of levels between `lo` and `hi` lies between them. */
  lemma AverageWithin(rs: seq<Reading>, lo: int, hi: int)
    requires forall x :: x in rs ==> lo <= x.level <= hi
    requires rs != []
    ensures lo as real <= Average(rs).value <= hi as real
  {
    LevelSumWithin(rs, lo, hi);
    var n := |rs| as real;
    assert lo as real * n <= LevelSum(rs) as real <= hi as real * n;
    MeanOfBounds(LevelSum(rs) as real, n, lo as real, hi as real);
  }

  /** An hour's value is absent exactly when no reading falls in its closed
      window or the readings there average to zero. */
  lemma HourlyMeanAbsent(glucose: seq<Reading>, at: int, h: int)
    ensures HourlyMean(glucose, at, h).None? <==>
            (forall x :: x in glucose ==> !(at + 3600 * h - 1800 <= Instant(x.time) <= at + 3600 * h + 1800)) ||
            LevelSum(HourWindow(glucose, at, h)) == 0
  {
    var w := HourWindow(glucose, at, h);
    if w != [] {
      var x := w[0];
      assert x in w;
      var n := |w| as real;
      if LevelSum(w) as real / n == 0.0 {
        assert LevelSum(w) as real == 0.0 * n;
      }
    }
  }

  /** An hour's value is the rounded average of the readings in its window,
      so it lies between their lowest and highest level. */
  lemma HourlyMeanWithin(glucose: seq<Reading>, at: int, h: int, lo: int, hi: int)
    requires forall x :: x in glucose ==> lo <= x.level <= hi
    requires HourlyMean(glucose, at, h).Some?
    ensures HourlyMean(glucose, at, h).value == Round1(Average(HourWindow(glucose, at, h)).value)
    ensures lo as real <= HourlyMean(glucose, at, h).value <= hi as real
  {
    var w := HourWindow(glucose, at, h);
    AverageWithin(w, lo, hi);
    RoundToWithin(Average(w).value, 10, lo, hi);
  }

  /** The events of the record are those of the next twelve hours, each
      once, in time order. */
  lemma EventsWithinSpec(events: seq<EventRow>, at: int)
    ensures forall e :: e in EventsWithin(events, at) <==> e in events && at <= Instant(e.time) <= at + 43200
    ensures SortedBy(EventsWithin(events, at), EventKey)
    ensures multiset(EventsWithin(events, at)) == multiset(Filter(events, (e: EventRow) => at <= Instant(e.time) <= at + 43200))
  {
    var f := Filter(events, (e: EventRow) => at <= Instant(e.time) <= at + 43200);
    SortBySorted(f, EventKey);
    forall e ensures e in SortBy(f, EventKey) <==> e in f {
      assert e in SortBy(f, EventKey) <==> e in multiset(SortBy(f, EventKey));
    }
  }

  /** `intake_dt.strftime('%Y-%m-%d')` is the date part of the stored
      timestamp. */
  lemma DateIsPrefix(t: DateTime)
    requires t.Valid()
    ensures DateOf(t) == FormatDb(t)[..10]
  {
    FieldWidths(t);
    var date := DateOf(t);
    assert FormatDb(t) == date + (" " + ClockText(t.hour, t.minute, t.second));
  }

  /** What one record says about its intake. */
  lemma SummaryOfSpec(j: Joined, glucose: seq<Reading>, insulin: seq<InsulinRow>, events: seq<EventRow>)
    requires j.time.Valid() && InsulinValid(insulin)
    ensures SummaryOf(j, glucose, insulin, events).amPm == "AM" <==> j.time.hour < 12
    ensures SummaryOf(j, glucose, insulin, events).amPm in {"AM", "PM"}
    ensures SummaryOf(j, glucose, insulin, events).intakeTime == FormatDb(j.time)
    ensures SummaryOf(j, glucose, insulin, events).date == FormatDb(j.time)[..10]
    ensures SummaryOf(j, glucose, insulin, events).dosage.None? <==> insulin == []
    ensures SummaryOf(j, glucose, insulin, events).doseTime.None? <==> insulin == []
    ensures SummaryOf(j, glucose, insulin, events).glucoseLevels.before.None? <==>
            forall x :: x in glucose ==> Instant(x.time) > Instant(j.time)
    ensures forall h :: 1 <= h <= 12 ==>
              SummaryOf(j, glucose, insulin, events).glucoseLevels.hourly[h - 1] == HourlyMean(glucose, Instant(j.time), h)
  {
    DateIsPrefix(j.time);
  }

  /** An intake's summary can be computed exactly when it is at or before
      9999-12-31 11:29:59; at 9999-12-31 23:00:00 the first hour already
      overflows. */
  lemma HoursFitBoundary(t: DateTime)
    requires t.Valid()
    ensures MaxInstant == Instant(LastSecond)
    ensures HoursFit(Instant(t)) <==> AtOrBefore(t, LastSummarizable)
    ensures !HoursFit(Instant(DateTime(9999, 12, 31, 23, 0, 0)))
    ensures Instant(DateTime(9999, 12, 31, 23, 0, 0)) + 3600 + 1800 > MaxInstant
  {
    AtOrBeforeIsSecondsAtMost(t, LastSummarizable);
    assert MaxInstant == Instant(LastSummarizable) + 45000;
  }

  /** The selection is in time order, so the request fails exactly when its
      latest intake is past the limit. */
  lemma SummaryOverflowsIffLast(sel: seq<Joined>)
    requires SortedBy(sel, JoinedKey)
    ensures SummaryOverflows(sel) <==> sel != [] && !HoursFit(Instant(sel[|sel| - 1].time))
  {
    if SummaryOverflows(sel) {
      var i :| 0 <= i < |sel| && !HoursFit(Instant(sel[i].time));
      if i < |sel| - 1 {
        assert JoinedKey(sel[i]) <= JoinedKey(sel[|sel| - 1]);
      }
    }
  }
}
