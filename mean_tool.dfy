/** The command-line tool `time-weighted-mean.py`: read a two-column CSV of
    `yyyy/MM/dd  hh:mm:ss` timestamps and integer glucose levels, sort it by
    time, keep the last level of each timestamp, and print one time-weighted
    mean per ISO week or per day. A period is closed by the first sample of
    the next one, which also ends the closed period's curve. */
module MeanTool {
  import opened Wrappers
  import opened Text
  import opened Calendar
  import opened Timestamps
  import opened TimeWeighted
  import opened Readings
  import opened Grouping
  import opened Sorting
  import opened Tables
  import opened WeeklyChart

  // ---------------------------------------------------------------- input

  /** `field1, field2 = readline().split(",")` and the assertion on their
      stripped names; a header without exactly one comma fails the
      unpacking. */
  predicate HeaderValid(header: string) {
    var f := Split(header, ',');
    |f| == 2 && Strip(f[0]) == "timestamp" && Strip(f[1]) == "glucose (mg/dL)"
  }

  /** `int(s)`: surrounding whitespace, an optional sign, decimal digits. */
  function ParseInt(s: string): Option<int> {
    var t := Strip(s);
    if |t| >= 1 && t[0] == '-' && ParseNat(t[1..]) >= 0 then Some(-ParseNat(t[1..]))
    else if |t| >= 1 && t[0] == '+' && ParseNat(t[1..]) >= 0 then Some(ParseNat(t[1..]))
    else if ParseNat(t) >= 0 then Some(ParseNat(t))
    else None
  }

  /** `timestamp, glucose = line.strip().split(",")`, `int(glucose)` and
      `strptime(timestamp, "%Y/%m/%d  %H:%M:%S")`; `None` when any of them
      raises. */
  function ParseLine(line: string): (r: Option<Reading>)
    ensures r.Some? ==> r.value.time.Valid()
  {
    var f := Split(Strip(line), ',');
    if |f| != 2 then None
    else match ParseInt(f[1])
      case None => None
      case Some(g) =>
        match Parse(f[0], '/', "  ")
        case None => None
        case Some(t) => Some(Reading(t, g))
  }

  /** The reading loop: every line must parse. */
  function ParseAll<T>(lines: seq<string>, parse: string -> Option<T>): (r: Option<seq<T>>)
    ensures r.Some? ==> |r.value| == |lines|
    ensures r.Some? <==> forall i :: 0 <= i < |lines| ==> parse(lines[i]).Some?
    ensures r.Some? ==> forall i :: 0 <= i < |lines| ==> r.value[i] == parse(lines[i]).value
  {
    if lines == [] then Some([])
    else
      var init := lines[..|lines| - 1];
      assert forall i :: 0 <= i < |init| ==> init[i] == lines[i];
      match ParseAll(init, parse)
      case None => None
      case Some(rs) =>
        match parse(lines[|lines| - 1])
        case None => None
        case Some(r) => Some(rs + [r])
  }

  function ParseLines(lines: seq<string>): Option<seq<Reading>> {
    ParseAll(lines, ParseLine)
  }

  /** Every parsed reading is a real date-time. */
  lemma ParsedValid(lines: seq<string>)
    requires ParseLines(lines).Some?
    ensures AllValid(ParseLines(lines).value)
  {
    var rs := ParseLines(lines).value;
    forall i | 0 <= i < |rs| ensures rs[i].time.Valid() {
      assert rs[i] == ParseLine(lines[i]).value;
    }
  }

  // ---------------------------------------------------------------- sort and dedup

  /** The sort key `x[0]`, on the time axis. */
  function Key(r: Reading): int {
    Instant(r.time)
  }

  /** Where `t` is already a key of the dictionary's items, or `|d|`. */
  function IndexOfTime(d: seq<Reading>, t: DateTime): (i: nat)
    ensures i <= |d| && (i < |d| ==> d[i].time == t)
    ensures forall j :: 0 <= j < i ==> d[j].time != t
  {
    if d == [] then 0 else if d[0].time == t then 0 else 1 + IndexOfTime(d[1..], t)
  }

  /** `list(dict(pairs).items())`: a new key is appended, a repeated key
      keeps its place and takes the new value. */
  function DictItems(s: seq<Reading>): (d: seq<Reading>)
    ensures |d| <= |s|
  {
    if s == [] then []
    else
      var d := DictItems(s[..|s| - 1]);
      var x := s[|s| - 1];
      var i := IndexOfTime(d, x.time);
      if i < |d| then d[i := x] else d + [x]
  }

  /** The level of the last reading of `s` taken at `t`. */
  function LastLevel(s: seq<Reading>, t: DateTime): Option<int> {
    if s == [] then None
    else if s[|s| - 1].time == t then Some(s[|s| - 1].level)
    else LastLevel(s[..|s| - 1], t)
  }

  predicate DistinctTimes(d: seq<Reading>) {
    forall i, j :: 0 <= i < j < |d| ==> d[i].time != d[j].time
  }

  predicate StrictlyIncreasing(d: seq<Reading>) {
    forall i, j :: 0 <= i < j < |d| ==> Key(d[i]) < Key(d[j])
  }

  /** `all_data` after `sort` and the dictionary round trip. */
  function Prepare(s: seq<Reading>): seq<Reading> {
    DictItems(SortBy(s, Key))
  }

  /** The dictionary's items are some of the pairs. */
  lemma {:induction false} DictItemsFrom(s: seq<Reading>)
    ensures forall x :: x in DictItems(s) ==> x in s
  {
    if s != [] {
      var init, x := s[..|s| - 1], s[|s| - 1];
      DictItemsFrom(init);
      var d := DictItems(init);
      var i := IndexOfTime(d, x.time);
      forall y | y in DictItems(s) ensures y in s {
        if y != x {
          assert y in d;
          assert y in init;
        }
      }
    }
  }

  /** Each timestamp appears once. */
  lemma {:induction false} DictItemsDistinct(s: seq<Reading>)
    ensures DistinctTimes(DictItems(s))
  {
    if s != [] {
      var init, x := s[..|s| - 1], s[|s| - 1];
      DictItemsDistinct(init);
      var d := DictItems(init);
      var i := IndexOfTime(d, x.time);
      var r := DictItems(s);
      if i < |d| {
        assert forall k :: 0 <= k < |r| ==> r[k].time == d[k].time;
      } else {
        assert forall k :: 0 <= k < |d| ==> r[k] == d[k] && d[k].time != x.time;
      }
    }
  }

  /** Every timestamp of the pairs is a key of the dictionary. */
  lemma {:induction false} DictItemsCover(s: seq<Reading>)
    ensures forall x :: x in s ==> exists y :: y in DictItems(s) && y.time == x.time
  {
    if s != [] {
      var init, x := s[..|s| - 1], s[|s| - 1];
      DictItemsCover(init);
      var d := DictItems(init);
      var i := IndexOfTime(d, x.time);
      var r := DictItems(s);
      assert forall k :: 0 <= k < |d| ==> r[k].time == d[k].time;
      forall z | z in s ensures exists y :: y in r && y.time == z.time {
        if z in init {
          var y :| y in d && y.time == z.time;
          var k :| 0 <= k < |d| && d[k] == y;
          assert r[k] in r;
        } else {
          assert z == x;
          if i < |d| {
            assert r[i] in r;
          } else {
            assert r[|d|] in r;
          }
        }
      }
    }
  }

  /** The value kept for a timestamp is the last one given for it. */
  lemma {:induction false} DictItemsLast(s: seq<Reading>)
    ensures forall y :: y in DictItems(s) ==> LastLevel(s, y.time) == Some(y.level)
  {
    if s != [] {
      var init, x := s[..|s| - 1], s[|s| - 1];
      DictItemsLast(init);
      DictItemsDistinct(init);
      var d := DictItems(init);
      var i := IndexOfTime(d, x.time);
      var r := DictItems(s);
      forall y | y in r ensures LastLevel(s, y.time) == Some(y.level) {
        var k :| 0 <= k < |r| && r[k] == y;
        if y != x {
          assert k < |d| && y == d[k];
          assert y in d;
          if i < |d| {
            assert k != i;
            assert d[k].time != d[i].time;
          }
          assert y.time != x.time;
        }
      }
    }
  }

  /** Valid timestamps with the same key are the same timestamp. */
  lemma KeyInjective(a: Reading, b: Reading)
    requires a.time.Valid() && b.time.Valid() && Key(a) == Key(b)
    ensures a.time == b.time
  {
    SecondsInjective(a.time, b.time);
  }

  /** Dictionary items of time-sorted pairs are strictly increasing in
      time. */
  lemma {:induction false} DictItemsIncreasing(s: seq<Reading>)
    requires AllValid(s) && SortedBy(s, Key)
    ensures StrictlyIncreasing(DictItems(s))
  {
    if s != [] {
      var init, x := s[..|s| - 1], s[|s| - 1];
      assert s == init + [x];
      assert AllValid(init) && SortedBy(init, Key);
      DictItemsIncreasing(init);
      DictItemsFrom(init);
      var d := DictItems(init);
      var i := IndexOfTime(d, x.time);
      var r := DictItems(s);
      forall k | 0 <= k < |d| ensures Key(d[k]) <= Key(x) && d[k].time.Valid() {
        assert d[k] in d;
        var j :| 0 <= j < |init| && init[j] == d[k];
        assert Key(s[j]) <= Key(s[|s| - 1]);
      }
      if i < |d| {
        IncreasingReplace(d, i, x);
      } else {
        forall k | 0 <= k < |d| ensures Key(d[k]) < Key(x) {
          if Key(d[k]) == Key(x) {
            KeyInjective(d[k], x);
          }
        }
        IncreasingAppend(d, x);
      }
    }
  }

  /** Overwriting an item with a reading at the same time keeps the items
      strictly increasing. */
  lemma IncreasingReplace(d: seq<Reading>, i: nat, x: Reading)
    requires StrictlyIncreasing(d) && i < |d| && d[i].time == x.time
    ensures StrictlyIncreasing(d[i := x])
  {
    assert forall k :: 0 <= k < |d| ==> Key(d[i := x][k]) == Key(d[k]);
  }

  /** Appending a reading later than every item keeps the items strictly
      increasing. */
  lemma IncreasingAppend(d: seq<Reading>, x: Reading)
    requires StrictlyIncreasing(d) && forall k :: 0 <= k < |d| ==> Key(d[k]) < Key(x)
    ensures StrictlyIncreasing(d + [x])
  {
  }

  /** The last level of the readings with the given key. */
  function LastOf(w: seq<Reading>): Option<int> {
    if w == [] then None else Some(w[|w| - 1].level)
  }

  /** For valid timestamps, "taken at `t`" and "has the key of `t`" are the
      same, so the last level at `t` is read off the readings with that
      key. */
  lemma {:induction false} LastLevelByKey(s: seq<Reading>, t: DateTime)
    requires AllValid(s) && t.Valid()
    ensures LastLevel(s, t) == LastOf(WithKey(s, Key, Instant(t)))
  {
    if s != [] {
      var init, x := s[..|s| - 1], s[|s| - 1];
      assert AllValid(init);
      LastLevelByKey(init, t);
      if Key(x) == Instant(t) {
        SecondsInjective(x.time, t);
      }
    }
  }

  /** The stable sort keeps, for every timestamp, which level comes last. */
  lemma SortKeepsLast(s: seq<Reading>, t: DateTime)
    requires AllValid(s) && t.Valid()
    ensures AllValid(SortBy(s, Key))
    ensures LastLevel(SortBy(s, Key), t) == LastLevel(s, t)
  {
    var o := SortBy(s, Key);
    forall i | 0 <= i < |o| ensures o[i].time.Valid() {
      assert o[i] in multiset(s);
    }
    LastLevelByKey(s, t);
    LastLevelByKey(o, t);
    SortByStable(s, Key, Instant(t));
  }

  /** Sorting keeps the readings and their validity. */
  lemma SortedMembers(s: seq<Reading>)
    requires AllValid(s)
    ensures AllValid(SortBy(s, Key))
    ensures forall y :: y in SortBy(s, Key) <==> y in s
  {
    var o := SortBy(s, Key);
    forall y ensures y in o <==> y in s {
      assert y in o <==> y in multiset(o);
    }
    forall i | 0 <= i < |o| ensures o[i].time.Valid() {
      assert o[i] in s;
    }
  }

  /** After sorting and deduplicating: strictly increasing in time, one
      entry per distinct timestamp of the input, each with the last level
      the input gave for it. */
  lemma PrepareSpec(s: seq<Reading>)
    requires AllValid(s)
    ensures StrictlyIncreasing(Prepare(s)) && DistinctTimes(Prepare(s))
    ensures forall y :: y in Prepare(s) ==> y in s && LastLevel(s, y.time) == Some(y.level)
    ensures forall x :: x in s ==> exists y :: y in Prepare(s) && y.time == x.time
  {
    var o := SortBy(s, Key);
    SortBySorted(s, Key);
    SortedMembers(s);
    DictItemsIncreasing(o);
    DictItemsDistinct(o);
    PrepareKeepsLast(s);
    DictItemsCover(o);
  }

  lemma PrepareKeepsLast(s: seq<Reading>)
    requires AllValid(s)
    ensures forall y :: y in Prepare(s) ==> y in s && LastLevel(s, y.time) == Some(y.level)
  {
    var o := SortBy(s, Key);
    SortedMembers(s);
    DictItemsFrom(o);
    DictItemsLast(o);
    forall y | y in Prepare(s) ensures y in s && LastLevel(s, y.time) == Some(y.level) {
      SortKeepsLast(s, y.time);
    }
  }

  // ---------------------------------------------------------------- periods

  datatype Mode = Weekly | Daily

  /** A period key as a tuple: `(iso_year, iso_week)` (with a constant third
      component) or the date `(year, month, day)`; tuples and dates compare
      field by field. */
  datatype PeriodKey = PeriodKey(a: int, b: int, c: int)

  predicate KeyLess(p: PeriodKey, q: PeriodKey) {
    p.a < q.a || (p.a == q.a && (p.b < q.b || (p.b == q.b && p.c < q.c)))
  }

  /** `get_period_key(time)`. */
  function PeriodOf(mode: Mode, t: DateTime): PeriodKey {
    if !(1 <= t.month <= 12) then PeriodKey(0, 0, 0)
    else match mode
      case Weekly => PeriodKey(t.Iso().year, t.Iso().week, 0)
      case Daily => PeriodKey(t.year, t.month, t.day)
  }

  function Clamp(x: int): nat {
    if x < 0 then 0 else x
  }

  /** `format_period(p)`: `f"{p[0]}/W{p[1]:02d}"` or `d.strftime('%Y/%m/%d')`.
      The fields of a key of a valid date are never negative. */
  function PeriodLabel(mode: Mode, k: PeriodKey): string {
    match mode
    case Weekly => WeekLabel(k.a, Clamp(k.b))
    case Daily => DateText(Clamp(k.a), Clamp(k.b), Clamp(k.c), '/')
  }

  /** `TimeWeightedMean(period_data)` of parsed readings. */
  function Mean(data: seq<Reading>): Option<real> {
    if AllValid(data) then TwMean(Points(data)) else None
  }

  /** A printed line `"{label},{mean:.2f}"`, before formatting. */
  datatype Period = Period(key: PeriodKey, mean: real)

  /** The loop variables of `process_data` and the lines printed so far;
      `ok` is false once a `None` mean has reached `:.2f`. */
  datatype PState = PState(last: Option<PeriodKey>, data: seq<Reading>, printed: seq<Period>, ok: bool)

  /** One iteration: append the sample, and when the key has grown print
      the mean of the period including this sample and restart the period
      with it. */
  function Step(period: DateTime -> PeriodKey, mean: seq<Reading> -> Option<real>, st: PState, r: Reading): PState {
    if !st.ok then st
    else
      var current := period(r.time);
      var data := st.data + [r];
      var last := if st.last.None? then current else st.last.value;
      if KeyLess(last, current) then
        match mean(data)
        case None => PState(Some(last), data, st.printed, false)
        case Some(m) => PState(Some(current), [r], st.printed + [Period(last, m)], true)
      else PState(Some(last), data, st.printed, true)
  }

  const Start := PState(None, [], [], true)

  /** The state after the loop over `rs`. */
  function Partition(period: DateTime -> PeriodKey, mean: seq<Reading> -> Option<real>, rs: seq<Reading>): PState {
    if rs == [] then Start else Step(period, mean, Partition(period, mean, rs[..|rs| - 1]), rs[|rs| - 1])
  }

  /** The printed periods, and whether the script ended normally. */
  datatype Output = Output(periods: seq<Period>, completed: bool)

  /** The statement after the loop: the last period's mean is printed, and
      `format_period(None)` or `f"{None:.2f}"` raises. */
  function Flush(mean: seq<Reading> -> Option<real>, st: PState): Output {
    if !st.ok || st.last.None? then Output(st.printed, false)
    else match mean(st.data)
      case None => Output(st.printed, false)
      case Some(m) => Output(st.printed + [Period(st.last.value, m)], true)
  }

  /** `process_data`, with `TimeWeightedMean` a parameter like
      `get_period_key`. */
  function Process(period: DateTime -> PeriodKey, mean: seq<Reading> -> Option<real>, rs: seq<Reading>): Output {
    Flush(mean, Partition(period, mean, rs))
  }

  function ProcessData(period: DateTime -> PeriodKey, rs: seq<Reading>): Output {
    Process(period, Mean, rs)
  }

  /** The loop's state after one more sample. */
  lemma PartitionNext(period: DateTime -> PeriodKey, mean: seq<Reading> -> Option<real>, rs: seq<Reading>, i: nat)
    requires i < |rs|
    ensures Partition(period, mean, rs[..i + 1]) == Step(period, mean, Partition(period, mean, rs[..i]), rs[i])
  {
    assert rs[..i + 1][..i] == rs[..i];
  }

  /** A valid sample keeps the period's data valid, and the data's mean is
      then its time-weighted mean. */
  lemma ValidSnoc(data: seq<Reading>, r: Reading)
    requires AllValid(data) && r.time.Valid()
    ensures AllValid(data + [r]) && Mean(data + [r]) == TwMean(Points(data + [r]))
  {
  }

  /** A failure at sample `i` is the state after the whole loop. */
  lemma StuckAt(period: DateTime -> PeriodKey, mean: seq<Reading> -> Option<real>, rs: seq<Reading>, i: nat)
    requires i < |rs| && !Partition(period, mean, rs[..i + 1]).ok
    ensures Partition(period, mean, rs) == Partition(period, mean, rs[..i + 1])
  {
    PartitionStuck(period, mean, rs[..i + 1], rs[i + 1..]);
    assert rs[..i + 1] + rs[i + 1..] == rs;
  }

  /** `process_data(get_period_key, format_period)` over `all_data`. */
  method RunProcessData(period: DateTime -> PeriodKey, rs: seq<Reading>) returns (out: Output)
    requires AllValid(rs)
    ensures out == ProcessData(period, rs)
  {
    var lastPeriod: Option<PeriodKey> := None;
    var periodData: seq<Reading> := [];
    var printed: seq<Period> := [];
    var i := 0;
    while i < |rs|
      invariant 0 <= i <= |rs|
      invariant AllValid(periodData)
      invariant Partition(period, Mean, rs[..i]) == PState(lastPeriod, periodData, printed, true)
    {
      PartitionNext(period, Mean, rs, i);
      var r := rs[i];
      var currentPeriod := period(r.time);
      ValidSnoc(periodData, r);
      periodData := periodData + [r];
      if lastPeriod.None? {
        lastPeriod := Some(currentPeriod);
      }
      if KeyLess(lastPeriod.value, currentPeriod) {
        var mean := TimeWeightedMean(Points(periodData));
        if mean.None? {
          StuckAt(period, Mean, rs, i);
          return Output(printed, false);
        }
        printed := printed + [Period(lastPeriod.value, mean.value)];
        periodData := [r];
        lastPeriod := Some(currentPeriod);
      }
      i := i + 1;
    }
    assert rs[..i] == rs;
    if lastPeriod.None? {
      return Output(printed, false);
    }
    var mean := TimeWeightedMean(Points(periodData));
    if mean.None? {
      return Output(printed, false);
    }
    out := Output(printed + [Period(lastPeriod.value, mean.value)], true);
  }

  /** Nothing runs after a failure. */
  lemma {:induction false} PartitionStuck(period: DateTime -> PeriodKey, mean: seq<Reading> -> Option<real>, a: seq<Reading>, b: seq<Reading>)
    requires !Partition(period, mean, a).ok
    ensures Partition(period, mean, a + b) == Partition(period, mean, a)
    decreases |b|
  {
    if b == [] {
      assert a + b == a;
    } else {
      var ab := a + b;
      assert ab[..|ab| - 1] == a + b[..|b| - 1];
      PartitionStuck(period, mean, a, b[..|b| - 1]);
    }
  }

  // ---------------------------------------------------------------- periods in time order

  /** `p <= q` for the tuple order. */
  predicate KeyAtMost(p: PeriodKey, q: PeriodKey) {
    !KeyLess(q, p)
  }

  /** A later second is never on an earlier day. */
  lemma DayOrdinalOrder(a: DateTime, b: DateTime)
    requires a.Valid() && b.Valid() && a.Seconds() <= b.Seconds()
    ensures a.DayOrdinal() <= b.DayOrdinal()
  {
    assert a.DayOrdinal() * 86400 <= a.Seconds();
    assert b.Seconds() < b.DayOrdinal() * 86400 + 86400;
  }

  /** The arithmetic of `IsoWeekOrder`: day `n1` is placed at `i1` in the
      year whose weeks run from Monday `a1` to `b1`, likewise `n2`. */
  lemma IsoWeekOrderIn(n1: int, i1: IsoDate, a1: int, b1: int, n2: int, i2: IsoDate, a2: int, b2: int)
    requires PlacedIn(n1, i1, a1, b1) && PlacedIn(n2, i2, a2, b2)
    requires i1.year == i2.year ==> a1 == a2
    requires i2.year < i1.year ==> b2 <= a1
    requires n1 <= n2
    ensures i1.year < i2.year || (i1.year == i2.year && i1.week <= i2.week)
  {
  }

  /** Earlier ISO years end before later ones begin. */
  lemma YearsInOrder(y1: int, y2: int)
    ensures y2 < y1 ==> IsoWeek1Monday(y2 + 1) <= IsoWeek1Monday(y1)
  {
    if y2 < y1 {
      Week1MondayMonotone(y2, y1);
    }
  }

  /** ISO weeks placed at day ordinals follow them. */
  lemma IsoWeekOrder(n1: int, i1: IsoDate, n2: int, i2: IsoDate)
    requires PlacedAt(n1, i1) && PlacedAt(n2, i2) && n1 <= n2
    ensures i1.year < i2.year || (i1.year == i2.year && i1.week <= i2.week)
  {
    if i2.year <= i1.year {
      var a1, b1 := IsoWeek1Monday(i1.year), IsoWeek1Monday(i1.year + 1);
      var a2, b2 := IsoWeek1Monday(i2.year), IsoWeek1Monday(i2.year + 1);
      YearsInOrder(i1.year, i2.year);
      IsoWeekOrderIn(n1, i1, a1, b1, n2, i2, a2, b2);
    }
  }

  /** Dates and ISO weeks follow the day ordinal. */
  lemma PeriodFollowsDay(mode: Mode, a: DateTime, b: DateTime)
    requires a.Valid() && b.Valid() && a.DayOrdinal() <= b.DayOrdinal()
    ensures KeyAtMost(PeriodOf(mode, a), PeriodOf(mode, b))
  {
    if mode == Daily {
      if KeyLess(PeriodOf(mode, b), PeriodOf(mode, a)) {
        OrdinalMonotone(b.year, b.month, b.day, a.year, a.month, a.day);
      }
    } else {
      IsoCalendarCorrect(a.year, a.month, a.day);
      IsoCalendarCorrect(b.year, b.month, b.day);
      IsoWeekOrder(a.DayOrdinal(), a.Iso(), b.DayOrdinal(), b.Iso());
    }
  }

  /** `get_period_key` never decreases along the time axis. */
  lemma PeriodMonotone(mode: Mode, a: DateTime, b: DateTime)
    requires a.Valid() && b.Valid() && a.Seconds() <= b.Seconds()
    ensures KeyAtMost(PeriodOf(mode, a), PeriodOf(mode, b))
  {
    DayOrdinalOrder(a, b);
    PeriodFollowsDay(mode, a, b);
  }

  /** A period function that never decreases along the time axis. */
  ghost predicate Monotone(period: DateTime -> PeriodKey) {
    forall a: DateTime, b: DateTime :: a.Valid() && b.Valid() && a.Seconds() <= b.Seconds() ==> KeyAtMost(period(a), period(b))
  }

  /** The `get_period_key` of a mode. */
  function PeriodFn(mode: Mode): DateTime -> PeriodKey {
    t => PeriodOf(mode, t)
  }

  /** Both modes' period functions are monotone. */
  lemma PeriodFnMonotone(mode: Mode)
    ensures Monotone(PeriodFn(mode))
  {
    forall a: DateTime, b: DateTime | a.Valid() && b.Valid() && a.Seconds() <= b.Seconds()
      ensures KeyAtMost(PeriodFn(mode)(a), PeriodFn(mode)(b))
    {
      PeriodMonotone(mode, a, b);
    }
  }

  // ---------------------------------------------------------------- periods as blocks

  /** The indices at which a new period begins: the first sample, and each
      sample whose period differs from its predecessor's. */
  function Starts(period: DateTime -> PeriodKey, rs: seq<Reading>): (ss: seq<nat>)
    ensures forall j :: 0 <= j < |ss| ==> ss[j] < |rs|
    ensures forall j :: 0 < j < |ss| ==> ss[j - 1] < ss[j]
    ensures rs != [] ==> |ss| >= 1 && ss[0] == 0
  {
    if rs == [] then []
    else
      var n := |rs|;
      Starts(period, rs[..n - 1]) +
        (if n == 1 || period(rs[n - 2].time) != period(rs[n - 1].time) then [n - 1] else [])
  }

  /** The starts are exactly the first sample and the samples whose period
      differs from their predecessor's. */
  lemma {:induction false} StartsMembers(period: DateTime -> PeriodKey, rs: seq<Reading>)
    ensures forall i: nat :: i in Starts(period, rs) <==> i < |rs| && (i == 0 || period(rs[i - 1].time) != period(rs[i].time))
  {
    if rs != [] {
      var n := |rs|;
      var init := rs[..n - 1];
      StartsMembers(period, init);
      var extra := if n == 1 || period(rs[n - 2].time) != period(rs[n - 1].time) then [n - 1] else [];
      assert Starts(period, rs) == Starts(period, init) + extra;
      forall i: nat ensures i in Starts(period, rs) <==> i < n && (i == 0 || period(rs[i - 1].time) != period(rs[i].time)) {
        if i < n - 1 {
          assert init[i] == rs[i];
          if i > 0 { assert init[i - 1] == rs[i - 1]; }
        } else {
          assert i !in Starts(period, init);
        }
      }
    } else {
      assert Starts(period, rs) == [];
    }
  }

  /** Period `p` is closed by sample `b`: it is the key of the block that
      starts at `a`, and its mean covers the samples from `a` up to and
      including `b`, the first sample of the next block. */
  predicate Closes(period: DateTime -> PeriodKey, mean: seq<Reading> -> Option<real>, rs: seq<Reading>, a: nat, b: nat, p: Period) {
    a < b < |rs| && p.key == period(rs[a].time) && mean(rs[a..b + 1]) == Some(p.mean)
  }

  /** `ps` are the periods closed by a later sample: period `j` is closed
      by the start of block `j + 1`. */
  predicate ClosedPeriods(period: DateTime -> PeriodKey, mean: seq<Reading> -> Option<real>, rs: seq<Reading>, ss: seq<nat>, ps: seq<Period>) {
    && |ps| + 1 == |ss|
    && forall j :: 0 <= j < |ps| ==> Closes(period, mean, rs, ss[j], ss[j + 1], ps[j])
  }

  /** Every sample from `k` on shares the period of sample `k`. */
  predicate SamePeriodFrom(period: DateTime -> PeriodKey, rs: seq<Reading>, k: nat) {
    k < |rs| && forall i :: k <= i < |rs| ==> period(rs[i].time) == period(rs[k].time)
  }

  /** A run of at least two samples at distinct times has a mean. */
  lemma MeanDefined(d: seq<Reading>)
    requires AllValid(d) && |d| >= 2 && Key(d[0]) < Key(d[|d| - 1])
    ensures Mean(d).Some?
  {
    TwMeanUndefined(Points(d));
  }

  /** The start of the last block. */
  function LastStart(period: DateTime -> PeriodKey, rs: seq<Reading>): nat
    requires rs != []
  {
    Starts(period, rs)[|Starts(period, rs)| - 1]
  }

  /** The step that closes the open period. */
  lemma StepCloses(period: DateTime -> PeriodKey, mean: seq<Reading> -> Option<real>, st: PState, x: Reading, m: real)
    requires st.ok && st.last.Some? && KeyLess(st.last.value, period(x.time))
    requires mean(st.data + [x]) == Some(m)
    ensures Step(period, mean, st, x) == PState(Some(period(x.time)), [x], st.printed + [Period(st.last.value, m)], true)
  {
  }

  /** The step that extends the open period. */
  lemma StepExtends(period: DateTime -> PeriodKey, mean: seq<Reading> -> Option<real>, st: PState, x: Reading)
    requires st.ok && st.last == Some(period(x.time))
    ensures Step(period, mean, st, x) == PState(st.last, st.data + [x], st.printed, true)
  {
  }

  /** A mean that is defined on every run of at least two samples whose
      last sample is later than its first, and undefined on one sample. */
  ghost predicate DefinedOnRuns(mean: seq<Reading> -> Option<real>) {
    && (forall d: seq<Reading> :: AllValid(d) && |d| >= 2 && Key(d[0]) < Key(d[|d| - 1]) ==> mean(d).Some?)
    && (forall r: Reading :: mean([r]).None?)
  }

  /** The time-weighted mean is such a mean. */
  lemma MeanDefinedOnRuns()
    ensures DefinedOnRuns(Mean)
  {
    forall d: seq<Reading> | AllValid(d) && |d| >= 2 && Key(d[0]) < Key(d[|d| - 1]) ensures Mean(d).Some? {
      MeanDefined(d);
    }
    forall r: Reading ensures Mean([r]).None? {
      if r.time.Valid() {
        TwMeanUndefined(Points([r]));
      }
    }
  }

  /** The samples from `k` on form such a run. */
  lemma RunMean(mean: seq<Reading> -> Option<real>, rs: seq<Reading>, k: nat)
    requires DefinedOnRuns(mean) && AllValid(rs) && k < |rs| - 1 && Key(rs[k]) < Key(rs[|rs| - 1])
    ensures mean(rs[k..]).Some?
  {
    var d := rs[k..];
    assert AllValid(d) && d[0] == rs[k] && d[|d| - 1] == rs[|rs| - 1];
  }

  /** The loop state after the non-empty prefix `rs`: no failure, the open
      period is the last block, and the closed periods are those of
      `ClosedPeriods`. */
  predicate Blocks(period: DateTime -> PeriodKey, mean: seq<Reading> -> Option<real>, rs: seq<Reading>, st: PState) {
    && rs != []
    && st.ok
    && SamePeriodFrom(period, rs, LastStart(period, rs))
    && st.last == Some(period(rs[LastStart(period, rs)].time))
    && st.data == rs[LastStart(period, rs)..]
    && ClosedPeriods(period, mean, rs, Starts(period, rs), st.printed)
  }

  /** The state after closing the open block `k..` with mean `m`. */
  lemma BlocksAfterClose(period: DateTime -> PeriodKey, mean: seq<Reading> -> Option<real>, rs: seq<Reading>, st: PState, m: real)
    requires |rs| >= 2 && Blocks(period, mean, rs[..|rs| - 1], st)
    requires period(rs[|rs| - 2].time) != period(rs[|rs| - 1].time)
    requires mean(rs[LastStart(period, rs[..|rs| - 1])..]) == Some(m)
    ensures Blocks(period, mean, rs, PState(Some(period(rs[|rs| - 1].time)), [rs[|rs| - 1]],
                                      st.printed + [Period(period(rs[LastStart(period, rs[..|rs| - 1])].time), m)], true))
  {
    var n := |rs|;
    var p := rs[..n - 1];
    var sp := Starts(period, p);
    StartsSnoc(period, rs);
    assert rs[..n - 1][sp[|sp| - 1]] == rs[sp[|sp| - 1]];
    ClosedSnoc(period, mean, rs, sp, st.printed, m);
    assert LastStart(period, rs) == n - 1;
    assert rs[n - 1..] == [rs[n - 1]];
  }

  /** A sample of a new period closes the open block. */
  lemma BlocksClose(period: DateTime -> PeriodKey, mean: seq<Reading> -> Option<real>, rs: seq<Reading>, st: PState)
    requires |rs| >= 2 && Blocks(period, mean, rs[..|rs| - 1], st)
    requires mean(rs[LastStart(period, rs[..|rs| - 1])..]).Some?
    requires KeyLess(period(rs[|rs| - 2].time), period(rs[|rs| - 1].time))
    ensures Blocks(period, mean, rs, Step(period, mean, st, rs[|rs| - 1]))
  {
    var n := |rs|;
    var p, x := rs[..n - 1], rs[n - 1];
    var k := LastStart(period, p);
    DropSnoc(rs, k);
    var d := st.data + [x];
    assert st.last.value == period(rs[k].time);
    StepCloses(period, mean, st, x, mean(d).value);
    assert d == rs[LastStart(period, rs[..|rs| - 1])..];
    assert period(rs[n - 2].time) != period(x.time);
    BlocksAfterClose(period, mean, rs, st, mean(d).value);
  }

  /** A sample of the open period extends its block. */
  lemma BlocksExtend(period: DateTime -> PeriodKey, mean: seq<Reading> -> Option<real>, rs: seq<Reading>, st: PState)
    requires |rs| >= 2 && Blocks(period, mean, rs[..|rs| - 1], st)
    requires period(rs[|rs| - 2].time) == period(rs[|rs| - 1].time)
    ensures Blocks(period, mean, rs, Step(period, mean, st, rs[|rs| - 1]))
  {
    var n := |rs|;
    var p, x := rs[..n - 1], rs[n - 1];
    var k := LastStart(period, p);
    assert p[n - 2] == rs[n - 2] && k <= n - 2;
    assert period(p[n - 2].time) == period(p[k].time);
    DropSnoc(rs, k);
    StartsSnoc(period, rs);
    StepExtends(period, mean, st, x);
    ClosedExtend(period, mean, rs, Starts(period, p), st.printed);
    assert Starts(period, rs) == Starts(period, p);
    assert LastStart(period, rs) == k;
    forall i | k <= i < n ensures period(rs[i].time) == period(rs[k].time) {
      if i < n - 1 {
        assert rs[i] == p[i];
      }
    }
  }

  /** The first sample opens the first block. */
  lemma BlocksFirst(period: DateTime -> PeriodKey, mean: seq<Reading> -> Option<real>, rs: seq<Reading>)
    requires |rs| == 1
    ensures Blocks(period, mean, rs, Partition(period, mean, rs))
  {
    var x := rs[0];
    Single(rs);
    assert Starts(period, rs) == [0];
    PartitionSnoc(period, mean, rs);
    StepFirst(period, mean, x);
    var st := Partition(period, mean, rs);
    assert st == PState(Some(period(x.time)), [x], [], true);
    assert LastStart(period, rs) == 0;
    forall i | 0 <= i < |rs| ensures period(rs[i].time) == period(rs[0].time) {
      assert i == 0;
    }
    assert ClosedPeriods(period, mean, rs, [0], []);
  }

  /** The loop runs one more iteration per sample. */
  lemma PartitionSnoc(period: DateTime -> PeriodKey, mean: seq<Reading> -> Option<real>, rs: seq<Reading>)
    requires rs != []
    ensures Partition(period, mean, rs) == Step(period, mean, Partition(period, mean, rs[..|rs| - 1]), rs[|rs| - 1])
  {
  }

  lemma Single<T>(s: seq<T>)
    requires |s| == 1
    ensures s == [s[0]] && s[0..] == s && s[..0] == []
  {
  }

  /** The first step opens the period of the first sample. */
  lemma StepFirst(period: DateTime -> PeriodKey, mean: seq<Reading> -> Option<real>, x: Reading)
    ensures Step(period, mean, Start, x) == PState(Some(period(x.time)), [x], [], true)
  {
    assert !KeyLess(period(x.time), period(x.time));
    assert [] + [x] == [x];
  }

  /** A later sample's period is not earlier. */
  lemma NextPeriod(period: DateTime -> PeriodKey, a: DateTime, b: DateTime)
    requires Monotone(period) && a.Valid() && b.Valid() && Instant(a) < Instant(b)
    ensures KeyAtMost(period(a), period(b))
  {
  }

  /** The loop keeps `Blocks` over a strictly increasing sequence. */
  lemma {:induction false} PartitionBlocks(period: DateTime -> PeriodKey, mean: seq<Reading> -> Option<real>, rs: seq<Reading>)
    requires Monotone(period) && DefinedOnRuns(mean) && AllValid(rs) && StrictlyIncreasing(rs) && rs != []
    ensures Blocks(period, mean, rs, Partition(period, mean, rs))
  {
    var n := |rs|;
    var p, x := rs[..n - 1], rs[n - 1];
    if n == 1 {
      BlocksFirst(period, mean, rs);
    } else {
      assert AllValid(p) && StrictlyIncreasing(p);
      PartitionBlocks(period, mean, p);
      PartitionSnoc(period, mean, rs);
      if period(rs[n - 2].time) != period(x.time) {
        var k := LastStart(period, p);
        assert Key(rs[k]) < Key(x) && Key(rs[n - 2]) < Key(x);
        RunMean(mean, rs, k);
        NextPeriod(period, rs[n - 2].time, x.time);
        BlocksClose(period, mean, rs, Partition(period, mean, p));
      } else {
        BlocksExtend(period, mean, rs, Partition(period, mean, p));
      }
    }
  }

  /** A new block starts at the appended sample exactly when its period
      differs from its predecessor's. */
  lemma StartsSnoc(period: DateTime -> PeriodKey, rs: seq<Reading>)
    requires |rs| >= 2
    ensures Starts(period, rs) ==
            Starts(period, rs[..|rs| - 1]) + (if period(rs[|rs| - 2].time) != period(rs[|rs| - 1].time) then [|rs| - 1] else [])
  {
  }

  /** The suffix from `k` grows by the appended element. */
  lemma DropSnoc<T>(s: seq<T>, k: nat)
    requires k < |s|
    ensures s[..|s| - 1][k..] + [s[|s| - 1]] == s[k..]
  {
  }

  /** A closed period stays closed when a sample is appended. */
  lemma ClosesSnoc(period: DateTime -> PeriodKey, mean: seq<Reading> -> Option<real>, rs: seq<Reading>, a: nat, b: nat, p: Period)
    requires |rs| >= 1 && Closes(period, mean, rs[..|rs| - 1], a, b, p)
    ensures Closes(period, mean, rs, a, b, p)
  {
    assert rs[a..b + 1] == rs[..|rs| - 1][a..b + 1];
  }

  /** Closing the open block at `k` with the new sample `n - 1`. */
  lemma ClosedSnoc(period: DateTime -> PeriodKey, mean: seq<Reading> -> Option<real>, rs: seq<Reading>, sp: seq<nat>, ps: seq<Period>, m: real)
    requires |rs| >= 2 && ClosedPeriods(period, mean, rs[..|rs| - 1], sp, ps)
    requires sp[|sp| - 1] < |rs| - 1 && mean(rs[sp[|sp| - 1]..]) == Some(m)
    ensures ClosedPeriods(period, mean, rs, sp + [|rs| - 1], ps + [Period(period(rs[sp[|sp| - 1]].time), m)])
  {
    var ss, qs := sp + [|rs| - 1], ps + [Period(period(rs[sp[|sp| - 1]].time), m)];
    forall j | 0 <= j < |qs| ensures Closes(period, mean, rs, ss[j], ss[j + 1], qs[j]) {
      if j < |ps| {
        ClosesSnoc(period, mean, rs, sp[j], sp[j + 1], ps[j]);
      } else {
        assert rs[sp[|sp| - 1]..] == rs[ss[j]..ss[j + 1] + 1];
      }
    }
  }

  /** Extending the open block leaves the closed periods as they were. */
  lemma ClosedExtend(period: DateTime -> PeriodKey, mean: seq<Reading> -> Option<real>, rs: seq<Reading>, sp: seq<nat>, ps: seq<Period>)
    requires |rs| >= 2 && ClosedPeriods(period, mean, rs[..|rs| - 1], sp, ps)
    ensures ClosedPeriods(period, mean, rs, sp, ps)
  {
    forall j | 0 <= j < |ps| ensures Closes(period, mean, rs, sp[j], sp[j + 1], ps[j]) {
      ClosesSnoc(period, mean, rs, sp[j], sp[j + 1], ps[j]);
    }
  }

  // ---------------------------------------------------------------- process_data

  /** Over a strictly increasing sequence of samples, `process_data` prints
      one line per block of samples sharing a period, in order: each block
      but the last is closed by the first sample of the next block, which
      its mean covers too; the last block's mean is printed only when it
      holds two samples or more, and otherwise the script fails there. */
  lemma ProcessBlocks(period: DateTime -> PeriodKey, mean: seq<Reading> -> Option<real>, rs: seq<Reading>)
    requires Monotone(period) && DefinedOnRuns(mean) && AllValid(rs) && StrictlyIncreasing(rs)
    ensures rs == [] ==> Process(period, mean, rs) == Output([], false)
    ensures rs != [] ==> (Process(period, mean, rs).completed <==> LastStart(period, rs) < |rs| - 1)
    ensures rs != [] ==> |Process(period, mean, rs).periods| ==
                         if Process(period, mean, rs).completed then |Starts(period, rs)| else |Starts(period, rs)| - 1
    ensures rs != [] ==> ClosedPeriods(period, mean, rs, Starts(period, rs), Process(period, mean, rs).periods[..|Starts(period, rs)| - 1])
    ensures rs != [] && Process(period, mean, rs).completed ==>
              FinalPeriod(period, mean, rs, Process(period, mean, rs).periods[|Starts(period, rs)| - 1])
  {
    if rs != [] {
      PartitionBlocks(period, mean, rs);
      var k := LastStart(period, rs);
      if k < |rs| - 1 {
        assert Key(rs[k]) < Key(rs[|rs| - 1]);
        RunMean(mean, rs, k);
      } else {
        assert rs[k..] == [rs[k]];
        assert mean([rs[k]]).None?;
      }
      FlushBlocks(period, mean, rs, Partition(period, mean, rs));
    }
  }

  /** The statement after the loop, from the state `Blocks` describes. */
  lemma FlushBlocks(period: DateTime -> PeriodKey, mean: seq<Reading> -> Option<real>, rs: seq<Reading>, st: PState)
    requires Blocks(period, mean, rs, st)
    requires mean(rs[LastStart(period, rs)..]).Some? <==> LastStart(period, rs) < |rs| - 1
    ensures Flush(mean, st).completed <==> LastStart(period, rs) < |rs| - 1
    ensures |Flush(mean, st).periods| == if Flush(mean, st).completed then |Starts(period, rs)| else |Starts(period, rs)| - 1
    ensures ClosedPeriods(period, mean, rs, Starts(period, rs), Flush(mean, st).periods[..|Starts(period, rs)| - 1])
    ensures Flush(mean, st).completed ==> FinalPeriod(period, mean, rs, Flush(mean, st).periods[|Starts(period, rs)| - 1])
  {
    var ps := st.printed;
    var out := Flush(mean, st);
    assert out.periods[..|ps|] == ps;
  }

  /** `p` is the line printed after the loop: the key of the last block and
      the mean of that whole block. */
  predicate FinalPeriod(period: DateTime -> PeriodKey, mean: seq<Reading> -> Option<real>, rs: seq<Reading>, p: Period)
    requires rs != []
  {
    p.key == period(rs[LastStart(period, rs)].time) && mean(rs[LastStart(period, rs)..]) == Some(p.mean)
  }

  /** The printed keys strictly increase. */
  predicate KeysIncreasing(ps: seq<Period>) {
    forall i, j :: 0 <= i < j < |ps| ==> KeyLess(ps[i].key, ps[j].key)
  }

  lemma KeyLessTransitive(p: PeriodKey, q: PeriodKey, r: PeriodKey)
    requires KeyLess(p, q) && KeyLess(q, r)
    ensures KeyLess(p, r)
  {
  }

  /** Every printed key is below the open period's. */
  predicate Below(st: PState) {
    && KeysIncreasing(st.printed)
    && (st.last.None? ==> st.printed == [])
    && (st.last.Some? ==> forall i :: 0 <= i < |st.printed| ==> KeyLess(st.printed[i].key, st.last.value))
  }

  lemma StepBelow(period: DateTime -> PeriodKey, mean: seq<Reading> -> Option<real>, st: PState, r: Reading)
    requires Below(st)
    ensures Below(Step(period, mean, st, r))
  {
    var st2 := Step(period, mean, st, r);
    if st.ok && st2.printed != st.printed {
      var last := if st.last.None? then period(r.time) else st.last.value;
      forall i | 0 <= i < |st2.printed| ensures KeyLess(st2.printed[i].key, st2.last.value) {
        if i < |st.printed| {
          KeyLessTransitive(st.printed[i].key, last, st2.last.value);
        }
      }
    }
  }

  lemma {:induction false} PartitionBelow(period: DateTime -> PeriodKey, mean: seq<Reading> -> Option<real>, rs: seq<Reading>)
    ensures Below(Partition(period, mean, rs))
  {
    if rs != [] {
      PartitionBelow(period, mean, rs[..|rs| - 1]);
      StepBelow(period, mean, Partition(period, mean, rs[..|rs| - 1]), rs[|rs| - 1]);
    }
  }

  /** Whatever the input order, the periods are printed in strictly
      increasing order of key, so no period is printed twice. */
  lemma ProcessKeysIncreasing(period: DateTime -> PeriodKey, mean: seq<Reading> -> Option<real>, rs: seq<Reading>)
    ensures KeysIncreasing(Process(period, mean, rs).periods)
  {
    PartitionBelow(period, mean, rs);
  }

  // ---------------------------------------------------------------- labels

  /** Distinct periods of real dates get distinct labels. */
  lemma LabelInjective(mode: Mode, a: DateTime, b: DateTime)
    requires a.Valid() && b.Valid()
    ensures PeriodLabel(mode, PeriodOf(mode, a)) == PeriodLabel(mode, PeriodOf(mode, b)) <==> PeriodOf(mode, a) == PeriodOf(mode, b)
  {
    if mode == Daily {
      DateTextOrder(a, b, '/');
    } else {
      IsoCalendarCorrect(a.year, a.month, a.day);
      IsoCalendarCorrect(b.year, b.month, b.day);
      if PeriodLabel(mode, PeriodOf(mode, a)) == PeriodLabel(mode, PeriodOf(mode, b)) {
        WeekLabelInjective(a.Iso().year, a.Iso().week, b.Iso().year, b.Iso().week);
      }
    }
  }

  // ---------------------------------------------------------------- the tool

  /** The line printed before `process_data`. */
  function Heading(mode: Mode): string {
    match mode
    case Weekly => "year/week,time-weighted mean glucose (mg/dL)"
    case Daily => "date,time-weighted mean glucose (mg/dL)"
  }

  /** A printed line: the period's label and its mean before `:.2f`. */
  datatype Row = Row(name: string, mean: real)

  function Rows(mode: Mode, ps: seq<Period>): (rows: seq<Row>)
    ensures |rows| == |ps|
  {
    seq(|ps|, i requires 0 <= i < |ps| => Row(PeriodLabel(mode, ps[i].key), ps[i].mean))
  }

  /** What the script prints, and whether it ends normally: nothing at all
      when the header or a data line is rejected. */
  datatype ToolRun = ToolRun(heading: Option<string>, rows: seq<Row>, completed: bool)

  /** The whole script over the lines of standard input. */
  function Tool(mode: Mode, input: seq<string>): (r: ToolRun)
    ensures r.heading.None? <==> input == [] || !HeaderValid(input[0]) || ParseLines(input[1..]).None?
    ensures r.heading.None? ==> r.rows == [] && !r.completed
  {
    if input == [] || !HeaderValid(input[0]) then ToolRun(None, [], false)
    else match ParseLines(input[1..])
      case None => ToolRun(None, [], false)
      case Some(rs) =>
        var out := ProcessData(PeriodFn(mode), Prepare(rs));
        ToolRun(Some(Heading(mode)), Rows(mode, out.periods), out.completed)
  }

  /** The reading loop over the data lines: it stops at the first line
      that does not parse. */
  method ReadAll<T>(lines: seq<string>, parse: string -> Option<T>) returns (r: Option<seq<T>>)
    ensures r == ParseAll(lines, parse)
  {
    var rs: seq<T> := [];
    var i := 0;
    while i < |lines|
      invariant 0 <= i <= |lines|
      invariant ParseAll(lines[..i], parse) == Some(rs)
    {
      var parsed := parse(lines[i]);
      if parsed.None? {
        ParseAllStops(lines, parse, i);
        return None;
      }
      ParseAllSnoc(lines, parse, i);
      rs := rs + [parsed.value];
      i := i + 1;
    }
    assert lines[..i] == lines;
    r := Some(rs);
  }

  /** A line that does not parse makes the whole read fail. */
  lemma ParseAllStops<T>(lines: seq<string>, parse: string -> Option<T>, i: nat)
    requires i < |lines| && parse(lines[i]).None?
    ensures ParseAll(lines, parse) == None
  {
    assert !parse(lines[i]).Some?;
  }

  /** Reading one more line that parses appends its value. */
  lemma ParseAllSnoc<T>(lines: seq<string>, parse: string -> Option<T>, i: nat)
    requires i < |lines| && ParseAll(lines[..i], parse).Some? && parse(lines[i]).Some?
    ensures ParseAll(lines[..i + 1], parse) == Some(ParseAll(lines[..i], parse).value + [parse(lines[i]).value])
  {
    assert lines[..i + 1][..i] == lines[..i];
  }

  /** The dictionary round trip keeps real dates only. */
  lemma PreparedValid(rs: seq<Reading>)
    requires AllValid(rs)
    ensures AllValid(Prepare(rs))
  {
    PrepareSpec(rs);
    var d := Prepare(rs);
    forall i | 0 <= i < |d| ensures d[i].time.Valid() {
      assert d[i] in d;
    }
  }

  /** `all_data.sort(...)` in place, the dictionary round trip, and
      `process_data` with the mode's key function. */
  method SortAndProcess(mode: Mode, rs: seq<Reading>) returns (out: Output)
    requires AllValid(rs)
    ensures out == ProcessData(PeriodFn(mode), Prepare(rs))
  {
    var n := |rs|;
    var a := new Reading[n](i requires 0 <= i < n => rs[i]);
    assert a[..] == rs;
    SortInPlace(a, Key);
    var allData := DictItems(a[..]);
    PreparedValid(rs);
    out := RunProcessData(PeriodFn(mode), allData);
  }

  /** The script: check the header, read the data, print the heading and
      run `process_data`; the labels are `format_period` of the keys. */
  method RunTool(mode: Mode, input: seq<string>) returns (run: ToolRun)
    ensures run == Tool(mode, input)
  {
    var header := if |input| == 0 then "" else input[0];
    if !HeaderValid(header) {
      return ToolRun(None, [], false);
    }
    var parsed := ReadAll(input[1..], ParseLine);
    if parsed.None? {
      return ToolRun(None, [], false);
    }
    ParsedValid(input[1..]);
    var out := SortAndProcess(mode, parsed.value);
    run := ToolRun(Some(Heading(mode)), Rows(mode, out.periods), out.completed);
  }

  // ---------------------------------------------------------------- properties of the tool

  /** Each printed key is the key of the sample that starts its block, for
      any monotone period function and any mean defined on runs. */
  lemma StartKeys(period: DateTime -> PeriodKey, mean: seq<Reading> -> Option<real>, rs: seq<Reading>)
    requires Monotone(period) && DefinedOnRuns(mean) && AllValid(rs) && StrictlyIncreasing(rs) && rs != []
    ensures |Process(period, mean, rs).periods| <= |Starts(period, rs)|
    ensures forall j :: 0 <= j < |Process(period, mean, rs).periods| ==>
              Process(period, mean, rs).periods[j].key == period(rs[Starts(period, rs)[j]].time)
  {
    ProcessBlocks(period, mean, rs);
    var ps, ss := Process(period, mean, rs).periods, Starts(period, rs);
    var closed := ps[..|ss| - 1];
    forall j | 0 <= j < |ps| ensures ps[j].key == period(rs[ss[j]].time) {
      if j < |closed| {
        ClosedKey(period, mean, rs, ss, closed, j);
      }
    }
  }

  /** A closed period carries the key of the sample that opened it. */
  lemma ClosedKey(period: DateTime -> PeriodKey, mean: seq<Reading> -> Option<real>, rs: seq<Reading>, ss: seq<nat>, ps: seq<Period>, j: nat)
    requires ClosedPeriods(period, mean, rs, ss, ps) && j < |ps|
    ensures ss[j] < |rs| && ps[j].key == period(rs[ss[j]].time)
  {
    assert Closes(period, mean, rs, ss[j], ss[j + 1], ps[j]);
  }

  /** A closed period's mean covers its block and the first sample of the
      next. */
  lemma ClosedSpan(period: DateTime -> PeriodKey, mean: seq<Reading> -> Option<real>, rs: seq<Reading>, ss: seq<nat>, ps: seq<Period>, j: nat)
    requires ClosedPeriods(period, mean, rs, ss, ps) && j < |ps|
    ensures ss[j] < ss[j + 1] < |rs| && mean(rs[ss[j]..ss[j + 1] + 1]) == Some(ps[j].mean)
  {
    assert Closes(period, mean, rs, ss[j], ss[j + 1], ps[j]);
  }

  /** The same for the tool's period function and mean. */
  lemma KeysAtStarts(mode: Mode, rs: seq<Reading>)
    requires AllValid(rs) && StrictlyIncreasing(rs) && rs != []
    ensures |ProcessData(PeriodFn(mode), rs).periods| <= |Starts(PeriodFn(mode), rs)|
    ensures forall j :: 0 <= j < |ProcessData(PeriodFn(mode), rs).periods| ==>
              ProcessData(PeriodFn(mode), rs).periods[j].key == PeriodOf(mode, rs[Starts(PeriodFn(mode), rs)[j]].time)
  {
    PeriodFnMonotone(mode);
    MeanDefinedOnRuns();
    StartKeys(PeriodFn(mode), Mean, rs);
  }

  /** The boundary rule of the loop: a period that a later sample closes
      is printed with the mean of its own samples and of that later
      sample, the first of the next period. The tool's period functions and
      mean meet the requirements (`PeriodFnMonotone`, `MeanDefinedOnRuns`). */
  lemma ClosedMean(period: DateTime -> PeriodKey, mean: seq<Reading> -> Option<real>, rs: seq<Reading>, j: nat)
    requires Monotone(period) && DefinedOnRuns(mean) && AllValid(rs) && StrictlyIncreasing(rs)
    requires rs != [] && j + 1 < |Starts(period, rs)|
    ensures j < |Process(period, mean, rs).periods|
    ensures Starts(period, rs)[j] < Starts(period, rs)[j + 1] < |rs|
    ensures period(rs[Starts(period, rs)[j + 1] - 1].time) != period(rs[Starts(period, rs)[j + 1]].time)
    ensures mean(rs[Starts(period, rs)[j]..Starts(period, rs)[j + 1] + 1]) == Some(Process(period, mean, rs).periods[j].mean)
  {
    ProcessBlocks(period, mean, rs);
    var ps, ss := Process(period, mean, rs).periods, Starts(period, rs);
    var closed := ps[..|ss| - 1];
    ClosedSpan(period, mean, rs, ss, closed, j);
    assert closed[j] == ps[j];
    StartsMembers(period, rs);
    assert ss[j + 1] in ss;
  }

  /** No label is printed twice. */
  lemma LabelsDistinct(mode: Mode, rs: seq<Reading>)
    requires AllValid(rs) && StrictlyIncreasing(rs)
    ensures forall i, j :: 0 <= i < j < |Rows(mode, ProcessData(PeriodFn(mode), rs).periods)| ==>
              Rows(mode, ProcessData(PeriodFn(mode), rs).periods)[i].name != Rows(mode, ProcessData(PeriodFn(mode), rs).periods)[j].name
  {
    var ps := ProcessData(PeriodFn(mode), rs).periods;
    ProcessKeysIncreasing(PeriodFn(mode), Mean, rs);
    if rs != [] {
      KeysAtStarts(mode, rs);
      var ss := Starts(PeriodFn(mode), rs);
      forall i, j | 0 <= i < j < |ps| ensures PeriodLabel(mode, ps[i].key) != PeriodLabel(mode, ps[j].key) {
        LabelInjective(mode, rs[ss[i]].time, rs[ss[j]].time);
      }
    }
  }

  /** The run over valid header and data. */
  lemma ToolRuns(mode: Mode, input: seq<string>, rs: seq<Reading>)
    requires |input| >= 1 && HeaderValid(input[0]) && ParseLines(input[1..]) == Some(rs)
    ensures Tool(mode, input) == ToolRun(Some(Heading(mode)), Rows(mode, ProcessData(PeriodFn(mode), Prepare(rs)).periods),
                                         ProcessData(PeriodFn(mode), Prepare(rs)).completed)
  {
  }

  /** `process_data` over prepared samples ends normally exactly when the
      last period holds two samples or more. */
  lemma ProcessCompletes(mode: Mode, d: seq<Reading>)
    requires AllValid(d) && StrictlyIncreasing(d)
    ensures ProcessData(PeriodFn(mode), d).completed <==> d != [] && LastStart(PeriodFn(mode), d) < |d| - 1
  {
    PeriodFnMonotone(mode);
    MeanDefinedOnRuns();
    ProcessBlocks(PeriodFn(mode), Mean, d);
  }

  /** After a valid header and data: the heading is printed, the prepared
      samples are strictly increasing, the run ends normally exactly when
      the last period holds two samples or more, and every label is
      distinct. */
  lemma ToolSpec(mode: Mode, input: seq<string>, rs: seq<Reading>)
    requires |input| >= 1 && HeaderValid(input[0]) && ParseLines(input[1..]) == Some(rs)
    ensures Tool(mode, input).heading == Some(Heading(mode))
    ensures AllValid(Prepare(rs)) && StrictlyIncreasing(Prepare(rs))
    ensures Tool(mode, input).completed <==>
              Prepare(rs) != [] && LastStart(PeriodFn(mode), Prepare(rs)) < |Prepare(rs)| - 1
    ensures forall i, j :: 0 <= i < j < |Tool(mode, input).rows| ==> Tool(mode, input).rows[i].name != Tool(mode, input).rows[j].name
  {
    ToolRuns(mode, input, rs);
    ParsedValid(input[1..]);
    PreparedValid(rs);
    PrepareSpec(rs);
    ProcessCompletes(mode, Prepare(rs));
    LabelsDistinct(mode, Prepare(rs));
  }
}
