/** The glucose chart's weekly series, `_calculate_weekly_mean`: readings
    are bucketed by ISO 8601 week (`"{iso_year}/W{iso_week:02d}"`), the
    buckets are visited in sorted key order, and every bucket with a
    defined time-weighted mean contributes that mean rounded to two places. */
module WeeklyChart {
  import opened Wrappers
  import opened Text
  import opened Calendar
  import opened TimeWeighted
  import opened Rounding
  import opened Readings
  import opened Grouping

  /** `f'{iso_year}/W{iso_week:02d}'`. */
  function WeekLabel(isoYear: int, isoWeek: nat): string {
    IntToString(isoYear) + "/W" + PadZeros(isoWeek, 2)
  }

  /** The bucket of a reading: the label of its ISO week. Every stored
      timestamp parses, so the empty label of an invalid date is never
      produced for a row of the store. */
  function WeekKey(r: Reading): string {
    if r.time.Valid() then
      IsoCalendarCorrect(r.time.year, r.time.month, r.time.day);
      WeekLabel(r.time.Iso().year, r.time.Iso().week)
    else ""
  }

  /** `weekly_data[label]` after the loop: the readings with that label, in
      row order. */
  function Bucket(rows: seq<Reading>, key: string): (b: seq<Reading>)
    requires AllValid(rows)
    ensures AllValid(b)
    ensures forall r :: r in b <==> r in rows && WeekKey(r) == key
  {
    GroupMembers(rows, WeekKey, key);
    var b := Group(rows, WeekKey, key);
    assert forall i :: 0 <= i < |b| ==> b[i] in rows;
    b
  }

  /** `weekly_data.keys()`: each label once, in order of first appearance. */
  function FirstSeen(rows: seq<Reading>): (ks: seq<string>)
    ensures Distinct(ks)
  {
    KeysInOrder(rows, WeekKey)
  }

  /** Insert `x` after every trailing label that does not sort above it. */
  function InsertLabel(s: seq<string>, x: string): (r: seq<string>)
    ensures multiset(r) == multiset(s) + multiset{x}
  {
    if s == [] || !LexLess(x, s[|s| - 1]) then s + [x]
    else
      assert s == s[..|s| - 1] + [s[|s| - 1]];
      InsertLabel(s[..|s| - 1], x) + [s[|s| - 1]]
  }

  /** `sorted(labels)`: string order, which is code-point order. */
  function SortLabels(s: seq<string>): (r: seq<string>)
    ensures multiset(r) == multiset(s)
  {
    if s == [] then []
    else
      assert s == s[..|s| - 1] + [s[|s| - 1]];
      InsertLabel(SortLabels(s[..|s| - 1]), s[|s| - 1])
  }

  /** One point of the chart: `{'week': label, 'mean': round(mean, 2)}`. */
  datatype WeekMean = WeekMean(week: string, mean: real)

  /** The time-weighted mean of each bucket. */
  function BucketMeans(rows: seq<Reading>): string -> Option<real>
    requires AllValid(rows)
  {
    k => TwMean(Points(Bucket(rows, k)))
  }

  /** The chart points for `labels`, in that order, given the mean of each
      bucket; buckets whose mean is undefined are skipped. */
  function MeansFor(labels: seq<string>, mean: string -> Option<real>): seq<WeekMean> {
    if labels == [] then []
    else
      var last := labels[|labels| - 1];
      MeansFor(labels[..|labels| - 1], mean)
      + match mean(last)
        case None => []
        case Some(m) => [WeekMean(last, Round2(m))]
  }

  /** What `_calculate_weekly_mean(rows)` returns. */
  function WeeklyMeans(rows: seq<Reading>): seq<WeekMean>
    requires AllValid(rows)
  {
    if |rows| < 2 then [] else MeansFor(SortLabels(FirstSeen(rows)), BucketMeans(rows))
  }

  /** The dictionary after the loop has seen `seen`: its insertion-ordered
      keys are the labels in order of first appearance, and each label maps
      to its bucket. */
  predicate Filled(seen: seq<Reading>, keys: seq<string>, weeklyData: map<string, seq<Reading>>) {
    && keys == KeysInOrder(seen, WeekKey)
    && weeklyData.Keys == set k | k in keys
    && forall k :: k in weeklyData ==> weeklyData[k] == Group(seen, WeekKey, k)
  }

  /** One step of the first loop: `weekly_data[week_key].append(row)`. */
  lemma FilledStep(seen: seq<Reading>, row: Reading, keys: seq<string>, weeklyData: map<string, seq<Reading>>)
    requires Filled(seen, keys, weeklyData)
    ensures var k := WeekKey(row);
            if k in weeklyData then Filled(seen + [row], keys, weeklyData[k := weeklyData[k] + [row]])
            else Filled(seen + [row], keys + [k], weeklyData[k := [row]])
  {
    var k := WeekKey(row);
    KeysInOrderSnoc(seen, row, WeekKey);
    forall k' ensures Group(seen + [row], WeekKey, k') == Group(seen, WeekKey, k') + (if k == k' then [row] else []) {
      GroupSnoc(seen, row, WeekKey, k');
    }
    if k !in weeklyData {
      GroupEmpty(seen, WeekKey, k);
    }
  }

  /** A sorted label is a key of the filled dictionary, holding its bucket. */
  lemma LookupBucket(rows: seq<Reading>, keys: seq<string>, weeklyData: map<string, seq<Reading>>, key: string)
    requires AllValid(rows) && Filled(rows, keys, weeklyData) && key in SortLabels(keys)
    ensures key in weeklyData && weeklyData[key] == Bucket(rows, key)
    ensures BucketMeans(rows)(key) == TwMean(Points(weeklyData[key]))
  {
    assert key in multiset(SortLabels(keys));
    assert key in multiset(keys);
  }

  /** One step of the second loop. */
  lemma MeansForSnoc(labels: seq<string>, key: string, mean: string -> Option<real>)
    ensures MeansFor(labels + [key], mean) == MeansFor(labels, mean) +
              match mean(key)
              case None => []
              case Some(m) => [WeekMean(key, Round2(m))]
  {
    assert (labels + [key])[..|labels|] == labels;
  }

  /** The first loop of `_calculate_weekly_mean`: append each row to the
      list of its week label. The dictionary is its insertion-ordered key
      list `keys` and its map `weeklyData`. */
  method FillBuckets(rows: seq<Reading>) returns (keys: seq<string>, weeklyData: map<string, seq<Reading>>)
    ensures Filled(rows, keys, weeklyData)
  {
    weeklyData := map[];
    keys := [];
    for i := 0 to |rows|
      invariant Filled(rows[..i], keys, weeklyData)
    {
      var row := rows[i];
      var weekKey := WeekKey(row);
      FilledStep(rows[..i], row, keys, weeklyData);
      TakeSnoc(rows, i);
      if weekKey in weeklyData {
        weeklyData := weeklyData[weekKey := weeklyData[weekKey] + [row]];
      } else {
        weeklyData := weeklyData[weekKey := [row]];
        keys := keys + [weekKey];
      }
    }
    assert rows[..|rows|] == rows;
  }

  /** `_calculate_weekly_mean`: fill the buckets in one pass over the rows,
      then emit the defined means in sorted label order. */
  method CalculateWeeklyMean(rows: seq<Reading>) returns (result: seq<WeekMean>)
    requires AllValid(rows)
    ensures result == WeeklyMeans(rows)
  {
    if |rows| < 2 {
      return [];
    }
    var keys, weeklyData := FillBuckets(rows);
    var labels := SortLabels(keys);
    result := [];
    for j := 0 to |labels|
      invariant result == MeansFor(labels[..j], BucketMeans(rows))
    {
      var key := labels[j];
      LookupBucket(rows, keys, weeklyData, key);
      var data := weeklyData[key];
      var mean := TimeWeightedMean(Points(data));
      MeansForSnoc(labels[..j], key, BucketMeans(rows));
      TakeSnoc(labels, j);
      if mean.Some? {
        result := result + [WeekMean(key, Round2(mean.value))];
      }
    }
    assert labels[..|labels|] == labels;
  }

  // ---------------------------------------------------------------- buckets

  /** Buckets keep the row order, so chronological rows give chronological
      buckets. */
  lemma BucketChronological(rows: seq<Reading>, key: string)
    requires AllValid(rows) && Chronological(rows)
    ensures Chronological(Bucket(rows, key))
  {
    GroupKeepsOrder(rows, WeekKey, key, NotLater);
  }

  /** Each row lands in exactly one bucket: the buckets of the labels hold
      `len(rows)` readings between them. */
  lemma BucketsPartition(rows: seq<Reading>)
    requires AllValid(rows)
    ensures GroupSizes(FirstSeen(rows), rows, WeekKey) == |rows|
    ensures forall r :: r in rows ==> WeekKey(r) in FirstSeen(rows)
  {
    GroupsPartition(rows, WeekKey);
    KeysInOrderMembers(rows, WeekKey);
    forall r | r in rows ensures WeekKey(r) in FirstSeen(rows) {
      var i :| 0 <= i < |rows| && rows[i] == r;
    }
  }

  // ---------------------------------------------------------------- labels

  /** Two readings share a bucket exactly when they fall in the same ISO
      year and week. */
  lemma WeekKeySameWeek(a: Reading, b: Reading)
    requires a.time.Valid() && b.time.Valid()
    ensures WeekKey(a) == WeekKey(b) <==>
            a.time.Iso().year == b.time.Iso().year && a.time.Iso().week == b.time.Iso().week
  {
    IsoCalendarCorrect(a.time.year, a.time.month, a.time.day);
    IsoCalendarCorrect(b.time.year, b.time.month, b.time.day);
    var ia, ib := a.time.Iso(), b.time.Iso();
    if WeekKey(a) == WeekKey(b) {
      WeekLabelInjective(ia.year, ia.week, ib.year, ib.week);
    }
  }

  lemma WeekLabelInjective(y1: int, w1: nat, y2: int, w2: nat)
    requires w1 < 100 && w2 < 100
    requires WeekLabel(y1, w1) == WeekLabel(y2, w2)
    ensures y1 == y2 && w1 == w2
  {
    assert Pow10(2) == 100;
    PadZerosValue(w1, 2);
    PadZerosValue(w2, 2);
    var l := WeekLabel(y1, w1);
    var p1, p2 := IntToString(y1) + "/W", IntToString(y2) + "/W";
    assert l == p1 + PadZeros(w1, 2) && l == p2 + PadZeros(w2, 2);
    assert PadZeros(w1, 2) == l[|l| - 2..] == PadZeros(w2, 2);
    assert p1 == l[..|l| - 2] == p2;
    assert IntToString(y1) == p1[..|p1| - 2] && IntToString(y2) == p2[..|p2| - 2];
    IntToStringInjective(y1, y2);
  }

  /** Weeks start on Monday: two readings share a bucket exactly when the
      Mondays of their weeks coincide. */
  lemma SameBucketIffSameMonday(a: Reading, b: Reading)
    requires a.time.Valid() && b.time.Valid()
    ensures var na, nb := a.time.DayOrdinal(), b.time.DayOrdinal();
            WeekKey(a) == WeekKey(b) <==> na - Weekday(na) == nb - Weekday(nb)
  {
    WeekKeySameWeek(a, b);
    SameIsoWeekIffSameMonday(a.time.year, a.time.month, a.time.day, b.time.year, b.time.month, b.time.day);
  }

  lemma {:induction false} InsertLabelAscending(s: seq<string>, x: string)
    requires StrictlyAscending(s) && x !in s
    ensures StrictlyAscending(InsertLabel(s, x))
    decreases |s|
  {
    var r := InsertLabel(s, x);
    if s == [] || !LexLess(x, s[|s| - 1]) {
      if s != [] {
        LexLessTotal(x, s[|s| - 1]);
        forall i | 0 <= i < |s| ensures LexLess(s[i], x) {
          if i < |s| - 1 {
            LexLessTransitive(s[i], s[|s| - 1], x);
          }
        }
      }
    } else {
      var init, last := s[..|s| - 1], s[|s| - 1];
      assert StrictlyAscending(init);
      InsertLabelAscending(init, x);
      var r0 := InsertLabel(init, x);
      forall i | 0 <= i < |r0| ensures LexLess(r0[i], last) {
        assert r0[i] in multiset(r0);
        if r0[i] != x {
          assert r0[i] in multiset(init);
          var j :| 0 <= j < |init| && init[j] == r0[i];
          assert LexLess(s[j], s[|s| - 1]);
        }
      }
    }
  }

  /** `sorted` of distinct labels is strictly ascending and holds the same
      labels. */
  lemma {:induction false} SortLabelsAscending(s: seq<string>)
    requires Distinct(s)
    ensures StrictlyAscending(SortLabels(s))
    ensures forall k :: k in SortLabels(s) <==> k in s
  {
    var r := SortLabels(s);
    forall k ensures k in r <==> k in s {
      assert k in r <==> k in multiset(r);
      assert k in s <==> k in multiset(s);
    }
    if s != [] {
      var init, last := s[..|s| - 1], s[|s| - 1];
      assert Distinct(init);
      SortLabelsAscending(init);
      assert last !in init;
      InsertLabelAscending(SortLabels(init), last);
    }
  }

  // ---------------------------------------------------------------- the chart

  function Weeks(ms: seq<WeekMean>): (ws: seq<string>)
    ensures |ws| == |ms| && forall i :: 0 <= i < |ms| ==> ws[i] == ms[i].week
  {
    if ms == [] then [] else Weeks(ms[..|ms| - 1]) + [ms[|ms| - 1].week]
  }

  /** The week's mean is defined and the point carries it rounded to two
      places. */
  predicate PointOf(p: WeekMean, mean: string -> Option<real>) {
    mean(p.week).Some? && p.mean == Round2(mean(p.week).value)
  }

  /** Every point of `MeansFor(labels, mean)` is for one of `labels` and
      carries its rounded mean. */
  lemma {:induction false} MeansForSound(labels: seq<string>, mean: string -> Option<real>)
    ensures forall p :: p in MeansFor(labels, mean) ==> p.week in labels && PointOf(p, mean)
  {
    if labels != [] {
      var init, last := labels[..|labels| - 1], labels[|labels| - 1];
      MeansForSound(init, mean);
      MeansForSnoc(init, last, mean);
      assert labels == init + [last];
    }
  }

  /** The points come in the order of `labels`. */
  lemma {:induction false} MeansForAscending(labels: seq<string>, mean: string -> Option<real>)
    requires StrictlyAscending(labels)
    ensures StrictlyAscending(Weeks(MeansFor(labels, mean)))
  {
    if labels != [] {
      var init, last := labels[..|labels| - 1], labels[|labels| - 1];
      assert StrictlyAscending(init);
      MeansForAscending(init, mean);
      MeansForSound(init, mean);
      var ms0 := MeansFor(init, mean);
      var ws0 := Weeks(ms0);
      forall i | 0 <= i < |ws0| ensures LexLess(ws0[i], last) {
        assert ms0[i] in ms0;
        var j :| 0 <= j < |init| && init[j] == ms0[i].week;
        assert labels[j] == init[j];
      }
      var extra := match mean(last) case None => [] case Some(m) => [WeekMean(last, Round2(m))];
      assert labels == init + [last];
      MeansForSnoc(init, last, mean);
      WeeksAppend(ms0, extra);
      if mean(last).Some? {
        assert Weeks(extra) == [last];
        AscendingSnoc(ws0, last);
      } else {
        assert ws0 + Weeks(extra) == ws0;
      }
    }
  }

  lemma {:induction false} WeeksAppend(a: seq<WeekMean>, b: seq<WeekMean>)
    ensures Weeks(a + b) == Weeks(a) + Weeks(b)
  {
    if b != [] {
      var ab := a + b;
      assert ab[..|ab| - 1] == a + b[..|b| - 1];
      WeeksAppend(a, b[..|b| - 1]);
    } else {
      assert a + b == a;
    }
  }

  /** Every label with a defined mean gets a point. */
  lemma {:induction false} MeansForComplete(labels: seq<string>, mean: string -> Option<real>)
    ensures forall k :: k in labels && mean(k).Some? ==> k in Weeks(MeansFor(labels, mean))
  {
    if labels != [] {
      var init, last := labels[..|labels| - 1], labels[|labels| - 1];
      MeansForComplete(init, mean);
      MeansForSnoc(init, last, mean);
      assert labels == init + [last];
      var ms0 := MeansFor(init, mean);
      var extra := match mean(last) case None => [] case Some(m) => [WeekMean(last, Round2(m))];
      WeeksAppend(ms0, extra);
      assert Weeks(MeansFor(labels, mean)) == Weeks(ms0) + Weeks(extra);
      assert mean(last).Some? ==> Weeks(extra) == [last];
    }
  }

  /** The chart for at least two rows: labels strictly ascending, one point
      per week whose bucket has a defined mean, each point that mean rounded
      to two places. With fewer than two rows the chart is empty. */
  lemma WeeklyMeansSpec(rows: seq<Reading>)
    requires AllValid(rows)
    ensures |rows| < 2 ==> WeeklyMeans(rows) == []
    ensures StrictlyAscending(Weeks(WeeklyMeans(rows)))
    ensures forall p :: p in WeeklyMeans(rows) ==>
              && p.week in FirstSeen(rows)
              && TwMean(Points(Bucket(rows, p.week))).Some?
              && p.mean == Round2(TwMean(Points(Bucket(rows, p.week))).value)
    ensures |rows| >= 2 ==> forall k :: k in FirstSeen(rows) && TwMean(Points(Bucket(rows, k))).Some? ==> k in Weeks(WeeklyMeans(rows))
  {
    if |rows| >= 2 {
      var labels, mean := SortLabels(FirstSeen(rows)), BucketMeans(rows);
      SortLabelsAscending(FirstSeen(rows));
      MeansForSound(labels, mean);
      MeansForAscending(labels, mean);
      MeansForComplete(labels, mean);
    }
  }

  /** For chronological readings with levels in `[lo, hi]`, every weekly
      point lies in `[lo, hi]` too. */
  lemma WeeklyMeansWithin(rows: seq<Reading>, lo: int, hi: int)
    requires AllValid(rows) && Chronological(rows)
    requires forall i :: 0 <= i < |rows| ==> lo <= rows[i].level <= hi
    ensures forall p :: p in WeeklyMeans(rows) ==> lo as real <= p.mean <= hi as real
  {
    WeeklyMeansSpec(rows);
    var ms := WeeklyMeans(rows);
    forall p | p in ms ensures lo as real <= p.mean <= hi as real {
      var b := Bucket(rows, p.week);
      BucketChronological(rows, p.week);
      assert forall i :: 0 <= i < |b| ==> lo <= b[i].level <= hi by {
        forall i | 0 <= i < |b| ensures lo <= b[i].level <= hi {
          assert b[i] in rows;
        }
      }
      PointsOrdered(b);
      PointsWithin(b, lo, hi);
      TwMeanWithin(Points(b), lo, hi);
      var m := TwMean(Points(b)).value;
      RoundToWithin(m, 100, lo, hi);
    }
  }
}
