/** The trapezoidal time-weighted mean of glucose readings, shared by the
    server's `_time_weighted_mean` and the command-line `TimeWeightedMean`:
    the area under the piecewise-linear curve through the readings, divided
    by the time the readings span. */
module TimeWeighted {
  import opened Wrappers

  /** A reading `v` taken `t` seconds after a fixed origin. */
  datatype Point = Point(t: int, v: int)

  /** Area of the trapezoid between two consecutive readings,
      `(v0 + v1) / 2.0 * delta_t`. */
  function Trapezoid(p: Point, q: Point): real {
    (p.v + q.v) as real / 2.0 * (q.t - p.t) as real
  }

  /** `total_area` after the loop: the trapezoids of consecutive pairs. */
  function Area(data: seq<Point>): real {
    if |data| < 2 then 0.0
    else Area(data[..|data| - 1]) + Trapezoid(data[|data| - 2], data[|data| - 1])
  }

  /** `total_time` after the loop: the sum of the gaps between consecutive
      readings. */
  function Elapsed(data: seq<Point>): int {
    if |data| < 2 then 0
    else Elapsed(data[..|data| - 1]) + (data[|data| - 1].t - data[|data| - 2].t)
  }

  /** The mean the code computes: none for fewer than two readings or no
      elapsed time, otherwise total area over total time. */
  function TwMean(data: seq<Point>): Option<real> {
    if |data| < 2 then None
    else if Elapsed(data) == 0 then None
    else Some(Area(data) / Elapsed(data) as real)
  }

  /** `_time_weighted_mean(data)` / `TimeWeightedMean(data)`, with the
      accumulating loop over consecutive pairs. */
  method TimeWeightedMean(data: seq<Point>) returns (mean: Option<real>)
    ensures mean == TwMean(data)
  {
    if |data| < 2 {
      return None;
    }
    var totalArea := 0.0;
    var totalTime := 0.0;
    var i := 1;
    while i < |data|
      invariant 1 <= i <= |data|
      invariant totalArea == Area(data[..i])
      invariant totalTime == Elapsed(data[..i]) as real
    {
      var t0, v0 := data[i - 1].t, data[i - 1].v;
      var t1, v1 := data[i].t, data[i].v;
      var deltaT := (t1 - t0) as real;
      var area := (v0 + v1) as real / 2.0 * deltaT;
      assert data[..i + 1][..i] == data[..i];
      totalArea := totalArea + area;
      totalTime := totalTime + deltaT;
      i := i + 1;
    }
    assert data[..i] == data;
    if totalTime == 0.0 {
      return None;
    }
    return Some(totalArea / totalTime);
  }

  // ---------------------------------------------------------------- properties

  /** The gaps telescope: the total time is the last time minus the first. */
  lemma {:induction false} ElapsedTelescopes(data: seq<Point>)
    requires |data| >= 1
    ensures Elapsed(data) == data[|data| - 1].t - data[0].t
  {
    if |data| >= 2 {
      var init := data[..|data| - 1];
      ElapsedTelescopes(init);
      assert init[0] == data[0] && init[|init| - 1] == data[|data| - 2];
    }
  }

  /** There is no mean exactly when there are fewer than two readings or the
      first and the last reading share a time. */
  lemma TwMeanUndefined(data: seq<Point>)
    ensures TwMean(data).None? <==> |data| < 2 || data[|data| - 1].t == data[0].t
  {
    if |data| >= 2 {
      ElapsedTelescopes(data);
    }
  }

  lemma Cancel(a: real, d: real)
    requires d != 0.0
    ensures a * d / d == a
  {
  }

  /** A total between `lo * e` and `hi * e` averages to between `lo` and
      `hi`. */
  lemma MeanOfBounds(total: real, e: real, lo: real, hi: real)
    requires e > 0.0 && lo * e <= total <= hi * e
    ensures lo <= total / e <= hi
  {
  }

  /** Two readings give their plain average: 90 and 110 one hour apart give
      100. */
  lemma TwoReadings(p: Point, q: Point)
    requires p.t != q.t
    ensures TwMean([p, q]) == Some((p.v + q.v) as real / 2.0)
    ensures TwMean([Point(0, 90), Point(3600, 110)]) == Some(100.0)
  {
    var data := [p, q];
    assert data[..1] == [p];
    assert Elapsed(data) == q.t - p.t;
    var avg, dt := (p.v + q.v) as real / 2.0, (q.t - p.t) as real;
    assert Area(data) == avg * dt;
    Cancel(avg, dt);
    var d := [Point(0, 90), Point(3600, 110)];
    assert d[..1] == [Point(0, 90)];
    assert Area(d) == 100.0 * 3600.0;
  }

  predicate TimeOrdered(data: seq<Point>) {
    forall i, j :: 0 <= i < j < |data| ==> data[i].t <= data[j].t
  }

  predicate LevelsWithin(data: seq<Point>, lo: int, hi: int) {
    forall i :: 0 <= i < |data| ==> lo <= data[i].v <= hi
  }

  lemma TrapezoidWithin(p: Point, q: Point, lo: int, hi: int)
    requires p.t <= q.t && lo <= p.v <= hi && lo <= q.v <= hi
    ensures lo as real * (q.t - p.t) as real <= Trapezoid(p, q) <= hi as real * (q.t - p.t) as real
  {
    var dt := (q.t - p.t) as real;
    var avg := (p.v + q.v) as real / 2.0;
    assert lo as real <= avg <= hi as real;
    assert lo as real * dt <= avg * dt <= hi as real * dt;
  }

  /** Over time-ordered readings the area lies between the lowest and the
      highest level held for the whole time. */
  lemma {:induction false} AreaWithin(data: seq<Point>, lo: int, hi: int)
    requires TimeOrdered(data) && LevelsWithin(data, lo, hi)
    ensures lo as real * Elapsed(data) as real <= Area(data) <= hi as real * Elapsed(data) as real
  {
    if |data| >= 2 {
      var init := data[..|data| - 1];
      assert TimeOrdered(init) && LevelsWithin(init, lo, hi);
      AreaWithin(init, lo, hi);
      var p, q := data[|data| - 2], data[|data| - 1];
      TrapezoidWithin(p, q, lo, hi);
      var e0, dt := Elapsed(init) as real, (q.t - p.t) as real;
      assert Elapsed(data) as real == e0 + dt;
      assert lo as real * (e0 + dt) == lo as real * e0 + lo as real * dt;
      assert hi as real * (e0 + dt) == hi as real * e0 + hi as real * dt;
    }
  }

  /** For time-ordered readings the mean lies between the minimum and the
      maximum level. */
  lemma TwMeanWithin(data: seq<Point>, lo: int, hi: int)
    requires TimeOrdered(data) && LevelsWithin(data, lo, hi)
    requires TwMean(data).Some?
    ensures lo as real <= TwMean(data).value <= hi as real
  {
    AreaWithin(data, lo, hi);
    ElapsedTelescopes(data);
    MeanOfBounds(Area(data), Elapsed(data) as real, lo as real, hi as real);
  }

  /** A constant level is its own time-weighted mean. */
  lemma TwMeanConstant(data: seq<Point>, c: int)
    requires TimeOrdered(data) && LevelsWithin(data, c, c)
    requires TwMean(data).Some?
    ensures TwMean(data) == Some(c as real)
  {
    TwMeanWithin(data, c, c);
  }

  /** The area of two runs joined end to end: each run's own area plus the
      trapezoid across the seam. */
  lemma {:induction false} AreaSplit(x: seq<Point>, y: seq<Point>)
    requires |x| >= 1 && |y| >= 1
    ensures Area(x + y) == Area(x) + Area(y) + Trapezoid(x[|x| - 1], y[0])
  {
    var xy := x + y;
    if |y| == 1 {
      assert xy[..|xy| - 1] == x;
    } else {
      var init := y[..|y| - 1];
      assert xy[..|xy| - 1] == x + init;
      AreaSplit(x, init);
      assert init[0] == y[0];
    }
  }

  /** The elapsed time of two runs joined end to end: each run's own time
      plus the gap across the seam. */
  lemma {:induction false} ElapsedSplit(x: seq<Point>, y: seq<Point>)
    requires |x| >= 1 && |y| >= 1
    ensures Elapsed(x + y) == Elapsed(x) + Elapsed(y) + (y[0].t - x[|x| - 1].t)
  {
    var xy := x + y;
    if |y| == 1 {
      assert xy[..|xy| - 1] == x;
    } else {
      var init := y[..|y| - 1];
      assert xy[..|xy| - 1] == x + init;
      ElapsedSplit(x, init);
      assert init[0] == y[0];
    }
  }

  /** A reading on the straight line through its neighbours splits their
      trapezoid into two whose areas add up to it. */
  lemma TrapezoidCollinear(p: Point, m: Point, q: Point)
    requires (m.v - p.v) * (q.t - p.t) == (q.v - p.v) * (m.t - p.t)
    ensures Trapezoid(p, m) + Trapezoid(m, q) == Trapezoid(p, q)
  {
    assert (p.v + m.v) * (m.t - p.t) + (m.v + q.v) * (q.t - m.t) == (p.v + q.v) * (q.t - p.t);
  }

  /** The curve is piecewise linear, so a reading lying on the line through
      its two neighbours changes neither the area nor the time, and the
      mean is the same with or without it. */
  lemma TwMeanCollinear(a: seq<Point>, p: Point, m: Point, q: Point, b: seq<Point>)
    requires (m.v - p.v) * (q.t - p.t) == (q.v - p.v) * (m.t - p.t)
    ensures TwMean(a + [p, m, q] + b) == TwMean(a + [p, q] + b)
  {
    var left, right := a + [p], [q] + b;
    var lm := left + [m];
    assert a + [p, m, q] + b == lm + right;
    assert a + [p, q] + b == left + right;
    AreaSplit(left, [m]);
    AreaSplit(lm, right);
    AreaSplit(left, right);
    ElapsedSplit(left, [m]);
    ElapsedSplit(lm, right);
    ElapsedSplit(left, right);
    TrapezoidCollinear(p, m, q);
  }
}
