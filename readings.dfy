/** Timestamped readings as the store and the command-line tool hold them:
    a glucose row `(timestamp, level)`, and its position on the time axis
    for the time-weighted mean. */
module Readings {
  import opened Calendar
  import opened TimeWeighted
  import opened Grouping

  /** A glucose row: its timestamp and its integer level. */
  datatype Reading = Reading(time: DateTime, level: int)

  predicate AllValid(rs: seq<Reading>) {
    forall i :: 0 <= i < |rs| ==> rs[i].time.Valid()
  }

  /** `a` is taken no later than `b`. */
  predicate NotLater(a: Reading, b: Reading) {
    a.time.Valid() && b.time.Valid() && a.time.Seconds() <= b.time.Seconds()
  }

  /** Readings in non-decreasing time order, as `ORDER BY timestamp` and
      `sort(key=lambda x: x[0])` leave them. */
  predicate Chronological(rs: seq<Reading>) {
    Pairwise(rs, NotLater)
  }

  /** `(dt, level)` on the time axis: `(t1 - t0).total_seconds()` is the
      difference of the `t` components. */
  function ToPoint(r: Reading): Point
    requires r.time.Valid()
  {
    Point(r.time.Seconds(), r.level)
  }

  function Points(rs: seq<Reading>): (ps: seq<Point>)
    requires AllValid(rs)
    ensures |ps| == |rs|
    ensures forall i :: 0 <= i < |rs| ==> ps[i] == ToPoint(rs[i])
  {
    if rs == [] then [] else Points(rs[..|rs| - 1]) + [ToPoint(rs[|rs| - 1])]
  }

  lemma PointsOrdered(rs: seq<Reading>)
    requires AllValid(rs) && Chronological(rs)
    ensures TimeOrdered(Points(rs))
  {
    forall i, j | 0 <= i < j < |rs| ensures Points(rs)[i].t <= Points(rs)[j].t {
      assert NotLater(rs[i], rs[j]);
    }
  }

  /** The levels of the readings bound the levels of the points. */
  lemma PointsWithin(rs: seq<Reading>, lo: int, hi: int)
    requires AllValid(rs)
    requires forall i :: 0 <= i < |rs| ==> lo <= rs[i].level <= hi
    ensures LevelsWithin(Points(rs), lo, hi)
  {
  }
}
