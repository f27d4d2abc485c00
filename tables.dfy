/** The SQLite tables the server reads and writes, held as sequences of
    rows in insertion (rowid) order, and the generic filter that stands for
    a `WHERE` clause. */
module Tables {
  import opened Wrappers
  import opened Calendar
  import opened Grouping

  /** A row of `nutrition`: `kcal` kilocalories per `weight` grams. */
  datatype NutritionRow = NutritionRow(id: int, name: string, kcal: real, weight: real)

  /** The generated column `kcal_per_gram = kcal / weight`; SQLite divides
      by zero to `NULL`. */
  function KcalPerGram(n: NutritionRow): (r: Option<real>)
    ensures r.None? <==> n.weight == 0.0
    ensures r.Some? ==> r.value * n.weight == n.kcal
  {
    if n.weight == 0.0 then None else Some(n.kcal / n.weight)
  }

  /** A row of `intake`, without its own `id`. */
  datatype IntakeRow = IntakeRow(nutritionId: int, time: DateTime, amount: real, kcal: real)

  /** A row of `insulin`: its timestamp and its `REAL` dose. */
  datatype InsulinRow = InsulinRow(time: DateTime, level: real)

  /** A row of `event`. */
  datatype EventRow = EventRow(time: DateTime, name: string)

  /** A timestamp's position in seconds; differences of it are
      `timedelta.total_seconds()`, and `julianday` differences are it
      divided by 86400. */
  function Instant(t: DateTime): int {
    if 1 <= t.month <= 12 then t.Seconds() else 0
  }

  /** `id INTEGER PRIMARY KEY`: no two nutrition rows share an id. */
  predicate UniqueIds(nutrition: seq<NutritionRow>) {
    forall i, j :: 0 <= i < j < |nutrition| ==> nutrition[i].id != nutrition[j].id
  }

  /** `SELECT ... FROM nutrition WHERE id = ?` followed by `fetchone()`. */
  function FindNutrition(nutrition: seq<NutritionRow>, id: int): (r: Option<NutritionRow>)
    ensures r.None? <==> forall i :: 0 <= i < |nutrition| ==> nutrition[i].id != id
    ensures r.Some? ==> r.value in nutrition && r.value.id == id
  {
    if nutrition == [] then None
    else if nutrition[0].id == id then Some(nutrition[0])
    else FindNutrition(nutrition[1..], id)
  }

  /** `WHERE p`: the rows satisfying `p`, in table order. */
  function Filter<T(!new)>(s: seq<T>, p: T -> bool): (r: seq<T>)
    ensures |r| <= |s|
    ensures forall x :: x in r <==> x in s && p(x)
  {
    if s == [] then []
    else
      var r := Filter(s[..|s| - 1], p);
      assert s == s[..|s| - 1] + [s[|s| - 1]];
      if p(s[|s| - 1]) then r + [s[|s| - 1]] else r
  }

  // ---------------------------------------------------------------- properties

  /** With unique ids the lookup finds the one row carrying the id. */
  lemma {:induction false} FindUnique(nutrition: seq<NutritionRow>, n: NutritionRow)
    requires UniqueIds(nutrition) && n in nutrition
    ensures FindNutrition(nutrition, n.id) == Some(n)
  {
    if nutrition[0] != n {
      assert nutrition[0].id != n.id by {
        var j :| 0 <= j < |nutrition| && nutrition[j] == n;
        assert j != 0;
      }
      var rest := nutrition[1..];
      assert n in rest by {
        var j :| 0 <= j < |nutrition| && nutrition[j] == n;
        assert rest[j - 1] == n;
      }
      assert UniqueIds(rest) by {
        forall i, j | 0 <= i < j < |rest| ensures rest[i].id != rest[j].id {
          assert rest[i] == nutrition[i + 1] && rest[j] == nutrition[j + 1];
        }
      }
      FindUnique(rest, n);
    }
  }

  /** Filtering keeps the relative order of the rows, and with it every
      ordering fact about them. */
  lemma {:induction false} FilterSubsequence<T(!new)>(s: seq<T>, p: T -> bool, le: (T, T) -> bool)
    requires Pairwise(s, le)
    ensures Pairwise(Filter(s, p), le)
  {
    if s != [] {
      var init, last := s[..|s| - 1], s[|s| - 1];
      assert forall i :: 0 <= i < |init| ==> init[i] == s[i];
      FilterSubsequence(init, p, le);
      var r0 := Filter(init, p);
      forall i | 0 <= i < |r0| ensures le(r0[i], last) {
        assert r0[i] in r0;
        var j :| 0 <= j < |init| && init[j] == r0[i];
        assert le(s[j], s[|s| - 1]);
      }
    }
  }

  /** Rows failing the filter are dropped one for one: the filter and the
      rejected rows together account for the whole table. */
  lemma {:induction false} FilterSplits<T(!new)>(s: seq<T>, p: T -> bool)
    ensures |Filter(s, p)| + |Filter(s, x => !p(x))| == |s|
  {
    if s != [] {
      FilterSplits(s[..|s| - 1], p);
    }
  }
}
