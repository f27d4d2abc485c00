/** The server's database as an object whose tables the request handlers
    read and update: `handle_post_intake`, which derives an intake's
    kilocalories from its nutrition row before inserting it, and
    `handle_get_summary`, which only reads. */
module Store {
  import opened Wrappers
  import opened Calendar
  import opened Readings
  import opened Tables
  import opened Summary

  /** The outcomes of `POST /api/intake`: 201 with the derived
      `nutrition_kcal`, 400 "Nutrition not found", or the `TypeError` of
      multiplying by a `NULL` `kcal_per_gram` (no response, no insert). */
  datatype IntakeResponse = Created(nutritionKcal: real) | NutritionNotFound | NullKcalPerGram

  const NotFoundMessage := "Nutrition not found"

  /** The status `_set_headers` sends: 201 on success, 400 when the
      nutrition row is missing, none when the handler raises. */
  function Status(r: IntakeResponse): Option<int> {
    match r
    case Created(_) => Some(201)
    case NutritionNotFound => Some(400)
    case NullKcalPerGram => None
  }

  /** The `error` field of the JSON body; only the 400 response has one. */
  function ErrorMessage(r: IntakeResponse): Option<string> {
    if r.NutritionNotFound? then Some(NotFoundMessage) else None
  }

  /** The response for an intake of `amount` grams of nutrition `id`. */
  function IntakeOutcome(nutrition: seq<NutritionRow>, id: int, amount: real): IntakeResponse {
    match FindNutrition(nutrition, id)
    case None => NutritionNotFound
    case Some(n) =>
      match KcalPerGram(n)
      case None => NullKcalPerGram
      case Some(k) => Created(amount * k)
  }

  class Database {
    var glucose: seq<Reading>
    var insulin: seq<InsulinRow>
    var nutrition: seq<NutritionRow>
    var intake: seq<IntakeRow>
    var events: seq<EventRow>

    /** Nutrition ids are unique and the glucose, insulin and event
        timestamps are real date-times. */
    predicate Valid()
      reads this
    {
      UniqueIds(nutrition) && InsulinValid(insulin) &&
      (forall g :: g in glucose ==> g.time.Valid()) &&
      (forall e :: e in events ==> e.time.Valid())
    }

    /** The freshly created database: every table empty. */
    constructor ()
      ensures Valid()
      ensures glucose == [] && insulin == [] && nutrition == [] && intake == [] && events == []
    {
      glucose, insulin, nutrition, intake, events := [], [], [], [], [];
    }

    /** `handle_post_intake(data)`: look the nutrition row up, derive
        `nutrition_amount * kcal_per_gram`, insert one intake row. */
    method PostIntake(nutritionId: int, timestamp: DateTime, amount: real) returns (resp: IntakeResponse)
      requires Valid()
      modifies this
      ensures Valid()
      ensures resp == IntakeOutcome(old(nutrition), nutritionId, amount)
      ensures resp.Created? ==> intake == old(intake) + [IntakeRow(nutritionId, timestamp, amount, resp.nutritionKcal)]
      ensures !resp.Created? ==> intake == old(intake)
      ensures glucose == old(glucose) && insulin == old(insulin) && nutrition == old(nutrition) && events == old(events)
    {
      var row := FindNutrition(nutrition, nutritionId);
      if row.None? {
        return NutritionNotFound;
      }
      var kcalPerGram := KcalPerGram(row.value);
      if kcalPerGram.None? {
        return NullKcalPerGram;
      }
      var nutritionKcal := amount * kcalPerGram.value;
      intake := intake + [IntakeRow(nutritionId, timestamp, amount, nutritionKcal)];
      resp := Created(nutritionKcal);
    }

    /** `handle_get_summary(start_date, end_date)`: reads the tables only;
        `None` when an intake near `datetime.max` makes it raise. */
    method GetSummary(start: string, end: string) returns (summary: Option<seq<SummaryRow>>)
      requires Valid()
      ensures summary.None? <==> SummaryOverflows(SelectIntakes(intake, nutrition, start, end))
      ensures summary.Some? ==> Summarizes(summary.value, SelectIntakes(intake, nutrition, start, end), glucose, insulin, events)
    {
      summary := Summary.GetSummary(glucose, insulin, nutrition, intake, events, start, end);
    }
  }

  // ---------------------------------------------------------------- properties

  /** The response says what the nutrition table holds: a 400 "Nutrition
      not found" exactly when no row has the id, and otherwise the amount
      times the row's kilocalories per gram, unless its weight is zero. */
  lemma IntakeOutcomeSpec(nutrition: seq<NutritionRow>, id: int, amount: real)
    requires UniqueIds(nutrition)
    ensures IntakeOutcome(nutrition, id, amount) == NutritionNotFound <==>
            forall n :: n in nutrition ==> n.id != id
    ensures var r := IntakeOutcome(nutrition, id, amount);
            (Status(r) == Some(400) <==> forall n :: n in nutrition ==> n.id != id) &&
            (ErrorMessage(r) == Some("Nutrition not found") <==> Status(r) == Some(400))
    ensures forall n :: n in nutrition && n.id == id && n.weight != 0.0 ==>
              Status(IntakeOutcome(nutrition, id, amount)) == Some(201)
    ensures forall n :: n in nutrition && n.id == id && n.weight == 0.0 ==>
              IntakeOutcome(nutrition, id, amount) == NullKcalPerGram
    ensures forall n :: n in nutrition && n.id == id && n.weight != 0.0 ==>
              IntakeOutcome(nutrition, id, amount) == Created(amount * (n.kcal / n.weight))
  {
    forall n | n in nutrition && n.id == id ensures FindNutrition(nutrition, id) == Some(n) {
      FindUnique(nutrition, n);
    }
    if FindNutrition(nutrition, id).None? {
      forall n | n in nutrition ensures n.id != id {
        var i :| 0 <= i < |nutrition| && nutrition[i] == n;
      }
    }
  }

  /** The derived value times the row's weight is the amount times its
      kilocalories: 150 g of a food of 52 kcal per 100 g is 78 kcal. */
  lemma DerivedKcal(nutrition: seq<NutritionRow>, id: int, amount: real)
    requires IntakeOutcome(nutrition, id, amount).Created?
    ensures var n := FindNutrition(nutrition, id).value;
            IntakeOutcome(nutrition, id, amount).nutritionKcal * n.weight == amount * n.kcal
    ensures IntakeOutcome([NutritionRow(1, "Apple", 52.0, 100.0)], 1, 150.0) == Created(78.0)
  {
    var n := FindNutrition(nutrition, id).value;
    var k := KcalPerGram(n).value;
    assert k * n.weight == n.kcal;
    assert amount * k * n.weight == amount * (k * n.weight);
    assert FindNutrition([NutritionRow(1, "Apple", 52.0, 100.0)], 1) == Some(NutritionRow(1, "Apple", 52.0, 100.0));
  }
}
