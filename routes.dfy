/**
 * The three request handlers: create a measurement, list all of them, and
 * the 30-day BMI trend. "Today" and the insertion timestamp are parameters.
 */
module Routes {
  import opened Options
  import opened Calculations
  import opened Validation
  import opened Store
  import opened Queries

  /** The calculator inputs a stored row was made from. */
  function InputsOf(row: Row): Inputs {
    Inputs(row.weightKg, row.heightCm, row.age, row.sex, row.activityLevel)
  }

  /** The derived columns of a row agree with calculateMetrics of its input columns. */
  predicate Consistent(row: Row) {
    row.heightCm != 0.0 &&
    Metrics(row.bmi, row.bmiCategory, row.bmr, row.dailyCalories) == CalculateMetrics(InputsOf(row))
  }

  predicate AllConsistent(records: seq<Measurement>) {
    forall i :: 0 <= i < |records| ==> Consistent(records[i].row)
  }

  /** The INSERT's parameter list: the inputs as given, the metrics computed from them, the date. */
  function BuildRow(inputs: Inputs, date: int): (row: Row)
    requires inputs.heightCm != 0.0
    ensures InputsOf(row) == inputs
    ensures row.measurementDate == date
    ensures Consistent(row)
  {
    var m := CalculateMetrics(inputs);
    Row(inputs.weightKg, inputs.heightCm, inputs.age, inputs.sex, inputs.activity,
        m.bmi, m.bmiCategory, m.bmr, m.dailyCalories, date)
  }

  datatype Outcome = Refused(why: Rejection) | Created(record: Measurement)

  /** POST /api/measurements. */
  method PostMeasurement(table: MeasurementTable, p: Payload, today: int, now: int) returns (out: Outcome)
    requires table.Valid()
    modifies table
    ensures table.Valid()
    ensures out.Refused? <==> Validate(p, today).Rejected?
    ensures out.Refused? ==>
              out.why == Validate(p, today).why &&
              table.records == old(table.records) && table.nextId == old(table.nextId)
    ensures out.Created? ==>
              var c := Validate(p, today);
              c.Accepted? &&
              out.record.row == BuildRow(c.inputs, c.date) &&
              out.record.createdAt == now &&
              table.records == old(table.records) + [out.record] &&
              (forall r :: r in old(table.records) ==> r.id != out.record.id)
    ensures AllConsistent(old(table.records)) ==> AllConsistent(table.records)
  {
    var c := Validate(p, today);
    if c.Rejected? {
      return Refused(c.why);
    }
    var row := BuildRow(c.inputs, c.date);
    var m := table.Insert(row, now);
    out := Created(m);
  }

  /** GET /api/measurements: every record, newest measurement date first, then latest created. */
  method GetMeasurements(table: MeasurementTable) returns (rows: seq<Measurement>)
    ensures multiset(rows) == multiset(table.records)
    ensures NewestFirst(rows)
  {
    rows := ListOrder(table.records);
    ListOrderSpec(table.records);
  }

  /** GET /api/measurements/trends. */
  method GetTrends(table: MeasurementTable, today: int) returns (rows: seq<TrendRow>)
    ensures forall i, j :: 0 <= i < j < |rows| ==> rows[i].day < rows[j].day
    ensures forall i :: 0 <= i < |rows| ==>
              rows[i].day >= WindowStart(today) && OnDay(table.records, rows[i].day) != [] &&
              rows[i].avgBmi == AvgBmi(OnDay(table.records, rows[i].day))
    ensures forall m :: m in table.records && InWindow(m, today) ==>
              exists i :: 0 <= i < |rows| && rows[i].day == m.row.measurementDate
    ensures rows == [] <==> forall m :: m in table.records ==> !InWindow(m, today)
  {
    rows := Trend(table.records, today);
    TrendSpec(table.records, today);
    TrendEmptyIffNoRecentRecord(table.records, today);
  }

  /** Two submissions of the same day both persist, and the later one is listed first. */
  lemma SameDaySubmissionsBothListed(records: seq<Measurement>, a: Measurement, b: Measurement)
    requires a in records && b in records
    requires a.row.measurementDate == b.row.measurementDate && a.createdAt > b.createdAt
    ensures var rows := ListOrder(records);
            exists i, j :: 0 <= i < j < |rows| && rows[i] == a && rows[j] == b
  {
    ListOrderSpec(records);
    var rows := ListOrder(records);
    assert a in multiset(rows) && b in multiset(rows);
    var i :| 0 <= i < |rows| && rows[i] == a;
    var j :| 0 <= j < |rows| && rows[j] == b;
    LaterCreatedListedFirst(records, i, j);
  }

  /**
   * Two accepted submissions of one payload, created at now1 < now2, are
   * stored as two distinct records, and the listing shows the later first.
   */
  method TwoSameDayPosts(table: MeasurementTable, p: Payload, today: int, now1: int, now2: int)
    returns (first: Outcome, second: Outcome, rows: seq<Measurement>)
    requires table.Valid()
    requires Validate(p, today).Accepted?
    requires now1 < now2
    modifies table
    ensures first.Created? && second.Created? && first.record.id != second.record.id
    ensures table.records == old(table.records) + [first.record, second.record]
    ensures exists i, j :: 0 <= i < j < |rows| && rows[i] == second.record && rows[j] == first.record
  {
    first := PostMeasurement(table, p, today, now1);
    second := PostMeasurement(table, p, today, now2);
    rows := GetMeasurements(table);
    assert first.record in multiset(rows) && second.record in multiset(rows);
    var i :| 0 <= i < |rows| && rows[i] == second.record;
    var j :| 0 <= j < |rows| && rows[j] == first.record;
    assert !Precedes(rows[j], rows[i]);
  }
}
