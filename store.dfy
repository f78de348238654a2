/**
 * The measurements table: rows are only ever appended, each with a fresh
 * serial id and the insertion timestamp.
 */
module Store {
  import opened Options
  import opened Calculations

  /** The columns the INSERT statement supplies. */
  datatype Row = Row(
    weightKg: real,
    heightCm: real,
    age: real,
    sex: string,
    activityLevel: Option<string>,
    bmi: real,
    bmiCategory: Category,
    bmr: int,
    dailyCalories: int,
    measurementDate: int)

  /** A stored record: the supplied row plus the id and created_at the table assigns. */
  datatype Measurement = Measurement(id: nat, row: Row, createdAt: int)

  /** Ids increase along the table, so no two records share one. */
  predicate IdsIncreasing(records: seq<Measurement>) {
    forall i, j :: 0 <= i < j < |records| ==> records[i].id < records[j].id
  }

  class MeasurementTable {
    var records: seq<Measurement>
    var nextId: nat

    ghost predicate Valid()
      reads this
    {
      IdsIncreasing(records) &&
      (forall i :: 0 <= i < |records| ==> records[i].id < nextId)
    }

    /** An empty table whose serial starts at 1. */
    constructor ()
      ensures Valid()
      ensures records == [] && nextId == 1
    {
      records := [];
      nextId := 1;
    }

    /** INSERT ... RETURNING *: append one record and return it. */
    method Insert(row: Row, createdAt: int) returns (m: Measurement)
      requires Valid()
      modifies this
      ensures Valid()
      ensures m == Measurement(old(nextId), row, createdAt)
      ensures records == old(records) + [m]
      ensures forall r :: r in old(records) ==> r.id < m.id
      ensures nextId == old(nextId) + 1
    {
      m := Measurement(nextId, row, createdAt);
      records := records + [m];
      nextId := nextId + 1;
    }
  }
}
