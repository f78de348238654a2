/**
 * The checks the measurement POST handler makes before computing anything:
 * presence first (a falsy value counts as missing), then sign, then the
 * measurement date defaults to today.
 */
module Validation {
  import opened Options
  import opened Calculations

  /**
   * The request body. A day is a calendar-day number; an absent, null or
   * empty-string date is None.
   */
  datatype Payload = Payload(
    weightKg: Option<real>,
    heightCm: Option<real>,
    age: Option<real>,
    sex: Option<string>,
    activity: Option<string>,
    measurementDate: Option<int>)

  datatype Rejection = MissingField | InvalidValue

  datatype Checked = Rejected(why: Rejection) | Accepted(inputs: Inputs, date: int)

  /** JavaScript falsiness of a number field: absent or zero. */
  predicate FalsyNumber(v: Option<real>) {
    v.None? || v.value == 0.0
  }

  /** JavaScript falsiness of a text field: absent or empty. */
  predicate FalsyText(v: Option<string>) {
    v.None? || v.value == ""
  }

  predicate AnyRequiredFalsy(p: Payload) {
    FalsyNumber(p.weightKg) || FalsyNumber(p.heightCm) || FalsyNumber(p.age) || FalsyText(p.sex)
  }

  /** `measurementDate || today`. */
  function DateOrToday(d: Option<int>, today: int): (r: int)
    ensures d.Some? ==> r == d.value
    ensures d.None? ==> r == today
  {
    if d.Some? then d.value else today
  }

  function Validate(p: Payload, today: int): (c: Checked)
    ensures c == Rejected(MissingField) <==> AnyRequiredFalsy(p)
    ensures c == Rejected(InvalidValue) <==>
              !AnyRequiredFalsy(p) && (p.weightKg.value < 0.0 || p.heightCm.value < 0.0 || p.age.value < 0.0)
    ensures c.Accepted? ==>
              p.weightKg.Some? && p.heightCm.Some? && p.age.Some? && p.sex.Some? &&
              c.inputs == Inputs(p.weightKg.value, p.heightCm.value, p.age.value, p.sex.value, p.activity) &&
              c.date == DateOrToday(p.measurementDate, today)
    ensures c.Accepted? ==>
              c.inputs.weightKg > 0.0 && c.inputs.heightCm > 0.0 && c.inputs.age > 0.0 && c.inputs.sex != ""
  {
    if AnyRequiredFalsy(p) then Rejected(MissingField)
    else if p.weightKg.value <= 0.0 || p.heightCm.value <= 0.0 || p.age.value <= 0.0 then Rejected(InvalidValue)
    else Accepted(Inputs(p.weightKg.value, p.heightCm.value, p.age.value, p.sex.value, p.activity),
                  DateOrToday(p.measurementDate, today))
  }

  /** A zero weight, height or age is reported as missing, never as invalid. */
  lemma ZeroIsMissing(p: Payload, today: int)
    requires p.weightKg == Some(0.0) || p.heightCm == Some(0.0) || p.age == Some(0.0)
    ensures Validate(p, today) == Rejected(MissingField)
  {
  }

  /**
   * The verdict looks at sex only for presence and at activity not at all;
   * an accepted activity, known or not, is passed on unchanged.
   */
  lemma VerdictIgnoresSexAndActivity(p: Payload, sex: string, activity: Option<string>, today: int)
    requires sex != "" && !FalsyText(p.sex)
    ensures var q := p.(sex := Some(sex), activity := activity);
            Validate(q, today).Accepted? == Validate(p, today).Accepted? &&
            (Validate(q, today).Rejected? ==> Validate(q, today) == Validate(p, today))
    ensures var q := p.(sex := Some(sex), activity := activity);
            Validate(q, today).Accepted? ==>
              Validate(q, today).inputs.sex == sex && Validate(q, today).inputs.activity == activity
  {
  }

  /** No check is made against the future: any supplied day is kept. */
  lemma SuppliedDateKept(p: Payload, day: int, today: int)
    requires !AnyRequiredFalsy(p) && p.weightKg.value > 0.0 && p.heightCm.value > 0.0 && p.age.value > 0.0
    ensures Validate(p.(measurementDate := Some(day)), today).Accepted?
    ensures Validate(p.(measurementDate := Some(day)), today).date == day
  {
  }
}
