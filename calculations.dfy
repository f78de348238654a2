/**
 * The metrics calculator: derives BMI, its category, the basal metabolic
 * rate (Mifflin-St Jeor) and a daily calorie target from one set of body
 * measurements. Every coefficient is an exact decimal, so the arithmetic is
 * over `real`; JavaScript's rounding primitives are written out below.
 */
module Calculations {
  import opened Options

  datatype Category = Underweight | Normal | Overweight | Obese

  /** The fields calculateMetrics reads. `activity` may be absent. */
  datatype Inputs = Inputs(weightKg: real, heightCm: real, age: real, sex: string, activity: Option<string>)

  datatype Metrics = Metrics(bmi: real, bmiCategory: Category, bmr: int, dailyCalories: int)

  /** Math.round: the nearest integer, a tie going towards +infinity. */
  function RoundHalfUp(x: real): (n: int)
    ensures x - 0.5 < n as real <= x + 0.5
  {
    (x + 0.5).Floor
  }

  /** Any integer in the half-open window around x is the rounded value. */
  lemma RoundHalfUpUnique(x: real, n: int)
    requires x - 0.5 < n as real <= x + 0.5
    ensures RoundHalfUp(x) == n
  {
  }

  /**
   * The integer k for which k/10 is what Number.prototype.toFixed(1) prints:
   * the k closest to 10x, a tie going to the larger magnitude (the sign is
   * taken off first and put back afterwards).
   */
  function Tenths(x: real): (k: int)
    ensures 0.0 <= x ==> 10.0 * x - 0.5 < k as real <= 10.0 * x + 0.5
    ensures x < 0.0 ==> 10.0 * x - 0.5 <= k as real < 10.0 * x + 0.5
  {
    if x < 0.0 then -RoundHalfUp(-10.0 * x) else RoundHalfUp(10.0 * x)
  }

  /** `+(x).toFixed(1)`: x rounded to one decimal place and read back. */
  function ToFixed1(x: real): (r: real)
    ensures 10.0 * r == Tenths(x) as real
    ensures -0.05 <= r - x <= 0.05
  {
    Tenths(x) as real / 10.0
  }

  /** bmiCategory: an ordered chain of half-open thresholds. */
  function BmiCategory(b: real): (c: Category)
    ensures c == Underweight <==> b < 18.5
    ensures c == Normal <==> 18.5 <= b < 25.0
    ensures c == Overweight <==> 25.0 <= b < 30.0
    ensures c == Obese <==> 30.0 <= b
  {
    if b < 18.5 then Underweight
    else if b < 25.0 then Normal
    else if b < 30.0 then Overweight
    else Obese
  }

  /** The order of the categories, lightest first. */
  function Rank(c: Category): nat {
    match c
    case Underweight => 0
    case Normal => 1
    case Overweight => 2
    case Obese => 3
  }

  lemma CategoryMonotone(a: real, b: real)
    requires a <= b
    ensures Rank(BmiCategory(a)) <= Rank(BmiCategory(b))
  {
  }

  /** weight / (height in metres)^2, before any rounding. */
  function RawBmi(weightKg: real, heightCm: real): real
    requires heightCm != 0.0
  {
    var h := heightCm / 100.0;
    weightKg / (h * h)
  }

  /** The stored BMI: the raw ratio rounded to one decimal place. */
  function Bmi(weightKg: real, heightCm: real): (b: real)
    requires heightCm != 0.0
    ensures -0.05 <= b - RawBmi(weightKg, heightCm) <= 0.05
    ensures (10.0 * b).Floor as real == 10.0 * b
  {
    var raw := RawBmi(weightKg, heightCm);
    var k := Tenths(raw);
    assert 10.0 * ToFixed1(raw) == k as real;
    assert (k as real).Floor == k;
    ToFixed1(raw)
  }

  /** Mifflin-St Jeor before rounding: only the exact string "male" takes +5. */
  function UnroundedBmr(weightKg: real, heightCm: real, age: real, sex: string): real {
    if sex == "male" then 10.0 * weightKg + 6.25 * heightCm - 5.0 * age + 5.0
    else 10.0 * weightKg + 6.25 * heightCm - 5.0 * age - 161.0
  }

  /** Every sex other than "male" shares one formula, 166 below the male one. */
  lemma BmrSexBranch(weightKg: real, heightCm: real, age: real, sex: string)
    requires sex != "male"
    ensures UnroundedBmr(weightKg, heightCm, age, sex) == UnroundedBmr(weightKg, heightCm, age, "female")
    ensures UnroundedBmr(weightKg, heightCm, age, "male") - UnroundedBmr(weightKg, heightCm, age, sex) == 166.0
  {
  }

  const ActivityMultipliers: map<string, real> :=
    map["sedentary" := 1.2, "light" := 1.375, "moderate" := 1.55, "active" := 1.725, "very_active" := 1.9]

  /** The activity factor: a table lookup with 1.2 for a missing or unknown key. */
  function Multiplier(activity: Option<string>): (m: real)
    ensures m in ActivityMultipliers.Values
    ensures activity.Some? && activity.value in ActivityMultipliers ==> m == ActivityMultipliers[activity.value]
    ensures activity.None? || activity.value !in ActivityMultipliers ==> m == 1.2
  {
    assert ActivityMultipliers["sedentary"] == 1.2;
    if activity.Some? && activity.value in ActivityMultipliers then ActivityMultipliers[activity.value] else 1.2
  }

  /** The daily-calorie formula: the unrounded BMR times the factor, rounded once. */
  function DailyCalories(unroundedBmr: real, mult: real): (n: int)
    ensures unroundedBmr * mult - 0.5 < n as real <= unroundedBmr * mult + 0.5
  {
    RoundHalfUp(unroundedBmr * mult)
  }

  /** calculateMetrics. */
  function CalculateMetrics(i: Inputs): (m: Metrics)
    requires i.heightCm != 0.0
    ensures -0.05 <= m.bmi - RawBmi(i.weightKg, i.heightCm) <= 0.05
    ensures (10.0 * m.bmi).Floor as real == 10.0 * m.bmi
    ensures m.bmiCategory == BmiCategory(m.bmi)
    ensures UnroundedBmr(i.weightKg, i.heightCm, i.age, i.sex) - 0.5 < m.bmr as real
              <= UnroundedBmr(i.weightKg, i.heightCm, i.age, i.sex) + 0.5
    ensures var e := UnroundedBmr(i.weightKg, i.heightCm, i.age, i.sex) * Multiplier(i.activity);
            e - 0.5 < m.dailyCalories as real <= e + 0.5
  {
    var bmi := Bmi(i.weightKg, i.heightCm);
    var bmr := UnroundedBmr(i.weightKg, i.heightCm, i.age, i.sex);
    Metrics(bmi, BmiCategory(bmi), RoundHalfUp(bmr), DailyCalories(bmr, Multiplier(i.activity)))
  }

  /** 70 kg, 175 cm, 30 years, male, moderate: 22.9, Normal, 1649, 2556. */
  lemma WorkedExample()
    ensures CalculateMetrics(Inputs(70.0, 175.0, 30.0, "male", Some("moderate")))
              == Metrics(22.9, Normal, 1649, 2556)
  {
  }

  /**
   * Rounding the BMR before multiplying would change the result: for
   * 52.04 kg, 100 cm, 30 years, male, very_active the unrounded BMR is
   * 1000.4, giving 1901 calories where round(1000.4) * 1.9 rounds to 1900.
   */
  lemma RoundingOrderMatters()
    ensures var m := CalculateMetrics(Inputs(52.04, 100.0, 30.0, "male", Some("very_active")));
            m.bmr == 1000 && m.dailyCalories == 1901 && RoundHalfUp(m.bmr as real * 1.9) == 1900
  {
  }

  /**
   * The category is taken from the rounded BMI: a raw ratio of 18.46
   * (18.46 kg at 100 cm) is Underweight, yet it is stored as 18.5, Normal.
   */
  lemma CategoryUsesRoundedBmi()
    ensures var m := CalculateMetrics(Inputs(18.46, 100.0, 30.0, "female", None));
            m.bmi == 18.5 && m.bmiCategory == Normal && BmiCategory(RawBmi(18.46, 100.0)) == Underweight
  {
  }

  /**
   * The keys an object literal inherits from Object.prototype. Looking one
   * of them up in the activity table yields a truthy non-number, which the
   * `||` fallback does not replace.
   */
  const ObjectPrototypeKeys: set<string> :=
    {"constructor", "hasOwnProperty", "isPrototypeOf", "propertyIsEnumerable", "toString",
     "toLocaleString", "valueOf", "__proto__", "__defineGetter__", "__defineSetter__",
     "__lookupGetter__", "__lookupSetter__"}

  /**
   * The activity lookup as the source writes it: None stands for a factor
   * that is not a number, so that the product with the BMR, and the daily
   * calories rounded from it, are NaN.
   */
  function MultiplierAsWritten(activity: Option<string>): (m: Option<real>)
    ensures activity.Some? && activity.value in ObjectPrototypeKeys <==> m.None?
  {
    if activity.Some? && activity.value in ActivityMultipliers then Some(ActivityMultipliers[activity.value])
    else if activity.Some? && activity.value in ObjectPrototypeKeys then None
    else Some(1.2)
  }

  /** The lookup as written agrees with Multiplier except on inherited keys. */
  lemma MultiplierAsWrittenAgrees(activity: Option<string>)
    requires activity.None? || activity.value !in ObjectPrototypeKeys
    ensures MultiplierAsWritten(activity) == Some(Multiplier(activity))
  {
  }

  /** "constructor" is not a known activity, yet it does not fall back to 1.2. */
  lemma InheritedKeyMissesFallback()
    ensures MultiplierAsWritten(Some("constructor")) == None
    ensures Multiplier(Some("constructor")) == 1.2
  {
  }
}
