# Health metrics pipeline — a verified model

This project models the backend of a BMI and health tracker. A user submits a body
measurement: weight, height, age, sex, an optional activity level and an optional
date. The server checks the submission and derives four metrics: BMI, the BMI
category, the basal metabolic rate (Mifflin–St Jeor) and a daily calorie target. It
then appends one row to the `measurements` table. Two read queries return all rows,
newest first, and a 30-day trend of the average BMI per day.

Modules, one per component:

- `Calculations` (`calculations.dfy`) is the metrics calculator. Everything is exact
  `real` arithmetic. `Math.round` becomes `RoundHalfUp`, which rounds to nearest
  with ties towards +∞. `+x.toFixed(1)` becomes `ToFixed1`, which rounds to the
  nearest tenth with ties away from zero.
- `Validation` (`validation.dfy`) holds the POST handler's guards, in source order:
  1. the presence (falsiness) check, giving `MissingField`;
  2. the sign check, giving `InvalidValue`;
  3. the date default.
- `Store` (`store.dfy`) is the table, a class `MeasurementTable`. It holds a `seq` of
  records and the next serial id. `Insert` appends one record with a fresh id and
  the given `created_at`.
- `Queries` (`queries.dfy`) gives the meaning of the two SELECT statements as
  functions over the records held in memory.
- `Routes` (`routes.dfy`) holds the three handlers. The POST handler is a method that
  validates, computes, builds the row and inserts it. The two GET handlers are
  methods that only read.

Dates are calendar-day numbers. "Today" is a parameter: the server's date for the
default, and `CURRENT_DATE` for the trend window. The insertion timestamp (`now()`)
is a parameter too.

On these points the model follows the code as written:

- `sex` is checked only for being present and non-empty. It is never checked against
  {male, female}. Only the exact string `"male"` selects the +5 formula.
- `age` is never checked to be an integer, so it is modelled as a `real`.
- The record's activity is stored as given, unknown values and absence included.
- An activity outside the five table keys gets the 1.2 multiplier, except for
  property names inherited from `Object.prototype`; see "## Findings".

## Model

| member | source | states |
|---|---|---|
| `Calculations.RoundHalfUp` | backend/src/calculations.js:6 | `Math.round`: the result lies in (x − 0.5, x + 0.5], so it is the nearest integer and a tie goes up |
| `Calculations.RoundHalfUpUnique` | backend/src/calculations.js:6 | any integer in (x − 0.5, x + 0.5] is the rounded value, so that window pins `Math.round` down exactly |
| `Calculations.Tenths` | backend/src/calculations.js:3 | `toFixed(1)` picks the integer nearest to 10x; for x ≥ 0 a tie goes up, for negative x a tie goes down (away from zero) |
| `Calculations.ToFixed1` | backend/src/calculations.js:3 | the value read back from `toFixed(1)` is a whole number of tenths and lies within 0.05 of x |
| `Calculations.Bmi` | backend/src/calculations.js:3 | the stored BMI lies within 0.05 of weight/(heightCm/100)² and is a multiple of 0.1 |
| `Calculations.BmiCategory` | backend/src/calculations.js:1 | Underweight iff b < 18.5; Normal iff 18.5 ≤ b < 25; Overweight iff 25 ≤ b < 30; Obese iff b ≥ 30 (so 18.5, 25 and 30 fall in the upper class) |
| `Calculations.CategoryMonotone` | backend/src/calculations.js:1 | the category rank Underweight < Normal < Overweight < Obese never decreases as b grows |
| `Calculations.BmrSexBranch` | backend/src/calculations.js:4 | every sex value other than the exact "male" gets the −161 formula; with the other inputs equal, male minus non-male unrounded BMR is exactly 166 |
| `Calculations.Multiplier` | backend/src/calculations.js:5 | the factor is one of the five table values; a known key gives its table value; a missing or unknown activity gives 1.2 |
| `Calculations.DailyCalories` | backend/src/calculations.js:6 | the calories are the product of the unrounded BMR and the factor, rounded once to nearest |
| `Calculations.UnroundedBmr` | backend/src/calculations.js:4 | the Mifflin–St Jeor value before rounding, one formula for the exact "male" and one for any other sex; `BmrSexBranch` states the branch and the 166 difference |
| `Calculations.CalculateMetrics` | backend/src/calculations.js:2-7 | bmi within 0.05 of the raw ratio and a multiple of 0.1; category taken from the rounded bmi; bmr within half a unit of the unrounded BMR; dailyCalories within half a unit of unrounded BMR × factor |
| `Calculations.WorkedExample` | backend/src/calculations.js:2-6 | 70 kg, 175 cm, 30 years, male, moderate gives bmi 22.9, Normal, bmr 1649, dailyCalories 2556 |
| `Calculations.RoundingOrderMatters` | backend/src/calculations.js:4-6 | the rounding order is observable: for unrounded BMR 1000.4 with very_active the result is 1901, not round(1000) × 1.9 = 1900 |
| `Calculations.CategoryUsesRoundedBmi` | backend/src/calculations.js:3-6 | a raw ratio of 18.46 is stored as bmi 18.5 with category Normal, although the raw ratio is Underweight |
| `Calculations.MultiplierAsWritten` | backend/src/calculations.js:5 | the lookup as written: its result is not a number exactly when the activity is a name inherited from `Object.prototype` |
| `Calculations.MultiplierAsWrittenAgrees` | backend/src/calculations.js:5 | for every other activity, including a missing one, the lookup as written returns the same factor as `Multiplier` |
| `Calculations.InheritedKeyMissesFallback` | backend/src/calculations.js:5 | activity "constructor" gets no numeric factor from the lookup as written, while the intended fallback is 1.2 |
| `Validation.DateOrToday` | backend/src/routes.js:18 | the measurement date is the supplied day if present, otherwise today |
| `Validation.Validate` | backend/src/routes.js:7-18 | `MissingField` iff any of weight, height, age or sex is absent or falsy (0, ""). `InvalidValue` iff all four are present and truthy and some number is negative. On acceptance: the inputs are the payload's values unchanged (activity included), all positive, sex non-empty, date defaulted |
| `Validation.ZeroIsMissing` | backend/src/routes.js:10-15 | a zero weight, height or age is always `MissingField`, never `InvalidValue` |
| `Validation.VerdictIgnoresSexAndActivity` | backend/src/routes.js:10-17 | replacing a present sex by any non-empty string, or the activity by anything, changes neither the verdict nor the rejection kind; the accepted inputs carry them unchanged |
| `Validation.SuppliedDateKept` | backend/src/routes.js:18 | any supplied day, future or past, is accepted and kept |
| `Store.MeasurementTable.Insert` | backend/src/routes.js:19-22 | appends exactly one record, holding the row, the next serial id and the given created_at; the earlier records are unchanged; the new id is larger than every earlier one |
| `Routes.BuildRow` | backend/src/routes.js:17-21 | the INSERT's parameters carry the inputs unchanged and the given date, and their derived columns equal `calculateMetrics` of those inputs |
| `Routes.PostMeasurement` | backend/src/routes.js:5-23 | refused iff validation rejects, with the same kind and the table untouched; otherwise the table grows by exactly the new record. That record's row is `BuildRow` of the validated inputs and date, its created_at is the given time and its id is fresh. A table whose rows were all consistent stays so |
| `Queries.InsertByRecencyPerm` | backend/src/routes.js:33 | inserting one record into the listing adds exactly that record |
| `Queries.InsertByRecencySorted` | backend/src/routes.js:33 | inserting into a newest-first listing keeps it newest first |
| `Queries.ListOrderSpec` | backend/src/routes.js:33 | the listing is a permutation of the table, ordered by measurement_date descending, then created_at descending |
| `Queries.ListOrder` | backend/src/routes.js:33 | the listing order; `ListOrderSpec` states that it is a permutation of the table, newest date first, then latest created |
| `Queries.LaterCreatedListedFirst` | backend/src/routes.js:33 | of two listed records with the same date, the later-created one comes first |
| `Routes.SameDaySubmissionsBothListed` | backend/src/routes.js:33 | two records with one date both appear in the listing, the later-created one first |
| `Routes.TwoSameDayPosts` | backend/src/routes.js:5-34 | two accepted posts of one payload with the same date both get stored as distinct records, and the listing holds both, the later-created one first |
| `Routes.GetMeasurements` | backend/src/routes.js:31-34 | the returned rows are a permutation of the table, newest first |
| `Queries.InsertDaySpec` | backend/src/routes.js:47-48 | adding a day to an ascending list of distinct days keeps it strictly ascending, with exactly that day added |
| `Queries.WindowDaysSpec` | backend/src/routes.js:44-48 | the groups are strictly ascending. A day is a group iff some record has that date and the date is ≥ today − 30 |
| `Queries.OnDayMembers` | backend/src/routes.js:44-47 | a day's group holds exactly the table's records with that date |
| `Queries.DayHasRecords` | backend/src/routes.js:47 | every group is non-empty, so its average is defined |
| `Queries.AvgBmi` | backend/src/routes.js:44 | AVG(bmi) of one day's group: the exact mean of its BMIs; `AvgBmiBounds` bounds it by the group's smallest and largest BMI |
| `Queries.SumBmiBounds` | backend/src/routes.js:44 | the sum of n BMIs, each within [lo, hi], lies within [n·lo, n·hi] |
| `Queries.AvgBmiBounds` | backend/src/routes.js:44 | a day's average BMI lies between the smallest and the largest BMI of that day |
| `Queries.Trend` | backend/src/routes.js:44-48 | the trend query's rows; `TrendSpec` and `TrendEmptyIffNoRecentRecord` state order, coverage, the per-day mean and when the series is empty |
| `Queries.TrendSpec` | backend/src/routes.js:44-48 | there is one row per distinct day in the window, in strictly ascending order. Each row's day is ≥ today − 30 and has records, and its avg_bmi is the mean BMI of that day's records. Every recent record's day has a row, so days without records have none |
| `Queries.TrendEmptyIffNoRecentRecord` | backend/src/routes.js:44-48 | the series is empty exactly when no record's date is inside the window, e.g. a table holding only older records |
| `Routes.GetTrends` | backend/src/routes.js:42-50 | the returned series is strictly ascending by day, covers exactly the days of recent records, and gives each day's mean BMI; it is empty iff no record is recent |

## Left out

- HTTP routing, status codes, the JSON bodies and error messages, and console logging are left out. They are transport, not logic.
- The database connection and SQL execution are left out, and so are storage failures (the 500 path), which a foreign library raises. The table is an in-memory class, and the queries are functions over its records.
- The system clock is left out. `new Date()`, `CURRENT_DATE` and `now()` are `today` and `now` parameters. Time zones are not modelled.
- Dates are day numbers. A date string that the database cannot parse (another 500) is not modelled. An empty-string date is modelled like an absent one, as JavaScript's `||` treats both.
- Request-body values of the wrong JSON type (numeric strings, objects, `NaN`) are not modelled. Numbers are `real`, and sex and activity are strings.
- IEEE-754 double behaviour is not modelled: `toFixed(1)` and `Math.round` are exact on reals, so results near tie points may differ by one unit of the last digit.
- Calculations.CalculateMetrics: requires a non-zero height. With height 0, JavaScript computes `Infinity` or `NaN`, which reals cannot express. The only caller passes a validated, positive height.
- Queries.ListOrder: rows equal in both measurement_date and created_at come back in an order SQL does not specify. The model fixes one such order, and its lemmas state only what SQL guarantees.
- Queries.AvgBmi: PostgreSQL's AVG over a numeric column rounds to a finite number of digits. The model's mean is the exact real quotient.
- Calculations.Multiplier: this is the corrected lookup from "## Findings" and is what the model uses; the lookup as written differs only on inherited property names.
- Concurrent requests are not modelled: one request runs at a time.
- The React front end is not part of this model, and neither are its browser-only `min`/`max` input bounds, which the server does not enforce.

## Findings

| source | as written | input that shows it | evidently intended | confidence | as-written member | corrected member |
|---|---|---|---|---|---|---|
| backend/src/calculations.js:5 | the activity factor is looked up by `[activity]` on a plain object literal, with a logical-or fallback to 1.2 | activity `"constructor"` (or `"toString"`, `"__proto__"`, …) finds a truthy inherited member, so the factor is not a number and daily calories become NaN (`Calculations.InheritedKeyMissesFallback`) | any activity outside the five table keys gets 1.2 | not executed | `Calculations.MultiplierAsWritten` | `Calculations.Multiplier` |
