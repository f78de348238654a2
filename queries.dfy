/**
 * What the two read queries compute, over the table's records held in
 * memory: the full listing, newest first, and the 30-day per-day average
 * BMI trend.
 */
module Queries {
  import opened Store

  // ---------------------------------------------------------------------
  // Listing: newest measurement date first, then latest created
  // ---------------------------------------------------------------------

  /** a may be listed before b. */
  predicate Precedes(a: Measurement, b: Measurement) {
    a.row.measurementDate > b.row.measurementDate ||
    (a.row.measurementDate == b.row.measurementDate && a.createdAt >= b.createdAt)
  }

  predicate NewestFirst(s: seq<Measurement>) {
    forall i, j :: 0 <= i < j < |s| ==> Precedes(s[i], s[j])
  }

  function InsertByRecency(m: Measurement, s: seq<Measurement>): seq<Measurement> {
    if s == [] then [m]
    else if Precedes(m, s[0]) then [m] + s
    else [s[0]] + InsertByRecency(m, s[1..])
  }

  /** The listing query's order (rows equal in both keys keep an arbitrary but fixed order). */
  function ListOrder(records: seq<Measurement>): seq<Measurement> {
    if records == [] then [] else InsertByRecency(records[0], ListOrder(records[1..]))
  }

  lemma {:induction false} InsertByRecencyPerm(m: Measurement, s: seq<Measurement>)
    ensures multiset(InsertByRecency(m, s)) == multiset(s) + multiset{m}
  {
    if s != [] && !Precedes(m, s[0]) {
      InsertByRecencyPerm(m, s[1..]);
      assert s == [s[0]] + s[1..];
    }
  }

  /** Every element of the result other than m comes from s. */
  lemma InsertByRecencyFrom(m: Measurement, s: seq<Measurement>, x: Measurement)
    requires x in InsertByRecency(m, s) && x != m
    ensures x in s
  {
    InsertByRecencyPerm(m, s);
  }

  lemma {:induction false} InsertByRecencySorted(m: Measurement, s: seq<Measurement>)
    requires NewestFirst(s)
    ensures NewestFirst(InsertByRecency(m, s))
  {
    if s == [] {
    } else if Precedes(m, s[0]) {
      var r := [m] + s;
      forall i, j | 0 <= i < j < |r| ensures Precedes(r[i], r[j]) {
        assert r[j] == s[j - 1];
        if i > 0 {
          assert r[i] == s[i - 1];
        } else {
          assert j - 1 == 0 || Precedes(s[0], s[j - 1]);
        }
      }
    } else {
      var tail := s[1..];
      assert NewestFirst(tail) by {
        forall i, j | 0 <= i < j < |tail| ensures Precedes(tail[i], tail[j]) {
          assert tail[i] == s[i + 1] && tail[j] == s[j + 1];
        }
      }
      InsertByRecencySorted(m, tail);
      var rest := InsertByRecency(m, tail);
      forall k | 0 <= k < |rest| ensures Precedes(s[0], rest[k]) {
        if rest[k] != m {
          InsertByRecencyFrom(m, tail, rest[k]);
          var t :| 0 <= t < |tail| && tail[t] == rest[k];
          assert tail[t] == s[t + 1];
        }
      }
      var r := [s[0]] + rest;
      assert InsertByRecency(m, s) == r;
      forall i, j | 0 <= i < j < |r| ensures Precedes(r[i], r[j]) {
        assert r[j] == rest[j - 1];
        if i > 0 {
          assert r[i] == rest[i - 1];
        }
      }
    }
  }

  /** The listing holds exactly the table's records, newest measurement date first
      and, within a day, the latest created first. */
  lemma {:induction false} ListOrderSpec(records: seq<Measurement>)
    ensures multiset(ListOrder(records)) == multiset(records)
    ensures NewestFirst(ListOrder(records))
  {
    if records != [] {
      ListOrderSpec(records[1..]);
      InsertByRecencyPerm(records[0], ListOrder(records[1..]));
      InsertByRecencySorted(records[0], ListOrder(records[1..]));
      assert records == [records[0]] + records[1..];
    }
  }

  /** Two measurements of the same day are listed most recently created first. */
  lemma LaterCreatedListedFirst(records: seq<Measurement>, i: int, j: int)
    requires 0 <= i < |ListOrder(records)| && 0 <= j < |ListOrder(records)|
    requires ListOrder(records)[i].row.measurementDate == ListOrder(records)[j].row.measurementDate
    requires ListOrder(records)[i].createdAt > ListOrder(records)[j].createdAt
    ensures i < j
  {
    ListOrderSpec(records);
  }

  // ---------------------------------------------------------------------
  // Trend: records dated on or after today - 30, one row per day,
  // ascending, with the day's mean BMI
  // ---------------------------------------------------------------------

  /** The first day inside the trend window. */
  function WindowStart(today: int): int {
    today - 30
  }

  predicate InWindow(m: Measurement, today: int) {
    m.row.measurementDate >= WindowStart(today)
  }

  predicate StrictlyAscending(s: seq<int>) {
    forall i, j :: 0 <= i < j < |s| ==> s[i] < s[j]
  }

  /** Adds a day to an ascending list of distinct days. */
  function InsertDay(d: int, s: seq<int>): seq<int> {
    if s == [] then [d]
    else if d < s[0] then [d] + s
    else if d == s[0] then s
    else [s[0]] + InsertDay(d, s[1..])
  }

  lemma {:induction false} InsertDaySpec(d: int, s: seq<int>)
    requires StrictlyAscending(s)
    ensures StrictlyAscending(InsertDay(d, s))
    ensures forall x :: x in InsertDay(d, s) <==> x == d || x in s
  {
    if s != [] && d > s[0] {
      var tail := s[1..];
      assert s == [s[0]] + tail;
      InsertDaySpec(d, tail);
      var rest := InsertDay(d, tail);
      forall k | 0 <= k < |rest| ensures s[0] < rest[k] {
        assert rest[k] in rest;
        if rest[k] != d {
          var t :| 0 <= t < |tail| && tail[t] == rest[k];
          assert tail[t] == s[t + 1];
        }
      }
    }
  }

  /** The groups: each distinct day of a record inside the window, ascending. */
  function WindowDays(records: seq<Measurement>, today: int): seq<int> {
    if records == [] then []
    else
      var rest := WindowDays(records[1..], today);
      if InWindow(records[0], today) then InsertDay(records[0].row.measurementDate, rest) else rest
  }

  lemma {:induction false} WindowDaysSpec(records: seq<Measurement>, today: int)
    ensures StrictlyAscending(WindowDays(records, today))
    ensures forall d :: d in WindowDays(records, today) <==>
              exists m :: m in records && InWindow(m, today) && m.row.measurementDate == d
  {
    if records != [] {
      WindowDaysSpec(records[1..], today);
      var rest := WindowDays(records[1..], today);
      if InWindow(records[0], today) {
        InsertDaySpec(records[0].row.measurementDate, rest);
      }
      assert records == [records[0]] + records[1..];
      forall d ensures d in WindowDays(records, today) <==>
                       exists m :: m in records && InWindow(m, today) && m.row.measurementDate == d
      {
        if d in WindowDays(records, today) {
          if d in rest {
            var m :| m in records[1..] && InWindow(m, today) && m.row.measurementDate == d;
            assert m in records;
          } else {
            assert records[0] in records;
          }
        }
      }
    }
  }

  /** The records of one day, in table order. */
  function OnDay(records: seq<Measurement>, d: int): seq<Measurement> {
    if records == [] then []
    else (if records[0].row.measurementDate == d then [records[0]] else []) + OnDay(records[1..], d)
  }

  lemma {:induction false} OnDayMembers(records: seq<Measurement>, d: int)
    ensures forall m :: m in OnDay(records, d) <==> m in records && m.row.measurementDate == d
  {
    if records != [] {
      OnDayMembers(records[1..], d);
      assert records == [records[0]] + records[1..];
    }
  }

  function SumBmi(records: seq<Measurement>): real {
    if records == [] then 0.0 else records[0].row.bmi + SumBmi(records[1..])
  }

  /** AVG(bmi) over a non-empty group. */
  function AvgBmi(records: seq<Measurement>): real
    requires records != []
  {
    SumBmi(records) / |records| as real
  }

  lemma {:induction false} SumBmiBounds(records: seq<Measurement>, lo: real, hi: real)
    requires forall m :: m in records ==> lo <= m.row.bmi <= hi
    ensures |records| as real * lo <= SumBmi(records) <= |records| as real * hi
  {
    if records != [] {
      var tail := records[1..];
      assert forall m :: m in tail ==> m in records;
      SumBmiBounds(tail, lo, hi);
      assert records[0] in records;
      ScaleStep(|tail| as real, lo, hi, SumBmi(tail), records[0].row.bmi);
    }
  }

  /** One more summand within [lo, hi] keeps a sum of n of them within n bounds. */
  lemma ScaleStep(n: real, lo: real, hi: real, sum: real, b: real)
    requires n * lo <= sum <= n * hi && lo <= b <= hi
    ensures (n + 1.0) * lo <= b + sum <= (n + 1.0) * hi
  {
  }

  /** A day's average lies between the smallest and the largest BMI of that day. */
  lemma AvgBmiBounds(records: seq<Measurement>, lo: real, hi: real)
    requires records != []
    requires forall m :: m in records ==> lo <= m.row.bmi <= hi
    ensures lo <= AvgBmi(records) <= hi
  {
    SumBmiBounds(records, lo, hi);
    var n := |records| as real;
    assert n > 0.0;
    assert SumBmi(records) / n >= (n * lo) / n;
    assert SumBmi(records) / n <= (n * hi) / n;
  }

  datatype TrendRow = TrendRow(day: int, avgBmi: real)

  lemma DayHasRecords(records: seq<Measurement>, today: int, d: int)
    requires d in WindowDays(records, today)
    ensures OnDay(records, d) != []
  {
    WindowDaysSpec(records, today);
    OnDayMembers(records, d);
    var m :| m in records && InWindow(m, today) && m.row.measurementDate == d;
    assert m in OnDay(records, d);
  }

  /** The trend query's result. */
  function Trend(records: seq<Measurement>, today: int): seq<TrendRow> {
    var days := WindowDays(records, today);
    seq(|days|, i requires 0 <= i < |days| =>
      DayHasRecords(records, today, days[i]);
      TrendRow(days[i], AvgBmi(OnDay(records, days[i]))))
  }

  /**
   * One row per distinct day inside the window, ascending; each row's
   * average is the mean BMI of that day's records; every recent record's
   * day has a row and no other day does.
   */
  lemma TrendSpec(records: seq<Measurement>, today: int)
    ensures var t := Trend(records, today);
            forall i, j :: 0 <= i < j < |t| ==> t[i].day < t[j].day
    ensures var t := Trend(records, today);
            forall i :: 0 <= i < |t| ==>
              t[i].day >= WindowStart(today) && OnDay(records, t[i].day) != [] &&
              t[i].avgBmi == AvgBmi(OnDay(records, t[i].day))
    ensures var t := Trend(records, today);
            forall m :: m in records && InWindow(m, today) ==>
              exists i :: 0 <= i < |t| && t[i].day == m.row.measurementDate
  {
    var days := WindowDays(records, today);
    var t := Trend(records, today);
    WindowDaysSpec(records, today);
    forall i | 0 <= i < |t| ensures t[i].day >= WindowStart(today) && OnDay(records, t[i].day) != [] {
      assert t[i].day == days[i] && days[i] in days;
      DayHasRecords(records, today, days[i]);
    }
    forall m | m in records && InWindow(m, today)
      ensures exists i :: 0 <= i < |t| && t[i].day == m.row.measurementDate
    {
      var d := m.row.measurementDate;
      assert d in days;
      var i :| 0 <= i < |days| && days[i] == d;
      assert t[i].day == d;
    }
  }

  /** The series is empty exactly when no record falls inside the window. */
  lemma TrendEmptyIffNoRecentRecord(records: seq<Measurement>, today: int)
    ensures Trend(records, today) == [] <==> forall m :: m in records ==> !InWindow(m, today)
  {
    TrendSpec(records, today);
    WindowDaysSpec(records, today);
    if Trend(records, today) != [] {
      var d := WindowDays(records, today)[0];
      assert d in WindowDays(records, today);
    }
  }
}
