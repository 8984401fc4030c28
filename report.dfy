/**
 * The dashboard's report: the list of distinct trainee names for the selector, and for the
 * selected name its records, one row per record with both labels and the hours worked, and
 * the total of those hours.
 */
module Report {
  import opened Wrappers
  import opened Clock
  import opened Classify

  /** One stored attendance entry; a blank time field is None. */
  datatype Record = Record(name: string, date: string, timeIn: Option<TimeOfDay>, timeOut: Option<TimeOfDay>)

  /** One line of the report table. */
  datatype ReportRow = ReportRow(
    date: string,
    timeIn: Option<TimeOfDay>,
    statusIn: InStatus,
    timeOut: Option<TimeOfDay>,
    statusOut: OutStatus,
    hours: real)

  predicate NoDuplicates<T(==)>(xs: seq<T>)
  {
    forall i, j :: 0 <= i < j < |xs| ==> xs[i] != xs[j]
  }

  /** The position of the first occurrence of `x` in `xs`. */
  function FirstIndex<T(==)>(xs: seq<T>, x: T): (k: nat)
    requires x in xs
    ensures k < |xs| && xs[k] == x && x !in xs[..k]
  {
    if xs[0] == x then 0 else 1 + FirstIndex(xs[1..], x)
  }

  /**
   * The contents of a JavaScript Set filled from `xs`, in iteration order: a Set iterates in
   * insertion order, and adding an element it already holds changes nothing.
   */
  function Distinct<T(==,!new)>(xs: seq<T>): (ys: seq<T>)
    ensures NoDuplicates(ys)
    ensures forall x :: x in ys <==> x in xs
  {
    if xs == [] then []
    else
      var init := xs[..|xs| - 1];
      var ys := Distinct(init);
      assert xs == init + [xs[|xs| - 1]];
      if xs[|xs| - 1] in ys then ys else ys + [xs[|xs| - 1]]
  }

  /** An element of `xs` keeps its first position when something is appended. */
  lemma FirstIndexAppend<T>(xs: seq<T>, y: T, x: T)
    requires x in xs
    ensures FirstIndex(xs + [y], x) == FirstIndex(xs, x)
  {
    var k, k' := FirstIndex(xs, x), FirstIndex(xs + [y], x);
    assert (xs + [y])[..k + 1] == xs[..k + 1];
    assert x in (xs + [y])[..k + 1];
    assert xs[..k'] == (xs + [y])[..k'] by {
      assert k' <= k;
    }
  }

  /** The distinct elements come in the order in which each first occurs. */
  lemma {:induction false} DistinctFirstOccurrence<T(!new)>(xs: seq<T>)
    ensures forall i, j :: 0 <= i < j < |Distinct(xs)| ==>
      FirstIndex(xs, Distinct(xs)[i]) < FirstIndex(xs, Distinct(xs)[j])
  {
    if xs != [] {
      var init, last := xs[..|xs| - 1], xs[|xs| - 1];
      assert xs == init + [last];
      DistinctFirstOccurrence(init);
      var ys', ys := Distinct(init), Distinct(xs);
      forall x | x in ys'
        ensures FirstIndex(xs, x) == FirstIndex(init, x) < |init|
      {
        FirstIndexAppend(init, last, x);
      }
      if last in ys' {
        assert ys == ys';
      } else {
        assert ys == ys' + [last];
        assert last !in init;
        assert FirstIndex(xs, last) == |init|;
        forall i, j | 0 <= i < j < |ys|
          ensures FirstIndex(xs, ys[i]) < FirstIndex(xs, ys[j])
        {
          assert ys'[i] == ys[i] && ys'[i] in ys';
          assert FirstIndex(xs, ys[i]) == FirstIndex(init, ys[i]) < |init|;
          if j < |ys'| {
            assert ys'[j] == ys[j] && ys'[j] in ys';
            assert FirstIndex(init, ys'[i]) < FirstIndex(init, ys'[j]);
          } else {
            assert ys[j] == last;
          }
        }
      }
    }
  }

  /** Distinct keeps the first element in front. */
  lemma DistinctHead<T(!new)>(xs: seq<T>)
    requires xs != []
    ensures Distinct(xs) != [] && Distinct(xs)[0] == xs[0]
  {
  }

  function Names(records: seq<Record>): (names: seq<string>)
    ensures |names| == |records|
    ensures forall i :: 0 <= i < |records| ==> names[i] == records[i].name
  {
    seq(|records|, i requires 0 <= i < |records| => records[i].name)
  }

  /** The names offered by the selector: each name once, in order of first appearance. */
  function DistinctNames(records: seq<Record>): (names: seq<string>)
    ensures NoDuplicates(names)
    ensures forall n :: n in names <==> exists i :: 0 <= i < |records| && records[i].name == n
  {
    var all := Names(records);
    var names := Distinct(all);
    assert forall n :: n in all <==> exists i :: 0 <= i < |records| && records[i].name == n by {
      forall n | n in all ensures exists i :: 0 <= i < |records| && records[i].name == n {
        var i :| 0 <= i < |all| && all[i] == n;
      }
    }
    names
  }

  /** The names appear in the order of their first records. */
  lemma DistinctNamesOrder(records: seq<Record>)
    ensures var names := DistinctNames(records);
      forall i, j :: 0 <= i < j < |names| ==>
        FirstIndex(Names(records), names[i]) < FirstIndex(Names(records), names[j])
  {
    assert DistinctNames(records) == Distinct(Names(records));
    DistinctFirstOccurrence(Names(records));
  }

  /** The name whose report is shown first: the name of the first record, if there is one. */
  function DefaultSelection(records: seq<Record>): (selected: Option<string>)
    ensures selected == None <==> records == []
    ensures selected.Some? ==> selected.value == records[0].name
  {
    var names := DistinctNames(records);
    if |names| > 0 then
      DistinctHead(Names(records));
      Some(names[0])
    else
      None
  }

  /** The records of one trainee, in stored order. */
  function Filter(records: seq<Record>, name: string): (rows: seq<Record>)
    ensures |rows| <= |records|
  {
    if records == [] then []
    else
      var rows := Filter(records[..|records| - 1], name);
      if records[|records| - 1].name == name then rows + [records[|records| - 1]] else rows
  }

  /**
   * The filtered list holds exactly the records of `name`, each as often as it is stored, and
   * is empty exactly when no record has that name.
   */
  lemma {:induction false} FilterKeeps(records: seq<Record>, name: string)
    ensures forall r :: r in Filter(records, name) ==> r.name == name
    ensures forall r: Record :: r.name == name ==> multiset(Filter(records, name))[r] == multiset(records)[r]
    ensures Filter(records, name) == [] <==> forall r :: r in records ==> r.name != name
  {
    if records != [] {
      var init, last := records[..|records| - 1], records[|records| - 1];
      assert records == init + [last];
      FilterKeeps(init, name);
      if last.name == name {
        assert last in Filter(records, name);
      }
    }
  }

  /** Filtering commutes with concatenation, so the kept records stay in their relative order. */
  lemma {:induction false} FilterAppend(a: seq<Record>, b: seq<Record>, name: string)
    ensures Filter(a + b, name) == Filter(a, name) + Filter(b, name)
  {
    if b != [] {
      var init, last := b[..|b| - 1], b[|b| - 1];
      assert (a + b)[..|a + b| - 1] == a + init;
      FilterAppend(a, init, name);
    } else {
      assert a + b == a;
    }
  }

  /**
   * Hours worked on one record: the difference of the two Dates in milliseconds divided by
   * 1000 * 60 * 60, or 0 when either time is blank.
   */
  function RowHours(r: Record): (hours: real)
    ensures r.timeIn == None || r.timeOut == None ==> hours == 0.0
    ensures -24.0 < hours < 24.0
  {
    if r.timeIn.Some? && r.timeOut.Some? then
      (Stamp(r.timeOut.value) - Stamp(r.timeIn.value)) as real / MsPerHour as real
    else
      0.0
  }

  /**
   * The hours of a record are its minutes worked divided by 60; they are negative exactly when
   * the departure is earlier in the day than the arrival, and nothing clamps them.
   */
  lemma RowHoursInMinutes(r: Record)
    ensures r.timeIn.Some? && r.timeOut.Some? ==>
      RowHours(r) * 60.0 == (MinutesOf(r.timeOut.value) - MinutesOf(r.timeIn.value)) as real
    ensures !(r.timeIn.Some? && r.timeOut.Some?) ==> RowHours(r) == 0.0
    ensures RowHours(r) < 0.0 <==>
      r.timeIn.Some? && r.timeOut.Some? && MinutesOf(r.timeOut.value) < MinutesOf(r.timeIn.value)
  {
  }

  /** The sum of the hours of `rows`. */
  function TotalHours(rows: seq<Record>): (total: real)
    ensures -24.0 * |rows| as real <= total <= 24.0 * |rows| as real
  {
    if rows == [] then 0.0 else TotalHours(rows[..|rows| - 1]) + RowHours(rows[|rows| - 1])
  }

  lemma {:induction false} TotalHoursAppend(a: seq<Record>, b: seq<Record>)
    ensures TotalHours(a + b) == TotalHours(a) + TotalHours(b)
  {
    if b != [] {
      var init := b[..|b| - 1];
      assert (a + b)[..|a + b| - 1] == a + init;
      TotalHoursAppend(a, init);
    } else {
      assert a + b == a;
    }
  }

  /** The table row shown for a record. */
  function RowOf(r: Record): (row: ReportRow)
    ensures row.date == r.date && row.timeIn == r.timeIn && row.timeOut == r.timeOut
    ensures row.statusIn == NoIn <==> r.timeIn == None
    ensures row.statusOut == NoOut <==> r.timeOut == None
    ensures row.hours != 0.0 ==> row.statusIn != NoIn && row.statusOut != NoOut
  {
    ReportRow(r.date, r.timeIn, ClassifyIn(r.timeIn), r.timeOut, ClassifyOut(r.timeOut), RowHours(r))
  }

  /** The table rows shown for `records`, one per record, in order. */
  function ReportRows(records: seq<Record>): (rows: seq<ReportRow>)
    ensures |rows| == |records|
  {
    if records == [] then [] else ReportRows(records[..|records| - 1]) + [RowOf(records[|records| - 1])]
  }

  /** Row `k` of the table is the row of record `k`. */
  lemma {:induction false} ReportRowsAt(records: seq<Record>)
    ensures |ReportRows(records)| == |records|
    ensures forall k :: 0 <= k < |records| ==> ReportRows(records)[k] == RowOf(records[k])
  {
    if records != [] {
      ReportRowsAt(records[..|records| - 1]);
    }
  }

  /** Extending a prefix by one record adds its row and its hours. */
  lemma ReportStep(s: seq<Record>, i: nat)
    requires i < |s|
    ensures ReportRows(s[..i + 1]) == ReportRows(s[..i]) + [RowOf(s[i])]
    ensures TotalHours(s[..i + 1]) == TotalHours(s[..i]) + RowHours(s[i])
  {
    assert s[..i + 1][..i] == s[..i];
  }

  /**
   * Builds the report of `name`: one row per record of that name, in stored order, and the
   * total accumulated over them.
   */
  method ShowReport(records: seq<Record>, name: string) returns (rows: seq<ReportRow>, total: real)
    ensures rows == ReportRows(Filter(records, name))
    ensures total == TotalHours(Filter(records, name))
    ensures (forall r :: r in records ==> r.name != name) ==> rows == [] && total == 0.0
  {
    var filtered := Filter(records, name);
    rows, total := [], 0.0;
    var i := 0;
    while i < |filtered|
      invariant 0 <= i <= |filtered|
      invariant rows == ReportRows(filtered[..i])
      invariant total == TotalHours(filtered[..i])
    {
      var r := filtered[i];
      var hours := 0.0;
      if r.timeIn.Some? && r.timeOut.Some? {
        hours := (Stamp(r.timeOut.value) - Stamp(r.timeIn.value)) as real / MsPerHour as real;
        total := total + hours;
      }
      assert hours == RowHours(r);
      var row := ReportRow(r.date, r.timeIn, ClassifyIn(r.timeIn), r.timeOut, ClassifyOut(r.timeOut), hours);
      assert row == RowOf(r);
      rows := rows + [row];
      ReportStep(filtered, i);
      i := i + 1;
    }
    assert filtered[..i] == filtered;
    FilterKeeps(records, name);
  }

  /**
   * Refreshes the dashboard: the names for the selector, and the report of the first of them
   * when there is one.
   */
  method UpdateDashboard(records: seq<Record>) returns (names: seq<string>, report: Option<(seq<ReportRow>, real)>)
    ensures names == DistinctNames(records)
    ensures report.None? <==> DefaultSelection(records) == None
    ensures report.Some? ==>
      var selected := DefaultSelection(records).value;
      report.value == (ReportRows(Filter(records, selected)), TotalHours(Filter(records, selected)))
  {
    names := DistinctNames(records);
    if |names| > 0 {
      var rows, total := ShowReport(records, names[0]);
      report := Some((rows, total));
      assert DefaultSelection(records) == Some(names[0]);
    } else {
      report := None;
      assert DefaultSelection(records) == None;
    }
  }

  /** A full day from 09:00 to 17:00 is eight hours. */
  lemma EightHourDay(name: string, date: string)
    ensures RowHours(Record(name, date, Some(TimeOfDay(9, 0)), Some(TimeOfDay(17, 0)))) == 8.0
  {
  }

  /** One trainee arriving at 09:10 and leaving at 18:05: on time, "Out", 535 minutes. */
  lemma SingleRecordScenario()
    ensures var store := [Record("A", "1/1/2024", Some(TimeOfDay(9, 10)), Some(TimeOfDay(18, 5)))];
      && ReportRows(Filter(store, "A")) == [ReportRow("1/1/2024", Some(TimeOfDay(9, 10)), OnTime, Some(TimeOfDay(18, 5)), Out, 535.0 / 60.0)]
      && TotalHours(Filter(store, "A")) == 535.0 / 60.0
  {
  }
}
