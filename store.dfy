/**
 * The list of attendance records and the form that appends to it. The dashboard keeps one
 * list; a submission with a blank name or a blank arrival time is dropped, any other is
 * pushed onto the end. Records are never changed or removed.
 */
module Store {
  import opened Wrappers
  import opened Clock
  import opened Classify
  import opened Report

  /** What the form boundary lets through: a name and an arrival time. */
  predicate Accepted(r: Record)
  {
    r.name != "" && r.timeIn.Some?
  }

  /** Every record of the list passed the form's checks. */
  predicate FormBuilt(records: seq<Record>)
  {
    forall i :: 0 <= i < |records| ==> Accepted(records[i])
  }

  /** The list after a submission of the form. */
  function Submitted(records: seq<Record>, name: string, date: string, timeIn: Option<TimeOfDay>, timeOut: Option<TimeOfDay>): (updated: seq<Record>)
    ensures name == "" || timeIn == None ==> updated == records
    ensures name != "" && timeIn.Some? ==>
      && |updated| == |records| + 1
      && updated[..|records|] == records
      && updated[|records|] == Record(name, date, timeIn, timeOut)
  {
    if name == "" || timeIn == None then records
    else records + [Record(name, date, timeIn, timeOut)]
  }

  class RecordStore {
    var records: seq<Record>

    /** Every stored record passed the form's checks. */
    ghost predicate Valid()
      reads this
    {
      FormBuilt(records)
    }

    constructor ()
      ensures Valid() && records == []
    {
      records := [];
    }

    /**
     * Handles a submission of the form; `date` is the day of submission as the browser
     * formats it. Returns whether the record was stored.
     */
    method Submit(name: string, date: string, timeIn: Option<TimeOfDay>, timeOut: Option<TimeOfDay>) returns (added: bool)
      requires Valid()
      modifies this
      ensures Valid()
      ensures added <==> name != "" && timeIn.Some?
      ensures records == Submitted(old(records), name, date, timeIn, timeOut)
    {
      if name == "" || timeIn == None {
        return false;
      }
      records := records + [Record(name, date, timeIn, timeOut)];
      added := true;
    }
  }

  /** A stored submission adds one row at the end of its trainee's report, and its hours to the total. */
  lemma SubmittedReport(records: seq<Record>, name: string, date: string, timeIn: Option<TimeOfDay>, timeOut: Option<TimeOfDay>)
    requires name != "" && timeIn.Some?
    ensures var rec := Record(name, date, timeIn, timeOut);
      && Filter(Submitted(records, name, date, timeIn, timeOut), name) == Filter(records, name) + [rec]
      && TotalHours(Filter(Submitted(records, name, date, timeIn, timeOut), name)) == TotalHours(Filter(records, name)) + RowHours(rec)
  {
  }

  /** A submission leaves the report of every other trainee as it was. */
  lemma SubmittedOtherReport(records: seq<Record>, name: string, date: string, timeIn: Option<TimeOfDay>, timeOut: Option<TimeOfDay>, other: string)
    requires other != name
    ensures Filter(Submitted(records, name, date, timeIn, timeOut), other) == Filter(records, other)
  {
  }

  /** A stored submission adds its name at the end of the selector list unless it was already there. */
  lemma SubmittedNames(records: seq<Record>, name: string, date: string, timeIn: Option<TimeOfDay>, timeOut: Option<TimeOfDay>)
    requires name != "" && timeIn.Some?
    ensures var names := DistinctNames(records);
      DistinctNames(Submitted(records, name, date, timeIn, timeOut)) == if name in names then names else names + [name]
  {
    var updated := Submitted(records, name, date, timeIn, timeOut);
    assert Names(updated)[..|records|] == Names(records);
    assert DistinctNames(updated) == Distinct(Names(updated));
    assert DistinctNames(records) == Distinct(Names(records));
  }

  /** In a store built by the form, every row of every report has an arrival label other than "No In". */
  lemma StoredRowsHaveArrival(records: seq<Record>, name: string)
    requires FormBuilt(records)
    ensures forall row :: row in ReportRows(Filter(records, name)) ==> row.statusIn != NoIn
  {
  }
}
