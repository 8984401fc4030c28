/**
 * The attendance policy: an arrival is labelled against 09:00 and 09:15, a departure against
 * 17:59, 18:00 and 19:00. The bodies compare reference-day Dates exactly as the dashboard does;
 * the contracts state the resulting labels as intervals of minutes since midnight.
 */
module Classify {
  import opened Wrappers
  import opened Clock

  /** The "Status In" of a record. */
  datatype InStatus = NoIn | EarlyIn | OnTime | Late
  {
    function Label(): string
    {
      match this
      case NoIn => "No In"
      case EarlyIn => "Early In"
      case OnTime => "On Time"
      case Late => "Late"
    }

    /** Position in the order Early In < On Time < Late; "No In" has none. */
    function Rank(): nat
      requires !NoIn?
    {
      match this
      case EarlyIn => 0
      case OnTime => 1
      case Late => 2
    }
  }

  /** The "Status Out" of a record. */
  datatype OutStatus = NoOut | EarlyOut | Out | Overtime
  {
    function Label(): string
    {
      match this
      case NoOut => "No Out"
      case EarlyOut => "Early Out"
      case Out => "Out"
      case Overtime => "Overtime"
    }

    /** Position in the order Early Out < Out < Overtime; "No Out" has none. */
    function Rank(): nat
      requires !NoOut?
    {
      match this
      case EarlyOut => 0
      case Out => 1
      case Overtime => 2
    }
  }

  const OnTimeFrom := TimeOfDay(9, 0)
  const OnTimeUntil := TimeOfDay(9, 15)
  const EarlyOutUntil := TimeOfDay(17, 59)
  const NormalOut := TimeOfDay(18, 0)
  const OvertimeFrom := TimeOfDay(19, 0)

  /** Labels an arrival; both 09:00 and 09:15 are on time. */
  function ClassifyIn(timeIn: Option<TimeOfDay>): (s: InStatus)
    ensures s == NoIn <==> timeIn == None
    ensures s == EarlyIn <==> timeIn.Some? && MinutesOf(timeIn.value) < 9 * 60
    ensures s == OnTime <==> timeIn.Some? && 9 * 60 <= MinutesOf(timeIn.value) <= 9 * 60 + 15
    ensures s == Late <==> timeIn.Some? && MinutesOf(timeIn.value) > 9 * 60 + 15
  {
    match timeIn
    case None => NoIn
    case Some(t) =>
      if Stamp(t) < Stamp(OnTimeFrom) then EarlyIn
      else if Stamp(t) > Stamp(OnTimeUntil) then Late
      else OnTime
  }

  /**
   * Labels a departure. The test for exactly 18:00 compares the hour and minute fields of the
   * Dates rather than the Dates themselves; it and the final fall-through both give "Out".
   */
  function ClassifyOut(timeOut: Option<TimeOfDay>): (s: OutStatus)
    ensures s == NoOut <==> timeOut == None
    ensures s == EarlyOut <==> timeOut.Some? && MinutesOf(timeOut.value) <= 17 * 60 + 59
    ensures s == Out <==> timeOut.Some? && 18 * 60 <= MinutesOf(timeOut.value) < 19 * 60
    ensures s == Overtime <==> timeOut.Some? && MinutesOf(timeOut.value) >= 19 * 60
  {
    match timeOut
    case None => NoOut
    case Some(t) =>
      var ms := Stamp(t);
      if ms <= Stamp(EarlyOutUntil) then EarlyOut
      else if GetHours(ms) == GetHours(Stamp(NormalOut)) && GetMinutes(ms) == GetMinutes(Stamp(NormalOut)) then
        StampFields(t);
        StampFields(NormalOut);
        Out
      else if ms >= Stamp(OvertimeFrom) then Overtime
      else Out
  }

  /** A later arrival never gets an earlier label. */
  lemma ClassifyInMonotone(a: TimeOfDay, b: TimeOfDay)
    requires MinutesOf(a) <= MinutesOf(b)
    ensures ClassifyIn(Some(a)).Rank() <= ClassifyIn(Some(b)).Rank()
  {
  }

  /** A later departure never gets an earlier label. */
  lemma ClassifyOutMonotone(a: TimeOfDay, b: TimeOfDay)
    requires MinutesOf(a) <= MinutesOf(b)
    ensures ClassifyOut(Some(a)).Rank() <= ClassifyOut(Some(b)).Rank()
  {
  }

  /** The labels are pairwise distinct strings, so a label names its status. */
  lemma LabelsDistinct(x: InStatus, y: InStatus, u: OutStatus, v: OutStatus)
    ensures x.Label() == y.Label() ==> x == y
    ensures u.Label() == v.Label() ==> u == v
  {
  }

  /** The boundary cases of the policy, with the labels the dashboard shows. */
  lemma BoundaryExamples()
    ensures ClassifyIn(None).Label() == "No In"
    ensures ClassifyIn(Some(TimeOfDay(8, 59))).Label() == "Early In"
    ensures ClassifyIn(Some(TimeOfDay(9, 0))).Label() == "On Time"
    ensures ClassifyIn(Some(TimeOfDay(9, 15))).Label() == "On Time"
    ensures ClassifyIn(Some(TimeOfDay(9, 16))).Label() == "Late"
    ensures ClassifyOut(None).Label() == "No Out"
    ensures ClassifyOut(Some(TimeOfDay(17, 59))).Label() == "Early Out"
    ensures ClassifyOut(Some(TimeOfDay(18, 0))).Label() == "Out"
    ensures ClassifyOut(Some(TimeOfDay(18, 30))).Label() == "Out"
    ensures ClassifyOut(Some(TimeOfDay(19, 0))).Label() == "Overtime"
  {
  }

  /** The threshold texts of the dashboard read as the threshold constants. */
  lemma ThresholdTexts()
    ensures ParseTime("09:00") == Ok(Some(OnTimeFrom))
    ensures ParseTime("09:15") == Ok(Some(OnTimeUntil))
    ensures ParseTime("17:59") == Ok(Some(EarlyOutUntil))
    ensures ParseTime("18:00") == Ok(Some(NormalOut))
    ensures ParseTime("19:00") == Ok(Some(OvertimeFrom))
  {
  }
}
