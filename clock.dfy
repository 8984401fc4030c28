/**
 * Times of day as the dashboard handles them. A time input yields an "HH:MM" string; the
 * dashboard turns it into a Date on a fixed reference day (1 January 2000), so comparing or
 * subtracting two such Dates depends only on the wall-clock times.
 */
module Clock {
  import opened Wrappers

  type Hour = h: int | 0 <= h < 24
  type Minute = m: int | 0 <= m < 60

  /** A wall-clock time with minute precision. */
  datatype TimeOfDay = TimeOfDay(hour: Hour, minute: Minute)

  datatype TimeError = InvalidTimeFormat

  const MsPerMinute: int := 60_000
  const MsPerHour: int := 3_600_000
  const MsPerDay: int := 86_400_000

  /** Minutes since midnight. */
  function MinutesOf(t: TimeOfDay): (r: int)
    ensures 0 <= r < 24 * 60
  {
    t.hour * 60 + t.minute
  }

  /** The hour and minute are recovered from the minutes since midnight, so no two times share them. */
  lemma MinutesOfFields(t: TimeOfDay)
    ensures MinutesOf(t) / 60 == t.hour && MinutesOf(t) % 60 == t.minute
  {
  }

  /**
   * The Date built for `t` on the reference day, as milliseconds since that day's local
   * midnight. The epoch offset of the reference midnight is a constant that cancels in every
   * comparison and subtraction the dashboard makes, so it is left out.
   */
  function Stamp(t: TimeOfDay): (ms: int)
    ensures 0 <= ms < MsPerDay
  {
    MinutesOf(t) * MsPerMinute
  }

  /** Date.getHours on a Date of the reference day: the hour that contains the instant. */
  function GetHours(ms: int): (h: int)
    ensures h * MsPerHour <= ms < (h + 1) * MsPerHour
    ensures 0 <= ms < MsPerDay ==> 0 <= h < 24
  {
    ms / MsPerHour
  }

  /** Date.getMinutes on a Date of the reference day: the minute, within its hour, that contains the instant. */
  function GetMinutes(ms: int): (m: int)
    ensures 0 <= m < 60
    ensures m * MsPerMinute <= ms % MsPerHour < (m + 1) * MsPerMinute
  {
    ms % MsPerHour / MsPerMinute
  }

  /** The hour and minute fields of a Date built from `t` are those of `t`. */
  lemma StampFields(t: TimeOfDay)
    ensures GetHours(Stamp(t)) == t.hour
    ensures GetMinutes(Stamp(t)) == t.minute
  {
  }

  /** Dates of the reference day compare as their clock readings do, hour first, then minute. */
  lemma StampOrder(a: TimeOfDay, b: TimeOfDay)
    ensures Stamp(a) < Stamp(b) <==> a.hour < b.hour || (a.hour == b.hour && a.minute < b.minute)
    ensures Stamp(a) == Stamp(b) <==> a == b
  {
  }

  predicate IsDigit(c: char)
  {
    '0' <= c <= '9'
  }

  function DigitValue(c: char): (d: int)
    requires IsDigit(c)
    ensures 0 <= d < 10
  {
    c as int - '0' as int
  }

  function DigitChar(d: int): (c: char)
    requires 0 <= d < 10
    ensures IsDigit(c) && DigitValue(c) == d
  {
    ('0' as int + d) as char
  }

  /**
   * Reads the value of a time field. The empty string means the field was left blank; an
   * "HH:MM" string with an hour below 24 and a minute below 60 is a time; anything else is
   * refused.
   */
  function ParseTime(s: string): (r: Result<Option<TimeOfDay>, TimeError>)
    ensures r == Ok(None) <==> s == ""
    ensures r.Ok? && r.value.Some? ==> |s| == 5 && s[2] == ':'
  {
    if s == "" then Ok(None)
    else if |s| == 5 && IsDigit(s[0]) && IsDigit(s[1]) && s[2] == ':' && IsDigit(s[3]) && IsDigit(s[4]) then
      var h := 10 * DigitValue(s[0]) + DigitValue(s[1]);
      var m := 10 * DigitValue(s[3]) + DigitValue(s[4]);
      if h < 24 && m < 60 then Ok(Some(TimeOfDay(h, m))) else Err(InvalidTimeFormat)
    else
      Err(InvalidTimeFormat)
  }

  /** The "HH:MM" text of a time, zero-padded, as a time input shows it. */
  function FormatTime(t: TimeOfDay): (s: string)
    ensures |s| == 5 && s[2] == ':'
    ensures IsDigit(s[0]) && IsDigit(s[1]) && IsDigit(s[3]) && IsDigit(s[4])
  {
    [DigitChar(t.hour / 10), DigitChar(t.hour % 10), ':', DigitChar(t.minute / 10), DigitChar(t.minute % 10)]
  }

  /** Every time reads back from its own text. */
  lemma ParseFormat(t: TimeOfDay)
    ensures ParseTime(FormatTime(t)) == Ok(Some(t))
  {
  }

  /** A string that reads as a time is that time's text: the format has one spelling per time. */
  lemma FormatParse(s: string, t: TimeOfDay)
    requires ParseTime(s) == Ok(Some(t))
    ensures FormatTime(t) == s
  {
  }
}
