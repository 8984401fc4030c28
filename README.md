# OJT attendance dashboard: rule engine model

This project models the rule engine of a browser dashboard that tracks OJT (on-the-job
trainee) attendance. The engine has four parts. Each part has a model and proofs about it.

- **Time of day** (`clock.dfy`, module `Clock`). A time field holds `"HH:MM"`. The dashboard
  turns it into a `Date` on the fixed day 1 January 2000, so comparisons and differences
  depend only on the wall-clock time. `ParseTime` reads the field text. `Stamp` is the `Date`,
  written as milliseconds since that day's midnight. `GetHours` and `GetMinutes` are the
  `Date` getters.
- **Classification** (`classify.dfy`, module `Classify`). `ClassifyIn` and `ClassifyOut`
  follow the dashboard's branches in its order. They compare `Date`s, and for exactly 18:00
  they compare the hour and minute fields. Their contracts give each label as an interval
  of minutes since midnight.
- **Report** (`report.dfy`, module `Report`). The selector lists distinct names, as
  `[...new Set(...)]` produces them. The report filters the records of one name, builds one
  row per record and adds up the hours. `ShowReport` is the accumulating loop. It is proved
  against the specification functions `Filter`, `ReportRows` and `TotalHours`.
- **Store** (`store.dfy`, module `Store`). `RecordStore` holds the record list as a `seq`
  field. `Submit` drops a submission with a blank name or a blank arrival time. Any other
  submission is pushed onto the end of the list. The lemmas say how a submission changes
  the reports and the name list.

`wrappers.dfy` defines `Option` and `Result`. A blank time field is `None`. A time text that
does not read as `HH:MM` is `Err(InvalidTimeFormat)`.

Hours are Dafny `real` values, so they are exact. The dashboard computes
`(end - start) / (1000 * 60 * 60)` in floating point and shows it with two decimals. The model
keeps the exact quotient.

## Model

| member | source | states |
|---|---|---|
| `Clock.ParseTime` | NEW-PROJ-main/NEW-PROJ-main/dashboard.js:4-8 | the empty text, and only that text, is an absent time; a text that reads as a time has the `HH:MM` shape |
| `Clock.ParseFormat` | NEW-PROJ-main/NEW-PROJ-main/dashboard.js:4-8 | every time of day reads back from its `HH:MM` text |
| `Clock.FormatParse` | NEW-PROJ-main/NEW-PROJ-main/dashboard.js:4-8 | a text that reads as a time is exactly that time's `HH:MM` text, so there is one spelling per time |
| `Clock.MinutesOfFields` | NEW-PROJ-main/NEW-PROJ-main/dashboard.js:4-8 | the hour and minute can be recovered from minutes since midnight, so comparing minutes compares times |
| `Clock.FormatTime` | NEW-PROJ-main/NEW-PROJ-main/dashboard.js:49-50 | the text of a time, as a time input holds it, is five characters: two digits, a colon, two digits |
| `Clock.GetHours` | NEW-PROJ-main/NEW-PROJ-main/dashboard.js:29 | `getHours` gives the hour containing the instant, between 0 and 23 for an instant of the reference day |
| `Clock.GetMinutes` | NEW-PROJ-main/NEW-PROJ-main/dashboard.js:29 | `getMinutes` gives the minute, between 0 and 59, that contains the instant within its hour |
| `Clock.Stamp` | NEW-PROJ-main/NEW-PROJ-main/dashboard.js:7 | the reference-day `Date` of a time lies within that one day |
| `Clock.StampFields` | NEW-PROJ-main/NEW-PROJ-main/dashboard.js:7 | `getHours` and `getMinutes` of the `Date` built from a time give back its hour and minute |
| `Clock.StampOrder` | NEW-PROJ-main/NEW-PROJ-main/dashboard.js:7 | reference-day `Date`s are ordered by hour and then by minute, and two are equal only for equal times |
| `Classify.ClassifyIn` | NEW-PROJ-main/NEW-PROJ-main/dashboard.js:10-19 | "No In" exactly when absent; "Early In" exactly before 09:00; "On Time" exactly from 09:00 to 09:15 inclusive; "Late" exactly after 09:15 |
| `Classify.ClassifyOut` | NEW-PROJ-main/NEW-PROJ-main/dashboard.js:21-32 | "No Out" exactly when absent; "Early Out" exactly up to 17:59; "Out" exactly from 18:00 to before 19:00, which covers both the exact 18:00 test and the fall-through; "Overtime" exactly from 19:00 |
| `Classify.ClassifyInMonotone` | NEW-PROJ-main/NEW-PROJ-main/dashboard.js:10-19 | a later arrival never gets an earlier label in the order Early In < On Time < Late |
| `Classify.ClassifyOutMonotone` | NEW-PROJ-main/NEW-PROJ-main/dashboard.js:21-32 | a later departure never gets an earlier label in the order Early Out < Out < Overtime |
| `Classify.LabelsDistinct` | NEW-PROJ-main/NEW-PROJ-main/dashboard.js:10-32 | the label strings are pairwise different, so the shown text determines the status |
| `Classify.BoundaryExamples` | NEW-PROJ-main/NEW-PROJ-main/dashboard.js:10-32 | labels at the boundaries: 08:59, 09:00, 09:15, 09:16, 17:59, 18:00, 18:30, 19:00 and absent |
| `Classify.ThresholdTexts` | NEW-PROJ-main/NEW-PROJ-main/dashboard.js:13-26 | the threshold texts "09:00", "09:15", "17:59", "18:00" and "19:00" read as the model's threshold constants |
| `Report.Distinct` | NEW-PROJ-main/NEW-PROJ-main/dashboard.js:70 | the contents of a Set filled from a list have no duplicates and hold exactly the list's elements |
| `Report.DistinctFirstOccurrence` | NEW-PROJ-main/NEW-PROJ-main/dashboard.js:70 | the Set iterates its elements in the order of their first occurrence in the list |
| `Report.DistinctHead` | NEW-PROJ-main/NEW-PROJ-main/dashboard.js:70 | the first element of the list comes first in the Set |
| `Report.Names` | NEW-PROJ-main/NEW-PROJ-main/dashboard.js:70 | the mapped list has one name per record, name k being record k's name |
| `Report.DistinctNames` | NEW-PROJ-main/NEW-PROJ-main/dashboard.js:70 | the selector names have no duplicates and are exactly the names that occur in the records |
| `Report.DistinctNamesOrder` | NEW-PROJ-main/NEW-PROJ-main/dashboard.js:70 | the selector names appear in the order of each name's first record |
| `Report.DefaultSelection` | NEW-PROJ-main/NEW-PROJ-main/dashboard.js:73 | a report is shown first for the first record's name, and no report is shown when there are no records |
| `Report.Filter` | NEW-PROJ-main/NEW-PROJ-main/dashboard.js:79 | the filtered list is no longer than the stored list |
| `Report.FilterKeeps` | NEW-PROJ-main/NEW-PROJ-main/dashboard.js:79 | the filtered list holds only records of the selected name, and each such record as often as it is stored; it is empty exactly when no record has the name |
| `Report.FilterAppend` | NEW-PROJ-main/NEW-PROJ-main/dashboard.js:79 | filtering a concatenation gives the concatenation of the filtered parts, so kept records stay in stored order |
| `Report.RowHours` | NEW-PROJ-main/NEW-PROJ-main/dashboard.js:86-90 | a row's hours are 0 when either time is blank, and always lie strictly between −24 and 24 |
| `Report.RowHoursInMinutes` | NEW-PROJ-main/NEW-PROJ-main/dashboard.js:86-92 | a row's hours are (time out − time in) in minutes divided by 60 when both times are present, and 0 otherwise; they are negative exactly when the departure is earlier than the arrival, and nothing clamps them |
| `Report.TotalHours` | NEW-PROJ-main/NEW-PROJ-main/dashboard.js:81-91 | the running total over n rows lies between −24·n and 24·n hours |
| `Report.TotalHoursAppend` | NEW-PROJ-main/NEW-PROJ-main/dashboard.js:81-92 | the total over a concatenation is the sum of the totals of the parts |
| `Report.RowOf` | NEW-PROJ-main/NEW-PROJ-main/dashboard.js:94-103 | a row shows the record's own date and times; "No In" / "No Out" exactly for a blank time; non-zero hours only when both times are present |
| `Report.ReportRows` | NEW-PROJ-main/NEW-PROJ-main/dashboard.js:85-104 | the table has one row per filtered record |
| `Report.ReportRowsAt` | NEW-PROJ-main/NEW-PROJ-main/dashboard.js:94-103 | the table has one row per filtered record, and row k shows record k's date, times, both labels and hours |
| `Report.ShowReport` | NEW-PROJ-main/NEW-PROJ-main/dashboard.js:77-106 | the loop's rows are the table rows of the filtered records, its accumulated total is the sum of their hours, and both are empty or 0 when no record has the name |
| `Report.UpdateDashboard` | NEW-PROJ-main/NEW-PROJ-main/dashboard.js:65-75 | the selector gets the distinct names; when there is a default selection (the first record's name) the report shown is exactly that name's table rows and total; with no records nothing is shown |
| `Report.EightHourDay` | NEW-PROJ-main/NEW-PROJ-main/dashboard.js:86-92 | 09:00 to 17:00 counts as 8 hours |
| `Report.SingleRecordScenario` | NEW-PROJ-main/NEW-PROJ-main/dashboard.js:77-106 | a single record from 09:10 to 18:05 gives one row labelled "On Time" / "Out" with 535/60 hours, and that total |
| `Store.Submitted` | NEW-PROJ-main/NEW-PROJ-main/dashboard.js:51-54 | with a blank name or a blank arrival the list is unchanged; otherwise the old list is kept as a prefix and exactly one new record follows it |
| `Store.RecordStore.constructor` | NEW-PROJ-main/NEW-PROJ-main/dashboard.js:53 | an absent store is an empty list, and every record in it passed the form's checks |
| `Store.RecordStore.Submit` | NEW-PROJ-main/NEW-PROJ-main/dashboard.js:46-60 | the submission is stored exactly when the name and arrival are filled in; the new list is the old one with the push applied, and every stored record still has a name and an arrival |
| `Store.SubmittedReport` | NEW-PROJ-main/NEW-PROJ-main/dashboard.js:54 | a stored submission adds one row at the end of its trainee's report and adds its hours to that trainee's total |
| `Store.SubmittedOtherReport` | NEW-PROJ-main/NEW-PROJ-main/dashboard.js:54 | a submission leaves every other trainee's report unchanged |
| `Store.SubmittedNames` | NEW-PROJ-main/NEW-PROJ-main/dashboard.js:54-70 | a stored submission adds its name at the end of the selector list, unless the name is already there |
| `Store.StoredRowsHaveArrival` | NEW-PROJ-main/NEW-PROJ-main/dashboard.js:51 | in a list built through the form, no report row is labelled "No In" |

## Left out

- Page rendering is presentation only and is not modelled. This covers showing and hiding
  sections, building table rows as HTML, the selector's `onchange`, the success `alert`, the
  form `reset`, and the sidebar toggle with `setActive` and `collapseToActive`. `ReportRows`
  stands for the table's content. The dashboard refresh after a submission is not modelled
  as a call; `SubmittedReport` and `SubmittedNames` state its effect on the reports and on
  the name list.
- `localStorage` and the JSON round trip are browser I/O. The store is an in-memory sequence,
  and `ShowReport` and `UpdateDashboard` take that sequence as a parameter.
- The spreadsheet export calls a foreign library. Its "Total Hours" column is the same
  computation as `RowHours`.
- `new Date().toLocaleDateString()` reads the clock and depends on the locale. `Submit` takes
  the date as an opaque string parameter.
- `toFixed(2)` and floating-point rounding are not modelled. Hours are exact `real` values.
- Clock.Stamp: does not include the epoch offset of the reference day's midnight, because that
  offset depends on the time zone. It is a constant, so it cancels in every comparison and
  difference the dashboard makes.
- Clock.ParseTime: accepts only two-digit `HH:MM` with an hour below 24 and a minute below 60.
  It returns `InvalidTimeFormat` for anything else. In the dashboard, other text gives `NaN`
  or rolls the date over. Text that `Number` still reads, such as `"9:05"` or `"09:00:30"`
  (whose seconds are ignored), is also refused by the model. A time input produces
  `"HH:MM"`, so this does not arise from the form.
- Store.RecordStore.Submit: takes the time fields already read by `ParseTime`, with a blank
  field as `None`. Trimming of the name is done before the call, so the name is taken as
  already trimmed.
- Re-running the report when the selector changes (the `onchange` handler) is a call to
  `ShowReport` with the chosen name, and is not modelled separately.
