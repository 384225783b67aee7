# Clinic calendar — a Dafny model

This project models the logic of a clinic scheduling front end. That front end is a
React application with these parts:

- an appointment store;
- a calendar shown as a day, a week or a month;
- an appointment dialog that creates, views, edits and deletes appointments;
- a searchable doctor roster with a profile dialog;
- a doctor chat.

The model keeps each component's state and every operation on it as pure functions
from the old state to the new one. A few algorithms with loops are methods. It proves
what the components promise:

- the store's list operations keep order and ids;
- period navigation moves exactly one day, week or month, and a step back undoes a
  step forward except when a month step clamped the day;
- the slot query shows exactly the appointments whose span meets the half-hour window;
- the month grid is four to six whole weeks covering the month;
- the dialog's form round-trips through its time strings;
- a chat only ever grows.

Modules, by file:

| file | module | models |
|---|---|---|
| `options.dfy` | `Options` | optional values |
| `seqs.dfy` | `Seqs` | order-preserving filtering (`Array.prototype.filter`) |
| `text.dfy` | `Text` | decimal digits, `padStart`, `toLowerCase`, `includes`, `trim`, `indexOf` on ASCII |
| `dates.dfy` | `Dates` | Gregorian calendar days and the date-library functions the views call |
| `clock.dfy` | `Clock` | `"HH:mm"` formatting and the dialog's `split(':').map(Number)` parsing |
| `store.dfy` | `Store` | `AppointmentContext.tsx`: list operations, navigation, selection, initial state |
| `slots.dfy` | `Slots` | the 19 half-hour rows and the slot-overlap rule |
| `week_view.dfy` | `WeekView` | `WeekView.tsx` |
| `day_view.dfy` | `DayView` | `DayView.tsx` |
| `month_view.dfy` | `MonthView` | `MonthView.tsx` |
| `appointment_modal.dfy` | `AppointmentModal` | `AppointmentModal.tsx` |
| `doctor_list.dfy` | `DoctorList` | `DoctorList.tsx` |
| `chat_messages.dfy` | `ChatMessages` | `ChatMessages.tsx` |

How the JavaScript values are represented:

- A JavaScript `Date` becomes a `Dates.DateTime`: a valid civil date and a minute of
  the day. Its order is `Dates.Instant`, the number of minutes since 1 January of
  year 0.
- An hour past 23 given to `setHours` runs on into later days, as it does in
  JavaScript.
- The random id, `new Date()` ("today") and the chat's clock reading become
  parameters.

The model follows the code, also where the code departs from what its types suggest:

- `WellFormed` (times on the appointment's date, start not after end) is the shape the
  `Appointment` fields suggest. Nothing in the code enforces it: the form schema never
  compares the two times (`AppointmentModal.EndBeforeStartValidates`).
- A slot from 23:30 onwards gets a default end time that wraps to the small hours of
  the same date, which is before its start (`AppointmentModal.CreateFromSlot`). The
  grid's slots stop at 17:00, but the header's "New Appointment" button opens the form
  at the current time. So from 23:30 local time on, submitting that form stores a
  record that ends before it starts (see "## Findings").
- The default start time for a slot before 10:00 is zero-padded (`"08:00"`). The time
  options are not padded (`"8:00"`), so that default is not one of the option values.
  It still reads as the same time (`AppointmentModal.SlotDefaultIsNotAnOption`).
- The dialog's effect first writes a hand-carried end time, then resets the form in
  the same run, so the hand-carried value never reaches the form
  (`AppointmentModal.HandRolledAgreesBeforeLastHalfHour` says where the two agree).

## Model

| member | source | states |
|---|---|---|
| Seqs.Filter | src/context/AppointmentContext.tsx:125 | the result has no more elements than the input, and holds exactly the input's elements that pass the test |
| Seqs.FilterIsSubsequence | src/components/calendar/WeekView.tsx:36-46 | a filter keeps its survivors in their original relative order |
| Seqs.FilterCounts | src/context/AppointmentContext.tsx:125 | each passing value is kept as many times as it occurs, and each failing value is dropped entirely |
| Seqs.FilterKeepsAll | src/context/AppointmentContext.tsx:125 | a filter returns its input unchanged exactly when every element passes |
| Seqs.FilterIdempotent | src/context/AppointmentContext.tsx:125 | filtering twice by the same test is filtering once |
| Seqs.FilterOfFilter | src/components/calendar/DayView.tsx:35-47 | filtering by one test and then another equals one filter by their conjunction |
| Seqs.FilterAppend | src/context/AppointmentContext.tsx:115 | filtering a list with one more element at the end filters the old list and then that element |
| Seqs.FilterFirst | src/components/doctors/DoctorList.tsx:21-24 | the first element that passes is the head of the filter's result |
| Text.DecimalString | src/components/calendar/AppointmentModal.tsx:63 | `toString` of a number is a non-empty digit string with no leading zero; it is one character exactly when the number is below 10 |
| Text.DecimalStringValue | src/components/calendar/AppointmentModal.tsx:63 | the decimal rendering of a number reads back as that number |
| Text.PadStart2 | src/components/calendar/WeekView.tsx:49-51 | the padded text is two digits for numbers below 100; below 10 it starts with '0'; from 10 on it is the plain rendering |
| Text.PadStart2Value | src/components/calendar/DayView.tsx:50-52 | a zero-padded number reads back as that number |
| Text.LeadingZero | src/components/calendar/DayView.tsx:50-52 | a leading zero does not change a digit string's value |
| Text.Lower | src/components/doctors/DoctorList.tsx:22-23 | lower-casing keeps the length, maps each letter to its lower case and leaves no capital letter |
| Text.LowerIdempotent | src/components/doctors/DoctorList.tsx:22-23 | lower-casing twice is lower-casing once, and a text without capitals is its own lower case |
| Text.Contains | src/components/doctors/DoctorList.tsx:22-23 | `includes` holds exactly when the needle occurs at some position of the text |
| Text.Trim | src/components/chats/ChatMessages.tsx:25 | the trimmed text is empty exactly when the input is all whitespace; otherwise it neither starts nor ends with whitespace |
| Text.TrimStart | src/components/chats/ChatMessages.tsx:25 | the result is a suffix of the input; it is empty exactly when the input is all whitespace, and otherwise starts with a non-space |
| Text.TrimEnd | src/components/chats/ChatMessages.tsx:25 | the result is a prefix of the input; it is empty exactly when the input is all whitespace, and otherwise ends with a non-space |
| Text.IndexOf | src/components/calendar/AppointmentModal.tsx:147 | finds nothing exactly when the character is absent; otherwise finds the character's first position |
| Text.IndexOfFirst | src/components/calendar/AppointmentModal.tsx:147 | a position holding the character with no earlier occurrence is the position `indexOf` reports |
| Dates.DaysInMonth | src/components/calendar/MonthView.tsx:11 | every month has 28 to 31 days, and February has 29 exactly in leap years |
| Dates.NextDay | src/context/AppointmentContext.tsx:134 | the next calendar day is one day number later, across month and year ends |
| Dates.PrevDay | src/context/AppointmentContext.tsx:144 | the previous calendar day is one day number earlier, across month and year starts |
| Dates.AddDays | src/components/calendar/WeekView.tsx:10 | `addDays(d, n)` is the valid date whose day number is `n` more |
| Dates.AddDaysRoundTrip | src/context/AppointmentContext.tsx:132-142 | moving `n` days and then back `n` days returns to the same date |
| Dates.DayNumberInjective | src/components/calendar/MonthView.tsx:36-96 | two valid dates with the same day number are the same date |
| Dates.Weekday | src/components/calendar/MonthView.tsx:12-13 | the weekday lies between Sunday (0) and Saturday (6) |
| Dates.WeekdayAddDays | src/components/calendar/MonthView.tsx:96 | moving `n` days moves the weekday by `n` modulo 7 |
| Dates.StartOfWeek | src/components/calendar/MonthView.tsx:12 | `startOfWeek` is a Sunday, as many days before the date as the date's weekday |
| Dates.EndOfWeek | src/components/calendar/MonthView.tsx:13 | `endOfWeek` is a Saturday, up to six days after the date |
| Dates.StartOfMonth | src/components/calendar/MonthView.tsx:10 | `startOfMonth` is the first of the same month, `day - 1` days before the date |
| Dates.EndOfMonth | src/components/calendar/MonthView.tsx:11 | `endOfMonth` is in the same month, and the next day is a first of the month |
| Dates.AddMonths | src/context/AppointmentContext.tsx:130 | `addMonths(d, n)` lands `n` months on; the day of the month is kept when it exists there, and otherwise clamped to that month's last day |
| Dates.MonthIndexInjective | src/context/AppointmentContext.tsx:130 | the month count determines the year and the month |
| Dates.AddMonthsRoundTrip | src/context/AppointmentContext.tsx:130-140 | moving `n` months forward and back restores the date exactly when its day exists in the month reached |
| Dates.SetClock | src/components/calendar/AppointmentModal.tsx:150-155 | `setHours(h, m)` on a date gives the instant that many minutes after that date's midnight |
| Dates.AddMinutes | src/components/calendar/AppointmentModal.tsx:139 | adding minutes to a time moves its instant by exactly that many minutes |
| Clock.FormatTime | src/components/calendar/WeekView.tsx:49-51 | `formatTime` of an hour and a minute below 100 is five characters with ':' in the middle |
| Clock.FormatHHmm | src/components/calendar/AppointmentModal.tsx:127-128 | `format(t, 'HH:mm')` of a time of day is five characters with ':' in the middle |
| Clock.ParseTime | src/components/calendar/AppointmentModal.tsx:147-148 | a time string that parses contains ':' |
| Clock.SplitJoined | src/components/calendar/AppointmentModal.tsx:147 | two digit strings joined by ':' split back into exactly those two fields |
| Clock.ParseFields | src/components/calendar/AppointmentModal.tsx:147-148 | digit fields joined by ':' parse to hours × 60 + minutes |
| Clock.FormatParseRoundTrip | src/components/calendar/AppointmentModal.tsx:118 | parsing `formatTime(h, m)` gives back h × 60 + m, for any hour and minute |
| Clock.FormatHHmmParses | src/components/calendar/AppointmentModal.tsx:127-128 | a time of day formatted as "HH:mm" parses back to that time of day |
| Clock.PaddingIgnored | src/components/calendar/AppointmentModal.tsx:101-102 | a padded and an unpadded early hour ("09:00", "9:00") parse to the same time |
| Store.AddAppointment | src/context/AppointmentContext.tsx:110-116 | the new record is appended after the unchanged list, under the given id |
| Store.UpdateAppointment | src/context/AppointmentContext.tsx:118-122 | the list keeps its length; each position holds the update if its id matches, and its old entry otherwise |
| Store.DeleteAppointment | src/context/AppointmentContext.tsx:124-126 | exactly the entries with other ids remain, and the id is gone |
| Store.DeleteKeepsOrder | src/context/AppointmentContext.tsx:124-126 | deleting keeps the surviving entries in order |
| Store.AddThenDelete | src/context/AppointmentContext.tsx:110-126 | adding under a fresh id and deleting that id gives back the original list |
| Store.AddKeepsIdsUnique | src/context/AppointmentContext.tsx:110-116 | appending under a fresh id keeps ids unique |
| Store.UpdateAbsentIsNoOp | src/context/AppointmentContext.tsx:118-122 | updating with an id not in the list changes nothing |
| Store.UpdateWithOwnRecord | src/context/AppointmentContext.tsx:118-122 | with unique ids, updating an entry with itself changes nothing |
| Store.UpdateKeepsIds | src/context/AppointmentContext.tsx:118-122 | updating never changes which id sits at which position |
| Store.UpdateIdempotent | src/context/AppointmentContext.tsx:118-122 | updating twice with the same record equals updating once |
| Store.DeleteAbsentIsNoOp | src/context/AppointmentContext.tsx:124-126 | deleting an id that is not in the list changes nothing |
| Store.DeleteIdempotent | src/context/AppointmentContext.tsx:124-126 | deleting twice equals deleting once |
| Store.DeleteRemovesOne | src/context/AppointmentContext.tsx:124-126 | with unique ids, deleting a present id removes exactly one entry |
| Store.NextPeriod | src/context/AppointmentContext.tsx:128-136 | only the cursor moves: one day in day mode, seven in week mode, or to the next month with the day kept when it exists there and clamped to that month's last day otherwise |
| Store.PrevPeriod | src/context/AppointmentContext.tsx:138-146 | only the cursor moves: back one day, back seven days, or to the previous month with the day kept when it exists there and clamped to that month's last day otherwise |
| Store.StepBackUndoesForward | src/context/AppointmentContext.tsx:128-146 | a day or week step back undoes a step forward; a month step back does so exactly when the day of the month existed in the next month |
| Store.StepForwardUndoesBack | src/context/AppointmentContext.tsx:128-146 | a day or week step forward undoes a step back; a month step forward does so exactly when the day of the month existed in the previous month |
| Store.PrevUndoesNext | src/context/AppointmentContext.tsx:128-146 | `prevPeriod` after `nextPeriod` restores the state exactly when the mode is not month, or the day of the month exists in the next month |
| Store.NextUndoesPrev | src/context/AppointmentContext.tsx:128-146 | `nextPeriod` after `prevPeriod` restores the state exactly when the mode is not month, or the day of the month exists in the previous month |
| Store.MonthClampExample | src/context/AppointmentContext.tsx:130-140 | from 31 January 2025 in month mode, next reaches 28 February and previous then reaches 28 January, not 31 January |
| Store.OpenForCreate | src/components/calendar/WeekView.tsx:18-24 | the dialog opens in create mode for the slot with no appointment selected; list, cursor and view mode are unchanged |
| Store.OpenForView | src/components/calendar/WeekView.tsx:26-30 | the dialog opens read-only on the clicked appointment; list, cursor, view mode and pending slot are unchanged |
| Store.InitialState | src/context/AppointmentContext.tsx:43-108 | the store starts with ids "1" to "5", all unique and well formed, the cursor on Monday 21 April 2025 in week view, and the dialog closed in create mode with nothing selected |
| Slots.TimeSlots | src/components/calendar/WeekView.tsx:12-16 | there are 19 rows from 8:00 to 17:00; row i is 30·i minutes after 8:00, on the hour or the half hour |
| Slots.SlotStart | src/components/calendar/WeekView.tsx:33 | the slot starts that many hours and minutes after the day's midnight |
| Slots.SlotEnd | src/components/calendar/WeekView.tsx:34 | the slot ends exactly 30 minutes after it starts, a minute of 60 rolling into the next hour |
| Slots.MatchesSlotIsIntersection | src/components/calendar/WeekView.tsx:36-46 | an appointment whose span meets the window matches; for a start not after the end, matching is exactly meeting the window |
| Slots.MatchesSlotNeedsOrder | src/components/calendar/WeekView.tsx:36-46 | with its end before its start, an appointment can match a window its span never meets |
| Slots.MatchesSlotIgnoresDate | src/components/calendar/WeekView.tsx:36-46 | the appointment's date field never affects the overlap rule |
| WeekView.WeekDays | src/components/calendar/WeekView.tsx:10 | the columns are the cursor and the six days after it, not snapped to a Sunday |
| WeekView.AppointmentsForSlot | src/components/calendar/WeekView.tsx:32-47 | a slot shows exactly the store's entries that match its window, whatever their date field |
| WeekView.SlotKeepsStoreOrder | src/components/calendar/WeekView.tsx:36-46 | a slot's entries appear in store order |
| WeekView.SlotIsIntersection | src/components/calendar/WeekView.tsx:32-47 | a well-formed entry shows in a slot exactly when its span meets the window |
| WeekView.NineToQuarterToTen | src/components/calendar/WeekView.tsx:32-47 | an entry from 9:00 to 9:45 shows in the 8:30, 9:00 and 9:30 rows and not in the 10:00 row |
| WeekView.EmergencyVisitSlots | src/context/AppointmentContext.tsx:66-76 | the sample "Emergency Visit" shows in the 8:30, 9:00 and 9:30 rows of the first column, and not at 10:00 |
| WeekView.TimeSlotClick | src/components/calendar/WeekView.tsx:18-24 | a slot click opens create mode for that day at the slot's time; store, cursor and view mode unchanged |
| DayView.AppointmentsForSlot | src/components/calendar/DayView.tsx:31-48 | a slot shows exactly the entries dated on the cursor's day that match its window |
| DayView.DaySlotRefinesWeekSlot | src/components/calendar/DayView.tsx:31-48 | the day view's slot is the week view's slot for that day with entries dated on other days removed, in order |
| DayView.SlotKeepsStoreOrder | src/components/calendar/DayView.tsx:35-47 | a slot's entries appear in store order |
| DayView.OutsideOpeningHoursNeverShown | src/components/calendar/DayView.tsx:10-14 | an entry lying wholly before 8:00 or wholly after 17:30 appears in none of the rows |
| DayView.TimeSlotClick | src/components/calendar/DayView.tsx:16-22 | a slot click opens create mode on the cursor's day at the slot's time; store, cursor and view mode unchanged |
| MonthView.DayAppointments | src/components/calendar/MonthView.tsx:44-46 | a cell holds exactly the entries dated on its day, whatever their times |
| MonthView.DayAppointmentsKeepOrder | src/components/calendar/MonthView.tsx:44-46 | a cell's entries appear in store order |
| MonthView.MakeCell | src/components/calendar/MonthView.tsx:38-91 | a cell lists the first three of the day's entries (all of them if fewer); the badge shows exactly when there is one, with the count; "+N more" shows exactly when there are more than three, and accounts for the rest; greyed out exactly outside the month; highlighted exactly on today |
| MonthView.AddShowsInItsCell | src/components/calendar/MonthView.tsx:44-46 | adding an appointment appends it to its own day's cell and leaves every other cell's entries unchanged |
| MonthView.SampleCellExample | src/components/calendar/MonthView.tsx:66-91 | in the sample store, the cell for 22 April 2025 lists only "Annual Checkup", with badge 1 and no "+N more" |
| MonthView.GridSpan | src/components/calendar/MonthView.tsx:10-13 | the grid runs from a Sunday at most six days before the first of the month to a Saturday at most six days after its last day, in four to six whole weeks |
| MonthView.WholeWeeks | src/components/calendar/MonthView.tsx:12-13 | a month of 28 to 31 days, offset into its first week, ends three to five whole weeks later plus the last day's weekday |
| MonthView.WeekRow | src/components/calendar/MonthView.tsx:37-96 | a row is seven consecutive days, each cell as a cell is built, and the next row starts seven days on |
| MonthView.LaidOutAppend | src/components/calendar/MonthView.tsx:36-106 | appending the next seven days as a row keeps the grid laid out day by day |
| MonthView.GridCoversMonth | src/components/calendar/MonthView.tsx:36-106 | every day of the cursor's month has a cell in the grid |
| MonthView.LayOutRows | src/components/calendar/MonthView.tsx:36-106 | the render loop emits one row per week of the grid's span, consecutive days from its first Sunday |
| MonthView.GridShape | src/components/calendar/MonthView.tsx:36-106 | a grid laid out over the whole span has the shape the month view promises |
| MonthView.BuildMonthGrid | src/components/calendar/MonthView.tsx:10-106 | the month grid has four to six rows of seven consecutive days, from the Sunday on or before the first to the Saturday on or after the last; it shows every day of the month, each cell built as a cell is |
| MonthView.FirstWithId | src/components/calendar/MonthView.tsx:28 | `find` by id fails exactly when no entry has the id; otherwise it returns the first entry with it |
| MonthView.AppointmentClick | src/components/calendar/MonthView.tsx:26-34 | a click opens read-only the first entry with that id, as `find` does, leaving list, cursor, view mode and pending slot unchanged; with no such entry nothing changes |
| MonthView.DayClick | src/components/calendar/MonthView.tsx:19-24 | a day click opens create mode at midnight of that day; store, cursor and view mode unchanged |
| AppointmentModal.HalfHourField | src/components/calendar/AppointmentModal.tsx:62 | the minute field of an option is "00" on even indices and "30" on odd ones |
| AppointmentModal.TimeOption | src/components/calendar/AppointmentModal.tsx:60-64 | option i reads as 8:00 plus 30·i minutes, and its hour is not zero-padded |
| AppointmentModal.TimeOptions | src/components/calendar/AppointmentModal.tsx:60-64 | there are 20 options; option i reads as 8:00 plus 30·i minutes; none starts with '0' |
| AppointmentModal.SlotMinutes | src/components/calendar/WeekView.tsx:12-16 | grid row i starts 30·i minutes after 8:00 |
| AppointmentModal.OptionMinutes | src/components/calendar/AppointmentModal.tsx:60-64 | option i reads as 30·i minutes after 8:00 |
| AppointmentModal.SlotIsOption | src/components/calendar/AppointmentModal.tsx:60-64 | grid row i and option i denote the same time |
| AppointmentModal.SlotsAreFirstOptions | src/components/calendar/AppointmentModal.tsx:60-64 | the 19 grid rows are the first 19 options, by time |
| AppointmentModal.EarlyHourIsPadded | src/components/calendar/AppointmentModal.tsx:138 | before 10:00 the "HH:mm" default start begins with '0' |
| AppointmentModal.PaddedIsNotAnOption | src/components/calendar/AppointmentModal.tsx:60-64 | no zero-padded time text is an option value |
| AppointmentModal.SlotDefaultIsNotAnOption | src/components/calendar/AppointmentModal.tsx:138 | the default start of an 8:00 slot ("08:00") is not an option value, but reads as the same time as the option "8:00" |
| AppointmentModal.ParseKind | src/components/calendar/AppointmentModal.tsx:73-75 | any value the enum accepts names the type it is read as |
| AppointmentModal.KindRoundTrip | src/components/calendar/AppointmentModal.tsx:73-75 | every appointment type's form value is accepted and read back as that type |
| AppointmentModal.Validate | src/components/calendar/AppointmentModal.tsx:66-77 | the schema reports a message exactly for each failing field check, and reports nothing exactly when the form is valid |
| AppointmentModal.EndBeforeStartValidates | src/components/calendar/AppointmentModal.tsx:66-77 | a form whose end time is before its start time passes the schema |
| AppointmentModal.FormDetails | src/components/calendar/AppointmentModal.tsx:146-155 | the submitted record keeps the text fields, date and type as entered, with both times set on the chosen date at the parsed hours and minutes |
| AppointmentModal.LoadedForm | src/components/calendar/AppointmentModal.tsx:121-131 | the edit or view form holds the appointment's fields, with times that read back as its start and end times and notes defaulting to "" |
| AppointmentModal.DefaultTimes | src/components/calendar/AppointmentModal.tsx:101-102 | the fallback times "9:00" and "9:30" read as 9:00 and 9:30 |
| AppointmentModal.NineOClock | src/components/calendar/AppointmentModal.tsx:101 | "9:00" reads as 540 minutes after midnight |
| AppointmentModal.HalfPastNine | src/components/calendar/AppointmentModal.tsx:102 | "9:30" reads as 570 minutes after midnight |
| AppointmentModal.SlotTimes | src/components/calendar/AppointmentModal.tsx:133-142 | a slot's blank form is dated on the slot's day and starts at its time, with an end time that reads as 30 minutes later on a 24-hour clock |
| AppointmentModal.BlankForm | src/components/calendar/AppointmentModal.tsx:132-143 | a new form is an empty checkup: the slot's times, or 9:00 to 9:30 today without a slot; it never passes the schema as it stands |
| AppointmentModal.DefaultForm | src/components/calendar/AppointmentModal.tsx:121-143 | the dialog loads the selected appointment in edit and view mode, and the blank form otherwise |
| AppointmentModal.HandRolledParses | src/components/calendar/AppointmentModal.tsx:114-118 | the hand-carried end time reads as the slot's time plus 30 minutes, with no wrap at midnight |
| AppointmentModal.CarryHalfHour | src/components/calendar/AppointmentModal.tsx:114-117 | the hand-carried hour and minute add up to the slot time plus 30; before 23:30 they are that time's hour and minute |
| AppointmentModal.HandRolledIsFormatted | src/components/calendar/AppointmentModal.tsx:114-118 | before 23:30 the hand-carried end time equals the "HH:mm" rendering of the slot time plus 30 |
| AppointmentModal.HandRolledAgreesBeforeLastHalfHour | src/components/calendar/AppointmentModal.tsx:113-139 | the hand-carried end time and the reset's end time agree exactly for slots before 23:30 |
| AppointmentModal.Submit | src/components/calendar/AppointmentModal.tsx:146-185 | submitting closes the dialog and changes nothing else but the list: in edit mode every entry with the selection's id takes the form's record; otherwise the record is appended under the new id |
| AppointmentModal.HandleDelete | src/components/calendar/AppointmentModal.tsx:187-193 | with a selection, its id leaves the store, every other entry stays, and the dialog closes; without one nothing changes |
| AppointmentModal.HandleEdit | src/components/calendar/AppointmentModal.tsx:195-197 | the dialog switches to edit mode and nothing else changes |
| AppointmentModal.SetClockSameDay | src/components/calendar/AppointmentModal.tsx:150-155 | setting a time's own hours and minutes on its own date gives back that time |
| AppointmentModal.LoadedFormSubmits | src/components/calendar/AppointmentModal.tsx:121-168 | the loaded form of a well-formed entry with valid text submits, and gives back its own record with notes filled in |
| AppointmentModal.SaveUnchangedEdit | src/components/calendar/AppointmentModal.tsx:121-168 | saving an edit without changes writes the entry back with notes filled in; when it had notes and ids are unique, the store is unchanged |
| AppointmentModal.HalfHourLater | src/components/calendar/AppointmentModal.tsx:139 | half an hour after a time of day wraps to the small hours from 23:30 on |
| AppointmentModal.SlotFormIsSubmittable | src/components/calendar/AppointmentModal.tsx:66-77 | once given a title and patient of two characters or more, a slot's blank form passes the schema, and its times read as the slot's time and 30 minutes later |
| AppointmentModal.SlotFormSubmits | src/components/calendar/AppointmentModal.tsx:146-182 | the named slot form submits a checkup on the slot's date from the slot's time to 30 minutes later, wrapping to the same day's small hours from 23:30 on |
| AppointmentModal.CreateFromSlot | src/components/calendar/AppointmentModal.tsx:132-182 | clicking a slot, naming the form and submitting appends exactly one checkup, under the new id, from the slot to 30 minutes later (wrapping from 23:30 on), and keeps the rest of the list |
| AppointmentModal.CreateThenDelete | src/components/calendar/AppointmentModal.tsx:170-193 | creating under a fresh id, opening the new entry and deleting it gives back the store's list |
| AppointmentModal.LateNewAppointmentEndsBeforeStart | src/components/calendar/CalendarHeader.tsx:21-26 | "New Appointment" at 23:30 or later, once named and submitted, appends a record whose end is 30 minutes after the start minus a day, so it ends before it starts and is not well formed |
| AppointmentModal.FormDetailsEndAfterStart | src/components/calendar/AppointmentModal.tsx:146-155 | the corrected record equals the submitted one except for its end time, which moves one day later exactly when its clock reading is before the start's |
| AppointmentModal.SlotFormEndsHalfHourLater | src/components/calendar/AppointmentModal.tsx:133-155 | with the corrected end time, a slot's named form runs from the slot to exactly 30 minutes later at every time of day |
| DoctorList.Roster | src/components/doctors/DoctorList.tsx:8-14 | the roster has five doctors |
| DoctorList.Filtered | src/components/doctors/DoctorList.tsx:21-24 | the filtered list holds exactly the roster's doctors whose name or specialty contains the query, ignoring case |
| DoctorList.FilteredKeepsRosterOrder | src/components/doctors/DoctorList.tsx:21-24 | the filtered list keeps roster order |
| DoctorList.EmptyOccurs | src/components/doctors/DoctorList.tsx:22-23 | every text includes the empty string |
| DoctorList.EmptyQueryKeepsAll | src/components/doctors/DoctorList.tsx:17-24 | with the initial empty query, the whole roster shows |
| DoctorList.SetQuery | src/components/doctors/DoctorList.tsx:40-41 | typing changes only the query |
| DoctorList.ClickRow | src/components/doctors/DoctorList.tsx:63-71 | clicking a row selects that row of the filtered list and changes nothing else |
| DoctorList.CloseDialog | src/components/doctors/DoctorList.tsx:78 | closing clears the selection, which closes the dialog, and keeps the query and banner |
| DoctorList.HandleRequest | src/components/doctors/DoctorList.tsx:26-30 | a request sets the banner to "Request sent!" and closes the dialog |
| DoctorList.ShownDoctorAsWritten | src/components/doctors/DoctorList.tsx:82-91 | the dialog as written shows a roster doctor, looked up by the filtered row number |
| DoctorList.ShownDoctor | src/components/doctors/DoctorList.tsx:82-91 | the corrected dialog shows a roster doctor who matches the query |
| DoctorList.ShowsClickedDoctor | src/components/doctors/DoctorList.tsx:45-91 | with the corrected lookup, the dialog shows the doctor on the clicked row, for every query |
| DoctorList.AsWrittenRightForEmptyQuery | src/components/doctors/DoctorList.tsx:82-91 | with an empty query, the lookup as written and the corrected one agree |
| DoctorList.NoOpeningPair | src/components/doctors/DoctorList.tsx:22-23 | a text in which the needle's first two characters never stand side by side does not include it |
| DoctorList.NoDermIn | src/components/doctors/DoctorList.tsx:22-23 | a text with no 'e' in either case does not include "derm" once lower-cased |
| DoctorList.SharmaNameLacksDerm | src/components/doctors/DoctorList.tsx:9 | "derm" does not occur in the first doctor's lower-cased name |
| DoctorList.CardiologistLacksDerm | src/components/doctors/DoctorList.tsx:9 | "derm" does not occur in the first doctor's lower-cased specialty |
| DoctorList.DermMissesFirst | src/components/doctors/DoctorList.tsx:9 | a "derm" query, in any letter case, does not match the first doctor |
| DoctorList.DermHitsSecond | src/components/doctors/DoctorList.tsx:10 | a "derm" query, in any letter case, matches the second doctor |
| DoctorList.DermSearchShowsWrongDoctor | src/components/doctors/DoctorList.tsx:82-91 | after a "derm" search the first row is Dr. John Singh, but clicking it opens Dr. Priya Sharma as written (and Dr. John Singh when corrected) |
| ChatMessages.Initial | src/components/chats/ChatMessages.tsx:9-13 | the chat starts with three messages: doctor, user, doctor |
| ChatMessages.SetInput | src/components/chats/ChatMessages.tsx:17 | typing replaces the text box and leaves the messages alone |
| ChatMessages.SendMessage | src/components/chats/ChatMessages.tsx:24-29 | a blank input changes nothing; otherwise the untrimmed text is appended once, as a user message with the stamp, and the box is cleared |
| ChatMessages.SecondSendIsNoOp | src/components/chats/ChatMessages.tsx:24-29 | pressing Send again at once changes nothing |
| ChatMessages.GrewFromTransitive | src/components/chats/ChatMessages.tsx:26 | growing by appended user messages is transitive |
| ChatMessages.StepGrows | src/components/chats/ChatMessages.tsx:24-29 | one event only appends, and by at most one message, and only on Send |
| ChatMessages.MessagesOnlyGrow | src/components/chats/ChatMessages.tsx:16-29 | over any sequence of typing and sending, earlier messages stay in place, at most one message is added per Send, and each added one is a non-blank user message |
| ChatMessages.BlankSendKeepsMessages | src/components/chats/ChatMessages.tsx:25 | typing only whitespace and pressing Send leaves the conversation as it was |

## Left out

- Rendering, styling, icons, toasts, `scrollIntoView`, and the layout, header, sidebar,
  statistics and pathology components. These are presentation and hold no logic of
  their own.
- The store's `setViewMode`, called by the calendar header's Day, Week and Month
  buttons, is a plain field assignment. `setCurrentDate` is only called inside the
  store's `nextPeriod` and `prevPeriod`, which are modelled.
- Time zones, daylight saving, seconds and milliseconds. A `Date` is a civil date and
  a minute of the day. `setHours(h, m, 0)` is modelled to the minute.
- The day-mode `nextPeriod` and `prevPeriod` mutate the old `Date` in place before
  storing a copy. The model treats the cursor as a value; only the stored result is
  observable.
- The store's random id (`Math.random().toString(36)`) is a parameter of
  `Store.AddAppointment`. Freshness is a precondition where a lemma needs it. Random
  collisions are not modelled.
- `new Date()` (today, in the month view and in the blank form) is a parameter.
- The chat's `toLocaleTimeString` stamp is a parameter.
- The 1.3-second timer that clears the doctor page's banner is not modelled.
- Letter case and whitespace are ASCII only. `toLowerCase` and `trim` on other
  Unicode characters are not modelled.
- AppointmentModal.Validate: lengths are counted in characters (Unicode scalar
  values), not in the UTF-16 code units that `z.string().min(2)` counts. The two
  differ only for characters outside the Basic Multilingual Plane: a title made of one
  emoji passes the schema but not `Valid`.
- Clock.ParseTime: `Number` also accepts surrounding whitespace, signs, decimal points
  and exponents. The model reads only decimal digits and treats anything else as NaN
  (`None`). The form's values come from the option list or from "HH:mm" formatting,
  so they are always digit strings.
- AppointmentModal.Submit: requires both times to parse (`Submittable`). With an
  unparseable time, `setHours(NaN)` gives an Invalid Date, and the model has no
  Invalid Date. The dialog's own values always parse.
- AppointmentModal.HandRolledEndTime: carries no contract of its own. Its value is
  only described by `HandRolledParses`, `HandRolledIsFormatted` and
  `HandRolledAgreesBeforeLastHalfHour`, because the reset in the same effect
  overwrites it.
- DoctorList ratings are kept in tenths (4.8 as 48) rather than as floating point.
  The avatars are left out.

## Findings

| source | as written | input that shows it | evidently intended | confidence | as-written member | corrected member |
|---|---|---|---|---|---|---|
| src/components/doctors/DoctorList.tsx:82-91 | the dialog looks up `DOCTORS[selected]`, but `selected` is a row number in the filtered list | search "derm", then click the first row, Dr. John Singh: the dialog shows Dr. Priya Sharma | look up `filtered[selected]`, the doctor on the clicked row | high; not executed | DoctorList.DermSearchShowsWrongDoctor | DoctorList.ShowsClickedDoctor |
| src/components/calendar/AppointmentModal.tsx:139-155 | the blank form's end time is the "HH:mm" clock reading 30 minutes after the slot, and submit sets it on the slot's own date | press "New Appointment" (CalendarHeader.tsx:21-26) at 23:45, fill in title and patient, and submit: the record runs from 23:45 back to 00:15 of the same date | the end 30 minutes after the start, on the next day when it passes midnight | medium; not executed | AppointmentModal.LateNewAppointmentEndsBeforeStart | AppointmentModal.SlotFormEndsHalfHourLater |
