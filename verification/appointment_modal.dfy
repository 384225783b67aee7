/**
 * The appointment dialog: its time options, the form schema, the values the
 * form is reset to when it opens, and the submit, delete and edit actions
 * that write back to the store.
 */
module AppointmentModal {
  import opened Options
  import opened Text
  import opened Dates
  import opened Clock
  import opened Store
  import opened Slots

  // ---------------------------------------------------------------------------
  // Time options
  // ---------------------------------------------------------------------------

  /** The minutes of option `i`: "00" on the hour, "30" on the half hour. */
  function HalfHourField(i: nat): (m: string)
    ensures |m| == 2 && AllDigits(m) && DigitsValue(m) == 30 * (i % 2)
  {
    if i % 2 == 0 then
      assert DigitsValue("00") == 0 by { assert "00"[..1] == "0"; }
      "00"
    else
      assert DigitsValue("30") == 30 by { assert "30"[..1] == "3"; }
      "30"
  }

  /** The option for index `i`: the hour unpadded, then ":00" or ":30". */
  function TimeOption(i: nat): (s: string)
    requires i < 20
    ensures ParseTime(s) == Some(480 + 30 * i)
    ensures s[0] != '0'
  {
    var hour := 8 + i / 2;
    DecimalStringValue(hour);
    ParseFields(DecimalString(hour), HalfHourField(i), hour, 30 * (i % 2));
    DecimalString(hour) + ":" + HalfHourField(i)
  }

  /** `times`: the 20 start and end choices, 8:00 through 17:30 every half hour. */
  function TimeOptions(): (r: seq<string>)
    ensures |r| == 20
    ensures forall i :: 0 <= i < 20 ==> ParseTime(r[i]) == Some(480 + 30 * i)
    ensures forall i :: 0 <= i < 20 ==> r[i] != [] && r[i][0] != '0'
  {
    seq(20, i requires 0 <= i < 20 => TimeOption(i))
  }

  /** Row `i` of the grid starts `30 * i` minutes after 8:00. */
  lemma SlotMinutes(i: nat)
    requires i < 19
    ensures TimeSlots()[i].hour * 60 + TimeSlots()[i].minute == 480 + 30 * i
  {
  }

  /** Option `i` reads as `30 * i` minutes after 8:00. */
  lemma OptionMinutes(i: nat)
    requires i < 20
    ensures ParseTime(TimeOptions()[i]) == Some(480 + 30 * i)
  {
  }

  /** Row `i` of the grid is option `i`, read as minutes after midnight. */
  lemma SlotIsOption(i: nat)
    requires i < 19
    ensures ParseTime(TimeOptions()[i]) == Some(TimeSlots()[i].hour * 60 + TimeSlots()[i].minute)
  {
    SlotMinutes(i);
    OptionMinutes(i);
  }

  /** The grid's 19 rows are the first 19 time options, read as minutes after midnight. */
  lemma SlotsAreFirstOptions()
    ensures forall i :: 0 <= i < |TimeSlots()| ==>
      ParseTime(TimeOptions()[i]) == Some(TimeSlots()[i].hour * 60 + TimeSlots()[i].minute)
  {
    forall i | 0 <= i < |TimeSlots()|
      ensures ParseTime(TimeOptions()[i]) == Some(TimeSlots()[i].hour * 60 + TimeSlots()[i].minute)
    {
      SlotIsOption(i);
    }
  }

  /** A whole hour before 10:00 formatted as "HH:mm" starts with a zero. */
  lemma EarlyHourIsPadded(hour: nat)
    requires hour < 10
    ensures FormatHHmm(hour * 60)[0] == '0'
  {
    DivModUnique(hour * 60, 60, hour, 0);
    assert FormatHHmm(hour * 60) == FormatTime(hour, 0);
    assert FormatTime(hour, 0) == PadStart2(hour) + ":" + PadStart2(0);
  }

  /**
   * The default start for an 8:00 slot is "08:00": it reads as the same time
   * as the option "8:00" but is not one of the option values.
   */
  lemma SlotDefaultIsNotAnOption()
    ensures FormatHHmm(480) !in TimeOptions()
    ensures ParseTime(FormatHHmm(480)) == ParseTime(TimeOptions()[0])
  {
    EarlyHourIsPadded(8);
    PaddedIsNotAnOption(FormatHHmm(480));
    FormatHHmmParses(480);
    OptionMinutes(0);
  }

  /** No option value starts with a zero, so no zero-padded time text is one. */
  lemma PaddedIsNotAnOption(s: string)
    requires s != [] && s[0] == '0'
    ensures s !in TimeOptions()
  {
    var options := TimeOptions();
    forall i | 0 <= i < |options| ensures options[i] != s {
      assert options[i][0] != '0';
    }
  }

  // ---------------------------------------------------------------------------
  // Appointment types
  // ---------------------------------------------------------------------------

  /** The form's value for an appointment type. */
  function KindName(k: AppointmentType): string {
    match k
    case Emergency => "emergency"
    case Examination => "examination"
    case Consultation => "consultation"
    case Checkup => "checkup"
    case SickVisit => "sick-visit"
  }

  /** `z.enum([...])`: the type a form value names, if any. */
  function ParseKind(s: string): (r: Option<AppointmentType>)
    ensures r.Some? ==> KindName(r.value) == s
  {
    if s == "emergency" then Some(Emergency)
    else if s == "examination" then Some(Examination)
    else if s == "consultation" then Some(Consultation)
    else if s == "checkup" then Some(Checkup)
    else if s == "sick-visit" then Some(SickVisit)
    else None
  }

  /** Every type's form value reads back as that type. */
  lemma KindRoundTrip(k: AppointmentType)
    ensures ParseKind(KindName(k)) == Some(k)
  {
  }

  // ---------------------------------------------------------------------------
  // The form and its schema
  // ---------------------------------------------------------------------------

  /** The form's fields; `None` is a field left unset. */
  datatype FormValues = FormValues(
    title: string,
    patientName: string,
    doctorName: Option<string>,
    date: Option<ValidDate>,
    startTime: Option<string>,
    endTime: Option<string>,
    kind: Option<string>,
    notes: Option<string>)

  /** The messages the schema can report. */
  datatype Issue = TitleTooShort | PatientNameTooShort | DateMissing | StartTimeMissing | EndTimeMissing | KindInvalid

  /** `formSchema`: what a form must satisfy before submit runs. */
  predicate Valid(v: FormValues) {
    && |v.title| >= 2
    && |v.patientName| >= 2
    && v.date.Some?
    && v.startTime.Some?
    && v.endTime.Some?
    && v.kind.Some? && ParseKind(v.kind.value).Some?
  }

  /** Whether the schema reports `issue` for `v`. */
  predicate Fails(v: FormValues, issue: Issue) {
    match issue
    case TitleTooShort => |v.title| < 2
    case PatientNameTooShort => |v.patientName| < 2
    case DateMissing => v.date.None?
    case StartTimeMissing => v.startTime.None?
    case EndTimeMissing => v.endTime.None?
    case KindInvalid => v.kind.None? || ParseKind(v.kind.value).None?
  }

  /** `[issue]` when `failing`, else nothing. */
  function Report(failing: bool, issue: Issue): (r: seq<Issue>)
    ensures forall x :: x in r <==> failing && x == issue
  {
    if failing then [issue] else []
  }

  /** The reports of the six field checks, in field order. */
  function Issues(v: FormValues): seq<Issue> {
    Report(|v.title| < 2, TitleTooShort)
    + Report(|v.patientName| < 2, PatientNameTooShort)
    + Report(v.date.None?, DateMissing)
    + Report(v.startTime.None?, StartTimeMissing)
    + Report(v.endTime.None?, EndTimeMissing)
    + Report(v.kind.None? || ParseKind(v.kind.value).None?, KindInvalid)
  }

  /** Each field check contributes its own message and no other. */
  lemma IssuesExact(v: FormValues)
    ensures forall x :: x in Issues(v) <==> Fails(v, x)
  {
    forall x ensures x in Issues(v) <==> Fails(v, x) {
      var a, b := Report(|v.title| < 2, TitleTooShort), Report(|v.patientName| < 2, PatientNameTooShort);
      var c, d := Report(v.date.None?, DateMissing), Report(v.startTime.None?, StartTimeMissing);
      var e, f := Report(v.endTime.None?, EndTimeMissing), Report(v.kind.None? || ParseKind(v.kind.value).None?, KindInvalid);
      assert Issues(v) == a + b + c + d + e + f;
      assert x in Issues(v) <==> x in a || x in b || x in c || x in d || x in e || x in f;
    }
  }

  /** The schema's messages for `v`, one per failing field, in field order. */
  function Validate(v: FormValues): (r: seq<Issue>)
    ensures forall x :: x in r <==> Fails(v, x)
    ensures r == [] <==> Valid(v)
  {
    var r := Issues(v);
    IssuesExact(v);
    assert Valid(v) <==>
      && !Fails(v, TitleTooShort) && !Fails(v, PatientNameTooShort) && !Fails(v, DateMissing)
      && !Fails(v, StartTimeMissing) && !Fails(v, EndTimeMissing) && !Fails(v, KindInvalid);
    assert r != [] ==> r[0] in r;
    r
  }

  /** The schema never compares the two times: a form ending before it starts passes. */
  lemma EndBeforeStartValidates()
    ensures var v := FormValues("Follow-up", "Jo Park", None, Some(Date(2025, 4, 21)),
                                Some(TimeOptions()[4]), Some(TimeOptions()[2]), Some("checkup"), None);
            Validate(v) == [] && ParseTime(v.endTime.value).value < ParseTime(v.startTime.value).value
  {
    OptionMinutes(4);
    OptionMinutes(2);
    KindRoundTrip(Checkup);
  }

  /** A valid form whose two times parse: the forms `Submit` is modelled for. */
  predicate Submittable(v: FormValues) {
    Valid(v) && ParseTime(v.startTime.value).Some? && ParseTime(v.endTime.value).Some?
  }

  /**
   * The record `onSubmit` builds: the text fields as entered, and both times
   * set on the chosen date (an hour past 23 running on into later days).
   */
  function FormDetails(v: FormValues): (d: Details)
    requires Submittable(v)
    ensures d.title == v.title && d.patientName == v.patientName
    ensures d.doctorName == v.doctorName && d.notes == v.notes
    ensures d.date == v.date.value && KindName(d.kind) == v.kind.value
    ensures Instant(d.startTime) == DayNumber(d.date) * MinutesPerDay + ParseTime(v.startTime.value).value
    ensures Instant(d.endTime) == DayNumber(d.date) * MinutesPerDay + ParseTime(v.endTime.value).value
  {
    var day := v.date.value;
    Details(v.title, v.doctorName, v.patientName, day,
      SetClock(day, ParseTime(v.startTime.value).value),
      SetClock(day, ParseTime(v.endTime.value).value),
      ParseKind(v.kind.value).value, v.notes)
  }

  // ---------------------------------------------------------------------------
  // Values the form is reset to
  // ---------------------------------------------------------------------------

  /** The reset for an appointment opened in edit or view mode: its fields, times as "HH:mm". */
  function LoadedForm(a: Appointment): (v: FormValues)
    ensures v.title == a.details.title && v.patientName == a.details.patientName
    ensures v.doctorName == a.details.doctorName && v.date == Some(a.details.date)
    ensures v.startTime.Some? && ParseTime(v.startTime.value) == Some(a.details.startTime.minute)
    ensures v.endTime.Some? && ParseTime(v.endTime.value) == Some(a.details.endTime.minute)
    ensures v.kind.Some? && ParseKind(v.kind.value) == Some(a.details.kind)
    ensures v.notes == Some(a.details.notes.GetOr(""))
  {
    KindRoundTrip(a.details.kind);
    FormatHHmmParses(a.details.startTime.minute);
    FormatHHmmParses(a.details.endTime.minute);
    FormValues(a.details.title, a.details.patientName, a.details.doctorName, Some(a.details.date),
      Some(FormatHHmm(a.details.startTime.minute)), Some(FormatHHmm(a.details.endTime.minute)),
      Some(KindName(a.details.kind)), Some(a.details.notes.GetOr("")))
  }

  /** The fallback times read as 9:00 and 9:30. */
  lemma DefaultTimes()
    ensures ParseTime("9:00") == Some(540) && ParseTime("9:30") == Some(570)
  {
    NineOClock();
    HalfPastNine();
  }

  /** "9:00" reads as 9:00. */
  lemma NineOClock()
    ensures ParseTime("9:00") == Some(540)
  {
  }

  /** "9:30" reads as 9:30. */
  lemma HalfPastNine()
    ensures ParseTime("9:30") == Some(570)
  {
  }

  /** The blank form for a clicked slot: its day, its time, and half an hour later. */
  function SlotTimes(t: DateTime): (v: FormValues)
    ensures v.title == "" && v.patientName == "" && v.doctorName == None && v.notes == Some("")
    ensures v.kind == Some("checkup") && v.date == Some(t.date)
    ensures v.startTime.Some? && ParseTime(v.startTime.value) == Some(t.minute)
    ensures v.endTime.Some? && ParseTime(v.endTime.value) == Some((t.minute + 30) % MinutesPerDay)
  {
    var later := AddMinutes(t, 30);
    FormatHHmmParses(t.minute);
    FormatHHmmParses(later.minute);
    FormValues("", "", None, Some(t.date), Some(FormatHHmm(t.minute)),
      Some(FormatHHmm(later.minute)), Some("checkup"), Some(""))
  }

  /**
   * The reset for a new appointment: empty text, a routine checkup, and the
   * clicked slot to half an hour later (9:00 to 9:30 on `today` without a slot).
   */
  function BlankForm(slot: Option<DateTime>, today: ValidDate): (v: FormValues)
    ensures v.title == "" && v.patientName == "" && v.doctorName == None && v.notes == Some("")
    ensures v.kind == Some("checkup")
    ensures slot.None? ==> v.date == Some(today) && v.startTime == Some("9:00") && v.endTime == Some("9:30")
    ensures slot.None? ==> ParseTime(v.startTime.value) == Some(540) && ParseTime(v.endTime.value) == Some(570)
    ensures slot.Some? ==> v == SlotTimes(slot.value)
    ensures !Valid(v)
  {
    match slot
    case None =>
      DefaultTimes();
      FormValues("", "", None, Some(today), Some("9:00"), Some("9:30"), Some("checkup"), Some(""))
    case Some(t) => SlotTimes(t)
  }

  /**
   * The values the dialog shows when it opens: the selected appointment's in
   * edit or view mode, the blank form otherwise. `today` stands for `new Date()`.
   */
  function DefaultForm(s: State, today: ValidDate): (v: FormValues)
    ensures s.selectedAppointment.Some? && s.modalMode != Create ==> v == LoadedForm(s.selectedAppointment.value)
    ensures s.selectedAppointment.None? || s.modalMode == Create ==> v == BlankForm(s.selectedTimeSlot, today)
  {
    if s.selectedAppointment.Some? && s.modalMode != Create then LoadedForm(s.selectedAppointment.value)
    else BlankForm(s.selectedTimeSlot, today)
  }

  /**
   * The end time the effect first writes for a slot, carrying a minute of 60
   * or more into the hour by hand. The reset that follows in the same effect
   * overwrites it, so it never reaches the form.
   */
  function HandRolledEndTime(slot: DateTime): string {
    var hour := slot.minute / 60;
    var minute := slot.minute % 60 + 30;
    var adjustedHour := if minute >= 60 then hour + 1 else hour;
    var adjustedMinute := if minute >= 60 then minute - 60 else minute;
    FormatTime(adjustedHour, adjustedMinute)
  }

  /** The hand-rolled end time reads as 30 minutes after the slot, past midnight included. */
  lemma HandRolledParses(slot: DateTime)
    ensures ParseTime(HandRolledEndTime(slot)) == Some(slot.minute + 30)
  {
    var minute := slot.minute % 60 + 30;
    var adjustedHour := if minute >= 60 then slot.minute / 60 + 1 else slot.minute / 60;
    var adjustedMinute := if minute >= 60 then minute - 60 else minute;
    assert HandRolledEndTime(slot) == FormatTime(adjustedHour, adjustedMinute);
    CarryHalfHour(slot.minute);
    FormatParseRoundTrip(adjustedHour, adjustedMinute);
  }

  /**
   * Carrying by hand: the hour and minute fields the effect computes add up
   * to `t + 30`, and before 23:30 they are that time's hour and minute.
   */
  lemma CarryHalfHour(t: nat)
    ensures var minute := t % 60 + 30;
            var adjustedHour := if minute >= 60 then t / 60 + 1 else t / 60;
            var adjustedMinute := if minute >= 60 then minute - 60 else minute;
            && adjustedHour * 60 + adjustedMinute == t + 30
            && (t < 1410 ==> adjustedHour == (t + 30) / 60 && adjustedMinute == (t + 30) % 60)
  {
    var minute := t % 60 + 30;
    var adjustedHour := if minute >= 60 then t / 60 + 1 else t / 60;
    var adjustedMinute := if minute >= 60 then minute - 60 else minute;
    assert t == 60 * (t / 60) + t % 60;
    DivModUnique(t + 30, 60, adjustedHour, adjustedMinute);
  }

  /** Before 23:30 the hand-rolled end time is the slot's time plus 30 minutes in "HH:mm". */
  lemma HandRolledIsFormatted(slot: DateTime)
    requires slot.minute < 1410
    ensures HandRolledEndTime(slot) == FormatHHmm(slot.minute + 30)
  {
    CarryHalfHour(slot.minute);
  }

  /** The hand-rolled end time agrees with the reset's exactly for slots before 23:30. */
  lemma HandRolledAgreesBeforeLastHalfHour(slot: DateTime)
    ensures HandRolledEndTime(slot) == FormatHHmm(AddMinutes(slot, 30).minute) <==> slot.minute < 1410
  {
    var later := AddMinutes(slot, 30).minute;
    if slot.minute < 1410 {
      assert later == slot.minute + 30;
      HandRolledIsFormatted(slot);
    } else {
      HandRolledParses(slot);
      FormatHHmmParses(later);
      assert ParseTime(FormatHHmm(later)) != ParseTime(HandRolledEndTime(slot));
    }
  }

  // ---------------------------------------------------------------------------
  // Actions
  // ---------------------------------------------------------------------------

  /**
   * `onSubmit`: in edit mode with a selection, every entry with the
   * selection's id takes the form's record under that id; otherwise the
   * record is appended under `newId`. Either way the dialog closes and
   * nothing else changes.
   */
  function Submit(s: State, v: FormValues, newId: string): (r: State)
    requires Submittable(v)
    ensures r == s.(appointments := r.appointments, isModalOpen := false)
    ensures s.modalMode == Edit && s.selectedAppointment.Some? ==>
      var id := s.selectedAppointment.value.id;
      && |r.appointments| == |s.appointments|
      && (forall i :: 0 <= i < |s.appointments| ==>
            r.appointments[i] == if s.appointments[i].id == id then Appointment(id, FormDetails(v)) else s.appointments[i])
    ensures !(s.modalMode == Edit && s.selectedAppointment.Some?) ==>
      r.appointments == s.appointments + [Appointment(newId, FormDetails(v))]
  {
    var d := FormDetails(v);
    if s.modalMode == Edit && s.selectedAppointment.Some? then
      s.(appointments := UpdateAppointment(s.appointments, Appointment(s.selectedAppointment.value.id, d)), isModalOpen := false)
    else
      s.(appointments := AddAppointment(s.appointments, d, newId), isModalOpen := false)
  }

  /** `handleDelete`: with a selection, its id leaves the store and the dialog closes; without one nothing happens. */
  function HandleDelete(s: State): (r: State)
    ensures s.selectedAppointment.None? ==> r == s
    ensures s.selectedAppointment.Some? ==>
      && r == s.(appointments := r.appointments, isModalOpen := false)
      && !HasId(r.appointments, s.selectedAppointment.value.id)
      && (forall a :: a in r.appointments <==> a in s.appointments && a.id != s.selectedAppointment.value.id)
  {
    match s.selectedAppointment
    case None => s
    case Some(a) => s.(appointments := DeleteAppointment(s.appointments, a.id), isModalOpen := false)
  }

  /** `handleEdit`: the dialog switches to edit mode; nothing else changes. */
  function HandleEdit(s: State): (r: State)
    ensures r == s.(modalMode := r.modalMode) && r.modalMode == Edit
  {
    s.(modalMode := Edit)
  }

  // ---------------------------------------------------------------------------
  // End-to-end properties
  // ---------------------------------------------------------------------------

  /** A time of day set on its own date is itself. */
  lemma SetClockSameDay(t: DateTime)
    ensures SetClock(t.date, t.minute) == t
  {
  }

  /** A well-formed entry (title and patient of two characters or more) has a loaded form that submits back to its own record, notes filled in. */
  lemma LoadedFormSubmits(a: Appointment)
    requires WellFormed(a) && |a.details.title| >= 2 && |a.details.patientName| >= 2
    ensures Submittable(LoadedForm(a))
    ensures FormDetails(LoadedForm(a)) == a.details.(notes := Some(a.details.notes.GetOr("")))
  {
    var v := LoadedForm(a);
    KindRoundTrip(a.details.kind);
    SetClockSameDay(a.details.startTime);
    SetClockSameDay(a.details.endTime);
    assert ParseTime(v.startTime.value).value == a.details.startTime.minute;
    assert ParseTime(v.endTime.value).value == a.details.endTime.minute;
  }

  /**
   * Opening a well-formed entry whose title and patient name pass the
   * schema for editing, and saving the loaded form
   * unchanged writes it back with its notes filled in ("" for none); when
   * it already had notes and ids are unique, the store is left as it was.
   */
  lemma SaveUnchangedEdit(s: State, today: ValidDate, newId: string)
    requires s.modalMode == Edit && s.selectedAppointment.Some?
    requires WellFormed(s.selectedAppointment.value)
    requires |s.selectedAppointment.value.details.title| >= 2 && |s.selectedAppointment.value.details.patientName| >= 2
    ensures Submittable(DefaultForm(s, today))
    ensures var a := s.selectedAppointment.value;
            var saved := a.(details := a.details.(notes := Some(a.details.notes.GetOr(""))));
            Submit(s, DefaultForm(s, today), newId).appointments == UpdateAppointment(s.appointments, saved)
    ensures var a := s.selectedAppointment.value;
            a.details.notes.Some? && a in s.appointments && UniqueIds(s.appointments) ==>
            Submit(s, DefaultForm(s, today), newId).appointments == s.appointments
  {
    var a := s.selectedAppointment.value;
    var v := DefaultForm(s, today);
    assert v == LoadedForm(a);
    LoadedFormSubmits(a);
    var saved := a.(details := a.details.(notes := Some(a.details.notes.GetOr(""))));
    assert Appointment(a.id, FormDetails(v)) == saved;
    assert Submit(s, v, newId).appointments == UpdateAppointment(s.appointments, saved);
    if a.details.notes.Some? && a in s.appointments && UniqueIds(s.appointments) {
      UpdateWithOwnRecord(s.appointments, a);
    }
  }

  /** Half an hour after `m`, as a time of day: past midnight it wraps to the small hours. */
  lemma HalfHourLater(m: MinuteOfDay)
    ensures (m + 30) % MinutesPerDay == m + 30 - (if m < 1410 then 0 else MinutesPerDay)
  {
    if m < 1410 {
      DivModUnique(m + 30, MinutesPerDay, 0, m + 30);
    } else {
      DivModUnique(m + 30, MinutesPerDay, 1, m + 30 - MinutesPerDay);
    }
  }

  /** The slot's blank form, once named, passes the schema and its times parse. */
  lemma SlotFormIsSubmittable(t: DateTime, title: string, patient: string)
    requires |title| >= 2 && |patient| >= 2
    ensures var v := SlotTimes(t).(title := title, patientName := patient);
            && Submittable(v)
            && ParseTime(v.startTime.value) == Some(t.minute)
            && ParseTime(v.endTime.value) == Some((t.minute + 30) % MinutesPerDay)
  {
    KindRoundTrip(Checkup);
  }

  /** The slot's blank form, once named, submits a checkup from the slot to half an hour later. */
  lemma SlotFormSubmits(t: DateTime, title: string, patient: string)
    requires |title| >= 2 && |patient| >= 2
    ensures var v := SlotTimes(t).(title := title, patientName := patient);
            && Submittable(v)
            && var d := FormDetails(v);
            && d.title == title && d.patientName == patient && d.kind == Checkup && d.date == t.date
            && Instant(d.startTime) == Instant(t)
            && Instant(d.endTime) == Instant(t) + 30 - (if t.minute < 1410 then 0 else MinutesPerDay)
  {
    var v := SlotTimes(t).(title := title, patientName := patient);
    SlotFormIsSubmittable(t, title, patient);
    var d := FormDetails(v);
    assert d.kind == ParseKind("checkup").value;
    var base := DayNumber(t.date) * MinutesPerDay;
    assert Instant(t) == base + t.minute;
    var later := (t.minute + 30) % MinutesPerDay;
    assert Instant(d.endTime) == base + later;
    HalfHourLater(t.minute);
  }

  /**
   * Clicking a slot and submitting the blank form once a title and patient
   * are filled in appends a routine checkup that starts at the slot and ends
   * 30 minutes later; from a 23:30 slot onwards the end wraps back to the
   * start of the same day.
   */
  lemma CreateFromSlot(s: State, slot: DateTime, today: ValidDate, title: string, patient: string, newId: string)
    requires |title| >= 2 && |patient| >= 2
    ensures var v := DefaultForm(OpenForCreate(s, slot), today).(title := title, patientName := patient);
            && Submittable(v)
            && var r := Submit(OpenForCreate(s, slot), v, newId);
            && |r.appointments| == |s.appointments| + 1
            && r.appointments[..|s.appointments|] == s.appointments
            && var d := r.appointments[|s.appointments|].details;
            && r.appointments[|s.appointments|].id == newId
            && d.title == title && d.patientName == patient && d.kind == Checkup && d.date == slot.date
            && Instant(d.startTime) == Instant(slot)
            && Instant(d.endTime) == Instant(slot) + 30 - (if slot.minute < 1410 then 0 else MinutesPerDay)
  {
    var open := OpenForCreate(s, slot);
    assert DefaultForm(open, today) == SlotTimes(slot);
    SlotFormSubmits(slot, title, patient);
    var v := SlotTimes(slot).(title := title, patientName := patient);
    var r := Submit(open, v, newId);
    assert r.appointments == s.appointments + [Appointment(newId, FormDetails(v))];
  }

  /**
   * Creating an appointment under a fresh id, opening it and deleting it
   * gives back the store as it was.
   */
  lemma CreateThenDelete(s: State, v: FormValues, newId: string)
    requires Submittable(v)
    requires s.modalMode != Edit && !HasId(s.appointments, newId)
    ensures var r := Submit(s, v, newId);
            var created := r.appointments[|r.appointments| - 1];
            HandleDelete(OpenForView(r, created)).appointments == s.appointments
  {
    AddThenDelete(s.appointments, FormDetails(v), newId);
  }

  /**
   * "New Appointment" in the calendar header opens the blank form at the
   * current time `now`. From 23:30 on, its end time reads as the small hours,
   * which submit sets on the same date: the record ends before it starts.
   */
  lemma LateNewAppointmentEndsBeforeStart(s: State, now: DateTime, today: ValidDate, title: string, patient: string, newId: string)
    requires now.minute >= 1410
    requires |title| >= 2 && |patient| >= 2
    ensures var v := DefaultForm(OpenForCreate(s, now), today).(title := title, patientName := patient);
            && Submittable(v)
            && var created := Submit(OpenForCreate(s, now), v, newId).appointments[|s.appointments|];
            && Instant(created.details.endTime) == Instant(now) + 30 - MinutesPerDay
            && Instant(created.details.endTime) < Instant(created.details.startTime)
            && !WellFormed(created)
  {
    CreateFromSlot(s, now, today, title, patient, newId);
  }

  /**
   * The record a submit that keeps the end after the start would build: an
   * end time reading earlier than the start time falls on the next day.
   */
  function FormDetailsEndAfterStart(v: FormValues): (d: Details)
    requires Submittable(v)
    ensures d == FormDetails(v).(endTime := d.endTime)
    ensures ParseTime(v.startTime.value).value <= ParseTime(v.endTime.value).value ==> d.endTime == FormDetails(v).endTime
    ensures ParseTime(v.endTime.value).value < ParseTime(v.startTime.value).value ==>
              Instant(d.endTime) == Instant(FormDetails(v).endTime) + MinutesPerDay
  {
    var start, end := ParseTime(v.startTime.value).value, ParseTime(v.endTime.value).value;
    var d := FormDetails(v);
    if end < start then d.(endTime := SetClock(d.date, end + MinutesPerDay)) else d
  }

  /** With the end kept after the start, a slot's named form ends exactly 30 minutes after the slot, whatever its time. */
  lemma SlotFormEndsHalfHourLater(t: DateTime, title: string, patient: string)
    requires |title| >= 2 && |patient| >= 2
    ensures var v := SlotTimes(t).(title := title, patientName := patient);
            && Submittable(v)
            && var d := FormDetailsEndAfterStart(v);
            && Instant(d.startTime) == Instant(t)
            && Instant(d.endTime) == Instant(t) + 30
  {
    var v := SlotTimes(t).(title := title, patientName := patient);
    SlotFormSubmits(t, title, patient);
    HalfHourLater(t.minute);
    assert ParseTime(v.startTime.value).value == t.minute;
    assert ParseTime(v.endTime.value).value == (t.minute + 30) % MinutesPerDay;
  }
}
