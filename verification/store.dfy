/**
 * The appointment store (`AppointmentProvider`): the appointment list with
 * its add/update/delete operations, the calendar cursor with its
 * day/week/month period navigation, and the modal selection state shared by
 * the calendar views and the appointment modal. Every operation is a pure
 * function from the old state to the new one.
 */
module Store {
  import opened Options
  import opened Seqs
  import opened Dates

  datatype AppointmentType = Emergency | Examination | Consultation | Checkup | SickVisit

  /** Every field of an appointment except its id: `Omit<Appointment, 'id'>`. */
  datatype Details = Details(
    title: string,
    doctorName: Option<string>,
    patientName: string,
    date: ValidDate,
    startTime: DateTime,
    endTime: DateTime,
    kind: AppointmentType,
    notes: Option<string>)

  datatype Appointment = Appointment(id: string, details: Details)

  /**
   * The shape the `Appointment` fields suggest but nothing enforces: both times lie
   * on the appointment's date and the start is not after the end.
   */
  predicate WellFormed(a: Appointment) {
    && a.details.startTime.date == a.details.date
    && a.details.endTime.date == a.details.date
    && Instant(a.details.startTime) <= Instant(a.details.endTime)
  }

  predicate HasId(apps: seq<Appointment>, id: string) {
    exists i :: 0 <= i < |apps| && apps[i].id == id
  }

  predicate UniqueIds(apps: seq<Appointment>) {
    forall i, j :: 0 <= i < j < |apps| ==> apps[i].id != apps[j].id
  }

  /** The ids in list order. */
  function Ids(apps: seq<Appointment>): (r: seq<string>)
    ensures |r| == |apps|
  {
    seq(|apps|, i requires 0 <= i < |apps| => apps[i].id)
  }

  // ---------------------------------------------------------------------------
  // Appointment list operations
  // ---------------------------------------------------------------------------

  /**
   * `addAppointment`: the record with the generated id appended at the end.
   * The id is random in the source; here it is a parameter.
   */
  function AddAppointment(apps: seq<Appointment>, details: Details, id: string): (r: seq<Appointment>)
    ensures |r| == |apps| + 1
    ensures r[..|apps|] == apps
    ensures r[|apps|].id == id && r[|apps|].details == details
  {
    apps + [Appointment(id, details)]
  }

  /** `updateAppointment`: every entry carrying `updated.id` is replaced by `updated`; the rest stay in place. */
  function UpdateAppointment(apps: seq<Appointment>, updated: Appointment): (r: seq<Appointment>)
    ensures |r| == |apps|
    ensures forall i :: 0 <= i < |r| ==> r[i] == if apps[i].id == updated.id then updated else apps[i]
    decreases |apps|
  {
    if apps == [] then []
    else [if apps[0].id == updated.id then updated else apps[0]] + UpdateAppointment(apps[1..], updated)
  }

  /** `deleteAppointment`: the entries without that id, in their order. */
  function DeleteAppointment(apps: seq<Appointment>, id: string): (r: seq<Appointment>)
    ensures forall a :: a in r <==> a in apps && a.id != id
    ensures !HasId(r, id)
  {
    var r := Filter(apps, (a: Appointment) => a.id != id);
    assert forall i :: 0 <= i < |r| ==> r[i] in r;
    r
  }

  /** Deleting keeps the surviving entries in their original order. */
  lemma DeleteKeepsOrder(apps: seq<Appointment>, id: string)
    ensures IsSubsequence(DeleteAppointment(apps, id), apps)
  {
    FilterIsSubsequence(apps, (a: Appointment) => a.id != id);
  }

  /** With fresh `id`, adding and then deleting it gives back the original list. */
  lemma AddThenDelete(apps: seq<Appointment>, details: Details, id: string)
    requires !HasId(apps, id)
    ensures DeleteAppointment(AddAppointment(apps, details, id), id) == apps
  {
    var keep := (a: Appointment) => a.id != id;
    FilterAppend(apps, Appointment(id, details), keep);
    assert forall a :: a in apps ==> keep(a);
    FilterKeepsAll(apps, keep);
  }

  /** Appending a record with a fresh id keeps the ids unique. */
  lemma AddKeepsIdsUnique(apps: seq<Appointment>, details: Details, id: string)
    requires UniqueIds(apps) && !HasId(apps, id)
    ensures UniqueIds(AddAppointment(apps, details, id))
  {
  }

  /** Updating with an id that is not in the list changes nothing. */
  lemma UpdateAbsentIsNoOp(apps: seq<Appointment>, updated: Appointment)
    requires !HasId(apps, updated.id)
    ensures UpdateAppointment(apps, updated) == apps
  {
  }

  /** With unique ids, updating an entry with itself changes nothing. */
  lemma UpdateWithOwnRecord(apps: seq<Appointment>, a: Appointment)
    requires UniqueIds(apps) && a in apps
    ensures UpdateAppointment(apps, a) == apps
  {
    var k :| 0 <= k < |apps| && apps[k] == a;
    assert forall i :: 0 <= i < |apps| && apps[i].id == a.id ==> i == k;
  }

  /** Updating never changes which id sits where. */
  lemma UpdateKeepsIds(apps: seq<Appointment>, updated: Appointment)
    ensures Ids(UpdateAppointment(apps, updated)) == Ids(apps)
  {
  }

  /** Updating twice with the same record is updating once. */
  lemma UpdateIdempotent(apps: seq<Appointment>, updated: Appointment)
    ensures UpdateAppointment(UpdateAppointment(apps, updated), updated) == UpdateAppointment(apps, updated)
  {
  }

  /** Deleting an id that is not in the list changes nothing. */
  lemma DeleteAbsentIsNoOp(apps: seq<Appointment>, id: string)
    requires !HasId(apps, id)
    ensures DeleteAppointment(apps, id) == apps
  {
    var keep := (a: Appointment) => a.id != id;
    assert forall a :: a in apps ==> keep(a);
    FilterKeepsAll(apps, keep);
  }

  /** Deleting twice is deleting once. */
  lemma DeleteIdempotent(apps: seq<Appointment>, id: string)
    ensures DeleteAppointment(DeleteAppointment(apps, id), id) == DeleteAppointment(apps, id)
  {
    DeleteAbsentIsNoOp(DeleteAppointment(apps, id), id);
  }

  /** When ids are unique, deleting a present id removes exactly one entry. */
  lemma {:induction false} DeleteRemovesOne(apps: seq<Appointment>, id: string)
    requires UniqueIds(apps) && HasId(apps, id)
    ensures |DeleteAppointment(apps, id)| == |apps| - 1
    decreases |apps|
  {
    var keep := (a: Appointment) => a.id != id;
    var rest := apps[1..];
    assert apps == [apps[0]] + rest;
    assert UniqueIds(rest) by {
      assert forall i :: 0 <= i < |rest| ==> rest[i] == apps[i + 1];
    }
    if apps[0].id == id {
      assert !HasId(rest, id) by {
        assert forall i :: 0 <= i < |rest| ==> rest[i] == apps[i + 1];
      }
      DeleteAbsentIsNoOp(rest, id);
      assert DeleteAppointment(apps, id) == Filter(rest, keep);
    } else {
      assert HasId(rest, id) by {
        var k :| 0 <= k < |apps| && apps[k].id == id;
        assert rest[k - 1].id == id;
      }
      DeleteRemovesOne(rest, id);
      assert DeleteAppointment(apps, id) == [apps[0]] + Filter(rest, keep);
    }
  }

  // ---------------------------------------------------------------------------
  // Store state, period navigation and selection
  // ---------------------------------------------------------------------------

  datatype ViewMode = Day | Week | Month

  datatype ModalMode = Create | Edit | View

  datatype State = State(
    appointments: seq<Appointment>,
    currentDate: ValidDate,
    viewMode: ViewMode,
    isModalOpen: bool,
    selectedAppointment: Option<Appointment>,
    selectedTimeSlot: Option<DateTime>,
    modalMode: ModalMode)

  /** The cursor one period later: `addMonths(d, 1)`, `addWeeks(d, 1)` or the next day. */
  function StepForward(mode: ViewMode, d: ValidDate): ValidDate {
    match mode
    case Month => AddMonths(d, 1)
    case Week => AddDays(d, 7)
    case Day => AddDays(d, 1)
  }

  /** The cursor one period earlier: `subMonths(d, 1)`, `subWeeks(d, 1)` or the previous day. */
  function StepBack(mode: ViewMode, d: ValidDate): ValidDate {
    match mode
    case Month => AddMonths(d, -1)
    case Week => AddDays(d, -7)
    case Day => AddDays(d, -1)
  }

  /** `nextPeriod`: only the cursor moves, by the view mode's period. */
  function NextPeriod(s: State): (r: State)
    ensures r == s.(currentDate := r.currentDate)
    ensures s.viewMode == Day ==> DayNumber(r.currentDate) == DayNumber(s.currentDate) + 1
    ensures s.viewMode == Week ==> DayNumber(r.currentDate) == DayNumber(s.currentDate) + 7
    ensures s.viewMode == Month ==>
      && MonthIndex(r.currentDate) == MonthIndex(s.currentDate) + 1
      && r.currentDate.day <= s.currentDate.day
      && (r.currentDate.day == s.currentDate.day <==> s.currentDate.day <= DaysInMonth(r.currentDate.year, r.currentDate.month))
      && (r.currentDate.day < s.currentDate.day ==> r.currentDate.day == DaysInMonth(r.currentDate.year, r.currentDate.month))
  {
    s.(currentDate := StepForward(s.viewMode, s.currentDate))
  }

  /** `prevPeriod`: only the cursor moves, back by the view mode's period. */
  function PrevPeriod(s: State): (r: State)
    ensures r == s.(currentDate := r.currentDate)
    ensures s.viewMode == Day ==> DayNumber(r.currentDate) == DayNumber(s.currentDate) - 1
    ensures s.viewMode == Week ==> DayNumber(r.currentDate) == DayNumber(s.currentDate) - 7
    ensures s.viewMode == Month ==>
      && MonthIndex(r.currentDate) == MonthIndex(s.currentDate) - 1
      && r.currentDate.day <= s.currentDate.day
      && (r.currentDate.day == s.currentDate.day <==> s.currentDate.day <= DaysInMonth(r.currentDate.year, r.currentDate.month))
      && (r.currentDate.day < s.currentDate.day ==> r.currentDate.day == DaysInMonth(r.currentDate.year, r.currentDate.month))
  {
    s.(currentDate := StepBack(s.viewMode, s.currentDate))
  }

  /** A step back undoes a step forward, except when a month step clamped the day. */
  lemma StepBackUndoesForward(mode: ViewMode, d: ValidDate)
    ensures mode != Month ==> StepBack(mode, StepForward(mode, d)) == d
    ensures mode == Month ==>
              var next := AddMonths(d, 1);
              StepBack(mode, next) == d <==> d.day <= DaysInMonth(next.year, next.month)
  {
    match mode
    case Month => AddMonthsRoundTrip(d, 1);
    case Week => AddDaysRoundTrip(d, 7);
    case Day => AddDaysRoundTrip(d, 1);
  }

  /** A step forward undoes a step back, except when a month step clamped the day. */
  lemma StepForwardUndoesBack(mode: ViewMode, d: ValidDate)
    ensures mode != Month ==> StepForward(mode, StepBack(mode, d)) == d
    ensures mode == Month ==>
              var prev := AddMonths(d, -1);
              StepForward(mode, prev) == d <==> d.day <= DaysInMonth(prev.year, prev.month)
  {
    match mode
    case Month => AddMonthsRoundTrip(d, -1);
    case Week => AddDaysRoundTrip(d, -7);
    case Day => AddDaysRoundTrip(d, -1);
  }

  /**
   * `prevPeriod` undoes `nextPeriod` in day and week mode always, and in month
   * mode exactly when the cursor's day of the month exists in the next month.
   */
  lemma PrevUndoesNext(s: State)
    ensures var next := NextPeriod(s).currentDate;
            PrevPeriod(NextPeriod(s)) == s <==> s.viewMode != Month || s.currentDate.day <= DaysInMonth(next.year, next.month)
  {
    var next := StepForward(s.viewMode, s.currentDate);
    assert NextPeriod(s) == s.(currentDate := next);
    assert PrevPeriod(NextPeriod(s)) == s.(currentDate := StepBack(s.viewMode, next));
    StepBackUndoesForward(s.viewMode, s.currentDate);
  }

  /**
   * `nextPeriod` undoes `prevPeriod` in day and week mode always, and in month
   * mode exactly when the cursor's day of the month exists in the previous month.
   */
  lemma NextUndoesPrev(s: State)
    ensures var prev := PrevPeriod(s).currentDate;
            NextPeriod(PrevPeriod(s)) == s <==> s.viewMode != Month || s.currentDate.day <= DaysInMonth(prev.year, prev.month)
  {
    var prev := StepBack(s.viewMode, s.currentDate);
    assert PrevPeriod(s) == s.(currentDate := prev);
    assert NextPeriod(PrevPeriod(s)) == s.(currentDate := StepForward(s.viewMode, prev));
    StepForwardUndoesBack(s.viewMode, s.currentDate);
  }

  /** From 31 January, one month forward and one back lands on 28 January 2025, not the 31st. */
  lemma MonthClampExample()
    ensures var s := InitialState().(viewMode := Month, currentDate := Date(2025, 1, 31));
            NextPeriod(s).currentDate == Date(2025, 2, 28)
            && PrevPeriod(NextPeriod(s)).currentDate == Date(2025, 1, 28)
  {
  }

  /**
   * A click on an empty slot or day (and the header's "New Appointment"):
   * the modal opens in create mode for `slot` with no appointment selected.
   */
  function OpenForCreate(s: State, slot: DateTime): (r: State)
    ensures r.appointments == s.appointments && r.currentDate == s.currentDate && r.viewMode == s.viewMode
    ensures r.isModalOpen && r.modalMode == Create
    ensures r.selectedAppointment == None && r.selectedTimeSlot == Some(slot)
  {
    s.(selectedTimeSlot := Some(slot), selectedAppointment := None, modalMode := Create, isModalOpen := true)
  }

  /** A click on an appointment: the modal opens read-only on it; the pending slot is left as it was. */
  function OpenForView(s: State, a: Appointment): (r: State)
    ensures r.appointments == s.appointments && r.currentDate == s.currentDate && r.viewMode == s.viewMode
    ensures r.selectedTimeSlot == s.selectedTimeSlot
    ensures r.isModalOpen && r.modalMode == View && r.selectedAppointment == Some(a)
  {
    s.(selectedAppointment := Some(a), modalMode := View, isModalOpen := true)
  }

  // ---------------------------------------------------------------------------
  // Initial state
  // ---------------------------------------------------------------------------

  function At(d: ValidDate, hour: nat, minute: nat): DateTime
    requires hour * 60 + minute < MinutesPerDay
  {
    DateTime(d, hour * 60 + minute)
  }

  function Sample(id: string, title: string, patient: string, doctor: string, d: ValidDate,
                  startHour: nat, startMinute: nat, endHour: nat, endMinute: nat,
                  kind: AppointmentType, notes: string): Appointment
    requires startHour * 60 + startMinute < MinutesPerDay && endHour * 60 + endMinute < MinutesPerDay
  {
    Appointment(id, Details(title, Some(doctor), patient, d,
      At(d, startHour, startMinute), At(d, endHour, endMinute), kind, Some(notes)))
  }

  /** The five sample appointments the store starts with (April 2025). */
  function SampleAppointments(): seq<Appointment> {
    [ Sample("1", "Annual Checkup", "John Doe", "Dr. Sarah Johnson", Date(2025, 4, 22),
             10, 0, 10, 30, Checkup, "Regular annual health examination"),
      Sample("2", "Fever Consultation", "Emily Smith", "Dr. Michael Chang", Date(2025, 4, 23),
             14, 0, 14, 45, Consultation, "Patient complaining of high fever for 2 days"),
      Sample("3", "Emergency Visit", "Robert Brown", "Dr. Lisa Garcia", Date(2025, 4, 21),
             9, 0, 9, 45, Emergency, "Severe chest pain"),
      Sample("4", "Physical Examination", "Anna Wilson", "Dr. James Lee", Date(2025, 4, 24),
             11, 0, 11, 30, Examination, "Pre-employment physical examination"),
      Sample("5", "Cold Symptoms", "David Miller", "Dr. Emma Wilson", Date(2025, 4, 20),
             15, 15, 15, 45, SickVisit, "Patient with cough and runny nose") ]
  }

  /**
   * The provider's initial state: the sample list, cursor on Monday 21 April
   * 2025 in week view, modal closed in create mode with nothing selected.
   */
  function InitialState(): (s: State)
    ensures Ids(s.appointments) == ["1", "2", "3", "4", "5"]
    ensures UniqueIds(s.appointments)
    ensures forall a :: a in s.appointments ==> WellFormed(a)
    ensures s.currentDate == Date(2025, 4, 21) && Weekday(s.currentDate) == 1
    ensures s.viewMode == Week
    ensures !s.isModalOpen && s.modalMode == Create
    ensures s.selectedAppointment == None && s.selectedTimeSlot == None
  {
    State(SampleAppointments(), Date(2025, 4, 21), Week, false, None, None, Create)
  }
}
