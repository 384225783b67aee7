/** The week view: seven day columns from the cursor, each cut into the half-hour slots. */
module WeekView {
  import opened Options
  import opened Seqs
  import opened Dates
  import opened Store
  import opened Slots

  /** `weekDays`: the cursor and the six days after it, not snapped to a week start. */
  function WeekDays(cursor: ValidDate): (r: seq<ValidDate>)
    ensures |r| == 7
    ensures forall i :: 0 <= i < 7 ==> DayNumber(r[i]) == DayNumber(cursor) + i
    ensures r[0] == cursor
  {
    seq(7, i requires 0 <= i < 7 => AddDays(cursor, i))
  }

  /** `getAppointmentsForSlot(day, hour, minute)`: the store entries that match the slot window on `day`. */
  function AppointmentsForSlot(apps: seq<Appointment>, day: ValidDate, hour: nat, minute: nat): (r: seq<Appointment>)
    ensures forall a :: a in r <==> a in apps && MatchesSlot(a, SlotStart(day, hour, minute), SlotEnd(day, hour, minute))
  {
    Filter(apps, (a: Appointment) => MatchesSlot(a, SlotStart(day, hour, minute), SlotEnd(day, hour, minute)))
  }

  /** The slot's entries come in store order. */
  lemma SlotKeepsStoreOrder(apps: seq<Appointment>, day: ValidDate, hour: nat, minute: nat)
    ensures IsSubsequence(AppointmentsForSlot(apps, day, hour, minute), apps)
  {
    FilterIsSubsequence(apps, (a: Appointment) => MatchesSlot(a, SlotStart(day, hour, minute), SlotEnd(day, hour, minute)));
  }

  /** For well-formed entries the slot shows exactly those whose span meets [slot start, slot start + 30 min]. */
  lemma SlotIsIntersection(apps: seq<Appointment>, day: ValidDate, hour: nat, minute: nat, a: Appointment)
    requires a in apps && WellFormed(a)
    ensures var lo := SlotStart(day, hour, minute);
            a in AppointmentsForSlot(apps, day, hour, minute)
            <==> Instant(a.details.startTime) <= lo + 30 && Instant(a.details.endTime) >= lo
  {
    MatchesSlotIsIntersection(a, SlotStart(day, hour, minute), SlotEnd(day, hour, minute));
  }

  /**
   * The sample "Emergency Visit" (21 April 2025, 9:00 to 9:45) shows in the
   * 8:30, 9:00 and 9:30 rows of its column and not in the 10:00 row.
   */
  lemma EmergencyVisitSlots()
    ensures var apps := InitialState().appointments;
            var visit := apps[2];
            var day := WeekDays(InitialState().currentDate)[0];
            && visit.details.title == "Emergency Visit"
            && visit in AppointmentsForSlot(apps, day, 8, 30)
            && visit in AppointmentsForSlot(apps, day, 9, 0)
            && visit in AppointmentsForSlot(apps, day, 9, 30)
            && visit !in AppointmentsForSlot(apps, day, 10, 0)
  {
    var apps := InitialState().appointments;
    var visit := apps[2];
    var day := WeekDays(InitialState().currentDate)[0];
    assert visit in apps;
    assert day == visit.details.date == Date(2025, 4, 21);
    var base := DayNumber(day) * MinutesPerDay;
    assert Instant(visit.details.startTime) == base + 540;
    assert Instant(visit.details.endTime) == base + 585;
    NineToQuarterToTen(apps, day, visit);
  }

  /** An entry from 9:00 to 9:45 on `day` shows in that day's 8:30, 9:00 and 9:30 rows and not in its 10:00 row. */
  lemma NineToQuarterToTen(apps: seq<Appointment>, day: ValidDate, a: Appointment)
    requires a in apps
    requires Instant(a.details.startTime) == DayNumber(day) * MinutesPerDay + 540
    requires Instant(a.details.endTime) == DayNumber(day) * MinutesPerDay + 585
    ensures a in AppointmentsForSlot(apps, day, 8, 30)
    ensures a in AppointmentsForSlot(apps, day, 9, 0)
    ensures a in AppointmentsForSlot(apps, day, 9, 30)
    ensures a !in AppointmentsForSlot(apps, day, 10, 0)
  {
  }

  /** `handleTimeSlotClick(day, hour, minute)`: create mode opens for that day and time. */
  function TimeSlotClick(s: State, day: ValidDate, hour: nat, minute: nat): (r: State)
    requires hour * 60 + minute < MinutesPerDay
    ensures r.appointments == s.appointments && r.currentDate == s.currentDate && r.viewMode == s.viewMode
    ensures r.isModalOpen && r.modalMode == Create && r.selectedAppointment == None
    ensures r.selectedTimeSlot.Some? && r.selectedTimeSlot.value.date == day
            && Instant(r.selectedTimeSlot.value) == SlotStart(day, hour, minute)
  {
    OpenForCreate(s, SetClock(day, hour * 60 + minute))
  }
}
