/** The day view: the cursor's day cut into the half-hour slots. */
module DayView {
  import opened Options
  import opened Seqs
  import opened Dates
  import opened Store
  import opened Slots
  import WeekView

  /**
   * `getAppointmentsForSlot(hour, minute)`: the store entries dated on the
   * cursor's day that match the slot window on that day.
   */
  function AppointmentsForSlot(apps: seq<Appointment>, cursor: ValidDate, hour: nat, minute: nat): (r: seq<Appointment>)
    ensures forall a :: a in r <==>
      a in apps && a.details.date == cursor && MatchesSlot(a, SlotStart(cursor, hour, minute), SlotEnd(cursor, hour, minute))
  {
    Filter(apps, (a: Appointment) =>
      a.details.date == cursor && MatchesSlot(a, SlotStart(cursor, hour, minute), SlotEnd(cursor, hour, minute)))
  }

  /**
   * The day view's slot is the week view's slot for the same day with the
   * entries dated on other days removed; so it is a sub-list of it, in
   * store order.
   */
  lemma DaySlotRefinesWeekSlot(apps: seq<Appointment>, cursor: ValidDate, hour: nat, minute: nat)
    ensures AppointmentsForSlot(apps, cursor, hour, minute)
         == Filter(WeekView.AppointmentsForSlot(apps, cursor, hour, minute), (a: Appointment) => a.details.date == cursor)
    ensures IsSubsequence(AppointmentsForSlot(apps, cursor, hour, minute), WeekView.AppointmentsForSlot(apps, cursor, hour, minute))
  {
    var lo, hi := SlotStart(cursor, hour, minute), SlotEnd(cursor, hour, minute);
    var matches := (a: Appointment) => MatchesSlot(a, lo, hi);
    var sameDay := (a: Appointment) => a.details.date == cursor;
    var both := (a: Appointment) => a.details.date == cursor && MatchesSlot(a, lo, hi);
    FilterOfFilter(apps, matches, sameDay, both);
    FilterIsSubsequence(WeekView.AppointmentsForSlot(apps, cursor, hour, minute), sameDay);
  }

  /** The slot's entries come in store order. */
  lemma SlotKeepsStoreOrder(apps: seq<Appointment>, cursor: ValidDate, hour: nat, minute: nat)
    ensures IsSubsequence(AppointmentsForSlot(apps, cursor, hour, minute), apps)
  {
    FilterIsSubsequence(apps, (a: Appointment) =>
      a.details.date == cursor && MatchesSlot(a, SlotStart(cursor, hour, minute), SlotEnd(cursor, hour, minute)));
  }

  /**
   * An entry whose start and end both lie before 8:00, or both after 17:30,
   * of the cursor's day appears in none of the 19 rows.
   */
  lemma OutsideOpeningHoursNeverShown(apps: seq<Appointment>, cursor: ValidDate, a: Appointment)
    requires
      var midnight := DayNumber(cursor) * MinutesPerDay;
      var start, end := Instant(a.details.startTime), Instant(a.details.endTime);
      (start < midnight + 8 * 60 && end < midnight + 8 * 60) || (start > midnight + 17 * 60 + 30 && end > midnight + 17 * 60 + 30)
    ensures forall i :: 0 <= i < |TimeSlots()| ==> a !in AppointmentsForSlot(apps, cursor, TimeSlots()[i].hour, TimeSlots()[i].minute)
  {
  }

  /** `handleTimeSlotClick(hour, minute)`: create mode opens at that time on the cursor's day. */
  function TimeSlotClick(s: State, hour: nat, minute: nat): (r: State)
    requires hour * 60 + minute < MinutesPerDay
    ensures r.appointments == s.appointments && r.currentDate == s.currentDate && r.viewMode == s.viewMode
    ensures r.isModalOpen && r.modalMode == Create && r.selectedAppointment == None
    ensures r.selectedTimeSlot.Some? && r.selectedTimeSlot.value.date == s.currentDate
            && Instant(r.selectedTimeSlot.value) == SlotStart(s.currentDate, hour, minute)
  {
    OpenForCreate(s, SetClock(s.currentDate, hour * 60 + minute))
  }
}
