/**
 * The half-hour slot grid and the slot-overlap rule that the day and week
 * views each define (identically) in their `getAppointmentsForSlot`.
 */
module Slots {
  import opened Options
  import opened Dates
  import opened Store

  /** A row of the day and week grids: an hour and a minute (0 or 30). */
  datatype SlotTime = SlotTime(hour: nat, minute: nat)

  /** `timeSlots`: 19 half-hour rows, 8:00 through 17:00. */
  function TimeSlots(): (r: seq<SlotTime>)
    ensures |r| == 19
    ensures forall i :: 0 <= i < |r| ==> (r[i].minute == 0 || r[i].minute == 30) && r[i].hour * 60 + r[i].minute == 480 + 30 * i
    ensures r[0] == SlotTime(8, 0) && r[18] == SlotTime(17, 0)
  {
    seq(19, i requires 0 <= i < 19 => SlotTime(8 + i / 2, if i % 2 == 0 then 0 else 30))
  }

  /** `setMinutes(setHours(day, hour), minute)` as an instant. */
  function SlotStart(day: ValidDate, hour: nat, minute: nat): (t: int)
    ensures t == DayNumber(day) * MinutesPerDay + hour * 60 + minute
  {
    Instant(SetClock(day, hour * 60 + minute))
  }

  /**
   * `setMinutes(setHours(day, hour), minute + 30)` as an instant: a minute
   * value of 60 rolls over into the next hour, so the window always spans
   * exactly 30 minutes.
   */
  function SlotEnd(day: ValidDate, hour: nat, minute: nat): (t: int)
    ensures t == SlotStart(day, hour, minute) + 30
  {
    Instant(SetClock(day, hour * 60 + (minute + 30)))
  }

  /** `isWithinInterval(t, {start: lo, end: hi})`: both ends included. */
  predicate Within(t: int, lo: int, hi: int) {
    lo <= t <= hi
  }

  /**
   * The overlap rule: the appointment starts inside the window, ends inside
   * it, or starts at or before its start and ends at or after its end. Only
   * the start and end instants are consulted.
   */
  predicate MatchesSlot(a: Appointment, lo: int, hi: int) {
    var start, end := Instant(a.details.startTime), Instant(a.details.endTime);
    Within(start, lo, hi) || Within(end, lo, hi) || (start <= lo && end >= hi)
  }

  /**
   * Any appointment whose span meets the window matches; when the start is
   * not after the end, matching is exactly meeting the window.
   */
  lemma MatchesSlotIsIntersection(a: Appointment, lo: int, hi: int)
    requires lo <= hi
    ensures var start, end := Instant(a.details.startTime), Instant(a.details.endTime);
            (start <= hi && end >= lo ==> MatchesSlot(a, lo, hi))
            && (start <= end ==> (MatchesSlot(a, lo, hi) <==> start <= hi && end >= lo))
  {
  }

  /** Without start <= end the rule is wider than intersection: a 9:00 start with an 8:00 end matches the 9:00 slot. */
  lemma MatchesSlotNeedsOrder(d: ValidDate)
    ensures var a := Appointment("x", Details("Reversed", None, "Patient", d,
                                  DateTime(d, 540), DateTime(d, 480), Checkup, None));
            var lo, hi := SlotStart(d, 9, 0), SlotEnd(d, 9, 0);
            MatchesSlot(a, lo, hi) && !(Instant(a.details.startTime) <= hi && Instant(a.details.endTime) >= lo)
  {
  }

  /** The date field never enters the rule: changing it does not change the outcome. */
  lemma MatchesSlotIgnoresDate(a: Appointment, d: ValidDate, lo: int, hi: int)
    ensures MatchesSlot(a.(details := a.details.(date := d)), lo, hi) == MatchesSlot(a, lo, hi)
  {
  }
}
