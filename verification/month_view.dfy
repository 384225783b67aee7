/**
 * The month view: a grid of whole Sunday-to-Saturday weeks covering the
 * cursor's month, each cell listing the appointments dated on its day.
 */
module MonthView {
  import opened Options
  import opened Seqs
  import opened Dates
  import opened Store

  /** What one cell of the grid shows. */
  datatype DayCell = DayCell(
    date: ValidDate,
    inMonth: bool,                    // not greyed out
    isToday: bool,                    // highlighted
    appointments: seq<Appointment>,   // `dayAppointments`
    listed: seq<Appointment>,         // the entries rendered in the cell
    badge: Option<nat>,               // the count badge
    more: Option<nat>)                // the "+N more" line

  /** How many entries a cell lists before it switches to "+N more". */
  const MaxListed: nat := 3

  /** The entries dated on `day`, whatever their start and end times, in store order. */
  function DayAppointments(apps: seq<Appointment>, day: ValidDate): (r: seq<Appointment>)
    ensures forall a :: a in r <==> a in apps && a.details.date == day
  {
    Filter(apps, (a: Appointment) => a.details.date == day)
  }

  /** A cell's entries come in store order. */
  lemma DayAppointmentsKeepOrder(apps: seq<Appointment>, day: ValidDate)
    ensures IsSubsequence(DayAppointments(apps, day), apps)
  {
    FilterIsSubsequence(apps, (a: Appointment) => a.details.date == day);
  }

  /**
   * One cell: the first three entries of the day are listed, the count badge
   * shows when there is at least one, and "+N more" accounts for the rest.
   */
  function MakeCell(apps: seq<Appointment>, day: ValidDate, cursor: ValidDate, today: ValidDate): (c: DayCell)
    ensures c.date == day
    ensures c.appointments == DayAppointments(apps, day)
    ensures |c.listed| <= MaxListed && |c.listed| <= |c.appointments| && c.listed == c.appointments[..|c.listed|]
    ensures |c.listed| == MaxListed || c.listed == c.appointments
    ensures c.more.Some? <==> |c.appointments| > MaxListed
    ensures |c.listed| + c.more.GetOr(0) == |c.appointments|
    ensures c.badge.Some? <==> |c.appointments| > 0
    ensures c.badge.Some? ==> c.badge.value == |c.appointments|
    ensures c.inMonth <==> day.year == cursor.year && day.month == cursor.month
    ensures c.isToday <==> day == today
  {
    var all := DayAppointments(apps, day);
    var count := |all|;
    DayCell(
      day,
      day.year == cursor.year && day.month == cursor.month,
      day == today,
      all,
      if count <= MaxListed then all else all[..MaxListed],
      if count > 0 then Some(count) else None,
      if count > MaxListed then Some(count - MaxListed) else None)
  }

  /**
   * Adding an appointment puts it at the end of its own day's cell and
   * leaves every other day's cell as it was.
   */
  lemma AddShowsInItsCell(apps: seq<Appointment>, details: Details, id: string, day: ValidDate, cursor: ValidDate, today: ValidDate)
    ensures var before := MakeCell(apps, day, cursor, today);
            var after := MakeCell(AddAppointment(apps, details, id), day, cursor, today);
            after.appointments == before.appointments + (if details.date == day then [Appointment(id, details)] else [])
  {
    FilterAppend(apps, Appointment(id, details), (a: Appointment) => a.details.date == day);
  }

  /**
   * In the sample store the cell for 22 April 2025 lists only "Annual
   * Checkup", with a badge of 1 and no "+N more" line.
   */
  lemma SampleCellExample()
    ensures var cell := MakeCell(InitialState().appointments, Date(2025, 4, 22), Date(2025, 4, 21), Date(2025, 4, 21));
            && |cell.listed| == 1 && cell.listed[0].details.title == "Annual Checkup"
            && cell.badge == Some(1) && cell.more == None && cell.inMonth && !cell.isToday
  {
    var apps := InitialState().appointments;
    var p := (a: Appointment) => a.details.date == Date(2025, 4, 22);
    assert apps == apps[..4] + [apps[4]];
    assert apps[..4] == apps[..3] + [apps[3]];
    assert apps[..3] == apps[..2] + [apps[2]];
    assert apps[..2] == apps[..1] + [apps[1]];
    assert apps[..1] == [] + [apps[0]];
    FilterAppend([], apps[0], p);
    FilterAppend(apps[..1], apps[1], p);
    FilterAppend(apps[..2], apps[2], p);
    FilterAppend(apps[..3], apps[3], p);
    FilterAppend(apps[..4], apps[4], p);
  }

  /** First cell of the grid: the Sunday on or before the first of the month. */
  function GridStart(cursor: ValidDate): ValidDate {
    StartOfWeek(StartOfMonth(cursor))
  }

  /** Last cell of the grid: the Saturday on or after the last day of the month. */
  function GridEnd(cursor: ValidDate): ValidDate {
    EndOfWeek(EndOfMonth(cursor))
  }

  /**
   * The grid runs from a Sunday at most six days before the first of the
   * month to a Saturday at most six days after its last day, and spans a
   * whole number of weeks, four to six of them.
   */
  lemma GridSpan(cursor: ValidDate) returns (weeks: int)
    ensures Weekday(GridStart(cursor)) == 0
    ensures DayNumber(GridStart(cursor)) <= DayNumber(StartOfMonth(cursor)) <= DayNumber(GridStart(cursor)) + 6
    ensures Weekday(GridEnd(cursor)) == 6
    ensures DayNumber(GridEnd(cursor)) - 6 <= DayNumber(EndOfMonth(cursor)) <= DayNumber(GridEnd(cursor))
    ensures DayNumber(GridEnd(cursor)) - DayNumber(GridStart(cursor)) + 1 == 7 * weeks
    ensures 4 <= weeks <= 6
  {
    var first, last := StartOfMonth(cursor), EndOfMonth(cursor);
    var dim := DaysInMonth(cursor.year, cursor.month);
    assert DayNumber(last) == DayNumber(first) + dim - 1;
    var ws, wl := Weekday(first), Weekday(last);
    assert wl == (ws + dim - 1) % 7 by {
      WeekdayAddDays(first, dim - 1);
      DayNumberInjective(AddDays(first, dim - 1), last);
    }
    var q := WholeWeeks(ws + dim - 1, wl);
    weeks := q + 1;
  }

  /** A month of 28 to 31 days starting `ws` days into its week ends `q` whole weeks and `wl` days later. */
  lemma WholeWeeks(x: int, wl: int) returns (q: int)
    requires 27 <= x <= 36 && wl == x % 7
    ensures x == 7 * q + wl && 3 <= q <= 5
  {
    q := x / 7;
  }

  /** Rows of seven consecutive days counted from `start`, each cell as `MakeCell` builds it. */
  ghost predicate LaidOut(rows: seq<seq<DayCell>>, start: ValidDate, apps: seq<Appointment>, cursor: ValidDate, today: ValidDate) {
    && (forall r :: 0 <= r < |rows| ==> |rows[r]| == 7)
    && (forall r, c :: 0 <= r < |rows| && 0 <= c < 7 ==>
          DayNumber(rows[r][c].date) == DayNumber(start) + 7 * r + c)
    && (forall r, c :: 0 <= r < |rows| && 0 <= c < 7 ==>
          rows[r][c] == MakeCell(apps, rows[r][c].date, cursor, today))
  }

  /** One row of the grid: seven consecutive days from `first`. */
  method WeekRow(apps: seq<Appointment>, first: ValidDate, cursor: ValidDate, today: ValidDate) returns (cells: seq<DayCell>, next: ValidDate)
    ensures |cells| == 7
    ensures forall c :: 0 <= c < 7 ==> DayNumber(cells[c].date) == DayNumber(first) + c
    ensures forall c :: 0 <= c < 7 ==> cells[c] == MakeCell(apps, cells[c].date, cursor, today)
    ensures DayNumber(next) == DayNumber(first) + 7
  {
    cells := [];
    next := first;
    var i := 0;
    while i < 7
      invariant 0 <= i <= 7 && |cells| == i
      invariant DayNumber(next) == DayNumber(first) + i
      invariant forall c :: 0 <= c < i ==> DayNumber(cells[c].date) == DayNumber(first) + c
      invariant forall c :: 0 <= c < i ==> cells[c] == MakeCell(apps, cells[c].date, cursor, today)
    {
      cells := cells + [MakeCell(apps, next, cursor, today)];
      next := NextDay(next);
      i := i + 1;
    }
  }

  /** Appending a row of the next seven days keeps the layout. */
  lemma LaidOutAppend(rows: seq<seq<DayCell>>, cells: seq<DayCell>, start: ValidDate, apps: seq<Appointment>, cursor: ValidDate, today: ValidDate)
    requires LaidOut(rows, start, apps, cursor, today)
    requires |cells| == 7
    requires forall c :: 0 <= c < 7 ==> DayNumber(cells[c].date) == DayNumber(start) + 7 * |rows| + c
    requires forall c :: 0 <= c < 7 ==> cells[c] == MakeCell(apps, cells[c].date, cursor, today)
    ensures LaidOut(rows + [cells], start, apps, cursor, today)
  {
    var rows' := rows + [cells];
    assert forall r :: 0 <= r < |rows| ==> rows'[r] == rows[r];
    assert rows'[|rows|] == cells;
  }

  /** Every day of the cursor's month has a cell in a grid laid out from `GridStart` over `weeks` rows. */
  lemma GridCoversMonth(rows: seq<seq<DayCell>>, apps: seq<Appointment>, cursor: ValidDate, today: ValidDate, weeks: int)
    requires LaidOut(rows, GridStart(cursor), apps, cursor, today)
    requires |rows| == weeks
    requires DayNumber(GridEnd(cursor)) - DayNumber(GridStart(cursor)) + 1 == 7 * weeks
    ensures forall k :: 1 <= k <= DaysInMonth(cursor.year, cursor.month) ==>
      exists r, c :: 0 <= r < |rows| && 0 <= c < 7 && rows[r][c].date == Date(cursor.year, cursor.month, k)
  {
    var start := GridStart(cursor);
    forall k | 1 <= k <= DaysInMonth(cursor.year, cursor.month)
      ensures exists r, c :: 0 <= r < |rows| && 0 <= c < 7 && rows[r][c].date == Date(cursor.year, cursor.month, k)
    {
      var target: ValidDate := Date(cursor.year, cursor.month, k);
      var idx := DayNumber(target) - DayNumber(start);
      var r, c := idx / 7, idx % 7;
      DayNumberInjective(rows[r][c].date, target);
    }
  }

  /**
   * The render loop: starting from the grid's first Sunday, emit rows of
   * seven consecutive days until the day passes the grid's last Saturday.
   * The grid has four to six rows, runs from the Sunday on or before the
   * first of the month to the Saturday on or after its last day, and shows
   * every day of the month; cell contents are those of `MakeCell`.
   */
  method BuildMonthGrid(apps: seq<Appointment>, cursor: ValidDate, today: ValidDate) returns (rows: seq<seq<DayCell>>)
    ensures 4 <= |rows| <= 6
    ensures forall r :: 0 <= r < |rows| ==> |rows[r]| == 7
    ensures forall r, c :: 0 <= r < |rows| && 0 <= c < 7 ==>
      DayNumber(rows[r][c].date) == DayNumber(rows[0][0].date) + 7 * r + c
    ensures forall r, c :: 0 <= r < |rows| && 0 <= c < 7 ==>
      rows[r][c] == MakeCell(apps, rows[r][c].date, cursor, today)
    ensures rows[0][0].date == GridStart(cursor)
    ensures rows[|rows| - 1][6].date == GridEnd(cursor)
    ensures forall k :: 1 <= k <= DaysInMonth(cursor.year, cursor.month) ==>
      exists r, c :: 0 <= r < |rows| && 0 <= c < 7 && rows[r][c].date == Date(cursor.year, cursor.month, k)
  {
    var weeks := GridSpan(cursor);
    rows := LayOutRows(apps, cursor, today, weeks);
    GridShape(rows, apps, cursor, today, weeks);
  }

  /**
   * The loop of the render: rows of seven days from the grid's first Sunday
   * while the day has not passed the grid's last Saturday.
   */
  method LayOutRows(apps: seq<Appointment>, cursor: ValidDate, today: ValidDate, ghost weeks: int) returns (grid: seq<seq<DayCell>>)
    requires DayNumber(GridEnd(cursor)) - DayNumber(GridStart(cursor)) + 1 == 7 * weeks
    ensures LaidOut(grid, GridStart(cursor), apps, cursor, today)
    ensures |grid| == weeks
  {
    var start, end := GridStart(cursor), GridEnd(cursor);
    var day := start;
    grid := [];
    while DayNumber(day) <= DayNumber(end)
      invariant DayNumber(day) == DayNumber(start) + 7 * |grid|
      invariant |grid| <= weeks
      invariant LaidOut(grid, start, apps, cursor, today)
      decreases DayNumber(end) - DayNumber(day)
    {
      var cells;
      cells, day := WeekRow(apps, day, cursor, today);
      LaidOutAppend(grid, cells, start, apps, cursor, today);
      grid := grid + [cells];
    }
  }

  /** A layout from `GridStart` over the grid's whole span has the shape `BuildMonthGrid` promises. */
  lemma GridShape(rows: seq<seq<DayCell>>, apps: seq<Appointment>, cursor: ValidDate, today: ValidDate, weeks: int)
    requires LaidOut(rows, GridStart(cursor), apps, cursor, today)
    requires |rows| == weeks && 4 <= weeks <= 6
    requires DayNumber(GridEnd(cursor)) - DayNumber(GridStart(cursor)) + 1 == 7 * weeks
    ensures 4 <= |rows| <= 6
    ensures forall r :: 0 <= r < |rows| ==> |rows[r]| == 7
    ensures forall r, c :: 0 <= r < |rows| && 0 <= c < 7 ==>
      DayNumber(rows[r][c].date) == DayNumber(rows[0][0].date) + 7 * r + c
    ensures forall r, c :: 0 <= r < |rows| && 0 <= c < 7 ==>
      rows[r][c] == MakeCell(apps, rows[r][c].date, cursor, today)
    ensures rows[0][0].date == GridStart(cursor)
    ensures rows[|rows| - 1][6].date == GridEnd(cursor)
    ensures forall k :: 1 <= k <= DaysInMonth(cursor.year, cursor.month) ==>
      exists r, c :: 0 <= r < |rows| && 0 <= c < 7 && rows[r][c].date == Date(cursor.year, cursor.month, k)
  {
    GridCoversMonth(rows, apps, cursor, today, weeks);
    DayNumberInjective(rows[0][0].date, GridStart(cursor));
    DayNumberInjective(rows[|rows| - 1][6].date, GridEnd(cursor));
  }

  /** The first entry carrying `id`, by position. */
  function FirstWithId(apps: seq<Appointment>, id: string): (r: Option<nat>)
    ensures r.None? <==> !HasId(apps, id)
    ensures r.Some? ==> r.value < |apps| && apps[r.value].id == id && !HasId(apps[..r.value], id)
    decreases |apps|
  {
    if apps == [] then None
    else if apps[0].id == id then Some(0)
    else
      match FirstWithId(apps[1..], id)
      case None => None
      case Some(i) =>
        assert apps[..i + 1] == [apps[0]] + apps[1..][..i];
        Some(i + 1)
  }

  /**
   * `handleAppointmentClick(e, id)`: the first entry with that id opens in
   * view mode; with no such entry nothing changes.
   */
  function AppointmentClick(s: State, id: string): (r: State)
    ensures !HasId(s.appointments, id) ==> r == s
    ensures HasId(s.appointments, id) ==>
      && r.appointments == s.appointments && r.currentDate == s.currentDate && r.viewMode == s.viewMode
      && r.selectedTimeSlot == s.selectedTimeSlot
      && r.isModalOpen && r.modalMode == View
      && r.selectedAppointment.Some? && r.selectedAppointment.value in s.appointments
      && r.selectedAppointment.value.id == id
    ensures HasId(s.appointments, id) ==>
      exists k :: 0 <= k < |s.appointments| && r.selectedAppointment == Some(s.appointments[k])
                  && s.appointments[k].id == id && !HasId(s.appointments[..k], id)
  {
    match FirstWithId(s.appointments, id)
    case None => s
    case Some(i) => OpenForView(s, s.appointments[i])
  }

  /** `handleDayClick(day)`: create mode opens at midnight of the clicked day. */
  function DayClick(s: State, day: ValidDate): (r: State)
    ensures r.appointments == s.appointments && r.currentDate == s.currentDate && r.viewMode == s.viewMode
    ensures r.isModalOpen && r.modalMode == Create && r.selectedAppointment == None
    ensures r.selectedTimeSlot.Some? && Instant(r.selectedTimeSlot.value) == DayNumber(day) * MinutesPerDay
  {
    OpenForCreate(s, DateTime(day, 0))
  }
}
