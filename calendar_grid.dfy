/** The six-week month grid of the booking page: 42 cells from the Sunday on
    or before the first of the displayed month, each describing one day. */
module CalendarGrid {
  import opened Text
  import opened Calendar
  import opened Availability

  /** One cell of the grid, as the page pushes it. */
  datatype DayInfo = DayInfo(
    date: string,
    dayNumber: int,
    isCurrentMonth: bool,
    isToday: bool,
    isPastDate: bool,
    isWeekend: bool,
    availableSlots: seq<string>)

  const GridSize := 42

  /** The day number of the first of a month. */
  function MonthStartDay(year: int, month: int): int
    requires 1 <= month <= 12
  {
    DaysFromCivil(CivilDate(year, month, 1))
  }

  /** The first cell: the Sunday on or before the first of the month. */
  function GridStart(year: int, month: int): (r: int)
    requires 1 <= month <= 12
    ensures Weekday(r) == 0
    ensures r <= MonthStartDay(year, month) < r + 7
  {
    hide DaysFromCivil;
    var first := MonthStartDay(year, month);
    SundayOnOrBefore(first);
    first - Weekday(first)
  }

  lemma SundayOnOrBefore(z: int)
    ensures Weekday(z - Weekday(z)) == 0
  {
    assert z + 4 == 7 * ((z + 4) / 7) + Weekday(z);
  }

  /** The cell the loop pushes for the running date: `z` is its day number,
      `c` its civil fields and `todayString` the ISO date of the clock. */
  function Cell(z: int, c: CivilDate, month: int, today: int, todayString: string): (r: DayInfo)
    requires ValidDate(c)
    ensures r.date == IsoDateString(c) && r.dayNumber == c.day
    ensures r.availableSlots == SlotsFor(r.date)
  {
    var date := IsoDateString(c);
    DayInfo(
      date,
      c.day,
      c.month == month,
      date == todayString,
      z < today,
      Weekday(z) == 0 || Weekday(z) == 6,
      SlotsFor(date))
  }

  /** The cell for day z when `month` is displayed and the clock reads `today`. */
  function DayInfoFor(z: int, month: int, today: int): DayInfo
  {
    CivilFromDaysValid(z);
    Cell(z, CivilFromDays(z), month, today, IsoDate(today))
  }

  /** The civil date k days after c, stepping one day at a time as
      `setDate(getDate() + 1)` does. */
  function NthDay(c: CivilDate, k: nat): (r: CivilDate)
    ensures ValidDate(c) ==> ValidDate(r)
    decreases k
  {
    if k == 0 then c else NextCivilDay(NthDay(c, k - 1))
  }

  /** The first n cells of a grid whose first cell is day `start` with civil
      date c0. */
  function Cells(start: int, c0: CivilDate, n: nat, month: int, today: int, todayString: string): (r: seq<DayInfo>)
    requires ValidDate(c0)
    ensures |r| == n
    decreases n
  {
    if n == 0 then []
    else Cells(start, c0, n - 1, month, today, todayString) + [Cell(start + n - 1, NthDay(c0, n - 1), month, today, todayString)]
  }

  /** `calendarDates`: 42 cells from the grid's first Sunday. */
  function Grid(year: int, month: int, today: int): (r: seq<DayInfo>)
    requires 1 <= month <= 12
    ensures |r| == GridSize
  {
    var start := GridStart(year, month);
    CivilFromDaysValid(start);
    Cells(start, CivilFromDays(start), GridSize, month, today, IsoDate(today))
  }

  /** The loop building `calendarDates`. The running Date object is a day
      number together with its civil fields; `setDate(getDate() + 1)` moves
      both on by one day. */
  method BuildCalendar(year: int, month: int, today: int) returns (dates: seq<DayInfo>)
    requires 1 <= month <= 12
    ensures dates == Grid(year, month, today)
  {
    hide CivilFromDays, IsoDateString, IsoDate, DaysFromCivil, Weekday, SlotsFor, NextCivilDay, ValidDate;
    var firstDay := MonthStartDay(year, month);
    var start := firstDay - Weekday(firstDay);
    assert start == GridStart(year, month);
    CivilFromDaysValid(start);
    var current := start;
    var civil := CivilFromDays(start);
    var todayString := IsoDate(today);
    dates := [];
    for i := 0 to GridSize
      invariant current == start + i && civil == NthDay(CivilFromDays(start), i)
      invariant dates == Cells(start, CivilFromDays(start), i, month, today, todayString)
    {
      var dateString := IsoDateString(civil);
      var weekday := Weekday(current);
      dates := dates + [DayInfo(
        dateString,
        civil.day,
        civil.month == month,
        dateString == todayString,
        current < today,
        weekday == 0 || weekday == 6,
        SlotsFor(dateString))];
      current := current + 1;
      civil := NextCivilDay(civil);
    }
  }

  /** Stepping k days from the civil date of day z gives the civil date of day z + k. */
  lemma {:induction false} NthDayOfDays(z: int, k: nat)
    ensures NthDay(CivilFromDays(z), k) == CivilFromDays(z + k)
    decreases k
  {
    hide CivilFromDays;
    if k > 0 {
      NthDayOfDays(z, k - 1);
      NextDay(z + (k - 1));
    }
  }

  /** Cell k of the first n is the cell for the k-th day. */
  lemma {:induction false} CellsAt(start: int, c0: CivilDate, n: nat, k: nat, month: int, today: int, todayString: string)
    requires ValidDate(c0) && k < n
    ensures Cells(start, c0, n, month, today, todayString)[k] == Cell(start + k, NthDay(c0, k), month, today, todayString)
    decreases n
  {
    hide Cell, IsoDateString, ValidDate, NextCivilDay;
    if k < n - 1 {
      CellsAt(start, c0, n - 1, k, month, today, todayString);
    }
  }

  /** The days the grid shows. */
  predicate InGrid(year: int, month: int, z: int)
    requires 1 <= month <= 12
  {
    GridStart(year, month) <= z < GridStart(year, month) + GridSize
  }

  /** The grid holds, for each day z it shows, the cell for z at position
      z - GridStart: 42 consecutive days from the first Sunday. */
  lemma GridCell(year: int, month: int, today: int, z: int)
    requires 1 <= month <= 12 && InGrid(year, month, z)
    ensures Grid(year, month, today)[z - GridStart(year, month)] == DayInfoFor(z, month, today)
  {
    hide CivilFromDays, IsoDate, IsoDateString, Cell, NthDay, DaysFromCivil, Weekday, ValidDate;
    var s := GridStart(year, month);
    CivilFromDaysValid(s);
    CellsAt(s, CivilFromDays(s), GridSize, z - s, month, today, IsoDate(today));
    NthDayOfDays(s, z - s);
    assert s + (z - s) == z;
  }

  /** The first cell is the Sunday on or before the first of the month. */
  lemma GridFirstCell(year: int, month: int, today: int)
    requires 1 <= month <= 12
    ensures var s := GridStart(year, month);
      Grid(year, month, today)[0] == DayInfoFor(s, month, today)
      && Weekday(s) == 0 && s <= MonthStartDay(year, month) < s + 7
  {
    hide CivilFromDays, IsoDate, IsoDateString, Cell, NthDay, DaysFromCivil, Weekday, ValidDate;
    GridCell(year, month, today, GridStart(year, month));
  }

  /** Each cell after the first shows the day after the cell before it. */
  lemma GridNextCell(year: int, month: int, today: int, z: int)
    requires 1 <= month <= 12 && InGrid(year, month, z) && InGrid(year, month, z + 1)
    ensures CivilFromDays(z + 1) == NextCivilDay(CivilFromDays(z))
    ensures var cell := Grid(year, month, today)[z + 1 - GridStart(year, month)];
      cell.date == IsoDate(z + 1) && cell.dayNumber == CivilFromDays(z + 1).day
  {
    hide CivilFromDays, IsoDateString, Cell, NthDay, DaysFromCivil, Weekday, ValidDate, NextCivilDay;
    GridCell(year, month, today, z + 1);
    NextDay(z);
  }

  /** Every cell offers its date's table entry. */
  lemma GridSlots(year: int, month: int, today: int, k: nat)
    requires 1 <= month <= 12 && k < GridSize
    ensures Grid(year, month, today)[k].availableSlots == SlotsFor(Grid(year, month, today)[k].date)
  {
    hide CivilFromDays, IsoDate, IsoDateString, NthDay, DaysFromCivil, Weekday, ValidDate;
    var s := GridStart(year, month);
    GridCell(year, month, today, s + k);
    assert s + k - s == k;
  }

  /** `isClickable`: in the displayed month, not in the past, with a free slot. */
  predicate IsClickable(cell: DayInfo)
  {
    cell.isCurrentMonth && !cell.isPastDate && |cell.availableSlots| > 0
  }

  // ---- the days of one month ----

  lemma {:induction false} DayOfMonthDays(year: int, month: int, d: int)
    requires 1 <= month <= 12 && 1 <= d <= DaysInMonth(year, month)
    ensures DaysFromCivil(CivilDate(year, month, d)) == MonthStartDay(year, month) + d - 1
    decreases d
  {
    if d > 1 {
      DayOfMonthDays(year, month, d - 1);
      NextDayDays(CivilDate(year, month, d - 1));
    }
  }

  /** The days from the first of a month to its last have that month's dates. */
  lemma DayOfMonth(year: int, month: int, z: int)
    requires 1 <= month <= 12
    requires MonthStartDay(year, month) <= z < MonthStartDay(year, month) + DaysInMonth(year, month)
    ensures CivilFromDays(z) == CivilDate(year, month, z - MonthStartDay(year, month) + 1)
  {
    hide CivilFromDays, DaysFromCivil, MonthStartDay;
    var d := z - MonthStartDay(year, month) + 1;
    DayOfMonthDays(year, month, d);
    CivilRoundTrip(CivilDate(year, month, d));
    assert DaysFromCivil(CivilDate(year, month, d)) == z;
  }

  /** The month after (year, month) begins the day after its last day. */
  lemma NextMonthStart(year: int, month: int)
    requires 1 <= month <= 12
    ensures var (ny, nm) := if month < 12 then (year, month + 1) else (year + 1, 1);
      MonthStartDay(ny, nm) == MonthStartDay(year, month) + DaysInMonth(year, month)
  {
    var last := DaysInMonth(year, month);
    DayOfMonthDays(year, month, last);
    NextDayDays(CivilDate(year, month, last));
  }

  // ---- properties of the grid ----

  /** The cells before the first of the month belong to the month before,
      the cells after its last day to the month after. */
  lemma DayInGridMonth(year: int, month: int, z: int)
    requires 1 <= month <= 12 && InGrid(year, month, z)
    ensures CivilFromDays(z).year == year && CivilFromDays(z).month == month
      <==> MonthStartDay(year, month) <= z < MonthStartDay(year, month) + DaysInMonth(year, month)
    ensures CivilFromDays(z).month == month <==> CivilFromDays(z).year == year && CivilFromDays(z).month == month
  {
    hide CivilFromDays, DaysFromCivil, Weekday;
    var first := MonthStartDay(year, month);
    var dim := DaysInMonth(year, month);
    if z < first {
      var (py, pm) := if month > 1 then (year, month - 1) else (year - 1, 12);
      NextMonthStart(py, pm);
      DayOfMonth(py, pm, z);
    } else if z < first + dim {
      DayOfMonth(year, month, z);
    } else {
      var (ny, nm) := if month < 12 then (year, month + 1) else (year + 1, 1);
      NextMonthStart(year, month);
      DayOfMonth(ny, nm, z);
    }
  }

  /** A cell is marked as in the displayed month exactly when its year and
      month are the displayed ones: comparing the month number alone, as the
      page does, is enough, since 42 days cannot reach the same month of
      another year. */
  lemma GridCurrentMonth(year: int, month: int, today: int, z: int)
    requires 1 <= month <= 12 && InGrid(year, month, z)
    ensures var cell := Grid(year, month, today)[z - GridStart(year, month)];
      (cell.isCurrentMonth <==> CivilFromDays(z).year == year && CivilFromDays(z).month == month)
      && (cell.isCurrentMonth <==> MonthStartDay(year, month) <= z < MonthStartDay(year, month) + DaysInMonth(year, month))
  {
    GridCell(year, month, today, z);
    DayInGridMonth(year, month, z);
  }

  /** Every day of the displayed month has its cell, in the displayed month
      and numbered with its day of the month. */
  lemma GridCoversMonth(year: int, month: int, today: int, d: int)
    requires 1 <= month <= 12 && 1 <= d <= DaysInMonth(year, month)
    ensures InGrid(year, month, MonthStartDay(year, month) + d - 1)
    ensures var z := MonthStartDay(year, month) + d - 1;
      var cell := Grid(year, month, today)[z - GridStart(year, month)];
      cell.isCurrentMonth && cell.dayNumber == d
      && cell.date == IsoDateString(CivilDate(year, month, d))
  {
    hide CivilFromDays, IsoDate, IsoDateString, DaysFromCivil, Weekday;
    var z := MonthStartDay(year, month) + d - 1;
    GridCell(year, month, today, z);
    DayOfMonth(year, month, z);
  }

  /** A cell is marked as today exactly when it is today, and as past exactly
      when it is before today. */
  lemma GridToday(year: int, month: int, today: int, z: int)
    requires 1 <= month <= 12 && InGrid(year, month, z)
    ensures var cell := Grid(year, month, today)[z - GridStart(year, month)];
      (cell.isToday <==> z == today) && (cell.isPastDate <==> z < today)
  {
    GridCell(year, month, today, z);
    IsoDateInjective(z, today);
  }

  /** The columns run from Sunday to Saturday: the cell at position i falls
      on weekday i mod 7, so the weekend cells are the first and the last
      column. */
  lemma GridColumns(year: int, month: int, today: int, z: int)
    requires 1 <= month <= 12 && InGrid(year, month, z)
    ensures var i := z - GridStart(year, month);
      Weekday(z) == i % 7
      && (Grid(year, month, today)[i].isWeekend <==> i % 7 == 0 || i % 7 == 6)
  {
    hide CivilFromDays, IsoDate, IsoDateString, DaysFromCivil, MonthStartDay;
    GridCell(year, month, today, z);
    WeekdayFrom(GridStart(year, month), z);
  }

  /** Counting from a Sunday s, day z falls on weekday (z - s) mod 7. */
  lemma WeekdayFrom(s: int, z: int)
    requires Weekday(s) == 0 && s <= z
    ensures Weekday(z) == (z - s) % 7
  {
    var i := z - s;
    assert (s + 4) % 7 == 0;
    assert (s + 4) == 7 * ((s + 4) / 7);
    assert z + 4 == 7 * ((s + 4) / 7) + i;
  }

  /** No two cells carry the same date. */
  lemma GridDatesDistinct(year: int, month: int, today: int, z1: int, z2: int)
    requires 1 <= month <= 12 && InGrid(year, month, z1) && InGrid(year, month, z2) && z1 != z2
    ensures Grid(year, month, today)[z1 - GridStart(year, month)].date
      != Grid(year, month, today)[z2 - GridStart(year, month)].date
  {
    GridCell(year, month, today, z1);
    GridCell(year, month, today, z2);
    IsoDateInjective(z1, z2);
  }

  /** A cell can be clicked exactly when its day lies in the displayed month,
      is today or later, and is listed in the availability table. */
  lemma GridClickable(year: int, month: int, today: int, z: int)
    requires 1 <= month <= 12 && InGrid(year, month, z)
    ensures IsClickable(Grid(year, month, today)[z - GridStart(year, month)])
      <==> CivilFromDays(z).year == year && CivilFromDays(z).month == month
           && today <= z && IsoDate(z) in MockAvailability
  {
    GridCell(year, month, today, z);
    DayInGridMonth(year, month, z);
    SlotsForNonEmpty(IsoDate(z));
  }
}
