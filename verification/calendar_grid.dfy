/** The date picker of the add/edit form: the displayed month, its
    previous/next navigation, the Sunday-first weekday header, and the 6 x 7
    grid of day cells filled by a running day counter. */
module CalendarGrid {
  import opened FoodData
  import opened Palette

  /** `java.time.YearMonth`: a year and a month number. */
  datatype YearMonth = YearMonth(year: int, month: int)

  predicate ValidMonth(ym: YearMonth)
  {
    1 <= ym.month <= 12
  }

  /** Months counted from January of year 0, so that consecutive months
      have consecutive indices. */
  function MonthIndex(ym: YearMonth): int
  {
    ym.year * 12 + (ym.month - 1)
  }

  /** `plusMonths(1)`, the forward arrow. */
  function NextMonth(ym: YearMonth): (r: YearMonth)
    requires ValidMonth(ym)
    ensures ValidMonth(r)
    ensures MonthIndex(r) == MonthIndex(ym) + 1
  {
    if ym.month == 12 then YearMonth(ym.year + 1, 1) else YearMonth(ym.year, ym.month + 1)
  }

  /** `minusMonths(1)`, the backward arrow. */
  function PrevMonth(ym: YearMonth): (r: YearMonth)
    requires ValidMonth(ym)
    ensures ValidMonth(r)
    ensures MonthIndex(r) == MonthIndex(ym) - 1
  {
    if ym.month == 1 then YearMonth(ym.year - 1, 12) else YearMonth(ym.year, ym.month - 1)
  }

  /** The two arrows undo each other. */
  lemma NavigationRoundTrip(ym: YearMonth)
    requires ValidMonth(ym)
    ensures PrevMonth(NextMonth(ym)) == ym
    ensures NextMonth(PrevMonth(ym)) == ym
  {
  }

  /** `YearMonth.atDay(d)`. */
  function AtDay(ym: YearMonth, d: int): Date
  {
    Date(ym.year, ym.month, d)
  }

  /** `java.time.DayOfWeek`, whose ISO value runs from Monday = 1 to
      Sunday = 7. */
  datatype Weekday = Monday | Tuesday | Wednesday | Thursday | Friday | Saturday | Sunday

  function IsoValue(w: Weekday): (v: int)
    ensures 1 <= v <= 7
  {
    match w
    case Monday => 1
    case Tuesday => 2
    case Wednesday => 3
    case Thursday => 4
    case Friday => 5
    case Saturday => 6
    case Sunday => 7
  }

  function FromIso(v: int): (w: Weekday)
    requires 1 <= v <= 7
    ensures IsoValue(w) == v
  {
    if v == 1 then Monday
    else if v == 2 then Tuesday
    else if v == 3 then Wednesday
    else if v == 4 then Thursday
    else if v == 5 then Friday
    else if v == 6 then Saturday
    else Sunday
  }

  /** The initial of the English weekday name. */
  function Initial(w: Weekday): string
  {
    match w
    case Monday => "M"
    case Tuesday => "T"
    case Wednesday => "W"
    case Thursday => "T"
    case Friday => "F"
    case Saturday => "S"
    case Sunday => "S"
  }

  /** The weekdays the grid's seven columns stand for, Sunday first. */
  const Columns: seq<Weekday> := [Sunday, Monday, Tuesday, Wednesday, Thursday, Friday, Saturday]

  /** The header row's labels. */
  const HeaderLabels: seq<string> := ["S", "M", "T", "W", "T", "F", "S"]

  /** Each header label is the initial of its column's weekday. */
  lemma HeaderLabelsName(i: int)
    requires 0 <= i < 7
    ensures HeaderLabels[i] == Initial(Columns[i])
  {
  }

  /** The first day's column, `dayOfWeek.value % 7`: Sunday (7) goes to
      column 0 and Monday (1) to column 1, the columns the header names. */
  function FirstColumn(isoDayOfWeek: int): (c: int)
    requires 1 <= isoDayOfWeek <= 7
    ensures 0 <= c < 7
    ensures Columns[c] == FromIso(isoDayOfWeek)
    ensures isoDayOfWeek == 7 ==> c == 0
    ensures isoDayOfWeek == 1 ==> c == 1
  {
    isoDayOfWeek % 7
  }

  /** The weekday after `w`. */
  function NextWeekday(w: Weekday): Weekday
  {
    match w
    case Monday => Tuesday
    case Tuesday => Wednesday
    case Wednesday => Thursday
    case Thursday => Friday
    case Friday => Saturday
    case Saturday => Sunday
    case Sunday => Monday
  }

  /** The weekday of day `d` of a month whose first day is a `first`: each
      day falls on the weekday after the day before it. */
  function WeekdayOfDay(first: Weekday, d: int): Weekday
    requires d >= 1
  {
    if d == 1 then first else NextWeekday(WeekdayOfDay(first, d - 1))
  }

  /** A grid cell: an empty box, or a clickable day showing its number in
      the `content` colour on a `surface` of its own. */
  datatype Cell = Blank | DayCell(number: int, date: Date, surface: Color, content: Color)

  /** A day cell drawn the way the selected date is: a dark grey surface. */
  predicate Highlighted(c: Cell)
  {
    c.DayCell? && c.surface == DarkGray
  }

  /** The day cell of day `d` of the displayed month: dark grey with white
      text when it holds the selected date, transparent with black text
      otherwise. */
  function DayCellOf(ym: YearMonth, d: int, selected: Date): Cell
  {
    var date := AtDay(ym, d);
    DayCell(d, date, if date == selected then DarkGray else Transparent, if date == selected then White else Black)
  }

  /** The number of cells in the six rows of seven. */
  const GridSize: int := 42

  /** What the cell at row-major position `i` holds, for a month of `n` days
      whose first day sits in column `offset`: the reference layout. */
  function CellAt(ym: YearMonth, offset: int, n: int, selected: Date, i: int): Cell
  {
    if i < offset || i - offset + 1 > n then Blank
    else DayCellOf(ym, i - offset + 1, selected)
  }

  /** How many day cells the first `k` positions hold. */
  function Placed(k: int, offset: int, n: int): int
  {
    if k <= offset then 0 else if k - offset < n then k - offset else n
  }

  /** The day numbers of the cells, in cell order. */
  function DaysOf(cells: seq<Cell>): seq<int>
  {
    if |cells| == 0 then []
    else DaysOf(cells[..|cells| - 1]) + (if cells[|cells| - 1].DayCell? then [cells[|cells| - 1].number] else [])
  }

  /** The numbers 1 to k, in order. */
  function Range(k: nat): (r: seq<int>)
    ensures |r| == k
  {
    seq(k, j => j + 1)
  }

  /** Appending a cell appends its day number, if it has one. */
  lemma DaysOfSnoc(cells: seq<Cell>, c: Cell)
    ensures DaysOf(cells + [c]) == DaysOf(cells) + (if c.DayCell? then [c.number] else [])
  {
    assert (cells + [c])[..|cells|] == cells;
  }

  lemma RangeSnoc(k: nat)
    ensures Range(k + 1) == Range(k) + [k + 1]
  {
  }

  /** The month grid, as `SimpleCalendarPicker` builds it: six weeks of seven
      days, a blank box for the leading cells of the first week and for every
      cell once the counter has passed the month's length, and otherwise the
      day `dayCounter`, after which the counter moves on. `daysInMonth` is
      `lengthOfMonth()` and `isoDayOfWeek` the ISO weekday of the first. */
  method LayoutMonth(ym: YearMonth, isoDayOfWeek: int, daysInMonth: int, selected: Date)
    returns (cells: seq<Cell>, dayCounter: int)
    requires ValidMonth(ym)
    requires 1 <= isoDayOfWeek <= 7
    requires 28 <= daysInMonth <= 31
    ensures |cells| == GridSize
    ensures forall i :: 0 <= i < |cells| ==> cells[i] == CellAt(ym, FirstColumn(isoDayOfWeek), daysInMonth, selected, i)
    ensures DaysOf(cells) == Range(daysInMonth)
    ensures dayCounter == daysInMonth + 1
  {
    var offset := isoDayOfWeek % 7;
    cells := [];
    dayCounter := 1;
    var week := 0;
    while week < 6
      invariant 0 <= week <= 6
      invariant |cells| == 7 * week
      invariant forall i :: 0 <= i < |cells| ==> cells[i] == CellAt(ym, offset, daysInMonth, selected, i)
      invariant dayCounter == Placed(|cells|, offset, daysInMonth) + 1
      invariant DaysOf(cells) == Range(dayCounter - 1)
    {
      var day := 0;
      while day < 7
        invariant 0 <= day <= 7
        invariant |cells| == 7 * week + day
        invariant forall i :: 0 <= i < |cells| ==> cells[i] == CellAt(ym, offset, daysInMonth, selected, i)
        invariant dayCounter == Placed(|cells|, offset, daysInMonth) + 1
        invariant DaysOf(cells) == Range(dayCounter - 1)
      {
        var cell;
        if (week == 0 && day < offset) || dayCounter > daysInMonth {
          cell := Blank;
        } else {
          var date := AtDay(ym, dayCounter);
          cell := DayCell(dayCounter, date,
                          if date == selected then DarkGray else Transparent,
                          if date == selected then White else Black);
        }
        assert cell == CellAt(ym, offset, daysInMonth, selected, |cells|);
        DaysOfSnoc(cells, cell);
        if cell.DayCell? {
          RangeSnoc(dayCounter - 1);
          dayCounter := dayCounter + 1;
        }
        cells := cells + [cell];
        day := day + 1;
      }
      week := week + 1;
    }
  }

  /** Day `d` sits at position `offset + d - 1`, labelled `d`, carrying its
      own date, and drawn dark grey with white text exactly when that date
      is the selected one. */
  lemma DayPosition(ym: YearMonth, isoDayOfWeek: int, daysInMonth: int, selected: Date, d: int)
    requires 1 <= isoDayOfWeek <= 7
    requires 1 <= d <= daysInMonth
    ensures var c := CellAt(ym, FirstColumn(isoDayOfWeek), daysInMonth, selected, FirstColumn(isoDayOfWeek) + d - 1);
            && c.DayCell? && c.number == d && c.date == AtDay(ym, d)
            && (c.surface == DarkGray <==> AtDay(ym, d) == selected)
            && (c.content == White <==> AtDay(ym, d) == selected)
  {
  }

  /** Every cell before the first day and after the last is blank. */
  lemma BlankCells(ym: YearMonth, isoDayOfWeek: int, daysInMonth: int, selected: Date, i: int)
    requires 1 <= isoDayOfWeek <= 7
    requires 0 <= i < GridSize
    ensures CellAt(ym, FirstColumn(isoDayOfWeek), daysInMonth, selected, i).Blank? <==>
              (i < FirstColumn(isoDayOfWeek) || i >= FirstColumn(isoDayOfWeek) + daysInMonth)
  {
  }

  /** The column right of column `k` (wrapping round to the next row)
      stands for the following weekday. */
  lemma NextColumn(k: int)
    requires 0 <= k < 7
    ensures Columns[(k + 1) % 7] == NextWeekday(Columns[k])
  {
  }

  /** Each day lands in the column of its own weekday. */
  lemma {:induction false} DayUnderItsWeekday(isoDayOfWeek: int, d: int)
    requires 1 <= isoDayOfWeek <= 7
    requires d >= 1
    ensures Columns[(FirstColumn(isoDayOfWeek) + d - 1) % 7] == WeekdayOfDay(FromIso(isoDayOfWeek), d)
    decreases d
  {
    if d > 1 {
      DayUnderItsWeekday(isoDayOfWeek, d - 1);
      var k := (FirstColumn(isoDayOfWeek) + d - 2) % 7;
      NextColumn(k);
      assert (k + 1) % 7 == (FirstColumn(isoDayOfWeek) + d - 1) % 7;
    }
  }

  /** A day cell's colours come in two pairs: dark grey behind white for
      the selected date, transparent behind black for every other date. */
  lemma DayCellColors(ym: YearMonth, offset: int, n: int, selected: Date, i: int)
    requires CellAt(ym, offset, n, selected, i).DayCell?
    ensures var c := CellAt(ym, offset, n, selected, i);
            && (c.surface == DarkGray <==> AtDay(ym, i - offset + 1) == selected)
            && (c.content == White <==> AtDay(ym, i - offset + 1) == selected)
            && (c.surface != DarkGray ==> c.surface == Transparent && c.content == Black)
            && (c.surface == DarkGray ==> c.content == White)
  {
  }

  /** At most one cell is highlighted: the one holding the selected date. */
  lemma AtMostOneSelected(ym: YearMonth, offset: int, n: int, selected: Date, i: int, j: int)
    requires Highlighted(CellAt(ym, offset, n, selected, i))
    requires Highlighted(CellAt(ym, offset, n, selected, j))
    ensures i == j
  {
  }

  /** Clicking a day cell selects its date, after which that cell, and no
      other, is highlighted. */
  lemma ClickHighlights(ym: YearMonth, offset: int, n: int, selected: Date, i: int, j: int)
    requires CellAt(ym, offset, n, selected, i).DayCell?
    requires CellAt(ym, offset, n, selected, j).DayCell?
    ensures Highlighted(CellAt(ym, offset, n, CellAt(ym, offset, n, selected, i).date, j)) <==> i == j
  {
  }
}
