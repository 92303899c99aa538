/**
 * The proleptic Gregorian calendar, as far as `_calculate_business_days` in
 * time_sheets/generator.py needs it.  The source asks Python's
 * `calendar.monthcalendar` for the weeks of a month; this module replaces that
 * library call with the Gregorian leap-year rule, the month lengths and
 * Sakamoto's day-of-week formula, and builds the same week matrix from them.
 *
 * Weekdays are numbered as in Python's calendar module: Monday = 0 .. Sunday = 6.
 */
module Calendar {

  /** The Gregorian leap-year rule. */
  predicate IsLeapYear(year: int) {
    year % 4 == 0 && (year % 100 != 0 || year % 400 == 0)
  }

  /** The number of days in a month. */
  function DaysInMonth(year: int, month: int): (n: int)
    requires 1 <= month <= 12
    ensures 28 <= n <= 31
    ensures month == 2 ==> (n == 29 <==> IsLeapYear(year))
    ensures month != 2 ==> (n == 30 <==> month == 4 || month == 6 || month == 9 || month == 11)
  {
    if month == 2 then (if IsLeapYear(year) then 29 else 28)
    else if month == 4 || month == 6 || month == 9 || month == 11 then 30
    else 31
  }

  /** Sakamoto's offset for each month (January first). */
  function MonthOffset(month: int): int
    requires 1 <= month <= 12
  {
    match month
    case 1 => 0 case 2 => 3 case 3 => 2 case 4 => 5 case 5 => 0 case 6 => 3
    case 7 => 5 case 8 => 1 case 9 => 4 case 10 => 6 case 11 => 2 case _ => 4
  }

  /** The number of days a year contributes, modulo 7, counting its leap days. */
  function YearShift(year: int): int {
    year + year / 4 - year / 100 + year / 400
  }

  /**
   * Sakamoto's day number: congruent modulo 7 to the day of the week, with
   * Sunday = 0.  January and February count as months of the previous year.
   */
  function DayCode(year: int, month: int, day: int): int
    requires 1 <= month <= 12
  {
    YearShift(if month < 3 then year - 1 else year) + MonthOffset(month) + day
  }

  /** The day of the week of a date, Monday = 0 .. Sunday = 6. */
  function Weekday(year: int, month: int, day: int): (w: int)
    requires 1 <= month <= 12
    ensures 0 <= w < 7
  {
    (DayCode(year, month, day) + 6) % 7
  }

  /** A date of the calendar. */
  datatype Date = Date(year: int, month: int, day: int)

  predicate ValidDate(d: Date) {
    1 <= d.month <= 12 && 1 <= d.day <= DaysInMonth(d.year, d.month)
  }

  /** The calendar day after `d`. */
  function NextDay(d: Date): (e: Date)
    requires ValidDate(d)
    ensures ValidDate(e)
    ensures e.year == d.year || (e.year == d.year + 1 && e.month == 1 && e.day == 1 && d.month == 12 && d.day == 31)
  {
    if d.day < DaysInMonth(d.year, d.month) then Date(d.year, d.month, d.day + 1)
    else if d.month < 12 then Date(d.year, d.month + 1, 1)
    else Date(d.year + 1, 1, 1)
  }

  /** Divisibility by 400 implies divisibility by 100, which implies divisibility by 4. */
  lemma DivisibilityChain(y: int)
    ensures y % 400 == 0 ==> y % 100 == 0
    ensures y % 100 == 0 ==> y % 4 == 0
  {
    var q, t, r := y / 400, y / 100, y % 100;
    assert y == 400 * q + y % 400 && y == 100 * t + r && 0 <= r < 100;
    if y % 400 == 0 {
      assert r == 100 * (4 * q - t);
    }
    var u, v := y / 4, y % 4;
    assert y == 4 * u + v && 0 <= v < 4;
    if r == 0 {
      assert v == 4 * (25 * t - u);
    }
  }

  /** A year shifts the weekday by one, and a leap year by two. */
  lemma YearShiftStep(year: int)
    ensures YearShift(year) - YearShift(year - 1) == if IsLeapYear(year) then 2 else 1
  {
    DivisibilityChain(year);
    assert year / 4 - (year - 1) / 4 == if year % 4 == 0 then 1 else 0;
    assert year / 100 - (year - 1) / 100 == if year % 100 == 0 then 1 else 0;
    assert year / 400 - (year - 1) / 400 == if year % 400 == 0 then 1 else 0;
  }

  /**
   * The day-of-week formula agrees with the calendar: the day after any date
   * falls on the next day of the week, across month and year ends too.
   */
  lemma WeekdayNextDay(d: Date)
    requires ValidDate(d)
    ensures Weekday(NextDay(d).year, NextDay(d).month, NextDay(d).day) == (Weekday(d.year, d.month, d.day) + 1) % 7
  {
    var weeks := NextDayWeeks(d);
    WeekdayShift(DayCode(d.year, d.month, d.day), weeks);
  }

  /** The day code of the next day is one more, up to whole weeks. */
  lemma NextDayWeeks(d: Date) returns (weeks: int)
    requires ValidDate(d)
    ensures DayCode(NextDay(d).year, NextDay(d).month, NextDay(d).day) == DayCode(d.year, d.month, d.day) + 1 + 7 * weeks
  {
    if d.day < DaysInMonth(d.year, d.month) {
      weeks := 0;
    } else if d.month < 12 {
      weeks := MonthEndWeeks(d.year, d.month);
    } else {
      weeks := -5;
    }
  }

  /** From the last day of a month other than December to the first of the next. */
  lemma MonthEndWeeks(year: int, month: int) returns (weeks: int)
    requires 1 <= month < 12
    ensures DayCode(year, month + 1, 1) == DayCode(year, month, DaysInMonth(year, month)) + 1 + 7 * weeks
  {
    if month == 2 {
      YearShiftStep(year);
      weeks := -4;
    } else if month == 4 || month == 7 || month == 10 {
      weeks := -5;
    } else {
      weeks := -4;
    }
  }

  /** Moving a day code on by one plus whole weeks moves the weekday on by one. */
  lemma WeekdayShift(code: int, weeks: int)
    ensures (code + 1 + 7 * weeks + 6) % 7 == ((code + 6) % 7 + 1) % 7
  {
    var q, r := (code + 6) / 7, (code + 6) % 7;
    assert code + 6 == 7 * q + r;
    if r < 6 {
      ModUnique(code + 1 + 7 * weeks + 6, q + weeks, r + 1);
      ModUnique(r + 1, 0, r + 1);
    } else {
      ModUnique(code + 1 + 7 * weeks + 6, q + weeks + 1, 0);
      ModUnique(r + 1, 1, 0);
    }
  }

  /** The calendar's anchors: 1 January of year 1 and 1 January 2024 were Mondays. */
  lemma WeekdayAnchors()
    ensures Weekday(1, 1, 1) == 0 && Weekday(2024, 1, 1) == 0
  {
  }

  /** Within a month the weekday advances by one per day. */
  lemma WeekdayInMonth(year: int, month: int, day: int)
    requires 1 <= month <= 12
    ensures Weekday(year, month, day) == (Weekday(year, month, 1) + day - 1) % 7
  {
    var c := DayCode(year, month, 1);
    assert DayCode(year, month, day) == c + day - 1;
    ModAdd(c + 6, day - 1);
  }

  /** Adding to a number and adding to its remainder leave the same remainder. */
  lemma ModAdd(a: int, b: int)
    ensures (a % 7 + b) % 7 == (a + b) % 7
  {
    var q, z := a / 7, a % 7 + b;
    assert a == 7 * q + a % 7 && z == 7 * (z / 7) + z % 7;
    ModUnique(a + b, q + z / 7, z % 7);
  }

  /** Position of day 1 in the first week of the month (0 = Monday). */
  function FirstWeekday(year: int, month: int): (w: int)
    requires 1 <= month <= 12
    ensures 0 <= w < 7
  {
    Weekday(year, month, 1)
  }

  /**
   * The day shown at reading position `pos` (`pos / 7` the week, `pos % 7`
   * the weekday) of the week matrix of a month of `n` days whose day 1 sits
   * at position `first`, or 0 outside the month.
   */
  function CellDay(first: int, n: int, pos: int): int {
    var day := pos + 1 - first;
    if 1 <= day <= n then day else 0
  }

  /**
   * `calendar.monthcalendar(year, month)`: the month as whole weeks starting on
   * Monday, days outside the month shown as 0.
   */
  function MonthCalendar(year: int, month: int): (weeks: seq<seq<int>>)
    requires 1 <= month <= 12
    ensures forall i | 0 <= i < |weeks| :: |weeks[i]| == 7
    ensures forall i, j | 0 <= i < |weeks| && 0 <= j < 7 ::
      weeks[i][j] == CellDay(FirstWeekday(year, month), DaysInMonth(year, month), 7 * i + j)
    // the first week holds day 1, the last week holds the last day
    ensures 0 < |weeks| && 7 * (|weeks| - 1) < FirstWeekday(year, month) + DaysInMonth(year, month) <= 7 * |weeks|
  {
    var first, days := FirstWeekday(year, month), DaysInMonth(year, month);
    var n := (first + days + 6) / 7;
    seq(n, i requires 0 <= i < n => seq(7, j requires 0 <= j < 7 => CellDay(first, days, 7 * i + j)))
  }

  /** In the week matrix, a cell holding a day sits in the column of that day's weekday. */
  lemma MonthCalendarColumns(year: int, month: int, weeks: seq<seq<int>>)
    requires 1 <= month <= 12 && weeks == MonthCalendar(year, month)
    ensures forall i, j | 0 <= i < |weeks| && 0 <= j < 7 && weeks[i][j] != 0 :: Weekday(year, month, weeks[i][j]) == j
  {
    forall i, j | 0 <= i < |weeks| && 0 <= j < 7 && weeks[i][j] != 0
      ensures Weekday(year, month, weeks[i][j]) == j
    {
      WeekdayInMonth(year, month, weeks[i][j]);
    }
  }

  /** Every day of the month is shown, in the cell at its reading position, which lies in its weekday's column. */
  lemma MonthCalendarPlacement(year: int, month: int, weeks: seq<seq<int>>)
    requires 1 <= month <= 12 && weeks == MonthCalendar(year, month)
    ensures forall day | 1 <= day <= DaysInMonth(year, month) ::
      (FirstWeekday(year, month) + day - 1) / 7 < |weeks| &&
      weeks[(FirstWeekday(year, month) + day - 1) / 7][(FirstWeekday(year, month) + day - 1) % 7] == day &&
      (FirstWeekday(year, month) + day - 1) % 7 == Weekday(year, month, day)
  {
    var w1 := FirstWeekday(year, month);
    forall day | 1 <= day <= DaysInMonth(year, month)
      ensures (w1 + day - 1) / 7 < |weeks| && weeks[(w1 + day - 1) / 7][(w1 + day - 1) % 7] == day &&
        (w1 + day - 1) % 7 == Weekday(year, month, day)
    {
      var pos := w1 + day - 1;
      assert 7 * (pos / 7) + pos % 7 == pos;
      WeekdayInMonth(year, month, day);
    }
  }

  /** No day of the month is shown twice. */
  lemma MonthCalendarDistinct(year: int, month: int, weeks: seq<seq<int>>)
    requires 1 <= month <= 12 && weeks == MonthCalendar(year, month)
    ensures forall i, j, i', j' | 0 <= i < |weeks| && 0 <= j < 7 && 0 <= i' < |weeks| && 0 <= j' < 7 &&
      weeks[i][j] != 0 && weeks[i][j] == weeks[i'][j'] :: i == i' && j == j'
  {
  }

  /** `Clamp(k, n)`: `k` forced into 0..n. */
  function Clamp(k: int, n: nat): (c: nat)
    ensures c <= n
    ensures 0 <= k <= n ==> c == k
  {
    if k < 0 then 0 else if k > n then n else k
  }

  /** A Monday-to-Friday day of the month. */
  predicate IsBusinessDay(year: int, month: int, day: int)
    requires 1 <= month <= 12
  {
    1 <= day <= DaysInMonth(year, month) && Weekday(year, month, day) < 5
  }

  /**
   * Among days 1..n of a month whose 1st falls on weekday `first`, those that
   * fall Monday to Friday, in calendar order; day `d` falls on weekday
   * `(first + d - 1) % 7`.
   */
  function WorkdaysThrough(first: int, n: int): seq<int>
    requires 0 <= n
    decreases n
  {
    if n == 0 then []
    else WorkdaysThrough(first, n - 1) + (if (first + n - 1) % 7 < 5 then [n] else [])
  }

  /** A day is listed exactly when it is among 1..n and falls Monday to Friday. */
  lemma {:induction false} WorkdaysMembership(first: int, n: int, day: int)
    requires 0 <= n
    ensures day in WorkdaysThrough(first, n) <==> 1 <= day <= n && (first + day - 1) % 7 < 5
    decreases n
  {
    if n > 0 {
      WorkdaysMembership(first, n - 1, day);
    }
  }

  /** Every listed day lies in 1..n. */
  lemma {:induction false} WorkdaysBounds(first: int, n: int)
    requires 0 <= n
    ensures forall i | 0 <= i < |WorkdaysThrough(first, n)| :: 1 <= WorkdaysThrough(first, n)[i] <= n
    decreases n
  {
    if n > 0 {
      WorkdaysBounds(first, n - 1);
    }
  }

  /** The days are listed in strictly ascending order. */
  lemma {:induction false} WorkdaysAscending(first: int, n: int)
    requires 0 <= n
    ensures forall i, j | 0 <= i < j < |WorkdaysThrough(first, n)| ::
      WorkdaysThrough(first, n)[i] < WorkdaysThrough(first, n)[j]
    decreases n
  {
    if n > 0 {
      WorkdaysAscending(first, n - 1);
      WorkdaysBounds(first, n - 1);
    }
  }

  /** The business days of a month, ascending: what `_calculate_business_days` returns. */
  function BusinessDaysOf(year: int, month: int): seq<int>
    requires 1 <= month <= 12
  {
    WorkdaysThrough(FirstWeekday(year, month), DaysInMonth(year, month))
  }

  /** A day is listed exactly when it is a business day of the month. */
  lemma BusinessDaysOfMembership(year: int, month: int, day: int)
    requires 1 <= month <= 12
    ensures day in BusinessDaysOf(year, month) <==> IsBusinessDay(year, month, day)
  {
    var first, n := FirstWeekday(year, month), DaysInMonth(year, month);
    WeekdayInMonth(year, month, day);
    assert IsBusinessDay(year, month, day) <==> 1 <= day <= n && (first + day - 1) % 7 < 5;
    WorkdaysMembership(first, n, day);
  }

  /** The business days are listed in strictly ascending order. */
  lemma BusinessDaysAscending(year: int, month: int)
    requires 1 <= month <= 12
    ensures forall i, j | 0 <= i < j < |BusinessDaysOf(year, month)| ::
      BusinessDaysOf(year, month)[i] < BusinessDaysOf(year, month)[j]
  {
    WorkdaysAscending(FirstWeekday(year, month), DaysInMonth(year, month));
  }

  /**
   * Reading the week matrix one cell further, to `j` cells of row `week`,
   * adds cell `j - 1` when it is a day of the month and its column is Monday
   * to Friday.
   */
  lemma WorkdaysCell(first: int, n: int, week: int, j: int)
    requires 0 <= n && 0 < j <= 7
    ensures WorkdaysThrough(first, Clamp(7 * week + j - first, n)) ==
      WorkdaysThrough(first, Clamp(7 * week + (j - 1) - first, n)) +
      (if CellDay(first, n, 7 * week + (j - 1)) != 0 && j - 1 < 5 then [CellDay(first, n, 7 * week + (j - 1))] else [])
  {
    var col := j - 1;
    var pos := 7 * week + col;
    var day := pos + 1 - first;
    if 1 <= day <= n {
      assert Clamp(pos + 1 - first, n) == day && Clamp(pos - first, n) == day - 1;
      var q, r := pos / 7, pos % 7;
      assert pos == 7 * q + r && 0 <= r < 7;
      assert r - col == 7 * (week - q);
      assert (first + day - 1) % 7 == col;
    } else {
      assert Clamp(pos + 1 - first, n) == Clamp(pos - first, n);
    }
  }

  /** `grid` is the week matrix of a month of `n` days whose day 1 sits at position `first`. */
  predicate IsMonthGrid(first: int, n: int, grid: seq<seq<int>>) {
    (forall i | 0 <= i < |grid| :: |grid[i]| == 7) &&
    (forall i, j | 0 <= i < |grid| && 0 <= j < 7 :: grid[i][j] == CellDay(first, n, 7 * i + j))
  }

  /** The days collected from the first `j` cells of one week: those that are not padding, Monday to Friday. */
  function RowWorkdays(row: seq<int>, j: int): seq<int>
    requires 0 <= j <= |row|
  {
    if j == 0 then []
    else RowWorkdays(row, j - 1) + (if row[j - 1] != 0 && j - 1 < 5 then [row[j - 1]] else [])
  }

  /** The days collected from the first `w` weeks of a week matrix. */
  function GridWorkdays(grid: seq<seq<int>>, w: int): seq<int>
    requires 0 <= w <= |grid|
    requires forall i | 0 <= i < |grid| :: |grid[i]| == 7
  {
    if w == 0 then [] else GridWorkdays(grid, w - 1) + RowWorkdays(grid[w - 1], 7)
  }

  /** Part way through week `w`, the days collected are the working days before that cell. */
  lemma {:induction false} RowPrefix(first: int, n: int, grid: seq<seq<int>>, w: int, j: int)
    requires 0 <= n && IsMonthGrid(first, n, grid)
    requires 0 <= w < |grid| && 0 <= j <= 7
    requires GridWorkdays(grid, w) == WorkdaysThrough(first, Clamp(7 * w - first, n))
    ensures GridWorkdays(grid, w) + RowWorkdays(grid[w], j) == WorkdaysThrough(first, Clamp(7 * w + j - first, n))
    decreases j
  {
    if j > 0 {
      RowPrefix(first, n, grid, w, j - 1);
      WorkdaysCell(first, n, w, j);
      assert grid[w][j - 1] == CellDay(first, n, 7 * w + (j - 1));
      AppendCell(GridWorkdays(grid, w), grid[w], j, WorkdaysThrough(first, Clamp(7 * w + (j - 1) - first, n)));
    }
  }

  /** Collecting one more cell of a row appends that cell's day, if it counts, to what came before. */
  lemma AppendCell(before: seq<int>, row: seq<int>, j: int, collected: seq<int>)
    requires 0 < j <= |row|
    requires before + RowWorkdays(row, j - 1) == collected
    ensures before + RowWorkdays(row, j) == collected + (if row[j - 1] != 0 && j - 1 < 5 then [row[j - 1]] else [])
  {
    var cell := if row[j - 1] != 0 && j - 1 < 5 then [row[j - 1]] else [];
    assert before + (RowWorkdays(row, j - 1) + cell) == (before + RowWorkdays(row, j - 1)) + cell;
  }

  /** After `w` whole weeks, the days collected are the working days before week `w`. */
  lemma {:induction false} GridPrefix(first: int, n: int, grid: seq<seq<int>>, w: int)
    requires 0 <= first && 0 <= n && IsMonthGrid(first, n, grid)
    requires 0 <= w <= |grid|
    ensures GridWorkdays(grid, w) == WorkdaysThrough(first, Clamp(7 * w - first, n))
    decreases w
  {
    if w == 0 {
      assert Clamp(7 * w - first, n) == 0;
      assert WorkdaysThrough(first, 0) == [];
    } else {
      GridPrefix(first, n, grid, w - 1);
      WeekPrefix(first, n, grid, w);
    }
  }

  /** One more whole week, week `w - 1`, collects the working days of that week. */
  lemma WeekPrefix(first: int, n: int, grid: seq<seq<int>>, w: int)
    requires 0 <= n && IsMonthGrid(first, n, grid)
    requires 0 < w <= |grid|
    requires GridWorkdays(grid, w - 1) == WorkdaysThrough(first, Clamp(7 * (w - 1) - first, n))
    ensures GridWorkdays(grid, w) == WorkdaysThrough(first, Clamp(7 * w - first, n))
  {
    RowPrefix(first, n, grid, w - 1, 7);
    assert 7 * (w - 1) + 7 - first == 7 * w - first;
  }

  /**
   * Collecting, week by week of `calendar.monthcalendar`, the cells of Monday
   * to Friday that are not padding gives exactly the month's business days.
   */
  lemma MonthCalendarWorkdays(year: int, month: int)
    requires 1 <= month <= 12
    ensures var grid := MonthCalendar(year, month);
      GridWorkdays(grid, |grid|) == BusinessDaysOf(year, month)
  {
    var grid := MonthCalendar(year, month);
    var first, n := FirstWeekday(year, month), DaysInMonth(year, month);
    assert IsMonthGrid(first, n, grid);
    GridPrefix(first, n, grid, |grid|);
    assert Clamp(7 * |grid| - first, n) == n;
  }

  /** One more day adds one to the count exactly when it falls Monday to Friday. */
  lemma WorkdaysStep(first: int, n: int)
    requires 1 <= n
    ensures |WorkdaysThrough(first, n)| == |WorkdaysThrough(first, n - 1)| + WorkdayCount(first + n - 1)
  {
  }

  /** 1 when weekday `w % 7` is Monday to Friday, else 0. */
  function WorkdayCount(w: int): (c: nat)
    ensures c == 1 <==> w % 7 < 5
  {
    if w % 7 < 5 then 1 else 0
  }

  /** Seven consecutive weekdays include five of Monday to Friday. */
  lemma WeekResidues(x: int)
    ensures WorkdayCount(x) + WorkdayCount(x + 1) + WorkdayCount(x + 2) + WorkdayCount(x + 3) +
      WorkdayCount(x + 4) + WorkdayCount(x + 5) + WorkdayCount(x + 6) == 5
  {
    WorkdayCountShift(x, 0);
    WorkdayCountShift(x, 1);
    WorkdayCountShift(x, 2);
    WorkdayCountShift(x, 3);
    WorkdayCountShift(x, 4);
    WorkdayCountShift(x, 5);
    WorkdayCountShift(x, 6);
  }

  /**
   * The weekday `j` days after `x`, counted from the weekday `x % 7` of `x`:
   * a working day when it lands on 0..4 of this week or of the next one.
   */
  lemma WorkdayCountShift(x: int, j: int)
    requires 0 <= j < 7
    ensures var y := x % 7 + j; WorkdayCount(x + j) == if y < 5 || 7 <= y < 12 then 1 else 0
  {
    var q, r := x / 7, x % 7;
    if r + j < 7 {
      ModUnique(x + j, q, r + j);
    } else {
      ModUnique(x + j, q + 1, r + j - 7);
    }
  }

  /** The remainder by 7 is the only value in 0..6 that differs from `y` by whole weeks. */
  lemma ModUnique(y: int, a: int, b: int)
    requires y == 7 * a + b && 0 <= b < 7
    ensures y % 7 == b
  {
    var c := y / 7;
    assert y == 7 * c + y % 7;
    assert b - y % 7 == 7 * (c - a);
  }

  /** Any seven consecutive days hold exactly five working days. */
  lemma WorkdaysWeek(first: int, n: int)
    requires 0 <= n
    ensures |WorkdaysThrough(first, n + 7)| == |WorkdaysThrough(first, n)| + 5
  {
    var x := first + n;
    WeekResidues(x);
    WorkdaysRun(first, n);
    WorkdaysRun(first, n + 3);
    WorkdaysStep(first, n + 7);
  }

  /** Three more days add their working days. */
  lemma WorkdaysRun(first: int, n: int)
    requires 0 <= n
    ensures var x := first + n;
      |WorkdaysThrough(first, n + 3)| == |WorkdaysThrough(first, n)| + WorkdayCount(x) + WorkdayCount(x + 1) + WorkdayCount(x + 2)
  {
    WorkdaysStep(first, n + 1);
    WorkdaysStep(first, n + 2);
    WorkdaysStep(first, n + 3);
  }

  /** Whole weeks from the start of the month hold five working days each. */
  lemma {:induction false} WholeWeeks(first: int, weeks: nat)
    ensures |WorkdaysThrough(first, 7 * weeks)| == 5 * weeks
    decreases weeks
  {
    if weeks > 0 {
      WholeWeeks(first, weeks - 1);
      WorkdaysWeek(first, 7 * (weeks - 1));
    }
  }

  /** The first 28 days of any month hold 20 working days. */
  lemma FourWeeks(first: int, n: int)
    requires n == 28
    ensures |WorkdaysThrough(first, n)| == 20
  {
    WholeWeeks(first, 4);
  }

  /** Every month has between 20 and 23 business days; a common February has exactly 20. */
  lemma BusinessDaysCount(year: int, month: int)
    requires 1 <= month <= 12
    ensures 20 <= |BusinessDaysOf(year, month)| <= 23
    ensures DaysInMonth(year, month) == 28 ==> |BusinessDaysOf(year, month)| == 20
  {
    var first, n := FirstWeekday(year, month), DaysInMonth(year, month);
    FourWeeks(first, 28);
    if n >= 29 { WorkdaysStep(first, 29); }
    if n >= 30 { WorkdaysStep(first, 30); }
    if n >= 31 { WorkdaysStep(first, 31); }
  }

  /** January 2024 starts on a Monday and has 23 business days. */
  lemma BusinessDaysJanuary2024()
    ensures |BusinessDaysOf(2024, 1)| == 23
  {
    var first := FirstWeekday(2024, 1);
    assert first == 0 by { assert Weekday(2024, 1, 1) == 0; }
    assert DaysInMonth(2024, 1) == 31;
    FourWeeks(first, 28);
    WorkdaysStep(first, 29);
    WorkdaysStep(first, 30);
    WorkdaysStep(first, 31);
  }

  /** February 2024, a leap-year February starting on a Thursday, has 21 business days. */
  lemma BusinessDaysFebruary2024()
    ensures |BusinessDaysOf(2024, 2)| == 21
  {
    var first := FirstWeekday(2024, 2);
    assert first == 3 by { assert Weekday(2024, 2, 1) == 3; }
    assert IsLeapYear(2024) && DaysInMonth(2024, 2) == 29;
    FourWeeks(first, 28);
    WorkdaysStep(first, 29);
  }

  /** April 2024 starts on a Monday and has 22 business days. */
  lemma BusinessDaysApril2024()
    ensures |BusinessDaysOf(2024, 4)| == 22
  {
    var first := FirstWeekday(2024, 4);
    assert first == 0 by { assert Weekday(2024, 4, 1) == 0; }
    assert DaysInMonth(2024, 4) == 30;
    FourWeeks(first, 28);
    WorkdaysStep(first, 29);
    WorkdaysStep(first, 30);
  }

  /** May 2024 starts on a Wednesday and has 23 business days. */
  lemma BusinessDaysMay2024()
    ensures |BusinessDaysOf(2024, 5)| == 23
  {
    var first := FirstWeekday(2024, 5);
    assert first == 2 by { assert Weekday(2024, 5, 1) == 2; }
    assert DaysInMonth(2024, 5) == 31;
    FourWeeks(first, 28);
    WorkdaysStep(first, 29);
    WorkdaysStep(first, 30);
    WorkdaysStep(first, 31);
  }

  /** In a month starting on a Friday, the first two business days are the 1st and the 4th. */
  lemma FridayStart(first: int, n: int)
    requires first == 4 && 4 <= n
    ensures |WorkdaysThrough(first, n)| >= 2
    ensures WorkdaysThrough(first, n)[0] == 1 && WorkdaysThrough(first, n)[1] == 4
  {
    var days := WorkdaysThrough(first, n);
    WorkdaysMembership(first, n, 1);
    WorkdaysMembership(first, n, 4);
    forall x | x in days
      ensures 1 <= x && (x <= 1 || 4 <= x)
    {
      WorkdaysMembership(first, n, x);
    }
    WorkdaysAscending(first, n);
    FirstTwo(days, 1, 4);
  }

  /** November 2024 starts on a Friday: its first business days are the 1st and the 4th. */
  lemma BusinessDaysNovember2024()
    ensures |BusinessDaysOf(2024, 11)| >= 2
    ensures BusinessDaysOf(2024, 11)[0] == 1 && BusinessDaysOf(2024, 11)[1] == 4
  {
    var first := FirstWeekday(2024, 11);
    assert first == 4 by { assert Weekday(2024, 11, 1) == 4; }
    FridayStart(first, DaysInMonth(2024, 11));
  }

  /** In an ascending sequence, `a` and `b` come first when nothing else precedes them. */
  lemma FirstTwo(s: seq<int>, a: int, b: int)
    requires forall i, j | 0 <= i < j < |s| :: s[i] < s[j]
    requires a in s && b in s && a < b
    requires forall x | x in s :: a <= x && (x <= a || b <= x)
    ensures |s| >= 2 && s[0] == a && s[1] == b
  {
    var i :| 0 <= i < |s| && s[i] == a;
    var j :| 0 <= j < |s| && s[j] == b;
    assert s[0] in s && s[0] <= s[i];
    assert i == 0;
    assert j >= 1 && s[1] in s && s[1] <= s[j];
  }
}
