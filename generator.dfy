/**
 * `TimeSheetGenerator` of time_sheets/generator.py: spreading a month's hours
 * worked over its business days, in half-hour steps, under a per-day cap.
 *
 * The Python class keeps no state (its constructor does nothing), so its
 * methods are modelled as module-level members.  The two methods that loop,
 * `_calculate_business_days` and `generate_time_sheet`, are Dafny methods
 * proved against the specification functions `BusinessDaysOf` and `TimeSheet`;
 * the lemmas below state what those functions promise.
 */
module Generator {
  import opened Wrappers
  import opened HalfHour
  import opened Calendar
  import opened Text

  /** One line of the time sheet: a `year-MM-DD` date and the hours worked on it. */
  datatype Entry = Entry(date: string, hours: real)

  /** The `ValueError`s the generator raises. */
  datatype Error =
    | IllegalMonth(month: int)
    | NoWorkingDays(leaveTaken: int, businessDays: int)
    | HoursExceedCapacity(hours: real, maxPossible: real, excess: real)

  function MinReal(a: real, b: real): real {
    if b < a then b else a
  }

  /** The sum of the hours of a list of entries (Python's `sum`). */
  function TotalHours(entries: seq<Entry>): real {
    if entries == [] then 0.0 else entries[0].hours + TotalHours(entries[1..])
  }

  // ---------------------------------------------------------------------------
  // _calculate_business_days

  /**
   * `_calculate_business_days`: walks the weeks of the month's calendar and,
   * in each, the cells of Monday to Friday, collecting the days that are
   * not padding.
   */
  method BusinessDays(month: int, year: int) returns (businessDays: seq<int>)
    requires 1 <= month <= 12
    ensures businessDays == BusinessDaysOf(year, month)
  {
    var cal := MonthCalendar(year, month);
    businessDays := [];
    for week := 0 to |cal|
      invariant businessDays == GridWorkdays(cal, week)
    {
      var days := cal[week];
      for dayIdx := 0 to |days|
        invariant businessDays == GridWorkdays(cal, week) + RowWorkdays(days, dayIdx)
      {
        var day := days[dayIdx];
        if day != 0 && dayIdx < 5 {
          businessDays := businessDays + [day];
        }
      }
    }
    MonthCalendarWorkdays(year, month);
  }

  // ---------------------------------------------------------------------------
  // The two feasibility gates

  /** `_validate_working_days`: working days left after the leave, or an error when none are left. */
  function ValidateWorkingDays(businessDaysCount: int, annualLeaveTaken: int): (r: Result<int, Error>)
    ensures r.Ok? <==> annualLeaveTaken < businessDaysCount
    ensures r.Ok? ==> r.value >= 1 && r.value + annualLeaveTaken == businessDaysCount
    ensures r.Err? ==> r.error == NoWorkingDays(annualLeaveTaken, businessDaysCount)
  {
    var workingDays := businessDaysCount - annualLeaveTaken;
    if workingDays <= 0 then Err(NoWorkingDays(annualLeaveTaken, businessDaysCount))
    else Ok(workingDays)
  }

  /**
   * `_validate_hours_distribution`: the hours must fit in the working days at
   * the daily cap; otherwise the error reports the ceiling and the excess.
   */
  function ValidateHoursDistribution(hoursWorked: real, maxHoursPerDay: real, workingDays: int): (r: Outcome<Error>)
    ensures r.Pass? <==> hoursWorked <= workingDays as real * maxHoursPerDay
    ensures r.Fail? ==>
      && r.error.HoursExceedCapacity?
      && r.error.hours == hoursWorked
      && r.error.maxPossible == workingDays as real * maxHoursPerDay
      && r.error.excess > 0.0
      && r.error.maxPossible + r.error.excess == hoursWorked
  {
    var maxPossibleHours := workingDays as real * maxHoursPerDay;
    if hoursWorked > maxPossibleHours then
      Fail(HoursExceedCapacity(hoursWorked, maxPossibleHours, hoursWorked - maxPossibleHours))
    else Pass
  }

  // ---------------------------------------------------------------------------
  // One day of the allocation

  /**
   * `_calculate_day_hours`: the last day takes what remains, rounded to half
   * an hour; any other day takes an even share of what remains, capped at
   * `maxHours`, rounded to half an hour.
   */
  function DayHours(remainingHours: real, daysRemaining: int, maxHours: real, isLastDay: bool): real
    requires isLastDay || daysRemaining != 0
  {
    if isLastDay then RoundHalf(remainingHours)
    else
      var targetHours := remainingHours / daysRemaining as real;
      RoundHalf(MinReal(targetHours, maxHours))
  }

  /**
   * A day's hours are whole half hours, within a quarter hour of the
   * remainder (last day) or of the capped even share (other days), and never
   * above a cap that is itself whole half hours.
   */
  lemma DayHoursSpec(remainingHours: real, daysRemaining: int, maxHours: real, isLastDay: bool)
    requires isLastDay || daysRemaining != 0
    ensures var h := DayHours(remainingHours, daysRemaining, maxHours, isLastDay);
      && IsHalfMultiple(h)
      && (isLastDay ==> -0.25 <= h - remainingHours <= 0.25)
      && (!isLastDay ==> -0.25 <= h - MinReal(remainingHours / daysRemaining as real, maxHours) <= 0.25)
      && (!isLastDay && IsHalfMultiple(maxHours) ==> h <= maxHours)
  {
    if !isLastDay && IsHalfMultiple(maxHours) {
      RoundHalfMonotone(MinReal(remainingHours / daysRemaining as real, maxHours), maxHours);
      RoundHalfFixed(maxHours);
    }
  }

  /** The condition under which the source prints "Adjusted final day": rounding changed the remainder. */
  predicate RoundingAdjusted(remainingHours: real) {
    RoundHalf(remainingHours) != remainingHours
  }

  /** The final day is adjusted exactly when the remainder is not a whole number of half hours. */
  lemma RoundingAdjustedIff(remainingHours: real)
    ensures RoundingAdjusted(remainingHours) <==> !IsHalfMultiple(remainingHours)
  {
    if IsHalfMultiple(remainingHours) {
      RoundHalfFixed(remainingHours);
    }
  }

  /** The condition under which the source prints its total-mismatch warning. */
  predicate TotalMismatch(allocatedHours: real, requestedHours: real) {
    allocatedHours - requestedHours > 0.01 || requestedHours - allocatedHours > 0.01
  }

  /** The hours booked for a day and the hours still to book after it. */
  datatype Step = Step(hours: real, remaining: real)

  /**
   * Booking `dayHours` out of `remainingHours`: when rounding asks for more
   * than remains, the day gets only what remains.
   */
  function Settle(remainingHours: real, dayHours: real): (s: Step)
    ensures s.hours + s.remaining == remainingHours
    ensures s.remaining >= 0.0 && s.hours <= dayHours
    ensures dayHours <= remainingHours ==> s.hours == dayHours
    ensures dayHours > remainingHours ==> s.hours == remainingHours
  {
    var remaining := remainingHours - dayHours;
    if remaining < 0.0 then Step(dayHours + remaining, 0.0) else Step(dayHours, remaining)
  }

  // ---------------------------------------------------------------------------
  // The allocation loop as a function

  /** The `year-MM-DD` strings of the given days of the month, in order. */
  function Dates(year: int, month: int, days: seq<int>): seq<string> {
    seq(|days|, i requires 0 <= i < |days| => FormatDate(year, month, days[i]))
  }

  /** Where the allocation stands: the entries made, the hours and the days still to allocate. */
  datatype Walk = Walk(entries: seq<Entry>, remaining: real, daysLeft: int)

  /**
   * The loop of `generate_time_sheet` from a given point: `dates` are the
   * dates of the business days not yet visited, `remainingHours` and
   * `daysLeft` the running totals.  It stops when the days run out or
   * `daysLeft` reaches 0.
   */
  function Allocate(dates: seq<string>, remainingHours: real, daysLeft: int, maxHours: real): Walk
    decreases |dates|
  {
    if dates == [] || daysLeft <= 0 then Walk([], remainingHours, daysLeft)
    else
      var dayHours := DayHours(remainingHours, daysLeft, maxHours, daysLeft == 1);
      var step := Settle(remainingHours, dayHours);
      var rest := Allocate(dates[1..], step.remaining, daysLeft - 1, maxHours);
      Walk([Entry(dates[0], step.hours)] + rest.entries, rest.remaining, rest.daysLeft)
  }

  /**
   * The walk makes one entry per visited date, in order, and visits dates
   * while days are left: as many entries as the smaller of the two counts.
   */
  lemma {:induction false} AllocateEntries(dates: seq<string>, remainingHours: real, daysLeft: int, maxHours: real)
    ensures var w := Allocate(dates, remainingHours, daysLeft, maxHours);
      && |w.entries| == (if daysLeft <= 0 then 0 else if |dates| < daysLeft then |dates| else daysLeft)
      && w.daysLeft == daysLeft - |w.entries|
      && (forall i | 0 <= i < |w.entries| :: w.entries[i].date == dates[i])
    decreases |dates|
  {
    if dates != [] && daysLeft > 0 {
      var step := Settle(remainingHours, DayHours(remainingHours, daysLeft, maxHours, daysLeft == 1));
      AllocateEntries(dates[1..], step.remaining, daysLeft - 1, maxHours);
    }
  }

  /** No hour is lost or invented: what is booked plus what remains is what there was. */
  lemma {:induction false} AllocateConserves(dates: seq<string>, remainingHours: real, daysLeft: int, maxHours: real)
    ensures var w := Allocate(dates, remainingHours, daysLeft, maxHours);
      TotalHours(w.entries) + w.remaining == remainingHours
    decreases |dates|
  {
    if dates != [] && daysLeft > 0 {
      var step := Settle(remainingHours, DayHours(remainingHours, daysLeft, maxHours, daysLeft == 1));
      AllocateConserves(dates[1..], step.remaining, daysLeft - 1, maxHours);
    }
  }

  /**
   * The state the capacity gate establishes and every day but the last keeps:
   * a cap of whole half hours, and no more hours left than the days left can
   * hold at that cap.
   */
  predicate WithinCapacity(remainingHours: real, daysLeft: int, maxHours: real) {
    IsHalfMultiple(maxHours) && 0.0 <= remainingHours <= daysLeft as real * maxHours
  }

  /**
   * A day that is not the last: its share is whole half hours, at most the
   * cap and at most what remains (so the clamp does not fire), and the days
   * after it can still hold what is left.
   */
  lemma ShareStep(remainingHours: real, daysLeft: int, maxHours: real)
    requires daysLeft >= 2 && WithinCapacity(remainingHours, daysLeft, maxHours)
    ensures var h := DayHours(remainingHours, daysLeft, maxHours, daysLeft == 1);
      && IsHalfMultiple(h) && 0.0 <= h <= maxHours && h <= remainingHours
      && Settle(remainingHours, h) == Step(h, remainingHours - h)
      && WithinCapacity(remainingHours - h, daysLeft - 1, maxHours)
  {
    EvenShare(remainingHours, daysLeft, maxHours);
    ShareRounding(remainingHours, daysLeft, maxHours);
  }

  /**
   * What rounding does to the even share `t` of a day that is not the last:
   * `t` is at most the cap, and the day's hours are whole half hours within a
   * quarter hour of `t`, at most the cap, and rounded below `t` only when at
   * least half an hour under the cap.
   */
  lemma ShareRounding(remainingHours: real, daysLeft: int, maxHours: real)
    requires daysLeft >= 2 && WithinCapacity(remainingHours, daysLeft, maxHours)
    ensures var t := remainingHours / daysLeft as real;
      var h := DayHours(remainingHours, daysLeft, maxHours, false);
      && 0.0 <= t <= maxHours
      && IsHalfMultiple(h) && 0.0 <= h <= maxHours && -0.25 <= h - t <= 0.25
      && (h > 0.0 ==> h >= 0.5)
      && (h < t ==> h + 0.5 <= maxHours)
  {
    var k := daysLeft as real;
    var t := remainingHours / k;
    EvenShare(remainingHours, daysLeft, maxHours);
    var h := DayHours(remainingHours, daysLeft, maxHours, false);
    assert h == RoundHalf(t);
    DayHoursSpec(remainingHours, daysLeft, maxHours, false);
    RoundHalfNonNegative(t);
    if h > 0.0 {
      HalfMultipleGap(0.0, h);
    }
    if h < t {
      HalfMultipleGap(h, maxHours);
    }
  }

  /**
   * The even share `t = r / n` of `n >= 2` days that can hold `r` at the cap
   * `m`: it is at most the cap, at most half of `r`, and what is left after it
   * (or after a quarter hour less) fits in the other `n - 1` days.
   */
  lemma EvenShare(r: real, n: int, m: real)
    requires n >= 2 && 0.0 <= r <= n as real * m
    ensures var t := r / n as real;
      && 0.0 <= t <= m
      && t + t <= r
      && r - t <= (n - 1) as real * m
      && (t + 0.25 <= m ==> r - t + 0.25 <= (n - 1) as real * m)
  {
    var k := n as real;
    var t := r / k;
    assert r == k * t;
    if t > m {
      MulLess(m, t, k);
    }
    MulLessEq(2.0, k, t);
    var d := (n - 1) as real;
    assert r - t == d * t;
    MulLessEq(t, m, d);
    if t + 0.25 <= m {
      MulLessEq(t + 0.25, m, d);
      assert d * (t + 0.25) == d * t + d * 0.25;
    }
  }

  lemma MulLessEq(a: real, b: real, c: real)
    requires a <= b && 0.0 <= c
    ensures c * a <= c * b
  {
  }

  lemma MulLess(a: real, b: real, c: real)
    requires a < b && 0.0 < c
    ensures c * a < c * b
  {
  }

  /**
   * The last day: it books what remains, rounded to whole half hours, at most
   * the cap; when rounding overshoots, the clamp books exactly what remains.
   * At most a quarter hour is left over, and nothing when the remainder was
   * whole half hours.
   */
  lemma LastStep(remainingHours: real, maxHours: real)
    requires WithinCapacity(remainingHours, 1, maxHours)
    ensures var s := Settle(remainingHours, DayHours(remainingHours, 1, maxHours, true));
      && 0.0 <= s.hours <= maxHours
      && 0.0 <= s.remaining <= 0.25
      && (IsHalfMultiple(s.hours) || s.remaining == 0.0)
      && (IsHalfMultiple(remainingHours) ==> s == Step(remainingHours, 0.0))
  {
    assert IsHalfMultiple(0.0);
    RoundHalfBetween(remainingHours, 0.0, maxHours);
    if IsHalfMultiple(remainingHours) {
      RoundHalfFixed(remainingHours);
    }
  }

  /** One step of the walk, taken out of `Allocate`'s definition. */
  lemma AllocateUnfold(dates: seq<string>, remainingHours: real, daysLeft: int, maxHours: real, h: real)
    requires dates != [] && daysLeft > 0
    requires Settle(remainingHours, DayHours(remainingHours, daysLeft, maxHours, daysLeft == 1)) == Step(h, remainingHours - h)
    ensures var rest := Allocate(dates[1..], remainingHours - h, daysLeft - 1, maxHours);
      Allocate(dates, remainingHours, daysLeft, maxHours) == Walk([Entry(dates[0], h)] + rest.entries, rest.remaining, rest.daysLeft)
  {
  }

  /** A day that is not the last, booked from a state within capacity, as one step of the walk. */
  lemma AllocateShare(dates: seq<string>, remainingHours: real, daysLeft: int, maxHours: real)
    requires dates != [] && daysLeft >= 2 && WithinCapacity(remainingHours, daysLeft, maxHours)
    ensures var h := DayHours(remainingHours, daysLeft, maxHours, daysLeft == 1);
      var rest := Allocate(dates[1..], remainingHours - h, daysLeft - 1, maxHours);
      && IsHalfMultiple(h) && 0.0 <= h <= maxHours
      && WithinCapacity(remainingHours - h, daysLeft - 1, maxHours)
      && Allocate(dates, remainingHours, daysLeft, maxHours) == Walk([Entry(dates[0], h)] + rest.entries, rest.remaining, rest.daysLeft)
  {
    ShareStep(remainingHours, daysLeft, maxHours);
    AllocateUnfold(dates, remainingHours, daysLeft, maxHours, DayHours(remainingHours, daysLeft, maxHours, daysLeft == 1));
  }

  /** The last day, booked from a state within capacity, ends the walk. */
  lemma AllocateLast(dates: seq<string>, remainingHours: real, maxHours: real)
    requires dates != [] && WithinCapacity(remainingHours, 1, maxHours)
    ensures var s := Settle(remainingHours, DayHours(remainingHours, 1, maxHours, true));
      && Allocate(dates, remainingHours, 1, maxHours) == Walk([Entry(dates[0], s.hours)], s.remaining, 0)
      && 0.0 <= s.hours <= maxHours
      && 0.0 <= s.remaining <= 0.25
      && (IsHalfMultiple(s.hours) || s.remaining == 0.0)
      && (IsHalfMultiple(remainingHours) ==> s == Step(remainingHours, 0.0))
  {
    LastStep(remainingHours, maxHours);
    var s := Settle(remainingHours, DayHours(remainingHours, 1, maxHours, true));
    assert Allocate(dates[1..], s.remaining, 0, maxHours) == Walk([], s.remaining, 0);
  }

  lemma CappedCons(e: Entry, entries: seq<Entry>, maxHours: real)
    requires 0.0 <= e.hours <= maxHours && EntriesCapped(entries, maxHours)
    ensures EntriesCapped([e] + entries, maxHours)
  {
    forall i | 0 <= i < |[e] + entries| ensures 0.0 <= ([e] + entries)[i].hours <= maxHours {
      if i > 0 {
        assert ([e] + entries)[i] == entries[i - 1];
      }
    }
  }

  lemma HalfHoursCons(e: Entry, entries: seq<Entry>)
    requires IsHalfMultiple(e.hours) && AllHalfHours(entries)
    ensures AllHalfHours([e] + entries)
  {
    forall i | 0 <= i < |[e] + entries| ensures IsHalfMultiple(([e] + entries)[i].hours) {
      if i > 0 {
        assert ([e] + entries)[i] == entries[i - 1];
      }
    }
  }

  lemma ClampedCons(e: Entry, w: Walk)
    requires IsHalfMultiple(e.hours) && HalfHoursUnlessClamped(w)
    ensures HalfHoursUnlessClamped(Walk([e] + w.entries, w.remaining, w.daysLeft))
  {
    var entries := [e] + w.entries;
    forall i | 0 <= i < |entries| ensures IsHalfMultiple(entries[i].hours) || (i == |entries| - 1 && w.remaining == 0.0) {
      if i > 0 {
        assert entries[i] == w.entries[i - 1];
      }
    }
  }

  /** From a state within capacity, every entry lies between 0 and the cap. */
  lemma {:induction false} AllocateWithinCap(dates: seq<string>, remainingHours: real, daysLeft: int, maxHours: real)
    requires 0 <= daysLeft && WithinCapacity(remainingHours, daysLeft, maxHours)
    ensures EntriesCapped(Allocate(dates, remainingHours, daysLeft, maxHours).entries, maxHours)
    decreases |dates|
  {
    if dates != [] && daysLeft > 0 {
      if daysLeft >= 2 {
        AllocateShare(dates, remainingHours, daysLeft, maxHours);
        var h := DayHours(remainingHours, daysLeft, maxHours, daysLeft == 1);
        var rest := Allocate(dates[1..], remainingHours - h, daysLeft - 1, maxHours);
        AllocateWithinCap(dates[1..], remainingHours - h, daysLeft - 1, maxHours);
        CappedCons(Entry(dates[0], h), rest.entries, maxHours);
      } else {
        AllocateLast(dates, remainingHours, maxHours);
      }
    }
  }

  /**
   * From a state within capacity, what remains never goes negative, and when
   * the walk reaches its last day at most a quarter hour is left.
   */
  lemma {:induction false} AllocateLeftover(dates: seq<string>, remainingHours: real, daysLeft: int, maxHours: real)
    requires 0 <= daysLeft && WithinCapacity(remainingHours, daysLeft, maxHours)
    ensures 0.0 <= Allocate(dates, remainingHours, daysLeft, maxHours).remaining
    ensures daysLeft <= |dates| ==> Allocate(dates, remainingHours, daysLeft, maxHours).remaining <= 0.25
    decreases |dates|
  {
    if dates != [] && daysLeft > 0 {
      if daysLeft >= 2 {
        AllocateShare(dates, remainingHours, daysLeft, maxHours);
        var h := DayHours(remainingHours, daysLeft, maxHours, daysLeft == 1);
        AllocateLeftover(dates[1..], remainingHours - h, daysLeft - 1, maxHours);
      } else {
        AllocateLast(dates, remainingHours, maxHours);
      }
    }
  }

  /** Every entry books between 0 and `maxHours` hours. */
  predicate EntriesCapped(entries: seq<Entry>, maxHours: real) {
    forall i | 0 <= i < |entries| :: 0.0 <= entries[i].hours <= maxHours
  }

  /** Every entry is whole half hours. */
  predicate AllHalfHours(entries: seq<Entry>) {
    forall i | 0 <= i < |entries| :: IsHalfMultiple(entries[i].hours)
  }

  /** Entries in whole half hours add up to whole half hours. */
  lemma {:induction false} AllHalfHoursTotal(entries: seq<Entry>)
    requires AllHalfHours(entries)
    ensures IsHalfMultiple(TotalHours(entries))
    decreases |entries|
  {
    if entries == [] {
      assert TotalHours(entries) == 0.0 && (2.0 * 0.0).Floor == 0;
    } else {
      assert IsHalfMultiple(entries[0].hours);
      assert AllHalfHours(entries[1..]) by {
        forall i | 0 <= i < |entries[1..]|
          ensures IsHalfMultiple(entries[1..][i].hours)
        {
          assert entries[1..][i] == entries[i + 1];
        }
      }
      AllHalfHoursTotal(entries[1..]);
      HalfMultipleAdd(entries[0].hours, TotalHours(entries[1..]));
    }
  }

  /**
   * Every entry of the walk is whole half hours, except that the last one may
   * not be when nothing remains: the clamp booked the exact rest.
   */
  predicate HalfHoursUnlessClamped(w: Walk) {
    forall i | 0 <= i < |w.entries| :: IsHalfMultiple(w.entries[i].hours) || (i == |w.entries| - 1 && w.remaining == 0.0)
  }

  /**
   * From a state within capacity, every entry is whole half hours except
   * possibly the last one, and then only because the clamp fired and nothing
   * remains.
   */
  lemma {:induction false} AllocateHalfHours(dates: seq<string>, remainingHours: real, daysLeft: int, maxHours: real)
    requires 0 <= daysLeft && WithinCapacity(remainingHours, daysLeft, maxHours)
    ensures HalfHoursUnlessClamped(Allocate(dates, remainingHours, daysLeft, maxHours))
    decreases |dates|
  {
    if dates != [] && daysLeft > 0 {
      if daysLeft >= 2 {
        AllocateShare(dates, remainingHours, daysLeft, maxHours);
        var h := DayHours(remainingHours, daysLeft, maxHours, daysLeft == 1);
        var rest := Allocate(dates[1..], remainingHours - h, daysLeft - 1, maxHours);
        AllocateHalfHours(dates[1..], remainingHours - h, daysLeft - 1, maxHours);
        ClampedCons(Entry(dates[0], h), rest);
      } else {
        AllocateLast(dates, remainingHours, maxHours);
      }
    }
  }

  /**
   * From a state within capacity holding whole half hours, every entry is
   * whole half hours, and a walk that reaches its last day books everything.
   */
  lemma {:induction false} AllocateExact(dates: seq<string>, remainingHours: real, daysLeft: int, maxHours: real)
    requires 0 <= daysLeft && WithinCapacity(remainingHours, daysLeft, maxHours) && IsHalfMultiple(remainingHours)
    ensures AllHalfHours(Allocate(dates, remainingHours, daysLeft, maxHours).entries)
    ensures daysLeft <= |dates| ==> Allocate(dates, remainingHours, daysLeft, maxHours).remaining == 0.0
    decreases |dates|
  {
    if dates != [] && daysLeft > 0 {
      if daysLeft >= 2 {
        ShareStep(remainingHours, daysLeft, maxHours);
        var h := DayHours(remainingHours, daysLeft, maxHours, daysLeft == 1);
        HalfMultipleSub(remainingHours, h);
        var rest := Allocate(dates[1..], remainingHours - h, daysLeft - 1, maxHours);
        AllocateExact(dates[1..], remainingHours - h, daysLeft - 1, maxHours);
        HalfHoursCons(Entry(dates[0], h), rest.entries);
      } else {
        AllocateLast(dates, remainingHours, maxHours);
      }
    }
  }

  /** The entries `prefix` already made, followed by the walk `w`. */
  function After(prefix: seq<Entry>, w: Walk): Walk {
    Walk(prefix + w.entries, w.remaining, w.daysLeft)
  }

  /** One pass of the loop: the date at index `i` is booked, and the walk carries on from the next one. */
  lemma AllocateStep(dates: seq<string>, i: int, remainingHours: real, daysLeft: int, maxHours: real, prefix: seq<Entry>, step: Step)
    requires 0 <= i < |dates| && daysLeft > 0
    requires step == Settle(remainingHours, DayHours(remainingHours, daysLeft, maxHours, daysLeft == 1))
    ensures After(prefix, Allocate(dates[i..], remainingHours, daysLeft, maxHours)) ==
      After(prefix + [Entry(dates[i], step.hours)], Allocate(dates[i + 1..], step.remaining, daysLeft - 1, maxHours))
  {
    assert dates[i..][1..] == dates[i + 1..];
    var e := Entry(dates[i], step.hours);
    var rest := Allocate(dates[i + 1..], step.remaining, daysLeft - 1, maxHours);
    assert prefix + ([e] + rest.entries) == (prefix + [e]) + rest.entries;
  }

  /** When the walk stops, the entries made so far are all the entries. */
  lemma AllocateStop(dates: seq<string>, remainingHours: real, daysLeft: int, maxHours: real, prefix: seq<Entry>)
    requires dates == [] || daysLeft <= 0
    ensures After(prefix, Allocate(dates, remainingHours, daysLeft, maxHours)).entries == prefix
  {
    assert prefix + [] == prefix;
  }

  /** `generate_time_sheet` as a function: the cap rounded, then the month's business days handed on. */
  function TimeSheet(hoursWorked: real, maxHoursWorked: real, annualLeaveTaken: int, month: int, year: int): Result<seq<Entry>, Error> {
    if !(1 <= month <= 12) then Err(IllegalMonth(month))
    else SheetFrom(BusinessDaysOf(year, month), hoursWorked, RoundHalf(maxHoursWorked), annualLeaveTaken, month, year)
  }

  /** The rest of `generate_time_sheet` once the business days are known: the two gates, then the allocation. */
  function SheetFrom(businessDays: seq<int>, hoursWorked: real, maxHours: real, annualLeaveTaken: int, month: int, year: int): Result<seq<Entry>, Error> {
    match ValidateWorkingDays(|businessDays|, annualLeaveTaken)
    case Err(e) => Err(e)
    case Ok(workingDays) =>
      match ValidateHoursDistribution(hoursWorked, maxHours, workingDays)
      case Fail(e) => Err(e)
      case Pass => Ok(Allocate(Dates(year, month, businessDays), hoursWorked, workingDays, maxHours).entries)
  }

  // ---------------------------------------------------------------------------
  // generate_time_sheet

  /** `_format_date` applied to each business day in turn. */
  method FormatDates(year: int, month: int, days: seq<int>) returns (dates: seq<string>)
    ensures dates == Dates(year, month, days)
  {
    dates := [];
    for i := 0 to |days|
      invariant dates == Dates(year, month, days[..i])
    {
      assert days[..i + 1] == days[..i] + [days[i]];
      dates := dates + [FormatDate(year, month, days[i])];
    }
    assert days[..|days|] == days;
  }

  /**
   * The allocation loop of `generate_time_sheet`: visits the business days
   * (here, their date strings) in order while working days are left, books
   * each day's share, and clamps a day whose rounding asks for more than
   * remains.
   */
  method DistributeHours(dates: seq<string>, hoursWorked: real, workingDays: int, maxHours: real)
    returns (result: seq<Entry>)
    ensures result == Allocate(dates, hoursWorked, workingDays, maxHours).entries
  {
    ghost var whole := Allocate(dates, hoursWorked, workingDays, maxHours);
    result := [];
    var remainingHours := hoursWorked;
    var daysLeft := workingDays;
    var i := 0;
    assert dates[i..] == dates;
    while i < |dates|
      invariant 0 <= i <= |dates|
      invariant whole == After(result, Allocate(dates[i..], remainingHours, daysLeft, maxHours))
    {
      if daysLeft <= 0 {
        break;
      }
      var isLastDay := daysLeft == 1;
      var dayHours := DayHours(remainingHours, daysLeft, maxHours, isLastDay);
      ghost var step := Settle(remainingHours, dayHours);
      AllocateStep(dates, i, remainingHours, daysLeft, maxHours, result, step);
      ghost var rest := Allocate(dates[i + 1..], step.remaining, daysLeft - 1, maxHours);
      remainingHours := remainingHours - dayHours;
      daysLeft := daysLeft - 1;
      if remainingHours < 0.0 {
        dayHours := dayHours + remainingHours;
        remainingHours := 0.0;
      }
      assert dayHours == step.hours && remainingHours == step.remaining;
      result := result + [Entry(dates[i], dayHours)];
      i := i + 1;
      assert whole == After(result, rest);
    }
    AllocateStop(dates[i..], remainingHours, daysLeft, maxHours, result);
  }

  /**
   * `generate_time_sheet`: rounds the cap, computes the business days, runs
   * the two gates, then walks the business days booking each one's hours and
   * clamping a day whose rounding overshoots what remains.
   */
  method GenerateTimeSheet(hoursWorked: real, maxHoursWorked: real, annualLeaveTaken: int, month: int, year: int)
    returns (r: Result<seq<Entry>, Error>)
    ensures r == TimeSheet(hoursWorked, maxHoursWorked, annualLeaveTaken, month, year)
  {
    var maxHours := RoundHalf(maxHoursWorked);
    if !(1 <= month <= 12) {
      return Err(IllegalMonth(month));
    }
    var businessDays := BusinessDays(month, year);
    var checked := ValidateWorkingDays(|businessDays|, annualLeaveTaken);
    if checked.Err? {
      return Err(checked.error);
    }
    var workingDays := checked.value;
    var fits := ValidateHoursDistribution(hoursWorked, maxHours, workingDays);
    if fits.Fail? {
      return Err(fits.error);
    }
    var dates := FormatDates(year, month, businessDays);
    var result := DistributeHours(dates, hoursWorked, workingDays, maxHours);
    r := Ok(result);
  }
}
