/**
 * What `generate_time_sheet` of time_sheets/generator.py promises about the
 * sheet it returns, stated over `Generator.TimeSheet`, the function that
 * `Generator.GenerateTimeSheet` is proved to compute.
 *
 * The allocation lemmas (cap, total, half hours, exactness) assume
 * `hoursWorked` is not negative: the allocator's domain is non-negative hours,
 * and their proofs start from `WithinCapacity`, which needs at least zero
 * hours remaining.  The source accepts a negative total (it passes the
 * capacity gate) and then books negative entries, which breaks the cap.
 */
module TimeSheetFacts {
  import opened Wrappers
  import opened HalfHour
  import opened Calendar
  import opened Text
  import opened Generator

  // ---------------------------------------------------------------------------
  // Once the business days are known

  /** The most hours the working days left after the leave can hold at the cap. */
  function Capacity(businessDaysCount: int, annualLeaveTaken: int, maxHours: real): real {
    (businessDaysCount - annualLeaveTaken) as real * maxHours
  }

  /**
   * The gates in order: the leave must leave a working day, then the hours
   * must fit in the working days at the cap.  A sheet is produced exactly
   * when both gates pass.
   */
  lemma SheetOutcome(businessDays: seq<int>, hoursWorked: real, maxHours: real, annualLeaveTaken: int, month: int, year: int)
    ensures annualLeaveTaken >= |businessDays| ==>
      SheetFrom(businessDays, hoursWorked, maxHours, annualLeaveTaken, month, year) == Err(NoWorkingDays(annualLeaveTaken, |businessDays|))
    ensures annualLeaveTaken < |businessDays| && hoursWorked > Capacity(|businessDays|, annualLeaveTaken, maxHours) ==>
      SheetFrom(businessDays, hoursWorked, maxHours, annualLeaveTaken, month, year) ==
      Err(HoursExceedCapacity(hoursWorked, Capacity(|businessDays|, annualLeaveTaken, maxHours),
                              hoursWorked - Capacity(|businessDays|, annualLeaveTaken, maxHours)))
    ensures SheetFrom(businessDays, hoursWorked, maxHours, annualLeaveTaken, month, year).Ok? <==>
      annualLeaveTaken < |businessDays| && hoursWorked <= Capacity(|businessDays|, annualLeaveTaken, maxHours)
  {
    var checked := ValidateWorkingDays(|businessDays|, annualLeaveTaken);
    if checked.Err? {
      assert SheetFrom(businessDays, hoursWorked, maxHours, annualLeaveTaken, month, year) == Err(checked.error);
    } else {
      var capacity := Capacity(|businessDays|, annualLeaveTaken, maxHours);
      assert checked.value == |businessDays| - annualLeaveTaken;
      assert capacity == checked.value as real * maxHours;
      var fits := ValidateHoursDistribution(hoursWorked, maxHours, checked.value);
      assert fits.Pass? <==> hoursWorked <= capacity;
      if fits.Fail? {
        assert fits.error == HoursExceedCapacity(hoursWorked, capacity, hoursWorked - capacity);
        assert SheetFrom(businessDays, hoursWorked, maxHours, annualLeaveTaken, month, year) == Err(fits.error);
      } else {
        assert SheetFrom(businessDays, hoursWorked, maxHours, annualLeaveTaken, month, year).Ok?;
      }
    }
  }

  /**
   * Past the gates, the sheet is the allocation walk over the business days'
   * dates, started within capacity.
   */
  lemma SheetWalk(businessDays: seq<int>, hoursWorked: real, maxHours: real, annualLeaveTaken: int, month: int, year: int)
    requires 0.0 <= hoursWorked && IsHalfMultiple(maxHours)
    requires SheetFrom(businessDays, hoursWorked, maxHours, annualLeaveTaken, month, year).Ok?
    ensures var workingDays := |businessDays| - annualLeaveTaken;
      && 1 <= workingDays
      && WithinCapacity(hoursWorked, workingDays, maxHours)
      && SheetFrom(businessDays, hoursWorked, maxHours, annualLeaveTaken, month, year).value ==
         Allocate(Dates(year, month, businessDays), hoursWorked, workingDays, maxHours).entries
  {
    SheetOutcome(businessDays, hoursWorked, maxHours, annualLeaveTaken, month, year);
  }

  /**
   * The sheet has an entry for each of the first working-days-many business
   * days (all of them when the leave count is negative), dated in order; when
   * the days ascend, so do the date strings.
   */
  lemma SheetDates(businessDays: seq<int>, hoursWorked: real, maxHours: real, annualLeaveTaken: int, month: int, year: int)
    requires 1 <= month <= 12
    requires forall i | 0 <= i < |businessDays| :: 1 <= businessDays[i] <= 31
    requires forall i, j | 0 <= i < j < |businessDays| :: businessDays[i] < businessDays[j]
    requires SheetFrom(businessDays, hoursWorked, maxHours, annualLeaveTaken, month, year).Ok?
    ensures var entries := SheetFrom(businessDays, hoursWorked, maxHours, annualLeaveTaken, month, year).value;
      && |entries| == (if annualLeaveTaken < 0 then |businessDays| else |businessDays| - annualLeaveTaken)
      && (forall i | 0 <= i < |entries| :: entries[i].date == FormatDate(year, month, businessDays[i]))
      && (forall i, j | 0 <= i < j < |entries| :: LexLess(entries[i].date, entries[j].date))
  {
    SheetOutcome(businessDays, hoursWorked, maxHours, annualLeaveTaken, month, year);
    var workingDays := |businessDays| - annualLeaveTaken;
    var dates := Dates(year, month, businessDays);
    var entries := Allocate(dates, hoursWorked, workingDays, maxHours).entries;
    assert SheetFrom(businessDays, hoursWorked, maxHours, annualLeaveTaken, month, year).value == entries;
    AllocateEntries(dates, hoursWorked, workingDays, maxHours);
    forall i, j | 0 <= i < j < |entries| ensures LexLess(entries[i].date, entries[j].date) {
      FormatDateAscending(year, month, businessDays[i], businessDays[j]);
    }
  }

  /** No day of the sheet is negative or above the cap. */
  lemma SheetCapped(businessDays: seq<int>, hoursWorked: real, maxHours: real, annualLeaveTaken: int, month: int, year: int)
    requires 0.0 <= hoursWorked && IsHalfMultiple(maxHours)
    requires SheetFrom(businessDays, hoursWorked, maxHours, annualLeaveTaken, month, year).Ok?
    ensures EntriesCapped(SheetFrom(businessDays, hoursWorked, maxHours, annualLeaveTaken, month, year).value, maxHours)
  {
    SheetWalk(businessDays, hoursWorked, maxHours, annualLeaveTaken, month, year);
    AllocateWithinCap(Dates(year, month, businessDays), hoursWorked, |businessDays| - annualLeaveTaken, maxHours);
  }

  /**
   * The sheet never books more than was worked, and, when the leave count is
   * not negative (so the walk reaches the last working day), at most a
   * quarter hour less.
   */
  lemma SheetTotal(businessDays: seq<int>, hoursWorked: real, maxHours: real, annualLeaveTaken: int, month: int, year: int)
    requires 0.0 <= hoursWorked && IsHalfMultiple(maxHours)
    requires SheetFrom(businessDays, hoursWorked, maxHours, annualLeaveTaken, month, year).Ok?
    ensures var total := TotalHours(SheetFrom(businessDays, hoursWorked, maxHours, annualLeaveTaken, month, year).value);
      && total <= hoursWorked
      && (0 <= annualLeaveTaken ==> hoursWorked - 0.25 <= total)
  {
    SheetWalk(businessDays, hoursWorked, maxHours, annualLeaveTaken, month, year);
    var dates := Dates(year, month, businessDays);
    var workingDays := |businessDays| - annualLeaveTaken;
    AllocateConserves(dates, hoursWorked, workingDays, maxHours);
    AllocateLeftover(dates, hoursWorked, workingDays, maxHours);
  }

  /**
   * Every day of the sheet but the last is whole half hours; the last one may
   * not be, and then the clamp fired and the sheet books exactly the hours
   * worked.
   */
  lemma SheetHalfHours(businessDays: seq<int>, hoursWorked: real, maxHours: real, annualLeaveTaken: int, month: int, year: int)
    requires 0.0 <= hoursWorked && IsHalfMultiple(maxHours)
    requires SheetFrom(businessDays, hoursWorked, maxHours, annualLeaveTaken, month, year).Ok?
    ensures var entries := SheetFrom(businessDays, hoursWorked, maxHours, annualLeaveTaken, month, year).value;
      && (forall i | 0 <= i < |entries| - 1 :: IsHalfMultiple(entries[i].hours))
      && (entries != [] && !IsHalfMultiple(entries[|entries| - 1].hours) ==> TotalHours(entries) == hoursWorked)
  {
    SheetWalk(businessDays, hoursWorked, maxHours, annualLeaveTaken, month, year);
    var dates := Dates(year, month, businessDays);
    var workingDays := |businessDays| - annualLeaveTaken;
    var w := Allocate(dates, hoursWorked, workingDays, maxHours);
    AllocateHalfHours(dates, hoursWorked, workingDays, maxHours);
    AllocateConserves(dates, hoursWorked, workingDays, maxHours);
    assert HalfHoursUnlessClamped(w);
  }

  /**
   * When the hours worked are whole half hours, so is every day of the sheet;
   * and when the leave count is not negative, the sheet books exactly the
   * hours worked, so the source's total-mismatch warning never fires.
   */
  lemma SheetExact(businessDays: seq<int>, hoursWorked: real, maxHours: real, annualLeaveTaken: int, month: int, year: int)
    requires 0.0 <= hoursWorked && IsHalfMultiple(hoursWorked) && IsHalfMultiple(maxHours)
    requires SheetFrom(businessDays, hoursWorked, maxHours, annualLeaveTaken, month, year).Ok?
    ensures var entries := SheetFrom(businessDays, hoursWorked, maxHours, annualLeaveTaken, month, year).value;
      && AllHalfHours(entries)
      && (0 <= annualLeaveTaken ==> TotalHours(entries) == hoursWorked && !TotalMismatch(TotalHours(entries), hoursWorked))
  {
    SheetWalk(businessDays, hoursWorked, maxHours, annualLeaveTaken, month, year);
    var dates := Dates(year, month, businessDays);
    var workingDays := |businessDays| - annualLeaveTaken;
    AllocateExact(dates, hoursWorked, workingDays, maxHours);
    AllocateConserves(dates, hoursWorked, workingDays, maxHours);
  }

  // ---------------------------------------------------------------------------
  // generate_time_sheet

  /**
   * A month outside 1..12 is refused; otherwise the gates decide, over the
   * month's business days and the cap rounded to half an hour.
   */
  lemma TimeSheetOutcome(hoursWorked: real, maxHoursWorked: real, annualLeaveTaken: int, month: int, year: int)
    ensures !(1 <= month <= 12) ==> TimeSheet(hoursWorked, maxHoursWorked, annualLeaveTaken, month, year) == Err(IllegalMonth(month))
    ensures 1 <= month <= 12 && annualLeaveTaken >= |BusinessDaysOf(year, month)| ==>
      TimeSheet(hoursWorked, maxHoursWorked, annualLeaveTaken, month, year) ==
      Err(NoWorkingDays(annualLeaveTaken, |BusinessDaysOf(year, month)|))
    ensures (1 <= month <= 12 && annualLeaveTaken < |BusinessDaysOf(year, month)| &&
             hoursWorked > Capacity(|BusinessDaysOf(year, month)|, annualLeaveTaken, RoundHalf(maxHoursWorked))) ==>
      TimeSheet(hoursWorked, maxHoursWorked, annualLeaveTaken, month, year) ==
      Err(HoursExceedCapacity(hoursWorked, Capacity(|BusinessDaysOf(year, month)|, annualLeaveTaken, RoundHalf(maxHoursWorked)),
                              hoursWorked - Capacity(|BusinessDaysOf(year, month)|, annualLeaveTaken, RoundHalf(maxHoursWorked))))
    ensures 1 <= month <= 12 ==>
      (TimeSheet(hoursWorked, maxHoursWorked, annualLeaveTaken, month, year).Ok? <==>
       annualLeaveTaken < |BusinessDaysOf(year, month)| &&
       hoursWorked <= Capacity(|BusinessDaysOf(year, month)|, annualLeaveTaken, RoundHalf(maxHoursWorked)))
  {
    if 1 <= month <= 12 {
      SheetOutcome(BusinessDaysOf(year, month), hoursWorked, RoundHalf(maxHoursWorked), annualLeaveTaken, month, year);
    }
  }

  /**
   * The sheet lists the first working-days-many business days of the month
   * (all of them when the leave count is negative), each as its `year-MM-DD`
   * string, in strictly ascending order.
   */
  lemma TimeSheetDates(hoursWorked: real, maxHoursWorked: real, annualLeaveTaken: int, month: int, year: int)
    requires 1 <= month <= 12
    requires TimeSheet(hoursWorked, maxHoursWorked, annualLeaveTaken, month, year).Ok?
    ensures var days := BusinessDaysOf(year, month);
      var entries := TimeSheet(hoursWorked, maxHoursWorked, annualLeaveTaken, month, year).value;
      && |entries| == (if annualLeaveTaken < 0 then |days| else |days| - annualLeaveTaken)
      && (forall i | 0 <= i < |entries| ::
            IsBusinessDay(year, month, days[i]) && entries[i].date == FormatDate(year, month, days[i]))
      && (forall i, j | 0 <= i < j < |entries| :: LexLess(entries[i].date, entries[j].date))
  {
    var days := BusinessDaysOf(year, month);
    forall i | 0 <= i < |days| ensures IsBusinessDay(year, month, days[i]) && 1 <= days[i] <= 31 {
      BusinessDaysOfMembership(year, month, days[i]);
    }
    BusinessDaysAscending(year, month);
    SheetDates(days, hoursWorked, RoundHalf(maxHoursWorked), annualLeaveTaken, month, year);
  }

  /** No day of the sheet is negative or above the cap rounded to half an hour. */
  lemma TimeSheetCapped(hoursWorked: real, maxHoursWorked: real, annualLeaveTaken: int, month: int, year: int)
    requires 1 <= month <= 12 && 0.0 <= hoursWorked
    requires TimeSheet(hoursWorked, maxHoursWorked, annualLeaveTaken, month, year).Ok?
    ensures EntriesCapped(TimeSheet(hoursWorked, maxHoursWorked, annualLeaveTaken, month, year).value, RoundHalf(maxHoursWorked))
  {
    SheetCapped(BusinessDaysOf(year, month), hoursWorked, RoundHalf(maxHoursWorked), annualLeaveTaken, month, year);
  }

  /** The sheet's total is at most the hours worked, and at most a quarter hour less when the leave count is not negative. */
  lemma TimeSheetTotal(hoursWorked: real, maxHoursWorked: real, annualLeaveTaken: int, month: int, year: int)
    requires 1 <= month <= 12 && 0.0 <= hoursWorked
    requires TimeSheet(hoursWorked, maxHoursWorked, annualLeaveTaken, month, year).Ok?
    ensures var total := TotalHours(TimeSheet(hoursWorked, maxHoursWorked, annualLeaveTaken, month, year).value);
      && total <= hoursWorked
      && (0 <= annualLeaveTaken ==> hoursWorked - 0.25 <= total)
  {
    SheetTotal(BusinessDaysOf(year, month), hoursWorked, RoundHalf(maxHoursWorked), annualLeaveTaken, month, year);
  }

  /** Every day but the last is whole half hours; a last day that is not means the sheet books exactly the hours worked. */
  lemma TimeSheetHalfHours(hoursWorked: real, maxHoursWorked: real, annualLeaveTaken: int, month: int, year: int)
    requires 1 <= month <= 12 && 0.0 <= hoursWorked
    requires TimeSheet(hoursWorked, maxHoursWorked, annualLeaveTaken, month, year).Ok?
    ensures var entries := TimeSheet(hoursWorked, maxHoursWorked, annualLeaveTaken, month, year).value;
      && (forall i | 0 <= i < |entries| - 1 :: IsHalfMultiple(entries[i].hours))
      && (entries != [] && !IsHalfMultiple(entries[|entries| - 1].hours) ==> TotalHours(entries) == hoursWorked)
  {
    SheetHalfHours(BusinessDaysOf(year, month), hoursWorked, RoundHalf(maxHoursWorked), annualLeaveTaken, month, year);
  }

  /** Hours worked in whole half hours give a sheet in whole half hours that, without negative leave, books them all. */
  lemma TimeSheetExact(hoursWorked: real, maxHoursWorked: real, annualLeaveTaken: int, month: int, year: int)
    requires 1 <= month <= 12 && 0.0 <= hoursWorked && IsHalfMultiple(hoursWorked)
    requires TimeSheet(hoursWorked, maxHoursWorked, annualLeaveTaken, month, year).Ok?
    ensures var entries := TimeSheet(hoursWorked, maxHoursWorked, annualLeaveTaken, month, year).value;
      && AllHalfHours(entries)
      && (0 <= annualLeaveTaken ==> TotalHours(entries) == hoursWorked && !TotalMismatch(TotalHours(entries), hoursWorked))
  {
    SheetExact(BusinessDaysOf(year, month), hoursWorked, RoundHalf(maxHoursWorked), annualLeaveTaken, month, year);
  }

  // ---------------------------------------------------------------------------
  // The cases of the test suite

  /** February 2024 has 21 business days: 21 days of leave leave none to work. */
  lemma NoWorkingDaysFebruary2024()
    ensures TimeSheet(40.0, 8.0, 21, 2, 2024) == Err(NoWorkingDays(21, 21))
  {
    BusinessDaysFebruary2024();
  }

  /** May 2024 has 23 business days: after 15 days of leave, 8 days of 8 hours cannot hold 74 hours. */
  lemma OverCapacityMay2024()
    ensures TimeSheet(74.0, 8.0, 15, 5, 2024) == Err(HoursExceedCapacity(74.0, 64.0, 10.0))
  {
    BusinessDaysMay2024();
    assert IsHalfMultiple(8.0);
    RoundHalfFixed(8.0);
  }

  /** 40 hours over January 2024 at up to 8 a day: one entry per business day, whole half hours, 40 in all. */
  lemma BasicDistributionJanuary2024()
    ensures var r := TimeSheet(40.0, 8.0, 0, 1, 2024);
      && r.Ok? && |r.value| == 23 && AllHalfHours(r.value) && TotalHours(r.value) == 40.0
  {
    BusinessDaysJanuary2024();
    assert IsHalfMultiple(8.0) && IsHalfMultiple(40.0);
    RoundHalfFixed(8.0);
    TimeSheetDates(40.0, 8.0, 0, 1, 2024);
    TimeSheetExact(40.0, 8.0, 0, 1, 2024);
  }

  /** 40 hours over April 2024 with 5 days of leave: 17 entries, 40 hours in all. */
  lemma AnnualLeaveApril2024()
    ensures var r := TimeSheet(40.0, 8.0, 5, 4, 2024);
      && r.Ok? && |r.value| == 17 && TotalHours(r.value) == 40.0
  {
    BusinessDaysApril2024();
    assert IsHalfMultiple(8.0) && IsHalfMultiple(40.0);
    RoundHalfFixed(8.0);
    TimeSheetDates(40.0, 8.0, 5, 4, 2024);
    TimeSheetExact(40.0, 8.0, 5, 4, 2024);
  }

  /** A cap of 7.7 hours is rounded to 7.5: no day of July 2024 gets more. */
  lemma CapRoundedJuly2024()
    ensures var r := TimeSheet(15.0, 7.7, 0, 7, 2024);
      && r.Ok? && EntriesCapped(r.value, 7.5)
  {
    RoundHalfExamples();
    BusinessDaysCount(2024, 7);
    TimeSheetCapped(15.0, 7.7, 0, 7, 2024);
  }

  /** November 2024 starts on a Friday: the sheet opens with the 1st and then the 4th. */
  lemma WeekendSkippedNovember2024()
    ensures var r := TimeSheet(8.0, 8.0, 0, 11, 2024);
      && r.Ok? && |r.value| >= 2 && r.value[0].date == "2024-11-01" && r.value[1].date == "2024-11-04"
  {
    BusinessDaysNovember2024();
    BusinessDaysCount(2024, 11);
    assert IsHalfMultiple(8.0);
    RoundHalfFixed(8.0);
    TimeSheetDates(8.0, 8.0, 0, 11, 2024);
    FormatDateExamples();
  }

  /**
   * The clamp can leave a day that is not whole half hours: 0.3 hours on the
   * one working day left in February 2024 round up to 0.5, which overshoots,
   * so the day books exactly 0.3.
   */
  lemma ClampedLastDay()
    ensures var r := TimeSheet(0.3, 8.0, 20, 2, 2024);
      && r.Ok? && |r.value| == 1 && r.value[0].hours == 0.3 && !IsHalfMultiple(r.value[0].hours)
  {
    BusinessDaysFebruary2024();
    assert IsHalfMultiple(8.0);
    RoundHalfFixed(8.0);
    assert RoundHalf(0.3) == 0.5 by {
      RoundHalfEvenUnique(0.6, 1);
    }
    var dates := Dates(2024, 2, BusinessDaysOf(2024, 2));
    assert Allocate(dates[1..], 0.0, 0, 8.0).entries == [];
    assert (2.0 * 0.3).Floor == 0;
  }

  /**
   * The total can fall a quarter hour short: 0.25 hours on the single working
   * day of February 2024 round, tie to even, to 0.0, so the day books nothing
   * and the total-mismatch warning fires.
   */
  lemma QuarterHourShort()
    ensures var r := TimeSheet(0.25, 8.0, 20, 2, 2024);
      && r.Ok? && |r.value| == 1 && r.value[0].hours == 0.0 && TotalMismatch(TotalHours(r.value), 0.25)
  {
    BusinessDaysFebruary2024();
    assert IsHalfMultiple(8.0);
    RoundHalfFixed(8.0);
    assert RoundHalf(0.25) == 0.0 by {
      RoundHalfEvenUnique(0.5, 0);
    }
    var dates := Dates(2024, 2, BusinessDaysOf(2024, 2));
    assert Allocate(dates[1..], 0.25, 0, 8.0).entries == [];
  }

  /**
   * A sheet whose days but the last are whole half hours, whose non-half-hour
   * last day means an exact total, and whose total lies within a quarter hour
   * below the hours worked, books them exactly when no whole number of half
   * hours lies in that quarter hour.
   */
  lemma TotalPinned(entries: seq<Entry>, hoursWorked: real, below: real)
    requires forall i | 0 <= i < |entries| - 1 :: IsHalfMultiple(entries[i].hours)
    requires entries != [] && !IsHalfMultiple(entries[|entries| - 1].hours) ==> TotalHours(entries) == hoursWorked
    requires hoursWorked - 0.25 <= TotalHours(entries) <= hoursWorked
    requires IsHalfMultiple(below) && below < hoursWorked - 0.25 && hoursWorked < below + 0.5
    ensures TotalHours(entries) == hoursWorked
  {
    if entries == [] || IsHalfMultiple(entries[|entries| - 1].hours) {
      assert AllHalfHours(entries) by {
        forall i | 0 <= i < |entries|
          ensures IsHalfMultiple(entries[i].hours)
        {
          if i < |entries| - 1 {
            assert IsHalfMultiple(entries[i].hours);
          }
        }
      }
      AllHalfHoursTotal(entries);
      HalfMultipleGap(below, TotalHours(entries));
    }
  }

  /**
   * 15.999 hours over October 2024: every day but the last gets whole half
   * hours, the last day's remainder rounds up, overshoots and is clamped to
   * itself, so the sheet books exactly 15.999 hours, within 0.01 of 16.
   */
  lemma FloatingPointOctober2024()
    ensures var r := TimeSheet(15.999, 8.0, 0, 10, 2024);
      && r.Ok? && TotalHours(r.value) == 15.999
  {
    assert IsHalfMultiple(8.0);
    RoundHalfFixed(8.0);
    BusinessDaysCount(2024, 10);
    TimeSheetOutcome(15.999, 8.0, 0, 10, 2024);
    var entries := TimeSheet(15.999, 8.0, 0, 10, 2024).value;
    TimeSheetTotal(15.999, 8.0, 0, 10, 2024);
    TimeSheetHalfHours(15.999, 8.0, 0, 10, 2024);
    assert IsHalfMultiple(15.5) by { assert (2.0 * 15.5).Floor == 31; }
    TotalPinned(entries, 15.999, 15.5);
  }
}
