# Time sheet generator: the hour distribution, in Dafny

This project models `TimeSheetGenerator` in `time_sheets/generator.py`. The generator spreads the hours worked in a month over that month's business days. Each day's hours are rounded to half an hour and stay under a per-day cap. The project proves what the generator promises about the sheet it returns.

The model has these parts:

- `HalfHour` (rounding.dfy) is `round_to_half_hour`. Python's `round` rounds ties to even, and the model does the same on exact reals.
- `Calendar` (calendar.dfy) provides the calendar facts that `_calculate_business_days` needs from Python's `calendar.monthcalendar`: the Gregorian leap-year rule, the month lengths and the day of the week. It also builds the week matrix (`MonthCalendar`) from them.
- `BusinessDaysOf` is the list of Monday-to-Friday days of a month, as a function.
- `Text` (text.dfy) is `_format_date`: `year-MM-DD`, with the year written as Python's `str` writes it.
- `Generator` (generator.dfy) holds the two feasibility gates, `_calculate_day_hours`, and the allocation loop of `generate_time_sheet` as a fold (`Allocate`). It also holds the two looping operations as Dafny methods:
  - `BusinessDays` walks the week matrix.
  - `GenerateTimeSheet` uses `FormatDates` and `DistributeHours`.

  Each method is proved to compute its specification function, `BusinessDaysOf` or `TimeSheet`.
- `TimeSheetFacts` (sheet.dfy) states what the returned sheet satisfies. Each property is stated twice: once for any list of business days (`SheetFrom`), and once for `TimeSheet` itself. The lemmas also cover the cases of the repository's test suite.

The generator class keeps no state; its constructor does nothing. Its methods are therefore module-level members. Hours are `real`. The year is a parameter.

Code and design disagree in four places. The model follows the code in all four:

- When the hours worked are not whole half hours, the last entry can be a fraction that is not a multiple of 0.5. The code rounds the last day and then clamps it to what remains (`ClampedLastDay`: 0.3 hours on one working day books 0.3). The design says every entry is a multiple of 0.5. The model proves that claim for every entry but the last, and for all entries when the hours worked are whole half hours.
- The total can fall short of the hours worked by up to a quarter hour, beyond the design's 0.01 tolerance, with no negative leave involved. The last day rounds the remainder to half hours, and a remainder of a quarter hour can round down (`QuarterHourShort`: 0.25 hours on one working day round, tie to even, to 0.0, so the day books nothing and the total-mismatch warning fires). `TimeSheetTotal` bounds the shortfall by 0.25 hours whenever the hours worked and the leave are non-negative.
- A negative leave count is not rejected. It makes more working days than business days, so the loop stops when the business days run out, not after the promised number of working days. The total can then fall short of the hours worked by more than a quarter hour.
- The design promises dates as `YYYY-MM-DD`, but the code writes the year with `str`, without padding: year 999 gives `999-01-05` (`UnpaddedYear`), and a negative year gets a leading `-`. `FormatDateLayout` states the layout the code produces: the year as `str` writes it, then the two-digit month and day.

Going the other way, the code's last day is not capped. Under the capacity gate it still never exceeds the cap (`TimeSheetCapped`). The design allows it to.

## Model

| member | source | states |
|---|---|---|
| HalfHour.RoundHalf | time_sheets/generator.py:9-11 | the result is a whole number of half hours within a quarter hour of the input |
| HalfHour.RoundHalfEvenUnique | time_sheets/generator.py:11 | the nearest integer, ties to even, is the only integer within one half with an even tie-break (Python's `round`) |
| HalfHour.RoundHalfFixed | time_sheets/generator.py:9-11 | rounding leaves a whole number of half hours unchanged |
| HalfHour.RoundHalfMonotone | time_sheets/generator.py:9-11 | rounding never reverses the order of two values |
| HalfHour.RoundHalfBetween | time_sheets/generator.py:9-11 | a value between two half-hour bounds rounds to a value between them |
| HalfHour.RoundHalfNonNegative | time_sheets/generator.py:9-11 | a non-negative value rounds to a non-negative value |
| HalfHour.RoundHalfExamples | time_sheets/generator.py:9-11 | the values the test suite expects: 2.3→2.5, 2.1→2.0, 2.5→2.5, 2.7→2.5, 2.8→3.0, and a 7.7 cap→7.5 |
| Calendar.IsLeapYear | time_sheets/generator.py:32 | the Gregorian leap-year rule that `monthcalendar` applies to February; `DaysInMonth` states that February has 29 days exactly in the years it accepts |
| Calendar.DaysInMonth | time_sheets/generator.py:32 | a month has 28 to 31 days; February has 29 exactly in leap years; April, June, September and November have 30 |
| Calendar.Weekday | time_sheets/generator.py:32 | the day of the week lies in 0..6, Monday = 0 |
| Calendar.WeekdayNextDay | time_sheets/generator.py:32 | the next calendar day, across month and year ends, falls on the next day of the week |
| Calendar.WeekdayAnchors | time_sheets/generator.py:32 | 1 January of year 1 and 1 January 2024 are Mondays |
| Calendar.WeekdayInMonth | time_sheets/generator.py:32 | day d of a month falls d − 1 weekdays after the 1st |
| Calendar.MonthCalendar | time_sheets/generator.py:32 | the week matrix: rows of seven cells; each cell holds its day or 0 for padding; just enough rows to cover the month |
| Calendar.MonthCalendarColumns | time_sheets/generator.py:32 | a non-zero cell's column is the weekday of the day it holds |
| Calendar.MonthCalendarPlacement | time_sheets/generator.py:32 | every day of the month is shown, in the cell at its reading position, in its weekday's column |
| Calendar.MonthCalendarDistinct | time_sheets/generator.py:32 | no day of the month is shown in two cells |
| Calendar.BusinessDaysOf | time_sheets/generator.py:21-41 | the month's business days as a function; `BusinessDaysOfMembership` and `BusinessDaysAscending` state that it lists exactly the Monday-to-Friday days of the month in ascending order, and `Generator.BusinessDays` is proved to compute it |
| Calendar.BusinessDaysOfMembership | time_sheets/generator.py:21-41 | a day is listed exactly when it lies in the month and falls Monday to Friday |
| Calendar.BusinessDaysAscending | time_sheets/generator.py:35-39 | the business days are listed in strictly ascending order |
| Calendar.MonthCalendarWorkdays | time_sheets/generator.py:35-39 | reading the week matrix row by row, Monday-to-Friday columns only and padding skipped, gives exactly the business days |
| Calendar.BusinessDaysCount | time_sheets/generator.py:21-41 | every month has 20 to 23 business days; a 28-day February has exactly 20 |
| Calendar.BusinessDaysJanuary2024 | time_sheets/generator.py:21-41 | January 2024 has 23 business days |
| Calendar.BusinessDaysFebruary2024 | time_sheets/generator.py:21-41 | February 2024 has 21 business days |
| Calendar.BusinessDaysApril2024 | time_sheets/generator.py:21-41 | April 2024 has 22 business days |
| Calendar.BusinessDaysMay2024 | time_sheets/generator.py:21-41 | May 2024 has 23 business days |
| Calendar.BusinessDaysNovember2024 | time_sheets/generator.py:35-39 | November 2024 starts on a Friday: its first business days are the 1st and the 4th |
| Generator.BusinessDays | time_sheets/generator.py:21-41 | the nested loop over weeks and weekday columns returns exactly the month's business days |
| Text.NatToDecimalRoundTrip | time_sheets/generator.py:43-45 | a natural number's decimal rendering is all digits and reads back as the number |
| Text.IntToDecimalRoundTrip | time_sheets/generator.py:43-45 | an integer's rendering (leading `-` when negative) parses back as the integer |
| Text.Pad2Digits | time_sheets/generator.py:45 | below 100, `02d` padding gives exactly the tens digit and the units digit |
| Text.FormatDate | time_sheets/generator.py:43-45 | `year-MM-DD`; `FormatDateLayout` states the layout and that each field reads back as the year, month and day, and `FormatDateAscending` that later days give later strings |
| Text.FormatDateLayout | time_sheets/generator.py:43-45 | the date string is the year, `-`, two digits reading back as the month, `-`, two digits reading back as the day |
| Text.FormatDateAscending | time_sheets/generator.py:43-45 | within a month, a later day gives a lexicographically later date string |
| Text.FormatDateExamples | time_sheets/generator.py:43-45 | the test suite's dates: 2024-11-01, 2024-11-04, 2024-01-15 |
| Text.UnpaddedYear | time_sheets/generator.py:43-45 | the year is written as `str` writes it, without padding: day 5 of January 999 is `999-01-05` |
| Generator.ValidateWorkingDays | time_sheets/generator.py:47-71 | succeeds exactly when the leave is fewer than the business days; the working days are then positive and add up with the leave to the business days; otherwise the error names both counts |
| Generator.ValidateHoursDistribution | time_sheets/generator.py:73-95 | passes exactly when the hours fit in working days × cap; otherwise the error carries the hours, that ceiling and a positive excess that adds up with the ceiling to the hours |
| Generator.DayHours | time_sheets/generator.py:97-134 | one day's hours; `DayHoursSpec` states them: whole half hours, within a quarter hour of the remainder on the last day and of the capped even share before it, and never above a half-hour cap before the last day |
| Generator.DayHoursSpec | time_sheets/generator.py:97-134 | a day's hours are whole half hours, within a quarter hour of the remainder (last day) or of the capped even share (other days), and never above a half-hour cap |
| Generator.RoundingAdjusted | time_sheets/generator.py:121 | the condition of the final-day notice; `RoundingAdjustedIff` states that it holds exactly when the remainder is not whole half hours |
| Generator.RoundingAdjustedIff | time_sheets/generator.py:116-126 | the final day's adjustment notice fires exactly when the remainder is not whole half hours |
| Generator.Settle | time_sheets/generator.py:208-215 | the clamp: booked plus left equals what remained; nothing negative is left; the day keeps its hours unless they exceed what remained, and then gets exactly what remained |
| Generator.ShareStep | time_sheets/generator.py:127-132 | a day that is not the last, from a state within capacity: its share is whole half hours, at most the cap and at most what remains (the clamp does not fire), and the remaining days can still hold the rest |
| Generator.ShareRounding | time_sheets/generator.py:127-132 | the even share is at most the cap; rounding moves it by at most a quarter hour and never above the cap |
| Generator.EvenShare | time_sheets/generator.py:129 | the even share of n ≥ 2 days is at most the cap, and what is left after it fits in the other n − 1 days |
| Generator.LastStep | time_sheets/generator.py:116-118 | the last day books between 0 and the cap and leaves at most a quarter hour; its hours are whole half hours or nothing is left; a whole-half-hour remainder is booked exactly |
| Generator.Allocate | time_sheets/generator.py:190-218 | the booking loop as a fold over the dates; `AllocateEntries`, `AllocateConserves`, `AllocateWithinCap`, `AllocateLeftover`, `AllocateHalfHours` and `AllocateExact` state its behaviour, and `DistributeHours` is proved to compute it |
| Generator.TotalHours | time_sheets/generator.py:221 | the sum of the entries' hours; `AllocateConserves` states that it plus the hours still unbooked is the hours worked |
| Generator.AllHalfHoursTotal | time_sheets/generator.py:221 | entries in whole half hours add up to whole half hours |
| Generator.TotalMismatch | time_sheets/generator.py:136-143 | the condition of the total-allocation warning; `SheetExact` states that it stays false for whole-half-hour inputs, and `QuarterHourShort` shows it firing |
| Generator.AllocateEntries | time_sheets/generator.py:190-218 | the loop makes one entry per visited business day, in order: as many entries as the smaller of the days and the working days |
| Generator.AllocateConserves | time_sheets/generator.py:190-218 | no hour is lost or invented: the entries' total plus what remains equals the hours worked |
| Generator.AllocateWithinCap | time_sheets/generator.py:190-218 | from a state within capacity, every entry lies between 0 and the cap |
| Generator.AllocateLeftover | time_sheets/generator.py:190-218 | from a state within capacity, what remains is never negative, and at most a quarter hour once the last working day is reached |
| Generator.AllocateHalfHours | time_sheets/generator.py:190-218 | every entry is whole half hours except possibly the last, and then nothing remains |
| Generator.AllocateExact | time_sheets/generator.py:190-218 | from whole half hours, every entry is whole half hours and, once the last working day is reached, nothing remains |
| Generator.FormatDates | time_sheets/generator.py:199-200 | the date string of each business day, in order |
| Generator.DistributeHours | time_sheets/generator.py:189-218 | the imperative loop, with its break, its clamp and its appends, yields exactly the entries of the fold `Allocate` |
| Generator.TimeSheet | time_sheets/generator.py:145-224 | `generate_time_sheet` as a function; `TimeSheetOutcome`, `TimeSheetDates`, `TimeSheetCapped`, `TimeSheetTotal`, `TimeSheetHalfHours` and `TimeSheetExact` state its behaviour, and `GenerateTimeSheet` is proved to compute it |
| Generator.SheetFrom | time_sheets/generator.py:176-218 | `generate_time_sheet` once the business days are known; `SheetOutcome`, `SheetWalk`, `SheetDates`, `SheetCapped`, `SheetTotal`, `SheetHalfHours` and `SheetExact` state its behaviour for any list of business days |
| Generator.GenerateTimeSheet | time_sheets/generator.py:145-224 | the method returns exactly `TimeSheet`: the cap rounding, the month check, both gates in order, then the allocation |
| TimeSheetFacts.SheetOutcome | time_sheets/generator.py:176-187 | for any business-day list: no working day gives NoWorkingDays; hours over capacity give HoursExceedCapacity with that ceiling and excess; a sheet exactly when both gates pass |
| TimeSheetFacts.TimeSheetOutcome | time_sheets/generator.py:145-187 | a month outside 1..12 is refused; otherwise the same three-way outcome over the month's business days and the rounded cap |
| TimeSheetFacts.SheetWalk | time_sheets/generator.py:184-218 | past the gates, the sheet is the allocation walk started within capacity, with at least one working day |
| TimeSheetFacts.SheetDates | time_sheets/generator.py:190-218 | for ascending days in 1..31: one entry per working day (per business day when the leave is negative), dated in order, with strictly ascending date strings |
| TimeSheetFacts.TimeSheetDates | time_sheets/generator.py:145-224 | the sheet lists the first working-days-many business days of the month, each a Monday-to-Friday day of the month written `year-MM-DD`, strictly ascending |
| TimeSheetFacts.SheetCapped | time_sheets/generator.py:190-218 | no entry is negative or above the cap |
| TimeSheetFacts.TimeSheetCapped | time_sheets/generator.py:174-218 | no entry is negative or above the cap rounded to half an hour, the last day included |
| TimeSheetFacts.SheetTotal | time_sheets/generator.py:190-224 | the total booked is at most the hours worked, and at most a quarter hour less unless the leave is negative |
| TimeSheetFacts.TimeSheetTotal | time_sheets/generator.py:145-224 | the sheet's total is at most the hours worked, and at most a quarter hour less unless the leave is negative |
| TimeSheetFacts.SheetHalfHours | time_sheets/generator.py:190-218 | every entry but the last is whole half hours; a last entry that is not means the total equals the hours worked |
| TimeSheetFacts.TimeSheetHalfHours | time_sheets/generator.py:145-224 | every entry but the last is whole half hours; a last entry that is not means the sheet books exactly the hours worked |
| TimeSheetFacts.SheetExact | time_sheets/generator.py:190-224 | from whole half hours: every entry is whole half hours, and unless the leave is negative the total is exactly the hours worked, so the mismatch warning is silent |
| TimeSheetFacts.TimeSheetExact | time_sheets/generator.py:136-143 | hours in whole half hours give a sheet in whole half hours that, unless the leave is negative, books them all, so the mismatch warning never fires |
| TimeSheetFacts.NoWorkingDaysFebruary2024 | time_sheets/generator.py:63-69 | 21 days of leave in February 2024 leave no working day |
| TimeSheetFacts.OverCapacityMay2024 | time_sheets/generator.py:87-95 | 74 hours over the 8 working days of May 2024 left after 15 days of leave exceed the 64-hour ceiling by 10 |
| TimeSheetFacts.BasicDistributionJanuary2024 | time_sheets/generator.py:145-224 | 40 hours over January 2024: 23 entries in whole half hours totalling 40 |
| TimeSheetFacts.AnnualLeaveApril2024 | time_sheets/generator.py:145-224 | 40 hours over April 2024 with 5 days of leave: 17 entries totalling 40 |
| TimeSheetFacts.CapRoundedJuly2024 | time_sheets/generator.py:174 | a 7.7-hour cap becomes 7.5: no day of July 2024 gets more |
| TimeSheetFacts.WeekendSkippedNovember2024 | time_sheets/generator.py:190-218 | with 8 hours worked and no leave, the November 2024 sheet opens with 2024-11-01 and then 2024-11-04, skipping the weekend |
| TimeSheetFacts.ClampedLastDay | time_sheets/generator.py:208-215 | 0.3 hours on the single working day of February 2024 round to 0.5, overshoot, and are clamped to an entry of 0.3, which is not whole half hours |
| TimeSheetFacts.FloatingPointOctober2024 | time_sheets/generator.py:208-222 | with 15.999 hours and no leave, the October 2024 sheet is produced and books exactly 15.999 hours: the last day's remainder rounds up, overshoots and is clamped to itself |
| TimeSheetFacts.QuarterHourShort | time_sheets/generator.py:116-143 | 0.25 hours on the single working day of February 2024 round, tie to even, to 0.0: the one entry is 0.0 and the total-mismatch condition holds |

## Left out

- Console output is not modelled: the final-day notice (time_sheets/generator.py:121-126) and the total-mismatch warning (136-143) print and change nothing. Their conditions are modelled as `RoundingAdjusted` and `TotalMismatch`.
- The default year taken from the clock (time_sheets/generator.py:170-171) is left out. The year is always a parameter.
- Hours are exact reals, not IEEE doubles: the binary rounding of decimal inputs and of sums is not modelled.
- Python's `calendar` library is not part of this model. `Calendar` recomputes `monthcalendar` from the proleptic Gregorian rules for every integer year.
- `cli.py` and its argument parsing are not part of this model.
- The explicit leave-day parsing and validation that the test suite exercises are not in `time_sheets/generator.py`. They are not part of this model.
- `GenerateTimeSheet` formats all business-day dates before the loop (`FormatDates`) rather than one per pass. Formatting has no effect on the allocation, so the returned sheet is the same.
- TimeSheetFacts.TimeSheetCapped is stated only for non-negative hours worked. The source accepts a negative total, which passes the capacity gate and books negative entries, below the cap's lower bound of 0.
- TimeSheetFacts.TimeSheetTotal is stated only for non-negative hours worked. The allocator's domain is non-negative hours: its proofs start from `WithinCapacity`, which needs at least zero hours remaining. The property is not proved for negative totals, which the source accepts.
- TimeSheetFacts.TimeSheetHalfHours is stated only for non-negative hours worked, because its proof also starts from `WithinCapacity`.
- TimeSheetFacts.TimeSheetExact is stated only for non-negative hours worked, because its proof also starts from `WithinCapacity`.
