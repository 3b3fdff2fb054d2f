# Date picker popup: date navigation model

This project models the state machine behind the date picker popup of
`egui_extras`. The popup keeps a persisted working copy of the date being edited:
`year`, `month`, `day` and a `setup` flag. On the first frame of a showing it
copies the bound selection into that copy. Its year, month and day combo boxes,
its six arrow buttons (`<<<`, `«`, `<`, `>`, `>>`, `>>>`) and the cells of its
calendar grid then change the working copy in place. Changing the year or the
month clamps the day to the new month's length. Stepping the day carries into
the month, and stepping the month carries into the year. The close path clears
`setup`, so the next showing copies the selection again.

Two modules:

- `Calendar` (`calendar.dfy`) holds the pure calendar rules.
  - `LastDayOfMonth` states the month length directly with the proleptic
    Gregorian leap-year rule. The popup finds it by probing days 31, 30 and 29;
    `ProbedLastDay` models that probe and `ProbeAgreesWithRule` proves the two agree.
  - A valid date is defined independently of `LastDayOfMonth`, by a common
    year's cumulative day table plus the leap day (`DaysBeforeMonth`, `IsDate`).
  - `DayNumber` numbers all dates consecutively, with 1 January of year 1 as day 1.
    It is the reference definition against which `NextDay` and `PrevDay` are
    proved: they move to the date numbered one higher or one lower, and a date is
    determined by its number.
  - `MonthIndex` numbers months consecutively. It is the reference for
    `NextMonth` and `PrevMonth`.
  - `ClampDay` is specified as the largest valid day of the target month that
    does not exceed the old day.
- `DatePickerPopup` (`popup.dfy`) holds the popup itself.
  - `MonthName` is the three-letter month label. It panics outside 1..12, which
    the model states as a precondition.
  - `DatePickerPopupState` is a class with the source's four fields. It has one
    method per event handler in `draw`. Each method keeps the invariant "once set
    up, the working state is a real date" (`Valid`). The arrow methods and the
    year and month combo methods tie the new date to a `Calendar` function of the
    old one. `Setup`, `SetDay`, `SelectDate` and `Close` give the new fields outright.
  - `Draw` is one frame: setup, then the single event the user produced (`Event`),
    whose effect on the date is the pure function `Apply`.

The live code never writes the bound selection back. The Save button that would
do so is commented out (`egui_extras/src/datepicker/popup.rs:367-395`), so every
edit stays in the working copy and the model has no commit operation. `Draw`
only reads the selection. The same holds for `close`: the live code never sets
it, so the close path (`Close`) is reachable only through the commented-out
buttons. It is modelled anyway, as the reset of the working copy.

`month` and `day` are `u32` in the source and `nat` here. Every `month - 1` and
`day - 1` in the handlers is therefore checked not to go below zero.

## Model

| member | source | states |
|---|---|---|
| `Calendar.LastDayOfMonth` | egui_extras/src/datepicker/popup.rs:16-23 | the result is 28 to 31; it is 29 exactly for February of a leap year, 28 exactly for other Februaries, 30 exactly for April, June, September and November; a day d is valid in the month iff 1 <= d <= result, so the result is the month's largest valid day |
| `Calendar.ProbeAgreesWithRule` | egui_extras/src/datepicker/popup.rs:17-22 | probing days 31, 30, 29 and falling back to 28, as the popup does, gives the same length as the Gregorian rule for every year and month |
| `Calendar.LastDayExamples` | egui_extras/src/datepicker/popup.rs:16-23 | February has 29 days in 2024 and 2000 and 28 in 2023 and 1900; April 2024 has 30 days and January 31 |
| `Calendar.MonthLengthsAddUpToYear` | egui_extras/src/datepicker/popup.rs:16-23 | the twelve month lengths given by the month-length rule add up to the year's length, which is 366 in a leap year and 365 otherwise |
| `Calendar.SumIsDaysBefore` | egui_extras/src/datepicker/popup.rs:16-23 | the lengths of months 1 to k add up to the number of days of the year before month k + 1, so the month-length rule agrees with the cumulative day table |
| `Calendar.NextDay` | egui_extras/src/datepicker/popup.rs:210-218 | the day after a valid date is a valid date |
| `Calendar.NextDayIsSuccessor` | egui_extras/src/datepicker/popup.rs:210-218 | stepping a day forward, with its carry into the month and the year, moves to the date numbered exactly one higher |
| `Calendar.PrevDay` | egui_extras/src/datepicker/popup.rs:194-202 | the day before a valid date is a valid date |
| `Calendar.PrevDayIsPredecessor` | egui_extras/src/datepicker/popup.rs:194-202 | stepping a day back, rolling day 1 to the previous month's last day and 1 January to 31 December of the year before, moves to the date numbered exactly one lower |
| `Calendar.DayNumberInjective` | egui_extras/src/datepicker/popup.rs:194-218 | two valid dates have the same day number iff they are the same date |
| `Calendar.DayStepsInverse` | egui_extras/src/datepicker/popup.rs:194-218 | a day forward then a day back, or a day back then a day forward, returns to the same date |
| `Calendar.NextMonth` | egui_extras/src/datepicker/popup.rs:226-230 | the next month is in 1..12 and its month index is one higher: December rolls to January of the next year |
| `Calendar.PrevMonth` | egui_extras/src/datepicker/popup.rs:180-184 | the previous month is in 1..12 and its month index is one lower: January rolls to December of the year before |
| `Calendar.MonthStepsInverse` | egui_extras/src/datepicker/popup.rs:180-230 | stepping the month forward then back, or back then forward, returns to the same year and month |
| `Calendar.ClampDay` | egui_extras/src/datepicker/popup.rs:92-94 | the clamped day is valid in the target month, not larger than the old day, and no larger day up to the old day is valid: it is the old day or, when that does not exist, the month's last day |
| `Calendar.ClampKeepsValidDay` | egui_extras/src/datepicker/popup.rs:92-94 | clamping leaves the day unchanged iff the day exists in the target month, and clamping twice equals clamping once |
| `Calendar.WithYear` | egui_extras/src/datepicker/popup.rs:166-168 | moving a valid date to another year, with the day clamped, gives a valid date |
| `Calendar.WithMonth` | egui_extras/src/datepicker/popup.rs:118-120 | moving a valid date to another month in 1..12, with the day clamped, gives a valid date |
| `Calendar.ShiftMonthForward` | egui_extras/src/datepicker/popup.rs:226-232 | a month step forward from a valid date gives a valid date |
| `Calendar.ShiftMonthBack` | egui_extras/src/datepicker/popup.rs:180-186 | a month step back from a valid date gives a valid date |
| `Calendar.MonthShiftsMoveOneMonth` | egui_extras/src/datepicker/popup.rs:180-232 | a month step moves the month index by exactly one and keeps the day, unless the target month is shorter, in which case the day becomes that month's last day |
| `Calendar.MonthShiftRoundTrip` | egui_extras/src/datepicker/popup.rs:180-232 | when a month step keeps the day, the opposite step returns to the original date |
| `Calendar.YearChangeRoundTrip` | egui_extras/src/datepicker/popup.rs:240-242 | when moving to another year keeps the day, moving back returns to the original date |
| `Calendar.StepExamples` | egui_extras/src/datepicker/popup.rs:166-242 | 31 Jan 2023 plus a month is 28 Feb 2023 (29 Feb in 2024); 31 Dec 2023 plus a day is 1 Jan 2024; 1 Jan 2023 minus a day is 31 Dec 2022; 1 Mar 2024 minus a day is 29 Feb 2024; 29 Feb 2024 plus a year is 28 Feb 2025 |
| `DatePickerPopup.MonthName` | egui_extras/src/datepicker/popup.rs:410-426 | defined only for months 1..12 (any other value panics); every label has three letters |
| `DatePickerPopup.MonthNameInjective` | egui_extras/src/datepicker/popup.rs:410-425 | two months get the same label iff they are the same month |
| `DatePickerPopup.MonthNamesInCalendarOrder` | egui_extras/src/datepicker/popup.rs:107-114 | the month combo's entries for months 1 to 12 are "Jan" to "Dec" in calendar order |
| `DatePickerPopup.Apply` | egui_extras/src/datepicker/popup.rs:84-351 | every event the popup can produce takes a valid date to a valid date; no input (`Idle`) leaves the date unchanged, and a clicked cell replaces the date with the cell's date |
| `DatePickerPopup.DatePickerPopupState.constructor` | egui_extras/src/datepicker/popup.rs:6-13 | the default state is all zero and not set up |
| `DatePickerPopup.DatePickerPopupState.Setup` | egui_extras/src/datepicker/popup.rs:44-50 | when not set up, copies year, month and day from the selection and sets `setup`; when already set up, changes nothing, whatever the selection |
| `DatePickerPopup.DatePickerPopupState.SetYear` | egui_extras/src/datepicker/popup.rs:84-94 | the year combo takes the chosen year, keeps the month and clamps the day; the state stays valid |
| `DatePickerPopup.DatePickerPopupState.SetMonth` | egui_extras/src/datepicker/popup.rs:110-120 | the month combo takes the chosen month, keeps the year and clamps the day; the state stays valid |
| `DatePickerPopup.DatePickerPopupState.SetDay` | egui_extras/src/datepicker/popup.rs:133-136 | the day combo, offering only 1 to the month's last day, sets the day; year and month unchanged; the state stays valid |
| `DatePickerPopup.DatePickerPopupState.StepYearDown` | egui_extras/src/datepicker/popup.rs:166-168 | one year back, month kept, day clamped (29 February becomes 28 February); the state stays valid |
| `DatePickerPopup.DatePickerPopupState.StepMonthDown` | egui_extras/src/datepicker/popup.rs:180-186 | January goes to December of the year before, any other month to the previous month of the same year; day clamped; the state stays valid |
| `DatePickerPopup.DatePickerPopupState.StepDayDown` | egui_extras/src/datepicker/popup.rs:194-202 | the new date is the day before, numbered one lower; the state stays valid |
| `DatePickerPopup.DatePickerPopupState.StepDayUp` | egui_extras/src/datepicker/popup.rs:210-218 | the new date is the day after, numbered one higher; the state stays valid |
| `DatePickerPopup.DatePickerPopupState.StepMonthUp` | egui_extras/src/datepicker/popup.rs:226-232 | December goes to January of the next year, any other month to the next month of the same year; day clamped; the state stays valid |
| `DatePickerPopup.DatePickerPopupState.StepYearUp` | egui_extras/src/datepicker/popup.rs:240-242 | one year forward, month kept, day clamped; the state stays valid |
| `DatePickerPopup.DatePickerPopupState.SelectDate` | egui_extras/src/datepicker/popup.rs:348-351 | a clicked cell replaces all three fields with the cell's date; the state stays valid |
| `DatePickerPopup.DatePickerPopupState.Close` | egui_extras/src/datepicker/popup.rs:398-399 | clears `setup` and leaves year, month and day untouched |
| `DatePickerPopup.DatePickerPopupState.Draw` | egui_extras/src/datepicker/popup.rs:36-407 | after one frame the state is set up and valid, and the date is the event's effect on the old working date or, on the first frame of a showing, on the selection |

## Left out

- Rendering is not modelled: strip and table layout, widgets, colours, sizes and spacing, hover text, the circle around today, weekday colouring and the dimming of days from other months.
- The keyed persistence store (`get_persisted`, `insert_persisted`) is not modelled. The working state is an object that lives across frames.
- The wall clock is not modelled (`Utc::now()`).
- `DatePickerPopup.DatePickerPopupState.SetYear`: accepts any year. The source's year combo offers only the years from five before to nine after today, and that range depends on the clock.
- The month grid (`month_data`, its weeks and week numbers) is built in another file, which is not part of this model.
- `DatePickerPopup.DatePickerPopupState.SelectDate`: accepts any valid date. The real cells are the dates of the shown grid, and that grid is not modelled.
- `DatePickerPopup.DatePickerPopupState.Draw`: takes every event no matter which widget groups the flags (`combo_boxes`, `arrows`, `calendar`, `calendar_week`) show. It assumes one widget response per frame.
- The commented-out Cancel and Save buttons, and the commit of the working date to the selection, are dead code and are not modelled.
- Hiding the popup button's picker (`picker_visible = false`) on close is not modelled, because it is state of another widget.
- Year range: the model's year is an unbounded integer. chrono represents years only up to about ±262 143. A step past that range makes the source panic inside chrono the next time it builds a date, and the model has no such failure.
- The combo boxes run their clamp only when `selectable_value` reports a change. The model clamps on every pick. When the picked value was already selected, the clamp changes nothing on a valid state, so the result is the same.
