# pyscheduler scheduling core, in Dafny

pyscheduler reads a plain-text work breakdown. The plan lists tasks with an
effort in man-days and an assignee, vacation ranges per assignee, and a
project start date. The tool prints a table with each task's start and end
date. This project models the part of `scheduler.py` that has real logic:

- **Calendar** (`calendar.dfy`): ISO weekdays on day ordinals, the weekend
  skip, the vacation skip, and the inner skip loop of `add_days`. The skip
  loop is modelled as `SkipToWorkingDay`, the first working day on or after a
  date. `WorkingDaysIn` is an independent reference that counts the working
  days in a window.
- **Projection** (`projection.dfy`): `add_days` turns a fractional man-day
  offset into a date. It makes `floor(days)` advances for a start boundary and
  `ceil(days) - 1` advances for an end boundary. `AddDays` is the functional
  model and `AddDaysByWalking` is the source's nested loops. Each advance lands
  on the next working day.
- **Scheduler** (`scheduler.dfy`): the `Task` record, `Task.start_date` and
  `Task.end_date`, and `schedule`. `schedule` is the per-assignee running
  total fold. Each task's offset is proved to be the effort of the earlier
  tasks with an identical assignee string.
- **Layout** (`layout.dfy`): display width of characters and strings,
  `format_with_width`, `repeat`, and `find_max_length_of_tasks`.
- **VacationTable** (`vacations.dfy`): the loop in `parse` that expands a
  vacation range into single dates.
- **Scenarios** (`scenarios.dfy`): worked plans with concrete dates.

Dates are proleptic Gregorian ordinals, as `date.toordinal()` numbers them.
Day 1 is 0001-01-01, a Monday, so the ISO weekday is `(d - 1) % 7 + 1`. The
source compares `str(date)` against stored `str(date)` strings, and the ISO
text form is one-to-one, so each assignee's vacations are a `set` of ordinals.
An assignee with no entry has the empty set. Efforts are non-negative exact
`real`s, as the task-line pattern (line 30) admits no sign; offsets are exact
`real`s.

Two consequences of the code's rounding are worth knowing:

- A zero-effort task whose offset `p` is a whole number of at least one
  man-day ends one working day *before* it starts. Its end boundary makes
  `ceil(p) - 1` advances and its start boundary makes `p`.
  `Scheduler.ZeroEffortBoundaries` proves this. For any other offset the two
  boundaries coincide.
- A one-man-day task at offset 0 ends on the project start date, because
  the end boundary of offset 1 makes `ceil(1) - 1 = 0` advances. So an end
  boundary at offset 1 never passes over a vacation on the next day. Only the
  *start* boundary of offset 1, where the next task would begin, passes over
  it. `Scenarios.VacationDayIsSkipped` shows both dates.

## Model

| member | source | states |
|---|---|---|
| `Calendar.SkipWeekend` | scheduler.py:34-41 | A Saturday or Sunday is flagged and moved forward to the next Monday, passing over weekend days only. Monday to Friday come back unchanged and unflagged. |
| `Calendar.SkipVacation` | scheduler.py:44-49 | The flag is set iff the date is one of the assignee's vacation dates, and then the date moves exactly one day. An assignee without an entry, or with an empty one, never skips. |
| `Calendar.SkipToWorkingDay` | scheduler.py:64-69 | The weekend-then-vacation loop terminates. It lands on a working day on or after its start, and every day it passes over is a weekend or vacation day. |
| `Calendar.SkipToWorkingDayIsFirst` | scheduler.py:64-69 | The skip loop returns a date iff that date is the first working day on or after the start (both directions). |
| `Projection.AdvanceCount` | scheduler.py:52-57 | The start-boundary count `i` satisfies `i <= days < i + 1`, so it is the floor. The end-boundary count satisfies `i < days <= i + 1`, so it is the ceiling minus one. |
| `Projection.AdvanceCountAsymmetry` | scheduler.py:52-57 | The two roundings agree on fractional offsets. On whole offsets the end count is one less than the start count. |
| `Projection.Advance` | scheduler.py:59-71 | For `n <= 0` the base date comes back unchanged, even on a weekend or vacation. For `n >= 1` the result is a working day strictly after the base. |
| `Projection.AdvanceCountsWorkingDays` | scheduler.py:59-71 | After `n >= 1` advances, exactly `n` working days lie after the base up to and including the result. |
| `Projection.AdvanceMonotone` | scheduler.py:59-71 | More advances never give an earlier date. At least one more advance gives a strictly later date. |
| `Projection.AdvanceIsNthWorkingDay` | scheduler.py:59-71 | For `n >= 1` the walk returns a date iff that date is the `n`-th working day strictly after the base. |
| `Projection.AddDays` | scheduler.py:51-73 | `add_days` returns the base date when the rounded count is not positive. Otherwise it returns the working day that is the count-th working day after the base. |
| `Projection.SkipLoop` | scheduler.py:64-69 | The source's inner `while True` loop stops on the first working day on or after its start, and agrees with `SkipToWorkingDay`. |
| `Projection.AddDaysByWalking` | scheduler.py:51-73 | The source's nested loops, with the flag overwrite and the early exit, compute the same date as `AddDays`. |
| `Projection.StartNotAfterLaterEnd` | scheduler.py:51-57 | The start boundary of an offset is never after the end boundary of a strictly larger offset. |
| `Projection.EndBoundaryOneWorkingDayBefore` | scheduler.py:51-57 | On a whole offset of at least one, exactly one working day separates the end boundary from the start boundary, counting the start boundary. |
| `Projection.EndBoundaryNotAfterStart` | scheduler.py:51-57 | For any offset, the end boundary is never after the start boundary. They coincide iff the offset is fractional or below one. |
| `Scheduler.StartDate` | scheduler.py:24-25 | A task never starts before the project start. An offset below one starts on the project start date. Any other offset `p` starts on a working day of the assignee that is exactly the `floor(p)`-th working day after the project start. |
| `Scheduler.EndDate` | scheduler.py:27-28 | A task never ends before the project start. An offset plus effort of at most one ends on the project start date. Any other sum `q` ends on a working day of the assignee that is exactly the `(ceil(q) - 1)`-th working day after the project start. |
| `Scheduler.EndNotBeforeStart` | scheduler.py:24-28 | A task with positive effort never ends before it starts. |
| `Scheduler.ZeroEffortBoundaries` | scheduler.py:24-28 | A zero-effort task's end equals its start iff its offset is fractional or below one. Otherwise it ends exactly one working day before it starts. |
| `Scheduler.ScheduleFrom` | scheduler.py:76-81 | From any running totals, each task's offset is its assignee's total plus that assignee's earlier effort in the list. Only `startPoint` changes, and length and order are kept. |
| `Scheduler.Schedule` | scheduler.py:75-81 | Every task's offset is the sum of efforts of the earlier tasks with an identical assignee string. Every other field and the list order are untouched. |
| `Scheduler.ScheduleFirstTaskAtZero` | scheduler.py:78-80 | An assignee's first task gets offset 0. |
| `Scheduler.ScheduleBackToBack` | scheduler.py:80-81 | For consecutive tasks A then B of one assignee, B's offset is A's offset plus A's effort. |
| `Scheduler.ScheduleNoOverlap` | scheduler.py:75-81 | Efforts are never negative (the `ManDays` type), so any earlier task of an assignee ends, in man-days, no later than a later one starts. |
| `Scheduler.BackToBackDates` | scheduler.py:24-28 | For two tasks of one assignee where the second's offset is the first's offset plus its effort, the first ends no later than the second starts. They share a day iff that offset is fractional or below one. |
| `Scheduler.ScheduledNeighboursDoNotOverlap` | scheduler.py:24-28 | After scheduling, a task's end date is no later than the start date of the assignee's next task. |
| `Scheduler.ScheduledNeighboursShareADay` | scheduler.py:24-28 | After scheduling, a task and the assignee's next task share a day iff the next task's offset is fractional or below one. |
| `Layout.CharWidth` | scheduler.py:83-87 | Every character takes one or two columns. |
| `Layout.StrWidth` | scheduler.py:89-94 | A string's width lies between its length and twice its length. It equals the length iff every code point is below 256. |
| `Layout.StrWidthAppend` | scheduler.py:89-94 | Widths add under concatenation. |
| `Layout.FormatWithWidth` | scheduler.py:96-105 | The result is the whole input followed by exactly `max(0, width - StrWidth(input))` spaces, so the input is never truncated. |
| `Layout.FormatWidth` | scheduler.py:96-105 | The padded string is exactly `max(width, StrWidth(input))` columns wide. |
| `Layout.Repeat` | scheduler.py:107-112 | The result is exactly `max(0, cnt)` dashes. |
| `Layout.FindMaxLengthOfTasks` | scheduler.py:139-145 | The result is at least every task name's width and equal to one of them. It is 0 for no tasks. |
| `VacationTable.DaysBetween` | scheduler.py:182-185 | Holds exactly the dates from the first to the last, inclusive. It is empty when the last is before the first. |
| `VacationTable.RecordVacationRange` | scheduler.py:179-185 | The assignee gets an entry even for an empty range, and every date of the range is added to it. Every other assignee is unchanged. |
| `Scenarios.TwoTasksForOneAssignee` | scheduler.py:24-28 | With 2 and 1 man-days for "bob" from Monday 2024-03-04, the offsets are 0 and 2. The dates are Mon–Tue and Wed–Wed. |
| `Scenarios.VacationDayIsSkipped` | scheduler.py:44-49 | A vacation on Tuesday 2024-01-02 leaves a one-day task at offset 0 on Monday. It moves the start of offset 1 to Wednesday. |
| `Scenarios.FridayRollsOverToMonday` | scheduler.py:34-41 | One working day after a Friday is the following Monday. |

## Left out

- Reading the plan file and classifying its lines with regular expressions (`parse`, lines 150-178 and 186-193) is left out because it is text I/O. Tasks arrive as `Task` values, and vacation ranges arrive as ordinal pairs.
- `parse_date` is left out because it wraps `datetime.strptime`. Dates arrive as ordinals.
- The table printing (`pretty_print`, `pretty_print_second_line`, `pretty_print_task`) is left out because it is console output. Only its width helpers are modelled.
- The completion summary (lines 202-214) is left out because it is float arithmetic and printing. It raises `ZeroDivisionError` at line 210 when the selected tasks' total effort is zero: no task matches the `-m` filter, the plan has no tasks, or every selected task has zero effort.
- The command-line handling (`getopt`, `help`, `exit`) is left out because it is process plumbing. So is the fatal error for a missing project start date.
- Efforts are exact reals, not Python floats. Sums of one-decimal floats can differ from the exact sums by rounding, and that is not modelled.
- Dates are unbounded integers. Python's `date` raises `OverflowError` past 9999-12-31, and that is not modelled.
- Scheduler.StartDate: it requires `startPoint` to be set, because the source raises a `TypeError` if a task is projected before `schedule` has run.
- Scheduler.EndDate: it requires `startPoint` to be set, for the same reason as `Scheduler.StartDate`.
- Layout.CharWidth: its contract states only the 1-or-2 range. The exact 256 boundary is stated through `Layout.StrWidth`.
