/**
 Tasks and the assignment scheduler: `schedule` lays each assignee's tasks
 back to back along that assignee's own man-day timeline, in list order, and
 `Task.start_date` / `Task.end_date` project a task's two boundaries onto
 the calendar.
 */
module Scheduler {
  import opened Calendar
  import opened Projection

  datatype Option<T> = None | Some(value: T)

  /**
   An effort in man-days. The task-line pattern (scheduler.py line 30)
   admits only digits and one decimal point, so an effort is never negative.
   */
  type ManDays = x: real | x >= 0.0

  /**
   A task line: display name, effort in man-days (at most one fractional
   digit), assignee, percent complete, and the offset along the assignee's
   timeline, which is unset until `schedule` runs.
   */
  datatype Task = Task(name: string, manDay: ManDays, man: string, status: int, startPoint: Option<real>)

  /**
   `Task.start_date`: the start boundary of the task's offset, the
   `floor(offset)`-th working day after the project start.
   */
  function StartDate(t: Task, projectStartDate: Date, vacations: Vacations): (r: Date)
    requires t.startPoint.Some?
    ensures projectStartDate <= r
    ensures t.startPoint.value < 1.0 ==> r == projectStartDate
    ensures t.startPoint.value >= 1.0 ==> IsWorkingDay(vacations, t.man, r)
    ensures t.startPoint.value >= 1.0 ==>
              WorkingDaysIn(vacations, t.man, projectStartDate, r) == t.startPoint.value.Floor
  {
    AdvanceCountAsymmetry(t.startPoint.value);
    AddDays(t.man, projectStartDate, vacations, t.startPoint.value, true)
  }

  /**
   `Task.end_date`: the end boundary of the offset just past the task's
   effort, the `(ceil(offset + effort) - 1)`-th working day after the
   project start.
   */
  function EndDate(t: Task, projectStartDate: Date, vacations: Vacations): (r: Date)
    requires t.startPoint.Some?
    ensures projectStartDate <= r
    ensures t.startPoint.value + t.manDay <= 1.0 ==> r == projectStartDate
    ensures t.startPoint.value + t.manDay > 1.0 ==> IsWorkingDay(vacations, t.man, r)
    ensures t.startPoint.value + t.manDay > 1.0 ==>
              WorkingDaysIn(vacations, t.man, projectStartDate, r) == Ceil(t.startPoint.value + t.manDay) - 1
  {
    AddDays(t.man, projectStartDate, vacations, t.startPoint.value + t.manDay, false)
  }

  /** A task with positive effort never ends before it starts. */
  lemma EndNotBeforeStart(t: Task, projectStartDate: Date, vacations: Vacations)
    requires t.startPoint.Some? && t.manDay > 0.0
    ensures StartDate(t, projectStartDate, vacations) <= EndDate(t, projectStartDate, vacations)
  {
    StartNotAfterLaterEnd(t.man, projectStartDate, vacations, t.startPoint.value, t.startPoint.value + t.manDay);
  }

  /**
   A zero-effort task ends one working day before it starts when its offset
   is a whole number of at least one man-day; otherwise both boundaries
   coincide.
   */
  lemma ZeroEffortBoundaries(t: Task, projectStartDate: Date, vacations: Vacations)
    requires t.startPoint.Some? && t.manDay == 0.0
    ensures var p := t.startPoint.value;
            EndDate(t, projectStartDate, vacations) == StartDate(t, projectStartDate, vacations)
            <==> (p.Floor as real != p || p < 1.0)
    ensures var p := t.startPoint.value;
            p.Floor as real == p && p >= 1.0 ==>
            WorkingDaysIn(vacations, t.man, EndDate(t, projectStartDate, vacations),
                          StartDate(t, projectStartDate, vacations)) == 1
  {
    var p := t.startPoint.value;
    EndBoundaryNotAfterStart(t.man, projectStartDate, vacations, p);
    if p.Floor as real == p && p >= 1.0 {
      EndBoundaryOneWorkingDayBefore(t.man, projectStartDate, vacations, p);
    }
  }

  /** The effort of the tasks in `tasks` assigned to exactly `man`. */
  function EffortOf(tasks: seq<Task>, man: string): real
    decreases |tasks|
  {
    if |tasks| == 0 then 0.0
    else (if tasks[0].man == man then tasks[0].manDay else 0.0) + EffortOf(tasks[1..], man)
  }

  lemma {:induction false} EffortOfAppend(a: seq<Task>, b: seq<Task>, man: string)
    ensures EffortOf(a + b, man) == EffortOf(a, man) + EffortOf(b, man)
    decreases |a|
  {
    if |a| > 0 {
      assert (a + b)[1..] == a[1..] + b;
      EffortOfAppend(a[1..], b, man);
    } else {
      assert a + b == b;
    }
  }

  lemma {:induction false} EffortOfOthers(tasks: seq<Task>, man: string)
    requires forall k :: 0 <= k < |tasks| ==> tasks[k].man != man
    ensures EffortOf(tasks, man) == 0.0
    decreases |tasks|
  {
    if |tasks| > 0 {
      EffortOfOthers(tasks[1..], man);
    }
  }

  lemma {:induction false} EffortOfNonNegative(tasks: seq<Task>, man: string)
    ensures EffortOf(tasks, man) >= 0.0
    decreases |tasks|
  {
    if |tasks| > 0 {
      EffortOfNonNegative(tasks[1..], man);
    }
  }

  /** The running total of an assignee; one not seen yet stands at zero. */
  function Total(totals: map<string, real>, man: string): real
  {
    if man in totals then totals[man] else 0.0
  }

  /**
   `r` is `tasks` with each offset filled in from the running `totals`: a
   task's offset is its assignee's total plus the effort of that assignee's
   earlier tasks in `tasks`; nothing else about a task changes, and the order
   is kept.
   */
  ghost predicate ScheduledFrom(tasks: seq<Task>, totals: map<string, real>, r: seq<Task>)
  {
    && |r| == |tasks|
    && forall i :: 0 <= i < |tasks| ==>
         r[i] == tasks[i].(startPoint := Some(Total(totals, tasks[i].man) + EffortOf(tasks[..i], tasks[i].man)))
  }

  /** The loop of `schedule` from some point on, with the running totals reached so far. */
  function ScheduleFrom(tasks: seq<Task>, totals: map<string, real>): (r: seq<Task>)
    ensures ScheduledFrom(tasks, totals, r)
    decreases |tasks|
  {
    if |tasks| == 0 then
      []
    else
      var t := tasks[0];
      var current := if t.man in totals && totals[t.man] != 0.0 then totals[t.man] else 0.0;
      var next := totals[t.man := current + t.manDay];
      var rest := ScheduleFrom(tasks[1..], next);
      ScheduleStep(tasks, totals, current, next, rest);
      [t.(startPoint := Some(current))] + rest
  }

  lemma ScheduleStep(tasks: seq<Task>, totals: map<string, real>, current: real, next: map<string, real>, rest: seq<Task>)
    requires |tasks| > 0 && current == Total(totals, tasks[0].man)
    requires next == totals[tasks[0].man := current + tasks[0].manDay]
    requires ScheduledFrom(tasks[1..], next, rest)
    ensures ScheduledFrom(tasks, totals, [tasks[0].(startPoint := Some(current))] + rest)
  {
    var r := [tasks[0].(startPoint := Some(current))] + rest;
    forall i | 0 <= i < |tasks|
      ensures r[i] == tasks[i].(startPoint := Some(Total(totals, tasks[i].man) + EffortOf(tasks[..i], tasks[i].man)))
    {
      if i > 0 {
        assert tasks[..i][1..] == tasks[1..][..i - 1];
        assert r[i] == rest[i - 1];
      }
    }
  }

  /**
   `schedule`: every task's offset is the effort of the earlier tasks with an
   identical assignee string; name, effort, assignee, status and list order
   are untouched.
   */
  function Schedule(tasks: seq<Task>): (r: seq<Task>)
    ensures |r| == |tasks|
    ensures forall i :: 0 <= i < |tasks| ==>
              r[i] == tasks[i].(startPoint := Some(EffortOf(tasks[..i], tasks[i].man)))
  {
    ScheduleFrom(tasks, map[])
  }

  /** The first task of an assignee starts at offset zero. */
  lemma ScheduleFirstTaskAtZero(tasks: seq<Task>, i: int)
    requires 0 <= i < |tasks|
    requires forall k :: 0 <= k < i ==> tasks[k].man != tasks[i].man
    ensures Schedule(tasks)[i].startPoint == Some(0.0)
  {
    EffortOfOthers(tasks[..i], tasks[i].man);
  }

  /**
   Consecutive tasks A then B of one assignee are back to back: B starts
   where A's effort runs out.
   */
  lemma ScheduleBackToBack(tasks: seq<Task>, i: int, j: int)
    requires 0 <= i < j < |tasks|
    requires tasks[i].man == tasks[j].man
    requires forall k :: i < k < j ==> tasks[k].man != tasks[i].man
    ensures Schedule(tasks)[j].startPoint.value == Schedule(tasks)[i].startPoint.value + tasks[i].manDay
  {
    var m := tasks[i].man;
    assert tasks[..j] == tasks[..i] + [tasks[i]] + tasks[i + 1..j];
    EffortOfAppend(tasks[..i] + [tasks[i]], tasks[i + 1..j], m);
    EffortOfAppend(tasks[..i], [tasks[i]], m);
    EffortOfOthers(tasks[i + 1..j], m);
  }

  /**
   The intervals `[offset, offset + effort)` of one assignee's tasks never
   overlap and follow list order.
   */
  lemma ScheduleNoOverlap(tasks: seq<Task>, i: int, j: int)
    requires 0 <= i < j < |tasks|
    requires tasks[i].man == tasks[j].man
    ensures Schedule(tasks)[i].startPoint.value + tasks[i].manDay <= Schedule(tasks)[j].startPoint.value
  {
    var m := tasks[i].man;
    assert tasks[..j] == tasks[..i] + [tasks[i]] + tasks[i + 1..j];
    EffortOfAppend(tasks[..i] + [tasks[i]], tasks[i + 1..j], m);
    EffortOfAppend(tasks[..i], [tasks[i]], m);
    EffortOfNonNegative(tasks[i + 1..j], m);
  }

  /**
   Two tasks of one assignee where the second starts where the first's
   effort runs out: the first ends no later than the second starts, on the
   same day exactly when the second's offset is fractional or below one.
   */
  lemma BackToBackDates(a: Task, b: Task, projectStartDate: Date, vacations: Vacations)
    requires a.startPoint.Some? && b.startPoint.Some? && a.man == b.man
    requires b.startPoint.value == a.startPoint.value + a.manDay
    ensures EndDate(a, projectStartDate, vacations) <= StartDate(b, projectStartDate, vacations)
    ensures var p := b.startPoint.value;
            EndDate(a, projectStartDate, vacations) == StartDate(b, projectStartDate, vacations)
            <==> (p.Floor as real != p || p < 1.0)
  {
  }

  /** On the calendar, a task ends no later than the next task of the same assignee starts. */
  lemma ScheduledNeighboursDoNotOverlap(tasks: seq<Task>, i: int, j: int, projectStartDate: Date, vacations: Vacations)
    requires 0 <= i < j < |tasks|
    requires tasks[i].man == tasks[j].man
    requires forall k :: i < k < j ==> tasks[k].man != tasks[i].man
    ensures var r := Schedule(tasks);
            EndDate(r[i], projectStartDate, vacations) <= StartDate(r[j], projectStartDate, vacations)
  {
    var r := Schedule(tasks);
    ScheduleBackToBack(tasks, i, j);
    BackToBackDates(r[i], r[j], projectStartDate, vacations);
  }

  /**
   A task and the next task of the same assignee share a calendar day exactly
   when the second task's offset is fractional or below one man-day.
   */
  lemma ScheduledNeighboursShareADay(tasks: seq<Task>, i: int, j: int, projectStartDate: Date, vacations: Vacations)
    requires 0 <= i < j < |tasks|
    requires tasks[i].man == tasks[j].man
    requires forall k :: i < k < j ==> tasks[k].man != tasks[i].man
    ensures var r := Schedule(tasks);
            var p := r[j].startPoint.value;
            EndDate(r[i], projectStartDate, vacations) == StartDate(r[j], projectStartDate, vacations)
            <==> (p.Floor as real != p || p < 1.0)
  {
    var r := Schedule(tasks);
    ScheduleBackToBack(tasks, i, j);
    BackToBackDates(r[i], r[j], projectStartDate, vacations);
  }
}
