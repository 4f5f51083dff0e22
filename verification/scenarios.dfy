/**
 Worked plans, with dates as ordinals:
 738886 = 2024-01-01 (Monday), 738887 = 2024-01-02, 738888 = 2024-01-03,
 738949 = 2024-03-04 (Monday), 738950 = 2024-03-05, 738951 = 2024-03-06,
 738953 = 2024-03-08 (Friday), 738956 = 2024-03-11 (Monday).
 */
module Scenarios {
  import opened Calendar
  import opened Projection
  import opened Scheduler

  /**
   Two tasks for "bob" (2 and 1 man-days) from Monday 2024-03-04: the first
   runs Monday to Tuesday, the second starts and ends on Wednesday.
   */
  lemma TwoTasksForOneAssignee()
    ensures var r := Schedule([Task("task1", 2.0, "bob", 50, None), Task("task2", 1.0, "bob", 0, None)]);
            && r[0].startPoint == Some(0.0) && r[1].startPoint == Some(2.0)
            && StartDate(r[0], 738949, map[]) == 738949 && EndDate(r[0], 738949, map[]) == 738950
            && StartDate(r[1], 738949, map[]) == 738951 && EndDate(r[1], 738949, map[]) == 738951
  {
    var tasks := [Task("task1", 2.0, "bob", 50, None), Task("task2", 1.0, "bob", 0, None)];
    assert tasks[..1] == [tasks[0]];
    var r := Schedule(tasks);
    assert r[0].startPoint == Some(0.0) && r[1].startPoint == Some(2.0);
    assert AdvanceCount(0.0, true) == 0 && AdvanceCount(2.0, false) == 1;
    assert AdvanceCount(2.0, true) == 2 && AdvanceCount(3.0, false) == 2;
    assert SkipToWorkingDay(map[], "bob", 738950) == 738950;
    assert SkipToWorkingDay(map[], "bob", 738951) == 738951;
    assert Advance(map[], "bob", 738949, 1) == 738950;
    assert Advance(map[], "bob", 738949, 2) == 738951;
  }

  /**
   "alice" is away on Tuesday 2024-01-02. A one-man-day task at offset 0
   from Monday 2024-01-01 starts and ends on that Monday; whatever starts
   at offset 1 passes over the vacation day to Wednesday.
   */
  lemma VacationDayIsSkipped()
    ensures var t := Task("t", 1.0, "alice", 0, Some(0.0));
            var vacations := map["alice" := {738887}];
            && StartDate(t, 738886, vacations) == 738886
            && EndDate(t, 738886, vacations) == 738886
            && AddDays("alice", 738886, vacations, 1.0, true) == 738888
  {
    var vacations := map["alice" := {738887}];
    assert AdvanceCount(1.0, true) == 1 && AdvanceCount(1.0, false) == 0;
    assert SkipWeekend(738887) == (false, 738887);
    assert SkipWeekend(738888) == (false, 738888);
    assert SkipToWorkingDay(vacations, "alice", 738888) == 738888;
    assert SkipToWorkingDay(vacations, "alice", 738887) == 738888;
    assert Advance(vacations, "alice", 738886, 1) == SkipToWorkingDay(vacations, "alice", 738887);
  }

  /** One working day after a Friday is the following Monday. */
  lemma FridayRollsOverToMonday()
    ensures AddDays("carol", 738953, map[], 1.0, true) == 738956
  {
    assert AdvanceCount(1.0, true) == 1;
    assert IsoWeekday(738954) == 6;
    assert SkipWeekend(738954) == (true, 738956);
    assert SkipToWorkingDay(map[], "carol", 738954) == 738956;
    assert Advance(map[], "carol", 738953, 1) == SkipToWorkingDay(map[], "carol", 738954);
  }
}
