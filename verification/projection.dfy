/**
 The date projector: `add_days` turns a fractional man-day offset into a
 calendar date by walking forward from the project start date one working
 day at a time.
 */
module Projection {
  import opened Calendar

  /** Python's `math.ceil`, on an exact real. */
  function Ceil(x: real): (c: int)
    ensures x <= c as real < x + 1.0
  {
    if x.Floor as real == x then x.Floor else x.Floor + 1
  }

  /**
   The number of single-day advances `add_days` makes for an offset of
   `days`: a start boundary lies `floor(days)` working days after the start
   date, an end boundary `ceil(days) - 1`.
   */
  function AdvanceCount(days: real, isStartDate: bool): (idx: int)
    ensures isStartDate ==> idx as real <= days < idx as real + 1.0
    ensures !isStartDate ==> idx as real < days <= idx as real + 1.0
  {
    var idx := Ceil(days);
    if idx as real > days then idx - 1
    else if !isStartDate then idx - 1
    else idx
  }

  /** The two roundings agree on a fractional offset and differ by one on a whole one. */
  lemma AdvanceCountAsymmetry(days: real)
    ensures AdvanceCount(days, true) == days.Floor
    ensures days.Floor as real != days ==> AdvanceCount(days, false) == days.Floor
    ensures days.Floor as real == days ==> AdvanceCount(days, false) == days.Floor - 1
  {
  }

  /**
   Starting from `from`, `n` times: step one day forward, then walk on to
   the first working day. For `n <= 0` this is `from` itself, working day or
   not; otherwise a working day after `from`.
   */
  function Advance(vacations: Vacations, man: string, from: Date, n: int): (r: Date)
    ensures n <= 0 ==> r == from
    ensures n >= 1 ==> from < r && IsWorkingDay(vacations, man, r)
    decreases if n > 0 then n else 0
  {
    if n <= 0 then from
    else SkipToWorkingDay(vacations, man, Advance(vacations, man, from, n - 1) + 1)
  }

  /** One more advance is one more day forward and one more walk to a working day. */
  lemma AdvanceStep(vacations: Vacations, man: string, from: Date, k: nat)
    ensures Advance(vacations, man, from, k + 1) == SkipToWorkingDay(vacations, man, Advance(vacations, man, from, k) + 1)
  {
  }

  /** After `n >= 1` advances exactly `n` working days have been passed, the last one included. */
  lemma {:induction false} AdvanceCountsWorkingDays(vacations: Vacations, man: string, from: Date, n: int)
    ensures n >= 1 ==> WorkingDaysIn(vacations, man, from, Advance(vacations, man, from, n)) == n
    decreases if n > 0 then n else 0
  {
    if n < 1 {
      return;
    }
    var prev := Advance(vacations, man, from, n - 1);
    var next := Advance(vacations, man, from, n);
    assert next == SkipToWorkingDay(vacations, man, prev + 1);
    if n > 1 {
      AdvanceCountsWorkingDays(vacations, man, from, n - 1);
    }
    WorkingDaysJump(vacations, man, from, prev, next);
  }

  /** Advancing further never lands earlier; advancing at least once more lands strictly later. */
  lemma {:induction false} AdvanceMonotone(vacations: Vacations, man: string, from: Date, n1: int, n2: int)
    requires n1 <= n2
    ensures Advance(vacations, man, from, n1) <= Advance(vacations, man, from, n2)
    ensures n1 < n2 && 1 <= n2 ==> Advance(vacations, man, from, n1) < Advance(vacations, man, from, n2)
    decreases n2 - n1
  {
    if n1 < n2 && 1 <= n2 {
      AdvanceMonotone(vacations, man, from, n1, n2 - 1);
      var prev := Advance(vacations, man, from, n2 - 1);
      assert Advance(vacations, man, from, n2) == SkipToWorkingDay(vacations, man, prev + 1);
    }
  }

  /**
   For `n >= 1`, `Advance` yields the `n`-th working day strictly after
   `from`, and no other date is that day.
   */
  lemma AdvanceIsNthWorkingDay(vacations: Vacations, man: string, from: Date, n: int, r: Date)
    requires n >= 1
    ensures Advance(vacations, man, from, n) == r <==>
            (from < r && IsWorkingDay(vacations, man, r) && WorkingDaysIn(vacations, man, from, r) == n)
  {
    var a := Advance(vacations, man, from, n);
    AdvanceCountsWorkingDays(vacations, man, from, n);
    if from < r && IsWorkingDay(vacations, man, r) && WorkingDaysIn(vacations, man, from, r) == n {
      if r < a {
        WorkingDaysStrict(vacations, man, from, r, a);
      } else if a < r {
        WorkingDaysStrict(vacations, man, from, a, r);
      }
    }
  }

  /**
   `add_days`: the date `AdvanceCount(days, isStartDate)` working days
   after `currDay`, or `currDay` itself when that count is not positive.
   */
  function AddDays(man: string, currDay: Date, vacations: Vacations, days: real, isStartDate: bool): (r: Date)
    ensures AdvanceCount(days, isStartDate) <= 0 ==> r == currDay
    ensures AdvanceCount(days, isStartDate) >= 1 ==>
              currDay < r && IsWorkingDay(vacations, man, r) &&
              WorkingDaysIn(vacations, man, currDay, r) == AdvanceCount(days, isStartDate)
  {
    var n := AdvanceCount(days, isStartDate);
    AdvanceCountsWorkingDays(vacations, man, currDay, n);
    Advance(vacations, man, currDay, n)
  }

  /**
   The inner `while True` loop of `add_days` (lines 64-69): the weekend
   skip, then the vacation skip, whose flag overwrites the weekend one;
   leave as soon as the vacation skip does not fire. It stops on the first
   working day on or after `start`.
   */
  method SkipLoop(man: string, start: Date, vacations: Vacations) returns (ret: Date)
    ensures start <= ret && IsWorkingDay(vacations, man, ret)
    ensures forall x :: start <= x < ret ==> !IsWorkingDay(vacations, man, x)
    ensures ret == SkipToWorkingDay(vacations, man, start)
  {
    ret := start;
    while true
      invariant SkipToWorkingDay(vacations, man, ret) == SkipToWorkingDay(vacations, man, start)
      decreases |Pending(VacationsOf(vacations, man), ret)|
    {
      var (_, afterWeekend) := SkipWeekend(ret);
      var (skipped, afterVacation) := SkipVacation(vacations, man, afterWeekend);
      if skipped {
        PendingShrinks(VacationsOf(vacations, man), ret, afterWeekend);
      }
      ret := afterVacation;
      if !skipped {
        break;
      }
    }
  }

  /**
   `add_days` as the source writes it: compute the advance count `idx`,
   then `idx` times step one day forward and run the inner skip loop.
   */
  method AddDaysByWalking(man: string, currDay: Date, vacations: Vacations, days: real, isStartDate: bool)
    returns (ret: Date)
    ensures ret == AddDays(man, currDay, vacations, days, isStartDate)
  {
    var idx := AdvanceCount(days, isStartDate);
    ghost var n := idx;
    ghost var done := 0;
    ret := currDay;
    while idx > 0
      invariant 0 <= done
      invariant done + idx == n
      invariant 0 <= idx || done == 0
      invariant ret == Advance(vacations, man, currDay, done)
    {
      ret := ret + 1;
      ret := SkipLoop(man, ret, vacations);
      AdvanceStep(vacations, man, currDay, done);
      idx := idx - 1;
      done := done + 1;
    }
  }

  /**
   The end boundary of an offset never lies after its start boundary; they
   coincide exactly when the offset is fractional or below one.
   */
  lemma EndBoundaryNotAfterStart(man: string, currDay: Date, vacations: Vacations, days: real)
    ensures AddDays(man, currDay, vacations, days, false) <= AddDays(man, currDay, vacations, days, true)
    ensures AddDays(man, currDay, vacations, days, false) == AddDays(man, currDay, vacations, days, true)
            <==> (days.Floor as real != days || days < 1.0)
  {
  }

  /** The start boundary of an offset is never after the end boundary of a strictly larger one. */
  lemma StartNotAfterLaterEnd(man: string, currDay: Date, vacations: Vacations, a: real, b: real)
    requires a < b
    ensures AddDays(man, currDay, vacations, a, true) <= AddDays(man, currDay, vacations, b, false)
  {
    var n1, n2 := AdvanceCount(a, true), AdvanceCount(b, false);
    assert n1 <= n2;
    AdvanceMonotone(vacations, man, currDay, n1, n2);
  }

  /**
   On a whole offset of at least one man-day, the end boundary is the
   working day just before the start boundary.
   */
  lemma EndBoundaryOneWorkingDayBefore(man: string, currDay: Date, vacations: Vacations, days: real)
    requires days.Floor as real == days && days >= 1.0
    ensures WorkingDaysIn(vacations, man, AddDays(man, currDay, vacations, days, false),
                          AddDays(man, currDay, vacations, days, true)) == 1
  {
    AdvanceCountAsymmetry(days);
    var n := days.Floor;
    var e := Advance(vacations, man, currDay, n - 1);
    var s := Advance(vacations, man, currDay, n);
    assert s == SkipToWorkingDay(vacations, man, e + 1);
    WorkingDaysJump(vacations, man, e, e, s);
  }
}
