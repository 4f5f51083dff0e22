/**
 The calendar walker: weekdays, weekend and vacation skipping, and the
 "first working day on or after" walk that the date projection repeats.

 A date is its proleptic Gregorian ordinal, as Python's `date.toordinal()`
 numbers it: day 1 is 0001-01-01, a Monday. Only "+1 day", the ISO weekday,
 equality and ordering are ever used on dates.
 */
module Calendar {

  type Date = int

  /** Vacation dates per assignee; an assignee without an entry has none. */
  type Vacations = map<string, set<Date>>

  /** ISO weekday: Monday is 1, Sunday is 7 (Python's `isoweekday()`). */
  function IsoWeekday(d: Date): (w: int)
    ensures 1 <= w <= 7
  {
    (d - 1) % 7 + 1
  }

  /** Moving one day forward moves one step round the week. */
  lemma WeekdayNext(d: Date)
    ensures IsoWeekday(d + 1) == IsoWeekday(d) % 7 + 1
  {
  }

  predicate IsWeekend(d: Date)
  {
    IsoWeekday(d) > 5
  }

  function VacationsOf(vacations: Vacations, man: string): set<Date>
  {
    if man in vacations then vacations[man] else {}
  }

  /** A working day of `man`: neither Saturday, Sunday nor one of their vacation dates. */
  predicate IsWorkingDay(vacations: Vacations, man: string, d: Date)
  {
    !IsWeekend(d) && d !in VacationsOf(vacations, man)
  }

  /**
   `skip_weekend`: a Saturday or Sunday is moved forward to the following
   Monday, passing over weekend days only, and reported as skipped; any other
   day is returned unchanged.
   */
  function SkipWeekend(d: Date): (r: (bool, Date))
    ensures r.0 <==> IsWeekend(d)
    ensures r.0 ==> d < r.1 && IsoWeekday(r.1) == 1
    ensures r.0 ==> forall x :: d <= x < r.1 ==> IsWeekend(x)
    ensures !r.0 ==> r.1 == d
  {
    var w := IsoWeekday(d);
    if w > 5 then
      WeekdayNext(d);
      WeekdayNext(d + 1);
      (true, d + (7 - w) + 1)
    else
      (false, d)
  }

  /**
   `skip_vacation`: a vacation date of `man` is moved forward one day and
   reported as skipped; an assignee with no entry, or an empty one, never
   skips.
   */
  function SkipVacation(vacations: Vacations, man: string, d: Date): (r: (bool, Date))
    ensures r.0 <==> d in VacationsOf(vacations, man)
    ensures r.0 ==> r.1 == d + 1
    ensures !r.0 ==> r.1 == d
  {
    if man in vacations && vacations[man] != {} && d in vacations[man] then
      (true, d + 1)
    else
      (false, d)
  }

  /** The vacation dates not yet passed when standing on `d`. */
  function Pending(off: set<Date>, d: Date): set<Date>
  {
    set x | x in off && x >= d
  }

  lemma PendingShrinks(off: set<Date>, d: Date, v: Date)
    requires d <= v && v in off
    ensures |Pending(off, v + 1)| < |Pending(off, d)|
  {
    var before, after := Pending(off, d), Pending(off, v + 1);
    assert after <= before - {v};
    assert before == after + (before - after);
    assert v in before - after;
  }

  /**
   The inner `while True` loop of `add_days`: apply the weekend skip, then
   the vacation skip, and stop as soon as the vacation skip does not fire.
   The result is the first working day on or after `d`.
   */
  function SkipToWorkingDay(vacations: Vacations, man: string, d: Date): (r: Date)
    ensures d <= r
    ensures IsWorkingDay(vacations, man, r)
    ensures forall x :: d <= x < r ==> !IsWorkingDay(vacations, man, x)
    decreases |Pending(VacationsOf(vacations, man), d)|
  {
    var (_, d1) := SkipWeekend(d);
    var (skipped, d2) := SkipVacation(vacations, man, d1);
    if !skipped then
      d2
    else
      PendingShrinks(VacationsOf(vacations, man), d, d1);
      SkipToWorkingDay(vacations, man, d2)
  }

  /** The walk lands exactly on the first working day on or after `d`, and only there. */
  lemma SkipToWorkingDayIsFirst(vacations: Vacations, man: string, d: Date, r: Date)
    ensures SkipToWorkingDay(vacations, man, d) == r <==>
            (d <= r && IsWorkingDay(vacations, man, r) &&
             forall x :: d <= x < r ==> !IsWorkingDay(vacations, man, x))
  {
  }

  /** The number of working days `x` of `man` with `lo < x <= hi`. */
  function WorkingDaysIn(vacations: Vacations, man: string, lo: Date, hi: Date): nat
    decreases hi - lo
  {
    if hi <= lo then 0
    else WorkingDaysIn(vacations, man, lo, hi - 1) + (if IsWorkingDay(vacations, man, hi) then 1 else 0)
  }

  /** Passing over non-working days adds nothing to the count. */
  lemma {:induction false} WorkingDaysFlat(vacations: Vacations, man: string, lo: Date, a: Date, c: Date)
    requires lo <= a <= c
    requires forall x :: a < x <= c ==> !IsWorkingDay(vacations, man, x)
    ensures WorkingDaysIn(vacations, man, lo, c) == WorkingDaysIn(vacations, man, lo, a)
    decreases c - a
  {
    if c > a {
      WorkingDaysFlat(vacations, man, lo, a, c - 1);
    }
  }

  /** Passing over non-working days and landing on a working day adds exactly one. */
  lemma WorkingDaysJump(vacations: Vacations, man: string, lo: Date, a: Date, b: Date)
    requires lo <= a < b
    requires forall x :: a < x < b ==> !IsWorkingDay(vacations, man, x)
    requires IsWorkingDay(vacations, man, b)
    ensures WorkingDaysIn(vacations, man, lo, b) == WorkingDaysIn(vacations, man, lo, a) + 1
  {
    WorkingDaysFlat(vacations, man, lo, a, b - 1);
  }

  /** The count never decreases as the window grows. */
  lemma {:induction false} WorkingDaysMonotone(vacations: Vacations, man: string, lo: Date, a: Date, b: Date)
    requires a <= b
    ensures WorkingDaysIn(vacations, man, lo, a) <= WorkingDaysIn(vacations, man, lo, b)
    decreases b - a
  {
    if a < b {
      WorkingDaysMonotone(vacations, man, lo, a, b - 1);
    }
  }

  /** A later working day always has a strictly larger count. */
  lemma WorkingDaysStrict(vacations: Vacations, man: string, lo: Date, a: Date, b: Date)
    requires lo <= a < b
    requires IsWorkingDay(vacations, man, b)
    ensures WorkingDaysIn(vacations, man, lo, a) < WorkingDaysIn(vacations, man, lo, b)
  {
    WorkingDaysMonotone(vacations, man, lo, a, b - 1);
  }
}
