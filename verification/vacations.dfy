/**
 Recording a vacation line: the range `first .. last` (both inclusive) is
 expanded day by day into the assignee's vacation dates.
 */
module VacationTable {
  import opened Calendar

  /** The dates `d` with `first <= d <= last`; empty when `last` is before `first`. */
  function DaysBetween(first: Date, last: Date): (r: set<Date>)
    ensures forall d :: d in r <==> first <= d <= last
    decreases last - first
  {
    if last < first then {} else DaysBetween(first, last - 1) + {last}
  }

  /**
   The expansion loop of `parse`: `man` gets an entry even for an empty
   range, every date from `first` to `last` is added to it, and every other
   assignee keeps exactly what they had.
   */
  method RecordVacationRange(vacations: Vacations, man: string, first: Date, last: Date)
    returns (r: Vacations)
    ensures r.Keys == vacations.Keys + {man}
    ensures r[man] == VacationsOf(vacations, man) + DaysBetween(first, last)
    ensures forall other :: other in vacations && other != man ==> r[other] == vacations[other]
  {
    r := vacations;
    if man !in r || r[man] == {} {
      r := r[man := {}];
    }
    var xdate := first;
    while xdate <= last
      invariant r.Keys == vacations.Keys + {man}
      invariant first <= xdate && (xdate <= last + 1 || xdate == first)
      invariant r[man] == VacationsOf(vacations, man) + DaysBetween(first, xdate - 1)
      invariant forall other :: other in vacations && other != man ==> r[other] == vacations[other]
    {
      r := r[man := r[man] + {xdate}];
      xdate := xdate + 1;
    }
    assert DaysBetween(first, xdate - 1) == DaysBetween(first, last);
  }
}
