/**
 What the page shows after a fetch: the sorted list, its two columns and the
 weekly total, all derived afresh from the fetched snapshot.
 */
module HobbiesPage {
  import opened Activities
  import opened Ordering
  import opened Partition
  import opened WeeklySummary

  datatype View = View(
    activities: seq<Activity>,
    incomplete: seq<Activity>,
    completed: seq<Activity>,
    weeklyHours: real)

  /**
   The `.then` of `fetchActivities` together with the two column filters: sort
   the fetched list, compute the weekly total over the sorted list, and split it.
   */
  method Refresh(fetched: seq<Activity>, now: Instant, weekday: Weekday) returns (v: View)
    ensures SortedByStart(v.activities) && SameTies(v.activities, fetched)
    ensures multiset(v.activities) == multiset(fetched)
    ensures v.incomplete == SortByStart(Incomplete(fetched))
    ensures v.completed == SortByStart(Completed(fetched))
    ensures multiset(v.incomplete) + multiset(v.completed) == multiset(fetched)
    ensures v.weeklyHours == WeeklyHours(fetched, now, weekday)
  {
    var sorted := SortByStart(fetched);
    var hours := CalculateWeeklyHours(sorted, now, weekday);
    WeeklyHoursIgnoresOrder(sorted, fetched, now, weekday);
    ColumnsOfSortedList(fetched);
    PartitionIsPermutation(sorted);
    v := View(sorted, Incomplete(sorted), Completed(sorted), hours);
  }
}
