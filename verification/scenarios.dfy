/**
 Worked examples of the weekly total for a fixed clock reading:
 Wednesday 2024-06-12T10:00:00Z, that is 1718186400000 ms, weekday 3.
 */
module Scenarios {
  import opened Wrappers
  import opened Activities
  import opened WeeklySummary

  const Now: Instant := 1718186400000
  const Wednesday: Weekday := 3
  const HOUR: int := 3_600_000

  function Done(id: string, start: Instant, hours: real): Activity {
    Activity(id, "hobby", id, "", start, start + HOUR, Some(hours), true)
  }

  /** The week starts on Sunday 2024-06-09 at 10:00, not at midnight. */
  lemma WeekStartsAtNowsTimeOfDay()
    ensures StartOfWeek(Now, Wednesday) == 1717927200000
  {
  }

  const SundayMorning: Activity := Done("sunday", 1717920000000, 1.0)
  const Monday: Activity := Done("monday", 1718006400000, 1.5)
  const MondayPending: Activity := Monday.(completed := false)
  const LastWeek: Activity := Done("last-week", 1717315200000, 1.5)
  const July: Activity := Done("july", 1721462400000, 2.0)

  lemma EarlyPartExample()
    ensures TotalSince([SundayMorning, Monday, MondayPending], StartOfWeek(Now, Wednesday)) == 1.5
  {
    var sow := StartOfWeek(Now, Wednesday);
    var s := [SundayMorning, Monday, MondayPending];
    assert !CountsToward(SundayMorning, sow) && CountsToward(Monday, sow) && !CountsToward(MondayPending, sow);
    TotalSinceCons(s, sow);
    TotalSinceCons(s[1..], sow);
    TotalSinceCons(s[2..], sow);
    assert s[1..][1..] == s[2..] && s[2..][1..] == [];
    assert TotalSince([], sow) == 0.0;
  }

  lemma LatePartExample()
    ensures TotalSince([LastWeek, July], StartOfWeek(Now, Wednesday)) == 2.0
  {
    var sow := StartOfWeek(Now, Wednesday);
    var s := [LastWeek, July];
    assert !CountsToward(LastWeek, sow) && CountsToward(July, sow);
    TotalSinceCons(s, sow);
    TotalSinceCons(s[1..], sow);
    assert s[1..][1..] == [];
    assert TotalSince([], sow) == 0.0;
  }

  /**
   Sunday 08:00 of the current week is before the start of the week and does not
   count; Monday counts when completed; a pending copy and last week's activity
   do not count; a completed activity five weeks ahead counts.
   */
  lemma CurrentWeekExample()
    ensures WeeklyHours([SundayMorning, Monday, MondayPending, LastWeek, July], Now, Wednesday) == 3.5
  {
    var early := [SundayMorning, Monday, MondayPending];
    var late := [LastWeek, July];
    EarlyPartExample();
    LatePartExample();
    TotalSinceAppend(early, late, StartOfWeek(Now, Wednesday));
    assert early + late == [SundayMorning, Monday, MondayPending, LastWeek, July];
  }

  /** Two completed activities of the week with 2.0 and 3.25 hours give 5.25. */
  lemma TwoActivitiesExample()
    ensures WeeklyHours([Done("a", 1718006400000, 2.0), Done("b", 1718092800000, 3.25)], Now, Wednesday) == 5.25
  {
    var s := [Done("a", 1718006400000, 2.0), Done("b", 1718092800000, 3.25)];
    var sow := StartOfWeek(Now, Wednesday);
    TotalSinceCons(s, sow);
    TotalSinceCons(s[1..], sow);
    assert s[1..][1..] == [];
    assert TotalSince([], sow) == 0.0;
  }
}
