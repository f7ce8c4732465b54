/**
 The "Weekly Hours" summary: the stored durations of the completed activities
 that start no earlier than the start of the current week. The clock is a
 parameter: `now` in milliseconds and its weekday (`now.getDay()`, 0 = Sunday).
 A day is a fixed 24 hours; local time zones and daylight saving are not modelled.
 */
module WeeklySummary {
  import opened Activities
  import opened Seqs
  import opened Partition

  /** One day in milliseconds. */
  const DAY: int := 86_400_000

  /** `Date.prototype.getDay()`: 0 is Sunday, 6 is Saturday. */
  type Weekday = d: int | 0 <= d < 7

  /**
   `startOfWeek.setDate(now.getDate() - now.getDay())`: the most recent Sunday
   on or before `now`, at `now`'s time of day (the time is not reset to midnight).
   */
  function StartOfWeek(now: Instant, weekday: Weekday): (sow: Instant)
    ensures sow <= now
    ensures now - sow < 7 * DAY
    ensures sow == now <==> weekday == 0
    ensures sow % DAY == now % DAY
  {
    now - weekday * DAY
  }

  /**
   `t` lies a whole number of days before `now` and falls on a Sunday, given
   that `now` falls on `weekday`.
   */
  ghost predicate SundayAtTimeOfNow(now: Instant, weekday: Weekday, t: Instant) {
    t <= now && (now - t) % DAY == 0 && ((now - t) / DAY) % 7 == weekday
  }

  /** The start of the week is the latest Sunday at `now`'s time of day that is not after `now`. */
  lemma StartOfWeekIsLatestSunday(now: Instant, weekday: Weekday, t: Instant)
    ensures SundayAtTimeOfNow(now, weekday, StartOfWeek(now, weekday))
    ensures SundayAtTimeOfNow(now, weekday, t) ==> t <= StartOfWeek(now, weekday)
  {
    var sow := StartOfWeek(now, weekday);
    assert (now - sow) / DAY == weekday by {
      assert now - sow == weekday * DAY;
    }
    if SundayAtTimeOfNow(now, weekday, t) {
      var n := (now - t) / DAY;
      assert now - t == n * DAY;
      assert n >= weekday by {
        assert n >= 0;
        assert n == 7 * (n / 7) + weekday;
      }
      assert n * DAY >= weekday * DAY;
    }
  }

  /** The condition of the `forEach` body: completed and not before the start of the week. */
  predicate CountsToward(a: Activity, startOfWeek: Instant) {
    a.completed && a.startTime >= startOfWeek
  }

  /** The total stored hours of a list of activities. */
  function SumHours(s: seq<Activity>): real {
    if s == [] then 0.0 else Hours(s[0]) + SumHours(s[1..])
  }

  /** The activities of `s` that count toward a week starting at `startOfWeek`. */
  function Qualifying(s: seq<Activity>, startOfWeek: Instant): seq<Activity> {
    Filter(s, (a: Activity) => CountsToward(a, startOfWeek))
  }

  /** The reference total: the hours of exactly the qualifying activities. */
  function TotalSince(s: seq<Activity>, startOfWeek: Instant): real {
    SumHours(Qualifying(s, startOfWeek))
  }

  /** The weekly total for the clock reading `now`, which falls on `weekday`. */
  function WeeklyHours(s: seq<Activity>, now: Instant, weekday: Weekday): real {
    TotalSince(s, StartOfWeek(now, weekday))
  }

  lemma {:induction false} SumHoursAppend(a: seq<Activity>, b: seq<Activity>)
    ensures SumHours(a + b) == SumHours(a) + SumHours(b)
  {
    if a == [] {
      assert a + b == b;
    } else {
      assert (a + b)[0] == a[0] && (a + b)[1..] == a[1..] + b;
      SumHoursAppend(a[1..], b);
    }
  }

  lemma TotalSinceAppend(a: seq<Activity>, b: seq<Activity>, startOfWeek: Instant)
    ensures TotalSince(a + b, startOfWeek) == TotalSince(a, startOfWeek) + TotalSince(b, startOfWeek)
  {
    FilterAppend(a, b, (x: Activity) => CountsToward(x, startOfWeek));
    SumHoursAppend(Qualifying(a, startOfWeek), Qualifying(b, startOfWeek));
  }

  /** The total of a single activity: its hours if it counts, otherwise nothing. */
  lemma TotalOfOne(a: Activity, startOfWeek: Instant)
    ensures TotalSince([a], startOfWeek) == if CountsToward(a, startOfWeek) then Hours(a) else 0.0
  {
    var q := Qualifying([a], startOfWeek);
    assert [a] == [a] + [];
    FilterAppend([a], [], (x: Activity) => CountsToward(x, startOfWeek));
    assert [a][1..] == [];
    if CountsToward(a, startOfWeek) {
      assert q == [a];
      assert q[1..] == [];
      assert SumHours(q) == Hours(a) + SumHours([]);
    } else {
      assert q == [];
    }
  }

  /** The total of a non-empty list: its first activity's share plus the total of the rest. */
  lemma TotalSinceCons(s: seq<Activity>, startOfWeek: Instant)
    requires s != []
    ensures TotalSince(s, startOfWeek)
         == (if CountsToward(s[0], startOfWeek) then Hours(s[0]) else 0.0) + TotalSince(s[1..], startOfWeek)
  {
    assert s == [s[0]] + s[1..];
    TotalSinceAppend([s[0]], s[1..], startOfWeek);
    TotalOfOne(s[0], startOfWeek);
  }

  /** One step of the `forEach` loop: the total over one more activity of the list. */
  lemma TotalSinceStep(s: seq<Activity>, i: nat, startOfWeek: Instant)
    requires i < |s|
    ensures TotalSince(s[..i + 1], startOfWeek)
         == TotalSince(s[..i], startOfWeek) + (if CountsToward(s[i], startOfWeek) then Hours(s[i]) else 0.0)
  {
    assert s[..i + 1] == s[..i] + [s[i]];
    TotalSinceAppend(s[..i], [s[i]], startOfWeek);
    TotalOfOne(s[i], startOfWeek);
  }

  /**
   `calculateWeeklyHours`: the running sum of the `forEach` loop, in list order.
   It equals the reference total, so it is 0 for an empty list.
   */
  method CalculateWeeklyHours(activities: seq<Activity>, now: Instant, weekday: Weekday)
    returns (totalHours: real)
    ensures totalHours == WeeklyHours(activities, now, weekday)
    ensures activities == [] ==> totalHours == 0.0
  {
    var startOfWeek := StartOfWeek(now, weekday);
    totalHours := 0.0;
    var i := 0;
    while i < |activities|
      invariant 0 <= i <= |activities|
      invariant totalHours == TotalSince(activities[..i], startOfWeek)
    {
      var activity := activities[i];
      TotalSinceStep(activities, i, startOfWeek);
      if activity.completed && activity.startTime >= startOfWeek {
        totalHours := totalHours + Hours(activity);
      }
      i := i + 1;
    }
    assert activities[..i] == activities;
  }

  /**
   Adding an activity anywhere in the list changes the total by its hours when
   it counts and leaves it unchanged otherwise; read right to left, the same
   holds for removing it.
   */
  lemma TotalWithInserted(s: seq<Activity>, i: nat, a: Activity, startOfWeek: Instant)
    requires i <= |s|
    ensures TotalSince(s[..i] + [a] + s[i..], startOfWeek)
         == TotalSince(s, startOfWeek) + (if CountsToward(a, startOfWeek) then Hours(a) else 0.0)
  {
    TotalSinceAppend(s[..i] + [a], s[i..], startOfWeek);
    TotalSinceAppend(s[..i], [a], startOfWeek);
    TotalSinceAppend(s[..i], s[i..], startOfWeek);
    TotalOfOne(a, startOfWeek);
    assert s[..i] + s[i..] == s;
  }

  /**
   An activity that is not completed, or that starts before the start of the
   week, can be added to or removed from the list without changing the total.
   */
  lemma IgnoredActivityIsNeutral(s: seq<Activity>, i: nat, a: Activity, now: Instant, weekday: Weekday)
    requires i <= |s|
    requires !a.completed || a.startTime < StartOfWeek(now, weekday)
    ensures WeeklyHours(s[..i] + [a] + s[i..], now, weekday) == WeeklyHours(s, now, weekday)
  {
    TotalWithInserted(s, i, a, StartOfWeek(now, weekday));
  }

  /**
   There is no upper bound: a completed activity that starts at or after `now`,
   however far in the future, still adds its hours.
   */
  lemma FutureActivityCounts(s: seq<Activity>, i: nat, a: Activity, now: Instant, weekday: Weekday)
    requires i <= |s|
    requires a.completed && a.startTime >= now
    ensures WeeklyHours(s[..i] + [a] + s[i..], now, weekday) == WeeklyHours(s, now, weekday) + Hours(a)
  {
    TotalWithInserted(s, i, a, StartOfWeek(now, weekday));
  }

  /** Activities with no negative stored duration. */
  ghost predicate DurationsNonNegative(s: seq<Activity>) {
    forall j :: 0 <= j < |s| && s[j].duration.Some? ==> s[j].duration.value >= 0.0
  }

  lemma DurationsNonNegativeTail(s: seq<Activity>)
    requires s != [] && DurationsNonNegative(s)
    ensures DurationsNonNegative(s[1..]) && Hours(s[0]) >= 0.0
  {
    forall j | 0 <= j < |s[1..]| && s[1..][j].duration.Some?
      ensures s[1..][j].duration.value >= 0.0
    {
      assert s[1..][j] == s[j + 1];
    }
  }

  lemma {:induction false} SumHoursNonNegative(s: seq<Activity>)
    requires DurationsNonNegative(s)
    ensures SumHours(s) >= 0.0
  {
    if s != [] {
      DurationsNonNegativeTail(s);
      SumHoursNonNegative(s[1..]);
    }
  }

  /** The weekly total is never negative when no stored duration is. */
  lemma WeeklyHoursNonNegative(s: seq<Activity>, now: Instant, weekday: Weekday)
    requires DurationsNonNegative(s)
    ensures WeeklyHours(s, now, weekday) >= 0.0
  {
    var q := Qualifying(s, StartOfWeek(now, weekday));
    assert DurationsNonNegative(q) by {
      forall j | 0 <= j < |q| && q[j].duration.Some? ensures q[j].duration.value >= 0.0 {
        assert q[j] in s;
        var k :| 0 <= k < |s| && s[k] == q[j];
      }
    }
    SumHoursNonNegative(q);
  }

  /** Removing the first element of `s` and a matching element of `t` keeps the multisets equal. */
  lemma RemoveMatching(s: seq<Activity>, t: seq<Activity>, j: nat)
    requires multiset(s) == multiset(t)
    requires s != [] && j < |t| && t[j] == s[0]
    ensures multiset(t[..j] + t[j + 1..]) == multiset(s[1..])
  {
    var x := s[0];
    assert t == t[..j] + [x] + t[j + 1..];
    assert s == [x] + s[1..];
    assert multiset(t[..j] + t[j + 1..]) == multiset(t) - multiset{x};
    assert multiset(s[1..]) == multiset(s) - multiset{x};
  }

  /** The sum of a list is the hours of any one element plus the sum of the others. */
  lemma {:induction false} SumHoursWithout(t: seq<Activity>, j: nat)
    requires j < |t|
    ensures SumHours(t) == Hours(t[j]) + SumHours(t[..j] + t[j + 1..])
    decreases j
  {
    var tail := t[1..];
    if j == 0 {
      assert t[..0] + t[1..] == tail;
    } else {
      SumHoursWithout(tail, j - 1);
      var others := tail[..j - 1] + tail[j..];
      assert tail[j - 1] == t[j];
      assert t[..j] + t[j + 1..] == [t[0]] + others;
      assert ([t[0]] + others)[1..] == others;
    }
  }

  /** The sum of hours does not depend on the order of the list. */
  lemma {:induction false} SumHoursPermutation(s: seq<Activity>, t: seq<Activity>)
    requires multiset(s) == multiset(t)
    ensures SumHours(s) == SumHours(t)
    decreases |s|
  {
    if s == [] {
      assert |t| == |multiset(t)| == 0;
    } else {
      assert s[0] in multiset(t);
      var j :| 0 <= j < |t| && t[j] == s[0];
      RemoveMatching(s, t, j);
      SumHoursPermutation(s[1..], t[..j] + t[j + 1..]);
      SumHoursWithout(t, j);
    }
  }

  /** Sorting, or any other reordering, of the fetched list leaves the weekly total unchanged. */
  lemma WeeklyHoursIgnoresOrder(s: seq<Activity>, t: seq<Activity>, now: Instant, weekday: Weekday)
    requires multiset(s) == multiset(t)
    ensures WeeklyHours(s, now, weekday) == WeeklyHours(t, now, weekday)
  {
    var sow := StartOfWeek(now, weekday);
    FilterRespectsPermutation(s, t, (a: Activity) => CountsToward(a, sow));
    SumHoursPermutation(Qualifying(s, sow), Qualifying(t, sow));
  }

  /** Only the "Completed" column contributes to the weekly total. */
  lemma WeeklyHoursOfCompletedColumn(s: seq<Activity>, now: Instant, weekday: Weekday)
    ensures WeeklyHours(Completed(s), now, weekday) == WeeklyHours(s, now, weekday)
  {
    var sow := StartOfWeek(now, weekday);
    FilterAbsorbs(s, IsDone, (a: Activity) => CountsToward(a, sow));
  }
}
