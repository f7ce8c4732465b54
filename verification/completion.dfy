/**
 `handleComplete`: the page asks the store to set `completed: true` on the
 activity with the given id and then fetches the list again. The model applies
 that update to the list the store holds.
 */
module Completion {
  import opened Activities
  import opened Ordering
  import opened Partition
  import opened WeeklySummary

  /** The list after the store has applied `{ completed: true }` to activity `id`. */
  function MarkComplete(s: seq<Activity>, id: string): (r: seq<Activity>)
    ensures |r| == |s|
    ensures forall i :: 0 <= i < |s| ==> r[i] == s[i].(completed := r[i].completed)
    ensures forall i :: 0 <= i < |s| ==> (r[i].completed <==> s[i].completed || s[i].id == id)
  {
    if s == [] then []
    else
      var a := if s[0].id == id then s[0].(completed := true) else s[0];
      [a] + MarkComplete(s[1..], id)
  }

  /** Completing an activity twice leaves the same list as completing it once. */
  lemma MarkCompleteIdempotent(s: seq<Activity>, id: string)
    ensures MarkComplete(MarkComplete(s, id), id) == MarkComplete(s, id)
  {
    var once := MarkComplete(s, id);
    var twice := MarkComplete(once, id);
    assert forall i :: 0 <= i < |s| ==> twice[i] == once[i];
  }

  /** Completion does not move any activity, so a sorted list stays sorted. */
  lemma MarkCompleteKeepsOrder(s: seq<Activity>, id: string)
    requires SortedByStart(s)
    ensures SortedByStart(MarkComplete(s, id))
  {
  }

  /**
   After completion, no activity with that id is left in the "Incomplete"
   column, and each activity that had it shows, completed, in the "Completed" column.
   */
  lemma CompletionMovesToDoneColumn(s: seq<Activity>, id: string)
    ensures forall a :: a in Incomplete(MarkComplete(s, id)) ==> a.id != id
    ensures forall i :: 0 <= i < |s| && s[i].id == id ==>
              s[i].(completed := true) in Completed(MarkComplete(s, id))
  {
    var r := MarkComplete(s, id);
    forall a | a in Incomplete(r) ensures a.id != id {
      var i :| 0 <= i < |r| && r[i] == a;
    }
    forall i | 0 <= i < |s| && s[i].id == id ensures s[i].(completed := true) in Completed(r) {
      assert r[i] == s[i].(completed := true);
      assert r[i] in r;
    }
  }

  /**
   When no stored duration is negative, completing an activity never lowers the
   weekly total.
   */
  lemma {:induction false} CompletionNeverLowersTotal(s: seq<Activity>, id: string, startOfWeek: Instant)
    requires DurationsNonNegative(s)
    ensures TotalSince(MarkComplete(s, id), startOfWeek) >= TotalSince(s, startOfWeek)
  {
    if s != [] {
      var r := MarkComplete(s, id);
      assert r[1..] == MarkComplete(s[1..], id);
      DurationsNonNegativeTail(s);
      CompletionNeverLowersTotal(s[1..], id, startOfWeek);
      TotalSinceCons(s, startOfWeek);
      TotalSinceCons(r, startOfWeek);
      assert Hours(r[0]) == Hours(s[0]);
    }
  }
}
