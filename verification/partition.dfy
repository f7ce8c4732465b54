/**
 The two columns of the page: the activities not yet completed and the
 completed ones, each filtered out of the (sorted) activity list.
 */
module Partition {
  import opened Activities
  import opened Seqs
  import opened Ordering

  /** `activities.filter((act) => !act.completed)` */
  function Incomplete(s: seq<Activity>): (r: seq<Activity>)
    ensures forall a :: a in r <==> a in s && !a.completed
  {
    Filter(s, IsPending)
  }

  /** `activities.filter((act) => act.completed)` */
  function Completed(s: seq<Activity>): (r: seq<Activity>)
    ensures forall a :: a in r <==> a in s && a.completed
  {
    Filter(s, IsDone)
  }

  /**
   Every activity lands in exactly one column: the two columns share no element,
   and together they hold each activity of `s` as often as `s` does.
   */
  lemma PartitionIsPermutation(s: seq<Activity>)
    ensures multiset(Incomplete(s)) + multiset(Completed(s)) == multiset(s)
    ensures multiset(Incomplete(s)) * multiset(Completed(s)) == multiset{}
  {
    var i, c := Incomplete(s), Completed(s);
    assert forall a: Activity :: multiset(i)[a] == if a.completed then 0 else multiset(s)[a];
    assert forall a: Activity :: multiset(c)[a] == if a.completed then multiset(s)[a] else 0;
    assert multiset(i) + multiset(c) == multiset(s);
  }

  /** Each column lists its activities in the order they have in `s`. */
  lemma PartitionKeepsOrder(s: seq<Activity>)
    ensures IsSubsequence(Incomplete(s), s)
    ensures IsSubsequence(Completed(s), s)
  {
    FilterIsSubsequence(s, IsPending);
    FilterIsSubsequence(s, IsDone);
  }

  /** Both columns of a list sorted by start time are sorted by start time. */
  lemma PartitionOfSortedIsSorted(s: seq<Activity>)
    requires SortedByStart(s)
    ensures SortedByStart(Incomplete(s)) && SortedByStart(Completed(s))
  {
    PartitionKeepsOrder(s);
    SubsequenceOfSortedIsSorted(Incomplete(s), s);
    SubsequenceOfSortedIsSorted(Completed(s), s);
  }

  /**
   The columns shown after a fetch are the stable sorts of the fetched
   incomplete and completed activities.
   */
  lemma ColumnsOfSortedList(fetched: seq<Activity>)
    ensures Incomplete(SortByStart(fetched)) == SortByStart(Incomplete(fetched))
    ensures Completed(SortByStart(fetched)) == SortByStart(Completed(fetched))
  {
    SortThenFilter(fetched, IsPending);
    SortThenFilter(fetched, IsDone);
  }
}
