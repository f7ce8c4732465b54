/**
 The display order of the fetched activities: a stable sort ascending by
 `startTime`, which is what `Array.prototype.sort` does with the comparator
 `(a, b) => new Date(a.startTime) - new Date(b.startTime)` (ECMAScript 2019
 and later require the sort to be stable).
 */
module Ordering {
  import opened Activities
  import opened Seqs

  /** Ascending by start time; equal start times are allowed in any order. */
  ghost predicate SortedByStart(s: seq<Activity>) {
    forall i, j :: 0 <= i < j < |s| ==> s[i].startTime <= s[j].startTime
  }

  /** The activities of `s` that start at instant `k`, in their order in `s`. */
  function StartingAt(s: seq<Activity>, k: Instant): (r: seq<Activity>)
    ensures forall x :: x in r <==> x in s && x.startTime == k
  {
    if s == [] then []
    else (if s[0].startTime == k then [s[0]] else []) + StartingAt(s[1..], k)
  }

  /**
   Stability: for every start time, the activities sharing it appear in the
   same relative order in `r` as in `s`.
   */
  ghost predicate SameTies(r: seq<Activity>, s: seq<Activity>) {
    forall k :: StartingAt(r, k) == StartingAt(s, k)
  }

  /** Unfolds `StartingAt` on a non-empty sequence. */
  lemma StartingAtCons(s: seq<Activity>, k: Instant)
    requires s != []
    ensures StartingAt(s, k) == (if s[0].startTime == k then [s[0]] else []) + StartingAt(s[1..], k)
  {
  }

  /** Prepending an activity that starts no later than any other keeps the order. */
  lemma SortedCons(x: Activity, s: seq<Activity>)
    requires SortedByStart(s)
    requires forall j :: 0 <= j < |s| ==> x.startTime <= s[j].startTime
    ensures SortedByStart([x] + s)
  {
  }

  /**
   Inserts `a` in front of the first activity of `r` that starts no earlier than
   it does; as the head of the unsorted rest, `a` precedes its ties.
   */
  function Insert(a: Activity, r: seq<Activity>): (t: seq<Activity>)
    requires SortedByStart(r)
    ensures SortedByStart(t)
    ensures multiset(t) == multiset(r) + multiset{a}
    decreases |r|
  {
    if r == [] || a.startTime <= r[0].startTime then
      SortedCons(a, r);
      [a] + r
    else
      var rest := Insert(a, r[1..]);
      assert forall j :: 0 <= j < |rest| ==> r[0].startTime <= rest[j].startTime by {
        forall j | 0 <= j < |rest| ensures r[0].startTime <= rest[j].startTime {
          assert rest[j] in multiset(rest);
          assert rest[j] == a || rest[j] in multiset(r[1..]);
        }
      }
      SortedCons(r[0], rest);
      assert r == [r[0]] + r[1..];
      [r[0]] + rest
  }

  /** Inserting `a` adds it in front of the activities that tie with it, and nowhere else. */
  lemma {:induction false} InsertTies(a: Activity, r: seq<Activity>, k: Instant)
    requires SortedByStart(r)
    ensures StartingAt(Insert(a, r), k) == (if a.startTime == k then [a] else []) + StartingAt(r, k)
    decreases |r|
  {
    var t := Insert(a, r);
    if r == [] || a.startTime <= r[0].startTime {
      assert t[0] == a && t[1..] == r;
      StartingAtCons(t, k);
    } else {
      var rest := Insert(a, r[1..]);
      InsertTies(a, r[1..], k);
      assert t[0] == r[0] && t[1..] == rest;
      StartingAtCons(t, k);
      StartingAtCons(r, k);
      if r[0].startTime == k {
        assert StartingAt(t, k) == [r[0]] + StartingAt(rest, k);
        assert StartingAt(rest, k) == StartingAt(r[1..], k);
      } else if a.startTime == k {
        assert StartingAt(t, k) == StartingAt(rest, k);
        assert StartingAt(r, k) == StartingAt(r[1..], k);
      } else {
        assert StartingAt(t, k) == StartingAt(rest, k);
      }
    }
  }

  /** Stable insertion sort ascending by start time. */
  function SortByStart(s: seq<Activity>): (r: seq<Activity>)
    ensures SortedByStart(r)
    ensures multiset(r) == multiset(s)
    ensures SameTies(r, s)
  {
    if s == [] then []
    else
      assert s == [s[0]] + s[1..];
      var r := Insert(s[0], SortByStart(s[1..]));
      assert SameTies(r, s) by {
        forall k ensures StartingAt(r, k) == StartingAt(s, k) {
          StartingAtCons(s, k);
          InsertTies(s[0], SortByStart(s[1..]), k);
        }
      }
      r
  }

  /** The first activity of a sorted sequence starts no later than any activity in it. */
  lemma HeadIsEarliest(s: seq<Activity>, x: Activity)
    requires SortedByStart(s) && x in s
    ensures s[0].startTime <= x.startTime
  {
    var j :| 0 <= j < |s| && s[j] == x;
  }

  /** Two sorted sequences with the same ties start with the same activity. */
  lemma SameTiesSameHead(s: seq<Activity>, t: seq<Activity>)
    requires SortedByStart(s) && SortedByStart(t)
    requires SameTies(s, t)
    requires s != []
    ensures t != [] && s[0] == t[0]
  {
    var k := s[0].startTime;
    StartingAtCons(s, k);
    assert StartingAt(t, k) == StartingAt(s, k);
    assert s[0] in StartingAt(t, k);
    HeadIsEarliest(t, s[0]);
    var k1 := t[0].startTime;
    StartingAtCons(t, k1);
    assert StartingAt(s, k1) == StartingAt(t, k1);
    assert t[0] in StartingAt(s, k1);
    HeadIsEarliest(s, t[0]);
    assert k1 == k;
    assert StartingAt(s, k)[0] == s[0];
    assert StartingAt(t, k)[0] == t[0];
  }

  /** Removing a common first activity keeps the ties equal. */
  lemma SameTiesTail(s: seq<Activity>, t: seq<Activity>)
    requires s != [] && t != [] && s[0] == t[0]
    requires SameTies(s, t)
    ensures SameTies(s[1..], t[1..])
  {
    forall k ensures StartingAt(s[1..], k) == StartingAt(t[1..], k) {
      StartingAtCons(s, k);
      StartingAtCons(t, k);
      var head := if s[0].startTime == k then [s[0]] else [];
      assert StartingAt(s, k) == StartingAt(t, k);
      assert StartingAt(s[1..], k) == StartingAt(s, k)[|head|..];
      assert StartingAt(t[1..], k) == StartingAt(t, k)[|head|..];
    }
  }

  /**
   A sorted sequence is determined by its ties: two sorted sequences that agree,
   for every start time, on the activities starting then and their order, are equal.
   */
  lemma {:induction false} SortedTiesUnique(s: seq<Activity>, t: seq<Activity>)
    requires SortedByStart(s) && SortedByStart(t)
    requires SameTies(s, t)
    ensures s == t
    decreases |s|
  {
    if s == [] {
      if t != [] {
        assert SameTies(t, s);
        SameTiesSameHead(t, s);
        assert false;
      }
    } else {
      SameTiesSameHead(s, t);
      SameTiesTail(s, t);
      SortedTiesUnique(s[1..], t[1..]);
      assert s == [s[0]] + s[1..] && t == [t[0]] + t[1..];
    }
  }

  /**
   `SortByStart` is the only stable ascending order: any sorted arrangement of
   `s` that keeps the relative order of ties, such as the one any conforming
   `Array.prototype.sort` produces, is exactly `SortByStart(s)`.
   */
  lemma StableSortIsUnique(s: seq<Activity>, r: seq<Activity>)
    requires SortedByStart(r) && SameTies(r, s)
    ensures r == SortByStart(s)
  {
    var q := SortByStart(s);
    assert SameTies(r, q) by {
      forall k ensures StartingAt(r, k) == StartingAt(q, k) {
        assert StartingAt(q, k) == StartingAt(s, k);
      }
    }
    SortedTiesUnique(r, q);
  }

  /** Sorting an already sorted list changes nothing; in particular sorting twice is sorting once. */
  lemma SortOfSortedIsIdentity(s: seq<Activity>)
    requires SortedByStart(s)
    ensures SortByStart(s) == s
  {
    StableSortIsUnique(s, s);
  }

  lemma SortIsIdempotent(s: seq<Activity>)
    ensures SortByStart(SortByStart(s)) == SortByStart(s)
  {
    SortOfSortedIsIdentity(SortByStart(s));
  }

  /** A sub-sequence of a sorted sequence is sorted. */
  lemma {:induction false} SubsequenceOfSortedIsSorted(a: seq<Activity>, b: seq<Activity>)
    requires IsSubsequence(a, b) && SortedByStart(b)
    ensures SortedByStart(a)
    decreases |b|
  {
    if a != [] {
      assert SortedByStart(b[1..]);
      if a[0] == b[0] && IsSubsequence(a[1..], b[1..]) {
        SubsequenceOfSortedIsSorted(a[1..], b[1..]);
        SubsequenceMembers(a[1..], b[1..]);
        forall j | 0 <= j < |a[1..]| ensures a[0].startTime <= a[1..][j].startTime {
          assert a[1..][j] in b[1..];
          assert b == [b[0]] + b[1..];
          HeadIsEarliest(b, a[1..][j]);
        }
        SortedCons(a[0], a[1..]);
        assert a == [a[0]] + a[1..];
      } else {
        SubsequenceOfSortedIsSorted(a, b[1..]);
      }
    }
  }

  /** Picking the ties at `k` commutes with any other filter. */
  lemma {:induction false} StartingAtFilter(s: seq<Activity>, p: Activity -> bool, k: Instant)
    ensures StartingAt(Filter(s, p), k) == Filter(StartingAt(s, k), p)
  {
    if s != [] {
      var x, tail := s[0], s[1..];
      StartingAtFilter(tail, p, k);
      var kept := if p(x) then [x] else [];
      var tie := if x.startTime == k then [x] else [];
      var both := if p(x) && x.startTime == k then [x] else [];
      // the left-hand side, peeling `x` off the filtered list
      assert Filter(s, p) == kept + Filter(tail, p);
      FilterAppend(kept, Filter(tail, p), p);
      StartingAtAppend(kept, Filter(tail, p), k);
      assert StartingAt(kept, k) == both by {
        if p(x) { StartingAtCons(kept, k); assert kept[1..] == []; }
      }
      // the right-hand side, peeling `x` off the ties
      StartingAtCons(s, k);
      assert StartingAt(s, k) == tie + StartingAt(tail, k);
      FilterAppend(tie, StartingAt(tail, k), p);
      assert Filter(tie, p) == both by {
        if x.startTime == k { assert tie[1..] == []; }
      }
    }
  }

  /** Taking the ties distributes over concatenation. */
  lemma {:induction false} StartingAtAppend(a: seq<Activity>, b: seq<Activity>, k: Instant)
    ensures StartingAt(a + b, k) == StartingAt(a, k) + StartingAt(b, k)
  {
    if a == [] {
      assert a + b == b;
    } else {
      var ab := a + b;
      assert ab[0] == a[0] && ab[1..] == a[1..] + b;
      StartingAtAppend(a[1..], b, k);
      StartingAtCons(ab, k);
      StartingAtCons(a, k);
    }
  }

  /**
   Sorting and then keeping the activities that satisfy `p` gives the same list
   as keeping them first and sorting afterwards.
   */
  lemma SortThenFilter(s: seq<Activity>, p: Activity -> bool)
    ensures Filter(SortByStart(s), p) == SortByStart(Filter(s, p))
  {
    var sorted := SortByStart(s);
    var r := Filter(sorted, p);
    FilterIsSubsequence(sorted, p);
    SubsequenceOfSortedIsSorted(r, sorted);
    forall k ensures StartingAt(r, k) == StartingAt(Filter(s, p), k) {
      StartingAtFilter(sorted, p, k);
      StartingAtFilter(s, p, k);
    }
    StableSortIsUnique(Filter(s, p), r);
  }
}
