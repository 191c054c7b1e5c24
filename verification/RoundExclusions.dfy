/**
 Excluded rounds: configured intervals are sorted, checked by comparing neighbours, and then
 searched by bisection. The reference is naive membership in the unsorted configuration.
 */
module RoundExclusions {
  import opened Machine

  datatype Interval = Interval(start: uint64, end: uint64)

  datatype ExclusionError = InvalidRoundExclusion | OverlappingRoundExclusions | InvalidRecoveryCheckpoint

  predicate Contains(iv: Interval, round: uint64) {
    iv.start <= round <= iv.end
  }

  /** Naive membership. */
  ghost predicate Excluded(intervals: seq<Interval>, round: uint64) {
    exists iv :: iv in intervals && Contains(iv, round)
  }

  ghost predicate Disjoint(a: Interval, b: Interval) {
    forall round: uint64 :: !(Contains(a, round) && Contains(b, round))
  }

  /** Every interval is well formed, and any two entries of the list are disjoint. */
  ghost predicate ValidConfiguration(intervals: seq<Interval>) {
    && (forall i :: 0 <= i < |intervals| ==> intervals[i].start <= intervals[i].end)
    && (forall i, j :: 0 <= i < j < |intervals| ==> Disjoint(intervals[i], intervals[j]))
  }

  ghost predicate SortedByStart(s: seq<Interval>) {
    forall i, j :: 0 <= i < j < |s| ==> s[i].start <= s[j].start
  }

  /** What the neighbour comparisons establish for the first n intervals. */
  ghost predicate Increasing(s: seq<Interval>, n: nat)
    requires n <= |s|
  {
    && (forall i :: 0 <= i < n ==> s[i].start <= s[i].end)
    && (forall i, j :: 0 <= i < j < n ==> s[i].end < s[j].start)
  }

  // ---------- a permutation has the same members and the same clashes ----------

  lemma SameMembers(a: seq<Interval>, b: seq<Interval>, round: uint64)
    requires multiset(a) == multiset(b)
    ensures Excluded(a, round) == Excluded(b, round)
  {
    assert forall iv :: iv in a <==> iv in multiset(a);
    assert forall iv :: iv in b <==> iv in multiset(b);
  }

  lemma {:induction false} Duplicates(s: seq<Interval>, x: Interval)
    ensures multiset(s)[x] >= 2 ==> exists i, j :: 0 <= i < j < |s| && s[i] == s[j] == x
    ensures (exists i, j :: 0 <= i < j < |s| && s[i] == s[j] == x) ==> multiset(s)[x] >= 2
  {
    if s != [] {
      var front, last := s[..|s| - 1], s[|s| - 1];
      assert s == front + [last];
      Duplicates(front, x);
      if multiset(s)[x] >= 2 {
        if last == x {
          assert x in multiset(front);
          var i :| 0 <= i < |front| && front[i] == x;
          assert s[i] == s[|s| - 1] == x;
        } else {
          var i, j :| 0 <= i < j < |front| && front[i] == front[j] == x;
          assert s[i] == s[j] == x;
        }
      }
      if i, j :| 0 <= i < j < |s| && s[i] == s[j] == x {
        if j < |front| {
          assert front[i] == front[j] == x;
        } else {
          assert front[i] == x && x in multiset(front);
        }
      }
    }
  }

  /** The configuration read off a multiset: no clash between different members, none repeated. */
  ghost predicate ValidMembers(m: multiset<Interval>) {
    && (forall x :: x in m ==> x.start <= x.end && m[x] == 1)
    && (forall x, y :: x in m && y in m && x != y ==> Disjoint(x, y))
  }

  lemma NoRepeats(s: seq<Interval>)
    requires ValidConfiguration(s)
    ensures forall i, j :: 0 <= i < j < |s| ==> s[i] != s[j]
  {
    forall i, j | 0 <= i < j < |s|
      ensures s[i] != s[j]
    {
      assert Disjoint(s[i], s[j]) && Contains(s[i], s[i].start);
    }
  }

  lemma MembersDecide(s: seq<Interval>)
    ensures ValidConfiguration(s) <==> ValidMembers(multiset(s))
  {
    if ValidConfiguration(s) {
      forall x | x in multiset(s)
        ensures x.start <= x.end && multiset(s)[x] == 1
      {
        var i :| 0 <= i < |s| && s[i] == x;
        NoRepeats(s);
        Duplicates(s, x);
      }
      forall x, y | x in multiset(s) && y in multiset(s) && x != y
        ensures Disjoint(x, y)
      {
        var i :| 0 <= i < |s| && s[i] == x;
        var j :| 0 <= j < |s| && s[j] == y;
        assert i < j || j < i;
        assert i < j ==> Disjoint(s[i], s[j]);
        assert j < i ==> Disjoint(s[j], s[i]);
      }
    }
    if ValidMembers(multiset(s)) {
      forall i | 0 <= i < |s|
        ensures s[i].start <= s[i].end
      {
        assert s[i] in multiset(s);
      }
      forall i, j | 0 <= i < j < |s|
        ensures Disjoint(s[i], s[j])
      {
        assert s[i] in multiset(s) && s[j] in multiset(s);
        Duplicates(s, s[i]);
      }
    }
  }

  lemma PermutationKeepsValidity(a: seq<Interval>, b: seq<Interval>)
    requires multiset(a) == multiset(b)
    ensures ValidConfiguration(a) <==> ValidConfiguration(b)
  {
    MembersDecide(a);
    MembersDecide(b);
  }

  lemma IncreasingIsValid(s: seq<Interval>)
    requires Increasing(s, |s|)
    ensures ValidConfiguration(s)
  {
  }

  /** Two entries of the list share a round. */
  ghost predicate Overlapping(s: seq<Interval>) {
    exists i, j :: 0 <= i < j < |s| && !Disjoint(s[i], s[j])
  }

  /** Two neighbours that touch are two entries of the original list that overlap. */
  lemma TouchingNeighbours(s: seq<Interval>, i: nat, original: seq<Interval>)
    requires 0 < i < |s| && SortedByStart(s) && multiset(s) == multiset(original)
    requires s[i].start <= s[i].end && s[i].start <= s[i - 1].end
    ensures !ValidConfiguration(s)
    ensures Overlapping(original)
  {
    var x, y := s[i - 1], s[i];
    assert Contains(x, y.start) && Contains(y, y.start);
    assert x in multiset(s) && y in multiset(s);
    var j :| 0 <= j < |original| && original[j] == x;
    var k :| 0 <= k < |original| && original[k] == y;
    if x == y {
      Duplicates(s, x);
      Duplicates(original, x);
    } else {
      assert j < k ==> !Disjoint(original[j], original[k]);
      assert k < j ==> !Disjoint(original[k], original[j]);
    }
  }

  // ---------- the handler ----------

  lemma InsertionKeepsMembers(ordered: seq<Interval>, j: nat, x: Interval)
    requires j <= |ordered|
    ensures multiset(ordered[..j] + [x] + ordered[j..]) == multiset(ordered) + multiset{x}
  {
    assert ordered == ordered[..j] + ordered[j..];
  }

  lemma InsertionKeepsSorted(ordered: seq<Interval>, j: nat, x: Interval)
    requires SortedByStart(ordered) && j <= |ordered|
    requires forall k :: j <= k < |ordered| ==> ordered[k].start > x.start
    requires j > 0 ==> ordered[j - 1].start <= x.start
    ensures SortedByStart(ordered[..j] + [x] + ordered[j..])
  {
    var r := ordered[..j] + [x] + ordered[j..];
    forall k | 0 <= k < |r|
      ensures r[k] == if k < j then ordered[k] else if k == j then x else ordered[k - 1]
    {
    }
    assert forall k :: 0 <= k < j ==> ordered[k].start <= x.start;
  }

  /** Where x goes in a list ordered by start round. */
  method InsertionPlace(ordered: seq<Interval>, x: Interval) returns (j: nat)
    requires SortedByStart(ordered)
    ensures j <= |ordered|
    ensures forall k :: j <= k < |ordered| ==> ordered[k].start > x.start
    ensures j > 0 ==> ordered[j - 1].start <= x.start
  {
    j := |ordered|;
    while j > 0 && ordered[j - 1].start > x.start
      invariant 0 <= j <= |ordered|
      invariant forall k :: j <= k < |ordered| ==> ordered[k].start > x.start
    {
      j := j - 1;
    }
  }

  lemma OneMore(intervals: seq<Interval>, i: nat)
    requires i < |intervals|
    ensures multiset(intervals[..i + 1]) == multiset(intervals[..i]) + multiset{intervals[i]}
  {
    assert intervals[..i + 1] == intervals[..i] + [intervals[i]];
  }

  /** sort.Slice by start round; which of two intervals with the same start comes first is left open. */
  method SortByStart(intervals: seq<Interval>) returns (ordered: seq<Interval>)
    ensures multiset(ordered) == multiset(intervals)
    ensures SortedByStart(ordered)
  {
    ordered := [];
    var i := 0;
    while i < |intervals|
      invariant i <= |intervals|
      invariant multiset(ordered) == multiset(intervals[..i])
      invariant SortedByStart(ordered)
    {
      hide SortedByStart;
      var j := InsertionPlace(ordered, intervals[i]);
      OneMore(intervals, i);
      InsertionKeepsSorted(ordered, j, intervals[i]);
      InsertionKeepsMembers(ordered, j, intervals[i]);
      ordered := ordered[..j] + [intervals[i]] + ordered[j..];
      i := i + 1;
    }
    assert intervals[..i] == intervals;
  }

  /** sort.Search: the first index in [0, n) whose interval does not end before `round`, or n. */
  method SearchByEnd(intervals: seq<Interval>, round: uint64) returns (index: nat)
    requires Increasing(intervals, |intervals|)
    ensures index <= |intervals|
    ensures forall k :: 0 <= k < index ==> intervals[k].end < round
    ensures index < |intervals| ==> intervals[index].end >= round
  {
    var i, j := 0, |intervals|;
    while i < j
      invariant i <= j <= |intervals|
      invariant forall k :: 0 <= k < i ==> intervals[k].end < round
      invariant j < |intervals| ==> intervals[j].end >= round
    {
      var h := (i + j) / 2;
      if !(intervals[h].end >= round) {
        forall k | 0 <= k <= h
          ensures intervals[k].end < round
        {
          assert k < h ==> intervals[k].end < intervals[h].start;
        }
        i := h + 1;
      } else {
        j := h;
      }
    }
    index := i;
  }
}
