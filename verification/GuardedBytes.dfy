/** The guarded-byte count of validate_hosted_fragment_ids: overlapping intervals merged in one pass. */
module GuardedBytes {
  import opened Prelude
  import opened Sorting

  /** Half-open `[start, end)`. */
  datatype Interval = Interval(start: int, end: int)

  predicate Before(a: Interval, b: Interval) {
    a.start < b.start || (a.start == b.start && a.end <= b.end)
  }

  predicate SortedIntervals(s: seq<Interval>) {
    forall i, j :: 0 <= i < j < |s| ==> Before(s[i], s[j])
  }

  predicate Between(lo: int, x: int, hi: int) { lo <= x < hi }

  function Span(lo: int, hi: int): set<int> {
    set x: int | lo <= x < hi && Between(lo, x, hi)
  }

  function Addresses(s: seq<Interval>): set<int> {
    if s == [] then {} else Addresses(s[..|s|-1]) + Span(s[|s|-1].start, s[|s|-1].end)
  }

  lemma {:induction false} SpanSize(lo: int, hi: int)
    requires lo <= hi
    ensures |Span(lo, hi)| == hi - lo
    decreases hi - lo
  {
    if lo < hi {
      SpanSize(lo, hi - 1);
      assert Span(lo, hi) == Span(lo, hi - 1) + {hi - 1};
    }
  }

  function Insert(x: Interval, s: seq<Interval>): seq<Interval> {
    if s == [] || Before(x, s[0]) then [x] + s else [s[0]] + Insert(x, s[1..])
  }

  /** `sorted(intervals)` */
  function SortIntervals(s: seq<Interval>): seq<Interval> {
    if s == [] then [] else Insert(s[|s|-1], SortIntervals(s[..|s|-1]))
  }

  lemma {:induction false} InsertMembers(x: Interval, s: seq<Interval>)
    ensures forall y :: y in Insert(x, s) <==> y == x || y in s
    decreases |s|
  {
    if s != [] && !Before(x, s[0]) {
      InsertMembers(x, s[1..]);
      assert s == [s[0]] + s[1..];
    }
  }

  lemma {:induction false} InsertSorted(x: Interval, s: seq<Interval>)
    requires SortedIntervals(s)
    ensures SortedIntervals(Insert(x, s))
    decreases |s|
  {
    if s == [] {
    } else if Before(x, s[0]) {
    } else {
      InsertSorted(x, s[1..]);
      InsertMembers(x, s[1..]);
      var rest := Insert(x, s[1..]);
      forall j | 0 <= j < |rest| ensures Before(s[0], rest[j]) {
        assert rest[j] in rest;
        if rest[j] != x {
          var n :| 0 <= n < |s[1..]| && s[1..][n] == rest[j];
          assert s[n+1] == rest[j];
        }
      }
    }
  }

  lemma {:induction false} SortIsSorted(s: seq<Interval>)
    ensures SortedIntervals(SortIntervals(s))
    ensures forall y :: y in SortIntervals(s) <==> y in s
    decreases |s|
  {
    if s != [] {
      var init, last := s[..|s|-1], s[|s|-1];
      SortIsSorted(init);
      InsertSorted(last, SortIntervals(init));
      InsertMembers(last, SortIntervals(init));
      assert s == init + [last];
    }
  }

  lemma {:induction false} AddressesMember(s: seq<Interval>, x: int)
    ensures x in Addresses(s) <==> exists i :: i in s && i.start <= x < i.end
    decreases |s|
  {
    if s != [] {
      var init, last := s[..|s|-1], s[|s|-1];
      AddressesMember(init, x);
      assert s == init + [last];
    }
  }

  lemma SameAddresses(s: seq<Interval>, t: seq<Interval>)
    requires forall y :: y in s <==> y in t
    ensures Addresses(s) == Addresses(t)
  {
    forall x ensures x in Addresses(s) <==> x in Addresses(t) {
      AddressesMember(s, x);
      AddressesMember(t, x);
    }
  }

  /** The addresses counted so far, with the last cluster `[cluster, merged)` whole and on top. */
  ghost predicate Merged(seen: set<int>, cluster: int, merged: int) {
    Span(cluster, merged) <= seen && forall x :: x in seen ==> x < merged
  }

  /** A later interval adds only what lies above the merged end. */
  lemma MergeStep(seen: set<int>, cluster: int, merged: int, i: Interval)
    requires Merged(seen, cluster, merged) && cluster <= i.start <= i.end
    ensures i.start > merged ==>
      |seen + Span(i.start, i.end)| == |seen| + (i.end - i.start) && Merged(seen + Span(i.start, i.end), i.start, i.end)
    ensures i.start <= merged < i.end ==>
      |seen + Span(i.start, i.end)| == |seen| + (i.end - merged) && Merged(seen + Span(i.start, i.end), cluster, i.end)
    ensures i.start <= merged && i.end <= merged ==> seen + Span(i.start, i.end) == seen
  {
    if i.start > merged {
      SpanSize(i.start, i.end);
      assert seen !! Span(i.start, i.end);
    } else if i.end > merged {
      SpanSize(merged, i.end);
      assert seen + Span(i.start, i.end) == seen + Span(merged, i.end);
      assert seen !! Span(merged, i.end);
    }
  }

  /** The number of distinct addresses any of the ranges guards. */
  method CountGuardedBytes(ranges: seq<Interval>) returns (guarded: int)
    requires forall i :: i in ranges ==> i.start <= i.end
    ensures guarded == |Addresses(ranges)|
  {
    var intervals := SortIntervals(ranges);
    SortIsSorted(ranges);
    SameAddresses(ranges, intervals);
    guarded := 0;
    var mergedEnd: Option<int> := None;
    ghost var cluster := 0;
    var n := 0;
    while n < |intervals|
      invariant 0 <= n <= |intervals|
      invariant guarded == |Addresses(intervals[..n])|
      invariant mergedEnd.None? <==> n == 0
      invariant mergedEnd.Some? ==>
        Merged(Addresses(intervals[..n]), cluster, mergedEnd.value) && cluster <= intervals[n-1].start
    {
      var i := intervals[n];
      assert i in intervals && intervals[..n+1][..n] == intervals[..n];
      ghost var seen := Addresses(intervals[..n]);
      if mergedEnd.Some? {
        MergeStep(seen, cluster, mergedEnd.value, i);
      } else {
        assert seen == {};
        SpanSize(i.start, i.end);
        assert seen + Span(i.start, i.end) == Span(i.start, i.end);
      }
      if mergedEnd.None? || i.start > mergedEnd.value {
        guarded := guarded + (i.end - i.start);
        mergedEnd := Some(i.end);
        cluster := i.start;
      } else if i.end > mergedEnd.value {
        guarded := guarded + (i.end - mergedEnd.value);
        mergedEnd := Some(i.end);
      }
      n := n + 1;
    }
    assert intervals[..n] == intervals;
  }
}
