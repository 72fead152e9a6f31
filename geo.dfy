/** The telemetry sample and the in-place sort applied to the collected list. */
module Geo {
  import opened Wrappers

  /** A sample: epoch seconds, degrees, optional metres, optional heading. */
  datatype Point = Point(time: real, lat: real, lon: real, alt: Option<real>, angle: Option<real>)

  /** Non-decreasing by time, the ordering the extractor's result is sorted in. */
  predicate SortedByTime(s: seq<Point>) {
    forall i, j :: 0 <= i < j < |s| ==> s[i].time <= s[j].time
  }

  /** The slice a[lo..hi] is non-decreasing by time. */
  ghost predicate SortedRange(a: array<Point>, lo: int, hi: int)
    requires 0 <= lo <= hi <= a.Length
    reads a
  {
    forall p, q :: lo <= p < q < hi ==> a[p].time <= a[q].time
  }

  /** `list.sort()` on the collected points, as an insertion sort keyed by time. */
  method SortByTime(a: array<Point>)
    modifies a
    ensures SortedByTime(a[..])
    ensures multiset(a[..]) == old(multiset(a[..]))
  {
    var i := 0;
    while i < a.Length
      invariant 0 <= i <= a.Length
      invariant SortedRange(a, 0, i)
      invariant multiset(a[..]) == old(multiset(a[..]))
    {
      InsertLast(a, i);
      i := i + 1;
    }
  }

  /** Moves a[i] down into the sorted prefix a[..i], leaving a[..i+1] sorted. */
  method InsertLast(a: array<Point>, i: int)
    requires 0 <= i < a.Length
    requires SortedRange(a, 0, i)
    modifies a
    ensures SortedRange(a, 0, i + 1)
    ensures multiset(a[..]) == old(multiset(a[..]))
  {
    var j := i;
    while j > 0 && a[j - 1].time > a[j].time
      invariant 0 <= j <= i
      invariant forall p, q :: 0 <= p < q <= i && p != j && q != j ==> a[p].time <= a[q].time
      invariant forall q :: j < q <= i ==> a[j].time <= a[q].time
      invariant multiset(a[..]) == old(multiset(a[..]))
    {
      Swap(a, j - 1, j);
      j := j - 1;
    }
  }

  /** Exchanges two elements. */
  method Swap(a: array<Point>, i: int, j: int)
    requires 0 <= i < j < a.Length
    modifies a
    ensures a[i] == old(a[j]) && a[j] == old(a[i])
    ensures forall k :: 0 <= k < a.Length && k != i && k != j ==> a[k] == old(a[k])
    ensures multiset(a[..]) == old(multiset(a[..]))
  {
    a[i], a[j] := a[j], a[i];
  }
}
