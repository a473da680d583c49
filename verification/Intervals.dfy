/** Time covered by at least one interval: the sweep in Go and the gaps-and-islands query in SQL. */
module Intervals {
  import opened Ordering

  datatype Interval = Interval(start: int, end: int, kind: string)

  // ---------------------------------------------------------------- what is measured

  predicate Within(start: int, t: int, end: int) {
    start <= t < end
  }

  ghost function Units(start: int, end: int): set<int> {
    set t | start <= t < end && Within(start, t, end)
  }

  /** The time units that lie in at least one interval. */
  ghost function Cover(intervals: seq<Interval>): set<int> {
    if intervals == [] then {}
    else
      var last := intervals[|intervals| - 1];
      Cover(intervals[..|intervals| - 1]) + Units(last.start, last.end)
  }

  lemma {:induction false} CoverMember(intervals: seq<Interval>, t: int)
    ensures t in Cover(intervals) <==> exists i :: 0 <= i < |intervals| && intervals[i].start <= t < intervals[i].end
    decreases |intervals|
  {
    if intervals != [] {
      CoverMember(intervals[..|intervals| - 1], t);
    }
  }

  lemma {:induction false} CoverPermuted(a: seq<Interval>, b: seq<Interval>)
    requires multiset(a) == multiset(b)
    ensures Cover(a) == Cover(b)
  {
    CoverWithin(a, b);
    CoverWithin(b, a);
  }

  lemma {:induction false} CoverWithin(a: seq<Interval>, b: seq<Interval>)
    requires multiset(a) == multiset(b)
    ensures Cover(a) <= Cover(b)
  {
    forall t | t in Cover(a) ensures t in Cover(b) {
      CoverMember(a, t);
      CoverMember(b, t);
      var i :| 0 <= i < |a| && a[i].start <= t < a[i].end;
      var j := IndexIn(a[i], a, b);
    }
  }

  lemma {:induction false} CoverNext(intervals: seq<Interval>, k: nat)
    requires k < |intervals|
    ensures Cover(intervals[..k + 1]) == Cover(intervals[..k]) + Units(intervals[k].start, intervals[k].end)
  {
    assert intervals[..k + 1][..k] == intervals[..k];
  }

  lemma {:induction false} UnitCount(start: int, end: int)
    requires start <= end
    ensures |Units(start, end)| == end - start
    decreases end - start
  {
    if start < end {
      UnitCount(start, end - 1);
      assert Units(start, end) == Units(start, end - 1) + {end - 1};
    }
  }

  // ---------------------------------------------------------------- one step of either sweep

  /** Everything covered so far is closed time before `start` plus the open island. */
  ghost predicate Swept(covered: set<int>, closed: set<int>, start: int, end: int) {
    && start <= end
    && covered == closed + Units(start, end)
    && forall t :: t in closed ==> t < start
  }

  lemma {:induction false} SweptCount(covered: set<int>, closed: set<int>, start: int, end: int)
    requires Swept(covered, closed, start, end)
    ensures |covered| == |closed| + end - start
  {
    UnitCount(start, end);
    assert closed !! Units(start, end);
  }

  lemma {:induction false} Extends(covered: set<int>, closed: set<int>, start: int, end: int, from: int, to: int)
    requires Swept(covered, closed, start, end) && start <= from <= end
    ensures Swept(covered + Units(from, to), closed, start, if to > end then to else end)
  {}

  lemma {:induction false} Opens(covered: set<int>, closed: set<int>, start: int, end: int, from: int, to: int)
    requires Swept(covered, closed, start, end) && end < from <= to
    ensures Swept(covered + Units(from, to), covered, from, to)
  {}

  // ---------------------------------------------------------------- the sweep

  predicate Included(interval: Interval, included: map<string, bool>) {
    interval.kind in included && included[interval.kind] && interval.end > interval.start
  }

  function Selected(intervals: seq<Interval>, included: map<string, bool>): seq<Interval> {
    if intervals == [] then []
    else
      var last := intervals[|intervals| - 1];
      Selected(intervals[..|intervals| - 1], included) + if Included(last, included) then [last] else []
  }

  lemma {:induction false} SelectedMember(intervals: seq<Interval>, included: map<string, bool>, x: Interval)
    ensures x in Selected(intervals, included) <==> x in intervals && Included(x, included)
    decreases |intervals|
  {
    if intervals != [] {
      SelectedMember(intervals[..|intervals| - 1], included, x);
      assert intervals == intervals[..|intervals| - 1] + [intervals[|intervals| - 1]];
    }
  }

  predicate EarlierStart(a: Interval, b: Interval) {
    a.start < b.start
  }

  /** The number of time units that at least one included interval covers. */
  method UnionDuration(intervals: seq<Interval>, included: map<string, bool>) returns (total: int)
    ensures total == |Cover(Selected(intervals, included))|
  {
    var selected := [];
    for i := 0 to |intervals|
      invariant selected == Selected(intervals[..i], included)
    {
      assert intervals[..i + 1][..i] == intervals[..i];
      if Included(intervals[i], included) {
        selected := selected + [intervals[i]];
      }
    }
    assert intervals[..|intervals|] == intervals;
    if |selected| == 0 {
      return 0;
    }
    var sorted := SortSlice(EarlierStart, selected);
    CoverPermuted(selected, sorted);
    ProperIntervals(intervals, included, sorted);
    assert |sorted| == |multiset(sorted)| == |selected|;
    total := Sweep(sorted);
  }

  lemma {:induction false} ProperIntervals(intervals: seq<Interval>, included: map<string, bool>, sorted: seq<Interval>)
    requires multiset(sorted) == multiset(Selected(intervals, included))
    ensures forall i :: 0 <= i < |sorted| ==> sorted[i].start < sorted[i].end
  {
    forall i | 0 <= i < |sorted| ensures sorted[i].start < sorted[i].end {
      var j := IndexIn(sorted[i], sorted, Selected(intervals, included));
      SelectedMember(intervals, included, sorted[i]);
    }
  }

  method Sweep(sorted: seq<Interval>) returns (total: int)
    requires sorted != [] && Sorted(EarlierStart, sorted)
    requires forall i :: 0 <= i < |sorted| ==> sorted[i].start < sorted[i].end
    ensures total == |Cover(sorted)|
  {
    var start, end := sorted[0].start, sorted[0].end;
    total := 0;
    ghost var closed: set<int> := {};
    CoverNext(sorted, 0);
    for k := 1 to |sorted|
      invariant Swept(Cover(sorted[..k]), closed, start, end) && total == |closed|
      invariant start <= sorted[k - 1].start
    {
      var interval := sorted[k];
      assert !EarlierStart(interval, sorted[k - 1]);
      CoverNext(sorted, k);
      if interval.start > end {
        Opens(Cover(sorted[..k]), closed, start, end, interval.start, interval.end);
        SweptCount(Cover(sorted[..k]), closed, start, end);
        total := total + (end - start);
        closed := Cover(sorted[..k]);
        start, end := interval.start, interval.end;
      } else {
        Extends(Cover(sorted[..k]), closed, start, end, interval.start, interval.end);
        if interval.end > end {
          end := interval.end;
        }
      }
    }
    assert sorted[..|sorted|] == sorted;
    SweptCount(Cover(sorted), closed, start, end);
    total := total + (end - start);
  }
}
