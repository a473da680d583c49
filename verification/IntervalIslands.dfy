/** The gaps-and-islands query: the same covered time from window functions and a grouping. */
module IntervalIslands {
  import opened Ordering
  import opened Intervals

  // ---------------------------------------------------------------- the query

  /** ORDER BY start, end; rows that agree on both are peers. */
  predicate RowLess(a: Interval, b: Interval) {
    if a.start != b.start then a.start < b.start else a.end < b.end
  }

  function MaxEnd(rows: seq<Interval>): int
    requires rows != []
  {
    var last := rows[|rows| - 1].end;
    if |rows| == 1 then last else if MaxEnd(rows[..|rows| - 1]) > last then MaxEnd(rows[..|rows| - 1]) else last
  }

  function MinStart(rows: seq<Interval>): int
    requires rows != []
  {
    var last := rows[|rows| - 1].start;
    if |rows| == 1 then last else if MinStart(rows[..|rows| - 1]) < last then MinStart(rows[..|rows| - 1]) else last
  }

  /** max(end) over the rows before this one is null or less than its start. */
  function Flag(rows: seq<Interval>, i: nat): nat
    requires i < |rows|
  {
    if i == 0 || rows[i].start > MaxEnd(rows[..i]) then 1 else 0
  }

  function FlagSum(rows: seq<Interval>, n: nat): nat
    requires n <= |rows|
  {
    if n == 0 then 0 else FlagSum(rows, n - 1) + Flag(rows, n - 1)
  }

  /** A running sum without an explicit frame includes all peers of the current row. */
  function FrameEnd(rows: seq<Interval>, i: nat): (n: nat)
    requires i < |rows|
    ensures i < n <= |rows|
    decreases |rows| - i
  {
    if i + 1 < |rows| && !RowLess(rows[i], rows[i + 1]) then FrameEnd(rows, i + 1) else i + 1
  }

  function GroupOf(rows: seq<Interval>, i: nat): nat
    requires i < |rows|
  {
    FlagSum(rows, FrameEnd(rows, i))
  }

  /** The rows among the first `n` that fall into group `g`. */
  function Group(rows: seq<Interval>, g: nat, n: nat): seq<Interval>
    requires n <= |rows|
  {
    if n == 0 then [] else Group(rows, g, n - 1) + if GroupOf(rows, n - 1) == g then [rows[n - 1]] else []
  }

  function Span(rows: seq<Interval>): int {
    if rows == [] then 0 else MaxEnd(rows) - MinStart(rows)
  }

  function SpanOf(rows: seq<Interval>, n: nat): nat -> int
    requires n <= |rows|
  {
    (g: nat) => Span(Group(rows, g, n))
  }

  function SumTo(f: nat -> int, n: nat): int {
    if n == 0 then 0 else SumTo(f, n - 1) + f(n)
  }

  /** Summed over groups 1 to `|rows|`, of the first `n` rows only. */
  function SpanSum(rows: seq<Interval>, n: nat): int
    requires n <= |rows|
  {
    SumTo(SpanOf(rows, n), |rows|)
  }

  /** Group numbers run from 1 to at most the number of rows; a number without rows adds nothing. */
  function IslandsTotal(rows: seq<Interval>): int {
    SpanSum(rows, |rows|)
  }

  // ---------------------------------------------------------------- peers and groups

  lemma {:induction false} MaxEndBounds(rows: seq<Interval>, i: nat)
    requires i < |rows|
    ensures rows[i].end <= MaxEnd(rows)
    decreases |rows|
  {
    if i < |rows| - 1 {
      MaxEndBounds(rows[..|rows| - 1], i);
    }
  }

  lemma {:induction false} MaxEndGrows(rows: seq<Interval>, i: nat)
    requires 0 < i < |rows|
    ensures MaxEnd(rows[..i]) <= MaxEnd(rows[..i + 1])
    ensures MaxEnd(rows[..i + 1]) == if MaxEnd(rows[..i]) > rows[i].end then MaxEnd(rows[..i]) else rows[i].end
  {
    assert rows[..i + 1] == rows[..i] + [rows[i]];
    BoundsNext(rows[..i], rows[i]);
  }

  /** Some row up to this one reaches its start, so a later peer does not start an island. */
  predicate Reached(rows: seq<Interval>, i: nat)
    requires i < |rows|
  {
    rows[i].start <= MaxEnd(rows[..i + 1])
  }

  predicate Peers(rows: seq<Interval>, i: nat)
    requires i + 1 < |rows|
  {
    rows[i].start == rows[i + 1].start && rows[i].end == rows[i + 1].end
  }

  lemma {:induction false} PeersOrLess(rows: seq<Interval>, i: nat)
    requires Sorted(RowLess, rows) && i + 1 < |rows|
    ensures Peers(rows, i) <==> !RowLess(rows[i], rows[i + 1])
    ensures rows[i].start <= rows[i + 1].start
  {
    assert !RowLess(rows[i + 1], rows[i]);
  }

  lemma {:induction false} GroupIsRunning(rows: seq<Interval>, i: nat)
    requires Sorted(RowLess, rows) && i < |rows| && Reached(rows, i)
    ensures GroupOf(rows, i) == FlagSum(rows, i + 1)
    decreases |rows| - i
  {
    if i + 1 < |rows| && !RowLess(rows[i], rows[i + 1]) {
      PeersOrLess(rows, i);
      MaxEndGrows(rows, i + 1);
      GroupIsRunning(rows, i + 1);
    }
  }

  lemma {:induction false} FlagSumBounds(rows: seq<Interval>, n: nat)
    requires n <= |rows|
    ensures FlagSum(rows, n) <= n
    ensures n > 0 ==> FlagSum(rows, n) > 0
  {
    if n > 0 {
      FlagSumBounds(rows, n - 1);
    }
  }

  lemma {:induction false} FlagSumGrows(rows: seq<Interval>, m: nat, n: nat)
    requires m <= n <= |rows|
    ensures FlagSum(rows, m) <= FlagSum(rows, n)
  {
    if m < n {
      FlagSumGrows(rows, m, n - 1);
    }
  }

  /** No row before `n` has a peer from `n` on. */
  predicate Boundary(rows: seq<Interval>, n: nat)
    requires n <= |rows|
  {
    n == 0 || n == |rows| || !Peers(rows, n - 1)
  }

  lemma {:induction false} FrameWithin(rows: seq<Interval>, i: nat, n: nat)
    requires Sorted(RowLess, rows) && i < n <= |rows| && Boundary(rows, n)
    ensures FrameEnd(rows, i) <= n
    decreases |rows| - i
  {
    if i + 1 < |rows| {
      PeersOrLess(rows, i);
      if i + 1 < n {
        FrameWithin(rows, i + 1, n);
      }
    }
  }

  // ---------------------------------------------------------------- one more row

  lemma {:induction false} OtherGroup(rows: seq<Interval>, g: nat, n: nat)
    requires n < |rows| && GroupOf(rows, n) != g
    ensures Group(rows, g, n + 1) == Group(rows, g, n)
  {}

  lemma {:induction false} SumsDiffer(before: nat -> int, after: nat -> int, n: nat, g: nat)
    requires forall i: nat :: i != g ==> before(i) == after(i)
    ensures SumTo(after, n) - SumTo(before, n) == if 1 <= g <= n then after(g) - before(g) else 0
  {
    if n > 0 {
      SumsDiffer(before, after, n - 1, g);
    }
  }

  /** Only the group of the new row changes. */
  lemma {:induction false} SpanSumNext(rows: seq<Interval>, n: nat)
    requires n < |rows| && 1 <= GroupOf(rows, n) <= |rows|
    ensures var g := GroupOf(rows, n);
      SpanSum(rows, n + 1) - SpanSum(rows, n) == Span(Group(rows, g, n + 1)) - Span(Group(rows, g, n))
  {
    forall g: nat | g != GroupOf(rows, n) ensures SpanOf(rows, n)(g) == SpanOf(rows, n + 1)(g) {
      OtherGroup(rows, g, n);
    }
    SumsDiffer(SpanOf(rows, n), SpanOf(rows, n + 1), |rows|, GroupOf(rows, n));
  }

  lemma {:induction false} GroupEmpty(rows: seq<Interval>, g: nat, n: nat)
    requires n <= |rows| && forall i :: 0 <= i < n ==> GroupOf(rows, i) != g
    ensures Group(rows, g, n) == []
  {
    if n > 0 {
      GroupEmpty(rows, g, n - 1);
    }
  }

  lemma {:induction false} GroupBound(rows: seq<Interval>, i: nat, n: nat)
    requires Sorted(RowLess, rows) && i < n <= |rows| && Boundary(rows, n)
    ensures GroupOf(rows, i) <= FlagSum(rows, n)
  {
    FrameWithin(rows, i, n);
    FlagSumGrows(rows, FrameEnd(rows, i), n);
  }

  /** Groups are numbered from the first row that opens an island, and never more than there are rows. */
  lemma {:induction false} OpeningNumber(rows: seq<Interval>, n: nat)
    requires n < |rows| && Flag(rows, n) == 1
    ensures FlagSum(rows, n) < GroupOf(rows, n) <= |rows|
  {
    FlagSumGrows(rows, n + 1, FrameEnd(rows, n));
    FlagSumBounds(rows, FrameEnd(rows, n));
  }

  /** The group of a row that opens an island has no earlier rows. */
  lemma {:induction false} OpeningGroup(rows: seq<Interval>, n: nat)
    requires Sorted(RowLess, rows) && n < |rows| && Boundary(rows, n) && Flag(rows, n) == 1
    ensures 1 <= GroupOf(rows, n) <= |rows| && Group(rows, GroupOf(rows, n), n) == []
  {
    OpeningNumber(rows, n);
    forall i | 0 <= i < n ensures GroupOf(rows, i) != GroupOf(rows, n) {
      GroupBound(rows, i, n);
    }
    GroupEmpty(rows, GroupOf(rows, n), n);
  }

  lemma {:induction false} BoundsNext(rows: seq<Interval>, x: Interval)
    requires rows != []
    ensures MaxEnd(rows + [x]) == if MaxEnd(rows) > x.end then MaxEnd(rows) else x.end
    ensures MinStart(rows + [x]) == if MinStart(rows) < x.start then MinStart(rows) else x.start
  {
    assert (rows + [x])[..|rows|] == rows;
  }

  /** The group of the last row. */
  function LastGroup(rows: seq<Interval>, n: nat): seq<Interval>
    requires 0 < n <= |rows|
  {
    Group(rows, GroupOf(rows, n - 1), n)
  }

  /** The island under construction is the last group, which reaches as far as any row so far. */
  ghost predicate LastIsland(rows: seq<Interval>, n: nat, start: int, end: int)
    requires 0 < n <= |rows|
  {
    var last := LastGroup(rows, n);
    last != [] && MinStart(last) == start <= rows[n - 1].start && MaxEnd(last) == end == MaxEnd(rows[..n])
  }

  /** A row that ends before it starts and that no earlier row reaches. */
  predicate OpensBackward(rows: seq<Interval>, i: nat)
    requires i < |rows|
  {
    rows[i].end < rows[i].start && Flag(rows, i) == 1
  }

  /** A later peer changes neither the total nor the last group's bounds. */
  lemma {:induction false} PeerTotal(rows: seq<Interval>, n: nat)
    requires Sorted(RowLess, rows) && 0 < n < |rows| && Peers(rows, n - 1)
    ensures SpanSum(rows, n + 1) == SpanSum(rows, n) && MaxEnd(rows[..n + 1]) == MaxEnd(rows[..n])
    ensures LastGroup(rows, n + 1) == LastGroup(rows, n) + [rows[n]]
    ensures LastGroup(rows, n) != []
    ensures MaxEnd(LastGroup(rows, n + 1)) == MaxEnd(LastGroup(rows, n))
    ensures MinStart(LastGroup(rows, n + 1)) == MinStart(LastGroup(rows, n))
  {
    PeersOrLess(rows, n - 1);
    var last := LastGroup(rows, n);
    assert last[|last| - 1] == rows[n - 1];
    MaxEndBounds(last, |last| - 1);
    MaxEndBounds(rows[..n], n - 1);
    MaxEndGrows(rows, n);
    BoundsNext(last, rows[n]);
    FlagSumBounds(rows, FrameEnd(rows, n));
    SpanSumNext(rows, n);
  }

  /** A peer of a row that opens an island backward follows it; the first of them counts. */
  lemma {:induction false} PeerOpensNothingNew(rows: seq<Interval>, n: nat)
    requires Sorted(RowLess, rows) && 0 < n < |rows| && Peers(rows, n - 1) && OpensBackward(rows, n)
    ensures OpensBackward(rows, n - 1)
  {
    if n > 1 {
      MaxEndGrows(rows, n - 1);
    }
  }

  lemma {:induction false} RunningGroup(rows: seq<Interval>, n: nat)
    requires Sorted(RowLess, rows) && 0 < n <= |rows| && Boundary(rows, n)
    ensures GroupOf(rows, n - 1) == FlagSum(rows, n)
  {
    FrameWithin(rows, n - 1, n);
  }

  lemma {:induction false} GrowingTotal(rows: seq<Interval>, n: nat, start: int, end: int) returns (grown: int)
    requires Sorted(RowLess, rows) && 0 < n < |rows| && Boundary(rows, n)
    requires LastIsland(rows, n, start, end) && rows[n].start <= end
    ensures grown == if rows[n].end > end then rows[n].end else end
    ensures LastIsland(rows, n + 1, start, grown)
    ensures SpanSum(rows, n + 1) == SpanSum(rows, n) + grown - end
  {
    grown := if rows[n].end > end then rows[n].end else end;
    MaxEndGrows(rows, n);
    GroupIsRunning(rows, n);
    RunningGroup(rows, n);
    PeersOrLess(rows, n - 1);
    BoundsNext(LastGroup(rows, n), rows[n]);
    FlagSumBounds(rows, n + 1);
    SpanSumNext(rows, n);
  }

  /** A new island is a group of its own, also when its row runs backward. */
  lemma {:induction false} OpeningTotal(rows: seq<Interval>, n: nat)
    requires n < |rows| && 1 <= GroupOf(rows, n) <= |rows| && Group(rows, GroupOf(rows, n), n) == []
    ensures SpanSum(rows, n + 1) == SpanSum(rows, n) + rows[n].end - rows[n].start
    ensures LastGroup(rows, n + 1) == [rows[n]]
  {
    SpanSumNext(rows, n);
  }

  lemma {:induction false} OpeningIsland(rows: seq<Interval>, n: nat)
    requires Sorted(RowLess, rows) && n < |rows| && Boundary(rows, n) && Flag(rows, n) == 1
    requires rows[n].start <= rows[n].end
    ensures LastIsland(rows, n + 1, rows[n].start, rows[n].end)
  {
    OpeningGroup(rows, n);
    OpeningTotal(rows, n);
    if n > 0 {
      MaxEndGrows(rows, n);
    }
  }

  // ---------------------------------------------------------------- exactly when the query counts the cover

  /** Between islands nothing is open: the last row opened one backward. */
  ghost predicate BetweenIslands(rows: seq<Interval>, n: nat, start: int, end: int)
    requires 0 < n <= |rows|
  {
    start == end == rows[n - 1].start && rows[n - 1].start > MaxEnd(rows[..n])
  }

  ghost predicate Counted(rows: seq<Interval>, n: nat, closed: set<int>, start: int, end: int, deficit: nat)
    requires 0 < n <= |rows|
  {
    && (LastIsland(rows, n, start, end) || BetweenIslands(rows, n, start, end))
    && Swept(Cover(rows[..n]), closed, start, end)
    && SpanSum(rows, n) == |closed| + end - start - deficit
  }

  ghost predicate NoneBackward(rows: seq<Interval>, n: nat)
    requires n <= |rows|
  {
    forall i :: 0 <= i < n ==> !OpensBackward(rows, i)
  }

  lemma {:induction false} CountPeer(rows: seq<Interval>, n: nat, closed: set<int>, start: int, end: int, deficit: nat)
    requires Sorted(RowLess, rows) && 0 < n < |rows| && Peers(rows, n - 1)
    requires Counted(rows, n, closed, start, end, deficit)
    ensures Counted(rows, n + 1, closed, start, end, deficit)
    ensures NoneBackward(rows, n + 1) <==> NoneBackward(rows, n)
  {
    PeerTotal(rows, n);
    CoverNext(rows, n);
    CoverNext(rows, n - 1);
    assert Cover(rows[..n + 1]) == Cover(rows[..n]);
    if OpensBackward(rows, n) {
      PeerOpensNothingNew(rows, n);
    }
  }

  lemma {:induction false} CoverBehind(covered: set<int>, closed: set<int>, start: int, end: int, from: int)
    requires Swept(covered, closed, start, end) && (end < from || start == end <= from)
    ensures forall t :: t in covered ==> t < from
  {}

  lemma {:induction false} CountOpening(rows: seq<Interval>, n: nat) returns (closed: set<int>, start: int, end: int,
                                        more: nat)
    requires Sorted(RowLess, rows) && n < |rows| && Boundary(rows, n) && Flag(rows, n) == 1
    requires forall t :: t in Cover(rows[..n]) ==> t < rows[n].start
    ensures LastIsland(rows, n + 1, start, end) || BetweenIslands(rows, n + 1, start, end)
    ensures Swept(Cover(rows[..n + 1]), closed, start, end)
    ensures SpanSum(rows, n + 1) - SpanSum(rows, n) == |closed| + end - start - |Cover(rows[..n])| - more
    ensures more > 0 <==> OpensBackward(rows, n)
  {
    var row := rows[n];
    OpeningGroup(rows, n);
    OpeningTotal(rows, n);
    CoverNext(rows, n);
    closed, start := Cover(rows[..n]), row.start;
    if row.end < row.start {
      end, more := row.start, row.start - row.end;
      if n > 0 {
        MaxEndGrows(rows, n);
      }
    } else {
      end, more := row.end, 0;
      OpeningIsland(rows, n);
    }
  }

  lemma {:induction false} NoneBackwardNext(rows: seq<Interval>, n: nat)
    requires n < |rows|
    ensures NoneBackward(rows, n + 1) <==> NoneBackward(rows, n) && !OpensBackward(rows, n)
  {}

  lemma {:induction false} CountNewIsland(rows: seq<Interval>, n: nat, closed: set<int>, start: int, end: int,
                                          deficit: nat)
    returns (closed': set<int>, start': int, end': int, deficit': nat)
    requires Sorted(RowLess, rows) && 0 < n < |rows| && Boundary(rows, n) && Flag(rows, n) == 1
    requires Counted(rows, n, closed, start, end, deficit)
    ensures Counted(rows, n + 1, closed', start', end', deficit')
    ensures deficit' >= deficit && (deficit' > deficit <==> OpensBackward(rows, n))
  {
    PeersOrLess(rows, n - 1);
    CoverBehind(Cover(rows[..n]), closed, start, end, rows[n].start);
    SweptCount(Cover(rows[..n]), closed, start, end);
    var more;
    closed', start', end', more := CountOpening(rows, n);
    deficit' := deficit + more;
  }

  lemma {:induction false} CountJoining(rows: seq<Interval>, n: nat, closed: set<int>, start: int, end: int,
                                        deficit: nat)
    returns (end': int)
    requires Sorted(RowLess, rows) && 0 < n < |rows| && Boundary(rows, n) && Flag(rows, n) == 0
    requires Counted(rows, n, closed, start, end, deficit)
    ensures Counted(rows, n + 1, closed, start, end', deficit)
  {
    PeersOrLess(rows, n - 1);
    CoverNext(rows, n);
    Extends(Cover(rows[..n]), closed, start, end, rows[n].start, rows[n].end);
    end' := GrowingTotal(rows, n, start, end);
  }

  lemma {:induction false} FirstRow(rows: seq<Interval>)
    returns (closed: set<int>, start: int, end: int, deficit: nat)
    requires Sorted(RowLess, rows) && rows != []
    ensures Counted(rows, 1, closed, start, end, deficit)
    ensures deficit == 0 <==> !OpensBackward(rows, 0)
  {
    NoRows(rows, |rows|);
    closed, start, end, deficit := CountOpening(rows, 0);
  }

  lemma {:induction false} IslandsPrefix(rows: seq<Interval>, n: nat)
    returns (closed: set<int>, start: int, end: int, deficit: nat)
    requires Sorted(RowLess, rows) && 0 < n <= |rows|
    ensures Counted(rows, n, closed, start, end, deficit)
    ensures deficit == 0 <==> NoneBackward(rows, n)
  {
    var k := n - 1;
    NoneBackwardNext(rows, k);
    if k == 0 {
      closed, start, end, deficit := FirstRow(rows);
    } else {
      closed, start, end, deficit := IslandsPrefix(rows, k);
      if Peers(rows, k - 1) {
        CountPeer(rows, k, closed, start, end, deficit);
      } else if Flag(rows, k) == 1 {
        closed, start, end, deficit := CountNewIsland(rows, k, closed, start, end, deficit);
      } else {
        end := CountJoining(rows, k, closed, start, end, deficit);
      }
    }
  }

  lemma {:induction false} NoRows(rows: seq<Interval>, n: nat)
    ensures SumTo(SpanOf(rows, 0), n) == 0
  {
    if n > 0 {
      NoRows(rows, n - 1);
    }
  }

  /** Every row that ends before it starts is reached by an earlier row. */
  ghost predicate BackwardRowsReached(rows: seq<Interval>) {
    forall i :: 0 <= i < |rows| && rows[i].end < rows[i].start ==> i > 0 && rows[i].start <= MaxEnd(rows[..i])
  }

  lemma {:induction false} NoneBackwardMeansReached(rows: seq<Interval>)
    ensures NoneBackward(rows, |rows|) <==> BackwardRowsReached(rows)
  {
    if NoneBackward(rows, |rows|) {
      forall i | 0 <= i < |rows| && rows[i].end < rows[i].start ensures i > 0 && rows[i].start <= MaxEnd(rows[..i]) {
        assert !OpensBackward(rows, i);
      }
    }
  }

  /** The query never counts more than the covered time units, and counts exactly these if and only if every row
      that ends before it starts is reached by an earlier row. */
  lemma {:induction false} IslandsCountCover(rows: seq<Interval>)
    requires Sorted(RowLess, rows)
    ensures IslandsTotal(rows) <= |Cover(rows)|
    ensures IslandsTotal(rows) == |Cover(rows)| <==> BackwardRowsReached(rows)
  {
    NoneBackwardMeansReached(rows);
    if rows == [] {
      NoRows(rows, 0);
    } else {
      var closed, start, end, deficit := IslandsPrefix(rows, |rows|);
      assert rows[..|rows|] == rows;
      SweptCount(Cover(rows), closed, start, end);
    }
  }

  /** Hence the query and the sweep agree on the same intervals, however each of them arranges its rows, under
      exactly that condition. */
  lemma {:induction false} QueryAgreesWithSweep(intervals: seq<Interval>, included: map<string, bool>,
                                                rows: seq<Interval>)
    requires Sorted(RowLess, rows) && multiset(rows) == multiset(intervals)
    requires forall x :: x in intervals ==> x.kind in included && included[x.kind]
    ensures IslandsTotal(rows) <= |Cover(Selected(intervals, included))|
    ensures IslandsTotal(rows) == |Cover(Selected(intervals, included))| <==> BackwardRowsReached(rows)
  {
    IslandsCountCover(rows);
    CoverPermuted(rows, intervals);
    EmptyIntervalsCoverNothing(intervals, included);
  }

  lemma {:induction false} EmptyIntervalsCoverNothing(intervals: seq<Interval>, included: map<string, bool>)
    requires forall x :: x in intervals ==> x.kind in included && included[x.kind]
    ensures Cover(Selected(intervals, included)) == Cover(intervals)
    decreases |intervals|
  {
    if intervals != [] {
      var init, last := intervals[..|intervals| - 1], intervals[|intervals| - 1];
      EmptyIntervalsCoverNothing(init, included);
      assert last in intervals;
      if Included(last, included) {
        assert (Selected(init, included) + [last])[..|Selected(init, included)|] == Selected(init, included);
      } else {
        assert Units(last.start, last.end) == {};
        assert Selected(intervals, included) == Selected(init, included);
      }
    }
  }

  /** One row that ends before it starts makes the query negative when it stands alone, and does nothing inside
      an island. */
  lemma {:induction false} BackwardRowsDisagree()
    ensures IslandsTotal([Interval(5, 3, "")]) == -2 && |Cover([Interval(5, 3, "")])| == 0
    ensures IslandsTotal([Interval(1, 10, ""), Interval(3, 2, "")])
         == |Cover([Interval(1, 10, ""), Interval(3, 2, "")])|
  {
    var rows := [Interval(5, 3, "")];
    assert Group(rows, 1, 1) == Group(rows, 1, 0) + [rows[0]] == [rows[0]];
    assert SpanSum(rows, 1) == SumTo(SpanOf(rows, 1), 0) + Span(Group(rows, 1, 1));
    assert Cover(rows) == Cover(rows[..0]) + Units(5, 3) == {};
    var inside := [Interval(1, 10, ""), Interval(3, 2, "")];
    assert inside[..1] == [inside[0]];
    assert MaxEnd(inside[..1]) == 10;
    IslandsCountCover(inside);
  }
}
