/** The bounded heap that keeps the best decisions, with the worst kept one at the root. */
module DecisionHeap {
  import opened Ordering

  // ---------------------------------------------------------------- the heap property

  function Parent(k: nat): nat {
    if k == 0 then 0 else (k - 1) / 2
  }

  /** The heap's `Less` is `better` turned around: an element may not be worse than its parent. */
  predicate OrderedAt<T>(better: (T, T) -> bool, items: seq<T>, k: nat) {
    0 < k < |items| ==> !better(items[Parent(k)], items[k])
  }

  ghost predicate IsHeap<T>(better: (T, T) -> bool, items: seq<T>) {
    forall k: nat :: OrderedAt(better, items, k)
  }

  /** The children of `hole` are not worse than its parent. */
  predicate BridgedAt<T>(better: (T, T) -> bool, items: seq<T>, hole: nat, k: nat) {
    0 < hole && k < |items| && Parent(k) == hole ==> !better(items[Parent(hole)], items[k])
  }

  ghost predicate HeapAbove<T>(better: (T, T) -> bool, items: seq<T>, hole: nat) {
    && (forall k: nat :: k != hole ==> OrderedAt(better, items, k))
    && (forall k: nat :: BridgedAt(better, items, hole, k))
  }

  ghost predicate HeapBelow<T>(better: (T, T) -> bool, items: seq<T>, hole: nat) {
    && (forall k: nat :: Parent(k) != hole ==> OrderedAt(better, items, k))
    && (forall k: nat :: BridgedAt(better, items, hole, k))
  }

  ghost predicate RootIsWorst<T>(better: (T, T) -> bool, items: seq<T>) {
    forall k :: 0 <= k < |items| ==> !better(items[0], items[k])
  }

  lemma {:induction false} RootNotBetter<T(!new)>(better: (T, T) -> bool, items: seq<T>, k: nat)
    requires Ordered(better) && IsHeap(better, items) && k < |items|
    ensures !better(items[0], items[k])
  {
    if k > 0 {
      RootNotBetter(better, items, Parent(k));
      assert OrderedAt(better, items, k);
    }
  }

  lemma {:induction false} HeapRoot<T(!new)>(better: (T, T) -> bool, items: seq<T>)
    requires Ordered(better) && IsHeap(better, items)
    ensures RootIsWorst(better, items)
  {
    forall k | 0 <= k < |items| ensures !better(items[0], items[k]) {
      RootNotBetter(better, items, k);
    }
  }

  function Swapped<T>(items: seq<T>, i: nat, j: nat): seq<T>
    requires i < |items| && j < |items|
  {
    items[i := items[j]][j := items[i]]
  }

  lemma {:induction false} SwappedElements<T>(items: seq<T>, i: nat, j: nat)
    requires i < |items| && j < |items|
    ensures multiset(Swapped(items, i, j)) == multiset(items)
  {}

  lemma {:induction false} SwapUp<T(!new)>(better: (T, T) -> bool, items: seq<T>, hole: nat)
    requires Ordered(better) && 0 < hole < |items|
    requires HeapAbove(better, items, hole) && better(items[Parent(hole)], items[hole])
    ensures HeapAbove(better, Swapped(items, Parent(hole), hole), Parent(hole))
  {
    var up := Parent(hole);
    var swapped := Swapped(items, up, hole);
    forall k: nat {:trigger OrderedAt(better, swapped, k)} | k != up ensures OrderedAt(better, swapped, k) {
      assert OrderedAt(better, items, k) || k == hole;
      assert BridgedAt(better, items, hole, k);
    }
    forall k: nat {:trigger BridgedAt(better, swapped, up, k)} ensures BridgedAt(better, swapped, up, k) {
      assert OrderedAt(better, items, up);
      assert OrderedAt(better, items, k) || k == hole;
    }
  }

  lemma {:induction false} SwapDown<T(!new)>(better: (T, T) -> bool, items: seq<T>, hole: nat, child: nat)
    requires Ordered(better) && child < |items| && Parent(child) == hole < child
    requires HeapBelow(better, items, hole) && better(items[hole], items[child])
    requires forall k: nat {:trigger Parent(k)} ::
               0 < k < |items| && Parent(k) == hole ==> !better(items[child], items[k])
    ensures HeapBelow(better, Swapped(items, hole, child), child)
  {
    var swapped := Swapped(items, hole, child);
    forall k: nat {:trigger OrderedAt(better, swapped, k)} | Parent(k) != child ensures OrderedAt(better, swapped, k) {
      assert OrderedAt(better, items, k) || Parent(k) == hole;
      assert BridgedAt(better, items, hole, child);
    }
    forall k: nat {:trigger BridgedAt(better, swapped, child, k)} ensures BridgedAt(better, swapped, child, k) {
      assert OrderedAt(better, items, k) || Parent(k) == hole;
    }
  }

  lemma {:induction false} AppendedHeap<T>(better: (T, T) -> bool, items: seq<T>, entry: T)
    requires IsHeap(better, items)
    ensures HeapAbove(better, items + [entry], |items|)
  {
    var longer := items + [entry];
    forall k: nat {:trigger OrderedAt(better, longer, k)} | k != |items| ensures OrderedAt(better, longer, k) {
      assert OrderedAt(better, items, k);
    }
  }

  lemma {:induction false} ReplacedHeap<T>(better: (T, T) -> bool, items: seq<T>, entry: T)
    requires IsHeap(better, items) && items != []
    ensures HeapBelow(better, items[0 := entry], 0)
  {
    var replaced := items[0 := entry];
    forall k: nat {:trigger OrderedAt(better, replaced, k)} | Parent(k) != 0 ensures OrderedAt(better, replaced, k) {
      assert OrderedAt(better, items, k);
    }
  }

  /** An entry that is not better than the root is not better than any element. */
  lemma {:induction false} WorstBound<T(!new)>(better: (T, T) -> bool, items: seq<T>, entry: T)
    requires WeakOrder(better) && items != [] && RootIsWorst(better, items) && !better(entry, items[0])
    ensures forall x :: x in multiset(items) ==> !better(entry, x)
  {
    forall x | x in multiset(items) ensures !better(entry, x) {
      var k :| 0 <= k < |items| && items[k] == x;
    }
  }

  // ---------------------------------------------------------------- what is kept

  ghost predicate KeptBest<T>(better: (T, T) -> bool, limit: nat, kept: multiset<T>, all: multiset<T>) {
    && kept <= all
    && |kept| == (if |all| < limit then |all| else limit)
    && (forall x, y :: x in kept && y in all - kept ==> !better(y, x))
  }

  lemma {:induction false} KeepWhileRoom<T>(better: (T, T) -> bool, limit: nat, kept: multiset<T>, all: multiset<T>,
                                            entry: T)
    requires KeptBest(better, limit, kept, all) && |kept| < limit
    ensures KeptBest(better, limit, kept + multiset{entry}, all + multiset{entry})
  {
    assert all == kept + (all - kept);
    assert |all - kept| == 0;
    assert kept == all;
  }

  lemma {:induction false} DropEntry<T(!new)>(better: (T, T) -> bool, limit: nat, kept: multiset<T>, all: multiset<T>,
                                              entry: T)
    requires KeptBest(better, limit, kept, all) && |kept| == limit
    requires forall x :: x in kept ==> !better(entry, x)
    ensures KeptBest(better, limit, kept, all + multiset{entry})
  {
    assert all == kept + (all - kept);
    assert all + multiset{entry} - kept == all - kept + multiset{entry};
  }

  lemma {:induction false} ReplaceWorst<T(!new)>(better: (T, T) -> bool, limit: nat, kept: multiset<T>,
                                                 all: multiset<T>, entry: T, worst: T)
    requires Ordered(better)
    requires KeptBest(better, limit, kept, all) && |kept| == limit
    requires worst in kept && (forall x :: x in kept ==> !better(worst, x)) && better(entry, worst)
    ensures KeptBest(better, limit, kept - multiset{worst} + multiset{entry}, all + multiset{entry})
  {
    assert all == kept + (all - kept);
    var now := kept - multiset{worst} + multiset{entry};
    assert all + multiset{entry} - now == all - kept + multiset{worst};
    forall x, y | x in now && y in all + multiset{entry} - now ensures !better(y, x) {
      assert x == entry || x in kept;
      assert y == worst || y in all - kept;
    }
  }

  lemma {:induction false} SequenceOf<T(!new)>(elements: multiset<T>) returns (s: seq<T>)
    ensures multiset(s) == elements
    decreases |elements|
  {
    if elements == multiset{} {
      s := [];
    } else {
      var x :| x in elements;
      var rest := SequenceOf(elements - multiset{x});
      s := rest + [x];
    }
  }

  /** When the order tells all entries apart, what is kept is exactly the front of the sorted sequence. */
  lemma {:induction false} KeptIsFrontOfSort<T(!new)>(better: (T, T) -> bool, limit: nat, kept: multiset<T>,
                                                      all: seq<T>)
    requires Ordered(better) && TiesEqual(better, multiset(all))
    requires KeptBest(better, limit, kept, multiset(all))
    ensures |kept| <= |Sort(better, all)| && kept == multiset(Sort(better, all)[..|kept|])
  {
    var front := SortedSequence(better, kept);
    var back := SortedSequence(better, multiset(all) - kept);
    assert multiset(front + back) == multiset(all);
    forall i, j | 0 <= i < j < |front + back| ensures !better((front + back)[j], (front + back)[i]) {
      if i < |front| <= j {
        assert (front + back)[i] in multiset(front) && (front + back)[j] in multiset(back);
      }
    }
    SortIsUnique(better, all, front + back);
    assert |front| == |multiset(front)| == |kept|;
    assert (front + back)[..|kept|] == front;
  }

  lemma {:induction false} SortedSequence<T(!new)>(better: (T, T) -> bool, elements: multiset<T>) returns (s: seq<T>)
    requires Ordered(better)
    ensures multiset(s) == elements && Sorted(better, s)
  {
    s := SequenceOf(elements);
    SortPermutes(better, s);
    SortSorted(better, s);
    s := Sort(better, s);
  }

  // ---------------------------------------------------------------- the heap itself

  class Heap<T(==, !new)> {
    const better: (T, T) -> bool
    const limit: nat
    var items: seq<T>
    ghost var offered: seq<T>

    constructor (better: (T, T) -> bool, limit: nat)
      requires Ordered(better) && limit > 0
      ensures Valid() && this.better == better && this.limit == limit && items == [] && offered == []
    {
      this.better, this.limit := better, limit;
      items, offered := [], [];
    }

    /** What is kept is the best of everything ever offered. */
    ghost predicate Valid()
      reads this
    {
      && Ordered(better) && limit > 0
      && IsHeap(better, items)
      && KeptBest(better, limit, multiset(items), multiset(offered))
    }

    /** Moves the element at `start` towards the root while it is worse than its parent. */
    method Up(start: nat)
      requires Ordered(better) && start < |items| && HeapAbove(better, items, start)
      modifies this`items
      ensures IsHeap(better, items) && multiset(items) == multiset(old(items))
    {
      var hole: nat := start;
      while hole > 0 && better(items[Parent(hole)], items[hole])
        invariant hole < |items| && HeapAbove(better, items, hole)
        invariant multiset(items) == multiset(old(items))
        decreases hole
      {
        SwapUp(better, items, hole);
        SwappedElements(items, Parent(hole), hole);
        items := Swapped(items, Parent(hole), hole);
        hole := Parent(hole);
      }
      assert OrderedAt(better, items, hole);
    }

    /** Moves the root towards the leaves while one of its children is worse; says whether it moved. */
    method Down() returns (moved: bool)
      requires Ordered(better) && items != [] && HeapBelow(better, items, 0)
      modifies this`items
      ensures IsHeap(better, items) && multiset(items) == multiset(old(items))
      ensures !moved ==> items == old(items)
    {
      var hole: nat := 0;
      var n := |items|;
      while 2 * hole + 1 < n
        invariant hole < |items| == n && HeapBelow(better, items, hole)
        invariant multiset(items) == multiset(old(items))
        invariant hole == 0 ==> items == old(items)
        decreases n - hole
      {
        var child := 2 * hole + 1;
        if child + 1 < n && better(items[child], items[child + 1]) {
          child := child + 1;
        }
        if !better(items[hole], items[child]) {
          break;
        }
        SwapDown(better, items, hole, child);
        SwappedElements(items, hole, child);
        items := Swapped(items, hole, child);
        hole := child;
      }
      moved := hole > 0;
    }

    /** Appends an element and restores the heap. */
    method Push(entry: T)
      requires Ordered(better) && IsHeap(better, items)
      modifies this`items
      ensures IsHeap(better, items) && multiset(items) == multiset(old(items)) + multiset{entry}
    {
      AppendedHeap(better, items, entry);
      items := items + [entry];
      Up(|items| - 1);
    }

    /** Replaces the root and restores the heap. */
    method ReplaceRoot(entry: T)
      requires Ordered(better) && IsHeap(better, items) && items != []
      modifies this`items
      ensures IsHeap(better, items)
      ensures multiset(items) == multiset(old(items)) - multiset{old(items[0])} + multiset{entry}
    {
      ReplacedHeap(better, items, entry);
      items := items[0 := entry];
      var moved := Down();
      if !moved {
        Up(0);
      }
    }

    /** Keeps the entry if there is room or it is better than the worst kept one, which it then replaces. */
    method Select(entry: T)
      requires Valid()
      modifies this
      ensures Valid() && offered == old(offered) + [entry]
      ensures RootIsWorst(better, items)
    {
      HeapRoot(better, items);
      ghost var kept, all := multiset(items), multiset(offered);
      if |items| < limit {
        KeepWhileRoom(better, limit, kept, all, entry);
        Push(entry);
      } else if better(entry, items[0]) {
        ReplaceWorst(better, limit, kept, all, entry, items[0]);
        ReplaceRoot(entry);
      } else {
        WorstBound(better, items, entry);
        DropEntry(better, limit, kept, all, entry);
      }
      offered := offered + [entry];
      HeapRoot(better, items);
    }
  }
}
