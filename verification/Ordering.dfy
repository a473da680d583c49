/** Orders, sorting, and when the result of a sort is unique. */
module Ordering {

  // ---------------------------------------------------------------- strict orders and sorted sequences

  ghost predicate StrictOrder<T(!new)>(less: (T, T) -> bool) {
    && (forall x :: !less(x, x))
    && (forall x, y, z :: less(x, y) && less(y, z) ==> less(x, z))
  }

  /** Being not less is transitive: ties are interchangeable. */
  ghost predicate WeakOrder<T(!new)>(less: (T, T) -> bool) {
    forall x, y, z :: less(x, z) ==> less(x, y) || less(y, z)
  }

  ghost predicate Ordered<T(!new)>(less: (T, T) -> bool) {
    StrictOrder(less) && WeakOrder(less)
  }

  ghost predicate TotalOrder<T(!new)>(less: (T, T) -> bool) {
    StrictOrder(less) && forall x, y :: x == y || less(x, y) || less(y, x)
  }

  /** Elements that the order does not tell apart are the same. */
  ghost predicate TiesEqual<T(!new)>(less: (T, T) -> bool, elements: multiset<T>) {
    forall x, y :: x in elements && y in elements ==> x == y || less(x, y) || less(y, x)
  }

  ghost predicate Sorted<T>(less: (T, T) -> bool, s: seq<T>) {
    forall i, j :: 0 <= i < j < |s| ==> !less(s[j], s[i])
  }

  lemma {:induction false} TotalIsOrdered<T(!new)>(less: (T, T) -> bool)
    requires TotalOrder(less)
    ensures Ordered(less)
  {
    forall x, y, z | less(x, z) ensures less(x, y) || less(y, z) {}
  }

  /** Comparing first by a key and then by another order gives an order. */
  lemma {:induction false} ThenBy<T(!new), K(!new)>(key: T -> K, keyLess: (K, K) -> bool, rest: (T, T) -> bool,
                                                    less: (T, T) -> bool)
    requires TotalOrder(keyLess) && Ordered(rest)
    requires forall x, y :: less(x, y) == if key(x) != key(y) then keyLess(key(x), key(y)) else rest(x, y)
    ensures Ordered(less)
  {
    forall x, y, z | less(x, y) && less(y, z) ensures less(x, z) {
      assert less(x, z) == if key(x) != key(z) then keyLess(key(x), key(z)) else rest(x, z);
    }
    forall x, y, z | less(x, z) ensures less(x, y) || less(y, z) {
      assert less(x, y) == if key(x) != key(y) then keyLess(key(x), key(y)) else rest(x, y);
    }
  }

  lemma {:induction false} IndexIn<T>(x: T, a: seq<T>, b: seq<T>) returns (i: nat)
    requires multiset(a) == multiset(b) && x in a
    ensures i < |b| && b[i] == x
  {
    assert x in multiset(a);
    assert x in b;
    i :| i < |b| && b[i] == x;
  }

  lemma {:induction false} HeadsAgree<T(!new)>(less: (T, T) -> bool, a: seq<T>, b: seq<T>)
    requires TiesEqual(less, multiset(a)) && Sorted(less, a) && Sorted(less, b)
    requires a != [] && b != [] && multiset(a) == multiset(b)
    ensures a[0] == b[0]
  {
    var j := IndexIn(a[0], a, b);
    var i := IndexIn(b[0], b, a);
    assert a[0] in multiset(a) && a[i] in multiset(a);
  }

  lemma {:induction false} SameLength<T>(a: seq<T>, b: seq<T>)
    requires multiset(a) == multiset(b)
    ensures |a| == |b|
  {
    assert |a| == |multiset(a)| == |multiset(b)| == |b|;
  }

  lemma {:induction false} HeadAndTail<T>(a: seq<T>, b: seq<T>)
    requires a != [] && b != [] && a[0] == b[0] && a[1..] == b[1..]
    ensures a == b
  {
    assert a == [a[0]] + a[1..] && b == [b[0]] + b[1..];
  }

  lemma {:induction false} TailElements<T>(a: seq<T>, b: seq<T>)
    requires a != [] && b != [] && a[0] == b[0] && multiset(a) == multiset(b)
    ensures multiset(a[1..]) == multiset(b[1..]) <= multiset(a)
  {
    assert a == [a[0]] + a[1..] && b == [b[0]] + b[1..];
    assert multiset(a[1..]) == multiset(a) - multiset{a[0]} == multiset(b[1..]);
  }

  /** Two sorted sequences with the same elements are equal when ties are. */
  lemma {:induction false} SortedUnique<T(!new)>(less: (T, T) -> bool, a: seq<T>, b: seq<T>)
    requires TiesEqual(less, multiset(a))
    requires multiset(a) == multiset(b) && Sorted(less, a) && Sorted(less, b)
    ensures a == b
    decreases |a|
  {
    SameLength(a, b);
    if a != [] {
      HeadsAgree(less, a, b);
      TailElements(a, b);
      TiesEqualWithin(less, multiset(a), multiset(a[1..]));
      SortedUnique(less, a[1..], b[1..]);
      HeadAndTail(a, b);
    }
  }

  lemma {:induction false} TiesEqualWithin<T(!new)>(less: (T, T) -> bool, all: multiset<T>, some: multiset<T>)
    requires TiesEqual(less, all) && some <= all
    ensures TiesEqual(less, some)
  {}

  // ---------------------------------------------------------------- lexicographic order

  /** Lexicographic order: a proper prefix comes first. */
  predicate SequenceLess<T(==)>(below: (T, T) -> bool, a: seq<T>, b: seq<T>) {
    if b == [] then false
    else if a == [] then true
    else if a[0] != b[0] then below(a[0], b[0])
    else SequenceLess(below, a[1..], b[1..])
  }

  lemma {:induction false} SequenceTrichotomy<T(!new)>(below: (T, T) -> bool, a: seq<T>, b: seq<T>)
    requires TotalOrder(below)
    ensures !SequenceLess(below, a, a)
    ensures a == b || SequenceLess(below, a, b) || SequenceLess(below, b, a)
    ensures !(SequenceLess(below, a, b) && SequenceLess(below, b, a))
    decreases |a| + |b|
  {
    if a != [] {
      SequenceTrichotomy(below, a[1..], if b != [] then b[1..] else []);
      assert a == [a[0]] + a[1..];
      assert b != [] ==> b == [b[0]] + b[1..];
    }
  }

  lemma {:induction false} SequenceTransitive<T(!new)>(below: (T, T) -> bool, a: seq<T>, b: seq<T>, c: seq<T>)
    requires TotalOrder(below) && SequenceLess(below, a, b) && SequenceLess(below, b, c)
    ensures SequenceLess(below, a, c)
  {
    if a != [] && a[0] == b[0] == c[0] {
      SequenceTransitive(below, a[1..], b[1..], c[1..]);
    }
  }

  lemma {:induction false} SequenceOrder<T(!new)>(below: (T, T) -> bool, less: (seq<T>, seq<T>) -> bool)
    requires TotalOrder(below) && forall a, b :: less(a, b) == SequenceLess(below, a, b)
    ensures TotalOrder(less) && Ordered(less)
  {
    forall x, y ensures !less(x, x) && (x == y || less(x, y) || less(y, x)) {
      SequenceTrichotomy(below, x, y);
    }
    forall x, y, z | less(x, y) && less(y, z) ensures less(x, z) {
      SequenceTransitive(below, x, y, z);
    }
    TotalIsOrdered(less);
  }

  predicate CharBelow(a: char, b: char) {
    a < b
  }

  /** Byte order of UTF-8 strings, which is the order of their code points. */
  predicate StringLess(a: string, b: string) {
    SequenceLess(CharBelow, a, b)
  }

  lemma {:induction false} StringLessTrichotomy(a: string, b: string)
    ensures !StringLess(a, a)
    ensures a == b || StringLess(a, b) || StringLess(b, a)
    ensures !(StringLess(a, b) && StringLess(b, a))
  {
    SequenceTrichotomy(CharBelow, a, b);
  }

  lemma {:induction false} StringOrder()
    ensures TotalOrder(StringLess) && Ordered(StringLess)
  {
    SequenceOrder(CharBelow, StringLess);
  }

  // ---------------------------------------------------------------- sequences without repetition

  ghost predicate Pairwise<T>(differ: (T, T) -> bool, s: seq<T>) {
    forall i, j :: 0 <= i < j < |s| ==> differ(s[i], s[j])
  }

  lemma {:induction false} PairwiseNext<T>(differ: (T, T) -> bool, s: seq<T>, i: nat)
    requires i < |s| && Pairwise(differ, s[..i])
    requires forall j :: 0 <= j < i ==> differ(s[j], s[i])
    ensures Pairwise(differ, s[..i + 1])
  {}

  /** Pairwise difference does not depend on the arrangement. */
  lemma {:induction false} PairwisePermuted<T(!new)>(differ: (T, T) -> bool, a: seq<T>, b: seq<T>)
    requires forall x, y :: differ(x, y) ==> x != y && differ(y, x)
    requires Pairwise(differ, a) && multiset(a) == multiset(b)
    ensures Pairwise(differ, b)
  {
    forall i, j | 0 <= i < j < |b| ensures differ(b[i], b[j]) {
      var i' := IndexIn(b[i], b, a);
      var j' := IndexIn(b[j], b, a);
      NoRepetition(differ, a, b, i, j);
    }
  }

  lemma {:induction false} NoRepetition<T(!new)>(differ: (T, T) -> bool, a: seq<T>, b: seq<T>, i: nat, j: nat)
    requires forall x, y :: differ(x, y) ==> x != y && differ(y, x)
    requires Pairwise(differ, a) && multiset(a) == multiset(b) && i < j < |b|
    ensures b[i] != b[j]
  {
    var i' := IndexIn(b[i], b, a);
    OccursOnce(differ, a, i');
    OccursTwice(b, i, j);
  }

  lemma {:induction false} OccursTwice<T>(s: seq<T>, i: nat, j: nat)
    requires i < j < |s|
    ensures s[i] == s[j] ==> multiset(s)[s[i]] >= 2
  {
    assert s == s[..i] + [s[i]] + s[i + 1..j] + [s[j]] + s[j + 1..];
  }

  lemma {:induction false} OccursOnce<T(!new)>(differ: (T, T) -> bool, a: seq<T>, i: nat)
    requires forall x, y :: differ(x, y) ==> x != y && differ(y, x)
    requires Pairwise(differ, a) && i < |a|
    ensures multiset(a)[a[i]] == 1
  {
    assert a == a[..i] + [a[i]] + a[i + 1..];
    forall k | 0 <= k < |a| && k != i ensures a[k] != a[i] {
      if k < i {
        assert differ(a[k], a[i]);
      } else {
        assert differ(a[i], a[k]);
      }
    }
    assert a[i] !in a[..i] && a[i] !in a[i + 1..];
    assert multiset(a) == multiset(a[..i]) + multiset{a[i]} + multiset(a[i + 1..]);
  }

  // ---------------------------------------------------------------- insertion sort

  /** Insertion behind every element that is not greater, so sorting is stable. */
  function Insert<T>(less: (T, T) -> bool, x: T, s: seq<T>): seq<T> {
    if s == [] then [x]
    else if less(x, s[0]) then [x] + s
    else [s[0]] + Insert(less, x, s[1..])
  }

  function Sort<T>(less: (T, T) -> bool, s: seq<T>): seq<T> {
    if s == [] then [] else Insert(less, s[|s| - 1], Sort(less, s[..|s| - 1]))
  }

  lemma {:induction false} InsertPermutes<T>(less: (T, T) -> bool, x: T, s: seq<T>)
    ensures multiset(Insert(less, x, s)) == multiset(s) + multiset{x}
  {
    if s != [] && !less(x, s[0]) {
      InsertPermutes(less, x, s[1..]);
      assert s == [s[0]] + s[1..];
    }
  }

  lemma {:induction false} SortPermutes<T>(less: (T, T) -> bool, s: seq<T>)
    ensures multiset(Sort(less, s)) == multiset(s)
    ensures |Sort(less, s)| == |s|
    decreases |s|
  {
    if s != [] {
      SortPermutes(less, s[..|s| - 1]);
      InsertPermutes(less, s[|s| - 1], Sort(less, s[..|s| - 1]));
      assert s == s[..|s| - 1] + [s[|s| - 1]];
    }
    assert |Sort(less, s)| == |multiset(Sort(less, s))| == |s|;
  }

  lemma {:induction false} InsertSorted<T(!new)>(less: (T, T) -> bool, x: T, s: seq<T>)
    requires Ordered(less) && Sorted(less, s)
    ensures Sorted(less, Insert(less, x, s))
  {
    if s != [] {
      if less(x, s[0]) {
        assert forall j :: 0 <= j < |s| ==> !less(s[j], x);
      } else {
        InsertSorted(less, x, s[1..]);
        InsertPermutes(less, x, s[1..]);
        var rest := Insert(less, x, s[1..]);
        forall j | 0 <= j < |rest| ensures !less(rest[j], s[0]) {
          assert rest[j] in multiset(rest);
          assert rest[j] == x || rest[j] in s[1..];
        }
      }
    }
  }

  lemma {:induction false} SortSorted<T(!new)>(less: (T, T) -> bool, s: seq<T>)
    requires Ordered(less)
    ensures Sorted(less, Sort(less, s))
    decreases |s|
  {
    if s != [] {
      SortSorted(less, s[..|s| - 1]);
      InsertSorted(less, s[|s| - 1], Sort(less, s[..|s| - 1]));
    }
  }

  /** Sorting forgets the original arrangement when ties are equal. */
  lemma {:induction false} SortForgetsOrder<T(!new)>(less: (T, T) -> bool, a: seq<T>, b: seq<T>)
    requires Ordered(less) && TiesEqual(less, multiset(a)) && multiset(a) == multiset(b)
    ensures Sort(less, a) == Sort(less, b)
  {
    SortPermutes(less, b);
    SortSorted(less, b);
    SortIsUnique(less, a, Sort(less, b));
  }

  /** Any sorted arrangement is the result of sorting when ties are equal. */
  lemma {:induction false} SortIsUnique<T(!new)>(less: (T, T) -> bool, s: seq<T>, sorted: seq<T>)
    requires Ordered(less) && TiesEqual(less, multiset(s))
    requires multiset(sorted) == multiset(s) && Sorted(less, sorted)
    ensures Sort(less, s) == sorted
  {
    SortPermutes(less, s);
    SortSorted(less, s);
    SortedUnique(less, Sort(less, s), sorted);
  }

  /** A sort of which only this much is promised: how ties come out is not. */
  method SortSlice<T(!new)>(less: (T, T) -> bool, s: seq<T>) returns (sorted: seq<T>)
    requires Ordered(less)
    ensures multiset(sorted) == multiset(s) && Sorted(less, sorted)
  {
    SortPermutes(less, s);
    SortSorted(less, s);
    sorted := Sort(less, s);
  }

  // ---------------------------------------------------------------- concatenating lists

  function Flatten<T, U>(lists: T -> seq<U>, s: seq<T>): seq<U> {
    if s == [] then [] else Flatten(lists, s[..|s| - 1]) + lists(s[|s| - 1])
  }

  lemma {:induction false} AppendNext<T, U>(before: seq<U>, lists: T -> seq<U>, s: seq<T>, i: nat)
    requires i < |s|
    ensures before + Flatten(lists, s[..i + 1]) == before + Flatten(lists, s[..i]) + lists(s[i])
  {
    FlattenNext(lists, s, i);
  }

  lemma {:induction false} FlattenNext<T, U>(lists: T -> seq<U>, s: seq<T>, i: nat)
    requires i < |s|
    ensures Flatten(lists, s[..i + 1]) == Flatten(lists, s[..i]) + lists(s[i])
  {
    assert s[..i + 1][..i] == s[..i];
  }

  lemma {:induction false} FlattenAppend<T, U>(lists: T -> seq<U>, a: seq<T>, b: seq<T>)
    ensures Flatten(lists, a + b) == Flatten(lists, a) + Flatten(lists, b)
    decreases |b|
  {
    if b == [] {
      assert a + b == a;
    } else {
      var init := b[..|b| - 1];
      assert (a + b)[..|a + b| - 1] == a + init;
      FlattenAppend(lists, a, init);
    }
  }

  lemma {:induction false} FlattenSplit<T, U>(lists: T -> seq<U>, a: seq<T>, x: T, b: seq<T>)
    ensures multiset(Flatten(lists, a + [x] + b)) == multiset(Flatten(lists, a + b)) + multiset(lists(x))
  {
    FlattenAppend(lists, a, b);
    FlattenAppend(lists, a, [x]);
    FlattenAppend(lists, a + [x], b);
    assert Flatten(lists, [x]) == lists(x);
  }

  lemma {:induction false} WithoutElement<T>(a: seq<T>, a': seq<T>, x: T, b: seq<T>, b': seq<T>)
    requires multiset(a + [x] + a') == multiset(b + [x] + b')
    ensures multiset(a + a') == multiset(b + b')
  {
    assert multiset(a + a') == multiset(a + [x] + a') - multiset{x};
    assert multiset(b + b') == multiset(b + [x] + b') - multiset{x};
  }

  /** Concatenating in another order gives the same elements. */
  lemma {:induction false} FlattenPermuted<T, U>(lists: T -> seq<U>, a: seq<T>, b: seq<T>)
    requires multiset(a) == multiset(b)
    ensures multiset(Flatten(lists, a)) == multiset(Flatten(lists, b))
    decreases |a|
  {
    SameLength(a, b);
    if a != [] {
      var last := a[|a| - 1];
      assert a == a[..|a| - 1] + [last] + [];
      assert a[..|a| - 1] + [] == a[..|a| - 1];
      var k := IndexIn(last, a, b);
      assert b == b[..k] + [last] + b[k + 1..];
      WithoutElement(a[..|a| - 1], [], last, b[..k], b[k + 1..]);
      FlattenPermuted(lists, a[..|a| - 1], b[..k] + b[k + 1..]);
      FlattenSplit(lists, a[..|a| - 1], last, []);
      FlattenSplit(lists, b[..k], last, b[k + 1..]);
    }
  }

  lemma {:induction false} FlattenMember<T, U>(lists: T -> seq<U>, s: seq<T>, u: U) returns (t: T)
    requires u in Flatten(lists, s)
    ensures t in s && u in lists(t)
    decreases |s|
  {
    if u in lists(s[|s| - 1]) {
      t := s[|s| - 1];
    } else {
      t := FlattenMember(lists, s[..|s| - 1], u);
    }
  }

  lemma {:induction false} FlattenContains<T, U>(lists: T -> seq<U>, s: seq<T>, t: T, u: U)
    requires t in s && u in lists(t)
    ensures u in Flatten(lists, s)
    decreases |s|
  {
    if t != s[|s| - 1] {
      FlattenContains(lists, s[..|s| - 1], t, u);
    }
  }

  function Concat<U>(lists: nat -> seq<U>, n: nat): seq<U> {
    if n == 0 then [] else Concat(lists, n - 1) + lists(n - 1)
  }

  lemma {:induction false} ConcatMember<U>(lists: nat -> seq<U>, n: nat, u: U) returns (i: nat)
    requires u in Concat(lists, n)
    ensures i < n && u in lists(i)
  {
    if u in lists(n - 1) {
      i := n - 1;
    } else {
      i := ConcatMember(lists, n - 1, u);
    }
  }

  lemma {:induction false} ConcatSame<U>(a: nat -> seq<U>, b: nat -> seq<U>, n: nat)
    requires forall i: nat :: i < n ==> a(i) == b(i)
    ensures Concat(a, n) == Concat(b, n)
  {
    if n > 0 {
      ConcatSame(a, b, n - 1);
    }
  }

  lemma {:induction false} ConcatContains<U>(lists: nat -> seq<U>, n: nat, i: nat, u: U)
    requires i < n && u in lists(i)
    ensures u in Concat(lists, n)
  {
    if i < n - 1 {
      ConcatContains(lists, n - 1, i, u);
    }
  }
}
