/** The PostgreSQL side of collection: one cursor row with a fenced lease, the evidence table and the
    committed batch identities of one source. A serializable transaction is one atomic step. */
module CollectionStore {
  import opened Wrappers
  import opened Adapter

  /** A fence is the hash of the owner and the instant at which it asked for the lease. */
  datatype Fence = Fence(owner: string, at: int)

  datatype Lease = Active | Leased(fence: Fence)

  datatype Cursor = Cursor(generation: Generation, digest: Digest, next: nat)

  datatype Row = Row(cursor: Cursor, lease: Lease, expires: Option<int>)

  /** The opaque identity of one record: its source is fixed, so generation and sequence decide it. */
  datatype Key = Key(generation: Generation, sequence: nat)

  datatype Evidence = Evidence(content: string, observedAt: int)

  datatype Item = Item(key: Key, content: string, observedAt: int)

  datatype BatchId = BatchId(generation: Generation, digest: Digest, from: nat, to: nat)

  /** The stored source assertion of a committed batch: digest of cursor and items, and the count. */
  datatype Assertion = Assertion(digest: Digest, items: seq<Item>, count: nat)

  datatype CollectionBatch = CollectionBatch(
    id: BatchId, next: nat, generation: Generation, digest: Digest, fence: Fence, items: seq<Item>)

  datatype Rejection =
    | OutOfBounds | FenceRejected | StaleCursor | SourceConflict | DuplicateBatch | Exhausted | NoTransaction

  datatype Outcome = Committed | Replayed | Rejected(reason: Rejection)

  datatype Store = Store(row: Option<Row>, evidence: map<Key, Evidence>, batches: map<BatchId, Assertion>)

  const MAX_BATCH := 5000
  const MAX_ATTEMPTS := 3
  const EMPTY_CURSOR := Cursor(Unset, NoDigest, 0)

  // ---------------------------------------------------------------- lease statements

  /** The upsert's WHERE clause: no lease time stored, or it has passed. */
  predicate Acquirable(s: Store, now: int) {
    s.row.None? || s.row.value.expires.None? || s.row.value.expires.value <= now
  }

  function AcquireStep(s: Store, fence: Fence, now: int, duration: int): Store {
    if !Acquirable(s, now) then s
    else if s.row.None? then s.(row := Some(Row(EMPTY_CURSOR, Leased(fence), Some(now + duration))))
    else s.(row := Some(s.row.value.(lease := Leased(fence), expires := Some(now + duration))))
  }

  predicate HoldsLease(s: Store, fence: Fence) {
    s.row.Some? && s.row.value.lease == Leased(fence)
  }

  predicate HoldsCurrentLease(s: Store, fence: Fence, now: int) {
    HoldsLease(s, fence) && s.row.value.expires.Some? && s.row.value.expires.value > now
  }

  function RenewStep(s: Store, fence: Fence, now: int, duration: int): Store {
    if HoldsCurrentLease(s, fence, now) then s.(row := Some(s.row.value.(expires := Some(now + duration)))) else s
  }

  function ReleaseStep(s: Store, fence: Fence): Store {
    if HoldsLease(s, fence) then s.(row := Some(s.row.value.(lease := Active, expires := None))) else s
  }

  function CurrentCursor(s: Store): Cursor {
    if s.row.Some? then s.row.value.cursor else EMPTY_CURSOR
  }

  // ---------------------------------------------------------------- the commit transaction

  predicate Compatible(evidence: map<Key, Evidence>, item: Item) {
    item.key in evidence ==> evidence[item.key].content == item.content
  }

  /** Insert, or refresh a row with the same content hash; a different content is a source conflict. */
  function UpsertAll(evidence: map<Key, Evidence>, items: seq<Item>): Option<map<Key, Evidence>>
    decreases |items|
  {
    if items == [] then Some(evidence)
    else if !Compatible(evidence, items[0]) then None
    else UpsertAll(evidence[items[0].key := Evidence(items[0].content, items[0].observedAt)], items[1..])
  }

  /** A batch at the stored cursor is accepted only as the exact repetition of what was stored. */
  predicate ReplayMatches(s: Store, b: CollectionBatch) {
    && b.digest == CurrentCursor(s).digest
    && b.id in s.batches
    && s.batches[b.id] == Assertion(b.digest, b.items, |b.items|)
    && forall i :: 0 <= i < |b.items| ==> b.items[i].key in s.evidence && Compatible(s.evidence, b.items[i])
  }

  predicate WithinBounds(b: CollectionBatch) {
    b.next != 0 && 0 < |b.items| <= MAX_BATCH
  }

  predicate GenerationChanged(s: Store, b: CollectionBatch) {
    CurrentCursor(s).generation != Unset && CurrentCursor(s).generation != b.generation
  }

  function Advance(s: Store, b: CollectionBatch, evidence: map<Key, Evidence>): Store
    requires s.row.Some?
  {
    Store(Some(s.row.value.(cursor := Cursor(b.generation, b.digest, b.next))), evidence,
          s.batches[b.id := Assertion(b.digest, b.items, |b.items|)])
  }

  /** The transaction: now is its first lease check, later the guard of its last statement. */
  function CommitStep(s: Store, b: CollectionBatch, now: int, later: int): (Outcome, Store) {
    var current := CurrentCursor(s);
    if !WithinBounds(b) then (Rejected(OutOfBounds), s)
    else if !HoldsCurrentLease(s, b.fence, now) then (Rejected(FenceRejected), s)
    else if !GenerationChanged(s, b) && b.next < current.next then (Rejected(StaleCursor), s)
    else if !GenerationChanged(s, b) && b.next == current.next then
      (if ReplayMatches(s, b) then Replayed else Rejected(SourceConflict), s)
    else
      var upserted := UpsertAll(s.evidence, b.items);
      if upserted.None? then (Rejected(SourceConflict), s)
      else if b.id in s.batches then (Rejected(DuplicateBatch), s)
      else if !HoldsCurrentLease(s, b.fence, later) then (Rejected(FenceRejected), s)
      else (Committed, Advance(s, b, upserted.value))
  }

  // ---------------------------------------------------------------- retries

  /** What the database does with one attempt of the serializable transaction: it succeeds, or a serialization
      failure rolls it back, reported by a statement of the body or only by COMMIT after the body has ended. */
  datatype Attempt =
    | Serialized(now: int, later: int)
    | BodyAborted
    | CommitAborted(now: int, later: int)

  /** The attempt is rolled back and made again; a body that is rejected never reaches COMMIT and is final. */
  predicate Retried(s: Store, b: CollectionBatch, a: Attempt) {
    match a
    case Serialized(_, _) => false
    case BodyAborted => true
    case CommitAborted(now, later) => !CommitStep(s, b, now, later).0.Rejected?
  }

  /** Attempts in order, up to `left` of them, unless the batch is refused before the first one. Where the list
      ends, no further transaction can be begun. */
  function CommitWithRetries(s: Store, b: CollectionBatch, attempts: seq<Attempt>, left: nat): (Outcome, Store)
    decreases left
  {
    if !WithinBounds(b) then (Rejected(OutOfBounds), s)
    else if left == 0 then (Rejected(Exhausted), s)
    else if attempts == [] then (Rejected(NoTransaction), s)
    else if Retried(s, b, attempts[0]) then CommitWithRetries(s, b, attempts[1..], left - 1)
    else CommitStep(s, b, attempts[0].now, attempts[0].later)
  }

  /** What the flag says after a body has run: it is reset at the start and set at the end of the body. */
  function FlagOf(s: Store, b: CollectionBatch, a: Attempt): bool {
    match a
    case BodyAborted => false
    case Serialized(now, later) => CommitStep(s, b, now, later).0 == Committed
    case CommitAborted(now, later) => CommitStep(s, b, now, later).0 == Committed
  }

  /** The flag that is returned beside the outcome is what the last body that ran left behind. */
  function FlagAfter(s: Store, b: CollectionBatch, attempts: seq<Attempt>, left: nat, flag: bool): bool
    decreases left
  {
    if !WithinBounds(b) then false
    else if left == 0 || attempts == [] then flag
    else if Retried(s, b, attempts[0]) then FlagAfter(s, b, attempts[1..], left - 1, FlagOf(s, b, attempts[0]))
    else FlagOf(s, b, attempts[0])
  }

  /** However many attempts the database aborts, the transaction body takes effect at most once, and
      nothing is stored unless the outcome says so. */
  lemma {:induction false} RetriesCommitAtMostOnce(s: Store, b: CollectionBatch, attempts: seq<Attempt>, left: nat)
    ensures var (outcome, after) := CommitWithRetries(s, b, attempts, left);
            && (outcome != Committed ==> after == s)
            && (outcome == Committed ==>
                  exists i :: 0 <= i < |attempts| && i < left && attempts[i].Serialized?
                    && (forall j :: 0 <= j < i ==> Retried(s, b, attempts[j]))
                    && CommitStep(s, b, attempts[i].now, attempts[i].later) == (Committed, after))
    decreases left
  {
    if left == 0 || attempts == [] {
    } else if Retried(s, b, attempts[0]) {
      RetriesCommitAtMostOnce(s, b, attempts[1..], left - 1);
      var (outcome, after) := CommitWithRetries(s, b, attempts[1..], left - 1);
      if outcome == Committed {
        var i :| 0 <= i < |attempts[1..]| && i < left - 1 && attempts[1..][i].Serialized?
          && (forall j :: 0 <= j < i ==> Retried(s, b, attempts[1..][j]))
          && CommitStep(s, b, attempts[1..][i].now, attempts[1..][i].later) == (Committed, after);
        forall j | 0 <= j < i + 1 ensures Retried(s, b, attempts[j]) {
          assert j > 0 ==> attempts[j] == attempts[1..][j - 1];
        }
        assert attempts[i + 1] == attempts[1..][i];
      }
    } else {
      RejectedChangesNothing(s, b, attempts[0].now, attempts[0].later);
    }
  }

  lemma {:induction false} RejectedChangesNothing(s: Store, b: CollectionBatch, now: int, later: int)
    ensures CommitStep(s, b, now, later).0 != Committed ==> CommitStep(s, b, now, later).1 == s
    ensures CommitStep(s, b, now, later).0 == Committed ==> CommitStep(s, b, now, later).1 != s
  {
    if CommitStep(s, b, now, later).0 == Committed {
      assert b.id in CommitStep(s, b, now, later).1.batches && b.id !in s.batches;
    }
  }

  // ---------------------------------------------------------------- the flag beside the outcome

  /** All attempts were rolled back, and the last of them by its COMMIT, after its body had set the flag. */
  ghost predicate FlagLeftSet(s: Store, b: CollectionBatch, attempts: seq<Attempt>, left: nat) {
    var made := Min(|attempts|, left);
    && made > 0 && attempts[made - 1].CommitAborted? && FlagOf(s, b, attempts[made - 1])
    && forall i :: 0 <= i < made ==> Retried(s, b, attempts[i])
  }

  lemma {:induction false} FlagLeftSetTail(s: Store, b: CollectionBatch, attempts: seq<Attempt>, left: nat)
    requires left > 1 && |attempts| > 1 && Retried(s, b, attempts[0])
    ensures FlagLeftSet(s, b, attempts, left) <==> FlagLeftSet(s, b, attempts[1..], left - 1)
  {
    var made, tail := Min(|attempts|, left), attempts[1..];
    assert Min(|tail|, left - 1) == made - 1;
    assert tail[made - 2] == attempts[made - 1];
    if FlagLeftSet(s, b, tail, left - 1) {
      forall i | 0 <= i < made ensures Retried(s, b, attempts[i]) {
        assert i > 0 ==> attempts[i] == tail[i - 1];
      }
    }
    if FlagLeftSet(s, b, attempts, left) {
      forall i | 0 <= i < made - 1 ensures Retried(s, b, tail[i]) {
        assert tail[i] == attempts[i + 1];
      }
    }
  }

  /** The flag is wrong exactly when the last attempt is a body that set it and was then aborted by its COMMIT. */
  lemma {:induction false} FlagIsWrongIff(s: Store, b: CollectionBatch, attempts: seq<Attempt>, left: nat, flag: bool)
    requires left > 0 && attempts != []
    ensures FlagLeftSet(s, b, attempts, left) <==>
              FlagAfter(s, b, attempts, left, flag) != (CommitWithRetries(s, b, attempts, left).0 == Committed)
    decreases left
  {
    assert FlagLeftSet(s, b, attempts, left) ==> Retried(s, b, attempts[0]);
    if Retried(s, b, attempts[0]) {
      if left > 1 && |attempts| > 1 {
        FlagLeftSetTail(s, b, attempts, left);
        FlagIsWrongIff(s, b, attempts[1..], left - 1, FlagOf(s, b, attempts[0]));
      } else {
        assert Min(|attempts|, left) == 1;
      }
    }
  }

  /** So the returned flag equals "stored" unless that happens; without an error it always does. */
  lemma {:induction false} CommittedFlagIff(s: Store, b: CollectionBatch, attempts: seq<Attempt>)
    ensures var (outcome, after) := CommitWithRetries(s, b, attempts, MAX_ATTEMPTS);
            var flag := FlagAfter(s, b, attempts, MAX_ATTEMPTS, false);
            && (after != s <==> outcome == Committed)
            && (flag == (after != s) <==> !FlagLeftSet(s, b, attempts, MAX_ATTEMPTS))
            && (!outcome.Rejected? ==> flag == (after != s))
  {
    var outcome := CommitWithRetries(s, b, attempts, MAX_ATTEMPTS).0;
    RetriesCommitAtMostOnce(s, b, attempts, MAX_ATTEMPTS);
    if outcome == Committed {
      var i :| 0 <= i < |attempts| && attempts[i].Serialized?
        && CommitStep(s, b, attempts[i].now, attempts[i].later) == CommitWithRetries(s, b, attempts, MAX_ATTEMPTS);
      RejectedChangesNothing(s, b, attempts[i].now, attempts[i].later);
    }
    if attempts != [] {
      FlagIsWrongIff(s, b, attempts, MAX_ATTEMPTS, false);
      AllRetriedIsRejected(s, b, attempts, MAX_ATTEMPTS);
    }
  }

  lemma {:induction false} AllRetriedIsRejected(s: Store, b: CollectionBatch, attempts: seq<Attempt>, left: nat)
    ensures FlagLeftSet(s, b, attempts, left) ==> CommitWithRetries(s, b, attempts, left).0.Rejected?
    decreases left
  {
    if FlagLeftSet(s, b, attempts, left) {
      assert Retried(s, b, attempts[0]);
      if left > 1 && |attempts| > 1 {
        FlagLeftSetTail(s, b, attempts, left);
        AllRetriedIsRejected(s, b, attempts[1..], left - 1);
      }
    }
  }

  /** Three COMMITs aborted behind a body that would have committed: the flag is set and nothing is stored. */
  lemma {:induction false} FlagWithoutCommit(s: Store, b: CollectionBatch, now: int, later: int)
    requires CommitStep(s, b, now, later).0 == Committed
    ensures var attempts := [CommitAborted(now, later), CommitAborted(now, later), CommitAborted(now, later)];
            && CommitWithRetries(s, b, attempts, MAX_ATTEMPTS) == (Rejected(Exhausted), s)
            && FlagAfter(s, b, attempts, MAX_ATTEMPTS, false)
  {
    var a := CommitAborted(now, later);
    assert Retried(s, b, a) && FlagOf(s, b, a);
    assert [a, a, a][1..] == [a, a] && [a, a][1..] == [a] && [a][1..] == [];
    assert CommitWithRetries(s, b, [a, a, a], 3) == CommitWithRetries(s, b, [a, a], 2)
        == CommitWithRetries(s, b, [a], 1);
    assert FlagAfter(s, b, [a, a, a], 3, false) == FlagAfter(s, b, [a, a], 2, true) == FlagAfter(s, b, [a], 1, true);
  }

  // ---------------------------------------------------------------- what an upsert keeps

  /** An upsert never changes or forgets stored content, and stores every item under its key. */
  lemma {:induction false} UpsertKeepsContent(evidence: map<Key, Evidence>, items: seq<Item>)
    requires UpsertAll(evidence, items).Some?
    ensures var after := UpsertAll(evidence, items).value;
            && after.Keys == evidence.Keys + (set i | 0 <= i < |items| :: items[i].key)
            && (forall k :: k in evidence ==> after[k].content == evidence[k].content)
            && (forall i :: 0 <= i < |items| ==> after[items[i].key].content == items[i].content)
    decreases |items|
  {
    if items != [] {
      var first := evidence[items[0].key := Evidence(items[0].content, items[0].observedAt)];
      UpsertKeepsContent(first, items[1..]);
      var after := UpsertAll(evidence, items).value;
      assert (set i | 0 <= i < |items| :: items[i].key)
          == {items[0].key} + (set i | 0 <= i < |items[1..]| :: items[1..][i].key) by {
        forall i | 0 <= i < |items|
          ensures items[i].key in {items[0].key} + (set i | 0 <= i < |items[1..]| :: items[1..][i].key)
        {
          assert i > 0 ==> items[1..][i - 1].key == items[i].key;
        }
        forall j | 0 <= j < |items[1..]| ensures items[1..][j].key == items[j + 1].key {}
      }
      forall i | 0 <= i < |items| ensures after[items[i].key].content == items[i].content {
        if i == 0 {
          assert items[0].key in first;
        } else {
          assert items[1..][i - 1] == items[i];
        }
      }
    }
  }

  /** New keys never conflict: a batch whose keys are all absent and distinct is always stored. */
  lemma {:induction false} FreshItemsUpsert(evidence: map<Key, Evidence>, items: seq<Item>)
    requires forall i :: 0 <= i < |items| ==> items[i].key !in evidence
    requires forall i, j :: 0 <= i < j < |items| ==> items[i].key != items[j].key
    ensures UpsertAll(evidence, items).Some?
    decreases |items|
  {
    if items != [] {
      FreshItemsUpsert(evidence[items[0].key := Evidence(items[0].content, items[0].observedAt)], items[1..]);
    }
  }

  // ---------------------------------------------------------------- the repository

  /** No later item of the batch has the same key. */
  ghost predicate LastOfItsKey(items: seq<Item>, i: nat) {
    i < |items| && forall j :: i < j < |items| ==> items[j].key != items[i].key
  }

  ghost predicate NotAmong(items: seq<Item>, key: Key) {
    forall j :: 0 <= j < |items| ==> items[j].key != key
  }

  /** An upsert refreshes the observation time of what it stores again, and touches nothing else. */
  lemma {:induction false} UpsertRefreshes(evidence: map<Key, Evidence>, items: seq<Item>)
    requires UpsertAll(evidence, items).Some?
    ensures var after := UpsertAll(evidence, items).value;
            && (forall key :: key in evidence && NotAmong(items, key) ==> key in after && after[key] == evidence[key])
            && (forall i: nat :: LastOfItsKey(items, i) ==>
                  items[i].key in after && after[items[i].key] == Evidence(items[i].content, items[i].observedAt))
    decreases |items|
  {
    if items != [] {
      var head, tail := items[0], items[1..];
      var first := evidence[head.key := Evidence(head.content, head.observedAt)];
      UpsertRefreshes(first, tail);
      forall key | key in evidence && NotAmong(items, key) ensures NotAmong(tail, key) && head.key != key {
        forall j | 0 <= j < |tail| ensures tail[j].key != key {
          assert tail[j] == items[j + 1];
        }
      }
      forall i: nat | LastOfItsKey(items, i)
        ensures if i == 0 then NotAmong(tail, head.key) else LastOfItsKey(tail, i - 1) && tail[i - 1] == items[i]
      {
        forall j | 0 <= j < |tail| && i <= j ensures tail[j].key != items[i].key {
          assert tail[j] == items[j + 1];
        }
      }
    }
  }

  /** Every item agrees with what is stored under its key and with every other item of that key. */
  ghost predicate Agreeing(evidence: map<Key, Evidence>, items: seq<Item>) {
    && (forall i :: 0 <= i < |items| && items[i].key in evidence ==>
          evidence[items[i].key].content == items[i].content)
    && (forall i, j :: 0 <= i < j < |items| && items[i].key == items[j].key ==> items[i].content == items[j].content)
  }

  /** There is a conflict exactly when some item meets content other than its own. */
  lemma {:induction false} UpsertSucceedsIff(evidence: map<Key, Evidence>, items: seq<Item>)
    ensures UpsertAll(evidence, items).Some? <==> Agreeing(evidence, items)
    decreases |items|
  {
    if items != [] {
      var head, tail := items[0], items[1..];
      var first := evidence[head.key := Evidence(head.content, head.observedAt)];
      UpsertSucceedsIff(first, tail);
      if Agreeing(evidence, items) {
        AgreeingTail(evidence, items);
      } else if Compatible(evidence, head) && Agreeing(first, tail) {
        AgreeingAll(evidence, items);
      }
    }
  }

  lemma {:induction false} AgreeingTail(evidence: map<Key, Evidence>, items: seq<Item>)
    requires items != [] && Agreeing(evidence, items)
    ensures Agreeing(evidence[items[0].key := Evidence(items[0].content, items[0].observedAt)], items[1..])
  {
    var first := evidence[items[0].key := Evidence(items[0].content, items[0].observedAt)];
    forall i | 0 <= i < |items[1..]| && items[1..][i].key in first
      ensures first[items[1..][i].key].content == items[1..][i].content
    {
      assert items[1..][i] == items[i + 1];
    }
  }

  lemma {:induction false} AgreeingAll(evidence: map<Key, Evidence>, items: seq<Item>)
    requires items != [] && Compatible(evidence, items[0])
    requires Agreeing(evidence[items[0].key := Evidence(items[0].content, items[0].observedAt)], items[1..])
    ensures Agreeing(evidence, items)
  {
    var tail := items[1..];
    forall i | 0 <= i < |items| && items[i].key in evidence
      ensures evidence[items[i].key].content == items[i].content
    {
      assert i > 0 ==> items[i] == tail[i - 1];
    }
    forall i, j | 0 <= i < j < |items| && items[i].key == items[j].key ensures items[i].content == items[j].content {
      assert items[j] == tail[j - 1];
      assert i > 0 ==> items[i] == tail[i - 1];
    }
  }

  // ---------------------------------------------------------------- repeating a batch

  /** Sending a committed batch once more while the lease is current is recognised and changes nothing. */
  lemma {:induction false} CommittedBatchReplays(s: Store, b: CollectionBatch, now: int, later: int, again: int,
                                                 last: int)
    requires CommitStep(s, b, now, later).0 == Committed
    requires HoldsCurrentLease(CommitStep(s, b, now, later).1, b.fence, again)
    ensures var after := CommitStep(s, b, now, later).1;
            CommitStep(after, b, again, last) == (Replayed, after)
  {
    UpsertKeepsContent(s.evidence, b.items);
  }

  class Repository {
    var row: Option<Row>
    var evidence: map<Key, Evidence>
    var batches: map<BatchId, Assertion>

    function Contents(): Store
      reads this
    {
      Store(row, evidence, batches)
    }

    constructor ()
      ensures Contents() == Store(None, map[], map[])
    {
      row, evidence, batches := None, map[], map[];
    }

    method AcquireCollectionLease(owner: string, now: int, duration: int, statementTime: int)
      returns (fence: Fence, acquired: bool)
      modifies this
      ensures fence == Fence(owner, now)
      ensures acquired == Acquirable(old(Contents()), statementTime)
      ensures Contents() == AcquireStep(old(Contents()), fence, statementTime, duration)
    {
      fence := Fence(owner, now);
      if row.None? {
        row := Some(Row(EMPTY_CURSOR, Leased(fence), Some(statementTime + duration)));
        acquired := true;
      } else if row.value.expires.None? || row.value.expires.value <= statementTime {
        row := Some(row.value.(lease := Leased(fence), expires := Some(statementTime + duration)));
        acquired := true;
      } else {
        acquired := false;
      }
    }

    method RenewCollectionLease(fence: Fence, statementTime: int, duration: int) returns (renewed: bool)
      modifies this
      ensures renewed == HoldsCurrentLease(old(Contents()), fence, statementTime)
      ensures Contents() == RenewStep(old(Contents()), fence, statementTime, duration)
    {
      renewed := row.Some? && row.value.lease == Leased(fence)
        && row.value.expires.Some? && row.value.expires.value > statementTime;
      if renewed {
        row := Some(row.value.(expires := Some(statementTime + duration)));
      }
    }

    method ReleaseCollectionLease(fence: Fence)
      modifies this
      ensures Contents() == ReleaseStep(old(Contents()), fence)
    {
      if row.Some? && row.value.lease == Leased(fence) {
        row := Some(row.value.(lease := Active, expires := None));
      }
    }

    method Upsert(items: seq<Item>) returns (staged: map<Key, Evidence>, conflict: bool)
      ensures conflict == UpsertAll(evidence, items).None?
      ensures !conflict ==> UpsertAll(evidence, items) == Some(staged)
    {
      staged := evidence;
      for i := 0 to |items|
        invariant UpsertAll(evidence, items) == UpsertAll(staged, items[i..])
      {
        if items[i].key in staged && staged[items[i].key].content != items[i].content {
          return staged, true;
        }
        assert items[i..][1..] == items[i + 1..];
        staged := staged[items[i].key := Evidence(items[i].content, items[i].observedAt)];
      }
      assert items[|items|..] == [];
      conflict := false;
    }

    /** One attempt: every rejection leaves all three tables as they were. */
    method CommitAttempt(b: CollectionBatch, now: int, later: int) returns (outcome: Outcome)
      modifies this
      ensures (outcome, Contents()) == CommitStep(old(Contents()), b, now, later)
    {
      if b.next == 0 || |b.items| == 0 || |b.items| > MAX_BATCH {
        return Rejected(OutOfBounds);
      }
      if row.None? || row.value.lease != Leased(b.fence) || row.value.expires.None? {
        return Rejected(FenceRejected);
      }
      if row.value.expires.value <= now {
        return Rejected(FenceRejected);
      }
      var current := row.value.cursor;
      var generationChanged := current.generation != Unset && current.generation != b.generation;
      if !generationChanged && b.next < current.next {
        return Rejected(StaleCursor);
      }
      if !generationChanged && b.next == current.next {
        if current.digest != b.digest || b.id !in batches || batches[b.id] != Assertion(b.digest, b.items, |b.items|) {
          return Rejected(SourceConflict);
        }
        for i := 0 to |b.items|
          invariant forall j :: 0 <= j < i ==> b.items[j].key in evidence && Compatible(evidence, b.items[j])
        {
          if b.items[i].key !in evidence || evidence[b.items[i].key].content != b.items[i].content {
            return Rejected(SourceConflict);
          }
        }
        return Replayed;
      }
      var staged, conflict := Upsert(b.items);
      if conflict {
        return Rejected(SourceConflict);
      }
      if b.id in batches {
        return Rejected(DuplicateBatch);
      }
      if row.value.expires.value <= later {
        return Rejected(FenceRejected);
      }
      evidence := staged;
      batches := batches[b.id := Assertion(b.digest, b.items, |b.items|)];
      row := Some(row.value.(cursor := Cursor(b.generation, b.digest, b.next)));
      outcome := Committed;
    }

    /** The transaction under at most three attempts; the flag is what the last body that ran left behind. */
    method CommitCollection(b: CollectionBatch, attempts: seq<Attempt>) returns (committed: bool, outcome: Outcome)
      modifies this
      ensures (outcome, Contents()) == CommitWithRetries(old(Contents()), b, attempts, MAX_ATTEMPTS)
      ensures committed == FlagAfter(old(Contents()), b, attempts, MAX_ATTEMPTS, false)
    {
      committed := false;
      if !WithinBounds(b) {
        return false, Rejected(OutOfBounds);
      }
      var attempt := 0;
      while attempt < MAX_ATTEMPTS && attempt < |attempts|
        invariant 0 <= attempt <= MAX_ATTEMPTS && attempt <= |attempts|
        invariant Contents() == old(Contents())
        invariant CommitWithRetries(old(Contents()), b, attempts, MAX_ATTEMPTS)
               == CommitWithRetries(old(Contents()), b, attempts[attempt..], MAX_ATTEMPTS - attempt)
        invariant FlagAfter(old(Contents()), b, attempts, MAX_ATTEMPTS, false)
               == FlagAfter(old(Contents()), b, attempts[attempt..], MAX_ATTEMPTS - attempt, committed)
      {
        assert attempts[attempt..][1..] == attempts[attempt + 1..];
        match attempts[attempt] {
          case BodyAborted => committed := false;
          case Serialized(now, later) =>
            outcome := CommitAttempt(b, now, later);
            committed := outcome == Committed;
            return;
          case CommitAborted(now, later) =>
            var begun := Contents();
            outcome := CommitAttempt(b, now, later);
            committed := outcome == Committed;
            if outcome.Rejected? {
              return;
            }
            row, evidence, batches := begun.row, begun.evidence, begun.batches;
        }
        attempt := attempt + 1;
      }
      outcome := Rejected(if attempt == MAX_ATTEMPTS then Exhausted else NoTransaction);
    }
  }
}
