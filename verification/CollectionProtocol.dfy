/** Any number of collector runs over one source row, interleaved statement by statement.

    A run is named by its fence. It may stop at any point and never be scheduled again (a crash or a
    stall), with or without its deferred release. The clock only moves forward. */
module CollectionProtocol {
  import opened Wrappers
  import opened Adapter
  import opened CollectionStore

  /** Where a run stands: what it has read so far, in the order in which it reads it. */
  datatype Phase =
    | Acquired
    | ReadCursor(cursor: nat)
    | ReadGeneration(cursor: nat, generation: Generation)
    | ReadDigest(seen: Cursor)
    | HasBatch(seen: Cursor, batch: Batch)
    | Renewed(seen: Cursor, batch: Batch)
    | Finished

  /** Collector options are rejected unless the batch limit is at least one. */
  type Limit = n: int | n >= 1 witness 1

  datatype Run = Run(phase: Phase, snapshot: seq<Parsed>, limit: Limit)

  datatype System = System(store: Store, clock: int, runs: map<Fence, Run>)

  datatype Action =
    | Tick(now: int)
    | Begin(fence: Fence, snapshot: seq<Parsed>, limit: Limit, duration: int)
    | ReadNext(fence: Fence)
    | CollectBatch(fence: Fence)
    | RenewLease(fence: Fence, duration: int)
    | CommitBatch(fence: Fence, later: int)
    | AbortedCommit(fence: Fence)
    | Release(fence: Fence)

  function ItemOf(record: Record): Item {
    Item(Key(record.generation, record.sequence), record.canonical, record.observedAt)
  }

  function Items(records: seq<Record>): (items: seq<Item>)
    ensures |items| == |records|
  {
    seq(|records|, (i: nat) => ItemOf(if i < |records| then records[i] else NO_RECORD))
  }

  function RequestOf(seen: Cursor, limit: Limit): Request {
    Request(seen.next, seen.generation, seen.digest, limit, 0)
  }

  /** The i-th item of a collected batch is the source record at its own position. */
  lemma {:induction false} BatchItemAt(snapshot: seq<Parsed>, request: Request, i: nat)
    requires request.limit >= 1 && |snapshot| >= 1
    requires i < |BatchOf(snapshot, request).records|
    ensures var batch := BatchOf(snapshot, request); var at := Start(snapshot, request) + i;
            && at < |snapshot|
            && Items(batch.records)[i].key == Key(batch.generation, at + 1)
            && Items(batch.records)[i].content == Contents(snapshot)[at]
  {
    BatchShape(snapshot, request);
  }

  lemma {:induction false} UpsertStores(evidence: map<Key, Evidence>, items: seq<Item>, i: nat)
    requires UpsertAll(evidence, items).Some? && i < |items|
    ensures items[i].key in UpsertAll(evidence, items).value
    ensures UpsertAll(evidence, items).value[items[i].key].content == items[i].content
  {
    UpsertKeepsContent(evidence, items);
  }

  lemma {:induction false} UpsertKeeps(evidence: map<Key, Evidence>, items: seq<Item>, key: Key)
    requires UpsertAll(evidence, items).Some? && key in evidence
    ensures key in UpsertAll(evidence, items).value
    ensures UpsertAll(evidence, items).value[key].content == evidence[key].content
  {
    UpsertKeepsContent(evidence, items);
  }

  lemma {:induction false} UpsertAddsOnly(evidence: map<Key, Evidence>, items: seq<Item>, key: Key) returns (i: nat)
    requires UpsertAll(evidence, items).Some?
    requires key in UpsertAll(evidence, items).value && key !in evidence
    ensures i < |items| && items[i].key == key
  {
    UpsertKeepsContent(evidence, items);
    i :| 0 <= i < |items| && items[i].key == key;
  }

  /** The commit request a run builds from the cursor it read and the batch it collected. */
  function CommitOf(fence: Fence, seen: Cursor, batch: Batch): CollectionBatch {
    CollectionBatch(BatchId(batch.generation, batch.digest, seen.next, batch.nextCursor),
                    batch.nextCursor, batch.generation, batch.digest, fence, Items(batch.records))
  }

  predicate InPhase(s: System, fence: Fence) {
    fence in s.runs && !s.runs[fence].phase.Finished?
  }

  predicate Enabled(s: System, a: Action) {
    match a
    case Tick(now) => now >= s.clock
    case Begin(fence, snapshot, limit, duration) =>
      fence !in s.runs && duration > 0 && |snapshot| >= 1
    case ReadNext(fence) =>
      InPhase(s, fence) && var p := s.runs[fence].phase; p.Acquired? || p.ReadCursor? || p.ReadGeneration?
    case CollectBatch(fence) => InPhase(s, fence) && s.runs[fence].phase.ReadDigest?
    case RenewLease(fence, duration) => InPhase(s, fence) && s.runs[fence].phase.HasBatch? && duration > 0
    case CommitBatch(fence, later) => InPhase(s, fence) && s.runs[fence].phase.Renewed? && later >= s.clock
    case AbortedCommit(fence) => InPhase(s, fence) && s.runs[fence].phase.Renewed?
    case Release(fence) => fence in s.runs
  }

  function SetPhase(s: System, fence: Fence, phase: Phase): System
    requires fence in s.runs
  {
    s.(runs := s.runs[fence := s.runs[fence].(phase := phase)])
  }

  /** One read statement of the row: cursor, then generation, then digest. */
  function NextRead(p: Phase, current: Cursor): Phase
    requires p.Acquired? || p.ReadCursor? || p.ReadGeneration?
  {
    match p
    case Acquired => ReadCursor(current.next)
    case ReadCursor(n) => ReadGeneration(n, current.generation)
    case ReadGeneration(n, g) => ReadDigest(Cursor(g, current.digest, n))
  }

  function Step(s: System, a: Action): System
    requires Enabled(s, a)
  {
    match a
    case Tick(now) => s.(clock := now)
    case Begin(fence, snapshot, limit, duration) =>
      System(AcquireStep(s.store, fence, s.clock, duration), s.clock,
             s.runs[fence := Run(if Acquirable(s.store, s.clock) then Acquired else Finished, snapshot, limit)])
    case ReadNext(fence) =>
      SetPhase(s, fence, NextRead(s.runs[fence].phase, CurrentCursor(s.store)))
    case CollectBatch(fence) =>
      var run := s.runs[fence];
      var batch := BatchOf(run.snapshot, RequestOf(run.phase.seen, run.limit));
      SetPhase(s, fence, if batch.records == [] then Finished else HasBatch(run.phase.seen, batch))
    case RenewLease(fence, duration) =>
      var p := s.runs[fence].phase;
      SetPhase(s.(store := RenewStep(s.store, fence, s.clock, duration)), fence,
               if HoldsCurrentLease(s.store, fence, s.clock) then Renewed(p.seen, p.batch) else Finished)
    case CommitBatch(fence, later) =>
      var p := s.runs[fence].phase;
      SetPhase(System(CommitStep(s.store, CommitOf(fence, p.seen, p.batch), s.clock, later).1, later, s.runs),
               fence, Finished)
    case AbortedCommit(fence) => s
    case Release(fence) => SetPhase(s.(store := ReleaseStep(s.store, fence)), fence, Finished)
  }

  ghost predicate IsTrace(trace: seq<System>, actions: seq<Action>) {
    && |trace| == |actions| + 1
    && Initial(trace[0])
    && forall i :: 0 <= i < |actions| ==> Enabled(trace[i], actions[i]) && trace[i + 1] == Step(trace[i], actions[i])
  }

  predicate Initial(s: System) {
    s.store == Store(None, map[], map[]) && s.runs == map[]
  }

  // ---------------------------------------------------------------- the invariant of every reachable state

  /** What a run has read so far is what the row holds. */
  predicate SeenIsCurrent(p: Phase, current: Cursor) {
    match p
    case Acquired => true
    case ReadCursor(n) => n == current.next
    case ReadGeneration(n, g) => n == current.next && g == current.generation
    case ReadDigest(seen) => seen == current
    case HasBatch(seen, _) => seen == current
    case Renewed(seen, _) => seen == current
    case Finished => true
  }

  predicate BatchFromSeen(run: Run) {
    match run.phase
    case HasBatch(seen, batch) => batch == BatchOf(run.snapshot, RequestOf(seen, run.limit)) && batch.records != []
    case Renewed(seen, batch) => batch == BatchOf(run.snapshot, RequestOf(seen, run.limit)) && batch.records != []
    case _ => true
  }

  predicate LeaseHolderIsKnown(s: System) {
    s.store.row.Some? && s.store.row.value.lease.Leased? ==>
      var fence := s.store.row.value.lease.fence;
      && fence in s.runs
      && s.store.row.value.expires.Some?
      && SeenIsCurrent(s.runs[fence].phase, s.store.row.value.cursor)
  }

  /** A row that nobody holds carries no lease time. */
  predicate FreeRowHasNoLeaseTime(s: System) {
    s.store.row.Some? && s.store.row.value.lease.Active? ==> s.store.row.value.expires.None?
  }

  predicate RunsWellFormed(s: System) {
    forall fence :: fence in s.runs ==>
      |s.runs[fence].snapshot| >= 1 && BatchFromSeen(s.runs[fence])
  }

  /** The stored digest is the digest of exactly the stored records 1 .. cursor of the stored generation. */
  predicate DigestDescribesEvidence(cursor: Cursor, evidence: map<Key, Evidence>) {
    if cursor.generation == Unset then cursor == EMPTY_CURSOR
    else
      && cursor.digest.Prefix? && |cursor.digest.content| == cursor.next
      && forall i :: 0 <= i < cursor.next ==> StoredAt(evidence, cursor.generation, i, cursor.digest.content[i])
  }

  /** Source position index + 1 of a generation is stored with this content. */
  predicate StoredAt(evidence: map<Key, Evidence>, generation: Generation, index: nat, content: string) {
    && Key(generation, index + 1) in evidence
    && evidence[Key(generation, index + 1)].content == content
  }

  predicate Invariant(s: System) {
    && LeaseHolderIsKnown(s)
    && FreeRowHasNoLeaseTime(s)
    && RunsWellFormed(s)
    && DigestDescribesEvidence(CurrentCursor(s.store), s.store.evidence)
  }

  /** An accepted commit found the stored cursor, generation and digest exactly as its run read them. */
  lemma {:induction false} AcceptedCommitSawCurrentRow(s: System, fence: Fence, later: int)
    requires Invariant(s) && Enabled(s, CommitBatch(fence, later))
    ensures var p := s.runs[fence].phase;
            var outcome := CommitStep(s.store, CommitOf(fence, p.seen, p.batch), s.clock, later).0;
            outcome.Rejected? || (HoldsCurrentLease(s.store, fence, s.clock) && p.seen == CurrentCursor(s.store))
    ensures var p := s.runs[fence].phase;
            CommitStep(s.store, CommitOf(fence, p.seen, p.batch), s.clock, later).0 == Committed ==>
              HoldsCurrentLease(s.store, fence, later)
  {
    var p := s.runs[fence].phase;
    if HoldsLease(s.store, fence) {
      assert SeenIsCurrent(p, CurrentCursor(s.store));
    }
  }

  lemma {:induction false} CommitKeepsDigest(s: System, fence: Fence, later: int)
    requires Invariant(s) && Enabled(s, CommitBatch(fence, later))
    ensures var after := Step(s, CommitBatch(fence, later)).store;
            DigestDescribesEvidence(CurrentCursor(after), after.evidence)
  {
    var run := s.runs[fence];
    var p := run.phase;
    var b := CommitOf(fence, p.seen, p.batch);
    var (outcome, after) := CommitStep(s.store, b, s.clock, later);
    if outcome == Committed {
      AcceptedCommitSawCurrentRow(s, fence, later);
      CommittedDigest(s.store.evidence, after.evidence, run, p.seen, p.batch);
    }
  }

  /** The evidence part of a commit: old records of a kept prefix plus the new ones give the new digest. */
  lemma {:induction false} CommittedDigest(before: map<Key, Evidence>, after: map<Key, Evidence>, run: Run,
                                           seen: Cursor, batch: Batch)
    requires |run.snapshot| >= 1
    requires batch == BatchOf(run.snapshot, RequestOf(seen, run.limit)) && batch.records != []
    requires DigestDescribesEvidence(seen, before)
    requires UpsertAll(before, Items(batch.records)) == Some(after)
    ensures DigestDescribesEvidence(Cursor(batch.generation, batch.digest, batch.nextCursor), after)
  {
    var request := RequestOf(seen, run.limit);
    var from := Start(run.snapshot, request);
    var contents := Contents(run.snapshot);
    assert batch.nextCursor == from + |batch.records| && batch.digest == Prefix(contents[..batch.nextCursor]) by {
      BatchShape(run.snapshot, request);
    }
    forall i | 0 <= i < batch.nextCursor
      ensures StoredAt(after, batch.generation, i, batch.digest.content[i])
    {
      if i >= from {
        NewRecordAt(before, run, seen, i);
      } else {
        KeptRecordAt(before, run, seen, i);
        UpsertKeeps(before, Items(batch.records), Key(batch.generation, i + 1));
      }
    }
  }

  lemma {:induction false} NewRecordAt(before: map<Key, Evidence>, run: Run, seen: Cursor, i: nat)
    requires |run.snapshot| >= 1
    requires UpsertAll(before, Items(BatchOf(run.snapshot, RequestOf(seen, run.limit)).records)).Some?
    requires var request := RequestOf(seen, run.limit);
             0 <= i - Start(run.snapshot, request) < |BatchOf(run.snapshot, request).records|
    ensures var batch := BatchOf(run.snapshot, RequestOf(seen, run.limit));
            && i < |run.snapshot|
            && StoredAt(UpsertAll(before, Items(batch.records)).value, batch.generation, i, Contents(run.snapshot)[i])
  {
    var request := RequestOf(seen, run.limit);
    var at := i - Start(run.snapshot, request);
    BatchItemAt(run.snapshot, request, at);
    UpsertStores(before, Items(BatchOf(run.snapshot, request).records), at);
  }

  lemma {:induction false} KeptRecordAt(before: map<Key, Evidence>, run: Run, seen: Cursor, i: nat)
    requires DigestDescribesEvidence(seen, before)
    requires i < Start(run.snapshot, RequestOf(seen, run.limit))
    ensures var generation := CollectedGeneration(run.snapshot, RequestOf(seen, run.limit));
            && i < |run.snapshot|
            && StoredAt(before, generation, i, Contents(run.snapshot)[i])
  {
    assert StoredAt(before, seen.generation, i, seen.digest.content[i]);
    assert !Rotates(run.snapshot, seen.next, seen.digest);
    assert seen.digest.content == Contents(run.snapshot)[..seen.next];
  }

  lemma {:induction false} StepKeepsLeaseHolder(s: System, a: Action)
    requires LeaseHolderIsKnown(s) && Enabled(s, a)
    ensures LeaseHolderIsKnown(Step(s, a))
  {}

  lemma {:induction false} StepKeepsLeaseTimes(s: System, a: Action)
    requires FreeRowHasNoLeaseTime(s) && Enabled(s, a)
    ensures FreeRowHasNoLeaseTime(Step(s, a))
  {}

  lemma {:induction false} StepKeepsRuns(s: System, a: Action)
    requires RunsWellFormed(s) && Enabled(s, a)
    ensures RunsWellFormed(Step(s, a))
  {}

  lemma {:induction false} StepKeepsInvariant(s: System, a: Action)
    requires Invariant(s) && Enabled(s, a)
    ensures Invariant(Step(s, a))
  {
    StepKeepsLeaseHolder(s, a);
    StepKeepsLeaseTimes(s, a);
    StepKeepsRuns(s, a);
    if a.CommitBatch? {
      CommitKeepsDigest(s, a.fence, a.later);
    }
  }

  /** Safety over whole runs: every reachable state satisfies the invariant. */
  lemma {:induction false} ReachableStatesAreSound(trace: seq<System>, actions: seq<Action>, n: nat)
    requires IsTrace(trace, actions) && n < |trace|
    ensures Invariant(trace[n])
    decreases n
  {
    if n > 0 {
      ReachableStatesAreSound(trace, actions, n - 1);
      StepKeepsInvariant(trace[n - 1], actions[n - 1]);
    }
  }

  // ---------------------------------------------------------------- fences and cursors over whole runs

  /** A fence that was superseded or released never holds the lease again. */
  lemma {:induction false} LostLeaseStaysLost(trace: seq<System>, actions: seq<Action>, fence: Fence, i: nat, j: nat)
    requires IsTrace(trace, actions) && i <= j < |trace|
    requires fence in trace[i].runs && !HoldsLease(trace[i].store, fence)
    ensures fence in trace[j].runs && !HoldsLease(trace[j].store, fence)
    decreases j
  {
    if j > i {
      LostLeaseStaysLost(trace, actions, fence, i, j - 1);
    }
  }

  /** Therefore nothing it still tries to commit is ever stored. */
  lemma {:induction false} SupersededFenceNeverCommits(trace: seq<System>, actions: seq<Action>, fence: Fence, i: nat,
                                                       j: nat, later: int)
    requires IsTrace(trace, actions) && i <= j < |actions|
    requires fence in trace[i].runs && !HoldsLease(trace[i].store, fence)
    requires actions[j] == CommitBatch(fence, later)
    ensures trace[j + 1].store == trace[j].store
  {
    LostLeaseStaysLost(trace, actions, fence, i, j);
  }

  /** Within one generation the stored cursor never decreases, and an expired fence changes nothing. */
  lemma {:induction false} CursorNeverDecreases(s: System, a: Action)
    requires Invariant(s) && Enabled(s, a)
    ensures var before, after := CurrentCursor(s.store), CurrentCursor(Step(s, a).store);
            && (before.generation == after.generation ==> before.next <= after.next)
            && (before != after ==> a.CommitBatch? && HoldsCurrentLease(s.store, a.fence, s.clock)
                                    && after.generation != Unset)
  {
    if a.CommitBatch? {
      var p := s.runs[a.fence].phase;
      AcceptedCommitSawCurrentRow(s, a.fence, a.later);
    }
  }

  /** As long as the stored generation stays the same, however the runs are interleaved, so does what the cursor
      covers: it never goes back, not even by way of another run's commit. */
  lemma {:induction false} CursorOnlyAdvances(trace: seq<System>, actions: seq<Action>, i: nat, j: nat)
    requires IsTrace(trace, actions) && i <= j < |trace|
    requires forall n :: i <= n <= j ==>
               CurrentCursor(trace[n].store).generation == CurrentCursor(trace[i].store).generation
    ensures CurrentCursor(trace[i].store).next <= CurrentCursor(trace[j].store).next
    decreases j
  {
    if i < j {
      CursorOnlyAdvances(trace, actions, i, j - 1);
      ReachableStatesAreSound(trace, actions, j - 1);
      CursorNeverDecreases(trace[j - 1], actions[j - 1]);
    }
  }

  /** No stored content is ever changed or lost, whatever snapshots the runs were given. */
  lemma {:induction false} EvidenceIsImmutable(trace: seq<System>, actions: seq<Action>, i: nat, j: nat, key: Key)
    requires IsTrace(trace, actions) && i <= j < |trace|
    requires key in trace[i].store.evidence
    ensures key in trace[j].store.evidence
    ensures trace[j].store.evidence[key].content == trace[i].store.evidence[key].content
    decreases j
  {
    if j > i {
      EvidenceIsImmutable(trace, actions, i, j - 1, key);
      var s, a := trace[j - 1], actions[j - 1];
      if a.CommitBatch? {
        var p := s.runs[a.fence].phase;
        var b := CommitOf(a.fence, p.seen, p.batch);
        if CommitStep(s.store, b, s.clock, a.later).0 == Committed {
          UpsertKeepsContent(s.store.evidence, b.items);
        }
      }
    }
  }

  /** Step m committed a batch of this identity with this digest and these items. */
  ghost predicate CommittedAt(trace: seq<System>, actions: seq<Action>, m: nat, id: BatchId, digest: Digest,
                              items: seq<Item>)
    requires IsTrace(trace, actions)
  {
    && m < |actions| && actions[m].CommitBatch?
    && var p := trace[m].runs[actions[m].fence].phase;
       var c := CommitOf(actions[m].fence, p.seen, p.batch);
       && c.id == id && c.digest == digest && c.items == items
       && CommitStep(trace[m].store, c, trace[m].clock, actions[m].later).0 == Committed
  }

  lemma {:induction false} StoredBatchWasCommitted(trace: seq<System>, actions: seq<Action>, n: nat, id: BatchId)
    returns (m: nat)
    requires IsTrace(trace, actions) && n < |trace| && id in trace[n].store.batches
    ensures m < n && CommittedAt(trace, actions, m, id, trace[n].store.batches[id].digest,
                                 trace[n].store.batches[id].items)
    decreases n
  {
    var before, a := trace[n - 1], actions[n - 1];
    if id in before.store.batches && before.store.batches[id] == trace[n].store.batches[id] {
      m := StoredBatchWasCommitted(trace, actions, n - 1, id);
    } else {
      m := n - 1;
      assert trace[n] == Step(before, a);
    }
  }

  /** Whatever batch is sent, if it is taken for a repetition, then some earlier step did commit that very batch, its
      items are stored under their keys with their content, and nothing changes. */
  lemma {:induction false} ReplayedBatchWasCommitted(trace: seq<System>, actions: seq<Action>, n: nat,
                                                     b: CollectionBatch, now: int, later: int)
    requires IsTrace(trace, actions) && n < |trace|
    requires CommitStep(trace[n].store, b, now, later).0 == Replayed
    ensures CommitStep(trace[n].store, b, now, later).1 == trace[n].store
    ensures exists m: nat :: m < n && CommittedAt(trace, actions, m, b.id, b.digest, b.items)
    ensures forall i :: 0 <= i < |b.items| ==>
              && b.items[i].key in trace[n].store.evidence
              && trace[n].store.evidence[b.items[i].key].content == b.items[i].content
  {
    var m := StoredBatchWasCommitted(trace, actions, n, b.id);
  }

  // ---------------------------------------------------------------- exactly once

  /** The snapshot starts with everything that was committed. */
  predicate Continues(snapshot: seq<Parsed>, cursor: Cursor) {
    cursor.digest.Prefix? ==> Extends(snapshot, cursor.digest.content)
  }

  /** A run that acquires the lease was given a snapshot that continues what is committed by then. */
  predicate SourceOnlyGrows(s: System, a: Action) {
    a.Begin? && Acquirable(s.store, s.clock) ==> Continues(a.snapshot, CurrentCursor(s.store))
  }

  ghost predicate StoresExactly(evidence: map<Key, Evidence>, last: nat) {
    forall key :: key in evidence <==> key.generation == Base && 1 <= key.sequence <= last
  }

  /** Exactly the source positions 1 .. cursor are stored, each once, under the base generation. */
  ghost predicate ExactlyOnce(store: Store) {
    var cursor := CurrentCursor(store);
    && cursor.generation in {Unset, Base}
    && StoresExactly(store.evidence, cursor.next)
    && (forall id :: id in store.batches ==> id.from < id.to <= cursor.next)
  }

  /** The snapshot of the run that holds the lease, if any, continues what is committed. */
  predicate HolderContinues(s: System) {
    s.store.row.Some? && s.store.row.value.lease.Leased? && s.store.row.value.lease.fence in s.runs ==>
      Continues(s.runs[s.store.row.value.lease.fence].snapshot, CurrentCursor(s.store))
  }

  function Remaining(run: Run, cursor: nat): nat {
    if cursor <= |run.snapshot| then |run.snapshot| - cursor else 0
  }

  /** Whatever superseded runs have read, the holder of the lease has read the current row, and its batch
      starts where that row ends exactly if its snapshot continues it. */
  lemma {:induction false} HolderRotates(s: System, fence: Fence)
    requires Invariant(s) && InPhase(s, fence) && s.runs[fence].phase.Renewed? && HoldsLease(s.store, fence)
    ensures var run := s.runs[fence];
            && run.phase.seen == CurrentCursor(s.store)
            && (Rotates(run.snapshot, run.phase.seen.next, run.phase.seen.digest) <==>
                  !Continues(run.snapshot, CurrentCursor(s.store)))
  {
    var current := CurrentCursor(s.store);
    assert SeenIsCurrent(s.runs[fence].phase, current);
    if current.digest.Prefix? {
      RotatesIffNotExtending(s.runs[fence].snapshot, current.digest.content);
    }
  }

  /** None of the batch's keys is stored yet, so its upsert meets no conflict. */
  lemma {:induction false} FreshBatchUpserts(before: map<Key, Evidence>, run: Run, seen: Cursor, batch: Batch)
    requires |run.snapshot| >= 1 && batch == BatchOf(run.snapshot, RequestOf(seen, run.limit))
    requires !Rotates(run.snapshot, seen.next, seen.digest) && batch.generation == Base
    requires StoresExactly(before, seen.next)
    ensures UpsertAll(before, Items(batch.records)).Some?
  {
    var items := Items(batch.records);
    forall i | 0 <= i < |items| ensures items[i].key == Key(Base, seen.next + i + 1) {
      BatchItemAt(run.snapshot, RequestOf(seen, run.limit), i);
    }
    FreshItemsUpsert(before, items);
  }

  /** A run that holds the lease and whose snapshot continues what is committed always commits while that
      lease is current, and moves the cursor by exactly the smaller of its limit and what remained. */
  lemma {:induction false} CommitAdvancesByBatch(s: System, fence: Fence, later: int)
    requires Invariant(s) && ExactlyOnce(s.store) && Enabled(s, CommitBatch(fence, later))
    requires HoldsLease(s.store, fence) && Continues(s.runs[fence].snapshot, CurrentCursor(s.store))
    ensures var run := s.runs[fence];
            var moved := Min(run.limit, Remaining(run, run.phase.seen.next));
            var b := CommitOf(fence, run.phase.seen, run.phase.batch);
            var (outcome, after) := CommitStep(s.store, b, s.clock, later);
            && moved >= 1
            && (outcome == Committed <==>
                  HoldsCurrentLease(s.store, fence, s.clock) && HoldsCurrentLease(s.store, fence, later)
                  && moved <= MAX_BATCH)
            && (outcome == Committed ==>
                  && CurrentCursor(after).next == CurrentCursor(s.store).next + moved
                  && CurrentCursor(after).generation == Base
                  && CurrentCursor(after).digest == Prefix(Contents(run.snapshot)[..CurrentCursor(after).next]))
  {
    var run := s.runs[fence];
    var seen, batch := run.phase.seen, run.phase.batch;
    var b := CommitOf(fence, seen, batch);
    var current := CurrentCursor(s.store);
    BatchShape(run.snapshot, RequestOf(seen, run.limit));
    HolderRotates(s, fence);
    assert |b.items| == |batch.records| == Min(run.limit, Remaining(run, seen.next));
    if HoldsCurrentLease(s.store, fence, s.clock) {
      assert b.next > current.next;
      assert batch.generation == Base;
      FreshBatchUpserts(s.store.evidence, run, seen, batch);
      assert b.id !in s.store.batches;
    }
  }

  lemma {:induction false} CommittedKeys(before: map<Key, Evidence>, after: map<Key, Evidence>, run: Run,
                                         seen: Cursor, batch: Batch, key: Key)
    requires |run.snapshot| >= 1 && batch == BatchOf(run.snapshot, RequestOf(seen, run.limit))
    requires !Rotates(run.snapshot, seen.next, seen.digest)
    requires UpsertAll(before, Items(batch.records)) == Some(after)
    ensures key in after <==>
              key in before ||
              (key.generation == batch.generation && seen.next < key.sequence <= seen.next + |batch.records|)
  {
    var request := RequestOf(seen, run.limit);
    if key in before {
      UpsertKeeps(before, Items(batch.records), key);
    } else if key in after {
      var i := UpsertAddsOnly(before, Items(batch.records), key);
      BatchItemAt(run.snapshot, request, i);
    } else if key.generation == batch.generation && seen.next < key.sequence <= seen.next + |batch.records| {
      var i := key.sequence - seen.next - 1;
      BatchItemAt(run.snapshot, request, i);
      UpsertStores(before, Items(batch.records), i);
    }
  }

  lemma {:induction false} CommittedStoresExactly(before: map<Key, Evidence>, after: map<Key, Evidence>, run: Run,
                                                  seen: Cursor, batch: Batch)
    requires |run.snapshot| >= 1 && batch == BatchOf(run.snapshot, RequestOf(seen, run.limit))
    requires !Rotates(run.snapshot, seen.next, seen.digest) && batch.generation == Base
    requires StoresExactly(before, seen.next) && UpsertAll(before, Items(batch.records)) == Some(after)
    ensures batch.nextCursor == seen.next + |batch.records| && StoresExactly(after, batch.nextCursor)
  {
    BatchShape(run.snapshot, RequestOf(seen, run.limit));
    forall key ensures key in after <==> key.generation == Base && 1 <= key.sequence <= batch.nextCursor {
      CommittedKeys(before, after, run, seen, batch, key);
    }
  }

  lemma {:induction false} CommitKeepsExactlyOnce(s: System, fence: Fence, later: int)
    requires Invariant(s) && ExactlyOnce(s.store) && Enabled(s, CommitBatch(fence, later))
    requires HoldsLease(s.store, fence) ==> Continues(s.runs[fence].snapshot, CurrentCursor(s.store))
    ensures ExactlyOnce(Step(s, CommitBatch(fence, later)).store)
  {
    var run := s.runs[fence];
    var seen, batch := run.phase.seen, run.phase.batch;
    var b := CommitOf(fence, seen, batch);
    var (outcome, after) := CommitStep(s.store, b, s.clock, later);
    if outcome == Committed {
      AcceptedCommitSawCurrentRow(s, fence, later);
      CommitAdvancesByBatch(s, fence, later);
      HolderRotates(s, fence);
      CommittedStoresExactly(s.store.evidence, after.evidence, run, seen, batch);
      assert forall id :: id in after.batches ==> id == b.id || id in s.store.batches;
    }
  }

  /** Committing part of a snapshot leaves a prefix of that snapshot committed. */
  lemma {:induction false} CommitKeepsHolder(s: System, fence: Fence, later: int)
    requires Invariant(s) && HolderContinues(s) && Enabled(s, CommitBatch(fence, later))
    ensures HolderContinues(Step(s, CommitBatch(fence, later)))
  {
    var run := s.runs[fence];
    var seen, batch := run.phase.seen, run.phase.batch;
    if CommitStep(s.store, CommitOf(fence, seen, batch), s.clock, later).0 == Committed {
      AcceptedCommitSawCurrentRow(s, fence, later);
      BatchShape(run.snapshot, RequestOf(seen, run.limit));
    }
  }

  lemma {:induction false} StepKeepsHolder(s: System, a: Action)
    requires Invariant(s) && HolderContinues(s) && Enabled(s, a) && SourceOnlyGrows(s, a)
    ensures HolderContinues(Step(s, a))
  {
    if a.CommitBatch? {
      CommitKeepsHolder(s, a.fence, a.later);
    }
  }

  lemma {:induction false} StepKeepsExactlyOnce(s: System, a: Action)
    requires Invariant(s) && ExactlyOnce(s.store) && HolderContinues(s) && Enabled(s, a)
    ensures ExactlyOnce(Step(s, a).store)
  {
    if a.CommitBatch? {
      CommitKeepsExactlyOnce(s, a.fence, a.later);
    }
  }

  /** Exactly-once ingestion across every interleaving, crash, stall, expiry and aborted transaction: if the
      snapshot of every run continues what is committed when that run acquires the lease, the evidence table
      holds exactly the positions 1 .. cursor, each with the content that the stored digest records for it.
      Nothing is assumed about runs that are refused the lease, or about what superseded runs read. */
  lemma {:induction false} ExactlyOnceIngestion(trace: seq<System>, actions: seq<Action>, n: nat)
    requires IsTrace(trace, actions) && n < |trace|
    requires forall i :: 0 <= i < n ==> SourceOnlyGrows(trace[i], actions[i])
    ensures ExactlyOnce(trace[n].store) && HolderContinues(trace[n])
    ensures DigestDescribesEvidence(CurrentCursor(trace[n].store), trace[n].store.evidence)
    decreases n
  {
    ReachableStatesAreSound(trace, actions, n);
    if n > 0 {
      ExactlyOnceIngestion(trace, actions, n - 1);
      ReachableStatesAreSound(trace, actions, n - 1);
      StepKeepsHolder(trace[n - 1], actions[n - 1]);
      StepKeepsExactlyOnce(trace[n - 1], actions[n - 1]);
    }
  }

  /** The premise is exact: an accepted commit keeps the evidence table exactly once if and only if its
      run's snapshot continued what was committed. */
  lemma {:induction false} AcceptedCommitIsExactlyOnceIffExtending(s: System, fence: Fence, later: int)
    requires Invariant(s) && ExactlyOnce(s.store) && Enabled(s, CommitBatch(fence, later))
    requires CommitStep(s.store, CommitOf(fence, s.runs[fence].phase.seen, s.runs[fence].phase.batch), s.clock, later).0
               == Committed
    ensures ExactlyOnce(Step(s, CommitBatch(fence, later)).store) <==>
              Continues(s.runs[fence].snapshot, CurrentCursor(s.store))
  {
    var run := s.runs[fence];
    var seen, batch := run.phase.seen, run.phase.batch;
    AcceptedCommitSawCurrentRow(s, fence, later);
    HolderRotates(s, fence);
    if Continues(run.snapshot, CurrentCursor(s.store)) {
      CommitKeepsExactlyOnce(s, fence, later);
    } else {
      var items := Items(batch.records);
      BatchShape(run.snapshot, RequestOf(seen, run.limit));
      UpsertKeepsContent(s.store.evidence, items);
      assert items[0].key.generation.Revised?;
    }
  }

  /** The keys of a rotated batch belong to a new generation, so its upsert meets no conflict. */
  lemma {:induction false} RotatedBatchUpserts(before: map<Key, Evidence>, last: nat, run: Run, seen: Cursor,
                                               batch: Batch)
    requires |run.snapshot| >= 1 && batch == BatchOf(run.snapshot, RequestOf(seen, run.limit))
    requires Rotates(run.snapshot, seen.next, seen.digest) && StoresExactly(before, last)
    ensures UpsertAll(before, Items(batch.records)).Some?
  {
    var items := Items(batch.records);
    forall i | 0 <= i < |items| ensures items[i].key == Key(Revised(Contents(run.snapshot)), i + 1) {
      BatchItemAt(run.snapshot, RequestOf(seen, run.limit), i);
    }
    FreshItemsUpsert(before, items);
  }

  /** Nothing in the commit stops a rotated batch: it is accepted under a lease that is current at both checks. */
  lemma {:induction false} RotatedCommitIsAccepted(s: System, fence: Fence, later: int)
    requires Invariant(s) && ExactlyOnce(s.store) && Enabled(s, CommitBatch(fence, later))
    requires HoldsCurrentLease(s.store, fence, s.clock) && HoldsCurrentLease(s.store, fence, later)
    requires !Continues(s.runs[fence].snapshot, CurrentCursor(s.store))
    requires Min(s.runs[fence].limit, |s.runs[fence].snapshot|) <= MAX_BATCH
    ensures var p := s.runs[fence].phase;
            var b := CommitOf(fence, p.seen, p.batch);
            && b.generation == Revised(Contents(s.runs[fence].snapshot)) && |b.items| >= 1
            && UpsertAll(s.store.evidence, b.items).Some?
            && CommitStep(s.store, b, s.clock, later)
               == (Committed, Advance(s.store, b, UpsertAll(s.store.evidence, b.items).value))
  {
    var run := s.runs[fence];
    var seen, batch := run.phase.seen, run.phase.batch;
    var b := CommitOf(fence, seen, batch);
    HolderRotates(s, fence);
    BatchShape(run.snapshot, RequestOf(seen, run.limit));
    RotatedBatchUpserts(s.store.evidence, seen.next, run, seen, batch);
    assert CurrentCursor(s.store).generation == Base && GenerationChanged(s.store, b);
    assert b.id !in s.store.batches;
  }

  /** So without that premise ingestion is not exactly once: a snapshot that is merely behind what was committed
      is accepted, and the first record is stored a second time under another generation. */
  lemma {:induction false} StaleSnapshotStoresTwice(s: System, fence: Fence, later: int)
    requires Invariant(s) && ExactlyOnce(s.store) && Enabled(s, CommitBatch(fence, later))
    requires HoldsCurrentLease(s.store, fence, s.clock) && HoldsCurrentLease(s.store, fence, later)
    requires CurrentCursor(s.store).digest.Prefix?
    requires Contents(s.runs[fence].snapshot) < CurrentCursor(s.store).digest.content
    requires Min(s.runs[fence].limit, |s.runs[fence].snapshot|) <= MAX_BATCH
    ensures var p := s.runs[fence].phase;
            var (outcome, after) := CommitStep(s.store, CommitOf(fence, p.seen, p.batch), s.clock, later);
            var other := Revised(Contents(s.runs[fence].snapshot));
            && outcome == Committed
            && Key(Base, 1) in after.evidence && Key(other, 1) in after.evidence
            && after.evidence[Key(Base, 1)].content == after.evidence[Key(other, 1)].content
  {
    var run := s.runs[fence];
    var seen, batch := run.phase.seen, run.phase.batch;
    RotatedCommitIsAccepted(s, fence, later);
    UpsertKeepsContent(s.store.evidence, Items(batch.records));
    HolderRotates(s, fence);
    BatchItemAt(run.snapshot, RequestOf(seen, run.limit), 0);
    assert StoredAt(s.store.evidence, Base, 0, seen.digest.content[0]);
    assert Items(batch.records)[0].content == Contents(run.snapshot)[0] == seen.digest.content[0];
  }
}
