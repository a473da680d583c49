/** Whole runs of evidence upserts, policy changes, plans and applies. */
module RetentionRuns {
  import opened Wrappers
  import opened Ordering
  import opened Retention

  datatype Step =
    | Upsert(record: Record)
    | PutPolicy(policyId: string, policy: Policy)
    | Retire(policyId: string)
    | ReadPlan
    | ApplyPlan(apply: Apply)

  /** A step that fails leaves the store as it was. */
  ghost predicate Next(s: Store, step: Step, s': Store) {
    match step
    case Upsert(record) => s' == s || UpsertStep(s, record, s')
    case PutPolicy(policyId, policy) => s' == s || PutPolicyStep(s, policyId, policy, s')
    case Retire(policyId) => s' == s || RetireStep(s, policyId, s')
    case ReadPlan => s' == s
    case ApplyPlan(apply) => s' == ApplyStep(s, apply).1
  }

  ghost predicate Follows(states: seq<Store>, steps: seq<Step>, i: nat) {
    i < |steps| && i + 1 < |states| ==> Next(states[i], steps[i], states[i + 1])
  }

  ghost predicate IsRun(states: seq<Store>, steps: seq<Step>) {
    && |states| == |steps| + 1
    && states[0] == Store(map[], map[], map[], map[])
    && forall i: nat :: Follows(states, steps, i)
  }

  // ---------------------------------------------------------------- what every step keeps

  predicate ArchivedIn(s: Store, batchId: string, record: Record) {
    && batchId in s.batches && s.batches[batchId].verifiedAt.Some?
    && record in s.batches[batchId].plaintextDigest.records
  }

  /** Some verified batch holds this row with these very values. */
  predicate Archived(s: Store, record: Record) {
    exists batchId :: batchId in s.batches && ArchivedIn(s, batchId, record)
  }

  /** The only values of a stored row that can change. */
  predicate SameContent(a: Record, b: Record) {
    b == a.(observedAt := b.observedAt, retainedUntil := b.retainedUntil)
  }

  /** Every action is complete, its count is that of its plan, and a verified batch holds exactly the plan. */
  ghost predicate Audited(s: Store) {
    forall digest :: digest in s.actions ==>
      && s.actions[digest].complete
      && s.actions[digest].applied == s.actions[digest].planned == |digest.records|
      && HasBatch(s, digest)
  }

  predicate HasBatch(s: Store, digest: Digest) {
    exists batchId :: batchId in s.batches && HoldsPlan(s.batches[batchId], digest)
  }

  /** The batch was verified to hold the plan, under the reference that its encrypted form determines. */
  predicate HoldsPlan(batch: Batch, digest: Digest) {
    && batch.plaintextDigest == digest && batch.count == |digest.records|
    && batch.verifiedAt.Some? && batch.encryptedDigest != ZeroDigest()
    && batch.reference == "sha256:" + batch.encryptedDigest
  }

  ghost predicate BatchesGrow(s: Store, s': Store) {
    forall batchId :: batchId in s.batches ==> batchId in s'.batches && s'.batches[batchId] == s.batches[batchId]
  }

  ghost predicate ActionsGrow(s: Store, s': Store) {
    forall digest :: digest in s.actions ==> digest in s'.actions && s'.actions[digest] == s.actions[digest]
  }

  /** A purge needs an unused plan digest, action and batch, so what is recorded stays. */
  lemma {:induction false} StepKeepsRecords(s: Store, step: Step, s': Store)
    requires Audited(s) && Next(s, step, s')
    ensures BatchesGrow(s, s') && ActionsGrow(s, s')
  {
    if step.ApplyPlan? {
      ApplyKeepsRecords(s, step.apply);
    }
  }

  lemma {:induction false} ApplyKeepsRecords(s: Store, a: Apply)
    requires Audited(s)
    ensures BatchesGrow(s, ApplyStep(s, a).1) && ActionsGrow(s, ApplyStep(s, a).1)
  {
    if a.plan.digest !in s.actions && ApplyStep(s, a).1 != s {
      PurgesIff(s, a);
    }
  }

  lemma {:induction false} StepAudits(s: Store, step: Step, s': Store)
    requires Audited(s) && Next(s, step, s')
    ensures Audited(s')
  {
    StepKeepsRecords(s, step, s');
    forall digest | digest in s'.actions ensures
      s'.actions[digest].complete && s'.actions[digest].applied == s'.actions[digest].planned == |digest.records|
      && HasBatch(s', digest)
    {
      if digest in s.actions {
        var batchId :| batchId in s.batches && HoldsPlan(s.batches[batchId], digest);
        assert batchId in s'.batches;
      } else {
        assert HoldsPlan(s'.batches[step.apply.receipt.batchId], digest);
      }
    }
  }

  /** A row that stays keeps its content, and one that leaves goes into a batch that holds it as it was. */
  lemma {:induction false} StepConserves(s: Store, step: Step, s': Store, id: string)
    requires Next(s, step, s') && id in s.evidence
    ensures if id in s'.evidence then SameContent(s.evidence[id], s'.evidence[id]) else Archived(s', s.evidence[id])
  {
    if step.ApplyPlan? && s' != s {
      var records := step.apply.plan.records;
      if id in Ids(records) {
        var i :| 0 <= i < |records| && records[i].id == id;
        assert StillPlanned(s, step.apply.plan, records[i]);
        assert ArchivedIn(s', step.apply.receipt.batchId, records[i]);
      }
    }
  }

  lemma {:induction false} ArchivedStays(s: Store, s': Store, record: Record)
    requires BatchesGrow(s, s') && Archived(s, record)
    ensures Archived(s', record)
  {
    var batchId :| batchId in s.batches && ArchivedIn(s, batchId, record);
    assert ArchivedIn(s', batchId, record);
  }

  // ---------------------------------------------------------------- whole runs

  lemma {:induction false} RunIsAudited(states: seq<Store>, steps: seq<Step>, i: nat)
    requires IsRun(states, steps) && i < |states|
    ensures Audited(states[i])
  {
    if i > 0 {
      RunIsAudited(states, steps, i - 1);
      assert Follows(states, steps, i - 1);
      StepAudits(states[i - 1], steps[i - 1], states[i]);
    }
  }

  predicate DeletedAt(states: seq<Store>, k: nat, id: string) {
    k + 1 < |states| && id in states[k].evidence && id !in states[k + 1].evidence
  }

  /** The row of this identifier at i is still there at k. */
  predicate RowStays(states: seq<Store>, i: nat, k: nat, id: string) {
    && i < |states| && id in states[i].evidence
    && k < |states| && id in states[k].evidence && SameContent(states[i].evidence[id], states[k].evidence[id])
  }

  /** The row of this identifier at i was never out of the table, nor replaced by another, up to k. */
  ghost predicate Lives(states: seq<Store>, i: nat, k: nat, id: string) {
    forall m: nat :: i <= m <= k ==> RowStays(states, i, m, id)
  }

  /** Step k took this very row out of the table, and a batch holds it as it was just before that step. */
  ghost predicate TakenAway(states: seq<Store>, i: nat, k: nat, j: nat, id: string) {
    && i <= k < j < |states| && Lives(states, i, k, id)
    && DeletedAt(states, k, id) && Archived(states[j], states[k].evidence[id])
  }

  lemma {:induction false} LivesOn(states: seq<Store>, i: nat, k: nat, id: string)
    requires i <= k && Lives(states, i, k, id) && RowStays(states, i, k + 1, id)
    ensures Lives(states, i, k + 1, id)
  {
    forall m: nat | i <= m <= k + 1 ensures RowStays(states, i, m, id) {}
  }

  /** Conservation: every row ever stored is still stored as that same row, without a gap, or some step took that
      row out of the table, and a verified batch holds it with the values it had then. */
  lemma {:induction false} NothingIsLost(states: seq<Store>, steps: seq<Step>, i: nat, j: nat, id: string)
    requires IsRun(states, steps) && i <= j < |states| && id in states[i].evidence
    ensures Lives(states, i, j, id) || exists k: nat :: TakenAway(states, i, k, j, id)
    decreases j
  {
    if i < j {
      var k := j - 1;
      NothingIsLost(states, steps, i, k, id);
      assert Follows(states, steps, k);
      RunIsAudited(states, steps, k);
      StepKeepsRecords(states[k], steps[k], states[j]);
      if Lives(states, i, k, id) {
        assert RowStays(states, i, k, id);
        StepConserves(states[k], steps[k], states[j], id);
        if id in states[j].evidence {
          LivesOn(states, i, k, id);
        } else {
          assert TakenAway(states, i, k, j, id);
        }
      } else {
        var m: nat :| TakenAway(states, i, m, k, id);
        ArchivedStays(states[k], states[j], states[m].evidence[id]);
        assert TakenAway(states, i, m, j, id);
      }
    }
  }

  /** Over any run a row leaves the table only by an apply of a plan that holds it, whose policy was in force, for the
      row's project and class, without a hold, and only once the row was kept long enough. */
  lemma {:induction false} DeletedRowWasDue(states: seq<Store>, steps: seq<Step>, k: nat, id: string)
    requires IsRun(states, steps) && DeletedAt(states, k, id)
    ensures steps[k].ApplyPlan? && states[k].evidence[id] in steps[k].apply.plan.records
    ensures MayGo(states[k], steps[k].apply.plan.policyId, steps[k].apply.plan.asOf, states[k].evidence[id])
  {
    assert Follows(states, steps, k);
    if steps[k].ApplyPlan? {
      PurgedRowWasDue(states[k], steps[k].apply, id);
    }
  }

  lemma {:induction false} ActionsStay(states: seq<Store>, steps: seq<Step>, i: nat, j: nat)
    requires IsRun(states, steps) && i <= j < |states|
    ensures ActionsGrow(states[i], states[j])
    decreases j
  {
    if i < j {
      ActionsStay(states, steps, i, j - 1);
      assert Follows(states, steps, j - 1);
      RunIsAudited(states, steps, j - 1);
      StepKeepsRecords(states[j - 1], steps[j - 1], states[j]);
    }
  }

  /** Re-applying a completed plan at any later time returns the number it deleted and deletes nothing. */
  lemma {:induction false} ReapplyingChangesNothing(states: seq<Store>, steps: seq<Step>, i: nat, j: nat, again: Apply)
    requires IsRun(states, steps) && i <= j < |states|
    requires again.plan.digest in states[i].actions && ReceiptMatches(again)
    ensures ApplyStep(states[j], again) == (Ok(|again.plan.records|), states[j])
  {
    RunIsAudited(states, steps, i);
    ActionsStay(states, steps, i, j);
  }

  // ---------------------------------------------------------------- counting rows

  /** How many rows the first `n` steps inserted. */
  function Inserted(states: seq<Store>, steps: seq<Step>, n: nat): nat
    requires n <= |steps| < |states|
  {
    if n == 0 then 0
    else
      Inserted(states, steps, n - 1)
      + if steps[n - 1].Upsert? && steps[n - 1].record.id !in states[n - 1].evidence
           && steps[n - 1].record.id in states[n].evidence then 1 else 0
  }

  /** The sum of what the applies among the first `n` steps that changed anything answered. */
  function Answered(states: seq<Store>, steps: seq<Step>, n: nat): nat
    requires n <= |steps| < |states|
  {
    if n == 0 then 0
    else
      Answered(states, steps, n - 1)
      + if steps[n - 1].ApplyPlan? && states[n] != states[n - 1] then
          ResultCount(ApplyStep(states[n - 1], steps[n - 1].apply).0)
        else 0
  }

  function ResultCount(result: Result<nat, StoreError>): nat {
    if result.Ok? then result.value else 0
  }

  lemma {:induction false} UpsertCounts(s: Store, record: Record, s': Store)
    requires UpsertStep(s, record, s')
    ensures |s'.evidence| == |s.evidence| + if record.id !in s.evidence && record.id in s'.evidence then 1 else 0
  {
    if record.id !in s.evidence && record.id in s'.evidence {
      assert s'.evidence == s.evidence[record.id := record];
    } else {
      var id :| Aliased(s, record, id) && s' == s.(evidence := s.evidence[id := Refreshed(s.evidence[id], record)]);
      assert s'.evidence.Keys == s.evidence.Keys;
      assert |s'.evidence| == |s'.evidence.Keys| && |s.evidence| == |s.evidence.Keys|;
    }
  }

  /** Over any run, every row ever inserted is stored or among those that some apply answered for. */
  lemma {:induction false} RowsBalance(states: seq<Store>, steps: seq<Step>, n: nat)
    requires IsRun(states, steps) && n <= |steps|
    ensures |states[n].evidence| + Answered(states, steps, n) == Inserted(states, steps, n)
    decreases n
  {
    if n > 0 {
      RowsBalance(states, steps, n - 1);
      assert Follows(states, steps, n - 1);
      var before, step, after := states[n - 1], steps[n - 1], states[n];
      if after != before {
        if step.Upsert? {
          UpsertCounts(before, step.record, after);
        } else if step.ApplyPlan? {
          PurgeRemovesThePlan(before, step.apply);
        }
      }
    }
  }

  // ---------------------------------------------------------------- from planning to applying

  /** Rows are stored under their own identifiers. */
  ghost predicate Keyed(s: Store) {
    forall id :: id in s.evidence ==> s.evidence[id].id == id
  }

  lemma {:induction false} RunIsKeyed(states: seq<Store>, steps: seq<Step>, i: nat)
    requires IsRun(states, steps) && i < |states|
    ensures Keyed(states[i])
  {
    if i > 0 {
      RunIsKeyed(states, steps, i - 1);
      assert Follows(states, steps, i - 1);
      StepKeepsKeys(states[i - 1], steps[i - 1], states[i]);
    }
  }

  lemma {:induction false} StepKeepsKeys(s: Store, step: Step, s': Store)
    requires Keyed(s) && Next(s, step, s')
    ensures Keyed(s')
  {}

  lemma {:induction false} BatchMembers(rows: set<Record>, limit: nat, records: seq<Record>)
    requires IsBatch(rows, limit, records)
    ensures |records| <= limit && forall i :: 0 <= i < |records| ==> records[i] in rows
    ensures forall i, j :: 0 <= i < j < |records| ==> records[i] != records[j]
  {
    var sorted: seq<Record> :| IsSortedRows(rows, sorted) && records == Front(sorted, limit);
    forall i | 0 <= i < |records| ensures records[i] in rows {
      assert sorted[i] in multiset(sorted);
    }
    forall i, j | 0 <= i < j < |records| ensures records[i] != records[j] {
      OccursTwice(sorted, i, j);
    }
  }

  lemma {:induction false} DistinctIds(records: seq<Record>, n: nat)
    requires n <= |records| && forall i, j :: 0 <= i < j < |records| ==> records[i].id != records[j].id
    ensures |Ids(records[..n])| == n
  {
    if n > 0 {
      DistinctIds(records, n - 1);
      IdsNext(records, n - 1);
      assert records[n - 1].id !in Ids(records[..n - 1]);
    }
  }

  /** In every reachable state, planning has one answer, and applying it at once deletes exactly that batch. */
  lemma {:induction false} PlanThenApply(states: seq<Store>, steps: seq<Step>, i: nat, limit: nat, a: Apply)
    requires IsRun(states, steps) && i < |states|
    requires a.plan.policyId in states[i].policies
    requires a.plan.projectId == states[i].policies[a.plan.policyId].projectId
    requires IsBatch(EligibleRows(states[i], a.plan.policyId, a.plan.asOf), limit, a.plan.records)
    requires ReceiptMatches(a) && Fresh(states[i], a) && !EntityIdUsed(states[i].actions, a.entityId)
    ensures ApplyStep(states[i], a) == (Ok(|a.plan.records|), Purged(states[i], a))
    ensures forall records ::
      IsBatch(EligibleRows(states[i], a.plan.policyId, a.plan.asOf), limit, records) ==> records == a.plan.records
  {
    var s, records := states[i], a.plan.records;
    var rows := EligibleRows(s, a.plan.policyId, a.plan.asOf);
    RunIsKeyed(states, steps, i);
    BatchMembers(rows, limit, records);
    forall j | 0 <= j < |records| ensures StillPlanned(s, a.plan, records[j]) {
      assert records[j] in rows;
    }
    forall j, k | 0 <= j < k < |records| ensures records[j].id != records[k].id {
      assert StillPlanned(s, a.plan, records[j]) && StillPlanned(s, a.plan, records[k]);
    }
    DistinctIds(records, |records|);
    assert records[..|records|] == records;
    forall other | IsBatch(rows, limit, other) ensures other == records {
      BatchIsUnique(rows, limit, other, records);
    }
  }
}
