/** Archive-gated retention: planning a batch, and deleting it once a verified archive of it exists. */
module Retention {
  import opened Wrappers
  import opened Ordering

  const MAX_RETENTION_BATCH := 1000
  const SECOND := 1_000_000

  datatype Record = Record(
    id: string,
    sourceId: string,
    projectId: string,
    sessionId: Option<string>,
    aliasId: Option<string>,
    schemaVersion: string,
    contentHash: string,
    contentLength: int,
    classification: string,
    redactionState: string,
    coverageState: string,
    provenance: string,
    productSurface: string,
    observedAt: int,
    retainedUntil: Option<int>
  )

  datatype Policy = Policy(
    projectId: string, classification: string, retainForSeconds: int, legalHold: bool, retired: bool)

  /** SHA-256 of the deterministic encoding is taken to be injective: the digest is what it digests. */
  datatype Digest = Digest(policyId: string, projectId: string, asOf: int, records: seq<Record>)

  datatype Plan = Plan(policyId: string, projectId: string, asOf: int, records: seq<Record>, digest: Digest)

  datatype Receipt = Receipt(
    batchId: string,
    archiveReference: string,
    keyReference: string,
    encryptedDigest: string,
    plaintextDigest: Digest,
    verifiedAt: Option<int>
  )

  datatype Apply = Apply(actionId: string, entityId: string, plan: Plan, receipt: Receipt)

  datatype Action = Action(actionId: string, entityId: string, planned: nat, applied: nat, complete: bool)

  /** A verified archive batch: the digest of its plaintext decides which records it holds. */
  datatype Batch = Batch(reference: string, encryptedDigest: string, plaintextDigest: Digest, count: nat,
                         rangeStart: int, rangeEnd: int, verifiedAt: Option<int>)

  datatype Store = Store(
    evidence: map<string, Record>,
    policies: map<string, Policy>,
    actions: map<Digest, Action>,
    batches: map<string, Batch>
  )

  datatype StoreError =
    | SourceConflict | DatabaseError | InvalidPolicy | InvalidRequest | NotFound
    | ArchiveMismatch | PlanChanged | CountMismatch

  // ---------------------------------------------------------------- evidence and policies

  predicate SameAlias(row: Record, record: Record) {
    record.aliasId.Some? && row.sourceId == record.sourceId && row.aliasId == record.aliasId
  }

  predicate Aliased(s: Store, record: Record, id: string) {
    id in s.evidence && SameAlias(s.evidence[id], record)
  }

  function Refreshed(row: Record, record: Record): Record {
    row.(observedAt := record.observedAt, retainedUntil := record.retainedUntil)
  }

  /** Inserts a row, or refreshes the one with the same source and alias if its content is the same. */
  ghost predicate UpsertStep(s: Store, record: Record, s': Store) {
    || (record.id !in s.evidence && (forall id :: !Aliased(s, record, id))
        && s' == s.(evidence := s.evidence[record.id := record]))
    || (exists id :: Aliased(s, record, id) && s.evidence[id].contentHash == record.contentHash
          && s' == s.(evidence := s.evidence[id := Refreshed(s.evidence[id], record)]))
  }

  predicate Governs(s: Store, policyId: string, projectId: string, classification: string) {
    && policyId in s.policies && !s.policies[policyId].retired
    && s.policies[policyId].projectId == projectId && s.policies[policyId].classification == classification
  }

  /** Inserts a policy, or replaces the window and hold of the current one for the same project and class. */
  ghost predicate PutPolicyStep(s: Store, policyId: string, policy: Policy, s': Store) {
    && policy.retainForSeconds >= 0 && !policy.retired
    && (|| (policyId !in s.policies && (forall id :: !Governs(s, id, policy.projectId, policy.classification))
            && s' == s.(policies := s.policies[policyId := policy]))
        || (exists id :: Governs(s, id, policy.projectId, policy.classification)
              && s' == s.(policies := s.policies[id := s.policies[id].(retainForSeconds := policy.retainForSeconds,
                                                                       legalHold := policy.legalHold)])))
  }

  /** Retiring a policy is an administrator's statement. */
  ghost predicate RetireStep(s: Store, policyId: string, s': Store) {
    policyId in s.policies && s' == s.(policies := s.policies[policyId := s.policies[policyId].(retired := true)])
  }

  // ---------------------------------------------------------------- planning

  function DueAt(policy: Policy, record: Record): int {
    if record.retainedUntil.Some? then record.retainedUntil.value
    else record.observedAt + policy.retainForSeconds * SECOND
  }

  /** The conditions that planning and the check before deletion share. */
  predicate Eligible(s: Store, policyId: string, asOf: int, record: Record) {
    && Governs(s, policyId, record.projectId, record.classification)
    && !s.policies[policyId].legalHold
    && DueAt(s.policies[policyId], record) <= asOf
  }

  predicate ByRecordId(a: Record, b: Record) {
    if a.id != b.id then StringLess(a.id, b.id) else false
  }

  predicate RecordLess(a: Record, b: Record) {
    if a.observedAt != b.observedAt then a.observedAt < b.observedAt else ByRecordId(a, b)
  }

  lemma {:induction false} RecordOrder()
    ensures Ordered(RecordLess)
  {
    StringOrder();
    ThenBy((r: Record) => r.id, StringLess, (a: Record, b: Record) => false, ByRecordId);
    ThenBy((r: Record) => r.observedAt, (x: int, y: int) => x < y, ByRecordId, RecordLess);
  }

  /** The rows that a policy may purge as of some time. */
  function EligibleRows(s: Store, policyId: string, asOf: int): set<Record> {
    set id | id in s.evidence && Eligible(s, policyId, asOf, s.evidence[id]) :: s.evidence[id]
  }

  function DigestOf(policyId: string, projectId: string, asOf: int, records: seq<Record>): Digest {
    Digest(policyId, projectId, asOf, records)
  }

  /** Everything eligible, sorted, up to the limit: there is only one such batch. */
  ghost predicate IsBatch(rows: set<Record>, limit: nat, records: seq<Record>) {
    exists sorted :: IsSortedRows(rows, sorted) && records == Front(sorted, limit)
  }

  ghost predicate IsSortedRows(rows: set<Record>, sorted: seq<Record>) {
    multiset(sorted) == multiset(rows) && Sorted(RecordLess, sorted)
  }

  function Front(sorted: seq<Record>, limit: nat): seq<Record> {
    if |sorted| < limit then sorted else sorted[..limit]
  }

  lemma {:induction false} RecordTies(rows: set<Record>)
    requires forall x, y :: x in rows && y in rows && x.id == y.id ==> x == y
    ensures TiesEqual(RecordLess, multiset(rows))
  {
    forall x, y | x in multiset(rows) && y in multiset(rows) ensures x == y || RecordLess(x, y) || RecordLess(y, x) {
      StringLessTrichotomy(x.id, y.id);
    }
  }

  /** Planning is deterministic: rows with distinct identifiers have exactly one batch. */
  lemma {:induction false} BatchIsUnique(rows: set<Record>, limit: nat, a: seq<Record>, b: seq<Record>)
    requires forall x, y :: x in rows && y in rows && x.id == y.id ==> x == y
    requires IsBatch(rows, limit, a) && IsBatch(rows, limit, b)
    ensures a == b
  {
    var s: seq<Record> :| IsSortedRows(rows, s) && a == Front(s, limit);
    var t: seq<Record> :| IsSortedRows(rows, t) && b == Front(t, limit);
    RecordTies(rows);
    SortedUnique(RecordLess, s, t);
  }

  // ---------------------------------------------------------------- which rows are due

  /** The time a row must be kept: its own, if it has one, and otherwise the window of its policy, in seconds, from when
      it was observed; times are microseconds. */
  predicate KeptLongEnough(policy: Policy, record: Record, asOf: int) {
    match record.retainedUntil
    case Some(until) => until <= asOf
    case None => policy.retainForSeconds * 1_000_000 <= asOf - record.observedAt
  }

  /** The policy is in force, it is the one for the row's project and class, no hold is on it, and the row was kept long
      enough. */
  predicate MayGo(s: Store, policyId: string, asOf: int, record: Record) {
    && policyId in s.policies
    && var policy := s.policies[policyId];
       && !policy.retired && !policy.legalHold
       && policy.projectId == record.projectId && policy.classification == record.classification
       && KeptLongEnough(policy, record, asOf)
  }

  lemma {:induction false} EligibleMayGo(s: Store, policyId: string, asOf: int, record: Record)
    ensures Eligible(s, policyId, asOf, record) <==> MayGo(s, policyId, asOf, record)
  {}

  /** Earlier observed rows come first, then smaller identifiers. */
  predicate ComesBefore(a: Record, b: Record) {
    a.observedAt < b.observedAt || (a.observedAt == b.observedAt && (a.id == b.id || StringLess(a.id, b.id)))
  }

  /** A batch holds rows that may go and nothing else, oldest first; if it is not full it holds all of them, and if it
      is full every row left out comes after every row it holds. */
  ghost predicate OldestDueRows(s: Store, policyId: string, asOf: int, limit: nat, records: seq<Record>) {
    && |records| <= limit
    && (forall r :: r in records ==> exists id :: id in s.evidence && s.evidence[id] == r)
    && (forall r :: r in records ==> MayGo(s, policyId, asOf, r))
    && (forall i, j :: 0 <= i < j < |records| ==> ComesBefore(records[i], records[j]))
    && (forall id :: id in s.evidence && MayGo(s, policyId, asOf, s.evidence[id]) && s.evidence[id] !in records ==>
          |records| == limit && forall r :: r in records ==> ComesBefore(r, s.evidence[id]))
  }

  lemma {:induction false} NotLessComesBefore(a: Record, b: Record)
    requires !RecordLess(b, a)
    ensures ComesBefore(a, b)
  {
    StringLessTrichotomy(a.id, b.id);
  }

  lemma {:induction false} InRows(rows: set<Record>, sorted: seq<Record>, r: Record)
    requires multiset(sorted) == multiset(rows)
    ensures r in sorted <==> r in rows
  {
    assert r in multiset(sorted) <==> r in multiset(rows);
  }

  lemma {:induction false} BatchIsOldestDueRows(s: Store, policyId: string, asOf: int, limit: nat, records: seq<Record>)
    requires IsBatch(EligibleRows(s, policyId, asOf), limit, records)
    ensures OldestDueRows(s, policyId, asOf, limit, records)
  {
    var rows := EligibleRows(s, policyId, asOf);
    var sorted: seq<Record> :| IsSortedRows(rows, sorted) && records == Front(sorted, limit);
    forall r | r in records
      ensures (exists id :: id in s.evidence && s.evidence[id] == r) && MayGo(s, policyId, asOf, r)
    {
      InRows(rows, sorted, r);
      EligibleMayGo(s, policyId, asOf, r);
    }
    forall i, j | 0 <= i < j < |records| ensures ComesBefore(records[i], records[j]) {
      NotLessComesBefore(sorted[i], sorted[j]);
    }
    forall id | id in s.evidence && MayGo(s, policyId, asOf, s.evidence[id]) && s.evidence[id] !in records
      ensures |records| == limit && forall r :: r in records ==> ComesBefore(r, s.evidence[id])
    {
      EligibleMayGo(s, policyId, asOf, s.evidence[id]);
      LeftOutIsLater(rows, sorted, limit, s.evidence[id]);
    }
  }

  lemma {:induction false} LeftOutIsLater(rows: set<Record>, sorted: seq<Record>, limit: nat, left: Record)
    requires IsSortedRows(rows, sorted) && left in rows && left !in Front(sorted, limit)
    ensures |Front(sorted, limit)| == limit
    ensures forall r :: r in Front(sorted, limit) ==> ComesBefore(r, left)
  {
    InRows(rows, sorted, left);
    var j :| 0 <= j < |sorted| && sorted[j] == left;
    assert |sorted| >= limit;
    forall r | r in sorted[..limit] ensures ComesBefore(r, left) {
      var i :| 0 <= i < limit && sorted[i] == r;
      NotLessComesBefore(sorted[i], sorted[j]);
    }
  }

  // ---------------------------------------------------------------- applying

  /** The archive that was verified holds exactly this plan. */
  predicate ReceiptMatches(a: Apply) {
    var digest := DigestOf(a.plan.policyId, a.plan.projectId, a.plan.asOf, a.plan.records);
    && a.plan.records != [] && a.plan.digest == digest
    && a.receipt.verifiedAt.Some? && a.receipt.plaintextDigest == digest
    && a.receipt.batchId != "" && a.receipt.keyReference != "" && a.receipt.encryptedDigest != ZeroDigest()
    && a.receipt.archiveReference == "sha256:" + a.receipt.encryptedDigest
  }

  function ZeroDigest(): string {
    seq(64, _ => '0')
  }

  /** The row still has every archived value, and the policy still lets it go. */
  predicate StillPlanned(s: Store, plan: Plan, record: Record) {
    && record.id in s.evidence && s.evidence[record.id] == record
    && record.projectId == plan.projectId
    && Eligible(s, plan.policyId, plan.asOf, record)
  }

  predicate AllStillPlanned(s: Store, plan: Plan) {
    forall i :: 0 <= i < |plan.records| ==> StillPlanned(s, plan, plan.records[i])
  }

  function Ids(records: seq<Record>): set<string> {
    set i | 0 <= i < |records| :: records[i].id
  }

  predicate ReferenceUsed(batches: map<string, Batch>, reference: string) {
    exists id :: id in batches && batches[id].reference == reference
  }

  predicate ActionIdUsed(actions: map<Digest, Action>, actionId: string) {
    exists digest :: digest in actions && actions[digest].actionId == actionId
  }

  predicate EntityIdUsed(actions: map<Digest, Action>, entityId: string) {
    exists digest :: digest in actions && actions[digest].entityId == entityId
  }

  /** Unique action key, action, batch and archive reference. */
  predicate Fresh(s: Store, a: Apply) {
    && a.plan.digest !in s.actions && !ActionIdUsed(s.actions, a.actionId)
    && a.receipt.batchId !in s.batches && !ReferenceUsed(s.batches, a.receipt.archiveReference)
  }

  function MinObserved(records: seq<Record>): int
    requires records != []
  {
    var last := records[|records| - 1].observedAt;
    if |records| == 1 then last
    else if last < MinObserved(records[..|records| - 1]) then last else MinObserved(records[..|records| - 1])
  }

  function MaxObserved(records: seq<Record>): int
    requires records != []
  {
    var last := records[|records| - 1].observedAt;
    if |records| == 1 then last
    else if last > MaxObserved(records[..|records| - 1]) then last else MaxObserved(records[..|records| - 1])
  }

  /** The time range of a batch is never empty. */
  function BatchOf(a: Apply): Batch
    requires a.plan.records != []
  {
    var from, to := MinObserved(a.plan.records), MaxObserved(a.plan.records);
    Batch(a.receipt.archiveReference, a.receipt.encryptedDigest, a.receipt.plaintextDigest, |a.plan.records|,
          from, if to > from then to else from + 1, a.receipt.verifiedAt)
  }

  function Purged(s: Store, a: Apply): Store
    requires a.plan.records != []
  {
    Store(s.evidence - Ids(a.plan.records), s.policies,
          s.actions[a.plan.digest := Action(a.actionId, a.entityId, |a.plan.records|, |a.plan.records|, true)],
          s.batches[a.receipt.batchId := BatchOf(a)])
  }

  function ApplyStep(s: Store, a: Apply): (Result<nat, StoreError>, Store) {
    if !ReceiptMatches(a) then (Err(ArchiveMismatch), s)
    else if a.plan.digest in s.actions && s.actions[a.plan.digest].complete then
      (Ok(s.actions[a.plan.digest].applied), s)
    else if !AllStillPlanned(s, a.plan) then (Err(PlanChanged), s)
    else if !Fresh(s, a) then (Err(DatabaseError), s)
    else if |Ids(a.plan.records)| != |a.plan.records| then (Err(CountMismatch), s)
    else if EntityIdUsed(s.actions, a.entityId) then (Err(DatabaseError), s)
    else (Ok(|a.plan.records|), Purged(s, a))
  }

  // ---------------------------------------------------------------- what one apply does

  /** A first apply purges exactly when the archive matches, every row is matches and due, and names are new. */
  lemma {:induction false} PurgesIff(s: Store, a: Apply)
    requires a.plan.digest !in s.actions
    ensures ApplyStep(s, a).1 != s
      <==> ReceiptMatches(a) && AllStillPlanned(s, a.plan) && Fresh(s, a)
           && |Ids(a.plan.records)| == |a.plan.records| && !EntityIdUsed(s.actions, a.entityId)
    ensures ApplyStep(s, a).1 != s ==> ApplyStep(s, a) == (Ok(|a.plan.records|), Purged(s, a))
  {
    if ReceiptMatches(a) {
      assert a.plan.digest in Purged(s, a).actions;
    }
  }

  /** A row that changed, a hold, or a retired policy stops the whole plan. */
  lemma {:induction false} StalePlanDeletesNothing(s: Store, a: Apply, i: nat)
    requires i < |a.plan.records|
    requires var record := a.plan.records[i];
      || record.id !in s.evidence
      || s.evidence[record.id] != record
      || !MayGo(s, a.plan.policyId, a.plan.asOf, record)
    ensures ApplyStep(s, a).1 == s
  {
    EligibleMayGo(s, a.plan.policyId, a.plan.asOf, a.plan.records[i]);
    assert !StillPlanned(s, a.plan, a.plan.records[i]);
  }

  /** Applying the same plan again at once, under any matching receipt, answers the same and changes nothing. */
  lemma {:induction false} CompletedPlanIsIdempotent(s: Store, a: Apply, again: Apply)
    requires ApplyStep(s, a).0.Ok? && ApplyStep(s, a).1 != s
    requires again.plan == a.plan && ReceiptMatches(again)
    ensures ApplyStep(ApplyStep(s, a).1, again) == ApplyStep(s, a)
  {}

  lemma {:induction false} RemovedKeys(evidence: map<string, Record>, ids: set<string>)
    requires ids <= evidence.Keys
    ensures |evidence - ids| + |ids| == |evidence|
  {
    assert (evidence - ids).Keys == evidence.Keys - ids;
    assert |(evidence - ids).Keys| == |evidence - ids|;
  }

  /** An apply that changes anything found every planned row stored as it was archived and allowed to go, removed
      these rows and no other, answers how many rows the table lost, and recorded a verified batch of them. */
  lemma {:induction false} PurgeRemovesThePlan(s: Store, a: Apply)
    requires ApplyStep(s, a).1 != s
    ensures var (result, after) := ApplyStep(s, a);
      && result.Ok? && |after.evidence| + result.value == |s.evidence|
      && (forall i :: 0 <= i < |a.plan.records| ==> StillPlanned(s, a.plan, a.plan.records[i]))
      && (forall id :: id in s.evidence && id !in after.evidence <==>
                         exists i :: 0 <= i < |a.plan.records| && a.plan.records[i].id == id)
      && (forall id :: id in after.evidence ==> id in s.evidence && after.evidence[id] == s.evidence[id])
      && after.policies == s.policies && a.receipt.batchId !in s.batches && a.receipt.batchId in after.batches
      && after.batches[a.receipt.batchId].plaintextDigest.records == a.plan.records
      && after.batches[a.receipt.batchId].verifiedAt.Some?
  {
    var ids := Ids(a.plan.records);
    forall id | id in ids ensures id in s.evidence {
      var i :| 0 <= i < |a.plan.records| && a.plan.records[i].id == id;
      assert StillPlanned(s, a.plan, a.plan.records[i]);
    }
    RemovedKeys(s.evidence, ids);
  }

  /** Only an apply whose plan holds the row removes it: the row was stored just as planned, in the plan's project, and
      under the policies of that moment it was due by the plan's time. */
  lemma {:induction false} PurgedRowWasDue(s: Store, a: Apply, id: string)
    requires id in s.evidence && id !in ApplyStep(s, a).1.evidence
    ensures s.evidence[id].id == id && s.evidence[id] in a.plan.records && s.evidence[id].projectId == a.plan.projectId
    ensures MayGo(s, a.plan.policyId, a.plan.asOf, s.evidence[id])
    ensures s.evidence[id].retainedUntil.Some? ==> s.evidence[id].retainedUntil.value <= a.plan.asOf
    ensures s.evidence[id].retainedUntil.None? ==>
              s.evidence[id].observedAt + s.policies[a.plan.policyId].retainForSeconds * 1_000_000 <= a.plan.asOf
  {
    var i :| 0 <= i < |a.plan.records| && a.plan.records[i].id == id;
    assert StillPlanned(s, a.plan, a.plan.records[i]);
    EligibleMayGo(s, a.plan.policyId, a.plan.asOf, s.evidence[id]);
  }

  /** Without an archive that was verified to hold exactly this plan, and without a key to read it, nothing is done. */
  lemma {:induction false} UnverifiedArchiveDeletesNothing(s: Store, a: Apply)
    requires || a.receipt.verifiedAt.None? || a.receipt.plaintextDigest != a.plan.digest
             || a.plan.digest != Digest(a.plan.policyId, a.plan.projectId, a.plan.asOf, a.plan.records)
             || a.plan.records == [] || a.receipt.keyReference == "" || a.receipt.batchId == ""
             || a.receipt.archiveReference != "sha256:" + a.receipt.encryptedDigest
    ensures ApplyStep(s, a) == (Err(ArchiveMismatch), s)
  {}

  // ---------------------------------------------------------------- the repository

  lemma {:induction false} IdsNext(records: seq<Record>, n: nat)
    requires n < |records|
    ensures Ids(records[..n + 1]) == Ids(records[..n]) + {records[n].id}
  {
    forall id | id in Ids(records[..n + 1]) ensures id in Ids(records[..n]) + {records[n].id} {
      var i :| 0 <= i < n + 1 && records[..n + 1][i].id == id;
      if i < n {
        assert records[..n][i].id == id;
      }
    }
    forall id | id in Ids(records[..n]) ensures id in Ids(records[..n + 1]) {
      var i :| 0 <= i < n && records[..n][i].id == id;
      assert records[..n + 1][i].id == id;
    }
    assert records[..n + 1][n].id == records[n].id;
  }

  class Repository {
    var evidence: map<string, Record>
    var policies: map<string, Policy>
    var actions: map<Digest, Action>
    var batches: map<string, Batch>

    function Contents(): Store
      reads this
    {
      Store(evidence, policies, actions, batches)
    }

    /** The next bounded batch in a fixed order, which the digest then identifies. */
    method PlanRetention(policyId: string, asOf: int, limit: int) returns (result: Result<Plan, StoreError>)
      ensures result == Err(InvalidRequest) <==> policyId == "" || limit < 1 || limit > MAX_RETENTION_BATCH
      ensures result.Err? && result.error != InvalidRequest
        ==> result.error == NotFound && (policyId !in policies || policies[policyId].retired)
      ensures result.Ok? ==> policyId in policies && !policies[policyId].retired && limit > 0
      ensures result.Ok? ==>
        && result.value.policyId == policyId && result.value.asOf == asOf
        && result.value.projectId == policies[policyId].projectId
        && result.value.digest == DigestOf(policyId, result.value.projectId, asOf, result.value.records)
        && IsBatch(EligibleRows(Contents(), policyId, asOf), limit, result.value.records)
        && OldestDueRows(Contents(), policyId, asOf, limit, result.value.records)
    {
      if policyId == "" || limit < 1 || limit > MAX_RETENTION_BATCH {
        return Err(InvalidRequest);
      }
      if policyId !in policies || policies[policyId].retired {
        return Err(NotFound);
      }
      var projectId := policies[policyId].projectId;
      var rows := EligibleRows(Contents(), policyId, asOf);
      var records := SortRows(rows);
      assert IsSortedRows(rows, records);
      records := Front(records, limit);
      BatchIsOldestDueRows(Contents(), policyId, asOf, limit, records);
      result := Ok(Plan(policyId, projectId, asOf, records, DigestOf(policyId, projectId, asOf, records)));
    }

    /** ORDER BY observed_at, evidence_artifact_id over rows that come in any order. */
    method SortRows(rows: set<Record>) returns (sorted: seq<Record>)
      ensures IsSortedRows(rows, sorted)
    {
      sorted := [];
      var remaining := rows;
      while remaining != {}
        invariant remaining <= rows && multiset(sorted) == multiset(rows - remaining)
        decreases |remaining|
      {
        var row :| row in remaining;
        assert rows - (remaining - {row}) == rows - remaining + {row};
        sorted := sorted + [row];
        remaining := remaining - {row};
      }
      assert rows - remaining == rows;
      RecordOrder();
      sorted := SortSlice(RecordLess, sorted);
    }

    /** Counts the archived records that still match; every one must. */
    method ValidateArchivedPlan(plan: Plan) returns (matches: bool)
      ensures matches <==> AllStillPlanned(Contents(), plan)
    {
      var matched := 0;
      for i := 0 to |plan.records|
        invariant 0 <= matched <= i
        invariant matched == i <==> forall j :: 0 <= j < i ==> StillPlanned(Contents(), plan, plan.records[j])
      {
        if StillPlanned(Contents(), plan, plan.records[i]) {
          matched := matched + 1;
        }
      }
      matches := matched == |plan.records|;
    }

    /** The archived time range, widened when all records share one instant. */
    method Range(records: seq<Record>) returns (start: int, end: int)
      requires records != []
      ensures start == MinObserved(records) && start < end
      ensures end == if MaxObserved(records) > start then MaxObserved(records) else start + 1
    {
      start, end := records[0].observedAt, records[0].observedAt;
      for i := 1 to |records|
        invariant start == MinObserved(records[..i]) <= end == MaxObserved(records[..i])
      {
        assert records[..i + 1][..i] == records[..i];
        if records[i].observedAt < start {
          start := records[i].observedAt;
        }
        if records[i].observedAt > end {
          end := records[i].observedAt;
        }
      }
      assert records[..|records|] == records;
      if end <= start {
        end := start + 1;
      }
    }

    method CollectIds(records: seq<Record>) returns (ids: set<string>)
      ensures ids == Ids(records)
    {
      ids := {};
      for i := 0 to |records|
        invariant ids == Ids(records[..i])
      {
        IdsNext(records, i);
        ids := ids + {records[i].id};
      }
      assert records[..|records|] == records;
    }

    /** One transaction: an error after the first statement restores everything. */
    method ApplyRetention(a: Apply) returns (result: Result<nat, StoreError>)
      modifies this
      ensures (result, Contents()) == ApplyStep(old(Contents()), a)
    {
      if !ReceiptMatches(a) {
        return Err(ArchiveMismatch);
      }
      if a.plan.digest in actions && actions[a.plan.digest].complete {
        return Ok(actions[a.plan.digest].applied);
      }
      var matches := ValidateArchivedPlan(a.plan);
      if !matches {
        return Err(PlanChanged);
      }
      var begun := Contents();
      if !Fresh(begun, a) {
        return Err(DatabaseError);
      }
      var planned := |a.plan.records|;
      var start, end := Range(a.plan.records);
      batches := batches[a.receipt.batchId := Batch(a.receipt.archiveReference, a.receipt.encryptedDigest,
                                                    a.receipt.plaintextDigest, planned, start, end,
                                                    a.receipt.verifiedAt)];
      var ids := CollectIds(a.plan.records);
      var deleted := set id | id in ids && id in evidence;
      evidence := evidence - ids;
      AllPresent(begun, a.plan, ids, deleted);
      if |deleted| != planned {
        evidence, batches := begun.evidence, begun.batches;
        return Err(CountMismatch);
      }
      if EntityIdUsed(begun.actions, a.entityId) {
        evidence, batches := begun.evidence, begun.batches;
        return Err(DatabaseError);
      }
      actions := actions[a.plan.digest := Action(a.actionId, a.entityId, planned, |deleted|, true)];
      result := Ok(|deleted|);
    }
  }

  lemma {:induction false} AllPresent(s: Store, plan: Plan, ids: set<string>, deleted: set<string>)
    requires AllStillPlanned(s, plan) && ids == Ids(plan.records)
    requires deleted == set id | id in ids && id in s.evidence
    ensures deleted == ids
  {
    forall id | id in ids ensures id in s.evidence {
      var i :| 0 <= i < |plan.records| && plan.records[i].id == id;
      assert StillPlanned(s, plan, plan.records[i]);
    }
  }
}
