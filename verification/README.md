# Prompt Better: verified models of its stateful core

Prompt Better collects local evidence about prompt sessions into PostgreSQL, audits it, evaluates
boundary policies, compiles prompts, and keeps encrypted backups. This project models the parts of it
whose correctness spans many calls, and proves what those parts are for. `dafny verify dfyconfig.toml`
checks all of it.

## How the project is organised

| part | modules | main results |
|---|---|---|
| Fenced incremental collection | `Adapter`, `CollectionStore`, `CollectionProtocol`, `CollectionLease`, `Collector`, `CollectorRuns`, `CursorCodec` | safety of every interleaving of collector runs; a lease excludes all others for its time; exactly-once ingestion, and exactly when a commit keeps it; one whole run is a schedule of the protocol; the cursor's text form |
| Schema flattening | `Json`, `SchemaResolver`, `SchemaCycles`, `SchemaInterpreter`, `SchemaMeaning`, `SchemaTargets`, `SchemaKeywords`, `SchemaDivergence`, `SchemaTools` | termination, and why it needs references to be strings; failure exactly on broken chains; flattening preserves what a schema accepts; where references lead and what each keyword means |
| Boundary engine | `Ordering`, `ConflictCycle`, `DecisionHeap`, `PolicyPack`, `BoundaryEngine`, `BoundaryMeaning`, `BoundaryEvaluation` | cycle found exactly when there is one; the bounded heap keeps the best entries; the decisions are those that candidates and rules warrant; the answer does not depend on input order |
| Time and history | `Intervals`, `IntervalIslands`, `Bytes`, `Dimension`, `Retention`, `RetentionRuns` | the sweep and the SQL query both count covered time; histories are chains and as-of reads return the last change; no evidence is lost, and none goes before it is due |
| Prompt compiler | `TextNormalization`, `TextContent`, `PromptSections`, `Compiler`, `CompilingTwice`, `PlanSections` | normalization is idempotent and keeps every visible character; every heading of a printed plan reads its own field; compiling twice is compiling once |
| Codecs and budgets | `Backup`, `Keystore`, `AuditBudget`, `ReportBudget` | round trips; every strict prefix and extension refused; an audit revision is committed only if it can be returned; every omission reported |
| Workload | `WorkloadDecomposition` | the residual identity, when it is zero, and what each effect measures |

Conventions. Code that changes state is a class or a method, proved against a specification function
(`CommitStep`, `RunStep`, `Resolve`, `PutStep`, `ApplyStep`, `ImproveResult`, `Bounded`, `Decoded`,
...); the properties are then proved about that function, in terms that do not mention it: who holds a
lease and until when, which member a reference names, which candidate and rule a decision comes from,
when a row was due, what a heading reads. Keyed and unkeyed digests are injective: a digest is a
datatype that holds what it digests. A serializable transaction is one atomic step. Clocks, the file
system, map iteration order and the text rules of the host library are parameters.

## Where the code does less than one might expect

- A commit is accepted under a current lease even when its snapshot lost records that an earlier run had
  already read (`RotatedCommitIsAccepted`, `StaleSnapshotStoresTwice`). Exactly-once ingestion holds if the
  snapshot of every run continues what is committed when that run acquires the lease, and an accepted commit
  keeps it if and only if its snapshot does (`AcceptedCommitIsExactlyOnceIffExtending`).
- The audit probe carries the longest revision but the shorter of the two flags, so it is enough exactly
  when the real envelope is not longer: late evidence, or a revision below 10^18 (`ProbeEnvelope`,
  `ProbeIsEnough`, `ProbeIsNotEnough`).
- The islands query counts too little if and only if some row ends before it starts and no earlier row reaches
  its start; a backward row inside an island does no harm (`IslandsCountCover`).
- A top-level `if` behind a reference is ignored by the interpreter but obeyed once it is inlined as a
  rule (`TopLevelIfChangesMeaning`). A pointer with an empty token names a member for the resolver and its
  parent for the interpreter (`EmptyTokenChangesMeaning`). What stands beside a reference is ignored by the
  interpreter and merged by the resolver (`SiblingChangesMeaning`).
- A commit may return its flag set together with an error although nothing was stored: the flag is set at the
  end of the transaction's body, and a serialization failure that only COMMIT reports, on the last attempt, leaves it
  set. Without an error the flag is right (`CommittedFlagIff`, `FlagWithoutCommit`).
- Resolution need not end when a `$ref` member is an object (`NonStringReferenceNeverEnds`).
- A source whose adapter version is missing hashes like one whose adapter version is empty
  (`SourceHashDecides`).
- A cursor whose generation or digest held a colon, or whose digest came without a generation, would not
  survive its text form (`RoundTripIff`). The generations and digests that the adapter makes are hexadecimal.

## Model

| member | source | states |
|---|---|---|
| Adapter.RotatesIffNotExtending | internal/adapters/adapter.go:144-160 | for a cursor and digest committed together, a rotation is reported exactly when the snapshot does not start with everything that was committed |
| Adapter.BatchShape | internal/adapters/adapter.go:161-204 | a batch starts right behind its start position, has consecutive sequence numbers, has the smaller of limit and remaining length, is empty only at the end, and its digest covers exactly the positions up to its cursor |
| Adapter.RotationChangesBase | internal/adapters/adapter.go:150-160 | a rotated batch never carries the base generation, and every one of its records is marked a late revision |
| Adapter.RecordTells | internal/adapters/adapter.go:161-197 | every record has the observation time of its own line, is marked late exactly if its batch replaces what was committed, and is partial exactly if its lineage is incomplete |
| Adapter.BatchCoverage | internal/adapters/adapter.go:150-197 | a batch is complete exactly if it replaces nothing and all of its records are complete |
| Adapter.FirstFailure | internal/adapters/adapter.go:99-135 | there is a failure exactly when some line is bad, and it is one of malformed, sensitive or truncated |
| Adapter.FirstDefect | internal/adapters/adapter.go:193-195 | there is a failure exactly when some record to be returned does not pass validation, and it is sensitive or invalid |
| Adapter.JSONL.Parse | internal/adapters/adapter.go:95-135 | the first bad line decides failure and reason; otherwise every line is parsed, with the request's time where the line has none |
| Adapter.JSONL.CollectRecords | internal/adapters/adapter.go:161-202 | returns the records behind the cursor up to the limit, or the failure of the first of those that does not pass validation; each record and the batch are marked partial where lineage is incomplete |
| Adapter.JSONL.Collect | internal/adapters/adapter.go:85-205 | which of disabled, unsupported, missing, bad line, sensitive or invalid record, or success is reported, in the order the code decides, and in case of success exactly the specified batch with its coverage: partial when the source was replaced or a record's lineage is incomplete |
| CollectionStore.Repository.AcquireCollectionLease | internal/store/postgres/repository.go:1405-1423 | acquired exactly if no lease time is stored or it has passed; cursor, generation and digest are untouched; what that is worth is CollectionLease |
| CollectionStore.Repository.RenewCollectionLease | internal/store/postgres/repository.go:1425-1434 | renewed exactly for the stored fence while its lease has not expired |
| CollectionStore.Repository.ReleaseCollectionLease | internal/store/postgres/repository.go:1449-1457 | only the stored fence can release; the row keeps its cursor |
| CollectionStore.Repository.Upsert | internal/store/postgres/repository.go:756-792 | conflict exactly when some item meets stored content other than its own |
| CollectionStore.Repository.CommitAttempt | internal/store/postgres/repository.go:651-826 | each rejection in the code's order leaves all tables as they were; a commit stores evidence, batch assertion and cursor together |
| CollectionStore.Repository.CommitCollection | internal/store/postgres/repository.go:651-828 | the transaction under at most three attempts, any of which the database may abort in its body or only at COMMIT; which outcome is returned, what is stored, and that the flag beside it is what the last body that ran left behind |
| CollectionStore.RetriesCommitAtMostOnce | internal/store/postgres/repository.go:1596-1622 | whatever the database aborts, in a body or at its COMMIT, the body takes effect at most once, in the first attempt that is not rolled back, and nothing is stored unless the outcome says so |
| CollectionStore.CommittedFlagIff | internal/store/postgres/repository.go:666-827 | the flag says whether something was stored, unless the last attempt is a body that set it and was then aborted by its own COMMIT, and exactly then it is wrong; an outcome without an error always comes with the right flag |
| CollectionStore.FlagWithoutCommit | internal/store/postgres/repository.go:1596-1622 | a batch that would be committed, whose COMMIT is aborted three times: nothing is stored, an error is returned, and the flag is set |
| CollectionStore.UpsertKeepsContent | internal/store/postgres/repository.go:756-792 | an upsert forgets and changes no stored content, adds exactly the items' keys, and stores every item |
| CollectionStore.UpsertRefreshes | internal/store/postgres/repository.go:756-792 | the last item of a key decides its stored observation time, and rows that no item names are untouched |
| CollectionStore.UpsertSucceedsIff | internal/store/postgres/repository.go:756-792 | there is a conflict exactly when some item meets content other than its own, stored or in the batch |
| CollectionStore.CommittedBatchReplays | internal/store/postgres/repository.go:717-752 | a committed batch that is sent once more under a current lease is recognised as repeated and changes nothing |
| CollectionStore.FreshItemsUpsert | internal/store/postgres/repository.go:756-792 | a batch of new, distinct keys never conflicts |
| CollectionProtocol.AcceptedCommitSawCurrentRow | internal/store/postgres/repository.go:667-745 | in every state satisfying the invariant, an accepted commit found stored cursor, generation and digest as its run read them, and its lease was current at both checks |
| CollectionProtocol.CommittedDigest | internal/store/postgres/repository.go:756-825 | kept records of the committed prefix plus the batch are exactly what the new digest describes |
| CollectionProtocol.StepKeepsInvariant | internal/collector/collector.go:89-155 | begin, each read, collect, renew, commit, aborted commit, release and clock ticks all keep the invariant |
| CollectionProtocol.ReachableStatesAreSound | internal/collector/collector.go:89-155 | every state of every interleaving of any number of runs, with crashes and stalls anywhere, satisfies the invariant |
| CollectionProtocol.LostLeaseStaysLost | internal/store/postgres/repository.go:1405-1457 | a fence that was superseded or released never holds the lease again |
| CollectionProtocol.SupersededFenceNeverCommits | internal/store/postgres/repository.go:667-715 | from then on its commits leave the store unchanged |
| CollectionProtocol.CursorNeverDecreases | internal/store/postgres/repository.go:717-740 | within one generation no step lowers the cursor, and only a commit under a current lease changes it |
| CollectionProtocol.CursorOnlyAdvances | internal/store/postgres/repository.go:717-740 | over any stretch of any interleaving in which the stored generation stays the same, the cursor never goes back |
| CollectionProtocol.EvidenceIsImmutable | internal/store/postgres/repository.go:756-792 | stored content is never changed or lost in any run, whatever snapshots were collected |
| CollectionProtocol.ReplayedBatchWasCommitted | internal/store/postgres/repository.go:717-752 | in every reachable state, a batch that is taken for a repetition was committed by some earlier step with that identity, digest and items, and all of its items are stored |
| CollectionProtocol.HolderRotates | internal/adapters/adapter.go:144-160 | whatever superseded runs have read, the holder of the lease has read the current row, and its batch is rotated exactly if its snapshot does not continue what is committed |
| CollectionProtocol.CommitAdvancesByBatch | internal/store/postgres/repository.go:715-825 | a run that holds the lease and whose snapshot continues what is committed commits exactly if its lease is current at both checks and the batch is within bounds, and moves the cursor by the smaller of limit and remaining |
| CollectionProtocol.StepKeepsHolder | internal/collector/collector.go:89-155 | each step keeps: the snapshot of the lease holder continues what is committed, if it did when that run acquired the lease |
| CollectionProtocol.StepKeepsExactlyOnce | internal/store/postgres/repository.go:715-825 | while that holds, each step of any run keeps: exactly positions 1..cursor are stored, each once, under the base generation |
| CollectionProtocol.ExactlyOnceIngestion | internal/collector/collector.go:89-155 | if the snapshot of every run that acquires the lease continues what is committed by then, every reachable state holds exactly positions 1..cursor with the content that the stored digest records; nothing is assumed about what superseded or refused runs read |
| CollectionProtocol.AcceptedCommitIsExactlyOnceIffExtending | internal/adapters/adapter.go:144-160 | an accepted commit keeps exactly-once if and only if its snapshot continued what was committed |
| CollectionProtocol.RotatedCommitIsAccepted | internal/store/postgres/repository.go:715-824 | in an exactly-once state nothing stops a rotated batch: under a lease that is current at both checks it is committed |
| CollectionProtocol.StaleSnapshotStoresTwice | internal/adapters/adapter.go:144-160 | in an exactly-once state, a snapshot that is behind what is committed is accepted under a current lease, and stores the first record a second time under another generation |
| CollectionLease.BeginTakesFreeLease | internal/store/postgres/repository.go:1405-1423 | while some fence holds a lease that has not expired, a run that begins is turned away and changes nothing; otherwise its fence holds the lease at exactly the instants before now plus its duration, nobody else does, and nothing but the lease changed |
| CollectionLease.RenewalMovesTheEnd | internal/store/postgres/repository.go:1425-1434 | renewing a current lease moves its end to now plus the duration; any other renewal changes nothing |
| CollectionLease.ReleaseFreesOwnLease | internal/store/postgres/repository.go:1449-1457 | a fence frees the lease at once if it still has it; the release of a superseded fence leaves the lease of its successor alone |
| CollectionLease.LeaseLastsItsTime | internal/store/postgres/repository.go:1405-1457 | in every interleaving, a lease that lasts until t stays with its fence until t, unless that fence itself releases it or renews it for less |
| CollectionLease.HolderAloneChangesTheStore | internal/store/postgres/repository.go:667-825 | and as long as it does, no step of another fence changes the store |
| CollectionLease.LeaseEndsOneOfTwoWays | internal/store/postgres/repository.go:1405-1457 | a fence loses the lease only by releasing it, or to a run that begins after it has expired |
| CollectionLease.ExpiredLeaseIsTaken | internal/store/postgres/repository.go:1405-1423 | however its holder ended, the first run that begins once the stored time has passed gets the lease |
| Collector.Collector.CollectWithRetries | internal/collector/collector.go:117-137 | a malformed, truncated or sensitive record is quarantined at the first attempt, any other failure at the last, a disabled or unsupported adapter never; otherwise the specified batch |
| Collector.QuarantineSays | internal/collector/collector.go:117-137 | what is recorded of each kind of failure, and after which attempt; nothing for a source that is switched off or unsupported |
| Collector.Collector.Holding | internal/collector/collector.go:98-154 | what happens between acquiring and releasing: read, collect, stop without records, renew or give up, commit under retries |
| Collector.Collector.Run | internal/collector/collector.go:89-155 | a refused run changes nothing; any other leaves exactly the specified store with its lease released, and adds exactly the specified quarantine entry |
| CollectorRuns.CommitIsScheduled | internal/store/postgres/repository.go:1596-1622 | the retries of one commit are a schedule of aborted attempts and at most one commit step |
| CollectorRuns.RunIsScheduled | internal/collector/collector.go:89-155 | whatever becomes of a run, its work on the store is a schedule of protocol steps of its own fence, so all interleaving results cover it |
| CollectorRuns.ScheduleKeepsInvariant | internal/collector/collector.go:89-155 | every schedule keeps the protocol's invariant |
| CollectorRuns.HoldingIngests | internal/collector/collector.go:98-154 | between acquiring and releasing, an undisturbed run in a growing source moves the cursor by the smaller of limit and remaining, or changes nothing at the end of the source |
| CollectorRuns.UndisturbedRunIngests | internal/collector/collector.go:89-155 | in a growing source an undisturbed run succeeds, moves the cursor by the smaller of limit and remaining, leaves the lease free, and at the end of the source changes nothing |
| CursorCodec.RoundTripIff | internal/store/postgres/repository.go:1459-1479 | decoding an encoded cursor gives it back exactly if it has neither generation nor digest, or neither of them holds a colon |
| SchemaResolver.TokensRoundTrip | schemas/tools.go:129-143 | replacing ~1 first and ~0 second recovers every member name from its token (section 4 of RFC 6901) |
| SchemaResolver.Resolve | schemas/tools.go:67-113 | terminates on every finite document set whose references are strings, and its output contains no reference |
| SchemaResolver.ResolveReference | schemas/tools.go:115-152 | fails on a key already on the stack or a missing target; otherwise resolves the target one key deeper, and the output contains no reference |
| SchemaResolver.OverlayShrinks | schemas/tools.go:78-94 | laying the siblings of a reference over the resolved object nests references less deeply and removes the reference, which is why that recursion ends |
| SchemaTargets.ReferenceLooksIn | schemas/tools.go:115-149 | a reference looks up its fragment in the document that its file part names, or in its own without a file part; without a fragment it names the whole document; a missing document is a failure |
| SchemaTargets.ReferenceNamesMember | schemas/tools.go:115-149 | a reference made of a file part and a JSON pointer (section 3 of RFC 6901) names the member of that document which the names in the pointer lead to, whatever slashes and tildes they contain |
| SchemaTargets.KeysTellTargetsApart | schemas/tools.go:115-124 | two references have the same key on the stack exactly if they name the same fragment of the same file |
| SchemaTargets.ReferenceResolvesAsMember | schemas/tools.go:67-152 | a standalone reference resolves to what the member it names resolves to in its own document |
| SchemaTargets.InterpreterNamesMember | scripts/validate_contracts.go:281-308 | the interpreter looks in the same document, skips empty names, and accepts nothing but an object |
| SchemaTargets.InterpreterNamesDocument | scripts/validate_contracts.go:281-308 | without a fragment it takes the whole document |
| SchemaCycles.RefFreeResolvesToItself | schemas/tools.go:67-113 | a value without references is returned unchanged |
| SchemaCycles.ResolutionKeepsKind | schemas/tools.go:67-113 | when all reachable targets are objects, objects stay objects, arrays stay arrays and scalars stay the same |
| SchemaCycles.SolidResolves | schemas/tools.go:75-81 | a value resolves to an object if and only if it is one or leads to one through standalone references |
| SchemaCycles.FailsExactlyOnBrokenChains | schemas/tools.go:67-152 | for every value of a document set whose references are strings: flattening fails if and only if some reachable chain of references meets a key on the stack, a missing target, or a reference with siblings whose target does not lead to an object |
| SchemaCycles.FailsExactlyOnCycles | schemas/tools.go:115-152 | when all targets exist and references with siblings name objects, flattening fails if and only if some reachable chain goes through one target twice |
| SchemaInterpreter.TargetsAgree | scripts/validate_contracts.go:281-308 | for pointers without empty tokens the interpreter and the resolver find the same object |
| SchemaKeywords.NumberAlone | scripts/validate_contracts.go:342-359 | minimum and exclusiveMinimum alone accept exactly the numbers from, or above, the bound, and everything that is no number |
| SchemaKeywords.UpperAlone | scripts/validate_contracts.go:342-359 | the same for maximum and exclusiveMaximum |
| SchemaKeywords.LengthAlone | scripts/validate_contracts.go:310-316 | minLength and maxLength alone bound the length of strings, and of nothing else |
| SchemaKeywords.PatternAlone | scripts/validate_contracts.go:317-340 | pattern and format alone judge strings, and nothing else |
| SchemaKeywords.ItemCountAlone | scripts/validate_contracts.go:361-367 | minItems and maxItems alone bound the number of elements of arrays |
| SchemaKeywords.UniqueItemsAlone | scripts/validate_contracts.go:368-382 | uniqueItems alone accepts exactly the arrays without repetition |
| SchemaKeywords.ValueAlone | scripts/validate_contracts.go:213-218 | const accepts one value, enum exactly the listed ones |
| SchemaKeywords.TypeAlone | scripts/validate_contracts.go:210-212 | type accepts exactly values of one of the listed kinds; whole numbers are integers |
| SchemaKeywords.RequiredAlone | scripts/validate_contracts.go:248-254 | required accepts exactly the objects that have every listed member, and everything else that is no object |
| SchemaKeywords.PropertiesAlone | scripts/validate_contracts.go:262-267 | properties judges each member that it lists by its own schema |
| SchemaKeywords.NothingElse | scripts/validate_contracts.go:255-261 | additionalProperties false adds that an object has no other members than the listed ones |
| SchemaKeywords.ItemsAlone | scripts/validate_contracts.go:269-277 | items judges every element of an array |
| SchemaKeywords.OneOfAlone | scripts/validate_contracts.go:199-209 | oneOf accepts exactly if one branch does |
| SchemaKeywords.AllOfAlone | scripts/validate_contracts.go:228-247 | allOf accepts exactly if every rule holds: a schema, or a condition with a consequence and an alternative |
| SchemaKeywords.KeywordsConjoin | scripts/validate_contracts.go:194-279 | a schema accepts exactly what both of its parts accept, however its keywords are divided, as long as additionalProperties and properties stay together |
| SchemaMeaning.FlatteningPreservesMeaning | scripts/validate_contracts.go:194-308 | a schema whose references stand alone at schema positions, have no empty pointer tokens and name objects of that form accepts exactly the same values once it is flattened, as long as no rule is a reference that leads to an if |
| SchemaMeaning.TopLevelIfChangesMeaning | scripts/validate_contracts.go:228-247 | with a top-level if in the target, a rule accepts a value before flattening and refuses it afterwards |
| SchemaMeaning.SiblingsAreIgnored | scripts/validate_contracts.go:194-198 | what stands beside a reference never changes the interpreter's verdict |
| SchemaMeaning.SiblingsAreMerged | schemas/tools.go:70-89 | the resolver lays the siblings of a reference over the object it names |
| SchemaMeaning.SiblingsWin | schemas/tools.go:70-89 | whatever a reference with siblings resolves to has the members of the referenced object, except that each sibling, resolved, takes the place of a member of its name |
| SchemaMeaning.SiblingChangesMeaning | schemas/tools.go:70-89 | so a reference to the empty schema with a type beside it accepts every value before flattening and refuses one afterwards |
| SchemaMeaning.EmptyTokensDisagree | scripts/validate_contracts.go:292-305 | the pointer #/a/ names the member with the empty name for the resolver, and its parent for the interpreter |
| SchemaMeaning.EmptyTokenChangesMeaning | schemas/tools.go:134-144 | so a schema that refers to it accepts a value before flattening and refuses it afterwards |
| SchemaDivergence.EarlyResultIsResult | schemas/tools.go:67-152 | cutting resolution off at any depth of calls gives its result whenever it gives one |
| SchemaDivergence.NonStringReferenceNeverEnds | schemas/tools.go:70-89 | when a $ref member is itself an object, a reference with siblings can resolve to itself in the same file with the same stack, and no depth of calls is enough |
| SchemaTools.Resolver.Document | schemas/tools.go:50-65 | the cache only ever holds documents as they were embedded |
| SchemaTools.Resolver.FindTarget | schemas/tools.go:115-149 | the step by step pointer walk finds exactly the specified target |
| SchemaTools.Resolver.ResolveValue | schemas/tools.go:67-113 | computes the specified resolution, whatever is cached |
| SchemaTools.Resolver.ResolveMembers | schemas/tools.go:96-104 | members in any order: all copies, or some member that fails |
| SchemaTools.Resolver.ResolveElements | schemas/tools.go:105-113 | elements in order: all copies, or some element that fails |
| SchemaTools.Resolver.ResolveTarget | schemas/tools.go:115-152 | computes the specified resolution of one reference |
| SchemaTools.DefinitionIsMember | schemas/tools.go:17-35 | the definition of a tool is the object that $defs and request, or $defs and result, lead to in the document of that tool |
| SchemaTools.ToolDefinition | schemas/tools.go:17-44 | returns the flattened definition as an object without references; fails only if the definition is missing, does not resolve, or is no object |
| Ordering.StringOrder | internal/boundary/resolve.go:21-24 | comparing strings character by character is a strict total order |
| Ordering.SortForgetsOrder | internal/policypack/policypack.go:141-146 | an unstable sort of distinct keys has one possible result, whatever order it started from |
| ConflictCycle.RankedIsAcyclic | internal/boundary/resolve.go:87-89 | finishing order proves that a graph without a found cycle has none |
| ConflictCycle.ClosesCycle | internal/boundary/resolve.go:70-74 | a node met again while it is on the stack closes a walk along edges with equal ends and no other repeats |
| ConflictCycle.Search.Visit | internal/boundary/resolve.go:69-91 | a visit either finishes the node and restores the stack, or returns such a cycle |
| ConflictCycle.FirstCycle | internal/boundary/resolve.go:59-100 | terminates; non-empty if and only if the graph restricted to existing candidates has a directed cycle, and then a real simple cycle of it |
| DecisionHeap.HeapRoot | internal/boundary/engine.go:101-105 | in a heap no entry is worse than the root |
| DecisionHeap.Heap.Up | internal/boundary/engine.go:116 | sifting up restores the heap and keeps the entries |
| DecisionHeap.Heap.Down | internal/boundary/engine.go:121 | sifting down restores the heap and keeps the entries |
| DecisionHeap.Heap.Push | internal/boundary/engine.go:106 | appending keeps a heap with exactly one more entry |
| DecisionHeap.Heap.ReplaceRoot | internal/boundary/engine.go:119-122 | replacing the root and fixing keeps a heap with exactly that exchange |
| DecisionHeap.Heap.Select | internal/boundary/engine.go:114-123 | after any sequence of entries the heap holds the best ones within its limit, with the worst kept one at the root |
| DecisionHeap.KeptIsFrontOfSort | internal/boundary/engine.go:114-146 | when the order tells all entries apart, what is kept is exactly the front of the sorted sequence |
| PolicyPack.Validate | internal/policypack/policypack.go:71-94 | accepts exactly the valid packs: version, identifier, 1 to 256 valid rules with distinct identifiers |
| PolicyPack.ValidateSet | internal/policypack/policypack.go:96-112 | accepts exactly at most 16 valid packs of distinct identity |
| PolicyPack.ValidateExtensions | internal/policypack/policypack.go:115-127 | additionally no rule continues |
| PolicyPack.MatchTies | internal/policypack/policypack.go:129-148 | matches of a valid set are told apart by pack and rule identifiers, so the sort has no ties |
| PolicyPack.Evaluate | internal/policypack/policypack.go:129-148 | fails exactly on an invalid set; otherwise returns the one sorted sequence of all matches, whatever the sort does |
| PolicyPack.PackOrderIrrelevant | internal/policypack/policypack.go:129-148 | permuting the packs changes neither validity nor matches |
| BoundaryEngine.CandidateOrder | internal/boundary/resolve.go:13-25 | the candidate comparison is a strict weak order |
| BoundaryEngine.CandidateTies | internal/boundary/resolve.go:13-25 | candidates with distinct identifiers have no ties |
| BoundaryEngine.ResolvedOrder | internal/boundary/resolve.go:13-25 | candidates are ordered by authority, specificity and confidence, each falling, and then by identifier |
| BoundaryEngine.Resolve | internal/boundary/resolve.go:11-40 | candidates in order, exactly the candidates in a conflict on either side, and a cycle exactly if there is one |
| BoundaryEngine.BetterOrder | internal/boundary/engine.go:125-159 | the decision comparison is a strict weak order |
| BoundaryEvaluation.EntryTies | internal/boundary/engine.go:125-146 | entries that compete in one evaluation are told apart by the comparison unless they are equal |
| BoundaryEvaluation.DecisionTies | internal/boundary/engine.go:67-76 | decisions of candidates with distinct sources are told apart by the final sort |
| BoundaryEvaluation.KeptDecisions | internal/boundary/engine.go:63-66 | whatever order the heap leaves its entries in, their decisions are those of the best 256 |
| BoundaryEvaluation.EvaluateContext | internal/boundary/engine.go:14-78 | fails exactly on invalid or clashing extensions; otherwise every decision comes from a candidate and a rule whose conditions its facts meet, and has their fields, except that a conflict circle turns risks of at least 50 into blocks; every such pair is decided unless 256 decisions of at least its rank are; decisions are sorted, and with unique sources the result is the specified sequence |
| BoundaryEvaluation.CircleSeen | internal/boundary/resolve.go:26-39 | the conflict graph has a cycle exactly if candidates name each other in a circle, where the last candidate of an identifier speaks for it |
| BoundaryEvaluation.ResultWarranted | internal/boundary/engine.go:34-78 | the specified decisions are exactly those that candidates and rules warrant: each has a cause, and each cause has its decision or is outranked by 256 others |
| BoundaryEvaluation.OrderIrrelevant | internal/boundary/engine.go:14-78 | permuting candidates or extension packs changes neither acceptance nor the decisions |
| Intervals.CoverMember | internal/runtime/runtime.go:16-40 | a time unit is covered exactly if some interval contains it |
| Intervals.UnionDuration | internal/runtime/runtime.go:16-40 | the number of time units covered by at least one included interval, for every list in any order |
| Intervals.Sweep | internal/runtime/runtime.go:27-39 | the sweep over sorted intervals counts each covered unit once |
| IntervalIslands.GroupIsRunning | internal/store/postgres/governance.go:1586-1590 | for a row that some row up to it reaches, the windowed sum over its peers is the running number of islands |
| IntervalIslands.IslandsCountCover | internal/store/postgres/governance.go:1581-1605 | the query never counts more than the covered units, and counts exactly these if and only if every row that ends before it starts is reached by an earlier row |
| IntervalIslands.QueryAgreesWithSweep | internal/store/postgres/governance.go:1656-1659 | query and sweep agree on the same intervals, however each arranges its rows, under exactly that condition |
| IntervalIslands.BackwardRowsDisagree | internal/store/postgres/governance.go:1586-1594 | one backward row alone makes the query negative although it covers nothing; inside an island it changes nothing |
| Bytes.BigEndianRoundTrip | internal/identity/keystore.go:154-160 | a number that fits its width is read back from its big-endian bytes |
| Bytes.FromBigEndianRoundTrip | internal/identity/keystore.go:170-190 | every byte string is the fixed-width form of the number it is read as |
| Bytes.FramedInjective | internal/store/postgres/repository.go:1632-1643 | different lists of parts are never framed alike, whatever their contents |
| Dimension.HistoryIsChain | internal/store/postgres/repository.go:300-351 | after any puts, versions are numbered 1..n, starts increase, each ends where the next starts, only the last is open, and they are exactly the accepted changes |
| Dimension.AsOfReadsLastChange | internal/store/postgres/repository.go:270-297 | an as-of read returns exactly the last accepted change effective by then, or nothing before the first |
| Dimension.OnlyChangesAreStored | internal/store/postgres/repository.go:311-349 | a put is stored exactly if it changes the state later than the last change under an unused identifier; otherwise the table stays as it was |
| Dimension.Versions.Put | internal/store/postgres/repository.go:419-477 | close and insert in one transaction, rolled back as a whole |
| Dimension.ProjectHashDecides | internal/store/postgres/repository.go:300-301 | two project states have equal hashes exactly if they are equal |
| Dimension.SourceHashDecides | internal/store/postgres/repository.go:419-425 | two source states have equal hashes exactly if they are equal up to a missing versus an empty adapter version |
| Retention.Repository.PlanRetention | internal/store/postgres/retention.go:100-150 | which requests are refused; otherwise the oldest rows that the policy lets go: in force, no hold, same project and class, and past their own end of retention or, without one, past the policy's window; all of them if they fit the limit |
| Retention.BatchIsUnique | internal/store/postgres/retention.go:114-125 | rows with distinct identifiers have exactly one batch |
| Retention.BatchIsOldestDueRows | internal/store/postgres/retention.go:111-125 | a batch holds only stored rows that may go, oldest first; it holds all of them if it is not full, and only later ones are left out if it is |
| Retention.Repository.ValidateArchivedPlan | internal/store/postgres/retention.go:345-399 | accepts exactly if every archived record is still stored unchanged, under an active policy without hold, and due |
| Retention.Repository.Range | internal/store/postgres/retention.go:236-247 | the archived range spans the first and last observation and is never empty |
| Retention.Repository.ApplyRetention | internal/store/postgres/retention.go:187-307 | record action, archive batch, deletion, audit row and completion in one transaction; any error restores everything |
| Retention.PurgeRemovesThePlan | internal/store/postgres/retention.go:187-307 | an apply that changes anything found every planned row as it was archived and allowed to go, removed these rows and no other, answers how many rows the table lost, and recorded a verified batch of them |
| Retention.PurgedRowWasDue | internal/store/postgres/retention.go:345-399 | a row that an apply removes was stored just as planned, and by the plan's time its own end of retention had passed or, without one, the policy's window since it was observed, under a policy in force without a hold |
| Retention.UnverifiedArchiveDeletesNothing | internal/store/postgres/retention.go:192-200 | without a key, and an archive verified to hold exactly this plan, nothing is done |
| Retention.StalePlanDeletesNothing | internal/store/postgres/retention.go:345-399 | one changed or missing row, a hold, a retired policy or a row not due stops the whole plan |
| Retention.CompletedPlanIsIdempotent | internal/store/postgres/retention.go:213-219 | applying the same plan again at once, under any matching receipt, answers the same and changes nothing |
| RetentionRuns.StepConserves | internal/store/postgres/retention.go:187-307 | in one step a row stays with the same content or goes into a verified batch that holds it as it was |
| RetentionRuns.RunIsAudited | internal/store/postgres/retention.go:225-307 | in every reachable state each action is complete, counts its plan, and has a batch that was verified to hold exactly that plan under the reference of its encrypted form |
| RetentionRuns.NothingIsLost | internal/store/postgres/retention.go:187-307 | over any run and between any two of its states, every row stored in the first is still stored in the second, having been there with the same content all the time, or some step between them took this very row out of the table and a verified batch holds it with the values it had then |
| RetentionRuns.DeletedRowWasDue | internal/store/postgres/retention.go:187-307 | over any run, a row leaves the table only by an apply of a plan that holds it, and only when it was due under the policies of that moment |
| RetentionRuns.RowsBalance | internal/store/postgres/retention.go:187-307 | over any run, the rows ever inserted are exactly as many as are stored now plus the counts that the applies which changed anything answered |
| RetentionRuns.ReapplyingChangesNothing | internal/store/postgres/retention.go:213-219 | at any later time, applying a completed plan returns the number it deleted and deletes nothing |
| RetentionRuns.PlanThenApply | internal/store/postgres/retention.go:100-307 | in every reachable state a plan has one answer, and applying it at once deletes exactly that batch |
| TextNormalization.Normalize | internal/textutil/normalize.go:10-40 | the loop over lines computes the specified text, and fails exactly when nothing visible is left |
| TextNormalization.NormalizedIsCanonical | internal/textutil/normalize.go:10-40 | the result consists of canonical lines: no trailing space, no carriage return, no two blank lines, no blank line at either end |
| TextNormalization.CanonicalUnchanged | internal/textutil/normalize.go:10-40 | canonical lines are a fixed point |
| TextNormalization.NormalizeTwice | internal/textutil/normalize.go:10-40 | normalizing a normalized text changes nothing |
| TextContent.InkStays | internal/textutil/normalize.go:10-45 | normalizing loses, adds and moves no visible character: line by line the result has the characters of the input, however its lines were ended, and only a text without any is refused |
| PromptSections.NoEarlierMatch | internal/compiler/compiler.go:511-521 | nothing matches before the reported position, or anywhere if none is reported |
| PromptSections.IndexMatches | internal/compiler/compiler.go:511-521 | where the search reports an occurrence there is one |
| PromptSections.RenderedCanonical | internal/compiler/compiler.go:416-464 | printed sections are a normalized text |
| PromptSections.SectionFound | internal/compiler/compiler.go:511-521 | the heading search finds exactly the section printed under the title, also when earlier bodies have blank lines, as long as none of their later paragraphs begins with that heading |
| PromptSections.SectionRead | internal/compiler/compiler.go:523-537 | reading a printed section without blank lines gives back its body |
| PromptSections.SectionAbsent | internal/compiler/compiler.go:511-521 | where no printed body has a blank line, the heading of a section that was not printed is found nowhere |
| PromptSections.SectionsReadBack | internal/compiler/compiler.go:523-537 | then reading any heading gives the body printed under it, or nothing if it was not printed |
| PromptSections.FoundInOrder | internal/compiler/compiler.go:484-509 | sections are found in the order they were printed |
| Compiler.Printer.AddText | internal/compiler/compiler.go:418-424 | a blank value prints nothing, any other its trimmed text under the title |
| Compiler.Printer.AddList | internal/compiler/compiler.go:425-435 | an empty list prints nothing, any other one line an item |
| Compiler.RenderPlan | internal/compiler/compiler.go:416-464 | the printed text of all sections in order, the goal section only on request |
| PlanSections.EveryHeadingReadsItsField | internal/compiler/compiler.go:416-464 | for a plan of normalized texts without blank lines, reading each of the 23 headings out of the printed text gives back the field that belongs to it, title by title, or nothing where the field is left out |
| CompilingTwice.FindSections | internal/compiler/compiler.go:484-509 | recognises exactly texts that have every required section in order |
| CompilingTwice.PrintedPlanIsRecognised | internal/compiler/compiler.go:484-509 | every complete plan of normalized texts, in which no paragraph behind a blank line begins with the heading of a later section, is recognised once printed, and its phase is read back |
| CompilingTwice.CompiledIsCanonical | internal/compiler/compiler.go:416-464 | compiled text is a fixed point of normalization |
| CompilingTwice.Improve | internal/compiler/compiler.go:39-82 | which requests are refused, which texts are kept as already compiled, and what is printed otherwise |
| PlanSections.OwnPlanIsPrinted | internal/compiler/compiler.go:39-82 | a request with such a plan gets a prompt of at most 16000 bytes from which every heading reads its field, for the phase it asks for, with what policy says about that phase |
| PlanSections.RefusedRequests | internal/compiler/compiler.go:103-140 | an intent over 8000 bytes or without visible text, an unknown phase or an invalid plan gets nothing |
| PlanSections.CompiledIntentIsKept | internal/compiler/compiler.go:54-69 | without plan and override, an intent that has all sections in order and a known phase is kept, normalized, with that phase; any other gets the default plan |
| CompilingTwice.CompilingTwiceIsCompilingOnce | internal/compiler/compiler.go:39-82 | for such plans, feeding compiled text within 8000 bytes back as intent returns it unchanged with the same phase and outcome |
| Backup.Encrypt | internal/recovery/recovery.go:136-191 | the file is the header, one sealed frame a chunk and a terminator; digest and size are those of the source |
| Backup.Decrypt | internal/recovery/recovery.go:193-236 | exactly what is written and whether the file is accepted |
| Backup.NoncesDiffer | internal/recovery/recovery.go:253-258 | within one file no nonce is used twice |
| Backup.RoundTrip | internal/recovery/recovery.go:136-236 | however a source is split into reads, decryption writes exactly the bytes it delivered; with anything behind the terminator the file is refused |
| Backup.StrictPrefixRefused | internal/recovery/recovery.go:193-236 | every strict prefix of a file is refused, having written at most a prefix of the source |
| Backup.ChunksAreTheSource | internal/recovery/recovery.go:152-186 | what is encrypted is everything read up to and including the read that reports the end |
| Keystore.EncodeRecords | internal/identity/keystore.go:152-168 | the bytes are an encoding of the map in sorted order of references |
| Keystore.EncodingIsUnique | internal/identity/keystore.go:152-168 | equal maps encode identically however the map was walked |
| Keystore.DecodeRecords | internal/identity/keystore.go:170-201 | exactly which inputs are refused, and with which error; otherwise the decoded map |
| Keystore.RoundTrip | internal/identity/keystore.go:152-201 | decoding an encoding gives back the map; with anything behind it, it is refused |
| Keystore.StrictPrefixRefused | internal/identity/keystore.go:170-201 | every strict prefix of an encoding is refused |
| Keystore.AcceptsExactlyEncodings | internal/identity/keystore.go:170-201 | bytes are accepted as a map exactly if the map is storable and they are its count and its records, each once, in whatever order |
| AuditBudget.OmitReference | internal/audit/audit.go:298-315 | drops the last reference of the last holder that has one, or reports that none has |
| AuditBudget.BoundResult | internal/audit/audit.go:265-296 | the loop computes the specified bounding |
| AuditBudget.BoundedShrinks | internal/audit/audit.go:265-324 | a bounded result fits, its lists are prefixes, findings keep their evidence, everything else is untouched, and the omitted count rose by the number of dropped elements; it fails only if nothing fits |
| AuditBudget.BoundedIsFirst | internal/audit/audit.go:265-296 | bounding stops at the first state that fits |
| AuditBudget.OmittedIsFrontOfQueue | internal/audit/audit.go:265-324 | what was omitted is the front of one queue, as much of it as was counted: references from the last holder backwards, of metrics, then findings, then guardrails; then contributions, confounders, workload effects and outliers, each from its end |
| AuditBudget.SmallerEnvelopeFits | internal/audit/audit.go:265-324 | what is dropped depends on the lists alone, so a shorter envelope can only help |
| AuditBudget.ProbeEnvelope | internal/store/postgres/governance.go:49-54 | the probe's envelope is the longest exactly for late evidence or a revision below 10^18 |
| AuditBudget.ProbeIsEnough | internal/store/postgres/governance.go:49-61 | then a probe that fits guarantees that the persisted result fits |
| AuditBudget.ProbeIsNotEnough | internal/store/postgres/governance.go:49-61 | for every other envelope some result passes the probe and cannot be returned |
| AuditBudget.AuditRevisions.AuditProject | internal/store/postgres/governance.go:28-62 | a known result adds no revision, a new one at most one; a returned result has its revision stored, and below 10^18 a failure leaves nothing behind; it succeeds exactly if both the probe and the persisted result fit |
| ReportBudget.RenderBounded | internal/report/render.go:205-227 | terminates with the specified report, or with an error |
| ReportBudget.ShowsFirstFit | internal/report/render.go:558-604 | what is shown is the first state in the fixed truncation order that fits |
| ReportBudget.FailsOnlyIfNothingFits | internal/report/render.go:205-227 | it fails only if no state in that order fits |
| ReportBudget.BoundedAccounts | internal/report/render.go:205-227 | in each section kept plus reported omissions is the original length, kept is a prefix, sections that must not be emptied are not, and the report fits |
| ReportBudget.SectionsInTurn | internal/report/render.go:558-604 | a section loses elements only once every section before it is down to what it must keep |
| ReportBudget.FirstElementsStay | internal/report/render.go:558-604 | comparison windows, provenance and recommendations never lose their first element |
| ReportBudget.NothingUnreported | internal/report/render.go:198-227 | the same over the whole report, including the cut to five recommendations |
| ReportBudget.TotalReported | internal/report/render.go:198-227 | the reported total is the number of elements that are not shown |
| WorkloadDecomposition.ClassUnion | internal/workload/workload.go:73-88 | every class of either period exactly once, sorted |
| WorkloadDecomposition.IndexValues | internal/workload/workload.go:90-101 | counts, numerators and denominators of repeated entries of a class are added up |
| WorkloadDecomposition.ClassesPartition | internal/workload/workload.go:90-117 | however entries are spread over classes, the class sums add up to the total |
| WorkloadDecomposition.ResidualOf | internal/workload/workload.go:36-58 | what remains of the change without volume, mix and within-class effects is what the current rates leave unexplained minus the count ratio times what the previous rates leave unexplained |
| WorkloadDecomposition.Decompose | internal/workload/workload.go:22-58 | effects exist exactly for sufficient inputs; they add up to the change, and each is the specified sum over the union of classes |
| WorkloadDecomposition.FullyExplained | internal/workload/workload.go:119-124 | when counts are denominators, the class rates explain the whole total |
| WorkloadDecomposition.ResidualVanishes | internal/workload/workload.go:22-58 | then the residual of the decomposition is zero and the three effects add up to the change, also for repeated and one-sided classes |
| WorkloadDecomposition.OnlyEntryOfItsClass | internal/workload/workload.go:90-101 | a class with a single entry has that entry's count, numerator and denominator |
| WorkloadDecomposition.RateTimesDenominator | internal/workload/workload.go:119-124 | a class rate times the denominator is the numerator, and it is zero without a denominator |
| WorkloadDecomposition.SameSharesNoMix | internal/workload/workload.go:37-46 | there is no mix effect if every class keeps its share of the counts |
| WorkloadDecomposition.SameRatesNoWithin | internal/workload/workload.go:37-46 | there is no effect within classes if every class keeps its rate |
| WorkloadDecomposition.SameCountNoVolume | internal/workload/workload.go:34-35 | there is no volume effect if as much is counted as before |
| WorkloadDecomposition.MixIgnoresNewRates | internal/workload/workload.go:44 | the mix effect values shifts of share at the old rates: two periods with equal class counts have equal mix effects |
| WorkloadDecomposition.WithinIgnoresOldShares | internal/workload/workload.go:45 | the effect within classes values changes of rate at the new shares: two earlier periods with equal class rates give equal effects |
| WorkloadDecomposition.ReversalIsReported | internal/workload/workload.go:49-52 | a decomposition is marked as mixed where all class rates move one way and the overall rate the other, and not where they move the same way |

## Left out

- CommitCollection: a COMMIT whose answer is lost and database errors that are not serialization failures do not occur; storage budgets, replay snapshots, evidence lineage and runtime observations are not stored, and the evidence fields are one content text, because none of them decides the cursor or the lease.
- Collect: a source opened with too short an identity key is refused by the program at its first record.
- Run: back-off waiting, cancellation and database errors other than serialization failures are not modelled; the method runs undisturbed, and interference is the subject of the protocol, whose steps it is proved to take.
- Decode: signs and spaces that the scanner would skip before the digits of a cursor, which no encoding produces.
- Progress of a source after it was rotated, the older collection cursors without digest, and AdvanceSequenceCursor.
- Resolve: references that are not strings are excluded, because resolution need not end with them; all failures are one failure, and joining a relative file name to a path is a parameter.
- FlatteningPreservesMeaning: the interpreter takes a bound on nested references, because it has no cycle detection of its own; the theorem covers every sufficient bound. Regular expressions, formats and byte lengths are parameters. JSON numbers are exact.
- FirstCycle: which cycle is returned when there are several is not stated, only that it is a real one.
- Validate: the tables of categories, outcomes, fields and operators are one predicate over rules, and the built-in packs are a parameter that is assumed valid.
- EvaluateContext: when two candidates share a source, the final sort may leave their decisions in any order, as in the program; then the result is determined up to that order.
- Put: the table of identities and the vocabularies that database constraints check.
- ApplyRetention: clean-up of sessions, tasks, aliases and audit revisions in the same transaction, and soft-deleted rows, which no code writes.
- UnionDuration: saturation of durations; time is an unbounded integer.
- Improve: execution-policy and budget validation; the policy decision and the wording of default plans are parameters. Texts are sequences of code points, so invalid UTF-8 does not occur.
- Encrypt: authenticated encryption is any pair of functions that open what they sealed; files, processes and durability are not part of this model.
- StrictPrefixRefused: only cuts and additions are treated, not files forged without the key.
- EncodeRecords: encryption of the encoded bytes and file handling.
- BoundResult: an encoded element is its text, and the constant part of the result is one text; missing and empty lists are not told apart.
- RenderBounded: rendering and encoding are a parameter, and sections are numbered in their order of truncation.
- Decompose: reals are exact, so rounding, infinities and not-a-number do not occur.
- Policy resolution, execution-policy ranks, lint rules, metric definitions, diagrams, packaging, the command line and the tool server, which would add only finite tables or plumbing.
