/** One collector run as the program executes it, its specification, and the schedule of protocol steps
    that it amounts to. */
module Collector {
  import opened Wrappers
  import opened Adapter
  import opened CollectionStore
  import opened CollectionProtocol

  datatype QuarantineEntry = QuarantineEntry(code: string, attempt: nat, at: int)

  datatype RunError = LeaseHeld | CollectionFailed | Unreadable(failure: Failure) | CommitFailed(reason: Rejection)

  datatype Options = Options(owner: string, batchLimit: Limit, maxAttempts: Limit, leaseDuration: int)

  /** The collector's clock when the run starts, and the database clock at each statement. */
  datatype Times = Times(now: int, acquire: int, renew: int, commit: seq<Attempt>)

  /** What an adapter was opened on. */
  datatype Source = Source(enabled: bool, supported: bool, lines: seq<Line>)

  predicate ValidOptions(o: Options) {
    o.owner != "" && o.leaseDuration > 0
  }

  // ---------------------------------------------------------------- the specification of a run

  predicate Permanent(failure: Failure) {
    failure.BadRecord? || failure.Truncated? || failure.Unsafe?
  }

  /** An adapter that is switched off or unsupported is reported, but nothing is retried or quarantined. */
  predicate Quarantined(failure: Failure) {
    !failure.Disabled? && !failure.Unsupported?
  }

  function ErrorCode(failure: Failure): string {
    match failure
    case BadRecord => "malformed"
    case Truncated => "truncated"
    case Unsafe => "sensitive"
    case _ => "adapter_failure"
  }

  /** A permanent failure is given up at once, any other only after every attempt. */
  function QuarantineOf(failure: Option<Failure>, o: Options, now: int): seq<QuarantineEntry> {
    if failure.None? || !Quarantined(failure.value) then []
    else [QuarantineEntry(ErrorCode(failure.value), if Permanent(failure.value) then 1 else o.maxAttempts, now)]
  }

  /** What is written down of a failed collection: the kind of a permanent failure at the first attempt, any other
      failure at the last, and nothing for a source that is switched off or unsupported. */
  lemma {:induction false} QuarantineSays(o: Options, now: int)
    ensures QuarantineOf(None, o, now) == QuarantineOf(Some(Disabled), o, now)
         == QuarantineOf(Some(Unsupported), o, now) == []
    ensures QuarantineOf(Some(BadRecord), o, now) == [QuarantineEntry("malformed", 1, now)]
    ensures QuarantineOf(Some(Truncated), o, now) == [QuarantineEntry("truncated", 1, now)]
    ensures QuarantineOf(Some(Unsafe), o, now) == [QuarantineEntry("sensitive", 1, now)]
    ensures QuarantineOf(Some(Invalid), o, now) == [QuarantineEntry("adapter_failure", o.maxAttempts, now)]
  {}

  function RequestAt(current: Cursor, o: Options, now: int): Request {
    Request(current.next, current.generation, current.digest, o.batchLimit, now)
  }

  function SourceFailure(source: Source, request: Request): Option<Failure> {
    CollectFailure(source.enabled, source.supported, source.lines, request)
  }

  /** The records a source yields for a store, when it can be read. */
  function Snapshot(source: Source, now: int): seq<Parsed> {
    if GoodLines(source.lines) then ParsedLines(source.lines, now) else []
  }

  function BatchFor(source: Source, current: Cursor, o: Options, now: int): Batch {
    BatchOf(Snapshot(source, now), RequestAt(current, o, now))
  }

  /** What a run does between acquiring its lease and releasing it. */
  function WhileHolding(s: Store, source: Source, o: Options, times: Times, fence: Fence): (Option<RunError>, Store) {
    var current := CurrentCursor(s);
    var failure := SourceFailure(source, RequestAt(current, o, times.now));
    if failure.Some? then
      (Some(if Quarantined(failure.value) then CollectionFailed else Unreadable(failure.value)), s)
    else if source.lines == [] || BatchFor(source, current, o, times.now).records == [] then (None, s)
    else if !HoldsCurrentLease(s, fence, times.renew) then (Some(LeaseHeld), s)
    else
      var renewed := RenewStep(s, fence, times.renew, o.leaseDuration);
      var b := CommitOf(fence, current, BatchFor(source, current, o, times.now));
      var (outcome, after) := CommitWithRetries(renewed, b, times.commit, MAX_ATTEMPTS);
      (if outcome.Rejected? then Some(CommitFailed(outcome.reason)) else None, after)
  }

  /** A run that is refused the lease changes nothing; any other releases it at the end, whatever happened. */
  function RunStep(s: Store, source: Source, o: Options, times: Times): (Option<RunError>, Store) {
    var fence := Fence(o.owner, times.now);
    if !Acquirable(s, times.acquire) then (Some(LeaseHeld), s)
    else
      var acquired := AcquireStep(s, fence, times.acquire, o.leaseDuration);
      var (error, after) := WhileHolding(acquired, source, o, times, fence);
      (error, ReleaseStep(after, fence))
  }

  // ---------------------------------------------------------------- the collector

  class Collector {
    const store: Repository
    const options: Options
    var quarantine: seq<QuarantineEntry>

    constructor (store: Repository, options: Options)
      requires ValidOptions(options)
      ensures this.store == store && this.options == options && quarantine == []
    {
      this.store, this.options, this.quarantine := store, options, [];
    }

    /** Collection under bounded retry; a failure that is given up is recorded exactly once. */
    method CollectWithRetries(adapter: JSONL, request: Request, now: int) returns (result: Collected)
      modifies this
      ensures result.failure == CollectFailure(adapter.enabled, adapter.supported, adapter.lines, request)
      ensures result.failure.None? ==>
                result.batch == if adapter.lines == [] || request.limit < 1 then Unavailable(Missing, "missing")
                                else BatchOf(ParsedLines(adapter.lines, request.observedAt), request)
      ensures quarantine == old(quarantine) + QuarantineOf(result.failure, options, now)
    {
      result := Collected(Unavailable(Missing, ""), None);
      var attempt := 1;
      while attempt <= options.maxAttempts
        invariant 1 <= attempt <= options.maxAttempts
        invariant attempt > 1 ==>
            var failure := CollectFailure(adapter.enabled, adapter.supported, adapter.lines, request);
            failure.Some? && Quarantined(failure.value) && !Permanent(failure.value)
        invariant quarantine == old(quarantine)
        decreases options.maxAttempts - attempt
      {
        result := adapter.Collect(request);
        if result.failure.None? || result.failure == Some(Disabled) || result.failure == Some(Unsupported) {
          return;
        }
        if Permanent(result.failure.value) || attempt == options.maxAttempts {
          quarantine := quarantine + [QuarantineEntry(ErrorCode(result.failure.value), attempt, now)];
          return;
        }
        attempt := attempt + 1;
      }
    }

    /** One run with no other run in between: the store ends exactly as RunStep says. */
    method Run(adapter: JSONL, times: Times) returns (result: Collected, error: Option<RunError>)
      requires ValidOptions(options)
      modifies this, store
      ensures var source := Source(adapter.enabled, adapter.supported, adapter.lines);
              && (error, store.Contents()) == RunStep(old(store.Contents()), source, options, times)
              && quarantine == old(quarantine) +
                   (if Acquirable(old(store.Contents()), times.acquire)
                    then QuarantineOf(SourceFailure(source, RequestAt(CurrentCursor(old(store.Contents())), options,
                                                                      times.now)), options, times.now)
                    else [])
    {
      var fence, acquired :=
        store.AcquireCollectionLease(options.owner, times.now, options.leaseDuration, times.acquire);
      if !acquired {
        return Collected(Unavailable(Missing, ""), None), Some(LeaseHeld);
      }
      result, error := Holding(adapter, times, fence);
      store.ReleaseCollectionLease(fence);
    }

    method Holding(adapter: JSONL, times: Times, fence: Fence) returns (result: Collected, error: Option<RunError>)
      modifies this, store
      ensures var source := Source(adapter.enabled, adapter.supported, adapter.lines);
              && (error, store.Contents()) == WhileHolding(old(store.Contents()), source, options, times, fence)
              && quarantine == old(quarantine) +
                   QuarantineOf(
                     SourceFailure(source, RequestAt(CurrentCursor(old(store.Contents())), options, times.now)),
                     options, times.now)
    {
      ghost var source := Source(adapter.enabled, adapter.supported, adapter.lines);
      var cursor := CurrentCursor(store.Contents()).next;
      var generation := CurrentCursor(store.Contents()).generation;
      var digest := CurrentCursor(store.Contents()).digest;
      var request := Request(cursor, generation, digest, options.batchLimit, times.now);
      result := CollectWithRetries(adapter, request, times.now);
      if result.failure.Some? {
        var failure := result.failure.value;
        return result, Some(if Quarantined(failure) then CollectionFailed else Unreadable(failure));
      }
      if result.batch.records == [] {
        return result, None;
      }
      var renewed := store.RenewCollectionLease(fence, times.renew, options.leaseDuration);
      if !renewed {
        return result, Some(LeaseHeld);
      }
      var id := BatchId(result.batch.generation, result.batch.digest, cursor, result.batch.nextCursor);
      var b := CollectionBatch(id, result.batch.nextCursor, result.batch.generation, result.batch.digest, fence,
                               Items(result.batch.records));
      var committed, outcome := store.CommitCollection(b, times.commit);
      error := if outcome.Rejected? then Some(CommitFailed(outcome.reason)) else None;
    }
  }
}
