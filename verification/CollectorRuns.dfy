/** A collector run is a schedule of the collection protocol, so every theorem about interleavings covers
    it; and a run that nothing disturbs ingests the next batch. */
module CollectorRuns {
  import opened Wrappers
  import opened Adapter
  import opened CollectionStore
  import opened CollectionProtocol
  import opened Collector

  // ---------------------------------------------------------------- schedules

  /** Every action is enabled when its turn comes. */
  ghost predicate Schedule(s: System, actions: seq<Action>)
    decreases |actions|
  {
    actions == [] || (Enabled(s, actions[0]) && Schedule(Step(s, actions[0]), actions[1..]))
  }

  ghost function Execute(s: System, actions: seq<Action>): System
    requires Schedule(s, actions)
    decreases |actions|
  {
    if actions == [] then s else Execute(Step(s, actions[0]), actions[1..])
  }

  lemma {:induction false} ScheduleAppend(s: System, first: seq<Action>, second: seq<Action>)
    requires Schedule(s, first) && Schedule(Execute(s, first), second)
    ensures Schedule(s, first + second) && Execute(s, first + second) == Execute(Execute(s, first), second)
    decreases |first|
  {
    if first == [] {
      assert first + second == second;
    } else {
      ScheduleAppend(Step(s, first[0]), first[1..], second);
      assert (first + second)[1..] == first[1..] + second;
    }
  }

  lemma {:induction false} One(s: System, a: Action)
    requires Enabled(s, a)
    ensures Schedule(s, [a]) && Execute(s, [a]) == Step(s, a)
  {
    assert [a][1..] == [];
    assert Schedule(Step(s, a), []);
  }

  lemma {:induction false} ScheduleKeepsInvariant(s: System, actions: seq<Action>)
    requires Invariant(s) && Schedule(s, actions)
    ensures Invariant(Execute(s, actions))
    decreases |actions|
  {
    if actions != [] {
      StepKeepsInvariant(s, actions[0]);
      ScheduleKeepsInvariant(Step(s, actions[0]), actions[1..]);
    }
  }

  // ---------------------------------------------------------------- a run as a schedule

  /** The database clock only moves forward during a run. */
  predicate ForwardFrom(clock: int, attempts: seq<Attempt>)
    decreases |attempts|
  {
    attempts == [] ||
    match attempts[0]
    case Serialized(now, later) => clock <= now <= later
    case BodyAborted => ForwardFrom(clock, attempts[1..])
    case CommitAborted(now, later) => clock <= now <= later && ForwardFrom(later, attempts[1..])
  }

  lemma {:induction false} ForwardFromEarlier(clock: int, later: int, attempts: seq<Attempt>)
    requires clock <= later && ForwardFrom(later, attempts)
    ensures ForwardFrom(clock, attempts)
    decreases |attempts|
  {
    if attempts != [] && attempts[0].BodyAborted? {
      ForwardFromEarlier(clock, later, attempts[1..]);
    }
  }

  predicate Forward(clock: int, times: Times) {
    clock <= times.acquire <= times.renew && ForwardFrom(times.renew, times.commit)
  }

  function CommitActions(s: Store, b: CollectionBatch, attempts: seq<Attempt>, left: nat): seq<Action> {
    if !WithinBounds(b) || left == 0 || attempts == [] then []
    else if attempts[0].Serialized? then [Tick(attempts[0].now), CommitBatch(b.fence, attempts[0].later)]
    else if !Retried(s, b, attempts[0]) then [AbortedCommit(b.fence)]
    else [AbortedCommit(b.fence)] + CommitActions(s, b, attempts[1..], left - 1)
  }

  lemma {:induction false} Two(s: System, a: Action, b: Action)
    requires Enabled(s, a) && Enabled(Step(s, a), b)
    ensures Schedule(s, [a, b]) && Execute(s, [a, b]) == Step(Step(s, a), b)
  {
    One(s, a);
    One(Step(s, a), b);
    ScheduleAppend(s, [a], [b]);
    assert [a] + [b] == [a, b];
  }

  /** The retries of one commit: aborted attempts, then at most one that takes effect. */
  lemma {:induction false} CommitIsScheduled(s: System, fence: Fence, attempts: seq<Attempt>, left: nat)
    requires InPhase(s, fence) && s.runs[fence].phase.Renewed? && ForwardFrom(s.clock, attempts)
    ensures var b := CommitOf(fence, s.runs[fence].phase.seen, s.runs[fence].phase.batch);
            var actions := CommitActions(s.store, b, attempts, left);
            && Schedule(s, actions)
            && Execute(s, actions).store == CommitWithRetries(s.store, b, attempts, left).1
            && fence in Execute(s, actions).runs
            && (Execute(s, actions) == s || Execute(s, actions).runs[fence].phase.Finished?)
    decreases left
  {
    if left == 0 || attempts == [] {
    } else if attempts[0].Serialized? {
      Two(s, Tick(attempts[0].now), CommitBatch(fence, attempts[0].later));
    } else {
      var b := CommitOf(fence, s.runs[fence].phase.seen, s.runs[fence].phase.batch);
      One(s, AbortedCommit(fence));
      if Retried(s.store, b, attempts[0]) {
        if attempts[0].CommitAborted? {
          ForwardFromEarlier(s.clock, attempts[0].later, attempts[1..]);
        }
        CommitIsScheduled(s, fence, attempts[1..], left - 1);
        ScheduleAppend(s, [AbortedCommit(fence)], CommitActions(s.store, b, attempts[1..], left - 1));
      } else {
        RejectedChangesNothing(s.store, b, attempts[0].now, attempts[0].later);
      }
    }
  }

  /** A batch depends on the time of its request only through the records that were read at that time. */
  lemma {:induction false} RequestTimeIrrelevant(parsed: seq<Parsed>, current: Cursor, o: Options, now: int)
    ensures BatchOf(parsed, RequestAt(current, o, now)) == BatchOf(parsed, RequestOf(current, o.batchLimit))
  {
    var left, right := RequestAt(current, o, now), RequestOf(current, o.batchLimit);
    var from := Start(parsed, left);
    var to := if from <= |parsed| then Min(from + left.limit, |parsed|) else from;
    if to > from {
      var records, others := RecordsBetween(parsed, left, from, to), RecordsBetween(parsed, right, from, to);
      forall i | 0 <= i < |records| ensures records[i] == others[i] {
        assert RecordAt(parsed, left, from + i) == RecordAt(parsed, right, from + i);
      }
      assert records == others;
    }
  }

  /** The snapshot that the protocol gives the run; a run without records never gets to use it. */
  function ProtocolSnapshot(source: Source, now: int): (snapshot: seq<Parsed>)
    ensures |snapshot| >= 1
  {
    if Snapshot(source, now) == [] then [Parsed("", now, Storable, true)] else Snapshot(source, now)
  }

  lemma {:induction false} BeginIsScheduled(s: System, source: Source, o: Options, times: Times)
    requires ValidOptions(o) && Fence(o.owner, times.now) !in s.runs && s.clock <= times.acquire
    ensures var fence := Fence(o.owner, times.now);
            var snapshot := ProtocolSnapshot(source, times.now);
            var begin := [Tick(times.acquire), Begin(fence, snapshot, o.batchLimit, o.leaseDuration)];
            && Schedule(s, begin)
            && Execute(s, begin) ==
                 System(AcquireStep(s.store, fence, times.acquire, o.leaseDuration), times.acquire,
                        s.runs[fence := CollectionProtocol.Run(
                          if Acquirable(s.store, times.acquire) then Acquired else Finished, snapshot, o.batchLimit)])
  {
    var fence := Fence(o.owner, times.now);
    Two(s, Tick(times.acquire), Begin(fence, ProtocolSnapshot(source, times.now), o.batchLimit, o.leaseDuration));
  }

  lemma {:induction false} ReadsAreScheduled(s: System, fence: Fence)
    requires fence in s.runs && s.runs[fence].phase.Acquired?
    ensures var readings := [ReadNext(fence), ReadNext(fence)] + [ReadNext(fence)];
            && Schedule(s, readings)
            && Execute(s, readings) == SetPhase(s, fence, ReadDigest(CurrentCursor(s.store)))
  {
    var a := ReadNext(fence);
    var current := CurrentCursor(s.store);
    Two(s, a, a);
    var second := Step(Step(s, a), a);
    assert second.runs[fence].phase == ReadGeneration(current.next, current.generation) && second.store == s.store;
    One(second, a);
    ScheduleAppend(s, [a, a], [a]);
    var third := Step(second, a);
    assert third.runs == SetPhase(s, fence, ReadDigest(current)).runs;
  }

  /** From the collected batch to the last attempt of its commit. */
  lemma {:induction false} LastStepsScheduled(s: System, source: Source, o: Options, times: Times, fence: Fence)
    returns (actions: seq<Action>)
    requires ValidOptions(o) && s.clock <= times.renew && ForwardFrom(times.renew, times.commit)
    requires fence in s.runs && s.runs[fence].phase == ReadDigest(CurrentCursor(s.store))
    requires s.runs[fence].snapshot == ProtocolSnapshot(source, times.now) && s.runs[fence].limit == o.batchLimit
    ensures Schedule(s, actions) && fence in Execute(s, actions).runs
    ensures Execute(s, actions).store == WhileHolding(s.store, source, o, times, fence).1
  {
    var current := CurrentCursor(s.store);
    var failure := SourceFailure(source, RequestAt(current, o, times.now));
    actions := [];
    if failure.None? && source.lines != [] && BatchFor(source, current, o, times.now).records != [] {
      RequestTimeIrrelevant(Snapshot(source, times.now), current, o, times.now);
      var batch := BatchFor(source, current, o, times.now);
      One(s, CollectBatch(fence));
      var collected := Step(s, CollectBatch(fence));
      assert collected == SetPhase(s, fence, HasBatch(current, batch));
      var renew := [Tick(times.renew), RenewLease(fence, o.leaseDuration)];
      Two(collected, renew[0], renew[1]);
      var renewed := Step(Step(collected, renew[0]), renew[1]);
      ScheduleAppend(s, [CollectBatch(fence)], renew);
      actions := [CollectBatch(fence)] + renew;
      if HoldsCurrentLease(s.store, fence, times.renew) {
        var attempts := CommitActions(renewed.store, CommitOf(fence, current, batch), times.commit, MAX_ATTEMPTS);
        CommitIsScheduled(renewed, fence, times.commit, MAX_ATTEMPTS);
        ScheduleAppend(s, actions, attempts);
        actions := actions + attempts;
      }
    }
  }

  /** Whatever becomes of a run, its database work is a schedule of the protocol for its own fence. */
  lemma {:induction false} RunIsScheduled(s: System, source: Source, o: Options,
                                          times: Times) returns (actions: seq<Action>)
    requires ValidOptions(o) && Forward(s.clock, times) && Fence(o.owner, times.now) !in s.runs
    ensures Schedule(s, actions)
    ensures Execute(s, actions).store == RunStep(s.store, source, o, times).1
  {
    var fence := Fence(o.owner, times.now);
    BeginIsScheduled(s, source, o, times);
    actions := [Tick(times.acquire), Begin(fence, ProtocolSnapshot(source, times.now), o.batchLimit, o.leaseDuration)];
    if Acquirable(s.store, times.acquire) {
      var begun := Execute(s, actions);
      var readings := [ReadNext(fence), ReadNext(fence)] + [ReadNext(fence)];
      ReadsAreScheduled(begun, fence);
      ScheduleAppend(s, actions, readings);
      actions := actions + readings;
      var caughtUp := Execute(s, actions);
      var last := LastStepsScheduled(caughtUp, source, o, times, fence);
      ScheduleAppend(s, actions, last);
      actions := actions + last;
      var done := Execute(s, actions);
      One(done, Release(fence));
      ScheduleAppend(s, actions, [Release(fence)]);
      actions := actions + [Release(fence)];
    }
  }

  // ---------------------------------------------------------------- an undisturbed run

  /** The attempt that runs to its end, if one of the allowed attempts does. */
  function Serializing(attempts: seq<Attempt>, left: nat): Option<Attempt> {
    if left == 0 || attempts == [] then None
    else if attempts[0].Serialized? then Some(attempts[0])
    else Serializing(attempts[1..], left - 1)
  }

  lemma {:induction false} SerializingForward(attempts: seq<Attempt>, left: nat, clock: int)
    requires Serializing(attempts, left).Some? && ForwardFrom(clock, attempts)
    ensures var a := Serializing(attempts, left).value;
            a.Serialized? && clock <= a.now <= a.later
    decreases left
  {
    match attempts[0]
    case Serialized(_, _) =>
    case BodyAborted => SerializingForward(attempts[1..], left - 1, clock);
    case CommitAborted(_, later) => SerializingForward(attempts[1..], left - 1, later);
  }

  /** If no body is rejected before then, the attempt that runs to its end decides. */
  lemma {:induction false} RetriesAreTheSerializingAttempt(s: Store, b: CollectionBatch, attempts: seq<Attempt>,
                                                           left: nat, clock: int, end: int)
    requires Serializing(attempts, left).Some? && ForwardFrom(clock, attempts)
    requires Serializing(attempts, left).value.Serialized? ==> Serializing(attempts, left).value.later <= end
    requires forall now, later :: clock <= now <= later <= end ==> !CommitStep(s, b, now, later).0.Rejected?
    ensures var a := Serializing(attempts, left).value;
            && a.Serialized? && clock <= a.now <= a.later
            && CommitWithRetries(s, b, attempts, left) == CommitStep(s, b, a.now, a.later)
    decreases left
  {
    SerializingForward(attempts, left, clock);
    match attempts[0]
    case Serialized(_, _) =>
    case BodyAborted => RetriesAreTheSerializingAttempt(s, b, attempts[1..], left - 1, clock, end);
    case CommitAborted(now, later) =>
      SerializingForward(attempts[1..], left - 1, later);
      assert !CommitStep(s, b, now, later).0.Rejected?;
      RetriesAreTheSerializingAttempt(s, b, attempts[1..], left - 1, later, end);
  }

  /** The lease outlives the run. */
  predicate LeaseLasts(o: Options, times: Times) {
    && times.renew < times.acquire + o.leaseDuration
    && (Serializing(times.commit, MAX_ATTEMPTS).Some? ==>
          Serializing(times.commit, MAX_ATTEMPTS).value.Serialized? ==>
            Serializing(times.commit, MAX_ATTEMPTS).value.later < times.renew + o.leaseDuration)
  }

  /** The commit of an undisturbed run, seen as the only run of the protocol. */
  lemma {:induction false} CommitOfUndisturbedRun(s: Store, snapshot: seq<Parsed>, limit: Limit, fence: Fence,
                                                  now: int, later: int)
    requires ExactlyOnce(s) && DigestDescribesEvidence(CurrentCursor(s), s.evidence)
    requires HoldsCurrentLease(s, fence, now) && HoldsCurrentLease(s, fence, later) && now <= later
    requires |snapshot| >= 1 && limit <= MAX_BATCH
    requires Continues(snapshot, CurrentCursor(s))
    requires BatchOf(snapshot, RequestOf(CurrentCursor(s), limit)).records != []
    ensures var current := CurrentCursor(s);
            var b := CommitOf(fence, current, BatchOf(snapshot, RequestOf(current, limit)));
            var (outcome, after) := CommitStep(s, b, now, later);
            var next := current.next + Min(limit, |snapshot| - current.next);
            && outcome == Committed
            && CurrentCursor(after) == Cursor(Base, Prefix(Contents(snapshot)[..next]), next)
            && HoldsLease(after, fence)
  {
    var current := CurrentCursor(s);
    var batch := BatchOf(snapshot, RequestOf(current, limit));
    var run := CollectionProtocol.Run(Renewed(current, batch), snapshot, limit);
    var alone := System(s, now, map[fence := run]);
    CommitAdvancesByBatch(alone, fence, later);
    assert Remaining(run, current.next) == |snapshot| - current.next;
  }

  /** The stored cursor covers the smaller of limit and what was left of the snapshot more than before. */
  ghost predicate Ingested(before: Cursor, after: Cursor, snapshot: seq<Parsed>, limit: Limit) {
    && before.next <= |snapshot|
    && var next := before.next + Min(limit, |snapshot| - before.next);
       after == if before.next == |snapshot| then before else Cursor(Base, Prefix(Contents(snapshot)[..next]), next)
  }

  /** The retries of the commit of an undisturbed run commit its batch. */
  lemma {:induction false} CommitIngests(s: Store, snapshot: seq<Parsed>, limit: Limit, fence: Fence, clock: int,
                                         attempts: seq<Attempt>)
    requires ExactlyOnce(s) && DigestDescribesEvidence(CurrentCursor(s), s.evidence)
    requires Serializing(attempts, MAX_ATTEMPTS).Some? && ForwardFrom(clock, attempts)
    requires HoldsCurrentLease(s, fence, clock)
    requires Serializing(attempts, MAX_ATTEMPTS).value.Serialized? ==>
               HoldsCurrentLease(s, fence, Serializing(attempts, MAX_ATTEMPTS).value.later)
    requires Continues(snapshot, CurrentCursor(s)) && |snapshot| >= 1 && limit <= MAX_BATCH
    requires CurrentCursor(s).next < |snapshot|
    requires BatchOf(snapshot, RequestOf(CurrentCursor(s), limit)).records != []
    ensures var current := CurrentCursor(s);
            var b := CommitOf(fence, current, BatchOf(snapshot, RequestOf(current, limit)));
            var (outcome, after) := CommitWithRetries(s, b, attempts, MAX_ATTEMPTS);
            && outcome == Committed && HoldsLease(after, fence)
            && Ingested(current, CurrentCursor(after), snapshot, limit)
  {
    var b := CommitOf(fence, CurrentCursor(s), BatchOf(snapshot, RequestOf(CurrentCursor(s), limit)));
    SerializingForward(attempts, MAX_ATTEMPTS, clock);
    var a := Serializing(attempts, MAX_ATTEMPTS).value;
    forall now, later | clock <= now <= later <= a.later ensures !CommitStep(s, b, now, later).0.Rejected? {
      CommitOfUndisturbedRun(s, snapshot, limit, fence, now, later);
    }
    RetriesAreTheSerializingAttempt(s, b, attempts, MAX_ATTEMPTS, clock, a.later);
    CommitOfUndisturbedRun(s, snapshot, limit, fence, a.now, a.later);
  }

  /** The batch of a snapshot that continues what is committed is empty exactly at the end of the snapshot. */
  lemma {:induction false} ContinuingBatch(snapshot: seq<Parsed>, current: Cursor, limit: Limit)
    requires current == EMPTY_CURSOR || (current.digest.Prefix? && |current.digest.content| == current.next)
    requires Continues(snapshot, current) && |snapshot| >= 1
    ensures current.next <= |snapshot|
    ensures BatchOf(snapshot, RequestOf(current, limit)).records == [] <==> current.next == |snapshot|
  {
    BatchShape(snapshot, RequestOf(current, limit));
    if current.digest.Prefix? {
      RotatesIffNotExtending(snapshot, current.digest.content);
    }
  }

  /** What a run that can read its source and keeps its lease leaves behind. */
  lemma {:induction false} HoldingCommits(s: Store, source: Source, o: Options, times: Times, fence: Fence)
    requires ValidOptions(o) && HoldsCurrentLease(s, fence, times.renew)
    requires source.lines != [] && SourceFailure(source, RequestAt(CurrentCursor(s), o, times.now)).None?
    ensures var current := CurrentCursor(s);
            var batch := BatchOf(Snapshot(source, times.now), RequestOf(current, o.batchLimit));
            var renewed := RenewStep(s, fence, times.renew, o.leaseDuration);
            var (outcome, after) :=
              CommitWithRetries(renewed, CommitOf(fence, current, batch), times.commit, MAX_ATTEMPTS);
            && |Snapshot(source, times.now)| == |source.lines|
            && (batch.records == [] ==> WhileHolding(s, source, o, times, fence) == (None, s))
            && (batch.records != [] && outcome == Committed ==>
                  WhileHolding(s, source, o, times, fence) == (None, after))
  {
    RequestTimeIrrelevant(Snapshot(source, times.now), CurrentCursor(s), o, times.now);
  }

  /** Renewing moves nothing but the expiry of the lease. */
  lemma {:induction false} RenewedStore(s: Store, fence: Fence, now: int, duration: int)
    requires ExactlyOnce(s) && DigestDescribesEvidence(CurrentCursor(s), s.evidence)
    requires HoldsCurrentLease(s, fence, now)
    ensures var renewed := RenewStep(s, fence, now, duration);
            && ExactlyOnce(renewed) && DigestDescribesEvidence(CurrentCursor(renewed), renewed.evidence)
            && CurrentCursor(renewed) == CurrentCursor(s)
            && (forall later :: HoldsCurrentLease(renewed, fence, later) <==> later < now + duration)
  {
    assert RenewStep(s, fence, now, duration).evidence == s.evidence;
  }

  lemma {:induction false} HoldingIngests(s: Store, source: Source, o: Options, times: Times, fence: Fence)
    requires ExactlyOnce(s) && DigestDescribesEvidence(CurrentCursor(s), s.evidence)
    requires HoldsCurrentLease(s, fence, times.renew) && ForwardFrom(times.renew, times.commit) && LeaseLasts(o, times)
    requires ValidOptions(o) && o.batchLimit <= MAX_BATCH && Serializing(times.commit, MAX_ATTEMPTS).Some?
    requires source.lines != [] && SourceFailure(source, RequestAt(CurrentCursor(s), o, times.now)).None?
    requires Continues(Snapshot(source, times.now), CurrentCursor(s))
    ensures var (error, after) := WhileHolding(s, source, o, times, fence);
            && error == None && HoldsLease(after, fence)
            && |Snapshot(source, times.now)| == |source.lines|
            && Ingested(CurrentCursor(s), CurrentCursor(after), Snapshot(source, times.now), o.batchLimit)
            && (CurrentCursor(s).next == |source.lines| ==> after == s)
  {
    var current := CurrentCursor(s);
    var snapshot := Snapshot(source, times.now);
    HoldingCommits(s, source, o, times, fence);
    ContinuingBatch(snapshot, current, o.batchLimit);
    if current.next < |snapshot| {
      var renewed := RenewStep(s, fence, times.renew, o.leaseDuration);
      RenewedStore(s, fence, times.renew, o.leaseDuration);
      CommitIngests(renewed, snapshot, o.batchLimit, fence, times.renew, times.commit);
    }
  }

  /** In a source that only grows, a run that nothing disturbs succeeds: it moves the cursor by the smaller
      of its limit and what is left, leaves the lease free, and at the end of the source changes nothing. */
  lemma {:induction false} UndisturbedRunIngests(s: System, source: Source, o: Options, times: Times)
    requires Invariant(s) && ExactlyOnce(s.store) && Acquirable(s.store, times.acquire)
    requires ValidOptions(o) && o.batchLimit <= MAX_BATCH && Forward(s.clock, times) && LeaseLasts(o, times)
    requires Serializing(times.commit, MAX_ATTEMPTS).Some? && source.lines != []
    requires SourceFailure(source, RequestAt(CurrentCursor(s.store), o, times.now)).None?
    requires Continues(Snapshot(source, times.now), CurrentCursor(s.store))
    ensures var (error, after) := RunStep(s.store, source, o, times);
            && error == None
            && |Snapshot(source, times.now)| == |source.lines|
            && Ingested(CurrentCursor(s.store), CurrentCursor(after), Snapshot(source, times.now), o.batchLimit)
            && after.row.Some? && after.row.value.lease == Active && after.row.value.expires == None
            && (CurrentCursor(s.store).next == |source.lines| ==> after.evidence == s.store.evidence)
  {
    var fence := Fence(o.owner, times.now);
    var acquired := AcquireStep(s.store, fence, times.acquire, o.leaseDuration);
    assert ExactlyOnce(acquired);
    HoldingIngests(acquired, source, o, times, fence);
  }
}
