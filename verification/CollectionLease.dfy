/** What a lease is worth: whoever holds a current one excludes everybody else, nobody waits longer than its
    time, and its holder alone commits. */
module CollectionLease {
  import opened Adapter
  import opened CollectionStore
  import opened CollectionProtocol

  /** Somebody holds a lease that has not expired. */
  ghost predicate Held(s: Store, now: int) {
    exists fence :: HoldsCurrentLease(s, fence, now)
  }

  /** Everything but the lease is as before. */
  predicate OnlyLeaseDiffers(s: Store, s': Store) {
    CurrentCursor(s') == CurrentCursor(s) && s'.evidence == s.evidence && s'.batches == s.batches
  }

  /** The lease belongs to this fence at exactly the instants before this one, and to no other fence ever. */
  ghost predicate LeasedUntil(s: Store, fence: Fence, end: int) {
    forall other, t :: HoldsCurrentLease(s, other, t) <==> other == fence && t < end
  }

  /** A lease belongs to one fence at a time. */
  lemma {:induction false} OneHolder(s: Store, a: Fence, b: Fence, t: int, u: int)
    requires HoldsCurrentLease(s, a, t) && HoldsCurrentLease(s, b, u)
    ensures a == b
  {}

  // ---------------------------------------------------------------- the lease statements

  /** A run that begins while the lease is current is turned away and changes nothing; any other gets the lease for
      its own duration, whoever held it before, and changes nothing but the lease. */
  lemma {:induction false} BeginTakesFreeLease(s: System, fence: Fence, snapshot: seq<Parsed>, limit: Limit,
                                               duration: int)
    requires Invariant(s) && Enabled(s, Begin(fence, snapshot, limit, duration))
    ensures var next := Step(s, Begin(fence, snapshot, limit, duration));
            && OnlyLeaseDiffers(s.store, next.store)
            && if Held(s.store, s.clock) then next.store == s.store && next.runs[fence].phase == Finished
               else LeasedUntil(next.store, fence, s.clock + duration) && next.runs[fence].phase == Acquired
  {
    if s.store.row.Some? && s.store.row.value.lease.Leased? {
      var holder := s.store.row.value.lease.fence;
      assert Held(s.store, s.clock) <==> HoldsCurrentLease(s.store, holder, s.clock);
    }
  }

  /** Renewing works for the holder of a current lease alone, and moves nothing but the end of that lease. */
  lemma {:induction false} RenewalMovesTheEnd(s: Store, fence: Fence, now: int, duration: int)
    ensures var renewed := RenewStep(s, fence, now, duration);
            && OnlyLeaseDiffers(s, renewed)
            && if HoldsCurrentLease(s, fence, now) then LeasedUntil(renewed, fence, now + duration) else renewed == s
  {}

  /** Releasing frees the lease at once if the fence still has it, expired or not, and otherwise changes nothing: a
      superseded run cannot release the lease of its successor. */
  lemma {:induction false} ReleaseFreesOwnLease(s: Store, fence: Fence, now: int)
    ensures var released := ReleaseStep(s, fence);
            && OnlyLeaseDiffers(s, released)
            && if HoldsLease(s, fence) then !Held(released, now) else released == s
    ensures forall other :: other != fence && HoldsCurrentLease(s, other, now) ==> ReleaseStep(s, fence) == s
  {}

  // ---------------------------------------------------------------- over whole runs

  lemma {:induction false} ClockMovesForward(trace: seq<System>, actions: seq<Action>, i: nat, j: nat)
    requires IsTrace(trace, actions) && i <= j < |trace|
    ensures trace[i].clock <= trace[j].clock
    decreases j
  {
    if i < j {
      ClockMovesForward(trace, actions, i, j - 1);
      assert Enabled(trace[j - 1], actions[j - 1]);
    }
  }

  /** Neither a release by this fence nor a renewal that ends by t. */
  predicate KeepsUntil(s: System, a: Action, fence: Fence, t: int) {
    && a != Release(fence)
    && (a.RenewLease? && a.fence == fence ==> t < s.clock + a.duration)
  }

  lemma {:induction false} StepKeepsLease(s: System, a: Action, fence: Fence, t: int)
    requires Invariant(s) && Enabled(s, a) && KeepsUntil(s, a, fence, t)
    requires s.clock <= t && HoldsCurrentLease(s.store, fence, t)
    ensures HoldsCurrentLease(Step(s, a).store, fence, t)
  {
    assert HoldsCurrentLease(s.store, fence, s.clock);
    match a
    case Begin(other, snapshot, limit, duration) => BeginTakesFreeLease(s, other, snapshot, limit, duration);
    case CommitBatch(other, later) => CommitKeepsRowLease(s, other, later);
    case _ =>
  }

  /** A commit moves the cursor under a lease, never the lease. */
  lemma {:induction false} CommitKeepsRowLease(s: System, fence: Fence, later: int)
    requires Enabled(s, CommitBatch(fence, later))
    ensures forall other, t :: HoldsCurrentLease(Step(s, CommitBatch(fence, later)).store, other, t) <==>
                                 HoldsCurrentLease(s.store, other, t)
  {}

  lemma {:induction false} TraceStepKeepsLease(trace: seq<System>, actions: seq<Action>, n: nat, fence: Fence, t: int)
    requires IsTrace(trace, actions) && n < |actions| && KeepsUntil(trace[n], actions[n], fence, t)
    requires trace[n].clock <= t && HoldsCurrentLease(trace[n].store, fence, t)
    ensures HoldsCurrentLease(trace[n + 1].store, fence, t)
  {
    ReachableStatesAreSound(trace, actions, n);
    StepKeepsLease(trace[n], actions[n], fence, t);
  }

  /** Exclusion: whatever other runs do, a lease that lasts until t stays with its fence until t, unless that fence
      itself releases it or renews it for less. */
  lemma {:induction false} LeaseLastsItsTime(trace: seq<System>, actions: seq<Action>, fence: Fence, t: int, i: nat,
                                             j: nat)
    requires IsTrace(trace, actions) && i <= j < |trace|
    requires HoldsCurrentLease(trace[i].store, fence, t) && trace[j].clock <= t
    requires forall m :: i <= m < j ==> KeepsUntil(trace[m], actions[m], fence, t)
    ensures HoldsCurrentLease(trace[j].store, fence, t)
    decreases j
  {
    if i < j {
      ClockMovesForward(trace, actions, j - 1, j);
      LeaseLastsItsTime(trace, actions, fence, t, i, j - 1);
      TraceStepKeepsLease(trace, actions, j - 1, fence, t);
    }
  }

  /** And as long as it does, no other fence changes the store in any way. */
  lemma {:induction false} HolderAloneChangesTheStore(trace: seq<System>, actions: seq<Action>, fence: Fence, t: int,
                                                      i: nat, j: nat)
    requires IsTrace(trace, actions) && i <= j < |actions|
    requires HoldsCurrentLease(trace[i].store, fence, t) && trace[j].clock <= t
    requires forall m :: i <= m < j ==> KeepsUntil(trace[m], actions[m], fence, t)
    requires !actions[j].Tick? && actions[j].fence != fence
    ensures trace[j + 1].store == trace[j].store
  {
    LeaseLastsItsTime(trace, actions, fence, t, i, j);
    ReachableStatesAreSound(trace, actions, j);
    OtherFenceChangesNothing(trace[j], actions[j], fence);
  }

  lemma {:induction false} OtherFenceChangesNothing(s: System, a: Action, holder: Fence)
    requires Invariant(s) && Enabled(s, a) && HoldsCurrentLease(s.store, holder, s.clock)
    requires !a.Tick? && a.fence != holder
    ensures Step(s, a).store == s.store
  {
    match a
    case Begin(other, snapshot, limit, duration) =>
      assert Held(s.store, s.clock);
      BeginTakesFreeLease(s, other, snapshot, limit, duration);
    case CommitBatch(other, later) => assert !HoldsCurrentLease(s.store, other, s.clock);
    case _ =>
  }

  /** The step after which a fence no longer has the lease. */
  predicate LosesAt(trace: seq<System>, m: nat, fence: Fence) {
    m + 1 < |trace| && HoldsLease(trace[m].store, fence) && !HoldsLease(trace[m + 1].store, fence)
  }

  /** Step m gives the expired lease of this fence to another one. */
  predicate TakenOver(trace: seq<System>, actions: seq<Action>, m: nat, fence: Fence)
    requires m < |actions| && m + 1 < |trace|
  {
    && actions[m].Begin? && actions[m].fence != fence
    && !HoldsCurrentLease(trace[m].store, fence, trace[m].clock)
    && HoldsCurrentLease(trace[m + 1].store, actions[m].fence, trace[m].clock)
  }

  /** The lease ends in one of two ways: its fence releases it, or another run begins after it has expired. */
  lemma {:induction false} LeaseEndsOneOfTwoWays(trace: seq<System>, actions: seq<Action>, fence: Fence, m: nat)
    requires IsTrace(trace, actions) && LosesAt(trace, m, fence)
    ensures actions[m] == Release(fence) || TakenOver(trace, actions, m, fence)
  {
    var s, a := trace[m], actions[m];
    ReachableStatesAreSound(trace, actions, m);
    assert trace[m + 1] == Step(s, a);
    if a.Begin? {
      BeginTakesFreeLease(s, a.fence, a.snapshot, a.limit, a.duration);
    }
  }

  /** However its holder ended, the lease is there for the first run that begins once its time has passed. */
  lemma {:induction false} ExpiredLeaseIsTaken(trace: seq<System>, actions: seq<Action>, n: nat)
    requires IsTrace(trace, actions) && n < |actions| && actions[n].Begin?
    requires trace[n].store.row.Some? && trace[n].store.row.value.expires.Some?
    requires trace[n].store.row.value.expires.value <= trace[n].clock
    ensures trace[n + 1].runs[actions[n].fence].phase == Acquired
    ensures LeasedUntil(trace[n + 1].store, actions[n].fence, trace[n].clock + actions[n].duration)
  {
    var a := actions[n];
    ReachableStatesAreSound(trace, actions, n);
    assert trace[n + 1] == Step(trace[n], a);
    BeginTakesFreeLease(trace[n], a.fence, a.snapshot, a.limit, a.duration);
  }
}
