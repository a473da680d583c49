/** Slowly changing dimensions: versions with half-open validity, and as-of reads. */
module Dimension {
  import opened Wrappers
  import opened Bytes

  /** The hash of a state; SHA-256 is taken to be injective, so it is the framed bytes it digests. */
  datatype Hash = Sha(framed: Bytes)

  datatype Put<S> = Put(owner: string, versionId: string, state: S, effectiveAt: int)

  datatype Version<S> = Version(
    versionId: string, number: nat, state: S, hash: Hash, validFrom: int, validTo: Option<int>)

  /** The versions of each owner in the order of insertion, and all version identifiers (the primary key). */
  datatype Table<S> = Table(rows: map<string, seq<Version<S>>>, ids: set<string>)

  datatype Outcome = Stored | Unchanged | InvalidEffectiveTime | DuplicateVersion

  function HashOf<S>(parts: S -> seq<Bytes>, state: S): Hash {
    Sha(Framed(parts(state)))
  }

  function History<S>(rows: map<string, seq<Version<S>>>, owner: string): seq<Version<S>> {
    if owner in rows then rows[owner] else []
  }

  // ---------------------------------------------------------------- queries

  /** The row whose end is null. */
  function OpenIndex<S>(history: seq<Version<S>>): (r: Option<nat>)
    ensures r.Some? ==> r.value < |history| && history[r.value].validTo.None?
    ensures r.None? ==> forall i :: 0 <= i < |history| ==> history[i].validTo.Some?
  {
    if history == [] then None
    else
      var last := |history| - 1;
      if history[last].validTo.None? then Some(last) else OpenIndex(history[..last])
  }

  predicate EffectiveAt<S>(version: Version<S>, at: int) {
    version.validFrom <= at && (version.validTo.None? || version.validTo.value > at)
  }

  /** Some row that is effective at the given time. */
  function AsOf<S>(history: seq<Version<S>>, at: int): (r: Option<Version<S>>)
    ensures r.Some? ==> r.value in history && EffectiveAt(r.value, at)
    ensures r.None? ==> forall i :: 0 <= i < |history| ==> !EffectiveAt(history[i], at)
  {
    if history == [] then None
    else if EffectiveAt(history[0], at) then Some(history[0])
    else AsOf(history[1..], at)
  }

  // ---------------------------------------------------------------- the put transaction

  function PutStep<S>(parts: S -> seq<Bytes>, t: Table<S>, p: Put<S>): (Outcome, Table<S>) {
    var history := History(t.rows, p.owner);
    var hash := HashOf(parts, p.state);
    var open := OpenIndex(history);
    if open.None? then
      if p.versionId in t.ids then (DuplicateVersion, t)
      else
        (Stored, Table(t.rows[p.owner := history + [Version(p.versionId, 1, p.state, hash, p.effectiveAt, None)]],
                       t.ids + {p.versionId}))
    else
      var current := history[open.value];
      if current.hash == hash then (Unchanged, t)
      else if p.effectiveAt <= current.validFrom then (InvalidEffectiveTime, t)
      else if p.versionId in t.ids then (DuplicateVersion, t)
      else
        var closed := history[open.value := current.(validTo := Some(p.effectiveAt))];
        var next := Version(p.versionId, current.number + 1, p.state, hash, p.effectiveAt, None);
        (Stored, Table(t.rows[p.owner := closed + [next]], t.ids + {p.versionId}))
  }

  function Run<S>(parts: S -> seq<Bytes>, puts: seq<Put<S>>): Table<S> {
    if puts == [] then Table(map[], {})
    else PutStep(parts, Run(parts, puts[..|puts| - 1]), puts[|puts| - 1]).1
  }

  // ---------------------------------------------------------------- the changes that count

  function OwnedBy<S>(puts: seq<Put<S>>, owner: string): seq<Put<S>> {
    if puts == [] then []
    else
      var last := puts[|puts| - 1];
      OwnedBy(puts[..|puts| - 1], owner) + if last.owner == owner then [last] else []
  }

  /** A put is a change if it differs from the owner's last change, is later, and has a new identifier. */
  predicate IsChange<S>(parts: S -> seq<Bytes>, accepted: seq<Put<S>>, p: Put<S>) {
    var mine := OwnedBy(accepted, p.owner);
    && (mine != [] ==>
          && parts(p.state) != parts(mine[|mine| - 1].state)
          && p.effectiveAt > mine[|mine| - 1].effectiveAt)
    && !Uses(accepted, p.versionId)
  }

  function Accepted<S>(parts: S -> seq<Bytes>, puts: seq<Put<S>>): seq<Put<S>> {
    if puts == [] then []
    else
      var accepted := Accepted(parts, puts[..|puts| - 1]);
      var p := puts[|puts| - 1];
      if IsChange(parts, accepted, p) then accepted + [p] else accepted
  }

  /** Version `i + 1` records change `i` and ends where the next change starts. */
  predicate RecordedAt<S(==)>(parts: S -> seq<Bytes>, history: seq<Version<S>>, changes: seq<Put<S>>, i: nat) {
    i < |history| && i < |changes| ==>
      history[i] == Version(changes[i].versionId, i + 1, changes[i].state, HashOf(parts, changes[i].state),
                            changes[i].effectiveAt,
                            if i + 1 < |changes| then Some(changes[i + 1].effectiveAt) else None)
  }

  predicate LaterAt<S>(changes: seq<Put<S>>, i: nat) {
    i + 1 < |changes| ==> changes[i].effectiveAt < changes[i + 1].effectiveAt
  }

  /** Versions 1..n of the given changes, with strictly increasing starts; only the last one is open. */
  ghost predicate IsChain<S>(parts: S -> seq<Bytes>, history: seq<Version<S>>, changes: seq<Put<S>>) {
    && |history| == |changes|
    && (forall i: nat :: RecordedAt(parts, history, changes, i))
    && (forall i: nat :: LaterAt(changes, i))
  }

  ghost predicate Represents<S(!new)>(parts: S -> seq<Bytes>, t: Table<S>, accepted: seq<Put<S>>) {
    && (forall owner :: IsChain(parts, History(t.rows, owner), OwnedBy(accepted, owner)))
    && (forall id :: id in t.ids <==> Uses(accepted, id))
  }

  predicate Uses<S>(accepted: seq<Put<S>>, id: string) {
    exists i :: 0 <= i < |accepted| && accepted[i].versionId == id
  }

  /** Every part is shorter than 2^64 bytes, as every Go string is. */
  ghost predicate AllFrameable<S>(parts: S -> seq<Bytes>, puts: seq<Put<S>>) {
    forall i :: 0 <= i < |puts| ==> Frameable(parts(puts[i].state))
  }

  lemma {:induction false} OwnedByFrameable<S>(parts: S -> seq<Bytes>, puts: seq<Put<S>>, owner: string)
    requires AllFrameable(parts, puts)
    ensures AllFrameable(parts, OwnedBy(puts, owner))
    decreases |puts|
  {
    if puts != [] {
      OwnedByFrameable(parts, puts[..|puts| - 1], owner);
    }
  }

  lemma {:induction false} OpenIsLast<S>(parts: S -> seq<Bytes>, history: seq<Version<S>>, changes: seq<Put<S>>)
    requires IsChain(parts, history, changes)
    ensures OpenIndex(history) == if history == [] then None else Some(|history| - 1)
  {
    if history != [] {
      assert RecordedAt(parts, history, changes, |history| - 1);
    }
  }

  lemma {:induction false} SameHash<S>(parts: S -> seq<Bytes>, a: S, b: S)
    requires Frameable(parts(a)) && Frameable(parts(b))
    ensures HashOf(parts, a) == HashOf(parts, b) <==> parts(a) == parts(b)
  {
    if HashOf(parts, a) == HashOf(parts, b) {
      FramedInjective(parts(a), parts(b));
    }
  }

  /** Closing the last version at the new start and appending the new one. */
  function Extended<S>(parts: S -> seq<Bytes>, history: seq<Version<S>>, p: Put<S>): seq<Version<S>> {
    if history == [] then
      history + [Version(p.versionId, 1, p.state, HashOf(parts, p.state), p.effectiveAt, None)]
    else
      var last := |history| - 1;
      history[last := history[last].(validTo := Some(p.effectiveAt))]
      + [Version(p.versionId, history[last].number + 1, p.state, HashOf(parts, p.state), p.effectiveAt, None)]
  }

  lemma {:induction false} ChainNext<S>(parts: S -> seq<Bytes>, history: seq<Version<S>>, changes: seq<Put<S>>,
                                        p: Put<S>)
    requires IsChain(parts, history, changes)
    requires changes != [] ==> p.effectiveAt > changes[|changes| - 1].effectiveAt
    ensures IsChain(parts, Extended(parts, history, p), changes + [p])
  {
    var longer, all := Extended(parts, history, p), changes + [p];
    forall i: nat {:trigger RecordedAt(parts, longer, all, i)} ensures RecordedAt(parts, longer, all, i) {
      assert RecordedAt(parts, history, changes, i);
      if history != [] {
        assert RecordedAt(parts, history, changes, |history| - 1);
      }
    }
    forall i: nat {:trigger LaterAt(all, i)} ensures LaterAt(all, i) {
      assert LaterAt(changes, i);
    }
  }

  /** A put is stored exactly when it is a change, and then it extends its owner's history. */
  lemma {:induction false} PutOutcome<S(!new)>(parts: S -> seq<Bytes>, t: Table<S>, accepted: seq<Put<S>>, p: Put<S>)
    requires AllFrameable(parts, accepted) && Frameable(parts(p.state)) && Represents(parts, t, accepted)
    ensures var (outcome, after) := PutStep(parts, t, p);
      && (outcome == Stored <==> IsChange(parts, accepted, p))
      && after == if outcome == Stored then
                    Table(t.rows[p.owner := Extended(parts, History(t.rows, p.owner), p)], t.ids + {p.versionId})
                  else t
  {
    var history, mine := History(t.rows, p.owner), OwnedBy(accepted, p.owner);
    assert IsChain(parts, history, mine);
    OpenIsLast(parts, history, mine);
    if mine != [] {
      assert RecordedAt(parts, history, mine, |mine| - 1);
      OwnedByFrameable(parts, accepted, p.owner);
      SameHash(parts, p.state, mine[|mine| - 1].state);
    }
    assert p.versionId in t.ids <==> Uses(accepted, p.versionId);
  }

  lemma {:induction false} UsesNext<S>(accepted: seq<Put<S>>, p: Put<S>, id: string)
    ensures Uses(accepted + [p], id) <==> Uses(accepted, id) || id == p.versionId
  {
    if Uses(accepted, id) {
      var i :| 0 <= i < |accepted| && accepted[i].versionId == id;
      assert (accepted + [p])[i].versionId == id;
    }
    assert (accepted + [p])[|accepted|] == p;
  }

  lemma {:induction false} OwnedByNext<S>(accepted: seq<Put<S>>, p: Put<S>, owner: string)
    ensures OwnedBy(accepted + [p], owner)
      == if p.owner == owner then OwnedBy(accepted, owner) + [p] else OwnedBy(accepted, owner)
  {
    assert (accepted + [p])[..|accepted|] == accepted;
  }

  /** One put keeps the table a faithful record of the accepted changes. */
  lemma {:induction false} PutRepresents<S(!new)>(parts: S -> seq<Bytes>, t: Table<S>, accepted: seq<Put<S>>, p: Put<S>)
    requires AllFrameable(parts, accepted) && Frameable(parts(p.state))
    requires Represents(parts, t, accepted) && IsChange(parts, accepted, p)
    ensures Represents(parts, PutStep(parts, t, p).1, accepted + [p])
  {
    PutOutcome(parts, t, accepted, p);
    var after := PutStep(parts, t, p).1;
    forall owner ensures IsChain(parts, History(after.rows, owner), OwnedBy(accepted + [p], owner)) {
      assert IsChain(parts, History(t.rows, owner), OwnedBy(accepted, owner));
      OwnedByNext(accepted, p, owner);
      if owner == p.owner {
        ChainNext(parts, History(t.rows, owner), OwnedBy(accepted, owner), p);
      }
    }
    forall id ensures id in after.ids <==> Uses(accepted + [p], id) {
      UsesNext(accepted, p, id);
    }
  }

  lemma {:induction false} RunRepresents<S(!new)>(parts: S -> seq<Bytes>, puts: seq<Put<S>>)
    requires AllFrameable(parts, puts)
    ensures Represents(parts, Run(parts, puts), Accepted(parts, puts)) && AllFrameable(parts, Accepted(parts, puts))
    decreases |puts|
  {
    if puts != [] {
      var before, p := puts[..|puts| - 1], puts[|puts| - 1];
      RunRepresents(parts, before);
      PutOutcome(parts, Run(parts, before), Accepted(parts, before), p);
      if IsChange(parts, Accepted(parts, before), p) {
        PutRepresents(parts, Run(parts, before), Accepted(parts, before), p);
      }
    }
  }

  /** After any puts, versions are numbered 1..n, starts increase, each ends at the next, only the last is open. */
  lemma {:induction false} HistoryIsChain<S(!new)>(parts: S -> seq<Bytes>, puts: seq<Put<S>>, owner: string)
    requires AllFrameable(parts, puts)
    ensures IsChain(parts, History(Run(parts, puts).rows, owner), OwnedBy(Accepted(parts, puts), owner))
  {
    RunRepresents(parts, puts);
  }

  // ---------------------------------------------------------------- as-of reads

  /** The position of the last change that is effective at or before the given time. */
  ghost predicate LastEffective<S>(changes: seq<Put<S>>, at: int, i: nat) {
    && i < |changes| && changes[i].effectiveAt <= at
    && forall j :: i < j < |changes| ==> changes[j].effectiveAt > at
  }

  lemma {:induction false} LaterStarts<S>(changes: seq<Put<S>>, i: nat, j: nat)
    requires forall k: nat :: LaterAt(changes, k)
    requires i < j < |changes|
    ensures changes[i].effectiveAt < changes[j].effectiveAt
  {
    assert LaterAt(changes, j - 1);
    if i < j - 1 {
      LaterStarts(changes, i, j - 1);
    }
  }

  lemma {:induction false} ChainEffective<S>(parts: S -> seq<Bytes>, history: seq<Version<S>>, changes: seq<Put<S>>,
                                             at: int, i: nat)
    requires IsChain(parts, history, changes) && i < |history|
    ensures EffectiveAt(history[i], at) <==> LastEffective(changes, at, i)
  {
    assert RecordedAt(parts, history, changes, i);
    forall j | i + 1 < j < |changes| ensures changes[i + 1].effectiveAt < changes[j].effectiveAt {
      LaterStarts(changes, i + 1, j);
    }
  }

  /** The version that records the last change effective by then, or nothing if there is no such change. */
  ghost predicate ReadsLastChange<S>(parts: S -> seq<Bytes>, changes: seq<Put<S>>, at: int, read: Option<Version<S>>) {
    match read
    case None => forall i :: 0 <= i < |changes| ==> changes[i].effectiveAt > at
    case Some(version) => Records(parts, changes, at, version)
  }

  ghost predicate Records<S>(parts: S -> seq<Bytes>, changes: seq<Put<S>>, at: int, version: Version<S>) {
    exists i: nat ::
      && LastEffective(changes, at, i)
      && version.number == i + 1 && version.versionId == changes[i].versionId
      && version.state == changes[i].state && version.validFrom == changes[i].effectiveAt
  }

  lemma {:induction false} NoneEffective<S>(changes: seq<Put<S>>, at: int, n: nat)
    requires n <= |changes| && forall j :: n <= j < |changes| ==> changes[j].effectiveAt > at
    requires forall i: nat :: !LastEffective(changes, at, i)
    ensures forall j :: 0 <= j < |changes| ==> changes[j].effectiveAt > at
  {
    if n > 0 {
      assert !LastEffective(changes, at, n - 1);
      NoneEffective(changes, at, n - 1);
    }
  }

  lemma {:induction false} ChainRead<S>(parts: S -> seq<Bytes>, history: seq<Version<S>>, changes: seq<Put<S>>, at: int)
    requires IsChain(parts, history, changes)
    ensures ReadsLastChange(parts, changes, at, AsOf(history, at))
  {
    var read := AsOf(history, at);
    if read.Some? {
      var i :| 0 <= i < |history| && history[i] == read.value;
      ChainEffective(parts, history, changes, at, i);
      assert RecordedAt(parts, history, changes, i);
    } else {
      forall i: nat ensures !LastEffective(changes, at, i) {
        if i < |history| {
          ChainEffective(parts, history, changes, at, i);
        }
      }
      NoneEffective(changes, at, |changes|);
    }
  }

  /** After any puts, an as-of read returns exactly the last accepted change effective by then. */
  lemma {:induction false} AsOfReadsLastChange<S(!new)>(parts: S -> seq<Bytes>, puts: seq<Put<S>>, owner: string,
                                                        at: int)
    requires AllFrameable(parts, puts)
    ensures ReadsLastChange(parts, OwnedBy(Accepted(parts, puts), owner), at,
                            AsOf(History(Run(parts, puts).rows, owner), at))
  {
    HistoryIsChain(parts, puts, owner);
    ChainRead(parts, History(Run(parts, puts).rows, owner), OwnedBy(Accepted(parts, puts), owner), at);
  }

  /** Puts that are not changes leave the table as it was: repeated states, late times, used identifiers. */
  lemma {:induction false} OnlyChangesAreStored<S(!new)>(parts: S -> seq<Bytes>, puts: seq<Put<S>>, p: Put<S>)
    requires AllFrameable(parts, puts) && Frameable(parts(p.state))
    ensures !IsChange(parts, Accepted(parts, puts), p) ==> PutStep(parts, Run(parts, puts), p).1 == Run(parts, puts)
    ensures IsChange(parts, Accepted(parts, puts), p) <==> PutStep(parts, Run(parts, puts), p).0 == Stored
  {
    RunRepresents(parts, puts);
    PutOutcome(parts, Run(parts, puts), Accepted(parts, puts), p);
  }

  // ---------------------------------------------------------------- the repository

  class Versions<S(==)> {
    const parts: S -> seq<Bytes>
    var rows: map<string, seq<Version<S>>>
    var ids: set<string>

    constructor (parts: S -> seq<Bytes>)
      ensures this.parts == parts && Contents() == Table(map[], {})
    {
      this.parts, rows, ids := parts, map[], {};
    }

    function Contents(): Table<S>
      reads this
    {
      Table(rows, ids)
    }

    /** Reads the open version, closes it and inserts the next one; any failure rolls all of it back. */
    method Put(p: Put<S>) returns (outcome: Outcome)
      modifies this
      ensures (outcome, Contents()) == PutStep(parts, old(Contents()), p)
    {
      var hash := HashOf(parts, p.state);
      var history := History(rows, p.owner);
      var open := OpenIndex(history);
      var begun := rows;
      var number := 1;
      if open.Some? {
        var current := history[open.value];
        if current.hash == hash {
          return Unchanged;
        }
        if p.effectiveAt <= current.validFrom {
          return InvalidEffectiveTime;
        }
        history := history[open.value := current.(validTo := Some(p.effectiveAt))];
        rows := rows[p.owner := history];
        number := current.number + 1;
      }
      if p.versionId in ids {
        rows := begun;
        return DuplicateVersion;
      }
      history := history + [Version(p.versionId, number, p.state, hash, p.effectiveAt, None)];
      assert rows[p.owner := history] == begun[p.owner := history];
      rows := rows[p.owner := history];
      ids := ids + {p.versionId};
      outcome := Stored;
    }
  }

  // ---------------------------------------------------------------- the two dimensions

  datatype ProjectState = ProjectState(classification: Bytes, lifecycle: Bytes)

  datatype SourceState = SourceState(adapterVersion: Option<Bytes>, surface: Bytes, coverage: Bytes, enabled: bool)

  function ProjectParts(): ProjectState -> seq<Bytes> {
    (state: ProjectState) => [state.classification, state.lifecycle]
  }

  const TRUE_TEXT: Bytes := [116, 114, 117, 101]
  const FALSE_TEXT: Bytes := [102, 97, 108, 115, 101]

  function SourceParts(): SourceState -> seq<Bytes> {
    (state: SourceState) =>
      [if state.adapterVersion.Some? then state.adapterVersion.value else [],
       state.surface, state.coverage, if state.enabled then TRUE_TEXT else FALSE_TEXT]
  }

  lemma {:induction false} ProjectHashDecides(a: ProjectState, b: ProjectState)
    requires Frameable(ProjectParts()(a)) && Frameable(ProjectParts()(b))
    ensures HashOf(ProjectParts(), a) == HashOf(ProjectParts(), b) <==> a == b
  {
    if HashOf(ProjectParts(), a) == HashOf(ProjectParts(), b) {
      FramedInjective(ProjectParts()(a), ProjectParts()(b));
      assert a.classification == ProjectParts()(a)[0] && a.lifecycle == ProjectParts()(a)[1];
    }
  }

  /** A missing adapter version and an empty one hash alike, so changing only that is not recorded. */
  lemma {:induction false} SourceHashDecides(a: SourceState, b: SourceState)
    requires Frameable(SourceParts()(a)) && Frameable(SourceParts()(b))
    ensures HashOf(SourceParts(), a) == HashOf(SourceParts(), b)
      <==> a == b || (b == a.(adapterVersion := b.adapterVersion)
                      && {a.adapterVersion, b.adapterVersion} == {None, Some([])})
  {
    var p, q := SourceParts()(a), SourceParts()(b);
    if HashOf(SourceParts(), a) == HashOf(SourceParts(), b) {
      FramedInjective(p, q);
      assert p[0] == q[0] && p[1] == q[1] && p[2] == q[2] && p[3] == q[3];
      assert TRUE_TEXT[0] != FALSE_TEXT[0];
    }
  }
}
