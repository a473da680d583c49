/** Evaluating a context: which decisions come out, and that the order of the inputs does not matter. */
module BoundaryEvaluation {
  import opened Ordering
  import opened Wrappers
  import opened PolicyPack
  import opened BoundaryEngine
  import opened BoundaryMeaning
  import opened ConflictCycle
  import opened DecisionHeap

  // ---------------------------------------------------------------- the entries that compete

  /** What all candidates of one evaluation share. */
  datatype Setup = Setup(ordered: seq<Candidate>, cyclic: bool, builtins: seq<Pack>, extensions: seq<Pack>)

  function NormalizedFacts(candidate: Candidate, conflicted: bool): map<string, string> {
    var facts := candidate.facts["category" := candidate.category]["source_kind" := candidate.sourceKind];
    if conflicted then facts["conflicted" := "true"] else facts
  }

  /** A conflict cycle anywhere turns every risk of at least 50 into a block. */
  function EntryFor(candidate: Candidate, order: int, cyclic: bool, m: Match): Ranked {
    var outcome := if cyclic && m.rule.riskScore >= 50 then "block" else m.rule.outcome;
    Ranked(Decision(m.rule.category, outcome, m.rule.riskScore, RiskLevel(m.rule.riskScore), candidate.confidence,
                    candidate.sourceRef, m.packId, m.rule.id, m.packVersion, m.rule.explanation,
                    Sort(StringLess, candidate.conflicts)),
           Authority(candidate.sourceKind), order)
  }

  function EntryOf(candidate: Candidate, order: int, cyclic: bool): Match -> seq<Ranked> {
    (m: Match) => [EntryFor(candidate, order, cyclic, m)]
  }

  /** The built-in matches of a candidate, then its extension matches. */
  function CandidateMatches(setup: Setup, i: nat): seq<Match>
    requires i < |setup.ordered|
  {
    var facts := NormalizedFacts(setup.ordered[i], Conflicted(setup.ordered, setup.ordered[i].id));
    Matches(setup.builtins, facts) + Matches(setup.extensions, facts)
  }

  function EntriesAt(setup: Setup): nat -> seq<Ranked> {
    (i: nat) =>
      if i < |setup.ordered|
      then Flatten(EntryOf(setup.ordered[i], i, setup.cyclic), CandidateMatches(setup, i)) else []
  }

  /** The entries of all candidates, in their resolved order. */
  function AllEntries(setup: Setup): seq<Ranked> {
    Concat(EntriesAt(setup), |setup.ordered|)
  }

  function OnlyDecision(): Ranked -> seq<Decision> {
    (entry: Ranked) => [entry.decision]
  }

  /** The best 256 entries. */
  function Best(setup: Setup): seq<Ranked> {
    var sorted := Sort(BetterDecision, AllEntries(setup));
    sorted[..if |sorted| < MAX_DECISIONS then |sorted| else MAX_DECISIONS]
  }

  function Decisions(setup: Setup): seq<Decision> {
    Sort(DecisionLess, Flatten(OnlyDecision(), Best(setup)))
  }

  /** Nothing in this definition depends on a heap, on map iteration or on how a sort breaks ties. */
  ghost function Expected(candidates: seq<Candidate>, builtins: seq<Pack>, extensions: seq<Pack>): seq<Decision> {
    var ordered := Sort(CandidateLess, candidates);
    Decisions(Setup(ordered, Cyclic(ConflictGraph(ordered)), builtins, extensions))
  }

  // ---------------------------------------------------------------- entries are told apart

  predicate NewIdentities(builtins: seq<Pack>, extensions: seq<Pack>) {
    forall i, j :: 0 <= i < |builtins| && 0 <= j < |extensions| ==> Key(builtins[i]) != Key(extensions[j])
  }

  ghost predicate ValidSetup(setup: Setup, vocabulary: Rule -> bool) {
    DistinctPacks(setup.builtins + setup.extensions, vocabulary)
  }

  lemma {:induction false} TogetherDistinct(builtins: seq<Pack>, extensions: seq<Pack>, vocabulary: Rule -> bool)
    requires DistinctPacks(builtins, vocabulary) && DistinctPacks(extensions, vocabulary)
    requires NewIdentities(builtins, extensions)
    ensures DistinctPacks(builtins + extensions, vocabulary)
  {
    var packs := builtins + extensions;
    forall i, j | 0 <= i < j < |packs| ensures DifferentPacks(packs[i], packs[j]) {
      if j < |builtins| {
        assert DifferentPacks(builtins[i], builtins[j]);
      } else if i >= |builtins| {
        assert DifferentPacks(extensions[i - |builtins|], extensions[j - |builtins|]);
      } else {
        assert Key(builtins[i]) != Key(extensions[j - |builtins|]);
      }
    }
  }

  lemma {:induction false} EntryCandidate(setup: Setup, entry: Ranked) returns (m: Match)
    requires entry in AllEntries(setup)
    ensures 0 <= entry.candidateOrder < |setup.ordered|
    ensures m in CandidateMatches(setup, entry.candidateOrder)
    ensures entry == EntryFor(setup.ordered[entry.candidateOrder], entry.candidateOrder, setup.cyclic, m)
  {
    var i := ConcatMember(EntriesAt(setup), |setup.ordered|, entry);
    m := FlattenMember(EntryOf(setup.ordered[i], i, setup.cyclic), CandidateMatches(setup, i), entry);
  }

  lemma {:induction false} MatchInAll(setup: Setup, i: nat, m: Match)
    requires i < |setup.ordered| && m in CandidateMatches(setup, i)
    ensures var facts := NormalizedFacts(setup.ordered[i], Conflicted(setup.ordered, setup.ordered[i].id));
      m in Flatten(PackMatches(facts), setup.builtins + setup.extensions)
  {
    var facts := NormalizedFacts(setup.ordered[i], Conflicted(setup.ordered, setup.ordered[i].id));
    FlattenAppend(PackMatches(facts), setup.builtins, setup.extensions);
    InSorted(MatchLess, Flatten(PackMatches(facts), setup.builtins), m);
    InSorted(MatchLess, Flatten(PackMatches(facts), setup.extensions), m);
  }

  lemma {:induction false} InSorted<T(!new)>(less: (T, T) -> bool, s: seq<T>, x: T)
    ensures x in Sort(less, s) <==> x in s
  {
    SortPermutes(less, s);
    assert x in multiset(s) <==> x in s;
    assert x in multiset(Sort(less, s)) <==> x in Sort(less, s);
  }

  /** The candidate, the pack and the rule determine the entry. */
  lemma {:induction false} SameEntry(setup: Setup, vocabulary: Rule -> bool, a: Ranked, b: Ranked)
    requires ValidSetup(setup, vocabulary) && a in AllEntries(setup) && b in AllEntries(setup)
    requires a.candidateOrder == b.candidateOrder
    requires a.decision.packId == b.decision.packId && a.decision.ruleId == b.decision.ruleId
    ensures a == b
  {
    var i := a.candidateOrder;
    var m := EntryCandidate(setup, a);
    var m' := EntryCandidate(setup, b);
    MatchInAll(setup, i, m);
    MatchInAll(setup, i, m');
    var facts := NormalizedFacts(setup.ordered[i], Conflicted(setup.ordered, setup.ordered[i].id));
    SameMatch(setup.builtins + setup.extensions, vocabulary, facts, m, m');
  }

  lemma {:induction false} EntryTies(setup: Setup, vocabulary: Rule -> bool)
    requires ValidSetup(setup, vocabulary)
    ensures TiesEqual(BetterDecision, multiset(AllEntries(setup)))
  {
    var all := AllEntries(setup);
    forall a, b | a in multiset(all) && b in multiset(all)
      ensures a == b || BetterDecision(a, b) || BetterDecision(b, a)
    {
      if a.candidateOrder == b.candidateOrder && a.decision.packId == b.decision.packId
         && a.decision.ruleId == b.decision.ruleId {
        SameEntry(setup, vocabulary, a, b);
      } else {
        EntriesDecided(a, b);
      }
    }
  }

  lemma {:induction false} EntriesDecided(a: Ranked, b: Ranked)
    requires a.candidateOrder != b.candidateOrder || a.decision.packId != b.decision.packId
             || a.decision.ruleId != b.decision.ruleId
    ensures BetterDecision(a, b) || BetterDecision(b, a)
  {
    StringLessTrichotomy(a.decision.packId, b.decision.packId);
    StringLessTrichotomy(a.decision.ruleId, b.decision.ruleId);
  }

  // ---------------------------------------------------------------- decisions are told apart

  /** With unique source references, two decisions for the same source come from the same candidate. */
  lemma {:induction false} SameDecision(setup: Setup, vocabulary: Rule -> bool, a: Ranked, b: Ranked)
    requires ValidSetup(setup, vocabulary) && Pairwise(DifferentSources, setup.ordered)
    requires a in AllEntries(setup) && b in AllEntries(setup)
    requires a.decision.sourceRef == b.decision.sourceRef
    requires a.decision.packId == b.decision.packId && a.decision.ruleId == b.decision.ruleId
    ensures a == b
  {
    var m := EntryCandidate(setup, a);
    var m' := EntryCandidate(setup, b);
    SameSource(setup.ordered, a.candidateOrder, b.candidateOrder);
    SameEntry(setup, vocabulary, a, b);
  }

  lemma {:induction false} SameSource(candidates: seq<Candidate>, i: nat, j: nat)
    requires i < |candidates| && j < |candidates| && Pairwise(DifferentSources, candidates)
    ensures i == j || candidates[i].sourceRef != candidates[j].sourceRef
  {
    if i < j {
      assert DifferentSources(candidates[i], candidates[j]);
    } else if j < i {
      assert DifferentSources(candidates[j], candidates[i]);
    }
  }

  lemma {:induction false} BestEntry(setup: Setup, d: Decision) returns (entry: Ranked)
    requires d in Flatten(OnlyDecision(), Best(setup))
    ensures entry in AllEntries(setup) && entry.decision == d
  {
    entry := FlattenMember(OnlyDecision(), Best(setup), d);
    InSorted(BetterDecision, AllEntries(setup), entry);
  }

  lemma {:induction false} DecisionTies(setup: Setup, vocabulary: Rule -> bool)
    requires ValidSetup(setup, vocabulary) && Pairwise(DifferentSources, setup.ordered)
    ensures TiesEqual(DecisionLess, multiset(Flatten(OnlyDecision(), Best(setup))))
  {
    var all := Flatten(OnlyDecision(), Best(setup));
    forall a, b | a in multiset(all) && b in multiset(all) ensures a == b || DecisionLess(a, b) || DecisionLess(b, a) {
      if a.packId == b.packId && a.ruleId == b.ruleId && a.sourceRef == b.sourceRef {
        var x := BestEntry(setup, a);
        var y := BestEntry(setup, b);
        SameDecision(setup, vocabulary, x, y);
      } else {
        DecisionsDecided(a, b);
      }
    }
  }

  lemma {:induction false} DecisionsDecided(a: Decision, b: Decision)
    requires a.packId != b.packId || a.ruleId != b.ruleId || a.sourceRef != b.sourceRef
    ensures DecisionLess(a, b) || DecisionLess(b, a)
  {
    StringLessTrichotomy(a.packId, b.packId);
    StringLessTrichotomy(a.ruleId, b.ruleId);
    StringLessTrichotomy(a.sourceRef, b.sourceRef);
  }

  // ---------------------------------------------------------------- entries and their causes

  lemma {:induction false} SameMembers<T>(a: seq<T>, b: seq<T>)
    requires multiset(a) == multiset(b)
    ensures forall x :: x in a <==> x in b
  {
    forall x ensures x in a <==> x in b {
      assert x in multiset(a) <==> x in multiset(b);
    }
  }

  lemma {:induction false} ConflictSeen(candidates: seq<Candidate>, ordered: seq<Candidate>, id: string)
    requires multiset(candidates) == multiset(ordered)
    ensures Conflicted(ordered, id) <==> InConflict(candidates, id)
  {
    SameMembers(candidates, ordered);
    if Conflicted(ordered, id) {
      var i :| 0 <= i < |ordered| && Involves(ordered[i], id);
      assert ordered[i] in candidates;
    }
    if InConflict(candidates, id) {
      var c :| c in candidates && (id in c.conflicts || (c.id == id && c.conflicts != []));
      var i :| 0 <= i < |ordered| && ordered[i] == c;
      assert Involves(ordered[i], id);
    }
  }

  lemma {:induction false} FactSeen(candidates: seq<Candidate>, ordered: seq<Candidate>, c: Candidate, name: string)
    requires multiset(candidates) == multiset(ordered)
    ensures var facts := NormalizedFacts(c, Conflicted(ordered, c.id));
            FactOf(candidates, c, name) == if name in facts then Some(facts[name]) else None
  {
    ConflictSeen(candidates, ordered, c.id);
  }

  lemma {:induction false} ConditionSeen(condition: Condition, facts: map<string, string>)
    ensures Holds(condition, facts) <==>
              Satisfied(condition, if condition.field in facts then Some(facts[condition.field]) else None)
  {}

  lemma {:induction false} AppliesSeen(candidates: seq<Candidate>, ordered: seq<Candidate>, c: Candidate, rule: Rule)
    requires multiset(candidates) == multiset(ordered)
    ensures MatchesAll(rule.conditions, NormalizedFacts(c, Conflicted(ordered, c.id))) <==>
              Applies(candidates, c, rule)
  {
    var facts := NormalizedFacts(c, Conflicted(ordered, c.id));
    forall condition | condition in rule.conditions
      ensures Holds(condition, facts) <==> Satisfied(condition, FactOf(candidates, c, condition.field))
    {
      FactSeen(candidates, ordered, c, condition.field);
      ConditionSeen(condition, facts);
    }
    if Applies(candidates, c, rule) {
      forall i | 0 <= i < |rule.conditions| ensures Holds(rule.conditions[i], facts) {
        assert rule.conditions[i] in rule.conditions;
      }
    }
  }

  lemma {:induction false} EntrySays(c: Candidate, order: int, cyclic: bool, pack: Pack, m: Match)
    requires m == Match(pack.id, pack.version, m.rule)
    ensures var entry := EntryFor(c, order, cyclic, m);
            && Gives(c, pack, m.rule, cyclic, entry.decision)
            && entry.authority == Authority(c.sourceKind) && entry.candidateOrder == order
  {
    StringOrder();
    SortPermutes(StringLess, c.conflicts);
    SortSorted(StringLess, c.conflicts);
  }

  /** The candidate, the pack and the rule that an entry stems from. */
  lemma {:induction false} EntryCause(candidates: seq<Candidate>, setup: Setup, entry: Ranked) returns (cause: Cause)
    requires multiset(candidates) == multiset(setup.ordered) && entry in AllEntries(setup)
    ensures IsCause(candidates, setup.builtins + setup.extensions, cause)
    ensures Decides(setup.cyclic, cause, entry.decision)
    ensures entry.authority == Authority(cause.candidate.sourceKind)
  {
    var i := entry.candidateOrder;
    var m := EntryCandidate(setup, entry);
    var c := setup.ordered[i];
    var facts := NormalizedFacts(c, Conflicted(setup.ordered, c.id));
    MatchInAll(setup, i, m);
    var pack := FlattenMember(PackMatches(facts), setup.builtins + setup.extensions, m);
    MatchedRule(pack, pack.rules, facts, m);
    AppliesSeen(candidates, setup.ordered, c, m.rule);
    EntrySays(c, i, setup.cyclic, pack, m);
    SameMembers(candidates, setup.ordered);
    cause := Cause(c, pack, m.rule);
  }

  lemma {:induction false} PackInMatches(packs: seq<Pack>, facts: map<string, string>, pack: Pack, rule: Rule)
    requires pack in packs && rule in pack.rules && MatchesAll(rule.conditions, facts)
    ensures Match(pack.id, pack.version, rule) in Matches(packs, facts)
  {
    var m := Match(pack.id, pack.version, rule);
    RuleMatches(pack, pack.rules, facts, rule);
    FlattenContains(PackMatches(facts), packs, pack, m);
    InSorted(MatchLess, Flatten(PackMatches(facts), packs), m);
  }

  lemma {:induction false} MatchCompetes(setup: Setup, i: nat, m: Match)
    requires i < |setup.ordered| && m in CandidateMatches(setup, i)
    ensures EntryFor(setup.ordered[i], i, setup.cyclic, m) in AllEntries(setup)
  {
    var c := setup.ordered[i];
    var entry := EntryFor(c, i, setup.cyclic, m);
    FlattenContains(EntryOf(c, i, setup.cyclic), CandidateMatches(setup, i), m, entry);
    ConcatContains(EntriesAt(setup), |setup.ordered|, i, entry);
  }

  /** Whatever has a cause competes. */
  lemma {:induction false} CauseEntry(candidates: seq<Candidate>, setup: Setup, cause: Cause) returns (entry: Ranked)
    requires multiset(candidates) == multiset(setup.ordered)
    requires IsCause(candidates, setup.builtins + setup.extensions, cause)
    ensures entry in AllEntries(setup) && Decides(setup.cyclic, cause, entry.decision)
    ensures entry.authority == Authority(cause.candidate.sourceKind)
  {
    var c, pack, rule := cause.candidate, cause.pack, cause.rule;
    SameMembers(candidates, setup.ordered);
    var i :| 0 <= i < |setup.ordered| && setup.ordered[i] == c;
    var facts := NormalizedFacts(c, Conflicted(setup.ordered, c.id));
    var m := Match(pack.id, pack.version, rule);
    AppliesSeen(candidates, setup.ordered, c, rule);
    if pack in setup.builtins {
      PackInMatches(setup.builtins, facts, pack, rule);
    } else {
      PackInMatches(setup.extensions, facts, pack, rule);
    }
    MatchCompetes(setup, i, m);
    entry := EntryFor(c, i, setup.cyclic, m);
    EntrySays(c, i, setup.cyclic, pack, m);
  }

  // ---------------------------------------------------------------- conflict cycles and conflict circles

  lemma {:induction false} GraphEntry(ordered: seq<Candidate>, id: string)
    ensures id in ConflictGraph(ordered) <==> exists i: nat :: SpeaksFor(ordered, i, id)
    ensures forall i: nat :: SpeaksFor(ordered, i, id) ==>
              id in ConflictGraph(ordered) && ConflictGraph(ordered)[id] == Sort(StringLess, ordered[i].conflicts)
    decreases |ordered|
  {
    if ordered != [] {
      var n := |ordered| - 1;
      var init := ordered[..n];
      GraphEntry(init, id);
      if ordered[n].id == id {
        assert SpeaksFor(ordered, n, id);
      } else {
        forall i: nat ensures SpeaksFor(ordered, i, id) <==> SpeaksFor(init, i, id) {
          SpeakerInFront(ordered, i, id);
        }
      }
    }
  }

  lemma {:induction false} SpeakerInFront(ordered: seq<Candidate>, i: nat, id: string)
    requires ordered != [] && ordered[|ordered| - 1].id != id
    ensures SpeaksFor(ordered, i, id) <==> SpeaksFor(ordered[..|ordered| - 1], i, id)
  {
    var init := ordered[..|ordered| - 1];
    if SpeaksFor(init, i, id) {
      forall j | i < j < |ordered| ensures ordered[j].id != id {
        assert j < |init| ==> init[j] == ordered[j];
      }
    }
  }

  /** Somebody speaks for every identifier that occurs. */
  lemma {:induction false} Speaker(ordered: seq<Candidate>, i: nat) returns (j: nat)
    requires i < |ordered|
    ensures SpeaksFor(ordered, j, ordered[i].id)
    decreases |ordered| - i
  {
    if k :| i < k < |ordered| && ordered[k].id == ordered[i].id {
      j := Speaker(ordered, k);
    } else {
      j := i;
    }
  }

  lemma {:induction false} EdgeSeen(ordered: seq<Candidate>, a: string, b: string)
    ensures Edge(ConflictGraph(ordered), a, b) <==> Names(ordered, a, b)
  {
    GraphEntry(ordered, a);
    GraphEntry(ordered, b);
    forall i: nat | SpeaksFor(ordered, i, a)
      ensures b in Sort(StringLess, ordered[i].conflicts) <==> b in ordered[i].conflicts
    {
      InSorted(StringLess, ordered[i].conflicts, b);
    }
    if j :| 0 <= j < |ordered| && ordered[j].id == b {
      var k := Speaker(ordered, j);
    }
  }

  lemma {:induction false} CircleSeen(ordered: seq<Candidate>)
    ensures Cyclic(ConflictGraph(ordered)) <==> CircularConflict(ordered)
  {
    var graph := ConflictGraph(ordered);
    forall ids ensures ClosedWalk(graph, ids) <==>
                         |ids| >= 2 && ids[0] == ids[|ids| - 1] && ChainOfConflicts(ordered, ids)
    {
      forall i: nat ensures Follows(graph, ids, i) <==> NamesNext(ordered, ids, i) {
        if i + 1 < |ids| {
          EdgeSeen(ordered, ids[i], ids[i + 1]);
        }
      }
    }
  }

  // ---------------------------------------------------------------- decisions and their causes

  /** What the evaluation of these candidates promises about its decisions. */
  ghost predicate Warranted(candidates: seq<Candidate>, packs: seq<Pack>, decisions: seq<Decision>) {
    var circular := CircularConflict(Sort(CandidateLess, candidates));
    AllCaused(candidates, packs, circular, decisions) && AllDecided(candidates, packs, circular, decisions)
  }

  /** A better entry has a cause of at least the same rank. */
  lemma {:induction false} BetterOutranks(circular: bool, a: Ranked, b: Ranked, p: Cause, q: Cause)
    requires Decides(circular, p, a.decision) && a.authority == Authority(p.candidate.sourceKind)
    requires Decides(circular, q, b.decision) && b.authority == Authority(q.candidate.sourceKind)
    requires !BetterDecision(b, a)
    ensures Outranks(circular, p, q)
  {}

  lemma {:induction false} BestCaused(candidates: seq<Candidate>, setup: Setup)
    requires multiset(candidates) == multiset(setup.ordered)
    ensures AllCaused(candidates, setup.builtins + setup.extensions, setup.cyclic, Decisions(setup))
  {
    forall d | d in Decisions(setup)
      ensures exists cause :: IsCause(candidates, setup.builtins + setup.extensions, cause)
                && Decides(setup.cyclic, cause, d)
    {
      InSorted(DecisionLess, Flatten(OnlyDecision(), Best(setup)), d);
      var entry := BestEntry(setup, d);
      var cause := EntryCause(candidates, setup, entry);
    }
  }

  lemma {:induction false} DecisionCount(entries: seq<Ranked>)
    ensures |Flatten(OnlyDecision(), entries)| == |entries|
    decreases |entries|
  {
    if entries != [] {
      DecisionCount(entries[..|entries| - 1]);
    }
  }

  /** An entry that is not among the best has 256 others before it, none of them worse. */
  lemma {:induction false} LeftOut(setup: Setup, entry: Ranked)
    requires entry in AllEntries(setup) && entry !in Best(setup)
    ensures |Best(setup)| == 256
    ensures forall kept :: kept in Best(setup) ==> !BetterDecision(entry, kept)
  {
    var sorted := Sort(BetterDecision, AllEntries(setup));
    InSorted(BetterDecision, AllEntries(setup), entry);
    BetterOrder();
    SortSorted(BetterDecision, AllEntries(setup));
    var j :| 0 <= j < |sorted| && sorted[j] == entry;
    assert sorted[..|sorted|] == sorted;
    assert j >= MAX_DECISIONS;
    forall kept | kept in Best(setup) ensures !BetterDecision(entry, kept) {
      var i :| 0 <= i < MAX_DECISIONS && sorted[i] == kept;
    }
  }

  lemma {:induction false} CauseDecided(candidates: seq<Candidate>, setup: Setup, cause: Cause)
    requires multiset(candidates) == multiset(setup.ordered)
    requires IsCause(candidates, setup.builtins + setup.extensions, cause)
    ensures var decisions := Decisions(setup);
            || (exists d :: d in decisions && Decides(setup.cyclic, cause, d))
            || (|decisions| == 256
                && forall d :: d in decisions ==>
                     NotOutranked(candidates, setup.builtins + setup.extensions, setup.cyclic, cause, d))
  {
    var entry := CauseEntry(candidates, setup, cause);
    var unsorted := Flatten(OnlyDecision(), Best(setup));
    if entry in Best(setup) {
      FlattenContains(OnlyDecision(), Best(setup), entry, entry.decision);
      InSorted(DecisionLess, unsorted, entry.decision);
    } else {
      LeftOut(setup, entry);
      DecisionCount(Best(setup));
      SortPermutes(DecisionLess, unsorted);
      forall d | d in Decisions(setup)
        ensures NotOutranked(candidates, setup.builtins + setup.extensions, setup.cyclic, cause, d)
      {
        InSorted(DecisionLess, unsorted, d);
        var kept := FlattenMember(OnlyDecision(), Best(setup), d);
        InSorted(BetterDecision, AllEntries(setup), kept);
        var other := EntryCause(candidates, setup, kept);
        BetterOutranks(setup.cyclic, kept, entry, other, cause);
      }
    }
  }

  /** The result is what the candidates and the packs warrant, in whatever order it lists ties. */
  lemma {:induction false} ResultWarranted(candidates: seq<Candidate>, setup: Setup, decisions: seq<Decision>)
    requires setup.ordered == Sort(CandidateLess, candidates) && setup.cyclic == Cyclic(ConflictGraph(setup.ordered))
    requires multiset(decisions) == multiset(Decisions(setup))
    ensures Warranted(candidates, setup.builtins + setup.extensions, decisions)
  {
    SortPermutes(CandidateLess, candidates);
    CircleSeen(setup.ordered);
    BestCaused(candidates, setup);
    SameMembers(decisions, Decisions(setup));
    SameLength(decisions, Decisions(setup));
    forall cause | IsCause(candidates, setup.builtins + setup.extensions, cause)
      ensures (exists d :: d in decisions && Decides(setup.cyclic, cause, d))
        || (|decisions| == 256
            && forall d :: d in decisions ==>
                 NotOutranked(candidates, setup.builtins + setup.extensions, setup.cyclic, cause, d))
    {
      CauseDecided(candidates, setup, cause);
    }
  }

  // ---------------------------------------------------------------- the evaluation

  /** Whatever order the heap leaves its entries in, their decisions are those of the best entries. */
  lemma {:induction false} KeptDecisions(setup: Setup, vocabulary: Rule -> bool, kept: seq<Ranked>)
    requires ValidSetup(setup, vocabulary)
    requires KeptBest(BetterDecision, MAX_DECISIONS, multiset(kept), multiset(AllEntries(setup)))
    ensures multiset(Flatten(OnlyDecision(), kept)) == multiset(Flatten(OnlyDecision(), Best(setup)))
  {
    BetterOrder();
    EntryTies(setup, vocabulary);
    KeptIsFrontOfSort(BetterDecision, MAX_DECISIONS, multiset(kept), AllEntries(setup));
    SortPermutes(BetterDecision, AllEntries(setup));
    assert |multiset(AllEntries(setup))| == |AllEntries(setup)|;
    FlattenPermuted(OnlyDecision(), kept, Best(setup));
  }

  /** Offers the decision for every match of one candidate to the heap. */
  method SelectMatches(selected: Heap<Ranked>, candidate: Candidate, order: int, cyclic: bool, matches: seq<Match>)
    requires selected.Valid() && selected.better == BetterDecision
    modifies selected
    ensures selected.Valid()
    ensures selected.offered == old(selected.offered) + Flatten(EntryOf(candidate, order, cyclic), matches)
  {
    ghost var entries := EntryOf(candidate, order, cyclic);
    for j := 0 to |matches|
      invariant selected.Valid()
      invariant selected.offered == old(selected.offered) + Flatten(entries, matches[..j])
    {
      AppendNext(old(selected.offered), entries, matches, j);
      var entry := MakeEntry(candidate, order, cyclic, matches[j]);
      selected.Select(entry);
    }
    assert matches[..|matches|] == matches;
  }

  method MakeEntry(candidate: Candidate, order: int, cyclic: bool, m: Match) returns (entry: Ranked)
    ensures entry == EntryFor(candidate, order, cyclic, m)
  {
    var conflicts := SortStrings(candidate.conflicts);
    var outcome := m.rule.outcome;
    if cyclic && m.rule.riskScore >= 50 {
      outcome := "block";
    }
    var decision := Decision(m.rule.category, outcome, m.rule.riskScore, RiskLevel(m.rule.riskScore),
                             candidate.confidence, candidate.sourceRef, m.packId, m.rule.id, m.packVersion,
                             m.rule.explanation, conflicts);
    entry := Ranked(decision, Authority(candidate.sourceKind), order);
  }

  /** Evaluates both sets of packs on one candidate and offers what matches. */
  method SelectCandidate(selected: Heap<Ranked>, setup: Setup, i: nat, conflicted: set<string>,
                         vocabulary: Rule -> bool)
    requires i < |setup.ordered|
    requires ValidSet(setup.builtins, vocabulary) && ValidSet(setup.extensions, vocabulary)
    requires forall id :: id in conflicted <==> Conflicted(setup.ordered, id)
    requires selected.Valid() && selected.better == BetterDecision
    modifies selected
    ensures selected.Valid() && selected.offered == old(selected.offered) + EntriesAt(setup)(i)
  {
    var candidate := setup.ordered[i];
    var facts := NormalizedFacts(candidate, candidate.id in conflicted);
    var matches := Evaluate(setup.builtins, facts, vocabulary);
    var extensionMatches := Evaluate(setup.extensions, facts, vocabulary);
    SelectMatches(selected, candidate, i, setup.cyclic, matches.value + extensionMatches.value);
  }

  /** The kept decisions by pack, rule and source, which is one sequence only if sources are unique. */
  method SortDecisions(ghost setup: Setup, vocabulary: Rule -> bool,
                       kept: seq<Ranked>) returns (decisions: seq<Decision>)
    requires ValidSetup(setup, vocabulary)
    requires KeptBest(BetterDecision, MAX_DECISIONS, multiset(kept), multiset(AllEntries(setup)))
    ensures multiset(decisions) == multiset(Decisions(setup)) && Sorted(DecisionLess, decisions)
    ensures Pairwise(DifferentSources, setup.ordered) ==> decisions == Decisions(setup)
  {
    decisions := [];
    for i := 0 to |kept|
      invariant decisions == Flatten(OnlyDecision(), kept[..i])
    {
      assert kept[..i + 1][..i] == kept[..i];
      decisions := decisions + [kept[i].decision];
    }
    assert kept[..|kept|] == kept;
    KeptDecisions(setup, vocabulary, kept);
    DecisionOrder();
    decisions := SortSlice(DecisionLess, decisions);
    SortPermutes(DecisionLess, Flatten(OnlyDecision(), Best(setup)));
    if Pairwise(DifferentSources, setup.ordered) {
      DecisionTies(setup, vocabulary);
      SortIsUnique(DecisionLess, Flatten(OnlyDecision(), Best(setup)), decisions);
    }
  }

  method EvaluateContext(candidates: seq<Candidate>, builtins: seq<Pack>, extensions: seq<Pack>,
                         vocabulary: Rule -> bool)
    returns (result: Result<seq<Decision>, PolicyError>)
    requires ValidSet(builtins, vocabulary)
    ensures result.Ok? <==> ValidExtensions(extensions, vocabulary) && NewIdentities(builtins, extensions)
    ensures result.Ok? ==> Warranted(candidates, builtins + extensions, result.value)
    ensures result.Ok? ==> Sorted(DecisionLess, result.value)
    ensures result.Ok? ==> multiset(result.value) == multiset(Expected(candidates, builtins, extensions))
    ensures result.Ok? && Pairwise(DifferentSources, candidates)
      ==> result.value == Expected(candidates, builtins, extensions)
  {
    var valid := ValidateExtensions(extensions, vocabulary);
    if !valid || !NewIdentities(builtins, extensions) {
      return Err(InvalidSchema);
    }
    TogetherDistinct(builtins, extensions, vocabulary);
    var ordered, conflicted, cycle := Resolve(candidates);
    var setup := Setup(ordered, |cycle| > 0, builtins, extensions);
    BetterOrder();
    var selected := new Heap(BetterDecision, MAX_DECISIONS);
    for i := 0 to |ordered|
      invariant selected.Valid() && selected.better == BetterDecision && selected.limit == MAX_DECISIONS
      invariant selected.offered == Concat(EntriesAt(setup), i)
    {
      SelectCandidate(selected, setup, i, conflicted, vocabulary);
    }
    var decisions := SortDecisions(setup, vocabulary, selected.items);
    SortedSources(candidates, ordered);
    ResultWarranted(candidates, setup, decisions);
    result := Ok(decisions);
  }

  lemma {:induction false} SortedSources(candidates: seq<Candidate>, ordered: seq<Candidate>)
    requires ordered == Sort(CandidateLess, candidates)
    ensures Pairwise(DifferentSources, candidates) ==> Pairwise(DifferentSources, ordered)
  {
    SortPermutes(CandidateLess, candidates);
    if Pairwise(DifferentSources, candidates) {
      PairwisePermuted(DifferentSources, candidates, ordered);
    }
  }

  /** Permuting the candidates or the extension packs changes neither acceptance nor the decisions. */
  lemma {:induction false} OrderIrrelevant(a: seq<Candidate>, b: seq<Candidate>, builtins: seq<Pack>, p: seq<Pack>,
                                           q: seq<Pack>, vocabulary: Rule -> bool)
    requires multiset(a) == multiset(b) && multiset(p) == multiset(q)
    requires Pairwise(DifferentIds, a) && Pairwise(DifferentSources, a)
    requires ValidExtensions(p, vocabulary) && NewIdentities(builtins, p)
    ensures ValidExtensions(q, vocabulary) && NewIdentities(builtins, q)
    ensures Pairwise(DifferentIds, b) && Pairwise(DifferentSources, b)
    ensures Expected(a, builtins, p) == Expected(b, builtins, q)
  {
    PairwisePermuted(DifferentIds, a, b);
    PairwisePermuted(DifferentSources, a, b);
    CandidateOrder();
    CandidateTies(a);
    SortForgetsOrder(CandidateLess, a, b);
    SameExtensions(builtins, p, q, vocabulary);
    var ordered := Sort(CandidateLess, a);
    SameEntries(Setup(ordered, Cyclic(ConflictGraph(ordered)), builtins, p), q, vocabulary);
  }

  lemma {:induction false} SameExtensions(builtins: seq<Pack>, p: seq<Pack>, q: seq<Pack>, vocabulary: Rule -> bool)
    requires multiset(p) == multiset(q) && ValidExtensions(p, vocabulary) && NewIdentities(builtins, p)
    ensures ValidExtensions(q, vocabulary) && NewIdentities(builtins, q)
  {
    PackOrderIrrelevant(p, q, vocabulary, map[]);
    forall i, j | 0 <= i < |builtins| && 0 <= j < |q| ensures Key(builtins[i]) != Key(q[j]) {
      var k := IndexIn(q[j], q, p);
    }
    forall pack, rule | pack in q && rule in pack.rules ensures rule.outcome != "continue" {
      var k := IndexIn(pack, q, p);
    }
  }

  /** The same evaluation with its extension packs listed in another order. */
  function Rearranged(setup: Setup, extensions: seq<Pack>): Setup {
    setup.(extensions := extensions)
  }

  lemma {:induction false} SameEntries(setup: Setup, extensions: seq<Pack>, vocabulary: Rule -> bool)
    requires multiset(setup.extensions) == multiset(extensions) && ValidSet(setup.extensions, vocabulary)
    ensures AllEntries(setup) == AllEntries(Rearranged(setup, extensions))
  {
    forall i: nat | i < |setup.ordered| ensures EntriesAt(setup)(i) == EntriesAt(Rearranged(setup, extensions))(i) {
      var facts := NormalizedFacts(setup.ordered[i], Conflicted(setup.ordered, setup.ordered[i].id));
      PackOrderIrrelevant(setup.extensions, extensions, vocabulary, facts);
    }
    ConcatSame(EntriesAt(setup), EntriesAt(Rearranged(setup, extensions)), |setup.ordered|);
  }
}
