/** The decisions that policy packs make about discovered candidates. */
module BoundaryEngine {
  import opened Ordering
  import opened ConflictCycle

  const MAX_DECISIONS := 256

  datatype Candidate = Candidate(
    id: string,
    category: string,
    sourceKind: string,
    sourceRef: string,
    confidence: real,
    specificity: int,
    facts: map<string, string>,
    conflicts: seq<string>
  )

  datatype Decision = Decision(
    category: string,
    outcome: string,
    risk: int,
    riskLevel: string,
    confidence: real,
    sourceRef: string,
    packId: string,
    ruleId: string,
    version: string,
    explanation: string,
    conflictRefs: seq<string>
  )

  datatype Ranked = Ranked(decision: Decision, authority: int, candidateOrder: int)

  // ---------------------------------------------------------------- resolving candidates

  function Authority(source: string): int {
    if source == "host_permission" then 6
    else if source == "configuration" then 5
    else if source == "instruction" then 4
    else if source == "user_request" then 3
    else if source == "repository_metadata" then 2
    else 1
  }

  predicate ById(a: Candidate, b: Candidate) {
    if a.id != b.id then StringLess(a.id, b.id) else false
  }

  predicate ByConfidence(a: Candidate, b: Candidate) {
    if a.confidence != b.confidence then a.confidence > b.confidence else ById(a, b)
  }

  predicate BySpecificity(a: Candidate, b: Candidate) {
    if a.specificity != b.specificity then a.specificity > b.specificity else ByConfidence(a, b)
  }

  predicate CandidateLess(a: Candidate, b: Candidate) {
    if Authority(a.sourceKind) != Authority(b.sourceKind) then Authority(a.sourceKind) > Authority(b.sourceKind)
    else BySpecificity(a, b)
  }

  lemma {:induction false} CandidateOrder()
    ensures Ordered(CandidateLess)
  {
    StringOrder();
    ThenBy((c: Candidate) => c.id, StringLess, (a: Candidate, b: Candidate) => false, ById);
    ThenBy((c: Candidate) => c.confidence, (x: real, y: real) => x > y, ById, ByConfidence);
    ThenBy((c: Candidate) => c.specificity, (x: int, y: int) => x > y, ByConfidence, BySpecificity);
    ThenBy((c: Candidate) => Authority(c.sourceKind), (x: int, y: int) => x > y, BySpecificity, CandidateLess);
  }

  /** The resolved order: by authority, then specificity, then confidence, each falling, then by identifier. */
  lemma {:induction false} ResolvedOrder(candidates: seq<Candidate>, i: nat, j: nat)
    requires i < j < |candidates|
    ensures var ordered := Sort(CandidateLess, candidates);
            && |ordered| == |candidates|
            && var a := ordered[i]; var b := ordered[j];
               || Authority(a.sourceKind) > Authority(b.sourceKind)
               || (&& Authority(a.sourceKind) == Authority(b.sourceKind)
                   && (|| a.specificity > b.specificity
                       || (&& a.specificity == b.specificity
                           && (|| a.confidence > b.confidence
                               || (a.confidence == b.confidence && (a.id == b.id || StringLess(a.id, b.id)))))))
  {
    SortPermutes(CandidateLess, candidates);
    CandidateOrder();
    SortSorted(CandidateLess, candidates);
    var ordered := Sort(CandidateLess, candidates);
    assert !CandidateLess(ordered[j], ordered[i]);
    StringLessTrichotomy(ordered[i].id, ordered[j].id);
  }

  predicate DifferentIds(a: Candidate, b: Candidate) {
    a.id != b.id
  }

  predicate DifferentSources(a: Candidate, b: Candidate) {
    a.sourceRef != b.sourceRef
  }

  lemma {:induction false} CandidateTies(candidates: seq<Candidate>)
    requires Pairwise(DifferentIds, candidates)
    ensures TiesEqual(CandidateLess, multiset(candidates))
  {
    forall a, b | a in multiset(candidates) && b in multiset(candidates)
      ensures a == b || CandidateLess(a, b) || CandidateLess(b, a)
    {
      if a.id == b.id {
        var i :| 0 <= i < |candidates| && candidates[i] == a;
        var j :| 0 <= j < |candidates| && candidates[j] == b;
      } else {
        CandidatesDecided(a, b);
      }
    }
  }

  lemma {:induction false} CandidatesDecided(a: Candidate, b: Candidate)
    requires a.id != b.id
    ensures CandidateLess(a, b) || CandidateLess(b, a)
  {
    StringLessTrichotomy(a.id, b.id);
  }

  /** Later candidates with the same identifier replace earlier ones. */
  function ConflictGraph(ordered: seq<Candidate>): Graph<string> {
    if ordered == [] then map[]
    else
      var last := ordered[|ordered| - 1];
      ConflictGraph(ordered[..|ordered| - 1])[last.id := Sort(StringLess, last.conflicts)]
  }

  /** A candidate is conflicted if it names a conflict or is named by one. */
  predicate Conflicted(candidates: seq<Candidate>, id: string) {
    exists i :: 0 <= i < |candidates| && Involves(candidates[i], id)
  }

  predicate Involves(candidate: Candidate, id: string) {
    (candidate.id == id && candidate.conflicts != []) || id in candidate.conflicts
  }

  method SortStrings(s: seq<string>) returns (sorted: seq<string>)
    ensures sorted == Sort(StringLess, s)
  {
    StringOrder();
    sorted := SortSlice(StringLess, s);
    SortIsUnique(StringLess, s, sorted);
  }

  method Resolve(candidates: seq<Candidate>)
    returns (ordered: seq<Candidate>, conflicted: set<string>, cycle: seq<string>)
    ensures ordered == Sort(CandidateLess, candidates)
    ensures forall id :: id in conflicted <==> Conflicted(ordered, id)
    ensures cycle != [] <==> Cyclic(ConflictGraph(ordered))
    ensures cycle != [] ==> SimpleCycle(ConflictGraph(ordered), cycle)
  {
    ordered := Sort(CandidateLess, candidates);
    var graph: Graph<string> := map[];
    conflicted := {};
    for i := 0 to |ordered|
      invariant graph == ConflictGraph(ordered[..i])
      invariant forall id :: id in conflicted <==> Conflicted(ordered[..i], id)
    {
      var candidate := ordered[i];
      assert ordered[..i + 1][..i] == ordered[..i];
      var refs := SortStrings(candidate.conflicts);
      SortedStrings(candidate.conflicts, refs);
      graph := graph[candidate.id := refs];
      ghost var before := conflicted;
      if |refs| > 0 {
        conflicted := conflicted + {candidate.id};
      }
      conflicted := conflicted + set ref | ref in refs;
      forall id ensures id in conflicted <==> Conflicted(ordered[..i + 1], id) {
        ConflictedNext(ordered, i, id);
      }
    }
    assert ordered[..|ordered|] == ordered;
    StringOrder();
    cycle := FirstCycle(graph, StringLess);
  }

  lemma {:induction false} SortedStrings(s: seq<string>, sorted: seq<string>)
    requires sorted == Sort(StringLess, s)
    ensures |sorted| == |s| && forall x :: x in sorted <==> x in s
  {
    SortPermutes(StringLess, s);
    forall x ensures x in sorted <==> x in s {
      assert x in multiset(sorted) <==> x in multiset(s);
    }
  }

  lemma {:induction false} ConflictedNext(ordered: seq<Candidate>, i: nat, id: string)
    requires i < |ordered|
    ensures Conflicted(ordered[..i + 1], id) <==> Conflicted(ordered[..i], id) || Involves(ordered[i], id)
  {
    if Conflicted(ordered[..i], id) {
      var j :| 0 <= j < i && Involves(ordered[..i][j], id);
      assert Involves(ordered[..i + 1][j], id);
    }
    if Involves(ordered[i], id) {
      assert Involves(ordered[..i + 1][i], id);
    }
  }

  // ---------------------------------------------------------------- ranking decisions

  function OutcomePriority(outcome: string): int {
    if outcome == "block" then 4
    else if outcome == "clarify" then 3
    else if outcome == "warn" then 2
    else 1
  }

  function RiskLevel(risk: int): string {
    if risk < 25 then "low" else if risk < 50 then "medium" else if risk < 75 then "high" else "critical"
  }

  predicate BySource(a: Ranked, b: Ranked) {
    a.decision.sourceRef != b.decision.sourceRef && StringLess(a.decision.sourceRef, b.decision.sourceRef)
  }

  predicate ByRuleId(a: Ranked, b: Ranked) {
    if a.decision.ruleId != b.decision.ruleId then StringLess(a.decision.ruleId, b.decision.ruleId) else BySource(a, b)
  }

  predicate ByPackId(a: Ranked, b: Ranked) {
    if a.decision.packId != b.decision.packId then StringLess(a.decision.packId, b.decision.packId) else ByRuleId(a, b)
  }

  predicate ByCandidate(a: Ranked, b: Ranked) {
    if a.candidateOrder != b.candidateOrder then a.candidateOrder < b.candidateOrder else ByPackId(a, b)
  }

  predicate ByRisk(a: Ranked, b: Ranked) {
    if a.decision.risk != b.decision.risk then a.decision.risk > b.decision.risk else ByCandidate(a, b)
  }

  predicate ByOutcome(a: Ranked, b: Ranked) {
    if OutcomePriority(a.decision.outcome) != OutcomePriority(b.decision.outcome) then
      OutcomePriority(a.decision.outcome) > OutcomePriority(b.decision.outcome)
    else
      ByRisk(a, b)
  }

  predicate BetterDecision(a: Ranked, b: Ranked) {
    if a.authority != b.authority then a.authority > b.authority else ByOutcome(a, b)
  }

  lemma {:induction false} BetterOrder()
    ensures Ordered(BetterDecision)
  {
    StringOrder();
    ThenBy((r: Ranked) => r.decision.sourceRef, StringLess, (a: Ranked, b: Ranked) => false, BySource);
    ThenBy((r: Ranked) => r.decision.ruleId, StringLess, BySource, ByRuleId);
    ThenBy((r: Ranked) => r.decision.packId, StringLess, ByRuleId, ByPackId);
    ThenBy((r: Ranked) => r.candidateOrder, (x: int, y: int) => x < y, ByPackId, ByCandidate);
    ThenBy((r: Ranked) => r.decision.risk, (x: int, y: int) => x > y, ByCandidate, ByRisk);
    ThenBy((r: Ranked) => OutcomePriority(r.decision.outcome), (x: int, y: int) => x > y, ByRisk, ByOutcome);
    ThenBy((r: Ranked) => r.authority, (x: int, y: int) => x > y, ByOutcome, BetterDecision);
  }

  predicate ByDecisionSource(a: Decision, b: Decision) {
    if a.sourceRef != b.sourceRef then StringLess(a.sourceRef, b.sourceRef) else false
  }

  predicate ByDecisionRule(a: Decision, b: Decision) {
    if a.ruleId != b.ruleId then StringLess(a.ruleId, b.ruleId) else ByDecisionSource(a, b)
  }

  predicate DecisionLess(a: Decision, b: Decision) {
    if a.packId != b.packId then StringLess(a.packId, b.packId) else ByDecisionRule(a, b)
  }

  lemma {:induction false} DecisionOrder()
    ensures Ordered(DecisionLess)
  {
    StringOrder();
    ThenBy((d: Decision) => d.sourceRef, StringLess, (a: Decision, b: Decision) => false, ByDecisionSource);
    ThenBy((d: Decision) => d.ruleId, StringLess, ByDecisionSource, ByDecisionRule);
    ThenBy((d: Decision) => d.packId, StringLess, ByDecisionRule, DecisionLess);
  }
}
