/** What a boundary decision stands for, said in terms of the candidates and the packs alone. */
module BoundaryMeaning {
  import opened Ordering
  import opened Wrappers
  import opened PolicyPack
  import opened BoundaryEngine

  // ---------------------------------------------------------------- conflicts

  /** Some candidate of this identifier names a conflict, or some candidate names this one. */
  ghost predicate InConflict(candidates: seq<Candidate>, id: string) {
    exists c :: c in candidates && (id in c.conflicts || (c.id == id && c.conflicts != []))
  }

  /** Among candidates of one identifier, the last in resolved order speaks for it. */
  ghost predicate SpeaksFor(ordered: seq<Candidate>, i: nat, id: string) {
    && i < |ordered| && ordered[i].id == id
    && forall j :: i < j < |ordered| ==> ordered[j].id != id
  }

  /** The candidate a names the candidate b as a conflict. */
  ghost predicate Names(ordered: seq<Candidate>, a: string, b: string) {
    && (exists i: nat :: SpeaksFor(ordered, i, a) && b in ordered[i].conflicts)
    && (exists j :: 0 <= j < |ordered| && ordered[j].id == b)
  }

  /** Every identifier of the sequence names the next. */
  ghost predicate ChainOfConflicts(ordered: seq<Candidate>, ids: seq<string>) {
    forall i: nat {:trigger NamesNext(ordered, ids, i)} :: NamesNext(ordered, ids, i)
  }

  ghost predicate NamesNext(ordered: seq<Candidate>, ids: seq<string>, i: nat) {
    i + 1 < |ids| ==> Names(ordered, ids[i], ids[i + 1])
  }

  /** Candidates name each other in a circle. */
  ghost predicate CircularConflict(ordered: seq<Candidate>) {
    exists ids :: |ids| >= 2 && ids[0] == ids[|ids| - 1] && ChainOfConflicts(ordered, ids)
  }

  // ---------------------------------------------------------------- when a rule applies

  /** What the conditions of a rule can see of a candidate. */
  ghost function FactOf(candidates: seq<Candidate>, c: Candidate, name: string): Option<string> {
    if name == "conflicted" && InConflict(candidates, c.id) then Some("true")
    else if name == "source_kind" then Some(c.sourceKind)
    else if name == "category" then Some(c.category)
    else if name in c.facts then Some(c.facts[name])
    else None
  }

  predicate Satisfied(condition: Condition, fact: Option<string>) {
    match condition.operator
    case "equals" => fact == Some(condition.value)
    case "not_equals" => fact.Some? && fact.value != condition.value
    case "prefix" => fact.Some? && condition.value <= fact.value
    case "present" => fact.Some?
    case _ => true
  }

  ghost predicate Applies(candidates: seq<Candidate>, c: Candidate, rule: Rule) {
    forall condition :: condition in rule.conditions ==>
      Satisfied(condition, FactOf(candidates, c, condition.field))
  }

  // ---------------------------------------------------------------- what is decided

  predicate LevelOf(risk: int, level: string) {
    || (risk < 25 && level == "low")
    || (25 <= risk < 50 && level == "medium")
    || (50 <= risk < 75 && level == "high")
    || (75 <= risk && level == "critical")
  }

  /** A conflict circle anywhere turns every risk of at least 50 into a block. */
  function OutcomeOf(rule: Rule, circular: bool): string {
    if circular && rule.riskScore >= 50 then "block" else rule.outcome
  }

  /** This rule of this pack, applied to this candidate, gives this decision. */
  ghost predicate Gives(c: Candidate, pack: Pack, rule: Rule, circular: bool, d: Decision) {
    && d.category == rule.category && d.outcome == OutcomeOf(rule, circular)
    && d.risk == rule.riskScore && LevelOf(rule.riskScore, d.riskLevel)
    && d.confidence == c.confidence && d.sourceRef == c.sourceRef
    && d.packId == pack.id && d.version == pack.version
    && d.ruleId == rule.id && d.explanation == rule.explanation
    && multiset(d.conflictRefs) == multiset(c.conflicts) && Sorted(StringLess, d.conflictRefs)
  }

  /** The candidate, the pack and the rule behind a decision. */
  datatype Cause = Cause(candidate: Candidate, pack: Pack, rule: Rule)

  ghost predicate IsCause(candidates: seq<Candidate>, packs: seq<Pack>, cause: Cause) {
    && cause.candidate in candidates && cause.pack in packs && cause.rule in cause.pack.rules
    && Applies(candidates, cause.candidate, cause.rule)
  }

  ghost predicate Decides(circular: bool, cause: Cause, d: Decision) {
    Gives(cause.candidate, cause.pack, cause.rule, circular, d)
  }

  /** The first cause matters at least as much as the second: by the authority of its source, then by its outcome,
      then by its risk. */
  predicate Outranks(circular: bool, a: Cause, b: Cause) {
    var p, q := Authority(a.candidate.sourceKind), Authority(b.candidate.sourceKind);
    var o, w := OutcomePriority(OutcomeOf(a.rule, circular)), OutcomePriority(OutcomeOf(b.rule, circular));
    p > q || (p == q && (o > w || (o == w && a.rule.riskScore >= b.rule.riskScore)))
  }

  /** Every decision has a cause. */
  ghost predicate AllCaused(candidates: seq<Candidate>, packs: seq<Pack>, circular: bool, decisions: seq<Decision>) {
    forall d :: d in decisions ==> exists cause :: IsCause(candidates, packs, cause) && Decides(circular, cause, d)
  }

  /** Every cause has its decision, unless 256 decisions are made, none of which it outranks. */
  ghost predicate AllDecided(candidates: seq<Candidate>, packs: seq<Pack>, circular: bool, decisions: seq<Decision>) {
    forall cause :: IsCause(candidates, packs, cause) ==>
      || (exists d :: d in decisions && Decides(circular, cause, d))
      || (|decisions| == 256 && forall d :: d in decisions ==> NotOutranked(candidates, packs, circular, cause, d))
  }

  ghost predicate NotOutranked(candidates: seq<Candidate>, packs: seq<Pack>, circular: bool, cause: Cause,
                               d: Decision) {
    exists other :: IsCause(candidates, packs, other) && Decides(circular, other, d) && Outranks(circular, other, cause)
  }
}
