/** Policy packs: validation of a set of packs, and the rules that match given facts. */
module PolicyPack {
  import opened Ordering
  import opened Wrappers

  const MAX_PACKS := 16
  const MAX_RULES := 256
  const MAX_CONDITIONS := 16
  const SCHEMA_VERSION := "1.0.0"

  datatype Condition = Condition(field: string, operator: string, value: string)

  datatype Rule = Rule(
    id: string,
    category: string,
    outcome: string,
    riskScore: int,
    explanation: string,
    conditions: seq<Condition>
  )

  datatype Pack = Pack(schemaVersion: string, id: string, version: string, rules: seq<Rule>)

  datatype Match = Match(packId: string, packVersion: string, rule: Rule)

  datatype PolicyError = InvalidSchema

  // ---------------------------------------------------------------- validation

  predicate ValidIdentifier(value: string, limit: nat) {
    && 0 < |value| <= limit
    && 'a' <= value[0] <= 'z'
    && forall i :: 0 < i < |value| ==> 'a' <= value[i] <= 'z' || '0' <= value[i] <= '9' || value[i] in "_.-"
  }

  predicate ValidRule(rule: Rule, vocabulary: Rule -> bool) {
    && ValidIdentifier(rule.id, 80)
    && 0 <= rule.riskScore <= 100
    && 0 < |rule.explanation| <= 300
    && 0 < |rule.conditions| <= MAX_CONDITIONS
    && vocabulary(rule)
  }

  predicate DifferentRules(a: Rule, b: Rule) {
    a.id != b.id
  }

  predicate DifferentPacks(a: Pack, b: Pack) {
    Key(a) != Key(b)
  }

  function Key(pack: Pack): string {
    pack.id + "@" + pack.version
  }

  ghost predicate ValidPack(pack: Pack, vocabulary: Rule -> bool) {
    && pack.schemaVersion == SCHEMA_VERSION && pack.version == SCHEMA_VERSION
    && ValidIdentifier(pack.id, 80)
    && 0 < |pack.rules| <= MAX_RULES
    && (forall rule :: rule in pack.rules ==> ValidRule(rule, vocabulary))
    && Pairwise(DifferentRules, pack.rules)
  }

  ghost predicate DistinctPacks(packs: seq<Pack>, vocabulary: Rule -> bool) {
    && (forall pack :: pack in packs ==> ValidPack(pack, vocabulary))
    && Pairwise(DifferentPacks, packs)
  }

  ghost predicate ValidSet(packs: seq<Pack>, vocabulary: Rule -> bool) {
    |packs| <= MAX_PACKS && DistinctPacks(packs, vocabulary)
  }

  /** External packs can only narrow behaviour. */
  ghost predicate ValidExtensions(packs: seq<Pack>, vocabulary: Rule -> bool) {
    && ValidSet(packs, vocabulary)
    && forall pack, rule :: pack in packs && rule in pack.rules ==> rule.outcome != "continue"
  }

  method Validate(pack: Pack, vocabulary: Rule -> bool) returns (ok: bool)
    ensures ok <==> ValidPack(pack, vocabulary)
  {
    if pack.schemaVersion != SCHEMA_VERSION || pack.version != SCHEMA_VERSION || !ValidIdentifier(pack.id, 80)
       || |pack.rules| == 0 || |pack.rules| > MAX_RULES {
      return false;
    }
    var seen: set<string> := {};
    for i := 0 to |pack.rules|
      invariant forall j :: 0 <= j < i ==> ValidRule(pack.rules[j], vocabulary)
      invariant Pairwise(DifferentRules, pack.rules[..i])
      invariant forall id :: id in seen <==> exists j :: 0 <= j < i && pack.rules[j].id == id
    {
      var rule := pack.rules[i];
      if !ValidRule(rule, vocabulary) || rule.id in seen {
        assert rule in pack.rules;
        if rule.id in seen {
          var j :| 0 <= j < i && pack.rules[j].id == rule.id;
          assert !DifferentRules(pack.rules[j], rule);
        }
        return false;
      }
      PairwiseNext(DifferentRules, pack.rules, i);
      seen := seen + {rule.id};
    }
    assert pack.rules[..|pack.rules|] == pack.rules;
    ok := true;
  }

  method ValidateSet(packs: seq<Pack>, vocabulary: Rule -> bool) returns (ok: bool)
    ensures ok <==> ValidSet(packs, vocabulary)
  {
    if |packs| > MAX_PACKS {
      return false;
    }
    var seen: set<string> := {};
    for i := 0 to |packs|
      invariant forall j :: 0 <= j < i ==> ValidPack(packs[j], vocabulary)
      invariant Pairwise(DifferentPacks, packs[..i])
      invariant forall key :: key in seen <==> exists j :: 0 <= j < i && Key(packs[j]) == key
    {
      var valid := Validate(packs[i], vocabulary);
      if !valid || Key(packs[i]) in seen {
        if Key(packs[i]) in seen {
          var j :| 0 <= j < i && Key(packs[j]) == Key(packs[i]);
          assert !DifferentPacks(packs[j], packs[i]);
        }
        return false;
      }
      PairwiseNext(DifferentPacks, packs, i);
      seen := seen + {Key(packs[i])};
    }
    assert packs[..|packs|] == packs;
    ok := true;
  }

  method ValidateExtensions(packs: seq<Pack>, vocabulary: Rule -> bool) returns (ok: bool)
    ensures ok <==> ValidExtensions(packs, vocabulary)
  {
    ok := ValidateSet(packs, vocabulary);
    if ok {
      ok := forall i, j :: 0 <= i < |packs| && 0 <= j < |packs[i].rules| ==> packs[i].rules[j].outcome != "continue";
    }
  }

  lemma {:induction false} PacksDiffer(packs: seq<Pack>, vocabulary: Rule -> bool, a: Pack, b: Pack)
    requires DistinctPacks(packs, vocabulary) && a in packs && b in packs && a.id == b.id
    ensures a == b
  {
    var i :| 0 <= i < |packs| && packs[i] == a;
    var j :| 0 <= j < |packs| && packs[j] == b;
    assert Key(a) == Key(b);
  }

  lemma {:induction false} RulesDiffer(pack: Pack, vocabulary: Rule -> bool, a: Rule, b: Rule)
    requires ValidPack(pack, vocabulary) && a in pack.rules && b in pack.rules && a.id == b.id
    ensures a == b
  {
    var i :| 0 <= i < |pack.rules| && pack.rules[i] == a;
    var j :| 0 <= j < |pack.rules| && pack.rules[j] == b;
  }

  // ---------------------------------------------------------------- evaluation

  predicate Holds(condition: Condition, facts: map<string, string>) {
    if condition.operator == "equals" then
      condition.field in facts && facts[condition.field] == condition.value
    else if condition.operator == "not_equals" then
      condition.field in facts && facts[condition.field] != condition.value
    else if condition.operator == "prefix" then
      condition.field in facts && condition.value <= facts[condition.field]
    else
      condition.operator == "present" ==> condition.field in facts
  }

  predicate MatchesAll(conditions: seq<Condition>, facts: map<string, string>) {
    forall i :: 0 <= i < |conditions| ==> Holds(conditions[i], facts)
  }

  function OfRules(pack: Pack, rules: seq<Rule>, facts: map<string, string>): seq<Match> {
    if rules == [] then []
    else
      var rule := rules[|rules| - 1];
      OfRules(pack, rules[..|rules| - 1], facts)
      + if MatchesAll(rule.conditions, facts) then [Match(pack.id, pack.version, rule)] else []
  }

  function PackMatches(facts: map<string, string>): Pack -> seq<Match> {
    (pack: Pack) => OfRules(pack, pack.rules, facts)
  }

  predicate ByRule(a: Match, b: Match) {
    if a.rule.id != b.rule.id then StringLess(a.rule.id, b.rule.id) else false
  }

  predicate MatchLess(a: Match, b: Match) {
    if a.packId != b.packId then StringLess(a.packId, b.packId) else ByRule(a, b)
  }

  lemma {:induction false} MatchOrder()
    ensures Ordered(MatchLess)
  {
    StringOrder();
    ThenBy((m: Match) => m.rule.id, StringLess, (a: Match, b: Match) => false, ByRule);
    ThenBy((m: Match) => m.packId, StringLess, ByRule, MatchLess);
  }

  /** The matching rules of all packs, by pack and then by rule. */
  function Matches(packs: seq<Pack>, facts: map<string, string>): seq<Match> {
    Sort(MatchLess, Flatten(PackMatches(facts), packs))
  }

  lemma {:induction false} MatchedRule(pack: Pack, rules: seq<Rule>, facts: map<string, string>, m: Match)
    requires m in OfRules(pack, rules, facts)
    ensures m == Match(pack.id, pack.version, m.rule) && m.rule in rules && MatchesAll(m.rule.conditions, facts)
    decreases |rules|
  {
    if m in OfRules(pack, rules[..|rules| - 1], facts) {
      MatchedRule(pack, rules[..|rules| - 1], facts, m);
    }
  }

  lemma {:induction false} RuleMatches(pack: Pack, rules: seq<Rule>, facts: map<string, string>, rule: Rule)
    requires rule in rules && MatchesAll(rule.conditions, facts)
    ensures Match(pack.id, pack.version, rule) in OfRules(pack, rules, facts)
    decreases |rules|
  {
    if rule != rules[|rules| - 1] {
      RuleMatches(pack, rules[..|rules| - 1], facts, rule);
    }
  }

  lemma {:induction false} MatchedPack(packs: seq<Pack>, facts: map<string, string>, m: Match) returns (pack: Pack)
    requires m in Flatten(PackMatches(facts), packs)
    ensures pack in packs && m == Match(pack.id, pack.version, m.rule) && m.rule in pack.rules
  {
    pack := FlattenMember(PackMatches(facts), packs, m);
    MatchedRule(pack, pack.rules, facts, m);
  }

  /** A match is told apart by its pack and rule identifiers. */
  lemma {:induction false} SameMatch(packs: seq<Pack>, vocabulary: Rule -> bool, facts: map<string, string>, a: Match,
                                     b: Match)
    requires DistinctPacks(packs, vocabulary)
    requires a in Flatten(PackMatches(facts), packs) && b in Flatten(PackMatches(facts), packs)
    requires a.packId == b.packId && a.rule.id == b.rule.id
    ensures a == b
  {
    var p := MatchedPack(packs, facts, a);
    var q := MatchedPack(packs, facts, b);
    PacksDiffer(packs, vocabulary, p, q);
    RulesDiffer(p, vocabulary, a.rule, b.rule);
  }

  lemma {:induction false} MatchTies(packs: seq<Pack>, vocabulary: Rule -> bool, facts: map<string, string>)
    requires DistinctPacks(packs, vocabulary)
    ensures TiesEqual(MatchLess, multiset(Flatten(PackMatches(facts), packs)))
  {
    var all := Flatten(PackMatches(facts), packs);
    forall a, b | a in multiset(all) && b in multiset(all) ensures a == b || MatchLess(a, b) || MatchLess(b, a) {
      StringLessTrichotomy(a.packId, b.packId);
      StringLessTrichotomy(a.rule.id, b.rule.id);
      if a.packId == b.packId && a.rule.id == b.rule.id {
        SameMatch(packs, vocabulary, facts, a, b);
      }
    }
  }

  /** Although the sort promises nothing about ties, the result is the same whatever it does. */
  method Evaluate(packs: seq<Pack>, facts: map<string, string>, vocabulary: Rule -> bool)
    returns (result: Result<seq<Match>, PolicyError>)
    ensures result.Ok? <==> ValidSet(packs, vocabulary)
    ensures result.Ok? ==> result.value == Matches(packs, facts)
  {
    var valid := ValidateSet(packs, vocabulary);
    if !valid {
      return Err(InvalidSchema);
    }
    var matches := [];
    for i := 0 to |packs|
      invariant matches == Flatten(PackMatches(facts), packs[..i])
    {
      var pack := packs[i];
      ghost var before := matches;
      for j := 0 to |pack.rules|
        invariant matches == before + OfRules(pack, pack.rules[..j], facts)
      {
        assert pack.rules[..j + 1][..j] == pack.rules[..j];
        if MatchesAll(pack.rules[j].conditions, facts) {
          matches := matches + [Match(pack.id, pack.version, pack.rules[j])];
        }
      }
      assert pack.rules[..|pack.rules|] == pack.rules;
      assert packs[..i + 1][..i] == packs[..i];
    }
    assert packs[..|packs|] == packs;
    MatchOrder();
    var sorted := SortSlice(MatchLess, matches);
    MatchTies(packs, vocabulary, facts);
    SortIsUnique(MatchLess, matches, sorted);
    result := Ok(sorted);
  }

  /** Neither validity nor the matches depend on the order of the packs. */
  lemma {:induction false} PackOrderIrrelevant(a: seq<Pack>, b: seq<Pack>, vocabulary: Rule -> bool,
                                               facts: map<string, string>)
    requires multiset(a) == multiset(b) && ValidSet(a, vocabulary)
    ensures ValidSet(b, vocabulary) && Matches(a, facts) == Matches(b, facts)
  {
    forall pack | pack in b ensures ValidPack(pack, vocabulary) {
      var i := IndexIn(pack, b, a);
    }
    PairwisePermuted(DifferentPacks, a, b);
    assert |a| == |multiset(a)| == |b|;
    FlattenPermuted(PackMatches(facts), a, b);
    MatchOrder();
    MatchTies(a, vocabulary, facts);
    SortForgetsOrder(MatchLess, Flatten(PackMatches(facts), a), Flatten(PackMatches(facts), b));
  }
}
