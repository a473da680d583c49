/** What a printed plan says: every heading leads back to the field of the plan that belongs under it. */
module PlanSections {
  import opened Wrappers
  import opened TextNormalization
  import opened PromptSections
  import opened Compiler
  import opened CompilingTwice

  // ---------------------------------------------------------------- plans without blank lines

  predicate PlainItem(value: string) {
    TidyItem(value) && NoBlankLineIn(value)
  }

  predicate NoBlankLineIn(value: string) {
    forall i :: 0 <= i < |value| - 1 ==> value[i] != '\n' || value[i + 1] != '\n'
  }

  /** A text that is left out, or is normalized and has no blank line. */
  predicate PlainText(value: string) {
    TrimSpace(value) == "" || PlainItem(value)
  }

  predicate PlainOptional(value: Option<string>) {
    value.Some? ==> PlainText(value.value)
  }

  predicate PlainList(values: seq<string>) {
    forall i :: 0 <= i < |values| ==> PlainItem(values[i])
  }

  predicate PlainIdentity(plan: Plan) {
    && PlainText(plan.role) && PlainText(plan.personality) && PlainText(plan.collaborationStyle)
    && PlainOptional(plan.stablePrefix)
  }

  predicate PlainGoal(plan: Plan) {
    && PlainText(plan.goal) && PlainList(plan.successCriteria) && PlainList(plan.invariants)
    && PlainList(plan.scope) && PlainList(plan.nonGoals)
  }

  predicate PlainRules(plan: Plan) {
    PlainList(plan.decisionRules) && PlainList(plan.evidenceRequirements) && PlainList(plan.tools)
  }

  predicate PlainBoundary(plan: Plan) {
    PlainText(plan.approvalBoundary) && PlainText(plan.phaseScope) && PlainOptional(plan.dynamicTail)
  }

  predicate PlainOutput(plan: Plan) {
    && PlainList(plan.validationBar) && PlainList(plan.gates) && PlainText(plan.outputContract)
    && PlainText(plan.outputLanguage)
  }

  predicate PlainStop(plan: Plan) {
    && PlainList(plan.artifactPriorities) && PlainList(plan.stopRules) && PlainList(plan.fallbackRules)
    && PlainList(plan.abstainRules)
  }

  predicate PlainPlan(plan: Plan) {
    && PlainIdentity(plan) && PlainGoal(plan) && PlainRules(plan) && PlainBoundary(plan) && PlainOutput(plan)
    && PlainStop(plan)
  }

  // ---------------------------------------------------------------- what is read under a heading

  /** A text is read back trimmed; a blank one is not there. */
  predicate ReadsText(text: string, title: string, value: string) {
    SectionValue(text, title) == if TrimSpace(value) == "" then None else Some(TrimSpace(value))
  }

  predicate ReadsOptional(text: string, title: string, value: Option<string>) {
    match value
    case Some(v) => ReadsText(text, title, v)
    case None => SectionValue(text, title) == None
  }

  /** A list is read back as one dashed line an item; an empty one is not there. */
  predicate ReadsList(text: string, title: string, values: seq<string>) {
    SectionValue(text, title) == if values == [] then None else Some(ListLines(values))
  }

  predicate ReadsIdentity(text: string, plan: Plan) {
    && ReadsText(text, "Role", plan.role)
    && ReadsText(text, "Personality", plan.personality)
    && ReadsText(text, "Collaboration", plan.collaborationStyle)
    && ReadsOptional(text, "Stable prefix", plan.stablePrefix)
  }

  predicate ReadsGoal(text: string, plan: Plan, includeGoal: bool) {
    && ReadsOptional(text, "Goal", if includeGoal then Some(plan.goal) else None)
    && ReadsList(text, "Success criteria", plan.successCriteria)
    && ReadsList(text, "Constraints", plan.invariants)
    && ReadsList(text, "Scope", plan.scope)
    && ReadsList(text, "Non-goals", plan.nonGoals)
  }

  predicate ReadsRules(text: string, plan: Plan) {
    && ReadsList(text, "Decision rules", plan.decisionRules)
    && ReadsList(text, "Evidence", plan.evidenceRequirements)
    && ReadsList(text, "Tools", plan.tools)
  }

  predicate ReadsBoundary(text: string, plan: Plan) {
    && ReadsText(text, "Approval boundary", plan.approvalBoundary)
    && ReadsText(text, "Phase", plan.phaseScope)
    && ReadsOptional(text, "Dynamic context", plan.dynamicTail)
  }

  predicate ReadsOutput(text: string, plan: Plan) {
    && ReadsList(text, "Validation", plan.validationBar)
    && ReadsList(text, "Gates", plan.gates)
    && ReadsText(text, "Output", plan.outputContract)
    && ReadsText(text, "Output language", plan.outputLanguage)
  }

  predicate ReadsStop(text: string, plan: Plan) {
    && ReadsList(text, "Artifact priorities", plan.artifactPriorities)
    && ReadsList(text, "Stop", plan.stopRules)
    && ReadsList(text, "Fallback", plan.fallbackRules)
    && ReadsList(text, "Abstain", plan.abstainRules)
  }

  /** Each of the 23 headings leads to its own field, or to nothing where that field is left out. */
  predicate ReadsPlan(text: string, plan: Plan, includeGoal: bool) {
    && ReadsIdentity(text, plan) && ReadsGoal(text, plan, includeGoal) && ReadsRules(text, plan)
    && ReadsBoundary(text, plan) && ReadsOutput(text, plan) && ReadsStop(text, plan)
  }

  // ---------------------------------------------------------------- printed bodies are compact

  ghost predicate CompactBody(body: Option<string>) {
    body.Some? ==> Compact(body.value)
  }

  lemma {:induction false} ItemCompact(value: string)
    requires PlainItem(value)
    ensures Compact(value) && value != "" && TrimSpace(value) == value
  {
    ItemCanonical(value);
    CanonicalTrimmed(value);
    forall i: nat {:trigger BlankLineAt(value, i)} ensures !BlankLineAt(value, i) {}
  }

  lemma {:induction false} DashedCompact(value: string)
    requires PlainItem(value)
    ensures Compact("- " + value)
  {
    ItemCompact(value);
    var s := "- " + value;
    forall i: nat {:trigger BlankLineAt(s, i)} ensures !BlankLineAt(s, i) {
      if i >= 2 {
        assert !BlankLineAt(value, i - 2);
      } else {
        assert s[0] == '-' && s[1] == ' ';
      }
    }
  }

  lemma {:induction false} LinesTogetherCompact(a: string, b: string)
    requires Compact(a) && Compact(b) && b != "" && b[0] != '\n'
    ensures Compact(a + "\n" + b)
  {
    var s := a + "\n" + b;
    forall i: nat {:trigger BlankLineAt(s, i)} ensures !BlankLineAt(s, i) {
      if i < |a| {
        assert !BlankLineAt(a, i);
      } else if i > |a| {
        assert !BlankLineAt(b, i - |a| - 1);
      }
    }
  }

  lemma {:induction false} ListLinesCompact(values: seq<string>)
    requires values != [] && PlainList(values)
    ensures Compact(ListLines(values))
    decreases |values|
  {
    var init, last := values[..|values| - 1], values[|values| - 1];
    ItemCompact(last);
    DashedCompact(last);
    if |values| > 1 {
      ListLinesCompact(init);
      LinesTogetherCompact(ListLines(init), "- " + last);
    }
  }

  lemma {:induction false} ListBody(title: string, values: seq<string>)
    requires PlainList(values)
    ensures ListEntry(title, values).title == title
    ensures ListEntry(title, values).body == if values == [] then None else Some(ListLines(values))
    ensures CompactBody(ListEntry(title, values).body)
  {
    if values != [] {
      ListLinesCompact(values);
      ListLinesCanonical(values);
      CanonicalTrimmed(ListLines(values));
      ItemsAreLines(values);
      TrimFinalBreak(ListLines(values));
    }
  }

  lemma {:induction false} TextBody(title: string, value: string)
    requires PlainText(value)
    ensures TidyText(value) && CompactBody(TextEntry(title, value).body)
  {
    if TrimSpace(value) != "" {
      ItemCompact(value);
    }
  }

  lemma {:induction false} OptionalBody(title: string, value: Option<string>)
    requires PlainOptional(value)
    ensures TidyOptional(value) && CompactBody(OptionalEntry(title, value).body)
  {
    if value.Some? {
      TextBody(title, value.value);
    }
  }

  ghost predicate AllBodiesCompact(entries: seq<Entry>) {
    forall e :: e in entries ==> CompactBody(e.body)
  }

  // ---------------------------------------------------------------- group by group

  /** Every entry is read back from the text. */
  ghost predicate AllRead(text: string, entries: seq<Entry>) {
    forall e :: e in entries ==> SectionValue(text, e.title) == e.body
  }

  lemma {:induction false} ThreeCompact(a: Entry, b: Entry, c: Entry)
    requires CompactBody(a.body) && CompactBody(b.body) && CompactBody(c.body)
    ensures AllBodiesCompact([a, b, c])
  {}

  lemma {:induction false} FourCompact(a: Entry, b: Entry, c: Entry, d: Entry)
    requires CompactBody(a.body) && CompactBody(b.body) && CompactBody(c.body) && CompactBody(d.body)
    ensures AllBodiesCompact([a, b, c, d])
  {}

  lemma {:induction false} FiveCompact(a: Entry, b: Entry, c: Entry, d: Entry, e: Entry)
    requires CompactBody(a.body) && CompactBody(b.body) && CompactBody(c.body) && CompactBody(d.body)
    requires CompactBody(e.body)
    ensures AllBodiesCompact([a, b, c, d, e])
  {}

  lemma {:induction false} IdentityPlain(plan: Plan)
    requires PlainIdentity(plan)
    ensures TidyIdentity(plan) && AllBodiesCompact(IdentityEntries(plan))
  {
    TextBody("Role", plan.role);
    TextBody("Personality", plan.personality);
    TextBody("Collaboration", plan.collaborationStyle);
    OptionalBody("Stable prefix", plan.stablePrefix);
    var e := IdentityEntries(plan);
    FourCompact(e[0], e[1], e[2], e[3]);
  }

  lemma {:induction false} IdentityRead(text: string, plan: Plan)
    requires AllRead(text, IdentityEntries(plan))
    ensures ReadsIdentity(text, plan)
  {
    var e := IdentityEntries(plan);
    assert e[0] in e && e[1] in e && e[2] in e && e[3] in e;
  }

  lemma {:induction false} ListIsTidy(values: seq<string>)
    requires PlainList(values)
    ensures TidyList(values)
  {}

  lemma {:induction false} GoalIsTidy(plan: Plan)
    requires PlainGoal(plan)
    ensures TidyGoal(plan)
  {
    ListIsTidy(plan.successCriteria);
    ListIsTidy(plan.invariants);
    ListIsTidy(plan.scope);
    ListIsTidy(plan.nonGoals);
  }

  lemma {:induction false} GoalPlain(plan: Plan, includeGoal: bool)
    requires PlainGoal(plan)
    ensures TidyGoal(plan) && AllBodiesCompact(GoalEntries(plan, includeGoal))
  {
    GoalIsTidy(plan);
    OptionalBody("Goal", if includeGoal then Some(plan.goal) else None);
    ListBody("Success criteria", plan.successCriteria);
    ListBody("Constraints", plan.invariants);
    ListBody("Scope", plan.scope);
    ListBody("Non-goals", plan.nonGoals);
    var e := GoalEntries(plan, includeGoal);
    FiveCompact(e[0], e[1], e[2], e[3], e[4]);
  }

  lemma {:induction false} GoalRead(text: string, plan: Plan, includeGoal: bool)
    requires PlainGoal(plan) && AllRead(text, GoalEntries(plan, includeGoal))
    ensures ReadsGoal(text, plan, includeGoal)
  {
    var e := GoalEntries(plan, includeGoal);
    assert e[0] in e && e[1] in e && e[2] in e && e[3] in e && e[4] in e;
    ListBody("Success criteria", plan.successCriteria);
    ListBody("Constraints", plan.invariants);
    ListBody("Scope", plan.scope);
    ListBody("Non-goals", plan.nonGoals);
  }

  lemma {:induction false} RulesPlain(plan: Plan)
    requires PlainRules(plan)
    ensures TidyRules(plan) && AllBodiesCompact(RuleEntries(plan))
  {
    ListIsTidy(plan.decisionRules);
    ListIsTidy(plan.evidenceRequirements);
    ListIsTidy(plan.tools);
    ListBody("Decision rules", plan.decisionRules);
    ListBody("Evidence", plan.evidenceRequirements);
    ListBody("Tools", plan.tools);
    var e := RuleEntries(plan);
    ThreeCompact(e[0], e[1], e[2]);
  }

  lemma {:induction false} RulesRead(text: string, plan: Plan)
    requires PlainRules(plan) && AllRead(text, RuleEntries(plan))
    ensures ReadsRules(text, plan)
  {
    var e := RuleEntries(plan);
    assert e[0] in e && e[1] in e && e[2] in e;
    ListBody("Decision rules", plan.decisionRules);
    ListBody("Evidence", plan.evidenceRequirements);
    ListBody("Tools", plan.tools);
  }

  lemma {:induction false} BoundaryPlain(plan: Plan)
    requires PlainBoundary(plan)
    ensures TidyBoundary(plan) && AllBodiesCompact(BoundaryEntries(plan))
  {
    TextBody("Approval boundary", plan.approvalBoundary);
    TextBody("Phase", plan.phaseScope);
    OptionalBody("Dynamic context", plan.dynamicTail);
    var e := BoundaryEntries(plan);
    ThreeCompact(e[0], e[1], e[2]);
  }

  lemma {:induction false} BoundaryRead(text: string, plan: Plan)
    requires AllRead(text, BoundaryEntries(plan))
    ensures ReadsBoundary(text, plan)
  {
    var e := BoundaryEntries(plan);
    assert e[0] in e && e[1] in e && e[2] in e;
  }

  lemma {:induction false} OutputPlain(plan: Plan)
    requires PlainOutput(plan)
    ensures TidyOutput(plan) && AllBodiesCompact(OutputEntries(plan))
  {
    ListIsTidy(plan.validationBar);
    ListIsTidy(plan.gates);
    ListBody("Validation", plan.validationBar);
    ListBody("Gates", plan.gates);
    TextBody("Output", plan.outputContract);
    TextBody("Output language", plan.outputLanguage);
    var e := OutputEntries(plan);
    FourCompact(e[0], e[1], e[2], e[3]);
  }

  lemma {:induction false} OutputRead(text: string, plan: Plan)
    requires PlainOutput(plan) && AllRead(text, OutputEntries(plan))
    ensures ReadsOutput(text, plan)
  {
    var e := OutputEntries(plan);
    assert e[0] in e && e[1] in e && e[2] in e && e[3] in e;
    ListBody("Validation", plan.validationBar);
    ListBody("Gates", plan.gates);
  }

  lemma {:induction false} StopPlain(plan: Plan)
    requires PlainStop(plan)
    ensures TidyStop(plan) && AllBodiesCompact(StopEntries(plan))
  {
    ListIsTidy(plan.artifactPriorities);
    ListIsTidy(plan.stopRules);
    ListIsTidy(plan.fallbackRules);
    ListIsTidy(plan.abstainRules);
    ListBody("Artifact priorities", plan.artifactPriorities);
    ListBody("Stop", plan.stopRules);
    ListBody("Fallback", plan.fallbackRules);
    ListBody("Abstain", plan.abstainRules);
    var e := StopEntries(plan);
    FourCompact(e[0], e[1], e[2], e[3]);
  }

  lemma {:induction false} StopRead(text: string, plan: Plan)
    requires PlainStop(plan) && AllRead(text, StopEntries(plan))
    ensures ReadsStop(text, plan)
  {
    var e := StopEntries(plan);
    assert e[0] in e && e[1] in e && e[2] in e && e[3] in e;
    ListBody("Artifact priorities", plan.artifactPriorities);
    ListBody("Stop", plan.stopRules);
    ListBody("Fallback", plan.fallbackRules);
    ListBody("Abstain", plan.abstainRules);
  }

  // ---------------------------------------------------------------- the whole plan

  lemma {:induction false} PlanIsPlain(plan: Plan, includeGoal: bool)
    requires PlainPlan(plan)
    ensures TidyTexts(plan) && AllBodiesCompact(PlanEntries(plan, includeGoal))
  {
    IdentityPlain(plan);
    GoalPlain(plan, includeGoal);
    RulesPlain(plan);
    BoundaryPlain(plan);
    OutputPlain(plan);
    StopPlain(plan);
  }

  /** Compact bodies are free of all headings. */
  lemma {:induction false} CompactIsTidy(entries: seq<Entry>)
    requires EntriesOk(entries, 0) && AllBodiesCompact(entries)
    ensures Tidy(entries) && AllCompact(entries)
  {
    forall i: nat {:trigger CompactAt(entries, i)} ensures CompactAt(entries, i) {
      assert i < |entries| ==> entries[i] in entries;
    }
    forall i: nat, j: nat {:trigger FreeAt(entries, i, j)} ensures FreeAt(entries, i, j) {
      assert CompactAt(entries, i);
      if i < j < |entries| && entries[i].body.Some? {
        CompactIsFree(entries[i].body.value, entries[j].title);
      }
    }
    OkIsTidy(entries);
  }

  lemma {:induction false} EntriesRead(entries: seq<Entry>)
    requires Tidy(entries) && AllCompact(entries)
    ensures AllRead(Rendered(entries), entries)
  {
    forall e | e in entries ensures SectionValue(Rendered(entries), e.title) == e.body {
      var n :| 0 <= n < |entries| && entries[n] == e;
      SectionsReadBack(entries, n);
    }
  }

  lemma {:induction false} ReadInGroups(text: string, plan: Plan, includeGoal: bool)
    requires AllRead(text, PlanEntries(plan, includeGoal))
    ensures AllRead(text, IdentityEntries(plan)) && AllRead(text, GoalEntries(plan, includeGoal))
    ensures AllRead(text, RuleEntries(plan)) && AllRead(text, BoundaryEntries(plan))
    ensures AllRead(text, OutputEntries(plan)) && AllRead(text, StopEntries(plan))
  {}

  /** Reading each heading out of a printed plan gives back that heading's own field. */
  lemma {:induction false} EveryHeadingReadsItsField(plan: Plan, includeGoal: bool)
    requires PlainPlan(plan)
    ensures ReadsPlan(Compiled(plan, includeGoal), plan, includeGoal)
  {
    var text, entries := Compiled(plan, includeGoal), PlanEntries(plan, includeGoal);
    PlanIsPlain(plan, includeGoal);
    PlanIsOk(plan, includeGoal);
    CompactIsTidy(entries);
    EntriesRead(entries);
    ReadInGroups(text, plan, includeGoal);
    IdentityRead(text, plan);
    GoalRead(text, plan, includeGoal);
    RulesRead(text, plan);
    BoundaryRead(text, plan);
    OutputRead(text, plan);
    StopRead(text, plan);
  }

  // ---------------------------------------------------------------- what a request gets

  lemma {:induction false} PhaseIsPlain(phase: string)
    requires ValidPhase(phase)
    ensures PlainText(phase)
  {
    PhaseIsLine(phase);
    ParagraphCompact(phase);
    CanonicalTextUnchanged(phase);
    forall i | 0 <= i < |phase| - 1 ensures phase[i] != '\n' || phase[i + 1] != '\n' {
      assert !BlankLineAt(phase, i);
    }
  }

  /** The plan of a request, for the phase that the request asks for, if it asks for one. */
  function Requested(plan: Plan, phaseOverride: string): Plan {
    if phaseOverride == "" then plan else plan.(phaseScope := phaseOverride)
  }

  lemma {:induction false} FinishedSays(prompt: string, phase: string, setting: Setting, first: Improved)
    requires Finished(prompt, phase, setting) == Ok(first)
    ensures first.prompt == prompt && first.phase == phase && setting.policy(phase) == Some(first.outcome)
    ensures ByteLength(prompt) <= 16000
  {}

  lemma {:induction false} OwnPlanNotPreserved(r: Request, intent: string)
    requires r.plan.Some? || r.phaseOverride != ""
    ensures PreservedPhase(r, intent) == None
  {}

  lemma {:induction false} OwnPlanFirst(r: Request, setting: Setting, first: Improved)
    requires r.plan.Some? && ImproveResult(r, setting) == Ok(first)
    ensures r.phaseOverride == "" || ValidPhase(r.phaseOverride)
    ensures var plan := Requested(r.plan.value, r.phaseOverride);
            && first.prompt == Compiled(plan, true)
            && Finished(Compiled(plan, true), plan.phaseScope, setting) == Ok(first)
  {
    OwnPlanNotPreserved(r, Normalized(r.intent).value);
    FirstPrinted(r, setting, first);
  }

  /** A request with a plan of its own gets that plan printed, for the phase it asks for, with what policy says about
      that phase. */
  lemma {:induction false} OwnPlanIsPrinted(r: Request, setting: Setting, first: Improved)
    requires r.plan.Some? && PlainPlan(r.plan.value) && ImproveResult(r, setting) == Ok(first)
    ensures var plan := Requested(r.plan.value, r.phaseOverride);
            && ReadsPlan(first.prompt, plan, true) && ByteLength(first.prompt) <= 16000
            && first.phase == plan.phaseScope && setting.policy(first.phase) == Some(first.outcome)
  {
    var plan := Requested(r.plan.value, r.phaseOverride);
    OwnPlanFirst(r, setting, first);
    FinishedSays(Compiled(plan, true), plan.phaseScope, setting, first);
    if r.phaseOverride != "" {
      PhaseIsPlain(r.phaseOverride);
    }
    EveryHeadingReadsItsField(plan, true);
  }

  /** An overlong or blank intent, an unknown phase or an invalid plan gets nothing. */
  lemma {:induction false} RefusedRequests(r: Request, setting: Setting)
    requires || (r.phaseOverride != "" && !ValidPhase(r.phaseOverride))
             || ByteLength(r.intent) > 8000 || Normalized(r.intent).None?
             || (r.plan.Some? && !ValidPlan(r.plan.value))
    ensures ImproveResult(r, setting).Err?
  {}

  /** A request without plan or override whose intent already is a compiled text keeps that text, normalized, and its
      phase; otherwise it gets the default plan. */
  lemma {:induction false} CompiledIntentIsKept(r: Request, setting: Setting, first: Improved, intent: string)
    requires r.plan.None? && r.phaseOverride == "" && ImproveResult(r, setting) == Ok(first)
    requires Normalized(r.intent) == Some(intent)
    ensures var phase := SectionValue(intent, "Phase");
            if InOrder(intent, REQUIRED) && phase.Some? && ValidPhase(phase.value)
            then first.prompt == intent && first.phase == phase.value
            else first.prompt == Compiled(setting.defaults(intent), true)
                 && first.phase == setting.defaults(intent).phaseScope
  {
    var phase := SectionValue(intent, "Phase");
    PreservedIff(r, intent);
    if PreservedPhase(r, intent).Some? {
      FirstPreserved(r, setting, first, phase.value);
      FinishedSays(intent, phase.value, setting, first);
    } else {
      var plan := setting.defaults(intent);
      FirstPrinted(r, setting, first);
      FinishedSays(Compiled(plan, true), plan.phaseScope, setting, first);
    }
  }

  lemma {:induction false} PreservedIff(r: Request, intent: string)
    requires r.plan.None? && r.phaseOverride == ""
    ensures var phase := SectionValue(intent, "Phase");
            PreservedPhase(r, intent) ==
              if InOrder(intent, REQUIRED) && phase.Some? && ValidPhase(phase.value) then phase else None
  {}
}
