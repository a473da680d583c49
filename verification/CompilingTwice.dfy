/** Compiling a request, and compiling the compiled text once more. */
module CompilingTwice {
  import opened Wrappers
  import opened TextNormalization
  import opened PromptSections
  import opened Compiler

  const MAX_INTENT := 8000
  const MAX_COMPILED := 16000

  // ---------------------------------------------------------------- valid plans

  /** The length in UTF-8. */
  function ByteLength(s: string): nat {
    if s == "" then 0
    else
      var c := s[|s| - 1];
      ByteLength(s[..|s| - 1])
      + if c <= '\U{007F}' then 1 else if c <= '\U{07FF}' then 2 else if c <= '\U{FFFF}' then 3 else 4
  }

  predicate ValidText(value: string, limit: nat, required: bool) {
    ByteLength(value) <= limit && (required ==> TrimSpace(value) != "")
  }

  predicate ValidList(values: seq<string>, required: bool) {
    && (required ==> values != []) && |values| <= 50
    && forall i :: 0 <= i < |values| ==> ValidText(values[i], 1000, true)
  }

  predicate ValidPhase(phase: string) {
    || phase == "research" || phase == "design" || phase == "implementation" || phase == "review"
    || phase == "external_coordination"
  }

  predicate ValidPlan(plan: Plan) {
    && plan.schemaVersion == "1.0.0"
    && ValidText(plan.goal, 2000, true)
    && ValidList(plan.successCriteria, true) && ValidList(plan.invariants, true)
    && ValidList(plan.decisionRules, true) && ValidList(plan.evidenceRequirements, true)
    && ValidList(plan.tools, true) && ValidList(plan.stopRules, true) && ValidList(plan.fallbackRules, true)
    && ValidList(plan.abstainRules, true) && ValidList(plan.validationBar, true)
    && ValidList(plan.artifactPriorities, false) && ValidList(plan.scope, false)
    && ValidList(plan.nonGoals, false) && ValidList(plan.gates, false)
    && ValidText(plan.outputContract, 2000, true) && ValidText(plan.approvalBoundary, 1000, true)
    && ValidPhase(plan.phaseScope)
    && ValidText(plan.role, 500, false) && ValidText(plan.personality, 500, false)
    && ValidText(plan.collaborationStyle, 500, false) && ValidText(plan.outputLanguage, 80, false)
    && (plan.stablePrefix.Some? ==> ValidText(plan.stablePrefix.value, 4000, false))
    && (plan.dynamicTail.Some? ==> ValidText(plan.dynamicTail.value, 4000, false))
  }

  /** A plan whose required sections are all printed; every valid plan is one. */
  predicate Complete(plan: Plan) {
    && TrimSpace(plan.goal) != "" && plan.successCriteria != [] && plan.invariants != []
    && plan.decisionRules != [] && plan.evidenceRequirements != [] && plan.tools != []
    && TrimSpace(plan.approvalBoundary) != "" && ValidPhase(plan.phaseScope)
    && plan.validationBar != [] && TrimSpace(plan.outputContract) != ""
    && plan.stopRules != [] && plan.fallbackRules != [] && plan.abstainRules != []
  }

  // ---------------------------------------------------------------- tidy plans

  /** A text that is left out, or is normalized. */
  predicate TidyText(value: string) {
    TrimSpace(value) == "" || TidyItem(value)
  }

  predicate TidyItem(value: string) {
    Normalized(value) == Some(value)
  }

  predicate TidyList(values: seq<string>) {
    forall i :: 0 <= i < |values| ==> TidyItem(values[i])
  }

  predicate TidyOptional(value: Option<string>) {
    value.Some? ==> TidyText(value.value)
  }

  predicate TidyIdentity(plan: Plan) {
    && TidyText(plan.role) && TidyText(plan.personality) && TidyText(plan.collaborationStyle)
    && TidyOptional(plan.stablePrefix)
  }

  predicate TidyGoal(plan: Plan) {
    && TidyText(plan.goal) && TidyList(plan.successCriteria) && TidyList(plan.invariants) && TidyList(plan.scope)
    && TidyList(plan.nonGoals)
  }

  predicate TidyRules(plan: Plan) {
    TidyList(plan.decisionRules) && TidyList(plan.evidenceRequirements) && TidyList(plan.tools)
  }

  predicate TidyBoundary(plan: Plan) {
    TidyText(plan.approvalBoundary) && TidyText(plan.phaseScope) && TidyOptional(plan.dynamicTail)
  }

  predicate TidyOutput(plan: Plan) {
    && TidyList(plan.validationBar) && TidyList(plan.gates) && TidyText(plan.outputContract)
    && TidyText(plan.outputLanguage)
  }

  predicate TidyStop(plan: Plan) {
    && TidyList(plan.artifactPriorities) && TidyList(plan.stopRules) && TidyList(plan.fallbackRules)
    && TidyList(plan.abstainRules)
  }

  predicate TidyTexts(plan: Plan) {
    && TidyIdentity(plan) && TidyGoal(plan) && TidyRules(plan) && TidyBoundary(plan) && TidyOutput(plan)
    && TidyStop(plan)
  }

  /** Every text of the plan is left out, or normalized; blank lines are allowed, but no paragraph behind one begins
      with the heading of a later section. */
  ghost predicate TidyPlan(plan: Plan) {
    TidyTexts(plan) && FreeOfLater(PlanEntries(plan, true))
  }

  lemma {:induction false} ItemCanonical(value: string)
    requires TidyItem(value)
    ensures CanonicalText(value) && TrimSpace(value) == value
  {
    NormalizedText(value);
    CanonicalTrimmed(value);
  }

  /** The items of a list as lines, each behind a dash. */
  function ListLines(values: seq<string>): string
    requires values != []
  {
    var last := "- " + TrimSpace(values[|values| - 1]);
    if |values| == 1 then last else ListLines(values[..|values| - 1]) + "\n" + last
  }

  lemma {:induction false} DashedCanonical(value: string)
    requires TidyItem(value)
    ensures CanonicalText("- " + TrimSpace(value))
  {
    ItemCanonical(value);
    CanonicalPrefix("- ", value);
  }

  lemma {:induction false} ListLinesCanonical(values: seq<string>)
    requires values != [] && TidyList(values)
    ensures CanonicalText(ListLines(values))
    decreases |values|
  {
    var init, last := values[..|values| - 1], values[|values| - 1];
    DashedCanonical(last);
    if |values| > 1 {
      ListLinesCanonical(init);
      CanonicalJoined(ListLines(init), "- " + TrimSpace(last));
    }
  }

  lemma {:induction false} ItemsAreLines(values: seq<string>)
    requires values != []
    ensures Items(values) == ListLines(values) + "\n"
    decreases |values|
  {
    if |values| > 1 {
      ItemsAreLines(values[..|values| - 1]);
    }
  }

  lemma {:induction false} TrimFinalBreak(s: string)
    requires s != "" && !IsNewline(s[|s| - 1])
    ensures TrimRightBy(IsNewline, s + "\n") == s
  {
    assert (s + "\n")[..|s|] == s;
  }

  ghost predicate TidyBody(body: Option<string>) {
    body.Some? ==> CanonicalText(body.value)
  }

  lemma {:induction false} ListTidy(title: string, values: seq<string>)
    requires TidyList(values)
    ensures TidyBody(ListEntry(title, values).body)
  {
    if values != [] {
      ListLinesCanonical(values);
      CanonicalTrimmed(ListLines(values));
      ItemsAreLines(values);
      TrimFinalBreak(ListLines(values));
    }
  }

  lemma {:induction false} TextTidy(title: string, value: string)
    requires TidyText(value)
    ensures TidyBody(TextEntry(title, value).body)
  {
    if TrimSpace(value) != "" {
      ItemCanonical(value);
    }
  }

  lemma {:induction false} OptionalTidy(title: string, value: Option<string>)
    requires TidyOptional(value)
    ensures TidyBody(OptionalEntry(title, value).body)
  {
    if value.Some? {
      TextTidy(title, value.value);
    }
  }

  // ---------------------------------------------------------------- the titles are told apart

  /** Length and first letter decide the position of a title in the plan. */
  function Rank(title: string): int {
    if title == "" then -1 else RankOf(|title|, title[0])
  }

  function RankOf(length: int, first: char): int {
    match length
    case 4 => if first == 'R' then 0 else if first == 'G' then 4 else 20
    case 5 => if first == 'S' then 7 else if first == 'T' then 11 else if first == 'P' then 13 else 16
    case 6 => 17
    case 7 => 22
    case 8 => if first == 'E' then 10 else 21
    case 9 => 8
    case 10 => 15
    case 11 => if first == 'P' then 1 else 6
    case 13 => if first == 'C' then 2 else 3
    case 14 => 9
    case 15 => if first == 'D' then 14 else 18
    case 16 => 5
    case 17 => 12
    case _ => 19
  }

  ghost predicate EntryOk(entry: Entry, rank: int) {
    TitleOk(entry.title) && Rank(entry.title) == rank && TidyBody(entry.body)
  }

  ghost predicate EntryOkAt(entries: seq<Entry>, base: nat, i: nat) {
    i < |entries| ==> EntryOk(entries[i], base + i)
  }

  ghost predicate EntriesOk(entries: seq<Entry>, base: nat) {
    forall i: nat :: EntryOkAt(entries, base, i)
  }

  lemma {:induction false} JoinedOk(a: seq<Entry>, b: seq<Entry>, base: nat)
    requires EntriesOk(a, base) && EntriesOk(b, base + |a|)
    ensures EntriesOk(a + b, base)
  {
    var all := a + b;
    forall i: nat {:trigger EntryOkAt(all, base, i)} ensures EntryOkAt(all, base, i) {
      assert EntryOkAt(a, base, i);
      assert i >= |a| ==> EntryOkAt(b, base + |a|, i - |a|);
    }
  }

  lemma {:induction false} ThreeOk(a: Entry, b: Entry, c: Entry, base: nat)
    requires EntryOk(a, base) && EntryOk(b, base + 1) && EntryOk(c, base + 2)
    ensures EntriesOk([a, b, c], base)
  {}

  lemma {:induction false} FourOk(a: Entry, b: Entry, c: Entry, d: Entry, base: nat)
    requires EntryOk(a, base) && EntryOk(b, base + 1) && EntryOk(c, base + 2) && EntryOk(d, base + 3)
    ensures EntriesOk([a, b, c, d], base)
  {}

  lemma {:induction false} FiveOk(a: Entry, b: Entry, c: Entry, d: Entry, e: Entry, base: nat)
    requires EntryOk(a, base) && EntryOk(b, base + 1) && EntryOk(c, base + 2) && EntryOk(d, base + 3)
    requires EntryOk(e, base + 4)
    ensures EntriesOk([a, b, c, d, e], base)
  {}

  predicate TitleFits(title: string, rank: int) {
    TitleOk(title) && Rank(title) == rank
  }

  lemma {:induction false} TextOk(title: string, value: string, rank: int)
    requires TitleFits(title, rank) && TidyText(value)
    ensures EntryOk(TextEntry(title, value), rank)
  {
    TextTidy(title, value);
  }

  lemma {:induction false} OptionalOk(title: string, value: Option<string>, rank: int)
    requires TitleFits(title, rank) && TidyOptional(value)
    ensures EntryOk(OptionalEntry(title, value), rank)
  {
    OptionalTidy(title, value);
  }

  lemma {:induction false} ListOk(title: string, values: seq<string>, rank: int)
    requires TitleFits(title, rank) && TidyList(values)
    ensures EntryOk(ListEntry(title, values), rank)
  {
    ListTidy(title, values);
  }

  lemma {:induction false} IdentityTitles()
    ensures TitleFits("Role", 0) && TitleFits("Personality", 1) && TitleFits("Collaboration", 2)
    ensures TitleFits("Stable prefix", 3)
  {}

  lemma {:induction false} GoalTitles()
    ensures TitleFits("Goal", 4) && TitleFits("Success criteria", 5) && TitleFits("Constraints", 6)
    ensures TitleFits("Scope", 7) && TitleFits("Non-goals", 8)
  {}

  lemma {:induction false} RuleTitles()
    ensures TitleFits("Decision rules", 9) && TitleFits("Evidence", 10) && TitleFits("Tools", 11)
  {}

  lemma {:induction false} BoundaryTitles()
    ensures TitleFits("Approval boundary", 12) && TitleFits("Phase", 13) && TitleFits("Dynamic context", 14)
  {}

  lemma {:induction false} OutputTitles()
    ensures TitleFits("Validation", 15) && TitleFits("Gates", 16) && TitleFits("Output", 17)
    ensures TitleFits("Output language", 18)
  {}

  lemma {:induction false} StopTitles()
    ensures TitleFits("Artifact priorities", 19) && TitleFits("Stop", 20) && TitleFits("Fallback", 21)
    ensures TitleFits("Abstain", 22)
  {}

  lemma {:induction false} IdentityOk(plan: Plan)
    requires TidyIdentity(plan)
    ensures EntriesOk(IdentityEntries(plan), 0)
  {
    IdentityTitles();
    TextOk("Role", plan.role, 0);
    TextOk("Personality", plan.personality, 1);
    TextOk("Collaboration", plan.collaborationStyle, 2);
    OptionalOk("Stable prefix", plan.stablePrefix, 3);
    var e := IdentityEntries(plan);
    FourOk(e[0], e[1], e[2], e[3], 0);
  }

  lemma {:induction false} GoalOk(plan: Plan, includeGoal: bool)
    requires TidyGoal(plan)
    ensures EntriesOk(GoalEntries(plan, includeGoal), 4)
  {
    GoalTitles();
    OptionalOk("Goal", if includeGoal then Some(plan.goal) else None, 4);
    ListOk("Success criteria", plan.successCriteria, 5);
    ListOk("Constraints", plan.invariants, 6);
    ListOk("Scope", plan.scope, 7);
    ListOk("Non-goals", plan.nonGoals, 8);
    var e := GoalEntries(plan, includeGoal);
    FiveOk(e[0], e[1], e[2], e[3], e[4], 4);
  }

  lemma {:induction false} RulesOk(plan: Plan)
    requires TidyRules(plan)
    ensures EntriesOk(RuleEntries(plan), 9)
  {
    RuleTitles();
    ListOk("Decision rules", plan.decisionRules, 9);
    ListOk("Evidence", plan.evidenceRequirements, 10);
    ListOk("Tools", plan.tools, 11);
    var e := RuleEntries(plan);
    ThreeOk(e[0], e[1], e[2], 9);
  }

  lemma {:induction false} BoundaryOk(plan: Plan)
    requires TidyBoundary(plan)
    ensures EntriesOk(BoundaryEntries(plan), 12)
  {
    BoundaryTitles();
    TextOk("Approval boundary", plan.approvalBoundary, 12);
    TextOk("Phase", plan.phaseScope, 13);
    OptionalOk("Dynamic context", plan.dynamicTail, 14);
    var e := BoundaryEntries(plan);
    ThreeOk(e[0], e[1], e[2], 12);
  }

  lemma {:induction false} OutputOk(plan: Plan)
    requires TidyOutput(plan)
    ensures EntriesOk(OutputEntries(plan), 15)
  {
    OutputTitles();
    ListOk("Validation", plan.validationBar, 15);
    ListOk("Gates", plan.gates, 16);
    TextOk("Output", plan.outputContract, 17);
    TextOk("Output language", plan.outputLanguage, 18);
    var e := OutputEntries(plan);
    FourOk(e[0], e[1], e[2], e[3], 15);
  }

  lemma {:induction false} StopOk(plan: Plan)
    requires TidyStop(plan)
    ensures EntriesOk(StopEntries(plan), 19)
  {
    StopTitles();
    ListOk("Artifact priorities", plan.artifactPriorities, 19);
    ListOk("Stop", plan.stopRules, 20);
    ListOk("Fallback", plan.fallbackRules, 21);
    ListOk("Abstain", plan.abstainRules, 22);
    var e := StopEntries(plan);
    FourOk(e[0], e[1], e[2], e[3], 19);
  }

  lemma {:induction false} SixOk(a: seq<Entry>, b: seq<Entry>, c: seq<Entry>, d: seq<Entry>, e: seq<Entry>,
                                 f: seq<Entry>)
    requires EntriesOk(a, 0) && EntriesOk(b, |a|) && EntriesOk(c, |a + b|) && EntriesOk(d, |a + b + c|)
    requires EntriesOk(e, |a + b + c + d|) && EntriesOk(f, |a + b + c + d + e|)
    ensures EntriesOk(a + b + c + d + e + f, 0)
  {
    JoinedOk(a, b, 0);
    JoinedOk(a + b, c, 0);
    JoinedOk(a + b + c, d, 0);
    JoinedOk(a + b + c + d, e, 0);
    JoinedOk(a + b + c + d + e, f, 0);
  }

  /** Titles at different positions have different ranks. */
  lemma {:induction false} OkIsTidy(entries: seq<Entry>)
    requires EntriesOk(entries, 0) && FreeOfLater(entries)
    ensures Tidy(entries)
  {
    forall i: nat {:trigger TidyAt(entries, i)} ensures TidyAt(entries, i) {
      assert EntryOkAt(entries, 0, i);
    }
    forall i, j | 0 <= i < j < |entries| ensures entries[i].title != entries[j].title {
      assert EntryOkAt(entries, 0, i) && EntryOkAt(entries, 0, j);
    }
  }

  lemma {:induction false} PlanIsTidy(plan: Plan)
    requires TidyPlan(plan)
    ensures Tidy(PlanEntries(plan, true))
  {
    PlanIsOk(plan, true);
    OkIsTidy(PlanEntries(plan, true));
  }

  lemma {:induction false} PlanIsOk(plan: Plan, includeGoal: bool)
    requires TidyTexts(plan)
    ensures EntriesOk(PlanEntries(plan, includeGoal), 0)
  {
    IdentityOk(plan);
    GoalOk(plan, includeGoal);
    RulesOk(plan);
    BoundaryOk(plan);
    OutputOk(plan);
    StopOk(plan);
    SixOk(IdentityEntries(plan), GoalEntries(plan, includeGoal), RuleEntries(plan), BoundaryEntries(plan),
          OutputEntries(plan), StopEntries(plan));
  }

  // ---------------------------------------------------------------- the sections a compiled text must have

  const REQUIRED: seq<string> :=
    [ "Goal", "Success criteria", "Constraints", "Decision rules", "Evidence", "Tools", "Approval boundary", "Phase",
      "Validation", "Output", "Stop", "Fallback", "Abstain" ]

  lemma {:induction false} SixIndex<T>(a: seq<T>, b: seq<T>, c: seq<T>, d: seq<T>, e: seq<T>, f: seq<T>, i: nat)
    requires |a| == 4 && |b| == 5 && |c| == 3 && |d| == 3 && |e| == 4 && |f| == 4 && i < 23
    ensures (a + b + c + d + e + f)[i] ==
      if i < 4 then a[i] else if i < 9 then b[i - 4] else if i < 12 then c[i - 9]
      else if i < 15 then d[i - 12] else if i < 19 then e[i - 15] else f[i - 19]
  {}

  ghost predicate PresentIn(entries: seq<Entry>, i: nat, title: string) {
    i < |entries| && entries[i].title == title && entries[i].body.Some?
  }

  function GroupStart(group: nat): nat {
    match group
    case 0 => 0
    case 1 => 4
    case 2 => 9
    case 3 => 12
    case 4 => 15
    case _ => 19
  }

  /** A section of one group is a section of the whole. */
  lemma {:induction false} SixPresent(a: seq<Entry>, b: seq<Entry>, c: seq<Entry>, d: seq<Entry>, e: seq<Entry>,
                                      f: seq<Entry>, group: nat, i: nat, title: string)
    requires |a| == 4 && |b| == 5 && |c| == 3 && |d| == 3 && |e| == 4 && |f| == 4 && group < 6
    requires PresentIn([a, b, c, d, e, f][group], i, title)
    ensures PresentIn(a + b + c + d + e + f, GroupStart(group) + i, title)
    ensures (a + b + c + d + e + f)[GroupStart(group) + i] == [a, b, c, d, e, f][group][i]
  {
    SixIndex(a, b, c, d, e, f, GroupStart(group) + i);
  }

  lemma {:induction false} GoalPresent(plan: Plan)
    requires TrimSpace(plan.goal) != "" && plan.successCriteria != [] && plan.invariants != []
    ensures PresentIn(GoalEntries(plan, true), 0, "Goal") && PresentIn(GoalEntries(plan, true), 1, "Success criteria")
    ensures PresentIn(GoalEntries(plan, true), 2, "Constraints")
  {}

  lemma {:induction false} RulesPresent(plan: Plan)
    requires plan.decisionRules != [] && plan.evidenceRequirements != [] && plan.tools != []
    ensures PresentIn(RuleEntries(plan), 0, "Decision rules") && PresentIn(RuleEntries(plan), 1, "Evidence")
    ensures PresentIn(RuleEntries(plan), 2, "Tools")
  {}

  lemma {:induction false} BoundaryPresent(plan: Plan)
    requires TrimSpace(plan.approvalBoundary) != "" && TrimSpace(plan.phaseScope) == plan.phaseScope != ""
    ensures PresentIn(BoundaryEntries(plan), 0, "Approval boundary") && PresentIn(BoundaryEntries(plan), 1, "Phase")
    ensures BoundaryEntries(plan)[1].body == Some(plan.phaseScope)
  {}

  lemma {:induction false} OutputPresent(plan: Plan)
    requires plan.validationBar != [] && TrimSpace(plan.outputContract) != ""
    ensures PresentIn(OutputEntries(plan), 0, "Validation") && PresentIn(OutputEntries(plan), 2, "Output")
  {}

  lemma {:induction false} StopPresent(plan: Plan)
    requires plan.stopRules != [] && plan.fallbackRules != [] && plan.abstainRules != []
    ensures PresentIn(StopEntries(plan), 1, "Stop") && PresentIn(StopEntries(plan), 2, "Fallback")
    ensures PresentIn(StopEntries(plan), 3, "Abstain")
  {}

  lemma {:induction false} PhaseTrimmed(phase: string)
    requires ValidPhase(phase)
    ensures TrimSpace(phase) == phase != ""
  {}

  lemma {:induction false} PhaseIsLine(phase: string)
    requires ValidPhase(phase)
    ensures Paragraph(phase)
  {
    assert NoBreaks(phase) && !IsSpace(phase[0]) && !IsSpace(phase[|phase| - 1]);
    SingleLine(phase);
  }

  /** All sections that a compiled text must have, at their positions. */
  ghost predicate AllPresent(entries: seq<Entry>) {
    && PresentIn(entries, 4, "Goal") && PresentIn(entries, 5, "Success criteria")
    && PresentIn(entries, 6, "Constraints")
    && PresentIn(entries, 9, "Decision rules") && PresentIn(entries, 10, "Evidence") && PresentIn(entries, 11, "Tools")
    && PresentIn(entries, 12, "Approval boundary") && PresentIn(entries, 13, "Phase")
    && PresentIn(entries, 15, "Validation") && PresentIn(entries, 17, "Output")
    && PresentIn(entries, 20, "Stop") && PresentIn(entries, 21, "Fallback") && PresentIn(entries, 22, "Abstain")
  }

  lemma {:induction false} SixAllPresent(a: seq<Entry>, b: seq<Entry>, c: seq<Entry>, d: seq<Entry>, e: seq<Entry>,
                                         f: seq<Entry>)
    requires |a| == 4 && |b| == 5 && |c| == 3 && |d| == 3 && |e| == 4 && |f| == 4
    requires PresentIn(b, 0, "Goal") && PresentIn(b, 1, "Success criteria") && PresentIn(b, 2, "Constraints")
    requires PresentIn(c, 0, "Decision rules") && PresentIn(c, 1, "Evidence") && PresentIn(c, 2, "Tools")
    requires PresentIn(d, 0, "Approval boundary") && PresentIn(d, 1, "Phase")
    requires PresentIn(e, 0, "Validation") && PresentIn(e, 2, "Output")
    requires PresentIn(f, 1, "Stop") && PresentIn(f, 2, "Fallback") && PresentIn(f, 3, "Abstain")
    ensures AllPresent(a + b + c + d + e + f) && (a + b + c + d + e + f)[13] == d[1]
  {
    SixPresent(a, b, c, d, e, f, 1, 0, "Goal");
    SixPresent(a, b, c, d, e, f, 1, 1, "Success criteria");
    SixPresent(a, b, c, d, e, f, 1, 2, "Constraints");
    SixPresent(a, b, c, d, e, f, 2, 0, "Decision rules");
    SixPresent(a, b, c, d, e, f, 2, 1, "Evidence");
    SixPresent(a, b, c, d, e, f, 2, 2, "Tools");
    SixPresent(a, b, c, d, e, f, 3, 0, "Approval boundary");
    SixPresent(a, b, c, d, e, f, 3, 1, "Phase");
    SixPresent(a, b, c, d, e, f, 4, 0, "Validation");
    SixPresent(a, b, c, d, e, f, 4, 2, "Output");
    SixPresent(a, b, c, d, e, f, 5, 1, "Stop");
    SixPresent(a, b, c, d, e, f, 5, 2, "Fallback");
    SixPresent(a, b, c, d, e, f, 5, 3, "Abstain");
  }

  /** Where the required sections stand among all sections of a plan. */
  function Position(k: nat): nat {
    if k < 3 then k + 4 else if k < 8 then k + 6 else if k == 8 then 15 else if k == 9 then 17 else k + 10
  }

  lemma {:induction false} RequiredPresent(entries: seq<Entry>, k: nat)
    requires AllPresent(entries) && k < |REQUIRED|
    ensures PresentIn(entries, Position(k), REQUIRED[k])
  {
    match k {
      case 0 => case 1 => case 2 => case 3 => case 4 => case 5 => case 6 => case 7 => case 8 => case 9 =>
      case 10 => case 11 => case _ =>
    }
  }

  lemma {:induction false} PresentIsRecognised(entries: seq<Entry>)
    requires Tidy(entries) && AllPresent(entries)
    ensures InOrder(Rendered(entries), REQUIRED)
  {
    forall k: nat | k < |REQUIRED| ensures BehindPrevious(Rendered(entries), REQUIRED, k) {
      RequiredPresent(entries, k);
      SectionFound(entries, Position(k));
      if k > 0 {
        RequiredPresent(entries, k - 1);
        FoundInOrder(entries, Position(k - 1), Position(k));
      }
    }
  }

  lemma {:induction false} PlanIsPresent(plan: Plan)
    requires Complete(plan)
    ensures AllPresent(PlanEntries(plan, true)) && PlanEntries(plan, true)[13].body == Some(plan.phaseScope)
  {
    GoalPresent(plan);
    RulesPresent(plan);
    PhaseTrimmed(plan.phaseScope);
    BoundaryPresent(plan);
    OutputPresent(plan);
    StopPresent(plan);
    SixAllPresent(IdentityEntries(plan), GoalEntries(plan, true), RuleEntries(plan), BoundaryEntries(plan),
                  OutputEntries(plan), StopEntries(plan));
  }

  /** A printed plan is recognised, and its phase is read back. */
  lemma {:induction false} PrintedPlanIsRecognised(plan: Plan)
    requires Complete(plan) && TidyPlan(plan)
    ensures InOrder(Compiled(plan, true), REQUIRED)
    ensures SectionValue(Compiled(plan, true), "Phase") == Some(plan.phaseScope)
  {
    PlanIsTidy(plan);
    PlanIsPresent(plan);
    PresentIsRecognised(PlanEntries(plan, true));
    PhaseIsLine(plan.phaseScope);
    ParagraphCompact(plan.phaseScope);
    SectionRead(PlanEntries(plan, true), 13);
  }

  // ---------------------------------------------------------------- compiling a request

  /** A request without an override has the empty phase. */
  datatype Request = Request(intent: string, plan: Option<Plan>, phaseOverride: string)

  /** The compiled text, the phase it is for and what policy says about that phase. */
  datatype Improved = Improved(prompt: string, phase: string, outcome: string)

  datatype Failure = InvalidPhase | IntentTooLong | EmptyIntent | InvalidPlan | PromptTooLong | PolicyError

  /** The fixed wording of the default plan, and the policy decision for a phase. */
  datatype Setting = Setting(defaults: string -> Plan, policy: string -> Option<string>)

  predicate LooksCompiled(value: string) {
    InOrder(value, REQUIRED)
  }

  method FindSections(value: string) returns (found: bool)
    ensures found == LooksCompiled(value)
  {
    var previous := -1;
    for i := 0 to |REQUIRED|
      invariant previous == if i == 0 then -1 else SectionIndex(value, REQUIRED[i - 1])
      invariant forall j :: 0 <= j < i ==> BehindPrevious(value, REQUIRED, j)
    {
      var index := SectionIndex(value, REQUIRED[i]);
      if index <= previous {
        assert !BehindPrevious(value, REQUIRED, i);
        return false;
      }
      previous := index;
    }
    found := true;
  }

  /** The phase of a text that is kept as it is. */
  function PreservedPhase(r: Request, intent: string): Option<string> {
    if r.phaseOverride == "" && r.plan.None? && LooksCompiled(intent) then
      match SectionValue(intent, "Phase")
      case Some(phase) => if ValidPhase(phase) then Some(phase) else None
      case None => None
    else None
  }

  function EffectivePlan(r: Request, intent: string, setting: Setting): Plan {
    var plan := if r.plan.Some? then r.plan.value else setting.defaults(intent);
    if r.phaseOverride == "" then plan else plan.(phaseScope := r.phaseOverride)
  }

  function Finished(prompt: string, phase: string, setting: Setting): Result<Improved, Failure> {
    if ByteLength(prompt) > MAX_COMPILED then Err(PromptTooLong)
    else
      match setting.policy(phase)
      case Some(outcome) => Ok(Improved(prompt, phase, outcome))
      case None => Err(PolicyError)
  }

  function ImproveResult(r: Request, setting: Setting): Result<Improved, Failure> {
    if r.phaseOverride != "" && !ValidPhase(r.phaseOverride) then Err(InvalidPhase)
    else if ByteLength(r.intent) > MAX_INTENT then Err(IntentTooLong)
    else
      match Normalized(r.intent)
      case None => Err(EmptyIntent)
      case Some(intent) =>
        if r.plan.Some? && !ValidPlan(r.plan.value) then Err(InvalidPlan)
        else
          match PreservedPhase(r, intent)
          case Some(phase) => Finished(intent, phase, setting)
          case None =>
            var plan := EffectivePlan(r, intent, setting);
            Finished(Compiled(plan, true), plan.phaseScope, setting)
  }

  method Improve(r: Request, setting: Setting) returns (result: Result<Improved, Failure>)
    ensures result == ImproveResult(r, setting)
  {
    if r.phaseOverride != "" && !ValidPhase(r.phaseOverride) {
      return Err(InvalidPhase);
    }
    if ByteLength(r.intent) > MAX_INTENT {
      return Err(IntentTooLong);
    }
    var normalized := Normalize(r.intent);
    if normalized.None? {
      return Err(EmptyIntent);
    }
    var intent := normalized.value;
    if r.plan.Some? && !ValidPlan(r.plan.value) {
      return Err(InvalidPlan);
    }
    var plan := EffectivePlan(r, intent, setting);
    var preserve := false;
    if r.phaseOverride == "" && r.plan.None? {
      preserve := FindSections(intent);
    }
    var phase := plan.phaseScope;
    if preserve {
      var value := SectionValue(intent, "Phase");
      if value.None? || !ValidPhase(value.value) {
        preserve := false;
      } else {
        phase := value.value;
      }
    }
    var compiled := intent;
    if !preserve {
      compiled := RenderPlan(plan, true);
    }
    result := Finished(compiled, phase, setting);
  }

  // ---------------------------------------------------------------- compiling twice

  lemma {:induction false} CompiledIsCanonical(plan: Plan)
    requires Complete(plan) && TidyPlan(plan)
    ensures Normalized(Compiled(plan, true)) == Some(Compiled(plan, true))
  {
    PlanIsTidy(plan);
    PlanIsPresent(plan);
    SectionFound(PlanEntries(plan, true), 4);
    PrintedAt(PlanEntries(plan, true), 4);
    RenderedCanonical(PlanEntries(plan, true));
    CanonicalTextUnchanged(Compiled(plan, true));
  }

  /** A normalized text with all sections and a valid phase is kept. */
  lemma {:induction false} Kept(prompt: string, phase: string, setting: Setting)
    requires Normalized(prompt) == Some(prompt) && LooksCompiled(prompt) && ByteLength(prompt) <= MAX_INTENT
    requires SectionValue(prompt, "Phase") == Some(phase) && ValidPhase(phase)
    ensures ImproveResult(Request(prompt, None, ""), setting) == Finished(prompt, phase, setting)
  {}

  lemma {:induction false} PrintedIsKept(plan: Plan, setting: Setting)
    requires Complete(plan) && TidyPlan(plan) && ByteLength(Compiled(plan, true)) <= MAX_INTENT
    ensures ImproveResult(Request(Compiled(plan, true), None, ""), setting)
      == Finished(Compiled(plan, true), plan.phaseScope, setting)
  {
    CompiledIsCanonical(plan);
    PrintedPlanIsRecognised(plan);
    Kept(Compiled(plan, true), plan.phaseScope, setting);
  }

  lemma {:induction false} PreservedIsKept(r: Request, phase: string, setting: Setting)
    requires Normalized(r.intent).Some?
    requires PreservedPhase(r, Normalized(r.intent).value) == Some(phase)
    requires ByteLength(Normalized(r.intent).value) <= MAX_INTENT
    ensures ImproveResult(Request(Normalized(r.intent).value, None, ""), setting)
      == Finished(Normalized(r.intent).value, phase, setting)
  {
    NormalizeTwice(r.intent);
    Kept(Normalized(r.intent).value, phase, setting);
  }

  /** The plan that a request prints: its own valid one, or the default one. */
  ghost predicate Printable(r: Request, intent: string, setting: Setting) {
    var plan := EffectivePlan(r, intent, setting);
    TidyPlan(plan) && (r.plan.None? ==> Complete(plan))
  }

  lemma {:induction false} EffectiveComplete(r: Request, intent: string, setting: Setting)
    requires Printable(r, intent, setting) && (r.plan.Some? ==> ValidPlan(r.plan.value))
    requires r.phaseOverride == "" || ValidPhase(r.phaseOverride)
    ensures Complete(EffectivePlan(r, intent, setting))
  {}

  lemma {:induction false} FirstPreserved(r: Request, setting: Setting, first: Improved, phase: string)
    requires ImproveResult(r, setting) == Ok(first)
    requires PreservedPhase(r, Normalized(r.intent).value) == Some(phase)
    ensures Normalized(r.intent) == Some(first.prompt) && Finished(first.prompt, phase, setting) == Ok(first)
  {}

  lemma {:induction false} FirstPrinted(r: Request, setting: Setting, first: Improved)
    requires ImproveResult(r, setting) == Ok(first)
    requires PreservedPhase(r, Normalized(r.intent).value) == None
    ensures var plan := EffectivePlan(r, Normalized(r.intent).value, setting);
      Compiled(plan, true) == first.prompt && Finished(first.prompt, plan.phaseScope, setting) == Ok(first)
    ensures r.plan.Some? ==> ValidPlan(r.plan.value)
    ensures r.phaseOverride == "" || ValidPhase(r.phaseOverride)
  {}

  /** Feeding a compiled text back as the intent returns it unchanged, with the same phase and outcome. */
  lemma {:induction false} CompilingTwiceIsCompilingOnce(r: Request, setting: Setting, first: Improved)
    requires ImproveResult(r, setting) == Ok(first) && ByteLength(first.prompt) <= MAX_INTENT
    requires PreservedPhase(r, Normalized(r.intent).value).None? ==> Printable(r, Normalized(r.intent).value, setting)
    ensures ImproveResult(Request(first.prompt, None, ""), setting) == Ok(first)
  {
    var intent := Normalized(r.intent).value;
    match PreservedPhase(r, intent)
    case Some(phase) =>
      FirstPreserved(r, setting, first, phase);
      PreservedIsKept(r, phase, setting);
    case None =>
      FirstPrinted(r, setting, first);
      EffectiveComplete(r, intent, setting);
      PrintedIsKept(EffectivePlan(r, intent, setting), setting);
  }
}
