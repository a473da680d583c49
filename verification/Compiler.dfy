/** The prompt compiler's printer: a plan becomes titled sections, empty ones left out. */
module Compiler {
  import opened Wrappers
  import opened TextNormalization
  import opened PromptSections

  datatype Plan = Plan(
    schemaVersion: string,
    role: string,
    personality: string,
    collaborationStyle: string,
    stablePrefix: Option<string>,
    goal: string,
    successCriteria: seq<string>,
    invariants: seq<string>,
    scope: seq<string>,
    nonGoals: seq<string>,
    decisionRules: seq<string>,
    evidenceRequirements: seq<string>,
    tools: seq<string>,
    approvalBoundary: string,
    phaseScope: string,
    dynamicTail: Option<string>,
    validationBar: seq<string>,
    gates: seq<string>,
    outputContract: string,
    outputLanguage: string,
    artifactPriorities: seq<string>,
    stopRules: seq<string>,
    fallbackRules: seq<string>,
    abstainRules: seq<string>
  )

  predicate IsNewline(c: char) {
    c == '\n'
  }

  function TextEntry(title: string, value: string): Entry {
    Entry(title, if TrimSpace(value) == "" then None else Some(TrimSpace(value)))
  }

  function OptionalEntry(title: string, value: Option<string>): Entry {
    if value.None? then Entry(title, None) else TextEntry(title, value.value)
  }

  function Items(values: seq<string>): string {
    if values == [] then ""
    else Items(values[..|values| - 1]) + "- " + TrimSpace(values[|values| - 1]) + "\n"
  }

  function ListEntry(title: string, values: seq<string>): Entry {
    Entry(title, if values == [] then None else Some(TrimRightBy(IsNewline, Items(values))))
  }

  function IdentityEntries(plan: Plan): seq<Entry> {
    [ TextEntry("Role", plan.role),
      TextEntry("Personality", plan.personality),
      TextEntry("Collaboration", plan.collaborationStyle),
      OptionalEntry("Stable prefix", plan.stablePrefix) ]
  }

  function GoalEntries(plan: Plan, includeGoal: bool): seq<Entry> {
    [ OptionalEntry("Goal", if includeGoal then Some(plan.goal) else None),
      ListEntry("Success criteria", plan.successCriteria),
      ListEntry("Constraints", plan.invariants),
      ListEntry("Scope", plan.scope),
      ListEntry("Non-goals", plan.nonGoals) ]
  }

  function RuleEntries(plan: Plan): seq<Entry> {
    [ ListEntry("Decision rules", plan.decisionRules),
      ListEntry("Evidence", plan.evidenceRequirements),
      ListEntry("Tools", plan.tools) ]
  }

  function BoundaryEntries(plan: Plan): seq<Entry> {
    [ TextEntry("Approval boundary", plan.approvalBoundary),
      TextEntry("Phase", plan.phaseScope),
      OptionalEntry("Dynamic context", plan.dynamicTail) ]
  }

  function OutputEntries(plan: Plan): seq<Entry> {
    [ ListEntry("Validation", plan.validationBar),
      ListEntry("Gates", plan.gates),
      TextEntry("Output", plan.outputContract),
      TextEntry("Output language", plan.outputLanguage) ]
  }

  function StopEntries(plan: Plan): seq<Entry> {
    [ ListEntry("Artifact priorities", plan.artifactPriorities),
      ListEntry("Stop", plan.stopRules),
      ListEntry("Fallback", plan.fallbackRules),
      ListEntry("Abstain", plan.abstainRules) ]
  }

  /** The sections of a plan in the order in which they are printed. */
  function PlanEntries(plan: Plan, includeGoal: bool): seq<Entry> {
    IdentityEntries(plan) + GoalEntries(plan, includeGoal) + RuleEntries(plan) + BoundaryEntries(plan)
    + OutputEntries(plan) + StopEntries(plan)
  }

  function Compiled(plan: Plan, includeGoal: bool): string {
    Rendered(PlanEntries(plan, includeGoal))
  }

  // ---------------------------------------------------------------- printing

  lemma {:induction false} SectionsAppend(entries: seq<Entry>, entry: Entry)
    ensures Sections(entries + [entry]) == Sections(entries) + Sections([entry])
  {
    if entries == [] {
      assert entries + [entry] == [entry];
    } else {
      SectionsAppend(entries[1..], entry);
      assert (entries + [entry])[1..] == entries[1..] + [entry];
    }
  }

  lemma {:induction false} ItemsVisible(values: seq<string>)
    requires values != []
    ensures Items(values) != "" && Items(values)[0] == '-'
    ensures TrimRightBy(IsNewline, Items(values)) != ""
  {
    if |values| > 1 {
      ItemsVisible(values[..|values| - 1]);
    }
    assert Items(values)[0] == '-';
    TrimKeepsFirst(Items(values));
  }

  lemma {:induction false} TrimKeepsFirst(s: string)
    requires s != "" && !IsNewline(s[0])
    ensures TrimRightBy(IsNewline, s) != ""
  {
    if IsNewline(s[|s| - 1]) {
      TrimKeepsFirst(s[..|s| - 1]);
    }
  }

  /** A title and its items, without the last line break. */
  method ListText(title: string, values: seq<string>) returns (text: string)
    requires values != []
    ensures text == SectionText(title, TrimRightBy(IsNewline, Items(values)))
  {
    text := title + ":\n";
    for i := 0 to |values|
      invariant text == title + ":\n" + Items(values[..i])
    {
      assert values[..i + 1][..i] == values[..i];
      text := text + "- " + TrimSpace(values[i]) + "\n";
    }
    assert values[..|values|] == values;
    ItemsVisible(values);
    TrimRightAppend(IsNewline, title + ":\n", Items(values));
    text := TrimRightBy(IsNewline, text);
  }

  /** The printer's list of sections and the two closures that append to it. */
  class Printer {
    var sections: seq<string>
    ghost var entries: seq<Entry>

    constructor ()
      ensures Valid() && entries == []
    {
      sections, entries := [], [];
    }

    ghost predicate Valid()
      reads this
    {
      sections == Sections(entries)
    }

    method AddText(title: string, value: string)
      requires Valid()
      modifies this
      ensures Valid() && entries == old(entries) + [TextEntry(title, value)]
    {
      SectionsAppend(entries, TextEntry(title, value));
      if TrimSpace(value) != "" {
        sections := sections + [title + ":\n" + TrimSpace(value)];
      }
      entries := entries + [TextEntry(title, value)];
    }

    method AddOptional(title: string, value: Option<string>)
      requires Valid()
      modifies this
      ensures Valid() && entries == old(entries) + [OptionalEntry(title, value)]
    {
      if value.Some? {
        AddText(title, value.value);
      } else {
        SectionsAppend(entries, Entry(title, None));
        entries := entries + [Entry(title, None)];
      }
    }

    method AddList(title: string, values: seq<string>)
      requires Valid()
      modifies this
      ensures Valid() && entries == old(entries) + [ListEntry(title, values)]
    {
      SectionsAppend(entries, ListEntry(title, values));
      if |values| > 0 {
        var text := ListText(title, values);
        sections := sections + [text];
      }
      entries := entries + [ListEntry(title, values)];
    }

    method AddIdentity(plan: Plan)
      requires Valid()
      modifies this
      ensures Valid() && entries == old(entries) + IdentityEntries(plan)
    {
      AddText("Role", plan.role);
      AddText("Personality", plan.personality);
      AddText("Collaboration", plan.collaborationStyle);
      AddOptional("Stable prefix", plan.stablePrefix);
    }

    method AddGoal(plan: Plan, includeGoal: bool)
      requires Valid()
      modifies this
      ensures Valid() && entries == old(entries) + GoalEntries(plan, includeGoal)
    {
      AddOptional("Goal", if includeGoal then Some(plan.goal) else None);
      AddList("Success criteria", plan.successCriteria);
      AddList("Constraints", plan.invariants);
      AddList("Scope", plan.scope);
      AddList("Non-goals", plan.nonGoals);
    }

    method AddRules(plan: Plan)
      requires Valid()
      modifies this
      ensures Valid() && entries == old(entries) + RuleEntries(plan)
    {
      AddList("Decision rules", plan.decisionRules);
      AddList("Evidence", plan.evidenceRequirements);
      AddList("Tools", plan.tools);
    }

    method AddBoundary(plan: Plan)
      requires Valid()
      modifies this
      ensures Valid() && entries == old(entries) + BoundaryEntries(plan)
    {
      AddText("Approval boundary", plan.approvalBoundary);
      AddText("Phase", plan.phaseScope);
      AddOptional("Dynamic context", plan.dynamicTail);
    }

    method AddOutput(plan: Plan)
      requires Valid()
      modifies this
      ensures Valid() && entries == old(entries) + OutputEntries(plan)
    {
      AddList("Validation", plan.validationBar);
      AddList("Gates", plan.gates);
      AddText("Output", plan.outputContract);
      AddText("Output language", plan.outputLanguage);
    }

    method AddStop(plan: Plan)
      requires Valid()
      modifies this
      ensures Valid() && entries == old(entries) + StopEntries(plan)
    {
      AddList("Artifact priorities", plan.artifactPriorities);
      AddList("Stop", plan.stopRules);
      AddList("Fallback", plan.fallbackRules);
      AddList("Abstain", plan.abstainRules);
    }
  }

  lemma {:induction false} FromEmpty<T>(a: seq<T>, b: seq<T>, c: seq<T>, d: seq<T>, e: seq<T>, f: seq<T>)
    ensures [] + a + b + c + d + e + f == a + b + c + d + e + f
  {
    assert [] + a == a;
  }

  method RenderPlan(plan: Plan, includeGoal: bool) returns (text: string)
    ensures text == Compiled(plan, includeGoal)
  {
    var printer := new Printer();
    printer.AddIdentity(plan);
    printer.AddGoal(plan, includeGoal);
    printer.AddRules(plan);
    printer.AddBoundary(plan);
    printer.AddOutput(plan);
    printer.AddStop(plan);
    FromEmpty(IdentityEntries(plan), GoalEntries(plan, includeGoal), RuleEntries(plan), BoundaryEntries(plan),
              OutputEntries(plan), StopEntries(plan));
    text := JoinSections(printer.sections);
  }
}
