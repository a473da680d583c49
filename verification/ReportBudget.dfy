/** Fitting a rendered report into its byte budget, section by section, with every omission reported. */
module ReportBudget {
  import opened Wrappers

  const MAX_RESULT_BYTES := 50_000
  const MAX_RECOMMENDATIONS := 5

  /** The lists of a report that may be shortened, in the order in which they are: confounders, outliers,
      findings, metrics, contributions, workload, sources, overhead, comparison windows, provenance and
      recommendations. Everything else in a report is part of how it is rendered. */
  type Model = seq<seq<string>>

  const SECTIONS: nat := 11
  const COMPARISONS: nat := 8
  const RECOMMENDATIONS: nat := 10

  /** How many elements of each section have been left out. */
  type Omissions = map<nat, nat>

  datatype Report = Report(rendered: string, omittedCount: nat, sectionOmissions: Omissions)

  datatype ReportError = EnvelopeTooLarge

  /** Rendering in the requested format, and the length of the encoded result. */
  datatype Output = Output(render: Model -> string, encodedLength: Report -> nat)

  /** Comparison windows, provenance and recommendations keep their first element. */
  function Minimum(section: nat): nat {
    if section >= COMPARISONS then 1 else 0
  }

  function Count(omitted: Omissions, section: nat): nat {
    if section in omitted then omitted[section] else 0
  }

  /** The omissions of the sections before `n`. */
  function Sum(omitted: Omissions, n: nat): nat {
    if n == 0 then 0 else Sum(omitted, n - 1) + Count(omitted, n - 1)
  }

  function Total(model: Model): nat {
    if model == [] then 0 else Total(model[..|model| - 1]) + |model[|model| - 1]|
  }

  // ---------------------------------------------------------------- one truncation

  /** The first section, from `i` on, that has more than it must keep. */
  function NextCut(model: Model, i: nat): (r: Option<nat>)
    requires i <= |model|
    ensures r.Some? ==> i <= r.value < |model| && |model[r.value]| > Minimum(r.value)
    ensures r.Some? ==> forall j :: i <= j < r.value ==> |model[j]| <= Minimum(j)
    ensures r.None? ==> forall j :: i <= j < |model| ==> |model[j]| <= Minimum(j)
    decreases |model| - i
  {
    if i == |model| then None
    else if |model[i]| > Minimum(i) then Some(i)
    else NextCut(model, i + 1)
  }

  function Shortened(model: Model, section: nat): Model
    requires section < |model| && model[section] != []
  {
    model[section := model[section][..|model[section]| - 1]]
  }

  function Counted(omitted: Omissions, section: nat): Omissions {
    omitted[section := Count(omitted, section) + 1]
  }

  lemma {:induction false} ShortenedTotal(model: Model, section: nat)
    requires section < |model| && model[section] != []
    ensures Total(Shortened(model, section)) + 1 == Total(model)
    decreases |model|
  {
    var init := model[..|model| - 1];
    if section < |model| - 1 {
      ShortenedTotal(init, section);
      assert Shortened(model, section)[..|model| - 1] == Shortened(init, section);
    } else {
      assert Shortened(model, section)[..|model| - 1] == init;
    }
  }

  // ---------------------------------------------------------------- bounding

  function ReportOf(model: Model, omitted: Omissions, output: Output): Report {
    Report(output.render(model), Sum(omitted, SECTIONS), omitted)
  }

  predicate Fits(model: Model, omitted: Omissions, output: Output) {
    output.encodedLength(ReportOf(model, omitted, output)) <= MAX_RESULT_BYTES
  }

  datatype Shown = Shown(model: Model, omitted: Omissions)

  /** The first state that fits. */
  function Bounded(model: Model, omitted: Omissions, output: Output): Option<Shown>
    decreases Total(model)
  {
    if Fits(model, omitted, output) then Some(Shown(model, omitted))
    else
      match NextCut(model, 0)
      case None => None
      case Some(section) =>
        ShortenedTotal(model, section);
        Bounded(Shortened(model, section), Counted(omitted, section), output)
  }

  method RenderBounded(initial: Model, initialOmissions: Omissions, output: Output)
    returns (result: Result<Report, ReportError>)
    ensures match Bounded(initial, initialOmissions, output)
      case Some(shown) => result == Ok(ReportOf(shown.model, shown.omitted, output))
      case None => result == Err(EnvelopeTooLarge)
  {
    var model, omitted := initial, initialOmissions;
    while true
      invariant Bounded(model, omitted, output) == Bounded(initial, initialOmissions, output)
      decreases Total(model)
    {
      var report := Report(output.render(model), Sum(omitted, SECTIONS), omitted);
      if output.encodedLength(report) <= MAX_RESULT_BYTES {
        return Ok(report);
      }
      var cut := NextCut(model, 0);
      if cut.None? {
        return Err(EnvelopeTooLarge);
      }
      ShortenedTotal(model, cut.value);
      model, omitted := Shortened(model, cut.value), Counted(omitted, cut.value);
    }
  }

  // ---------------------------------------------------------------- accounting

  /** For one section: what is shown is a prefix, and with the reported omissions it is what there was. */
  predicate Accounted(model: Model, omitted: Omissions, shown: Shown, section: nat)
    requires section < |model|
  {
    && |shown.model| == |model|
    && shown.model[section] <= model[section]
    && |model[section]| + Count(omitted, section) == |shown.model[section]| + Count(shown.omitted, section)
    && (|model[section]| >= Minimum(section) ==> |shown.model[section]| >= Minimum(section))
  }

  lemma {:induction false} BoundedAccounts(model: Model, omitted: Omissions, output: Output, section: nat)
    requires Bounded(model, omitted, output).Some? && section < |model|
    ensures Accounted(model, omitted, Bounded(model, omitted, output).value, section)
    ensures Fits(Bounded(model, omitted, output).value.model, Bounded(model, omitted, output).value.omitted, output)
    decreases Total(model)
  {
    if !Fits(model, omitted, output) {
      var cut := NextCut(model, 0).value;
      ShortenedTotal(model, cut);
      BoundedAccounts(Shortened(model, cut), Counted(omitted, cut), output, section);
    }
  }

  /** The state after a number of truncations. */
  function StateAfter(model: Model, omitted: Omissions, cuts: nat): Shown
    decreases cuts
  {
    if cuts == 0 || NextCut(model, 0).None? then Shown(model, omitted)
    else
      var section := NextCut(model, 0).value;
      StateAfter(Shortened(model, section), Counted(omitted, section), cuts - 1)
  }

  predicate FitsAfter(model: Model, omitted: Omissions, cuts: nat, output: Output) {
    var state := StateAfter(model, omitted, cuts);
    Fits(state.model, state.omitted, output)
  }

  lemma {:induction false} AfterFirst(model: Model, omitted: Omissions, cuts: nat, output: Output)
    requires NextCut(model, 0).Some?
    ensures var section := NextCut(model, 0).value;
      FitsAfter(model, omitted, cuts + 1, output)
        == FitsAfter(Shortened(model, section), Counted(omitted, section), cuts, output)
  {}

  /** A report shows the first state in the order of truncations that fits. */
  lemma {:induction false} ShowsFirstFit(model: Model, omitted: Omissions, output: Output) returns (cuts: nat)
    requires Bounded(model, omitted, output).Some?
    ensures Bounded(model, omitted, output).value == StateAfter(model, omitted, cuts)
    ensures forall earlier: nat :: earlier < cuts ==> !FitsAfter(model, omitted, earlier, output)
    decreases Total(model)
  {
    cuts := 0;
    if !Fits(model, omitted, output) {
      var cut := NextCut(model, 0).value;
      ShortenedTotal(model, cut);
      var rest := ShowsFirstFit(Shortened(model, cut), Counted(omitted, cut), output);
      cuts := rest + 1;
      forall earlier: nat | earlier < cuts ensures !FitsAfter(model, omitted, earlier, output) {
        if earlier > 0 {
          AfterFirst(model, omitted, earlier - 1, output);
        }
      }
    }
  }

  /** And it fails only if no state fits. */
  lemma {:induction false} FailsOnlyIfNothingFits(model: Model, omitted: Omissions, output: Output, cuts: nat)
    requires Bounded(model, omitted, output).None?
    ensures !FitsAfter(model, omitted, cuts, output)
    decreases cuts
  {
    if cuts > 0 && NextCut(model, 0).Some? {
      var cut := NextCut(model, 0).value;
      ShortenedTotal(model, cut);
      FailsOnlyIfNothingFits(Shortened(model, cut), Counted(omitted, cut), output, cuts - 1);
    }
  }

  /** Sections are shortened in turn: one of them loses elements only once every section before it is empty, or, for
      comparison windows, provenance and recommendations, down to its first element. */
  lemma {:induction false} SectionsInTurn(model: Model, omitted: Omissions, output: Output, i: nat, j: nat)
    requires Bounded(model, omitted, output).Some? && i < j < |model|
    requires |Bounded(model, omitted, output).value.model| == |model|
    requires |Bounded(model, omitted, output).value.model[j]| < |model[j]|
    ensures |Bounded(model, omitted, output).value.model[i]| <= if i >= 8 then 1 else 0
    decreases Total(model)
  {
    var cut := NextCut(model, 0).value;
    BoundedAccounts(model, omitted, output, i);
    if cut != j {
      ShortenedTotal(model, cut);
      SectionsInTurn(Shortened(model, cut), Counted(omitted, cut), output, i, j);
    }
  }

  /** Those three never lose their first element. */
  lemma {:induction false} FirstElementsStay(model: Model, omitted: Omissions, output: Output, section: nat)
    requires Bounded(model, omitted, output).Some? && 8 <= section < |model| && model[section] != []
    ensures |Bounded(model, omitted, output).value.model| == |model|
    ensures Bounded(model, omitted, output).value.model[section] != []
    ensures Bounded(model, omitted, output).value.model[section][0] == model[section][0]
  {
    BoundedAccounts(model, omitted, output, section);
  }

  // ---------------------------------------------------------------- from the full model

  /** Building a model keeps five recommendations and reports the others as omitted from the start. */
  function CutRecommendations(full: Model): Shown
    requires |full| == SECTIONS
  {
    var recommendations := full[RECOMMENDATIONS];
    if |recommendations| > MAX_RECOMMENDATIONS then
      Shown(full[RECOMMENDATIONS := recommendations[..MAX_RECOMMENDATIONS]],
            map[RECOMMENDATIONS := |recommendations| - MAX_RECOMMENDATIONS])
    else
      Shown(full, map[])
  }

  /** Nothing disappears unreported, and what must not be emptied is not. */
  lemma {:induction false} NothingUnreported(full: Model, output: Output, section: nat)
    requires |full| == SECTIONS && section < SECTIONS
    requires Bounded(CutRecommendations(full).model, CutRecommendations(full).omitted, output).Some?
    ensures var cut := CutRecommendations(full);
            Accounted(full, map[], Bounded(cut.model, cut.omitted, output).value, section)
  {
    BoundedAccounts(CutRecommendations(full).model, CutRecommendations(full).omitted, output, section);
  }

  /** The reported total is the number of elements that are not shown. */
  lemma {:induction false} TotalReported(full: Model, output: Output)
    requires |full| == SECTIONS
    requires Bounded(CutRecommendations(full).model, CutRecommendations(full).omitted, output).Some?
    ensures var shown := Bounded(CutRecommendations(full).model, CutRecommendations(full).omitted, output).value;
      Total(full) == Total(shown.model) + ReportOf(shown.model, shown.omitted, output).omittedCount
  {
    var shown := Bounded(CutRecommendations(full).model, CutRecommendations(full).omitted, output).value;
    forall section: nat | section < SECTIONS ensures Accounted(full, map[], shown, section) {
      NothingUnreported(full, output, section);
    }
    assert Accounted(full, map[], shown, 0);
    TotalsAddUp(full, shown, SECTIONS);
    assert full[..SECTIONS] == full && shown.model[..SECTIONS] == shown.model;
  }

  lemma {:induction false} TotalsAddUp(full: Model, shown: Shown, n: nat)
    requires n <= |full| == |shown.model|
    requires forall section: nat :: section < |full| ==> Accounted(full, map[], shown, section)
    ensures Total(full[..n]) == Total(shown.model[..n]) + Sum(shown.omitted, n)
  {
    if n > 0 {
      TotalsAddUp(full, shown, n - 1);
      assert full[..n][..n - 1] == full[..n - 1] && shown.model[..n][..n - 1] == shown.model[..n - 1];
      assert Accounted(full, map[], shown, n - 1);
    }
  }
}
