/** Decomposing a change into volume, mix and within-class effects, over exact reals. */
module WorkloadDecomposition {
  import opened Wrappers
  import opened Ordering

  datatype ClassValue = ClassValue(name: string, count: real, numerator: real, denominator: real)

  datatype Effects = Effects(volume: real, mix: real, within: real, residual: real, mixed: bool)

  datatype Decomposition = Decomposition(classes: seq<string>, effects: Option<Effects>)

  // ---------------------------------------------------------------- inputs

  predicate ValidValue(value: ClassValue) {
    && value.name != "" && value.count >= 0.0 && value.numerator >= 0.0 && value.denominator >= 0.0
    && !(value.numerator > 0.0 && value.denominator == 0.0)
  }

  predicate ValidInputs(values: seq<ClassValue>) {
    forall i :: 0 <= i < |values| ==> ValidValue(values[i])
  }

  function TotalCount(values: seq<ClassValue>): real {
    if values == [] then 0.0 else TotalCount(values[..|values| - 1]) + values[|values| - 1].count
  }

  function TotalNumerator(values: seq<ClassValue>): real {
    if values == [] then 0.0 else TotalNumerator(values[..|values| - 1]) + values[|values| - 1].numerator
  }

  // Entries of one class are added up; a missing class counts as zero.

  function CountOf(values: seq<ClassValue>, name: string): real {
    if values == [] then 0.0
    else CountOf(values[..|values| - 1], name) + Own(values[|values| - 1], name, values[|values| - 1].count)
  }

  function NumeratorOf(values: seq<ClassValue>, name: string): real {
    if values == [] then 0.0
    else NumeratorOf(values[..|values| - 1], name) + Own(values[|values| - 1], name, values[|values| - 1].numerator)
  }

  function DenominatorOf(values: seq<ClassValue>, name: string): real {
    if values == [] then 0.0
    else DenominatorOf(values[..|values| - 1], name) + Own(values[|values| - 1], name, values[|values| - 1].denominator)
  }

  function Own(value: ClassValue, name: string, amount: real): real {
    if value.name == name then amount else 0.0
  }

  function SafeRate(numerator: real, denominator: real): real {
    if denominator <= 0.0 then 0.0 else numerator / denominator
  }

  function RateOf(values: seq<ClassValue>, name: string): real {
    SafeRate(NumeratorOf(values, name), DenominatorOf(values, name))
  }

  predicate Named(groups: seq<ClassValue>, name: string) {
    exists i :: 0 <= i < |groups| && groups[i].name == name
  }

  predicate DifferentNames(a: string, b: string) {
    a != b
  }

  /** All class names of both periods, sorted and without repetition. */
  ghost predicate IsUnion(previous: seq<ClassValue>, current: seq<ClassValue>, classes: seq<string>) {
    && Sorted(StringLess, classes) && Pairwise(DifferentNames, classes)
    && forall name :: name in classes <==> name != "" && Named(previous + current, name)
  }

  method ClassUnion(previous: seq<ClassValue>, current: seq<ClassValue>) returns (classes: seq<string>)
    ensures IsUnion(previous, current, classes)
  {
    var all := previous + current;
    var seen: set<string> := {};
    for i := 0 to |all|
      invariant forall name :: name in seen <==> name != "" && Named(all[..i], name)
    {
      forall name ensures Named(all[..i + 1], name) <==> Named(all[..i], name) || all[i].name == name {
        NamedNext(all, i, name);
      }
      if all[i].name != "" {
        seen := seen + {all[i].name};
      }
    }
    assert all[..|all|] == all;
    classes := SortNames(seen);
    SetElements(seen, classes);
  }

  method SortNames(names: set<string>) returns (sorted: seq<string>)
    ensures multiset(sorted) == multiset(names) && Sorted(StringLess, sorted)
  {
    sorted := [];
    var remaining := names;
    while remaining != {}
      invariant remaining <= names && multiset(sorted) == multiset(names - remaining)
      decreases |remaining|
    {
      var name :| name in remaining;
      assert names - (remaining - {name}) == names - remaining + {name};
      sorted := sorted + [name];
      remaining := remaining - {name};
    }
    assert names - remaining == names;
    StringOrder();
    sorted := SortSlice(StringLess, sorted);
  }

  lemma {:induction false} NamedNext(all: seq<ClassValue>, i: nat, name: string)
    requires i < |all|
    ensures Named(all[..i + 1], name) <==> Named(all[..i], name) || all[i].name == name
  {
    if Named(all[..i], name) {
      var j :| 0 <= j < i && all[..i][j].name == name;
      assert all[..i + 1][j].name == name;
    }
    assert all[..i + 1][i] == all[i];
  }

  lemma {:induction false} SetElements(names: set<string>, s: seq<string>)
    requires multiset(s) == multiset(names)
    ensures Pairwise(DifferentNames, s) && forall name :: name in s <==> name in names
  {
    forall name ensures name in s <==> name in names {
      assert name in multiset(s) <==> name in multiset(names);
    }
    forall i, j | 0 <= i < j < |s| ensures s[i] != s[j] {
      OccursTwice(s, i, j);
    }
  }

  // ---------------------------------------------------------------- sums over classes

  function SumOf(f: string -> real, classes: seq<string>): real {
    if classes == [] then 0.0 else SumOf(f, classes[..|classes| - 1]) + f(classes[|classes| - 1])
  }

  function NumeratorIn(values: seq<ClassValue>): string -> real {
    (name: string) => NumeratorOf(values, name)
  }

  /** What the rate of a class explains of the total. */
  function ExplainedIn(values: seq<ClassValue>): string -> real {
    (name: string) => Times(CountOf(values, name), RateOf(values, name))
  }

  /** A product of reals. */
  function Times(a: real, b: real): real {
    a * b
  }

  /** A changed share at the old rate. */
  function MixEffect(p: real, c: real, pRate: real, n: real, k: real): real
    requires n > 0.0 && k > 0.0
  {
    k * (c / k - p / n) * pRate
  }

  /** A changed rate at the new share. */
  function WithinEffect(c: real, pRate: real, cRate: real, k: real): real
    requires k > 0.0
  {
    k * (c / k) * (cRate - pRate)
  }

  function MixIn(previous: seq<ClassValue>, current: seq<ClassValue>, n: real, k: real): string -> real
    requires n > 0.0 && k > 0.0
  {
    (name: string) => MixEffect(CountOf(previous, name), CountOf(current, name), RateOf(previous, name), n, k)
  }

  function WithinIn(previous: seq<ClassValue>, current: seq<ClassValue>, k: real): string -> real
    requires k > 0.0
  {
    (name: string) => WithinEffect(CountOf(current, name), RateOf(previous, name), RateOf(current, name), k)
  }

  function RateChange(previous: seq<ClassValue>, current: seq<ClassValue>): string -> real {
    (name: string) => RateOf(current, name) - RateOf(previous, name)
  }

  /** The part of a period's total that its class rates do not explain. */
  function Unexplained(values: seq<ClassValue>, classes: seq<string>): real {
    TotalNumerator(values) - SumOf(ExplainedIn(values), classes)
  }

  // ---------------------------------------------------------------- the identity

  lemma {:induction false} Cancel(a: real, k: real)
    requires k != 0.0
    ensures k * (a / k) == a
  {}

  lemma {:induction false} RateEffects(p: real, c: real, pr: real, cr: real, n: real, k: real, ratio: real)
    requires n > 0.0 && k > 0.0 && ratio == k / n
    ensures MixEffect(p, c, pr, n, k) + WithinEffect(c, pr, cr, k) == Times(c, cr) - Times(ratio, Times(p, pr))
  {
    Cancel(c, k);
    var cs, ps := c / k, p / n;
    assert k * (cs - ps) * pr == k * cs * pr - k * ps * pr;
    assert k * cs * (cr - pr) == k * cs * cr - k * cs * pr;
    assert k * ps == ratio * p;
    assert ratio * p * pr == ratio * (p * pr);
  }

  lemma {:induction false} SumsCombine(mix: string -> real, within: string -> real, now: string -> real,
                                       before: string -> real, classes: seq<string>)
    requires forall name :: mix(name) + within(name) == now(name) - before(name)
    ensures SumOf(mix, classes) + SumOf(within, classes) == SumOf(now, classes) - SumOf(before, classes)
    decreases |classes|
  {
    if classes != [] {
      SumsCombine(mix, within, now, before, classes[..|classes| - 1]);
    }
  }

  lemma {:induction false} SumScales(f: string -> real, scaled: string -> real, ratio: real, classes: seq<string>)
    requires forall name :: scaled(name) == Times(ratio, f(name))
    ensures SumOf(scaled, classes) == Times(ratio, SumOf(f, classes))
    decreases |classes|
  {
    if classes != [] {
      var init, last := classes[..|classes| - 1], classes[|classes| - 1];
      SumScales(f, scaled, ratio, init);
      Distribute(ratio, SumOf(f, init), f(last));
    }
  }

  function ScaledIn(f: string -> real, ratio: real): string -> real {
    (name: string) => Times(ratio, f(name))
  }

  lemma {:induction false} EffectsAt(previous: seq<ClassValue>, current: seq<ClassValue>, n: real, k: real,
                                     name: string)
    requires n > 0.0 && k > 0.0
    ensures MixIn(previous, current, n, k)(name) + WithinIn(previous, current, k)(name)
         == ExplainedIn(current)(name) - ScaledIn(ExplainedIn(previous), k / n)(name)
  {
    RateEffects(CountOf(previous, name), CountOf(current, name), RateOf(previous, name), RateOf(current, name),
                n, k, k / n);
  }

  lemma {:induction false} EffectsAddUp(previous: seq<ClassValue>, current: seq<ClassValue>, n: real, k: real,
                                        classes: seq<string>)
    requires n > 0.0 && k > 0.0
    ensures SumOf(MixIn(previous, current, n, k), classes) + SumOf(WithinIn(previous, current, k), classes)
      == SumOf(ExplainedIn(current), classes) - SumOf(ScaledIn(ExplainedIn(previous), k / n), classes)
  {
    var mix, within := MixIn(previous, current, n, k), WithinIn(previous, current, k);
    var now, before := ExplainedIn(current), ScaledIn(ExplainedIn(previous), k / n);
    forall name ensures mix(name) + within(name) == now(name) - before(name) {
      EffectsAt(previous, current, n, k, name);
    }
    SumsCombine(mix, within, now, before, classes);
  }

  lemma {:induction false} Distribute(a: real, b: real, c: real)
    ensures Times(a, b + c) == Times(a, b) + Times(a, c)
  {}

  /** change - volume - mix - within, in terms of what the rates of the two periods leave unexplained. */
  lemma {:induction false} ResidualIdentity(previousTotal: real, currentTotal: real, n: real, k: real, ratio: real,
                                            explainedBefore: real, explainedNow: real, effects: real)
    requires n > 0.0 && ratio == k / n && effects == explainedNow - Times(ratio, explainedBefore)
    ensures currentTotal - previousTotal - (k - n) * (previousTotal / n) - effects
      == (currentTotal - explainedNow) - Times(ratio, previousTotal - explainedBefore)
  {
    VolumeEffect(previousTotal, n, k);
    Distribute(ratio, previousTotal, -explainedBefore);
  }

  lemma {:induction false} VolumeEffect(total: real, n: real, k: real)
    requires n > 0.0
    ensures (k - n) * (total / n) == k / n * total - total
  {
    Cancel(total, n);
    var rate := total / n;
    assert (k - n) * rate == k * rate - n * rate;
    assert k * rate == k / n * total;
  }

  // ---------------------------------------------------------------- directions

  function Direction(value: real): int {
    if -0.000000000001 < value < 0.000000000001 then 0 else if value < 0.0 then -1 else 1
  }

  /** The entries of each class, added up. */
  ghost predicate IsIndex(index: map<string, ClassValue>, values: seq<ClassValue>) {
    forall name {:trigger IndexedAt(index, values, name)} :: IndexedAt(index, values, name)
  }

  predicate IndexedAt(index: map<string, ClassValue>, values: seq<ClassValue>, name: string) {
    var value := Lookup(index, name);
    value.count == CountOf(values, name) && value.numerator == NumeratorOf(values, name)
    && value.denominator == DenominatorOf(values, name)
  }

  function Lookup(index: map<string, ClassValue>, name: string): ClassValue {
    if name in index then index[name] else ClassValue("", 0.0, 0.0, 0.0)
  }

  method IndexValues(values: seq<ClassValue>) returns (index: map<string, ClassValue>)
    ensures IsIndex(index, values)
  {
    index := map[];
    for i := 0 to |values|
      invariant IsIndex(index, values[..i])
    {
      var value := values[i];
      var current := Lookup(index, value.name);
      var merged := ClassValue(value.name, current.count + value.count, current.numerator + value.numerator,
                               current.denominator + value.denominator);
      IndexExtends(index, values, i, merged);
      index := index[value.name := merged];
    }
    assert values[..|values|] == values;
  }

  lemma {:induction false} IndexExtends(index: map<string, ClassValue>, values: seq<ClassValue>, i: nat,
                                        merged: ClassValue)
    requires i < |values| && IsIndex(index, values[..i])
    requires var value, current := values[i], Lookup(index, values[i].name);
      merged == ClassValue(value.name, current.count + value.count, current.numerator + value.numerator,
                           current.denominator + value.denominator)
    ensures IsIndex(index[values[i].name := merged], values[..i + 1])
  {
    var longer := index[values[i].name := merged];
    var prefix := values[..i + 1];
    forall name {:trigger IndexedAt(longer, prefix, name)} ensures IndexedAt(longer, prefix, name) {
      assert IndexedAt(index, values[..i], name);
      IndexNext(values, i, name);
    }
  }

  lemma {:induction false} IndexNext(values: seq<ClassValue>, i: nat, name: string)
    requires i < |values|
    ensures CountOf(values[..i + 1], name) == CountOf(values[..i], name) + Own(values[i], name, values[i].count)
    ensures NumeratorOf(values[..i + 1], name)
         == NumeratorOf(values[..i], name) + Own(values[i], name, values[i].numerator)
    ensures DenominatorOf(values[..i + 1], name)
         == DenominatorOf(values[..i], name) + Own(values[i], name, values[i].denominator)
  {
    assert values[..i + 1][..i] == values[..i];
  }

  method Totals(values: seq<ClassValue>) returns (count: real, numerator: real)
    ensures count == TotalCount(values) && numerator == TotalNumerator(values)
  {
    count, numerator := 0.0, 0.0;
    for i := 0 to |values|
      invariant count == TotalCount(values[..i]) && numerator == TotalNumerator(values[..i])
    {
      assert values[..i + 1][..i] == values[..i];
      count, numerator := count + values[i].count, numerator + values[i].numerator;
    }
    assert values[..|values|] == values;
  }

  /** The loop over the classes, which also adds up the change of their rates. */
  method ClassSums(ghost previous: seq<ClassValue>, ghost current: seq<ClassValue>, prev: map<string, ClassValue>,
                   curr: map<string, ClassValue>, n: real, k: real, classes: seq<string>)
    returns (mix: real, within: real, rates: real)
    requires n > 0.0 && k > 0.0 && IsIndex(prev, previous) && IsIndex(curr, current)
    ensures mix == SumOf(MixIn(previous, current, n, k), classes)
    ensures within == SumOf(WithinIn(previous, current, k), classes)
    ensures rates == SumOf(RateChange(previous, current), classes)
  {
    mix, within, rates := 0.0, 0.0, 0.0;
    for i := 0 to |classes|
      invariant mix == SumOf(MixIn(previous, current, n, k), classes[..i])
      invariant within == SumOf(WithinIn(previous, current, k), classes[..i])
      invariant rates == SumOf(RateChange(previous, current), classes[..i])
    {
      assert classes[..i + 1][..i] == classes[..i];
      var name := classes[i];
      assert IndexedAt(prev, previous, name) && IndexedAt(curr, current, name);
      var mixEffect, withinEffect, rateChange := OneClass(Lookup(prev, name), Lookup(curr, name), n, k);
      mix := mix + mixEffect;
      within := within + withinEffect;
      rates := rates + rateChange;
    }
    assert classes[..|classes|] == classes;
  }

  method OneClass(p: ClassValue, c: ClassValue, n: real, k: real) returns (mix: real, within: real, rateChange: real)
    requires n > 0.0 && k > 0.0
    ensures var pRate, cRate := SafeRate(p.numerator, p.denominator), SafeRate(c.numerator, c.denominator);
      && mix == MixEffect(p.count, c.count, pRate, n, k)
      && within == WithinEffect(c.count, pRate, cRate, k)
      && rateChange == cRate - pRate
  {
    var pShare, cShare := p.count / n, c.count / k;
    var pRate, cRate := SafeRate(p.numerator, p.denominator), SafeRate(c.numerator, c.denominator);
    mix, within, rateChange := k * (cShare - pShare) * pRate, k * cShare * (cRate - pRate), cRate - pRate;
  }

  /** Inputs that allow a decomposition. */
  predicate Sufficient(previous: seq<ClassValue>, current: seq<ClassValue>) {
    && ValidInputs(previous) && ValidInputs(current) && TotalCount(previous) > 0.0 && TotalCount(current) > 0.0
  }

  /** The effects for given totals and indexes. */
  ghost predicate IsDecomposed(previous: seq<ClassValue>, current: seq<ClassValue>, n: real, k: real,
                               previousTotal: real, currentTotal: real, classes: seq<string>, effects: Effects)
    requires n > 0.0 && k > 0.0
  {
    && effects.volume == (k - n) * (previousTotal / n)
    && effects.mix == SumOf(MixIn(previous, current, n, k), classes)
    && effects.within == SumOf(WithinIn(previous, current, k), classes)
    && currentTotal - previousTotal == effects.volume + effects.mix + effects.within + effects.residual
    && effects.residual == (currentTotal - SumOf(ExplainedIn(current), classes))
                           - Times(k / n, previousTotal - SumOf(ExplainedIn(previous), classes))
    && effects.mixed == (Direction(currentTotal / k - previousTotal / n)
                         != Direction(SumOf(RateChange(previous, current), classes)))
  }

  lemma {:induction false} EffectsSum(previous: seq<ClassValue>, current: seq<ClassValue>, n: real, k: real,
                                      classes: seq<string>)
    requires n > 0.0 && k > 0.0
    ensures SumOf(MixIn(previous, current, n, k), classes) + SumOf(WithinIn(previous, current, k), classes)
      == SumOf(ExplainedIn(current), classes) - Times(k / n, SumOf(ExplainedIn(previous), classes))
  {
    EffectsAddUp(previous, current, n, k, classes);
    SumScales(ExplainedIn(previous), ScaledIn(ExplainedIn(previous), k / n), k / n, classes);
  }

  lemma {:induction false} ResidualOf(previous: seq<ClassValue>, current: seq<ClassValue>, n: real, k: real,
                                      classes: seq<string>, previousTotal: real, currentTotal: real, effects: real)
    requires n > 0.0 && k > 0.0
    requires effects == SumOf(MixIn(previous, current, n, k), classes) + SumOf(WithinIn(previous, current, k), classes)
    ensures currentTotal - previousTotal - (k - n) * (previousTotal / n) - effects
      == (currentTotal - SumOf(ExplainedIn(current), classes))
         - Times(k / n, previousTotal - SumOf(ExplainedIn(previous), classes))
  {
    EffectsSum(previous, current, n, k, classes);
    ResidualIdentity(previousTotal, currentTotal, n, k, k / n, SumOf(ExplainedIn(previous), classes),
                     SumOf(ExplainedIn(current), classes), effects);
  }

  method EffectsFor(ghost previous: seq<ClassValue>, ghost current: seq<ClassValue>, prev: map<string, ClassValue>,
                    curr: map<string, ClassValue>, n: real, k: real, previousTotal: real, currentTotal: real,
                    classes: seq<string>)
    returns (effects: Effects)
    requires n > 0.0 && k > 0.0 && IsIndex(prev, previous) && IsIndex(curr, current)
    ensures IsDecomposed(previous, current, n, k, previousTotal, currentTotal, classes, effects)
  {
    var volume := (k - n) * (previousTotal / n);
    var mix, within, rates := ClassSums(previous, current, prev, curr, n, k, classes);
    var residual := currentTotal - previousTotal - volume - mix - within;
    ResidualOf(previous, current, n, k, classes, previousTotal, currentTotal, mix + within);
    var mixed := Direction(currentTotal / k - previousTotal / n) != Direction(rates);
    effects := Effects(volume, mix, within, residual, mixed);
  }

  /** The change is the sum of the effects, and the residual is what the class rates leave unexplained. */
  method Decompose(previous: seq<ClassValue>, current: seq<ClassValue>) returns (result: Decomposition)
    ensures result.effects.Some? <==> Sufficient(previous, current)
    ensures !ValidInputs(previous) || !ValidInputs(current) ==> result.classes == []
    ensures ValidInputs(previous) && ValidInputs(current) ==> IsUnion(previous, current, result.classes)
    ensures result.effects.Some? ==>
      && IsUnion(previous, current, result.classes)
      && IsDecomposed(previous, current, TotalCount(previous), TotalCount(current),
                      TotalNumerator(previous), TotalNumerator(current), result.classes, result.effects.value)
  {
    var classes := ClassUnion(previous, current);
    CountsNeedClasses(previous, current, classes);
    if |classes| == 0 || !ValidInputs(previous) || !ValidInputs(current) {
      return Decomposition([], None);
    }
    var prev := IndexValues(previous);
    var curr := IndexValues(current);
    var prevCount, prevTotal := Totals(previous);
    var currCount, currTotal := Totals(current);
    if prevCount <= 0.0 || currCount <= 0.0 {
      return Decomposition(classes, None);
    }
    var effects := EffectsFor(previous, current, prev, curr, prevCount, currCount, prevTotal, currTotal, classes);
    result := Decomposition(classes, Some(effects));
  }

  /** Valid inputs without any class have nothing to count. */
  lemma {:induction false} CountsNeedClasses(previous: seq<ClassValue>, current: seq<ClassValue>, classes: seq<string>)
    requires IsUnion(previous, current, classes)
    ensures Sufficient(previous, current) ==> classes != []
  {
    if Sufficient(previous, current) {
      assert previous != [];
      assert (previous + current)[0] == previous[0];
      assert Named(previous + current, previous[0].name);
    }
  }

  // ---------------------------------------------------------------- when the residual vanishes

  lemma {:induction false} SumChanges(f: string -> real, g: string -> real, classes: seq<string>, name: string)
    requires Pairwise(DifferentNames, classes)
    requires forall other :: other != name ==> f(other) == g(other)
    ensures SumOf(g, classes) == SumOf(f, classes) + if name in classes then g(name) - f(name) else 0.0
    decreases |classes|
  {
    if classes != [] {
      var init, last := classes[..|classes| - 1], classes[|classes| - 1];
      SumChanges(f, g, init, name);
      assert last !in init by {
        forall i | 0 <= i < |init| ensures init[i] != last {
          assert DifferentNames(classes[i], classes[|classes| - 1]);
        }
      }
      assert classes == init + [last];
    }
  }

  lemma {:induction false} ZeroOver(f: string -> real, classes: seq<string>)
    requires forall name :: name in classes ==> f(name) == 0.0
    ensures SumOf(f, classes) == 0.0
    decreases |classes|
  {
    if classes != [] {
      ZeroOver(f, classes[..|classes| - 1]);
    }
  }

  /** However entries are spread over classes, the classes add up to the total. */
  lemma {:induction false} ClassesPartition(values: seq<ClassValue>, classes: seq<string>)
    requires Pairwise(DifferentNames, classes)
    requires forall i :: 0 <= i < |values| ==> values[i].name in classes
    ensures SumOf(NumeratorIn(values), classes) == TotalNumerator(values)
    decreases |values|
  {
    if values == [] {
      ZeroOver(NumeratorIn(values), classes);
    } else {
      var init, last := values[..|values| - 1], values[|values| - 1];
      ClassesPartition(init, classes);
      var before, after := NumeratorIn(init), NumeratorIn(values);
      SumChanges(before, after, classes, last.name);
    }
  }

  /** Every entry's denominator is its count. */
  predicate CountsAreDenominators(values: seq<ClassValue>) {
    forall i :: 0 <= i < |values| ==> values[i].denominator == values[i].count
  }

  lemma {:induction false} CountsExplain(values: seq<ClassValue>, name: string)
    requires ValidInputs(values) && CountsAreDenominators(values)
    ensures CountOf(values, name) == DenominatorOf(values, name) >= 0.0 && NumeratorOf(values, name) >= 0.0
    ensures DenominatorOf(values, name) == 0.0 ==> NumeratorOf(values, name) == 0.0
    decreases |values|
  {
    if values != [] {
      CountsExplain(values[..|values| - 1], name);
      assert ValidValue(values[|values| - 1]);
    }
  }

  lemma {:induction false} SameOver(f: string -> real, g: string -> real, classes: seq<string>)
    requires forall name :: name in classes ==> f(name) == g(name)
    ensures SumOf(f, classes) == SumOf(g, classes)
    decreases |classes|
  {
    if classes != [] {
      SameOver(f, g, classes[..|classes| - 1]);
    }
  }

  /** Then the class rates explain the whole total. */
  lemma {:induction false} FullyExplained(values: seq<ClassValue>, classes: seq<string>)
    requires ValidInputs(values) && CountsAreDenominators(values) && Pairwise(DifferentNames, classes)
    requires forall i :: 0 <= i < |values| ==> values[i].name in classes
    ensures Unexplained(values, classes) == 0.0
  {
    var explained, numerators := ExplainedIn(values), NumeratorIn(values);
    forall name ensures explained(name) == numerators(name) {
      CountsExplain(values, name);
      if DenominatorOf(values, name) > 0.0 {
        Cancel(NumeratorOf(values, name), DenominatorOf(values, name));
      }
    }
    SameOver(explained, numerators, classes);
    ClassesPartition(values, classes);
  }

  /** The decomposition is exact whenever counts are denominators, also for repeated and one-sided classes: then
      volume, mix and within-class effect add up to the change, and nothing is left. */
  lemma {:induction false} ResidualVanishes(previous: seq<ClassValue>, current: seq<ClassValue>, classes: seq<string>,
                                            effects: Effects)
    requires Sufficient(previous, current) && IsUnion(previous, current, classes)
    requires CountsAreDenominators(previous) && CountsAreDenominators(current)
    requires IsDecomposed(previous, current, TotalCount(previous), TotalCount(current),
                          TotalNumerator(previous), TotalNumerator(current), classes, effects)
    ensures effects.residual == 0.0
    ensures TotalNumerator(current) - TotalNumerator(previous) == effects.volume + effects.mix + effects.within
  {
    UnionCovers(previous, current, classes);
    FullyExplained(previous, classes);
    FullyExplained(current, classes);
    assert Times(TotalCount(current) / TotalCount(previous), 0.0) == 0.0;
  }

  lemma {:induction false} UnionCovers(previous: seq<ClassValue>, current: seq<ClassValue>, classes: seq<string>)
    requires Sufficient(previous, current) && IsUnion(previous, current, classes)
    ensures forall i :: 0 <= i < |previous| ==> previous[i].name in classes
    ensures forall i :: 0 <= i < |current| ==> current[i].name in classes
  {
    forall i | 0 <= i < |previous| ensures previous[i].name in classes {
      assert (previous + current)[i] == previous[i];
      assert Named(previous + current, previous[i].name);
    }
    forall i | 0 <= i < |current| ensures current[i].name in classes {
      assert (previous + current)[|previous| + i] == current[i];
      assert Named(previous + current, current[i].name);
    }
  }

  // ---------------------------------------------------------------- what each effect measures

  /** A class that one entry alone belongs to has that entry's numbers. */
  lemma {:induction false} OnlyEntryOfItsClass(values: seq<ClassValue>, i: nat)
    requires i < |values| && forall j :: 0 <= j < |values| && j != i ==> values[j].name != values[i].name
    ensures CountOf(values, values[i].name) == values[i].count
    ensures NumeratorOf(values, values[i].name) == values[i].numerator
    ensures DenominatorOf(values, values[i].name) == values[i].denominator
    decreases |values|
  {
    var init, last := values[..|values| - 1], values[|values| - 1];
    if i < |init| {
      assert init[i] == values[i];
      OnlyEntryOfItsClass(init, i);
    } else {
      NoEntry(init, last.name);
    }
  }

  lemma {:induction false} NoEntry(values: seq<ClassValue>, name: string)
    requires forall j :: 0 <= j < |values| ==> values[j].name != name
    ensures CountOf(values, name) == NumeratorOf(values, name) == DenominatorOf(values, name) == 0.0
    decreases |values|
  {
    if values != [] {
      NoEntry(values[..|values| - 1], name);
    }
  }

  /** A class rate is what, times the denominator, gives the numerator; without a denominator it is zero. */
  lemma {:induction false} RateTimesDenominator(values: seq<ClassValue>, name: string)
    ensures DenominatorOf(values, name) > 0.0 ==>
              Times(RateOf(values, name), DenominatorOf(values, name)) == NumeratorOf(values, name)
    ensures DenominatorOf(values, name) <= 0.0 ==> RateOf(values, name) == 0.0
  {
    if DenominatorOf(values, name) > 0.0 {
      Cancel(NumeratorOf(values, name), DenominatorOf(values, name));
    }
  }

  lemma {:induction false} NoShift(p: real, c: real, rate: real, n: real, k: real)
    requires n > 0.0 && k > 0.0 && c / k == p / n
    ensures MixEffect(p, c, rate, n, k) == 0.0
  {
    var shift := c / k - p / n;
    assert shift == 0.0 && k * shift == 0.0;
  }

  /** If every class has the share of all counts that it had before, there is no mix effect. */
  lemma {:induction false} SameSharesNoMix(
    previous: seq<ClassValue>, current: seq<ClassValue>, n: real, k: real, previousTotal: real, currentTotal: real,
    classes: seq<string>, effects: Effects)
    requires n > 0.0 && k > 0.0
    requires IsDecomposed(previous, current, n, k, previousTotal, currentTotal, classes, effects)
    requires forall name :: name in classes ==> CountOf(current, name) / k == CountOf(previous, name) / n
    ensures effects.mix == 0.0
  {
    var mix := MixIn(previous, current, n, k);
    forall name | name in classes ensures mix(name) == 0.0 {
      NoShift(CountOf(previous, name), CountOf(current, name), RateOf(previous, name), n, k);
    }
    ZeroOver(mix, classes);
  }

  /** If no class changed its rate, there is no effect within classes. */
  lemma {:induction false} SameRatesNoWithin(
    previous: seq<ClassValue>, current: seq<ClassValue>, n: real, k: real, previousTotal: real, currentTotal: real,
    classes: seq<string>, effects: Effects)
    requires n > 0.0 && k > 0.0
    requires IsDecomposed(previous, current, n, k, previousTotal, currentTotal, classes, effects)
    requires forall name :: name in classes ==> RateOf(current, name) == RateOf(previous, name)
    ensures effects.within == 0.0
  {
    ZeroOver(WithinIn(previous, current, k), classes);
  }

  /** If as much was counted as before, there is no volume effect. */
  lemma {:induction false} SameCountNoVolume(
    previous: seq<ClassValue>, current: seq<ClassValue>, n: real, previousTotal: real, currentTotal: real,
    classes: seq<string>, effects: Effects)
    requires n > 0.0 && IsDecomposed(previous, current, n, n, previousTotal, currentTotal, classes, effects)
    ensures effects.volume == 0.0
  {
    assert (n - n) * (previousTotal / n) == 0.0;
  }

  /** The mix effect values shifts of share at the old rates: new rates do not enter into it. */
  lemma {:induction false} MixIgnoresNewRates(
    previous: seq<ClassValue>, current: seq<ClassValue>, other: seq<ClassValue>, n: real, k: real, before: real,
    now: real, otherNow: real, classes: seq<string>, effects: Effects, otherEffects: Effects)
    requires n > 0.0 && k > 0.0
    requires IsDecomposed(previous, current, n, k, before, now, classes, effects)
    requires IsDecomposed(previous, other, n, k, before, otherNow, classes, otherEffects)
    requires forall name :: name in classes ==> CountOf(current, name) == CountOf(other, name)
    ensures effects.mix == otherEffects.mix
  {
    SameOver(MixIn(previous, current, n, k), MixIn(previous, other, n, k), classes);
  }

  /** The effect within classes values changes of rate at the new shares: old shares do not enter into it. */
  lemma {:induction false} WithinIgnoresOldShares(
    previous: seq<ClassValue>, other: seq<ClassValue>, current: seq<ClassValue>, n: real, m: real, k: real,
    before: real, otherBefore: real, now: real, classes: seq<string>, effects: Effects, otherEffects: Effects)
    requires n > 0.0 && m > 0.0 && k > 0.0
    requires IsDecomposed(previous, current, n, k, before, now, classes, effects)
    requires IsDecomposed(other, current, m, k, otherBefore, now, classes, otherEffects)
    requires forall name :: name in classes ==> RateOf(previous, name) == RateOf(other, name)
    ensures effects.within == otherEffects.within
  {
    SameOver(WithinIn(previous, current, k), WithinIn(other, current, k), classes);
  }

  /** Every class rate rises, by no less than what counts as a change. */
  predicate AllRise(previous: seq<ClassValue>, current: seq<ClassValue>, classes: seq<string>) {
    forall name :: name in classes ==> RateOf(current, name) - RateOf(previous, name) >= 0.000000000001
  }

  /** Simpson's paradox is reported where all class rates move one way and the overall rate the other, and not where
      they all move the same way. */
  lemma {:induction false} ReversalIsReported(
    previous: seq<ClassValue>, current: seq<ClassValue>, n: real, k: real, previousTotal: real, currentTotal: real,
    classes: seq<string>, effects: Effects)
    requires n > 0.0 && k > 0.0 && classes != []
    requires IsDecomposed(previous, current, n, k, previousTotal, currentTotal, classes, effects)
    ensures AllRise(previous, current, classes) && currentTotal / k < previousTotal / n ==> effects.mixed
    ensures AllRise(current, previous, classes) && currentTotal / k > previousTotal / n ==> effects.mixed
    ensures AllRise(previous, current, classes) && currentTotal / k - previousTotal / n >= 0.000000000001 ==>
              !effects.mixed
    ensures AllRise(current, previous, classes) && previousTotal / n - currentTotal / k >= 0.000000000001 ==>
              !effects.mixed
  {
    if AllRise(previous, current, classes) {
      SumAtLeast(RateChange(previous, current), classes);
    }
    if AllRise(current, previous, classes) {
      SumAtMost(RateChange(previous, current), classes);
    }
  }

  lemma {:induction false} SumAtLeast(f: string -> real, classes: seq<string>)
    requires forall name :: name in classes ==> f(name) >= 0.000000000001
    ensures SumOf(f, classes) >= 0.0 && (classes != [] ==> SumOf(f, classes) >= 0.000000000001)
    decreases |classes|
  {
    if classes != [] {
      SumAtLeast(f, classes[..|classes| - 1]);
    }
  }

  lemma {:induction false} SumAtMost(f: string -> real, classes: seq<string>)
    requires forall name :: name in classes ==> f(name) <= -0.000000000001
    ensures SumOf(f, classes) <= 0.0 && (classes != [] ==> SumOf(f, classes) <= -0.000000000001)
    decreases |classes|
  {
    if classes != [] {
      SumAtMost(f, classes[..|classes| - 1]);
    }
  }
}
