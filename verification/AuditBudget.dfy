/** Fitting an audit result into its byte budget, and probing that before a revision is committed. */
module AuditBudget {
  import opened Wrappers

  const MAX_RESULT_BYTES := 50_000
  const MAX_INT := 9223372036854775807

  /** Encoded elements are their texts. A metric, finding or guardrail: what stays, and the references that
      may be dropped from its end. */
  datatype Holder = Holder(head: string, kept: seq<string>, droppable: seq<string>)

  /** `rest` is the text of everything that bounding never looks at, recommendations included. */
  datatype AuditResult = AuditResult(
    rest: string,
    revision: nat,
    lateEvidence: bool,
    metrics: seq<Holder>,
    findings: seq<Holder>,
    guardrails: seq<Holder>,
    contributions: seq<string>,
    confounders: seq<string>,
    workloadEffects: seq<string>,
    outliers: seq<string>,
    omittedCount: nat
  )

  datatype BudgetError = BudgetExhausted

  // ---------------------------------------------------------------- the encoded length

  function Digits(n: nat): (d: nat)
    ensures d >= 1
  {
    if n < 10 then 1 else 1 + Digits(n / 10)
  }

  /** Brackets, elements and commas. */
  function ListLength(list: seq<string>): nat {
    if list == [] then 2
    else if |list| == 1 then 2 + |list[0]|
    else ListLength(list[..|list| - 1]) + 1 + |list[|list| - 1]|
  }

  function HoldersLength(holders: seq<Holder>): nat {
    if holders == [] then 2
    else
      var last := holders[|holders| - 1];
      var comma := if |holders| == 1 then 0 else 1;
      HoldersLength(holders[..|holders| - 1]) + comma + |last.head| + ListLength(last.kept) + ListLength(last.droppable)
  }

  /** The two fields that persisting a result sets. */
  function Envelope(revision: nat, lateEvidence: bool): nat {
    Digits(revision) + if lateEvidence then 4 else 5
  }

  function EncodedLength(r: AuditResult): nat {
    |r.rest| + Envelope(r.revision, r.lateEvidence) + Digits(r.omittedCount)
    + HoldersLength(r.metrics) + HoldersLength(r.findings) + HoldersLength(r.guardrails)
    + ListLength(r.contributions) + ListLength(r.confounders) + ListLength(r.workloadEffects) + ListLength(r.outliers)
  }

  // ---------------------------------------------------------------- dropping one element

  /** The last reference of the last holder that has one. */
  function DropReference(holders: seq<Holder>): Option<seq<Holder>> {
    if holders == [] then None
    else
      var init, last := holders[..|holders| - 1], holders[|holders| - 1];
      if last.droppable != [] then Some(init + [last.(droppable := WithoutLast(last.droppable))])
      else
        match DropReference(init)
        case Some(dropped) => Some(dropped + [last])
        case None => None
  }

  /** The fixed order of omissions; every one is counted. */
  function OmitNext(r: AuditResult): Option<AuditResult> {
    var counted := r.(omittedCount := r.omittedCount + 1);
    match DropReference(r.metrics)
    case Some(metrics) => Some(counted.(metrics := metrics))
    case None =>
      match DropReference(r.findings)
      case Some(findings) => Some(counted.(findings := findings))
      case None =>
        match DropReference(r.guardrails)
        case Some(guardrails) => Some(counted.(guardrails := guardrails))
        case None =>
          if r.contributions != [] then Some(counted.(contributions := WithoutLast(r.contributions)))
          else if r.confounders != [] then Some(counted.(confounders := WithoutLast(r.confounders)))
          else if r.workloadEffects != [] then Some(counted.(workloadEffects := WithoutLast(r.workloadEffects)))
          else if r.outliers != [] then Some(counted.(outliers := WithoutLast(r.outliers)))
          else None
  }

  function WithoutLast(list: seq<string>): seq<string>
    requires list != []
  {
    list[..|list| - 1]
  }

  function HolderElements(holders: seq<Holder>): nat {
    if holders == [] then 0
    else HolderElements(holders[..|holders| - 1]) + |holders[|holders| - 1].droppable|
  }

  /** How many elements could still be dropped. */
  function Elements(r: AuditResult): nat {
    HolderElements(r.metrics) + HolderElements(r.findings) + HolderElements(r.guardrails)
    + |r.contributions| + |r.confounders| + |r.workloadEffects| + |r.outliers|
  }

  lemma {:induction false} DropReferenceElements(holders: seq<Holder>)
    ensures match DropReference(holders)
      case Some(dropped) => HolderElements(dropped) + 1 == HolderElements(holders)
      case None => HolderElements(holders) == 0
    decreases |holders|
  {
    if holders != [] {
      var init, last := holders[..|holders| - 1], holders[|holders| - 1];
      DropReferenceElements(init);
      match DropReference(holders)
      case Some(dropped) =>
        assert dropped[..|dropped| - 1] == if last.droppable != [] then init else DropReference(init).value;
      case None =>
    }
  }

  lemma {:induction false} OmitNextElements(r: AuditResult)
    ensures match OmitNext(r)
      case Some(next) => Elements(next) + 1 == Elements(r) && next.omittedCount == r.omittedCount + 1
      case None => Elements(r) == 0
  {
    DropReferenceElements(r.metrics);
    DropReferenceElements(r.findings);
    DropReferenceElements(r.guardrails);
  }

  // ---------------------------------------------------------------- bounding

  /** The first state in the order of omissions that fits. */
  function Bounded(r: AuditResult, limit: nat): Result<AuditResult, BudgetError>
    decreases Elements(r)
  {
    OmitNextElements(r);
    if EncodedLength(r) <= limit then Ok(r)
    else
      match OmitNext(r)
      case Some(next) => Bounded(next, limit)
      case None => Err(BudgetExhausted)
  }

  method OmitReference(holders: seq<Holder>) returns (found: bool, dropped: seq<Holder>)
    ensures found == DropReference(holders).Some?
    ensures dropped == if found then DropReference(holders).value else holders
  {
    found, dropped := false, holders;
    AllHolders(holders);
    for i := |holders| downto 0
      invariant !found && dropped == holders
      invariant DropReference(holders) == DroppedBefore(holders, i)
    {
      if |holders[i].droppable| > 0 {
        SkipHolder(holders, i);
        var holder := holders[i].(droppable := WithoutLast(holders[i].droppable));
        return true, holders[i := holder];
      }
      SkipHolder(holders, i);
    }
  }

  /** The result of searching only the first `n` holders. */
  function DroppedBefore(holders: seq<Holder>, n: nat): Option<seq<Holder>>
    requires n <= |holders|
  {
    match DropReference(holders[..n])
    case Some(dropped) => Some(dropped + holders[n..])
    case None => None
  }

  lemma {:induction false} SkipHolder(holders: seq<Holder>, i: nat)
    requires i < |holders|
    ensures DroppedBefore(holders, i + 1)
      == if holders[i].droppable == [] then DroppedBefore(holders, i)
         else Some(holders[i := holders[i].(droppable := WithoutLast(holders[i].droppable))])
  {
    var init := holders[..i + 1];
    assert init[..|init| - 1] == holders[..i] && init[|init| - 1] == holders[i];
    if holders[i].droppable != [] {
      var holder := holders[i].(droppable := WithoutLast(holders[i].droppable));
      assert holders[..i] + [holder] + holders[i + 1..] == holders[i := holder];
    } else if DropReference(holders[..i]).Some? {
      var dropped := DropReference(holders[..i]).value;
      assert dropped + [holders[i]] + holders[i + 1..] == dropped + holders[i..];
    }
  }

  lemma {:induction false} AllHolders(holders: seq<Holder>)
    ensures DroppedBefore(holders, |holders|) == DropReference(holders)
  {
    Whole(holders);
    match DropReference(holders)
    case Some(dropped) => Nothing(dropped);
    case None =>
  }

  lemma {:induction false} Whole<T>(s: seq<T>)
    ensures s[..|s|] == s && s[|s|..] == []
  {}

  lemma {:induction false} Nothing<T>(s: seq<T>)
    ensures s + [] == s
  {}

  method BoundResult(result: AuditResult, limit: nat) returns (bounded: Result<AuditResult, BudgetError>)
    ensures bounded == Bounded(result, limit)
  {
    var current := result;
    while EncodedLength(current) > limit
      invariant Bounded(current, limit) == Bounded(result, limit)
      decreases Elements(current)
    {
      OmitNextElements(current);
      var found, dropped := OmitReference(current.metrics);
      if found {
        current := current.(metrics := dropped, omittedCount := current.omittedCount + 1);
        continue;
      }
      found, dropped := OmitReference(current.findings);
      if found {
        current := current.(findings := dropped, omittedCount := current.omittedCount + 1);
        continue;
      }
      found, dropped := OmitReference(current.guardrails);
      if found {
        current := current.(guardrails := dropped, omittedCount := current.omittedCount + 1);
        continue;
      }
      if |current.contributions| > 0 {
        current := current.(contributions := WithoutLast(current.contributions),
                            omittedCount := current.omittedCount + 1);
      } else if |current.confounders| > 0 {
        current := current.(confounders := WithoutLast(current.confounders), omittedCount := current.omittedCount + 1);
      } else if |current.workloadEffects| > 0 {
        current := current.(workloadEffects := WithoutLast(current.workloadEffects),
                            omittedCount := current.omittedCount + 1);
      } else if |current.outliers| > 0 {
        current := current.(outliers := WithoutLast(current.outliers), omittedCount := current.omittedCount + 1);
      } else {
        return Err(BudgetExhausted);
      }
    }
    bounded := Ok(current);
  }

  // ---------------------------------------------------------------- what is kept

  predicate HolderShrunk(a: Holder, b: Holder) {
    b.head == a.head && b.kept == a.kept && b.droppable <= a.droppable
  }

  ghost predicate HoldersShrunk(a: seq<Holder>, b: seq<Holder>) {
    |a| == |b| && forall i :: 0 <= i < |a| ==> HolderShrunk(a[i], b[i])
  }

  /** Kept lists are prefixes, evidence of findings and everything else is untouched, and omissions add up. */
  ghost predicate Shrunk(a: AuditResult, b: AuditResult) {
    ListsShrunk(a, b) && Elements(a) + a.omittedCount == Elements(b) + b.omittedCount
  }

  ghost predicate ListsShrunk(a: AuditResult, b: AuditResult) {
    && b.rest == a.rest && b.revision == a.revision && b.lateEvidence == a.lateEvidence
    && HoldersShrunk(a.metrics, b.metrics) && HoldersShrunk(a.findings, b.findings)
    && HoldersShrunk(a.guardrails, b.guardrails)
    && b.contributions <= a.contributions && b.confounders <= a.confounders
    && b.workloadEffects <= a.workloadEffects && b.outliers <= a.outliers
  }

  lemma {:induction false} DropShrinks(holders: seq<Holder>)
    requires DropReference(holders).Some?
    ensures HoldersShrunk(holders, DropReference(holders).value)
    decreases |holders|
  {
    if holders[|holders| - 1].droppable == [] {
      DropShrinks(holders[..|holders| - 1]);
    }
  }

  lemma {:induction false} ShrunkTwice(a: AuditResult, b: AuditResult, c: AuditResult)
    requires Shrunk(a, b) && Shrunk(b, c)
    ensures Shrunk(a, c)
  {
    HoldersShrunkTwice(a.metrics, b.metrics, c.metrics);
    HoldersShrunkTwice(a.findings, b.findings, c.findings);
    HoldersShrunkTwice(a.guardrails, b.guardrails, c.guardrails);
  }

  lemma {:induction false} HoldersShrunkTwice(a: seq<Holder>, b: seq<Holder>, c: seq<Holder>)
    requires HoldersShrunk(a, b) && HoldersShrunk(b, c)
    ensures HoldersShrunk(a, c)
  {
    forall i | 0 <= i < |a| ensures HolderShrunk(a[i], c[i]) {
      assert HolderShrunk(a[i], b[i]) && HolderShrunk(b[i], c[i]);
    }
  }

  lemma {:induction false} Untouched(holders: seq<Holder>)
    ensures HoldersShrunk(holders, holders)
  {}

  lemma {:induction false} MetricShrinks(r: AuditResult)
    requires DropReference(r.metrics).Some?
    ensures ListsShrunk(r, OmitNext(r).value)
  {
    DropShrinks(r.metrics);
    Untouched(r.findings);
    Untouched(r.guardrails);
  }

  lemma {:induction false} FindingShrinks(r: AuditResult)
    requires DropReference(r.metrics).None? && DropReference(r.findings).Some?
    ensures ListsShrunk(r, OmitNext(r).value)
  {
    Untouched(r.metrics);
    DropShrinks(r.findings);
    Untouched(r.guardrails);
  }

  lemma {:induction false} GuardrailShrinks(r: AuditResult)
    requires DropReference(r.metrics).None? && DropReference(r.findings).None? && DropReference(r.guardrails).Some?
    ensures ListsShrunk(r, OmitNext(r).value)
  {
    Untouched(r.metrics);
    Untouched(r.findings);
    DropShrinks(r.guardrails);
  }

  lemma {:induction false} PlainListShrinks(r: AuditResult)
    requires DropReference(r.metrics).None? && DropReference(r.findings).None? && DropReference(r.guardrails).None?
    requires OmitNext(r).Some?
    ensures ListsShrunk(r, OmitNext(r).value)
  {
    Untouched(r.metrics);
    Untouched(r.findings);
    Untouched(r.guardrails);
  }

  lemma {:induction false} OmitNextLists(r: AuditResult)
    requires OmitNext(r).Some?
    ensures ListsShrunk(r, OmitNext(r).value)
  {
    if DropReference(r.metrics).Some? {
      MetricShrinks(r);
    } else if DropReference(r.findings).Some? {
      FindingShrinks(r);
    } else if DropReference(r.guardrails).Some? {
      GuardrailShrinks(r);
    } else {
      PlainListShrinks(r);
    }
  }

  lemma {:induction false} OmitNextShrinks(r: AuditResult)
    requires OmitNext(r).Some?
    ensures Shrunk(r, OmitNext(r).value)
  {
    OmitNextElements(r);
    OmitNextLists(r);
  }

  /** A bounded result fits and has only lost the ends of its lists; it fails only with nothing left to drop. */
  lemma {:induction false} BoundedShrinks(r: AuditResult, limit: nat)
    ensures match Bounded(r, limit)
      case Ok(bounded) => EncodedLength(bounded) <= limit && Shrunk(r, bounded)
      case Err(_) => EncodedLength(r) > limit
    decreases Elements(r)
  {
    OmitNextElements(r);
    if EncodedLength(r) > limit && OmitNext(r).Some? {
      var next := OmitNext(r).value;
      BoundedShrinks(next, limit);
      OmitNextShrinks(r);
      if Bounded(next, limit).Ok? {
        ShrunkTwice(r, next, Bounded(next, limit).value);
      }
    }
  }

  /** The state after a number of omissions. */
  function Omitted(r: AuditResult, count: nat): AuditResult
    decreases count
  {
    if count == 0 || OmitNext(r).None? then r else Omitted(OmitNext(r).value, count - 1)
  }

  lemma {:induction false} OmissionsGrow(r: AuditResult, limit: nat)
    requires Bounded(r, limit).Ok?
    ensures Bounded(r, limit).value.omittedCount >= r.omittedCount
    decreases Elements(r)
  {
    OmitNextElements(r);
    if EncodedLength(r) > limit {
      OmissionsGrow(OmitNext(r).value, limit);
    }
  }

  /** Bounding stops at the first state that fits. */
  lemma {:induction false} BoundedIsFirst(r: AuditResult, limit: nat, j: nat)
    requires Bounded(r, limit).Ok?
    ensures Bounded(r, limit).value.omittedCount >= r.omittedCount
    ensures var count := Bounded(r, limit).value.omittedCount - r.omittedCount;
      && Bounded(r, limit).value == Omitted(r, count)
      && (j < count ==> EncodedLength(Omitted(r, j)) > limit)
    decreases Elements(r)
  {
    OmissionsGrow(r, limit);
    OmitNextElements(r);
    if EncodedLength(r) > limit {
      var next := OmitNext(r).value;
      OmissionsGrow(next, limit);
      BoundedIsFirst(next, limit, if j > 0 then j - 1 else 0);
    }
  }

  // ---------------------------------------------------------------- the order of omissions

  /** One element that may be omitted: its list, its holder there, and its text. */
  datatype Omittable = Omittable(list: nat, holder: nat, text: string)

  /** The elements of a list, last one first. */
  function Backwards(list: nat, holder: nat, texts: seq<string>): (queue: seq<Omittable>)
    ensures |queue| == |texts|
  {
    if texts == [] then []
    else [Omittable(list, holder, texts[|texts| - 1])] + Backwards(list, holder, texts[..|texts| - 1])
  }

  /** The references of the last holder, last one first, then those of the holders before it. */
  function HolderQueue(list: nat, holders: seq<Holder>): seq<Omittable> {
    if holders == [] then []
    else
      Backwards(list, |holders| - 1, holders[|holders| - 1].droppable) + HolderQueue(list, holders[..|holders| - 1])
  }

  /** References first, those of metrics before those of findings before those of guardrails; then contributions,
      confounders, workload effects and outliers. */
  function Parts(r: AuditResult): seq<seq<Omittable>> {
    [ HolderQueue(0, r.metrics), HolderQueue(1, r.findings), HolderQueue(2, r.guardrails),
      Backwards(3, 0, r.contributions), Backwards(4, 0, r.confounders), Backwards(5, 0, r.workloadEffects),
      Backwards(6, 0, r.outliers) ]
  }

  function Joined<T>(parts: seq<seq<T>>): seq<T> {
    if parts == [] then [] else parts[0] + Joined(parts[1..])
  }

  /** All elements that may be omitted, in the order in which they are. */
  function Queue(r: AuditResult): seq<Omittable> {
    Joined(Parts(r))
  }

  predicate AllEmpty<T(==)>(parts: seq<seq<T>>, n: nat) {
    n <= |parts| && forall j :: 0 <= j < n ==> parts[j] == []
  }

  lemma {:induction false} NothingJoined<T>(parts: seq<seq<T>>)
    requires AllEmpty(parts, |parts|)
    ensures Joined(parts) == []
    decreases |parts|
  {
    if parts != [] {
      NothingJoined(parts[1..]);
    }
  }

  /** The head of all parts together is the head of the first one that is not empty. */
  lemma {:induction false} JoinedHead<T>(parts: seq<seq<T>>, i: nat)
    requires i < |parts| && AllEmpty(parts, i) && parts[i] != []
    ensures Joined(parts) != [] && Joined(parts[i := parts[i][1..]]) == Joined(parts)[1..]
    decreases |parts|
  {
    var after := parts[i := parts[i][1..]];
    if i == 0 {
      assert after[1..] == parts[1..];
    } else {
      JoinedHead(parts[1..], i - 1);
      assert after[1..] == parts[1..][i - 1 := parts[i][1..]];
    }
  }

  lemma {:induction false} QueueOfLast(list: nat, init: seq<Holder>, last: Holder)
    ensures HolderQueue(list, init + [last]) == Backwards(list, |init|, last.droppable) + HolderQueue(list, init)
  {
    assert (init + [last])[..|init|] == init;
  }

  lemma {:induction false} BackwardsHead(list: nat, holder: nat, texts: seq<string>, rest: seq<Omittable>)
    requires texts != []
    ensures Backwards(list, holder, texts) + rest != []
    ensures (Backwards(list, holder, texts) + rest)[1..] == Backwards(list, holder, WithoutLast(texts)) + rest
  {}

  lemma {:induction false} NoneBefore(rest: seq<Omittable>, list: nat, holder: nat)
    ensures Backwards(list, holder, []) + rest == rest
  {}

  lemma {:induction false} DropTakesHead(list: nat, holders: seq<Holder>)
    ensures match DropReference(holders)
      case Some(dropped) =>
        HolderQueue(list, holders) != [] && HolderQueue(list, dropped) == HolderQueue(list, holders)[1..]
      case None => HolderQueue(list, holders) == []
    decreases |holders|
  {
    if holders != [] {
      var init, last := holders[..|holders| - 1], holders[|holders| - 1];
      if last.droppable != [] {
        BackwardsHead(list, |init|, last.droppable, HolderQueue(list, init));
        QueueOfLast(list, init, last.(droppable := WithoutLast(last.droppable)));
      } else {
        DropTakesHead(list, init);
        NoneBefore(HolderQueue(list, init), list, |init|);
        if DropReference(init).Some? {
          SameLengthDropped(init);
          QueueOfLast(list, DropReference(init).value, last);
          NoneBefore(HolderQueue(list, DropReference(init).value), list, |init|);
        }
      }
    }
  }

  lemma {:induction false} SameLengthDropped(holders: seq<Holder>)
    requires DropReference(holders).Some?
    ensures |DropReference(holders).value| == |holders|
    decreases |holders|
  {
    DropShrinks(holders);
  }

  /** The next omission shortens this part of the queue and no other. */
  ghost predicate TakesFrom(r: AuditResult, i: nat) {
    && i < 7 && OmitNext(r).Some? && AllEmpty(Parts(r), i)
    && Parts(r)[i] != [] && Parts(OmitNext(r).value) == Parts(r)[i := Parts(r)[i][1..]]
  }

  lemma {:induction false} MetricTakesHead(r: AuditResult)
    requires DropReference(r.metrics).Some?
    ensures TakesFrom(r, 0)
  {
    DropTakesHead(0, r.metrics);
  }

  lemma {:induction false} FindingTakesHead(r: AuditResult)
    requires DropReference(r.metrics).None? && DropReference(r.findings).Some?
    ensures TakesFrom(r, 1)
  {
    DropTakesHead(0, r.metrics);
    DropTakesHead(1, r.findings);
  }

  lemma {:induction false} GuardrailTakesHead(r: AuditResult)
    requires DropReference(r.metrics).None? && DropReference(r.findings).None? && DropReference(r.guardrails).Some?
    ensures TakesFrom(r, 2)
  {
    DropTakesHead(0, r.metrics);
    DropTakesHead(1, r.findings);
    DropTakesHead(2, r.guardrails);
  }

  lemma {:induction false} PlainTakesHead(r: AuditResult) returns (i: nat)
    requires DropReference(r.metrics).None? && DropReference(r.findings).None? && DropReference(r.guardrails).None?
    ensures 3 <= i <= 7 && AllEmpty(Parts(r), i)
    ensures if i < 7 then TakesFrom(r, i) else OmitNext(r).None?
  {
    DropTakesHead(0, r.metrics);
    DropTakesHead(1, r.findings);
    DropTakesHead(2, r.guardrails);
    i := if r.contributions != [] then 3 else if r.confounders != [] then 4
         else if r.workloadEffects != [] then 5 else if r.outliers != [] then 6 else 7;
  }

  /** The next omission takes the head of the queue; there is none exactly when the queue is empty. */
  lemma {:induction false} OmitNextTakesHead(r: AuditResult)
    ensures match OmitNext(r)
      case Some(next) => Queue(r) != [] && Queue(next) == Queue(r)[1..]
      case None => Queue(r) == []
  {
    if DropReference(r.metrics).Some? {
      MetricTakesHead(r);
      JoinedHead(Parts(r), 0);
    } else if DropReference(r.findings).Some? {
      FindingTakesHead(r);
      JoinedHead(Parts(r), 1);
    } else if DropReference(r.guardrails).Some? {
      GuardrailTakesHead(r);
      JoinedHead(Parts(r), 2);
    } else {
      var i := PlainTakesHead(r);
      if i < 7 {
        JoinedHead(Parts(r), i);
      } else {
        NothingJoined(Parts(r));
      }
    }
  }

  lemma {:induction false} BehindHead<T>(s: seq<T>, k: nat)
    requires s != [] && k <= |s[1..]|
    ensures s[1..][k..] == s[k + 1..]
  {}

  /** The second state is what is left of the first one after the front of its queue was omitted. */
  ghost predicate FrontOmitted(r: AuditResult, left: AuditResult) {
    && 0 <= left.omittedCount - r.omittedCount <= |Queue(r)|
    && Queue(left) == Queue(r)[left.omittedCount - r.omittedCount..]
  }

  lemma {:induction false} OneMoreOmitted(r: AuditResult, next: AuditResult, left: AuditResult)
    requires next.omittedCount == r.omittedCount + 1 && Queue(r) != [] && Queue(next) == Queue(r)[1..]
    requires FrontOmitted(next, left)
    ensures FrontOmitted(r, left)
  {
    BehindHead(Queue(r), left.omittedCount - next.omittedCount);
  }

  lemma {:induction false} OmittedFromFront(r: AuditResult, count: nat)
    ensures FrontOmitted(r, Omitted(r, count))
    decreases count
  {
    if count > 0 && OmitNext(r).Some? {
      OmittedFromFront(OmitNext(r).value, count - 1);
      OmitNextTakesHead(r);
      OmitNextElements(r);
      OneMoreOmitted(r, OmitNext(r).value, Omitted(r, count));
    }
  }

  lemma {:induction false} BoundedIsOmitted(r: AuditResult, limit: nat, bounded: AuditResult) returns (count: nat)
    requires Bounded(r, limit) == Ok(bounded)
    ensures bounded == Omitted(r, count)
  {
    BoundedIsFirst(r, limit, 0);
    count := bounded.omittedCount - r.omittedCount;
  }

  /** Whatever a bounded result has lost is the beginning of the queue, as much of it as was counted. */
  lemma {:induction false} OmittedIsFrontOfQueue(r: AuditResult, limit: nat, bounded: AuditResult)
    requires Bounded(r, limit) == Ok(bounded)
    ensures FrontOmitted(r, bounded)
  {
    var count := BoundedIsOmitted(r, limit, bounded);
    OmittedFromFront(r, count);
  }

  // ---------------------------------------------------------------- the probe

  function WithEnvelope(r: AuditResult, revision: nat, lateEvidence: bool): AuditResult {
    r.(revision := revision, lateEvidence := lateEvidence)
  }

  lemma {:induction false} SameOmission(r: AuditResult, revision: nat, lateEvidence: bool)
    ensures OmitNext(WithEnvelope(r, revision, lateEvidence))
      == match OmitNext(r)
         case Some(next) => Some(WithEnvelope(next, revision, lateEvidence))
         case None => None
  {}

  /** What is dropped depends on the lists alone, so a smaller envelope can only help. */
  lemma {:induction false} SmallerEnvelopeFits(r: AuditResult, revision: nat, lateEvidence: bool, limit: nat)
    requires Envelope(revision, lateEvidence) <= Envelope(r.revision, r.lateEvidence)
    requires Bounded(r, limit).Ok?
    ensures Bounded(WithEnvelope(r, revision, lateEvidence), limit).Ok?
    decreases Elements(r)
  {
    if EncodedLength(WithEnvelope(r, revision, lateEvidence)) > limit {
      OmitNextElements(r);
      BoundedStep(r, limit);
      OmitNextShrinks(r);
      SmallerEnvelopeFits(OmitNext(r).value, revision, lateEvidence, limit);
      SameOmission(r, revision, lateEvidence);
      BoundedStep(WithEnvelope(r, revision, lateEvidence), limit);
    }
  }

  lemma {:induction false} BoundedStep(r: AuditResult, limit: nat)
    requires EncodedLength(r) > limit
    ensures Bounded(r, limit).Ok? <==> OmitNext(r).Some? && Bounded(OmitNext(r).value, limit).Ok?
  {}

  function Power10(k: nat): (p: nat)
    ensures p >= 1
  {
    if k == 0 then 1 else 10 * Power10(k - 1)
  }

  lemma {:induction false} DigitsBelow(n: nat, k: nat)
    requires k >= 1
    ensures Digits(n) <= k <==> n < Power10(k)
    decreases k
  {
    if k > 1 && n >= 10 {
      DigitsBelow(n / 10, k - 1);
    }
  }

  const FIRST_LONG_REVISION := 1_000_000_000_000_000_000

  lemma {:induction false} LongRevisions()
    ensures Power10(18) == FIRST_LONG_REVISION && Power10(19) == 10 * FIRST_LONG_REVISION
  {
    assert Power10(6) == 1_000_000 && Power10(12) == 1_000_000_000_000;
  }

  /** The probe has the longest revision but the shorter of the two flags. */
  lemma {:induction false} ProbeEnvelope(revision: nat, lateEvidence: bool)
    requires revision <= MAX_INT
    ensures Envelope(revision, lateEvidence) <= Envelope(MAX_INT, true)
      <==> lateEvidence || revision < FIRST_LONG_REVISION
  {
    LongRevisions();
    DigitsBelow(MAX_INT, 18);
    DigitsBelow(MAX_INT, 19);
    DigitsBelow(revision, 18);
    DigitsBelow(revision, 19);
  }

  /** If the probe fits, the persisted result fits too, for every revision below 10^18. */
  lemma {:induction false} ProbeIsEnough(r: AuditResult, revision: nat, lateEvidence: bool, limit: nat)
    requires revision <= MAX_INT && (lateEvidence || revision < FIRST_LONG_REVISION)
    requires Bounded(WithEnvelope(r, MAX_INT, true), limit).Ok?
    ensures Bounded(WithEnvelope(r, revision, lateEvidence), limit).Ok?
  {
    ProbeEnvelope(revision, lateEvidence);
    SmallerEnvelopeFits(WithEnvelope(r, MAX_INT, true), revision, lateEvidence, limit);
  }

  /** Beyond that, some result passes the probe and still cannot be returned. */
  lemma {:induction false} ProbeIsNotEnough(revision: nat, limit: nat) returns (r: AuditResult)
    requires FIRST_LONG_REVISION <= revision <= MAX_INT && limit >= 100
    ensures Bounded(WithEnvelope(r, MAX_INT, true), limit).Ok?
    ensures Bounded(WithEnvelope(r, revision, false), limit).Err?
  {
    ProbeEnvelope(revision, false);
    DigitsBelow(MAX_INT, 19);
    LongRevisions();
    r := AuditResult("", 0, false, [], [], [], [], [], [], [], 0);
    var fixed := EncodedLength(WithEnvelope(r, MAX_INT, true));
    r := r.(rest := seq(limit - fixed, _ => 'x'));
  }

  // ---------------------------------------------------------------- auditing a project

  /** The number of a revision of one window: that of the stored one with its hash, or the next one. */
  function RevisionNumber(revisions: seq<string>, hash: string): (n: nat)
    ensures 1 <= n <= |revisions| + 1
    ensures hash in revisions ==> n <= |revisions| && revisions[n - 1] == hash
    ensures hash !in revisions ==> n == |revisions| + 1
  {
    if revisions == [] then 1
    else if hash in revisions[..|revisions| - 1] then RevisionNumber(revisions[..|revisions| - 1], hash)
    else if revisions[|revisions| - 1] == hash then |revisions|
    else |revisions| + 1
  }

  class AuditRevisions {
    /** The hashes of the committed revisions of one window, in the order of their numbers. */
    var revisions: seq<string>

    /** Probes, persists and bounds; a failure before the commit leaves no revision behind. */
    method AuditProject(result: AuditResult, hash: string, lateEvidence: bool)
      returns (answer: Result<AuditResult, BudgetError>)
      requires |revisions| < MAX_INT
      modifies this
      ensures hash in old(revisions) ==> revisions == old(revisions)
      ensures hash !in old(revisions) ==> revisions == old(revisions) || revisions == old(revisions) + [hash]
      ensures answer.Ok? <==>
                && Bounded(WithEnvelope(result, MAX_INT, true), MAX_RESULT_BYTES).Ok?
                && Bounded(WithEnvelope(result, RevisionNumber(old(revisions), hash), lateEvidence),
                           MAX_RESULT_BYTES).Ok?
      ensures answer.Ok? ==> hash in revisions
      ensures var number := RevisionNumber(old(revisions), hash);
        && (answer.Ok? ==> answer == Bounded(WithEnvelope(result, number, lateEvidence), MAX_RESULT_BYTES))
        && (lateEvidence || number < FIRST_LONG_REVISION ==> answer.Err? ==> revisions == old(revisions))
    {
      var probe := BoundResult(WithEnvelope(result, MAX_INT, true), MAX_RESULT_BYTES);
      if probe.Err? {
        return Err(BudgetExhausted);
      }
      var number := RevisionNumber(revisions, hash);
      if lateEvidence || number < FIRST_LONG_REVISION {
        ProbeIsEnough(result, number, lateEvidence, MAX_RESULT_BYTES);
      }
      if hash !in revisions {
        revisions := revisions + [hash];
      }
      answer := BoundResult(WithEnvelope(result, number, lateEvidence), MAX_RESULT_BYTES);
    }
  }
}
