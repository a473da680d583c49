/** The JSONL evidence adapter: one bounded batch read from a snapshot of an append-only source.

    Keyed digests are injective: a prefix digest is the list of canonical records it covers, a
    revised generation is the content it was derived from. */
module Adapter {
  import opened Wrappers

  /** "" is Unset; the keyed source identity is Base; a rotation derives Revised from the content. */
  datatype Generation = Unset | Base | Revised(content: seq<string>)

  /** "" is NoDigest. */
  datatype Digest = NoDigest | Prefix(content: seq<string>)

  /** What validation says about a record. */
  datatype Verdict = Storable | Incomplete | Secret

  /** One scanned line: a sanitized record, or the reason it cannot be one. A traced record names all the parents
      that its lineage needs. */
  datatype Line =
    | Good(canonical: string, observedAt: Option<int>, verdict: Verdict, traced: bool)
    | Malformed
    | MalformedTime
    | Sensitive
    | Oversized

  datatype Parsed = Parsed(canonical: string, observedAt: int, verdict: Verdict, traced: bool)

  datatype Request = Request(cursor: nat, generation: Generation, digest: Digest, limit: int, observedAt: int)

  datatype Record = Record(
    generation: Generation, sequence: nat, canonical: string, observedAt: int, lateRevision: bool, coverage: Coverage)

  datatype Coverage = Complete | Partial | Missing | Unknown

  datatype Batch = Batch(
    records: seq<Record>, nextCursor: nat, generation: Generation, digest: Digest,
    coverage: Coverage, reason: string)

  datatype Failure = Disabled | Unsupported | BadRecord | Truncated | Unsafe | Invalid

  datatype Collected = Collected(batch: Batch, failure: Option<Failure>)

  /** What list comprehensions yield behind their end; no list contains them. */
  const NO_LINE := Parsed("", 0, Incomplete, false)
  const NO_RECORD := Record(Unset, 0, "", 0, false, Unknown)

  function Min(a: int, b: int): int {
    if a <= b then a else b
  }

  // ---------------------------------------------------------------- digests and rotation

  function Contents(parsed: seq<Parsed>): (r: seq<string>)
    ensures |r| == |parsed|
  {
    seq(|parsed|, (i: nat) => if i < |parsed| then parsed[i].canonical else "")
  }

  function DigestPrefix(parsed: seq<Parsed>, cursor: nat): Digest {
    Prefix(Contents(parsed)[..Min(cursor, |parsed|)])
  }

  /** What the adapter tests: the stored digest against its own prefix, and the cursor against its length. */
  predicate Rotates(parsed: seq<Parsed>, cursor: nat, digest: Digest) {
    (digest != NoDigest && digest != DigestPrefix(parsed, cursor)) || cursor > |parsed|
  }

  /** The snapshot still starts with everything the digest says was committed. */
  predicate Extends(parsed: seq<Parsed>, committed: seq<string>) {
    committed <= Contents(parsed)
  }

  /** For a cursor and digest that were committed together, rotation is reported exactly when the
      snapshot does not extend the committed prefix. A snapshot that is merely stale counts. */
  lemma {:induction false} RotatesIffNotExtending(parsed: seq<Parsed>, committed: seq<string>)
    ensures Rotates(parsed, |committed|, Prefix(committed)) <==> !Extends(parsed, committed)
  {
    if |committed| <= |parsed| {
      assert Contents(parsed)[..|committed|] == committed <==> committed <= Contents(parsed);
    }
  }

  // ---------------------------------------------------------------- the specification of one collection

  function Start(parsed: seq<Parsed>, request: Request): nat {
    if Rotates(parsed, request.cursor, request.digest) then 0 else request.cursor
  }

  function CollectedGeneration(parsed: seq<Parsed>, request: Request): Generation {
    if Rotates(parsed, request.cursor, request.digest) then Revised(Contents(parsed))
    else if request.generation != Unset then request.generation
    else Base
  }

  function RecordAt(parsed: seq<Parsed>, request: Request, index: nat): Record
    requires index < |parsed|
  {
    Record(CollectedGeneration(parsed, request), index + 1, parsed[index].canonical,
           parsed[index].observedAt, Rotates(parsed, request.cursor, request.digest),
           if parsed[index].traced then Complete else Partial)
  }

  predicate AllTraced(parsed: seq<Parsed>, from: nat, to: nat)
    requires to <= |parsed|
  {
    forall i :: from <= i < to ==> parsed[i].traced
  }

  /** One record whose lineage is incomplete makes the whole batch partial. */
  function Covered(batch: Batch, traced: bool): Batch {
    if traced then batch else batch.(coverage := Partial, reason := "lineage_incomplete")
  }

  /** Records of the sequence numbers from + 1 .. to. */
  function RecordsBetween(parsed: seq<Parsed>, request: Request, from: nat, to: nat): (r: seq<Record>)
    requires from <= to <= |parsed|
    ensures |r| == to - from
  {
    seq(to - from, (i: nat) => if i < to - from then RecordAt(parsed, request, from + i) else NO_RECORD)
  }

  /** A batch that already holds the records up to a position. */
  function BatchUpTo(parsed: seq<Parsed>, request: Request, before: Batch, from: nat, to: nat): Batch
    requires from <= to <= |parsed|
  {
    var batch := before.(records := RecordsBetween(parsed, request, from, to), nextCursor := to);
    Covered(batch, AllTraced(parsed, from, to))
  }

  /** The batch of a snapshot whose records are all storable. */
  function BatchOf(parsed: seq<Parsed>, request: Request): Batch
    requires request.limit >= 1
  {
    var from := Start(parsed, request);
    var rotated := Rotates(parsed, request.cursor, request.digest);
    var to := if from <= |parsed| then Min(from + request.limit, |parsed|) else from;
    var next := if to > from then to else request.cursor;
    var batch := Batch(
      if to > from then RecordsBetween(parsed, request, from, to) else [],
      next, CollectedGeneration(parsed, request), DigestPrefix(parsed, next),
      if rotated then Partial else Complete, if rotated then "source_replaced" else "");
    Covered(batch, to <= from || AllTraced(parsed, from, to))
  }

  lemma {:induction false} StartWithin(parsed: seq<Parsed>, request: Request)
    ensures Start(parsed, request) <= |parsed|
  {}

  lemma {:induction false} BatchLength(parsed: seq<Parsed>, request: Request)
    requires request.limit >= 1 && |parsed| >= 1
    ensures var b := BatchOf(parsed, request); var from := Start(parsed, request);
            && from <= |parsed| && |b.records| == Min(request.limit, |parsed| - from)
            && b.nextCursor == from + |b.records| <= |parsed|
            && b.digest == Prefix(Contents(parsed)[..b.nextCursor])
            && b.generation == CollectedGeneration(parsed, request)
  {
    StartWithin(parsed, request);
  }

  lemma {:induction false} BatchRecordAt(parsed: seq<Parsed>, request: Request, i: nat)
    requires request.limit >= 1 && |parsed| >= 1 && i < |BatchOf(parsed, request).records|
    ensures Start(parsed, request) + i < |parsed|
    ensures BatchOf(parsed, request).records[i] == RecordAt(parsed, request, Start(parsed, request) + i)
  {
    StartWithin(parsed, request);
  }

  /** A collected batch starts just after Start, has consecutive sequence numbers, never more than the
      limit, stops early only at the end of the snapshot, and its digest covers exactly its cursor. */
  lemma {:induction false} BatchShape(parsed: seq<Parsed>, request: Request)
    requires request.limit >= 1 && |parsed| >= 1
    ensures var b := BatchOf(parsed, request); var from := Start(parsed, request);
            && from <= |parsed|
            && |b.records| == Min(request.limit, |parsed| - from)
            && (b.records == [] <==> from == |parsed|)
            && b.nextCursor == from + |b.records| <= |parsed|
            && b.digest == Prefix(Contents(parsed)[..b.nextCursor])
            && forall i :: 0 <= i < |b.records| ==>
                 b.records[i].sequence == from + i + 1 &&
                 b.records[i].generation == b.generation &&
                 b.records[i].canonical == Contents(parsed)[from + i]
  {
    var b, from := BatchOf(parsed, request), Start(parsed, request);
    BatchLength(parsed, request);
    forall i | 0 <= i < |b.records|
      ensures from + i < |parsed| && b.records[i] == RecordAt(parsed, request, from + i)
    {
      BatchRecordAt(parsed, request, i);
    }
  }

  /** A source that shrank or changed never keeps its generation label. */
  lemma {:induction false} RotationChangesBase(parsed: seq<Parsed>, request: Request)
    requires request.limit >= 1
    ensures BatchOf(parsed, request).generation == Base ==>
              !Rotates(parsed, request.cursor, request.digest) && request.generation in {Unset, Base}
    ensures Rotates(parsed, request.cursor, request.digest) ==>
              forall r :: r in BatchOf(parsed, request).records ==> r.lateRevision && r.generation.Revised?
  {
    var b := BatchOf(parsed, request);
    if Rotates(parsed, request.cursor, request.digest) {
      forall r | r in b.records ensures r.lateRevision && r.generation.Revised? {
        var i :| 0 <= i < |b.records| && b.records[i] == r;
      }
    }
  }

  /** Every record tells when its line was observed, whether its batch replaces what was committed, and whether its
      lineage is complete. */
  lemma {:induction false} RecordTells(parsed: seq<Parsed>, request: Request, i: nat)
    requires request.limit >= 1 && |parsed| >= 1 && i < |BatchOf(parsed, request).records|
    ensures var record := BatchOf(parsed, request).records[i];
            var rotated := Rotates(parsed, request.cursor, request.digest);
            var source := (if rotated then 0 else request.cursor) + i;
            && source < |parsed|
            && record.observedAt == parsed[source].observedAt && record.lateRevision == rotated
            && record.coverage == if parsed[source].traced then Complete else Partial
  {
    BatchRecordAt(parsed, request, i);
  }

  /** A batch is complete exactly if it replaces nothing and all its records are complete. */
  lemma {:induction false} BatchCoverage(parsed: seq<Parsed>, request: Request)
    requires request.limit >= 1 && |parsed| >= 1
    ensures var b := BatchOf(parsed, request);
            b.coverage == Complete <==>
              && !Rotates(parsed, request.cursor, request.digest)
              && forall i :: 0 <= i < |b.records| ==> b.records[i].coverage == Complete
  {
    var b, from := BatchOf(parsed, request), Start(parsed, request);
    BatchLength(parsed, request);
    forall i | 0 <= i < |b.records|
      ensures from + i < |parsed| && (b.records[i].coverage == Complete <==> parsed[from + i].traced)
    {
      BatchRecordAt(parsed, request, i);
    }
    CoveredWhenTraced(parsed, request);
    if !AllTraced(parsed, from, from + |b.records|) {
      var k :| from <= k < from + |b.records| && !parsed[k].traced;
      assert b.records[k - from].coverage != Complete;
    }
  }

  lemma {:induction false} CoveredWhenTraced(parsed: seq<Parsed>, request: Request)
    requires request.limit >= 1 && |parsed| >= 1
    ensures var b := BatchOf(parsed, request); var from := Start(parsed, request);
            && from + |b.records| <= |parsed|
            && (b.coverage == Complete <==>
                  !Rotates(parsed, request.cursor, request.digest) && AllTraced(parsed, from, from + |b.records|))
  {
    BatchLength(parsed, request);
  }

  // ---------------------------------------------------------------- the adapter

  function Unavailable(coverage: Coverage, reason: string): Batch {
    Batch([], 0, Unset, NoDigest, coverage, reason)
  }

  predicate GoodLines(lines: seq<Line>) {
    forall i :: 0 <= i < |lines| ==> lines[i].Good?
  }

  function ParsedLine(line: Line, observedAt: int): Parsed
    requires line.Good?
  {
    Parsed(line.canonical, if line.observedAt.Some? then line.observedAt.value else observedAt, line.verdict,
           line.traced)
  }

  function ParsedLines(lines: seq<Line>, observedAt: int): (r: seq<Parsed>)
    requires GoodLines(lines)
    ensures |r| == |lines|
  {
    seq(|lines|, (i: nat) => if i < |lines| then ParsedLine(lines[i], observedAt) else NO_LINE)
  }

  /** The failure and reason a bad line is reported with. */
  function BadLine(line: Line): Option<(Failure, string)> {
    match line
    case Good(_, _, _, _) => None
    case Malformed => Some((BadRecord, "malformed"))
    case MalformedTime => Some((BadRecord, "malformed_time"))
    case Sensitive => Some((Unsafe, "sensitive"))
    case Oversized => Some((Truncated, "truncated_or_oversized"))
  }

  /** The first bad line decides. */
  function FirstFailure(lines: seq<Line>): (failure: Option<(Failure, string)>)
    ensures failure.None? <==> GoodLines(lines)
    ensures failure.Some? ==> failure.value.0 in {BadRecord, Unsafe, Truncated}
  {
    if lines == [] then None
    else if lines[0].Good? then FirstFailure(lines[1..])
    else BadLine(lines[0])
  }

  /** The failure of the first record at these positions that does not pass validation. */
  function FirstDefect(parsed: seq<Parsed>, from: nat, to: nat): (failure: Option<Failure>)
    requires from <= to <= |parsed|
    ensures failure.None? <==> forall i :: from <= i < to ==> parsed[i].verdict.Storable?
    ensures failure.Some? ==> failure.value in {Invalid, Unsafe}
    decreases |parsed| - from
  {
    if from == to then None
    else
      match parsed[from].verdict
      case Storable => FirstDefect(parsed, from + 1, to)
      case Incomplete => Some(Invalid)
      case Secret => Some(Unsafe)
  }

  /** Only the records that the next batch would hold are validated. */
  function BatchDefect(parsed: seq<Parsed>, request: Request): Option<Failure>
    requires request.limit >= 1
  {
    var from := Start(parsed, request);
    if from > |parsed| then None else FirstDefect(parsed, from, Min(from + request.limit, |parsed|))
  }

  /** What a collection attempt reports; it depends on nothing else, so repeating it cannot help. */
  function CollectFailure(enabled: bool, supported: bool, lines: seq<Line>, request: Request): Option<Failure> {
    if !enabled then Some(Disabled)
    else if !supported then Some(Unsupported)
    else if lines == [] || request.limit < 1 then None
    else if FirstFailure(lines).Some? then Some(FirstFailure(lines).value.0)
    else BatchDefect(ParsedLines(lines, request.observedAt), request)
  }

  class JSONL {
    const lines: seq<Line>
    const enabled: bool
    const supported: bool

    constructor (lines: seq<Line>, enabled: bool, supported: bool)
      ensures this.lines == lines && this.enabled == enabled && this.supported == supported
    {
      this.lines := lines;
      this.enabled := enabled;
      this.supported := supported;
    }

    /** First pass: every line parses, or the first bad one decides the failure. */
    method Parse(request: Request) returns (parsed: seq<Parsed>, failure: Option<(Failure, string)>)
      ensures failure == FirstFailure(lines)
      ensures failure.None? ==> parsed == ParsedLines(lines, request.observedAt)
    {
      parsed := [];
      failure := None;
      for i := 0 to |lines|
        invariant failure.None? && GoodLines(lines[..i]) && FirstFailure(lines) == FirstFailure(lines[i..])
        invariant parsed == ParsedLines(lines[..i], request.observedAt)
      {
        assert lines[i..][1..] == lines[i + 1..];
        match lines[i]
        case Malformed =>
          failure := Some((BadRecord, "malformed"));
          return;
        case MalformedTime =>
          failure := Some((BadRecord, "malformed_time"));
          return;
        case Sensitive =>
          failure := Some((Unsafe, "sensitive"));
          return;
        case Oversized =>
          failure := Some((Truncated, "truncated_or_oversized"));
          return;
        case Good(_, _, _, _) =>
          assert lines[..i + 1] == lines[..i] + [lines[i]];
          parsed := parsed + [ParsedLine(lines[i], request.observedAt)];
      }
      assert lines[..|lines|] == lines;
    }

    /** Second pass: the records after the cursor, up to the limit, unless one of them is not storable; the
        first of those decides the failure. */
    method CollectRecords(parsed: seq<Parsed>, request: Request, cursor: nat, rotated: bool, before: Batch)
      returns (batch: Batch, failure: Option<Failure>)
      requires request.limit >= 1 && cursor == Start(parsed, request) && cursor <= |parsed|
      requires rotated == Rotates(parsed, request.cursor, request.digest)
      requires before.records == [] && before.generation == CollectedGeneration(parsed, request)
      ensures failure == BatchDefect(parsed, request)
      ensures failure.None? ==>
                var to := Min(cursor + request.limit, |parsed|);
                batch == if to > cursor then BatchUpTo(parsed, request, before, cursor, to) else before
    {
      batch, failure := before, None;
      var end := Min(cursor + request.limit, |parsed|);
      for index := 0 to |parsed|
        invariant failure.None?
        invariant index <= cursor ==> batch == before
        invariant index > cursor ==>
            && index < cursor + request.limit
            && batch == BatchUpTo(parsed, request, before, cursor, index)
        invariant index > cursor ==> index <= end
        invariant FirstDefect(parsed, cursor, end)
          == FirstDefect(parsed, if index <= cursor then cursor else index, end)
      {
        var sequence := index + 1;
        if sequence <= cursor {
          continue;
        }
        match parsed[index].verdict {
          case Incomplete => return batch, Some(Invalid);
          case Secret => return batch, Some(Unsafe);
          case Storable =>
        }
        var coverage := Complete;
        if !parsed[index].traced {
          coverage := Partial;
          batch := batch.(coverage := Partial, reason := "lineage_incomplete");
        }
        var record := Record(batch.generation, sequence, parsed[index].canonical, parsed[index].observedAt, rotated,
                             coverage);
        assert record == RecordAt(parsed, request, index);
        batch := batch.(records := batch.records + [record], nextCursor := sequence);
        assert batch.records == RecordsBetween(parsed, request, cursor, sequence);
        if |batch.records| == request.limit {
          return batch, None;
        }
      }
    }

    /** One bounded collection. Whenever it succeeds on a non-empty source it returns exactly BatchOf. */
    method Collect(request: Request) returns (result: Collected)
      ensures result.failure == CollectFailure(enabled, supported, lines, request)
      ensures !enabled ==> result.batch == Unavailable(Missing, "disabled")
      ensures enabled && !supported ==> result.batch == Unavailable(Unknown, "unsupported")
      ensures enabled && supported && (lines == [] || request.limit < 1) ==>
                result.batch == Unavailable(Missing, "missing")
      ensures enabled && supported && lines != [] && request.limit >= 1 ==>
                match FirstFailure(lines)
                case Some(bad) => result.batch == Batch([], request.cursor, Unset, NoDigest, Partial, bad.1)
                case None =>
                  if result.failure.Some? then result.batch.coverage == Partial && result.batch.reason == "invalid"
                  else result.batch == BatchOf(ParsedLines(lines, request.observedAt), request)
    {
      if !enabled {
        return Collected(Unavailable(Missing, "disabled"), Some(Disabled));
      }
      if !supported {
        return Collected(Unavailable(Unknown, "unsupported"), Some(Unsupported));
      }
      if lines == [] || request.limit < 1 {
        return Collected(Unavailable(Missing, "missing"), None);
      }
      var batch := Batch([], request.cursor, Unset, NoDigest, Complete, "");
      var parsed, failure := Parse(request);
      if failure.Some? {
        return Collected(batch.(coverage := Partial, reason := failure.value.1), Some(failure.value.0));
      }
      batch := batch.(generation := Base);
      var prefixMatches := request.digest == NoDigest || request.digest == DigestPrefix(parsed, request.cursor);
      var rotated := !prefixMatches;
      if request.generation != Unset && prefixMatches && request.cursor <= |parsed| {
        batch := batch.(generation := request.generation);
      }
      if request.cursor > |parsed| {
        rotated := true;
      }
      var cursor := request.cursor;
      if rotated {
        cursor := 0;
        batch := batch.(coverage := Partial, reason := "source_replaced", generation := Revised(Contents(parsed)));
      }
      var defect;
      batch, defect := CollectRecords(parsed, request, cursor, rotated, batch);
      if defect.Some? {
        return Collected(batch.(coverage := Partial, reason := "invalid"), defect);
      }
      batch := batch.(digest := DigestPrefix(parsed, batch.nextCursor));
      result := Collected(batch, None);
    }
  }
}
