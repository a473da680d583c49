/** Why references that are not strings are excluded: with them, resolution need not end. */
module SchemaDivergence {
  import opened Wrappers
  import opened Json
  import opened SchemaResolver

  /** What is known after a bounded number of nested calls. */
  datatype Progress = Unfinished | Failed | Finished(value: Json)

  function JoinMembers(parts: map<string, Progress>): (p: Progress)
    ensures p.Failed? ==> exists k :: k in parts && parts[k].Failed?
    ensures p.Finished? ==> p.value.Object? && p.value.fields.Keys == parts.Keys
    ensures p.Finished? ==> forall k :: k in parts ==> parts[k] == Finished(p.value.fields[k])
  {
    if exists k :: k in parts && parts[k].Unfinished? then Unfinished
    else if exists k :: k in parts && parts[k].Failed? then Failed
    else Finished(Object(map k | k in parts :: ValueOf(parts[k])))
  }

  function JoinElements(parts: seq<Progress>): (p: Progress)
    ensures p.Failed? ==> exists i :: 0 <= i < |parts| && parts[i].Failed?
    ensures p.Finished? ==> p.value.Array? && |p.value.items| == |parts|
    ensures p.Finished? ==> forall i :: 0 <= i < |parts| ==> parts[i] == Finished(p.value.items[i])
  {
    if exists i :: 0 <= i < |parts| && parts[i].Unfinished? then Unfinished
    else if exists i :: 0 <= i < |parts| && parts[i].Failed? then Failed
    else Finished(Array(seq(|parts|, i => if 0 <= i < |parts| then ValueOf(parts[i]) else Null)))
  }

  function ValueOf(p: Progress): Json {
    if p.Finished? then p.value else Null
  }

  function Members(docs: Documents, fields: map<string, Json>, file: string, stack: set<string>, calls: nat)
    : map<string, Progress>
    decreases calls, 1
  {
    map k | k in fields :: ResolveWithin(docs, fields[k], file, stack, calls)
  }

  function Elements(docs: Documents, items: seq<Json>, file: string, stack: set<string>, calls: nat): seq<Progress>
    decreases calls, 1
  {
    seq(|items|, i => if 0 <= i < |items| then ResolveWithin(docs, items[i], file, stack, calls) else Unfinished)
  }

  /** Resolution of any documents, cut off when the calls nest too deeply. */
  function ResolveWithin(docs: Documents, value: Json, file: string, stack: set<string>, calls: nat): Progress
    decreases calls, 0
  {
    if calls == 0 then Unfinished
    else
      match value
      case Object(fields) =>
        if IsReference(fields) then
          var target := ReferenceWithin(docs, fields["$ref"].s, file, stack, calls - 1);
          if !target.Finished? || |fields| == 1 then target
          else if !target.value.Object? then Failed
          else ResolveWithin(docs, Object(Overlay(target.value.fields, fields)), file, stack, calls - 1)
        else JoinMembers(Members(docs, fields, file, stack, calls - 1))
      case Array(items) => JoinElements(Elements(docs, items, file, stack, calls - 1))
      case _ => Finished(value)
  }

  function ReferenceWithin(docs: Documents, reference: string, file: string, stack: set<string>, calls: nat): Progress
    decreases calls, 0
  {
    var key := KeyOf(docs, reference, file);
    if calls == 0 then Unfinished
    else if key in stack || Target(docs, reference, file).None? then Failed
    else
      var (targetFile, target) := Target(docs, reference, file).value;
      ResolveWithin(docs, target, targetFile, stack + {key}, calls - 1)
  }

  // ---------------------------------------------------------------- agreement where resolution ends

  ghost predicate Agrees(p: Progress, resolved: Option<Json>) {
    match p
    case Unfinished => true
    case Failed => resolved.None?
    case Finished(value) => resolved == Some(value)
  }

  /** Where all references are strings, whatever is known early is the result. */
  lemma {:induction false} EarlyResultIsResult(docs: Documents, value: Json, file: string, stack: set<string>,
                                               calls: nat)
    requires Belongs(docs, value, file)
    ensures Agrees(ResolveWithin(docs, value, file, stack, calls), Resolve(docs, value, file, stack))
    decreases calls, 0
  {
    if calls > 0 {
      match value
      case Object(fields) =>
        if IsReference(fields) {
          EarlyReferring(docs, fields, file, stack, calls - 1);
        } else {
          EarlyMembers(docs, fields, file, stack, calls - 1);
        }
      case Array(items) => EarlyElements(docs, items, file, stack, calls - 1);
      case _ =>
    }
  }

  lemma {:induction false} EarlyReferring(docs: Documents, fields: map<string, Json>, file: string, stack: set<string>,
                                          calls: nat)
    requires Belongs(docs, Object(fields), file) && IsReference(fields)
    ensures Agrees(ResolveWithin(docs, Object(fields), file, stack, calls + 1),
                   Resolve(docs, Object(fields), file, stack))
    decreases calls, 1
  {
    ReferenceBelongs(docs, fields, file);
    EarlyReference(docs, fields["$ref"].s, file, stack, calls);
    var target := ReferenceWithin(docs, fields["$ref"].s, file, stack, calls);
    if target.Finished? && target.value.Object? && |fields| != 1 {
      OverlayShrinks(docs, target.value.fields, fields, file);
      EarlyResultIsResult(docs, Object(Overlay(target.value.fields, fields)), file, stack, calls);
    }
  }

  lemma {:induction false} EarlyMembers(docs: Documents, fields: map<string, Json>, file: string, stack: set<string>,
                                        calls: nat)
    requires Belongs(docs, Object(fields), file) && !IsReference(fields)
    ensures Agrees(ResolveWithin(docs, Object(fields), file, stack, calls + 1),
                   Resolve(docs, Object(fields), file, stack))
    decreases calls, 1
  {
    FieldsBelong(docs, fields, file);
    forall k | k in fields
      ensures Agrees(ResolveWithin(docs, fields[k], file, stack, calls), Resolve(docs, fields[k], file, stack))
    {
      EarlyResultIsResult(docs, fields[k], file, stack, calls);
    }
    JoinedMembers(docs, fields, file, stack, calls);
  }

  lemma {:induction false} JoinedMembers(docs: Documents, fields: map<string, Json>, file: string, stack: set<string>,
                                         calls: nat)
    requires Belongs(docs, Object(fields), file) && !IsReference(fields)
    requires forall k :: k in fields ==> Belongs(docs, fields[k], file)
    requires forall k :: k in fields ==>
               Agrees(ResolveWithin(docs, fields[k], file, stack, calls), Resolve(docs, fields[k], file, stack))
    ensures Agrees(ResolveWithin(docs, Object(fields), file, stack, calls + 1),
                   Resolve(docs, Object(fields), file, stack))
  {
    var parts := Members(docs, fields, file, stack, calls);
    var p := ResolveWithin(docs, Object(fields), file, stack, calls + 1);
    assert p == JoinMembers(parts);
    if p.Failed? {
      var k :| k in parts && parts[k].Failed?;
      ObjectFails(docs, fields, file, stack, k);
    } else if p.Finished? {
      forall k | k in fields ensures Resolve(docs, fields[k], file, stack) == Some(p.value.fields[k]) {
        assert parts[k] == Finished(p.value.fields[k]);
      }
      ObjectResolves(docs, fields, file, stack, p.value.fields);
    }
  }

  lemma {:induction false} EarlyElements(docs: Documents, items: seq<Json>, file: string, stack: set<string>,
                                         calls: nat)
    requires Belongs(docs, Array(items), file)
    ensures Agrees(ResolveWithin(docs, Array(items), file, stack, calls + 1), Resolve(docs, Array(items), file, stack))
    decreases calls, 1
  {
    ItemsBelong(docs, items, file);
    forall i | 0 <= i < |items|
      ensures Agrees(ResolveWithin(docs, items[i], file, stack, calls), Resolve(docs, items[i], file, stack))
    {
      EarlyResultIsResult(docs, items[i], file, stack, calls);
    }
    JoinedElements(docs, items, file, stack, calls);
  }

  lemma {:induction false} JoinedElements(docs: Documents, items: seq<Json>, file: string, stack: set<string>,
                                          calls: nat)
    requires Belongs(docs, Array(items), file)
    requires forall i :: 0 <= i < |items| ==> Belongs(docs, items[i], file)
    requires forall i :: 0 <= i < |items| ==>
               Agrees(ResolveWithin(docs, items[i], file, stack, calls), Resolve(docs, items[i], file, stack))
    ensures Agrees(ResolveWithin(docs, Array(items), file, stack, calls + 1), Resolve(docs, Array(items), file, stack))
  {
    var parts := Elements(docs, items, file, stack, calls);
    var p := ResolveWithin(docs, Array(items), file, stack, calls + 1);
    assert p == JoinElements(parts);
    if p.Failed? {
      var i :| 0 <= i < |parts| && parts[i].Failed?;
      ArrayFails(docs, items, file, stack, i);
    } else if p.Finished? {
      forall i | 0 <= i < |items| ensures Resolve(docs, items[i], file, stack) == Some(p.value.items[i]) {
        assert parts[i] == Finished(p.value.items[i]);
      }
      ArrayResolves(docs, items, file, stack, p.value.items);
    }
  }

  lemma {:induction false} EarlyReference(docs: Documents, reference: string, file: string, stack: set<string>,
                                          calls: nat)
    requires StringReferences(docs) && file in docs.files && reference in DocRefs(docs, file)
    ensures Agrees(ReferenceWithin(docs, reference, file, stack, calls), ResolveReference(docs, reference, file, stack))
    decreases calls, 0
  {
    var key := KeyOf(docs, reference, file);
    if calls > 0 && key !in stack && Target(docs, reference, file).Some? {
      TargetBelongs(docs, reference, file);
      var (targetFile, target) := Target(docs, reference, file).value;
      EarlyResultIsResult(docs, target, targetFile, stack + {key}, calls - 1);
      assert ReferenceWithin(docs, reference, file, stack, calls)
          == ResolveWithin(docs, target, targetFile, stack + {key}, calls - 1);
      assert ResolveReference(docs, reference, file, stack) == Resolve(docs, target, targetFile, stack + {key});
    }
  }

  // ---------------------------------------------------------------- where it does not end

  /** An object whose $ref is itself an object, namely a reference to a string. */
  function Hidden(reference: string): Json {
    Object(map["$ref" := Object(map["$ref" := String(reference)])])
  }

  ghost predicate Within(p: Progress, value: Json) {
    p.Unfinished? || p == Finished(value)
  }

  lemma {:induction false} InnerResolves(docs: Documents, first: string, second: string, file: string,
                                         stack: set<string>, calls: nat)
    requires Target(docs, second, file) == Some((file, String(first))) && KeyOf(docs, second, file) !in stack
    ensures Within(ResolveWithin(docs, Object(map["$ref" := String(second)]), file, stack, calls), String(first))
  {
    var fields := map["$ref" := String(second)];
    assert IsReference(fields) && |fields| == 1 && fields["$ref"].s == second;
    if calls > 1 {
      var key := KeyOf(docs, second, file);
      assert calls > 2 ==>
          ResolveWithin(docs, String(first), file, stack + {key}, calls - 2) == Finished(String(first));
      assert Within(ReferenceWithin(docs, second, file, stack, calls - 1), String(first));
    }
  }

  lemma {:induction false} HiddenResolves(docs: Documents, first: string, second: string, file: string,
                                          stack: set<string>, calls: nat)
    requires Target(docs, second, file) == Some((file, String(first))) && KeyOf(docs, second, file) !in stack
    ensures Within(ResolveWithin(docs, Hidden(second), file, stack, calls), Object(map["$ref" := String(first)]))
  {
    if calls > 0 {
      var fields := map["$ref" := Object(map["$ref" := String(second)])];
      assert Hidden(second) == Object(fields) && !IsReference(fields);
      InnerResolves(docs, first, second, file, stack, calls - 1);
      var parts := Members(docs, fields, file, stack, calls - 1);
      assert parts.Keys == {"$ref"} && Within(parts["$ref"], String(first));
      var p := JoinMembers(parts);
      assert ResolveWithin(docs, Hidden(second), file, stack, calls) == p;
      if p.Finished? {
        assert parts["$ref"] == Finished(p.value.fields["$ref"]);
        assert p.value.fields == map["$ref" := String(first)];
      }
    }
  }

  lemma {:induction false} ReferenceToHidden(docs: Documents, first: string, second: string, file: string,
                                             stack: set<string>, calls: nat)
    requires Target(docs, first, file) == Some((file, Hidden(second)))
    requires Target(docs, second, file) == Some((file, String(first)))
    requires KeyOf(docs, first, file) !in stack && KeyOf(docs, second, file) !in stack + {KeyOf(docs, first, file)}
    ensures Within(ReferenceWithin(docs, first, file, stack, calls), Object(map["$ref" := String(first)]))
  {
    if calls > 0 {
      HiddenResolves(docs, first, second, file, stack + {KeyOf(docs, first, file)}, calls - 1);
    }
  }

  lemma {:induction false} OverlayStep(docs: Documents, fields: map<string, Json>, copy: map<string, Json>,
                                       file: string, stack: set<string>, calls: nat)
    requires IsReference(fields) && |fields| != 1
    requires var target := ReferenceWithin(docs, fields["$ref"].s, file, stack, calls);
             target.Finished? ==> target.value.Object? && Overlay(target.value.fields, fields) == copy
    requires !ReferenceWithin(docs, fields["$ref"].s, file, stack, calls).Failed?
    requires ResolveWithin(docs, Object(copy), file, stack, calls).Unfinished?
    ensures ResolveWithin(docs, Object(fields), file, stack, calls + 1).Unfinished?
  {}

  lemma {:induction false} SelfOverlay(fields: map<string, Json>)
    requires IsReference(fields)
    ensures Overlay(map["$ref" := fields["$ref"]], fields) == fields
  {}

  lemma {:induction false} SelfStep(docs: Documents, fields: map<string, Json>, file: string, stack: set<string>,
                                    calls: nat)
    requires IsReference(fields) && |fields| != 1
    requires Within(ReferenceWithin(docs, fields["$ref"].s, file, stack, calls), Object(map["$ref" := fields["$ref"]]))
    requires ResolveWithin(docs, Object(fields), file, stack, calls).Unfinished?
    ensures ResolveWithin(docs, Object(fields), file, stack, calls + 1).Unfinished?
  {
    SelfOverlay(fields);
    OverlayStep(docs, fields, fields, file, stack, calls);
  }

  /** A reference with siblings to such an object, whose string is that same reference, resolves to itself: the copy
      is resolved once more in the same file with the same stack, and so on without end. */
  lemma {:induction false} NonStringReferenceNeverEnds(docs: Documents, fields: map<string, Json>, first: string,
                                                       second: string, file: string, stack: set<string>, calls: nat)
    requires IsReference(fields) && fields["$ref"].s == first && |fields| != 1
    requires Target(docs, first, file) == Some((file, Hidden(second)))
    requires Target(docs, second, file) == Some((file, String(first)))
    requires KeyOf(docs, first, file) !in stack && KeyOf(docs, second, file) !in stack + {KeyOf(docs, first, file)}
    ensures ResolveWithin(docs, Object(fields), file, stack, calls).Unfinished?
    decreases calls
  {
    if calls > 0 {
      ReferenceToHidden(docs, first, second, file, stack, calls - 1);
      NonStringReferenceNeverEnds(docs, fields, first, second, file, stack, calls - 1);
      SelfStep(docs, fields, file, stack, calls - 1);
    }
  }
}
