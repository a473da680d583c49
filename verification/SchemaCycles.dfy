/** When flattening fails: exactly when some chain of references leaves the documents or comes back to a
    target it already went through. */
module SchemaCycles {
  import opened Wrappers
  import opened Json
  import opened SchemaResolver

  /** Following a chain of references: each one occurs somewhere in the value reached so far. */
  ghost function End(docs: Documents, value: Json, file: string, chain: seq<string>): Option<(string, Json)>
    decreases |chain|
  {
    if chain == [] then Some((file, value))
    else if chain[0] !in Refs(value) || Target(docs, chain[0], file).None? then None
    else
      var (targetFile, target) := Target(docs, chain[0], file).value;
      End(docs, target, targetFile, chain[1..])
  }

  /** A property of every file and value that a non-empty chain of references reaches. */
  ghost predicate Everywhere(docs: Documents, value: Json, file: string, good: (Documents, string, Json) -> bool) {
    forall chain :: chain != [] && End(docs, value, file, chain).Some? ==>
      var (endFile, end) := End(docs, value, file, chain).value;
      good(docs, endFile, end)
  }

  predicate IsObject(docs: Documents, file: string, v: Json) {
    v.Object?
  }

  lemma {:induction false} EverywhereTarget(docs: Documents, value: Json, file: string,
                                            good: (Documents, string, Json) -> bool, reference: string)
    requires Everywhere(docs, value, file, good)
    requires reference in Refs(value) && Target(docs, reference, file).Some?
    ensures var (targetFile, target) := Target(docs, reference, file).value;
            good(docs, targetFile, target) && Everywhere(docs, target, targetFile, good)
  {
    var (targetFile, target) := Target(docs, reference, file).value;
    assert End(docs, value, file, [reference]) == Some((targetFile, target)) by {
      assert [reference][1..] == [];
    }
    forall chain | chain != [] && End(docs, target, targetFile, chain).Some?
      ensures good(docs, End(docs, target, targetFile, chain).value.0, End(docs, target, targetFile, chain).value.1)
    {
      assert ([reference] + chain)[1..] == chain;
      assert End(docs, value, file, [reference] + chain) == End(docs, target, targetFile, chain);
    }
  }

  lemma {:induction false} EverywherePart(docs: Documents, value: Json, part: Json, file: string,
                                          good: (Documents, string, Json) -> bool)
    requires Everywhere(docs, value, file, good) && Refs(part) <= Refs(value)
    ensures Everywhere(docs, part, file, good)
  {
    forall chain | chain != [] && End(docs, part, file, chain).Some?
      ensures good(docs, End(docs, part, file, chain).value.0, End(docs, part, file, chain).value.1)
    {
      assert End(docs, value, file, chain) == End(docs, part, file, chain);
    }
  }

  // ---------------------------------------------------------------- values without references

  lemma {:induction false} RefFreeResolvesToItself(docs: Documents, value: Json, file: string, stack: set<string>)
    requires Belongs(docs, value, file) && RefFree(value)
    ensures Resolve(docs, value, file, stack) == Some(value)
    decreases value
  {
    MembersBelong(docs, value, file);
    match value
    case Object(fields) =>
      forall k | k in fields ensures Resolve(docs, fields[k], file, stack) == Some(fields[k]) {
        RefFreeResolvesToItself(docs, fields[k], file, stack);
      }
      ObjectResolves(docs, fields, file, stack, fields);
    case Array(items) =>
      forall i | 0 <= i < |items| ensures Resolve(docs, items[i], file, stack) == Some(items[i]) {
        RefFreeResolvesToItself(docs, items[i], file, stack);
      }
      ArrayResolves(docs, items, file, stack, items);
    case _ =>
  }

  /** If every reachable target is an object, resolution never changes what kind of value something is. */
  lemma {:induction false} ResolutionKeepsKind(docs: Documents, value: Json, file: string, stack: set<string>)
    requires Belongs(docs, value, file) && Everywhere(docs, value, file, IsObject)
    requires Resolve(docs, value, file, stack).Some?
    ensures var resolved := Resolve(docs, value, file, stack).value;
            && (value.Object? <==> resolved.Object?) && (value.Array? <==> resolved.Array?)
            && (!value.Object? && !value.Array? ==> resolved == value)
    decreases |Keys(docs) - stack|, RefDepth(value), value
  {
    if value.Object? && IsReference(value.fields) {
      MembersBelong(docs, value, file);
      ReferenceToObject(docs, value, value.fields["$ref"].s, file, stack);
      var base := ResolveReference(docs, value.fields["$ref"].s, file, stack).value.fields;
      if |value.fields| != 1 {
        OverlayResolves(docs, base, value.fields, file, stack);
      }
    }
  }

  lemma {:induction false} OverlayResolves(docs: Documents, base: map<string, Json>, fields: map<string, Json>,
                                           file: string, stack: set<string>)
    requires IsReference(fields) && Belongs(docs, Object(fields), file) && RefFree(Object(base))
    ensures Belongs(docs, Object(Overlay(base, fields)), file)
    ensures var resolved := Resolve(docs, Object(Overlay(base, fields)), file, stack);
            resolved.Some? ==> resolved.value.Object?
  {
    OverlayShrinks(docs, base, fields, file);
  }

  lemma {:induction false} ReferenceToObject(docs: Documents, value: Json, reference: string, file: string,
                                             stack: set<string>)
    requires Belongs(docs, value, file) && Everywhere(docs, value, file, IsObject)
    requires reference in Refs(value) && ResolveReference(docs, reference, file, stack).Some?
    ensures ResolveReference(docs, reference, file, stack).value.Object?
    decreases |Keys(docs) - stack|, 0
  {
    EverywhereTarget(docs, value, file, IsObject, reference);
    TargetBelongs(docs, reference, file);
    FewerKeysLeft(docs, reference, file, stack);
    var (targetFile, target) := Target(docs, reference, file).value;
    ResolutionKeepsKind(docs, target, targetFile, stack + {KeyOf(docs, reference, file)});
  }

  // ---------------------------------------------------------------- references with siblings

  /** Every reference string that stands beside other members somewhere inside a value. */
  ghost function SiblingRefs(v: Json): set<string> {
    match v
    case Array(items) => set i, r | 0 <= i < |items| && r in SiblingRefs(items[i]) :: r
    case Object(fields) =>
      (if IsReference(fields) && |fields| != 1 then {fields["$ref"].s} else {})
      + (set k, r | k in fields && r in SiblingRefs(fields[k]) :: r)
    case _ => {}
  }

  lemma {:induction false} SiblingRefsAreRefs(v: Json)
    ensures SiblingRefs(v) <= Refs(v)
  {
    match v
    case Array(items) =>
      forall i | 0 <= i < |items| ensures SiblingRefs(items[i]) <= Refs(items[i]) {
        SiblingRefsAreRefs(items[i]);
      }
    case Object(fields) =>
      forall k | k in fields ensures SiblingRefs(fields[k]) <= Refs(fields[k]) {
        SiblingRefsAreRefs(fields[k]);
      }
    case _ =>
  }

  predicate Standalone(v: Json) {
    v.Object? && IsReference(v.fields) && |v.fields| == 1
  }

  /** What a number of standalone references in a row lead to. */
  ghost function Follow(docs: Documents, v: Json, file: string, n: nat): Option<(string, Json)>
    decreases n
  {
    if n == 0 then Some((file, v))
    else if !Standalone(v) || Target(docs, v.fields["$ref"].s, file).None? then None
    else
      var (targetFile, target) := Target(docs, v.fields["$ref"].s, file).value;
      Follow(docs, target, targetFile, n - 1)
  }

  /** An object that stays one along standalone references. */
  ghost predicate Solid(docs: Documents, v: Json, file: string) {
    forall n: nat :: Follow(docs, v, file, n).Some? ==> Follow(docs, v, file, n).value.1.Object?
  }

  lemma {:induction false} SolidHere(docs: Documents, v: Json, file: string)
    requires !Standalone(v)
    ensures Solid(docs, v, file) <==> v.Object?
  {
    assert Follow(docs, v, file, 0) == Some((file, v));
  }

  lemma {:induction false} SolidBehindStandalone(docs: Documents, v: Json, file: string)
    requires Standalone(v) && Target(docs, v.fields["$ref"].s, file).Some?
    ensures var (targetFile, target) := Target(docs, v.fields["$ref"].s, file).value;
            Solid(docs, v, file) <==> Solid(docs, target, targetFile)
  {
    var (targetFile, target) := Target(docs, v.fields["$ref"].s, file).value;
    forall n: nat ensures Follow(docs, v, file, n + 1) == Follow(docs, target, targetFile, n) {}
    if Solid(docs, v, file) {
      forall n: nat | Follow(docs, target, targetFile, n).Some?
        ensures Follow(docs, target, targetFile, n).value.1.Object?
      {
        assert Follow(docs, v, file, n + 1).Some?;
      }
    }
    if Solid(docs, target, targetFile) {
      forall n: nat | Follow(docs, v, file, n).Some? ensures Follow(docs, v, file, n).value.1.Object? {
        assert n > 0 ==> Follow(docs, v, file, n) == Follow(docs, target, targetFile, n - 1);
      }
    }
  }

  /** Resolution turns exactly the solid values into objects. */
  lemma {:induction false} SolidResolves(docs: Documents, value: Json, file: string, stack: set<string>)
    requires Belongs(docs, value, file) && Resolve(docs, value, file, stack).Some?
    ensures Solid(docs, value, file) <==> Resolve(docs, value, file, stack).value.Object?
    decreases |Keys(docs) - stack|, RefDepth(value), value, 1
  {
    if Standalone(value) {
      ReferenceBelongs(docs, value.fields, file);
      SolidReference(docs, value.fields["$ref"].s, file, stack);
      SolidBehindStandalone(docs, value, file);
    } else {
      SolidHere(docs, value, file);
      if value.Object? && IsReference(value.fields) {
        ReferenceBelongs(docs, value.fields, file);
        var base := ResolveReference(docs, value.fields["$ref"].s, file, stack).value.fields;
        OverlayResolves(docs, base, value.fields, file, stack);
      }
    }
  }

  lemma {:induction false} SolidReference(docs: Documents, reference: string, file: string, stack: set<string>)
    requires StringReferences(docs) && file in docs.files && reference in DocRefs(docs, file)
    requires ResolveReference(docs, reference, file, stack).Some?
    ensures Target(docs, reference, file).Some?
    ensures var (targetFile, target) := Target(docs, reference, file).value;
            Solid(docs, target, targetFile) <==> ResolveReference(docs, reference, file, stack).value.Object?
    decreases |Keys(docs) - stack|, 0
  {
    TargetBelongs(docs, reference, file);
    FewerKeysLeft(docs, reference, file, stack);
    var (targetFile, target) := Target(docs, reference, file).value;
    SolidResolves(docs, target, targetFile, stack + {KeyOf(docs, reference, file)});
  }

  // ---------------------------------------------------------------- exactly when resolution fails

  /** The chain comes to a reference whose target is already on the stack or does not exist, or which has
      siblings although its target is no object. */
  ghost predicate Breaks(docs: Documents, value: Json, file: string, chain: seq<string>, stack: set<string>)
    decreases |chain|
  {
    && chain != [] && chain[0] in Refs(value)
    && var key := KeyOf(docs, chain[0], file);
       || key in stack
       || Target(docs, chain[0], file).None?
       || var (targetFile, target) := Target(docs, chain[0], file).value;
          || (chain[0] in SiblingRefs(value) && !Solid(docs, target, targetFile))
          || Breaks(docs, target, targetFile, chain[1..], stack + {key})
  }

  lemma {:induction false} BreaksInPart(docs: Documents, value: Json, part: Json, file: string, chain: seq<string>,
                                        stack: set<string>)
    requires Breaks(docs, part, file, chain, stack)
    requires Refs(part) <= Refs(value) && SiblingRefs(part) <= SiblingRefs(value)
    ensures Breaks(docs, value, file, chain, stack)
  {}

  lemma {:induction false} MemberSiblings(fields: map<string, Json>, k: string)
    requires k in fields
    ensures Refs(fields[k]) <= Refs(Object(fields)) && SiblingRefs(fields[k]) <= SiblingRefs(Object(fields))
  {}

  lemma {:induction false} ElementSiblings(items: seq<Json>, i: nat)
    requires i < |items|
    ensures Refs(items[i]) <= Refs(Array(items)) && SiblingRefs(items[i]) <= SiblingRefs(Array(items))
  {}

  /** A chain that breaks in an object breaks in one of its members, unless it starts with the object's own $ref. */
  lemma {:induction false} BreaksInMember(docs: Documents, fields: map<string, Json>, file: string,
                                          chain: seq<string>, stack: set<string>) returns (k: string)
    requires Breaks(docs, Object(fields), file, chain, stack)
    requires IsReference(fields) ==> fields["$ref"].s != chain[0]
    ensures k in fields && Breaks(docs, fields[k], file, chain, stack)
    ensures IsReference(fields) ==> k != "$ref"
  {
    if chain[0] in SiblingRefs(Object(fields)) {
      k :| k in fields && chain[0] in SiblingRefs(fields[k]);
      SiblingRefsAreRefs(fields[k]);
    } else {
      k :| k in fields && chain[0] in Refs(fields[k]);
    }
  }

  lemma {:induction false} BreaksInElement(docs: Documents, items: seq<Json>, file: string, chain: seq<string>,
                                           stack: set<string>) returns (i: nat)
    requires Breaks(docs, Array(items), file, chain, stack)
    ensures i < |items| && Breaks(docs, items[i], file, chain, stack)
  {
    if chain[0] in SiblingRefs(Array(items)) {
      i :| 0 <= i < |items| && chain[0] in SiblingRefs(items[i]);
      SiblingRefsAreRefs(items[i]);
    } else {
      i :| 0 <= i < |items| && chain[0] in Refs(items[i]);
    }
  }

  lemma {:induction false} BrokenChainFails(docs: Documents, value: Json, file: string, chain: seq<string>,
                                            stack: set<string>)
    requires Belongs(docs, value, file) && Breaks(docs, value, file, chain, stack)
    ensures Resolve(docs, value, file, stack).None?
    decreases |Keys(docs) - stack|, RefDepth(value), value, 1
  {
    match value
    case Object(fields) =>
      if IsReference(fields) {
        ReferenceBelongs(docs, fields, file);
        BrokenObjectFails(docs, fields, file, chain, stack);
      } else {
        FieldsBelong(docs, fields, file);
        var k := BreaksInMember(docs, fields, file, chain, stack);
        BrokenChainFails(docs, fields[k], file, chain, stack);
        ObjectFails(docs, fields, file, stack, k);
      }
    case Array(items) =>
      ItemsBelong(docs, items, file);
      var i := BreaksInElement(docs, items, file, chain, stack);
      BrokenChainFails(docs, items[i], file, chain, stack);
      ArrayFails(docs, items, file, stack, i);
    case _ => assert false;
  }

  lemma {:induction false} BrokenObjectFails(docs: Documents, fields: map<string, Json>, file: string,
                                             chain: seq<string>, stack: set<string>)
    requires Belongs(docs, Object(fields), file) && Breaks(docs, Object(fields), file, chain, stack)
    requires IsReference(fields) && fields["$ref"].s in DocRefs(docs, file)
    ensures Resolve(docs, Object(fields), file, stack).None?
    decreases |Keys(docs) - stack|, RefDepth(Object(fields)), Object(fields), 0
  {
    var reference := fields["$ref"].s;
    var target := ResolveReference(docs, reference, file, stack);
    if chain[0] == reference {
      BrokenReferenceFails(docs, reference, Object(fields), file, chain, stack);
      if target.Some? {
        OnlyMember(fields);
      }
    } else {
      var k := BreaksInMember(docs, fields, file, chain, stack);
      OtherMember(fields, k);
      if target.Some? && target.value.Object? {
        OverlayShrinks(docs, target.value.fields, fields, file);
        var copy := Overlay(target.value.fields, fields);
        assert copy[k] == fields[k];
        MemberSiblings(copy, k);
        BreaksInPart(docs, Object(copy), fields[k], file, chain, stack);
        BrokenChainFails(docs, Object(copy), file, chain, stack);
      }
    }
  }

  lemma {:induction false} OtherMember(fields: map<string, Json>, k: string)
    requires IsReference(fields) && k in fields && k != "$ref"
    ensures |fields| != 1
  {
    assert fields.Keys == {"$ref", k} + (fields.Keys - {"$ref", k});
  }

  /** A standalone reference has no references with siblings inside it. */
  lemma {:induction false} OnlyMember(fields: map<string, Json>)
    requires IsReference(fields)
    ensures |fields| == 1 ==> SiblingRefs(Object(fields)) == {}
  {
    forall k | k in fields && k != "$ref" ensures |fields| != 1 {
      OtherMember(fields, k);
    }
  }

  /** The first reference of a broken chain fails, or is a reference with siblings to what is no object. */
  lemma {:induction false} BrokenReferenceFails(docs: Documents, reference: string, value: Json, file: string,
                                                chain: seq<string>, stack: set<string>)
    requires StringReferences(docs) && file in docs.files && reference in DocRefs(docs, file)
    requires Breaks(docs, value, file, chain, stack) && chain[0] == reference
    ensures var resolved := ResolveReference(docs, reference, file, stack);
            resolved.Some? ==> reference in SiblingRefs(value) && !resolved.value.Object?
    decreases |Keys(docs) - stack|, 0
  {
    var key := KeyOf(docs, reference, file);
    if key !in stack && Target(docs, reference, file).Some? {
      TargetBelongs(docs, reference, file);
      FewerKeysLeft(docs, reference, file, stack);
      var (targetFile, target) := Target(docs, reference, file).value;
      if Breaks(docs, target, targetFile, chain[1..], stack + {key}) {
        BrokenChainFails(docs, target, targetFile, chain[1..], stack + {key});
      } else if ResolveReference(docs, reference, file, stack).Some? {
        SolidReference(docs, reference, file, stack);
      }
    }
  }

  /** A failure comes with the chain that causes it. */
  lemma {:induction false} FailureHasBrokenChain(docs: Documents, value: Json, file: string, stack: set<string>)
    returns (chain: seq<string>)
    requires Belongs(docs, value, file) && Resolve(docs, value, file, stack).None?
    ensures Breaks(docs, value, file, chain, stack)
    decreases |Keys(docs) - stack|, RefDepth(value), value, 1
  {
    match value
    case Object(fields) =>
      if IsReference(fields) {
        ReferenceBelongs(docs, fields, file);
        chain := FailedObjectChain(docs, fields, file, stack);
      } else {
        FieldsBelong(docs, fields, file);
        var k :| k in fields && Resolve(docs, fields[k], file, stack).None?;
        chain := FailureHasBrokenChain(docs, fields[k], file, stack);
        MemberSiblings(fields, k);
        BreaksInPart(docs, value, fields[k], file, chain, stack);
      }
    case Array(items) =>
      ItemsBelong(docs, items, file);
      var i :| 0 <= i < |items| && Resolve(docs, items[i], file, stack).None?;
      chain := FailureHasBrokenChain(docs, items[i], file, stack);
      ElementSiblings(items, i);
      BreaksInPart(docs, value, items[i], file, chain, stack);
    case _ => assert false;
  }

  lemma {:induction false} FailedObjectChain(docs: Documents, fields: map<string, Json>, file: string,
                                             stack: set<string>)
    returns (chain: seq<string>)
    requires Belongs(docs, Object(fields), file) && Resolve(docs, Object(fields), file, stack).None?
    requires IsReference(fields) && fields["$ref"].s in DocRefs(docs, file)
    ensures Breaks(docs, Object(fields), file, chain, stack)
    decreases |Keys(docs) - stack|, RefDepth(Object(fields)), Object(fields), 0
  {
    var value, reference := Object(fields), fields["$ref"].s;
    assert reference in Refs(value);
    var target := ResolveReference(docs, reference, file, stack);
    if target.None? {
      chain := FailedReferenceChain(docs, value, reference, file, stack);
    } else if !target.value.Object? {
      SolidReference(docs, reference, file, stack);
      chain := [reference];
    } else {
      var base := target.value.fields;
      OverlayShrinks(docs, base, fields, file);
      OverlayRefs(base, fields);
      var copy := Object(Overlay(base, fields));
      chain := FailureHasBrokenChain(docs, copy, file, stack);
      BreaksInPart(docs, value, copy, file, chain, stack);
    }
  }

  lemma {:induction false} OverlayRefs(base: map<string, Json>, fields: map<string, Json>)
    requires RefFree(Object(base)) && IsReference(fields)
    ensures Refs(Object(Overlay(base, fields))) <= Refs(Object(fields))
    ensures SiblingRefs(Object(Overlay(base, fields))) <= SiblingRefs(Object(fields))
  {
    var copy := Overlay(base, fields);
    forall k | k in copy
      ensures Refs(copy[k]) <= Refs(Object(fields)) && SiblingRefs(copy[k]) <= SiblingRefs(Object(fields))
    {
      if k in fields && k != "$ref" {
        MemberSiblings(fields, k);
      } else {
        RefFreeMeansNoRefs(base[k]);
        SiblingRefsAreRefs(base[k]);
      }
    }
    assert "$ref" !in copy;
  }

  lemma {:induction false} FailedReferenceChain(docs: Documents, value: Json, reference: string, file: string,
                                                stack: set<string>) returns (chain: seq<string>)
    requires Belongs(docs, value, file) && reference in DocRefs(docs, file)
    requires reference in Refs(value) && ResolveReference(docs, reference, file, stack).None?
    ensures Breaks(docs, value, file, chain, stack)
    decreases |Keys(docs) - stack|, 0
  {
    chain := [reference];
    var key := KeyOf(docs, reference, file);
    if key !in stack && Target(docs, reference, file).Some? {
      TargetBelongs(docs, reference, file);
      FewerKeysLeft(docs, reference, file, stack);
      var (targetFile, target) := Target(docs, reference, file).value;
      var rest := FailureHasBrokenChain(docs, target, targetFile, stack + {key});
      chain := [reference] + rest;
      assert chain[1..] == rest;
    }
  }

  ghost predicate HasBrokenChain(docs: Documents, value: Json, file: string, stack: set<string>) {
    exists chain :: Breaks(docs, value, file, chain, stack)
  }

  /** Flattening fails exactly when some chain of references breaks. */
  lemma {:induction false} FailsExactlyOnBrokenChains(docs: Documents, value: Json, file: string, stack: set<string>)
    requires Belongs(docs, value, file)
    ensures Resolve(docs, value, file, stack).None? <==> HasBrokenChain(docs, value, file, stack)
  {
    if Resolve(docs, value, file, stack).None? {
      var chain := FailureHasBrokenChain(docs, value, file, stack);
    } else if HasBrokenChain(docs, value, file, stack) {
      var chain :| Breaks(docs, value, file, chain, stack);
      BrokenChainFails(docs, value, file, chain, stack);
    }
  }

  // ---------------------------------------------------------------- cycles

  /** The key of every target a chain goes through, in order. */
  ghost function ChainKeys(docs: Documents, value: Json, file: string, chain: seq<string>): (keys: seq<string>)
    requires End(docs, value, file, chain).Some?
    ensures |keys| == |chain|
    decreases |chain|
  {
    if chain == [] then []
    else
      var (targetFile, target) := Target(docs, chain[0], file).value;
      [KeyOf(docs, chain[0], file)] + ChainKeys(docs, target, targetFile, chain[1..])
  }

  ghost predicate Repeats(keys: seq<string>) {
    exists i, j :: 0 <= i < j < |keys| && keys[i] == keys[j]
  }

  ghost predicate TargetsExist(docs: Documents) {
    forall f, r :: f in docs.files && r in DocRefs(docs, f) ==> Target(docs, r, f).Some?
  }

  /** Every reference with siblings that a chain reaches names an object. */
  ghost predicate SiblingsNameObjects(docs: Documents, value: Json, file: string) {
    forall chain, reference :: NamesObject(docs, End(docs, value, file, chain), reference)
  }

  ghost predicate NamesObject(docs: Documents, end: Option<(string, Json)>, reference: string) {
    end.Some? && reference in SiblingRefs(end.value.1) && Target(docs, reference, end.value.0).Some? ==>
      Solid(docs, Target(docs, reference, end.value.0).value.1, Target(docs, reference, end.value.0).value.0)
  }

  lemma {:induction false} SiblingsOfTarget(docs: Documents, value: Json, file: string, reference: string)
    requires SiblingsNameObjects(docs, value, file)
    requires reference in Refs(value) && Target(docs, reference, file).Some?
    ensures var (targetFile, target) := Target(docs, reference, file).value;
            && SiblingsNameObjects(docs, target, targetFile)
            && (reference in SiblingRefs(value) ==> Solid(docs, target, targetFile))
  {
    var (targetFile, target) := Target(docs, reference, file).value;
    assert NamesObject(docs, End(docs, value, file, []), reference);
    forall chain, r ensures NamesObject(docs, End(docs, target, targetFile, chain), r) {
      assert ([reference] + chain)[1..] == chain;
      assert End(docs, value, file, [reference] + chain) == End(docs, target, targetFile, chain);
      assert NamesObject(docs, End(docs, value, file, [reference] + chain), r);
    }
  }

  lemma {:induction false} BrokenChainRepeats(docs: Documents, value: Json, file: string, chain: seq<string>,
                                              stack: set<string>) returns (cycle: seq<string>)
    requires Belongs(docs, value, file) && TargetsExist(docs) && SiblingsNameObjects(docs, value, file)
    requires Breaks(docs, value, file, chain, stack)
    ensures End(docs, value, file, cycle).Some? && cycle != []
    ensures LastIn(ChainKeys(docs, value, file, cycle), stack)
    decreases |chain|
  {
    var key := KeyOf(docs, chain[0], file);
    var (targetFile, target) := Target(docs, chain[0], file).value;
    if key in stack {
      cycle := [chain[0]];
      assert cycle[1..] == [];
    } else {
      TargetBelongs(docs, chain[0], file);
      SiblingsOfTarget(docs, value, file, chain[0]);
      var rest := BrokenChainRepeats(docs, target, targetFile, chain[1..], stack + {key});
      cycle := [chain[0]] + rest;
      assert cycle[1..] == rest;
      LastInLonger(key, ChainKeys(docs, target, targetFile, rest), stack);
    }
  }

  /** The last key is on the stack, or was met before. */
  ghost predicate LastIn(keys: seq<string>, stack: set<string>) {
    keys != [] && (keys[|keys| - 1] in stack || exists i :: 0 <= i < |keys| - 1 && keys[i] == keys[|keys| - 1])
  }

  lemma {:induction false} LastInLonger(key: string, keys: seq<string>, stack: set<string>)
    requires LastIn(keys, stack + {key})
    ensures LastIn([key] + keys, stack)
  {
    var longer := [key] + keys;
    assert longer[|longer| - 1] == keys[|keys| - 1];
    if keys[|keys| - 1] == key {
      assert longer[0] == longer[|longer| - 1];
    } else if keys[|keys| - 1] !in stack {
      var i :| 0 <= i < |keys| - 1 && keys[i] == keys[|keys| - 1];
      assert longer[i + 1] == longer[|longer| - 1];
    }
  }

  lemma {:induction false} RepeatingChainBreaks(docs: Documents, value: Json, file: string, chain: seq<string>,
                                                stack: set<string>)
    requires End(docs, value, file, chain).Some?
    requires var keys := ChainKeys(docs, value, file, chain);
             Repeats(keys) || exists i :: 0 <= i < |keys| && keys[i] in stack
    ensures Breaks(docs, value, file, chain, stack)
    decreases |chain|
  {
    var keys := ChainKeys(docs, value, file, chain);
    assert chain != [];
    var (targetFile, target) := Target(docs, chain[0], file).value;
    var restKeys := ChainKeys(docs, target, targetFile, chain[1..]);
    assert keys == [keys[0]] + restKeys;
    if keys[0] !in stack {
      if exists i :: 0 <= i < |keys| && keys[i] in stack {
        var i :| 0 <= i < |keys| && keys[i] in stack;
        assert restKeys[i - 1] in stack + {keys[0]};
      } else {
        var i, j :| 0 <= i < j < |keys| && keys[i] == keys[j];
        if i == 0 {
          assert restKeys[j - 1] in stack + {keys[0]};
        } else {
          assert restKeys[i - 1] == restKeys[j - 1];
        }
      }
      RepeatingChainBreaks(docs, target, targetFile, chain[1..], stack + {keys[0]});
    }
  }

  lemma {:induction false} LastKeyRepeats(keys: seq<string>)
    requires LastIn(keys, {})
    ensures Repeats(keys)
  {
    var i :| 0 <= i < |keys| - 1 && keys[i] == keys[|keys| - 1];
  }

  ghost predicate HasCycle(docs: Documents, value: Json, file: string) {
    exists chain :: End(docs, value, file, chain).Some? && Repeats(ChainKeys(docs, value, file, chain))
  }

  lemma {:induction false} BrokenMeansCycle(docs: Documents, value: Json, file: string, chain: seq<string>)
    requires Belongs(docs, value, file) && TargetsExist(docs) && SiblingsNameObjects(docs, value, file)
    requires Breaks(docs, value, file, chain, {})
    ensures HasCycle(docs, value, file)
  {
    var cycle := BrokenChainRepeats(docs, value, file, chain, {});
    LastKeyRepeats(ChainKeys(docs, value, file, cycle));
  }

  lemma {:induction false} CycleMeansBroken(docs: Documents, value: Json, file: string)
    requires HasCycle(docs, value, file)
    ensures HasBrokenChain(docs, value, file, {})
  {
    var chain :| End(docs, value, file, chain).Some? && Repeats(ChainKeys(docs, value, file, chain));
    RepeatingChainBreaks(docs, value, file, chain, {});
  }

  /** When all targets exist and references with siblings name objects, flattening from an empty stack fails
      exactly when some reachable chain of references goes through the same target twice. */
  lemma {:induction false} FailsExactlyOnCycles(docs: Documents, value: Json, file: string)
    requires Belongs(docs, value, file) && TargetsExist(docs) && SiblingsNameObjects(docs, value, file)
    ensures Resolve(docs, value, file, {}).None? <==> HasCycle(docs, value, file)
  {
    FailsExactlyOnBrokenChains(docs, value, file, {});
    if HasBrokenChain(docs, value, file, {}) {
      var chain :| Breaks(docs, value, file, chain, {});
      BrokenMeansCycle(docs, value, file, chain);
    }
    if HasCycle(docs, value, file) {
      CycleMeansBroken(docs, value, file);
    }
  }
}
