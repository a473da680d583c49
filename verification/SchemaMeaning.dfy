/** Flattening preserves meaning: the interpreter gives a schema and its flattened form the same verdict. */
module SchemaMeaning {
  import opened Wrappers
  import opened Json
  import opened SchemaResolver
  import opened SchemaCycles
  import opened SchemaInterpreter

  // ---------------------------------------------------------------- which schemas

  /** References stand alone, at positions where the interpreter expects a schema, and their pointers have no
      empty tokens. */
  ghost predicate Plain(docs: Documents, schema: Json, file: string)
    decreases schema, 0
  {
    schema.Object? ==>
      var fields := schema.fields;
      if IsReference(fields) then |fields| == 1 && FullTokens(fields["$ref"].s)
      else
        && (forall k :: k in LEAF_KEYWORDS && k in fields ==> RefFree(fields[k]))
        && (forall i :: Branch(fields, "oneOf", i) ==> Plain(docs, fields["oneOf"].items[i], file))
        && (forall i :: Branch(fields, "allOf", i) ==> PlainRule(docs, fields["allOf"].items[i], file))
        && (MemberObject(fields, "properties").Some? ==>
              && !IsReference(fields["properties"].fields)
              && forall k :: k in fields["properties"].fields ==> Plain(docs, fields["properties"].fields[k], file))
        && (MemberObject(fields, "items").Some? ==> Plain(docs, fields["items"], file))
  }

  /** A rule is plain as a whole, or, when it has an if, in each of its three parts. A rule that is a reference
      does not lead to an if. */
  ghost predicate PlainRule(docs: Documents, rule: Json, file: string)
    requires rule.Object?
    decreases rule, 1
  {
    if MemberObject(rule.fields, "if").None? then
      Plain(docs, rule, file) && (IsReference(rule.fields) ==> LeadsToNoIf(docs, rule, file))
    else
      && !IsReference(rule.fields)
      && Plain(docs, rule.fields["if"], file)
      && (MemberObject(rule.fields, "then").Some? ==> Plain(docs, rule.fields["then"], file))
      && (MemberObject(rule.fields, "else").Some? ==> Plain(docs, rule.fields["else"], file))
  }

  ghost predicate LeadsToNoIf(docs: Documents, v: Json, file: string) {
    forall n: nat :: Follow(docs, v, file, n).Some? && Follow(docs, v, file, n).value.1.Object? ==>
      MemberObject(Follow(docs, v, file, n).value.1.fields, "if").None?
  }

  /** What every reachable reference names: an object of the same form. */
  ghost predicate GoodTarget(docs: Documents, file: string, v: Json) {
    v.Object? && Plain(docs, v, file)
  }

  ghost predicate Suitable(docs: Documents, v: Json, file: string) {
    Belongs(docs, v, file) && Everywhere(docs, v, file, GoodTarget)
  }

  lemma {:induction false} SuitableIsObjects(docs: Documents, v: Json, file: string)
    requires Suitable(docs, v, file)
    ensures Everywhere(docs, v, file, IsObject)
  {
    forall chain | chain != [] && End(docs, v, file, chain).Some?
      ensures IsObject(docs, End(docs, v, file, chain).value.0, End(docs, v, file, chain).value.1)
    {
      assert GoodTarget(docs, End(docs, v, file, chain).value.0, End(docs, v, file, chain).value.1);
    }
  }

  lemma {:induction false} SuitableMember(docs: Documents, fields: map<string, Json>, file: string, k: string)
    requires Suitable(docs, Object(fields), file) && k in fields
    ensures Suitable(docs, fields[k], file)
  {
    MembersBelong(docs, Object(fields), file);
    assert Refs(fields[k]) <= Refs(Object(fields));
    EverywherePart(docs, Object(fields), fields[k], file, GoodTarget);
  }

  lemma {:induction false} SuitableElement(docs: Documents, items: seq<Json>, file: string, i: nat)
    requires Suitable(docs, Array(items), file) && i < |items|
    ensures Suitable(docs, items[i], file)
  {
    MembersBelong(docs, Array(items), file);
    assert Refs(items[i]) <= Refs(Array(items));
    EverywherePart(docs, Array(items), items[i], file, GoodTarget);
  }

  // ---------------------------------------------------------------- how the parts of a schema are flattened

  /** flat is what v flattens to; both are the same kind of value. */
  ghost predicate Flattens(docs: Documents, v: Json, file: string, stack: set<string>, flat: Json) {
    && Suitable(docs, v, file)
    && Resolve(docs, v, file, stack) == Some(flat)
    && (v.Object? <==> flat.Object?) && (v.Array? <==> flat.Array?)
    && (!v.Object? && !v.Array? ==> flat == v)
  }

  lemma {:induction false} FlattensKind(docs: Documents, v: Json, file: string, stack: set<string>)
    requires Suitable(docs, v, file) && Resolve(docs, v, file, stack).Some?
    ensures Flattens(docs, v, file, stack, Resolve(docs, v, file, stack).value)
  {
    SuitableIsObjects(docs, v, file);
    ResolutionKeepsKind(docs, v, file, stack);
  }

  lemma {:induction false} FlattensMember(docs: Documents, v: Json, file: string, stack: set<string>, flat: Json,
                                          k: string)
    requires Flattens(docs, v, file, stack, flat) && v.Object? && !IsReference(v.fields)
    ensures k in v.fields <==> k in flat.fields
    ensures k in v.fields ==> Flattens(docs, v.fields[k], file, stack, flat.fields[k])
  {
    if k in v.fields {
      SuitableMember(docs, v.fields, file, k);
      FlattensKind(docs, v.fields[k], file, stack);
    }
  }

  lemma {:induction false} FlattensElement(docs: Documents, v: Json, file: string, stack: set<string>, flat: Json,
                                           i: nat)
    requires Flattens(docs, v, file, stack, flat) && v.Array?
    ensures |v.items| == |flat.items|
    ensures i < |v.items| ==> Flattens(docs, v.items[i], file, stack, flat.items[i])
  {
    if i < |v.items| {
      SuitableElement(docs, v.items, file, i);
      FlattensKind(docs, v.items[i], file, stack);
    }
  }

  lemma {:induction false} FlattensRefFree(docs: Documents, v: Json, file: string, stack: set<string>, flat: Json)
    requires Flattens(docs, v, file, stack, flat) && RefFree(v)
    ensures flat == v
  {
    RefFreeResolvesToItself(docs, v, file, stack);
  }

  lemma {:induction false} FlattensMemberObject(docs: Documents, v: Json, file: string, stack: set<string>,
                                                flat: Json, k: string)
    requires Flattens(docs, v, file, stack, flat) && v.Object? && !IsReference(v.fields)
    ensures MemberObject(v.fields, k).Some? <==> MemberObject(flat.fields, k).Some?
    ensures MemberObject(v.fields, k).Some? ==> Flattens(docs, v.fields[k], file, stack, flat.fields[k])
  {
    FlattensMember(docs, v, file, stack, flat, k);
  }

  lemma {:induction false} FlattensBranch(docs: Documents, v: Json, file: string, stack: set<string>, flat: Json,
                                          keyword: string, i: int)
    requires Flattens(docs, v, file, stack, flat) && v.Object? && !IsReference(v.fields)
    ensures Branch(v.fields, keyword, i) <==> Branch(flat.fields, keyword, i)
    ensures Branch(v.fields, keyword, i) ==>
              Flattens(docs, v.fields[keyword].items[i], file, stack, flat.fields[keyword].items[i])
  {
    FlattensMember(docs, v, file, stack, flat, keyword);
    if keyword in v.fields && v.fields[keyword].Array? && i >= 0 {
      FlattensElement(docs, v.fields[keyword], file, stack, flat.fields[keyword], i);
    }
  }

  lemma {:induction false} StandaloneResolves(docs: Documents, v: Json, file: string, stack: set<string>)
    requires Belongs(docs, v, file) && v.Object? && IsReference(v.fields) && |v.fields| == 1
    ensures v.fields["$ref"].s in DocRefs(docs, file) && v.fields["$ref"].s in Refs(v)
    ensures Resolve(docs, v, file, stack) == ResolveReference(docs, v.fields["$ref"].s, file, stack)
  {
    MembersBelong(docs, v, file);
  }

  /** A standalone reference flattens to what its target flattens to, one key deeper. */
  lemma {:induction false} FlattensReference(docs: Documents, v: Json, file: string, stack: set<string>, flat: Json)
    returns (targetFile: string, target: Json, below: set<string>)
    requires Flattens(docs, v, file, stack, flat) && v.Object? && IsReference(v.fields) && |v.fields| == 1
    ensures Target(docs, v.fields["$ref"].s, file) == Some((targetFile, target))
    ensures GoodTarget(docs, targetFile, target) && Flattens(docs, target, targetFile, below, flat)
    ensures |Keys(docs) - below| < |Keys(docs) - stack|
  {
    var reference := v.fields["$ref"].s;
    StandaloneResolves(docs, v, file, stack);
    EverywhereTarget(docs, v, file, GoodTarget, reference);
    TargetBelongs(docs, reference, file);
    FewerKeysLeft(docs, reference, file, stack);
    targetFile, target := Target(docs, reference, file).value.0, Target(docs, reference, file).value.1;
    below := stack + {KeyOf(docs, reference, file)};
    FlattensKind(docs, target, targetFile, below);
  }

  // ---------------------------------------------------------------- leaves

  lemma {:induction false} LeavesAgree(value: Json, left: map<string, Json>, right: map<string, Json>, text: TextRules)
    requires forall k :: k in LEAF_KEYWORDS ==> (k in left <==> k in right) && (k in left ==> left[k] == right[k])
    requires PropertyKeys(left) == PropertyKeys(right)
    ensures ValidLeaf(value, left, text) == ValidLeaf(value, right, text)
  {
    assert value.String? ==> ValidString(value.s, left, text) == ValidString(value.s, right, text);
    assert value.Number? ==> ValidNumber(value.n, left) == ValidNumber(value.n, right);
    assert value.Array? ==> ValidArray(value.items, left) == ValidArray(value.items, right);
  }

  lemma {:induction false} FlatLeavesAgree(docs: Documents, text: TextRules, v: Json, file: string,
                                           stack: set<string>, flat: Json, value: Json)
    requires Flattens(docs, v, file, stack, flat) && v.Object? && !IsReference(v.fields) && Plain(docs, v, file)
    ensures ValidLeaf(value, v.fields, text) == ValidLeaf(value, flat.fields, text)
  {
    forall k | k in LEAF_KEYWORDS
      ensures (k in v.fields <==> k in flat.fields) && (k in v.fields ==> v.fields[k] == flat.fields[k])
    {
      FlattensMember(docs, v, file, stack, flat, k);
      if k in v.fields {
        FlattensRefFree(docs, v.fields[k], file, stack, flat.fields[k]);
      }
    }
    FlattensMemberObject(docs, v, file, stack, flat, "properties");
    if MemberObject(v.fields, "properties").Some? {
      forall k ensures k in v.fields["properties"].fields <==> k in flat.fields["properties"].fields {
        FlattensMember(docs, v.fields["properties"], file, stack, flat.fields["properties"], k);
      }
    }
    LeavesAgree(value, v.fields, flat.fields, text);
  }

  // ---------------------------------------------------------------- the theorem

  /** Enough hops for every reference chain that resolution could still follow. */
  ghost predicate Enough(docs: Documents, stack: set<string>, hops: nat) {
    hops >= |Keys(docs) - stack|
  }

  /** The two sides of a comparison: the schema in its file, its flattened form in any file, and the hops
      each interpretation may take. */
  datatype Sides = Sides(docs: Documents, text: TextRules, file: string, hops: nat, flatFile: string, flatHops: nat)

  predicate Same(c: Sides, v: Json, flat: Json, value: Json)
    requires v.Object? && flat.Object?
  {
    SchemaValid(c.docs, c.text, c.hops, value, v, c.file) ==
    SchemaValid(c.docs, c.text, c.flatHops, value, flat, c.flatFile)
  }

  lemma {:induction false} SameSchema(c: Sides, v: Json, stack: set<string>, flat: Json, value: Json)
    requires Flattens(c.docs, v, c.file, stack, flat) && v.Object? && Plain(c.docs, v, c.file)
    requires Enough(c.docs, stack, c.hops)
    ensures Same(c, v, flat, value)
    decreases |Keys(c.docs) - stack|, v, 1
  {
    if IsReference(v.fields) {
      PlainReference(c.docs, v, c.file);
      SameReference(c, v, stack, flat, value);
    } else {
      assert !IsReference(flat.fields);
      SameOneOf(c, v, stack, flat, value);
      FlatLeavesAgree(c.docs, c.text, v, c.file, stack, flat, value);
      SameAllOf(c, v, stack, flat, value);
      SameProperties(c, v, stack, flat, value);
      SameItems(c, v, stack, flat, value);
    }
  }

  function Below(c: Sides, targetFile: string): Sides
    requires c.hops > 0
  {
    Sides(c.docs, c.text, targetFile, c.hops - 1, c.flatFile, c.flatHops)
  }

  lemma {:induction false} SameThroughReference(c: Sides, v: Json, targetFile: string, target: Json, flat: Json,
                                                value: Json)
    requires v.Object? && IsReference(v.fields) && target.Object? && flat.Object? && c.hops > 0
    requires LooseTarget(c.docs, v.fields["$ref"].s, c.file) == Some((targetFile, target))
    requires Same(Below(c, targetFile), target, flat, value)
    ensures Same(c, v, flat, value)
  {}

  lemma {:induction false} SameReference(c: Sides, v: Json, stack: set<string>, flat: Json, value: Json)
    requires Flattens(c.docs, v, c.file, stack, flat) && v.Object? && Enough(c.docs, stack, c.hops)
    requires IsReference(v.fields) && |v.fields| == 1 && FullTokens(v.fields["$ref"].s)
    ensures Same(c, v, flat, value)
    decreases |Keys(c.docs) - stack|, v, 0
  {
    var targetFile, target, below := FlattensReference(c.docs, v, c.file, stack, flat);
    SameSchema(Below(c, targetFile), target, below, flat, value);
    TargetsAgree(c.docs, v.fields["$ref"].s, c.file);
    SameThroughReference(c, v, targetFile, target, flat, value);
  }

  lemma {:induction false} PlainBranch(docs: Documents, v: Json, file: string, i: int)
    requires v.Object? && Plain(docs, v, file) && !IsReference(v.fields)
    ensures Branch(v.fields, "oneOf", i) ==> Plain(docs, v.fields["oneOf"].items[i], file)
    ensures Branch(v.fields, "allOf", i) ==> PlainRule(docs, v.fields["allOf"].items[i], file)
  {}

  /** Both sides list the same number of branches, or neither lists any. */
  predicate SameList(left: map<string, Json>, right: map<string, Json>, keyword: string) {
    && (keyword in left && left[keyword].Array? <==> keyword in right && right[keyword].Array?)
    && (keyword in left && left[keyword].Array? ==> |left[keyword].items| == |right[keyword].items|)
  }

  lemma {:induction false} FlattensList(docs: Documents, v: Json, file: string, stack: set<string>, flat: Json,
                                        keyword: string)
    requires Flattens(docs, v, file, stack, flat) && v.Object? && !IsReference(v.fields)
    ensures SameList(v.fields, flat.fields, keyword)
  {
    FlattensMember(docs, v, file, stack, flat, keyword);
    if keyword in v.fields && v.fields[keyword].Array? {
      FlattensElement(docs, v.fields[keyword], file, stack, flat.fields[keyword], 0);
    }
  }

  ghost predicate SameAlternative(c: Sides, v: Json, flat: Json, value: Json, i: int)
    requires v.Object? && flat.Object?
  {
    && (Branch(v.fields, "oneOf", i) <==> Branch(flat.fields, "oneOf", i))
    && (Branch(v.fields, "oneOf", i) ==>
          Same(c, v.fields["oneOf"].items[i], flat.fields["oneOf"].items[i], value))
  }

  lemma {:induction false} SameAlternatives(c: Sides, v: Json, flat: Json, value: Json)
    requires v.Object? && flat.Object? && SameList(v.fields, flat.fields, "oneOf")
    requires forall i :: SameAlternative(c, v, flat, value, i)
    ensures ValidOneOf(c.docs, c.text, c.hops, value, v, c.file)
         == ValidOneOf(c.docs, c.text, c.flatHops, value, flat, c.flatFile)
  {
    if "oneOf" in v.fields && v.fields["oneOf"].Array? {
      var items, flatItems := v.fields["oneOf"].items, flat.fields["oneOf"].items;
      forall i
        ensures Branch(v.fields, "oneOf", i) <==> Branch(flat.fields, "oneOf", i)
        ensures Branch(v.fields, "oneOf", i) ==> Same(c, items[i], flatItems[i], value)
      {
        assert SameAlternative(c, v, flat, value, i);
      }
      assert (set i | 0 <= i < |items| && Branch(v.fields, "oneOf", i) &&
                      SchemaValid(c.docs, c.text, c.hops, value, items[i], c.file))
          == (set i | 0 <= i < |flatItems| && Branch(flat.fields, "oneOf", i) &&
                      SchemaValid(c.docs, c.text, c.flatHops, value, flatItems[i], c.flatFile));
    }
  }

  lemma {:induction false} SameOneOf(c: Sides, v: Json, stack: set<string>, flat: Json, value: Json)
    requires Flattens(c.docs, v, c.file, stack, flat) && v.Object? && Plain(c.docs, v, c.file)
    requires Enough(c.docs, stack, c.hops)
    requires !IsReference(v.fields)
    ensures ValidOneOf(c.docs, c.text, c.hops, value, v, c.file)
         == ValidOneOf(c.docs, c.text, c.flatHops, value, flat, c.flatFile)
    decreases |Keys(c.docs) - stack|, v, 0
  {
    FlattensList(c.docs, v, c.file, stack, flat, "oneOf");
    forall i ensures SameAlternative(c, v, flat, value, i) {
      FlattensBranch(c.docs, v, c.file, stack, flat, "oneOf", i);
      if Branch(v.fields, "oneOf", i) {
        PlainBranch(c.docs, v, c.file, i);
        SameSchema(c, v.fields["oneOf"].items[i], stack, flat.fields["oneOf"].items[i], value);
      }
    }
    SameAlternatives(c, v, flat, value);
  }

  ghost predicate SameRuleAt(c: Sides, v: Json, flat: Json, value: Json, i: int)
    requires v.Object? && flat.Object?
  {
    && (Branch(v.fields, "allOf", i) <==> Branch(flat.fields, "allOf", i))
    && (Branch(v.fields, "allOf", i) ==>
          ValidRule(c.docs, c.text, c.hops, value, v.fields["allOf"].items[i], c.file) ==
          ValidRule(c.docs, c.text, c.flatHops, value, flat.fields["allOf"].items[i], c.flatFile))
  }

  lemma {:induction false} SameRules(c: Sides, v: Json, flat: Json, value: Json)
    requires v.Object? && flat.Object? && SameList(v.fields, flat.fields, "allOf")
    requires forall i :: SameRuleAt(c, v, flat, value, i)
    ensures ValidAllOf(c.docs, c.text, c.hops, value, v, c.file)
         == ValidAllOf(c.docs, c.text, c.flatHops, value, flat, c.flatFile)
  {
    forall i
      ensures Branch(v.fields, "allOf", i) <==> Branch(flat.fields, "allOf", i)
      ensures Branch(v.fields, "allOf", i) ==>
                ValidRule(c.docs, c.text, c.hops, value, v.fields["allOf"].items[i], c.file) ==
                ValidRule(c.docs, c.text, c.flatHops, value, flat.fields["allOf"].items[i], c.flatFile)
    {
      assert SameRuleAt(c, v, flat, value, i);
    }
  }

  lemma {:induction false} SameAllOf(c: Sides, v: Json, stack: set<string>, flat: Json, value: Json)
    requires Flattens(c.docs, v, c.file, stack, flat) && v.Object? && Plain(c.docs, v, c.file)
    requires Enough(c.docs, stack, c.hops)
    requires !IsReference(v.fields)
    ensures ValidAllOf(c.docs, c.text, c.hops, value, v, c.file)
         == ValidAllOf(c.docs, c.text, c.flatHops, value, flat, c.flatFile)
    decreases |Keys(c.docs) - stack|, v, 0
  {
    FlattensList(c.docs, v, c.file, stack, flat, "allOf");
    forall i ensures SameRuleAt(c, v, flat, value, i) {
      FlattensBranch(c.docs, v, c.file, stack, flat, "allOf", i);
      if Branch(v.fields, "allOf", i) {
        PlainBranch(c.docs, v, c.file, i);
        SameRule(c, v.fields["allOf"].items[i], stack, flat.fields["allOf"].items[i], value);
      }
    }
    SameRules(c, v, flat, value);
  }

  lemma {:induction false} SameRule(c: Sides, rule: Json, stack: set<string>, flat: Json, value: Json)
    requires Flattens(c.docs, rule, c.file, stack, flat) && rule.Object? && PlainRule(c.docs, rule, c.file)
    requires Enough(c.docs, stack, c.hops)
    ensures ValidRule(c.docs, c.text, c.hops, value, rule, c.file)
         == ValidRule(c.docs, c.text, c.flatHops, value, flat, c.flatFile)
    decreases |Keys(c.docs) - stack|, rule, 2
  {
    if IsReference(rule.fields) {
      PlainReference(c.docs, rule, c.file);
      ReferenceHasNoIf(c.docs, rule, c.file, stack, flat);
      SameSchema(c, rule, stack, flat, value);
    } else {
      FlattensMemberObject(c.docs, rule, c.file, stack, flat, "if");
      FlattensMemberObject(c.docs, rule, c.file, stack, flat, "then");
      FlattensMemberObject(c.docs, rule, c.file, stack, flat, "else");
      if MemberObject(rule.fields, "if").None? {
        SameSchema(c, rule, stack, flat, value);
      } else {
        SameSchema(c, rule.fields["if"], stack, flat.fields["if"], value);
        if MemberObject(rule.fields, "then").Some? {
          SameSchema(c, rule.fields["then"], stack, flat.fields["then"], value);
        }
        if MemberObject(rule.fields, "else").Some? {
          SameSchema(c, rule.fields["else"], stack, flat.fields["else"], value);
        }
      }
    }
  }

  lemma {:induction false} SingleMember(fields: map<string, Json>, key: string, other: string)
    requires |fields| == 1 && key in fields && other != key
    ensures other !in fields
  {
    assert fields.Keys == {key} + (fields.Keys - {key});
  }

  lemma {:induction false} PlainReference(docs: Documents, v: Json, file: string)
    requires v.Object? && IsReference(v.fields) && Plain(docs, v, file)
    ensures |v.fields| == 1 && FullTokens(v.fields["$ref"].s)
  {}

  lemma {:induction false} NoIfBehind(docs: Documents, v: Json, file: string)
    requires Standalone(v) && Target(docs, v.fields["$ref"].s, file).Some? && LeadsToNoIf(docs, v, file)
    ensures var (targetFile, target) := Target(docs, v.fields["$ref"].s, file).value;
            LeadsToNoIf(docs, target, targetFile) && (target.Object? ==> MemberObject(target.fields, "if").None?)
  {
    var (targetFile, target) := Target(docs, v.fields["$ref"].s, file).value;
    forall n: nat ensures Follow(docs, target, targetFile, n) == Follow(docs, v, file, n + 1) {}
    assert Follow(docs, target, targetFile, 0) == Some((targetFile, target));
  }

  lemma {:induction false} ReferenceHasNoIf(docs: Documents, v: Json, file: string, stack: set<string>, flat: Json)
    requires Flattens(docs, v, file, stack, flat) && v.Object? && IsReference(v.fields) && |v.fields| == 1
    requires LeadsToNoIf(docs, v, file)
    ensures MemberObject(v.fields, "if").None? && MemberObject(flat.fields, "if").None?
    decreases |Keys(docs) - stack|
  {
    SingleMember(v.fields, "$ref", "if");
    var targetFile, target, below := FlattensReference(docs, v, file, stack, flat);
    NoIfBehind(docs, v, file);
    if IsReference(target.fields) {
      PlainReference(docs, target, targetFile);
      ReferenceHasNoIf(docs, target, targetFile, below, flat);
    } else {
      FlattensMemberObject(docs, target, targetFile, below, flat, "if");
    }
  }

  lemma {:induction false} SameProperties(c: Sides, v: Json, stack: set<string>, flat: Json, value: Json)
    requires Flattens(c.docs, v, c.file, stack, flat) && v.Object? && Plain(c.docs, v, c.file)
    requires Enough(c.docs, stack, c.hops)
    requires !IsReference(v.fields)
    ensures ValidProperties(c.docs, c.text, c.hops, value, v, c.file)
         == ValidProperties(c.docs, c.text, c.flatHops, value, flat, c.flatFile)
    decreases |Keys(c.docs) - stack|, v, 0
  {
    FlattensMemberObject(c.docs, v, c.file, stack, flat, "properties");
    if value.Object? && MemberObject(v.fields, "properties").Some? {
      var properties, flatProperties := v.fields["properties"], flat.fields["properties"];
      forall k | k in value.fields
        ensures MemberObject(properties.fields, k).Some? <==> MemberObject(flatProperties.fields, k).Some?
        ensures MemberObject(properties.fields, k).Some? ==>
                  Same(c, properties.fields[k], flatProperties.fields[k], value.fields[k])
      {
        FlattensMemberObject(c.docs, properties, c.file, stack, flatProperties, k);
        if MemberObject(properties.fields, k).Some? {
          SameSchema(c, properties.fields[k], stack, flatProperties.fields[k], value.fields[k]);
        }
      }
    }
  }

  lemma {:induction false} SameItems(c: Sides, v: Json, stack: set<string>, flat: Json, value: Json)
    requires Flattens(c.docs, v, c.file, stack, flat) && v.Object? && Plain(c.docs, v, c.file)
    requires Enough(c.docs, stack, c.hops)
    requires !IsReference(v.fields)
    ensures ValidItems(c.docs, c.text, c.hops, value, v, c.file)
         == ValidItems(c.docs, c.text, c.flatHops, value, flat, c.flatFile)
    decreases |Keys(c.docs) - stack|, v, 0
  {
    FlattensMemberObject(c.docs, v, c.file, stack, flat, "items");
    if value.Array? && MemberObject(v.fields, "items").Some? {
      forall i | 0 <= i < |value.items|
        ensures Same(c, v.fields["items"], flat.fields["items"], value.items[i])
      {
        SameSchema(c, v.fields["items"], stack, flat.fields["items"], value.items[i]);
      }
    }
  }

  /** Flattening preserves meaning: a schema whose references stand alone at schema positions, have no empty
      pointer tokens and name objects of that form, once flattened, accepts exactly the values it accepted before,
      as long as no rule is a reference that leads to an if. */
  lemma {:induction false} FlatteningPreservesMeaning(docs: Documents, text: TextRules, schema: Json, file: string,
                                                      hops: nat, flatFile: string, flatHops: nat, value: Json)
    requires schema.Object? && Plain(docs, schema, file) && Suitable(docs, schema, file)
    requires Resolve(docs, schema, file, {}).Some?
    requires hops >= |Keys(docs)|
    ensures var flat := Resolve(docs, schema, file, {}).value;
            && flat.Object?
            && SchemaValid(docs, text, hops, value, schema, file)
               == SchemaValid(docs, text, flatHops, value, flat, flatFile)
  {
    FlattensKind(docs, schema, file, {});
    assert Keys(docs) - {} == Keys(docs);
    SameSchema(Sides(docs, text, file, hops, flatFile, flatHops), schema, {},
               Resolve(docs, schema, file, {}).value, value);
  }

  // ---------------------------------------------------------------- why a top-level if is excluded

  const THEN_NULL := Object(map["type" := String("null")])
  const IF_TARGET := Object(map["if" := Object(map[]), "then" := THEN_NULL])

  function ReferenceTo(reference: string): Json {
    Object(map["$ref" := String(reference)])
  }

  lemma {:induction false} IfTargetAlone(docs: Documents, text: TextRules, file: string, hops: nat)
    ensures SchemaValid(docs, text, hops, Bool(true), IF_TARGET, file)
    ensures SchemaValid(docs, text, hops, Bool(true), Object(map[]), file)
  {}

  lemma {:induction false} NullRefusesTrue(docs: Documents, text: TextRules, file: string, hops: nat)
    ensures !SchemaValid(docs, text, hops, Bool(true), THEN_NULL, file)
  {
    assert StringsOf(String("null")) == ["null"];
    assert !MatchesType(Bool(true), "null");
    assert !ValidLeaf(Bool(true), THEN_NULL.fields, text);
  }

  lemma {:induction false} IfTargetAsRule(docs: Documents, text: TextRules, file: string, hops: nat)
    ensures !ValidRule(docs, text, hops, Bool(true), IF_TARGET, file)
  {
    assert MemberObject(IF_TARGET.fields, "if") == Some(Object(map[]));
    assert MemberObject(IF_TARGET.fields, "then") == Some(THEN_NULL);
    IfTargetAlone(docs, text, file, hops);
    NullRefusesTrue(docs, text, file, hops);
  }

  lemma {:induction false} ReferenceToIfTarget(docs: Documents, text: TextRules, reference: string, file: string,
                                               hops: nat)
    requires FullTokens(reference) && hops > 0
    requires Target(docs, reference, file).Some? && Target(docs, reference, file).value.1 == IF_TARGET
    ensures ValidRule(docs, text, hops, Bool(true), ReferenceTo(reference), file)
  {
    var rule := ReferenceTo(reference);
    TargetsAgree(docs, reference, file);
    IfTargetAlone(docs, text, Target(docs, reference, file).value.0, hops - 1);
    assert MemberObject(rule.fields, "if").None?;
    assert SchemaValid(docs, text, hops, Bool(true), rule, file);
  }

  /** A standalone reference to a value without references flattens to that value. */
  lemma {:induction false} ReferenceToRefFree(docs: Documents, v: Json, file: string)
    requires Belongs(docs, v, file) && v.Object? && IsReference(v.fields) && |v.fields| == 1
    requires Target(docs, v.fields["$ref"].s, file).Some? && RefFree(Target(docs, v.fields["$ref"].s, file).value.1)
    ensures Resolve(docs, v, file, {}) == Some(Target(docs, v.fields["$ref"].s, file).value.1)
  {
    var reference := v.fields["$ref"].s;
    StandaloneResolves(docs, v, file, {});
    TargetBelongs(docs, reference, file);
    var (targetFile, target) := Target(docs, reference, file).value;
    RefFreeResolvesToItself(docs, target, targetFile, {} + {KeyOf(docs, reference, file)});
  }

  lemma {:induction false} NamedFlattens(docs: Documents, reference: string, target: Json, file: string)
    requires Belongs(docs, ReferenceTo(reference), file) && RefFree(target)
    requires Target(docs, reference, file).Some? && Target(docs, reference, file).value.1 == target
    ensures Resolve(docs, ReferenceTo(reference), file, {}) == Some(target)
  {
    var v := ReferenceTo(reference);
    assert v.Object? && IsReference(v.fields) && v.fields["$ref"].s == reference;
    assert v.fields.Keys == {"$ref"};
    ReferenceToRefFree(docs, v, file);
  }

  /** A rule that refers to an object with a top-level if changes its meaning when it is flattened: the
      interpreter ignores the if behind a reference, but obeys it once the object is the rule itself. */
  lemma {:induction false} TopLevelIfChangesMeaning(docs: Documents, text: TextRules, reference: string, file: string,
                                                    hops: nat)
    requires Belongs(docs, ReferenceTo(reference), file) && FullTokens(reference) && hops > 0
    requires Target(docs, reference, file).Some? && Target(docs, reference, file).value.1 == IF_TARGET
    ensures Resolve(docs, ReferenceTo(reference), file, {}) == Some(IF_TARGET)
    ensures ValidRule(docs, text, hops, Bool(true), ReferenceTo(reference), file)
    ensures !ValidRule(docs, text, hops, Bool(true), IF_TARGET, file)
  {
    NamedFlattens(docs, reference, IF_TARGET, file);
    ReferenceToIfTarget(docs, text, reference, file, hops);
    IfTargetAsRule(docs, text, file, hops);
  }

  // ---------------------------------------------------------------- why empty tokens are excluded

  const EMPTY_TOKEN := "#/a/"
  const EMPTY_NAMED := Object(map["" := THEN_NULL])

  lemma {:induction false} EmptyTokenParts()
    ensures CutFragment(EMPTY_TOKEN) == ("", "/a/")
    ensures SplitSlash("a/") == ["a", ""] && Unescape("a") == "a" && Unescape("") == ""
  {
    assert EMPTY_TOKEN[1..] == "/a/";
    var text := "a/";
    var rest := text[1..];
    assert rest == "/" && rest[1..] == "";
    assert SplitSlash(rest[1..]) == [""];
    assert SplitSlash(rest) == ["", ""];
    assert ["", ""][1..] == [""];
    assert [text[0]] + "" == "a";
    assert SplitSlash(text) == [[text[0]] + ""] + [""] == ["a", ""];
  }

  lemma {:induction false} EmptyTokenIsEmpty()
    ensures !FullTokens(EMPTY_TOKEN)
  {
    EmptyTokenParts();
    assert TrimSlash("/a/") == "a/";
    assert SplitSlash(TrimSlash("/a/"))[1] == "";
  }

  /** The pointer #/a/ names the member with the empty name for the resolver, and its parent for the interpreter. */
  lemma {:induction false} EmptyTokensDisagree(docs: Documents, file: string)
    requires file in docs.files && "a" in docs.files[file] && docs.files[file]["a"] == EMPTY_NAMED
    ensures Target(docs, EMPTY_TOKEN, file) == Some((file, THEN_NULL))
    ensures LooseTarget(docs, EMPTY_TOKEN, file) == Some((file, EMPTY_NAMED))
  {
    EmptyTokenParts();
    var document := Object(docs.files[file]);
    assert "/a/"[1..] == "a/";
    assert ["a", ""][1..] == [""] && [""][1..] == [];
    assert Walk(document, ["a", ""]) == Walk(EMPTY_NAMED, [""]) == Walk(THEN_NULL, []) == Some(THEN_NULL);
    assert LooseWalk(document, ["a", ""]) == LooseWalk(EMPTY_NAMED, [""]) == LooseWalk(EMPTY_NAMED, []);
    assert TrimSlash("/a/") == "a/";
  }

  lemma {:induction false} EmptyNamedAccepts(docs: Documents, text: TextRules, file: string, hops: nat, value: Json)
    ensures SchemaValid(docs, text, hops, value, EMPTY_NAMED, file)
  {}

  lemma {:induction false} ReferenceToEmptyToken(docs: Documents, text: TextRules, file: string, hops: nat)
    requires file in docs.files && hops > 0
    requires "a" in docs.files[file] && docs.files[file]["a"] == EMPTY_NAMED
    ensures SchemaValid(docs, text, hops, Bool(true), ReferenceTo(EMPTY_TOKEN), file)
  {
    EmptyTokensDisagree(docs, file);
    EmptyNamedAccepts(docs, text, file, hops - 1, Bool(true));
  }

  /** So a schema that refers to it accepts a value before it is flattened, and refuses it afterwards. */
  lemma {:induction false} EmptyTokenChangesMeaning(docs: Documents, text: TextRules, file: string, hops: nat)
    requires Belongs(docs, ReferenceTo(EMPTY_TOKEN), file) && hops > 0
    requires "a" in docs.files[file] && docs.files[file]["a"] == EMPTY_NAMED
    ensures !FullTokens(EMPTY_TOKEN)
    ensures Resolve(docs, ReferenceTo(EMPTY_TOKEN), file, {}) == Some(THEN_NULL)
    ensures SchemaValid(docs, text, hops, Bool(true), ReferenceTo(EMPTY_TOKEN), file)
    ensures !SchemaValid(docs, text, hops, Bool(true), THEN_NULL, file)
  {
    EmptyTokenIsEmpty();
    EmptyTokensDisagree(docs, file);
    NamedFlattens(docs, EMPTY_TOKEN, THEN_NULL, file);
    ReferenceToEmptyToken(docs, text, file, hops);
    NullRefusesTrue(docs, text, file, hops);
  }

  // ---------------------------------------------------------------- why references must stand alone

  /** The interpreter never looks at what stands beside a reference. */
  lemma {:induction false} SiblingsAreIgnored(docs: Documents, text: TextRules, fields: map<string, Json>,
                                              file: string, hops: nat, value: Json)
    requires IsReference(fields)
    ensures SchemaValid(docs, text, hops, value, Object(fields), file)
         == SchemaValid(docs, text, hops, value, ReferenceTo(fields["$ref"].s), file)
  {
    var alone := ReferenceTo(fields["$ref"].s);
    assert IsReference(alone.fields) && alone.fields["$ref"].s == fields["$ref"].s;
  }

  /** The resolver lays it over the referenced object. */
  lemma {:induction false} SiblingsAreMerged(docs: Documents, fields: map<string, Json>, file: string)
    requires IsReference(fields) && |fields| != 1 && Belongs(docs, Object(fields), file)
    requires Target(docs, fields["$ref"].s, file).Some?
    requires var target := Target(docs, fields["$ref"].s, file).value.1; target.Object? && RefFree(target)
    requires forall k :: k in fields && k != "$ref" ==> RefFree(fields[k])
    ensures var target := Target(docs, fields["$ref"].s, file).value.1;
            Resolve(docs, Object(fields), file, {}) == Some(Object(Overlay(target.fields, fields)))
  {
    var reference := fields["$ref"].s;
    ReferenceBelongs(docs, fields, file);
    TargetBelongs(docs, reference, file);
    var (targetFile, target) := Target(docs, reference, file).value;
    RefFreeResolvesToItself(docs, target, targetFile, {} + {KeyOf(docs, reference, file)});
    var merged := Object(Overlay(target.fields, fields));
    OverlayShrinks(docs, target.fields, fields, file);
    assert RefFree(merged);
    RefFreeResolvesToItself(docs, merged, file, {});
  }

  /** An object that is no reference resolves member by member. */
  lemma {:induction false} MembersResolve(docs: Documents, fields: map<string, Json>, file: string, stack: set<string>)
    requires Belongs(docs, Object(fields), file) && !IsReference(fields)
    requires Resolve(docs, Object(fields), file, stack).Some?
    ensures var resolved := Resolve(docs, Object(fields), file, stack).value;
            && resolved.Object? && resolved.fields.Keys == fields.Keys
            && forall k :: k in fields ==>
                 Belongs(docs, fields[k], file) && Resolve(docs, fields[k], file, stack) == Some(resolved.fields[k])
  {
    FieldsBelong(docs, fields, file);
  }

  lemma {:induction false} OverlayIsResolved(docs: Documents, fields: map<string, Json>, file: string,
                                             stack: set<string>)
    requires IsReference(fields) && |fields| != 1 && Belongs(docs, Object(fields), file)
    requires Resolve(docs, Object(fields), file, stack).Some?
    ensures fields["$ref"].s in DocRefs(docs, file)
    ensures var base := ResolveReference(docs, fields["$ref"].s, file, stack);
            && base.Some? && base.value.Object? && RefFree(base.value)
            && var copy := Overlay(base.value.fields, fields);
               && Belongs(docs, Object(copy), file) && "$ref" !in copy
               && Resolve(docs, Object(copy), file, stack) == Resolve(docs, Object(fields), file, stack)
  {
    ReferenceBelongs(docs, fields, file);
    OverlayShrinks(docs, ResolveReference(docs, fields["$ref"].s, file, stack).value.fields, fields, file);
  }

  lemma {:induction false} OverlaidMember(base: map<string, Json>, fields: map<string, Json>, k: string)
    ensures k in Overlay(base, fields) <==> k in base || (k in fields && k != "$ref")
    ensures k in fields && k != "$ref" ==> Overlay(base, fields)[k] == fields[k]
    ensures k in base && !(k in fields && k != "$ref") ==> Overlay(base, fields)[k] == base[k]
  {}

  /** Whatever a reference with siblings resolves to has the members of the referenced object, except that each
      sibling, resolved, takes the place of a member of its name. */
  lemma {:induction false} SiblingsWin(docs: Documents, fields: map<string, Json>, file: string, stack: set<string>,
                                       k: string)
    requires IsReference(fields) && |fields| != 1 && Belongs(docs, Object(fields), file)
    requires Resolve(docs, Object(fields), file, stack).Some?
    ensures fields["$ref"].s in DocRefs(docs, file)
    ensures var base := ResolveReference(docs, fields["$ref"].s, file, stack);
            var merged := Resolve(docs, Object(fields), file, stack).value;
            && base.Some? && base.value.Object? && merged.Object?
            && (k in merged.fields <==> k in base.value.fields || (k in fields && k != "$ref"))
            && (k in fields && k != "$ref" ==>
                  Belongs(docs, fields[k], file) && Resolve(docs, fields[k], file, stack) == Some(merged.fields[k]))
            && (k in base.value.fields && k !in fields ==> merged.fields[k] == base.value.fields[k])
  {
    OverlayIsResolved(docs, fields, file, stack);
    var base := ResolveReference(docs, fields["$ref"].s, file, stack).value.fields;
    var copy := Overlay(base, fields);
    MembersResolve(docs, copy, file, stack);
    OverlaidMember(base, fields, k);
    if k in base && k !in fields {
      RefFreeResolvesToItself(docs, copy[k], file, stack);
    }
  }

  function ReferenceWithType(reference: string): Json {
    Object(map["$ref" := String(reference), "type" := String("null")])
  }

  lemma {:induction false} TypeBesideReference(reference: string)
    ensures var fields := ReferenceWithType(reference).fields;
            && IsReference(fields) && fields["$ref"].s == reference && |fields| != 1
            && (forall k :: k in fields && k != "$ref" ==> RefFree(fields[k]))
            && Overlay(map[], fields) == THEN_NULL.fields
  {
    var fields := ReferenceWithType(reference).fields;
    assert fields.Keys == {"$ref", "type"};
    assert |fields.Keys| == 2;
  }

  lemma {:induction false} EmptySchemaAccepts(docs: Documents, text: TextRules, file: string, hops: nat, value: Json)
    ensures SchemaValid(docs, text, hops, value, Object(map[]), file)
  {}

  lemma {:induction false} TypeBesideReferenceAccepts(docs: Documents, text: TextRules, reference: string,
                                                      file: string, hops: nat, value: Json)
    requires FullTokens(reference) && hops > 0
    requires Target(docs, reference, file).Some? && Target(docs, reference, file).value.1 == Object(map[])
    ensures SchemaValid(docs, text, hops, value, ReferenceWithType(reference), file)
  {
    TypeBesideReference(reference);
    TargetsAgree(docs, reference, file);
    EmptySchemaAccepts(docs, text, Target(docs, reference, file).value.0, hops - 1, value);
  }

  /** So a reference to the empty schema with a type beside it accepts every value before it is flattened, and
      refuses one afterwards. */
  lemma {:induction false} SiblingChangesMeaning(docs: Documents, text: TextRules, reference: string, file: string,
                                                 hops: nat, value: Json)
    requires Belongs(docs, ReferenceWithType(reference), file) && FullTokens(reference) && hops > 0
    requires Target(docs, reference, file).Some? && Target(docs, reference, file).value.1 == Object(map[])
    ensures Resolve(docs, ReferenceWithType(reference), file, {}) == Some(THEN_NULL)
    ensures SchemaValid(docs, text, hops, value, ReferenceWithType(reference), file)
    ensures !SchemaValid(docs, text, hops, Bool(true), THEN_NULL, file)
  {
    TypeBesideReference(reference);
    SiblingsAreMerged(docs, ReferenceWithType(reference).fields, file);
    TypeBesideReferenceAccepts(docs, text, reference, file, hops, value);
    NullRefusesTrue(docs, text, file, hops);
  }
}
