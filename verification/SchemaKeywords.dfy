/** What the interpreter makes of each keyword of a schema, and that keywords do not influence one another. */
module SchemaKeywords {
  import opened Json
  import opened SchemaResolver
  import opened SchemaInterpreter

  /** Everything that a verdict depends on besides the value and the schema. */
  datatype Setting = Setting(docs: Documents, text: TextRules, hops: nat, file: string)

  predicate Accepts(c: Setting, value: Json, fields: map<string, Json>) {
    SchemaValid(c.docs, c.text, c.hops, value, Object(fields), c.file)
  }

  // ---------------------------------------------------------------- one keyword alone

  predicate NoSubschemas(fields: map<string, Json>) {
    && "$ref" !in fields && "oneOf" !in fields && "allOf" !in fields && "properties" !in fields
    && "items" !in fields
  }

  lemma {:induction false} OnlyLeaves(c: Setting, value: Json, fields: map<string, Json>)
    requires NoSubschemas(fields)
    ensures Accepts(c, value, fields) <==> ValidLeaf(value, fields, c.text)
  {
    var schema := Object(fields);
    assert ValidOneOf(c.docs, c.text, c.hops, value, schema, c.file);
    assert ValidAllOf(c.docs, c.text, c.hops, value, schema, c.file);
    assert ValidProperties(c.docs, c.text, c.hops, value, schema, c.file);
    assert ValidItems(c.docs, c.text, c.hops, value, schema, c.file);
  }

  lemma {:induction false} NumberAlone(c: Setting, value: Json, bound: real)
    ensures Accepts(c, value, map["minimum" := Number(bound)]) <==> (value.Number? ==> value.n >= bound)
    ensures Accepts(c, value, map["exclusiveMinimum" := Number(bound)]) <==> (value.Number? ==> value.n > bound)
  {
    OnlyLeaves(c, value, map["minimum" := Number(bound)]);
    OnlyLeaves(c, value, map["exclusiveMinimum" := Number(bound)]);
  }

  lemma {:induction false} UpperAlone(c: Setting, value: Json, bound: real)
    ensures Accepts(c, value, map["maximum" := Number(bound)]) <==> (value.Number? ==> value.n <= bound)
    ensures Accepts(c, value, map["exclusiveMaximum" := Number(bound)]) <==> (value.Number? ==> value.n < bound)
  {
    OnlyLeaves(c, value, map["maximum" := Number(bound)]);
    OnlyLeaves(c, value, map["exclusiveMaximum" := Number(bound)]);
  }

  lemma {:induction false} LengthAlone(c: Setting, value: Json, bound: int)
    ensures Accepts(c, value, map["minLength" := Number(bound as real)]) <==>
              (value.String? ==> c.text.length(value.s) >= bound)
    ensures Accepts(c, value, map["maxLength" := Number(bound as real)]) <==>
              (value.String? ==> c.text.length(value.s) <= bound)
  {
    OnlyLeaves(c, value, map["minLength" := Number(bound as real)]);
    OnlyLeaves(c, value, map["maxLength" := Number(bound as real)]);
  }

  lemma {:induction false} PatternAlone(c: Setting, value: Json, pattern: string)
    ensures Accepts(c, value, map["pattern" := String(pattern)]) <==>
              (value.String? ==> c.text.matches(pattern, value.s))
    ensures Accepts(c, value, map["format" := String(pattern)]) <==>
              (value.String? ==> c.text.formatted(pattern, value.s))
  {
    OnlyLeaves(c, value, map["pattern" := String(pattern)]);
    OnlyLeaves(c, value, map["format" := String(pattern)]);
  }

  lemma {:induction false} ItemCountAlone(c: Setting, value: Json, bound: int)
    ensures Accepts(c, value, map["minItems" := Number(bound as real)]) <==> (value.Array? ==> |value.items| >= bound)
    ensures Accepts(c, value, map["maxItems" := Number(bound as real)]) <==> (value.Array? ==> |value.items| <= bound)
  {
    OnlyLeaves(c, value, map["minItems" := Number(bound as real)]);
    OnlyLeaves(c, value, map["maxItems" := Number(bound as real)]);
  }

  lemma {:induction false} UniqueItemsAlone(c: Setting, value: Json)
    ensures Accepts(c, value, map["uniqueItems" := Bool(true)]) <==>
              (value.Array? ==> forall i, j :: 0 <= i < j < |value.items| ==> value.items[i] != value.items[j])
  {
    OnlyLeaves(c, value, map["uniqueItems" := Bool(true)]);
  }

  lemma {:induction false} ValueAlone(c: Setting, value: Json, constant: Json, choices: seq<Json>)
    ensures Accepts(c, value, map["const" := constant]) <==> value == constant
    ensures Accepts(c, value, map["enum" := Array(choices)]) <==> value in choices
  {
    OnlyLeaves(c, value, map["const" := constant]);
    OnlyLeaves(c, value, map["enum" := Array(choices)]);
  }

  function Strings(names: seq<string>): (strings: seq<Json>)
    ensures |strings| == |names|
  {
    if names == [] then [] else [String(names[0])] + Strings(names[1..])
  }

  lemma {:induction false} StringsRead(names: seq<string>)
    ensures StringItems(Strings(names)) == names
    decreases |names|
  {
    if names != [] {
      StringsRead(names[1..]);
      assert Strings(names)[1..] == Strings(names[1..]);
    }
  }

  lemma {:induction false} RequiredAlone(c: Setting, value: Json, names: seq<string>)
    ensures Accepts(c, value, map["required" := Array(Strings(names))]) <==>
              (value.Object? ==> forall name :: name in names ==> name in value.fields)
  {
    StringsRead(names);
    OnlyLeaves(c, value, map["required" := Array(Strings(names))]);
  }

  /** A value of a kind; a number counts as an integer if it is whole. */
  predicate OfKind(value: Json, kind: string) {
    match value
    case Object(_) => kind == "object"
    case Array(_) => kind == "array"
    case String(_) => kind == "string"
    case Bool(_) => kind == "boolean"
    case Null => kind == "null"
    case Number(n) => kind == "number" || (kind == "integer" && n == n.Floor as real)
  }

  lemma {:induction false} FloorOf(m: int, n: real)
    requires n == m as real
    ensures n.Floor == m
  {}

  lemma {:induction false} WholeNumbers(n: real)
    ensures Trunc(n) as real == n <==> n == n.Floor as real
  {
    if Trunc(n) as real == n {
      FloorOf(Trunc(n), n);
    }
    if n == n.Floor as real {
      FloorOf(-n.Floor, -n);
    }
  }

  lemma {:induction false} KindMatches(value: Json, kind: string)
    ensures MatchesType(value, kind) <==> OfKind(value, kind)
  {
    if value.Number? {
      WholeNumbers(value.n);
    }
  }

  lemma {:induction false} TypeAlone(c: Setting, value: Json, kinds: seq<string>)
    requires kinds != []
    ensures Accepts(c, value, map["type" := Array(Strings(kinds))]) <==>
              exists kind :: kind in kinds && OfKind(value, kind)
  {
    StringsRead(kinds);
    OnlyLeaves(c, value, map["type" := Array(Strings(kinds))]);
    forall kind ensures MatchesType(value, kind) <==> OfKind(value, kind) {
      KindMatches(value, kind);
    }
  }

  // ---------------------------------------------------------------- keywords with subschemas

  lemma {:induction false} PropertiesAlone(c: Setting, value: Json, properties: map<string, Json>)
    ensures Accepts(c, value, map["properties" := Object(properties)]) <==>
              (value.Object? ==> forall k :: k in value.fields && k in properties && properties[k].Object? ==>
                                   Accepts(c, value.fields[k], properties[k].fields))
  {
    var fields := map["properties" := Object(properties)];
    var schema := Object(fields);
    assert ValidOneOf(c.docs, c.text, c.hops, value, schema, c.file);
    assert ValidAllOf(c.docs, c.text, c.hops, value, schema, c.file);
    assert ValidItems(c.docs, c.text, c.hops, value, schema, c.file);
    assert ValidLeaf(value, fields, c.text);
    assert ValidProperties(c.docs, c.text, c.hops, value, schema, c.file) <==>
             (value.Object? ==> forall k :: k in value.fields && MemberObject(properties, k).Some? ==>
                                  SchemaValid(c.docs, c.text, c.hops, value.fields[k], properties[k], c.file));
  }

  /** Forbidding other members adds one condition to what the listed ones demand. */
  lemma {:induction false} NothingElse(c: Setting, value: Json, properties: map<string, Json>)
    ensures Accepts(c, value, map["properties" := Object(properties), "additionalProperties" := Bool(false)]) <==>
              && Accepts(c, value, map["properties" := Object(properties)])
              && (value.Object? ==> value.fields.Keys <= properties.Keys)
  {
    var fields := map["properties" := Object(properties), "additionalProperties" := Bool(false)];
    var schema, open := Object(fields), Object(map["properties" := Object(properties)]);
    PropertiesAlone(c, value, properties);
    assert ValidOneOf(c.docs, c.text, c.hops, value, schema, c.file);
    assert ValidAllOf(c.docs, c.text, c.hops, value, schema, c.file);
    assert ValidItems(c.docs, c.text, c.hops, value, schema, c.file);
    assert PropertyKeys(fields) == properties.Keys;
    assert ValidLeaf(value, fields, c.text) <==> (value.Object? ==> value.fields.Keys <= properties.Keys);
    assert ValidProperties(c.docs, c.text, c.hops, value, schema, c.file) <==>
             (value.Object? ==> forall k :: k in value.fields && MemberObject(properties, k).Some? ==>
                                  SchemaValid(c.docs, c.text, c.hops, value.fields[k], properties[k], c.file));
  }

  lemma {:induction false} ItemsAlone(c: Setting, value: Json, items: map<string, Json>)
    ensures Accepts(c, value, map["items" := Object(items)]) <==>
              (value.Array? ==> forall i :: 0 <= i < |value.items| ==> Accepts(c, value.items[i], items))
  {
    var fields := map["items" := Object(items)];
    var schema := Object(fields);
    assert ValidOneOf(c.docs, c.text, c.hops, value, schema, c.file);
    assert ValidAllOf(c.docs, c.text, c.hops, value, schema, c.file);
    assert ValidProperties(c.docs, c.text, c.hops, value, schema, c.file);
    assert ValidLeaf(value, fields, c.text);
    assert ValidItems(c.docs, c.text, c.hops, value, schema, c.file) <==>
             (value.Array? ==> forall i :: 0 <= i < |value.items| ==>
                SchemaValid(c.docs, c.text, c.hops, value.items[i], Object(items), c.file));
  }

  /** Which of the branches accept. */
  function Accepting(c: Setting, value: Json, branches: seq<Json>): set<int> {
    set i | 0 <= i < |branches| && branches[i].Object? && Accepts(c, value, branches[i].fields)
  }

  lemma {:induction false} OneOfAlone(c: Setting, value: Json, branches: seq<Json>)
    ensures Accepts(c, value, map["oneOf" := Array(branches)]) <==> |Accepting(c, value, branches)| == 1
  {
    var fields := map["oneOf" := Array(branches)];
    var schema := Object(fields);
    assert ValidAllOf(c.docs, c.text, c.hops, value, schema, c.file);
    assert ValidProperties(c.docs, c.text, c.hops, value, schema, c.file);
    assert ValidItems(c.docs, c.text, c.hops, value, schema, c.file);
    assert ValidLeaf(value, fields, c.text);
    assert Accepting(c, value, branches) ==
             set i | 0 <= i < |branches| && Branch(fields, "oneOf", i) &&
               SchemaValid(c.docs, c.text, c.hops, value, branches[i], c.file);
    assert ValidOneOf(c.docs, c.text, c.hops, value, schema, c.file) <==> |Accepting(c, value, branches)| == 1;
  }

  /** A rule holds if its condition accepts and its consequence, if it has one, does, or if its condition refuses and
      its alternative, if it has one, accepts; a rule without a condition is a schema. */
  predicate RuleHolds(c: Setting, value: Json, rule: map<string, Json>) {
    if !IsObject(rule, "if") then Accepts(c, value, rule)
    else if Accepts(c, value, rule["if"].fields) then
      IsObject(rule, "then") ==> Accepts(c, value, rule["then"].fields)
    else
      IsObject(rule, "else") ==> Accepts(c, value, rule["else"].fields)
  }

  predicate IsObject(fields: map<string, Json>, k: string) {
    k in fields && fields[k].Object?
  }

  lemma {:induction false} RuleRead(c: Setting, value: Json, rule: map<string, Json>)
    ensures ValidRule(c.docs, c.text, c.hops, value, Object(rule), c.file) <==> RuleHolds(c, value, rule)
  {}

  lemma {:induction false} AllOfAlone(c: Setting, value: Json, rules: seq<Json>)
    ensures Accepts(c, value, map["allOf" := Array(rules)]) <==>
              forall i :: 0 <= i < |rules| && rules[i].Object? ==> RuleHolds(c, value, rules[i].fields)
  {
    var fields := map["allOf" := Array(rules)];
    var schema := Object(fields);
    forall i | 0 <= i < |rules| && rules[i].Object?
      ensures ValidRule(c.docs, c.text, c.hops, value, rules[i], c.file) <==> RuleHolds(c, value, rules[i].fields)
    {
      RuleRead(c, value, rules[i].fields);
    }
    assert ValidOneOf(c.docs, c.text, c.hops, value, schema, c.file);
    assert ValidProperties(c.docs, c.text, c.hops, value, schema, c.file);
    assert ValidItems(c.docs, c.text, c.hops, value, schema, c.file);
    assert ValidLeaf(value, fields, c.text);
    assert ValidAllOf(c.docs, c.text, c.hops, value, schema, c.file) <==>
             forall i :: 0 <= i < |rules| && rules[i].Object? ==>
               ValidRule(c.docs, c.text, c.hops, value, rules[i], c.file);
  }

  // ---------------------------------------------------------------- keywords together

  /** No keyword of one part looks at one of the other: only additionalProperties looks at another, at properties. */
  predicate Apart(a: map<string, Json>, b: map<string, Json>) {
    && a.Keys !! b.Keys && "$ref" !in a && "$ref" !in b
    && ("additionalProperties" in a ==> "properties" !in b)
    && ("additionalProperties" in b ==> "properties" !in a)
  }

  lemma {:induction false} StringTogether(value: string, a: map<string, Json>, b: map<string, Json>, text: TextRules)
    requires Apart(a, b)
    ensures ValidString(value, a + b, text) <==> ValidString(value, a, text) && ValidString(value, b, text)
  {}

  lemma {:induction false} NumberTogether(value: real, a: map<string, Json>, b: map<string, Json>)
    requires Apart(a, b)
    ensures ValidNumber(value, a + b) <==> ValidNumber(value, a) && ValidNumber(value, b)
  {}

  lemma {:induction false} ArrayTogether(items: seq<Json>, a: map<string, Json>, b: map<string, Json>)
    requires Apart(a, b)
    ensures ValidArray(items, a + b) <==> ValidArray(items, a) && ValidArray(items, b)
  {}

  lemma {:induction false} KeysTogether(keys: set<string>, a: map<string, Json>, b: map<string, Json>)
    requires Apart(a, b)
    ensures ValidObjectKeys(keys, a + b, PropertyKeys(a + b)) <==>
              ValidObjectKeys(keys, a, PropertyKeys(a)) && ValidObjectKeys(keys, b, PropertyKeys(b))
  {}

  lemma {:induction false} LeavesTogether(value: Json, a: map<string, Json>, b: map<string, Json>, text: TextRules)
    requires Apart(a, b)
    ensures ValidLeaf(value, a + b, text) <==> ValidLeaf(value, a, text) && ValidLeaf(value, b, text)
  {
    match value
    case Object(fields) => KeysTogether(fields.Keys, a, b);
    case Array(items) => ArrayTogether(items, a, b);
    case String(s) => StringTogether(s, a, b, text);
    case Number(n) => NumberTogether(n, a, b);
    case _ =>
  }

  lemma {:induction false} OneOfTogether(c: Setting, value: Json, a: map<string, Json>, b: map<string, Json>)
    requires Apart(a, b)
    ensures ValidOneOf(c.docs, c.text, c.hops, value, Object(a + b), c.file) <==>
              && ValidOneOf(c.docs, c.text, c.hops, value, Object(a), c.file)
              && ValidOneOf(c.docs, c.text, c.hops, value, Object(b), c.file)
  {
    var all, one := a + b, if "oneOf" in b then b else a;
    if "oneOf" in all && all["oneOf"].Array? {
      assert (set i | 0 <= i < |all["oneOf"].items| && Branch(all, "oneOf", i) &&
                SchemaValid(c.docs, c.text, c.hops, value, all["oneOf"].items[i], c.file))
          == (set i | 0 <= i < |one["oneOf"].items| && Branch(one, "oneOf", i) &&
                SchemaValid(c.docs, c.text, c.hops, value, one["oneOf"].items[i], c.file));
    }
  }

  lemma {:induction false} AllOfTogether(c: Setting, value: Json, a: map<string, Json>, b: map<string, Json>)
    requires Apart(a, b)
    ensures ValidAllOf(c.docs, c.text, c.hops, value, Object(a + b), c.file) <==>
              && ValidAllOf(c.docs, c.text, c.hops, value, Object(a), c.file)
              && ValidAllOf(c.docs, c.text, c.hops, value, Object(b), c.file)
  {
    var all := a + b;
    assert forall i :: Branch(all, "allOf", i) <==> Branch(a, "allOf", i) || Branch(b, "allOf", i);
  }

  lemma {:induction false} PropertiesTogether(c: Setting, value: Json, a: map<string, Json>, b: map<string, Json>)
    requires Apart(a, b)
    ensures ValidProperties(c.docs, c.text, c.hops, value, Object(a + b), c.file) <==>
              && ValidProperties(c.docs, c.text, c.hops, value, Object(a), c.file)
              && ValidProperties(c.docs, c.text, c.hops, value, Object(b), c.file)
  {}

  lemma {:induction false} ItemsTogether(c: Setting, value: Json, a: map<string, Json>, b: map<string, Json>)
    requires Apart(a, b)
    ensures ValidItems(c.docs, c.text, c.hops, value, Object(a + b), c.file) <==>
              && ValidItems(c.docs, c.text, c.hops, value, Object(a), c.file)
              && ValidItems(c.docs, c.text, c.hops, value, Object(b), c.file)
  {
    assert MemberObject(a + b, "items") == if "items" in b then MemberObject(b, "items") else MemberObject(a, "items");
  }

  /** A schema accepts exactly what both of its parts accept. */
  lemma {:induction false} KeywordsConjoin(c: Setting, value: Json, a: map<string, Json>, b: map<string, Json>)
    requires Apart(a, b)
    ensures Accepts(c, value, a + b) <==> Accepts(c, value, a) && Accepts(c, value, b)
  {
    OneOfTogether(c, value, a, b);
    LeavesTogether(value, a, b, c.text);
    AllOfTogether(c, value, a, b);
    PropertiesTogether(c, value, a, b);
    ItemsTogether(c, value, a, b);
  }
}
