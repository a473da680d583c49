/** The contract checker's interpreter, which follows references while it validates, and its agreement
    with the flattened schemas. */
module SchemaInterpreter {
  import opened Wrappers
  import opened Json
  import opened SchemaResolver

  /** Byte length, regular expressions and date formats are the host library's. */
  datatype TextRules = TextRules(
    length: string -> nat, matches: (string, string) -> bool, formatted: (string, string) -> bool)

  // ---------------------------------------------------------------- keywords that hold no schemas

  /** Truncation of a real toward zero. */
  function Trunc(x: real): int {
    if x >= 0.0 then x.Floor else -((-x).Floor)
  }

  /** A string, or the strings of an array. */
  function StringsOf(v: Json): seq<string> {
    match v
    case String(s) => [s]
    case Array(items) => StringItems(items)
    case _ => []
  }

  function StringItems(items: seq<Json>): seq<string> {
    if items == [] then [] else (if items[0].String? then [items[0].s] else []) + StringItems(items[1..])
  }

  predicate MatchesType(value: Json, kind: string) {
    match kind
    case "object" => value.Object?
    case "array" => value.Array?
    case "string" => value.String?
    case "integer" => value.Number? && Trunc(value.n) as real == value.n
    case "number" => value.Number?
    case "boolean" => value.Bool?
    case "null" => value.Null?
    case _ => false
  }

  predicate HasNumber(schema: map<string, Json>, keyword: string) {
    keyword in schema && schema[keyword].Number?
  }

  predicate ValidString(value: string, schema: map<string, Json>, text: TextRules) {
    && (HasNumber(schema, "minLength") ==> text.length(value) >= Trunc(schema["minLength"].n))
    && (HasNumber(schema, "maxLength") ==> text.length(value) <= Trunc(schema["maxLength"].n))
    && ("pattern" in schema && schema["pattern"].String? ==> text.matches(schema["pattern"].s, value))
    && ("format" in schema && schema["format"].String? ==> text.formatted(schema["format"].s, value))
  }

  predicate ValidNumber(value: real, schema: map<string, Json>) {
    && (HasNumber(schema, "minimum") ==> value >= schema["minimum"].n)
    && (HasNumber(schema, "exclusiveMinimum") ==> value > schema["exclusiveMinimum"].n)
    && (HasNumber(schema, "maximum") ==> value <= schema["maximum"].n)
    && (HasNumber(schema, "exclusiveMaximum") ==> value < schema["exclusiveMaximum"].n)
  }

  predicate ValidArray(items: seq<Json>, schema: map<string, Json>) {
    && (HasNumber(schema, "minItems") ==> |items| >= Trunc(schema["minItems"].n))
    && (HasNumber(schema, "maxItems") ==> |items| <= Trunc(schema["maxItems"].n))
    && ("uniqueItems" in schema && schema["uniqueItems"] == Bool(true) ==>
          forall i, j :: 0 <= i < j < |items| ==> items[i] != items[j])
  }

  function PropertyKeys(schema: map<string, Json>): set<string> {
    if "properties" in schema && schema["properties"].Object? then schema["properties"].fields.Keys else {}
  }

  predicate ValidObjectKeys(keys: set<string>, schema: map<string, Json>, properties: set<string>) {
    && ("required" in schema ==> forall r :: r in StringsOf(schema["required"]) ==> r in keys)
    && ("additionalProperties" in schema && schema["additionalProperties"] == Bool(false) ==> keys <= properties)
  }

  /** The checks that look only at keywords without subschemas. */
  predicate ValidLeaf(value: Json, schema: map<string, Json>, text: TextRules) {
    && ("type" in schema ==>
          var types := StringsOf(schema["type"]);
          types == [] || exists kind :: kind in types && MatchesType(value, kind))
    && ("const" in schema ==> value == schema["const"])
    && ("enum" in schema && schema["enum"].Array? ==> value in schema["enum"].items)
    && (value.String? ==> ValidString(value.s, schema, text))
    && (value.Number? ==> ValidNumber(value.n, schema))
    && (value.Array? ==> ValidArray(value.items, schema))
    && (value.Object? ==> ValidObjectKeys(value.fields.Keys, schema, PropertyKeys(schema)))
  }

  const LEAF_KEYWORDS: set<string> := {
    "type", "const", "enum", "minLength", "maxLength", "pattern", "format", "minimum", "exclusiveMinimum",
    "maximum", "exclusiveMaximum", "minItems", "maxItems", "uniqueItems", "required", "additionalProperties"}

  // ---------------------------------------------------------------- the interpreter's own pointer walk

  /** Like Walk, except that empty tokens are skipped. */
  function LooseWalk(target: Json, parts: seq<string>): Option<Json> {
    if parts == [] then Some(target)
    else if parts[0] == "" then LooseWalk(target, parts[1..])
    else if !target.Object? || Unescape(parts[0]) !in target.fields then None
    else LooseWalk(target.fields[Unescape(parts[0])], parts[1..])
  }

  function TrimSlash(fragment: string): string {
    if fragment != "" && fragment[0] == '/' then fragment[1..] else fragment
  }

  function LooseTarget(docs: Documents, reference: string, file: string): Option<(string, Json)> {
    var targetFile := TargetFile(docs, reference, file);
    if targetFile !in docs.files then None
    else
      var found := LooseWalk(Object(docs.files[targetFile]), SplitSlash(TrimSlash(CutFragment(reference).1)));
      if found.None? || !found.value.Object? then None else Some((targetFile, found.value))
  }

  /** Pointers without empty tokens. */
  predicate FullTokens(reference: string) {
    var fragment := CutFragment(reference).1;
    var tokens := SplitSlash(TrimSlash(fragment));
    fragment == "" || forall i :: 0 <= i < |tokens| ==> tokens[i] != ""
  }

  lemma {:induction false} WalksAgree(target: Json, parts: seq<string>)
    requires forall i :: 0 <= i < |parts| ==> parts[i] != ""
    ensures Walk(target, parts) == LooseWalk(target, parts)
    decreases |parts|
  {
    if parts != [] && target.Object? && Unescape(parts[0]) in target.fields {
      WalksAgree(target.fields[Unescape(parts[0])], parts[1..]);
    }
  }

  /** Where the resolver finds an object, the interpreter finds the same one. */
  lemma {:induction false} TargetsAgree(docs: Documents, reference: string, file: string)
    requires FullTokens(reference)
    requires Target(docs, reference, file).Some? && Target(docs, reference, file).value.1.Object?
    ensures LooseTarget(docs, reference, file) == Target(docs, reference, file)
  {
    var fragment := CutFragment(reference).1;
    var document := Object(docs.files[TargetFile(docs, reference, file)]);
    if fragment == "" {
      assert SplitSlash("") == [""];
      assert LooseWalk(document, [""]) == LooseWalk(document, [""][1..]) == Some(document);
    } else {
      assert TrimSlash(fragment) == fragment[1..];
      WalksAgree(document, SplitSlash(fragment[1..]));
    }
  }

  // ---------------------------------------------------------------- the interpreter

  /** The object elements of an array-valued keyword, by index. */
  predicate Branch(schema: map<string, Json>, keyword: string, i: int) {
    keyword in schema && schema[keyword].Array? && 0 <= i < |schema[keyword].items| && schema[keyword].items[i].Object?
  }

  function MemberObject(fields: map<string, Json>, key: string): Option<Json> {
    if key in fields && fields[key].Object? then Some(fields[key]) else None
  }

  /** Exactly one branch accepts. */
  predicate ValidOneOf(docs: Documents, text: TextRules, hops: nat, value: Json, schema: Json, file: string)
    requires schema.Object?
    decreases hops, schema, 0
  {
    var fields := schema.fields;
    "oneOf" in fields && fields["oneOf"].Array? ==>
      |set i | 0 <= i < |fields["oneOf"].items| && Branch(fields, "oneOf", i) &&
               SchemaValid(docs, text, hops, value, fields["oneOf"].items[i], file)| == 1
  }

  /** Every rule accepts; a rule with an if accepts through its then or its else. */
  predicate ValidAllOf(docs: Documents, text: TextRules, hops: nat, value: Json, schema: Json, file: string)
    requires schema.Object?
    decreases hops, schema, 0
  {
    var fields := schema.fields;
    "allOf" in fields && fields["allOf"].Array? ==>
      forall i :: 0 <= i < |fields["allOf"].items| && Branch(fields, "allOf", i) ==>
        ValidRule(docs, text, hops, value, fields["allOf"].items[i], file)
  }

  predicate ValidRule(docs: Documents, text: TextRules, hops: nat, value: Json, rule: Json, file: string)
    requires rule.Object?
    decreases hops, rule, 2
  {
    var condition := MemberObject(rule.fields, "if");
    if condition.None? then SchemaValid(docs, text, hops, value, rule, file)
    else
      var branch := if SchemaValid(docs, text, hops, value, condition.value, file) then "then" else "else";
      var consequence := MemberObject(rule.fields, branch);
      consequence.None? || SchemaValid(docs, text, hops, value, consequence.value, file)
  }

  predicate ValidProperties(docs: Documents, text: TextRules, hops: nat, value: Json, schema: Json, file: string)
    requires schema.Object?
    decreases hops, schema, 0
  {
    var fields := schema.fields;
    value.Object? && "properties" in fields && fields["properties"].Object? ==>
      forall k :: k in value.fields && MemberObject(fields["properties"].fields, k).Some? ==>
        SchemaValid(docs, text, hops, value.fields[k], fields["properties"].fields[k], file)
  }

  predicate ValidItems(docs: Documents, text: TextRules, hops: nat, value: Json, schema: Json, file: string)
    requires schema.Object?
    decreases hops, schema, 0
  {
    value.Array? && MemberObject(schema.fields, "items").Some? ==>
      forall i :: 0 <= i < |value.items| ==>
        SchemaValid(docs, text, hops, value.items[i], schema.fields["items"], file)
  }

  /** hops bounds how many references may be followed inside one another; everything else is structural. */
  predicate SchemaValid(docs: Documents, text: TextRules, hops: nat, value: Json, schema: Json, file: string)
    requires schema.Object?
    decreases hops, schema, 1
  {
    if IsReference(schema.fields) then
      var target := LooseTarget(docs, schema.fields["$ref"].s, file);
      target.Some? && hops > 0 && SchemaValid(docs, text, hops - 1, value, target.value.1, target.value.0)
    else
      && ValidOneOf(docs, text, hops, value, schema, file)
      && ValidLeaf(value, schema.fields, text)
      && ValidAllOf(docs, text, hops, value, schema, file)
      && ValidProperties(docs, text, hops, value, schema, file)
      && ValidItems(docs, text, hops, value, schema, file)
  }
}
