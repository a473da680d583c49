/** Flattening of multi-document JSON Schemas: every $ref (section 8.2.3.1 of JSON Schema Core draft
    2020-12) is replaced by the resolved value it names, and reference cycles are refused. */
module SchemaResolver {
  import opened Wrappers
  import opened Json

  /** The embedded documents, and how a relative file reference is joined to the file it stands in. */
  datatype Documents = Documents(files: map<string, map<string, Json>>, join: (string, string) -> string)

  /** Every $ref member of every document is a string. */
  ghost predicate StringReferences(docs: Documents) {
    forall f :: f in docs.files ==> StringRefs(Object(docs.files[f]))
  }

  // ---------------------------------------------------------------- references and JSON pointers

  /** The text before the first '#', and the text after it. */
  function CutFragment(reference: string): (string, string) {
    if reference == "" then ("", "")
    else if reference[0] == '#' then ("", reference[1..])
    else
      var (file, fragment) := CutFragment(reference[1..]);
      ([reference[0]] + file, fragment)
  }

  function SplitSlash(s: string): (parts: seq<string>)
    ensures |parts| >= 1
  {
    if s == "" then [""]
    else
      var rest := SplitSlash(s[1..]);
      if s[0] == '/' then [""] + rest else [[s[0]] + rest[0]] + rest[1..]
  }

  /** Left to right replacement of the two-character sequence '~', digit. */
  function ReplaceEscape(s: string, digit: char, to: char): string {
    if |s| < 2 then s
    else if s[0] == '~' && s[1] == digit then [to] + ReplaceEscape(s[2..], digit, to)
    else [s[0]] + ReplaceEscape(s[1..], digit, to)
  }

  /** A reference token is decoded by replacing ~1 first and ~0 second (section 4 of RFC 6901). */
  function Unescape(token: string): string {
    ReplaceEscape(ReplaceEscape(token, '1', '/'), '0', '~')
  }

  /** The standard's encoding of a member name as a token. */
  function Escape(name: string): string {
    if name == "" then ""
    else (if name[0] == '~' then "~0" else if name[0] == '/' then "~1" else [name[0]]) + Escape(name[1..])
  }

  function TildeOnly(name: string): string {
    if name == "" then ""
    else (if name[0] == '~' then "~0" else [name[0]]) + TildeOnly(name[1..])
  }

  lemma {:induction false} UnescapeSlashes(name: string)
    ensures ReplaceEscape(Escape(name), '1', '/') == TildeOnly(name)
  {
    if name != "" {
      UnescapeSlashes(name[1..]);
      var rest := Escape(name[1..]);
      assert Escape(name)[if name[0] == '~' || name[0] == '/' then 2 else 1..] == rest;
      if name[0] == '~' {
        assert Escape(name)[1..] == "0" + rest;
        assert ("0" + rest)[1..] == rest;
      }
    }
  }

  lemma {:induction false} UnescapeTildes(name: string)
    ensures ReplaceEscape(TildeOnly(name), '0', '~') == name
  {
    if name != "" {
      UnescapeTildes(name[1..]);
      assert TildeOnly(name)[if name[0] == '~' then 2 else 1..] == TildeOnly(name[1..]);
    }
  }

  /** Decoding in that order recovers every member name, whatever tildes and slashes it contains. */
  lemma {:induction false} TokensRoundTrip(name: string)
    ensures Unescape(Escape(name)) == name
  {
    UnescapeSlashes(name);
    UnescapeTildes(name);
  }

  function TargetFile(docs: Documents, reference: string, file: string): string {
    var part := CutFragment(reference).0;
    if part == "" then file else docs.join(file, part)
  }

  function KeyOf(docs: Documents, reference: string, file: string): string {
    TargetFile(docs, reference, file) + "#" + CutFragment(reference).1
  }

  /** Member by member down the tokens; every step must land on an existing member of an object. */
  function Walk(target: Json, parts: seq<string>): Option<Json> {
    if parts == [] then Some(target)
    else if !target.Object? || Unescape(parts[0]) !in target.fields then None
    else Walk(target.fields[Unescape(parts[0])], parts[1..])
  }

  /** The document root, or the value at an absolute pointer. */
  function PointerTarget(document: Json, fragment: string): Option<Json> {
    if fragment == "" then Some(document)
    else if fragment[0] != '/' then None
    else Walk(document, SplitSlash(fragment[1..]))
  }

  /** The file and value a reference names, if both exist. */
  function Target(docs: Documents, reference: string, file: string): Option<(string, Json)> {
    var targetFile := TargetFile(docs, reference, file);
    if targetFile !in docs.files then None
    else
      var found := PointerTarget(Object(docs.files[targetFile]), CutFragment(reference).1);
      if found.None? then None else Some((targetFile, found.value))
  }

  lemma {:induction false} WalkRefs(target: Json, parts: seq<string>)
    requires StringRefs(target)
    ensures Walk(target, parts).Some? ==>
              Refs(Walk(target, parts).value) <= Refs(target) && StringRefs(Walk(target, parts).value)
    decreases |parts|
  {
    if parts != [] && target.Object? && Unescape(parts[0]) in target.fields {
      assert Refs(target.fields[Unescape(parts[0])]) <= Refs(target);
      WalkRefs(target.fields[Unescape(parts[0])], parts[1..]);
    }
  }

  // ---------------------------------------------------------------- termination

  ghost function DocRefs(docs: Documents, file: string): set<string>
    requires file in docs.files
  {
    Refs(Object(docs.files[file]))
  }

  /** Every key a resolution can ever put on its stack. */
  ghost function Keys(docs: Documents): set<string> {
    set f, r | f in docs.files && r in DocRefs(docs, f) :: KeyOf(docs, r, f)
  }

  /** A value taken from a document: its references all occur in that document. */
  ghost predicate Belongs(docs: Documents, value: Json, file: string) {
    && StringReferences(docs)
    && file in docs.files && Refs(value) <= DocRefs(docs, file) && StringRefs(value)
  }

  lemma {:induction false} TargetBelongs(docs: Documents, reference: string, file: string)
    requires StringReferences(docs) && Target(docs, reference, file).Some?
    ensures Belongs(docs, Target(docs, reference, file).value.1, Target(docs, reference, file).value.0)
  {
    var targetFile := TargetFile(docs, reference, file);
    var fragment := CutFragment(reference).1;
    if fragment != "" {
      WalkRefs(Object(docs.files[targetFile]), SplitSlash(fragment[1..]));
    }
  }

  lemma {:induction false} FewerKeysLeft(docs: Documents, reference: string, file: string, stack: set<string>)
    requires file in docs.files && reference in DocRefs(docs, file)
    requires KeyOf(docs, reference, file) !in stack
    ensures |Keys(docs) - (stack + {KeyOf(docs, reference, file)})| < |Keys(docs) - stack|
  {
    var key := KeyOf(docs, reference, file);
    assert key in Keys(docs) - stack;
    assert Keys(docs) - (stack + {key}) == (Keys(docs) - stack) - {key};
  }

  // ---------------------------------------------------------------- resolution

  /** The referenced object with the siblings of $ref laid over it. */
  function Overlay(base: map<string, Json>, fields: map<string, Json>): map<string, Json> {
    base + (map k | k in fields && k != "$ref" :: fields[k])
  }

  /** Every member of the overlay is reference-free or a sibling, and nests fewer references. */
  lemma {:induction false} OverlayMember(docs: Documents, base: map<string, Json>, fields: map<string, Json>,
                                         file: string, k: string)
    requires IsReference(fields) && Belongs(docs, Object(fields), file) && RefFree(Object(base))
    requires k in Overlay(base, fields)
    ensures var copy := Overlay(base, fields)[k];
            RefDepth(copy) < RefDepth(Object(fields)) && Belongs(docs, copy, file)
  {
    if k in fields && k != "$ref" {
      MemberRefs(fields, k);
    } else {
      RefFreeMeansNoRefs(base[k]);
      MemberRefs(fields, "$ref");
    }
  }

  /** Laying reference-bearing siblings over a resolved object nests references less deeply. */
  lemma {:induction false} OverlayShrinks(docs: Documents, base: map<string, Json>, fields: map<string, Json>,
                                          file: string)
    requires IsReference(fields) && Belongs(docs, Object(fields), file) && RefFree(Object(base))
    ensures var copy := Object(Overlay(base, fields));
            RefDepth(copy) < RefDepth(Object(fields)) && Belongs(docs, copy, file) && "$ref" !in copy.fields
  {
    var copy := Overlay(base, fields);
    assert "$ref" !in copy;
    forall k | k in copy
      ensures RefDepth(copy[k]) < RefDepth(Object(fields)) && Belongs(docs, copy[k], file)
    {
      OverlayMember(docs, base, fields, file, k);
    }
  }

  lemma {:induction false} FieldsBelong(docs: Documents, fields: map<string, Json>, file: string)
    requires Belongs(docs, Object(fields), file)
    ensures forall k :: k in fields ==>
              Belongs(docs, fields[k], file) && RefDepth(fields[k]) <= RefDepth(Object(fields))
  {
    forall k | k in fields ensures Refs(fields[k]) <= Refs(Object(fields)) {}
  }

  lemma {:induction false} ItemsBelong(docs: Documents, items: seq<Json>, file: string)
    requires Belongs(docs, Array(items), file)
    ensures forall i :: 0 <= i < |items| ==>
              Belongs(docs, items[i], file) && RefDepth(items[i]) <= RefDepth(Array(items))
  {
    forall i | 0 <= i < |items| ensures Refs(items[i]) <= Refs(Array(items)) {}
  }

  lemma {:induction false} ReferenceBelongs(docs: Documents, fields: map<string, Json>, file: string)
    requires Belongs(docs, Object(fields), file) && "$ref" in fields
    ensures IsReference(fields) && fields["$ref"].s in DocRefs(docs, file) && RefDepth(Object(fields)) >= 1
  {
    assert RefDepth(fields["$ref"]) + 1 <= RefDepth(Object(fields));
    assert fields["$ref"].s in Refs(Object(fields));
  }

  lemma {:induction false} MembersBelong(docs: Documents, value: Json, file: string)
    requires Belongs(docs, value, file)
    ensures value.Object? ==> forall k :: k in value.fields ==>
              Belongs(docs, value.fields[k], file) && RefDepth(value.fields[k]) <= RefDepth(value)
    ensures value.Array? ==> forall i :: 0 <= i < |value.items| ==>
              Belongs(docs, value.items[i], file) && RefDepth(value.items[i]) <= RefDepth(value)
    ensures value.Object? && "$ref" in value.fields ==>
              IsReference(value.fields) && value.fields["$ref"].s in DocRefs(docs, file) && RefDepth(value) >= 1
  {
    if value.Object? {
      FieldsBelong(docs, value.fields, file);
      if "$ref" in value.fields {
        ReferenceBelongs(docs, value.fields, file);
      }
    }
    if value.Array? {
      ItemsBelong(docs, value.items, file);
    }
  }

  /** The recursion terminates on every finite document set: a reference uses up a key, an overlay nests
      references less deeply, and otherwise the value gets smaller. Its output contains no $ref. */
  function Resolve(docs: Documents, value: Json, file: string, stack: set<string>): (resolved: Option<Json>)
    requires Belongs(docs, value, file)
    ensures resolved.Some? ==> RefFree(resolved.value)
    decreases |Keys(docs) - stack|, RefDepth(value), value
  {
    match value
    case Object(fields) =>
      if IsReference(fields) then
        ReferenceBelongs(docs, fields, file);
        var target := ResolveReference(docs, fields["$ref"].s, file, stack);
        if target.None? then None
        else if |fields| == 1 then target
        else if !target.value.Object? then None
        else
          OverlayShrinks(docs, target.value.fields, fields, file);
          Resolve(docs, Object(Overlay(target.value.fields, fields)), file, stack)
      else
        FieldsBelong(docs, fields, file);
        if forall k :: k in fields ==> Resolve(docs, fields[k], file, stack).Some? then
          Some(Object(map k | k in fields :: Resolve(docs, fields[k], file, stack).value))
        else None
    case Array(items) =>
      ItemsBelong(docs, items, file);
      if forall i :: 0 <= i < |items| ==> Resolve(docs, items[i], file, stack).Some? then
        Some(Array(seq(|items|, i => if 0 <= i < |items| then Resolve(docs, items[i], file, stack).value else Null)))
      else None
    case _ => Some(value)
  }

  function ResolveReference(docs: Documents, reference: string, file: string, stack: set<string>)
    : (resolved: Option<Json>)
    requires StringReferences(docs) && file in docs.files && reference in DocRefs(docs, file)
    ensures resolved.Some? ==> RefFree(resolved.value)
    decreases |Keys(docs) - stack|, 0
  {
    var key := KeyOf(docs, reference, file);
    if key in stack then None
    else
      var target := Target(docs, reference, file);
      if target.None? then None
      else
        TargetBelongs(docs, reference, file);
        FewerKeysLeft(docs, reference, file, stack);
        Resolve(docs, target.value.1, target.value.0, stack + {key})
  }

  lemma {:induction false} ObjectResolves(docs: Documents, fields: map<string, Json>, file: string,
                                          stack: set<string>, copy: map<string, Json>)
    requires Belongs(docs, Object(fields), file) && !IsReference(fields) && copy.Keys == fields.Keys
    requires forall k :: k in fields ==> Belongs(docs, fields[k], file)
    requires forall k :: k in fields ==> Resolve(docs, fields[k], file, stack) == Some(copy[k])
    ensures Resolve(docs, Object(fields), file, stack) == Some(Object(copy))
  {
    var resolved := Resolve(docs, Object(fields), file, stack);
    assert resolved.Some? && resolved.value.fields == copy;
  }

  lemma {:induction false} ArrayResolves(docs: Documents, items: seq<Json>, file: string, stack: set<string>,
                                         copy: seq<Json>)
    requires Belongs(docs, Array(items), file) && |copy| == |items|
    requires forall i :: 0 <= i < |items| ==> Belongs(docs, items[i], file)
    requires forall i :: 0 <= i < |items| ==> Resolve(docs, items[i], file, stack) == Some(copy[i])
    ensures Resolve(docs, Array(items), file, stack) == Some(Array(copy))
  {
    var resolved := Resolve(docs, Array(items), file, stack);
    assert resolved.Some? && resolved.value.items == copy;
  }

  lemma {:induction false} ObjectFails(docs: Documents, fields: map<string, Json>, file: string, stack: set<string>,
                                       k: string)
    requires Belongs(docs, Object(fields), file) && !IsReference(fields)
    requires k in fields && Belongs(docs, fields[k], file) && Resolve(docs, fields[k], file, stack).None?
    ensures Resolve(docs, Object(fields), file, stack).None?
  {}

  lemma {:induction false} ArrayFails(docs: Documents, items: seq<Json>, file: string, stack: set<string>, i: nat)
    requires Belongs(docs, Array(items), file)
    requires i < |items| && Belongs(docs, items[i], file) && Resolve(docs, items[i], file, stack).None?
    ensures Resolve(docs, Array(items), file, stack).None?
  {}
}
