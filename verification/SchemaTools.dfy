/** The resolver object of the tool schemas: a document cache over the embedded files, the pointer walk and
    the recursive copy, proved against the resolution function. */
module SchemaTools {
  import opened Wrappers
  import opened Json
  import opened SchemaResolver
  import opened SchemaTargets

  /** copy holds the resolved first elements of an array. */
  ghost predicate Copied(docs: Documents, items: seq<Json>, file: string, stack: set<string>, copy: seq<Json>) {
    |copy| <= |items| &&
    forall i :: 0 <= i < |copy| ==>
      Belongs(docs, items[i], file) && Resolve(docs, items[i], file, stack) == Some(copy[i])
  }

  lemma {:induction false} CopiedOneMore(docs: Documents, items: seq<Json>, file: string, stack: set<string>,
                                         copy: seq<Json>, item: Json)
    requires Copied(docs, items, file, stack, copy) && |copy| < |items| && Belongs(docs, items[|copy|], file)
    requires Resolve(docs, items[|copy|], file, stack) == Some(item)
    ensures Copied(docs, items, file, stack, copy + [item])
  {}

  class Resolver {
    const docs: Documents
    var documents: map<string, map<string, Json>>

    ghost predicate Valid()
      reads this
    {
      StringReferences(docs) &&
      forall f :: f in documents ==> f in docs.files && documents[f] == docs.files[f]
    }

    constructor (docs: Documents)
      requires StringReferences(docs)
      ensures Valid() && this.docs == docs && documents == map[]
    {
      this.docs := docs;
      documents := map[];
    }

    /** The cache only ever holds documents as they were embedded. */
    method Document(file: string) returns (document: Option<map<string, Json>>)
      requires Valid()
      modifies this
      ensures Valid()
      ensures document == if file in docs.files then Some(docs.files[file]) else None
      ensures documents == if file in docs.files then old(documents)[file := docs.files[file]] else old(documents)
    {
      if file in documents {
        assert documents[file := docs.files[file]] == documents;
        return Some(documents[file]);
      }
      if file !in docs.files {
        return None;
      }
      documents := documents[file := docs.files[file]];
      document := Some(docs.files[file]);
    }

    method FindTarget(reference: string, file: string) returns (target: Option<(string, Json)>)
      requires Valid()
      modifies this
      ensures Valid()
      ensures target == Target(docs, reference, file)
    {
      var targetFile := TargetFile(docs, reference, file);
      var fragment := CutFragment(reference).1;
      var document := Document(targetFile);
      if document.None? {
        return None;
      }
      var current := Object(document.value);
      if fragment != "" {
        if fragment[0] != '/' {
          return None;
        }
        var parts := SplitSlash(fragment[1..]);
        for i := 0 to |parts|
          invariant Valid()
          invariant Walk(Object(docs.files[targetFile]), parts) == Walk(current, parts[i..])
        {
          var part := Unescape(parts[i]);
          if !current.Object? || part !in current.fields {
            return None;
          }
          assert parts[i..][1..] == parts[i + 1..];
          current := current.fields[part];
        }
        assert parts[|parts|..] == [];
      }
      target := Some((targetFile, current));
    }

    method ResolveValue(value: Json, file: string, stack: set<string>) returns (resolved: Option<Json>)
      requires Valid() && Belongs(docs, value, file)
      modifies this
      ensures Valid()
      ensures resolved == Resolve(docs, value, file, stack)
      decreases |Keys(docs) - stack|, RefDepth(value), value
    {
      MembersBelong(docs, value, file);
      match value
      case Object(fields) =>
        if IsReference(fields) {
          resolved := ResolveTarget(fields["$ref"].s, file, stack);
          if resolved.None? || |fields| == 1 {
            return;
          }
          if !resolved.value.Object? {
            return None;
          }
          OverlayShrinks(docs, resolved.value.fields, fields, file);
          resolved := ResolveValue(Object(Overlay(resolved.value.fields, fields)), file, stack);
        } else {
          var copy, ok := ResolveMembers(fields, file, stack, RefDepth(value));
          if ok {
            ObjectResolves(docs, fields, file, stack, copy);
            resolved := Some(Object(copy));
          } else {
            ghost var k :| k in fields && Resolve(docs, fields[k], file, stack).None?;
            ObjectFails(docs, fields, file, stack, k);
            resolved := None;
          }
        }
      case Array(items) =>
        var copy, ok := ResolveElements(items, file, stack, RefDepth(value));
        if ok {
          ArrayResolves(docs, items, file, stack, copy);
          resolved := Some(Array(copy));
        } else {
          ghost var i :| 0 <= i < |items| && Resolve(docs, items[i], file, stack).None?;
          ArrayFails(docs, items, file, stack, i);
          resolved := None;
        }
      case _ =>
        resolved := Some(value);
    }

    /** The members one by one, in any order: all copies, or one that fails. */
    method ResolveMembers(fields: map<string, Json>, file: string, stack: set<string>, ghost depth: nat)
      returns (copy: map<string, Json>, ok: bool)
      requires Valid()
      requires forall k :: k in fields ==> Belongs(docs, fields[k], file) && RefDepth(fields[k]) <= depth
      modifies this
      ensures Valid()
      ensures ok ==> copy.Keys == fields.Keys
      ensures ok ==> forall k :: k in fields ==> Resolve(docs, fields[k], file, stack) == Some(copy[k])
      ensures !ok ==> exists k :: k in fields && Resolve(docs, fields[k], file, stack).None?
      decreases |Keys(docs) - stack|, depth, Object(fields), 0
    {
      copy := map[];
      var remaining := fields.Keys;
      while remaining != {}
        invariant Valid()
        invariant remaining <= fields.Keys && copy.Keys == fields.Keys - remaining
        invariant forall k :: k in copy ==> Resolve(docs, fields[k], file, stack) == Some(copy[k])
        decreases |remaining|
      {
        var key :| key in remaining;
        var item := ResolveValue(fields[key], file, stack);
        if item.None? {
          return copy, false;
        }
        copy := copy[key := item.value];
        remaining := remaining - {key};
      }
      ok := true;
    }

    method ResolveElements(items: seq<Json>, file: string, stack: set<string>, ghost depth: nat)
      returns (copy: seq<Json>, ok: bool)
      requires Valid()
      requires forall i :: 0 <= i < |items| ==> Belongs(docs, items[i], file) && RefDepth(items[i]) <= depth
      modifies this
      ensures Valid()
      ensures ok ==> |copy| == |items| && Copied(docs, items, file, stack, copy)
      ensures !ok ==> exists i :: 0 <= i < |items| && Resolve(docs, items[i], file, stack).None?
      decreases |Keys(docs) - stack|, depth, Array(items), 0
    {
      copy := [];
      for i := 0 to |items|
        invariant Valid()
        invariant |copy| == i && Copied(docs, items, file, stack, copy)
      {
        var item := ResolveValue(items[i], file, stack);
        if item.None? {
          return copy, false;
        }
        CopiedOneMore(docs, items, file, stack, copy, item.value);
        copy := copy + [item.value];
      }
      ok := true;
    }

    method ResolveTarget(reference: string, file: string, stack: set<string>) returns (resolved: Option<Json>)
      requires Valid() && file in docs.files && reference in DocRefs(docs, file)
      modifies this
      ensures Valid()
      ensures resolved == ResolveReference(docs, reference, file, stack)
      decreases |Keys(docs) - stack|, 0
    {
      var key := KeyOf(docs, reference, file);
      if key in stack {
        return None;
      }
      var target := FindTarget(reference, file);
      if target.None? {
        return None;
      }
      TargetBelongs(docs, reference, file);
      FewerKeysLeft(docs, reference, file, stack);
      resolved := ResolveValue(target.value.1, target.value.0, stack + {key});
    }
  }

  // ---------------------------------------------------------------- tool definitions

  function ToolFile(name: string): string {
    "v1/tools/" + name + ".schema.json"
  }

  /** The request or result schema of a tool document, if it has one. */
  function Definition(docs: Documents, name: string, definition: string): Option<Json> {
    if definition != "request" && definition != "result" then None
    else if ToolFile(name) !in docs.files then None
    else
      var document := docs.files[ToolFile(name)];
      if "$defs" !in document || !document["$defs"].Object? then None
      else if definition !in document["$defs"].fields || !document["$defs"].fields[definition].Object? then None
      else Some(document["$defs"].fields[definition])
  }

  /** It is the object that the names $defs and request, or $defs and result, lead to in the document of the tool. */
  lemma {:induction false} DefinitionIsMember(docs: Documents, name: string, definition: string)
    ensures var file := "v1/tools/" + name + ".schema.json";
            Definition(docs, name, definition) ==
              if (definition == "request" || definition == "result") && file in docs.files
              then IfObject(At(Object(docs.files[file]), ["$defs", definition]))
              else None
  {
    if ToolFile(name) in docs.files {
      DefinitionAt(docs.files[ToolFile(name)], definition);
    }
  }

  lemma {:induction false} DefinitionAt(document: map<string, Json>, definition: string)
    ensures At(Object(document), ["$defs", definition]) ==
              if "$defs" in document && document["$defs"].Object? && definition in document["$defs"].fields
              then Some(document["$defs"].fields[definition])
              else None
  {
    assert ["$defs", definition][1..] == [definition] && [definition][1..] == [];
    assert At(Object(document), ["$defs", definition]) ==
             if "$defs" in document then At(document["$defs"], [definition]) else None;
    if "$defs" in document && document["$defs"].Object? && definition in document["$defs"].fields {
      assert At(document["$defs"], [definition]) == At(document["$defs"].fields[definition], []);
    }
  }

  lemma {:induction false} DefinitionBelongs(docs: Documents, name: string, definition: string)
    requires StringReferences(docs) && Definition(docs, name, definition).Some?
    ensures Belongs(docs, Definition(docs, name, definition).value, ToolFile(name))
  {
    var document := docs.files[ToolFile(name)];
    assert StringRefs(Object(document)) && StringRefs(document["$defs"]);
    assert Refs(document["$defs"]) <= Refs(Object(document));
    assert Refs(document["$defs"].fields[definition]) <= Refs(document["$defs"]);
  }

  /** A tool definition is its flattened schema, or an error; it never contains a reference. */
  method ToolDefinition(docs: Documents, name: string, definition: string) returns (schema: Option<Json>)
    requires StringReferences(docs)
    ensures schema.Some? ==> schema.value.Object? && RefFree(schema.value)
    ensures schema.Some? ==>
              && Definition(docs, name, definition).Some?
              && Belongs(docs, Definition(docs, name, definition).value, ToolFile(name))
              && Resolve(docs, Definition(docs, name, definition).value, ToolFile(name), {}) == schema
    ensures schema.None? && Definition(docs, name, definition).Some? ==>
              && Belongs(docs, Definition(docs, name, definition).value, ToolFile(name))
              && var resolved := Resolve(docs, Definition(docs, name, definition).value, ToolFile(name), {});
                 resolved.None? || !resolved.value.Object?
  {
    if definition != "request" && definition != "result" {
      return None;
    }
    var resolver := new Resolver(docs);
    var document := resolver.Document(ToolFile(name));
    if document.None? || "$defs" !in document.value || !document.value["$defs"].Object? {
      return None;
    }
    var definitions := document.value["$defs"].fields;
    if definition !in definitions || !definitions[definition].Object? {
      return None;
    }
    DefinitionBelongs(docs, name, definition);
    schema := resolver.ResolveValue(definitions[definition], ToolFile(name), {});
    if schema.Some? && !schema.value.Object? {
      schema := None;
    }
  }
}
