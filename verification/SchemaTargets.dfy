/** Where references lead: the file part picks the document, and a JSON pointer built from member names (section 3
    of RFC 6901) picks the member that those names lead to. */
module SchemaTargets {
  import opened Wrappers
  import opened Json
  import opened SchemaResolver
  import opened SchemaInterpreter
  import opened SchemaMeaning

  // ---------------------------------------------------------------- the parts of a reference

  lemma {:induction false} CutAtHash(part: string, fragment: string)
    requires '#' !in part
    ensures CutFragment(part + "#" + fragment) == (part, fragment)
    decreases |part|
  {
    var reference := part + "#" + fragment;
    if part == "" {
      assert reference[1..] == fragment;
    } else {
      CutAtHash(part[1..], fragment);
      assert reference[1..] == part[1..] + "#" + fragment;
      assert part == [part[0]] + part[1..];
    }
  }

  lemma {:induction false} NothingToCut(part: string)
    requires '#' !in part
    ensures CutFragment(part) == (part, "")
    decreases |part|
  {
    if part != "" {
      NothingToCut(part[1..]);
      assert part == [part[0]] + part[1..];
    }
  }

  /** The document that a reference with this file part speaks about. */
  function Named(docs: Documents, part: string, file: string): string {
    if part == "" then file else docs.join(file, part)
  }

  // ---------------------------------------------------------------- pointers

  /** Following member names from object to object. */
  function At(value: Json, names: seq<string>): Option<Json> {
    if names == [] then Some(value)
    else if value.Object? && names[0] in value.fields then At(value.fields[names[0]], names[1..])
    else None
  }

  /** The pointer to the member that the names lead to. */
  function Pointer(names: seq<string>): string {
    if names == [] then "" else "/" + Escape(names[0]) + Pointer(names[1..])
  }

  function Tokens(names: seq<string>): (tokens: seq<string>)
    ensures |tokens| == |names|
  {
    if names == [] then [] else [Escape(names[0])] + Tokens(names[1..])
  }

  lemma {:induction false} NoSlash(name: string)
    ensures '/' !in Escape(name)
  {
    if name != "" {
      NoSlash(name[1..]);
    }
  }

  lemma {:induction false} SplitHead(head: string, rest: string)
    requires '/' !in head
    ensures SplitSlash(head) == [head]
    ensures SplitSlash(head + "/" + rest) == [head] + SplitSlash(rest)
    decreases |head|
  {
    var text := head + "/" + rest;
    if head == "" {
      assert text[1..] == rest;
    } else {
      SplitHead(head[1..], rest);
      assert text[1..] == head[1..] + "/" + rest;
      assert head == [head[0]] + head[1..];
    }
  }

  lemma {:induction false} PointerHead(head: string, rest: string)
    ensures ("/" + head + rest)[1..] == head + rest
    ensures rest == "" ==> head + rest == head
    ensures rest != "" && rest[0] == '/' ==> head + rest == head + "/" + rest[1..]
  {
    if rest != "" && rest[0] == '/' {
      assert rest == "/" + rest[1..];
    }
  }

  lemma {:induction false} PointerSplits(names: seq<string>)
    requires names != []
    ensures Pointer(names) != "" && Pointer(names)[0] == '/'
    ensures SplitSlash(Pointer(names)[1..]) == Tokens(names)
    decreases |names|
  {
    var head, tail := Escape(names[0]), names[1..];
    NoSlash(names[0]);
    PointerHead(head, Pointer(tail));
    if tail == [] {
      SplitHead(head, "");
    } else {
      PointerSplits(tail);
      SplitHead(head, Pointer(tail)[1..]);
    }
  }

  lemma {:induction false} WalkFollowsNames(value: Json, names: seq<string>)
    ensures Walk(value, Tokens(names)) == At(value, names)
    decreases |names|
  {
    if names != [] {
      TokensRoundTrip(names[0]);
      assert Tokens(names)[1..] == Tokens(names[1..]);
      if value.Object? && names[0] in value.fields {
        WalkFollowsNames(value.fields[names[0]], names[1..]);
      }
    }
  }

  lemma {:induction false} PointerLeadsTo(document: Json, names: seq<string>)
    ensures PointerTarget(document, Pointer(names)) == At(document, names)
  {
    if names != [] {
      PointerSplits(names);
      WalkFollowsNames(document, names);
    }
  }

  // ---------------------------------------------------------------- where the resolver looks

  /** The value at a fragment of a document that may be missing, with the file it stands in. */
  function InFile(docs: Documents, file: string, value: Json -> Option<Json>): Option<(string, Json)> {
    if file !in docs.files then None
    else
      match value(Object(docs.files[file]))
      case Some(found) => Some((file, found))
      case None => None
  }

  /** A reference looks up its fragment in the document its file part names, or in its own without a file part;
      without a fragment it names that whole document. */
  lemma {:induction false} ReferenceLooksIn(docs: Documents, part: string, fragment: string, file: string)
    requires '#' !in part
    ensures Target(docs, part + "#" + fragment, file) ==
              InFile(docs, Named(docs, part, file), document => PointerTarget(document, fragment))
    ensures Target(docs, part, file) == InFile(docs, Named(docs, part, file), document => Some(document))
  {
    CutAtHash(part, fragment);
    NothingToCut(part);
  }

  /** A reference made of a file part and a pointer names the member of that document which the names of the pointer
      lead to, whatever slashes and tildes the names contain. */
  lemma {:induction false} ReferenceNamesMember(docs: Documents, part: string, names: seq<string>, file: string)
    requires '#' !in part
    ensures Target(docs, part + "#" + Pointer(names), file) ==
              InFile(docs, Named(docs, part, file), document => At(document, names))
  {
    ReferenceLooksIn(docs, part, Pointer(names), file);
    if Named(docs, part, file) in docs.files {
      PointerLeadsTo(Object(docs.files[Named(docs, part, file)]), names);
    }
  }

  // ---------------------------------------------------------------- where the interpreter looks

  function WithoutEmpty(names: seq<string>): seq<string> {
    if names == [] then []
    else (if names[0] == "" then [] else [names[0]]) + WithoutEmpty(names[1..])
  }

  lemma {:induction false} EscapeEmpty(name: string)
    ensures Escape(name) == "" <==> name == ""
  {}

  lemma {:induction false} LooseWalkFollowsNames(value: Json, names: seq<string>)
    ensures LooseWalk(value, Tokens(names)) == At(value, WithoutEmpty(names))
    decreases |names|
  {
    if names != [] {
      var head, tail := names[0], names[1..];
      TokensRoundTrip(head);
      EscapeEmpty(head);
      assert Tokens(names)[1..] == Tokens(tail);
      if head == "" {
        LooseWalkFollowsNames(value, tail);
        assert WithoutEmpty(names) == WithoutEmpty(tail);
      } else {
        assert WithoutEmpty(names) == [head] + WithoutEmpty(tail);
        assert WithoutEmpty(names)[1..] == WithoutEmpty(tail);
        if value.Object? && head in value.fields {
          LooseWalkFollowsNames(value.fields[head], tail);
        }
      }
    }
  }

  function IfObject(found: Option<Json>): Option<Json> {
    if found.Some? && found.value.Object? then found else None
  }

  /** The interpreter looks in the same document, skips empty names, and accepts nothing but an object. */
  lemma {:induction false} InterpreterNamesMember(docs: Documents, part: string, names: seq<string>, file: string)
    requires '#' !in part
    ensures LooseTarget(docs, part + "#" + Pointer(names), file) ==
              InFile(docs, Named(docs, part, file), document => IfObject(At(document, WithoutEmpty(names))))
  {
    CutAtHash(part, Pointer(names));
    if Named(docs, part, file) in docs.files {
      var document := Object(docs.files[Named(docs, part, file)]);
      if names == [] {
        assert SplitSlash("") == [""];
        assert LooseWalk(document, [""]) == LooseWalk(document, [""][1..]);
      } else {
        PointerSplits(names);
        LooseWalkFollowsNames(document, names);
      }
    }
  }

  /** A reference without a fragment names the whole document. */
  lemma {:induction false} InterpreterNamesDocument(docs: Documents, part: string, file: string)
    requires '#' !in part
    ensures LooseTarget(docs, part, file) == InFile(docs, Named(docs, part, file), document => Some(document))
  {
    NothingToCut(part);
    if Named(docs, part, file) in docs.files {
      var document := Object(docs.files[Named(docs, part, file)]);
      assert SplitSlash("") == [""];
      assert LooseWalk(document, [""]) == LooseWalk(document, [""][1..]);
    }
  }

  // ---------------------------------------------------------------- what the stack of a resolution tells apart

  /** Two references have the same key on the stack exactly if they name the same fragment of the same file, as long as
      file names have no '#'. */
  lemma {:induction false} KeysTellTargetsApart(
    docs: Documents, part: string, fragment: string, file: string, other: string, tail: string, from: string)
    requires '#' !in part && '#' !in other
    requires '#' !in Named(docs, part, file) && '#' !in Named(docs, other, from)
    ensures KeyOf(docs, part + "#" + fragment, file) == KeyOf(docs, other + "#" + tail, from) <==>
              Named(docs, part, file) == Named(docs, other, from) && fragment == tail
  {
    CutAtHash(part, fragment);
    CutAtHash(other, tail);
    CutAtHash(Named(docs, part, file), fragment);
    CutAtHash(Named(docs, other, from), tail);
  }

  // ---------------------------------------------------------------- what a reference resolves to

  /** A standalone reference to a member, in whatever document, resolves to what that member resolves to there. */
  lemma {:induction false} ReferenceResolvesAsMember(docs: Documents, part: string, names: seq<string>, file: string,
                                                     stack: set<string>)
    requires '#' !in part && Belongs(docs, ReferenceTo(part + "#" + Pointer(names)), file)
    requires KeyOf(docs, part + "#" + Pointer(names), file) !in stack
    requires Named(docs, part, file) in docs.files
    requires At(Object(docs.files[Named(docs, part, file)]), names).Some?
    ensures var reference, target := part + "#" + Pointer(names), Named(docs, part, file);
            var member := At(Object(docs.files[target]), names).value;
            && Belongs(docs, member, target)
            && Resolve(docs, ReferenceTo(reference), file, stack)
               == Resolve(docs, member, target, stack + {KeyOf(docs, reference, file)})
  {
    var reference := part + "#" + Pointer(names);
    ReferenceNamesMember(docs, part, names, file);
    TargetBelongs(docs, reference, file);
    ReferenceAlone(reference);
    StandaloneResolves(docs, ReferenceTo(reference), file, stack);
  }

  lemma {:induction false} ReferenceAlone(reference: string)
    ensures var v := ReferenceTo(reference);
            v.Object? && IsReference(v.fields) && |v.fields| == 1 && v.fields["$ref"].s == reference
  {
    assert ReferenceTo(reference).fields.Keys == {"$ref"};
  }
}
