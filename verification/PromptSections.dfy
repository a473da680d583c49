/** Titled sections separated by blank lines: printing them and finding them again. */
module PromptSections {
  import opened Wrappers
  import opened TextNormalization

  /** A section that is printed if it has a body. */
  datatype Entry = Entry(title: string, body: Option<string>)

  function SectionText(title: string, body: string): string {
    title + ":\n" + body
  }

  function Sections(entries: seq<Entry>): seq<string> {
    if entries == [] then []
    else if entries[0].body.None? then Sections(entries[1..])
    else [SectionText(entries[0].title, entries[0].body.value)] + Sections(entries[1..])
  }

  function JoinSections(sections: seq<string>): string {
    if sections == [] then ""
    else if |sections| == 1 then sections[0]
    else sections[0] + "\n\n" + JoinSections(sections[1..])
  }

  function Rendered(entries: seq<Entry>): string {
    JoinSections(Sections(entries))
  }

  // ---------------------------------------------------------------- searching

  /** The first position of a pattern, or -1. */
  function IndexOf(s: string, pattern: string): (r: int)
    ensures -1 <= r <= |s|
  {
    if pattern <= s then 0
    else if s == "" || IndexOf(s[1..], pattern) < 0 then -1
    else IndexOf(s[1..], pattern) + 1
  }

  lemma {:induction false} IndexMatches(s: string, pattern: string)
    ensures IndexOf(s, pattern) >= 0 ==> pattern <= s[IndexOf(s, pattern)..]
  {
    if !(pattern <= s) && s != "" {
      IndexMatches(s[1..], pattern);
    }
  }

  /** Nothing matches before the first position, or anywhere if there is none. */
  lemma {:induction false} NoEarlierMatch(s: string, pattern: string, i: nat)
    requires i < if IndexOf(s, pattern) >= 0 then IndexOf(s, pattern) else |s|
    ensures !(pattern <= s[i..])
  {
    if i > 0 {
      NoEarlierMatch(s[1..], pattern, i - 1);
      assert s[i..] == s[1..][i - 1..];
    } else {
      assert s[0..] == s;
    }
  }

  function SectionIndex(value: string, title: string): int {
    var heading := title + ":\n";
    if heading <= value then 0
    else
      var index := IndexOf(value, "\n\n" + heading);
      if index < 0 then -1 else index + 2
  }

  /** The trimmed text up to the next blank line; absent if there is no such section or nothing in it. */
  function SectionValue(value: string, title: string): Option<string> {
    var start := SectionIndex(value, title);
    if start < 0 || start + |title| + 2 > |value| then None
    else
      var rest := value[start + |title| + 2..];
      var end := IndexOf(rest, "\n\n");
      var result := TrimSpace(if end < 0 then rest else rest[..end]);
      if result == "" then None else Some(result)
  }

  // ---------------------------------------------------------------- paragraphs

  ghost predicate CanonicalText(s: string) {
    Canonical(Split(s))
  }

  /** A normalized text without a blank line. */
  ghost predicate Paragraph(s: string) {
    CanonicalText(s) && forall i :: 0 <= i < |Split(s)| ==> Split(s)[i] != ""
  }

  lemma {:induction false} CanonicalTextUnchanged(s: string)
    requires CanonicalText(s)
    ensures Normalized(s) == Some(s)
  {
    JoinSplit(s);
    CanonicalUnchanged(Split(s));
  }

  lemma {:induction false} NormalizedText(s: string)
    requires Normalized(s) == Some(s)
    ensures CanonicalText(s)
  {
    var lines := NormalizedIsCanonical(s);
    forall i | 0 <= i < |lines| ensures NoBreaks(lines[i]) {
      assert CleanAt(lines, i);
    }
    SplitJoin(lines);
  }

  lemma {:induction false} SplitHead(s: string)
    requires s != ""
    ensures Split(s) == if s[0] == '\n' then [""] + Split(s[1..])
                        else [[s[0]] + Split(s[1..])[0]] + Split(s[1..])[1..]
  {}

  lemma {:induction false} Regroup<T>(head: T, a: seq<T>, b: seq<T>)
    requires a != []
    ensures [head] + (a + b)[1..] == [head] + a[1..] + b
    ensures [head] + (a + b) == [head] + a + b
  {
    assert (a + b)[1..] == a[1..] + b;
  }

  lemma {:induction false} SplitConcat(a: string, b: string)
    ensures Split(a + "\n" + b) == Split(a) + Split(b)
  {
    var s := a + "\n" + b;
    SplitHead(s);
    if a == "" {
      assert s[1..] == b;
    } else {
      SplitConcat(a[1..], b);
      assert s[1..] == a[1..] + "\n" + b;
      SplitHead(a);
      Regroup(if a[0] == '\n' then "" else [a[0]] + Split(a[1..])[0], Split(a[1..]), Split(b));
    }
  }

  lemma {:induction false} SplitStep(c: char, t: string)
    requires c != '\n'
    ensures Split([c] + t)[0] == [c] + Split(t)[0] && Split([c] + t)[1..] == Split(t)[1..]
  {
    SplitHead([c] + t);
    assert ([c] + t)[1..] == t;
  }

  lemma {:induction false} SplitPrefix(p: string, s: string)
    requires NoBreaks(p)
    ensures Split(p + s)[0] == p + Split(s)[0] && Split(p + s)[1..] == Split(s)[1..]
  {
    if p == "" {
      assert p + s == s;
    } else {
      var tail := p[1..] + s;
      SplitPrefix(p[1..], s);
      SplitStep(p[0], tail);
      assert p + s == [p[0]] + tail;
      assert [p[0]] + (p[1..] + Split(s)[0]) == p + Split(s)[0];
    }
  }

  /** Canonical lines followed by canonical lines, with or without one blank line between them. */
  lemma {:induction false} CanonicalLines(a: seq<string>, blank: bool, b: seq<string>)
    requires Canonical(a) && Canonical(b)
    ensures Canonical(a + (if blank then [""] else []) + b)
  {
    var lines := a + (if blank then [""] else []) + b;
    forall i: nat {:trigger CleanAt(lines, i)} ensures CleanAt(lines, i) {
      assert CleanAt(a, i);
      if i >= |lines| - |b| {
        assert CleanAt(b, i - (|lines| - |b|));
      }
    }
  }

  lemma {:induction false} CanonicalBlank(a: string, b: string)
    requires CanonicalText(a) && CanonicalText(b)
    ensures CanonicalText(a + "\n\n" + b)
  {
    SplitConcat(a, "\n" + b);
    SplitConcat("", b);
    assert a + "\n\n" + b == a + "\n" + ("\n" + b) && "" + "\n" + b == "\n" + b;
    CanonicalLines(Split(a), true, Split(b));
    assert Split(a) + ([""] + Split(b)) == Split(a) + [""] + Split(b);
  }

  lemma {:induction false} CanonicalJoined(a: string, b: string)
    requires CanonicalText(a) && CanonicalText(b)
    ensures CanonicalText(a + "\n" + b)
  {
    SplitConcat(a, b);
    CanonicalLines(Split(a), false, Split(b));
    WithoutBlank(Split(a), Split(b));
  }

  lemma {:induction false} WithoutBlank(a: seq<string>, b: seq<string>)
    ensures a + (if false then [""] else []) + b == a + b
  {}

  lemma {:induction false} PrefixedLine(p: string, line: string)
    requires CleanLine(line) && line != "" && NoBreaks(p)
    ensures CleanLine(p + line)
    ensures EndsClean(IsSpace, line) ==> EndsClean(IsSpace, p + line)
  {
    assert (p + line)[|p + line| - 1] == line[|line| - 1];
    var i :| 0 <= i < |line| && !IsSpace(line[i]);
    assert (p + line)[|p| + i] == line[i];
  }

  lemma {:induction false} PrefixedLines(p: string, lines: seq<string>)
    requires Canonical(lines) && p != "" && NoBreaks(p) && !IsSpace(p[0])
    ensures Canonical([p + lines[0]] + lines[1..])
  {
    var longer := [p + lines[0]] + lines[1..];
    assert CleanAt(lines, 0);
    PrefixedLine(p, lines[0]);
    forall i: nat {:trigger CleanAt(longer, i)} ensures CleanAt(longer, i) {
      assert CleanAt(lines, i);
      assert 0 < i < |longer| ==> longer[i] == lines[i];
      assert i + 1 < |longer| ==> longer[i + 1] == lines[i + 1];
    }
    assert |lines| > 1 ==> longer[|longer| - 1] == lines[|lines| - 1];
  }

  /** A visible prefix without line breaks keeps a normalized text one. */
  lemma {:induction false} CanonicalPrefix(p: string, s: string)
    requires CanonicalText(s) && p != "" && NoBreaks(p) && !IsSpace(p[0])
    ensures CanonicalText(p + s)
  {
    SplitPrefix(p, s);
    assert Split(p + s) == [p + Split(s)[0]] + Split(s)[1..];
    PrefixedLines(p, Split(s));
  }

  lemma {:induction false} SingleLine(line: string)
    requires line != "" && NoBreaks(line) && !IsSpace(line[0]) && !IsSpace(line[|line| - 1])
    ensures Paragraph(line)
  {
    SplitLine(line);
    assert CleanAt([line], 0);
  }

  lemma {:induction false} CanonicalTrimmed(s: string)
    requires CanonicalText(s)
    ensures s != "" && !IsSpace(s[0]) && !IsSpace(s[|s| - 1]) && TrimSpace(s) == s
  {
    JoinSplit(s);
    FirstLineFirst(Split(s));
    LastLineLast(Split(s));
  }

  // ---------------------------------------------------------------- no blank line inside a paragraph

  predicate BlankLineAt(s: string, i: nat) {
    i + 1 < |s| && s[i] == '\n' && s[i + 1] == '\n'
  }

  /** Neither two line breaks in a row nor one at the end. */
  ghost predicate Compact(s: string) {
    (s != "" ==> s[|s| - 1] != '\n') && forall i: nat :: !BlankLineAt(s, i)
  }

  lemma {:induction false} LinesCompact(s: string)
    requires forall i :: 1 <= i < |Split(s)| ==> Split(s)[i] != ""
    ensures Compact(s)
  {
    if s != "" {
      SplitHead(s);
      forall i | 1 <= i < |Split(s[1..])| ensures Split(s[1..])[i] != "" {
        if s[0] == '\n' {
          assert Split(s)[i + 1] == Split(s[1..])[i];
        } else {
          assert Split(s)[i] == Split(s)[1..][i - 1] == Split(s[1..])[1..][i - 1];
        }
      }
      LinesCompact(s[1..]);
      if s[0] == '\n' {
        assert Split(s)[1] == Split(s[1..])[0];
        assert s[1..] != "";
        SplitHead(s[1..]);
      }
      forall i: nat {:trigger BlankLineAt(s, i)} ensures !BlankLineAt(s, i) {
        assert i > 0 ==> !BlankLineAt(s[1..], i - 1);
      }
    }
  }

  lemma {:induction false} ParagraphCompact(s: string)
    requires Paragraph(s)
    ensures Compact(s)
  {
    LinesCompact(s);
  }

  // ---------------------------------------------------------------- finding a section

  lemma {:induction false} IndexCons(c: char, s: string, pattern: string)
    requires !(pattern <= [c] + s)
    ensures IndexOf([c] + s, pattern) == if IndexOf(s, pattern) < 0 then -1 else IndexOf(s, pattern) + 1
  {
    assert ([c] + s)[1..] == s;
  }

  lemma {:induction false} CompactTail(a: string)
    requires Compact(a) && a != ""
    ensures Compact(a[1..]) && !BlankLineAt(a, 0)
  {
    var tail := a[1..];
    forall i: nat {:trigger BlankLineAt(tail, i)} ensures !BlankLineAt(tail, i) {
      assert !BlankLineAt(a, i + 1);
    }
  }

  lemma {:induction false} NoMatchInside(a: string, rest: string, heading: string)
    requires Compact(a) && a != ""
    ensures !("\n\n" + heading <= a + "\n\n" + rest)
  {
    var pattern, s := "\n\n" + heading, a + "\n\n" + rest;
    CompactTail(a);
    assert s[0] == a[0] && (|a| >= 2 ==> s[1] == a[1]);
    assert pattern[0] == '\n' && pattern[1] == '\n' && (s[0] != '\n' || s[1] != '\n');
  }

  lemma {:induction false} IndexAtBreak(rest: string, heading: string)
    requires rest != "" && rest[0] != '\n'
    ensures var index, later := IndexOf("\n\n" + rest, "\n\n" + heading), IndexOf(rest, "\n\n" + heading);
      index == if heading <= rest then 0 else if later < 0 then -1 else 2 + later
  {
    var pattern, s := "\n\n" + heading, "\n\n" + rest;
    PrefixOfBoth("\n\n", heading, rest);
    if !(heading <= rest) {
      assert s == ['\n'] + (['\n'] + rest);
      assert pattern[1] == '\n' && (['\n'] + rest)[1] != '\n';
      IndexCons('\n', ['\n'] + rest, pattern);
      IndexCons('\n', rest, pattern);
    }
  }

  lemma {:induction false} PrefixOfBoth(p: string, a: string, b: string)
    ensures p + a <= p + b <==> a <= b
  {
    if p + a <= p + b {
      assert a == (p + a)[|p|..] && b == (p + b)[|p|..];
    }
  }

  lemma {:induction false} HeadOff(a: string, rest: string)
    requires a != ""
    ensures a + "\n\n" + rest == [a[0]] + (a[1..] + "\n\n" + rest)
  {}

  /** A blank line and a heading do not begin inside a compact text, only right behind it or later. */
  lemma {:induction false} IndexBehind(a: string, rest: string, heading: string)
    requires Compact(a) && rest != "" && rest[0] != '\n'
    ensures var index, later := IndexOf(a + "\n\n" + rest, "\n\n" + heading), IndexOf(rest, "\n\n" + heading);
      index == if heading <= rest then |a| else if later < 0 then -1 else |a| + 2 + later
  {
    if a == "" {
      assert a + "\n\n" + rest == "\n\n" + rest;
      IndexAtBreak(rest, heading);
    } else {
      CompactTail(a);
      IndexBehind(a[1..], rest, heading);
      NoMatchInside(a, rest, heading);
      HeadOff(a, rest);
      IndexCons(a[0], a[1..] + "\n\n" + rest, "\n\n" + heading);
    }
  }

  /** Without a blank line behind it there is none at all. */
  lemma {:induction false} NoIndex(a: string)
    requires Compact(a)
    ensures IndexOf(a, "\n\n") == -1
  {
    if a != "" {
      CompactTail(a);
      NoIndex(a[1..]);
    }
  }

  // ---------------------------------------------------------------- one section and what follows

  /** Titles are short lines without a colon, so a heading decides its title. */
  predicate TitleOk(title: string) {
    title != "" && NoBreaks(title) && !IsSpace(title[0]) && ':' !in title
  }

  function FirstColon(s: string): nat {
    if s == "" || s[0] == ':' then 0 else 1 + FirstColon(s[1..])
  }

  lemma {:induction false} ColonEndsTitle(title: string, x: string)
    requires ':' !in title
    ensures FirstColon(title + ":\n" + x) == |title|
  {
    if title != "" {
      ColonEndsTitle(title[1..], x);
      assert (title + ":\n" + x)[1..] == title[1..] + ":\n" + x;
    }
  }

  lemma {:induction false} TitleDecides(a: string, b: string, x: string)
    requires ':' !in a && ':' !in b && b + ":\n" <= a + ":\n" + x
    ensures a == b
  {
    var s := a + ":\n" + x;
    var y := s[|b| + 2..];
    assert s == b + ":\n" + y;
    ColonEndsTitle(a, x);
    ColonEndsTitle(b, y);
    assert a == s[..|a|] && b == s[..|b|];
  }

  function Continued(text: string, rest: string): string {
    if rest == "" then text else text + "\n\n" + rest
  }

  lemma {:induction false} SectionCanonical(title: string, body: string)
    requires TitleOk(title) && CanonicalText(body)
    ensures CanonicalText(SectionText(title, body))
  {
    SingleLine(title + ":");
    CanonicalJoined(title + ":", body);
    assert SectionText(title, body) == title + ":" + "\n" + body;
  }

  /** No paragraph of the text, other than the first, begins with the heading of this title. */
  predicate Free(text: string, title: string) {
    IndexOf(text + "\n", "\n\n" + title + ":\n") < 0
  }

  lemma {:induction false} FreeTail(a: string, title: string)
    requires a != "" && Free(a, title)
    ensures !("\n\n" + title + ":\n" <= a + "\n") && Free(a[1..], title)
  {
    assert (a + "\n")[1..] == a[1..] + "\n";
  }

  /** A free text stays free behind a heading, as long as it does not begin with a line break. */
  lemma {:induction false} FreeBehind(p: string, text: string, title: string)
    requires Free(text, title) && NoBreaks(p) && text != "" && text[0] != '\n'
    ensures Free(p + "\n" + text, title)
  {
    var pattern, s := "\n\n" + title + ":\n", p + "\n" + text + "\n";
    if p == "" {
      assert s == ['\n'] + (text + "\n");
      assert s[1] == text[0] && pattern[1] == '\n';
      IndexCons('\n', text + "\n", pattern);
    } else {
      FreeBehind(p[1..], text, title);
      assert s == [p[0]] + (p[1..] + "\n" + text + "\n");
      assert s[0] != '\n' && pattern[0] == '\n';
      IndexCons(p[0], p[1..] + "\n" + text + "\n", pattern);
    }
  }

  /** A heading does not begin inside the end of a text and reach across the blank line behind it. */
  lemma {:induction false} NoMatchAcross(a: string, rest: string, title: string)
    requires a != "" && TitleOk(title) && !("\n\n" + title + ":\n" <= a + "\n")
    requires a[|a| - 1] != '\n'
    ensures !("\n\n" + title + ":\n" <= a + "\n\n" + rest)
  {
    var pattern, s := "\n\n" + title + ":\n", a + "\n\n" + rest;
    assert s == (a + "\n") + ("\n" + rest);
    if pattern <= s {
      PrefixOfFirst(pattern, a + "\n", "\n" + rest);
      assert s[|a|] == '\n' && s[|a| + 1] == '\n';
      NewlinesOf(title, |a|);
    }
  }

  lemma {:induction false} PrefixOfFirst(p: string, a: string, b: string)
    requires p <= a + b
    ensures |p| <= |a| ==> p <= a
  {
    if |p| <= |a| {
      assert p == (a + b)[..|p|] == a[..|p|];
    }
  }

  /** Behind its first two characters, a heading's pattern has no two line breaks in a row. */
  lemma {:induction false} NewlinesOf(title: string, k: nat)
    requires TitleOk(title) && 1 <= k && k + 1 < |title| + 4
    ensures var pattern := "\n\n" + title + ":\n"; !(pattern[k] == '\n' && pattern[k + 1] == '\n')
  {
    var pattern := "\n\n" + title + ":\n";
    if k == 1 {
      assert pattern[2] == title[0];
    } else if k < |title| + 2 {
      assert pattern[k] == title[k - 2];
    } else {
      assert pattern[k] == ':';
    }
  }

  /** Looking for a heading passes over a text that is free of it. */
  lemma {:induction false} IndexPast(a: string, rest: string, title: string)
    requires TitleOk(title) && Free(a, title) && (a != "" ==> a[|a| - 1] != '\n') && rest != "" && rest[0] != '\n'
    ensures var heading := title + ":\n";
      var index, later := IndexOf(a + "\n\n" + rest, "\n\n" + heading), IndexOf(rest, "\n\n" + heading);
      index == if heading <= rest then |a| else if later < 0 then -1 else |a| + 2 + later
  {
    var heading := title + ":\n";
    assert "\n\n" + heading == "\n\n" + title + ":\n";
    if a == "" {
      assert a + "\n\n" + rest == "\n\n" + rest;
      IndexAtBreak(rest, heading);
    } else {
      FreeTail(a, title);
      NoMatchAcross(a, rest, title);
      IndexPast(a[1..], rest, title);
      HeadOff(a, rest);
      IndexCons(a[0], a[1..] + "\n\n" + rest, "\n\n" + heading);
    }
  }

  lemma {:induction false} SectionStarts(title: string, body: string, rest: string)
    ensures SectionIndex(Continued(SectionText(title, body), rest), title) == 0
  {
    var value := Continued(SectionText(title, body), rest);
    assert title + ":\n" == value[..|title| + 2];
  }

  /** Looking for another title passes over the first section, if its body is free of that title's heading. */
  lemma {:induction false} SectionPassed(title: string, body: string, rest: string, wanted: string)
    requires TitleOk(title) && TitleOk(wanted) && wanted != title && CanonicalText(body) && Free(body, wanted)
    requires rest != "" && rest[0] != '\n'
    ensures var text, later := SectionText(title, body), SectionIndex(rest, wanted);
      SectionIndex(Continued(text, rest), wanted) == if later < 0 then -1 else |text| + 2 + later
  {
    var text := SectionText(title, body);
    CanonicalTrimmed(body);
    FreeBehind(title + ":", body, wanted);
    assert text == title + ":" + "\n" + body;
    IndexPast(text, rest, wanted);
    OtherHeading(title, body, rest, wanted);
  }

  lemma {:induction false} OtherHeading(title: string, body: string, rest: string, wanted: string)
    requires TitleOk(title) && TitleOk(wanted) && wanted != title
    ensures !(wanted + ":\n" <= Continued(SectionText(title, body), rest))
  {
    var behind := if rest == "" then body else body + "\n\n" + rest;
    assert Continued(SectionText(title, body), rest) == title + ":\n" + behind;
    if wanted + ":\n" <= title + ":\n" + behind {
      TitleDecides(title, wanted, behind);
    }
  }

  /** The value of a section ends where the next section begins. */
  lemma {:induction false} SectionEnds(value: string, title: string, body: string, rest: string)
    requires CanonicalText(body) && Compact(body) && (rest != "" ==> rest[0] != '\n')
    requires SectionIndex(value, title) >= 0
    requires SectionIndex(value, title) + |title| + 2 <= |value|
    requires value[SectionIndex(value, title) + |title| + 2..] == Continued(body, rest)
    ensures SectionValue(value, title) == Some(body)
  {
    CanonicalTrimmed(body);
    if rest == "" {
      NoIndex(body);
    } else {
      IndexBehind(body, rest, "");
      assert "\n\n" + "" == "\n\n";
      assert Continued(body, rest)[..|body|] == body;
    }
  }

  // ---------------------------------------------------------------- rendered entries

  ghost predicate TidyAt(entries: seq<Entry>, i: nat) {
    i < |entries| ==> TitleOk(entries[i].title) && (entries[i].body.Some? ==> CanonicalText(entries[i].body.value))
  }

  /** The body of one entry contains no heading of a later one. */
  predicate FreeAt(entries: seq<Entry>, i: nat, j: nat) {
    i < j < |entries| && entries[i].body.Some? ==> Free(entries[i].body.value, entries[j].title)
  }

  ghost predicate FreeOfLater(entries: seq<Entry>) {
    forall i: nat, j: nat :: FreeAt(entries, i, j)
  }

  ghost predicate Tidy(entries: seq<Entry>) {
    && (forall i: nat :: TidyAt(entries, i)) && FreeOfLater(entries)
    && (forall i, j :: 0 <= i < j < |entries| ==> entries[i].title != entries[j].title)
  }

  lemma {:induction false} TidyTail(entries: seq<Entry>)
    requires Tidy(entries) && entries != []
    ensures Tidy(entries[1..]) && TidyAt(entries, 0)
  {
    var tail := entries[1..];
    forall i: nat {:trigger TidyAt(tail, i)} ensures TidyAt(tail, i) {
      assert TidyAt(entries, i + 1);
    }
    forall i: nat, j: nat {:trigger FreeAt(tail, i, j)} ensures FreeAt(tail, i, j) {
      assert FreeAt(entries, i + 1, j + 1);
    }
  }

  lemma {:induction false} RenderedHead(entries: seq<Entry>)
    requires Tidy(entries) && entries != []
    ensures Rendered(entries) ==
      if entries[0].body.None? then Rendered(entries[1..])
      else Continued(SectionText(entries[0].title, entries[0].body.value), Rendered(entries[1..]))
  {
    TidyTail(entries);
    RenderedEmpty(entries[1..]);
  }

  lemma {:induction false} RenderedEmpty(entries: seq<Entry>)
    requires Tidy(entries)
    ensures Rendered(entries) == "" <==> Sections(entries) == []
    ensures Rendered(entries) != "" ==> Rendered(entries)[0] != '\n'
  {
    if entries != [] {
      TidyTail(entries);
      if entries[0].body.None? {
        RenderedEmpty(entries[1..]);
      }
    }
  }

  /** Printing gives a normalized text. */
  lemma {:induction false} RenderedCanonical(entries: seq<Entry>)
    requires Tidy(entries) && Rendered(entries) != ""
    ensures CanonicalText(Rendered(entries))
  {
    if entries != [] {
      TidyTail(entries);
      RenderedHead(entries);
      var rest := Rendered(entries[1..]);
      if entries[0].body.Some? {
        SectionCanonical(entries[0].title, entries[0].body.value);
      }
      if rest != "" {
        RenderedCanonical(entries[1..]);
        if entries[0].body.Some? {
          CanonicalBlank(SectionText(entries[0].title, entries[0].body.value), rest);
        }
      }
    }
  }

  /** Where entry `n` is printed. */
  function Offset(entries: seq<Entry>, n: nat): nat
    requires n < |entries|
  {
    if n == 0 then 0
    else
      (if entries[0].body.Some? then |SectionText(entries[0].title, entries[0].body.value)| + 2 else 0)
      + Offset(entries[1..], n - 1)
  }

  lemma {:induction false} BehindHead(head: string, tail: string, offset: nat)
    requires tail != "" && offset <= |tail|
    ensures Continued(head, tail)[|head| + 2 + offset..] == tail[offset..]
  {}

  /** The text from a printed entry on is what printing from that entry on gives. */
  lemma {:induction false} PrintedAt(entries: seq<Entry>, n: nat)
    requires Tidy(entries) && n < |entries| && entries[n].body.Some?
    ensures Offset(entries, n) < |Rendered(entries)|
    ensures Rendered(entries)[Offset(entries, n)..] == Rendered(entries[n..])
  {
    TidyTail(entries);
    RenderedHead(entries);
    if n == 0 {
      assert entries[0..] == entries;
    } else {
      PrintedAt(entries[1..], n - 1);
      assert entries[1..][n - 1..] == entries[n..];
      if entries[0].body.Some? {
        BehindHead(SectionText(entries[0].title, entries[0].body.value), Rendered(entries[1..]),
                   Offset(entries[1..], n - 1));
      }
    }
  }

  /** The search passes over the first entry. */
  lemma {:induction false} HeadPassed(entries: seq<Entry>, n: nat)
    requires Tidy(entries) && 0 < n < |entries| && entries[n].body.Some? && entries[0].body.Some?
    ensures var head, later := entries[0], SectionIndex(Rendered(entries[1..]), entries[n].title);
      SectionIndex(Rendered(entries), entries[n].title)
        == if later < 0 then -1 else |SectionText(head.title, head.body.value)| + 2 + later
  {
    TidyTail(entries);
    RenderedHead(entries);
    PrintedAt(entries[1..], n - 1);
    RenderedEmpty(entries[1..]);
    assert TidyAt(entries, n) && FreeAt(entries, 0, n);
    SectionPassed(entries[0].title, entries[0].body.value, Rendered(entries[1..]), entries[n].title);
  }

  /** The search finds exactly the entry that was printed under the title. */
  lemma {:induction false} SectionFound(entries: seq<Entry>, n: nat)
    requires Tidy(entries) && n < |entries| && entries[n].body.Some?
    ensures SectionIndex(Rendered(entries), entries[n].title) == Offset(entries, n)
  {
    TidyTail(entries);
    RenderedHead(entries);
    if n == 0 {
      SectionStarts(entries[0].title, entries[0].body.value, Rendered(entries[1..]));
    } else {
      SectionFound(entries[1..], n - 1);
      if entries[0].body.Some? {
        HeadPassed(entries, n);
      }
    }
  }

  lemma {:induction false} SliceOfSlice(text: string, from: nat, more: nat)
    requires from + more <= |text|
    ensures text[from..][more..] == text[from + more..]
  {}

  /** Behind its heading stands the body of a printed entry, then what the entries after it print. */
  lemma {:induction false} BodyPrinted(entries: seq<Entry>, n: nat)
    requires Tidy(entries) && n < |entries| && entries[n].body.Some?
    ensures var value, behind := Rendered(entries), Offset(entries, n) + |entries[n].title| + 2;
            && behind <= |value|
            && value[behind..] == Continued(entries[n].body.value, Rendered(entries[n..][1..]))
  {
    var title, body := entries[n].title, entries[n].body.value;
    PrintedAt(entries, n);
    TidyFrom(entries, n);
    RenderedHead(entries[n..]);
    ContinuedSection(title, body, Rendered(entries[n..][1..]));
    SliceOfSlice(Rendered(entries), Offset(entries, n), |title| + 2);
  }

  /** And reads back its body, if that has no blank line. */
  lemma {:induction false} SectionRead(entries: seq<Entry>, n: nat)
    requires Tidy(entries) && n < |entries| && entries[n].body.Some? && Compact(entries[n].body.value)
    ensures SectionValue(Rendered(entries), entries[n].title) == entries[n].body
  {
    SectionFound(entries, n);
    BodyPrinted(entries, n);
    assert TidyAt(entries, n);
    TidyFrom(entries, n);
    TidyTail(entries[n..]);
    RenderedEmpty(entries[n..][1..]);
    SectionEnds(Rendered(entries), entries[n].title, entries[n].body.value, Rendered(entries[n..][1..]));
  }

  // ---------------------------------------------------------------- sections that are not printed

  ghost predicate NoBlankLine(s: string) {
    forall i: nat :: !BlankLineAt(s, i)
  }

  lemma {:induction false} NowhereInside(s: string, x: string)
    requires NoBlankLine(s)
    ensures IndexOf(s, "\n\n" + x) < 0
  {
    if "\n\n" + x <= s {
      assert s[0] == ("\n\n" + x)[0] && s[1] == ("\n\n" + x)[1];
      assert BlankLineAt(s, 0);
    }
    if s != "" {
      forall i: nat {:trigger BlankLineAt(s[1..], i)} ensures !BlankLineAt(s[1..], i) {
        assert !BlankLineAt(s, i + 1);
      }
      NowhereInside(s[1..], x);
    }
  }

  /** A text without blank lines is free of every heading. */
  lemma {:induction false} CompactIsFree(text: string, title: string)
    requires Compact(text)
    ensures Free(text, title)
  {
    var s := text + "\n";
    forall i: nat {:trigger BlankLineAt(s, i)} ensures !BlankLineAt(s, i) {
      assert !BlankLineAt(text, i);
    }
    NowhereInside(s, title + ":\n");
    assert "\n\n" + (title + ":\n") == "\n\n" + title + ":\n";
  }

  lemma {:induction false} HeadingKeepsNoBlankLine(title: string, body: string)
    requires TitleOk(title) && body != "" && body[0] != '\n' && NoBlankLine(body)
    ensures NoBlankLine(SectionText(title, body))
  {
    var s := SectionText(title, body);
    forall i: nat {:trigger BlankLineAt(s, i)} ensures !BlankLineAt(s, i) {
      if i < |title| {
        assert s[i] == title[i];
      } else if i >= |title| + 2 {
        assert !BlankLineAt(body, i - |title| - 2);
      }
    }
  }

  ghost predicate CompactAt(entries: seq<Entry>, i: nat) {
    i < |entries| && entries[i].body.Some? ==> Compact(entries[i].body.value)
  }

  /** No printed body has a blank line. */
  ghost predicate AllCompact(entries: seq<Entry>) {
    forall i: nat :: CompactAt(entries, i)
  }

  predicate Unprinted(entries: seq<Entry>, title: string) {
    forall i :: 0 <= i < |entries| && entries[i].body.Some? ==> entries[i].title != title
  }

  /** The heading of a section that is not printed occurs nowhere. */
  lemma {:induction false} SectionAbsent(entries: seq<Entry>, title: string)
    requires Tidy(entries) && AllCompact(entries) && TitleOk(title) && Unprinted(entries, title)
    ensures SectionIndex(Rendered(entries), title) == -1
    decreases |entries|
  {
    if entries != [] {
      TidyTail(entries);
      RenderedHead(entries);
      forall i: nat {:trigger CompactAt(entries[1..], i)} ensures CompactAt(entries[1..], i) {
        assert CompactAt(entries, i + 1);
      }
      SectionAbsent(entries[1..], title);
      if entries[0].body.Some? {
        assert CompactAt(entries, 0);
        HeadAbsent(entries[0].title, entries[0].body.value, Rendered(entries[1..]), title);
        RenderedEmpty(entries[1..]);
        if Rendered(entries[1..]) != "" {
          CompactIsFree(entries[0].body.value, title);
          SectionPassed(entries[0].title, entries[0].body.value, Rendered(entries[1..]), title);
        }
      }
    }
  }

  lemma {:induction false} HeadAbsent(title: string, body: string, rest: string, wanted: string)
    requires TitleOk(title) && TitleOk(wanted) && wanted != title && CanonicalText(body) && Compact(body)
    ensures rest == "" ==> SectionIndex(Continued(SectionText(title, body), rest), wanted) == -1
  {
    OtherHeading(title, body, rest, wanted);
    CanonicalTrimmed(body);
    HeadingKeepsNoBlankLine(title, body);
    NowhereInside(SectionText(title, body), wanted + ":\n");
  }

  /** Reading any heading out of the printed text gives the body that was printed under it, or nothing if it was not
      printed. */
  lemma {:induction false} SectionsReadBack(entries: seq<Entry>, n: nat)
    requires Tidy(entries) && AllCompact(entries) && n < |entries|
    ensures SectionValue(Rendered(entries), entries[n].title) == entries[n].body
  {
    assert TidyAt(entries, n) && CompactAt(entries, n);
    if entries[n].body.Some? {
      SectionRead(entries, n);
    } else {
      SectionAbsent(entries, entries[n].title);
    }
  }

  lemma {:induction false} ContinuedSection(title: string, body: string, rest: string)
    ensures var text := Continued(SectionText(title, body), rest);
      |text| >= |title| + 2 && text[|title| + 2..] == Continued(body, rest)
  {}

  lemma {:induction false} TidyFrom(entries: seq<Entry>, n: nat)
    requires Tidy(entries) && n <= |entries|
    ensures Tidy(entries[n..])
  {
    var tail := entries[n..];
    forall i: nat {:trigger TidyAt(tail, i)} ensures TidyAt(tail, i) {
      assert TidyAt(entries, i + n);
    }
    forall i: nat, j: nat {:trigger FreeAt(tail, i, j)} ensures FreeAt(tail, i, j) {
      assert FreeAt(entries, i + n, j + n);
    }
  }

  lemma {:induction false} OffsetsIncrease(entries: seq<Entry>, m: nat, n: nat)
    requires m < n < |entries| && entries[m].body.Some?
    ensures Offset(entries, m) < Offset(entries, n)
  {
    if m > 0 {
      OffsetsIncrease(entries[1..], m - 1, n - 1);
    }
  }

  // ---------------------------------------------------------------- recognising

  /** Every title is found, each one behind the one before. */
  predicate InOrder(value: string, titles: seq<string>) {
    forall i :: 0 <= i < |titles| ==> BehindPrevious(value, titles, i)
  }

  predicate BehindPrevious(value: string, titles: seq<string>, i: nat)
    requires i < |titles|
  {
    SectionIndex(value, titles[i]) > if i == 0 then -1 else SectionIndex(value, titles[i - 1])
  }

  lemma {:induction false} FoundInOrder(entries: seq<Entry>, m: nat, n: nat)
    requires Tidy(entries) && m < n < |entries| && entries[m].body.Some? && entries[n].body.Some?
    ensures SectionIndex(Rendered(entries), entries[m].title) < SectionIndex(Rendered(entries), entries[n].title)
  {
    SectionFound(entries, m);
    SectionFound(entries, n);
    OffsetsIncrease(entries, m, n);
  }
}
