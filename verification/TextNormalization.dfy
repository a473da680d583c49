/** Text normalization: line breaks, trailing blanks, runs of blank lines, surrounding white space. */
module TextNormalization {
  import opened Wrappers

  /** White space as Unicode defines it for trimming. */
  predicate IsSpace(c: char) {
    || '\t' <= c <= '\r' || c == ' ' || c == '\U{0085}' || c == '\U{00A0}' || c == '\U{1680}'
    || '\U{2000}' <= c <= '\U{200A}' || c == '\U{2028}' || c == '\U{2029}' || c == '\U{202F}' || c == '\U{205F}'
    || c == '\U{3000}'
  }

  predicate IsBlank(c: char) {
    c == ' ' || c == '\t'
  }

  predicate IsBreak(c: char) {
    c == '\n' || c == '\r'
  }

  function TrimRightBy(cut: char -> bool, s: string): string {
    if s != "" && cut(s[|s| - 1]) then TrimRightBy(cut, s[..|s| - 1]) else s
  }

  function TrimLeftBy(cut: char -> bool, s: string): string {
    if s != "" && cut(s[0]) then TrimLeftBy(cut, s[1..]) else s
  }

  function TrimSpace(s: string): string {
    TrimLeftBy(IsSpace, TrimRightBy(IsSpace, s))
  }

  /** The effect of replacing every "\r\n" by "\n". */
  function ReplaceCrLf(s: string): string {
    if s == "" then ""
    else if |s| >= 2 && s[0] == '\r' && s[1] == '\n' then "\n" + ReplaceCrLf(s[2..])
    else [s[0]] + ReplaceCrLf(s[1..])
  }

  function ReplaceCr(s: string): string {
    if s == "" then "" else [if s[0] == '\r' then '\n' else s[0]] + ReplaceCr(s[1..])
  }

  function Split(s: string): (lines: seq<string>)
    ensures lines != []
  {
    if s == "" then [""]
    else
      var rest := Split(s[1..]);
      if s[0] == '\n' then [""] + rest else [[s[0]] + rest[0]] + rest[1..]
  }

  function JoinLines(lines: seq<string>): string {
    if lines == [] then ""
    else if |lines| == 1 then lines[0]
    else lines[0] + "\n" + JoinLines(lines[1..])
  }

  /** A blank line is kept only between lines that are not blank, and only once. */
  function Kept(lines: seq<string>): seq<string> {
    if lines == [] then []
    else
      var kept := Kept(lines[..|lines| - 1]);
      var line := TrimRightBy(IsBlank, lines[|lines| - 1]);
      if TrimSpace(line) != "" then kept + [line]
      else if kept == [] || kept[|kept| - 1] == "" then kept
      else kept + [""]
  }

  function WithoutTrailingBlank(lines: seq<string>): seq<string> {
    if lines != [] && lines[|lines| - 1] == "" then WithoutTrailingBlank(lines[..|lines| - 1]) else lines
  }

  /** The normalized text, or nothing for an input that is all white space. */
  function Normalized(input: string): Option<string> {
    var value := TrimSpace(JoinLines(WithoutTrailingBlank(Kept(Split(ReplaceCr(ReplaceCrLf(input)))))));
    if value == "" then None else Some(value)
  }

  /** One more line, which is kept unless it is blank and nothing or another blank line precedes it. */
  lemma {:induction false} KeptNext(lines: seq<string>, i: nat)
    requires i < |lines|
    ensures var kept, line := Kept(lines[..i]), TrimRightBy(IsBlank, lines[i]);
            Kept(lines[..i + 1]) ==
              if TrimSpace(line) != "" then kept + [line]
              else if kept == [] || kept[|kept| - 1] == "" then kept
              else kept + [""]
  {
    assert lines[..i + 1][..i] == lines[..i];
  }

  lemma {:induction false} TextRemains(line: string)
    requires TrimSpace(line) != ""
    ensures line != ""
  {}

  method Normalize(input: string) returns (result: Option<string>)
    ensures result == Normalized(input)
  {
    var lines := Split(ReplaceCr(ReplaceCrLf(input)));
    var out: seq<string> := [];
    var blank := false;
    for i := 0 to |lines|
      invariant out == Kept(lines[..i])
      invariant blank <==> out != [] && out[|out| - 1] == ""
    {
      KeptNext(lines, i);
      var line := TrimRightBy(IsBlank, lines[i]);
      if TrimSpace(line) == "" {
        if !blank && |out| > 0 {
          blank := true;
          out := out + [""];
        }
      } else {
        TextRemains(line);
        blank := false;
        out := out + [line];
      }
    }
    assert lines[..|lines|] == lines;
    ghost var kept := out;
    while |out| > 0 && out[|out| - 1] == ""
      invariant WithoutTrailingBlank(out) == WithoutTrailingBlank(kept)
      decreases |out|
    {
      out := out[..|out| - 1];
    }
    var value := TrimSpace(JoinLines(out));
    result := if value == "" then None else Some(value);
  }

  // ---------------------------------------------------------------- trimming

  predicate EndsClean(cut: char -> bool, s: string) {
    s != "" ==> !cut(s[|s| - 1])
  }

  predicate StartsClean(cut: char -> bool, s: string) {
    s != "" ==> !cut(s[0])
  }

  lemma {:induction false} TrimRightEnds(cut: char -> bool, s: string)
    ensures EndsClean(cut, TrimRightBy(cut, s))
    ensures TrimRightBy(cut, s) <= s
  {
    if s != "" && cut(s[|s| - 1]) {
      TrimRightEnds(cut, s[..|s| - 1]);
    }
  }

  lemma {:induction false} TrimLeftStarts(cut: char -> bool, s: string)
    ensures StartsClean(cut, TrimLeftBy(cut, s))
    ensures |TrimLeftBy(cut, s)| <= |s| && TrimLeftBy(cut, s) == s[|s| - |TrimLeftBy(cut, s)|..]
  {
    if s != "" && cut(s[0]) {
      TrimLeftStarts(cut, s[1..]);
    }
  }

  /** Trimming the end of a text only touches its last part, if something of that part remains. */
  lemma {:induction false} TrimRightAppend(cut: char -> bool, a: string, b: string)
    requires TrimRightBy(cut, b) != ""
    ensures TrimRightBy(cut, a + b) == a + TrimRightBy(cut, b)
    decreases |b|
  {
    if cut(b[|b| - 1]) {
      TrimRightAppend(cut, a, b[..|b| - 1]);
      assert (a + b)[..|a + b| - 1] == a + b[..|b| - 1];
    }
  }

  lemma {:induction false} TrimLeftAppend(cut: char -> bool, a: string, b: string)
    requires TrimLeftBy(cut, a) != ""
    ensures TrimLeftBy(cut, a + b) == TrimLeftBy(cut, a) + b
    decreases |a|
  {
    if cut(a[0]) {
      TrimLeftAppend(cut, a[1..], b);
      assert (a + b)[1..] == a[1..] + b;
    }
  }

  /** Trimming both ends leaves nothing exactly when everything is white space. */
  lemma {:induction false} TrimSpaceEmpty(s: string)
    ensures TrimSpace(s) == "" <==> forall i :: 0 <= i < |s| ==> IsSpace(s[i])
    decreases |s|
  {
    if s != "" && IsSpace(s[|s| - 1]) {
      TrimSpaceEmpty(s[..|s| - 1]);
    } else if s != "" {
      LeftKeepsLast(s);
    }
  }

  lemma {:induction false} LeftKeepsLast(s: string)
    requires s != "" && !IsSpace(s[|s| - 1])
    ensures TrimLeftBy(IsSpace, s) != "" && TrimRightBy(IsSpace, s) == s
    decreases |s|
  {
    if IsSpace(s[0]) {
      LeftKeepsLast(s[1..]);
    }
  }

  // ---------------------------------------------------------------- lines

  predicate NoBreaks(line: string) {
    forall i :: 0 <= i < |line| ==> !IsBreak(line[i])
  }

  predicate Visible(line: string) {
    exists i :: 0 <= i < |line| && !IsSpace(line[i])
  }

  lemma {:induction false} VisibleIff(line: string)
    ensures Visible(line) <==> TrimSpace(line) != ""
  {
    TrimSpaceEmpty(line);
  }

  lemma {:induction false} SplitCons(line: string, rest: string)
    requires NoBreaks(line)
    ensures Split(line + "\n" + rest) == [line] + Split(rest)
  {
    var s := line + "\n" + rest;
    if line == "" {
      assert s[1..] == rest;
    } else {
      SplitCons(line[1..], rest);
      assert s[1..] == line[1..] + "\n" + rest;
      assert [line[0]] + line[1..] == line;
    }
  }

  lemma {:induction false} SplitLine(line: string)
    requires NoBreaks(line)
    ensures Split(line) == [line]
  {
    if line != "" {
      SplitLine(line[1..]);
      assert [line[0]] + line[1..] == line;
    }
  }

  lemma {:induction false} SplitJoin(lines: seq<string>)
    requires lines != [] && forall i :: 0 <= i < |lines| ==> NoBreaks(lines[i])
    ensures Split(JoinLines(lines)) == lines
  {
    if |lines| == 1 {
      SplitLine(lines[0]);
    } else {
      SplitJoin(lines[1..]);
      SplitCons(lines[0], JoinLines(lines[1..]));
    }
  }

  lemma {:induction false} JoinSplit(s: string)
    ensures JoinLines(Split(s)) == s
  {
    if s != "" {
      JoinSplit(s[1..]);
      var rest := Split(s[1..]);
      if s[0] == '\n' {
        assert ([""] + rest)[1..] == rest;
      } else {
        var lines := [[s[0]] + rest[0]] + rest[1..];
        assert lines[1..] == rest[1..];
      }
    }
  }

  predicate NoCr(s: string) {
    forall i :: 0 <= i < |s| ==> s[i] != '\r'
  }

  lemma {:induction false} ReplaceCrRemoves(s: string)
    ensures NoCr(ReplaceCr(s))
  {
    if s != "" {
      ReplaceCrRemoves(s[1..]);
    }
  }

  lemma {:induction false} ReplaceNothing(s: string)
    requires NoCr(s)
    ensures ReplaceCr(s) == s && ReplaceCrLf(s) == s
  {
    if s != "" {
      ReplaceNothing(s[1..]);
    }
  }

  lemma {:induction false} SplitBreaks(s: string)
    requires NoCr(s)
    ensures forall i :: 0 <= i < |Split(s)| ==> NoBreaks(Split(s)[i])
  {
    if s != "" {
      SplitBreaks(s[1..]);
    }
  }

  lemma {:induction false} JoinNoCr(lines: seq<string>)
    requires forall i :: 0 <= i < |lines| ==> NoBreaks(lines[i])
    ensures NoCr(JoinLines(lines))
  {
    if |lines| > 1 {
      JoinNoCr(lines[1..]);
    }
  }

  // ---------------------------------------------------------------- normal forms

  /** What every kept line looks like: no trailing blanks, and nothing at all if nothing is visible. */
  predicate CleanLine(line: string) {
    NoBreaks(line) && EndsClean(IsBlank, line) && (line == "" || Visible(line))
  }

  predicate CleanAt(lines: seq<string>, i: nat) {
    i < |lines| ==> CleanLine(lines[i]) && (i + 1 < |lines| && lines[i] == "" ==> lines[i + 1] != "")
  }

  ghost predicate CleanLines(lines: seq<string>) {
    && (lines != [] ==> lines[0] != "")
    && forall i: nat :: CleanAt(lines, i)
  }

  /** The lines of a normalized text. */
  ghost predicate Canonical(lines: seq<string>) {
    && lines != [] && CleanLines(lines)
    && lines[|lines| - 1] != ""
    && StartsClean(IsSpace, lines[0]) && EndsClean(IsSpace, lines[|lines| - 1])
  }

  lemma {:induction false} CleanAppend(lines: seq<string>, line: string)
    requires CleanLines(lines) && CleanLine(line)
    requires line == "" ==> lines != [] && lines[|lines| - 1] != ""
    ensures CleanLines(lines + [line])
  {
    var longer := lines + [line];
    forall i: nat {:trigger CleanAt(longer, i)} ensures CleanAt(longer, i) {
      assert CleanAt(lines, i);
    }
  }

  lemma {:induction false} CleanPrefix(lines: seq<string>, n: nat)
    requires CleanLines(lines) && n <= |lines|
    ensures CleanLines(lines[..n])
  {
    var prefix := lines[..n];
    forall i: nat {:trigger CleanAt(prefix, i)} ensures CleanAt(prefix, i) {
      assert CleanAt(lines, i);
    }
  }

  lemma {:induction false} TrimmedLineClean(line: string)
    requires NoBreaks(line)
    ensures var trimmed := TrimRightBy(IsBlank, line); TrimSpace(trimmed) != "" ==> CleanLine(trimmed)
  {
    TrimRightEnds(IsBlank, line);
    VisibleIff(TrimRightBy(IsBlank, line));
  }

  lemma {:induction false} KeptClean(lines: seq<string>)
    requires forall i :: 0 <= i < |lines| ==> NoBreaks(lines[i])
    ensures CleanLines(Kept(lines))
    decreases |lines|
  {
    if lines != [] {
      var init, last := lines[..|lines| - 1], lines[|lines| - 1];
      KeptClean(init);
      TrimmedLineClean(last);
      var line := TrimRightBy(IsBlank, last);
      if TrimSpace(line) != "" {
        CleanAppend(Kept(init), line);
      } else if Kept(init) != [] && Kept(init)[|Kept(init)| - 1] != "" {
        CleanAppend(Kept(init), "");
      }
    }
  }

  lemma {:induction false} WithoutTrailingBlankClean(lines: seq<string>)
    requires CleanLines(lines)
    ensures var out := WithoutTrailingBlank(lines);
      CleanLines(out) && (out != [] ==> out[|out| - 1] != "")
    decreases |lines|
  {
    if lines != [] && lines[|lines| - 1] == "" {
      CleanPrefix(lines, |lines| - 1);
      WithoutTrailingBlankClean(lines[..|lines| - 1]);
    }
  }

  /** Clean lines are all kept as they are. */
  lemma {:induction false} KeptUnchanged(lines: seq<string>)
    requires CleanLines(lines)
    ensures Kept(lines) == lines
    decreases |lines|
  {
    if lines != [] {
      var n := |lines| - 1;
      CleanPrefix(lines, n);
      KeptUnchanged(lines[..n]);
      assert CleanAt(lines, n);
      VisibleIff(lines[n]);
      if n > 0 {
        assert CleanAt(lines, n - 1);
      }
      assert lines == lines[..n] + [lines[n]];
    }
  }

  // ---------------------------------------------------------------- trimming a whole text

  /** Each line followed by a line break. */
  function Terminated(lines: seq<string>): string {
    if lines == [] then "" else lines[0] + "\n" + Terminated(lines[1..])
  }

  lemma {:induction false} JoinAsLast(lines: seq<string>)
    requires lines != []
    ensures JoinLines(lines) == Terminated(lines[..|lines| - 1]) + lines[|lines| - 1]
  {
    if |lines| > 1 {
      JoinAsLast(lines[1..]);
      assert lines[1..][..|lines| - 2] == lines[..|lines| - 1][1..];
    }
  }

  lemma {:induction false} VisibleTrimRight(s: string)
    requires Visible(s)
    ensures TrimRightBy(IsSpace, s) != "" && Visible(TrimRightBy(IsSpace, s))
  {
    if IsSpace(s[|s| - 1]) {
      var i :| 0 <= i < |s| && !IsSpace(s[i]);
      assert !IsSpace(s[..|s| - 1][i]);
      VisibleTrimRight(s[..|s| - 1]);
    }
  }

  lemma {:induction false} VisibleTrimLeft(s: string)
    requires Visible(s)
    ensures TrimLeftBy(IsSpace, s) != "" && Visible(TrimLeftBy(IsSpace, s))
  {
    if IsSpace(s[0]) {
      var i :| 0 <= i < |s| && !IsSpace(s[i]);
      assert !IsSpace(s[1..][i - 1]);
      VisibleTrimLeft(s[1..]);
    }
  }

  /** The lines after trimming the text: only the first one's start and the last one's end change. */
  function TrimmedRight(lines: seq<string>): seq<string>
    requires lines != []
  {
    lines[..|lines| - 1] + [TrimRightBy(IsSpace, lines[|lines| - 1])]
  }

  function TrimmedLeft(lines: seq<string>): seq<string>
    requires lines != []
  {
    [TrimLeftBy(IsSpace, lines[0])] + lines[1..]
  }

  lemma {:induction false} TrimRightText(lines: seq<string>)
    requires lines != [] && Visible(lines[|lines| - 1])
    ensures TrimRightBy(IsSpace, JoinLines(lines)) == JoinLines(TrimmedRight(lines))
  {
    VisibleTrimRight(lines[|lines| - 1]);
    JoinAsLast(lines);
    JoinAsLast(TrimmedRight(lines));
    assert TrimmedRight(lines)[..|lines| - 1] == lines[..|lines| - 1];
    TrimRightAppend(IsSpace, Terminated(lines[..|lines| - 1]), lines[|lines| - 1]);
  }

  lemma {:induction false} JoinAsFirst(lines: seq<string>)
    requires |lines| > 1
    ensures JoinLines(lines) == lines[0] + ("\n" + JoinLines(lines[1..]))
  {}

  lemma {:induction false} TrimLeftText(lines: seq<string>)
    requires lines != [] && Visible(lines[0])
    ensures TrimLeftBy(IsSpace, JoinLines(lines)) == JoinLines(TrimmedLeft(lines))
  {
    VisibleTrimLeft(lines[0]);
    if |lines| > 1 {
      TrimLeftAppend(IsSpace, lines[0], "\n" + JoinLines(lines[1..]));
      JoinAsFirst(lines);
      JoinAsFirst(TrimmedLeft(lines));
    }
  }

  lemma {:induction false} TrimmedRightClean(lines: seq<string>)
    requires lines != [] && CleanLines(lines) && lines[|lines| - 1] != ""
    ensures var out := TrimmedRight(lines);
      && |out| == |lines| && CleanLines(out)
      && out[|out| - 1] != "" && EndsClean(IsSpace, out[|out| - 1])
  {
    var n := |lines| - 1;
    assert CleanAt(lines, n);
    VisibleTrimRight(lines[n]);
    TrimRightEnds(IsSpace, lines[n]);
    var out := TrimmedRight(lines);
    forall i: nat {:trigger CleanAt(out, i)} ensures CleanAt(out, i) {
      assert CleanAt(lines, i);
    }
  }

  lemma {:induction false} TrimmedLeftClean(lines: seq<string>)
    requires lines != [] && CleanLines(lines)
    requires lines[|lines| - 1] != "" && EndsClean(IsSpace, lines[|lines| - 1])
    ensures Canonical(TrimmedLeft(lines))
  {
    assert CleanAt(lines, 0);
    VisibleTrimLeft(lines[0]);
    TrimLeftStarts(IsSpace, lines[0]);
    var out := TrimmedLeft(lines);
    forall i: nat {:trigger CleanAt(out, i)} ensures CleanAt(out, i) {
      assert CleanAt(lines, i);
    }
  }

  // ---------------------------------------------------------------- idempotence

  /** What normalization returns consists of canonical lines. */
  lemma {:induction false} NormalizedIsCanonical(input: string) returns (lines: seq<string>)
    requires Normalized(input).Some?
    ensures Canonical(lines) && JoinLines(lines) == Normalized(input).value
  {
    var unified := ReplaceCr(ReplaceCrLf(input));
    ReplaceCrRemoves(ReplaceCrLf(input));
    SplitBreaks(unified);
    KeptClean(Split(unified));
    var kept := WithoutTrailingBlank(Kept(Split(unified)));
    WithoutTrailingBlankClean(Kept(Split(unified)));
    assert CleanAt(kept, |kept| - 1) && CleanAt(kept, 0);
    TrimRightText(kept);
    TrimmedRightClean(kept);
    lines := TrimmedRight(kept);
    assert CleanAt(lines, 0);
    TrimLeftText(lines);
    TrimmedLeftClean(lines);
    lines := TrimmedLeft(lines);
  }

  lemma {:induction false} FirstLineFirst(lines: seq<string>)
    requires lines != [] && lines[0] != ""
    ensures JoinLines(lines) != "" && JoinLines(lines)[0] == lines[0][0]
  {}

  lemma {:induction false} LastLineLast(lines: seq<string>)
    requires lines != [] && lines[|lines| - 1] != ""
    ensures var text, last := JoinLines(lines), lines[|lines| - 1];
      text != "" && text[|text| - 1] == last[|last| - 1]
  {
    if |lines| > 1 {
      LastLineLast(lines[1..]);
    }
  }

  /** Canonical lines are a fixed point. */
  lemma {:induction false} CanonicalUnchanged(lines: seq<string>)
    requires Canonical(lines)
    ensures Normalized(JoinLines(lines)) == Some(JoinLines(lines))
  {
    forall i | 0 <= i < |lines| ensures NoBreaks(lines[i]) {
      assert CleanAt(lines, i);
    }
    JoinNoCr(lines);
    ReplaceNothing(JoinLines(lines));
    SplitJoin(lines);
    KeptUnchanged(lines);
    FirstLineFirst(lines);
    LastLineLast(lines);
  }

  /** Normalizing what normalization returned changes nothing. */
  lemma {:induction false} NormalizeTwice(input: string)
    requires Normalized(input).Some?
    ensures Normalized(Normalized(input).value) == Normalized(input)
  {
    var lines := NormalizedIsCanonical(input);
    CanonicalUnchanged(lines);
  }
}
