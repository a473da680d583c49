/** What normalization keeps: every visible character, line by line and in order. */
module TextContent {
  import opened TextNormalization

  /** The lines of a text as any of the three line breaks ends them. */
  function BreakLines(s: string): (lines: seq<string>)
    ensures lines != []
  {
    if s == "" then [""]
    else if |s| >= 2 && s[0] == '\r' && s[1] == '\n' then [""] + BreakLines(s[2..])
    else if s[0] == '\r' || s[0] == '\n' then [""] + BreakLines(s[1..])
    else
      var rest := BreakLines(s[1..]);
      [[s[0]] + rest[0]] + rest[1..]
  }

  /** The characters of a line that are not white space. */
  function Ink(line: string): string {
    if line == "" then "" else (if IsSpace(line[0]) then "" else [line[0]]) + Ink(line[1..])
  }

  /** The ink of every line that has any. */
  function Inked(lines: seq<string>): seq<string> {
    if lines == [] then []
    else (if Ink(lines[0]) == "" then [] else [Ink(lines[0])]) + Inked(lines[1..])
  }

  // ---------------------------------------------------------------- lines

  lemma {:induction false} BreaksReplaced(s: string)
    ensures BreakLines(s) == Split(ReplaceCr(ReplaceCrLf(s)))
  {
    if s != "" {
      var pair := |s| >= 2 && s[0] == '\r' && s[1] == '\n';
      var rest := s[if pair then 2 else 1..];
      var first := if pair || s[0] == '\r' then '\n' else s[0];
      BreaksReplaced(rest);
      assert ReplaceCrLf(s)[1..] == ReplaceCrLf(rest);
      assert ReplaceCr(ReplaceCrLf(s)) == [first] + ReplaceCr(ReplaceCrLf(rest));
      assert ReplaceCr(ReplaceCrLf(s))[1..] == ReplaceCr(ReplaceCrLf(rest));
    }
  }

  lemma {:induction false} Regroup<T>(a: seq<T>, b: seq<T>, c: seq<T>)
    ensures a + b + c == a + (b + c)
  {}

  lemma {:induction false} InkAppend(a: string, b: string)
    ensures Ink(a + b) == Ink(a) + Ink(b)
    decreases |a|
  {
    if a == "" {
      assert a + b == b;
    } else {
      InkAppend(a[1..], b);
      assert (a + b)[1..] == a[1..] + b;
      Regroup(if IsSpace(a[0]) then "" else [a[0]], Ink(a[1..]), Ink(b));
    }
  }

  lemma {:induction false} InkedAppend(a: seq<string>, b: seq<string>)
    ensures Inked(a + b) == Inked(a) + Inked(b)
    decreases |a|
  {
    if a == [] {
      assert a + b == b;
    } else {
      InkedAppend(a[1..], b);
      assert (a + b)[1..] == a[1..] + b;
      Regroup(if Ink(a[0]) == "" then [] else [Ink(a[0])], Inked(a[1..]), Inked(b));
    }
  }

  lemma {:induction false} NoInkIff(line: string)
    ensures Ink(line) == "" <==> TrimSpace(line) == ""
  {
    TrimSpaceEmpty(line);
    NoInkMeansSpace(line);
  }

  lemma {:induction false} NoInkMeansSpace(line: string)
    ensures Ink(line) == "" <==> forall i :: 0 <= i < |line| ==> IsSpace(line[i])
  {
    if line != "" {
      NoInkMeansSpace(line[1..]);
      assert forall i :: 0 < i < |line| ==> line[i] == line[1..][i - 1];
    }
  }

  /** Cutting blanks off the end of a line cuts off no ink. */
  lemma {:induction false} InkTrimmed(line: string)
    ensures Ink(TrimRightBy(IsBlank, line)) == Ink(line)
    decreases |line|
  {
    if line != "" && IsBlank(line[|line| - 1]) {
      var init := line[..|line| - 1];
      InkTrimmed(init);
      InkAppend(init, [line[|line| - 1]]);
      assert line == init + [line[|line| - 1]];
    }
  }

  lemma {:induction false} KeptInk(lines: seq<string>)
    ensures Inked(Kept(lines)) == Inked(lines)
    decreases |lines|
  {
    if lines != [] {
      var init, last := lines[..|lines| - 1], lines[|lines| - 1];
      var line := TrimRightBy(IsBlank, last);
      KeptInk(init);
      InkedAppend(init, [last]);
      assert lines == init + [last];
      InkTrimmed(last);
      NoInkIff(line);
      InkedAppend(Kept(init), [line]);
      InkedAppend(Kept(init), [""]);
    }
  }

  lemma {:induction false} InkWithoutTrailing(lines: seq<string>)
    ensures Inked(WithoutTrailingBlank(lines)) == Inked(lines)
    decreases |lines|
  {
    if lines != [] && lines[|lines| - 1] == "" {
      var init := lines[..|lines| - 1];
      InkWithoutTrailing(init);
      InkedAppend(init, [""]);
      assert lines == init + [""];
    }
  }

  // ---------------------------------------------------------------- trimming a text

  lemma {:induction false} InkedCons(line: string, rest: seq<string>)
    ensures Inked([line] + rest) == (if Ink(line) == "" then [] else [Ink(line)]) + Inked(rest)
  {
    assert ([line] + rest)[1..] == rest;
  }

  lemma {:induction false} InkTail(c: char, s: string)
    requires IsSpace(c)
    ensures Inked(Split([c] + s)) == Inked(Split(s))
  {
    var rest := Split(s);
    assert ([c] + s)[1..] == s;
    if c == '\n' {
      assert Split([c] + s) == [""] + rest;
      InkedCons("", rest);
    } else {
      var first := [c] + rest[0];
      assert Split([c] + s) == [first] + rest[1..];
      assert first[1..] == rest[0];
      assert Ink(first) == Ink(rest[0]);
      InkedCons(first, rest[1..]);
      InkedCons(rest[0], rest[1..]);
      assert rest == [rest[0]] + rest[1..];
    }
  }

  lemma {:induction false} TrimLeftInk(cut: char -> bool, s: string)
    requires forall c :: cut(c) ==> IsSpace(c)
    ensures Inked(Split(TrimLeftBy(cut, s))) == Inked(Split(s))
  {
    if s != "" && cut(s[0]) {
      TrimLeftInk(cut, s[1..]);
      InkTail(s[0], s[1..]);
      assert s == [s[0]] + s[1..];
    }
  }

  function Snoc(lines: seq<string>, c: char): seq<string>
    requires lines != []
  {
    if c == '\n' then lines + [""] else lines[..|lines| - 1] + [lines[|lines| - 1] + [c]]
  }

  lemma {:induction false} SnocBehind(first: string, rest: seq<string>, c: char)
    requires rest != []
    ensures Snoc([first] + rest, c) == [first] + Snoc(rest, c)
  {}

  lemma {:induction false} SnocInFirst(head: char, lines: seq<string>, c: char)
    requires lines != []
    ensures var longer, after := [[head] + lines[0]] + lines[1..], Snoc(lines, c);
            Snoc(longer, c) == [[head] + after[0]] + after[1..]
  {
    if |lines| == 1 && c != '\n' {
      assert [head] + (lines[0] + [c]) == ([head] + lines[0]) + [c];
    }
  }

  /** One more character begins a new line or goes to the end of the last one. */
  lemma {:induction false} SplitSnoc(s: string, c: char)
    ensures Split(s + [c]) == Snoc(Split(s), c)
  {
    if s == "" {
      assert s + [c] == [c] && [c][1..] == "";
      assert Split("") == [""];
      assert [""] + [""] == ["", ""] && [c] + "" == [c] && [""][1..] == [] && "" + [c] == [c];
    } else {
      SplitSnoc(s[1..], c);
      assert (s + [c])[1..] == s[1..] + [c];
      SnocBehind("", Split(s[1..]), c);
      SnocInFirst(s[0], Split(s[1..]), c);
    }
  }

  lemma {:induction false} SpaceHasNoInk(line: string, c: char)
    requires IsSpace(c)
    ensures Ink(line + [c]) == Ink(line)
  {
    InkAppend(line, [c]);
    assert [c][1..] == "";
  }

  lemma {:induction false} SameInk(init: seq<string>, a: string, b: string)
    requires Ink(a) == Ink(b)
    ensures Inked(init + [a]) == Inked(init + [b])
  {
    InkedAppend(init, [a]);
    InkedAppend(init, [b]);
    assert [a][1..] == [b][1..] == [];
  }

  lemma {:induction false} InkInit(s: string, c: char)
    requires IsSpace(c)
    ensures Inked(Split(s + [c])) == Inked(Split(s))
  {
    var lines := Split(s);
    SplitSnoc(s, c);
    if c == '\n' {
      InkedAppend(lines, [""]);
      assert [""][1..] == [];
    } else {
      var init, last := lines[..|lines| - 1], lines[|lines| - 1];
      SpaceHasNoInk(last, c);
      SameInk(init, last, last + [c]);
      assert lines == init + [last];
    }
  }

  lemma {:induction false} TrimRightInk(cut: char -> bool, s: string)
    requires forall c :: cut(c) ==> IsSpace(c)
    ensures Inked(Split(TrimRightBy(cut, s))) == Inked(Split(s))
    decreases |s|
  {
    if s != "" && cut(s[|s| - 1]) {
      var init, last := s[..|s| - 1], s[|s| - 1];
      assert TrimRightBy(cut, s) == TrimRightBy(cut, init);
      TrimRightInk(cut, init);
      InkInit(init, last);
      assert s == init + [last];
    }
  }

  lemma {:induction false} TrimSpaceInk(s: string)
    ensures Inked(Split(TrimSpace(s))) == Inked(Split(s))
  {
    TrimRightInk(IsSpace, s);
    TrimLeftInk(IsSpace, TrimRightBy(IsSpace, s));
  }

  // ---------------------------------------------------------------- the whole normalization

  lemma {:induction false} KeptLinesUnbroken(input: string)
    ensures forall i :: 0 <= i < |WithoutTrailingBlank(Kept(Split(ReplaceCr(ReplaceCrLf(input)))))| ==>
              NoBreaks(WithoutTrailingBlank(Kept(Split(ReplaceCr(ReplaceCrLf(input)))))[i])
  {
    var unified := ReplaceCr(ReplaceCrLf(input));
    ReplaceCrRemoves(ReplaceCrLf(input));
    SplitBreaks(unified);
    KeptClean(Split(unified));
    WithoutTrailingBlankClean(Kept(Split(unified)));
    var kept := WithoutTrailingBlank(Kept(Split(unified)));
    forall i | 0 <= i < |kept| ensures NoBreaks(kept[i]) {
      assert CleanAt(kept, i);
    }
  }

  lemma {:induction false} JoinedInk(lines: seq<string>)
    requires forall i :: 0 <= i < |lines| ==> NoBreaks(lines[i])
    ensures Inked(Split(JoinLines(lines))) == Inked(lines)
  {
    if lines != [] {
      SplitJoin(lines);
    } else {
      InkedCons("", []);
      assert [""] == [""] + [];
    }
  }

  /** Normalizing loses, adds and moves no visible character: line by line the result has the ink of the input, however
      its lines were ended, and only a text without any ink is refused. */
  lemma {:induction false} InkStays(input: string)
    ensures match Normalized(input)
      case Some(value) => Inked(Split(value)) == Inked(BreakLines(input))
      case None => Inked(BreakLines(input)) == []
  {
    var lines := Split(ReplaceCr(ReplaceCrLf(input)));
    var kept := WithoutTrailingBlank(Kept(lines));
    BreaksReplaced(input);
    KeptInk(lines);
    InkWithoutTrailing(Kept(lines));
    KeptLinesUnbroken(input);
    JoinedInk(kept);
    TrimSpaceInk(JoinLines(kept));
    assert Inked(Split(TrimSpace(JoinLines(kept)))) == Inked(BreakLines(input));
    InkedCons("", []);
    assert Split("") == [""] == [""] + [];
  }
}
