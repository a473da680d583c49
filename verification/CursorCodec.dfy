/** The text form of a collection cursor: generation, digest and sequence joined by colons. */
module CursorCodec {
  import opened Wrappers

  datatype CursorText = CursorText(generation: string, digest: string, next: nat)

  const MAX_UINT64 := 0xFFFF_FFFF_FFFF_FFFF

  function Digit(n: nat): char
    requires n < 10
  {
    '0' + n as char
  }

  function Decimal(n: nat): (s: string)
    ensures s != "" && forall i :: 0 <= i < |s| ==> '0' <= s[i] <= '9'
  {
    if n < 10 then [Digit(n)] else Decimal(n / 10) + [Digit(n % 10)]
  }

  /** The number that the leading digits spell; what follows them is ignored. */
  function Scan(s: string, value: nat, digits: nat): Option<nat> {
    if s != "" && '0' <= s[0] <= '9' then Scan(s[1..], 10 * value + (s[0] as int - '0' as int), digits + 1)
    else if digits == 0 then None
    else InRange(value)
  }

  function Encode(cursor: CursorText): string {
    if cursor.generation == "" then Decimal(cursor.next)
    else cursor.generation + ":" + cursor.digest + ":" + Decimal(cursor.next)
  }

  function Colons(s: string): nat {
    if s == "" then 0 else (if s[0] == ':' then 1 else 0) + Colons(s[1..])
  }

  /** The text before the first colon, and the text behind it. */
  function Cut(s: string): (string, string)
    requires Colons(s) > 0
  {
    if s[0] == ':' then ("", s[1..])
    else
      var (before, behind) := Cut(s[1..]);
      ([s[0]] + before, behind)
  }

  /** Three parts are a cursor, two an older one without digest, and anything else is scanned as a number. */
  function Decode(value: string): Option<CursorText> {
    var (generation, digest, sequence) :=
      if Colons(value) == 2 then (Cut(value).0, Cut(Behind(value)).0, Behind(Behind(value)))
      else if Colons(value) == 1 then (Cut(value).0, "", Behind(value))
      else ("", "", value);
    match Scan(sequence, 0, 0)
    case Some(next) => Some(CursorText(generation, digest, next))
    case None => None
  }

  function Behind(value: string): (behind: string)
    requires Colons(value) > 0
    ensures Colons(behind) == Colons(value) - 1
  {
    CutColons(value);
    Cut(value).1
  }

  lemma {:induction false} CutColons(s: string)
    requires Colons(s) > 0
    ensures Colons(Cut(s).1) == Colons(s) - 1
  {
    if s[0] != ':' {
      CutColons(s[1..]);
    }
  }

  lemma {:induction false} ColonsAppend(a: string, b: string)
    ensures Colons(a + b) == Colons(a) + Colons(b)
  {
    if a == "" {
      assert a + b == b;
    } else {
      ColonsAppend(a[1..], b);
      assert (a + b)[1..] == a[1..] + b;
    }
  }

  lemma {:induction false} CutAtFirst(a: string, b: string)
    requires Colons(a) == 0
    ensures Colons(a + ":" + b) > 0 && Cut(a + ":" + b) == (a, b)
  {
    var s := a + ":" + b;
    if a == "" {
      assert s[1..] == b;
    } else {
      assert s[1..] == a[1..] + ":" + b;
      CutAtFirst(a[1..], b);
      assert a == [a[0]] + a[1..];
    }
  }

  lemma {:induction false} ScanAppend(s: string, last: char, value: nat, digits: nat)
    requires forall i :: 0 <= i < |s| ==> '0' <= s[i] <= '9'
    requires '0' <= last <= '9'
    requires digits > 0 || s != ""
    ensures Scan(s + [last], value, digits) == InRange(10 * Unbounded(s, value) + (last as int - '0' as int))
    decreases |s|
  {
    if s == "" {
      assert s + [last] == [last] && [last][1..] == "";
    } else {
      assert (s + [last])[1..] == s[1..] + [last];
      ScanAppend(s[1..], last, 10 * value + (s[0] as int - '0' as int), digits + 1);
    }
  }

  function InRange(n: nat): Option<nat> {
    if n > MAX_UINT64 then None else Some(n)
  }

  /** The number that digits spell behind others. */
  function Unbounded(s: string, value: nat): nat
    requires forall i :: 0 <= i < |s| ==> '0' <= s[i] <= '9'
  {
    if s == "" then value else Unbounded(s[1..], 10 * value + (s[0] as int - '0' as int))
  }

  lemma {:induction false} UnboundedAppend(s: string, last: char, value: nat)
    requires forall i :: 0 <= i < |s| ==> '0' <= s[i] <= '9'
    requires '0' <= last <= '9'
    ensures Unbounded(s + [last], value) == 10 * Unbounded(s, value) + (last as int - '0' as int)
    decreases |s|
  {
    if s == "" {
      assert s + [last] == [last] && [last][1..] == "";
    } else {
      assert (s + [last])[1..] == s[1..] + [last];
      UnboundedAppend(s[1..], last, 10 * value + (s[0] as int - '0' as int));
    }
  }

  lemma {:induction false} DecimalSpells(n: nat)
    ensures Unbounded(Decimal(n), 0) == n
  {
    if n >= 10 {
      DecimalSpells(n / 10);
      UnboundedAppend(Decimal(n / 10), Digit(n % 10), 0);
    } else {
      assert [Digit(n)][1..] == "";
    }
  }

  lemma {:induction false} DecimalScans(n: nat)
    requires n <= MAX_UINT64
    ensures Scan(Decimal(n), 0, 0) == Some(n) && Colons(Decimal(n)) == 0
  {
    if n < 10 {
      assert [Digit(n)][1..] == "";
    } else {
      DecimalSpells(n / 10);
      ScanAppend(Decimal(n / 10), Digit(n % 10), 0, 0);
    }
    NoColons(Decimal(n));
  }

  lemma {:induction false} NoColons(s: string)
    requires forall i :: 0 <= i < |s| ==> s[i] != ':'
    ensures Colons(s) == 0
  {
    if s != "" {
      NoColons(s[1..]);
    }
  }

  /** A cursor survives its text form exactly if it has no generation and no digest, or neither holds a colon. */
  lemma {:induction false} RoundTripIff(cursor: CursorText)
    requires cursor.next <= MAX_UINT64
    ensures Decode(Encode(cursor)) == Some(cursor)
      <==> if cursor.generation == "" then cursor.digest == ""
           else Colons(cursor.generation) == 0 && Colons(cursor.digest) == 0
  {
    var g, d, n := cursor.generation, cursor.digest, Decimal(cursor.next);
    DecimalScans(cursor.next);
    if g != "" {
      ColonsAppend(g + ":" + d + ":", n);
      ColonsAppend(g + ":" + d, ":");
      ColonsAppend(g + ":", d);
      ColonsAppend(g, ":");
      if Colons(g) == 0 && Colons(d) == 0 {
        assert Encode(cursor) == g + ":" + (d + ":" + n);
        CutAtFirst(g, d + ":" + n);
        CutAtFirst(d, n);
      }
    }
  }
}
