/** The string and number primitives that the on-disk formats are written with. */
module Text {
  import opened Wrappers

  // ----- white space ---------------------------------------------------------------------------

  /** The runes that unicode.IsSpace accepts. */
  predicate IsSpace(c: char) {
    || '\t' <= c <= '\r' || c == ' '
    || c == '\U{85}' || c == '\U{A0}' || c == '\U{1680}' || '\U{2000}' <= c <= '\U{200A}'
    || c == '\U{2028}' || c == '\U{2029}' || c == '\U{202F}' || c == '\U{205F}' || c == '\U{3000}'
  }

  function TrimLeft(s: string): (r: string)
    ensures r != "" ==> !IsSpace(r[0])
    ensures |r| <= |s| && r == s[|s| - |r|..]
  {
    if s != "" && IsSpace(s[0]) then TrimLeft(s[1..]) else s
  }

  function TrimRight(s: string): (r: string)
    ensures r != "" ==> !IsSpace(r[|r| - 1])
    ensures r <= s
  {
    if s != "" && IsSpace(s[|s| - 1]) then TrimRight(s[..|s| - 1]) else s
  }

  function TrimSpace(s: string): (r: string)
    ensures Trimmed(r)
    ensures Trimmed(s) ==> r == s
    ensures forall c :: c in r ==> c in s
  {
    TrimRight(TrimLeft(s))
  }

  predicate Trimmed(s: string) {
    s == "" || (!IsSpace(s[0]) && !IsSpace(s[|s| - 1]))
  }

  predicate Blank(s: string) { forall i :: 0 <= i < |s| ==> IsSpace(s[i]) }

  lemma {:induction false} TrimLeftPadded(a: string, s: string)
    requires Blank(a) && (s == "" || !IsSpace(s[0]))
    ensures TrimLeft(a + s) == s
  {
    if a == "" { assert a + s == s; } else {
      assert (a + s)[0] == a[0] && (a + s)[1..] == a[1..] + s;
      TrimLeftPadded(a[1..], s);
    }
  }

  lemma {:induction false} TrimRightPadded(s: string, b: string)
    requires Blank(b) && (s == "" || !IsSpace(s[|s| - 1]))
    ensures TrimRight(s + b) == s
  {
    if b == "" { assert s + b == s; } else {
      var n := |b| - 1;
      assert (s + b)[|s + b| - 1] == b[n] && (s + b)[..|s + b| - 1] == s + b[..n];
      TrimRightPadded(s, b[..n]);
    }
  }

  /** Trimming removes the white space around a text and nothing else. */
  lemma TrimPadded(a: string, s: string, b: string)
    requires Blank(a) && Blank(b) && Trimmed(s)
    ensures TrimSpace(a + s + b) == s
  {
    if s == "" {
      assert a + s + b == (a + b) + "";
      TrimLeftPadded(a + b, "");
    } else {
      assert a + s + b == a + (s + b) && (s + b)[0] == s[0];
      TrimLeftPadded(a, s + b);
      TrimRightPadded(s, b);
    }
  }

  lemma {:induction false} LeftOfTrim(s: string, i: nat)
    requires i < |s| - |TrimLeft(s)|
    ensures IsSpace(s[i])
  {
    hide IsSpace;
    if i > 0 { LeftOfTrim(s[1..], i - 1); }
  }

  lemma {:induction false} RightOfTrim(s: string, i: nat)
    requires |TrimRight(s)| <= i < |s|
    ensures IsSpace(s[i])
    decreases |s|
  {
    hide IsSpace;
    if i < |s| - 1 { RightOfTrim(s[..|s| - 1], i); }
  }

  /** What trimming removes. */
  lemma Padding(s: string) returns (a: string, b: string)
    ensures Blank(a) && Blank(b) && s == a + TrimSpace(s) + b
  {
    hide IsSpace, TrimLeft, TrimRight;
    var left := TrimLeft(s);
    a, b := s[..|s| - |left|], left[|TrimRight(left)|..];
    forall i | 0 <= i < |a| ensures IsSpace(a[i]) { LeftOfTrim(s, i); }
    forall i | 0 <= i < |b| ensures IsSpace(b[i]) { RightOfTrim(left, |TrimRight(left)| + i); }
    assert left == TrimSpace(s) + b;
  }

  // ----- splitting and joining -----------------------------------------------------------------

  /** strings.Split by a one-character separator. */
  function Split(s: string, sep: char): (parts: seq<string>)
    ensures |parts| >= 1
    ensures forall p :: p in parts ==> sep !in p
  {
    if s == "" then [""]
    else
      var rest := Split(s[1..], sep);
      if s[0] == sep then [""] + rest else [[s[0]] + rest[0]] + rest[1..]
  }

  /** strings.Join with a one-character separator. */
  function Join(parts: seq<string>, sep: char): string {
    if |parts| == 0 then ""
    else if |parts| == 1 then parts[0]
    else parts[0] + [sep] + Join(parts[1..], sep)
  }

  lemma {:induction false} SplitPlain(s: string, sep: char)
    requires sep !in s
    ensures Split(s, sep) == [s]
  {
    if s != "" {
      SplitPlain(s[1..], sep);
      assert [s[0]] + s[1..] == s;
    }
  }

  lemma SeqAssoc<T>(a: seq<T>, b: seq<T>, c: seq<T>)
    ensures (a + b) + c == a + (b + c)
  {
  }

  /** The pieces of a text around one character. */
  lemma Around(a: string, c: char, b: string)
    ensures (a + [c] + b)[|a|] == c
    ensures (a + [c] + b)[..|a|] == a && (a + [c] + b)[|a| + 1..] == b
    ensures a != "" ==> (a + [c] + b)[0] == a[0] && (a + [c] + b)[1..] == a[1..] + [c] + b
  {
  }

  lemma {:induction false} SplitConcat(a: string, sep: char, b: string)
    ensures Split(a + [sep] + b, sep) == Split(a, sep) + Split(b, sep)
  {
    var whole := a + [sep] + b;
    Around(a, sep, b);
    assert |whole| == |a| + 1 + |b|;
    if a == "" {
      assert whole[1..] == b;
    } else {
      var rest, tail := Split(a[1..], sep), Split(b, sep);
      SplitConcat(a[1..], sep, b);
      if a[0] == sep {
        SeqAssoc([""], rest, tail);
      } else {
        assert (rest + tail)[0] == rest[0] && (rest + tail)[1..] == rest[1..] + tail;
        SeqAssoc([[a[0]] + rest[0]], rest[1..], tail);
      }
    }
  }

  /** Joining separator-free parts and splitting again gives the parts back. */
  lemma {:induction false} SplitJoin(parts: seq<string>, sep: char)
    requires |parts| >= 1
    requires forall p :: p in parts ==> sep !in p
    ensures Split(Join(parts, sep), sep) == parts
  {
    SplitPlain(parts[0], sep);
    if |parts| > 1 {
      SplitConcat(parts[0], sep, Join(parts[1..], sep));
      SplitJoin(parts[1..], sep);
    }
  }

  /** strings.Cut at the first separator. */
  function Cut(s: string, sep: char): (r: (string, string, bool))
    ensures r.2 <==> sep in s
    ensures r.2 ==> s == r.0 + [sep] + r.1 && sep !in r.0
    ensures !r.2 ==> r.0 == s && r.1 == ""
  {
    if s == "" then ("", "", false)
    else if s[0] == sep then ("", s[1..], true)
    else
      var (a, b, ok) := Cut(s[1..], sep);
      ([s[0]] + a, b, ok)
  }

  lemma {:induction false} CutConcat(a: string, sep: char, b: string)
    requires sep !in a
    ensures Cut(a + [sep] + b, sep) == (a, b, true)
  {
    Around(a, sep, b);
    if a != "" {
      CutConcat(a[1..], sep, b);
      assert [a[0]] + a[1..] == a;
    }
  }

  /** strings.LastIndex of one character, -1 when absent. */
  function LastIndex(s: string, c: char): (i: int)
    ensures -1 <= i < |s|
    ensures i >= 0 ==> s[i] == c && c !in s[i + 1..]
    ensures i == -1 ==> c !in s
  {
    if s == "" then -1
    else if s[|s| - 1] == c then |s| - 1
    else
      var front := s[..|s| - 1];
      var i := LastIndex(front, c);
      assert s == front + [s[|s| - 1]] && s[i + 1..] == front[i + 1..] + [s[|s| - 1]];
      i
  }

  lemma {:induction false} LastIndexConcat(a: string, c: char, b: string)
    requires c !in b
    ensures LastIndex(a + [c] + b, c) == |a|
  {
    var s := a + [c] + b;
    if b != "" {
      assert s[|s| - 1] == b[|b| - 1] && b[|b| - 1] in b;
      assert s[..|s| - 1] == a + [c] + b[..|b| - 1];
      LastIndexConcat(a, c, b[..|b| - 1]);
    }
  }

  predicate HasPrefix(s: string, p: string) { p <= s }

  predicate HasSuffix(s: string, p: string) {
    |p| <= |s| && s[|s| - |p|..] == p
  }

  // ----- numbers -------------------------------------------------------------------------------

  predicate IsDigit(c: char) { '0' <= c <= '9' }

  predicate IsHexDigit(c: char) { IsDigit(c) || 'a' <= c <= 'f' || 'A' <= c <= 'F' }

  predicate AllDigits(s: string) { s != "" && forall c :: c in s ==> IsDigit(c) }

  predicate AllHex(s: string) { s != "" && forall c :: c in s ==> IsHexDigit(c) }

  function DigitOf(c: char): (d: nat)
    ensures IsDigit(c) ==> d < 10
    ensures IsHexDigit(c) ==> d < 16
  {
    if '0' <= c <= '9' then c as int - '0' as int
    else if 'a' <= c <= 'f' then c as int - 'a' as int + 10
    else if 'A' <= c <= 'F' then c as int - 'A' as int + 10
    else 0
  }

  /** The number that digits in the given base denote, as ParseInt and SetString read them. */
  function Value(s: string, base: nat): nat {
    if s == "" then 0 else Value(s[..|s| - 1], base) * base + DigitOf(s[|s| - 1])
  }

  /** %d for base 10 and %X for base 16. */
  function Render(n: nat, base: nat): (s: string)
    requires base == 10 || base == 16
    ensures base == 10 ==> AllDigits(s)
    ensures AllHex(s)
  {
    if n < base then [DigitChar(n)] else Render(n / base, base) + [DigitChar(n % base)]
  }

  lemma ValueSnoc(s: string, c: char, base: nat)
    ensures Value(s + [c], base) == Value(s, base) * base + DigitOf(c)
  {
    assert (s + [c])[..|s|] == s;
  }

  function DigitChar(d: nat): (c: char)
    requires d < 16
    ensures IsHexDigit(c) && DigitOf(c) == d
    ensures d < 10 ==> IsDigit(c)
  {
    if d < 10 then '0' + d as char else 'A' + (d - 10) as char
  }

  lemma Division(n: nat, base: nat)
    requires base == 10 || base == 16
    ensures n / base * base + n % base == n
  {
    if base == 10 { assert n / 10 * 10 + n % 10 == n; } else { assert n / 16 * 16 + n % 16 == n; }
  }

  /** Printing and reading a number undo each other. */
  lemma {:induction false} ValueRender(n: nat, base: nat)
    requires base == 10 || base == 16
    ensures Value(Render(n, base), base) == n
  {
    if n < base {
      ValueSnoc("", DigitChar(n), base);
      assert "" + [DigitChar(n)] == [DigitChar(n)];
    } else {
      ValueRender(n / base, base);
      ValueSnoc(Render(n / base, base), DigitChar(n % base), base);
      Division(n, base);
    }
  }

  const INT64_MAX: int := 0x7FFF_FFFF_FFFF_FFFF

  /** fmt's %d for a signed integer. */
  function FormatInt(n: int): string {
    if n < 0 then "-" + Render(-n, 10) else Render(n, 10)
  }

  /** strconv.ParseInt(s, 10, 64) and, on a 64-bit platform, strconv.Atoi. */
  function ParseInt64(s: string): Option<int> {
    var signed := s != "" && (s[0] == '-' || s[0] == '+');
    var digits := if signed then s[1..] else s;
    var n: int := Value(digits, 10);
    if !AllDigits(digits) then None
    else if signed && s[0] == '-' then if n <= INT64_MAX + 1 then Some(-n) else None
    else if n <= INT64_MAX then Some(n) else None
  }

  lemma RenderHead(n: nat)
    ensures IsDigit(Render(n, 10)[0])
    ensures ("-" + Render(n, 10))[0] == '-' && ("-" + Render(n, 10))[1..] == Render(n, 10)
  {
    assert Render(n, 10)[0] in Render(n, 10);
  }

  lemma ParseFormatInt(n: int)
    requires -INT64_MAX - 1 <= n <= INT64_MAX
    ensures ParseInt64(FormatInt(n)) == Some(n)
  {
    RenderHead(if n < 0 then -n else n);
    ValueRender(if n < 0 then -n else n, 10);
  }
}
