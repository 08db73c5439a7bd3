/** The pieces of the JavaScript runtime that the draw engine leans on:
    optional values, `String.prototype.trim`, `startsWith`, `indexOf` and
    `replace` with a string pattern, number-to-string conversion, and the
    ToInt32 conversion behind the bitwise operators. */
module Js {

  datatype Option<T> = None | Some(value: T)

  /** One UTF-16 code unit, as `String.prototype.charCodeAt` returns it. */
  type CodeUnit = c: int | 0 <= c < 0x1_0000

  const TwoTo31: int := 0x8000_0000
  const TwoTo32: int := 0x1_0000_0000

  function Abs(x: int): nat {
    if x < 0 then -x else x
  }

  // ---------------------------------------------------------------------------
  // Whitespace and trim
  // ---------------------------------------------------------------------------

  /** The ECMAScript WhiteSpace and LineTerminator code points: what `trim` removes. */
  predicate IsWhitespace(c: char) {
    var k := c as int;
    k == 0x09 || k == 0x0A || k == 0x0B || k == 0x0C || k == 0x0D || k == 0x20 ||
    k == 0xA0 || k == 0x1680 || (0x2000 <= k <= 0x200A) || k == 0x2028 || k == 0x2029 ||
    k == 0x202F || k == 0x205F || k == 0x3000 || k == 0xFEFF
  }

  predicate AllWhitespace(s: string) {
    forall i :: 0 <= i < |s| ==> IsWhitespace(s[i])
  }

  /** Drops leading whitespace. */
  function TrimStart(s: string): string {
    if s != [] && IsWhitespace(s[0]) then TrimStart(s[1..]) else s
  }

  /** The result of TrimStart is a suffix of `s`, what was dropped is all
      whitespace, and the result does not start with whitespace. */
  lemma {:induction false} TrimStartSpec(s: string)
    ensures var r := TrimStart(s);
      && |r| <= |s| && r == s[|s| - |r|..]
      && (forall i :: 0 <= i < |s| - |r| ==> IsWhitespace(s[i]))
      && (r == [] || !IsWhitespace(r[0]))
  {
    if s != [] && IsWhitespace(s[0]) {
      var t := s[1..];
      var r := TrimStart(t);
      TrimStartSpec(t);
      assert t[|t| - |r|..] == s[|s| - |r|..];
      forall i | 1 <= i < |s| - |r|
        ensures IsWhitespace(s[i])
      {
        assert s[i] == t[i - 1];
      }
    }
  }

  /** Drops trailing whitespace. */
  function TrimEnd(s: string): string {
    if s != [] && IsWhitespace(s[|s| - 1]) then TrimEnd(s[..|s| - 1]) else s
  }

  /** The result of TrimEnd is a prefix of `s`, what was dropped is all
      whitespace, and the result does not end with whitespace. */
  lemma {:induction false} TrimEndSpec(s: string)
    ensures var r := TrimEnd(s);
      && |r| <= |s| && r == s[..|r|]
      && (forall i :: |r| <= i < |s| ==> IsWhitespace(s[i]))
      && (r == [] || !IsWhitespace(r[|r| - 1]))
  {
    if s != [] && IsWhitespace(s[|s| - 1]) {
      var t := s[..|s| - 1];
      var r := TrimEnd(t);
      TrimEndSpec(t);
      assert t[..|r|] == s[..|r|];
      forall i | |r| <= i < |s| - 1
        ensures IsWhitespace(s[i])
      {
        assert s[i] == t[i];
      }
    }
  }

  /** `s.trim()`: the middle of `s` once its leading whitespace (the first k
      characters) and its trailing whitespace are dropped. */
  function Trim(s: string): (r: string)
    ensures |r| <= |s|
    ensures var k := |s| - |TrimStart(s)|;
      && 0 <= k && k + |r| <= |s| && r == s[k..k + |r|]
      && (forall i :: 0 <= i < k ==> IsWhitespace(s[i]))
      && (forall i :: k + |r| <= i < |s| ==> IsWhitespace(s[i]))
  {
    var u := TrimStart(s);
    TrimStartSpec(s);
    TrimEndSpec(u);
    var k := |s| - |u|;
    var r := TrimEnd(u);
    assert r == s[k..k + |r|];
    assert forall i :: k + |r| <= i < |s| ==> IsWhitespace(s[i]) by {
      forall i | k + |r| <= i < |s|
        ensures IsWhitespace(s[i])
      {
        assert s[i] == u[i - k];
      }
    }
    r
  }

  /** A string trims to "" exactly when it is all whitespace. */
  lemma TrimBlankIffAllWhitespace(s: string)
    ensures Trim(s) == [] <==> AllWhitespace(s)
  {
    var u := TrimStart(s);
    TrimStartSpec(s);
    TrimEndSpec(u);
    if Trim(s) == [] && u != [] {
      assert false;
    }
  }

  /** The trimmed string starts and ends with a non-whitespace character,
      and trimming it again changes nothing. */
  lemma TrimIsCanonical(s: string)
    ensures var t := Trim(s); t == [] || (!IsWhitespace(t[0]) && !IsWhitespace(t[|t| - 1]))
    ensures Trim(Trim(s)) == Trim(s)
  {
    var u := TrimStart(s);
    TrimStartSpec(s);
    TrimEndSpec(u);
    var t := TrimEnd(u);
    if t != [] {
      assert t[0] == u[0];
      assert TrimStart(t) == t;
      assert TrimEnd(t) == t;
    }
  }

  // ---------------------------------------------------------------------------
  // Prefixes, indexOf and replace
  // ---------------------------------------------------------------------------

  /** `s.startsWith(prefix)`. */
  predicate StartsWith(s: string, prefix: string) {
    |prefix| <= |s| && s[..|prefix|] == prefix
  }

  /** `s.indexOf(pattern)`: the first position at which `pattern` occurs. */
  function IndexOf(s: string, pattern: string): (r: Option<nat>)
    ensures r.Some? ==> r.value + |pattern| <= |s|
    decreases |s|
  {
    if StartsWith(s, pattern) then
      Some(0)
    else if s == [] then
      None
    else
      match IndexOf(s[1..], pattern)
      case None => None
      case Some(i) => Some(i + 1)
  }

  /** The position `indexOf` finds is an occurrence and no earlier position
      is one; when it finds none, the pattern occurs nowhere. */
  lemma {:induction false} IndexOfSpec(s: string, pattern: string)
    ensures var r := IndexOf(s, pattern);
      && (r.Some? ==> s[r.value..r.value + |pattern|] == pattern)
      && (r.Some? ==> forall j :: 0 <= j < r.value ==> !StartsWith(s[j..], pattern))
      && (r.None? ==> forall j :: 0 <= j <= |s| ==> !StartsWith(s[j..], pattern))
    decreases |s|
  {
    if !StartsWith(s, pattern) && s != [] {
      var t := s[1..];
      IndexOfSpec(t, pattern);
      forall j | 1 <= j <= |s|
        ensures StartsWith(s[j..], pattern) == StartsWith(t[j - 1..], pattern)
      {
        assert t[j - 1..] == s[j..];
      }
      match IndexOf(t, pattern) {
        case None =>
        case Some(i) =>
          assert t[i..i + |pattern|] == s[i + 1..i + 1 + |pattern|];
      }
    }
  }

  /** Searching for a character that a prefix does not contain skips that prefix. */
  lemma {:induction false} IndexOfPastPrefix(p: string, t: string, c: char)
    requires c !in p
    ensures IndexOf(p + t, [c]) == match IndexOf(t, [c]) case None => None case Some(i) => Some(i + |p|)
  {
    if p != [] {
      assert (p + t)[0] == p[0];
      assert (p + t)[1..] == p[1..] + t;
      IndexOfPastPrefix(p[1..], t, c);
    } else {
      assert p + t == t;
    }
  }

  /** `s.replace(pattern, "")` with a string pattern: removes the first
      occurrence, if any, and so strips a prefix that `s` starts with. */
  function ReplaceFirstWithEmpty(s: string, pattern: string): (r: string)
    ensures IndexOf(s, pattern).None? ==> r == s
    ensures IndexOf(s, pattern).Some? ==> |r| + |pattern| == |s|
    ensures StartsWith(s, pattern) ==> r == s[|pattern|..]
  {
    match IndexOf(s, pattern)
    case None => s
    case Some(i) => s[..i] + s[i + |pattern|..]
  }

  // ---------------------------------------------------------------------------
  // Number to string (`n.toString()`, template literals, `n + "st"`)
  // ---------------------------------------------------------------------------

  predicate IsDigit(c: char) {
    '0' <= c <= '9'
  }

  predicate AllDigits(s: string) {
    forall i :: 0 <= i < |s| ==> IsDigit(s[i])
  }

  function DigitChar(d: nat): (c: char)
    requires d < 10
    ensures IsDigit(c) && c as int - '0' as int == d
  {
    ('0' as int + d) as char
  }

  /** Decimal digits of a non-negative integer, without leading zeros. */
  function NatToString(n: nat): (s: string)
    ensures s != [] && AllDigits(s)
    ensures s[0] == '0' ==> n == 0
    decreases n
  {
    if n < 10 then [DigitChar(n)] else NatToString(n / 10) + [DigitChar(n % 10)]
  }

  /** The value of a string of decimal digits. */
  function DigitsValue(s: string): nat
    requires AllDigits(s)
  {
    if s == [] then 0 else 10 * DigitsValue(s[..|s| - 1]) + (s[|s| - 1] as int - '0' as int)
  }

  /** Reading back the decimal digits gives the number: formatting is injective. */
  lemma {:induction false} NatToStringRoundTrip(n: nat)
    ensures DigitsValue(NatToString(n)) == n
    decreases n
  {
    if n >= 10 {
      var s := NatToString(n);
      var p := NatToString(n / 10);
      assert s[..|s| - 1] == p;
      NatToStringRoundTrip(n / 10);
    }
  }

  /** `String(i)` for an integer: an optional minus sign and the digits,
      which read back as `i`. */
  function IntToString(i: int): (r: string)
    ensures ParseDecimal(r) == Some(i)
  {
    if i < 0 then
      var digits := NatToString(-i);
      NatToStringRoundTrip(-i);
      assert ("-" + digits)[1..] == digits;
      "-" + digits
    else
      NatToStringRoundTrip(i);
      NatToString(i)
  }

  /** Reads an optionally signed decimal integer. */
  function ParseDecimal(s: string): Option<int> {
    if s != [] && s[0] == '-' && |s| > 1 && AllDigits(s[1..]) then var v: int := DigitsValue(s[1..]); Some(-v)
    else if s != [] && AllDigits(s) then Some(DigitsValue(s))
    else None
  }

  // ---------------------------------------------------------------------------
  // ToInt32 (section 7.1.6 of ECMA-262): the operand conversion of `<<` and `&`
  // ---------------------------------------------------------------------------

  /** The signed 32-bit value congruent to `x` modulo 2^32. */
  function ToInt32(x: int): (r: int)
    ensures -TwoTo31 <= r < TwoTo31
    ensures (x - r) % TwoTo32 == 0
  {
    (x + TwoTo31) % TwoTo32 - TwoTo31
  }

  /** A value already in the signed 32-bit range converts to itself. */
  lemma ToInt32InRange(x: int)
    requires -TwoTo31 <= x < TwoTo31
    ensures ToInt32(x) == x
  {
    assert 0 <= x + TwoTo31 < TwoTo32;
  }

  /** ToInt32 depends only on the residue modulo 2^32. */
  lemma ToInt32Congruent(x: int, y: int, k: int)
    requires x - y == TwoTo32 * k
    ensures ToInt32(x) == ToInt32(y)
  {
    var a, b := ToInt32(x), ToInt32(y);
    assert (x - a) == TwoTo32 * ((x - a) / TwoTo32);
    assert (y - b) == TwoTo32 * ((y - b) / TwoTo32);
    assert a - b == TwoTo32 * (k - (x - a) / TwoTo32 + (y - b) / TwoTo32);
  }
}
