/**
 * The ECMAScript string operations the application relies on, over
 * `seq<char>`: trim, ASCII case mapping, startsWith, includes, split and
 * join on one character, decimal rendering of integers, parseInt (decimal
 * or `0x` hexadecimal), and `length` in UTF-16 code units. A `string` here is
 * a sequence of Unicode scalar values, one element per code point.
 */
module Strings {
  import opened Wrappers

  /** The characters String.prototype.trim removes: WhiteSpace and LineTerminator. */
  predicate IsWhitespace(c: char) {
    c == ' ' || c == '\t' || c == '\n' || c == '\U{000B}' || c == '\U{000C}' || c == '\r'
    || c == '\U{00A0}' || c == '\U{1680}' || ('\U{2000}' <= c <= '\U{200A}')
    || c == '\U{2028}' || c == '\U{2029}' || c == '\U{202F}' || c == '\U{205F}'
    || c == '\U{3000}' || c == '\U{FEFF}'
  }

  /** `s.length`: UTF-16 code units, two for a character outside the Basic Multilingual Plane. */
  function Utf16Length(s: string): (n: nat)
    ensures |s| <= n <= 2 * |s|
    ensures n == |s| <==> forall i :: 0 <= i < |s| ==> s[i] < '\U{10000}'
  {
    if s == [] then 0 else (if s[0] < '\U{10000}' then 1 else 2) + Utf16Length(s[1..])
  }

  /** Every character is whitespace (the empty string included). */
  predicate IsBlank(s: string) {
    forall i :: 0 <= i < |s| ==> IsWhitespace(s[i])
  }

  function TrimStart(s: string): (r: string)
    ensures |r| <= |s| && r == s[|s| - |r|..]
    ensures r == [] || !IsWhitespace(r[0])
    ensures IsBlank(s[..|s| - |r|])
  {
    if s != [] && IsWhitespace(s[0]) then
      var r := TrimStart(s[1..]);
      assert s[1..][..|s[1..]| - |r|] == s[1..|s| - |r|];
      r
    else s
  }

  function TrimEnd(s: string): (r: string)
    ensures |r| <= |s| && r == s[..|r|]
    ensures r == [] || !IsWhitespace(r[|r| - 1])
    ensures IsBlank(s[|r|..])
  {
    if s != [] && IsWhitespace(s[|s| - 1]) then
      var r := TrimEnd(s[..|s| - 1]);
      assert s[|r|..] == s[..|s| - 1][|r|..] + [s[|s| - 1]];
      r
    else s
  }

  /** String.prototype.trim: the result is the slice of `s` between the blank ends. */
  function Trim(s: string): (r: string)
    ensures r == [] || (!IsWhitespace(r[0]) && !IsWhitespace(r[|r| - 1]))
    ensures |s| - |TrimStart(s)| + |r| <= |s|
    ensures r == s[|s| - |TrimStart(s)|..|s| - |TrimStart(s)| + |r|]
  {
    var a := TrimStart(s);
    var r := TrimEnd(a);
    SliceOfSuffix(s, a, r);
    r
  }

  /** A prefix of a suffix of `s` is a slice of `s`; trimmed ends stay trimmed. */
  lemma SliceOfSuffix(s: string, a: string, r: string)
    requires |a| <= |s| && a == s[|s| - |a|..]
    requires |r| <= |a| && r == a[..|r|]
    requires a == [] || !IsWhitespace(a[0])
    requires r == [] || !IsWhitespace(r[|r| - 1])
    ensures r == [] || (!IsWhitespace(r[0]) && !IsWhitespace(r[|r| - 1]))
    ensures |s| - |a| + |r| <= |s|
    ensures r == s[|s| - |a|..|s| - |a| + |r|]
  {
    if r != [] {
      assert r[0] == a[0];
    }
  }

  lemma {:induction false} BlankTrimStart(s: string)
    requires IsBlank(s)
    ensures TrimStart(s) == []
  {
    if s != [] {
      BlankTrimStart(s[1..]);
    }
  }

  /** `s.trim() === ''` holds exactly for blank strings. */
  lemma {:induction false} TrimEmptyIffBlank(s: string)
    ensures Trim(s) == [] <==> IsBlank(s)
  {
    var a := TrimStart(s);
    if Trim(s) == [] {
      assert IsBlank(a[0..]);
      assert a[0..] == a;
      assert a == [];
      assert s[..|s|] == s;
    }
    if IsBlank(s) {
      BlankTrimStart(s);
    }
  }

  /** Trimming is idempotent. */
  lemma TrimIdempotent(s: string)
    ensures Trim(Trim(s)) == Trim(s)
  {
  }

  /** ASCII case mapping (the only mapping this model performs). */
  function ToLowerChar(c: char): char {
    if 'A' <= c <= 'Z' then (c as int + 32) as char else c
  }

  function ToUpperChar(c: char): char {
    if 'a' <= c <= 'z' then (c as int - 32) as char else c
  }

  function ToLower(s: string): (r: string)
    ensures |r| == |s|
  {
    seq(|s|, i requires 0 <= i < |s| => ToLowerChar(s[i]))
  }

  function ToUpper(s: string): (r: string)
    ensures |r| == |s|
  {
    seq(|s|, i requires 0 <= i < |s| => ToUpperChar(s[i]))
  }

  lemma ToLowerIdempotent(s: string)
    ensures ToLower(ToLower(s)) == ToLower(s)
  {
  }

  /** String.prototype.startsWith. */
  predicate StartsWith(s: string, prefix: string) {
    |prefix| <= |s| && s[..|prefix|] == prefix
  }

  /** String.prototype.includes: `t` occurs somewhere in `s`. */
  predicate Contains(s: string, t: string) {
    exists i :: 0 <= i <= |s| - |t| && OccursAt(s, t, i)
  }

  /**
   * `field?.toLowerCase().includes(term.toLowerCase())` on an optional text
   * field: a missing field does not match.
   */
  predicate IncludesIgnoringCase(field: Option<string>, term: string) {
    field.Some? && Contains(ToLower(field.value), ToLower(term))
  }

  /** `t` occurs in `s` starting at index `i`. */
  predicate OccursAt(s: string, t: string, i: int) {
    0 <= i <= |s| - |t| && s[i..i + |t|] == t
  }

  lemma ContainsEmpty(s: string)
    ensures Contains(s, "")
  {
    assert OccursAt(s, "", 0);
  }

  lemma ContainsSelf(s: string)
    ensures Contains(s, s)
  {
    assert OccursAt(s, s, 0);
  }

  /** String.prototype.split with a one-character separator. */
  function Split(s: string, sep: char): (parts: seq<string>)
    ensures |parts| >= 1
    ensures forall k :: 0 <= k < |parts| ==> sep !in parts[k]
  {
    if s == [] then [[]]
    else
      var rest := Split(s[1..], sep);
      if s[0] == sep then [[]] + rest else [[s[0]] + rest[0]] + rest[1..]
  }

  lemma SplitFirstNonEmpty(s: string, sep: char)
    requires s != [] && s[0] != sep
    ensures Split(s, sep)[0] != [] && Split(s, sep)[0][0] == s[0]
  {
  }

  /** Where the text after the last separator starts (0 without a separator). */
  function LastPartStart(s: string, sep: char): (i: nat)
    ensures i <= |s|
    ensures i > 0 ==> s[i - 1] == sep
    ensures forall k :: i <= k < |s| ==> s[k] != sep
  {
    if s == [] then 0
    else if s[|s| - 1] == sep then |s|
    else LastPartStart(s[..|s| - 1], sep)
  }

  lemma {:induction false} LastPartStartTail(s: string, sep: char)
    requires s != []
    ensures LastPartStart(s, sep) == (if sep in s[1..] then 1 + LastPartStart(s[1..], sep)
                                      else if s[0] == sep then 1 else 0)
  {
    if |s| == 1 {
      assert s[1..] == [];
    } else if s[|s| - 1] == sep {
      assert s[1..][|s[1..]| - 1] == sep;
    } else {
      var p := s[..|s| - 1];
      LastPartStartTail(p, sep);
      assert p[1..] == s[1..][..|s[1..]| - 1];
      assert sep in s[1..] <==> sep in p[1..] by {
        assert s[1..] == p[1..] + [s[|s| - 1]];
      }
    }
  }

  /** The last part of a split is the text after the last separator. */
  lemma {:induction false} SplitLastPart(s: string, sep: char)
    ensures Split(s, sep)[|Split(s, sep)| - 1] == s[LastPartStart(s, sep)..]
  {
    if s != [] {
      var rest := Split(s[1..], sep);
      SplitLastPart(s[1..], sep);
      LastPartStartTail(s, sep);
      if sep in s[1..] {
        if |rest| == 1 {
          JoinSplit(s[1..], sep);
          assert false;
        }
      } else {
        SplitNoSep(s[1..], sep);
        if s[0] != sep {
          assert [s[0]] + s[1..] == s;
        }
      }
    }
  }

  /** Array.prototype.join with a one-character separator. */
  function Join(parts: seq<string>, sep: char): string
  {
    if |parts| == 0 then []
    else if |parts| == 1 then parts[0]
    else parts[0] + [sep] + Join(parts[1..], sep)
  }

  lemma {:induction false} JoinSplit(s: string, sep: char)
    ensures Join(Split(s, sep), sep) == s
  {
    if s != [] {
      var rest := Split(s[1..], sep);
      JoinSplit(s[1..], sep);
      if s[0] == sep {
        assert Split(s, sep) == [[]] + rest;
      } else {
        var parts := Split(s, sep);
        assert parts == [[s[0]] + rest[0]] + rest[1..];
        if |rest| == 1 {
          assert Join(parts, sep) == [s[0]] + rest[0];
        } else {
          assert parts[1..] == rest[1..];
          assert Join(rest, sep) == rest[0] + [sep] + Join(rest[1..], sep);
        }
      }
    }
  }

  lemma {:induction false} SplitPrefix(a: string, sep: char, b: string)
    requires sep !in a
    ensures Split(a + [sep] + b, sep) == [a] + Split(b, sep)
  {
    if a == [] {
      assert a + [sep] + b == [sep] + b;
      assert ([sep] + b)[1..] == b;
    } else {
      assert (a + [sep] + b)[1..] == a[1..] + [sep] + b;
      SplitPrefix(a[1..], sep, b);
      assert [a[0]] + a[1..] == a;
    }
  }

  lemma {:induction false} SplitNoSep(a: string, sep: char)
    requires sep !in a
    ensures Split(a, sep) == [a]
  {
    if a != [] {
      SplitNoSep(a[1..], sep);
      assert [a[0]] + a[1..] == a;
    }
  }

  /** Splitting a join recovers the parts when no part holds the separator. */
  lemma {:induction false} SplitJoin(parts: seq<string>, sep: char)
    requires |parts| >= 1
    requires forall k :: 0 <= k < |parts| ==> sep !in parts[k]
    ensures Split(Join(parts, sep), sep) == parts
  {
    if |parts| == 1 {
      SplitNoSep(parts[0], sep);
    } else {
      SplitJoin(parts[1..], sep);
      SplitPrefix(parts[0], sep, Join(parts[1..], sep));
      assert [parts[0]] + parts[1..] == parts;
    }
  }

  predicate IsDigit(c: char) {
    '0' <= c <= '9'
  }

  function DigitChar(d: nat): char
    requires d < 10
  {
    ('0' as int + d) as char
  }

  /** Decimal rendering of a natural number, as Number.prototype.toString does. */
  function NatToString(n: nat): (s: string)
    ensures |s| >= 1
    ensures forall i :: 0 <= i < |s| ==> IsDigit(s[i])
    ensures s[0] == '0' ==> n == 0
  {
    if n < 10 then [DigitChar(n)] else NatToString(n / 10) + [DigitChar(n % 10)]
  }

  function IntToString(i: int): (s: string)
    ensures |s| >= 1
  {
    if i < 0 then "-" + NatToString(-i) else NatToString(i)
  }

  /** The value of a string of decimal digits. */
  function DigitsValue(s: string): nat
    requires forall i :: 0 <= i < |s| ==> IsDigit(s[i])
  {
    if s == [] then 0
    else
      assert IsDigit(s[|s| - 1]);
      DigitsValue(s[..|s| - 1]) * 10 + (s[|s| - 1] as int - '0' as int)
  }

  lemma {:induction false} NatToStringValue(n: nat)
    ensures DigitsValue(NatToString(n)) == n
  {
    if n >= 10 {
      var s := NatToString(n);
      NatToStringValue(n / 10);
      assert s[..|s| - 1] == NatToString(n / 10);
    }
  }

  /** Rendering is injective: distinct numbers give distinct text. */
  lemma NatToStringInjective(m: nat, n: nat)
    requires NatToString(m) == NatToString(n)
    ensures m == n
  {
    NatToStringValue(m);
    NatToStringValue(n);
  }

  /** The longest prefix of decimal digits. */
  function DigitPrefix(s: string): (d: string)
    ensures |d| <= |s| && d == s[..|d|]
    ensures forall i :: 0 <= i < |d| ==> IsDigit(s[i])
    ensures |d| < |s| ==> !IsDigit(s[|d|])
  {
    if s != [] && IsDigit(s[0]) then [s[0]] + DigitPrefix(s[1..]) else []
  }

  predicate IsHexDigit(c: char) {
    IsDigit(c) || 'a' <= c <= 'f' || 'A' <= c <= 'F'
  }

  function HexDigitValue(c: char): (v: nat)
    requires IsHexDigit(c)
    ensures v < 16
  {
    if IsDigit(c) then c as int - '0' as int
    else if 'a' <= c <= 'f' then c as int - 'a' as int + 10
    else c as int - 'A' as int + 10
  }

  /** The longest prefix of hexadecimal digits. */
  function HexPrefix(s: string): (d: string)
    ensures |d| <= |s| && d == s[..|d|]
    ensures forall i :: 0 <= i < |d| ==> IsHexDigit(s[i])
    ensures |d| < |s| ==> !IsHexDigit(s[|d|])
  {
    if s != [] && IsHexDigit(s[0]) then [s[0]] + HexPrefix(s[1..]) else []
  }

  /** The value of a string of hexadecimal digits. */
  function HexValue(s: string): nat
    requires forall i :: 0 <= i < |s| ==> IsHexDigit(s[i])
  {
    if s == [] then 0 else HexValue(s[..|s| - 1]) * 16 + HexDigitValue(s[|s| - 1])
  }

  /** `0x` or `0X`, after which parseInt without a radix reads hexadecimal digits. */
  predicate HasHexPrefix(u: string) {
    |u| >= 2 && u[0] == '0' && (u[1] == 'x' || u[1] == 'X')
  }

  /** The global parseInt with no radix argument; None stands for NaN. */
  function ParseInt(s: string): Option<int>
  {
    ParseSigned(TrimStart(s))
  }

  /** The digits after the sign: hexadecimal after `0x`/`0X`, else decimal; None when there are none. */
  function ParseMagnitude(u: string): Option<nat> {
    if HasHexPrefix(u) then
      var hs := HexPrefix(u[2..]);
      if hs == [] then None else Some(HexValue(hs))
    else
      var ds := DigitPrefix(u);
      if ds == [] then None else Some(DigitsValue(ds))
  }

  /** parseInt after the leading whitespace: an optional sign, then the leading digits. */
  function ParseSigned(t: string): Option<int>
  {
    if t != [] && t[0] == '-' then
      match ParseMagnitude(t[1..])
      case None => None
      case Some(v) => Some(-(v as int))
    else if t != [] && t[0] == '+' then
      match ParseMagnitude(t[1..])
      case None => None
      case Some(v) => Some(v as int)
    else
      match ParseMagnitude(t)
      case None => None
      case Some(v) => Some(v as int)
  }

  /** A `0x` prefix switches to hexadecimal. */
  lemma ParseIntHexExamples()
    ensures ParseMagnitude("0x10") == Some(16) && ParseInt("0x10") == Some(16)
  {
    assert TrimStart("0x10") == "0x10";
    assert "0x10"[2..] == "10" && HexPrefix("10") == "10";
    assert HexValue("10") == 16 by { assert "10"[..1] == "1"; assert "1"[..0] == ""; }
  }

  /** The prefix comes after the sign. */
  lemma ParseIntNegativeHexExample()
    ensures ParseInt("-0x10") == Some(-16)
  {
    assert TrimStart("-0x10") == "-0x10";
    assert ParseSigned("-0x10") == Some(-16) by {
      ParseIntHexExamples();
      assert "-0x10"[1..] == "0x10";
    }
  }

  /** Hexadecimal digits in either case. */
  lemma ParseIntUpperHexExample()
    ensures ParseInt("0X1f") == Some(31)
  {
    assert TrimStart("0X1f") == "0X1f";
    assert ParseSigned("0X1f") == Some(31) by {
      assert "0X1f"[2..] == "1f" && HexPrefix("1f") == "1f";
      assert HexValue("1f") == 31 by { assert "1f"[..1] == "1"; assert "1"[..0] == ""; }
    }
  }

  /** The hexadecimal digits stop at the first other character. */
  lemma ParseIntHexStopsExample()
    ensures ParseInt("0x1g") == Some(1)
  {
    assert TrimStart("0x1g") == "0x1g";
    assert ParseSigned("0x1g") == Some(1) by {
      assert "0x1g"[2..] == "1g" && HexPrefix("1g") == "1";
      assert HexValue("1") == 1 by { assert "1"[..0] == ""; }
    }
  }

  /** With no hexadecimal digit after the prefix the result is NaN, not 0. */
  lemma ParseIntHexEmptyExamples()
    ensures ParseInt("0x") == None && ParseInt("0xg") == None
  {
    assert TrimStart("0x") == "0x";
    assert "0x"[2..] == "";
    assert TrimStart("0xg") == "0xg";
    assert "0xg"[2..] == "g" && HexPrefix("g") == "";
  }

  lemma {:induction false} DigitPrefixAll(s: string)
    requires forall i :: 0 <= i < |s| ==> IsDigit(s[i])
    ensures DigitPrefix(s) == s
  {
    if s != [] {
      DigitPrefixAll(s[1..]);
      assert [s[0]] + s[1..] == s;
    }
  }

  lemma DigitNotWhitespace(c: char)
    requires IsDigit(c)
    ensures !IsWhitespace(c)
  {
  }

  lemma {:induction false} DigitPrefixStops(ds: string, rest: string)
    requires forall i :: 0 <= i < |ds| ==> IsDigit(ds[i])
    requires rest == [] || !IsDigit(rest[0])
    ensures DigitPrefix(ds + rest) == ds
  {
    if ds != [] {
      DigitPrefixStops(ds[1..], rest);
      assert (ds + rest)[1..] == ds[1..] + rest;
      assert [ds[0]] + ds[1..] == ds;
    }
  }


  /** What follows the digits of `n`: no digit, and no 'x' or 'X' after a lone 0 (which would make it hexadecimal). */
  predicate EndsDigitsOf(n: nat, rest: string) {
    rest == [] || (!IsDigit(rest[0]) && (n == 0 ==> rest[0] != 'x' && rest[0] != 'X'))
  }

  lemma DecimalNotHex(n: nat, rest: string)
    requires EndsDigitsOf(n, rest)
    ensures !HasHexPrefix(NatToString(n) + rest)
  {
    var d := NatToString(n);
    if |d| >= 2 {
      assert (d + rest)[1] == d[1];
    } else if rest != [] {
      assert (d + rest)[1] == rest[0];
    }
  }

  lemma {:induction false} ParseNatRoundTrip(n: nat, rest: string)
    requires EndsDigitsOf(n, rest)
    ensures ParseInt(NatToString(n) + rest) == Some(n)
  {
    var s := NatToString(n) + rest;
    DigitNotWhitespace(s[0]);
    assert TrimStart(s) == s;
    DecimalNotHex(n, rest);
    DigitPrefixStops(NatToString(n), rest);
    NatToStringValue(n);
  }

  lemma {:induction false} ParseNegRoundTrip(n: nat, rest: string)
    requires n > 0
    requires rest == [] || !IsDigit(rest[0])
    ensures ParseInt("-" + NatToString(n) + rest) == Some(-(n as int))
  {
    var s := "-" + NatToString(n) + rest;
    assert !IsWhitespace(s[0]);
    assert TrimStart(s) == s;
    assert s[1..] == NatToString(n) + rest;
    assert s[1..][0] == NatToString(n)[0];
    DigitPrefixStops(NatToString(n), rest);
    NatToStringValue(n);
  }

  /** parseInt reads the decimal text of an integer back, ignoring what follows a non-digit. */
  lemma ParseIntWithSuffix(i: int, rest: string)
    requires rest == [] || !IsDigit(rest[0])
    requires i == 0 && rest != [] ==> rest[0] != 'x' && rest[0] != 'X'
    ensures ParseInt(IntToString(i) + rest) == Some(i)
  {
    if i < 0 {
      var n: nat := -i;
      assert IntToString(i) + rest == "-" + NatToString(n) + rest;
      ParseNegRoundTrip(n, rest);
    } else {
      assert IntToString(i) == NatToString(i);
      ParseNatRoundTrip(i, rest);
    }
  }

  /** Text that starts with a letter has no leading digits: parseInt gives NaN. */
  lemma ParseIntOfLetter(s: string)
    requires s != [] && 'a' <= s[0] <= 'z'
    ensures ParseInt(s) == None
  {
    assert !IsWhitespace(s[0]) && !IsDigit(s[0]);
    assert TrimStart(s) == s;
    assert DigitPrefix(s) == [];
  }

  /** Parsing the decimal text of an integer gives the integer back. */
  lemma ParseIntRoundTrip(i: int)
    ensures ParseInt(IntToString(i)) == Some(i)
  {
    ParseIntWithSuffix(i, []);
    assert IntToString(i) + [] == IntToString(i);
  }

  /** The relational `<` on strings, taken over code points (JavaScript compares UTF-16 code units): compared in order, a proper prefix first. */
  predicate StrLess(a: string, b: string)
    decreases |a|
  {
    if a == [] then b != []
    else if b == [] then false
    else if a[0] != b[0] then a[0] < b[0]
    else StrLess(a[1..], b[1..])
  }

  /** Of two strings exactly one of: equal, the first less, the second less. */
  lemma {:induction false} StrLessTrichotomy(a: string, b: string)
    ensures (a == b) != (StrLess(a, b) || StrLess(b, a))
    ensures !(StrLess(a, b) && StrLess(b, a))
    decreases |a|
  {
    if a != [] && b != [] && a[0] == b[0] {
      StrLessTrichotomy(a[1..], b[1..]);
      assert a == [a[0]] + a[1..] && b == [b[0]] + b[1..];
    }
  }

  lemma {:induction false} StrLessTransitive(a: string, b: string, c: string)
    requires StrLess(a, b) && StrLess(b, c)
    ensures StrLess(a, c)
    decreases |a|
  {
    if a != [] && a[0] == b[0] && b[0] == c[0] {
      StrLessTransitive(a[1..], b[1..], c[1..]);
    }
  }
}
