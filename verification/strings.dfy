/**
 * The JavaScript string operations the components rely on, over `seq<char>`:
 * `toLowerCase`, `includes`, `split(sep)[0]`, `slice`, `replace` with a
 * one-character pattern, the decimal rendering of an integer in a template
 * literal, and the global `parseInt` with no radix (`None` standing for `NaN`).
 */
module Strings {
  import opened Wrappers
  import opened Lists

  predicate IsUpper(c: char) { 'A' <= c <= 'Z' }

  /** The lower-case form of one character (ASCII letters only). */
  function LowerChar(c: char): char
  {
    if IsUpper(c) then (c as int - 'A' as int + 'a' as int) as char else c
  }

  /** `s.toLowerCase()`. */
  function ToLowerCase(s: string): (r: string)
    ensures |r| == |s|
    ensures forall i :: 0 <= i < |s| ==> r[i] == LowerChar(s[i])
    ensures forall i :: 0 <= i < |r| ==> !IsUpper(r[i])
  {
    seq(|s|, i requires 0 <= i < |s| => LowerChar(s[i]))
  }

  /** Lower-casing works character by character, so it distributes over concatenation. */
  lemma ToLowerCaseConcat(a: string, b: string)
    ensures ToLowerCase(a + b) == ToLowerCase(a) + ToLowerCase(b)
  {
  }

  /** Lower-casing twice is lower-casing once. */
  lemma ToLowerCaseIdempotent(s: string)
    ensures ToLowerCase(ToLowerCase(s)) == ToLowerCase(s)
  {
  }

  /** `sub` occurs in `s` starting at position `i`. */
  ghost predicate OccursAt(s: string, sub: string, i: int)
  {
    0 <= i && i + |sub| <= |s| && s[i..i + |sub|] == sub
  }

  /** `s.includes(sub)`: `sub` occurs somewhere in `s` as a contiguous block. */
  function Includes(s: string, sub: string): (b: bool)
    ensures b <==> exists i :: OccursAt(s, sub, i)
    decreases |s|
  {
    if |sub| > |s| then
      false
    else if s[..|sub|] == sub then
      assert OccursAt(s, sub, 0);
      true
    else
      var b := Includes(s[1..], sub);
      assert forall i :: OccursAt(s[1..], sub, i) <==> OccursAt(s, sub, i + 1) by {
        forall i ensures OccursAt(s[1..], sub, i) <==> OccursAt(s, sub, i + 1) {
          if 0 <= i && i + |sub| <= |s| - 1 {
            assert s[1..][i..i + |sub|] == s[i + 1..i + 1 + |sub|];
          }
        }
      }
      assert b ==> exists i :: OccursAt(s, sub, i) by {
        if b {
          var i :| OccursAt(s[1..], sub, i);
          assert OccursAt(s, sub, i + 1);
        }
      }
      assert (exists i :: OccursAt(s, sub, i)) ==> b by {
        if exists i :: OccursAt(s, sub, i) {
          var i :| OccursAt(s, sub, i);
          assert i != 0;
          assert OccursAt(s[1..], sub, i - 1);
        }
      }
      b
  }

  /** `sub` is not in `a + [c] + b` when its first character occurs only as that `c` and the
    * character after `c` is not the second character of `sub`. */
  lemma NotIncludedAroundLoneStart(s: string, a: string, c: char, b: string, sub: string)
    requires s == a + [c] + b
    requires |sub| >= 2 && sub[0] == c && sub[0] !in a && sub[0] !in b
    requires b == [] || b[0] != sub[1]
    ensures !Includes(s, sub)
  {
    forall i ensures !OccursAt(s, sub, i) {
      if 0 <= i && i + |sub| <= |s| {
        var w := s[i..i + |sub|];
        if i < |a| {
          assert w[0] == a[i];
        } else if i == |a| {
          assert w[1] == b[0];
        } else {
          assert w[0] == b[i - |a| - 1];
        }
      }
    }
  }

  /** Every character of an included string occurs in the including one. */
  lemma IncludesNeedsChar(s: string, sub: string, c: char)
    requires Includes(s, sub) && c in sub
    ensures c in s
  {
    var i :| OccursAt(s, sub, i);
    var k :| 0 <= k < |sub| && sub[k] == c;
    assert s[i..i + |sub|][k] == c;
  }

  /** `s.startsWith(prefix)`. */
  predicate StartsWith(s: string, prefix: string)
  {
    |prefix| <= |s| && s[..|prefix|] == prefix
  }

  /** A string starts with whatever was put in front of it. */
  lemma StartsWithConcat(prefix: string, rest: string)
    ensures StartsWith(prefix + rest, prefix)
  {
    assert (prefix + rest)[..|prefix|] == prefix;
  }

  /** `s.endsWith(suffix)`. */
  predicate EndsWith(s: string, suffix: string)
  {
    |suffix| <= |s| && s[|s| - |suffix|..] == suffix
  }

  /** `s.split(sep)[0]`: the text before the first `sep`, or all of `s` when it has none. */
  function BeforeFirst(s: string, sep: char): (r: string)
    ensures |r| <= |s| && r == s[..|r|]
    ensures sep !in r
    ensures |r| < |s| ==> s[|r|] == sep
  {
    if s == [] || s[0] == sep then []
    else
      var rest := BeforeFirst(s[1..], sep);
      assert [s[0]] + rest == s[..|rest| + 1];
      [s[0]] + rest
  }

  /** A string ends with whatever was put after it. */
  lemma EndsWithConcat(front: string, suffix: string)
    ensures EndsWith(front + suffix, suffix)
  {
    var s := front + suffix;
    assert s[|s| - |suffix|..] == suffix;
  }

  /** `split(sep)[0]` stops at the first `sep`. */
  lemma BeforeFirstAt(s: string, sep: char)
    ensures sep !in s ==> BeforeFirst(s, sep) == s
    ensures forall k :: 0 <= k < |s| && s[k] == sep && sep !in s[..k] ==> BeforeFirst(s, sep) == s[..k]
  {
    var r := BeforeFirst(s, sep);
    forall k | 0 <= k < |s| && s[k] == sep && sep !in s[..k] ensures r == s[..k] {
      assert |r| >= k;
    }
    if sep !in s {
      assert |r| == |s|;
    }
  }

  /** The start index `s.slice(start)` uses: a negative start counts back from the end. */
  function SliceStart(len: nat, start: int): (k: nat)
    ensures k <= len
  {
    if start < 0 then (if len + start < 0 then 0 else len + start)
    else if start > len then len
    else start
  }

  /** `s.slice(start)` with one argument. */
  function Slice(s: string, start: int): (r: string)
    ensures start < 0 ==> |r| == if -start < |s| then -start else |s|
    ensures start >= 0 ==> |r| == if start < |s| then |s| - start else 0
    ensures |r| <= |s| && r == s[|s| - |r|..]
  {
    s[SliceStart(|s|, start)..]
  }

  /** `s.replace(c, '')` for a one-character pattern: the first `c`, if any, is removed. */
  function RemoveFirst(s: string, c: char): (r: string)
    ensures c !in s ==> r == s
    ensures c in s ==> |r| == |s| - 1
    ensures forall k :: 0 <= k < |s| && s[k] == c && c !in s[..k] ==> r == s[..k] + s[k + 1..]
  {
    match FirstIndex(x => x == c, s)
    case None => s
    case Some(k) =>
      s[..k] + s[k + 1..]
  }

  // ---------------------------------------------------------------------------
  // Numbers as text

  /** The value of an alphanumeric digit in radix 36, and 36 for any other character. */
  function DigitOf(c: char): (d: nat)
    ensures d <= 36
  {
    if '0' <= c <= '9' then c as int - '0' as int
    else if 'a' <= c <= 'z' then c as int - 'a' as int + 10
    else if 'A' <= c <= 'Z' then c as int - 'A' as int + 10
    else 36
  }

  /** The character of a decimal digit. */
  function DecimalChar(d: nat): (c: char)
    requires d < 10
    ensures DigitOf(c) == d && '0' <= c <= '9'
  {
    ('0' as int + d) as char
  }

  /** The decimal rendering of a non-negative integer, as `${n}` gives it. */
  function NatToString(n: nat): (s: string)
    ensures |s| > 0
    ensures forall i :: 0 <= i < |s| ==> '0' <= s[i] <= '9'
    ensures |s| > 1 ==> s[0] != '0'
  {
    if n < 10 then [DecimalChar(n)] else NatToString(n / 10) + [DecimalChar(n % 10)]
  }

  /** The rendering of an integer, as `${i}` gives it: a minus sign before a negative one. */
  function IntToString(i: int): (s: string)
    ensures |s| > 0 && (i < 0 <==> s[0] == '-')
  {
    if i < 0 then "-" + NatToString(-i) else NatToString(i)
  }

  /** The longest prefix of `s` made of digits valid in `radix`. */
  function LeadingDigits(s: string, radix: nat): (ds: string)
    ensures |ds| <= |s| && ds == s[..|ds|]
    ensures forall i :: 0 <= i < |ds| ==> DigitOf(ds[i]) < radix
    ensures |ds| < |s| ==> DigitOf(s[|ds|]) >= radix
  {
    if s == [] || DigitOf(s[0]) >= radix then []
    else
      var rest := LeadingDigits(s[1..], radix);
      assert [s[0]] + rest == s[..|rest| + 1];
      [s[0]] + rest
  }

  /** The value of a string of digits in `radix`, most significant first. */
  function DigitsValue(ds: string, radix: nat): nat
    decreases |ds|
  {
    if ds == [] then 0
    else DigitsValue(ds[..|ds| - 1], radix) * radix + (if DigitOf(ds[|ds| - 1]) < radix then DigitOf(ds[|ds| - 1]) else 0)
  }

  /** The characters `String.prototype.trim` and `parseInt` treat as white space. */
  predicate IsJsWhiteSpace(c: char)
  {
    c == '\t' || c == '\n' || c == '\U{000B}' || c == '\U{000C}' || c == '\r' || c == ' ' ||
    c == '\U{00A0}' || c == '\U{1680}' || ('\U{2000}' <= c <= '\U{200A}') || c == '\U{2028}' ||
    c == '\U{2029}' || c == '\U{202F}' || c == '\U{205F}' || c == '\U{3000}' || c == '\U{FEFF}'
  }

  /** `s` without its leading white space. */
  function TrimStart(s: string): (r: string)
    ensures |r| <= |s| && r == s[|s| - |r|..]
    ensures forall i :: 0 <= i < |s| - |r| ==> IsJsWhiteSpace(s[i])
    ensures r != [] ==> !IsJsWhiteSpace(r[0])
  {
    if s != [] && IsJsWhiteSpace(s[0]) then TrimStart(s[1..]) else s
  }

  /** `parseInt(s)` with no radix; `None` is `NaN`. Leading white space is skipped, then a
    * sign is read, then the digits. */
  function ParseInt(s: string): (r: Option<int>)
    ensures TrimStart(s) == [] ==> r.None?
  {
    ParseSigned(TrimStart(s))
  }

  /** A leading `-` negates the unsigned value that follows, a leading `+` is skipped. */
  function ParseSigned(t: string): (r: Option<int>)
    ensures t != [] && t[0] == '-' ==> r.Some? == ParseUnsigned(t[1..]).Some?
  {
    if t != [] && t[0] == '-' then
      match ParseUnsigned(t[1..])
      case None => None
      case Some(v) => Some(-v)
    else if t != [] && t[0] == '+' then ParseUnsigned(t[1..])
    else ParseUnsigned(t)
  }

  /** A `0x`/`0X` prefix selects radix 16, otherwise radix 10; the longest run of digits of that
    * radix is read, and no digit at all gives `NaN`. */
  function ParseUnsigned(u: string): (r: Option<int>)
    ensures r.None? <==> LeadingDigits(if HasHexPrefix(u) then u[2..] else u, if HasHexPrefix(u) then 16 else 10) == []
  {
    var radix := if HasHexPrefix(u) then 16 else 10;
    var ds := LeadingDigits(if HasHexPrefix(u) then u[2..] else u, radix);
    if ds == [] then None else Some(DigitsValue(ds, radix))
  }

  predicate HasHexPrefix(u: string)
  {
    |u| >= 2 && u[0] == '0' && (u[1] == 'x' || u[1] == 'X')
  }

  /** Reading back the decimal rendering of `n` gives `n`. */
  lemma {:induction false} NatToStringValue(n: nat)
    ensures DigitsValue(NatToString(n), 10) == n
  {
    var s := NatToString(n);
    if n >= 10 {
      NatToStringValue(n / 10);
      assert s[..|s| - 1] == NatToString(n / 10);
    }
  }

  /** `parseInt` only succeeds on text holding a decimal digit: even `0x` text starts with `0`. */
  lemma ParseIntNeedsDigit(s: string)
    ensures ParseInt(s).Some? ==> exists k :: 0 <= k < |s| && '0' <= s[k] <= '9'
  {
    if ParseInt(s).Some? {
      var t := TrimStart(s);
      var u := if t != [] && (t[0] == '-' || t[0] == '+') then t[1..] else t;
      assert ParseUnsigned(u).Some?;
      assert u != [] && '0' <= u[0] <= '9';
      assert s[|s| - |u|] == u[0];
    }
  }

  /** `parseInt` reads hexadecimal after a `0x` prefix: `0x1A` is 26. */
  lemma ParseIntHex()
    ensures ParseInt("0x1A") == Some(26)
  {
    ParseUnsignedHexPair('1', 'A');
    ParseIntUnsigned("0x1A", 26);
  }

  /** A sign may precede the hexadecimal prefix: `-0x10` is -16. */
  lemma ParseIntSignedHex()
    ensures ParseInt("-" + "0x10") == Some(-16)
  {
    ParseUnsignedHexPair('1', '0');
    ParseIntMinus("0x10", 16);
  }

  /** `0x` and two hexadecimal digits read as 16a+b. */
  lemma ParseUnsignedHexPair(a: char, b: char)
    requires DigitOf(a) < 16 && DigitOf(b) < 16
    ensures ParseUnsigned(['0', 'x', a, b]) == Some(16 * DigitOf(a) + DigitOf(b))
  {
    var u := ['0', 'x', a, b];
    assert HasHexPrefix(u) && u[2..] == [a, b];
    DigitPair(a, b, 16);
  }

  /** Two digits of `radix` are read whole, as radix * a + b. */
  lemma DigitPair(a: char, b: char, radix: nat)
    requires DigitOf(a) < radix && DigitOf(b) < radix
    ensures LeadingDigits([a, b], radix) == [a, b]
    ensures DigitsValue([a, b], radix) == radix * DigitOf(a) + DigitOf(b)
  {
    var ds := [a, b];
    assert ds[1..] == [b] && [b][1..] == [];
    TwoDigitsValue(a, b, radix);
  }

  /** Text with no digit at all, empty or a lone sign, is `NaN`. */
  lemma ParseIntNoDigits()
    ensures ParseInt("") == None && ParseInt("-") == None
  {
    assert TrimStart("-") == "-" by { assert !IsJsWhiteSpace('-'); }
    assert "-"[1..] == [];
  }

  /** No `x` after the digits: a lone `0` followed by `x` would read as a hexadecimal prefix. */
  predicate EndsNumber(rest: string)
  {
    rest == [] || (DigitOf(rest[0]) >= 10 && rest[0] != 'x' && rest[0] != 'X')
  }

  /** `parseInt` reads back what `${i}` wrote, whatever non-digit text follows it. */
  lemma ParseIntOfRendered(i: int, rest: string)
    requires EndsNumber(rest)
    ensures ParseInt(IntToString(i) + rest) == Some(i)
  {
    if i < 0 {
      ParseIntOfMinusRendered(-i, rest);
      assert IntToString(i) + rest == "-" + NatToString(-i) + rest;
    } else {
      ParseIntOfNatRendered(i, rest);
    }
  }

  lemma ParseIntOfNatRendered(n: nat, rest: string)
    requires EndsNumber(rest)
    ensures ParseInt(NatToString(n) + rest) == Some(n)
  {
    var u := NatToString(n) + rest;
    assert u[0] == NatToString(n)[0];
    assert u != [] && u[0] != '-' && u[0] != '+';
    NotWhiteSpace(u);
    assert ParseInt(u) == ParseSigned(u);
    assert ParseSigned(u) == ParseUnsigned(u);
    ParseUnsignedOfRendered(n, rest);
  }

  lemma ParseIntOfMinusRendered(n: nat, rest: string)
    requires EndsNumber(rest)
    ensures ParseInt("-" + NatToString(n) + rest) == Some(-(n as int))
  {
    var u := NatToString(n) + rest;
    assert "-" + NatToString(n) + rest == "-" + u;
    ParseUnsignedOfRendered(n, rest);
    ParseIntMinus(u, n);
  }

  /** `parseInt` also reads back `+${n}`. */
  lemma ParseIntOfPlusRendered(n: nat, rest: string)
    requires EndsNumber(rest)
    ensures ParseInt("+" + NatToString(n) + rest) == Some(n)
  {
    var u := NatToString(n) + rest;
    assert "+" + NatToString(n) + rest == "+" + u;
    ParseUnsignedOfRendered(n, rest);
    ParseIntPlus(u, n);
  }

  /** A leading minus negates what follows. */
  lemma ParseIntMinus(u: string, v: int)
    requires ParseUnsigned(u) == Some(v)
    ensures ParseInt("-" + u) == Some(-v)
  {
    var s := "-" + u;
    assert s[0] == '-' && s[1..] == u;
    NotWhiteSpace(s);
    assert ParseInt(s) == ParseSigned(s);
  }

  /** A leading plus is skipped. */
  lemma ParseIntPlus(u: string, v: int)
    requires ParseUnsigned(u) == Some(v)
    ensures ParseInt("+" + u) == Some(v)
  {
    var s := "+" + u;
    assert s[0] == '+' && s[1..] == u;
    NotWhiteSpace(s);
    assert ParseInt(s) == ParseSigned(s);
  }

  lemma NotWhiteSpace(s: string)
    requires s != [] && (s[0] == '-' || s[0] == '+' || '0' <= s[0] <= '9')
    ensures TrimStart(s) == s
  {
    assert !IsJsWhiteSpace(s[0]);
  }

  lemma ParseUnsignedOfRendered(n: nat, rest: string)
    requires EndsNumber(rest)
    ensures ParseUnsigned(NatToString(n) + rest) == Some(n)
  {
    var ds := NatToString(n);
    var u := ds + rest;
    assert !HasHexPrefix(u) by {
      if |u| >= 2 && u[0] == '0' {
        assert |ds| == 1;
        assert u[1] == rest[0];
      }
    }
    LeadingDigitsOfRendered(ds, rest);
    NatToStringValue(n);
  }

  lemma {:induction false} LeadingDigitsOfRendered(ds: string, rest: string)
    requires forall i :: 0 <= i < |ds| ==> '0' <= ds[i] <= '9'
    requires rest == [] || DigitOf(rest[0]) >= 10
    ensures LeadingDigits(ds + rest, 10) == ds
  {
    if ds != [] {
      assert (ds + rest)[1..] == ds[1..] + rest;
      LeadingDigitsOfRendered(ds[1..], rest);
    } else {
      assert ds + rest == rest;
    }
  }

  /** `parseInt` reads a run of decimal digits as its decimal value, whatever follows it. */
  lemma ParseIntOfDigits(ds: string, rest: string)
    requires |ds| > 0
    requires forall i :: 0 <= i < |ds| ==> '0' <= ds[i] <= '9'
    requires EndsNumber(rest)
    ensures ParseInt(ds + rest) == Some(DigitsValue(ds, 10))
  {
    ParseUnsignedOfDigits(ds, rest);
    assert (ds + rest)[0] == ds[0];
    ParseIntUnsigned(ds + rest, DigitsValue(ds, 10));
  }

  lemma ParseUnsignedOfDigits(ds: string, rest: string)
    requires |ds| > 0
    requires forall i :: 0 <= i < |ds| ==> '0' <= ds[i] <= '9'
    requires EndsNumber(rest)
    ensures ParseUnsigned(ds + rest) == Some(DigitsValue(ds, 10))
  {
    var u := ds + rest;
    assert !HasHexPrefix(u) by {
      if |u| >= 2 && u[0] == '0' {
        if |ds| >= 2 {
          assert u[1] == ds[1];
        } else {
          assert u[1] == rest[0];
        }
      }
    }
    LeadingDigitsOfRendered(ds, rest);
  }

  /** With no white space and no sign in front, `parseInt` is the unsigned reading. */
  lemma ParseIntUnsigned(u: string, v: int)
    requires u != [] && '0' <= u[0] <= '9'
    requires ParseUnsigned(u) == Some(v)
    ensures ParseInt(u) == Some(v)
  {
    NotWhiteSpace(u);
    assert ParseInt(u) == ParseSigned(u);
  }

  /** Two digits of `radix`, most significant first. */
  lemma TwoDigitsValue(a: char, b: char, radix: nat)
    requires DigitOf(a) < radix && DigitOf(b) < radix
    ensures DigitsValue([a, b], radix) == radix * DigitOf(a) + DigitOf(b)
  {
    assert [a, b][..1] == [a] && [a][..0] == [];
    assert DigitsValue([a], radix) == DigitOf(a);
    assert DigitsValue([a, b], radix) == DigitsValue([a], radix) * radix + DigitOf(b);
  }

  /** `parseInt` of two decimal digits, a leading zero included. */
  lemma ParseTwoDigits(a: char, b: char)
    requires '0' <= a <= '9' && '0' <= b <= '9'
    ensures ParseInt([a, b]) == Some(10 * DigitOf(a) + DigitOf(b))
  {
    var ds := [a, b];
    DigitPair(a, b, 10);
    assert !HasHexPrefix(ds);
    assert ParseUnsigned(ds) == Some(10 * DigitOf(a) + DigitOf(b));
    ParseIntUnsigned(ds, 10 * DigitOf(a) + DigitOf(b));
  }
}
