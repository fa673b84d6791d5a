/**
 * The JavaScript string operations the handlers and components rely on:
 * `trim`, `toLowerCase`, `startsWith`, `includes`, `split(',')[0]`,
 * number-to-string conversion and `parseInt`.
 */
module Strings {
  import opened Wrappers

  /** The code points `String.prototype.trim` removes: WhiteSpace and LineTerminator. */
  predicate IsSpace(c: char) {
    || c == '\t' || c == '\n' || c == '\U{000B}' || c == '\U{000C}' || c == '\r' || c == ' '
    || c == '\U{00A0}' || c == '\U{1680}' || ('\U{2000}' <= c <= '\U{200A}')
    || c == '\U{2028}' || c == '\U{2029}' || c == '\U{202F}' || c == '\U{205F}'
    || c == '\U{3000}' || c == '\U{FEFF}'
  }

  predicate IsBlank(s: string) {
    forall i :: 0 <= i < |s| ==> IsSpace(s[i])
  }

  /** Drops leading white space: a suffix of `s` that starts with a non-space, or is empty. */
  function TrimStart(s: string): (r: string)
    ensures |r| <= |s| && r == s[|s| - |r|..]
    ensures IsBlank(s[..|s| - |r|])
    ensures r != [] ==> !IsSpace(r[0])
  {
    if s != [] && IsSpace(s[0]) then
      var r := TrimStart(s[1..]);
      assert s[..|s| - |r|] == [s[0]] + s[1..][..|s| - 1 - |r|];
      r
    else
      s
  }

  /** Drops trailing white space: a prefix of `s` that ends with a non-space, or is empty. */
  function TrimEnd(s: string): (r: string)
    ensures |r| <= |s| && r == s[..|r|]
    ensures IsBlank(s[|r|..])
    ensures r != [] ==> !IsSpace(r[|r| - 1])
  {
    if s != [] && IsSpace(s[|s| - 1]) then
      var init := s[..|s| - 1];
      var r := TrimEnd(init);
      assert init[..|r|] == s[..|r|];
      assert s[|r|..] == init[|r|..] + [s[|s| - 1]];
      r
    else
      s
  }

  /** `s.trim()`: empty exactly when `s` is all white space, otherwise bounded by non-spaces. */
  function Trim(s: string): (r: string)
    ensures |r| <= |s|
    ensures r == [] <==> IsBlank(s)
    ensures r != [] ==> !IsSpace(r[0]) && !IsSpace(r[|r| - 1])
    ensures forall c :: c in r ==> c in s
    ensures exists i, j :: 0 <= i <= j <= |s| && r == s[i..j] && IsBlank(s[..i]) && IsBlank(s[j..])
  {
    var t := TrimStart(s);
    var r := TrimEnd(t);
    TrimmedSlice(s, t, r);
    r
  }

  /** Dropping a blank run from each end leaves a slice of `s` with blank runs around it. */
  lemma TrimmedSlice(s: string, t: string, r: string)
    requires |t| <= |s| && t == s[|s| - |t|..] && IsBlank(s[..|s| - |t|])
    requires |r| <= |t| && r == t[..|r|] && IsBlank(t[|r|..])
    ensures exists i, j :: 0 <= i <= j <= |s| && r == s[i..j] && IsBlank(s[..i]) && IsBlank(s[j..])
    ensures forall c :: c in r ==> c in s
  {
    var i := |s| - |t|;
    var j := i + |r|;
    assert s[i..j] == t[..|r|];
    assert s[j..] == t[|r|..];
  }

  /** Lower-casing of one character (ASCII letters only). */
  function LowerChar(c: char): (d: char)
    ensures !('A' <= d <= 'Z')
    ensures IsSpace(d) == IsSpace(c)
    ensures !('A' <= c <= 'Z') ==> d == c
  {
    if 'A' <= c <= 'Z' then (c as int + 32) as char else c
  }

  /** `s.toLowerCase()`, character by character. */
  function Lower(s: string): (r: string)
    ensures |r| == |s|
    ensures forall i :: 0 <= i < |s| ==> r[i] == LowerChar(s[i])
  {
    seq(|s|, i requires 0 <= i < |s| => LowerChar(s[i]))
  }

  lemma LowerIdempotent(s: string)
    ensures Lower(Lower(s)) == Lower(s)
  {
  }

  lemma LowerKeepsBlank(s: string)
    ensures IsBlank(Lower(s)) == IsBlank(s)
  {
  }

  /**
   * The tag-name normalisation `name.trim().toLowerCase()` shared by the tag editor and the
   * tags route: empty exactly for a blank name, and already lower-case.
   */
  function Normalize(name: string): (r: string)
    ensures r == "" <==> IsBlank(name)
    ensures Lower(r) == r
    ensures |r| <= |name|
  {
    LowerKeepsBlank(Trim(name));
    LowerIdempotent(Trim(name));
    Lower(Trim(name))
  }

  /** `s.startsWith(prefix)`. */
  predicate StartsWith(s: string, prefix: string) {
    |prefix| <= |s| && s[..|prefix|] == prefix
  }

  /** `s.includes(sub)`, by scanning the start positions of `s` in turn. */
  predicate Contains(s: string, sub: string)
    decreases |s|
  {
    StartsWith(s, sub) || (s != [] && Contains(s[1..], sub))
  }

  /** The scan agrees with the definition by position: some suffix of `s` starts with `sub`. */
  lemma {:induction false} ContainsIffOccurs(s: string, sub: string)
    ensures Contains(s, sub) <==> exists i :: 0 <= i <= |s| && StartsWith(s[i..], sub)
  {
    if s == [] {
      if Contains(s, sub) { assert StartsWith(s[0..], sub); }
    } else {
      ContainsIffOccurs(s[1..], sub);
      if Contains(s, sub) {
        if StartsWith(s, sub) {
          assert StartsWith(s[0..], sub);
        } else {
          var i :| 0 <= i <= |s| - 1 && StartsWith(s[1..][i..], sub);
          assert s[1..][i..] == s[i + 1..];
        }
      }
      if exists i :: 0 <= i <= |s| && StartsWith(s[i..], sub) {
        var i :| 0 <= i <= |s| && StartsWith(s[i..], sub);
        if i > 0 {
          assert s[1..][i - 1..] == s[i..];
        } else {
          assert s[0..] == s;
        }
      }
    }
  }

  /** `s.split(sep)[0]`: the text before the first `sep`, or all of `s` when there is none. */
  function BeforeFirst(s: string, sep: char): (r: string)
    ensures |r| <= |s| && r == s[..|r|]
    ensures sep !in r
    ensures |r| < |s| ==> s[|r|] == sep
  {
    if s == [] || s[0] == sep then [] else [s[0]] + BeforeFirst(s[1..], sep)
  }

  function DigitChar(d: nat): (c: char)
    requires d < 10
    ensures '0' <= c <= '9'
  {
    ('0' as int + d) as char
  }

  /** Decimal notation of a natural number, with no leading zeros. */
  function NatToDecimal(n: nat): (r: string)
    ensures |r| >= 1
    ensures forall i :: 0 <= i < |r| ==> '0' <= r[i] <= '9'
    ensures r[0] == '0' ==> n == 0 && |r| == 1
  {
    if n < 10 then [DigitChar(n)] else NatToDecimal(n / 10) + [DigitChar(n % 10)]
  }

  /** `String(n)` for an integer `n`. */
  function IntToDecimal(n: int): string {
    if n < 0 then "-" + NatToDecimal(-n) else NatToDecimal(n)
  }

  /** The value of a digit in bases up to 36; 36 for anything that is not a digit. */
  function DigitValue(c: char): nat {
    if '0' <= c <= '9' then c as int - '0' as int
    else if 'a' <= c <= 'z' then c as int - 'a' as int + 10
    else if 'A' <= c <= 'Z' then c as int - 'A' as int + 10
    else 36
  }

  /** The longest prefix of `s` made of digits of base `radix`. */
  function DigitPrefix(s: string, radix: nat): (r: string)
    ensures |r| <= |s| && r == s[..|r|]
    ensures forall i :: 0 <= i < |r| ==> DigitValue(r[i]) < radix
    ensures |r| < |s| ==> DigitValue(s[|r|]) >= radix
  {
    if s != [] && DigitValue(s[0]) < radix then [s[0]] + DigitPrefix(s[1..], radix) else []
  }

  function DigitsValue(digits: string, radix: nat): nat {
    if digits == [] then 0
    else DigitsValue(digits[..|digits| - 1], radix) * radix + DigitValue(digits[|digits| - 1])
  }

  /**
   * JavaScript's `parseInt(s)` without a radix: leading white space is skipped, one sign is
   * read, a `0x`/`0X` prefix selects base 16, and the longest run of digits that follows is
   * the number. `None` stands for NaN (no digits at all).
   */
  function ParseInt(s: string): Option<int> {
    var t := TrimStart(s);
    if t != [] && (t[0] == '-' || t[0] == '+') then
      match ParseUnsigned(t[1..])
      case None => None
      case Some(v) => var n: int := v; Some(if t[0] == '-' then -n else n)
    else
      match ParseUnsigned(t)
      case None => None
      case Some(v) => Some(v)
  }

  /**
   * `parseInt` is NaN when nothing but white space is given or when the first other character
   * is neither a sign nor a digit; a leading digit always yields a number; a number read after
   * a `-` is never positive, and one read without it never negative.
   */
  lemma ParseIntShape(s: string)
    ensures TrimStart(s) == [] ==> ParseInt(s).None?
    ensures var t := TrimStart(s);
            t != [] && DigitValue(t[0]) >= 10 && t[0] != '-' && t[0] != '+' ==> ParseInt(s).None?
    ensures var t := TrimStart(s);
            t != [] && '1' <= t[0] <= '9' ==> ParseInt(s).Some?
    ensures ParseInt(s).Some? ==> var t := TrimStart(s);
            t != [] && (t[0] == '-' ==> ParseInt(s).value <= 0) && (t[0] != '-' ==> ParseInt(s).value >= 0)
  {
    var t := TrimStart(s);
    if t != [] && t[0] != '-' && t[0] != '+' {
      UnsignedShape(t);
    }
    ParseIntSign(s);
  }

  lemma UnsignedShape(t: string)
    requires t != [] && t[0] != '-' && t[0] != '+'
    ensures DigitValue(t[0]) >= 10 ==> ParseUnsigned(t).None?
    ensures '1' <= t[0] <= '9' ==> ParseUnsigned(t).Some?
  {
    if DigitValue(t[0]) >= 10 {
      assert DigitPrefix(t, 10) == [];
    } else if '1' <= t[0] <= '9' {
      assert DigitPrefix(t, 10) != [];
    }
  }

  lemma ParseIntSign(s: string)
    ensures ParseInt(s).Some? ==> var t := TrimStart(s);
            t != [] && (t[0] == '-' ==> ParseInt(s).value <= 0) && (t[0] != '-' ==> ParseInt(s).value >= 0)
  {
    var t := TrimStart(s);
    if t == [] {
      assert DigitPrefix(t, 10) == [];
    }
  }

  /** The unsigned part of `parseInt`: an optional `0x`/`0X` prefix, then the digit run. */
  function ParseUnsigned(u: string): Option<nat> {
    var hex := |u| >= 2 && u[0] == '0' && (u[1] == 'x' || u[1] == 'X');
    var radix := if hex then 16 else 10;
    var digits := DigitPrefix(if hex then u[2..] else u, radix);
    if digits == [] then None else Some(DigitsValue(digits, radix))
  }

  lemma {:induction false} DecimalValue(n: nat)
    ensures DigitsValue(NatToDecimal(n), 10) == n
  {
    if n >= 10 {
      DecimalValue(n / 10);
      var d := NatToDecimal(n / 10) + [DigitChar(n % 10)];
      assert d[..|d| - 1] == NatToDecimal(n / 10);
    }
  }

  lemma {:induction false} DigitPrefixOfDigits(s: string, radix: nat)
    requires forall i :: 0 <= i < |s| ==> DigitValue(s[i]) < radix
    ensures DigitPrefix(s, radix) == s
  {
    if s != [] {
      DigitPrefixOfDigits(s[1..], radix);
    }
  }

  lemma ParseUnsignedOfDecimal(m: nat)
    ensures ParseUnsigned(NatToDecimal(m)) == Some(m)
  {
    var d := NatToDecimal(m);
    DecimalValue(m);
    DigitPrefixOfDigits(d, 10);
  }

  /** Reading back the decimal notation of an integer gives the integer. */
  lemma ParseIntOfDecimal(n: int)
    ensures ParseInt(IntToDecimal(n)) == Some(n)
  {
    if n < 0 {
      var d := NatToDecimal(-n);
      ParseUnsignedOfDecimal(-n);
      var s := "-" + d;
      assert s[1..] == d;
      ParseIntOfMinus(s, -n);
    } else {
      ParseUnsignedOfDecimal(n);
      ParseIntOfDigitStart(NatToDecimal(n), n);
    }
  }

  lemma ParseIntOfDigitStart(t: string, m: nat)
    requires t != [] && '0' <= t[0] <= '9' && ParseUnsigned(t) == Some(m)
    ensures ParseInt(t) == Some(m as int)
  {
    assert TrimStart(t) == t;
    assert !(t[0] == '-' || t[0] == '+');
  }

  lemma ParseIntOfMinus(t: string, m: nat)
    requires t != [] && t[0] == '-' && ParseUnsigned(t[1..]) == Some(m)
    ensures ParseInt(t) == Some(-(m as int))
  {
    assert TrimStart(t) == t;
  }
}
