/**
 * Integer numerals as the handwriting-font pipeline reads and writes them:
 * the lowercase hexadecimal and decimal formatting of Python's f-strings
 * (`{n:04x}`, `{n}`) and the string-to-integer conversion of Python's
 * `int(s, base)` for bases 10 and 16.
 */
module Numerals {
  import opened Wrappers

  /** The most decimal digits `int()` converts from a string (CPython 3.11 and later, default setting). */
  const MaxStrDigits: nat := 4300

  /** The digit characters that formatting emits, in order of value. */
  const LowerDigits: string := "0123456789abcdef"

  /** Value of a character in CPython's digit table: 0-9, then a-z and A-Z as 10-35; 37 for anything else. */
  function DigitValue(c: char): nat
  {
    if '0' <= c <= '9' then c as int - '0' as int
    else if 'a' <= c <= 'z' then c as int - 'a' as int + 10
    else if 'A' <= c <= 'Z' then c as int - 'A' as int + 10
    else 37
  }

  /** The characters formatting emits: `0`-`9` and `a`-`f`. */
  predicate IsLowerDigit(c: char)
  {
    '0' <= c <= '9' || 'a' <= c <= 'f'
  }

  predicate IsDigit(c: char, base: nat)
  {
    DigitValue(c) < base
  }

  /**
   * The characters `int()` skips around a numeral: the ASCII white space
   * (space, tab, line feed, vertical tab, form feed, carriage return) and the
   * non-ASCII characters Python classes as white space, which it maps to a space.
   */
  predicate IsSpace(c: char)
  {
    c == ' ' || ('\t' <= c <= '\r') || c == '\U{85}' || c == '\U{A0}' || c == '\U{1680}'
    || ('\U{2000}' <= c <= '\U{200A}') || c == '\U{2028}' || c == '\U{2029}'
    || c == '\U{202F}' || c == '\U{205F}' || c == '\U{3000}'
  }

  /** `s` without its leading white space: exactly the characters before the first non-space are removed. */
  function DropLeadingSpace(s: string): (r: string)
    ensures |r| <= |s| && r == s[|s| - |r|..]
    ensures r != [] ==> !IsSpace(r[0])
  {
    if s != [] && IsSpace(s[0]) then DropLeadingSpace(s[1..]) else s
  }

  /** Only white space is dropped: every character before the kept suffix is white space. */
  lemma {:induction false} LeadingSpaceDropped(s: string, k: nat)
    requires k < |s| - |DropLeadingSpace(s)|
    ensures IsSpace(s[k])
  {
    if k > 0 {
      LeadingSpaceDropped(s[1..], k - 1);
    }
  }

  /** `s` without its trailing white space: exactly the characters after the last non-space are removed. */
  function DropTrailingSpace(s: string): (r: string)
    ensures |r| <= |s| && r == s[..|r|]
    ensures r != [] ==> !IsSpace(r[|r| - 1])
  {
    if s != [] && IsSpace(s[|s| - 1]) then DropTrailingSpace(s[..|s| - 1]) else s
  }

  /** Only white space is dropped: every character after the kept prefix is white space. */
  lemma {:induction false} TrailingSpaceDropped(s: string, k: nat)
    requires |DropTrailingSpace(s)| <= k < |s|
    ensures IsSpace(s[k])
  {
    if k < |s| - 1 {
      TrailingSpaceDropped(s[..|s| - 1], k);
    }
  }

  /** `s` with the white space at both ends removed. */
  function Strip(s: string): (r: string)
    ensures |r| <= |s|
    ensures r != [] ==> !IsSpace(r[0]) && !IsSpace(r[|r| - 1])
  {
    DropTrailingSpace(DropLeadingSpace(s))
  }

  /**
   * Stripping keeps a slice of `s`: character `j` of the result is character
   * `i + j` of `s`, where `i` is where `DropLeadingSpace` stops removing.
   */
  lemma StripKeepsSlice(s: string, j: nat)
    requires j < |Strip(s)|
    ensures |s| - |DropLeadingSpace(s)| + |Strip(s)| <= |s|
    ensures Strip(s)[j] == s[|s| - |DropLeadingSpace(s)| + j]
  {
    var t := DropLeadingSpace(s);
    var r := DropTrailingSpace(t);
    assert Strip(s) == r;
    assert r[j] == t[j];
    assert t[j] == s[|s| - |t| + j];
  }

  /** What stripping drops after the kept slice is white space. */
  lemma StripDropsTrailingSpace(s: string, k: nat)
    requires |s| - |DropLeadingSpace(s)| + |Strip(s)| <= k < |s|
    ensures IsSpace(s[k])
  {
    var t := DropLeadingSpace(s);
    var j := k - (|s| - |t|);
    assert Strip(s) == DropTrailingSpace(t);
    TrailingSpaceDropped(t, j);
    assert t[j] == s[k];
  }

  /** The first character left after stripping is a character of `s`. */
  lemma StripFirstInString(s: string)
    ensures Strip(s) != [] ==> Strip(s)[0] in s
  {
    var t := DropLeadingSpace(s);
    if Strip(s) != [] {
      assert Strip(s)[0] == t[0] == s[|s| - |t|];
    }
  }

  /** The digits of a numeral: `digit ('_'? digit)*`, single underscores only between digits. */
  predicate IsDigitRun(s: string, base: nat)
  {
    && |s| > 0
    && IsDigit(s[0], base)
    && IsDigit(s[|s| - 1], base)
    && (forall k :: 0 <= k < |s| ==> IsDigit(s[k], base) || s[k] == '_')
    && (forall k :: 0 <= k < |s| - 1 ==> s[k] != '_' || s[k + 1] != '_')
  }

  /** `s.replace('_', '')`. */
  function WithoutUnderscores(s: string): (r: string)
    ensures forall k :: 0 <= k < |r| ==> r[k] != '_'
    ensures (forall k :: 0 <= k < |s| ==> s[k] != '_') ==> r == s
  {
    if s == [] then [] else (if s[0] == '_' then [] else [s[0]]) + WithoutUnderscores(s[1..])
  }

  /** Every character other than `_` is kept, as often as it occurs. */
  lemma {:induction false} WithoutUnderscoresKeeps(s: string)
    ensures multiset(WithoutUnderscores(s)) == multiset(s)['_' := 0]
  {
    if s != [] {
      assert s == [s[0]] + s[1..];
      WithoutUnderscoresKeeps(s[1..]);
    }
  }

  /** Removing separators distributes over concatenation, so the kept characters stay in their order. */
  lemma {:induction false} WithoutUnderscoresAppend(a: string, b: string)
    ensures WithoutUnderscores(a + b) == WithoutUnderscores(a) + WithoutUnderscores(b)
  {
    if a == [] {
      assert a + b == b;
    } else {
      var head := if a[0] == '_' then [] else [a[0]];
      var t := a[1..] + b;
      ConsAppend(a, b);
      WithoutUnderscoresCons(a[0], t);
      WithoutUnderscoresAppend(a[1..], b);
      ConcatAssoc(head, WithoutUnderscores(a[1..]), WithoutUnderscores(b));
    }
  }

  lemma WithoutUnderscoresCons(c: char, t: string)
    ensures WithoutUnderscores([c] + t) == (if c == '_' then [] else [c]) + WithoutUnderscores(t)
  {
    assert ([c] + t)[1..] == t;
  }

  lemma ConsAppend(a: string, b: string)
    requires a != []
    ensures a + b == [a[0]] + (a[1..] + b)
  {
  }

  lemma ConcatAssoc(x: string, y: string, z: string)
    ensures x + (y + z) == (x + y) + z
  {
  }

  /** Positional value of a digit string, most significant digit first. */
  function Value(s: string, base: nat): nat
  {
    if s == [] then 0 else Value(s[..|s| - 1], base) * base + DigitValue(s[|s| - 1])
  }

  /** The unsigned part of `int(s, base)`: an optional `0x`/`0X` prefix in base 16, then a digit run. */
  function ParseUnsigned(u: string, base: nat): Option<nat>
    requires base == 10 || base == 16
  {
    var w :=
      if base == 16 && |u| >= 2 && u[0] == '0' && (u[1] == 'x' || u[1] == 'X') then
        (if |u| >= 3 && u[2] == '_' then u[3..] else u[2..])
      else u;
    if !IsDigitRun(w, base) then None
    else
      var d := WithoutUnderscores(w);
      if base == 10 && |d| > MaxStrDigits then None else Some(Value(d, base))
  }

  /** The optional sign in front of the digits: whether it is `-`, and the text after it. */
  function SplitSign(t: string): (r: (bool, string))
    ensures r.0 <==> t != [] && t[0] == '-'
    ensures t != [] && (t[0] == '-' || t[0] == '+') ==> r.1 == t[1..]
    ensures !(t != [] && (t[0] == '-' || t[0] == '+')) ==> r.1 == t
  {
    if t != [] && (t[0] == '-' || t[0] == '+') then (t[0] == '-', t[1..]) else (false, t)
  }

  /**
   * Python's `int(s, base)` for base 10 or 16: `None` where Python raises
   * `ValueError`. White space at both ends, then at most one sign.
   */
  function ParseInt(s: string, base: nat): (r: Option<int>)
    requires base == 10 || base == 16
    ensures r.Some? && r.value < 0 ==> Strip(s) != [] && Strip(s)[0] == '-'
  {
    var (negative, u) := SplitSign(Strip(s));
    match ParseUnsigned(u, base)
    case None => None
    case Some(n) =>
      var v: int := if negative then -(n as int) else n;
      Some(v)
  }

  /** `int()` fails exactly when the text after the stripping and the sign is no unsigned numeral. */
  lemma ParseIntFailsIff(s: string, base: nat)
    requires base == 10 || base == 16
    ensures ParseInt(s, base).None? <==> ParseUnsigned(SplitSign(Strip(s)).1, base).None?
  {
  }

  /** A string without a minus sign never converts to a negative number. */
  lemma ParseIntWithoutMinus(s: string, base: nat)
    requires base == 10 || base == 16
    requires '-' !in s
    ensures ParseInt(s, base).Some? ==> ParseInt(s, base).value >= 0
  {
    StripFirstInString(s);
  }

  /** Lowercase numeral of `n` in `base`, without padding: Python's `format(n, 'x')` and `str(n)`. */
  function Numeral(n: nat, base: nat): (r: string)
    requires 2 <= base <= 16
    ensures r != []
    decreases n
  {
    if n < base then [DigitChar(n)]
    else
      DivBelow(n, base);
      Numeral(n / base, base) + [DigitChar(n % base)]
  }

  /** Every character of a numeral is a lowercase digit of its base. */
  lemma {:induction false} NumeralDigits(n: nat, base: nat)
    requires 2 <= base <= 16
    ensures forall k :: 0 <= k < |Numeral(n, base)| ==> IsLowerDigit(Numeral(n, base)[k]) && IsDigit(Numeral(n, base)[k], base)
    decreases n
  {
    if n >= base {
      DivBelow(n, base);
      NumeralDigits(n / base, base);
    }
  }

  /** The formatting character of a digit value. */
  function DigitChar(d: nat): (c: char)
    requires d < 16
    ensures IsLowerDigit(c) && DigitValue(c) == d
  {
    LowerDigits[d]
  }

  lemma DivBelow(n: nat, base: nat)
    requires 2 <= base <= n
    ensures n / base < n && n % base < base
    ensures n == (n / base) * base + n % base
  {
  }

  function Zeros(k: nat): (r: string)
  {
    seq(k, _ => '0')
  }

  /** `format(n, '04x')`: lowercase hexadecimal, zero-filled to at least four digits. */
  function Hex04(n: nat): string
  {
    var h := Numeral(n, 16);
    if |h| < 4 then Zeros(4 - |h|) + h else h
  }

  /** `str(n)` for a non-negative `n`. */
  function Decimal(n: nat): string
  {
    Numeral(n, 10)
  }

  lemma {:induction false} ValueOfNumeral(n: nat, base: nat)
    requires 2 <= base <= 16
    ensures Value(Numeral(n, base), base) == n
    decreases n
  {
    var r := Numeral(n, base);
    if n < base {
      assert r[..0] == [];
    } else {
      DivBelow(n, base);
      var q, d := n / base, n % base;
      ValueOfNumeral(q, base);
      assert r == Numeral(q, base) + [DigitChar(d)];
      assert r[..|r| - 1] == Numeral(q, base);
      assert Value(r, base) == Value(Numeral(q, base), base) * base + d;
    }
  }

  lemma {:induction false} ValueIgnoresLeadingZeros(k: nat, s: string, base: nat)
    requires 2 <= base
    ensures Value(Zeros(k) + s, base) == Value(s, base)
    decreases |s|
  {
    if s == [] {
      ZerosValue(k, base);
      assert Zeros(k) + s == Zeros(k);
    } else {
      ValueIgnoresLeadingZeros(k, s[..|s| - 1], base);
      assert (Zeros(k) + s)[..|Zeros(k) + s| - 1] == Zeros(k) + s[..|s| - 1];
    }
  }

  lemma {:induction false} ZerosValue(k: nat, base: nat)
    requires 2 <= base
    ensures Value(Zeros(k), base) == 0
  {
    if k > 0 {
      ZerosValue(k - 1, base);
      assert Zeros(k)[..k - 1] == Zeros(k - 1);
    }
  }

  /** Every character of a formatted hex numeral is a lowercase hexadecimal digit. */
  lemma Hex04Digits(n: nat)
    ensures Hex04(n) != []
    ensures forall k :: 0 <= k < |Hex04(n)| ==> IsLowerDigit(Hex04(n)[k]) && IsDigit(Hex04(n)[k], 16)
  {
    var h := Numeral(n, 16);
    NumeralDigits(n, 16);
    if |h| < 4 {
      var z := Zeros(4 - |h|);
      forall k | 0 <= k < |z + h| ensures IsLowerDigit((z + h)[k]) && IsDigit((z + h)[k], 16) {
        if k < |z| { assert (z + h)[k] == '0'; } else { assert (z + h)[k] == h[k - |z|]; }
      }
    }
  }

  lemma Hex04Value(n: nat)
    ensures Value(Hex04(n), 16) == n
  {
    var h := Numeral(n, 16);
    ValueOfNumeral(n, 16);
    if |h| < 4 {
      ValueIgnoresLeadingZeros(4 - |h|, h, 16);
    }
  }

  /**
   * A digit string whose characters are all digits of `base` (none is 'x',
   * white space, a sign or an underscore) parses under `int()` to its value.
   */
  lemma ParsePlainDigits(s: string, base: nat)
    requires base == 10 || base == 16
    requires s != [] && forall k :: 0 <= k < |s| ==> IsLowerDigit(s[k]) && IsDigit(s[k], base)
    requires base == 10 ==> |s| <= MaxStrDigits
    ensures ParseInt(s, base) == Some(Value(s, base))
  {
    PlainDigitsAreUnsigned(s, base);
    PlainDigitsAreStripped(s);
    assert IsLowerDigit(s[0]);
    ParseIntUnsigned(s, base);
  }

  /** Text that is already stripped and starts with no sign is read as an unsigned numeral. */
  lemma ParseIntUnsigned(s: string, base: nat)
    requires base == 10 || base == 16
    requires Strip(s) == s && (s == [] || (s[0] != '-' && s[0] != '+'))
    ensures ParseInt(s, base) == ParseUnsigned(s, base)
  {
    var sign := SplitSign(Strip(s));
    assert sign == (false, s);
  }

  lemma PlainDigitsAreStripped(s: string)
    requires s != [] && forall k :: 0 <= k < |s| ==> IsLowerDigit(s[k])
    ensures Strip(s) == s
  {
    assert !IsSpace(s[0]) && !IsSpace(s[|s| - 1]);
    assert DropLeadingSpace(s) == s;
  }

  lemma PlainDigitsAreUnsigned(s: string, base: nat)
    requires base == 10 || base == 16
    requires s != [] && forall k :: 0 <= k < |s| ==> IsLowerDigit(s[k]) && IsDigit(s[k], base)
    requires base == 10 ==> |s| <= MaxStrDigits
    ensures ParseUnsigned(s, base) == Some(Value(s, base))
  {
    assert |s| >= 2 ==> s[1] != 'x' && s[1] != 'X';
    assert forall k :: 0 <= k < |s| ==> s[k] != '_';
    assert WithoutUnderscores(s) == s;
    assert IsDigitRun(s, base);
  }

  /** `int(format(n, '04x'), 16) == n`. */
  lemma ParseHex04(n: nat)
    ensures ParseInt(Hex04(n), 16) == Some(n)
  {
    Hex04Digits(n);
    Hex04Value(n);
    ParsePlainDigits(Hex04(n), 16);
  }

  /** `int(str(n)) == n` for every `n` whose numeral is within the digit limit. */
  lemma ParseDecimal(n: nat)
    requires |Decimal(n)| <= MaxStrDigits
    ensures ParseInt(Decimal(n), 10) == Some(n)
  {
    ValueOfNumeral(n, 10);
    NumeralDigits(n, 10);
    ParsePlainDigits(Decimal(n), 10);
  }

  function Pow16(k: nat): nat
  {
    if k == 0 then 1 else 16 * Pow16(k - 1)
  }

  lemma {:induction false} HexNumeralLength(n: nat, k: nat)
    requires 1 <= k && n < Pow16(k)
    ensures |Numeral(n, 16)| <= k
  {
    if n >= 16 {
      assert Pow16(1) == 16;
      HexNumeralLength(n / 16, k - 1);
    }
  }

  /** A code point of the Basic Multilingual Plane is written with exactly four hex digits. */
  lemma Hex04Length(n: nat)
    requires n < 0x1_0000
    ensures |Hex04(n)| == 4
  {
    assert Pow16(4) == 0x1_0000;
    HexNumeralLength(n, 4);
  }
}
