/**
 * The file-name codec of the cropped glyph images: process_variants writes
 * each image as `<code>-<variant>.png` and create_font_with_variants reads
 * the code and the variant back out of the name.
 */
module FileNames {
  import opened Wrappers
  import opened Numerals

  const PngSuffix: string := ".png"

  /** Python's `s.endswith(suffix)`. */
  predicate EndsWith(s: string, suffix: string)
  {
    |suffix| <= |s| && s[|s| - |suffix|..] == suffix
  }

  /** Python's `s.split(sep)` for a one-character separator: the pieces between separators. */
  function Split(s: string, sep: char): (parts: seq<string>)
    ensures |parts| >= 1
    ensures forall k :: 0 <= k < |parts| ==> sep !in parts[k]
    ensures |parts| >= 2 <==> sep in s
  {
    if s == [] then [""]
    else
      var rest := Split(s[1..], sep);
      if s[0] == sep then [""] + rest
      else
        assert s == [s[0]] + s[1..];
        [[s[0]] + rest[0]] + rest[1..]
  }

  /** `sep.join(parts)`. */
  function Join(parts: seq<string>, sep: char): string
    requires |parts| >= 1
  {
    if |parts| == 1 then parts[0] else parts[0] + [sep] + Join(parts[1..], sep)
  }

  /** Joining the pieces with the separator gives back the text, so no character is lost or moved. */
  lemma {:induction false} JoinSplit(s: string, sep: char)
    ensures Join(Split(s, sep), sep) == s
    decreases |s|
  {
    if s != [] {
      var rest := Split(s[1..], sep);
      JoinSplit(s[1..], sep);
      if s[0] == sep {
        assert Split(s, sep) == [""] + rest;
        assert ([""] + rest)[1..] == rest;
      } else {
        var parts := Split(s, sep);
        assert parts == [[s[0]] + rest[0]] + rest[1..];
        if |rest| == 1 {
          assert Join(parts, sep) == [s[0]] + rest[0];
        } else {
          assert parts[1..] == rest[1..];
          assert Join(parts, sep) == [s[0]] + rest[0] + [sep] + Join(rest[1..], sep);
        }
      }
    }
  }

  /** Splitting a join of separator-free pieces gives back the pieces. */
  lemma {:induction false} SplitJoin(parts: seq<string>, sep: char)
    requires |parts| >= 1
    requires forall k :: 0 <= k < |parts| ==> sep !in parts[k]
    ensures Split(Join(parts, sep), sep) == parts
    decreases |parts|
  {
    if |parts| == 1 {
      SplitWithoutSeparator(parts[0], sep);
    } else {
      var tail := Join(parts[1..], sep);
      var u := [sep] + tail;
      assert sep !in parts[0];
      SplitJoin(parts[1..], sep);
      assert Join(parts, sep) == parts[0] + u;
      assert u[1..] == tail;
      assert Split(u, sep) == [""] + parts[1..];
      SplitHead(parts[0], u, sep);
      SameHeadAndTail(Split(parts[0] + u, sep), parts);
    }
  }

  lemma SameHeadAndTail(a: seq<string>, b: seq<string>)
    requires |a| >= 1 && |b| >= 1 && a[0] == b[0] && a[1..] == b[1..]
    ensures a == b
  {
    assert a == [a[0]] + a[1..];
    assert b == [b[0]] + b[1..];
  }

  /** A piece of `s` holds no character that `s` does not hold. */
  lemma {:induction false} SplitKeepsAbsence(s: string, sep: char, c: char)
    requires c !in s
    ensures forall k :: 0 <= k < |Split(s, sep)| ==> c !in Split(s, sep)[k]
    decreases |s|
  {
    if s != [] {
      assert c !in s[1..];
      SplitKeepsAbsence(s[1..], sep, c);
    }
  }

  lemma {:induction false} SplitWithoutSeparator(s: string, sep: char)
    requires sep !in s
    ensures Split(s, sep) == [s]
  {
    assert s + [] == s;
    SplitHead(s, [], sep);
  }

  /** The first piece of `b + rest` continues `b` when `b` holds no separator. */
  lemma {:induction false} SplitHead(b: string, rest: string, sep: char)
    requires sep !in b
    ensures Split(b + rest, sep)[0] == b + Split(rest, sep)[0]
    ensures |Split(b + rest, sep)| >= 2 <==> |Split(rest, sep)| >= 2
    ensures Split(b + rest, sep)[1..] == Split(rest, sep)[1..]
    decreases |b|
  {
    if b != [] {
      assert (b + rest)[1..] == b[1..] + rest;
      SplitHead(b[1..], rest, sep);
    } else {
      assert b + rest == rest;
    }
  }

  /** `f'{code:04x}-{variant}.png'`, the name under which a cropped glyph image is saved. */
  function FileName(code: nat, variant: nat): (name: string)
    ensures EndsWith(name, PngSuffix)
  {
    Hex04(code) + "-" + Decimal(variant) + PngSuffix
  }

  datatype ParsedName = ParsedName(code: nat, variant: nat)

  /**
   * Why reading a `.png` name raised: `int(parts[0], 16)` failed
   * (ValueError), `parts[1]` did not exist (IndexError), or the decimal
   * conversion of the variant failed (ValueError).
   */
  datatype ParseError =
    | InvalidCode(name: string, segment: string)
    | MissingVariant(name: string)
    | InvalidVariant(name: string, segment: string)

  /**
   * The parse of one `.png` name in the grouping loop: the code is the text
   * before the first `-` read in base 16; the variant is the text between the
   * first and second `-`, up to its first `.`, read in base 10. The code is
   * converted first, so its failure is the one reported.
   */
  function ParseFileName(name: string): (r: Result<ParsedName, ParseError>)
    ensures r.Err? ==> r.error.name == name
    ensures r.Ok? ==> '-' in name
    ensures r.Err? && r.error.MissingVariant? ==> '-' !in name
  {
    var parts := Split(name, '-');
    ParseIntWithoutMinus(parts[0], 16);
    match ParseInt(parts[0], 16)
    case None => Err(InvalidCode(name, parts[0]))
    case Some(code) =>
      if |parts| < 2 then Err(MissingVariant(name))
      else
        var segment := Split(parts[1], '.')[0];
        SplitKeepsAbsence(parts[1], '.', '-');
        ParseIntWithoutMinus(segment, 10);
        match ParseInt(segment, 10)
        case None => Err(InvalidVariant(name, segment))
        case Some(variant) => Ok(ParsedName(code, variant))
  }

  /**
   * How a name made of a code part `a`, a variant part `b` and a tail that is
   * empty or starts with `-` or `.` is read: the code fails first, then the
   * variant, otherwise both values come back.
   */
  lemma ParseOfParts(a: string, b: string, rest: string)
    requires '-' !in a && '-' !in b && '.' !in b
    requires rest == [] || rest[0] == '-' || rest[0] == '.'
    ensures var name := a + "-" + b + rest;
      && (ParseInt(a, 16).None? ==> ParseFileName(name) == Err(InvalidCode(name, a)))
      && (ParseInt(a, 16).Some? && ParseInt(b, 10).None? ==>
            ParseFileName(name) == Err(InvalidVariant(name, b)))
      && (ParseInt(a, 16).Some? && ParseInt(b, 10).Some? ==>
            ParseFileName(name).Ok?
            && ParseFileName(name).value.code == ParseInt(a, 16).value
            && ParseFileName(name).value.variant == ParseInt(b, 10).value)
  {
    var name := a + "-" + b + rest;
    assert name == a + ("-" + (b + rest));
    SplitHead(a, "-" + (b + rest), '-');
    assert ("-" + (b + rest))[1..] == b + rest;
    var parts := Split(name, '-');
    assert parts[0] == a;
    assert |parts| >= 2;
    SplitHead(b, rest, '-');
    var tail := Split(rest, '-')[0];
    assert parts[1] == b + tail;
    assert tail == [] || tail[0] == '.' by {
      if rest != [] && rest[0] == '.' {
        assert rest == [rest[0]] + rest[1..];
      }
    }
    SplitHead(b, tail, '.');
    if tail != [] {
      assert tail == "." + tail[1..];
    }
    assert Split(parts[1], '.')[0] == b;
  }

  /** Every name the encoder makes passes the `.png` filter and reads back as the code and variant it was made from. */
  lemma FileNameRoundTrip(code: nat, variant: nat)
    requires |Decimal(variant)| <= MaxStrDigits
    ensures EndsWith(FileName(code, variant), PngSuffix)
    ensures ParseFileName(FileName(code, variant)) == Ok(ParsedName(code, variant))
  {
    var a, b := Hex04(code), Decimal(variant);
    Hex04Digits(code);
    NumeralDigits(variant, 10);
    assert '-' !in a;
    assert '-' !in b && '.' !in b;
    ParseOfParts(a, b, PngSuffix);
    ParseHex04(code);
    ParseDecimal(variant);
  }

  /** Distinct (code, variant) pairs are saved under distinct names. */
  lemma FileNameInjective(c1: nat, v1: nat, c2: nat, v2: nat)
    requires |Decimal(v1)| <= MaxStrDigits && |Decimal(v2)| <= MaxStrDigits
    requires FileName(c1, v1) == FileName(c2, v2)
    ensures c1 == c2 && v1 == v2
  {
    FileNameRoundTrip(c1, v1);
    FileNameRoundTrip(c2, v2);
  }

  lemma {:induction false} DropLeadingSpaceKeepsLast(s: string)
    requires s != [] && !IsSpace(s[|s| - 1])
    ensures DropLeadingSpace(s) != []
    ensures DropLeadingSpace(s)[|DropLeadingSpace(s)| - 1] == s[|s| - 1]
    decreases |s|
  {
    if IsSpace(s[0]) {
      DropLeadingSpaceKeepsLast(s[1..]);
    }
  }

  /**
   * `int()` rejects a string whose last character is neither white space nor
   * a digit of the base: the numeral would have to end in a digit.
   */
  lemma ParseIntRejectsBadEnd(s: string, base: nat)
    requires base == 10 || base == 16
    requires s != [] && !IsSpace(s[|s| - 1]) && !IsDigit(s[|s| - 1], base)
    ensures ParseInt(s, base) == None
  {
    DropLeadingSpaceKeepsLast(s);
    var d := DropLeadingSpace(s);
    assert DropTrailingSpace(d) == d;
    var t := Strip(s);
    assert t == d;
    SplitSignKeepsLast(t);
    var u := SplitSign(t).1;
    ParseUnsignedRejectsBadEnd(u, base, s[|s| - 1]);
    ParseIntFailsIff(s, base);
  }

  /** Removing the sign keeps the last character, unless nothing is left. */
  lemma SplitSignKeepsLast(t: string)
    requires t != []
    ensures var u := SplitSign(t).1; u == [] || u[|u| - 1] == t[|t| - 1]
  {
  }

  lemma ParseUnsignedRejectsBadEnd(u: string, base: nat, c: char)
    requires base == 10 || base == 16
    requires !IsDigit(c, base)
    requires u == [] || u[|u| - 1] == c
    ensures ParseUnsigned(u, base) == None
  {
  }

  /**
   * A `.png` name with no `-` is not skipped: its whole text is the code
   * part, which ends in `g` and so is no hexadecimal numeral. The
   * missing-variant branch is never the one taken.
   */
  lemma PngWithoutDashFails(name: string)
    requires EndsWith(name, PngSuffix) && '-' !in name
    ensures ParseFileName(name) == Err(InvalidCode(name, name))
  {
    assert name[|name| - 1] == 'g';
    SplitWithoutSeparator(name, '-');
    ParseIntRejectsBadEnd(name, 16);
  }

  /** `int()` of the empty string raises. */
  lemma ParseIntEmpty(base: nat)
    requires base == 10 || base == 16
    ensures ParseInt("", base) == None
  {
    assert Strip("") == "";
    assert SplitSign("") == (false, "");
    assert ParseUnsigned("", base) == None;
  }

  /** A `.png` name whose variant part is empty (`0041-.png`) fails on the variant. */
  lemma EmptyVariantFails(a: string, rest: string)
    requires '-' !in a && ParseInt(a, 16).Some?
    requires rest == [] || rest[0] == '-' || rest[0] == '.'
    ensures ParseFileName(a + "-" + rest) == Err(InvalidVariant(a + "-" + rest, ""))
  {
    var name := a + "-" + rest;
    assert a + "-" + "" + rest == name;
    ParseOfParts(a, "", rest);
    ParseIntEmpty(10);
  }
}
