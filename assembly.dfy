/**
 * The glyph and substitution construction of create_font_with_variants:
 * for every group of images, the first becomes the base glyph at the code
 * point, every later one an alternate glyph `uni{code:04x}.alt{i}` that is
 * registered as a random substitution of that base, and the base glyph
 * gets fixed metrics.
 */
module Assembly {
  import opened Wrappers
  import opened Numerals
  import opened FileNames
  import opened Grouping
  import opened Fonts

  /** Directory the outline images are imported from. */
  const SourceDir := "processed_chars/"
  /** Left and right side bearing given to every base glyph. */
  const SideBearing := 20
  /** Advance width given to every base glyph. */
  const AdvanceWidth := 256

  /** Name of the `i`-th alternate of the glyph at `code`. */
  function AltName(code: nat, i: nat): string
  {
    "uni" + Hex04(code) + ".alt" + Decimal(i)
  }

  /** The names of the first `k` alternates of `code`, in the order they are created. */
  function AltNames(code: nat, k: nat): (names: seq<string>)
    ensures |names| == k
    ensures forall j :: 0 <= j < k ==> names[j] == AltName(code, j + 1)
  {
    seq(k, j requires 0 <= j < k => AltName(code, j + 1))
  }

  /** The set of names of alternates 1 .. n-1 of `code`. */
  function AltNameSet(code: nat, n: nat): set<string>
  {
    set j | 1 <= j < n :: AltName(code, j)
  }

  /** In a dot-free string followed by a dot, that dot is the first one. */
  lemma FirstDot(a: string, b: string)
    requires '.' !in a
    ensures (a + "." + b)[|a|] == '.'
    ensures forall k :: 0 <= k < |a| ==> (a + "." + b)[k] != '.'
  {
  }

  /** Two strings without a dot, each followed by a dot and a tail, agree when the whole strings agree. */
  lemma SplitAtDot(a: string, b: string, c: string, d: string)
    requires '.' !in a && '.' !in c
    requires a + "." + b == c + "." + d
    ensures a == c && b == d
  {
    var s := a + "." + b;
    FirstDot(a, b);
    FirstDot(c, d);
    if |a| < |c| {
      assert false;
    } else if |c| < |a| {
      assert false;
    }
    assert a == s[..|a|];
    assert c == (c + "." + d)[..|c|];
    assert b == s[|a| + 1..];
    assert d == (c + "." + d)[|c| + 1..];
  }

  /** `uni` followed by hexadecimal digits holds no dot. */
  lemma UniHexHasNoDot(code: nat)
    ensures '.' !in "uni" + Hex04(code)
  {
    var h := Hex04(code);
    Hex04Digits(code);
    forall k | 0 <= k < |"uni" + h| ensures ("uni" + h)[k] != '.' {
      if k >= 3 {
        assert ("uni" + h)[k] == h[k - 3];
        assert IsLowerDigit(h[k - 3]);
      }
    }
  }

  /** Alternate names are pairwise distinct: the naming is injective in the code and the index. */
  lemma AltNameInjective(c1: nat, i1: nat, c2: nat, i2: nat)
    requires AltName(c1, i1) == AltName(c2, i2)
    ensures c1 == c2 && i1 == i2
  {
    var h1, h2 := Hex04(c1), Hex04(c2);
    var d1, d2 := Decimal(i1), Decimal(i2);
    UniHexHasNoDot(c1);
    UniHexHasNoDot(c2);
    assert AltName(c1, i1) == ("uni" + h1) + "." + ("alt" + d1);
    assert AltName(c2, i2) == ("uni" + h2) + "." + ("alt" + d2);
    SplitAtDot("uni" + h1, "alt" + d1, "uni" + h2, "alt" + d2);
    assert h1 == ("uni" + h1)[3..] && h2 == ("uni" + h2)[3..];
    assert d1 == ("alt" + d1)[3..] && d2 == ("alt" + d2)[3..];
    Hex04Value(c1);
    Hex04Value(c2);
    ValueOfNumeral(i1, 10);
    ValueOfNumeral(i2, 10);
  }

  /** Different alternates of one code have different names. */
  lemma AltNamesDiffer(code: nat, i: nat, j: nat)
    requires i != j
    ensures AltName(code, i) != AltName(code, j)
  {
    if AltName(code, i) == AltName(code, j) {
      AltNameInjective(code, i, code, j);
    }
  }

  /** The names of one more alternate. */
  lemma AltNamesSnoc(code: nat, i: nat)
    ensures AltNames(code, i + 1) == (if i > 0 then AltNames(code, i) else []) + [AltName(code, i + 1)]
  {
  }

  /** The name set of one more alternate. */
  lemma AltNameSetSnoc(code: nat, n: nat)
    requires 1 <= n
    ensures AltNameSet(code, n + 1) == AltNameSet(code, n) + {AltName(code, n)}
  {
  }

  /** Adding alternate i+1 of a group keeps alternates 1 .. i of that group. */
  lemma AltsOfGroupStep(before: map<string, Glyph>, after: map<string, Glyph>, code: nat, files: seq<string>, i: nat)
    requires i + 1 < |files|
    requires forall j :: 1 <= j <= i ==> AltName(code, j) in before && before[AltName(code, j)] == AltGlyph(files[j])
    requires after == before[AltName(code, i + 1) := AltGlyph(files[i + 1])]
    ensures forall j :: 1 <= j <= i + 1 ==> AltName(code, j) in after && after[AltName(code, j)] == AltGlyph(files[j])
  {
    forall j | 1 <= j <= i ensures after[AltName(code, j)] == before[AltName(code, j)] {
      AltNamesDiffer(code, j, i + 1);
    }
  }

  /** The base glyph made from image `file`: outline from it, and the fixed metrics. */
  function BaseGlyph(file: string): Glyph
  {
    Glyph(Some(SourceDir + file), Some(SideBearing), Some(SideBearing), Some(AdvanceWidth))
  }

  /** The alternate glyph made from image `file`: outline from it, and no metrics. */
  function AltGlyph(file: string): Glyph
  {
    Glyph(Some(SourceDir + file), None, None, None)
  }

  /** Every group holds at least one image. */
  predicate NonEmptyGroups(groups: Groups)
  {
    forall c :: c in groups ==> groups[c] != []
  }

  /** The groups of the codes in `codes`. */
  function Restrict(groups: Groups, codes: set<nat>): Groups
  {
    map c | c in groups && c in codes :: groups[c]
  }

  /** Reference definition of the base glyphs: one per group, from the group's first image. */
  function ExpectedBases(groups: Groups): map<nat, Glyph>
    requires NonEmptyGroups(groups)
  {
    map c | c in groups :: BaseGlyph(groups[c][0])
  }

  /** Reference definition of the substitution table: each group of k > 1 images lists its k-1 alternate names. */
  function ExpectedSubs(groups: Groups): map<nat, seq<string>>
  {
    map c | c in groups && |groups[c]| > 1 :: AltNames(c, |groups[c]| - 1)
  }

  /** The names of all alternates the groups call for. */
  function AltKeys(groups: Groups): set<string>
  {
    set c, i | c in groups && 1 <= i < |groups[c]| :: AltName(c, i)
  }

  /** Reference definition of the alternates: exactly the alternate names, the i-th of a group from its image i. */
  predicate AltsMatch(alts: map<string, Glyph>, groups: Groups)
  {
    && alts.Keys == AltKeys(groups)
    && forall c, i :: c in groups && 1 <= i < |groups[c]| ==>
         AltName(c, i) in alts && alts[AltName(c, i)] == AltGlyph(groups[c][i])
  }

  /** There is only one table of alternates that matches the groups. */
  lemma AltsMatchUnique(a1: map<string, Glyph>, a2: map<string, Glyph>, groups: Groups)
    requires AltsMatch(a1, groups) && AltsMatch(a2, groups)
    ensures a1 == a2
  {
    forall name | name in a1 ensures a1[name] == a2[name] {
      var c, i :| c in groups && 1 <= i < |groups[c]| && name == AltName(c, i);
    }
  }

  /** Adding a group adds its alternate names to the set of all of them. */
  lemma AltKeysStep(h: Groups, c: nat, files: seq<string>)
    requires c !in h
    ensures AltKeys(h[c := files]) == AltKeys(h) + AltNameSet(c, |files|)
  {
    var g := h[c := files];
    forall name | name in AltKeys(g) ensures name in AltKeys(h) + AltNameSet(c, |files|) {
      var d, i :| d in g && 1 <= i < |g[d]| && name == AltName(d, i);
      if d == c {
        assert name in AltNameSet(c, |files|);
      } else {
        assert name in AltKeys(h);
      }
    }
    forall name | name in AltKeys(h) + AltNameSet(c, |files|) ensures name in AltKeys(g) {
      if name in AltKeys(h) {
        var d, i :| d in h && 1 <= i < |h[d]| && name == AltName(d, i);
        assert g[d] == h[d];
      } else {
        var i :| 1 <= i < |files| && name == AltName(c, i);
        assert g[c] == files;
      }
    }
  }

  /** The alternates of a code without a group are not in a matching table. */
  lemma AltsFresh(alts: map<string, Glyph>, h: Groups, c: nat)
    requires AltsMatch(alts, h) && c !in h
    ensures forall i :: AltName(c, i) !in alts
  {
    forall i ensures AltName(c, i) !in alts {
      if AltName(c, i) in alts {
        var d, j :| d in h && 1 <= j < |h[d]| && AltName(c, i) == AltName(d, j);
        AltNameInjective(c, i, d, j);
      }
    }
  }

  /** A table that matches some groups, extended by the alternates of one more group, matches the extended groups. */
  lemma AltsMatchStep(alts: map<string, Glyph>, alts': map<string, Glyph>, h: Groups, c: nat, files: seq<string>)
    requires AltsMatch(alts, h) && c !in h
    requires AltsAdded(alts', alts, c, files, |files|)
    ensures AltsMatch(alts', h[c := files])
  {
    var g := h[c := files];
    AltKeysStep(h, c, files);
    forall d, i | d in g && 1 <= i < |g[d]|
      ensures AltName(d, i) in alts' && alts'[AltName(d, i)] == AltGlyph(g[d][i])
    {
      if d == c {
        assert AltName(c, i) in AltNameSet(c, |files|);
      } else {
        assert AltName(d, i) in alts;
      }
    }
  }

  /** Restricting to no code leaves no group. */
  lemma RestrictNone(groups: Groups)
    ensures Restrict(groups, {}) == map[]
  {
  }

  /** Restricting to all codes leaves every group. */
  lemma RestrictAll(groups: Groups, codes: set<nat>)
    requires codes == groups.Keys
    ensures Restrict(groups, codes) == groups
  {
  }

  /** Restricting to one more code adds that code's group. */
  lemma RestrictStep(groups: Groups, done: set<nat>, c: nat)
    requires c in groups && c !in done
    ensures Restrict(groups, done + {c}) == Restrict(groups, done)[c := groups[c]]
    ensures c !in Restrict(groups, done)
  {
  }

  /** Adding a group adds its base glyph. */
  lemma ExpectedBasesStep(h: Groups, c: nat, files: seq<string>)
    requires NonEmptyGroups(h) && files != []
    ensures NonEmptyGroups(h[c := files])
    ensures ExpectedBases(h[c := files]) == ExpectedBases(h)[c := BaseGlyph(files[0])]
  {
  }

  /** Adding a group adds its substitution entry when it has alternates. */
  lemma ExpectedSubsStep(h: Groups, c: nat, files: seq<string>)
    requires c !in h
    ensures ExpectedSubs(h[c := files])
            == if |files| > 1 then ExpectedSubs(h)[c := AltNames(c, |files| - 1)] else ExpectedSubs(h)
  {
  }

  /**
   * The tables after the group `files` of `code` has been built on top of
   * `bases`, `subs` and `alts`: its base glyph from the first image, its
   * substitution entry listing its alternate names, and its alternates.
   */
  ghost predicate GroupAdded(bases: map<nat, Glyph>, subs: map<nat, seq<string>>, alts: map<string, Glyph>,
                             bases': map<nat, Glyph>, subs': map<nat, seq<string>>, alts': map<string, Glyph>,
                             code: nat, files: seq<string>)
  {
    && files != []
    && bases' == bases[code := BaseGlyph(files[0])]
    && subs' == (if |files| > 1 then subs[code := AltNames(code, |files| - 1)] else subs)
    && AltsAdded(alts', alts, code, files, |files|)
  }

  /**
   * One turn of the builder loop: the base glyph of `code` from the first
   * image, one alternate per later image, each appended to the base's
   * substitution entry, and then the metrics of the base glyph.
   */
  method AddVariantGroup(font: Font, code: nat, files: seq<string>)
    requires files != []
    requires code !in font.subs
    requires forall i :: AltName(code, i) !in font.alts
    modifies font
    ensures GroupAdded(old(font.bases), old(font.subs), old(font.alts), font.bases, font.subs, font.alts, code, files)
  {
    var base := font.CreateChar(code);
    font.ImportOutlines(base, SourceDir + files[0]);
    AddAlternates(font, base, files);
    font.SetMetric(base, LeftSideBearing, SideBearing);
    font.SetMetric(base, RightSideBearing, SideBearing);
    font.SetMetric(base, Width, AdvanceWidth);
  }

  /**
   * The alternates table after alternates 1 .. n-1 of `code` have been added
   * to `before`: the entries of `before` unchanged, and alternate j made from image j.
   */
  ghost predicate AltsAdded(alts: map<string, Glyph>, before: map<string, Glyph>, code: nat, files: seq<string>, n: nat)
  {
    && alts.Keys == before.Keys + AltNameSet(code, n)
    && (forall name :: name in before ==> alts[name] == before[name])
    && (forall j :: 1 <= j < n && j < |files| ==> AltName(code, j) in alts && alts[AltName(code, j)] == AltGlyph(files[j]))
  }

  /** Adding alternate n of `code` to a table holding alternates 1 .. n-1 gives the table holding 1 .. n. */
  lemma AltsAddedStep(alts: map<string, Glyph>, before: map<string, Glyph>, code: nat, files: seq<string>, n: nat)
    requires 1 <= n < |files|
    requires forall i :: AltName(code, i) !in before
    requires AltsAdded(alts, before, code, files, n)
    ensures AltName(code, n) !in alts
    ensures AltsAdded(alts[AltName(code, n) := AltGlyph(files[n])], before, code, files, n + 1)
    ensures AltsAdded(alts[AltName(code, n) := Blank][AltName(code, n) := Blank.(source := Some(SourceDir + files[n]))], before, code, files, n + 1)
  {
    var name := AltName(code, n);
    assert alts[name := Blank][name := Blank.(source := Some(SourceDir + files[n]))] == alts[name := AltGlyph(files[n])];
    forall j | 1 <= j < n ensures AltName(code, j) != name {
      AltNamesDiffer(code, j, n);
    }
    AltNameSetSnoc(code, n);
    AltsOfGroupStep(alts, alts[name := AltGlyph(files[n])], code, files, n - 1);
  }

  /** The substitution table after the first n alternates of `code` have been registered. */
  ghost function SubsAdded(subs: map<nat, seq<string>>, code: nat, n: nat): map<nat, seq<string>>
  {
    if n > 0 then subs[code := AltNames(code, n)] else subs
  }

  /** Registering one more alternate appends its name to the entry of `code`. */
  lemma SubsAddedStep(subs: map<nat, seq<string>>, code: nat, n: nat)
    requires code !in subs
    ensures var s := SubsAdded(subs, code, n);
      SubsAdded(subs, code, n + 1) == s[code := (if code in s then s[code] else []) + [AltName(code, n + 1)]]
  {
    AltNamesSnoc(code, n);
  }

  /**
   * The inner loop of the builder: image i (from 1 on) of the group becomes
   * alternate i of the base glyph and is appended to the base's substitution entry.
   */
  method AddAlternates(font: Font, base: GlyphRef, files: seq<string>)
    requires base.Base? && font.Has(base) && files != []
    requires base.code !in font.subs
    requires forall i :: AltName(base.code, i) !in font.alts
    modifies font
    ensures font.bases == old(font.bases)
    ensures font.subs == SubsAdded(old(font.subs), base.code, |files| - 1)
    ensures AltsAdded(font.alts, old(font.alts), base.code, files, |files|)
  {
    var code := base.code;
    for i := 0 to |files| - 1
      invariant font.bases == old(font.bases)
      invariant font.subs == SubsAdded(old(font.subs), code, i)
      invariant AltsAdded(font.alts, old(font.alts), code, files, i + 1)
    {
      var altName := AltName(code, i + 1);
      AltsAddedStep(font.alts, old(font.alts), code, files, i + 1);
      var alt := font.CreateNamedChar(altName);
      font.ImportOutlines(alt, SourceDir + files[i + 1]);
      SubsAddedStep(old(font.subs), code, i);
      font.AddPosSub(base, altName);
    }
  }

  /** The font's tables are the ones the groups call for. */
  ghost predicate Built(bases: map<nat, Glyph>, subs: map<nat, seq<string>>, alts: map<string, Glyph>, groups: Groups)
  {
    && NonEmptyGroups(groups)
    && bases == ExpectedBases(groups)
    && subs == ExpectedSubs(groups)
    && AltsMatch(alts, groups)
  }

  /** A code without a group has neither a substitution entry nor alternates yet. */
  lemma BuiltFresh(bases: map<nat, Glyph>, subs: map<nat, seq<string>>, alts: map<string, Glyph>,
                   groups: Groups, done: set<nat>, code: nat)
    requires Built(bases, subs, alts, Restrict(groups, done)) && code !in done
    ensures code !in subs
    ensures forall i :: AltName(code, i) !in alts
  {
    AltsFresh(alts, Restrict(groups, done), code);
  }

  /** Building one more group on top of built tables gives the tables of the extended groups. */
  lemma BuiltStep(bases: map<nat, Glyph>, subs: map<nat, seq<string>>, alts: map<string, Glyph>,
                  bases': map<nat, Glyph>, subs': map<nat, seq<string>>, alts': map<string, Glyph>,
                  groups: Groups, done: set<nat>, code: nat)
    requires code in groups && code !in done && groups[code] != []
    requires Built(bases, subs, alts, Restrict(groups, done))
    requires GroupAdded(bases, subs, alts, bases', subs', alts', code, groups[code])
    ensures Built(bases', subs', alts', Restrict(groups, done + {code}))
  {
    var h := Restrict(groups, done);
    RestrictStep(groups, done, code);
    AltsMatchStep(alts, alts', h, code, groups[code]);
    ExpectedBasesStep(h, code, groups[code]);
    ExpectedSubsStep(h, code, groups[code]);
  }

  /** The builder loop over all groups, in whatever order the dictionary yields them. */
  method AddGlyphs(font: Font, groups: Groups)
    requires NonEmptyGroups(groups)
    requires font.bases == map[] && font.alts == map[] && font.subs == map[]
    modifies font
    ensures font.bases == ExpectedBases(groups)
    ensures font.subs == ExpectedSubs(groups)
    ensures AltsMatch(font.alts, groups)
  {
    var done: set<nat> := {};
    RestrictNone(groups);
    while done != groups.Keys
      invariant done <= groups.Keys
      invariant Built(font.bases, font.subs, font.alts, Restrict(groups, done))
      decreases |groups.Keys - done|
    {
      var code :| code in groups.Keys - done;
      BuiltFresh(font.bases, font.subs, font.alts, groups, done, code);
      ghost var bases0, subs0, alts0 := font.bases, font.subs, font.alts;
      AddVariantGroup(font, code, groups[code]);
      BuiltStep(bases0, subs0, alts0, font.bases, font.subs, font.alts, groups, done, code);
      done := done + {code};
    }
    RestrictAll(groups, done);
  }

  /** Every group the grouping loop produces holds at least one image. */
  lemma CollectedGroupsNonEmpty(files: seq<string>, read: Reader)
    requires Collect(files, read).Ok?
    ensures NonEmptyGroups(Collect(files, read).value)
  {
    CollectIsSelect(files, read);
  }

  /**
   * Step 3 up to writing the font: group the listing, then build the glyphs
   * and substitutions. When a name raises, the error comes back and no glyph
   * has been made.
   */
  method CreateFontWithVariants(files: seq<string>) returns (font: Font, err: Option<ParseError>)
    ensures fresh(font)
    ensures err.Some? <==> Collect(files, ParseFileName).Err?
    ensures err.Some? ==> err.value == Collect(files, ParseFileName).error
                          && font.bases == map[] && font.alts == map[] && font.subs == map[]
    ensures err.None? ==> Built(font.bases, font.subs, font.alts, Collect(files, ParseFileName).value)
  {
    font := new Font();
    var grouped := CollectVariants(files, ParseFileName);
    if grouped.Err? {
      return font, Some(grouped.error);
    }
    CollectedGroupsNonEmpty(files, ParseFileName);
    AddGlyphs(font, grouped.value);
    err := None;
  }

  /** Base glyphs carry side bearings 20 and width 256; alternates carry no metrics at all. */
  lemma BuiltMetrics(bases: map<nat, Glyph>, subs: map<nat, seq<string>>, alts: map<string, Glyph>, groups: Groups)
    requires Built(bases, subs, alts, groups)
    ensures forall c :: c in bases ==>
      bases[c].lsb == Some(SideBearing) && bases[c].rsb == Some(SideBearing) && bases[c].width == Some(AdvanceWidth)
    ensures forall name :: name in alts ==> alts[name].lsb.None? && alts[name].rsb.None? && alts[name].width.None?
  {
    forall name | name in alts ensures alts[name].lsb.None? && alts[name].rsb.None? && alts[name].width.None? {
      var c, i :| c in groups && 1 <= i < |groups[c]| && name == AltName(c, i);
    }
  }

  /** A group of k images gives its base a substitution entry of k-1 names exactly when k > 1. */
  lemma SubsShape(groups: Groups)
    ensures forall c :: c in ExpectedSubs(groups) ==> c in groups && |ExpectedSubs(groups)[c]| == |groups[c]| - 1
    ensures forall c :: c in groups && |groups[c]| > 1 ==> c in ExpectedSubs(groups)
  {
  }

  /** Every registered substitution names an alternate of the font. */
  lemma SubsNameAlternates(groups: Groups)
    ensures forall c, j :: c in ExpectedSubs(groups) && 0 <= j < |ExpectedSubs(groups)[c]| ==>
      ExpectedSubs(groups)[c][j] in AltKeys(groups)
  {
    var subs := ExpectedSubs(groups);
    forall c, j | c in subs && 0 <= j < |subs[c]| ensures subs[c][j] in AltKeys(groups) {
      assert subs[c][j] == AltName(c, j + 1);
    }
  }

  /** The entries of one base are pairwise distinct. */
  lemma SubsDistinct(groups: Groups)
    ensures forall c, j, k :: c in ExpectedSubs(groups) && 0 <= j < k < |ExpectedSubs(groups)[c]| ==>
      ExpectedSubs(groups)[c][j] != ExpectedSubs(groups)[c][k]
  {
    var subs := ExpectedSubs(groups);
    forall c | c in subs ensures forall j, k :: 0 <= j < k < |subs[c]| ==> subs[c][j] != subs[c][k] {
      AltNamesDistinct(c, |groups[c]| - 1);
    }
  }

  /** The alternate names of one code are pairwise distinct. */
  lemma AltNamesDistinct(code: nat, n: nat)
    ensures forall j, k :: 0 <= j < k < n ==> AltNames(code, n)[j] != AltNames(code, n)[k]
  {
    var names := AltNames(code, n);
    forall j, k | 0 <= j < k < n ensures names[j] != names[k] {
      AltNamesDiffer(code, j + 1, k + 1);
    }
  }

  /** No alternate is registered under two bases. */
  lemma SubsExclusive(groups: Groups)
    ensures forall c, d, name ::
      (c in ExpectedSubs(groups) && d in ExpectedSubs(groups) && name in ExpectedSubs(groups)[c] && name in ExpectedSubs(groups)[d])
      ==> c == d
  {
    var subs := ExpectedSubs(groups);
    forall c, d, name | c in subs && d in subs && name in subs[c] && name in subs[d] ensures c == d {
      var j :| 0 <= j < |subs[c]| && subs[c][j] == name;
      var k :| 0 <= k < |subs[d]| && subs[d][k] == name;
      AltNameInjective(c, j + 1, d, k + 1);
    }
  }

  /**
   * The glyphs and the listing correspond: every accepted image of the listing
   * is the outline source of the base glyph of its code or of one of that
   * code's alternates, and every base glyph's source is an accepted image of
   * the listing that reads back with the base's code.
   */
  lemma GlyphSourcesAreListing(files: seq<string>, read: Reader, bases: map<nat, Glyph>, subs: map<nat, seq<string>>,
                               alts: map<string, Glyph>, name: string)
    requires Collect(files, read).Ok?
    requires Built(bases, subs, alts, Collect(files, read).value)
    ensures Accepted(name) && name in files ==>
      && read(name).Ok?
      && var c := read(name).value.code;
      && c in bases
      && (|| bases[c].source == Some(SourceDir + name)
          || exists i :: 1 <= i < |Collect(files, read).value[c]| && AltName(c, i) in alts
                         && alts[AltName(c, i)].source == Some(SourceDir + name))
    ensures forall c :: c in bases ==> exists k :: 0 <= k < |files| && HasCode(files[k], c, read)
                                                   && bases[c].source == Some(SourceDir + files[k])
  {
    var g := Collect(files, read).value;
    CollectIsSelect(files, read);
    if Accepted(name) && name in files {
      GroupsPartitionListing(files, name, read);
      var c := read(name).value.code;
      assert name in multiset(files);
      assert name in multiset(g[c]);
      var i :| 0 <= i < |g[c]| && g[c][i] == name;
      if i > 0 {
        assert alts[AltName(c, i)] == AltGlyph(g[c][i]);
      }
    }
    forall c | c in bases ensures exists k :: 0 <= k < |files| && HasCode(files[k], c, read)
                                              && bases[c].source == Some(SourceDir + files[k])
    {
      SelectMembers(files, c, read);
      SelectCount(files, c, g[c][0], read);
      assert g[c][0] in multiset(files);
      var k :| 0 <= k < |files| && files[k] == g[c][0];
    }
  }
}
