/**
 * The font object of create_font_with_variants, reduced to what the
 * builder stores in it: base glyphs at code points, alternate glyphs by
 * name, and the entries of the one random-substitution subtable.
 */
module Fonts {
  import opened Wrappers

  /** What the builder records about a glyph: the image its outline was imported from, and its metrics. */
  datatype Glyph = Glyph(source: Option<string>, lsb: Option<int>, rsb: Option<int>, width: Option<int>)

  /** A glyph as `createChar` makes it: no outline and no metrics set. */
  const Blank := Glyph(None, None, None, None)

  /** A handle on a glyph of the font: the base glyph at a code point, or an alternate by name. */
  datatype GlyphRef = Base(code: nat) | Alt(name: string)

  /** The metric attributes the builder assigns. */
  datatype Metric = LeftSideBearing | RightSideBearing | Width

  /** The glyph with one metric set to `v` and everything else as it was. */
  function WithMetric(glyph: Glyph, m: Metric, v: int): (r: Glyph)
    ensures r.source == glyph.source
    ensures r.lsb == (if m == LeftSideBearing then Some(v) else glyph.lsb)
    ensures r.rsb == (if m == RightSideBearing then Some(v) else glyph.rsb)
    ensures r.width == (if m == Width then Some(v) else glyph.width)
  {
    match m
    case LeftSideBearing => glyph.(lsb := Some(v))
    case RightSideBearing => glyph.(rsb := Some(v))
    case Width => glyph.(width := Some(v))
  }

  class Font {
    /** Base glyphs by code point. */
    var bases: map<nat, Glyph>
    /** Alternate glyphs, which have no code point, by glyph name. */
    var alts: map<string, Glyph>
    /** The `random_subtable` entries: for each base code point, the alternate names it may be replaced by, in the order added. */
    var subs: map<nat, seq<string>>

    /** A new, empty font. */
    constructor ()
      ensures bases == map[] && alts == map[] && subs == map[]
    {
      bases := map[];
      alts := map[];
      subs := map[];
    }

    /** The glyph a handle refers to exists. */
    predicate Has(g: GlyphRef)
      reads this
    {
      match g
      case Base(code) => code in bases
      case Alt(name) => name in alts
    }

    /** `createChar(code)`: the glyph at the code point, created blank when the font has none yet. */
    method CreateChar(code: nat) returns (g: GlyphRef)
      modifies this
      ensures g == Base(code) && Has(g)
      ensures bases == if code in old(bases) then old(bases) else old(bases)[code := Blank]
      ensures alts == old(alts) && subs == old(subs)
    {
      if code !in bases {
        bases := bases[code := Blank];
      }
      g := Base(code);
    }

    /** `createChar(-1, name)`: the unencoded glyph of that name, created blank when the font has none yet. */
    method CreateNamedChar(name: string) returns (g: GlyphRef)
      modifies this
      ensures g == Alt(name) && Has(g)
      ensures alts == if name in old(alts) then old(alts) else old(alts)[name := Blank]
      ensures bases == old(bases) && subs == old(subs)
    {
      if name !in alts {
        alts := alts[name := Blank];
      }
      g := Alt(name);
    }

    /** `importOutlines(path)`: the glyph's outline now comes from the image at `path`; nothing else changes. */
    method ImportOutlines(g: GlyphRef, path: string)
      requires Has(g)
      modifies this
      ensures g.Base? ==> bases == old(bases)[g.code := old(bases)[g.code].(source := Some(path))] && alts == old(alts)
      ensures g.Alt? ==> alts == old(alts)[g.name := old(alts)[g.name].(source := Some(path))] && bases == old(bases)
      ensures subs == old(subs)
    {
      match g
      case Base(code) => bases := bases[code := bases[code].(source := Some(path))];
      case Alt(name) => alts := alts[name := alts[name].(source := Some(path))];
    }

    /** `addPosSub('random_subtable', name)` on a base glyph: `name` is appended to that glyph's alternates. */
    method AddPosSub(g: GlyphRef, name: string)
      requires g.Base? && Has(g)
      modifies this
      ensures subs == old(subs)[g.code := (if g.code in old(subs) then old(subs)[g.code] else []) + [name]]
      ensures bases == old(bases) && alts == old(alts)
    {
      var entries := if g.code in subs then subs[g.code] else [];
      subs := subs[g.code := entries + [name]];
    }

    /** Assignment to one metric attribute of a glyph (`left_side_bearing`, `right_side_bearing` or `width`). */
    method SetMetric(g: GlyphRef, m: Metric, v: int)
      requires Has(g)
      modifies this
      ensures g.Base? ==> bases == old(bases)[g.code := WithMetric(old(bases)[g.code], m, v)] && alts == old(alts)
      ensures g.Alt? ==> alts == old(alts)[g.name := WithMetric(old(alts)[g.name], m, v)] && bases == old(bases)
      ensures subs == old(subs)
    {
      match g
      case Base(code) => bases := bases[code := WithMetric(bases[code], m, v)];
      case Alt(name) => alts := alts[name := WithMetric(alts[name], m, v)];
    }
  }
}
