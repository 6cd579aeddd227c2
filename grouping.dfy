/**
 * The grouping loop of create_font_with_variants: the listing of the
 * processed-images directory is turned into a dictionary from character
 * code to the names of that character's images. The listing is an input
 * sequence, in whatever order the directory listing returned it.
 */
module Grouping {
  import opened Wrappers
  import opened Numerals
  import opened FileNames

  /** The `char_variants` dictionary: character code to image names. */
  type Groups = map<nat, seq<string>>

  /**
   * How one accepted name is read. The pipeline reads names with
   * FileNames.ParseFileName; the properties of the loop proved here hold
   * for any reader, so they do not depend on the details of `int()`.
   */
  type Reader = string -> Result<ParsedName, ParseError>

  /** Names the loop looks at; every other name is skipped. */
  predicate Accepted(name: string)
  {
    EndsWith(name, PngSuffix)
  }

  /** One turn of the loop: skip, append the name to its group (creating the group first), or raise. */
  function Step(groups: Groups, name: string, read: Reader): Result<Groups, ParseError>
  {
    if !Accepted(name) then Ok(groups)
    else
      match read(name)
      case Err(e) => Err(e)
      case Ok(p) => Ok(groups[p.code := (if p.code in groups then groups[p.code] else []) + [name]])
  }

  /** The dictionary after the loop has run over all of `files`, or the error of the name that raised. */
  function Collect(files: seq<string>, read: Reader): Result<Groups, ParseError>
    decreases |files|
  {
    if files == [] then Ok(map[])
    else
      match Collect(files[..|files| - 1], read)
      case Err(e) => Err(e)
      case Ok(g) => Step(g, files[|files| - 1], read)
  }

  /** `name` is accepted and reads back with character code `code`. */
  predicate HasCode(name: string, code: nat, read: Reader)
  {
    Accepted(name) && read(name).Ok? && read(name).value.code == code
  }

  /** Reference definition of a group: the names of the listing with code `code`, in listing order. */
  function Select(files: seq<string>, code: nat, read: Reader): seq<string>
    decreases |files|
  {
    if files == [] then []
    else
      var last := files[|files| - 1];
      Select(files[..|files| - 1], code, read) + (if HasCode(last, code, read) then [last] else [])
  }

  /** Every accepted name of the listing can be read. */
  predicate AllParse(files: seq<string>, read: Reader)
  {
    forall k :: 0 <= k < |files| && Accepted(files[k]) ==> read(files[k]).Ok?
  }

  /** The loop runs to the end exactly when no accepted name raises. */
  lemma {:induction false} CollectSucceedsIff(files: seq<string>, read: Reader)
    ensures Collect(files, read).Ok? <==> AllParse(files, read)
    decreases |files|
  {
    if files != [] {
      var init := files[..|files| - 1];
      CollectSucceedsIff(init, read);
      assert forall k :: 0 <= k < |init| ==> init[k] == files[k];
    }
  }

  /** When the loop raises, it raises for an accepted name all of whose predecessors could be read. */
  lemma {:induction false} CollectFailsOnFirstBadName(files: seq<string>, read: Reader)
    requires Collect(files, read).Err?
    ensures exists k :: 0 <= k < |files| && Accepted(files[k]) && AllParse(files[..k], read)
                        && read(files[k]) == Err(Collect(files, read).error)
    decreases |files|
  {
    var k := |files| - 1;
    var init := files[..k];
    if Collect(init, read).Err? {
      CollectFailsOnFirstBadName(init, read);
      var j :| 0 <= j < |init| && Accepted(init[j]) && AllParse(init[..j], read)
                && read(init[j]) == Err(Collect(init, read).error);
      assert init[..j] == files[..j];
    } else {
      CollectSucceedsIff(init, read);
    }
  }

  /**
   * The groups are the reference groups: a code has a group exactly when some
   * accepted name carries it, and its group lists those names in listing order.
   */
  lemma {:induction false} CollectIsSelect(files: seq<string>, read: Reader)
    requires Collect(files, read).Ok?
    ensures forall c :: c in Collect(files, read).value <==> Select(files, c, read) != []
    ensures forall c :: c in Collect(files, read).value ==> Collect(files, read).value[c] == Select(files, c, read)
    decreases |files|
  {
    if files != [] {
      var init := files[..|files| - 1];
      var last := files[|files| - 1];
      CollectIsSelect(init, read);
      if Accepted(last) {
        var p := read(last).value;
        assert HasCode(last, p.code, read);
        forall c | c != p.code ensures Select(files, c, read) == Select(init, c, read) {
          assert !HasCode(last, c, read);
          assert Select(files, c, read) == Select(init, c, read) + [];
        }
      } else {
        forall c ensures Select(files, c, read) == Select(init, c, read) {
          assert Select(files, c, read) == Select(init, c, read) + [];
        }
      }
    }
  }

  /** Every member of a reference group carries its code. */
  lemma {:induction false} SelectMembers(files: seq<string>, code: nat, read: Reader)
    ensures forall x :: x in Select(files, code, read) ==> HasCode(x, code, read)
    decreases |files|
  {
    if files != [] {
      SelectMembers(files[..|files| - 1], code, read);
    }
  }

  /** A name that carries the code occurs in the group as often as in the listing, and one that does not, never. */
  lemma {:induction false} SelectCount(files: seq<string>, code: nat, name: string, read: Reader)
    ensures HasCode(name, code, read) ==> multiset(Select(files, code, read))[name] == multiset(files)[name]
    ensures !HasCode(name, code, read) ==> name !in Select(files, code, read)
    decreases |files|
  {
    if files != [] {
      var init := files[..|files| - 1];
      SelectCount(init, code, name, read);
      assert files == init + [files[|files| - 1]];
    }
  }

  /** A group is non-empty exactly when some name of the listing carries its code. */
  lemma {:induction false} SelectNonEmptyIff(files: seq<string>, code: nat, read: Reader)
    ensures Select(files, code, read) != [] <==> exists k :: 0 <= k < |files| && HasCode(files[k], code, read)
    decreases |files|
  {
    if files != [] {
      var init := files[..|files| - 1];
      SelectNonEmptyIff(init, code, read);
      assert forall k :: 0 <= k < |init| ==> init[k] == files[k];
    }
  }

  /**
   * Completeness: every accepted name lands in the group of its code as often
   * as the listing holds it (once, for a listing without repeats), and in no
   * other group; names that fail the `.png` filter land nowhere; no group is empty.
   */
  lemma GroupsPartitionListing(files: seq<string>, name: string, read: Reader)
    requires Collect(files, read).Ok?
    ensures var g := Collect(files, read).value;
      && (forall c :: c in g ==> g[c] != [])
      && (Accepted(name) && name in files ==>
            && read(name).Ok?
            && var c := read(name).value.code;
            && c in g
            && multiset(g[c])[name] == multiset(files)[name]
            && forall d :: d in g && d != c ==> name !in g[d])
      && (!Accepted(name) ==> forall c :: c in g ==> name !in g[c])
  {
    var g := Collect(files, read).value;
    CollectIsSelect(files, read);
    CollectSucceedsIff(files, read);
    if Accepted(name) && name in files {
      var k :| 0 <= k < |files| && files[k] == name;
      var c := read(name).value.code;
      SelectCount(files, c, name, read);
      assert name in multiset(files);
      assert name in Select(files, c, read);
      forall d | d in g && d != c ensures name !in g[d] {
        SelectCount(files, d, name, read);
      }
    }
    if !Accepted(name) {
      forall c | c in g ensures name !in g[c] {
        SelectCount(files, c, name, read);
      }
    }
  }

  /**
   * The order of a group is the listing order, not the order of the variant
   * numbers: two images of `A` listed as variant 1 then variant 0 stay in that order.
   */
  lemma ListingOrderKept()
    ensures Collect(["0041-1.png", "0041-0.png"], ParseFileName)
            == Ok(map[0x41 := ["0041-1.png", "0041-0.png"]])
  {
    var n1, n0 := "0041-1.png", "0041-0.png";
    assert Hex04(0x41) == "0041" by {
      assert Numeral(0x41, 16) == Numeral(4, 16) + [DigitChar(1)];
    }
    assert Decimal(1) == "1" && Decimal(0) == "0";
    assert FileName(0x41, 1) == n1;
    assert FileName(0x41, 0) == n0;
    FileNameRoundTrip(0x41, 1);
    FileNameRoundTrip(0x41, 0);
    CollectTwo(n1, n0, 0x41, ParseFileName);
  }

  /** Two accepted names of one code are grouped in the order they are listed. */
  lemma CollectTwo(n1: string, n0: string, code: nat, read: Reader)
    requires Accepted(n1) && Accepted(n0)
    requires read(n1).Ok? && read(n1).value.code == code
    requires read(n0).Ok? && read(n0).value.code == code
    ensures Collect([n1, n0], read) == Ok(map[code := [n1, n0]])
  {
    var files := [n1, n0];
    assert files[..1] == [n1];
    assert [n1][..0] == [];
    assert Collect([n1], read) == Step(map[], n1, read);
    assert [] + [n1] == [n1];
    assert Step(map[], n1, read) == Ok(map[code := [n1]]);
    assert Collect(files, read) == Step(map[code := [n1]], n0, read);
    assert [n1] + [n0] == [n1, n0];
    assert map[code := [n1]][code := [n1] + [n0]] == map[code := [n1, n0]];
  }

  /** The names written for a sequence of (code, variant) pairs. */
  function EncodedNames(items: seq<ParsedName>): (files: seq<string>)
    ensures |files| == |items|
  {
    seq(|items|, k requires 0 <= k < |items| => FileName(items[k].code, items[k].variant))
  }

  /**
   * A listing made only of names the encoder wrote never raises, and its
   * groups are keyed by exactly the codes that were written.
   */
  lemma CollectEncodedNames(items: seq<ParsedName>)
    requires forall k :: 0 <= k < |items| ==> |Decimal(items[k].variant)| <= MaxStrDigits
    ensures Collect(EncodedNames(items), ParseFileName).Ok?
    ensures Collect(EncodedNames(items), ParseFileName).value.Keys == set k | 0 <= k < |items| :: items[k].code
  {
    var files := EncodedNames(items);
    var read := ParseFileName;
    forall k | 0 <= k < |items|
      ensures Accepted(files[k]) && read(files[k]) == Ok(items[k])
    {
      FileNameRoundTrip(items[k].code, items[k].variant);
    }
    CollectSucceedsIff(files, read);
    CollectIsSelect(files, read);
    var g := Collect(files, read).value;
    var codes := set k | 0 <= k < |items| :: items[k].code;
    forall c ensures c in g <==> c in codes {
      SelectNonEmptyIff(files, c, read);
      if c in g {
        var k :| 0 <= k < |files| && HasCode(files[k], c, read);
        assert items[k].code == c;
      }
      if c in codes {
        var k :| 0 <= k < |items| && items[k].code == c;
        assert HasCode(files[k], c, read);
      }
    }
  }

  /** The grouping loop itself: the dictionary is filled in place, name by name. */
  method CollectVariants(files: seq<string>, read: Reader) returns (r: Result<Groups, ParseError>)
    ensures r == Collect(files, read)
  {
    var charVariants: Groups := map[];
    var i := 0;
    while i < |files|
      invariant 0 <= i <= |files|
      invariant Collect(files[..i], read) == Ok(charVariants)
    {
      var name := files[i];
      assert files[..i + 1][..i] == files[..i];
      if !EndsWith(name, PngSuffix) {
        i := i + 1;
        continue;
      }
      var parsed := read(name);
      if parsed.Err? {
        CollectErrorPersists(files, i + 1, read);
        return Err(parsed.error);
      }
      var code := parsed.value.code;
      ghost var before := charVariants;
      if code !in charVariants {
        charVariants := charVariants[code := []];
      }
      charVariants := charVariants[code := charVariants[code] + [name]];
      assert charVariants == before[code := (if code in before then before[code] else []) + [name]];
      assert Collect(files[..i + 1], read) == Step(before, name, read);
      i := i + 1;
    }
    assert files[..i] == files;
    r := Ok(charVariants);
  }

  /** Once the loop has raised, the rest of the listing makes no difference. */
  lemma {:induction false} CollectErrorPersists(files: seq<string>, i: nat, read: Reader)
    requires i <= |files| && Collect(files[..i], read).Err?
    ensures Collect(files, read) == Collect(files[..i], read)
    decreases |files| - i
  {
    if i < |files| {
      assert files[..i + 1][..i] == files[..i];
      CollectErrorPersists(files, i + 1, read);
    } else {
      assert files[..i] == files;
    }
  }
}
