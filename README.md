# Handwriting font pipeline, modelled in Dafny

`HANDWRITING.py` builds a handwriting font in three steps. This project models
the deterministic core of each step and proves what the code promises.

1. **Template creation** (`create_templates`). For every character category
   it draws pages of a grid, one page per character (see Findings). Each
   page has a title and 8 rows of 5 boxes. Each box of a row that holds a
   character carries that character and its variant number 1..5. The boxes
   of the other rows, including every row of the pages past the last
   character, carry no labels. Each page is saved as
   `templates/{category}_page{n}.png`.
2. **Image processing** (`process_variants`). It reads the scanned pages of
   each category in turn, until a page is missing or unreadable. It sorts the
   contours of a page into reading order and takes five of them per
   character. Each crop is centred on a 200x200 canvas and saved as
   `processed_chars/{code:04x}-{variant}.png`.
3. **Font generation** (`create_font_with_variants`). It groups the saved
   files by character code, in listing order. The first image of a group
   becomes the base glyph at that code point. Every later image becomes an
   alternate glyph `uni{code:04x}.alt{i}`, registered as a random substitution
   of the base. The code then sets the base glyph's side bearings to 20 and
   its width to 256, in that order (see `Fonts.Font.SetMetric` under Left out).

Files (one module each):

- `wrappers.dfy`: `Option` and `Result`.
- `numerals.dfy`: Python's `int(s, base)` for bases 10 and 16 (stripping, sign,
  `0x` prefix, `_` separators, the 4300-digit limit). Also the lower-case hex
  and decimal formatting used by the f-strings.
- `filenames.dfy`: the file-name encoder `{code:04x}-{variant}.png`, the
  decoder of the grouping loop, and their round trip.
- `grouping.dfy`: the grouping loop, with all its error cases. The decoder is
  a parameter, so the loop's properties hold for any decoder.
- `font.dfy`: the font object as a class. It holds base glyphs, alternate
  glyphs and the substitution entries.
- `assembly.dfy`: the glyph builder loop, its reference specification and
  `create_font_with_variants` up to writing the font.
- `charsets.dfy`: the four categories and their characters.
- `templates.dfy`: page counts, row ranges, grid geometry, the drawing loops
  and the page file names.
- `processing.dfy`: the reading-order sort, numpy's slice and broadcast rules
  for the paste, and the three nested loops of `process_variants`. A failed
  paste ends the program; images saved before it stay saved.

The filesystem is an input. The directory listing is a sequence of names. The
template pages are a map from path to `Unreadable` or to a scan's size and
contour bounding boxes.

Two facts about the code shape the model:

- The grouping loop keeps each character's files in listing order. It does
  not sort them by variant index (`Grouping.ListingOrderKept`).
- `create_templates` saves `pages_needed` pages per category, and that count
  equals the number of characters. The page loop is modelled with that count.
  The pages past the fourth (second for the digits) draw a grid and a title
  only. The corrected count is modelled beside it (see Findings).

## Model

| member | source | states |
|---|---|---|
| Numerals.DropLeadingSpace | HANDWRITING.py:167 | the result is a suffix of the input and does not start with whitespace |
| Numerals.LeadingSpaceDropped | HANDWRITING.py:167 | every character removed in front of that suffix is whitespace, so exactly the leading whitespace is dropped |
| Numerals.DropTrailingSpace | HANDWRITING.py:167 | the result is a prefix of the input and does not end with whitespace |
| Numerals.TrailingSpaceDropped | HANDWRITING.py:167 | every character removed after that prefix is whitespace, so exactly the trailing whitespace is dropped |
| Numerals.Strip | HANDWRITING.py:167 | `int()` reads the text with surrounding whitespace removed: no longer than the input, no whitespace at either end |
| Numerals.StripKeepsSlice | HANDWRITING.py:167 | the stripped text is the slice of the input that starts after its leading whitespace |
| Numerals.StripDropsTrailingSpace | HANDWRITING.py:167 | every character of the input after that slice is whitespace |
| Numerals.StripFirstInString | HANDWRITING.py:167 | the first character of the stripped text occurs in the original |
| Numerals.WithoutUnderscores | HANDWRITING.py:167-168 | separators removed: no `_` is left, and text without `_` is unchanged |
| Numerals.WithoutUnderscoresKeeps | HANDWRITING.py:167-168 | every character other than `_` is kept as often as it occurs |
| Numerals.WithoutUnderscoresAppend | HANDWRITING.py:167-168 | removing separators distributes over concatenation, so the kept characters stay in order |
| Numerals.IsSpace | HANDWRITING.py:167-168 | reference definition of the white space `int()` strips: the space, `\t` to `\r`, and the Unicode spaces Python classes as white space; `Numerals.LeadingSpaceDropped` and `Numerals.TrailingSpaceDropped` state that exactly these are removed |
| Numerals.DigitValue | HANDWRITING.py:167-168 | reference definition of CPython's digit table: `0`-`9` as 0-9, letters of either case as 10-35, anything else 37 |
| Numerals.IsDigit | HANDWRITING.py:167-168 | a character is a digit of the base exactly when its table value is below the base |
| Numerals.IsDigitRun | HANDWRITING.py:167-168 | reference definition of the digits of a numeral: non-empty, a digit at both ends, and every `_` single and between two digits |
| Numerals.Value | HANDWRITING.py:167-168 | reference definition of the value of a digit string, most significant digit first; `Numerals.ValueOfNumeral` and `Numerals.ValueIgnoresLeadingZeros` state its properties |
| Numerals.ParseUnsigned | HANDWRITING.py:167-168 | the unsigned part of `int(s, base)`: in base 16 an optional `0x`/`0X` prefix and at most one `_` after it, then a digit run, read by its value with `_` removed; more than 4300 digits in base 10 fail |
| Numerals.ParseIntFailsIff | HANDWRITING.py:167-168 | `int()` fails exactly when the text after stripping and the sign is not an unsigned numeral |
| Numerals.ParseIntUnsigned | HANDWRITING.py:167-168 | text that is already stripped and starts with no sign is read as an unsigned numeral |
| Numerals.IsLowerDigit | HANDWRITING.py:135 | the characters lower-case hex and decimal formatting emits: `0`-`9` and `a`-`f` |
| Numerals.Zeros | HANDWRITING.py:135 | the zero padding of `:04x`; `Numerals.ZerosValue` states it adds nothing to the value |
| Numerals.Pow16 | HANDWRITING.py:135 | 16 to the power k; `Numerals.HexNumeralLength` states a value below it has at most k hex digits |
| Numerals.SplitSign | HANDWRITING.py:167-168 | a sign is reported exactly for a leading `-`; a leading `+` or `-` is consumed, and any other text is kept whole |
| Numerals.ParseInt | HANDWRITING.py:167-168 | `int(s, base)` gives a negative value only when the stripped text starts with `-` |
| Numerals.ParseIntWithoutMinus | HANDWRITING.py:167-168 | text without `-` never converts to a negative number, so the codes and variants read are natural numbers |
| Numerals.Numeral | HANDWRITING.py:135 | the digits of a number in a base are never empty |
| Numerals.NumeralDigits | HANDWRITING.py:135 | every formatted digit is a lower-case digit of the base |
| Numerals.DigitChar | HANDWRITING.py:135 | the digit character of `d` is a lower-case digit whose value is `d` |
| Numerals.ValueOfNumeral | HANDWRITING.py:135 | reading back the digits of `n` in the same base gives `n` |
| Numerals.ZerosValue | HANDWRITING.py:135 | the zero padding of `:04x` has value 0 |
| Numerals.ValueIgnoresLeadingZeros | HANDWRITING.py:135 | leading zeros do not change a numeral's value |
| Numerals.Hex04Digits | HANDWRITING.py:135 | `{code:04x}` is non-empty and made of lower-case hex digits |
| Numerals.Hex04Value | HANDWRITING.py:135 | `{code:04x}` read in base 16 is `code` |
| Numerals.HexNumeralLength | HANDWRITING.py:135 | a number below 16^k has at most k hex digits |
| Numerals.Hex04Length | HANDWRITING.py:135 | a code point below 0x10000 formats to exactly four hex digits |
| Numerals.ParsePlainDigits | HANDWRITING.py:167-168 | a non-empty run of plain digits converts to its value (base 10 only within the 4300-digit limit) |
| Numerals.PlainDigitsAreStripped | HANDWRITING.py:167 | stripping leaves a run of digits unchanged |
| Numerals.PlainDigitsAreUnsigned | HANDWRITING.py:167-168 | a run of plain digits is read as an unsigned numeral with its value |
| Numerals.Hex04 | HANDWRITING.py:135 | `{code:04x}`: the lower-case hex numeral, zero-padded to four digits; its properties are the Hex04 lemmas below |
| Numerals.Decimal | HANDWRITING.py:135 | `str(n)`/`{variant}`: the decimal numeral; `ParseDecimal` reads it back |
| Numerals.ParseHex04 | HANDWRITING.py:167 | `int(f'{code:04x}', 16) == code` for every code |
| Numerals.ParseDecimal | HANDWRITING.py:168 | `int(str(n)) == n` within the 4300-digit limit |
| FileNames.EndsWith | HANDWRITING.py:163 | `str.endswith(suffix)`: the last characters of the text are the suffix |
| FileNames.Split | HANDWRITING.py:166 | `str.split(sep)`: at least one part, no part contains the separator, and two or more parts exactly when the separator occurs |
| FileNames.Join | HANDWRITING.py:166 | `sep.join(parts)`, the inverse of the split |
| FileNames.JoinSplit | HANDWRITING.py:166 | joining the parts of a split with its separator gives back the text |
| FileNames.SplitJoin | HANDWRITING.py:166 | splitting a join of separator-free parts gives back the parts |
| FileNames.SplitKeepsAbsence | HANDWRITING.py:168 | a character absent from a string is absent from every part of its split |
| FileNames.SplitWithoutSeparator | HANDWRITING.py:166 | a string without the separator splits into itself alone |
| FileNames.SplitHead | HANDWRITING.py:166 | a separator-free prefix joins the first part and leaves the later parts alone |
| FileNames.SplitSignKeepsLast | HANDWRITING.py:167-168 | removing the sign keeps the last character, unless nothing is left |
| FileNames.FileName | HANDWRITING.py:135 | every saved name ends in `.png`, so the grouping loop never skips it |
| FileNames.ParseFileName | HANDWRITING.py:166-168 | the decoder: an error names the file name it reads; a name without `-` never parses, and a missing variant means no `-` |
| FileNames.ParseOfParts | HANDWRITING.py:166-168 | for a name `a-b…`, an invalid code is reported first, then an invalid variant; otherwise the two values are returned |
| FileNames.FileNameRoundTrip | HANDWRITING.py:163-168 | the name saved at line 135 passes the `.png` filter and parses back to the same code and variant |
| FileNames.FileNameInjective | HANDWRITING.py:135 | different (code, variant) pairs are saved under different names |
| FileNames.DropLeadingSpaceKeepsLast | HANDWRITING.py:167 | removing leading whitespace keeps the last non-space character |
| FileNames.ParseIntRejectsBadEnd | HANDWRITING.py:167-168 | text ending in a character that is neither whitespace nor a digit of the base raises ValueError |
| FileNames.ParseUnsignedRejectsBadEnd | HANDWRITING.py:167-168 | an unsigned numeral ending in a non-digit is rejected |
| FileNames.PngWithoutDashFails | HANDWRITING.py:166-167 | a `.png` name without `-` always fails on the code (its `.png` is not hex), so the IndexError of `parts[1]` can never happen |
| FileNames.ParseIntEmpty | HANDWRITING.py:168 | the empty string does not convert |
| FileNames.EmptyVariantFails | HANDWRITING.py:168 | a name with nothing between the dash and the dot fails on the variant with an empty segment |
| Grouping.Accepted | HANDWRITING.py:163-164 | the names the loop reads: those ending in `.png` |
| Grouping.Step | HANDWRITING.py:163-172 | one turn: skip, raise with the name's error, or append the name to its code's list, creating it first |
| Grouping.Collect | HANDWRITING.py:162-172 | the loop over the whole listing, stopping at the first name that raises |
| Grouping.HasCode | HANDWRITING.py:163-172 | a name is accepted (it ends in `.png`) and decodes to character code `code` |
| Grouping.Select | HANDWRITING.py:162-172 | reference definition of a group: the accepted names of the listing with code `code`, in listing order; `Grouping.CollectIsSelect` states that the loop builds exactly these |
| Grouping.AllParse | HANDWRITING.py:162-168 | every accepted name of the listing decodes; `Grouping.CollectSucceedsIff` states that the loop finishes exactly then |
| Grouping.CollectSucceedsIff | HANDWRITING.py:162-172 | the loop finishes exactly when every `.png` name parses |
| Grouping.CollectFailsOnFirstBadName | HANDWRITING.py:162-168 | on failure the error is that of the first `.png` name that does not parse, after names that all did |
| Grouping.CollectIsSelect | HANDWRITING.py:162-172 | the dictionary's codes are exactly those of some parsed name; each entry is the listing filtered to that code, in listing order |
| Grouping.SelectMembers | HANDWRITING.py:170-172 | every name in a group parses to the group's code |
| Grouping.SelectCount | HANDWRITING.py:170-172 | a name with the code appears in its group as often as in the listing; any other name does not appear |
| Grouping.SelectNonEmptyIff | HANDWRITING.py:170-172 | a group is non-empty exactly when some listed name has that code |
| Grouping.GroupsPartitionListing | HANDWRITING.py:162-172 | no group is empty; each listed `.png` name lies in the group of its own code, as often as listed, and in no other; other names lie in none |
| Grouping.ListingOrderKept | HANDWRITING.py:170-172 | `0041-1.png` listed before `0041-0.png` stays first: the group is not sorted by variant |
| Grouping.CollectTwo | HANDWRITING.py:170-172 | two names of the same code form one group in listing order |
| Grouping.EncodedNames | HANDWRITING.py:135 | one saved name per (code, variant) item |
| Grouping.CollectEncodedNames | HANDWRITING.py:158-172 | a listing of names saved by step 2 always groups without error, keyed by exactly the codes saved |
| Grouping.CollectVariants | HANDWRITING.py:158-172 | the loop returns the reference grouping or its error |
| Grouping.CollectErrorPersists | HANDWRITING.py:162-168 | once a name raises, the names after it make no difference |
| Fonts.WithMetric | HANDWRITING.py:190-192 | setting one metric changes that metric only |
| Fonts.Font.constructor | HANDWRITING.py:147 | a new font has no glyphs and no substitutions |
| Fonts.Font.Has | HANDWRITING.py:177-184 | a glyph handle refers to a glyph of the font: a base glyph by code point, an alternate by name |
| Fonts.Font.CreateChar | HANDWRITING.py:177 | `createChar(code)` gives the glyph at the code point, created blank only if missing; nothing else changes |
| Fonts.Font.CreateNamedChar | HANDWRITING.py:183 | `createChar(-1, name)` gives the named glyph, created blank only if missing; nothing else changes |
| Fonts.Font.ImportOutlines | HANDWRITING.py:178 | the glyph's outline now comes from the given image; nothing else changes |
| Fonts.Font.AddPosSub | HANDWRITING.py:187 | the alternate name is appended to the base glyph's substitution entry; nothing else changes |
| Fonts.Font.SetMetric | HANDWRITING.py:190-192 | one metric of the glyph is set; nothing else changes |
| Assembly.AltName | HANDWRITING.py:182 | `f"uni{char_code:04x}.alt{i}"` |
| Assembly.AltNames | HANDWRITING.py:181-182 | the k alternate names of a code, the j-th being `uni{code:04x}.alt{j+1}` |
| Assembly.AltNameSet | HANDWRITING.py:181-183 | the names of alternates 1 .. n-1 of one character code |
| Assembly.AltKeys | HANDWRITING.py:181-183 | the names of all alternates the groups call for: `uni{code:04x}.alt{i}` for i from 1 to the group's size minus 1 |
| Assembly.BaseGlyph | HANDWRITING.py:177-192 | the base glyph of a group: outline from the group's first image under `processed_chars/`, side bearings 20 and width 256 |
| Assembly.AltGlyph | HANDWRITING.py:182-184 | an alternate glyph: outline from its image, and no metrics set |
| Assembly.NonEmptyGroups | HANDWRITING.py:170-172 | every group holds at least one image; `Assembly.CollectedGroupsNonEmpty` states the grouping loop makes only such groups |
| Assembly.ExpectedBases | HANDWRITING.py:175-178 | reference definition of the base glyphs: one per character code, at that code point, from the group's first image; `Assembly.AddGlyphs` builds exactly these |
| Assembly.ExpectedSubs | HANDWRITING.py:181-187 | reference definition of the substitution table: a group of k > 1 images lists its k - 1 alternate names in order, and a group of one image has no entry |
| Assembly.AltsMatch | HANDWRITING.py:181-184 | reference definition of the alternates table: exactly the names of `Assembly.AltKeys`, alternate i of a group made from its image i; `Assembly.AltsMatchUnique` states there is one such table |
| Assembly.Restrict | HANDWRITING.py:175 | the groups of a set of codes; after visiting some codes, the font holds exactly the glyphs of those groups (`Assembly.BuiltStep`) |
| Assembly.AltsAdded | HANDWRITING.py:181-184 | invariant of the alternates loop: earlier entries unchanged, alternate j of the group made from its image j |
| Assembly.SubsAdded | HANDWRITING.py:187 | the substitution table after the first n alternates of a code are registered |
| Assembly.GroupAdded | HANDWRITING.py:176-192 | one group step: its base glyph, its substitution entry and its alternates are added, and no other entry changes |
| Assembly.Built | HANDWRITING.py:175-192 | the font's tables are the reference tables of the groups |
| Assembly.FirstDot | HANDWRITING.py:182 | the first `.` of `a.b` is the one after `a` when `a` has none |
| Assembly.SplitAtDot | HANDWRITING.py:182 | `a.b == c.d` with dot-free `a` and `c` forces `a == c` and `b == d` |
| Assembly.UniHexHasNoDot | HANDWRITING.py:182 | `uni{code:04x}` contains no dot |
| Assembly.AltNameInjective | HANDWRITING.py:182 | alternate names of different codes or indices differ, so no alternate overwrites another |
| Assembly.AltNamesDiffer | HANDWRITING.py:182 | two alternates of the same code with different indices have different names |
| Assembly.AltNamesSnoc | HANDWRITING.py:181-182 | each turn of the enumerate loop appends the next alternate name |
| Assembly.AltNameSetSnoc | HANDWRITING.py:181-182 | the set of a code's alternate names grows by one name per turn |
| Assembly.AltsOfGroupStep | HANDWRITING.py:181-184 | adding alternate i+1 keeps alternates 1..i and adds the new one from image i+1 |
| Assembly.AltsMatchUnique | HANDWRITING.py:175-184 | the reference table of alternates determines one table only |
| Assembly.AltKeysStep | HANDWRITING.py:181-182 | a new group adds exactly its own alternate names |
| Assembly.AltsFresh | HANDWRITING.py:181-183 | before a code's group is built, none of its alternate names exists |
| Assembly.AltsMatchStep | HANDWRITING.py:175-184 | building one more group keeps the alternates equal to the reference |
| Assembly.RestrictNone | HANDWRITING.py:175 | before the loop, no group has been built |
| Assembly.RestrictAll | HANDWRITING.py:175 | after the loop, every group has been built |
| Assembly.RestrictStep | HANDWRITING.py:175 | each turn builds one group not built before |
| Assembly.ExpectedBasesStep | HANDWRITING.py:177-178 | one more group adds its base glyph from its first image |
| Assembly.ExpectedSubsStep | HANDWRITING.py:181-187 | one more group adds a substitution entry exactly when it has more than one image |
| Assembly.AddVariantGroup | HANDWRITING.py:176-192 | one turn of the builder: base glyph from the first image, each later image an alternate listed in the substitution, base metrics set |
| Assembly.AltsAddedStep | HANDWRITING.py:181-184 | adding alternate n (created blank, then its outline imported) extends the table of alternates 1..n-1 |
| Assembly.SubsAddedStep | HANDWRITING.py:187 | each alternate appends its name to the base's substitution entry |
| Assembly.AddAlternates | HANDWRITING.py:181-187 | the inner loop leaves the base glyphs alone, lists the alternates in the substitution, and adds one alternate per later image |
| Assembly.BuiltFresh | HANDWRITING.py:175-187 | a code not yet visited has no substitution entry and no alternates |
| Assembly.BuiltStep | HANDWRITING.py:175-192 | a turn of the loop extends a font built for the groups visited to one built for one more group |
| Assembly.AddGlyphs | HANDWRITING.py:175-192 | whatever order the groups are visited in, the font ends with the reference base glyphs, substitutions and alternates |
| Assembly.CollectedGroupsNonEmpty | HANDWRITING.py:170-172 | every group of the grouping loop has at least one image, so `variants[0]` exists |
| Assembly.CreateFontWithVariants | HANDWRITING.py:146-192 | with the FontForge calls assumed to succeed, it fails exactly when grouping raises, and then with that error and no glyph made; otherwise the font is the one built for the groups |
| Assembly.BuiltMetrics | HANDWRITING.py:189-192 | base glyphs have side bearings 20 and width 256; alternates have no metrics set |
| Assembly.SubsShape | HANDWRITING.py:181-187 | a code has a substitution entry exactly when its group has more than one image, with one name per later image |
| Assembly.SubsNameAlternates | HANDWRITING.py:181-187 | every substitution names an alternate glyph that exists |
| Assembly.SubsDistinct | HANDWRITING.py:181-187 | no substitution entry lists a name twice |
| Assembly.AltNamesDistinct | HANDWRITING.py:181-182 | the alternate names of one code are pairwise different |
| Assembly.SubsExclusive | HANDWRITING.py:175-187 | no alternate is listed under two base glyphs |
| Assembly.GlyphSourcesAreListing | HANDWRITING.py:158-184 | every listed `.png` image becomes the base or an alternate of its code, and every base glyph comes from a listed image of its code |
| Templates.PagesNeeded | HANDWRITING.py:31 | `pages_needed` as written, `(n*8 + 7) // 8` |
| Templates.PagesNeededIsCount | HANDWRITING.py:31 | the page count as written equals the number of characters |
| Templates.PagesNeededFixed | HANDWRITING.py:31 | corrected page count: the fewest pages of 8 rows that hold all characters |
| Templates.BlankPagesAsWritten | HANDWRITING.py:31-57 | for the 26 upper-case letters the code draws 26 pages; only 4 are needed, and pages 5..26 hold no character |
| Templates.FixedPagesAreFull | HANDWRITING.py:31-57 | with the corrected count, a page is drawn exactly when it holds at least one character |
| Templates.StartIdx | HANDWRITING.py:54 | `start_idx = page * 8` |
| Templates.EndIdx | HANDWRITING.py:55 | `min(start_idx + 8, total_chars)`: at most both bounds and equal to one of them |
| Templates.RowIndices | HANDWRITING.py:57 | the indices `range(start_idx, end_idx)` of a page |
| Templates.RowIndicesBounds | HANDWRITING.py:54-57 | a page holds at most 8 rows: consecutive indices from `page*8`, all below the count; none exactly when `start_idx` is past the end |
| Templates.IndexDrawnOnce | HANDWRITING.py:54-59 | each character is drawn on exactly one page, `idx // 8`, in row `idx % 8`, and that page is among the corrected count |
| Templates.RowLabels | HANDWRITING.py:61-69 | a row of k boxes carries two labels per box |
| Templates.PageLabels | HANDWRITING.py:57-69 | k rows carry ten labels each |
| Templates.RowLabelsAt | HANDWRITING.py:61-69 | box v of a row holds the character at its label point and `str(v+1)` at the variant point |
| Templates.PageLabelIndex | HANDWRITING.py:57-59 | row r of a page holds the labels of character `start_idx + r` |
| Templates.PageLabelsAt | HANDWRITING.py:57-69 | box v of row r of a page holds character `start_idx + r` and the number `v + 1` |
| Templates.LabelsInsideBox | HANDWRITING.py:34-69 | both labels of box (row, col) lie strictly inside that box of the grid, and so inside the page |
| Templates.DrawGrid | HANDWRITING.py:42-48 | the six vertical then nine horizontal grid lines |
| Templates.DrawRow | HANDWRITING.py:61-69 | the variant loop draws the reference labels of a row |
| Templates.DrawLabels | HANDWRITING.py:54-69 | the row loop draws the labels of exactly the rows the page holds |
| Templates.DrawPage | HANDWRITING.py:41-69 | a page is its grid, its title, then its row labels |
| Templates.CategoryTemplates | HANDWRITING.py:29-71 | the pages the code saves for one category: one per character |
| Templates.CategoryTemplatesFixed | HANDWRITING.py:31-71 | the pages with the corrected count |
| Templates.TemplatesAsWritten | HANDWRITING.py:31-71 | the pages saved are the corrected pages followed by pages holding only the grid and the title |
| Templates.BlankPage | HANDWRITING.py:41-57 | a page at or past the corrected count draws the grid and the title and no label |
| Templates.TemplateCounts | HANDWRITING.py:12-71 | the code saves 90 template pages; the corrected count gives 14 |
| Templates.CreateTemplates | HANDWRITING.py:29-71 | the page loop yields the pages the code saves for one category, `pages_needed` of them |
| Templates.CreateAllTemplates | HANDWRITING.py:12-71 | the pages the code saves for all four categories, in dictionary order |
| Templates.DecimalInjective | HANDWRITING.py:71 | different page numbers format differently |
| Templates.PagePathInjective | HANDWRITING.py:71 | two pages of a category share a file name exactly when they are the same page |
| Templates.GridX | HANDWRITING.py:42-43 | x of the vertical grid line left of column `col`: `col * 170 + 20` |
| Templates.GridY | HANDWRITING.py:46-47 | y of the horizontal grid line above row `row`: `row * 170 + 70` |
| Templates.LabelX | HANDWRITING.py:62-63 | x of the character label of column `col`: 10 right of its grid line |
| Templates.LabelY | HANDWRITING.py:64 | y of the labels of row `row`: 10 below its grid line |
| Templates.VariantLabelX | HANDWRITING.py:69 | x of the variant number: 120 right of the character label; `Templates.LabelsInsideBox` states both labels lie inside the box |
| Templates.VerticalLine | HANDWRITING.py:43-44 | the vertical grid line of column `col`, from y 50 to the image height minus 20 |
| Templates.HorizontalLine | HANDWRITING.py:47-48 | the horizontal grid line of row `row`, from x 20 to the image width minus 20 |
| Templates.GridLines | HANDWRITING.py:41-48 | the grid: six vertical lines, then nine horizontal ones, in drawing order; `Templates.DrawGrid` draws exactly these |
| Templates.PageTitle | HANDWRITING.py:51 | the title `"{category} - Page {page+1}"` at (20, 20) |
| Templates.BoxLabels | HANDWRITING.py:66-69 | the two labels of one box: the character, then the variant number counted from 1 |
| Templates.PageRowLabels | HANDWRITING.py:54-69 | the labels of the rows a page holds, row after row |
| Templates.PageMarks | HANDWRITING.py:41-69 | everything drawn on a page: the grid, the title, then the labels of its rows; `Templates.DrawPage` draws exactly these |
| Templates.PagePath | HANDWRITING.py:71 | `templates/{category}_page{page+1}.png`; `Templates.PagePathInjective` states distinct pages get distinct paths |
| Templates.TemplatePageOf | HANDWRITING.py:34-71 | a saved page: its path, its 870 x 1430 size and its marks |
| Templates.AllTemplates | HANDWRITING.py:29-71 | reference definition of `create_templates`: the pages of the categories, category after category; `Templates.CreateAllTemplates` computes it and `Templates.TemplateCounts` states it has 90 pages |
| Charsets.CategorySizes | HANDWRITING.py:15-20 | the four categories, in the order both steps visit them (`characters` at lines 15-20, and `categories` with `char_map` at lines 82-88): upper case, lower case, numbers and symbols, with 26, 26, 10 and 28 characters |
| Charsets.Ord | HANDWRITING.py:135 | Python's `ord`: the code point of a character |
| Processing.Insert | HANDWRITING.py:106 | one step of the sort: a box placed before the first box whose key is not smaller |
| Processing.SortByPosition | HANDWRITING.py:106 | `sorted(contours, key=(y, x))` as an insertion sort |
| Processing.InsertPermutes | HANDWRITING.py:106 | inserting a box adds exactly that box |
| Processing.InsertSorted | HANDWRITING.py:106 | inserting into boxes in reading order keeps reading order |
| Processing.SortByPositionIsSort | HANDWRITING.py:106 | the contours come out ordered by (top, left), as a permutation of the contours found |
| Processing.KeyLeq | HANDWRITING.py:106 | the order of the sort key `(y, x)`: first by y, then by x |
| Processing.SortedByKey | HANDWRITING.py:106 | reference definition of reading order: no box has a larger key than a later box |
| Processing.SliceBound | HANDWRITING.py:125 | a slice bound is clamped into the axis and unchanged when already inside it |
| Processing.SliceLength | HANDWRITING.py:125 | a slice selects no more than the axis holds |
| Processing.Broadcasts | HANDWRITING.py:132 | numpy's rule for one axis of the paste: the value's extent equals the target's or is 1 |
| Processing.RoiSize | HANDWRITING.py:124-125 | the height and width of `gray[y:y+h, x:x+w]`, clipped as Python slices are; `Processing.RoiOfInnerBox` states a box inside the scan keeps its own size |
| Processing.CentredInside | HANDWRITING.py:128-132 | a crop no larger than 200 is placed wholly on the canvas, with margins that differ by at most one |
| Processing.OversizeCut | HANDWRITING.py:130-132 | a crop larger than 200 gets a shorter target slice and cannot be assigned |
| Processing.CentreStart | HANDWRITING.py:130-131 | `(size - w) // 2` with Python's floor division; `CentredInside` and `OversizeCut` state where it puts a crop |
| Processing.Pastes | HANDWRITING.py:124-132 | the paste raises no error: each axis of the crop broadcasts to its target slice |
| Processing.RoiOfInnerBox | HANDWRITING.py:124-125 | a bounding box inside the scan crops to its own height and width |
| Processing.PastesIff | HANDWRITING.py:124-132 | for a box inside the scan, the paste succeeds exactly when the box is at most 200 wide and high |
| Processing.PasteTable | HANDWRITING.py:132 | one entry per sorted contour |
| Processing.PasteTableAt | HANDWRITING.py:132 | entry i is true exactly when the paste of contour i succeeds |
| Processing.PasteCentred | HANDWRITING.py:124-132 | the crop-and-assign of one box succeeds exactly as numpy's slice and broadcast rules say; for a box inside the scan, exactly when it is at most 200 wide and high |
| Processing.AllPasteIff | HANDWRITING.py:124-132 | all boxes paste exactly when all fit the canvas |
| Processing.ThenAssoc | HANDWRITING.py:90-137 | running three stages in turn does not depend on grouping |
| Processing.Write.Path | HANDWRITING.py:135 | the path `processed_chars/{ord(char):04x}-{variant}.png` of a saved image; `Processing.SavedNamesReadBack` states the font step reads its code and variant back |
| Processing.Then | HANDWRITING.py:90-137 | two stages in turn: an error in the first ends the run, and the images saved before it stay saved |
| Processing.ThenWrites | HANDWRITING.py:90-137 | an image saved by two stages in turn is saved by one of them |
| Processing.PageShape | HANDWRITING.py:111 | a page has at least five contours for each of its `chars_per_page` rows |
| Processing.VariantWrite | HANDWRITING.py:117-135 | reference definition of the image saved for variant v of row i: contour `i * 5 + v`, character `start + i` and its code point, and the centred offsets |
| Processing.RowRun | HANDWRITING.py:119-135 | reference definition of the variant loop: variants in order, each saved when its box pastes, and the first that does not ends the run naming its contour; `Processing.ProcessRow` computes it |
| Processing.RowRunStep | HANDWRITING.py:119-135 | one more variant: saved when its box pastes, otherwise the row stops with that contour's error |
| Processing.RowSoFar | HANDWRITING.py:119-135 | invariant of the variant loop: the images saved are those before the row and the row's first `k`, with no error |
| Processing.PageRun | HANDWRITING.py:113-135 | reference definition of the character loop: rows in order, each after the previous one unless it failed |
| Processing.PageOutcome | HANDWRITING.py:104-135 | what one page yields: its contours in reading order, `len(contours) // 5` rows, of which the rows naming a character are handled; `Processing.ProcessPage` computes it |
| Processing.PathsBefore | HANDWRITING.py:91-93 | the paths of pages 1 .. n of a category |
| Processing.PathsBeforeNext | HANDWRITING.py:91-93 | one more page adds its own path |
| Processing.CategoryRun | HANDWRITING.py:90-137 | reference definition of the page loop: pages 1, 2, ... until a page is missing or unreadable, or a page ends with an error; `Processing.ProcessCategory` computes it |
| Processing.VariantsRun | HANDWRITING.py:90-137 | reference definition of `process_variants`: the categories in order, up to the first error; `Processing.ProcessVariants` computes it |
| Processing.WriteOk | HANDWRITING.py:117-135 | a saved image names a character of the category by index and code point, and a variant below 5 |
| Processing.RowsHandled | HANDWRITING.py:113-115 | the character loop handles at most `chars_per_page` rows and never runs past the category's characters |
| Processing.RowsHandledIff | HANDWRITING.py:113-115 | row `char_idx` is handled exactly when it is below `chars_per_page` and names a character |
| Processing.RowRunShape | HANDWRITING.py:119-135 | a row saves its variants in order, image i from contour `char_idx*5 + i`; an error names the first contour that fails |
| Processing.RowFailurePersists | HANDWRITING.py:119-132 | after a failed paste, the rest of the row does nothing |
| Processing.PageFailurePersists | HANDWRITING.py:113-132 | after a failed paste, the rest of the page does nothing |
| Processing.PageRunShape | HANDWRITING.py:111-135 | image j of a page comes from row `j // 5`, variant `j % 5`; the page saves five per row unless a paste fails, and then stops at the failing contour |
| Processing.VariantWriteFacts | HANDWRITING.py:117-135 | a saved image names its character by index and code point and its variant; its name parses back to them; a crop that fits lies on the canvas |
| Processing.FittingPageSucceeds | HANDWRITING.py:113-135 | when every contour pastes, the page finishes without error |
| Processing.FittingRowSucceeds | HANDWRITING.py:119-135 | when every contour pastes, the row finishes without error |
| Processing.RowSoFarStep | HANDWRITING.py:119-135 | one variant: its contour exists (so the `cnt_idx` guard never fires); it is saved when it pastes, and otherwise the row ends with its error |
| Processing.ProcessRow | HANDWRITING.py:119-135 | the variant loop yields the reference run of the row |
| Processing.ProcessPage | HANDWRITING.py:106-135 | one page: sorted contours, `len // 5` rows starting at character `(page-1)*chars_per_page`, the reference run |
| Processing.PathNotBefore | HANDWRITING.py:93 | each page of a category is read from a path not read before |
| Processing.PathsStep | HANDWRITING.py:91-137 | each page found leaves fewer page files to find, so the `while True` loop ends |
| Processing.ProcessCategory | HANDWRITING.py:91-137 | the page loop reads pages 1, 2, … up to the first missing or unreadable one, or the first error |
| Processing.PageWritesOk | HANDWRITING.py:113-135 | every image saved from a page names a character of the category and a variant below 5, and comes from that page |
| Processing.CategoryWritesOk | HANDWRITING.py:91-137 | every image saved for a category names one of its characters and comes from one of its template pages |
| Processing.SavedNamesReadBack | HANDWRITING.py:135 | every name saved for a category reads back in step 3 as the code point of one of its characters and a variant below 5 |
| Processing.ProcessVariants | HANDWRITING.py:80-137 | the category loop yields the reference run over the four categories in order |
| Processing.VariantsFailurePersists | HANDWRITING.py:90-137 | after an error, no later category is processed |

## Left out

- Pixel output of the templates: the PIL image, fonts, colours and line widths. A page is reduced to its path, its size and the lines and texts drawn, in drawing order. A missing `arial.ttf` is not modelled.
- `os.makedirs` (lines 13 and 81): directory creation has no effect on what the model computes.
- OpenCV image reading, greyscale conversion, thresholding and `findContours`: a page file is given as unreadable, or as its size and the bounding boxes of its external contours. The pixel content of a crop is not modelled; a saved image is recorded by its page, character, variant, contour, box and canvas offset.
- `cv2.imwrite` onto a real directory: the saved images are a sequence in saving order. A later image saved under an earlier image's name would replace it on disk; this is not modelled.
- Processing.SortByPositionIsSort: states reading order and permutation. It does not state that boxes with equal keys keep their order, although the insertion sort that defines the order does keep them.
- Processing.ProcessRow: the `cnt_idx >= len(contours)` break (lines 121-122) is not written as a branch. It can never be taken; `Processing.RowSoFarStep` proves the contour index in range.
- Whether the contours of a real scan fit the 200x200 canvas depends on the scan, so it is not modelled. The model states exactly when a paste fails.
- `os.listdir`: the listing is an input sequence in unspecified order. The font builder visits groups in an arbitrary order, and its result is proved not to depend on it.
- FontForge font metadata (lines 148-152), the lookup and subtable set-up (lines 155-156), the feature text (lines 195-198) and `font.generate` (line 200) are not modelled.
- Assembly.CreateFontWithVariants: the FontForge calls (lines 147-156 and 176-192) are assumed to succeed. FontForge may raise where the model does not: `createChar` for a code point it does not accept (the name `110000-0.png` decodes to one past the Unicode range, and codes of 2^31 and above do not fit a C `int`), `importOutlines` for an image file it cannot read, and `addLookup` if it does not accept the lookup type `'gsub_random'`. The model's failures are exactly those of the grouping loop.
- Fonts.Font.ImportOutlines: records the image path as the glyph's outline source; the outline tracing itself is not modelled.
- Fonts.Font.AddPosSub: the substitution entry is modelled as a list the name is appended to; FontForge's internal representation of the subtable is not modelled.
- Fonts.Font.SetMetric: the three metrics are independent fields. In FontForge, setting `width` after `right_side_bearing` (lines 191-192) moves the right side bearing, so the finished glyph does not keep a right bearing of 20; that recomputation is not modelled.
- Numerals.ParseInt: the non-ASCII Unicode decimal digits that Python's `int()` also accepts, in base 10 and in base 16 alike, are not modelled. All names this pipeline saves use ASCII digits.

## Findings

| source | as written | input that shows it | evidently intended | confidence | as-written member | corrected member |
|---|---|---|---|---|---|---|
| HANDWRITING.py:31 | `pages_needed` multiplies the character count by the rows per page before the ceiling division by the rows per page, so it equals the character count | the 26 upper-case letters give 26 pages, of which pages 5..26 hold a grid and a title but no character | the ceiling of the character count over 8 rows per page: 4 pages for 26 letters | not executed | Templates.CreateTemplates (with Templates.PagesNeededIsCount, Templates.BlankPagesAsWritten, Templates.TemplatesAsWritten) | Templates.CategoryTemplatesFixed (with Templates.PagesNeededFixed and Templates.FixedPagesAreFull) |
