/**
 * Step 1, create_templates: for each category, blank template pages with a
 * grid of 8 rows of 5 boxes, a page title, and in every box the character
 * to be written and the number of the variant. The drawing itself is
 * reduced to the list of lines and texts drawn on each page.
 */
module Templates {
  import opened Numerals
  import opened Charsets

  const Variants: nat := 5
  const Cols: nat := 5
  const RowsPerPage: nat := 8
  const BoxSize: nat := 150
  const Padding: nat := 20
  /** Height of the band above the grid that holds the page title. */
  const LabelBand: nat := 50

  const ImgWidth: nat := Cols * (BoxSize + Padding) + Padding
  const ImgHeight: nat := RowsPerPage * (BoxSize + Padding) + Padding + LabelBand

  /** `pages_needed` as written: `(n * 8 + 7) // 8`. */
  function PagesNeeded(n: nat): nat
  {
    (n * RowsPerPage + (RowsPerPage - 1)) / RowsPerPage
  }

  /** The formula as written yields one page per character, not one per eight. */
  lemma PagesNeededIsCount(n: nat)
    ensures PagesNeeded(n) == n
  {
    assert n * RowsPerPage + (RowsPerPage - 1) == n * RowsPerPage + 7;
  }

  /** The page count the layout calls for: the fewest pages of 8 rows that hold `n` characters. */
  function PagesNeededFixed(n: nat): (p: nat)
    ensures p * RowsPerPage >= n
    ensures p > 0 ==> (p - 1) * RowsPerPage < n
  {
    (n + RowsPerPage - 1) / RowsPerPage
  }

  /** First character index of a page. */
  function StartIdx(page: nat): nat
  {
    page * RowsPerPage
  }

  /** One past the last character index of a page: `min(start_idx + 8, n)`. */
  function EndIdx(page: nat, n: nat): (e: nat)
    ensures e <= n && e <= StartIdx(page) + RowsPerPage
    ensures e == n || e == StartIdx(page) + RowsPerPage
  {
    if StartIdx(page) + RowsPerPage <= n then StartIdx(page) + RowsPerPage else n
  }

  /** The character indices `range(start_idx, end_idx)` drawn on a page, row by row. */
  function RowIndices(page: nat, n: nat): seq<nat>
  {
    if StartIdx(page) >= n then [] else seq(EndIdx(page, n) - StartIdx(page), i => StartIdx(page) + i)
  }

  /** A page has at most eight rows, consecutive indices below `n`, and none at all once `page * 8 >= n`. */
  lemma RowIndicesBounds(page: nat, n: nat)
    ensures |RowIndices(page, n)| <= RowsPerPage
    ensures StartIdx(page) >= n <==> RowIndices(page, n) == []
    ensures forall i :: 0 <= i < |RowIndices(page, n)| ==> RowIndices(page, n)[i] == page * RowsPerPage + i < n
  {
  }

  /**
   * Every character index below `n` is drawn on exactly one page, page
   * `idx / 8`, in row `idx % 8`; that page is among the pages created.
   */
  lemma IndexDrawnOnce(n: nat, idx: nat, page: nat)
    requires idx < n
    ensures idx in RowIndices(page, n) <==> page == idx / RowsPerPage
    ensures idx / RowsPerPage < PagesNeededFixed(n)
    ensures idx % RowsPerPage < |RowIndices(idx / RowsPerPage, n)|
    ensures RowIndices(idx / RowsPerPage, n)[idx % RowsPerPage] == idx
  {
    var p := idx / RowsPerPage;
    assert idx == p * RowsPerPage + idx % RowsPerPage;
    assert StartIdx(p) <= idx < n;
    assert RowIndices(p, n)[idx % RowsPerPage] == idx;
    RowIndicesBounds(page, n);
    if idx in RowIndices(page, n) {
      var i :| 0 <= i < |RowIndices(page, n)| && RowIndices(page, n)[i] == idx;
      assert idx == page * RowsPerPage + i && i < RowsPerPage;
    }
  }

  /** Finding: `n = 26` uppercase letters give 26 pages where 4 hold them all; pages 4 .. 25 have no rows. */
  lemma BlankPagesAsWritten()
    ensures PagesNeeded(26) == 26 && PagesNeededFixed(26) == 4
    ensures forall page :: 4 <= page < PagesNeeded(26) ==> RowIndices(page, 26) == []
  {
    PagesNeededIsCount(26);
    forall page | 4 <= page < PagesNeeded(26)
      ensures RowIndices(page, 26) == []
    {
      assert StartIdx(page) >= 32;
    }
  }

  /** Every page the corrected count creates holds at least one row, and together they hold every index. */
  lemma FixedPagesAreFull(n: nat, page: nat)
    ensures page < PagesNeededFixed(n) <==> RowIndices(page, n) != []
  {
    if page < PagesNeededFixed(n) {
      assert page * RowsPerPage <= (PagesNeededFixed(n) - 1) * RowsPerPage;
    } else {
      assert page * RowsPerPage >= PagesNeededFixed(n) * RowsPerPage;
    }
  }

  /** x of the vertical grid line left of column `col`. */
  function GridX(col: nat): nat
  {
    col * (BoxSize + Padding) + Padding
  }

  /** y of the horizontal grid line above row `row`. */
  function GridY(row: nat): nat
  {
    row * (BoxSize + Padding) + LabelBand + Padding
  }

  /** Where the character label of a box is drawn. */
  function LabelX(col: nat): nat
  {
    GridX(col) + 10
  }

  function LabelY(row: nat): nat
  {
    GridY(row) + 10
  }

  /** Where the variant number of a box is drawn. */
  function VariantLabelX(col: nat): nat
  {
    LabelX(col) + BoxSize - 30
  }

  /** One drawing call: a grid line, or a text at its top-left corner. */
  datatype Mark = Line(x0: int, y0: int, x1: int, y1: int) | Text(x: int, y: int, text: string)

  /** A saved template page: its file name, its size and what is drawn on it. */
  datatype TemplatePage = TemplatePage(path: string, width: nat, height: nat, marks: seq<Mark>)

  function VerticalLine(col: nat): Mark
  {
    Line(GridX(col), LabelBand, GridX(col), ImgHeight - Padding)
  }

  function HorizontalLine(row: nat): Mark
  {
    Line(Padding, GridY(row), ImgWidth - Padding, GridY(row))
  }

  /** The grid: six vertical lines, then nine horizontal ones. */
  function GridLines(): seq<Mark>
  {
    seq(Cols + 1, (col: int) requires 0 <= col => VerticalLine(col))
      + seq(RowsPerPage + 1, (row: int) requires 0 <= row => HorizontalLine(row))
  }

  /** The page title `"{category} - Page {page+1}"`. */
  function PageTitle(category: string, page: nat): Mark
  {
    Text(20, 20, category + " - Page " + Decimal(page + 1))
  }

  /** The two labels of one box: the character, and the variant number counted from 1. */
  function BoxLabels(c: char, row: nat, variant: nat): seq<Mark>
  {
    [Text(LabelX(variant), LabelY(row), [c]), Text(VariantLabelX(variant), LabelY(row), Decimal(variant + 1))]
  }

  /** The labels of the first `k` boxes of a row, two per box. */
  function RowLabels(c: char, row: nat, k: nat): (r: seq<Mark>)
    ensures |r| == 2 * k
  {
    if k == 0 then [] else RowLabels(c, row, k - 1) + BoxLabels(c, row, k - 1)
  }

  /** The labels of the first `k` rows of a page, a full row of boxes each. */
  function PageLabels(chars: string, page: nat, k: nat): (r: seq<Mark>)
    requires k > 0 ==> StartIdx(page) + k <= |chars|
    ensures |r| == 2 * Variants * k
  {
    if k == 0 then [] else PageLabels(chars, page, k - 1) + RowLabels(chars[StartIdx(page) + k - 1], k - 1, Variants)
  }

  /** The labels of the rows a page holds. */
  function PageRowLabels(chars: string, page: nat): seq<Mark>
  {
    RowIndicesBounds(page, |chars|);
    PageLabels(chars, page, |RowIndices(page, |chars|)|)
  }

  /** Everything drawn on a page: grid, title, then the labels of its rows. */
  function PageMarks(category: string, chars: string, page: nat): seq<Mark>
  {
    GridLines() + [PageTitle(category, page)] + PageRowLabels(chars, page)
  }

  function PagePath(category: string, page: nat): string
  {
    "templates/" + category + "_page" + Decimal(page + 1) + ".png"
  }

  function TemplatePageOf(category: string, chars: string, page: nat): TemplatePage
  {
    TemplatePage(PagePath(category, page), ImgWidth, ImgHeight, PageMarks(category, chars, page))
  }

  /** The pages of one category as the code creates them: `pages_needed` pages, one per character. */
  function CategoryTemplates(category: string, chars: string): (pages: seq<TemplatePage>)
    ensures |pages| == |chars|
  {
    PagesNeededIsCount(|chars|);
    seq(PagesNeeded(|chars|), (page: int) requires 0 <= page => TemplatePageOf(category, chars, page))
  }

  /** The pages of one category with the corrected page count. */
  function CategoryTemplatesFixed(category: string, chars: string): seq<TemplatePage>
  {
    seq(PagesNeededFixed(|chars|), (page: int) requires 0 <= page => TemplatePageOf(category, chars, page))
  }

  /**
   * The pages the code creates are the corrected pages followed by blank
   * ones: every page past the corrected count holds the grid and the title
   * and no label.
   */
  lemma TemplatesAsWritten(category: string, chars: string)
    ensures PagesNeededFixed(|chars|) <= |CategoryTemplates(category, chars)|
    ensures CategoryTemplates(category, chars)[..PagesNeededFixed(|chars|)] == CategoryTemplatesFixed(category, chars)
    ensures forall page :: PagesNeededFixed(|chars|) <= page < |chars| ==>
      CategoryTemplates(category, chars)[page].marks == GridLines() + [PageTitle(category, page)]
  {
    var n := |chars|;
    assert PagesNeededFixed(n) <= n;
    forall page | PagesNeededFixed(n) <= page < n
      ensures CategoryTemplates(category, chars)[page].marks == GridLines() + [PageTitle(category, page)]
    {
      BlankPage(category, chars, page);
    }
  }

  /** A page at or past the corrected count draws no label. */
  lemma BlankPage(category: string, chars: string, page: nat)
    requires page >= PagesNeededFixed(|chars|)
    ensures PageMarks(category, chars, page) == GridLines() + [PageTitle(category, page)]
  {
    FixedPagesAreFull(|chars|, page);
    RowIndicesBounds(page, |chars|);
    assert PageRowLabels(chars, page) == [];
  }

  /** The code saves 26 + 26 + 10 + 28 = 90 template pages where 4 + 4 + 2 + 4 = 14 hold every character. */
  lemma TemplateCounts()
    ensures |AllTemplates(|Categories|)| == 90
    ensures PagesNeededFixed(|Uppercase|) + PagesNeededFixed(|Lowercase|) + PagesNeededFixed(|Numbers|)
      + PagesNeededFixed(|Symbols|) == 14
  {
    assert |Uppercase| == 26 && |Lowercase| == 26 && |Numbers| == 10 && |Symbols| == 28;
    assert AllTemplates(4) == AllTemplates(3) + CategoryTemplates(Categories[3].name, Categories[3].chars);
    assert AllTemplates(3) == AllTemplates(2) + CategoryTemplates(Categories[2].name, Categories[2].chars);
    assert AllTemplates(2) == AllTemplates(1) + CategoryTemplates(Categories[1].name, Categories[1].chars);
    assert AllTemplates(1) == AllTemplates(0) + CategoryTemplates(Categories[0].name, Categories[0].chars);
  }

  /** A row holds two labels per box: the character, then the variant number. */
  lemma {:induction false} RowLabelsAt(c: char, row: nat, k: nat, v: nat)
    requires v < k
    ensures RowLabels(c, row, k)[2 * v] == Text(LabelX(v), LabelY(row), [c])
    ensures RowLabels(c, row, k)[2 * v + 1] == Text(VariantLabelX(v), LabelY(row), Decimal(v + 1))
  {
    if v < k - 1 {
      RowLabelsAt(c, row, k - 1, v);
    }
  }

  /** Label `j` of row `r` of a page is label `j` of the row drawn for character `start_idx + r`. */
  lemma {:induction false} PageLabelIndex(chars: string, page: nat, k: nat, r: nat, j: nat)
    requires StartIdx(page) + k <= |chars| && r < k && j < 2 * Variants
    ensures PageLabels(chars, page, k)[2 * Variants * r + j] == RowLabels(chars[StartIdx(page) + r], r, Variants)[j]
  {
    var front, row := PageLabels(chars, page, k - 1), RowLabels(chars[StartIdx(page) + k - 1], k - 1, Variants);
    assert PageLabels(chars, page, k) == front + row;
    if r < k - 1 {
      PageLabelIndex(chars, page, k - 1, r, j);
    } else {
      assert 2 * Variants * r + j == |front| + j;
    }
  }

  /**
   * Box `v` of row `r` holds the character of index `start_idx + r` and the
   * number `v + 1`.
   */
  lemma PageLabelsAt(chars: string, page: nat, k: nat, r: nat, v: nat)
    requires StartIdx(page) + k <= |chars| && r < k && v < Variants
    ensures PageLabels(chars, page, k)[2 * Variants * r + 2 * v]
            == Text(LabelX(v), LabelY(r), [chars[StartIdx(page) + r]])
    ensures PageLabels(chars, page, k)[2 * Variants * r + 2 * v + 1]
            == Text(VariantLabelX(v), LabelY(r), Decimal(v + 1))
  {
    RowLabelsAt(chars[StartIdx(page) + r], r, Variants, v);
    PageLabelIndex(chars, page, k, r, 2 * v);
    PageLabelIndex(chars, page, k, r, 2 * v + 1);
  }

  /** The labels of box (row, col) lie inside that box, and so inside the page. */
  lemma LabelsInsideBox(row: nat, col: nat)
    requires row < RowsPerPage && col < Cols
    ensures GridX(col) < LabelX(col) < VariantLabelX(col) < GridX(col + 1) <= ImgWidth
    ensures GridY(row) < LabelY(row) < GridY(row + 1) <= ImgHeight
  {
  }

  /** The grid loops of one page: the vertical lines left to right, then the horizontal lines top to bottom. */
  method DrawGrid() returns (marks: seq<Mark>)
    ensures marks == GridLines()
  {
    var imgWidth := Cols * (BoxSize + Padding) + Padding;
    var imgHeight := RowsPerPage * (BoxSize + Padding) + Padding + 50;
    marks := [];
    for col := 0 to Cols + 1
      invariant marks == seq(col, (c: int) requires 0 <= c => VerticalLine(c))
    {
      var x := col * (BoxSize + Padding) + Padding;
      marks := marks + [Line(x, 50, x, imgHeight - Padding)];
    }
    ghost var verticals := marks;
    for row := 0 to RowsPerPage + 1
      invariant marks == verticals + seq(row, (r: int) requires 0 <= r => HorizontalLine(r))
    {
      var y := row * (BoxSize + Padding) + 50 + Padding;
      marks := marks + [Line(Padding, y, imgWidth - Padding, y)];
    }
  }

  /** The variant loop of one row: the character and the variant number in each of the five boxes. */
  method DrawRow(c: char, row: nat) returns (marks: seq<Mark>)
    ensures marks == RowLabels(c, row, Variants)
  {
    marks := [];
    for variant := 0 to Variants
      invariant marks == RowLabels(c, row, variant)
    {
      var x := variant * (BoxSize + Padding) + Padding + 10;
      var y := row * (BoxSize + Padding) + 50 + Padding + 10;
      marks := marks + [Text(x, y, [c])];
      marks := marks + [Text(x + BoxSize - 30, y, Decimal(variant + 1))];
    }
  }

  /** The loop over `range(start_idx, end_idx)`: the labels of the rows of one page. */
  method DrawLabels(chars: string, page: nat) returns (marks: seq<Mark>)
    ensures marks == PageRowLabels(chars, page)
  {
    marks := [];
    var total := |chars|;
    var startIdx := page * RowsPerPage;
    var endIdx := if startIdx + RowsPerPage < total then startIdx + RowsPerPage else total;
    var idx := startIdx;
    while idx < endIdx
      invariant startIdx <= idx && (idx == startIdx || idx <= endIdx <= total)
      invariant marks == PageLabels(chars, page, idx - startIdx)
    {
      var row := DrawRow(chars[idx], idx - startIdx);
      marks := marks + row;
      idx := idx + 1;
    }
    RowIndicesBounds(page, total);
    if startIdx >= total {
      assert RowIndices(page, total) == [];
    } else {
      assert idx == endIdx == EndIdx(page, total);
      assert |RowIndices(page, total)| == idx - startIdx;
    }
  }

  /** Everything drawn on one page, in the order drawn: grid, title, then the labels of its rows. */
  method DrawPage(category: string, chars: string, page: nat) returns (marks: seq<Mark>)
    ensures marks == PageMarks(category, chars, page)
  {
    marks := DrawGrid();
    marks := marks + [Text(20, 20, category + " - Page " + Decimal(page + 1))];
    var labels := DrawLabels(chars, page);
    marks := marks + labels;
  }

  /** The page loop of one category: `range(pages_needed)` with the count as written. */
  method CreateTemplates(category: string, chars: string) returns (pages: seq<TemplatePage>)
    ensures pages == CategoryTemplates(category, chars)
  {
    var totalChars := |chars|;
    var pagesNeeded := (totalChars * RowsPerPage + (RowsPerPage - 1)) / RowsPerPage;
    pages := [];
    for page := 0 to pagesNeeded
      invariant pages == seq(page, (p: int) requires 0 <= p => TemplatePageOf(category, chars, p))
    {
      var marks := DrawPage(category, chars, page);
      pages := pages + [TemplatePage(PagePath(category, page), ImgWidth, ImgHeight, marks)];
    }
  }

  /** The pages of the first `k` categories, category after category. */
  function AllTemplates(k: nat): seq<TemplatePage>
    requires k <= |Categories|
  {
    if k == 0 then [] else AllTemplates(k - 1) + CategoryTemplates(Categories[k - 1].name, Categories[k - 1].chars)
  }

  /** `create_templates`: the category loop around the page loop. */
  method CreateAllTemplates() returns (pages: seq<TemplatePage>)
    ensures pages == AllTemplates(|Categories|)
  {
    pages := [];
    for k := 0 to |Categories|
      invariant pages == AllTemplates(k)
    {
      var category := Categories[k];
      var categoryPages := CreateTemplates(category.name, category.chars);
      pages := pages + categoryPages;
    }
  }

  /** Equal strings with a common prefix and a common suffix agree in between. */
  lemma AffixCancel(prefix: string, a: string, b: string, suffix: string)
    requires prefix + a + suffix == prefix + b + suffix
    ensures a == b
  {
    var s := prefix + a + suffix;
    assert |a| == |b|;
    assert a == s[|prefix|..|prefix| + |a|];
    assert b == (prefix + b + suffix)[|prefix|..|prefix| + |b|];
  }

  lemma DecimalInjective(a: nat, b: nat)
    requires Decimal(a) == Decimal(b)
    ensures a == b
  {
    ValueOfNumeral(a, 10);
    ValueOfNumeral(b, 10);
  }

  /** Two pages of one category never share a file name. */
  lemma PagePathInjective(category: string, p: nat, q: nat)
    ensures PagePath(category, p) == PagePath(category, q) <==> p == q
  {
    if PagePath(category, p) == PagePath(category, q) {
      AffixCancel("templates/" + category + "_page", Decimal(p + 1), Decimal(q + 1), ".png");
      DecimalInjective(p + 1, q + 1);
    }
  }
}
