/**
 * Step 2, process_variants: for each category, read the scanned template
 * pages one after another, take the bounding boxes of their contours in
 * reading order, and save each box, centred on a 200x200 canvas, under the
 * name of its character and variant. The images themselves are reduced to
 * their sizes and boxes; a saved image is reduced to where it came from.
 */
module Processing {
  import opened Wrappers
  import opened Numerals
  import opened FileNames
  import opened Charsets
  import opened Templates

  const VariantsPerChar: nat := 5
  /** Side of the square canvas each box is centred on. */
  const CanvasSize: nat := 200
  const OutputDir: string := "processed_chars/"

  /** A contour's bounding rectangle as `cv2.boundingRect` gives it: top-left corner, width and height. */
  datatype Box = Box(x: nat, y: nat, w: nat, h: nat)

  /** What `cv2.imread` gives for a page file: nothing, or the grey image's size and the bounding boxes of its external contours in the order found. */
  datatype PageFile = Unreadable | Scan(width: nat, height: nat, contours: seq<Box>)

  /** The template page files present, by path. */
  type Disk = map<string, PageFile>

  // ----- Reading order (HANDWRITING.py:106) -----

  /** The sort key `(y, x)` of `a` is at most that of `b`. */
  predicate KeyLeq(a: Box, b: Box)
  {
    a.y < b.y || (a.y == b.y && a.x <= b.x)
  }

  predicate SortedByKey(s: seq<Box>)
  {
    forall i, j :: 0 <= i < j < |s| ==> KeyLeq(s[i], s[j])
  }

  /** `b` placed before the first element whose key is not smaller than its own. */
  function Insert(b: Box, s: seq<Box>): seq<Box>
  {
    if s == [] || KeyLeq(b, s[0]) then [b] + s else [s[0]] + Insert(b, s[1..])
  }

  /** `sorted(contours, key=lambda c: (y, x))`, as an insertion sort that keeps boxes of equal key in their order. */
  function SortByPosition(s: seq<Box>): seq<Box>
  {
    if s == [] then [] else Insert(s[0], SortByPosition(s[1..]))
  }

  lemma {:induction false} InsertPermutes(b: Box, s: seq<Box>)
    ensures multiset(Insert(b, s)) == multiset(s) + multiset{b}
  {
    if s != [] && !KeyLeq(b, s[0]) {
      InsertPermutes(b, s[1..]);
      assert s == [s[0]] + s[1..];
    }
  }

  lemma {:induction false} InsertSorted(b: Box, s: seq<Box>)
    requires SortedByKey(s)
    ensures SortedByKey(Insert(b, s))
  {
    if s != [] && !KeyLeq(b, s[0]) {
      InsertSorted(b, s[1..]);
      InsertPermutes(b, s[1..]);
      var r := Insert(b, s[1..]);
      forall k | 0 <= k < |r|
        ensures KeyLeq(s[0], r[k])
      {
        assert r[k] in multiset(r);
        if r[k] != b {
          assert r[k] in multiset(s[1..]);
          var i :| 0 <= i < |s[1..]| && s[1..][i] == r[k];
          assert s[i + 1] == r[k];
        }
      }
    }
  }

  /** The boxes come out in reading order, and they are the boxes found, each as often as found. */
  lemma {:induction false} SortByPositionIsSort(s: seq<Box>)
    ensures SortedByKey(SortByPosition(s))
    ensures multiset(SortByPosition(s)) == multiset(s)
    ensures |SortByPosition(s)| == |s|
  {
    if s != [] {
      SortByPositionIsSort(s[1..]);
      InsertSorted(s[0], SortByPosition(s[1..]));
      InsertPermutes(s[0], SortByPosition(s[1..]));
      assert s == [s[0]] + s[1..];
    }
    assert |multiset(SortByPosition(s))| == |multiset(s)|;
  }

  // ----- Cropping and centring (HANDWRITING.py:124-132) -----

  /** numpy's normalisation of one bound of a slice over an axis of length `len`. */
  function SliceBound(i: int, len: nat): (r: nat)
    ensures r <= len
    ensures 0 <= i <= len ==> r == i
  {
    if i < 0 then (if i + len < 0 then 0 else i + len) else if i > len then len else i
  }

  /** How many positions `a[start:stop]` selects on an axis of length `len`. */
  function SliceLength(start: int, stop: int, len: nat): (r: nat)
    ensures r <= len
  {
    var a, b := SliceBound(start, len), SliceBound(stop, len);
    if b > a then b - a else 0
  }

  /** A value of extent `value` can be assigned to a target of extent `target` along an axis under numpy's broadcasting. */
  predicate Broadcasts(value: nat, target: nat)
  {
    value == target || value == 1
  }

  /** `(size - w) // 2`; with a positive divisor Dafny's division is Python's floor division. */
  function CentreStart(w: nat): int
  {
    (CanvasSize - w) / 2
  }

  /** The height and width of `gray[y:y+h, x:x+w]`. */
  function RoiSize(height: nat, width: nat, box: Box): (nat, nat)
  {
    (SliceLength(box.y, box.y + box.h, height), SliceLength(box.x, box.x + box.w, width))
  }

  /** `result[start_y:start_y+h, start_x:start_x+w] = roi` raises no error. */
  predicate Pastes(height: nat, width: nat, box: Box)
  {
    var roi := RoiSize(height, width, box);
    Broadcasts(roi.0, SliceLength(CentreStart(box.h), CentreStart(box.h) + box.h, CanvasSize))
    && Broadcasts(roi.1, SliceLength(CentreStart(box.w), CentreStart(box.w) + box.w, CanvasSize))
  }

  /** An extent that fits the canvas is placed inside it, whole, with margins that differ by at most one. */
  lemma CentredInside(w: nat)
    requires w <= CanvasSize
    ensures 0 <= CentreStart(w) && CentreStart(w) + w <= CanvasSize
    ensures SliceLength(CentreStart(w), CentreStart(w) + w, CanvasSize) == w
    ensures var margin := CanvasSize - w - CentreStart(w); CentreStart(w) <= margin <= CentreStart(w) + 1
  {
  }

  /** An extent larger than the canvas is cut short by the slice and so cannot be assigned. */
  lemma OversizeCut(w: nat)
    requires w > CanvasSize
    ensures SliceLength(CentreStart(w), CentreStart(w) + w, CanvasSize) < w
    ensures !Broadcasts(w, SliceLength(CentreStart(w), CentreStart(w) + w, CanvasSize))
  {
  }

  /** A box inside the scan crops to its own size. */
  lemma RoiOfInnerBox(height: nat, width: nat, box: Box)
    requires box.x + box.w <= width && box.y + box.h <= height
    ensures RoiSize(height, width, box) == (box.h, box.w)
  {
  }

  /** For a box inside the scan, pasting succeeds exactly when the box fits the canvas. */
  lemma PastesIff(height: nat, width: nat, box: Box)
    requires box.x + box.w <= width && box.y + box.h <= height
    ensures Pastes(height, width, box) <==> box.w <= CanvasSize && box.h <= CanvasSize
  {
    RoiOfInnerBox(height, width, box);
    if box.w <= CanvasSize {
      CentredInside(box.w);
    } else {
      OversizeCut(box.w);
    }
    if box.h <= CanvasSize {
      CentredInside(box.h);
    } else {
      OversizeCut(box.h);
    }
  }

  // ----- One page (HANDWRITING.py:108-135) -----

  /**
   * A saved image: the page it was cut from, the character (its index in
   * the category and its code point), the variant, the contour, and where
   * the crop sits on the canvas.
   */
  datatype Write = Write(source: string, charIndex: nat, code: nat, variant: nat, contour: nat, box: Box, startX: int, startY: int)
  {
    /** `f'processed_chars/{ord(char):04x}-{variant}.png'`. */
    function Path(): string
    {
      OutputDir + FileName(code, variant)
    }
  }

  /** The numpy error that ends the program: the crop of contour `contour` of page `source` does not fit its slot. */
  datatype Failure = PasteFailed(source: string, contour: nat)

  /** The images saved, in order, and the error that stopped the program, if any. Images saved before an error stay saved. */
  datatype Run = Run(writes: seq<Write>, failure: Option<Failure>)

  /** `a`, then `b` unless `a` stopped with an error. */
  function Then(a: Run, b: Run): Run
  {
    if a.failure.Some? then a else Run(a.writes + b.writes, b.failure)
  }

  /** Running `a`, `b` and `c` in turn does not depend on how the runs are grouped. */
  lemma ThenAssoc(a: Run, b: Run, c: Run)
    ensures Then(Then(a, b), c) == Then(a, Then(b, c))
  {
    if a.failure.None? && b.failure.None? {
      assert (a.writes + b.writes) + c.writes == a.writes + (b.writes + c.writes);
    }
  }

  /** How many rows the character loop handles before its `break`, on a page whose first row holds character `start`. */
  function RowsHandled(chars: string, start: nat, cpp: nat): (m: nat)
    ensures m <= cpp && (m > 0 ==> start + m <= |chars|)
  {
    if start >= |chars| then 0 else if start + cpp <= |chars| then cpp else |chars| - start
  }

  /** Row `charIdx` is handled exactly when the loop reaches it and it names a character of the category. */
  lemma RowsHandledIff(chars: string, start: nat, cpp: nat, charIdx: nat)
    ensures charIdx < RowsHandled(chars, start, cpp) <==> charIdx < cpp && start + charIdx < |chars|
  {
  }

  /** A page with at least five contours for each of its `cpp` rows, as `len(contours) // 5` gives. */
  predicate PageShape(boxes: seq<Box>, cpp: nat)
  {
    VariantsPerChar * cpp <= |boxes|
  }

  /** The image saved for variant `variant` of row `charIdx`: contour `charIdx * 5 + variant`, character `start + charIdx`. */
  function VariantWrite(chars: string, start: nat, source: string, boxes: seq<Box>, cpp: nat, charIdx: nat, variant: nat): Write
    requires PageShape(boxes, cpp)
    requires charIdx < RowsHandled(chars, start, cpp) && variant < VariantsPerChar
  {
    var t := charIdx * VariantsPerChar + variant;
    Write(source, start + charIdx, Ord(chars[start + charIdx]), variant, t, boxes[t], CentreStart(boxes[t].w), CentreStart(boxes[t].h))
  }

  /** Which boxes of a scan paste onto the canvas, one entry per box. */
  function PasteTable(height: nat, width: nat, boxes: seq<Box>): (fits: seq<bool>)
    ensures |fits| == |boxes|
  {
    if boxes == [] then [] else [Pastes(height, width, boxes[0])] + PasteTable(height, width, boxes[1..])
  }

  /** Entry `i` of the table says whether box `i` pastes. */
  lemma {:induction false} PasteTableAt(height: nat, width: nat, boxes: seq<Box>, i: nat)
    requires i < |boxes|
    ensures PasteTable(height, width, boxes)[i] == Pastes(height, width, boxes[i])
  {
    if i > 0 {
      PasteTableAt(height, width, boxes[1..], i - 1);
    }
  }

  /** Every box inside the scan pastes exactly when each one fits the canvas. */
  lemma AllPasteIff(height: nat, width: nat, boxes: seq<Box>)
    requires forall i :: 0 <= i < |boxes| ==> boxes[i].x + boxes[i].w <= width && boxes[i].y + boxes[i].h <= height
    ensures (forall i :: 0 <= i < |boxes| ==> PasteTable(height, width, boxes)[i])
            <==> (forall i :: 0 <= i < |boxes| ==> boxes[i].w <= CanvasSize && boxes[i].h <= CanvasSize)
  {
    var fits := PasteTable(height, width, boxes);
    forall i | 0 <= i < |boxes|
      ensures fits[i] <==> boxes[i].w <= CanvasSize && boxes[i].h <= CanvasSize
    {
      PasteTableAt(height, width, boxes, i);
      PastesIff(height, width, boxes[i]);
    }
    if forall i :: 0 <= i < |boxes| ==> fits[i] {
      forall i | 0 <= i < |boxes|
        ensures boxes[i].w <= CanvasSize && boxes[i].h <= CanvasSize
      {
        assert fits[i];
      }
    }
  }

  /** The variant loop over the first `k` variants of row `charIdx`. */
  function RowRun(chars: string, start: nat, source: string, boxes: seq<Box>, fits: seq<bool>, cpp: nat, charIdx: nat, k: nat): Run
    requires PageShape(boxes, cpp) && |fits| == |boxes|
    requires charIdx < RowsHandled(chars, start, cpp) && k <= VariantsPerChar
  {
    if k == 0 then Run([], None)
    else
      var prev := RowRun(chars, start, source, boxes, fits, cpp, charIdx, k - 1);
      var t := charIdx * VariantsPerChar + k - 1;
      if prev.failure.Some? then prev
      else if fits[t] then Run(prev.writes + [VariantWrite(chars, start, source, boxes, cpp, charIdx, k - 1)], None)
      else Run(prev.writes, Some(PasteFailed(source, t)))
  }

  /** One more variant: saved when its box pastes, otherwise the row stops with its error. */
  lemma RowRunStep(chars: string, start: nat, source: string, boxes: seq<Box>, fits: seq<bool>, cpp: nat, charIdx: nat, k: nat)
    requires PageShape(boxes, cpp) && |fits| == |boxes|
    requires charIdx < RowsHandled(chars, start, cpp) && k < VariantsPerChar
    requires RowRun(chars, start, source, boxes, fits, cpp, charIdx, k).failure.None?
    ensures var t := charIdx * VariantsPerChar + k;
      var prev := RowRun(chars, start, source, boxes, fits, cpp, charIdx, k).writes;
      RowRun(chars, start, source, boxes, fits, cpp, charIdx, k + 1)
      == if fits[t] then Run(prev + [VariantWrite(chars, start, source, boxes, cpp, charIdx, k)], None)
         else Run(prev, Some(PasteFailed(source, t)))
  {
  }

  /** The character loop over the first `m` rows. */
  function PageRun(chars: string, start: nat, source: string, boxes: seq<Box>, fits: seq<bool>, cpp: nat, m: nat): Run
    requires PageShape(boxes, cpp) && |fits| == |boxes|
    requires m <= RowsHandled(chars, start, cpp)
  {
    if m == 0 then Run([], None)
    else Then(PageRun(chars, start, source, boxes, fits, cpp, m - 1), RowRun(chars, start, source, boxes, fits, cpp, m - 1, VariantsPerChar))
  }

  /** What page `n + 1` yields: its contours sorted, `len(contours) // 5` rows, of which the loops handle all they reach. */
  function PageOutcome(chars: string, n: nat, source: string, height: nat, width: nat, contours: seq<Box>): Run
  {
    var boxes := SortByPosition(contours);
    var cpp := |boxes| / VariantsPerChar;
    var start := n * cpp;
    PageRun(chars, start, source, boxes, PasteTable(height, width, boxes), cpp, RowsHandled(chars, start, cpp))
  }

  /**
   * Within a row the variants are handled in order: image `i` is saved
   * from contour `charIdx * 5 + i` and only if it pastes; an error names
   * the first contour that does not, and ends the row.
   */
  lemma {:induction false} RowRunShape(chars: string, start: nat, source: string, boxes: seq<Box>, fits: seq<bool>, cpp: nat, charIdx: nat, k: nat)
    requires PageShape(boxes, cpp) && |fits| == |boxes|
    requires charIdx < RowsHandled(chars, start, cpp) && k <= VariantsPerChar
    ensures var r := RowRun(chars, start, source, boxes, fits, cpp, charIdx, k);
      && |r.writes| <= k
      && (r.failure.None? ==> |r.writes| == k)
      && (r.failure.Some? ==> |r.writes| < k && r.failure.value == PasteFailed(source, charIdx * VariantsPerChar + |r.writes|)
                              && !fits[charIdx * VariantsPerChar + |r.writes|])
      && (forall i :: 0 <= i < |r.writes| ==> r.writes[i] == VariantWrite(chars, start, source, boxes, cpp, charIdx, i))
  {
    if k > 0 {
      RowRunShape(chars, start, source, boxes, fits, cpp, charIdx, k - 1);
    }
  }

  /** Once a row stops with an error, handling more variants changes nothing. */
  lemma {:induction false} RowFailurePersists(chars: string, start: nat, source: string, boxes: seq<Box>, fits: seq<bool>, cpp: nat, charIdx: nat, k: nat, l: nat)
    requires PageShape(boxes, cpp) && |fits| == |boxes|
    requires charIdx < RowsHandled(chars, start, cpp) && k <= l <= VariantsPerChar
    requires RowRun(chars, start, source, boxes, fits, cpp, charIdx, k).failure.Some?
    ensures RowRun(chars, start, source, boxes, fits, cpp, charIdx, l) == RowRun(chars, start, source, boxes, fits, cpp, charIdx, k)
    decreases l
  {
    if l > k {
      RowFailurePersists(chars, start, source, boxes, fits, cpp, charIdx, k, l - 1);
    }
  }

  /** Once the page stops with an error, handling more rows changes nothing. */
  lemma {:induction false} PageFailurePersists(chars: string, start: nat, source: string, boxes: seq<Box>, fits: seq<bool>, cpp: nat, m: nat, l: nat)
    requires PageShape(boxes, cpp) && |fits| == |boxes|
    requires m <= l <= RowsHandled(chars, start, cpp)
    requires PageRun(chars, start, source, boxes, fits, cpp, m).failure.Some?
    ensures PageRun(chars, start, source, boxes, fits, cpp, l) == PageRun(chars, start, source, boxes, fits, cpp, m)
    decreases l
  {
    if l > m {
      PageFailurePersists(chars, start, source, boxes, fits, cpp, m, l - 1);
    }
  }

  /**
   * Across the page the contours are handled in order: image `j` is saved
   * from contour `j`, for character `start + j // 5` and variant `j % 5`,
   * and only if it pastes; without an error every contour of the handled
   * rows is saved, and an error names the first contour that does not paste.
   */
  lemma {:induction false} PageRunShape(chars: string, start: nat, source: string, boxes: seq<Box>, fits: seq<bool>, cpp: nat, m: nat)
    requires PageShape(boxes, cpp) && |fits| == |boxes|
    requires m <= RowsHandled(chars, start, cpp)
    ensures var r := PageRun(chars, start, source, boxes, fits, cpp, m);
      && |r.writes| <= VariantsPerChar * m
      && (r.failure.None? ==> |r.writes| == VariantsPerChar * m)
      && (r.failure.Some? ==> |r.writes| < VariantsPerChar * m && r.failure.value == PasteFailed(source, |r.writes|)
                              && !fits[|r.writes|])
      && (forall j :: 0 <= j < |r.writes| ==> j / VariantsPerChar < m && r.writes[j] == VariantWrite(chars, start, source, boxes, cpp, j / VariantsPerChar, j % VariantsPerChar))
  {
    if m > 0 {
      var prev := PageRun(chars, start, source, boxes, fits, cpp, m - 1);
      var row := RowRun(chars, start, source, boxes, fits, cpp, m - 1, VariantsPerChar);
      PageRunShape(chars, start, source, boxes, fits, cpp, m - 1);
      if prev.failure.None? {
        RowRunShape(chars, start, source, boxes, fits, cpp, m - 1, VariantsPerChar);
        var r := PageRun(chars, start, source, boxes, fits, cpp, m);
        assert r.writes == prev.writes + row.writes;
        forall j | VariantsPerChar * (m - 1) <= j < |r.writes|
          ensures j / VariantsPerChar == m - 1 && j % VariantsPerChar == j - VariantsPerChar * (m - 1)
        {
          DivRow(j, m - 1);
        }
      }
    }
  }

  /** Contour `j` of row `row` lies in row `j // 5` at variant `j % 5`. */
  lemma DivRow(j: nat, row: nat)
    requires VariantsPerChar * row <= j < VariantsPerChar * (row + 1)
    ensures j / VariantsPerChar == row && j % VariantsPerChar == j - VariantsPerChar * row
  {
  }

  /**
   * What a saved image records: a character of the category, a variant
   * below 5, its contour, a name that reads back as that character's code
   * point and variant, and, when the box fits, a slot inside the canvas.
   */
  lemma VariantWriteFacts(chars: string, start: nat, source: string, boxes: seq<Box>, cpp: nat, charIdx: nat, variant: nat)
    requires PageShape(boxes, cpp)
    requires charIdx < RowsHandled(chars, start, cpp) && variant < VariantsPerChar
    ensures var w := VariantWrite(chars, start, source, boxes, cpp, charIdx, variant);
      && w.source == source && w.charIndex == start + charIdx < |chars| && w.variant == variant
      && w.contour == charIdx * VariantsPerChar + variant < |boxes| && w.box == boxes[w.contour]
      && w.code == Ord(chars[w.charIndex])
      && w.Path() == OutputDir + FileName(w.code, w.variant)
      && ParseFileName(FileName(w.code, w.variant)) == Ok(ParsedName(w.code, w.variant))
      && (w.box.w <= CanvasSize ==> 0 <= w.startX && w.startX + w.box.w <= CanvasSize)
      && (w.box.h <= CanvasSize ==> 0 <= w.startY && w.startY + w.box.h <= CanvasSize)
  {
    assert Decimal(variant) == [DigitChar(variant)];
    FileNameRoundTrip(Ord(chars[start + charIdx]), variant);
  }

  /** On a page whose every box pastes, no error occurs. */
  lemma {:induction false} FittingPageSucceeds(chars: string, start: nat, source: string, boxes: seq<Box>, fits: seq<bool>, cpp: nat, m: nat)
    requires PageShape(boxes, cpp) && |fits| == |boxes|
    requires m <= RowsHandled(chars, start, cpp)
    requires forall i :: 0 <= i < |fits| ==> fits[i]
    ensures PageRun(chars, start, source, boxes, fits, cpp, m).failure.None?
  {
    if m > 0 {
      FittingPageSucceeds(chars, start, source, boxes, fits, cpp, m - 1);
      FittingRowSucceeds(chars, start, source, boxes, fits, cpp, m - 1, VariantsPerChar);
    }
  }

  lemma {:induction false} FittingRowSucceeds(chars: string, start: nat, source: string, boxes: seq<Box>, fits: seq<bool>, cpp: nat, charIdx: nat, k: nat)
    requires PageShape(boxes, cpp) && |fits| == |boxes|
    requires charIdx < RowsHandled(chars, start, cpp) && k <= VariantsPerChar
    requires forall i :: 0 <= i < |fits| ==> fits[i]
    ensures RowRun(chars, start, source, boxes, fits, cpp, charIdx, k).failure.None?
  {
    if k > 0 {
      FittingRowSucceeds(chars, start, source, boxes, fits, cpp, charIdx, k - 1);
    }
  }

  /** After `k` variants of row `charIdx`, the images saved are those before the row and the row's first `k`, without error. */
  ghost predicate RowSoFar(chars: string, start: nat, source: string, boxes: seq<Box>, fits: seq<bool>, cpp: nat, charIdx: nat, k: nat, writes: seq<Write>, saved: seq<Write>)
    requires PageShape(boxes, cpp) && |fits| == |boxes|
    requires charIdx < RowsHandled(chars, start, cpp) && k <= VariantsPerChar
  {
    var r := RowRun(chars, start, source, boxes, fits, cpp, charIdx, k);
    r.failure.None? && saved == writes + r.writes
  }

  lemma RowSoFarStep(chars: string, start: nat, source: string, boxes: seq<Box>, fits: seq<bool>, cpp: nat, charIdx: nat, k: nat, writes: seq<Write>, saved: seq<Write>)
    requires PageShape(boxes, cpp) && |fits| == |boxes|
    requires charIdx < RowsHandled(chars, start, cpp) && k < VariantsPerChar
    requires RowSoFar(chars, start, source, boxes, fits, cpp, charIdx, k, writes, saved)
    ensures charIdx * VariantsPerChar + k < |boxes|
    ensures fits[charIdx * VariantsPerChar + k] ==>
      RowSoFar(chars, start, source, boxes, fits, cpp, charIdx, k + 1, writes, saved + [VariantWrite(chars, start, source, boxes, cpp, charIdx, k)])
    ensures !fits[charIdx * VariantsPerChar + k] ==>
      Then(Run(writes, None), RowRun(chars, start, source, boxes, fits, cpp, charIdx, VariantsPerChar))
      == Run(saved, Some(PasteFailed(source, charIdx * VariantsPerChar + k)))
  {
    var t := charIdx * VariantsPerChar + k;
    var prev := RowRun(chars, start, source, boxes, fits, cpp, charIdx, k).writes;
    RowRunStep(chars, start, source, boxes, fits, cpp, charIdx, k);
    if fits[t] {
      var w := VariantWrite(chars, start, source, boxes, cpp, charIdx, k);
      assert (writes + prev) + [w] == writes + (prev + [w]);
    } else {
      RowFailurePersists(chars, start, source, boxes, fits, cpp, charIdx, k + 1, VariantsPerChar);
    }
  }

  /** Lines 124-132 for one box: crop it from the scan and assign the crop to the centred slot of the canvas; whether numpy accepts the assignment. */
  method PasteCentred(height: nat, width: nat, box: Box) returns (ok: bool)
    ensures ok == Pastes(height, width, box)
    ensures box.x + box.w <= width && box.y + box.h <= height ==> (ok <==> box.w <= CanvasSize && box.h <= CanvasSize)
  {
    var roi := RoiSize(height, width, box);
    var startX := CentreStart(box.w);
    var startY := CentreStart(box.h);
    ok := Broadcasts(roi.0, SliceLength(startY, startY + box.h, CanvasSize)) && Broadcasts(roi.1, SliceLength(startX, startX + box.w, CanvasSize));
    if box.x + box.w <= width && box.y + box.h <= height {
      PastesIff(height, width, box);
    }
  }

  /** The variant loop of one row, appending to the images saved so far. */
  method ProcessRow(chars: string, start: nat, source: string, height: nat, width: nat, boxes: seq<Box>, cpp: nat, charIdx: nat, writes: seq<Write>) returns (run: Run)
    requires PageShape(boxes, cpp)
    requires charIdx < RowsHandled(chars, start, cpp)
    ensures run == Then(Run(writes, None), RowRun(chars, start, source, boxes, PasteTable(height, width, boxes), cpp, charIdx, VariantsPerChar))
  {
    ghost var fits := PasteTable(height, width, boxes);
    var c := chars[start + charIdx];
    var saved := writes;
    for variant := 0 to VariantsPerChar
      invariant RowSoFar(chars, start, source, boxes, fits, cpp, charIdx, variant, writes, saved)
    {
      var cntIdx := charIdx * VariantsPerChar + variant;
      RowSoFarStep(chars, start, source, boxes, fits, cpp, charIdx, variant, writes, saved);
      // the `cnt_idx >= len(contours)` guard of process_variants never holds: cntIdx < 5 * cpp <= |boxes|
      var box := boxes[cntIdx];
      var startX := CentreStart(box.w);
      var startY := CentreStart(box.h);
      var pastes := PasteCentred(height, width, box);
      PasteTableAt(height, width, boxes, cntIdx);
      if !pastes {
        return Run(saved, Some(PasteFailed(source, cntIdx)));
      }
      var w := Write(source, start + charIdx, Ord(c), variant, cntIdx, box, startX, startY);
      assert w == VariantWrite(chars, start, source, boxes, cpp, charIdx, variant);
      saved := saved + [w];
    }
    run := Run(saved, None);
  }

  /** The character loop of one page. */
  method ProcessPage(chars: string, page: nat, source: string, height: nat, width: nat, contours: seq<Box>) returns (run: Run)
    requires 1 <= page
    ensures run == PageOutcome(chars, page - 1, source, height, width, contours)
  {
    var boxes := SortByPosition(contours);
    var charsPerPage := |boxes| / VariantsPerChar;
    var first: nat := (page - 1) * charsPerPage;
    ghost var fits := PasteTable(height, width, boxes);
    var writes: seq<Write> := [];
    var charIdx: nat := 0;
    while charIdx < charsPerPage
      invariant charIdx <= RowsHandled(chars, first, charsPerPage)
      invariant PageRun(chars, first, source, boxes, fits, charsPerPage, charIdx) == Run(writes, None)
    {
      if first + charIdx >= |chars| {
        break;
      }
      RowsHandledIff(chars, first, charsPerPage, charIdx);
      run := ProcessRow(chars, first, source, height, width, boxes, charsPerPage, charIdx, writes);
      if run.failure.Some? {
        PageFailurePersists(chars, first, source, boxes, fits, charsPerPage, charIdx + 1, RowsHandled(chars, first, charsPerPage));
        return;
      }
      writes := run.writes;
      charIdx := charIdx + 1;
    }
    RowsHandledIff(chars, first, charsPerPage, charIdx);
    run := Run(writes, None);
  }

  // ----- The page loop of a category (HANDWRITING.py:90-137) -----

  /** The paths of pages `1 .. n` of a category. */
  ghost function PathsBefore(category: string, n: nat): set<string>
  {
    set q | 0 <= q < n :: PagePath(category, q)
  }

  /** Page `n + 1` has a path that none of pages `1 .. n` has. */
  lemma PathNotBefore(category: string, n: nat)
    ensures PagePath(category, n) !in PathsBefore(category, n)
  {
    if PagePath(category, n) in PathsBefore(category, n) {
      var q :| 0 <= q < n && PagePath(category, q) == PagePath(category, n);
      PagePathInjective(category, q, n);
      assert false;
    }
  }

  lemma PathsBeforeNext(category: string, n: nat)
    ensures PathsBefore(category, n + 1) == PathsBefore(category, n) + {PagePath(category, n)}
  {
  }

  /** Page `n + 1` adds a path not seen before, so the pages still to find on the disk become fewer. */
  lemma PathsStep(category: string, disk: Disk, n: nat)
    requires PagePath(category, n) in disk
    ensures |disk.Keys - PathsBefore(category, n + 1)| < |disk.Keys - PathsBefore(category, n)|
  {
    PathNotBefore(category, n);
    PathsBeforeNext(category, n);
    var path := PagePath(category, n);
    assert disk.Keys - PathsBefore(category, n + 1) == (disk.Keys - PathsBefore(category, n)) - {path};
  }

  /** Pages `n + 1`, `n + 2`, ... of a category, up to the first page that is missing or unreadable or the first error. */
  function CategoryRun(category: string, chars: string, disk: Disk, n: nat): Run
    decreases |disk.Keys - PathsBefore(category, n)|
  {
    var path := PagePath(category, n);
    if path !in disk then Run([], None)
    else match disk[path]
      case Unreadable => Run([], None)
      case Scan(width, height, contours) =>
        PathsStep(category, disk, n);
        Then(PageOutcome(chars, n, path, height, width, contours), CategoryRun(category, chars, disk, n + 1))
  }

  /** The `while True` loop over the pages of one category. */
  method ProcessCategory(category: string, chars: string, disk: Disk) returns (run: Run)
    ensures run == CategoryRun(category, chars, disk, 0)
  {
    var writes: seq<Write> := [];
    var page := 1;
    while true
      invariant 1 <= page
      invariant Then(Run(writes, None), CategoryRun(category, chars, disk, page - 1)) == CategoryRun(category, chars, disk, 0)
      decreases |disk.Keys - PathsBefore(category, page - 1)|
    {
      var imgPath := "templates/" + category + "_page" + Decimal(page) + ".png";
      assert imgPath == PagePath(category, page - 1);
      if imgPath !in disk {
        break;
      }
      var img := disk[imgPath];
      if img.Unreadable? {
        break;
      }
      PathsStep(category, disk, page - 1);
      var pageRun := ProcessPage(chars, page, imgPath, img.height, img.width, img.contours);
      ghost var rest := CategoryRun(category, chars, disk, page);
      if pageRun.failure.Some? {
        return Run(writes + pageRun.writes, pageRun.failure);
      }
      ghost var before := writes;
      writes := writes + pageRun.writes;
      assert Then(Run(before, None), pageRun) == Run(writes, None);
      ThenAssoc(Run(before, None), pageRun, rest);
      page := page + 1;
    }
    run := Run(writes, None);
  }

  // ----- What is saved -----

  /** A saved image names a character of the category by index and code point, and a variant below 5. */
  predicate WriteOk(chars: string, w: Write)
  {
    w.charIndex < |chars| && w.code == Ord(chars[w.charIndex]) && w.variant < VariantsPerChar
  }

  /** Every image saved from a page names a character of the category and comes from that page. */
  lemma PageWritesOk(chars: string, n: nat, source: string, height: nat, width: nat, contours: seq<Box>)
    ensures forall w :: w in PageOutcome(chars, n, source, height, width, contours).writes ==> WriteOk(chars, w) && w.source == source
  {
    var boxes := SortByPosition(contours);
    var cpp := |boxes| / VariantsPerChar;
    var start := n * cpp;
    var fits := PasteTable(height, width, boxes);
    var m := RowsHandled(chars, start, cpp);
    var r := PageRun(chars, start, source, boxes, fits, cpp, m);
    PageRunShape(chars, start, source, boxes, fits, cpp, m);
    forall j | 0 <= j < |r.writes|
      ensures WriteOk(chars, r.writes[j]) && r.writes[j].source == source
    {
      VariantWriteFacts(chars, start, source, boxes, cpp, j / VariantsPerChar, j % VariantsPerChar);
    }
  }

  /** An image saved by two stages in turn is saved by one of them. */
  lemma ThenWrites(a: Run, b: Run, w: Write)
    requires w in Then(a, b).writes
    ensures w in a.writes || w in b.writes
  {
  }

  /** Every image saved for a category names one of its characters and comes from one of its pages. */
  lemma {:induction false} CategoryWritesOk(category: string, chars: string, disk: Disk, n: nat)
    ensures forall w :: w in CategoryRun(category, chars, disk, n).writes ==>
      WriteOk(chars, w) && exists q :: n <= q && w.source == PagePath(category, q)
    decreases |disk.Keys - PathsBefore(category, n)|
  {
    var path := PagePath(category, n);
    if path in disk && disk[path].Scan? {
      var scan := disk[path];
      PathsStep(category, disk, n);
      var page := PageOutcome(chars, n, path, scan.height, scan.width, scan.contours);
      var rest := CategoryRun(category, chars, disk, n + 1);
      assert CategoryRun(category, chars, disk, n) == Then(page, rest);
      CategoryWritesOk(category, chars, disk, n + 1);
      PageWritesOk(chars, n, path, scan.height, scan.width, scan.contours);
      forall w | w in Then(page, rest).writes
        ensures WriteOk(chars, w) && exists q :: n <= q && w.source == PagePath(category, q)
      {
        ThenWrites(page, rest, w);
        if w in page.writes {
          assert w.source == PagePath(category, n);
        } else {
          var q :| n + 1 <= q && w.source == PagePath(category, q);
          assert n <= q;
        }
      }
    } else {
      assert CategoryRun(category, chars, disk, n).writes == [];
    }
  }

  /** Every name saved for a category reads back, in the font step, as the code point of one of its characters and a variant below 5. */
  lemma SavedNamesReadBack(category: string, chars: string, disk: Disk)
    ensures forall w :: w in CategoryRun(category, chars, disk, 0).writes ==>
      w.Path() == OutputDir + FileName(w.code, w.variant)
      && ParseFileName(FileName(w.code, w.variant)) == Ok(ParsedName(w.code, w.variant))
      && (exists k :: 0 <= k < |chars| && w.code == Ord(chars[k])) && w.variant < VariantsPerChar
  {
    CategoryWritesOk(category, chars, disk, 0);
    forall w | w in CategoryRun(category, chars, disk, 0).writes
      ensures ParseFileName(FileName(w.code, w.variant)) == Ok(ParsedName(w.code, w.variant))
      ensures exists k :: 0 <= k < |chars| && w.code == Ord(chars[k])
    {
      assert Decimal(w.variant) == [DigitChar(w.variant)];
      FileNameRoundTrip(w.code, w.variant);
    }
  }

  // ----- All categories (HANDWRITING.py:80-90) -----

  /** The first `k` categories in turn, up to the first error. */
  function VariantsRun(disk: Disk, k: nat): Run
    requires k <= |Categories|
  {
    if k == 0 then Run([], None)
    else Then(VariantsRun(disk, k - 1), CategoryRun(Categories[k - 1].name, Categories[k - 1].chars, disk, 0))
  }

  /** `process_variants`: the loop over the categories. */
  method ProcessVariants(disk: Disk) returns (run: Run)
    ensures run == VariantsRun(disk, |Categories|)
  {
    var writes: seq<Write> := [];
    for k := 0 to |Categories|
      invariant VariantsRun(disk, k) == Run(writes, None)
    {
      var category := Categories[k];
      var categoryRun := ProcessCategory(category.name, category.chars, disk);
      if categoryRun.failure.Some? {
        VariantsFailurePersists(disk, k + 1, |Categories|);
        return Run(writes + categoryRun.writes, categoryRun.failure);
      }
      writes := writes + categoryRun.writes;
    }
    run := Run(writes, None);
  }

  /** Once a category stops with an error, the later categories are not processed. */
  lemma {:induction false} VariantsFailurePersists(disk: Disk, k: nat, l: nat)
    requires k <= l <= |Categories|
    requires VariantsRun(disk, k).failure.Some?
    ensures VariantsRun(disk, l) == VariantsRun(disk, k)
    decreases l
  {
    if l > k {
      VariantsFailurePersists(disk, k, l - 1);
    }
  }
}
