/** Scrolling moves the text and the selection separately; they stay together. */
module SelectionScroll {
  import opened Common
  import opened Arith
  import opened Index
  import opened Selection
  import opened SelectionAcross
  import Rows
  import G = Grid

  /** Dimensions of a text with `screen` visible lines. */
  function DimensionsOf(text: seq<G.Line>, screen: nat, columns: nat): Dimensions {
    Dimensions(columns, screen, |text|)
  }

  predicate IsText(text: seq<G.Line>, screen: nat, columns: nat) {
    && DimensionsOf(text, screen, columns).Valid()
    && forall h :: 0 <= h < |text| ==> |text[h]| == columns
  }

  predicate InText(text: seq<G.Line>, screen: nat, p: Point) {
    screen - |text| <= p.line < screen
  }

  /** The points of a text are those of its grid. */
  lemma InTextIff(text: seq<G.Line>, screen: nat, columns: nat, p: Point)
    requires IsText(text, screen, columns)
    ensures InText(text, screen, p) && p.column < columns <==> DimensionsOf(text, screen, columns).Contains(p)
  {
  }

  /** The cell of a text at a point; texts list their lines from the bottom upward. */
  function CellAt(text: seq<G.Line>, screen: nat, columns: nat, p: Point): Rows.Cell
    requires IsText(text, screen, columns) && InText(text, screen, p) && p.column < columns
  {
    text[screen - 1 - p.line][p.column]
  }

  /** A covered cell lies on a line that the anchors enclose. */
  lemma CoveredLines(cols: nat, r: Region, p: Point, top: int, bottom: int)
    requires r.start.point.column < cols && r.end.point.column < cols && p.column < cols
    requires r.start.point.line < bottom && r.end.point.line < bottom && Covers(cols, r, p)
    ensures p.line < bottom
    ensures top <= r.start.point.line && top <= r.end.point.line ==> top <= p.line
  {
    EdgeAbove(cols, r.start, bottom);
    EdgeAbove(cols, r.end, bottom);
    EdgeAbove(cols, r.start, top);
    EdgeAbove(cols, r.end, top);
    CellAbove(cols, p, bottom);
    CellAbove(cols, p, top);
  }

  lemma ScrolledUpIsText(
    text: seq<G.Line>, screen: nat, columns: nat, top: int, bottom: int, p: nat, limit: nat, blank: G.Line)
    requires IsText(text, screen, columns) && |blank| == columns
    requires 0 <= top < bottom <= screen && (top == 0 ==> p <= bottom) && |text| - screen <= limit
    ensures IsText(G.ScrolledUp(text, screen, top, bottom, p, limit, blank), screen, columns)
  {
    var moved := G.ScrolledUp(text, screen, top, bottom, p, limit, blank);
    forall h | 0 <= h < |moved|
      ensures |moved[h]| == columns
    {
      if moved[h] != blank {
        assert exists k :: 0 <= k < |text| && moved[h] == text[k];
      }
    }
  }

  /** Lines that stay in the scrolled part keep their text, `p` lines higher. */
  lemma LineMovesUp(
    text: seq<G.Line>, screen: nat, columns: nat, top: int, bottom: int, p: nat, limit: nat, blank: G.Line, q: Point)
    requires IsText(text, screen, columns) && |blank| == columns
    requires 0 <= top < bottom <= screen && (top == 0 ==> p <= bottom) && |text| - screen <= limit
    requires (top == 0 || top <= q.line) && q.line + p < bottom && q.column < columns
    requires InText(G.ScrolledUp(text, screen, top, bottom, p, limit, blank), screen, q)
    ensures IsText(G.ScrolledUp(text, screen, top, bottom, p, limit, blank), screen, columns)
    ensures InText(text, screen, Point(q.line + p, q.column))
    ensures CellAt(G.ScrolledUp(text, screen, top, bottom, p, limit, blank), screen, columns, q)
         == CellAt(text, screen, columns, Point(q.line + p, q.column))
  {
    ScrolledUpIsText(text, screen, columns, top, bottom, p, limit, blank);
  }

  /** Main result: after the screen scrolls up, a cell is selected exactly if it is in the scrolled part and the
      cell `p` lines below was selected, and then it shows the text that was selected. */
  lemma ScrollUpKeepsSelectedText(
    ty: SelectionType, r: Region, text: seq<G.Line>, screen: nat, columns: nat,
    top: int, bottom: int, p: nat, limit: nat, blank: G.Line, q: Point)
    requires IsText(text, screen, columns) && |blank| == columns && |text| - screen <= limit
    requires ty != Block && InColumns(DimensionsOf(text, screen, columns), r)
    requires 0 <= top < bottom <= screen && (top == 0 ==> p <= bottom) && InScrolledPart(r, top, bottom)
    requires q.column < columns && InText(G.ScrolledUp(text, screen, top, bottom, p, limit, blank), screen, q)
    ensures var moved := G.ScrolledUp(text, screen, top, bottom, p, limit, blank);
      var below := Point(q.line + p, q.column);
      var selected := OptionCovers(columns, Rotated(ty, r, DimensionsOf(text, screen, columns), top, bottom, p), q);
      && (selected <==> (top == 0 || top <= q.line) && q.line < bottom && Covers(columns, r, below))
      && (selected ==> IsText(moved, screen, columns) && InText(text, screen, below)
                       && CellAt(moved, screen, columns, q) == CellAt(text, screen, columns, below))
  {
    var d := DimensionsOf(text, screen, columns);
    RotateAtCell(ty, r, d, top, bottom, p, q);
    if OptionCovers(columns, Rotated(ty, r, d, top, bottom, p), q) {
      CoveredLines(columns, r, Point(q.line + p, q.column), top, bottom);
      LineMovesUp(text, screen, columns, top, bottom, p, limit, blank, q);
    }
  }

  // ----- Scrolling down -----

  /** The old cell that a cell shows after the part between `top` and `bottom` has moved down by `p` lines; None
      on the new blank lines. */
  function ShownFrom(top: int, bottom: int, p: nat, q: Point): Option<Point> {
    if q.line < top || bottom <= q.line then Some(q)
    else if q.line < top + p then None
    else Some(Point(q.line - p, q.column))
  }

  lemma ScrolledDownShows(
    text: seq<G.Line>, screen: nat, columns: nat, top: int, bottom: int, p: nat, blank: G.Line, q: Point)
    requires IsText(text, screen, columns) && |blank| == columns
    requires 0 <= top < bottom <= screen && p <= bottom - top && q.column < columns && InText(text, screen, q)
    ensures var moved, from := G.ScrolledDown(text, screen, top, bottom, p, blank), ShownFrom(top, bottom, p, q);
      && IsText(moved, screen, columns) && |moved| == |text| && (from.Some? ==> InText(text, screen, from.value))
      && CellAt(moved, screen, columns, q)
         == if from.Some? then CellAt(text, screen, columns, from.value) else blank[q.column]
  {
  }

  /** A cell that is selected shows what was selected, and the other way round. */
  predicate FollowsAt(ty: SelectionType, r: Region, d: Dimensions, top: int, bottom: int, p: nat, q: Point)
    requires d.Valid()
  {
    var from := ShownFrom(top, bottom, p, q);
    OptionCovers(d.columns, Rotated(ty, r, d, top, bottom, -(p as int)), q)
    <==> from.Some? && Covers(d.columns, r, from.value)
  }

  /** The selection stays on its text when the part between `top` and `bottom` moves down by `p` lines. */
  ghost predicate FollowsText(ty: SelectionType, r: Region, d: Dimensions, top: int, bottom: int, p: nat)
    requires d.Valid()
  {
    forall q :: d.Contains(q) ==> FollowsAt(ty, r, d, top, bottom, p, q)
  }

  /** First and last boundary of the covered cells. */
  function FirstEdge(cols: nat, r: Region): int { Min(Edge(cols, r.start), Edge(cols, r.end)) }

  function LastEdge(cols: nat, r: Region): int { Max(Edge(cols, r.start), Edge(cols, r.end)) }

  /** The anchors cover nothing above the scrolled part; without a fixed top the scrollback is above it. */
  predicate NothingAbove(cols: nat, r: Region, top: int) {
    top != 0 || FirstEdge(cols, r) >= 0 || FirstEdge(cols, r) == LastEdge(cols, r)
  }

  /** Cells are covered above line 0, but so far above the grid that no cell of the grid is affected. */
  predicate UnseenAbove(d: Dimensions, r: Region, bottom: int, p: nat) {
    var cols := d.columns;
    var grid, shift := d.TopmostLine() * cols, p * cols;
    var high := (d.screenLines - 1) * cols + EdgeColumn(High(r));
    if Overshoots(d, r, bottom, -(p as int)) then
      || (high == 0 && FirstEdge(cols, r) + shift <= grid)
      || (grid == 0 && FirstEdge(cols, r) + shift == high)
    else LastEdge(cols, r) + shift <= grid
  }

  /** Coverage and its shift by `p` lines down, on cell numbers. */
  lemma CoversByNumber(cols: nat, r: Region, p: nat, q: Point)
    ensures Covers(cols, r, q) <==> FirstEdge(cols, r) <= Cell(cols, q) < LastEdge(cols, r)
    ensures Covers(cols, r, Point(q.line - p, q.column))
       <==> FirstEdge(cols, r) <= Cell(cols, q) - p * cols < LastEdge(cols, r)
  {
    assert (q.line - p) * cols == q.line * cols - p * cols;
  }

  /** What a cell should be, by its number, when the screen above `bottom` moves down by `shift` cells. */
  predicate ExpectedAt(first: int, last: int, shift: int, end: int, x: int) {
    if x < 0 || end <= x then first <= x < last
    else shift <= x && first <= x - shift < last
  }

  lemma ExpectedByNumber(cols: nat, r: Region, bottom: int, p: nat, q: Point)
    requires q.column < cols && 0 < bottom
    ensures var from := ShownFrom(0, bottom, p, q);
      from.Some? && Covers(cols, r, from.value)
      <==> ExpectedAt(FirstEdge(cols, r), LastEdge(cols, r), p * cols, bottom * cols, Cell(cols, q))
  {
    CoversByNumber(cols, r, p, q);
    CellAbove(cols, q, 0);
    CellAbove(cols, q, p);
    CellAbove(cols, q, bottom);
  }

  /** The edges of a region in the scrolled part. */
  lemma EdgesInPart(d: Dimensions, r: Region, top: int, bottom: int)
    requires d.Valid() && InColumns(d, r) && InScrolledPart(r, top, bottom)
    ensures top != 0 ==> top * d.columns <= FirstEdge(d.columns, r)
    ensures LastEdge(d.columns, r) <= bottom * d.columns
  {
    EdgeAbove(d.columns, r.start, top);
    EdgeAbove(d.columns, r.end, top);
    EdgeAbove(d.columns, r.start, bottom);
    EdgeAbove(d.columns, r.end, bottom);
  }

  /** Whether a cell, and the cell `p` lines above it, is above a line can be read off its number. */
  lemma LowerAbove(cols: nat, q: Point, line: int, p: nat)
    requires q.column < cols
    ensures q.line < line <==> Cell(cols, q) < line * cols
    ensures q.line - p < line <==> Cell(cols, q) - p * cols < line * cols
  {
    CellAbove(cols, q, line);
    CellAbove(cols, Point(q.line - p, q.column), line);
    assert (q.line - p) * cols == q.line * cols - p * cols;
  }

  /** When nothing is covered above the scrolled part, following the text is shifting and clipping. */
  lemma NothingAboveShifts(d: Dimensions, r: Region, top: int, bottom: int, p: nat, q: Point)
    requires d.Valid() && InColumns(d, r) && q.column < d.columns
    requires 0 <= top < bottom && InScrolledPart(r, top, bottom) && NothingAbove(d.columns, r, top)
    ensures var from := ShownFrom(top, bottom, p, q);
      from.Some? && Covers(d.columns, r, from.value)
      <==> ShiftedAndClipped(d.columns, r, top, bottom, -(p as int), q)
  {
    var cols := d.columns;
    CoversByNumber(cols, r, p, q);
    EdgesInPart(d, r, top, bottom);
    LowerAbove(cols, q, top, p);
    LowerAbove(cols, q, bottom, p);
    assert Point(q.line + -(p as int), q.column) == Point(q.line - p, q.column);
  }

  /** Then the selection follows its text exactly when scrolling it is exact. */
  lemma FollowsBelow(ty: SelectionType, r: Region, d: Dimensions, top: int, bottom: int, p: nat)
    requires d.Valid() && ty != Block && InColumns(d, r) && 0 <= top < bottom <= d.screenLines
    requires InScrolledPart(r, top, bottom) && NothingAbove(d.columns, r, top)
    ensures FollowsText(ty, r, d, top, bottom, p) <==> RotatesExactly(d, r, bottom, -(p as int))
  {
    if RotatesExactly(d, r, bottom, -(p as int)) {
      forall q | d.Contains(q)
        ensures FollowsAt(ty, r, d, top, bottom, p, q)
      {
        RotateExactAtCell(ty, r, d, top, bottom, -(p as int), q);
        NothingAboveShifts(d, r, top, bottom, p, q);
      }
    } else {
      var q := OvershootWitness(ty, r, d, top, bottom, -(p as int));
      NothingAboveShifts(d, r, top, bottom, p, q);
      assert !FollowsAt(ty, r, d, top, bottom, p, q);
    }
  }

  // ----- Selections that begin in the scrollback -----

  /** A covered interval that begins above line 0 and is shifted as a whole differs somewhere from what it
      should be. */
  lemma ShiftDiffers(first: int, last: int, shift: int, end: int, grid: int) returns (x: int)
    requires first < 0 && first < last <= end && 0 < shift <= end && grid <= 0 && last + shift > grid
    ensures grid <= x < end
    ensures ExpectedAt(first, last, shift, end, x) != (first <= x - shift < last)
  {
    if last <= grid || grid == 0 {
      x := Max(first + shift, grid);
    } else if first + shift > grid {
      x := Max(first, grid);
    } else {
      x := Min(last, 0);
    }
  }

  /** So does one whose end stops at `high` on the last line. */
  lemma StopDiffers(first: int, last: int, shift: int, end: int, grid: int, high: int) returns (x: int)
    requires first < 0 <= last <= end && 0 < shift <= end && grid <= 0 <= high <= end
    requires !(high == 0 && first + shift <= grid) && !(grid == 0 && first + shift == high)
    ensures grid <= x < end
    ensures ExpectedAt(first, last, shift, end, x) != (Min(first + shift, high) <= x < Max(first + shift, high))
  {
    if grid == 0 {
      x := if first + shift < high then Max(first + shift, 0) else high;
    } else if first + shift > grid {
      x := Max(first, grid);
    } else {
      x := 0;
    }
  }

  /** The cell with a given number. */
  lemma CellNumbered(d: Dimensions, x: int) returns (q: Point)
    requires d.Valid() && d.TopmostLine() * d.columns <= x < d.screenLines * d.columns
    ensures d.Contains(q) && Cell(d.columns, q) == x
  {
    q := Point(x / d.columns, x % d.columns);
    CellAbove(d.columns, q, d.TopmostLine());
    CellAbove(d.columns, q, d.screenLines);
  }

  /** Selected cells after scrolling, by number, when the high anchor stays on the screen. */
  lemma ShiftedByNumber(ty: SelectionType, r: Region, d: Dimensions, bottom: int, p: nat, q: Point)
    requires d.Valid() && ty != Block && InColumns(d, r) && q.column < d.columns
    requires 0 < bottom <= d.screenLines && InScrolledPart(r, 0, bottom)
    requires !Overshoots(d, r, bottom, -(p as int))
    ensures OptionCovers(d.columns, Rotated(ty, r, d, 0, bottom, -(p as int)), q)
       <==> Cell(d.columns, q) < bottom * d.columns
            && FirstEdge(d.columns, r) <= Cell(d.columns, q) - p * d.columns < LastEdge(d.columns, r)
  {
    RotateAtCell(ty, r, d, 0, bottom, -(p as int), q);
    CoversByNumber(d.columns, r, p, q);
    CellAbove(d.columns, q, bottom);
    assert Point(q.line + -(p as int), q.column) == Point(q.line - p, q.column);
  }

  /** An overshooting selection that begins in the scrollback. */
  lemma OvershootFromAbove(d: Dimensions, r: Region, bottom: int, p: nat)
    requires d.Valid() && InColumns(d, r) && 0 < bottom <= d.screenLines && p <= bottom
    requires InScrolledPart(r, 0, bottom) && FirstEdge(d.columns, r) < 0 && Overshoots(d, r, bottom, -(p as int))
    ensures bottom == d.screenLines && Low(r).point.line < 0 <= High(r).point.line
    ensures Edge(d.columns, Low(r)) == FirstEdge(d.columns, r) && Edge(d.columns, High(r)) == LastEdge(d.columns, r)
    ensures 0 <= LastEdge(d.columns, r)
  {
    EdgeAbove(d.columns, High(r), 0);
    EdgeAbove(d.columns, Low(r), 0);
  }

  /** Selected cells after scrolling, by number, when the high anchor stops on the last line. */
  lemma StoppedByNumber(ty: SelectionType, r: Region, d: Dimensions, bottom: int, p: nat, q: Point)
    requires d.Valid() && ty != Block && InColumns(d, r) && q.column < d.columns
    requires 0 < bottom <= d.screenLines && p <= bottom && InScrolledPart(r, 0, bottom)
    requires FirstEdge(d.columns, r) < 0 && Overshoots(d, r, bottom, -(p as int))
    ensures var low := FirstEdge(d.columns, r) + p * d.columns;
      var high := (d.screenLines - 1) * d.columns + EdgeColumn(High(r));
      OptionCovers(d.columns, Rotated(ty, r, d, 0, bottom, -(p as int)), q)
      <==> Min(low, high) <= Cell(d.columns, q) < Max(low, high)
  {
    OvershootFromAbove(d, r, bottom, p);
    OvershootCovers(ty, r, d, 0, bottom, -(p as int), q);
    EdgeShift(d.columns, Low(r), Low(r).point.line + p, -(p as int));
    assert -(p as int) * d.columns == -(p * d.columns);
  }

  /** Numbers of the lines that bound the grid and the scrolled part. */
  lemma LineNumbers(d: Dimensions, bottom: int, p: nat)
    requires d.Valid() && 0 < bottom <= d.screenLines && 1 <= p <= bottom
    ensures d.TopmostLine() * d.columns <= 0 < p * d.columns <= bottom * d.columns <= d.screenLines * d.columns
  {
    MulMonotone(d.TopmostLine(), 0, d.columns);
    MulMonotone(1, p, d.columns);
    MulMonotone(p, bottom, d.columns);
    MulMonotone(bottom, d.screenLines, d.columns);
  }

  /** A selection that begins in the scrollback and keeps its high anchor on the screen. */
  lemma FollowsFromAboveShifted(ty: SelectionType, r: Region, d: Dimensions, bottom: int, p: nat)
    requires d.Valid() && ty != Block && InColumns(d, r) && 0 < bottom <= d.screenLines && 1 <= p <= bottom
    requires InScrolledPart(r, 0, bottom) && !NothingAbove(d.columns, r, 0)
    requires !Overshoots(d, r, bottom, -(p as int))
    ensures FollowsText(ty, r, d, 0, bottom, p) <==> UnseenAbove(d, r, bottom, p)
  {
    var cols := d.columns;
    var first, last, grid := FirstEdge(cols, r), LastEdge(cols, r), d.TopmostLine() * cols;
    LineNumbers(d, bottom, p);
    EdgesInPart(d, r, 0, bottom);
    if UnseenAbove(d, r, bottom, p) {
      forall q | d.Contains(q)
        ensures FollowsAt(ty, r, d, 0, bottom, p, q)
      {
        ShiftedByNumber(ty, r, d, bottom, p, q);
        ExpectedByNumber(cols, r, bottom, p, q);
        CellAbove(cols, q, d.TopmostLine());
      }
    } else {
      var x := ShiftDiffers(first, last, p * cols, bottom * cols, grid);
      var q := CellNumbered(d, x);
      ShiftedByNumber(ty, r, d, bottom, p, q);
      ExpectedByNumber(cols, r, bottom, p, q);
      assert !FollowsAt(ty, r, d, 0, bottom, p, q);
    }
  }

  /** An interval that begins far above the grid and stops at `high` is as it should be in the grid. */
  lemma StopAgrees(first: int, last: int, shift: int, end: int, grid: int, high: int, x: int)
    requires first < 0 <= last <= end && 0 < shift <= end && grid <= 0 <= high <= end && grid <= x < end
    requires shift == end && ((high == 0 && first + shift <= grid) || (grid == 0 && first + shift == high))
    ensures ExpectedAt(first, last, shift, end, x) <==> Min(first + shift, high) <= x < Max(first + shift, high)
  {
  }

  /** When the high anchor stops at the first cell of the screen, or the low anchor just as far above the high one,
      the whole screen scrolls away. */
  lemma StopScrollsAll(d: Dimensions, r: Region, bottom: int, p: nat)
    requires d.Valid() && InColumns(d, r) && bottom == d.screenLines && 1 <= p <= bottom
    requires FirstEdge(d.columns, r) < 0
    requires (d.screenLines - 1) * d.columns + EdgeColumn(High(r)) in {0, FirstEdge(d.columns, r) + p * d.columns}
    ensures p == bottom
  {
    if p < bottom {
      MulMonotone(p, bottom - 1, d.columns);
    }
  }

  /** The high anchor stops within the last line. */
  lemma StopOnLastLine(d: Dimensions, r: Region)
    requires d.Valid() && InColumns(d, r)
    ensures 0 <= (d.screenLines - 1) * d.columns + EdgeColumn(High(r)) <= d.screenLines * d.columns
  {
    RowSplit(d.screenLines, d.columns);
    MulMonotone(0, d.screenLines - 1, d.columns);
  }

  /** Where the boundaries of an overshooting selection that begins in the scrollback are. */
  lemma StopNumbers(d: Dimensions, r: Region, bottom: int, p: nat)
    requires d.Valid() && InColumns(d, r) && 0 < bottom <= d.screenLines && 1 <= p <= bottom
    requires InScrolledPart(r, 0, bottom) && FirstEdge(d.columns, r) < 0 && Overshoots(d, r, bottom, -(p as int))
    ensures bottom == d.screenLines && 0 <= LastEdge(d.columns, r) <= bottom * d.columns
    ensures d.TopmostLine() * d.columns <= 0 < p * d.columns <= bottom * d.columns
    ensures 0 <= (d.screenLines - 1) * d.columns + EdgeColumn(High(r)) <= bottom * d.columns
  {
    LineNumbers(d, bottom, p);
    StopOnLastLine(d, r);
    EdgesInPart(d, r, 0, bottom);
    OvershootFromAbove(d, r, bottom, p);
  }

  lemma StoppedUnseen(ty: SelectionType, r: Region, d: Dimensions, bottom: int, p: nat, q: Point)
    requires d.Valid() && ty != Block && InColumns(d, r) && 0 < bottom <= d.screenLines && 1 <= p <= bottom
    requires InScrolledPart(r, 0, bottom) && !NothingAbove(d.columns, r, 0) && d.Contains(q)
    requires Overshoots(d, r, bottom, -(p as int)) && UnseenAbove(d, r, bottom, p)
    ensures FollowsAt(ty, r, d, 0, bottom, p, q)
  {
    var cols := d.columns;
    StopNumbers(d, r, bottom, p);
    StopScrollsAll(d, r, bottom, p);
    StoppedByNumber(ty, r, d, bottom, p, q);
    ExpectedByNumber(cols, r, bottom, p, q);
    CellAbove(cols, q, d.TopmostLine());
    CellAbove(cols, q, bottom);
    StopAgrees(FirstEdge(cols, r), LastEdge(cols, r), p * cols, bottom * cols, d.TopmostLine() * cols,
               (d.screenLines - 1) * cols + EdgeColumn(High(r)), Cell(cols, q));
  }

  lemma StoppedSeen(ty: SelectionType, r: Region, d: Dimensions, bottom: int, p: nat) returns (q: Point)
    requires d.Valid() && ty != Block && InColumns(d, r) && 0 < bottom <= d.screenLines && 1 <= p <= bottom
    requires InScrolledPart(r, 0, bottom) && !NothingAbove(d.columns, r, 0)
    requires Overshoots(d, r, bottom, -(p as int)) && !UnseenAbove(d, r, bottom, p)
    ensures d.Contains(q) && !FollowsAt(ty, r, d, 0, bottom, p, q)
  {
    var cols := d.columns;
    StopNumbers(d, r, bottom, p);
    var x := StopDiffers(FirstEdge(cols, r), LastEdge(cols, r), p * cols, bottom * cols, d.TopmostLine() * cols,
                         (d.screenLines - 1) * cols + EdgeColumn(High(r)));
    q := CellNumbered(d, x);
    StoppedByNumber(ty, r, d, bottom, p, q);
    ExpectedByNumber(cols, r, bottom, p, q);
  }

  /** A selection that begins in the scrollback and whose high anchor overshoots the screen. */
  lemma FollowsFromAboveStopped(ty: SelectionType, r: Region, d: Dimensions, bottom: int, p: nat)
    requires d.Valid() && ty != Block && InColumns(d, r) && 0 < bottom <= d.screenLines && 1 <= p <= bottom
    requires InScrolledPart(r, 0, bottom) && !NothingAbove(d.columns, r, 0)
    requires Overshoots(d, r, bottom, -(p as int))
    ensures FollowsText(ty, r, d, 0, bottom, p) <==> UnseenAbove(d, r, bottom, p)
  {
    if UnseenAbove(d, r, bottom, p) {
      forall q | d.Contains(q)
        ensures FollowsAt(ty, r, d, 0, bottom, p, q)
      {
        StoppedUnseen(ty, r, d, bottom, p, q);
      }
    } else {
      var q := StoppedSeen(ty, r, d, bottom, p);
    }
  }

  /** Main result: when a part of the screen scrolls down, the selection follows its text exactly if scrolling it
      is exact and it covers nothing in the scrollback, which does not move although the selection does. */
  lemma ScrollDownFollowsTextIff(ty: SelectionType, r: Region, d: Dimensions, top: int, bottom: int, p: nat)
    requires d.Valid() && ty != Block && InColumns(d, r)
    requires 0 <= top < bottom <= d.screenLines && 1 <= p <= bottom - top && InScrolledPart(r, top, bottom)
    ensures FollowsText(ty, r, d, top, bottom, p)
       <==> if NothingAbove(d.columns, r, top) then RotatesExactly(d, r, bottom, -(p as int))
            else UnseenAbove(d, r, bottom, p)
  {
    if NothingAbove(d.columns, r, top) {
      FollowsBelow(ty, r, d, top, bottom, p);
    } else if Overshoots(d, r, bottom, -(p as int)) {
      FollowsFromAboveStopped(ty, r, d, bottom, p);
    } else {
      FollowsFromAboveShifted(ty, r, d, bottom, p);
    }
  }

  /** For anchors in the grid, a selection that covers a cell of the scrollback never follows its text. */
  lemma ScrollDownFollowsTextInGrid(ty: SelectionType, r: Region, d: Dimensions, top: int, bottom: int, p: nat)
    requires d.Valid() && ty != Block && d.Contains(r.start.point) && d.Contains(r.end.point)
    requires 0 <= top < bottom <= d.screenLines && 1 <= p <= bottom - top && InScrolledPart(r, top, bottom)
    ensures FollowsText(ty, r, d, top, bottom, p)
       <==> RotatesExactly(d, r, bottom, -(p as int)) && NothingAbove(d.columns, r, top)
  {
    ScrollDownFollowsTextIff(ty, r, d, top, bottom, p);
    EdgeAbove(d.columns, r.start, d.TopmostLine());
    EdgeAbove(d.columns, r.end, d.TopmostLine());
    LineNumbers(d, bottom, p);
  }

  // ----- Selections that are not wholly in the scrolled part -----

  /** A cell that shows an old cell is selected if that one was, and the other way round. */
  predicate FollowsShown(selected: Option<Region>, r: Region, cols: nat, from: Option<Point>, q: Point) {
    from.Some? ==> (OptionCovers(cols, selected, q) <==> Covers(cols, r, from.value))
  }

  /** Main result: when a part of the screen scrolls up that a selection only reaches into, the selection follows its
      text exactly if its high end, if that is the one in the part, does not leave the part at the top. */
  lemma ScrollUpAcrossIff(ty: SelectionType, r: Region, d: Dimensions, top: int, bottom: int, p: nat)
    requires d.Valid() && ty != Block && InColumns(d, r) && 0 <= top < bottom <= d.screenLines
    requires r.start.point.line < d.screenLines && r.end.point.line < d.screenLines
    requires !InScrolledPart(r, top, bottom)
    ensures (forall q :: d.Contains(q) ==>
              FollowsShown(Rotated(ty, r, d, top, bottom, p), r, d.columns, ShownFromUp(top, bottom, p, q), q))
       <==> (Scrolls(High(r).point.line, top, bottom) ==> AcrossTopExact(d, r, top, bottom, p))
  {
    RotateAcrossIff(ty, r, d, top, bottom, p);
    forall q | d.Contains(q)
      ensures KeptAt(ty, r, d, top, bottom, p, q)
         <==> FollowsShown(Rotated(ty, r, d, top, bottom, p), r, d.columns, ShownFromUp(top, bottom, p, q), q)
    {
    }
  }

  /** After scrolling down, at one cell. */
  predicate FollowsDown(ty: SelectionType, r: Region, d: Dimensions, top: int, bottom: int, p: nat, q: Point)
    requires d.Valid()
  {
    FollowsShown(Rotated(ty, r, d, top, bottom, -(p as int)), r, d.columns, ShownFrom(top, bottom, p, q), q)
  }

  /** When a selection that reaches below the scrolled part covers nothing in the scrollback, the scrollback may be
      taken to move. */
  lemma FollowsDownKept(ty: SelectionType, r: Region, d: Dimensions, top: int, bottom: int, p: nat, q: Point)
    requires d.Valid() && InColumns(d, r) && 0 <= top < bottom <= d.screenLines && q.column < d.columns
    requires top != 0 || (FirstEdge(d.columns, r) >= 0 && KeptAt(ty, r, d, top, bottom, -(p as int), q))
    ensures top != 0 ==>
      (KeptAt(ty, r, d, top, bottom, -(p as int), q) <==> FollowsDown(ty, r, d, top, bottom, p, q))
    ensures top == 0 ==> FollowsDown(ty, r, d, top, bottom, p, q)
  {
    if top == 0 {
      CoversByNumber(d.columns, r, p, q);
      LowerAbove(d.columns, q, 0, p);
    }
    assert Point(q.line + -(p as int), q.column) == Point(q.line - p, q.column);
  }

  /** Anchors of a selection from the scrollback to below a part that starts at line 0. */
  lemma FromScrollbackAnchors(d: Dimensions, r: Region, bottom: int)
    requires d.Valid() && InColumns(d, r) && 0 < bottom <= High(r).point.line && FirstEdge(d.columns, r) < 0
    ensures Low(r).point.line < 0 && Edge(d.columns, Low(r)) == FirstEdge(d.columns, r)
    ensures Edge(d.columns, High(r)) == LastEdge(d.columns, r) && 0 <= bottom * d.columns <= LastEdge(d.columns, r)
  {
    EdgeAbove(d.columns, High(r), bottom);
    EdgeAbove(d.columns, Low(r), 0);
    MulMonotone(0, bottom, d.columns);
  }

  /** What such a selection covers when the part has moved down, by number. */
  lemma FromScrollbackCovers(ty: SelectionType, r: Region, d: Dimensions, bottom: int, p: nat, q: Point)
    requires d.Valid() && ty != Block && InColumns(d, r) && 0 < bottom <= High(r).point.line < d.screenLines
    requires p <= bottom && FirstEdge(d.columns, r) < 0
    ensures FirstEdge(d.columns, r) + p * d.columns <= bottom * d.columns <= LastEdge(d.columns, r)
    ensures OptionCovers(d.columns, Rotated(ty, r, d, 0, bottom, -(p as int)), q)
       <==> FirstEdge(d.columns, r) + p * d.columns <= Cell(d.columns, q) < LastEdge(d.columns, r)
  {
    FromScrollbackAnchors(d, r, bottom);
    NewLowEdge(d, r, 0, bottom, -(p as int));
    assert -(p as int) * d.columns == -(p * d.columns);
    AcrossBottomCovers(ty, r, d, 0, bottom, -(p as int), q);
  }

  /** The selection covers no cell of the scrollback that would have to stay, or all of it before and after. */
  predicate ScrollbackUnmoved(d: Dimensions, r: Region, p: nat) {
    var grid := d.TopmostLine() * d.columns;
    grid == 0 || FirstEdge(d.columns, r) + p * d.columns <= grid
  }

  lemma FromScrollbackIff(ty: SelectionType, r: Region, d: Dimensions, bottom: int, p: nat)
    requires d.Valid() && ty != Block && InColumns(d, r) && 0 < bottom <= High(r).point.line < d.screenLines
    requires 1 <= p <= bottom && FirstEdge(d.columns, r) < 0
    ensures (forall q :: d.Contains(q) ==> FollowsDown(ty, r, d, 0, bottom, p, q)) <==> ScrollbackUnmoved(d, r, p)
  {
    var cols, grid := d.columns, d.TopmostLine() * d.columns;
    LineNumbers(d, bottom, p);
    if ScrollbackUnmoved(d, r, p) {
      forall q | d.Contains(q)
        ensures FollowsDown(ty, r, d, 0, bottom, p, q)
      {
        FromScrollbackCovers(ty, r, d, bottom, p, q);
        FromScrollbackAt(r, d, bottom, p, q);
      }
    } else {
      var q := CellNumbered(d, Max(FirstEdge(cols, r), grid));
      FromScrollbackCovers(ty, r, d, bottom, p, q);
      CoversByNumber(cols, r, p, q);
      CellAbove(cols, q, 0);
      assert !FollowsDown(ty, r, d, 0, bottom, p, q);
    }
  }

  /** What should be covered then, by number. */
  lemma FromScrollbackAt(r: Region, d: Dimensions, bottom: int, p: nat, q: Point)
    requires d.Valid() && InColumns(d, r) && 0 < bottom && 1 <= p <= bottom && d.Contains(q)
    requires FirstEdge(d.columns, r) < 0 && bottom * d.columns <= LastEdge(d.columns, r)
    requires ScrollbackUnmoved(d, r, p)
    ensures var from := ShownFrom(0, bottom, p, q);
      from.Some? ==>
        (Covers(d.columns, r, from.value)
         <==> FirstEdge(d.columns, r) + p * d.columns <= Cell(d.columns, q) < LastEdge(d.columns, r))
  {
    CoversByNumber(d.columns, r, p, q);
    LowerAbove(d.columns, q, 0, p);
    LowerAbove(d.columns, q, bottom, p);
    CellAbove(d.columns, q, p);
    CellAbove(d.columns, q, d.TopmostLine());
    MulMonotone(1, p, d.columns);
    MulMonotone(p, bottom, d.columns);
  }

  lemma ScrollDownAcrossBelow(ty: SelectionType, r: Region, d: Dimensions, top: int, bottom: int, p: nat)
    requires d.Valid() && ty != Block && InColumns(d, r) && 0 <= top < bottom <= d.screenLines
    requires r.start.point.line < d.screenLines && r.end.point.line < d.screenLines
    requires !InScrolledPart(r, top, bottom) && (top != 0 || FirstEdge(d.columns, r) >= 0)
    ensures (forall q :: d.Contains(q) ==> FollowsDown(ty, r, d, top, bottom, p, q))
       <==> && (Scrolls(Low(r).point.line, top, bottom) ==> AcrossBottomExact(d, r, bottom, -(p as int)))
            && (Scrolls(High(r).point.line, top, bottom) ==> AcrossTopExact(d, r, top, bottom, -(p as int)))
  {
    RotateAcrossIff(ty, r, d, top, bottom, -(p as int));
    if top != 0 || KeptAll(ty, r, d, top, bottom, -(p as int)) {
      forall q | d.Contains(q)
        ensures top != 0 ==>
          (KeptAt(ty, r, d, top, bottom, -(p as int), q) <==> FollowsDown(ty, r, d, top, bottom, p, q))
        ensures top == 0 ==> FollowsDown(ty, r, d, top, bottom, p, q)
      {
        FollowsDownKept(ty, r, d, top, bottom, p, q);
      }
    } else {
      AcrossBottomDiffers(ty, r, d, top, bottom, -(p as int));
      assert !FollowsDown(ty, r, d, top, bottom, p, Point(bottom, 0));
    }
  }

  /** Main result: when a part of the screen scrolls down that a selection only reaches into, the selection follows
      its text exactly if the end in the part does not pass cells that do not move; the scrollback never moves. */
  lemma ScrollDownAcrossIff(ty: SelectionType, r: Region, d: Dimensions, top: int, bottom: int, p: nat)
    requires d.Valid() && ty != Block && InColumns(d, r) && 0 <= top < bottom <= d.screenLines
    requires r.start.point.line < d.screenLines && r.end.point.line < d.screenLines
    requires !InScrolledPart(r, top, bottom) && 1 <= p <= bottom - top
    ensures (forall q :: d.Contains(q) ==> FollowsDown(ty, r, d, top, bottom, p, q))
       <==> if top == 0 && FirstEdge(d.columns, r) < 0 then ScrollbackUnmoved(d, r, p)
            else
              && (Scrolls(Low(r).point.line, top, bottom) ==> AcrossBottomExact(d, r, bottom, -(p as int)))
              && (Scrolls(High(r).point.line, top, bottom) ==> AcrossTopExact(d, r, top, bottom, -(p as int)))
  {
    if top == 0 && FirstEdge(d.columns, r) < 0 {
      FromScrollbackIff(ty, r, d, bottom, p);
    } else {
      ScrollDownAcrossBelow(ty, r, d, top, bottom, p);
    }
  }

  // ----- Resizing -----

  /** The old cell that a cell shows after the screen has been resized; None on added lines. */
  function ResizedFrom(length: nat, screen: nat, target: nat, cursorLine: int, q: Point): Option<Point> {
    var line := q.line - G.ResizeDelta(length, screen, target, cursorLine);
    if line < screen then Some(Point(line, q.column)) else None
  }

  /** Where the lines of a resized text come from, counted from the bottom. */
  lemma ResizedHeights(
    text: seq<G.Line>, screen: nat, target: nat, cursorLine: int, limit: nat, blank: G.Line, h: nat)
    requires 1 <= target && 1 <= screen <= |text| <= screen + limit && 0 <= cursorLine < screen
    requires h < |G.ResizedText(text, screen, target, cursorLine, limit, blank)|
    ensures var from := h + screen - target + G.ResizeDelta(|text|, screen, target, cursorLine);
      && from < |text|
      && G.ResizedText(text, screen, target, cursorLine, limit, blank)[h] == if from >= 0 then text[from] else blank
  {
  }

  lemma ResizedIsText(
    text: seq<G.Line>, screen: nat, target: nat, columns: nat, cursorLine: int, limit: nat, blank: G.Line)
    requires IsText(text, screen, columns) && |blank| == columns && |text| - screen <= limit
    requires 1 <= target && 0 <= cursorLine < screen
    ensures IsText(G.ResizedText(text, screen, target, cursorLine, limit, blank), target, columns)
  {
    var resized := G.ResizedText(text, screen, target, cursorLine, limit, blank);
    G.ResizedLength(text, screen, target, cursorLine, limit, blank);
    forall h | 0 <= h < |resized|
      ensures |resized[h]| == columns
    {
      ResizedHeights(text, screen, target, cursorLine, limit, blank, h);
    }
  }

  lemma ResizedShows(
    text: seq<G.Line>, screen: nat, target: nat, columns: nat, cursorLine: int, limit: nat, blank: G.Line, q: Point)
    requires IsText(text, screen, columns) && |blank| == columns && |text| - screen <= limit
    requires 1 <= target && 0 <= cursorLine < screen && q.column < columns
    requires InText(G.ResizedText(text, screen, target, cursorLine, limit, blank), target, q)
    ensures var resized := G.ResizedText(text, screen, target, cursorLine, limit, blank);
      var from := ResizedFrom(|text|, screen, target, cursorLine, q);
      && IsText(resized, target, columns) && (from.Some? ==> InText(text, screen, from.value))
      && CellAt(resized, target, columns, q)
         == if from.Some? then CellAt(text, screen, columns, from.value) else blank[q.column]
  {
    ResizedIsText(text, screen, target, columns, cursorLine, limit, blank);
    ResizedHeights(text, screen, target, cursorLine, limit, blank, target - 1 - q.line);
  }

  /** The selection after resizing: rotated in the new dimensions, over the larger number of lines. */
  function ResizedSelection(
    ty: SelectionType, r: Region, after: Dimensions, length: nat, screen: nat, cursorLine: int): Option<Region>
    requires after.Valid()
  {
    var delta := G.ResizeDelta(length, screen, after.screenLines, cursorLine);
    Rotated(ty, r, after, 0, Max(screen, after.screenLines), -delta)
  }

  predicate ResizeFollowsAt(
    ty: SelectionType, r: Region, after: Dimensions, length: nat, screen: nat, cursorLine: int, q: Point)
    requires after.Valid()
  {
    var from := ResizedFrom(length, screen, after.screenLines, cursorLine, q);
    OptionCovers(after.columns, ResizedSelection(ty, r, after, length, screen, cursorLine), q)
    <==> from.Some? && Covers(after.columns, r, from.value)
  }

  /** No cell below the screen was covered. */
  lemma ResizedCovers(r: Region, after: Dimensions, length: nat, screen: nat, cursorLine: int, q: Point)
    requires after.Valid() && InColumns(after, r) && 0 <= cursorLine < screen <= length && after.Contains(q)
    requires r.start.point.line < screen && r.end.point.line < screen
    ensures var delta := G.ResizeDelta(length, screen, after.screenLines, cursorLine);
      var from := ResizedFrom(length, screen, after.screenLines, cursorLine, q);
      from.Some? && Covers(after.columns, r, from.value)
      <==> ShiftedAndClipped(after.columns, r, 0, Max(screen, after.screenLines), -delta, q)
  {
    var below := Point(q.line - G.ResizeDelta(length, screen, after.screenLines, cursorLine), q.column);
    if Covers(after.columns, r, below) {
      CoveredLines(after.columns, r, below, 0, screen);
    }
  }

  /** Exact rotation, at one cell. */
  lemma ResizeFollowsCell(
    ty: SelectionType, r: Region, after: Dimensions, length: nat, screen: nat, cursorLine: int, q: Point)
    requires after.Valid() && ty != Block && InColumns(after, r) && 0 <= cursorLine < screen <= length
    requires r.start.point.line < screen && r.end.point.line < screen && after.Contains(q)
    requires RotatesExactly(after, r, Max(screen, after.screenLines),
                            -G.ResizeDelta(length, screen, after.screenLines, cursorLine))
    ensures ResizeFollowsAt(ty, r, after, length, screen, cursorLine, q)
  {
    var bottom, delta := Max(screen, after.screenLines), G.ResizeDelta(length, screen, after.screenLines, cursorLine);
    RotateExactAtCell(ty, r, after, 0, bottom, -delta, q);
    ResizedCovers(r, after, length, screen, cursorLine, q);
  }

  /** Rotation that is not exact, at some cell. */
  lemma ResizeDiffers(ty: SelectionType, r: Region, after: Dimensions, length: nat, screen: nat, cursorLine: int)
    returns (q: Point)
    requires after.Valid() && ty != Block && InColumns(after, r) && 0 <= cursorLine < screen <= length
    requires r.start.point.line < screen && r.end.point.line < screen
    requires !RotatesExactly(after, r, Max(screen, after.screenLines),
                             -G.ResizeDelta(length, screen, after.screenLines, cursorLine))
    ensures after.Contains(q) && !ResizeFollowsAt(ty, r, after, length, screen, cursorLine, q)
  {
    var bottom, delta := Max(screen, after.screenLines), G.ResizeDelta(length, screen, after.screenLines, cursorLine);
    q := OvershootWitness(ty, r, after, 0, bottom, -delta);
    ResizedCovers(r, after, length, screen, cursorLine, q);
  }

  /** A screen that grows has room for the whole selection. */
  lemma GrowingHasRoom(r: Region, after: Dimensions, length: nat, screen: nat, cursorLine: int)
    requires after.Valid() && 0 <= cursorLine < screen <= length && screen <= after.screenLines
    requires r.start.point.line < screen && r.end.point.line < screen
    ensures !Overshoots(after, r, after.screenLines, -G.ResizeDelta(length, screen, after.screenLines, cursorLine))
  {
  }

  /** Main result: when the screen is resized, the selection follows its text exactly if rotating it in the new
      dimensions is exact, which it always is when the screen grows. */
  lemma ResizeFollowsTextIff(
    ty: SelectionType, r: Region, after: Dimensions, length: nat, screen: nat, cursorLine: int)
    requires after.Valid() && ty != Block && InColumns(after, r) && 0 <= cursorLine < screen <= length
    requires r.start.point.line < screen && r.end.point.line < screen
    ensures (forall q :: after.Contains(q) ==> ResizeFollowsAt(ty, r, after, length, screen, cursorLine, q))
       <==> RotatesExactly(after, r, Max(screen, after.screenLines),
                           -G.ResizeDelta(length, screen, after.screenLines, cursorLine))
    ensures screen <= after.screenLines ==>
      !Overshoots(after, r, after.screenLines, -G.ResizeDelta(length, screen, after.screenLines, cursorLine))
  {
    if screen <= after.screenLines {
      GrowingHasRoom(r, after, length, screen, cursorLine);
    }
    if RotatesExactly(after, r, Max(screen, after.screenLines),
                      -G.ResizeDelta(length, screen, after.screenLines, cursorLine)) {
      forall q | after.Contains(q)
        ensures ResizeFollowsAt(ty, r, after, length, screen, cursorLine, q)
      {
        ResizeFollowsCell(ty, r, after, length, screen, cursorLine, q);
      }
    } else {
      var q := ResizeDiffers(ty, r, after, length, screen, cursorLine);
    }
  }

  // ----- The vi cursor -----

  /** Line of the vi cursor after scrolling up; the scrollback in view scrolls too when the region starts at line 0. */
  function ViScrolledUp(line: int, top: int, bottom: int, p: nat, offset: nat): int {
    var first := if top == 0 then -(offset as int) else top;
    if first <= line < bottom then Max(line - p, first) else line
  }

  /** Line of the vi cursor after scrolling down. */
  function ViScrolledDown(line: int, top: int, bottom: int, p: nat): int {
    if top <= line < bottom then Min(line + p, bottom - 1) else line
  }

  /** The cell that a cell shows after the part between `top` and `bottom` has moved up by `p` lines; None on the
      new blank lines. */
  function ShownFromUp(top: int, bottom: int, p: nat, q: Point): Option<Point> {
    if bottom <= q.line || (top != 0 && q.line < top) then Some(q)
    else if q.line < bottom - p then Some(Point(q.line + p, q.column))
    else None
  }

  lemma ScrolledUpShows(
    text: seq<G.Line>, screen: nat, columns: nat, top: int, bottom: int, p: nat, limit: nat, blank: G.Line, q: Point)
    requires IsText(text, screen, columns) && |blank| == columns && |text| - screen <= limit
    requires 0 <= top < bottom <= screen && p <= bottom - top && q.column < columns
    requires InText(G.ScrolledUp(text, screen, top, bottom, p, limit, blank), screen, q)
    ensures var moved := G.ScrolledUp(text, screen, top, bottom, p, limit, blank);
      var from := ShownFromUp(top, bottom, p, q);
      && IsText(moved, screen, columns) && (from.Some? ==> InText(text, screen, from.value))
      && CellAt(moved, screen, columns, q)
         == if from.Some? then CellAt(text, screen, columns, from.value) else blank[q.column]
  {
    ScrolledUpIsText(text, screen, columns, top, bottom, p, limit, blank);
  }

  /** The vi cursor stays on its text exactly if it need not stop at the edge of what scrolls; a cursor outside
      stays in any case. */
  lemma ViCursorFollowsTextIff(cursor: Point, top: int, bottom: int, p: nat, offset: nat)
    requires 0 <= top < bottom && 1 <= p <= bottom - top && (top == 0 ==> -(offset as int) <= cursor.line)
    ensures var first := if top == 0 then -(offset as int) else top;
      var after := Point(ViScrolledUp(cursor.line, top, bottom, p, offset), cursor.column);
      ShownFromUp(top, bottom, p, after) == Some(cursor)
      <==> !(first <= cursor.line < bottom) || first <= cursor.line - p
    ensures ShownFrom(top, bottom, p, Point(ViScrolledDown(cursor.line, top, bottom, p), cursor.column)) == Some(cursor)
       <==> !(top <= cursor.line < bottom) || cursor.line + p < bottom
  {
  }

  /** The part of the terminal that scrolling updates: grid, selection, vi cursor and scrolling region. */
  class Term {
    const grid: G.Grid
    const ty: SelectionType
    var selection: Option<Region>
    var viLine: int
    var regionTop: int
    var regionBottom: int

    ghost predicate Valid()
      reads this, grid, grid.raw
    {
      grid.Valid() && 0 <= regionTop < regionBottom <= grid.lines
    }

    ghost function Size(): Dimensions
      requires Valid()
      reads this, grid, grid.raw
    {
      DimensionsOf(grid.View(), grid.lines, grid.columns)
    }

    /** The selection after scrolling its part of the screen. */
    static function RotatedSelection(
      ty: SelectionType, selection: Option<Region>, d: Dimensions, top: int, bottom: int, delta: int): Option<Region>
      requires d.Valid()
    {
      if selection == None then None else Rotated(ty, selection.value, d, top, bottom, delta)
    }

    constructor (grid: G.Grid, ty: SelectionType)
      requires grid.Valid()
      ensures Valid() && this.grid == grid && this.ty == ty && selection == None
      ensures viLine == 0 && regionTop == 0 && regionBottom == grid.lines
    {
      this.grid, this.ty, selection, viLine, regionTop, regionBottom := grid, ty, None, 0, 0, grid.lines;
    }

    method RotateSelection(top: int, bottom: int, delta: int)
      requires Valid()
      modifies this`selection
      ensures Valid() && selection == RotatedSelection(ty, old(selection), old(Size()), top, bottom, delta)
    {
      var d := Dimensions(grid.columns, grid.lines, grid.raw.len);
      selection := RotatedSelection(ty, selection, d, top, bottom, delta);
    }

    method MoveCursorUp(top: int, bottom: int, p: nat)
      requires Valid()
      modifies this`viLine
      ensures Valid() && viLine == ViScrolledUp(old(viLine), top, bottom, p, grid.displayOffset)
    {
      var viewportTop := -(grid.displayOffset as int);
      var first := if top == 0 then viewportTop else top;
      if first <= viLine && bottom > viLine {
        viLine := Max(viLine - p, first);
      }
    }

    method MoveCursorDown(top: int, bottom: int, p: nat)
      requires Valid()
      modifies this`viLine
      ensures Valid() && viLine == ViScrolledDown(old(viLine), top, bottom, p)
    {
      if top <= viLine && bottom > viLine {
        viLine := Min(viLine + p, bottom - 1);
      }
    }

    method MoveTextUp(origin: int, p: nat)
      requires Valid() && regionTop <= origin < regionBottom && p <= regionBottom - regionTop
      modifies this`viLine, grid`displayOffset, grid.raw
      ensures Valid()
      ensures grid.View() == G.ScrolledUp(
        old(grid.View()), grid.lines, origin, regionBottom, p, grid.maxScrollLimit, grid.BlankLine())
      ensures grid.displayOffset
           == G.ScrolledOffset(old(grid.displayOffset), origin, regionBottom, p, grid.maxScrollLimit)
      ensures viLine == ViScrolledUp(old(viLine), origin, regionBottom, p, grid.displayOffset)
    {
      grid.ScrollUp(origin, regionBottom, p);
      MoveCursorUp(origin, regionBottom, p);
    }

    /** Text moves up by `p` lines; the selection and the vi cursor move with it. */
    method ScrollUpBy(origin: int, p: nat)
      requires Valid() && regionTop <= origin < regionBottom && p <= regionBottom - regionTop
      modifies this`selection, this`viLine, grid`displayOffset, grid.raw
      ensures Valid() && selection == RotatedSelection(ty, old(selection), old(Size()), origin, regionBottom, p)
      ensures grid.View() == G.ScrolledUp(
        old(grid.View()), grid.lines, origin, regionBottom, p, grid.maxScrollLimit, grid.BlankLine())
      ensures grid.displayOffset
           == G.ScrolledOffset(old(grid.displayOffset), origin, regionBottom, p, grid.maxScrollLimit)
      ensures viLine == ViScrolledUp(old(viLine), origin, regionBottom, p, grid.displayOffset)
    {
      RotateSelection(origin, regionBottom, p);
      MoveTextUp(origin, p);
    }

    /** Text moves up; the selection and the vi cursor move with it. */
    method ScrollUpRelative(origin: int, count: nat)
      requires Valid() && regionTop <= origin < regionBottom
      modifies this`selection, this`viLine, grid`displayOffset, grid.raw
      ensures Valid()
      ensures var p := Min(count, regionBottom - regionTop);
        && selection == RotatedSelection(ty, old(selection), old(Size()), origin, regionBottom, p)
        && grid.View() == G.ScrolledUp(
             old(grid.View()), grid.lines, origin, regionBottom, p, grid.maxScrollLimit, grid.BlankLine())
        && grid.displayOffset == G.ScrolledOffset(old(grid.displayOffset), origin, regionBottom, p, grid.maxScrollLimit)
        && viLine == ViScrolledUp(old(viLine), origin, regionBottom, p, grid.displayOffset)
    {
      var p := Min(count, regionBottom - regionTop);
      ScrollUpBy(origin, p);
    }

    method MoveTextDown(origin: int, p: nat)
      requires Valid() && regionTop <= origin < regionBottom
      modifies this`viLine, grid.raw
      ensures Valid()
      ensures grid.View() == G.ScrolledDown(old(grid.View()), grid.lines, origin, regionBottom, p, grid.BlankLine())
      ensures viLine == ViScrolledDown(old(viLine), origin, regionBottom, p)
    {
      MoveCursorDown(origin, regionBottom, p);
      grid.ScrollDown(origin, regionBottom, p);
    }

    /** Text moves down; the selection and the vi cursor move with it. */
    method ScrollDownRelative(origin: int, count: nat)
      requires Valid() && regionTop <= origin < regionBottom
      modifies this`selection, this`viLine, grid.raw
      ensures Valid()
      ensures var p := Min(Min(count, regionBottom - regionTop), regionBottom - origin);
        && selection == RotatedSelection(ty, old(selection), old(Size()), origin, regionBottom, -p)
        && grid.View() == G.ScrolledDown(old(grid.View()), grid.lines, origin, regionBottom, p, grid.BlankLine())
        && viLine == ViScrolledDown(old(viLine), origin, regionBottom, p)
    {
      var p: int := Min(Min(count, regionBottom - regionTop), regionBottom - origin);
      RotateSelection(origin, regionBottom, -p);
      MoveTextDown(origin, p);
    }
  }
}
