/** Text selections: pairs of half-cell anchors, their scrolling and the cells they select. */
module Selection {
  import opened Common
  import opened Arith
  import opened Index

  datatype SelectionType = Simple | Block | Semantic | Lines

  /** A point and the half of its cell that the anchor is in. */
  datatype Anchor = Anchor(point: Point, side: Side)

  /** The two anchors in the order in which the user placed them. */
  datatype Region = Region(start: Anchor, end: Anchor)

  /** An inclusive range of selected cells. */
  datatype SelectionRange = SelectionRange(start: Point, end: Point, isBlock: bool) {
    predicate Contains(p: Point) {
      && start.line <= p.line
      && end.line >= p.line
      && (start.column <= p.column || (start.line != p.line && !isBlock))
      && (end.column >= p.column || (end.line != p.line && !isBlock))
    }
  }

  predicate Swapped(r: Region) { r.end.point.Before(r.start.point) }

  function Low(r: Region): Anchor { if Swapped(r) then r.end else r.start }

  function High(r: Region): Anchor { if Swapped(r) then r.start else r.end }

  /** The region with a given low and high anchor, placed in the same order as in `r`. */
  function Placed(r: Region, low: Anchor, high: Anchor): Region {
    if Swapped(r) then Region(high, low) else Region(low, high)
  }

  // ----- Scrolling -----

  predicate Scrolls(line: int, top: int, bottom: int) {
    (line >= top || top == 0) && line < bottom
  }

  function ToLine(a: Anchor, line: int): Anchor {
    Anchor(Point(line, a.point.column), a.side)
  }

  /** The region after its part of the screen scrolls up by `delta` lines, or None when it leaves that part. */
  function Rotated(ty: SelectionType, r: Region, d: Dimensions, top: int, bottom: int, delta: int): Option<Region>
    requires d.Valid()
  {
    var low, high := Low(r), High(r);
    var lowScrolls, highScrolls := Scrolls(low.point.line, top, bottom), Scrolls(high.point.line, top, bottom);
    var low1 := if lowScrolls then ToLine(low, Min(low.point.line - delta, d.BottommostLine())) else low;
    if lowScrolls && low1.point.line >= bottom && high.point.line < bottom then None
    else
      var low2 :=
        if lowScrolls && low1.point.line < top && top != 0 then
          if ty == Block then ToLine(low1, top) else Anchor(Point(top, 0), Left)
        else low1;
      var high1 := if highScrolls then ToLine(high, Min(high.point.line - delta, d.BottommostLine())) else high;
      if highScrolls && high1.point.line < low2.point.line then None
      else
        var high2 :=
          if highScrolls && high1.point.line >= bottom then
            if ty == Block then ToLine(high1, bottom - 1) else Anchor(Point(bottom - 1, d.LastColumn()), Right)
          else high1;
        Some(Placed(r, low2, high2))
  }

  // ----- Coverage -----

  /** Cell number with line 0 first; scrollback cells are negative. */
  function Cell(cols: nat, p: Point): int { p.line * cols + p.column }

  /** Number of the cell boundary next to an anchor: the left edge of its cell, or the right one. */
  function Edge(cols: nat, a: Anchor): int {
    Cell(cols, a.point) + if a.side == Right then 1 else 0
  }

  /** The cells that lie completely between the two anchors. */
  predicate Covers(cols: nat, r: Region, p: Point) {
    var a, b := Edge(cols, r.start), Edge(cols, r.end);
    Min(a, b) <= Cell(cols, p) < Max(a, b)
  }

  /** Coverage of an optional region; None is the empty set. */
  predicate OptionCovers(cols: nat, r: Option<Region>, p: Point) {
    r.Some? && Covers(cols, r.value, p)
  }

  predicate InColumns(d: Dimensions, r: Region) {
    r.start.point.column < d.columns && r.end.point.column < d.columns
  }

  /** A line lies between the edges of its first and its last cell. */
  lemma EdgeBounds(cols: nat, a: Anchor)
    requires a.point.column < cols
    ensures a.point.line * cols <= Edge(cols, a) <= (a.point.line + 1) * cols
    ensures a.point.line * cols <= Cell(cols, a.point) < (a.point.line + 1) * cols
  {
    assert (a.point.line + 1) * cols == a.point.line * cols + cols;
  }

  /** Moving an anchor by lines moves its edge by whole rows. */
  lemma EdgeShift(cols: nat, a: Anchor, line: int, delta: int)
    requires line == a.point.line - delta
    ensures Edge(cols, ToLine(a, line)) == Edge(cols, a) - delta * cols
  {
    assert (a.point.line - delta) * cols == a.point.line * cols - delta * cols;
  }

  /** Whether a cell is above a line can be read off its number. */
  lemma CellAbove(cols: nat, p: Point, line: int)
    requires p.column < cols
    ensures p.line < line <==> Cell(cols, p) < line * cols
  {
    EdgeBounds(cols, Anchor(p, Left));
    if p.line < line {
      MulMonotone(p.line + 1, line, cols);
    } else {
      MulMonotone(line, p.line, cols);
    }
  }

  /** An anchor above a line has its edge there at the latest, any other anchor there at the earliest. */
  lemma EdgeAbove(cols: nat, a: Anchor, line: int)
    requires a.point.column < cols
    ensures a.point.line < line ==> Edge(cols, a) <= line * cols
    ensures a.point.line >= line ==> Edge(cols, a) >= line * cols
  {
    EdgeBounds(cols, a);
    if a.point.line < line {
      MulMonotone(a.point.line + 1, line, cols);
    } else {
      MulMonotone(line, a.point.line, cols);
    }
  }

  /** An interval cut off at both ends holds the numbers that are in it and between the cuts. */
  lemma ClipInterval(a: int, b: int, cutTop: bool, top: int, bottom: int, x: int)
    requires a <= b || (a == b + 1 && (cutTop ==> top <= b) && a <= bottom)
    requires a <= bottom && (cutTop ==> top <= b && top <= bottom)
    ensures var low, high := if cutTop then Max(top, a) else a, Min(bottom, b);
      Min(low, high) <= x < Max(low, high)
      <==> (cutTop ==> top <= x) && x < bottom && Min(a, b) <= x < Max(a, b)
  {
  }

  /** The region's anchors are both in the scrolled part, or above its bottom when it starts at the first line. */
  predicate InScrolledPart(r: Region, top: int, bottom: int) {
    Scrolls(r.start.point.line, top, bottom) && Scrolls(r.end.point.line, top, bottom)
  }

  /** What scrolling should leave selected: the cells moved by `delta` lines, cut off at the scrolled part. */
  predicate ShiftedAndClipped(cols: nat, r: Region, top: int, bottom: int, delta: int, p: Point) {
    && (top == 0 || top <= p.line) && p.line < bottom
    && Covers(cols, r, Point(p.line + delta, p.column))
  }

  /** The column boundary next to an anchor. */
  function EdgeColumn(a: Anchor): nat {
    a.point.column + if a.side == Right then 1 else 0
  }

  /** The high anchor would leave the screen at the bottom, in a scrolled part that reaches there: the branch that
      clamps to the last screen line hides that from the branches that clip. */
  predicate Overshoots(d: Dimensions, r: Region, bottom: int, delta: int) {
    bottom >= d.screenLines && High(r).point.line - delta >= d.screenLines
  }

  /** When scrolling is exact, in terms of the anchors before the call. */
  predicate RotatesExactly(d: Dimensions, r: Region, bottom: int, delta: int) {
    Overshoots(d, r, bottom, delta) ==>
      if Low(r).point.line - delta < d.screenLines then EdgeColumn(High(r)) == d.columns
      else EdgeColumn(Low(r)) == EdgeColumn(High(r))
  }

  /** Coverage by the low and the high anchor's edges. */
  lemma CoversByEdges(cols: nat, r: Region, low: Anchor, high: Anchor, p: Point)
    requires (low == r.start && high == r.end) || (low == r.end && high == r.start)
    ensures var a, b := Edge(cols, low), Edge(cols, high);
      Covers(cols, r, p) <==> Min(a, b) <= Cell(cols, p) < Max(a, b)
  {
  }

  /** The shifted region's coverage, on cell numbers. */
  lemma ShiftedCovers(cols: nat, r: Region, delta: int, p: Point)
    ensures var a, b := Edge(cols, Low(r)) - delta * cols, Edge(cols, High(r)) - delta * cols;
      Covers(cols, r, Point(p.line + delta, p.column)) <==> Min(a, b) <= Cell(cols, p) < Max(a, b)
  {
    assert (p.line + delta) * cols == p.line * cols + delta * cols;
    CoversByEdges(cols, r, Low(r), High(r), Point(p.line + delta, p.column));
  }

  /** The low anchor moved up by `delta` lines and cut off at the top of the scrolled part. */
  function ClippedLow(r: Region, top: int, delta: int): Anchor {
    var line := Low(r).point.line - delta;
    if top != 0 && line < top then Anchor(Point(top, 0), Left) else ToLine(Low(r), line)
  }

  /** The high anchor moved up by `delta` lines and cut off at the bottom of the scrolled part. */
  function ClippedHigh(d: Dimensions, r: Region, bottom: int, delta: int): Anchor
    requires d.Valid()
  {
    var line := High(r).point.line - delta;
    if line >= bottom then Anchor(Point(bottom - 1, d.LastColumn()), Right) else ToLine(High(r), line)
  }

  /** The branches of scrolling, by where the two anchors go. */
  lemma RotatedCases(ty: SelectionType, r: Region, d: Dimensions, top: int, bottom: int, delta: int)
    requires d.Valid() && ty != Block
    requires 0 <= top < bottom && InScrolledPart(r, top, bottom)
    requires !Overshoots(d, r, bottom, delta)
    ensures Low(r).point.line <= High(r).point.line
    ensures Rotated(ty, r, d, top, bottom, delta)
         == if Low(r).point.line - delta >= bottom || (top != 0 && High(r).point.line - delta < top) then None
            else Some(Placed(r, ClippedLow(r, top, delta), ClippedHigh(d, r, bottom, delta)))
  {
  }

  /** Edge of the clipped low anchor. */
  lemma ClippedLowEdge(cols: nat, r: Region, top: int, delta: int)
    requires Low(r).point.column < cols
    ensures var a := Edge(cols, Low(r)) - delta * cols;
      Edge(cols, ClippedLow(r, top, delta)) == if top == 0 then a else Max(top * cols, a)
  {
    var low := Low(r);
    EdgeShift(cols, low, low.point.line - delta, delta);
    EdgeBounds(cols, ToLine(low, low.point.line - delta));
    if low.point.line - delta < top {
      MulMonotone(low.point.line - delta + 1, top, cols);
    } else {
      MulMonotone(top, low.point.line - delta, cols);
    }
  }

  /** Edge of the clipped high anchor. */
  lemma ClippedHighEdge(d: Dimensions, r: Region, bottom: int, delta: int)
    requires d.Valid() && High(r).point.column < d.columns
    ensures Edge(d.columns, ClippedHigh(d, r, bottom, delta))
         == Min(bottom * d.columns, Edge(d.columns, High(r)) - delta * d.columns)
  {
    var cols, high := d.columns, High(r);
    EdgeShift(cols, high, high.point.line - delta, delta);
    EdgeBounds(cols, ToLine(high, high.point.line - delta));
    assert (bottom - 1) * cols == bottom * cols - cols;
    if high.point.line - delta < bottom {
      MulMonotone(high.point.line - delta + 1, bottom, cols);
    } else {
      MulMonotone(bottom, high.point.line - delta, cols);
    }
  }

  /** The anchors' edges are in the order of their points, but for a single cell entered from its right half. */
  lemma EdgesOrdered(cols: nat, r: Region)
    requires Low(r).point.column < cols && High(r).point.column < cols
    ensures Edge(cols, Low(r)) <= Edge(cols, High(r)) || Low(r).point == High(r).point
  {
    var low, high := Low(r).point, High(r).point;
    RowMajorOrder(low.line, low.column, high.line, high.column, cols);
  }

  /** Scrolling shifts and clips, at one cell, whenever the high anchor does not overshoot the screen. */
  lemma RotateAtCell(ty: SelectionType, r: Region, d: Dimensions, top: int, bottom: int, delta: int, p: Point)
    requires d.Valid() && ty != Block && InColumns(d, r) && p.column < d.columns
    requires 0 <= top < bottom && InScrolledPart(r, top, bottom)
    requires !Overshoots(d, r, bottom, delta)
    ensures OptionCovers(d.columns, Rotated(ty, r, d, top, bottom, delta), p)
       <==> ShiftedAndClipped(d.columns, r, top, bottom, delta, p)
  {
    var cols := d.columns;
    var low, high := ToLine(Low(r), Low(r).point.line - delta), ToLine(High(r), High(r).point.line - delta);
    RotatedCases(ty, r, d, top, bottom, delta);
    EdgeShift(cols, Low(r), low.point.line, delta);
    EdgeShift(cols, High(r), high.point.line, delta);
    ShiftedCovers(cols, r, delta, p);
    CellAbove(cols, p, top);
    CellAbove(cols, p, bottom);
    EdgeAbove(cols, low, top);
    EdgeAbove(cols, low, bottom);
    EdgeAbove(cols, high, top);
    EdgeAbove(cols, high, bottom);
    if low.point.line < bottom && (top == 0 || top <= high.point.line) {
      EdgesOrdered(cols, r);
      MulMonotone(top, bottom, cols);
      ClippedLowEdge(cols, r, top, delta);
      ClippedHighEdge(d, r, bottom, delta);
      ClipInterval(Edge(cols, low), Edge(cols, high), top != 0, top * cols, bottom * cols, Cell(cols, p));
    }
  }

  /** The anchors of a selection that overshoots the screen. */
  lemma OvershootRegion(ty: SelectionType, r: Region, d: Dimensions, top: int, bottom: int, delta: int)
    requires d.Valid() && ty != Block
    requires 0 <= top < bottom && top < d.screenLines && InScrolledPart(r, top, bottom)
    requires Overshoots(d, r, bottom, delta)
    ensures Rotated(ty, r, d, top, bottom, delta)
         == Some(Placed(r, StoppedLow(d, r, top, delta), ToLine(High(r), d.screenLines - 1)))
  {
  }

  /** The low anchor of an overshooting region after scrolling. */
  function StoppedLow(d: Dimensions, r: Region, top: int, delta: int): Anchor {
    if Low(r).point.line - delta < d.screenLines then ClippedLow(r, top, delta)
    else ToLine(Low(r), d.screenLines - 1)
  }

  /** When the high anchor overshoots the screen, it stops on the last line instead of being clipped. */
  lemma OvershootCovers(ty: SelectionType, r: Region, d: Dimensions, top: int, bottom: int, delta: int, p: Point)
    requires d.Valid() && ty != Block && InColumns(d, r) && p.column < d.columns
    requires 0 <= top < bottom && top < d.screenLines && InScrolledPart(r, top, bottom)
    requires Overshoots(d, r, bottom, delta)
    ensures var low := Edge(d.columns, StoppedLow(d, r, top, delta));
      var high := (d.screenLines - 1) * d.columns + EdgeColumn(High(r));
      OptionCovers(d.columns, Rotated(ty, r, d, top, bottom, delta), p)
      <==> Min(low, high) <= Cell(d.columns, p) < Max(low, high)
  {
    OvershootRegion(ty, r, d, top, bottom, delta);
  }

  /** What should be covered on the screen: everything from the shifted and clipped low anchor on. */
  lemma OvershootExpected(r: Region, d: Dimensions, top: int, bottom: int, delta: int, p: Point)
    requires d.Valid() && InColumns(d, r) && p.column < d.columns && p.line < d.screenLines
    requires 0 <= top < bottom && top < d.screenLines && InScrolledPart(r, top, bottom)
    requires Overshoots(d, r, bottom, delta)
    ensures var low := Edge(d.columns, StoppedLow(d, r, top, delta));
      var stays := Low(r).point.line - delta < d.screenLines;
      && Cell(d.columns, p) < d.screenLines * d.columns && (stays ==> low <= d.screenLines * d.columns)
      && (ShiftedAndClipped(d.columns, r, top, bottom, delta, p) <==> stays && low <= Cell(d.columns, p))
  {
    var cols := d.columns;
    var low, high := ToLine(Low(r), Low(r).point.line - delta), ToLine(High(r), High(r).point.line - delta);
    EdgeShift(cols, Low(r), low.point.line, delta);
    EdgeShift(cols, High(r), high.point.line, delta);
    ClippedLowEdge(cols, r, top, delta);
    ShiftedCovers(cols, r, delta, p);
    CellAbove(cols, p, top);
    CellAbove(cols, p, d.screenLines);
    EdgeAbove(cols, low, d.screenLines);
    EdgeAbove(cols, high, d.screenLines);
    MulMonotone(top, d.screenLines, cols);
  }

  /** Exact scrolling, at one cell above the end of the screen. */
  lemma RotateExactAtCell(ty: SelectionType, r: Region, d: Dimensions, top: int, bottom: int, delta: int, p: Point)
    requires d.Valid() && ty != Block && InColumns(d, r) && p.column < d.columns && p.line < d.screenLines
    requires 0 <= top < bottom && top < d.screenLines && InScrolledPart(r, top, bottom)
    requires RotatesExactly(d, r, bottom, delta)
    ensures OptionCovers(d.columns, Rotated(ty, r, d, top, bottom, delta), p)
       <==> ShiftedAndClipped(d.columns, r, top, bottom, delta, p)
  {
    if Overshoots(d, r, bottom, delta) {
      RowSplit(d.screenLines, d.columns);
      OvershootCovers(ty, r, d, top, bottom, delta, p);
      OvershootExpected(r, d, top, bottom, delta, p);
    } else {
      RotateAtCell(ty, r, d, top, bottom, delta, p);
    }
  }

  /** Main result: scrolling a non-block selection shifts and clips its cells exactly when the selection does
      not overshoot the screen, or overshoots it without changing columns. */
  lemma RotateShiftsAndClips(ty: SelectionType, r: Region, d: Dimensions, top: int, bottom: int, delta: int)
    requires d.Valid() && ty != Block && InColumns(d, r)
    requires 0 <= top < bottom && top < d.screenLines && InScrolledPart(r, top, bottom)
    ensures RotatesExactly(d, r, bottom, delta)
       <==> forall p :: d.Contains(p) ==>
              (OptionCovers(d.columns, Rotated(ty, r, d, top, bottom, delta), p)
               <==> ShiftedAndClipped(d.columns, r, top, bottom, delta, p))
  {
    if RotatesExactly(d, r, bottom, delta) {
      forall p | d.Contains(p)
        ensures OptionCovers(d.columns, Rotated(ty, r, d, top, bottom, delta), p)
           <==> ShiftedAndClipped(d.columns, r, top, bottom, delta, p)
      {
        RotateExactAtCell(ty, r, d, top, bottom, delta, p);
      }
    } else {
      var p := OvershootWitness(ty, r, d, top, bottom, delta);
    }
  }

  lemma RowSplit(bottom: int, cols: nat)
    ensures (bottom - 1) * cols + cols == bottom * cols
  {
  }

  /** A cell on the last line that is selected wrongly when the exactness condition fails. */
  lemma OvershootWitness(ty: SelectionType, r: Region, d: Dimensions, top: int, bottom: int, delta: int)
    returns (p: Point)
    requires d.Valid() && ty != Block && InColumns(d, r)
    requires 0 <= top < bottom && top < d.screenLines && InScrolledPart(r, top, bottom)
    requires !RotatesExactly(d, r, bottom, delta)
    ensures d.Contains(p) && p.line == d.screenLines - 1
    ensures OptionCovers(d.columns, Rotated(ty, r, d, top, bottom, delta), p)
         != ShiftedAndClipped(d.columns, r, top, bottom, delta, p)
  {
    RowSplit(d.screenLines, d.columns);
    if Low(r).point.line - delta < d.screenLines {
      p := Point(d.screenLines - 1, d.columns - 1);
      OvershootCovers(ty, r, d, top, bottom, delta, p);
      OvershootExpected(r, d, top, bottom, delta, p);
    } else {
      p := Point(d.screenLines - 1, Min(EdgeColumn(Low(r)), EdgeColumn(High(r))));
      OvershootCovers(ty, r, d, top, bottom, delta, p);
      OvershootExpected(r, d, top, bottom, delta, p);
      assert Edge(d.columns, StoppedLow(d, r, top, delta)) == (d.screenLines - 1) * d.columns + EdgeColumn(Low(r));
    }
  }

  // ----- Block selections -----

  /** A block keeps its columns and sides; its rows are shifted and cut off at the scrolled part, unless they pass a
      part that ends with the screen. */
  lemma BlockRotates(r: Region, d: Dimensions, top: int, bottom: int, delta: int, line: int)
    requires d.Valid() && 0 <= top < bottom <= d.screenLines && InScrolledPart(r, top, bottom)
    requires !Overshoots(d, r, bottom, delta)
    ensures var after := Rotated(Block, r, d, top, bottom, delta);
      && (after.Some? ==>
          && after.value.start == ToLine(r.start, after.value.start.point.line)
          && after.value.end == ToLine(r.end, after.value.end.point.line))
      && (after.Some? && RowsHave(after.value, line)
          <==> (top == 0 || top <= line) && line < bottom && RowsHave(r, line + delta))
  {
  }

  /** A block is empty exactly if its anchors are next to the same column boundary; only simple and block selections
      can be empty. */
  lemma EmptyIff(r: Region)
    ensures IsEmpty(Block, r) <==> EdgeColumn(r.start) == EdgeColumn(r.end)
    ensures !IsEmpty(Semantic, r) && !IsEmpty(Lines, r)
  {
  }

  /** A block range holds the cells of a rectangle. */
  lemma BlockContains(start: Point, end: Point, p: Point)
    ensures SelectionRange(start, end, true).Contains(p)
       <==> start.line <= p.line <= end.line && start.column <= p.column <= end.column
  {
  }

  /** With all cells included, a block reaches from the left of its leftmost column to the right of its rightmost. */
  lemma AllIncludedBlock(r: Region)
    ensures var b := AllIncluded(Block, r);
      && b.start.point == r.start.point && b.end.point == r.end.point
      && Min(EdgeColumn(b.start), EdgeColumn(b.end)) == Min(r.start.point.column, r.end.point.column)
      && Max(EdgeColumn(b.start), EdgeColumn(b.end)) == Max(r.start.point.column, r.end.point.column) + 1
  {
  }

  /** A line between the two anchors. */
  predicate RowsHave(r: Region, line: int) {
    || r.start.point.line <= line <= r.end.point.line
    || r.end.point.line <= line <= r.start.point.line
  }

  // ----- The selected range -----

  predicate IsEmpty(ty: SelectionType, r: Region) {
    match ty
    case Simple =>
      var low, high := Low(r), High(r);
      || low == high
      || (low.side == Right && high.side == Left && low.point.line == high.point.line
          && low.point.column + 1 == high.point.column)
    case Block =>
      var a, b := r.start, r.end;
      || (a.point.column == b.point.column && a.side == b.side)
      || (a.point.column + 1 == b.point.column && a.side == Right && b.side == Left)
      || (b.point.column + 1 == a.point.column && a.side == Left && b.side == Right)
    case _ => false
  }

  /** The first and the last selected cell. */
  function FirstSelected(start: Anchor, last: Point, columns: nat): Point {
    if start.side == Right && start.point != last then
      if start.point.column + 1 == columns then Point(start.point.line + 1, 0)
      else Point(start.point.line, start.point.column + 1)
    else start.point
  }

  function LastSelected(start: Anchor, end: Anchor, columns: nat): Point
    requires columns >= 1
  {
    if end.side == Left && start.point != end.point then
      if end.point.column == 0 then Point(end.point.line - 1, columns - 1)
      else Point(end.point.line, end.point.column - 1)
    else end.point
  }

  /** The range of a simple selection between two ordered, clamped anchors. */
  function RangeSimple(r: Region, start: Anchor, end: Anchor, columns: nat): Option<SelectionRange>
    requires columns >= 1
  {
    if IsEmpty(Simple, r) then None
    else
      var last := LastSelected(start, end, columns);
      Some(SelectionRange(FirstSelected(start, last, columns), last, false))
  }

  /** The cells of the grid that a simple selection selects. */
  function ToRangeSimple(d: Dimensions, r: Region): Option<SelectionRange>
    requires d.Valid()
  {
    var low, high := Low(r), High(r);
    if high.point.line < d.TopmostLine() then None
    else
      RangeSimple(r,
                  Anchor(ClampPoint(d, WholeGrid, low.point), low.side),
                  Anchor(ClampPoint(d, WholeGrid, high.point), high.side),
                  d.columns)
  }

  predicate RangeContains(range: Option<SelectionRange>, p: Point) {
    range.Some? && range.value.Contains(p)
  }

  /** Two anchors on either side of a line break, with nothing between them. */
  predicate MeetAtLineBreak(d: Dimensions, r: Region)
    requires d.Valid()
  {
    var low, high := Low(r), High(r);
    && low.side == Right && high.side == Left
    && low.point.column == d.LastColumn() && high.point.column == 0 && high.point.line == low.point.line + 1
  }

  /** When the selected range is exact, in terms of the anchors: the low anchor may have scrolled out of the grid. */
  predicate RangeIsExact(d: Dimensions, r: Region)
    requires d.Valid()
  {
    var low, high := Low(r), High(r);
    var selected := Edge(d.columns, high) - d.TopmostLine() * d.columns;
    if high.point.line < d.TopmostLine() then true
    else if low.point.line < d.TopmostLine() then selected == 1 || (selected >= 2 && low.side == Left)
    else !MeetAtLineBreak(d, r)
  }

  /** The cell before the high anchor's edge. */
  lemma LastSelectedCell(cols: nat, start: Anchor, end: Anchor)
    requires cols >= 1 && end.point.column < cols
    requires end.side == Right || start.point != end.point
    ensures LastSelected(start, end, cols).column < cols
    ensures Cell(cols, LastSelected(start, end, cols)) == Edge(cols, end) - 1
  {
    assert (end.point.line - 1) * cols == end.point.line * cols - cols;
  }

  /** The cell after the low anchor's edge. */
  lemma FirstSelectedCell(cols: nat, start: Anchor, last: Point)
    requires cols >= 1 && start.point.column < cols
    requires start.side == Left || start.point != last
    ensures FirstSelected(start, last, cols).column < cols
    ensures Cell(cols, FirstSelected(start, last, cols)) == Edge(cols, start)
  {
    assert (start.point.line + 1) * cols == start.point.line * cols + cols;
  }

  /** A range holds the cells whose numbers are between those of its ends. */
  lemma ContainsByCells(cols: nat, first: Point, last: Point, p: Point)
    requires first.column < cols && last.column < cols && p.column < cols
    requires Cell(cols, first) <= Cell(cols, last)
    ensures SelectionRange(first, last, false).Contains(p)
       <==> Cell(cols, first) <= Cell(cols, p) <= Cell(cols, last)
  {
    RowMajorOrder(first.line, first.column, last.line, last.column, cols);
    RowMajorOrder(first.line, first.column, p.line, p.column, cols);
    RowMajorOrder(p.line, p.column, last.line, last.column, cols);
  }

  /** Anchors of different cells whose edges coincide are on the two sides of one cell boundary. */
  lemma EdgesMeet(cols: nat, low: Anchor, high: Anchor)
    requires low.point.column < cols && high.point.column < cols && low.point.Before(high.point)
    ensures Edge(cols, low) <= Edge(cols, high)
    ensures Edge(cols, low) == Edge(cols, high) <==>
      && low.side == Right && high.side == Left
      && (if low.point.column + 1 == cols then high.point == Point(low.point.line + 1, 0)
          else high.point == Point(low.point.line, low.point.column + 1))
  {
    RowMajorOrder(low.point.line, low.point.column, high.point.line, high.point.column, cols);
    assert (low.point.line + 1) * cols == low.point.line * cols + cols;
    if low.point.column + 1 < cols {
      RowMajorOrder(low.point.line, low.point.column + 1, high.point.line, high.point.column, cols);
    } else {
      RowMajorOrder(low.point.line + 1, 0, high.point.line, high.point.column, cols);
    }
  }

  /** Anchors in different cells select the cells between their edges. */
  lemma RangeBetween(d: Dimensions, r: Region, p: Point)
    requires d.Valid() && d.Contains(r.start.point) && d.Contains(r.end.point) && d.Contains(p)
    requires Low(r).point != High(r).point && !MeetAtLineBreak(d, r)
    ensures Edge(d.columns, Low(r)) <= Edge(d.columns, High(r))
    ensures RangeContains(ToRangeSimple(d, r), p)
       <==> Edge(d.columns, Low(r)) <= Cell(d.columns, p) < Edge(d.columns, High(r))
  {
    var cols, low, high := d.columns, Low(r), High(r);
    var last := LastSelected(low, high, cols);
    EdgesMeet(cols, low, high);
    LastSelectedCell(cols, low, high);
    if !IsEmpty(Simple, r) {
      FirstSelectedCell(cols, low, last);
      ContainsByCells(cols, FirstSelected(low, last, cols), last, p);
    }
  }

  /** Both anchors in the grid: the selected range is what the anchors cover, except at a line break. */
  lemma RangeInGrid(d: Dimensions, r: Region, p: Point)
    requires d.Valid() && d.Contains(r.start.point) && d.Contains(r.end.point) && d.Contains(p)
    requires !MeetAtLineBreak(d, r)
    ensures RangeContains(ToRangeSimple(d, r), p) <==> Covers(d.columns, r, p)
  {
    var low, high := Low(r), High(r);
    CoversByEdges(d.columns, r, low, high, p);
    if low.point != high.point {
      RangeBetween(d, r, p);
    } else {
      RowMajorOrder(p.line, p.column, low.point.line, low.point.column, d.columns);
    }
  }

  /** The low anchor above the grid: what the selected range is, and what the anchors cover. */
  lemma RangeFromAbove(d: Dimensions, r: Region, p: Point)
    requires d.Valid() && InColumns(d, r) && d.Contains(p)
    requires Low(r).point.line < d.TopmostLine() && d.Contains(High(r).point)
    ensures var cols, x := d.columns, Cell(d.columns, p);
      var first, end := d.TopmostLine() * cols, Edge(cols, High(r));
      var skipped := if Low(r).side == Right && end > first + 1 then 1 else 0;
      && first <= end && first <= x
      && (Covers(cols, r, p) <==> x < end)
      && (RangeContains(ToRangeSimple(d, r), p) <==> first + skipped <= x <= Max(first, end - 1))
  {
    var cols, high := d.columns, High(r);
    var low := Anchor(Point(d.TopmostLine(), 0), Low(r).side);
    var last := LastSelected(low, high, cols);
    var first := FirstSelected(low, last, cols);
    EdgeAbove(cols, Low(r), d.TopmostLine());
    EdgeAbove(cols, high, d.TopmostLine());
    CellAbove(cols, p, d.TopmostLine());
    CoversByEdges(cols, r, Low(r), high, p);
    RowMajorOrder(low.point.line, low.point.column, high.point.line, high.point.column, cols);
    if low.point != high.point || high.side == Right {
      LastSelectedCell(cols, low, high);
    }
    RowMajorOrder(low.point.line, low.point.column, last.line, last.column, cols);
    if low.side == Left || low.point != last {
      FirstSelectedCell(cols, low, last);
    }
    ContainsByCells(cols, first, last, p);
  }

  /** The first cell of the grid is selected wrongly when a low anchor above the grid is not exact. */
  lemma FromAboveWitness(d: Dimensions, r: Region)
    requires d.Valid() && InColumns(d, r) && !RangeIsExact(d, r)
    requires Low(r).point.line < d.TopmostLine() && d.Contains(High(r).point)
    ensures var p := Point(d.TopmostLine(), 0);
      d.Contains(p) && RangeContains(ToRangeSimple(d, r), p) != Covers(d.columns, r, p)
  {
    RangeFromAbove(d, r, Point(d.TopmostLine(), 0));
  }

  /** The cell before a line break is selected although the anchors on either side of the break cover nothing. */
  lemma LineBreakWitness(d: Dimensions, r: Region)
    requires d.Valid() && d.Contains(r.start.point) && d.Contains(r.end.point) && MeetAtLineBreak(d, r)
    ensures RangeContains(ToRangeSimple(d, r), Low(r).point) && !Covers(d.columns, r, Low(r).point)
  {
    EdgesMeet(d.columns, Low(r), High(r));
    CoversByEdges(d.columns, r, Low(r), High(r), Low(r).point);
  }

  /** A selection that ends above the grid covers none of its cells. */
  lemma AllAboveGrid(d: Dimensions, r: Region, p: Point)
    requires d.Valid() && InColumns(d, r) && d.Contains(p) && High(r).point.line < d.TopmostLine()
    ensures !Covers(d.columns, r, p)
  {
    EdgeAbove(d.columns, Low(r), d.TopmostLine());
    EdgeAbove(d.columns, High(r), d.TopmostLine());
    CellAbove(d.columns, p, d.TopmostLine());
    CoversByEdges(d.columns, r, Low(r), High(r), p);
  }

  /** Main result: the selected range is, cell for cell, what the anchors cover exactly under `RangeIsExact`. */
  lemma ToRangeExact(d: Dimensions, r: Region)
    requires d.Valid() && InColumns(d, r)
    requires r.start.point.line <= d.BottommostLine() && r.end.point.line <= d.BottommostLine()
    ensures RangeIsExact(d, r)
       <==> forall p :: d.Contains(p) ==> (RangeContains(ToRangeSimple(d, r), p) <==> Covers(d.columns, r, p))
  {
    if RangeIsExact(d, r) {
      forall p | d.Contains(p)
        ensures RangeContains(ToRangeSimple(d, r), p) <==> Covers(d.columns, r, p)
      {
        if High(r).point.line < d.TopmostLine() {
          AllAboveGrid(d, r, p);
        } else if Low(r).point.line < d.TopmostLine() {
          RangeFromAbove(d, r, p);
        } else {
          RangeInGrid(d, r, p);
        }
      }
    } else if Low(r).point.line < d.TopmostLine() {
      FromAboveWitness(d, r);
    } else {
      LineBreakWitness(d, r);
    }
  }

  /** A range that is given at all holds a cell of the grid. */
  lemma SomeRangeNotEmpty(d: Dimensions, r: Region) returns (p: Point)
    requires d.Valid() && InColumns(d, r) && ToRangeSimple(d, r).Some? && RangeIsExact(d, r)
    requires r.start.point.line <= d.BottommostLine() && r.end.point.line <= d.BottommostLine()
    ensures d.Contains(p) && RangeContains(ToRangeSimple(d, r), p)
  {
    var cols, low, high := d.columns, Low(r), High(r);
    if low.point.line < d.TopmostLine() {
      p := high.point;
      if high.side == Left && high.point != Point(d.TopmostLine(), 0) {
        p := LastSelected(Anchor(Point(d.TopmostLine(), 0), low.side), high, cols);
      }
      assert d.Contains(p);
      RangeFromAbove(d, r, p);
      LastSelectedCell(cols, Anchor(Point(d.TopmostLine(), 0), low.side), high);
    } else if low.point == high.point {
      p := low.point;
    } else {
      p := LastSelected(low, high, cols);
      EdgesMeet(cols, low, high);
      LastSelectedCell(cols, low, high);
      RangeInGrid(d, r, p);
      CoversByEdges(cols, r, low, high, p);
    }
  }

  /** No range is given exactly when the anchors cover no cell of the grid. */
  lemma NoRangeIffNothingCovered(d: Dimensions, r: Region)
    requires d.Valid() && InColumns(d, r) && RangeIsExact(d, r)
    requires r.start.point.line <= d.BottommostLine() && r.end.point.line <= d.BottommostLine()
    ensures ToRangeSimple(d, r) == None <==> forall p :: d.Contains(p) ==> !Covers(d.columns, r, p)
  {
    ToRangeExact(d, r);
    if ToRangeSimple(d, r).Some? {
      var p := SomeRangeNotEmpty(d, r);
    }
  }

  /** The order in which the anchors were placed does not matter. */
  lemma PlacementOrderIrrelevant(d: Dimensions, a: Anchor, b: Anchor)
    requires d.Valid()
    ensures ToRangeSimple(d, Region(a, b)) == ToRangeSimple(d, Region(b, a))
  {
  }

  /** The anchors with their sides moved outward, so that both end cells are included. */
  function AllIncluded(ty: SelectionType, r: Region): Region {
    var a, b := r.start.point, r.end.point;
    var backwards :=
      if ty == Block then a.column > b.column || (a.column == b.column && a.line > b.line) else b.Before(a);
    if backwards then Region(Anchor(a, Right), Anchor(b, Left)) else Region(Anchor(a, Left), Anchor(b, Right))
  }

  /** With all cells included, a selection covers every cell from the lower point to the higher one. */
  lemma AllIncludedCovers(ty: SelectionType, r: Region, cols: nat, p: Point)
    requires ty != Block && r.start.point.column < cols && r.end.point.column < cols && p.column < cols
    ensures Covers(cols, AllIncluded(ty, r), p) <==> Low(r).point.AtMost(p) && p.AtMost(High(r).point)
  {
    var low, high := Low(r).point, High(r).point;
    RowMajorOrder(low.line, low.column, high.line, high.column, cols);
    RowMajorOrder(low.line, low.column, p.line, p.column, cols);
    RowMajorOrder(p.line, p.column, high.line, high.column, cols);
  }

  // ----- The selection that the terminal keeps -----

  class Selection {
    const ty: SelectionType
    var region: Region

    constructor (ty: SelectionType, location: Point, side: Side)
      ensures this.ty == ty && region == Region(Anchor(location, side), Anchor(location, side))
    {
      this.ty := ty;
      region := Region(Anchor(location, side), Anchor(location, side));
    }

    /** Move the end of the selection. */
    method Update(point: Point, side: Side)
      modifies this
      ensures region == old(region).(end := Anchor(point, side))
    {
      region := region.(end := Anchor(point, side));
    }

    method IncludeAll()
      modifies this
      ensures region == AllIncluded(ty, old(region))
    {
      var a, b := region.start.point, region.end.point;
      var startSide, endSide := Left, Right;
      if ty == Block {
        if a.column > b.column || (a.column == b.column && a.line > b.line) {
          startSide, endSide := Right, Left;
        }
      } else if b.Before(a) {
        startSide, endSide := Right, Left;
      }
      region := Region(Anchor(a, startSide), Anchor(b, endSide));
    }

    /** Scroll the selection in place; the caller drops it when it is not kept. */
    method Rotate(d: Dimensions, top: int, bottom: int, delta: int) returns (kept: bool)
      requires d.Valid()
      modifies this
      ensures kept <==> Rotated(ty, old(region), d, top, bottom, delta).Some?
      ensures kept ==> region == Rotated(ty, old(region), d, top, bottom, delta).value
    {
      var swapped := region.end.point.Before(region.start.point);
      var start, end := region.start, region.end;
      if swapped {
        start, end := end, start;
      }
      if (start.point.line >= top || top == 0) && start.point.line < bottom {
        start := ToLine(start, Min(start.point.line - delta, d.BottommostLine()));
        if start.point.line >= bottom && end.point.line < bottom {
          return false;
        }
        if start.point.line < top && top != 0 {
          start := if ty != Block then Anchor(Point(top, 0), Left) else ToLine(start, top);
        }
      }
      if (end.point.line >= top || top == 0) && end.point.line < bottom {
        end := ToLine(end, Min(end.point.line - delta, d.BottommostLine()));
        if end.point.line < start.point.line {
          return false;
        }
        if end.point.line >= bottom {
          end := if ty != Block then Anchor(Point(bottom - 1, d.LastColumn()), Right) else ToLine(end, bottom - 1);
        }
      }
      region := if swapped then Region(end, start) else Region(start, end);
      return true;
    }
  }
}
