/** Scrolling a part of the screen that only one end of a selection is in, or none. */
module SelectionAcross {
  import opened Common
  import opened Arith
  import opened Index
  import opened Selection

  /** What should be selected: a cell outside the scrolled part if it was, and a cell inside if the cell that moved
      there was. Nothing is asked of cells that are new in the scrolled part. */
  predicate KeptAt(ty: SelectionType, r: Region, d: Dimensions, top: int, bottom: int, delta: int, p: Point)
    requires d.Valid()
  {
    var inside := Scrolls(p.line, top, bottom);
    var from := if inside then Point(p.line + delta, p.column) else p;
    (inside && !Scrolls(from.line, top, bottom))
    || (OptionCovers(d.columns, Rotated(ty, r, d, top, bottom, delta), p) <==> Covers(d.columns, r, from))
  }

  ghost predicate KeptAll(ty: SelectionType, r: Region, d: Dimensions, top: int, bottom: int, delta: int)
    requires d.Valid()
  {
    forall p :: d.Contains(p) ==> KeptAt(ty, r, d, top, bottom, delta, p)
  }

  /** Coverage and its shift, on cell numbers. */
  lemma Numbers(cols: nat, r: Region, delta: int, p: Point)
    ensures var a, b := Edge(cols, Low(r)), Edge(cols, High(r));
      && (Covers(cols, r, p) <==> Min(a, b) <= Cell(cols, p) < Max(a, b))
      && (Covers(cols, r, Point(p.line + delta, p.column))
          <==> Min(a, b) <= Cell(cols, p) + delta * cols < Max(a, b))
  {
    CoversByEdges(cols, r, Low(r), High(r), p);
    CoversByEdges(cols, r, Low(r), High(r), Point(p.line + delta, p.column));
    assert (p.line + delta) * cols == p.line * cols + delta * cols;
  }

  /** Whether a cell, and the cell `delta` lines below it, is above a line can be read off its number. */
  lemma LineOf(cols: nat, p: Point, line: int, delta: int)
    requires p.column < cols
    ensures p.line < line <==> Cell(cols, p) < line * cols
    ensures p.line + delta < line <==> Cell(cols, p) + delta * cols < line * cols
  {
    CellAbove(cols, p, line);
    CellAbove(cols, Point(p.line + delta, p.column), line);
    assert (p.line + delta) * cols == p.line * cols + delta * cols;
  }

  /** Edge of an anchor on another line. */
  lemma MovedEdge(cols: nat, a: Anchor, line: int)
    requires a.point.column < cols
    ensures Edge(cols, ToLine(a, line)) == line * cols + EdgeColumn(a)
    ensures line * cols <= Edge(cols, ToLine(a, line)) <= line * cols + cols
  {
  }

  /** An anchor above a line is next to it only at the end of the line before. */
  lemma EdgeReaches(cols: nat, a: Anchor, line: int)
    requires a.point.column < cols && a.point.line < line
    ensures Edge(cols, a) <= line * cols
    ensures Edge(cols, a) == line * cols <==> a.point.line == line - 1 && EdgeColumn(a) == cols
  {
    EdgeBounds(cols, a);
    RowSplit(line, cols);
    if a.point.line < line - 1 {
      MulMonotone(a.point.line + 1, line - 1, cols);
    }
  }

  // ----- No end in the scrolled part -----

  lemma NeitherScrolls(ty: SelectionType, r: Region, d: Dimensions, top: int, bottom: int, delta: int, p: Point)
    requires d.Valid() && InColumns(d, r) && 0 <= top < bottom && p.column < d.columns
    requires !Scrolls(Low(r).point.line, top, bottom) && !Scrolls(High(r).point.line, top, bottom)
    ensures Rotated(ty, r, d, top, bottom, delta) == Some(r)
    ensures KeptAt(ty, r, d, top, bottom, delta, p)
  {
    var cols := d.columns;
    Numbers(cols, r, delta, p);
    LineOf(cols, p, top, delta);
    LineOf(cols, p, bottom, delta);
    EdgeAbove(cols, Low(r), top);
    EdgeAbove(cols, High(r), top);
    EdgeAbove(cols, Low(r), bottom);
    EdgeAbove(cols, High(r), bottom);
  }

  // ----- The low end in the scrolled part, the high end below it -----

  /** Line of the low anchor after scrolling, before it is clipped. */
  function LowLine(d: Dimensions, r: Region, delta: int): int {
    Min(Low(r).point.line - delta, d.screenLines - 1)
  }

  /** The low anchor after scrolling. */
  function NewLow(d: Dimensions, r: Region, top: int, delta: int): Anchor {
    var line := LowLine(d, r, delta);
    if line < top && top != 0 then Anchor(Point(top, 0), Left) else ToLine(Low(r), line)
  }

  /** The low anchor does not pass cells below the scrolled part, which do not move. */
  predicate AcrossBottomExact(d: Dimensions, r: Region, bottom: int, delta: int) {
    var line := LowLine(d, r, delta);
    line < bottom || (line == bottom && EdgeColumn(Low(r)) == 0)
  }

  lemma AcrossBottomCovers(ty: SelectionType, r: Region, d: Dimensions, top: int, bottom: int, delta: int, p: Point)
    requires d.Valid() && ty != Block && 0 <= top < bottom
    requires Scrolls(Low(r).point.line, top, bottom) && bottom <= High(r).point.line
    ensures var a, b := Edge(d.columns, NewLow(d, r, top, delta)), Edge(d.columns, High(r));
      OptionCovers(d.columns, Rotated(ty, r, d, top, bottom, delta), p)
      <==> Min(a, b) <= Cell(d.columns, p) < Max(a, b)
  {
  }

  /** Where the low anchor's new edge is. */
  lemma NewLowEdge(d: Dimensions, r: Region, top: int, bottom: int, delta: int)
    requires d.Valid() && Low(r).point.column < d.columns && 0 <= top < bottom < d.screenLines
    ensures var a := Edge(d.columns, NewLow(d, r, top, delta));
      var moved := Edge(d.columns, Low(r)) - delta * d.columns;
      && (LowLine(d, r, delta) < bottom ==>
          a <= bottom * d.columns && a == if top == 0 then moved else Max(top * d.columns, moved))
      && (LowLine(d, r, delta) >= bottom ==> bottom * d.columns <= moved && bottom * d.columns <= a)
      && (AcrossBottomExact(d, r, bottom, delta) <==> a <= bottom * d.columns)
  {
    var cols, low, line := d.columns, Low(r), LowLine(d, r, delta);
    MovedEdge(cols, low, line);
    EdgeAbove(cols, ToLine(low, line), bottom);
    EdgeAbove(cols, ToLine(low, low.point.line - delta), bottom);
    EdgeAbove(cols, ToLine(low, low.point.line - delta), top);
    EdgeShift(cols, low, low.point.line - delta, delta);
    MulMonotone(top, bottom, cols);
    if line > bottom {
      MulMonotone(bottom + 1, line, cols);
      assert (bottom + 1) * cols == bottom * cols + cols;
    }
  }

  /** Inside the scrolled part all is well. */
  lemma AcrossBottomInside(ty: SelectionType, r: Region, d: Dimensions, top: int, bottom: int, delta: int, p: Point)
    requires d.Valid() && ty != Block && InColumns(d, r) && 0 <= top < bottom < d.screenLines && p.column < d.columns
    requires Scrolls(Low(r).point.line, top, bottom) && bottom <= High(r).point.line
    requires AcrossBottomExact(d, r, bottom, delta)
    ensures KeptAt(ty, r, d, top, bottom, delta, p)
  {
    var cols := d.columns;
    AcrossBottomCovers(ty, r, d, top, bottom, delta, p);
    NewLowEdge(d, r, top, bottom, delta);
    Numbers(cols, r, delta, p);
    LineOf(cols, p, top, delta);
    LineOf(cols, p, bottom, delta);
    EdgeAbove(cols, High(r), bottom);
    EdgeAbove(cols, Low(r), bottom);
    EdgeAbove(cols, Low(r), top);
  }

  /** The first cell below the scrolled part is selected wrongly when the low anchor passes it. */
  lemma AcrossBottomDiffers(ty: SelectionType, r: Region, d: Dimensions, top: int, bottom: int, delta: int)
    requires d.Valid() && ty != Block && InColumns(d, r) && 0 <= top < bottom < d.screenLines
    requires Scrolls(Low(r).point.line, top, bottom) && bottom <= High(r).point.line
    requires !AcrossBottomExact(d, r, bottom, delta)
    ensures d.Contains(Point(bottom, 0)) && !KeptAt(ty, r, d, top, bottom, delta, Point(bottom, 0))
  {
    var cols := d.columns;
    AcrossBottomCovers(ty, r, d, top, bottom, delta, Point(bottom, 0));
    NewLowEdge(d, r, top, bottom, delta);
    Numbers(cols, r, delta, Point(bottom, 0));
    EdgeAbove(cols, High(r), bottom);
    EdgeAbove(cols, Low(r), bottom);
  }

  // ----- The high end in the scrolled part, the low end above it -----

  /** The high anchor stays in the scrolled part, or leaves it without changing what is selected. */
  predicate AcrossTopExact(d: Dimensions, r: Region, top: int, bottom: int, delta: int) {
    var line := High(r).point.line - delta;
    if line < top then
      || (line == top - 1 && EdgeColumn(High(r)) == d.columns)
      || (line < top - 1 && Low(r).point.line == top - 1 && EdgeColumn(Low(r)) == d.columns)
    else if bottom == d.screenLines && line >= bottom then
      EdgeColumn(High(r)) == d.columns || bottom <= top - delta
    else true
  }

  /** Edge of the high anchor after scrolling. */
  function NewHighEdge(d: Dimensions, r: Region, bottom: int, delta: int): int {
    var line := Min(High(r).point.line - delta, d.screenLines - 1);
    if line >= bottom then bottom * d.columns else Edge(d.columns, ToLine(High(r), line))
  }

  lemma AcrossTopCovers(ty: SelectionType, r: Region, d: Dimensions, top: int, bottom: int, delta: int, p: Point)
    requires d.Valid() && ty != Block && 0 < top < bottom <= d.screenLines
    requires Low(r).point.line < top && Scrolls(High(r).point.line, top, bottom)
    ensures var a, b := Edge(d.columns, Low(r)), NewHighEdge(d, r, bottom, delta);
      OptionCovers(d.columns, Rotated(ty, r, d, top, bottom, delta), p)
      <==> High(r).point.line - delta >= Low(r).point.line && Min(a, b) <= Cell(d.columns, p) < Max(a, b)
  {
    RowSplit(bottom, d.columns);
  }

  /** Where the two anchors are. */
  lemma AcrossTopAnchors(d: Dimensions, r: Region, top: int, bottom: int)
    requires d.Valid() && InColumns(d, r) && 0 < top < bottom
    requires Low(r).point.line < top && Scrolls(High(r).point.line, top, bottom)
    ensures Edge(d.columns, Low(r)) <= top * d.columns <= Edge(d.columns, High(r)) <= bottom * d.columns
  {
    EdgeAbove(d.columns, Low(r), top);
    EdgeAbove(d.columns, High(r), top);
    EdgeAbove(d.columns, High(r), bottom);
  }

  /** Where the high anchor's new edge is, if the anchor stays on the screen. */
  lemma NewHighEdgeOnScreen(d: Dimensions, r: Region, top: int, bottom: int, delta: int)
    requires d.Valid() && InColumns(d, r) && 0 < top < bottom <= d.screenLines
    requires High(r).point.line - delta < bottom || bottom < d.screenLines
    ensures var cols, line := d.columns, High(r).point.line - delta;
      var b, moved := NewHighEdge(d, r, bottom, delta), Edge(d.columns, High(r)) - delta * d.columns;
      && b == Min(bottom * cols, moved)
      && (line < top ==> b == moved <= top * cols) && (line >= top ==> top * cols <= b)
  {
    var cols, high, line := d.columns, High(r), High(r).point.line - delta;
    EdgeShift(cols, high, line, delta);
    EdgeAbove(cols, ToLine(high, line), top);
    EdgeAbove(cols, ToLine(high, line), bottom);
    MulMonotone(top, bottom, cols);
  }

  /** Where it is if the anchor stops on the last line. */
  lemma NewHighEdgeStopped(d: Dimensions, r: Region, top: int, bottom: int, delta: int)
    requires d.Valid() && InColumns(d, r) && 0 < top < bottom == d.screenLines <= High(r).point.line - delta
    ensures var cols, b := d.columns, NewHighEdge(d, r, bottom, delta);
      && b == bottom * cols - cols + EdgeColumn(High(r)) && top * cols <= b
      && bottom * cols <= Edge(cols, High(r)) - delta * cols
  {
    var cols, high, line := d.columns, High(r), High(r).point.line - delta;
    EdgeShift(cols, high, line, delta);
    EdgeAbove(cols, ToLine(high, line), bottom);
    MovedEdge(cols, high, bottom - 1);
    MulMonotone(top, bottom - 1, cols);
    RowSplit(bottom, cols);
  }

  /** Where the two edges are. */
  lemma AcrossTopEdges(d: Dimensions, r: Region, top: int, bottom: int, delta: int)
    requires d.Valid() && InColumns(d, r) && 0 < top < bottom <= d.screenLines
    requires Low(r).point.line < top && Scrolls(High(r).point.line, top, bottom)
    ensures var cols, line := d.columns, High(r).point.line - delta;
      var b, moved := NewHighEdge(d, r, bottom, delta), Edge(d.columns, High(r)) - delta * d.columns;
      && Edge(cols, Low(r)) <= top * cols <= Edge(cols, High(r)) <= bottom * cols
      && (line < top ==> b == moved <= top * cols)
      && (line >= top ==> top * cols <= b)
      && (line >= top && !(bottom == d.screenLines && line >= bottom) ==> b == Min(bottom * cols, moved))
      && (bottom == d.screenLines && line >= bottom ==>
          bottom * cols <= moved && b == bottom * cols - cols + EdgeColumn(High(r)))
  {
    AcrossTopAnchors(d, r, top, bottom);
    if bottom == d.screenLines && High(r).point.line - delta >= bottom {
      NewHighEdgeStopped(d, r, top, bottom, delta);
    } else {
      NewHighEdgeOnScreen(d, r, top, bottom, delta);
    }
  }

  /** Cells above the scrolled part: those behind the low anchor are selected and stay. */
  predicate TopKept(d: Dimensions, r: Region, top: int, bottom: int, delta: int) {
    var a, b := Edge(d.columns, Low(r)), NewHighEdge(d, r, bottom, delta);
    if High(r).point.line - delta < Low(r).point.line then a == top * d.columns else top * d.columns <= b
  }

  lemma TopKeptIff(d: Dimensions, r: Region, top: int, bottom: int, delta: int)
    requires d.Valid() && InColumns(d, r) && 0 < top < bottom <= d.screenLines
    requires Low(r).point.line < top && Scrolls(High(r).point.line, top, bottom)
    ensures High(r).point.line - delta < top ==>
      (TopKept(d, r, top, bottom, delta) <==> AcrossTopExact(d, r, top, bottom, delta))
    ensures High(r).point.line - delta >= top ==> TopKept(d, r, top, bottom, delta)
  {
    var cols, line := d.columns, High(r).point.line - delta;
    AcrossTopEdges(d, r, top, bottom, delta);
    EdgeReaches(cols, Low(r), top);
    if line < top {
      EdgeReaches(cols, ToLine(High(r), line), top);
      EdgeShift(cols, High(r), line, delta);
    }
  }

  lemma AcrossTopKept(ty: SelectionType, r: Region, d: Dimensions, top: int, bottom: int, delta: int, p: Point)
    requires d.Valid() && ty != Block && InColumns(d, r) && 0 < top < bottom <= d.screenLines && p.column < d.columns
    requires Low(r).point.line < top && Scrolls(High(r).point.line, top, bottom)
    requires AcrossTopExact(d, r, top, bottom, delta)
    ensures KeptAt(ty, r, d, top, bottom, delta, p)
  {
    var cols := d.columns;
    AcrossTopCovers(ty, r, d, top, bottom, delta, p);
    AcrossTopEdges(d, r, top, bottom, delta);
    TopKeptIff(d, r, top, bottom, delta);
    Numbers(cols, r, delta, p);
    LineOf(cols, p, top, delta);
    LineOf(cols, p, bottom, delta);
    MulMonotone(top, bottom, cols);
  }

  /** The last cell of the screen is selected wrongly when the high anchor stops before it. */
  lemma AcrossTopStops(ty: SelectionType, r: Region, d: Dimensions, top: int, bottom: int, delta: int)
    requires d.Valid() && ty != Block && InColumns(d, r) && 0 < top < bottom <= d.screenLines
    requires Low(r).point.line < top && Scrolls(High(r).point.line, top, bottom)
    requires !AcrossTopExact(d, r, top, bottom, delta) && top <= High(r).point.line - delta
    ensures var p := Point(bottom - 1, d.columns - 1);
      d.Contains(p) && !KeptAt(ty, r, d, top, bottom, delta, p)
  {
    var cols, p := d.columns, Point(bottom - 1, d.columns - 1);
    AcrossTopEdges(d, r, top, bottom, delta);
    AcrossTopCovers(ty, r, d, top, bottom, delta, p);
    Numbers(cols, r, delta, p);
    RowSplit(bottom, cols);
    LineOf(cols, p, top, delta);
  }

  /** A cell above the scrolled part is selected wrongly when the high anchor leaves it there. */
  lemma AcrossTopLeaves(ty: SelectionType, r: Region, d: Dimensions, top: int, bottom: int, delta: int)
    returns (p: Point)
    requires d.Valid() && ty != Block && InColumns(d, r) && 0 < top < bottom <= d.screenLines
    requires Low(r).point.line < top && Scrolls(High(r).point.line, top, bottom)
    requires !AcrossTopExact(d, r, top, bottom, delta) && High(r).point.line - delta < top
    ensures d.Contains(p) && !KeptAt(ty, r, d, top, bottom, delta, p)
  {
    var cols, line := d.columns, High(r).point.line - delta;
    AcrossTopEdges(d, r, top, bottom, delta);
    TopKeptIff(d, r, top, bottom, delta);
    RowSplit(top, cols);
    EdgeReaches(cols, Low(r), top);
    EdgeReaches(cols, ToLine(High(r), line), top);
    EdgeShift(cols, High(r), line, delta);
    if Edge(cols, Low(r)) < top * cols {
      p := Point(top - 1, cols - 1);
    } else {
      p := Point(top - 1, EdgeColumn(High(r)));
      MovedEdge(cols, High(r), line);
    }
    AcrossTopCovers(ty, r, d, top, bottom, delta, p);
    Numbers(cols, r, delta, p);
  }

  /** A cell that is selected wrongly otherwise. */
  lemma AcrossTopDiffers(ty: SelectionType, r: Region, d: Dimensions, top: int, bottom: int, delta: int)
    returns (p: Point)
    requires d.Valid() && ty != Block && InColumns(d, r) && 0 < top < bottom <= d.screenLines
    requires Low(r).point.line < top && Scrolls(High(r).point.line, top, bottom)
    requires !AcrossTopExact(d, r, top, bottom, delta)
    ensures d.Contains(p) && !KeptAt(ty, r, d, top, bottom, delta, p)
  {
    if High(r).point.line - delta < top {
      p := AcrossTopLeaves(ty, r, d, top, bottom, delta);
    } else {
      AcrossTopStops(ty, r, d, top, bottom, delta);
      p := Point(bottom - 1, d.columns - 1);
    }
  }

  /** Main result: with at most one end of the selection in the scrolled part, every cell that is not new keeps its
      selectedness exactly under the conditions above. */
  lemma RotateAcrossIff(ty: SelectionType, r: Region, d: Dimensions, top: int, bottom: int, delta: int)
    requires d.Valid() && ty != Block && InColumns(d, r) && 0 <= top < bottom <= d.screenLines
    requires r.start.point.line < d.screenLines && r.end.point.line < d.screenLines
    requires !InScrolledPart(r, top, bottom)
    ensures KeptAll(ty, r, d, top, bottom, delta)
       <==> && (Scrolls(Low(r).point.line, top, bottom) ==> AcrossBottomExact(d, r, bottom, delta))
            && (Scrolls(High(r).point.line, top, bottom) ==> AcrossTopExact(d, r, top, bottom, delta))
  {
    if Scrolls(Low(r).point.line, top, bottom) {
      if AcrossBottomExact(d, r, bottom, delta) {
        forall p | d.Contains(p)
          ensures KeptAt(ty, r, d, top, bottom, delta, p)
        {
          AcrossBottomInside(ty, r, d, top, bottom, delta, p);
        }
      } else {
        AcrossBottomDiffers(ty, r, d, top, bottom, delta);
      }
    } else if Scrolls(High(r).point.line, top, bottom) {
      if AcrossTopExact(d, r, top, bottom, delta) {
        forall p | d.Contains(p)
          ensures KeptAt(ty, r, d, top, bottom, delta, p)
        {
          AcrossTopKept(ty, r, d, top, bottom, delta, p);
        }
      } else {
        var p := AcrossTopDiffers(ty, r, d, top, bottom, delta);
      }
    } else {
      forall p | d.Contains(p)
        ensures KeptAt(ty, r, d, top, bottom, delta, p)
      {
        NeitherScrolls(ty, r, d, top, bottom, delta, p);
      }
    }
  }
}
