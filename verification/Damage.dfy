/** Damage of a frame: damaged lines and changed selections become rectangles that cover everything changed. */
module Damage {
  import opened Common
  import opened Arith
  import opened Index
  import opened Selection

  datatype SizeInfo = SizeInfo(
    width: nat, height: nat, cellWidth: nat, cellHeight: nat,
    paddingX: nat, paddingY: nat, columns: nat, screenLines: nat)
  {
    /** The cell grid and the padding beside it fit the surface. */
    predicate Fits() {
      && paddingX + columns * cellWidth <= width
      && paddingY + screenLines * cellHeight <= height
    }
  }

  /** A rectangle of pixels; y grows upward from the bottom of the surface. */
  datatype Rect = Rect(x: int, y: int, width: int, height: int) {
    predicate Has(px: int, py: int) {
      x <= px < x + width && y <= py < y + height
    }

    /** The same with all edges. */
    predicate Reaches(px: int, py: int) {
      x <= px <= x + width && y <= py <= y + height
    }

    /** Contained in another rectangle. */
    predicate Within(other: Rect) {
      other.x <= x && x + width <= other.x + other.width && other.y <= y && y + height <= other.y + other.height
    }
  }

  /** The damaged columns of a viewport line; `left > right` means undamaged. */
  datatype LineDamage = LineDamage(line: nat, left: nat, right: nat) {
    predicate IsDamaged() { left <= right }

    function Expand(l: nat, r: nat): LineDamage {
      LineDamage(line, if l < left then l else left, if r > right then r else right)
    }
  }

  function Undamaged(line: nat, columns: nat): LineDamage {
    LineDamage(line, columns, 0)
  }

  function Surface(size: SizeInfo): Rect {
    Rect(0, 0, size.width, size.height)
  }

  // ----- Rectangles -----

  function RectForLine(size: SizeInfo, d: LineDamage): Rect {
    Rect(
      size.paddingX + d.left * size.cellWidth,
      size.height - size.paddingY - (d.line + 1) * size.cellHeight,
      (d.right - d.left + 1) * size.cellWidth,
      size.cellHeight)
  }

  /** The rectangle grown to include neighbouring cells, cut off at the surface. */
  function Overdamage(size: SizeInfo, r: Rect): Rect {
    var x := Max(r.x - size.cellWidth, 0);
    var y := Max(r.y - size.cellHeight / 2, 0);
    Rect(
      x, y,
      Min(Max(size.width - x, 0), r.width + 2 * size.cellWidth),
      Min(Max(size.height - y, 0), r.height + size.cellHeight))
  }

  predicate Overlap(a: Rect, b: Rect) {
    !(a.x + a.width < b.x || b.x + b.width < a.x || a.y + a.height < b.y || b.y + b.height < a.y)
  }

  /** Rectangles overlap if they share a point, be it on their edges. */
  lemma OverlapIff(a: Rect, b: Rect)
    requires a.width >= 0 && a.height >= 0 && b.width >= 0 && b.height >= 0
    ensures Overlap(a, b) <==> exists px, py :: a.Reaches(px, py) && b.Reaches(px, py)
  {
    if Overlap(a, b) {
      assert a.Reaches(Max(a.x, b.x), Max(a.y, b.y)) && b.Reaches(Max(a.x, b.x), Max(a.y, b.y));
    }
  }

  function Merge(a: Rect, b: Rect): Rect {
    var left, right := Min(a.x, b.x), Max(a.x + a.width, b.x + b.width);
    var top, bottom := Max(a.y + a.height, b.y + b.height), Min(a.y, b.y);
    Rect(left, bottom, right - left, top - bottom)
  }

  /** The merged rectangle is the smallest that contains both. */
  lemma MergeIsLeast(a: Rect, b: Rect, c: Rect)
    ensures a.Within(Merge(a, b)) && b.Within(Merge(a, b))
    ensures Merge(a, b).Within(c) <==> a.Within(c) && b.Within(c)
  {
  }

  /** A line of the grid is drawn inside the surface. */
  lemma LineOnSurface(size: SizeInfo, d: LineDamage)
    requires size.Fits() && d.IsDamaged() && d.right < size.columns && d.line < size.screenLines
    ensures RectForLine(size, d).Within(Surface(size))
    ensures RectForLine(size, d).width >= 0
  {
    MulMonotone(d.line + 1, size.screenLines, size.cellHeight);
    MulMonotone(d.right + 1, size.columns, size.cellWidth);
    MulMonotone(0, d.left, size.cellWidth);
    MulMonotone(0, d.right - d.left + 1, size.cellWidth);
    assert d.left * size.cellWidth + (d.right - d.left + 1) * size.cellWidth == (d.right + 1) * size.cellWidth;
  }

  /** Growing keeps a rectangle of the surface covered and on the surface. */
  lemma OverdamageContains(size: SizeInfo, r: Rect)
    requires r.Within(Surface(size)) && r.width >= 0 && r.height >= 0
    ensures r.Within(Overdamage(size, r)) && Overdamage(size, r).Within(Surface(size))
  {
  }

  /** It reaches a cell's width to either side and half a cell's height up and down, as far as the surface goes, and
      at most twice as far at the surface's edge. */
  lemma OverdamageReaches(size: SizeInfo, r: Rect, px: int, py: int)
    requires r.Within(Surface(size)) && r.width >= 0 && r.height >= 0
    ensures
      && Surface(size).Has(px, py) && r.x - size.cellWidth <= px < r.x + r.width + size.cellWidth
      && r.y - size.cellHeight / 2 <= py < r.y + r.height + size.cellHeight / 2
      ==> Overdamage(size, r).Has(px, py)
    ensures Overdamage(size, r).Has(px, py) ==>
      && r.x - size.cellWidth <= px < r.x + r.width + 2 * size.cellWidth
      && r.y - size.cellHeight / 2 <= py < r.y + r.height + size.cellHeight
    ensures Overdamage(size, r).Has(px, py) && size.cellWidth <= r.x ==> px < r.x + r.width + size.cellWidth
    ensures Overdamage(size, r).Has(px, py) && size.cellHeight / 2 <= r.y ==>
      py < r.y + r.height + size.cellHeight - size.cellHeight / 2
  {
  }

  /** The rectangle of a damaged line as it is submitted. */
  function Shaped(size: SizeInfo, d: LineDamage): Rect {
    Overdamage(size, RectForLine(size, d))
  }

  type Shape = LineDamage -> Rect

  function ShapeOf(size: SizeInfo): Shape {
    d => Shaped(size, d)
  }

  /** The smallest rectangle around a run of damaged lines. */
  function Hull(shape: Shape, lines: seq<LineDamage>): Rect
    requires lines != []
  {
    if |lines| == 1 then shape(lines[0])
    else Merge(Hull(shape, lines[..|lines| - 1]), shape(lines[|lines| - 1]))
  }

  lemma HullAppend(shape: Shape, lines: seq<LineDamage>, d: LineDamage)
    requires lines != []
    ensures Hull(shape, lines + [d]) == Merge(Hull(shape, lines), shape(d))
  {
    assert (lines + [d])[..|lines|] == lines;
  }

  /** A hull contains each of its lines' rectangles, and a rectangle contains the hull if it contains them all. */
  lemma {:induction false} HullIsLeast(shape: Shape, lines: seq<LineDamage>, c: Rect)
    requires lines != []
    ensures forall i :: 0 <= i < |lines| ==> shape(lines[i]).Within(Hull(shape, lines))
    ensures Hull(shape, lines).Within(c) <==> forall i :: 0 <= i < |lines| ==> shape(lines[i]).Within(c)
  {
    if |lines| > 1 {
      var front, last := lines[..|lines| - 1], lines[|lines| - 1];
      HullIsLeast(shape, front, c);
      HullIsLeast(shape, front, Hull(shape, lines));
      MergeIsLeast(Hull(shape, front), shape(last), c);
      MergeIsLeast(Hull(shape, front), shape(last), Hull(shape, lines));
      forall i | 0 <= i < |lines|
        ensures shape(lines[i]).Within(Hull(shape, lines))
      {
        assert i < |front| ==> lines[i] == front[i];
      }
      if Hull(shape, lines).Within(c) {
        forall i | 0 <= i < |lines|
          ensures shape(lines[i]).Within(c)
        {
          assert i < |front| ==> lines[i] == front[i];
        }
      }
      if forall i :: 0 <= i < |lines| ==> shape(lines[i]).Within(c) {
        forall i | 0 <= i < |front|
          ensures shape(front[i]).Within(c)
        {
          assert front[i] == lines[i];
        }
      }
    }
  }

  // ----- The merging iterator -----

  /** The damaged lines, in order. */
  function DamagedLines(lines: seq<LineDamage>): (r: seq<LineDamage>)
    ensures forall d :: d in r <==> d in lines && d.IsDamaged()
  {
    if lines == [] then []
    else (if lines[0].IsDamaged() then [lines[0]] else []) + DamagedLines(lines[1..])
  }

  /** Each line of a run touches the hull of the lines before it. */
  ghost predicate Touching(shape: Shape, lines: seq<LineDamage>) {
    |lines| <= 1
    || (Touching(shape, lines[..|lines| - 1])
        && Overlap(Hull(shape, lines[..|lines| - 1]), shape(lines[|lines| - 1])))
  }

  class RectIterator {
    const shape: Shape
    var rest: seq<LineDamage>

    constructor (shape: Shape, lines: seq<LineDamage>)
      ensures this.shape == shape && rest == DamagedLines(lines)
    {
      this.shape := shape;
      rest := DamagedLines(lines);
    }

    /** The hull of the next run of damaged lines whose rectangles touch. */
    method Next() returns (rect: Option<Rect>, ghost taken: seq<LineDamage>)
      modifies this`rest
      ensures old(rest) == taken + rest
      ensures old(rest) == [] ==> rect == None && taken == []
      ensures old(rest) != [] ==> taken != [] && rect == Some(Hull(shape, taken))
      ensures taken != [] && rest != [] ==> !Overlap(Hull(shape, taken), shape(rest[0]))
      ensures Touching(shape, taken)
    {
      if rest == [] {
        return None, [];
      }
      taken := [rest[0]];
      var total := shape(rest[0]);
      rest := rest[1..];
      while rest != []
        invariant taken != [] && old(rest) == taken + rest && total == Hull(shape, taken) && Touching(shape, taken)
        decreases |rest|
      {
        var next := shape(rest[0]);
        if !Overlap(total, next) {
          break;
        }
        total := Merge(total, next);
        HullAppend(shape, taken, rest[0]);
        assert (taken + [rest[0]])[..|taken|] == taken;
        taken := taken + [rest[0]];
        rest := rest[1..];
      }
      return Some(total), taken;
    }
  }

  function Concat(groups: seq<seq<LineDamage>>): seq<LineDamage> {
    if groups == [] then [] else Concat(groups[..|groups| - 1]) + groups[|groups| - 1]
  }

  lemma {:induction false} InSomeGroup(groups: seq<seq<LineDamage>>, d: LineDamage)
    requires d in Concat(groups)
    ensures exists k :: 0 <= k < |groups| && d in groups[k]
  {
    if groups != [] && d !in groups[|groups| - 1] {
      InSomeGroup(groups[..|groups| - 1], d);
    }
  }

  /** Damage of one frame. */
  datatype FrameDamage = FrameDamage(full: bool, lines: seq<LineDamage>, rects: seq<Rect>)

  predicate SomeHas(rects: seq<Rect>, px: int, py: int) {
    exists k :: 0 <= k < |rects| && rects[k].Has(px, py)
  }

  lemma ConcatAppend(groups: seq<seq<LineDamage>>, group: seq<LineDamage>, rest: seq<LineDamage>)
    ensures Concat(groups + [group]) + rest == Concat(groups) + (group + rest)
  {
    assert (groups + [group])[..|groups|] == groups;
  }

  /** Each rectangle is the hull of a non-empty group of damaged lines. */
  ghost predicate HullsOf(shape: Shape, rects: seq<Rect>, groups: seq<seq<LineDamage>>) {
    |groups| == |rects| && forall k :: 0 <= k < |rects| ==> groups[k] != [] && rects[k] == Hull(shape, groups[k])
  }

  lemma HullsAppend(shape: Shape, rects: seq<Rect>, groups: seq<seq<LineDamage>>, group: seq<LineDamage>)
    requires HullsOf(shape, rects, groups) && group != []
    ensures HullsOf(shape, rects + [Hull(shape, group)], groups + [group])
  {
  }

  /** The rectangles of a partly damaged frame's lines; each damaged line goes into exactly one group. */
  method ShapeLines(lines: seq<LineDamage>, size: SizeInfo)
    returns (rects: seq<Rect>, ghost groups: seq<seq<LineDamage>>)
    ensures Concat(groups) == DamagedLines(lines) && HullsOf(ShapeOf(size), rects, groups)
  {
    var shape := ShapeOf(size);
    var shaper := new RectIterator(shape, lines);
    rects, groups := [], [];
    ghost var all := DamagedLines(lines);
    while true
      invariant fresh(shaper) && shaper.shape == shape && HullsOf(shape, rects, groups)
      invariant Concat(groups) + shaper.rest == all
      decreases |shaper.rest|
    {
      var rect;
      ghost var taken;
      rect, taken := shaper.Next();
      if rect == None {
        return;
      }
      ConcatAppend(groups, taken, shaper.rest);
      HullsAppend(shape, rects, groups, taken);
      rects := rects + [rect.value];
      groups := groups + [taken];
    }
  }

  /** The frame's lines are those of the viewport, damaged at most up to the last column. */
  predicate FrameFits(lines: seq<LineDamage>, size: SizeInfo) {
    forall i :: 0 <= i < |lines| && lines[i].IsDamaged() ==>
      lines[i].right < size.columns && lines[i].line < size.screenLines
  }

  /** Every damaged line's pixels are in the hull of its group. */
  lemma LineCovered(
    lines: seq<LineDamage>, size: SizeInfo, rects: seq<Rect>, groups: seq<seq<LineDamage>>,
    d: LineDamage, px: int, py: int)
    requires size.Fits() && FrameFits(lines, size) && d in lines && d.IsDamaged()
    requires Concat(groups) == DamagedLines(lines) && HullsOf(ShapeOf(size), rects, groups)
    requires RectForLine(size, d).Has(px, py)
    ensures SomeHas(rects, px, py)
  {
    InSomeGroup(groups, d);
    var k :| 0 <= k < |groups| && d in groups[k];
    var i :| 0 <= i < |groups[k]| && groups[k][i] == d;
    HullIsLeast(ShapeOf(size), groups[k], Surface(size));
    LineOnSurface(size, d);
    OverdamageContains(size, RectForLine(size, d));
    assert ShapeOf(size)(groups[k][i]).Within(rects[k]);
    assert rects[k].Has(px, py);
  }

  lemma {:induction false} GroupInConcat(groups: seq<seq<LineDamage>>, k: nat, d: LineDamage)
    requires k < |groups| && d in groups[k]
    ensures d in Concat(groups)
  {
    if k < |groups| - 1 {
      GroupInConcat(groups[..|groups| - 1], k, d);
    }
  }

  /** Every rectangle of damaged lines is on the surface. */
  lemma HullOnSurface(
    lines: seq<LineDamage>, size: SizeInfo, rects: seq<Rect>, groups: seq<seq<LineDamage>>, k: nat)
    requires size.Fits() && FrameFits(lines, size) && k < |rects|
    requires Concat(groups) == DamagedLines(lines) && HullsOf(ShapeOf(size), rects, groups)
    ensures rects[k].Within(Surface(size))
  {
    forall i | 0 <= i < |groups[k]|
      ensures ShapeOf(size)(groups[k][i]).Within(Surface(size))
    {
      var d := groups[k][i];
      GroupInConcat(groups, k, d);
      LineOnSurface(size, d);
      OverdamageContains(size, RectForLine(size, d));
    }
    HullIsLeast(ShapeOf(size), groups[k], Surface(size));
  }

  /** A pixel of a cell, counted from the left and from the top of the cell. */
  datatype Pixel = Pixel(column: nat, dx: nat, dy: nat)

  /** The place on the surface of a pixel of a cell: lines go down the surface, pixels are counted upward. */
  function PixelX(size: SizeInfo, p: Pixel): int {
    size.paddingX + p.column * size.cellWidth + p.dx
  }

  function PixelY(size: SizeInfo, line: nat, p: Pixel): int {
    size.height - 1 - (size.paddingY + line * size.cellHeight + p.dy)
  }

  /** Every pixel of every damaged cell is in some rectangle. */
  ghost predicate LinesCovered(lines: seq<LineDamage>, size: SizeInfo, rects: seq<Rect>) {
    forall d, p: Pixel ::
      d in lines && d.left <= p.column <= d.right && p.dx < size.cellWidth && p.dy < size.cellHeight ==>
        SomeHas(rects, PixelX(size, p), PixelY(size, d.line, p))
  }

  /** The rectangle of a line holds the pixels of its damaged cells and no others. */
  lemma CellsOfLine(size: SizeInfo, d: LineDamage, p: Pixel)
    requires p.dx < size.cellWidth && p.dy < size.cellHeight
    ensures RectForLine(size, d).Has(PixelX(size, p), PixelY(size, d.line, p)) <==> d.left <= p.column <= d.right
    ensures forall line: nat ::
      RectForLine(size, d).Has(PixelX(size, p), PixelY(size, line, p)) ==> line == d.line
  {
    ColumnOfPixel(size, d, p);
    forall line: nat | RectForLine(size, d).Has(PixelX(size, p), PixelY(size, line, p))
      ensures line == d.line
    {
      LineOfPixel(size, d, line, p);
    }
    assert (d.line + 1) * size.cellHeight == d.line * size.cellHeight + size.cellHeight;
  }

  lemma ColumnOfPixel(size: SizeInfo, d: LineDamage, p: Pixel)
    requires p.dx < size.cellWidth
    ensures var r := RectForLine(size, d);
      r.x <= PixelX(size, p) < r.x + r.width <==> d.left <= p.column <= d.right
  {
    var w := size.cellWidth;
    assert d.left * w + (d.right - d.left + 1) * w == (d.right + 1) * w;
    RowMajorOrder(d.left, 0, p.column, p.dx, w);
    RowMajorOrder(d.right + 1, 0, p.column, p.dx, w);
  }

  lemma LineOfPixel(size: SizeInfo, d: LineDamage, line: nat, p: Pixel)
    requires p.dy < size.cellHeight
    requires var r := RectForLine(size, d); r.y <= PixelY(size, line, p) < r.y + r.height
    ensures line == d.line
  {
    var h := size.cellHeight;
    assert (d.line + 1) * h == d.line * h + h;
    RowMajorOrder(d.line, 0, line, p.dy, h);
    RowMajorOrder(d.line + 1, 0, line, p.dy, h);
  }

  /** Main result: when the grid fits the surface, the submitted rectangles cover every damaged line; those made
      from lines stay on the surface and those added by other parts of the display are passed on. */
  method ShapeFrameDamage(frame: FrameDamage, size: SizeInfo) returns (rects: seq<Rect>)
    ensures frame.full ==> rects == [Surface(size)]
    ensures !frame.full ==> forall r :: r in frame.rects ==> r in rects
    ensures !frame.full && size.Fits() && FrameFits(frame.lines, size) ==>
      LinesCovered(frame.lines, size, rects)
      && forall r :: r in rects ==> r in frame.rects || r.Within(Surface(size))
  {
    if frame.full {
      return [Surface(size)];
    }
    ghost var groups;
    rects, groups := ShapeLines(frame.lines, size);
    ghost var shaped := rects;
    rects := rects + frame.rects;
    if size.Fits() && FrameFits(frame.lines, size) {
      forall d, p: Pixel | d in frame.lines && d.left <= p.column <= d.right
                           && p.dx < size.cellWidth && p.dy < size.cellHeight
        ensures SomeHas(rects, PixelX(size, p), PixelY(size, d.line, p))
      {
        var px, py := PixelX(size, p), PixelY(size, d.line, p);
        CellsOfLine(size, d, p);
        LineCovered(frame.lines, size, shaped, groups, d, px, py);
        var k :| 0 <= k < |shaped| && shaped[k].Has(px, py);
        assert rects[k] == shaped[k];
      }
      forall k | 0 <= k < |shaped|
        ensures shaped[k].Within(Surface(size))
      {
        HullOnSurface(frame.lines, size, shaped, groups, k);
      }
    }
  }

  // ----- Selection damage -----

  /** A viewport line that a selection reaches. */
  predicate Meets(s: Option<SelectionRange>, offset: nat, line: int) {
    s.Some? && s.value.start.line + offset <= line <= s.value.end.line + offset
  }

  /** Lines expanded to their full width where the old or the new selection reaches them. */
  function SelectionDamaged(
    lines: seq<LineDamage>, a: Option<SelectionRange>, b: Option<SelectionRange>, offset: nat, columns: nat)
    : seq<LineDamage>
    requires columns >= 1
  {
    seq(|lines|, i requires 0 <= i < |lines| =>
      if Meets(a, offset, i) || Meets(b, offset, i) then lines[i].Expand(0, columns - 1) else lines[i])
  }

  /** The test that skips selections outside the viewport. */
  predicate SkipsSelection(s: SelectionRange, offset: nat, lastVisible: int) {
    s.end.line + offset < 0 || (if s.start.line < 0 then -s.start.line else s.start.line) < offset - lastVisible
  }

  /** A skipped selection reaches no viewport line, although the test compares an absolute value. */
  lemma SkippedIsInvisible(s: SelectionRange, offset: nat, lastVisible: nat, line: int)
    requires SkipsSelection(s, offset, lastVisible) && 0 <= line <= lastVisible
    ensures !Meets(Some(s), offset, line)
  {
  }

  class DamageTracker {
    var oldSelection: Option<SelectionRange>
    var frame: FrameDamage
    var nextFrame: FrameDamage
    var screenLines: nat
    var columns: nat

    ghost predicate Valid()
      reads this
    {
      && screenLines >= 1 && columns >= 1
      && |frame.lines| == screenLines && |nextFrame.lines| == screenLines
      && (forall i :: 0 <= i < screenLines ==> frame.lines[i].line == i && frame.lines[i].right < columns)
      && (forall i :: 0 <= i < screenLines ==> nextFrame.lines[i].line == i && nextFrame.lines[i].right < columns)
    }

    static function FreshFrame(lines: nat, columns: nat): FrameDamage {
      FrameDamage(false, seq(lines, i requires 0 <= i => Undamaged(i, columns)), [])
    }

    constructor (screenLines: nat, columns: nat)
      requires screenLines >= 1 && columns >= 1
      ensures Valid() && frame.full && oldSelection == None
    {
      this.screenLines, this.columns, oldSelection := screenLines, columns, None;
      frame := FreshFrame(screenLines, columns).(full := true);
      nextFrame := FreshFrame(screenLines, columns);
    }

    /** Drop the active frame's damage and continue with the next frame's. */
    method SwapDamage()
      requires Valid()
      modifies this`frame, this`nextFrame
      ensures Valid() && frame == old(nextFrame) && nextFrame == FreshFrame(screenLines, columns)
    {
      frame, nextFrame := nextFrame, FreshFrame(screenLines, columns);
    }

    /** Damage the lines that one selection reaches. */
    method DamageOne(s: SelectionRange, offset: nat)
      requires Valid()
      modifies this`frame
      ensures Valid()
      ensures frame == old(frame).(lines := SelectionDamaged(old(frame.lines), Some(s), None, offset, columns))
    {
      var lastVisible := screenLines - 1;
      if SkipsSelection(s, offset, lastVisible) {
        assert frame.lines == SelectionDamaged(frame.lines, Some(s), None, offset, columns);
        return;
      }
      var start := Max(s.start.line + offset, 0);
      var end := Max(0, Min(s.end.line + offset, lastVisible));
      var line := start;
      ghost var before := frame.lines;
      while line <= end
        invariant start <= line && Valid() && frame == old(frame).(lines := frame.lines)
        invariant forall i :: 0 <= i < screenLines ==>
          frame.lines[i] == if start <= i < line && i <= end then before[i].Expand(0, columns - 1) else before[i]
      {
        frame := frame.(lines := frame.lines[line := frame.lines[line].Expand(0, columns - 1)]);
        line := line + 1;
      }
      assert frame.lines == SelectionDamaged(before, Some(s), None, offset, columns);
    }

    /** Damage what a change of the selection affects. */
    method DamageSelection(selection: Option<SelectionRange>, offset: nat)
      requires Valid()
      modifies this`frame, this`oldSelection
      ensures Valid() && oldSelection == selection
      ensures frame == if old(frame.full) || selection == old(oldSelection) then old(frame)
                       else old(frame).(lines :=
                              SelectionDamaged(old(frame.lines), selection, old(oldSelection), offset, columns))
    {
      var previous := oldSelection;
      oldSelection := selection;
      if frame.full || previous == selection {
        return;
      }
      ghost var before := frame.lines;
      if selection.Some? {
        DamageOne(selection.value, offset);
      }
      if previous.Some? {
        DamageOne(previous.value, offset);
      }
      assert frame.lines == SelectionDamaged(before, selection, previous, offset, columns);
    }
  }

  /** A selection reaches a viewport line exactly if a cell of the line is selected. */
  lemma MeetsIffSelected(s: SelectionRange, offset: nat, columns: nat, line: nat)
    requires s.start.column < columns && s.end.column < columns
    requires if s.isBlock then s.start.column <= s.end.column else s.start.AtMost(s.end)
    ensures Meets(Some(s), offset, line) <==>
      exists p: Point :: p.line == line - offset && p.column < columns && s.Contains(p)
  {
    if Meets(Some(s), offset, line) {
      var column := if s.isBlock || s.start.line == line - offset then s.start.column
                    else if s.end.line == line - offset then s.end.column else 0;
      assert s.Contains(Point(line - offset, column));
    }
  }

  /** Expanding the damage of a line adds the given columns and, to an undamaged line, no others. */
  lemma ExpandAdds(d: LineDamage, l: nat, r: nat, line: nat, columns: nat)
    requires l <= r < columns
    ensures d.Expand(l, r).line == d.line && d.Expand(l, r).left <= l && r <= d.Expand(l, r).right
    ensures d.IsDamaged() ==> d.Expand(l, r).left == Min(d.left, l) && d.Expand(l, r).right == Max(d.right, r)
    ensures !Undamaged(line, columns).IsDamaged() && Undamaged(line, columns).Expand(l, r) == LineDamage(line, l, r)
  {
  }

  /** Main result: a viewport cell whose selectedness changes is inside its line's damage. */
  lemma SelectionChangeDamaged(
    lines: seq<LineDamage>, a: Option<SelectionRange>, b: Option<SelectionRange>, offset: nat, columns: nat,
    line: nat, column: nat)
    requires line < |lines| && column < columns
    requires RangeContains(a, Point(line - offset, column)) != RangeContains(b, Point(line - offset, column))
    ensures var d := SelectionDamaged(lines, a, b, offset, columns)[line];
      d.IsDamaged() && d.left <= column <= d.right
  {
  }
}
