/** Points, dimensions and point arithmetic of the terminal grid. */
module Index {
  import opened Arith

  /** A horizontal direction, also used as the side of a cell. */
  datatype Direction = Left | Right

  type Side = Direction

  /** The limits that point arithmetic respects. */
  datatype Boundary = CursorArea | WholeGrid | Unbounded

  /** A cell position; lines above the screen, in the scrollback, are negative. */
  datatype Point = Point(line: int, column: nat) {

    /** Points are ordered by line first and by column second. */
    predicate AtMost(other: Point) {
      line < other.line || (line == other.line && column <= other.column)
    }

    predicate Before(other: Point) {
      AtMost(other) && this != other
    }
  }

  datatype Dimensions = Dimensions(columns: nat, screenLines: nat, totalLines: nat) {

    predicate Valid() {
      columns >= 1 && 1 <= screenLines <= totalLines
    }

    function HistorySize(): nat {
      if totalLines <= screenLines then 0 else totalLines - screenLines
    }

    function TopmostLine(): int {
      0 - HistorySize()
    }

    function BottommostLine(): int {
      screenLines - 1
    }

    function LastColumn(): nat
      requires columns >= 1
    {
      columns - 1
    }

    /** Number of cells in the grid, scrollback included. */
    function Cells(): nat {
      totalLines * columns
    }

    predicate Contains(p: Point) {
      TopmostLine() <= p.line <= BottommostLine() && p.column < columns
    }
  }

  // ----- Operations -----

  /** Remainder truncated toward zero, as on machine integers. */
  function TruncatedRemainder(a: int, b: int): int
    requires b > 0
  {
    if a >= 0 then a % b else -((-a) % b)
  }

  function ClampLine(d: Dimensions, boundary: Boundary, line: int): int
    requires d.Valid()
  {
    match boundary
    case CursorArea => Max(0, Min(d.BottommostLine(), line))
    case WholeGrid => Max(d.TopmostLine(), Min(d.BottommostLine(), line))
    case Unbounded =>
      if line >= d.screenLines then
        d.TopmostLine() + TruncatedRemainder(line - d.screenLines, d.totalLines)
      else
        d.BottommostLine() + TruncatedRemainder(line - d.screenLines + 1, d.totalLines)
  }

  function ClampPoint(d: Dimensions, boundary: Boundary, p: Point): Point
    requires d.Valid()
  {
    var column := if p.column < d.LastColumn() then p.column else d.LastColumn();
    if boundary == CursorArea && p.line < 0 then
      Point(0, 0)
    else if boundary == WholeGrid && p.line < d.TopmostLine() then
      Point(d.TopmostLine(), 0)
    else if boundary != Unbounded && p.line > d.BottommostLine() then
      Point(d.BottommostLine(), d.LastColumn())
    else if boundary == Unbounded then
      Point(ClampLine(d, boundary, p.line), column)
    else
      Point(p.line, column)
  }

  /** Position `count` columns after `p`, before clamping. */
  function RawAdd(d: Dimensions, p: Point, count: nat): Point
    requires d.Valid()
  {
    Point(p.line + (count + p.column) / d.columns, (p.column + count) % d.columns)
  }

  /** Position `count` columns before `p`, before clamping; the line count uses a ceiling division. */
  function RawSub(d: Dimensions, p: Point, count: nat): Point
    requires d.Valid()
  {
    var span := count + d.columns - 1;
    var lineChanges := (if span < p.column then 0 else span - p.column) / d.columns;
    Point(p.line - lineChanges, (d.columns + p.column - count % d.columns) % d.columns)
  }

  function Add(d: Dimensions, boundary: Boundary, p: Point, count: nat): Point
    requires d.Valid()
  {
    ClampPoint(d, boundary, RawAdd(d, p, count))
  }

  function Sub(d: Dimensions, boundary: Boundary, p: Point, count: nat): Point
    requires d.Valid()
  {
    ClampPoint(d, boundary, RawSub(d, p, count))
  }

  // ----- The linear cell index -----

  /** Row-major cell number; the first cell of the topmost line is 0. */
  function Linear(d: Dimensions, p: Point): int {
    (p.line - d.TopmostLine()) * d.columns + p.column
  }

  /** The number of a point that arithmetic may leave at most at either end of `[low, high]`. */
  function ClampIndex(k: int, low: int, high: int): int
    requires low <= high
  {
    Max(low, Min(k, high))
  }

  /** The order of points is the order of their numbers. */
  lemma LinearMonotone(d: Dimensions, p: Point, q: Point)
    requires d.Valid() && p.column < d.columns && q.column < d.columns
    ensures p.AtMost(q) <==> Linear(d, p) <= Linear(d, q)
    ensures p == q <==> Linear(d, p) == Linear(d, q)
  {
    RowMajorOrder(p.line - d.TopmostLine(), p.column, q.line - d.TopmostLine(), q.column, d.columns);
  }

  /** The points of the grid are exactly the points numbered `0 .. Cells() - 1`. */
  lemma LinearRange(d: Dimensions, p: Point)
    requires d.Valid() && p.column < d.columns
    ensures d.Contains(p) <==> 0 <= Linear(d, p) < d.Cells()
  {
    var row := p.line - d.TopmostLine();
    if row < 0 {
      MulMonotone(row, -1, d.columns);
    } else if row < d.totalLines {
      MulMonotone(row, d.totalLines - 1, d.columns);
    } else {
      MulMonotone(d.totalLines, row, d.columns);
    }
  }

  /** Unclamped addition moves the cell number by `count`. */
  lemma RawAddIsPlus(d: Dimensions, p: Point, count: nat)
    requires d.Valid() && p.column < d.columns
    ensures RawAdd(d, p, count).column < d.columns
    ensures Linear(d, RawAdd(d, p, count)) == Linear(d, p) + count
  {
    var t := count + p.column;
    assert t == (t / d.columns) * d.columns + t % d.columns;
    var row := p.line - d.TopmostLine();
    assert (row + t / d.columns) * d.columns == row * d.columns + (t / d.columns) * d.columns;
  }

  /** Unclamped subtraction moves the cell number back by `count`. */
  lemma RawSubIsMinus(d: Dimensions, p: Point, count: nat)
    requires d.Valid() && p.column < d.columns
    ensures RawSub(d, p, count).column < d.columns
    ensures Linear(d, RawSub(d, p, count)) == Linear(d, p) - count
  {
    var cols := d.columns;
    var k, r := count / cols, count % cols;
    assert count == k * cols + r;
    var row := p.line - d.TopmostLine();
    var rest := count + cols - 1 - p.column;
    if p.column >= r {
      DivModUnique(rest, cols, k, r + cols - 1 - p.column);
      DivModUnique(cols + p.column - r, cols, 1, p.column - r);
      assert (row - k) * cols == row * cols - k * cols;
    } else {
      assert rest == (k + 1) * cols + (r - 1 - p.column);
      DivModUnique(rest, cols, k + 1, r - 1 - p.column);
      DivModUnique(cols + p.column - r, cols, 0, cols + p.column - r);
      assert (row - (k + 1)) * cols == row * cols - k * cols - cols;
    }
  }

  /** Wrapping a line is taking its distance from the top modulo the number of lines. */
  lemma WrapLineIsModulo(d: Dimensions, line: int)
    requires d.Valid()
    ensures ClampLine(d, Unbounded, line) - d.TopmostLine() == (line - d.TopmostLine()) % d.totalLines
  {
    var total := d.totalLines;
    if line >= d.screenLines {
      ModShift(line - d.screenLines, 1, total);
    } else {
      var x := d.screenLines - 1 - line;
      assert x == (x / total) * total + x % total;
      assert total - 1 - x == (-(x / total)) * total + (total - 1 - x % total);
      DivModUnique(total - 1 - x, total, -(x / total), total - 1 - x % total);
    }
  }

  /** Wrapping the line of a point is taking its number modulo the number of cells. */
  lemma WrapPointIsModulo(d: Dimensions, p: Point)
    requires d.Valid() && p.column < d.columns
    ensures d.Contains(ClampPoint(d, Unbounded, p))
    ensures Linear(d, ClampPoint(d, Unbounded, p)) == Linear(d, p) % d.Cells()
  {
    WrapLineIsModulo(d, p.line);
    RowMajorModulo(p.line - d.TopmostLine(), p.column, d.totalLines, d.columns);
  }

  /** Numbers of the first cell, of the screen's first cell and of the last cell. */
  lemma EndCells(d: Dimensions)
    requires d.Valid()
    ensures Linear(d, Point(d.TopmostLine(), 0)) == 0
    ensures 0 <= Linear(d, Point(0, 0)) <= d.Cells() - 1
    ensures Linear(d, Point(d.BottommostLine(), d.LastColumn())) == d.Cells() - 1
  {
    assert (d.totalLines - 1) * d.columns == d.totalLines * d.columns - d.columns;
    LinearRange(d, Point(0, 0));
  }

  /** Clamping a point to the grid clamps its number. */
  lemma ClampToGrid(d: Dimensions, p: Point)
    requires d.Valid() && p.column < d.columns
    ensures 0 <= d.Cells() - 1
    ensures d.Contains(ClampPoint(d, WholeGrid, p))
    ensures Linear(d, ClampPoint(d, WholeGrid, p)) == ClampIndex(Linear(d, p), 0, d.Cells() - 1)
  {
    EndCells(d);
    LinearRange(d, p);
    if p.line < d.TopmostLine() {
      LinearMonotone(d, p, Point(d.TopmostLine(), 0));
    } else if p.line > d.BottommostLine() {
      LinearMonotone(d, Point(d.BottommostLine(), d.LastColumn()), p);
    }
  }

  /** Clamping a point to the cursor area clamps its number. */
  lemma ClampToCursorArea(d: Dimensions, p: Point)
    requires d.Valid() && p.column < d.columns
    ensures Linear(d, Point(0, 0)) <= d.Cells() - 1
    ensures d.Contains(ClampPoint(d, CursorArea, p))
    ensures Linear(d, ClampPoint(d, CursorArea, p)) == ClampIndex(Linear(d, p), Linear(d, Point(0, 0)), d.Cells() - 1)
  {
    EndCells(d);
    LinearRange(d, p);
    if p.line < 0 {
      LinearMonotone(d, p, Point(0, 0));
    } else if p.line > d.BottommostLine() {
      LinearMonotone(d, Point(d.BottommostLine(), d.LastColumn()), p);
    } else {
      LinearMonotone(d, Point(0, 0), p);
    }
  }

  // ----- Main results -----

  /** `add` and `sub` without a boundary are plus and minus on the cell number modulo the number of cells. */
  lemma WrappingArithmetic(d: Dimensions, p: Point, count: nat)
    requires d.Valid() && d.Contains(p)
    ensures d.Contains(Add(d, Unbounded, p, count)) && d.Contains(Sub(d, Unbounded, p, count))
    ensures Linear(d, Add(d, Unbounded, p, count)) == (Linear(d, p) + count) % d.Cells()
    ensures Linear(d, Sub(d, Unbounded, p, count)) == (Linear(d, p) - count) % d.Cells()
  {
    RawAddIsPlus(d, p, count);
    RawSubIsMinus(d, p, count);
    WrapPointIsModulo(d, RawAdd(d, p, count));
    WrapPointIsModulo(d, RawSub(d, p, count));
  }

  /** With the grid as boundary, the same sum or difference is clamped to the grid. */
  lemma GridClampedArithmetic(d: Dimensions, p: Point, count: nat)
    requires d.Valid() && d.Contains(p)
    ensures 0 <= d.Cells() - 1
    ensures d.Contains(Add(d, WholeGrid, p, count)) && d.Contains(Sub(d, WholeGrid, p, count))
    ensures Linear(d, Add(d, WholeGrid, p, count)) == ClampIndex(Linear(d, p) + count, 0, d.Cells() - 1)
    ensures Linear(d, Sub(d, WholeGrid, p, count)) == ClampIndex(Linear(d, p) - count, 0, d.Cells() - 1)
  {
    RawAddIsPlus(d, p, count);
    RawSubIsMinus(d, p, count);
    ClampToGrid(d, RawAdd(d, p, count));
    ClampToGrid(d, RawSub(d, p, count));
  }

  /** With the cursor area as boundary, it is clamped to the cells from the screen's first on. */
  lemma CursorClampedArithmetic(d: Dimensions, p: Point, count: nat)
    requires d.Valid() && d.Contains(p)
    ensures Linear(d, Point(0, 0)) <= d.Cells() - 1
    ensures d.Contains(Add(d, CursorArea, p, count)) && d.Contains(Sub(d, CursorArea, p, count))
    ensures Linear(d, Add(d, CursorArea, p, count))
         == ClampIndex(Linear(d, p) + count, Linear(d, Point(0, 0)), d.Cells() - 1)
    ensures Linear(d, Sub(d, CursorArea, p, count))
         == ClampIndex(Linear(d, p) - count, Linear(d, Point(0, 0)), d.Cells() - 1)
  {
    RawAddIsPlus(d, p, count);
    RawSubIsMinus(d, p, count);
    ClampToCursorArea(d, RawAdd(d, p, count));
    ClampToCursorArea(d, RawSub(d, p, count));
  }

  /** The cell that wrapping addition reaches is the one with the right number. */
  lemma AddReaches(d: Dimensions, p: Point, count: nat, target: Point)
    requires d.Valid() && d.Contains(p) && d.Contains(target)
    requires (Linear(d, p) + count) % d.Cells() == Linear(d, target)
    ensures Add(d, Unbounded, p, count) == target
  {
    WrappingArithmetic(d, p, count);
    LinearMonotone(d, Add(d, Unbounded, p, count), target);
  }

  /** The cell that wrapping subtraction reaches is the one with the right number. */
  lemma SubReaches(d: Dimensions, p: Point, count: nat, target: Point)
    requires d.Valid() && d.Contains(p) && d.Contains(target)
    requires (Linear(d, p) - count) % d.Cells() == Linear(d, target)
    ensures Sub(d, Unbounded, p, count) == target
  {
    WrappingArithmetic(d, p, count);
    LinearMonotone(d, Sub(d, Unbounded, p, count), target);
  }

  /** A step back from the cell `count` after `p` returns to `p`. */
  lemma StepBack(d: Dimensions, p: Point, after: Point, count: nat)
    requires d.Valid() && d.Contains(p) && d.Contains(after)
    requires Linear(d, after) == (Linear(d, p) + count) % d.Cells()
    ensures Sub(d, Unbounded, after, count) == p
  {
    LinearRange(d, p);
    ModCancel(Linear(d, p), count, d.Cells());
    SubReaches(d, after, count, p);
  }

  /** A step forward from the cell `count` before `p` returns to `p`. */
  lemma StepForward(d: Dimensions, p: Point, before: Point, count: nat)
    requires d.Valid() && d.Contains(p) && d.Contains(before)
    requires Linear(d, before) == (Linear(d, p) - count) % d.Cells()
    ensures Add(d, Unbounded, before, count) == p
  {
    LinearRange(d, p);
    ModCancel(Linear(d, p), 0 - count, d.Cells());
    AddReaches(d, before, count, p);
  }

  /** Without a boundary, subtraction undoes addition and addition undoes subtraction. */
  lemma AddSubInverse(d: Dimensions, p: Point, count: nat)
    requires d.Valid() && d.Contains(p)
    ensures Sub(d, Unbounded, Add(d, Unbounded, p, count), count) == p
    ensures Add(d, Unbounded, Sub(d, Unbounded, p, count), count) == p
  {
    WrappingArithmetic(d, p, count);
    StepBack(d, p, Add(d, Unbounded, p, count), count);
    StepForward(d, p, Sub(d, Unbounded, p, count), count);
  }

  /** Two steps forward from cell number `k` meet one step of the summed length. */
  lemma StepsAdd(d: Dimensions, k: int, middle: Point, end: Point, m: nat, n: nat)
    requires d.Valid() && d.Contains(middle) && d.Contains(end) && 0 < d.Cells()
    requires Linear(d, middle) == (k + m) % d.Cells()
    requires Linear(d, end) == (k + m + n) % d.Cells()
    ensures Add(d, Unbounded, middle, n) == end
  {
    ModAddLeft(k + m, n, d.Cells());
    AddReaches(d, middle, n, end);
  }

  /** Two steps back from cell number `k` meet one step of the summed length. */
  lemma StepsSubtract(d: Dimensions, k: int, middle: Point, end: Point, m: nat, n: nat)
    requires d.Valid() && d.Contains(middle) && d.Contains(end) && 0 < d.Cells()
    requires Linear(d, middle) == (k - m) % d.Cells()
    requires Linear(d, end) == (k - m - n) % d.Cells()
    ensures Sub(d, Unbounded, middle, n) == end
  {
    ModSubLeft(k - m, n, d.Cells());
    SubReaches(d, middle, n, end);
  }

  /** Without a boundary, two steps are one step of the summed length. */
  lemma AddSubAdditive(d: Dimensions, p: Point, m: nat, n: nat)
    requires d.Valid() && d.Contains(p)
    ensures Add(d, Unbounded, Add(d, Unbounded, p, m), n) == Add(d, Unbounded, p, m + n)
    ensures Sub(d, Unbounded, Sub(d, Unbounded, p, m), n) == Sub(d, Unbounded, p, m + n)
  {
    WrappingArithmetic(d, p, m);
    WrappingArithmetic(d, p, m + n);
    LinearRange(d, p);
    StepsAdd(d, Linear(d, p), Add(d, Unbounded, p, m), Add(d, Unbounded, p, m + n), m, n);
    StepsSubtract(d, Linear(d, p), Sub(d, Unbounded, p, m), Sub(d, Unbounded, p, m + n), m, n);
  }
}
