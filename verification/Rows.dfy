/** Rows of the grid, which remember how far they have been written so that a reset can skip clean cells. */
module Rows {
  import opened Arith

  type Color = nat

  const BACKGROUND: Color := 0
  const FOREGROUND: Color := 1

  /** A terminal cell; `marked` stands for the flags that make a cell non-empty and `other` for the other ones, the
      hyperlink and the underline colour. */
  datatype Cell = Cell(c: char, fg: Color, bg: Color, marked: bool, zerowidth: seq<char>, other: nat) {
    predicate IsEmpty() {
      (c == ' ' || c == '\t') && bg == BACKGROUND && fg == FOREGROUND && !marked && zerowidth == []
    }
  }

  /** The cell that resetting with a background colour leaves behind. */
  function Blank(bg: Color): Cell {
    Cell(' ', FOREGROUND, bg, false, [], 0)
  }

  const DEFAULT_CELL: Cell := Blank(BACKGROUND)

  function Repeat<T>(n: nat, x: T): (s: seq<T>)
    ensures |s| == n && forall i :: 0 <= i < n ==> s[i] == x
  {
    seq(n, _ => x)
  }

  /** Cells and an upper bound on the cells written since the last reset. */
  datatype Row = Row(cells: seq<Cell>, occ: nat) {

    /** From `occ` on, all cells are the blank of one background colour. */
    predicate Clean() {
      occ <= |cells| && forall i :: occ <= i < |cells| ==> cells[i] == Blank(cells[|cells| - 1].bg)
    }

    /** Reset that touches only the cells below `occ`, unless the background colour changes. */
    function Reset(template: Cell): Row
      requires |cells| >= 1 && occ <= |cells|
    {
      var dirty := if cells[|cells| - 1].bg != template.bg then |cells| else occ;
      Row(Repeat(dirty, Blank(template.bg)) + cells[dirty..], 0)
    }

    function Grow(columns: nat): Row {
      if |cells| >= columns then this else Row(cells + Repeat(columns - |cells|, DEFAULT_CELL), occ)
    }

    function Shrink(columns: nat): Row {
      if |cells| <= columns then this else Row(cells[..columns], Min(occ, columns))
    }

    function Append(more: seq<Cell>): Row { Row(cells + more, occ + |more|) }

    function AppendFront(more: seq<Cell>): Row { Row(more + cells, occ + |more|) }

    function FrontSplitOff(at: nat): Row
      requires at <= |cells|
    {
      Row(cells[at..], if occ <= at then 0 else occ - at)
    }

    /** Cells `lo` to `hi` handed out for writing and replaced. */
    function Write(lo: nat, content: seq<Cell>): Row
      requires lo + |content| <= |cells|
    {
      Row(cells[..lo] + content + cells[lo + |content|..], Max(occ, lo + |content|))
    }

    /** All cells from `lo` on handed out for writing and replaced. */
    function WriteFrom(lo: nat, content: seq<Cell>): Row
      requires lo + |content| == |cells|
    {
      Row(cells[..lo] + content, |cells|)
    }
  }

  function NewRow(columns: nat): Row {
    Row(Repeat(columns, DEFAULT_CELL), 0)
  }

  // ----- What keeps a row clean -----

  /** Main result: the lazy reset leaves every cell as a reset of all cells would, and the row clean. */
  lemma LazyResetIsFull(row: Row, template: Cell)
    requires row.Clean() && |row.cells| >= 1
    ensures row.Reset(template).cells == Repeat(|row.cells|, Blank(template.bg))
    ensures row.Reset(template).Clean()
  {
  }

  /** Resetting as if all cells were reset, whatever the template. */
  ghost predicate ResetsFully(row: Row)
    requires |row.cells| >= 1 && row.occ <= |row.cells|
  {
    forall template: Cell :: row.Reset(template).cells == Repeat(|row.cells|, Blank(template.bg))
  }

  /** Being clean is exactly what the lazy reset needs. */
  lemma ResetsFullyIffClean(row: Row)
    requires |row.cells| >= 1 && row.occ <= |row.cells|
    ensures ResetsFully(row) <==> row.Clean()
  {
    if ResetsFully(row) {
      var n := |row.cells|;
      var template := Blank(row.cells[n - 1].bg);
      var reset := row.Reset(template);
      forall i | row.occ <= i < n
        ensures row.cells[i] == template
      {
        assert reset.cells[i] == row.cells[i];
      }
    } else if row.Clean() {
      var template: Cell :| row.Reset(template).cells != Repeat(|row.cells|, Blank(template.bg));
      LazyResetIsFull(row, template);
    }
  }

  lemma NewRowClean(columns: nat)
    ensures NewRow(columns).Clean()
  {
  }

  lemma WriteKeepsClean(row: Row, lo: nat, content: seq<Cell>)
    requires row.Clean() && lo + |content| <= |row.cells|
    ensures row.Write(lo, content).Clean()
    ensures lo + |content| == |row.cells| ==> row.WriteFrom(lo, content).Clean()
  {
    var r := row.Write(lo, content);
    var last := |row.cells| - 1;
    if r.occ < |r.cells| {
      assert r.cells[last] == row.cells[last];
    }
  }

  lemma ResizeKeepsClean(row: Row, columns: nat, at: nat, more: seq<Cell>)
    requires row.Clean() && at <= |row.cells|
    ensures row.Shrink(columns).Clean()
    ensures row.FrontSplitOff(at).Clean()
    ensures row.AppendFront(more).Clean()
  {
    var s, f, a := row.Shrink(columns), row.FrontSplitOff(at), row.AppendFront(more);
    assert f.occ < |f.cells| ==> f.cells[|f.cells| - 1] == row.cells[|row.cells| - 1];
    assert a.occ < |a.cells| ==> a.cells[|a.cells| - 1] == row.cells[|row.cells| - 1];
    forall i | s.occ <= i < |s.cells|
      ensures s.cells[i] == Blank(s.cells[|s.cells| - 1].bg)
    {
      assert s.cells[|s.cells| - 1] == Blank(row.cells[|row.cells| - 1].bg);
    }
  }

  /** Growing keeps a row clean exactly when its clean part is empty or of the default background. */
  lemma GrowKeepsCleanIff(row: Row, columns: nat)
    requires row.Clean() && |row.cells| < columns
    ensures row.Grow(columns).Clean() <==> row.occ == |row.cells| || row.cells[|row.cells| - 1].bg == BACKGROUND
  {
    var g := row.Grow(columns);
    assert g.cells[columns - 1] == DEFAULT_CELL;
    if row.occ < |row.cells| {
      assert g.cells[|row.cells| - 1] == row.cells[|row.cells| - 1] == Blank(row.cells[|row.cells| - 1].bg);
    }
  }

  /** The cells that end up behind the bound when cells are appended to a row with a clean part. */
  predicate TailStaysBlank(row: Row, more: seq<Cell>)
    requires row.occ <= |row.cells|
  {
    var clean := |row.cells| - row.occ;
    var bg := if |more| >= 1 then more[|more| - 1].bg else 0;
    && (forall i :: Max(clean, |more|) - clean <= i < |more| ==> more[i] == Blank(bg))
    && (1 <= |more| < clean ==> bg == row.cells[|row.cells| - 1].bg)
  }

  /** Appending keeps a row clean exactly when it has no clean part or the appended cells' end is blank too. */
  lemma AppendKeepsCleanIff(row: Row, more: seq<Cell>)
    requires row.Clean()
    ensures row.Append(more).Clean() <==> row.occ == |row.cells| || TailStaysBlank(row, more)
  {
    var a, len, clean := row.Append(more), |row.cells|, |row.cells| - row.occ;
    forall i | 0 <= i < |more|
      ensures a.cells[len + i] == more[i]
    {
    }
    if more == [] {
      assert a.cells == row.cells;
    } else if clean > 0 {
      assert a.cells[|a.cells| - 1] == more[|more| - 1];
      assert row.cells[len - 1] == Blank(row.cells[len - 1].bg);
      if a.Clean() {
        forall i | Max(clean, |more|) - clean <= i < |more|
          ensures more[i] == Blank(more[|more| - 1].bg)
        {
          assert a.cells[len + i] == more[i];
        }
        if |more| < clean {
          assert a.cells[len - 1] == row.cells[len - 1];
        }
      }
    }
  }

  // ----- What the operations undo -----

  /** An empty cell is a default cell, but for a tab and the attributes that do not count. */
  lemma EmptyIffDefault(cell: Cell)
    ensures cell.IsEmpty() <==> cell.(c := ' ', other := 0) == DEFAULT_CELL && (cell.c == ' ' || cell.c == '\t')
  {
  }

  /** Shrinking undoes growing, which adds default cells; splitting off undoes appending in front. */
  lemma RowRoundTrips(row: Row, columns: nat, more: seq<Cell>)
    ensures |row.cells| <= columns ==>
      && row.Grow(columns).cells == row.cells + Repeat(columns - |row.cells|, DEFAULT_CELL)
      && row.Grow(columns).Shrink(|row.cells|).cells == row.cells
      && (row.occ <= |row.cells| ==> row.Grow(columns).Shrink(|row.cells|) == row)
    ensures columns <= |row.cells| ==> row.Shrink(columns).cells == row.cells[..columns] && row.Grow(columns) == row
    ensures row.AppendFront(more).FrontSplitOff(|more|) == row
    ensures row.Append(more).cells[..|row.cells|] == row.cells && row.Append(more).cells[|row.cells|..] == more
    ensures row.AppendFront(more).cells[..|more|] == more
  {
  }

  /** What is written is read back, and nothing else changes. */
  lemma WriteReads(row: Row, lo: nat, content: seq<Cell>, i: nat)
    requires lo + |content| <= |row.cells| && i < |row.cells|
    ensures |row.Write(lo, content).cells| == |row.cells|
    ensures row.Write(lo, content).cells[i] == if lo <= i < lo + |content| then content[i - lo] else row.cells[i]
    ensures lo + |content| == |row.cells| ==>
      row.WriteFrom(lo, content).cells == row.Write(lo, content).cells && row.WriteFrom(lo, content).occ == |row.cells|
  {
  }

  // ----- The row as it is updated in place -----

  class RowBuffer {
    var cells: seq<Cell>
    var occ: nat

    ghost function Value(): Row
      reads this
    {
      Row(cells, occ)
    }

    constructor (columns: nat)
      ensures Value() == NewRow(columns) && Value().Clean()
    {
      cells := Repeat(columns, DEFAULT_CELL);
      occ := 0;
    }

    method Grow(columns: nat)
      modifies this
      ensures Value() == old(Value()).Grow(columns)
    {
      if |cells| >= columns {
        return;
      }
      cells := cells + Repeat(columns - |cells|, DEFAULT_CELL);
    }

    /** Cut the row and give back the removed cells up to the last non-empty one. */
    method Shrink(columns: nat) returns (removed: seq<Cell>)
      modifies this
      ensures Value() == old(Value()).Shrink(columns)
      ensures columns <= |old(cells)| ==> cells + removed <= old(cells)
      ensures removed != [] ==> !removed[|removed| - 1].IsEmpty()
      ensures forall i :: |cells| + |removed| <= i < |old(cells)| ==> old(cells)[i].IsEmpty()
    {
      if |cells| <= columns {
        return [];
      }
      removed := cells[columns..];
      var index := |removed|;
      while index > 0 && removed[index - 1].IsEmpty()
        invariant 0 <= index <= |removed|
        invariant forall i :: index <= i < |removed| ==> removed[i].IsEmpty()
      {
        index := index - 1;
      }
      removed := removed[..index];
      cells := cells[..columns];
      occ := Min(occ, columns);
    }

    method Reset(template: Cell)
      requires |cells| >= 1 && Value().Clean()
      modifies this
      ensures Value() == old(Value()).Reset(template)
      ensures Value().Clean() && cells == Repeat(|old(cells)|, Blank(template.bg))
    {
      LazyResetIsFull(Value(), template);
      var len := |cells|;
      if cells[len - 1].bg != template.bg {
        occ := len;
      }
      var i := 0;
      while i < occ
        invariant 0 <= i <= occ <= len == |cells|
        invariant occ == if old(cells)[len - 1].bg != template.bg then len else old(occ)
        invariant forall j :: 0 <= j < i ==> cells[j] == Blank(template.bg)
        invariant forall j :: i <= j < len ==> cells[j] == old(cells)[j]
      {
        cells := cells[i := Blank(template.bg)];
        i := i + 1;
      }
      occ := 0;
      assert cells == old(Value()).Reset(template).cells;
    }

    method Write(lo: nat, content: seq<Cell>)
      requires lo + |content| <= |cells|
      modifies this
      ensures Value() == old(Value()).Write(lo, content)
      ensures old(Value().Clean()) ==> Value().Clean()
    {
      if Value().Clean() {
        WriteKeepsClean(Value(), lo, content);
      }
      occ := Max(occ, lo + |content|);
      cells := cells[..lo] + content + cells[lo + |content|..];
    }
  }
}
