/** The grid of lines: scrolling by rotating the ring and swapping rows, against scrolling as list surgery. */
module Grid {
  import opened Arith
  import opened Rows
  import S = Storage

  type Line = seq<Cell>

  // ----- Scrolling as list surgery -----
  //
  // A text lists its lines from the bottom of the screen upward, so that the scrollback comes last. Line `h` of
  // each result is given by where it comes from.

  /** The whole screen above the lowest `fixed` lines moves up; lines beyond `limit` are forgotten. */
  function MovedUp(text: seq<Line>, fixed: nat, p: nat, limit: nat, blank: Line): seq<Line> {
    seq(Min(|text| + p, limit), h requires 0 <= h < |text| + p =>
      if h < fixed && h < |text| then text[h] else if h < fixed + p || h < p then blank else text[h - p])
  }

  /** The lines from `low` to `high` move up by `p` and lose the topmost. */
  function RegionUp(text: seq<Line>, low: nat, high: nat, p: nat, blank: Line): seq<Line> {
    seq(|text|, h requires 0 <= h < |text| =>
      if h < low || high <= h then text[h] else if h < low + p then blank else text[h - p])
  }

  /** The lines from `low` to `high` move down by `p` and lose the lowest. */
  function RegionDown(text: seq<Line>, low: nat, high: nat, p: nat, blank: Line): seq<Line>
    requires high <= |text|
  {
    seq(|text|, h requires 0 <= h < |text| =>
      if h < low || high <= h then text[h] else if h + p < high then text[h + p] else blank)
  }

  /** A text of `screen` visible lines after the lines between `top` and `bottom` move up by `p`. */
  function ScrolledUp(
    text: seq<Line>, screen: nat, top: int, bottom: int, p: nat, limit: nat, blank: Line): seq<Line>
    requires 0 <= top < bottom <= screen <= |text| && (top == 0 ==> p <= bottom)
  {
    if top == 0 then MovedUp(text, screen - bottom, p, screen + limit, blank)
    else RegionUp(text, screen - bottom, screen - top, Min(p, bottom - top), blank)
  }

  /** A text after the lines between `top` and `bottom` move down by `p`. */
  function ScrolledDown(text: seq<Line>, screen: nat, top: int, bottom: int, p: nat, blank: Line): seq<Line>
    requires 0 <= top < bottom <= screen <= |text|
  {
    RegionDown(text, screen - bottom, screen - top, Min(p, bottom - top), blank)
  }

  // ----- Resizing as list surgery -----

  /** Lines that a smaller screen pushes into the scrollback so that the terminal cursor stays on it. */
  function Pushed(target: nat, cursorLine: int): nat {
    Max(cursorLine + 1 - target, 0)
  }

  /** A text on a smaller screen: lines below the cursor are dropped first, then lines beyond the limit. */
  function ShrunkText(text: seq<Line>, screen: nat, target: nat, cursorLine: int, limit: nat): seq<Line>
    requires 1 <= target <= screen <= |text| && cursorLine < screen
  {
    var pushed := Pushed(target, cursorLine);
    text[screen - target - pushed..Min(|text|, screen + limit - pushed)]
  }

  /** A text on a larger screen: lines come back from the scrollback, and blank ones are added below. */
  function GrownText(text: seq<Line>, screen: nat, target: nat, blank: Line): seq<Line>
    requires screen <= target && screen <= |text|
  {
    if target <= |text| then text else Repeat(target - |text|, blank) + text
  }

  function ResizedText(text: seq<Line>, screen: nat, target: nat, cursorLine: int, limit: nat, blank: Line): seq<Line>
    requires 1 <= target && screen <= |text| && cursorLine < screen
  {
    if target <= screen then ShrunkText(text, screen, target, cursorLine, limit)
    else GrownText(text, screen, target, blank)
  }

  lemma ResizedLength(text: seq<Line>, screen: nat, target: nat, cursorLine: int, limit: nat, blank: Line)
    requires 1 <= target && 1 <= screen <= |text| && 0 <= cursorLine < screen
    ensures |ResizedText(text, screen, target, cursorLine, limit, blank)|
         == if target <= screen then Min(|text| - (screen - target) + Pushed(target, cursorLine), target + limit)
            else Max(|text|, target)
  {
  }

  /** How far resizing moves the content down. */
  function ResizeDelta(length: nat, screen: nat, target: nat, cursorLine: int): int {
    Min(Max(target - screen, Min(0, target - cursorLine - 1)), length - screen)
  }

  /** Display offset after resizing, if it did not exceed the scrollback. */
  function ResizedOffset(offset: nat, screen: nat, target: nat, cursorLine: int, limit: nat): nat {
    if screen < target then Max(offset - (target - screen), 0)
    else if offset == 0 then 0
    else Min(offset + Pushed(target, cursorLine), limit)
  }

  /** Line of the terminal cursor after resizing. */
  function ResizedCursor(length: nat, screen: nat, target: nat, cursorLine: int): int {
    if target < screen then Min(cursorLine, target - 1)
    else cursorLine + Max(Min(length - screen, target - screen), 0)
  }

  // ----- What is displayed -----

  /** Display offset after scrolling up, which may only move while the view is not at the bottom. */
  function ScrolledOffset(offset: nat, top: int, bottom: int, p: nat, limit: nat): nat {
    if offset == 0 || (top != 0 && bottom - top <= p) then offset else Min(offset + p, limit)
  }

  /** The lines that are displayed, if the offset does not exceed the scrollback. */
  function Displayed(text: seq<Line>, screen: nat, offset: nat): seq<Line>
    requires offset + screen <= |text|
  {
    text[offset..offset + screen]
  }

  /** When scrolling up leaves the offset within the scrollback. */
  predicate OffsetStays(length: nat, screen: nat, top: int, bottom: int, p: nat, limit: nat, offset: nat) {
    top == 0 || offset == 0 || bottom - top <= p || Min(offset + p, limit) + screen <= length
  }

  /** A region below a fixed top raises the offset although no line enters the scrollback, so the offset can leave
      it; this is the only way. */
  lemma OffsetStaysIff(
    text: seq<Line>, screen: nat, top: int, bottom: int, p: nat, limit: nat, blank: Line, offset: nat)
    requires 0 <= top < bottom <= screen && offset + screen <= |text| <= screen + limit && (top == 0 ==> p <= bottom)
    ensures ScrolledOffset(offset, top, bottom, p, limit) + screen
              <= |ScrolledUp(text, screen, top, bottom, p, limit, blank)|
       <==> OffsetStays(|text|, screen, top, bottom, p, limit, offset)
  {
  }

  /** For instance, deleting a line below the first one while the topmost line of the scrollback is shown. */
  lemma OffsetLeavesScrollback(text: seq<Line>, screen: nat, p: nat, limit: nat, blank: Line)
    requires 3 <= screen < |text| < screen + limit && 1 <= p < screen - 1
    ensures ScrolledOffset(|text| - screen, 1, screen, p, limit) + screen
              > |ScrolledUp(text, screen, 1, screen, p, limit, blank)|
  {
    OffsetStaysIff(text, screen, 1, screen, p, limit, blank, |text| - screen);
  }

  /** When scrolling up leaves a view of the scrollback on its lines: a whole screen moves into the scrollback below
      its limit and no fixed line is in view, or a region out of view moves and the offset does not. */
  predicate KeepsView(screen: nat, top: int, bottom: int, p: nat, limit: nat, offset: nat) {
    p == 0 ||
    if top == 0 then offset + p <= limit && screen - bottom <= offset
    else (bottom - top <= p || offset == limit) && screen - top <= offset
  }

  lemma MovedUpView(text: seq<Line>, fixed: nat, p: nat, limit: nat, blank: Line, offset: nat, screen: nat)
    requires fixed <= offset && offset + screen <= |text| && offset + p + screen <= limit
    ensures |MovedUp(text, fixed, p, limit, blank)| >= offset + p + screen
    ensures MovedUp(text, fixed, p, limit, blank)[offset + p..offset + p + screen] == text[offset..offset + screen]
  {
    var moved := MovedUp(text, fixed, p, limit, blank);
    var after, before := moved[offset + p..offset + p + screen], text[offset..offset + screen];
    forall i | 0 <= i < screen
      ensures after[i] == before[i]
    {
      assert moved[offset + p + i] == text[offset + i];
    }
  }

  lemma RegionUpView(text: seq<Line>, low: nat, high: nat, p: nat, blank: Line, offset: nat, screen: nat)
    requires high <= offset && offset + screen <= |text|
    ensures RegionUp(text, low, high, p, blank)[offset..offset + screen] == text[offset..offset + screen]
  {
  }

  lemma MovedByNothing(text: seq<Line>, low: nat, high: nat, limit: nat, blank: Line)
    requires |text| <= limit
    ensures MovedUp(text, low, 0, limit, blank) == text == RegionUp(text, low, high, 0, blank)
  {
  }

  lemma WholeViewKept(text: seq<Line>, screen: nat, bottom: int, p: nat, limit: nat, blank: Line, offset: nat)
    requires 0 < bottom <= screen && 1 <= p <= bottom && offset + screen <= |text| <= screen + limit
    requires offset != 0 && KeepsView(screen, 0, bottom, p, limit, offset)
    ensures var moved, after := ScrolledUp(text, screen, 0, bottom, p, limit, blank), offset + p;
      after == ScrolledOffset(offset, 0, bottom, p, limit) && after + screen <= |moved|
      && Displayed(moved, screen, after) == Displayed(text, screen, offset)
  {
    MovedUpView(text, screen - bottom, p, screen + limit, blank, offset, screen);
  }

  lemma RegionViewKept(
    text: seq<Line>, screen: nat, top: int, bottom: int, p: nat, limit: nat, blank: Line, offset: nat)
    requires 0 < top < bottom <= screen && 1 <= p && offset + screen <= |text| <= screen + limit
    requires offset != 0 && KeepsView(screen, top, bottom, p, limit, offset)
    ensures var moved := ScrolledUp(text, screen, top, bottom, p, limit, blank);
      offset == ScrolledOffset(offset, top, bottom, p, limit) && offset + screen <= |moved|
      && Displayed(moved, screen, offset) == Displayed(text, screen, offset)
  {
    RegionUpView(text, screen - bottom, screen - top, Min(p, bottom - top), blank, offset, screen);
  }

  lemma ViewKept(text: seq<Line>, screen: nat, top: int, bottom: int, p: nat, limit: nat, blank: Line, offset: nat)
    requires 0 <= top < bottom <= screen && offset + screen <= |text| <= screen + limit && (top == 0 ==> p <= bottom)
    requires offset != 0 && KeepsView(screen, top, bottom, p, limit, offset)
    ensures var moved, after :=
        ScrolledUp(text, screen, top, bottom, p, limit, blank), ScrolledOffset(offset, top, bottom, p, limit);
      after + screen <= |moved| && Displayed(moved, screen, after) == Displayed(text, screen, offset)
  {
    if p == 0 {
      MovedByNothing(text, screen - bottom, screen - top, screen + limit, blank);
    } else if top == 0 {
      WholeViewKept(text, screen, bottom, p, limit, blank, offset);
    } else {
      RegionViewKept(text, screen, top, bottom, p, limit, blank, offset);
    }
  }

  /** Lines that can be told apart, also from blank ones. */
  predicate Distinct(text: seq<Line>, blank: Line) {
    blank !in text && forall i, j :: 0 <= i < j < |text| ==> text[i] != text[j]
  }

  /** A displayed line that is wrong when the view is not kept. */
  lemma ViewMoves(text: seq<Line>, screen: nat, top: int, bottom: int, p: nat, limit: nat, blank: Line, offset: nat)
    returns (i: nat)
    requires 0 <= top < bottom <= screen && offset + screen <= |text| <= screen + limit && (top == 0 ==> p <= bottom)
    requires offset != 0 && Distinct(text, blank) && !KeepsView(screen, top, bottom, p, limit, offset)
    requires ScrolledOffset(offset, top, bottom, p, limit) + screen
               <= |ScrolledUp(text, screen, top, bottom, p, limit, blank)|
    ensures i < screen
    ensures ScrolledUp(text, screen, top, bottom, p, limit, blank)[ScrolledOffset(offset, top, bottom, p, limit) + i]
         != text[offset + i]
  {
    if top == 0 && offset + p <= limit {
      i := 0;
    } else if top != 0 && (bottom - top <= p || offset == limit) {
      i := Max(screen - bottom - offset, 0);
    } else {
      i := screen - 1;
    }
  }

  lemma DisplayedDiffer(a: seq<Line>, j: nat, b: seq<Line>, k: nat, screen: nat, i: nat)
    requires j + screen <= |a| && k + screen <= |b| && i < screen && a[j + i] != b[k + i]
    ensures Displayed(a, screen, j) != Displayed(b, screen, k)
  {
    assert Displayed(a, screen, j)[i] == a[j + i] && Displayed(b, screen, k)[i] == b[k + i];
  }

  lemma ViewNotKept(text: seq<Line>, screen: nat, top: int, bottom: int, p: nat, limit: nat, blank: Line, offset: nat)
    requires 0 <= top < bottom <= screen && offset + screen <= |text| <= screen + limit && (top == 0 ==> p <= bottom)
    requires offset != 0 && Distinct(text, blank) && !KeepsView(screen, top, bottom, p, limit, offset)
    requires ScrolledOffset(offset, top, bottom, p, limit) + screen
               <= |ScrolledUp(text, screen, top, bottom, p, limit, blank)|
    ensures Displayed(ScrolledUp(text, screen, top, bottom, p, limit, blank), screen,
                      ScrolledOffset(offset, top, bottom, p, limit))
         != Displayed(text, screen, offset)
  {
    var i := ViewMoves(text, screen, top, bottom, p, limit, blank, offset);
    DisplayedDiffer(ScrolledUp(text, screen, top, bottom, p, limit, blank),
                    ScrolledOffset(offset, top, bottom, p, limit), text, offset, screen, i);
  }

  /** Main result: scrolled back, the view stays on its lines exactly under `KeepsView`. */
  lemma ViewKeptIff(text: seq<Line>, screen: nat, top: int, bottom: int, p: nat, limit: nat, blank: Line, offset: nat)
    requires 0 <= top < bottom <= screen && offset + screen <= |text| <= screen + limit && (top == 0 ==> p <= bottom)
    requires offset != 0 && Distinct(text, blank)
    ensures var moved, after :=
        ScrolledUp(text, screen, top, bottom, p, limit, blank), ScrolledOffset(offset, top, bottom, p, limit);
      KeepsView(screen, top, bottom, p, limit, offset)
      <==> after + screen <= |moved| && Displayed(moved, screen, after) == Displayed(text, screen, offset)
  {
    if KeepsView(screen, top, bottom, p, limit, offset) {
      ViewKept(text, screen, top, bottom, p, limit, blank, offset);
    } else if ScrolledOffset(offset, top, bottom, p, limit) + screen
                <= |ScrolledUp(text, screen, top, bottom, p, limit, blank)| {
      ViewNotKept(text, screen, top, bottom, p, limit, blank, offset);
    }
  }

  ghost predicate RowsOk(ring: seq<Row>, columns: nat) {
    forall i :: 0 <= i < |ring| ==> ring[i].Clean() && |ring[i].cells| == columns
  }

  function Text(ring: seq<Row>, len: nat): (t: seq<Line>)
    requires len <= |ring|
    ensures |t| == len
  {
    seq(len, i requires 0 <= i < len => ring[i].cells)
  }

  // ----- Chains of swaps -----

  /** Swap `b` with `b + p`, then `b + 1` with `b + 1 + p`, and so on, `n` times. */
  ghost function SwapsUpward<T>(ring: seq<T>, b: nat, n: nat, p: nat): (r: seq<T>)
    requires b + n + p <= |ring|
    ensures |r| == |ring|
  {
    if n == 0 then ring else S.Exchanged(SwapsUpward(ring, b, n - 1, p), b + n - 1, b + n - 1 + p)
  }

  /** Swap `e - 1` with `e - 1 - p`, then `e - 2` with `e - 2 - p`, and so on, `n` times. */
  ghost function SwapsDownward<T>(ring: seq<T>, e: nat, n: nat, p: nat): (r: seq<T>)
    requires n + p <= e <= |ring|
    ensures |r| == |ring|
  {
    if n == 0 then ring else S.Exchanged(SwapsDownward(ring, e, n - 1, p), e - n, e - n - p)
  }

  lemma {:induction false} SwapsUpwardShift<T>(ring: seq<T>, b: nat, n: nat, p: nat)
    requires b + n + p <= |ring|
    ensures forall x :: 0 <= x < b ==> SwapsUpward(ring, b, n, p)[x] == ring[x]
    ensures forall x :: b <= x < b + n ==> SwapsUpward(ring, b, n, p)[x] == ring[x + p]
    ensures forall x :: b + n + p <= x < |ring| ==> SwapsUpward(ring, b, n, p)[x] == ring[x]
  {
    if n > 0 {
      SwapsUpwardShift(ring, b, n - 1, p);
    }
  }

  lemma {:induction false} SwapsDownwardShift<T>(ring: seq<T>, e: nat, n: nat, p: nat)
    requires n + p <= e <= |ring|
    ensures forall x :: e <= x < |ring| ==> SwapsDownward(ring, e, n, p)[x] == ring[x]
    ensures forall x :: e - n <= x < e ==> SwapsDownward(ring, e, n, p)[x] == ring[x - p]
    ensures forall x :: 0 <= x < e - n - p ==> SwapsDownward(ring, e, n, p)[x] == ring[x]
  {
    if n > 0 {
      SwapsDownwardShift(ring, e, n - 1, p);
    }
  }

  /** The `p` rows that started out on top of a downward chain travel to its end. */
  lemma {:induction false} SwapsDownwardCarries(ring: seq<Row>, e: nat, n: nat, p: nat, line: Line)
    requires n + p <= e <= |ring|
    requires forall x :: e - p <= x < e ==> ring[x].cells == line
    ensures forall x :: e - n - p <= x < e - n ==> SwapsDownward(ring, e, n, p)[x].cells == line
  {
    if n > 0 {
      SwapsDownwardCarries(ring, e, n - 1, p, line);
    }
  }

  /** `after` is `before` with the rows from `low` to `high` blank. */
  ghost predicate BlankBetween(before: seq<Row>, after: seq<Row>, low: int, high: int, line: Line) {
    && |after| == |before|
    && (forall h :: 0 <= h < |after| && low <= h < high ==> after[h].cells == line)
    && (forall h :: 0 <= h < |after| && !(low <= h < high) ==> after[h] == before[h])
  }

  // ----- What the ring operations do to the text -----

  /** The first rows of a ring hold the lines of a text. */
  ghost predicate Holds(ring: seq<Row>, text: seq<Line>) {
    |text| <= |ring| && forall h :: 0 <= h < |text| ==> ring[h].cells == text[h]
  }

  lemma TurnedUpAt(ring: seq<Row>, p: nat)
    requires p <= |ring|
    ensures |S.TurnedUp(ring, p)| == |ring|
    ensures forall h :: 0 <= h < |ring| - p ==> S.TurnedUp(ring, p)[h + p] == ring[h]
  {
  }

  /** Turning up by `p`, restoring the lowest `fixed` lines and blanking the gap is moving up. */
  lemma MovedUpByTurning(
    r0: seq<Row>, r2: seq<Row>, r3: seq<Row>, text: seq<Line>, fixed: nat, p: nat, limit: nat, len: nat, blank: Line)
    requires fixed + p <= |r0| && r2 == SwapsUpward(S.TurnedUp(r0, p), 0, fixed, p)
    requires BlankBetween(r2, r3, fixed, fixed + p, blank)
    requires Holds(r0, text)
    requires fixed <= |text| && fixed + p <= len == Min(|text| + p, limit) <= |r0|
    ensures Text(r3, len) == MovedUp(text, fixed, p, limit, blank)
  {
    var r1 := S.TurnedUp(r0, p);
    TurnedUpAt(r0, p);
    SwapsUpwardShift(r1, 0, fixed, p);
    var moved := MovedUp(text, fixed, p, limit, blank);
    forall h | 0 <= h < len
      ensures r3[h].cells == moved[h]
    {
      if h < fixed {
        assert r3[h] == r1[h + p];
      } else if fixed + p <= h {
        assert r3[h] == r1[h - p + p];
      }
    }
  }

  /** Swapping a region's rows upward and blanking the gap moves the region up. */
  lemma RegionUpBySwaps(
    r0: seq<Row>, r1: seq<Row>, r2: seq<Row>, low: nat, high: nat, p: nat, len: nat, blank: Line)
    requires low + p <= high <= len <= |r0|
    requires r1 == SwapsDownward(r0, high, high - p - low, p) && BlankBetween(r1, r2, low, low + p, blank)
    ensures Text(r2, len) == RegionUp(Text(r0, len), low, high, p, blank)
  {
    SwapsDownwardShift(r0, high, high - p - low, p);
    var up := RegionUp(Text(r0, len), low, high, p, blank);
    forall h | 0 <= h < len
      ensures r2[h].cells == up[h]
    {
      assert high <= h || h < low ==> r2[h] == r1[h] == r0[h];
    }
  }

  /** Swapping a region's rows downward and blanking the gap moves the region down. */
  lemma RegionDownBySwaps(
    r0: seq<Row>, r1: seq<Row>, r2: seq<Row>, low: nat, high: nat, p: nat, len: nat, blank: Line)
    requires low + p <= high <= len <= |r0|
    requires r1 == SwapsUpward(r0, low, high - p - low, p) && BlankBetween(r1, r2, high - p, high, blank)
    ensures Text(r2, len) == RegionDown(Text(r0, len), low, high, p, blank)
  {
    SwapsUpwardShift(r0, low, high - p - low, p);
    var down := RegionDown(Text(r0, len), low, high, p, blank);
    forall h | 0 <= h < len
      ensures r2[h].cells == down[h]
    {
      assert high <= h || h < low ==> r2[h] == r1[h] == r0[h];
    }
  }

  lemma RowsOkTurned(ring: seq<Row>, columns: nat, k: nat)
    requires RowsOk(ring, columns) && k <= |ring|
    ensures RowsOk(S.Turned(ring, k), columns) && RowsOk(S.TurnedUp(ring, k), columns)
  {
  }

  /** Writing a cell of a row changes that cell of the text. */
  lemma CellWritten(ring: seq<Row>, columns: nat, len: nat, h: nat, column: nat, cell: Cell)
    requires RowsOk(ring, columns) && h < len <= |ring| && column < columns
    ensures RowsOk(ring[h := ring[h].Write(column, [cell])], columns)
    ensures Text(ring[h := ring[h].Write(column, [cell])], len)
         == Text(ring, len)[h := Text(ring, len)[h][column := cell]]
  {
    WriteKeepsClean(ring[h], column, [cell]);
    assert ring[h].Write(column, [cell]).cells == ring[h].cells[column := cell];
  }

  /** Turning down by `k` puts the lowest `k` rows out of the text. */
  lemma CutByTurning(r0: seq<Row>, k: nat, r1: seq<Row>, len: nat, columns: nat)
    requires k <= len <= |r0| && len - k <= |r1| <= |r0| && r1 == S.Turned(r0, k)[..|r1|] && RowsOk(r0, columns)
    ensures RowsOk(r1, columns) && Text(r1, len - k) == Text(r0, len)[k..]
  {
    forall h | 0 <= h < |r1|
      ensures r1[h] == r0[if h + k < |r0| then h + k else h + k - |r0|]
    {
    }
  }

  /** Of the lowest `len` rows, the lowest `low` stay and the others come down by `p`. */
  ghost predicate Lowered(before: seq<Row>, after: seq<Row>, low: nat, p: nat, len: nat) {
    && low + p <= len <= |before| == |after|
    && (forall h :: 0 <= h < low ==> after[h] == before[h])
    && (forall h :: low <= h < len - p ==> after[h] == before[h + p])
  }

  /** Raising the lowest `low` lines by `p` and turning down by `p` keeps them and lowers the others. */
  lemma LoweredByTurning(r0: seq<Row>, r1: seq<Row>, r2: seq<Row>, low: nat, p: nat, len: nat)
    requires low + p <= len <= |r0|
    requires r1 == SwapsDownward(r0, low + p, low, p) && r2 == S.Turned(r1, p)
    ensures Lowered(r0, r2, low, p, len)
  {
    SwapsDownwardShift(r0, low + p, low, p);
    assert forall h :: 0 <= h < len - p ==> r2[h] == r1[h + p];
  }

  /** Without scrollback: raising the lowest lines, turning down by `p`, blanking the top and restoring the
      highest lines moves the region between them down. */
  lemma RegionDownByTurning(
    r0: seq<Row>, r2: seq<Row>, r3: seq<Row>, r4: seq<Row>, low: nat, high: nat, p: nat, len: nat, blank: Line)
    requires low + p <= high <= len <= |r0| && Lowered(r0, r2, low, p, len)
    requires BlankBetween(r2, r3, len - p, len, blank) && r4 == SwapsDownward(r3, len, len - high, p)
    ensures Text(r4, len) == RegionDown(Text(r0, len), low, high, p, blank)
  {
    SwapsDownwardShift(r3, len, len - high, p);
    SwapsDownwardCarries(r3, len, len - high, p, blank);
    var down := RegionDown(Text(r0, len), low, high, p, blank);
    forall h | 0 <= h < len
      ensures r4[h].cells == down[h]
    {
      if h >= high {
        assert r4[h] == r3[h - p] == r2[h - p];
      }
    }
  }

  /** Blanking a whole region is moving it by its height. */
  lemma RegionCleared(r0: seq<Row>, r1: seq<Row>, low: nat, high: nat, len: nat, blank: Line)
    requires low <= high <= len <= |r0| && BlankBetween(r0, r1, low, high, blank)
    ensures Text(r1, len) == RegionUp(Text(r0, len), low, high, high - low, blank)
    ensures Text(r1, len) == RegionDown(Text(r0, len), low, high, high - low, blank)
  {
  }

  class Grid {
    const raw: S.Storage
    const columns: nat
    var lines: nat
    var template: Cell
    var displayOffset: nat
    var maxScrollLimit: nat

    ghost predicate Valid()
      reads this, raw
    {
      && columns >= 1 && raw.Valid() && raw.visibleLines == lines
      && RowsOk(raw.Ring(), columns)
      && raw.len - lines <= maxScrollLimit
      && displayOffset <= maxScrollLimit
    }

    /** The lines of the screen and of the scrollback, from the bottom upward. */
    ghost function View(): seq<Line>
      requires Valid()
      reads this, raw
    {
      Text(raw.Ring(), raw.len)
    }

    function BlankLine(): Line
      reads this
    {
      Repeat(columns, Blank(template.bg))
    }

    /** Lines that resizing adds have the default background. */
    function ResizeBlank(): Line
    {
      Repeat(columns, DEFAULT_CELL)
    }

    constructor (lines: nat, columns: nat, maxScrollLimit: nat)
      requires lines >= 1 && columns >= 1
      ensures Valid() && fresh(raw) && this.lines == lines && this.columns == columns
      ensures this.maxScrollLimit == maxScrollLimit && displayOffset == 0
      ensures View() == Repeat(lines, Repeat(columns, DEFAULT_CELL))
    {
      NewRowClean(columns);
      raw := new S.Storage(lines, columns);
      this.columns, this.lines, this.maxScrollLimit := columns, lines, maxScrollLimit;
      displayOffset, template := 0, DEFAULT_CELL;
    }

    /** Reset one line. */
    method ResetLine(line: int)
      requires Valid() && lines - raw.len <= line < lines
      modifies raw`inner
      ensures Valid() && |raw.inner| == old(|raw.inner|)
      ensures raw.Ring() == old(raw.Ring())[lines - 1 - line := raw.Ring()[lines - 1 - line]]
      ensures raw.Ring()[lines - 1 - line].cells == BlankLine()
    {
      LazyResetIsFull(raw.Ring()[lines - 1 - line], template);
      raw.ResetLine(line, template);
    }

    /** Reset the lines from `start` to `end`. */
    method ResetLines(start: int, end: int)
      requires Valid() && start <= end <= lines && lines - start <= raw.len
      modifies raw`inner
      ensures Valid() && |raw.inner| == old(|raw.inner|)
      ensures BlankBetween(old(raw.Ring()), raw.Ring(), lines - end, lines - start, BlankLine())
    {
      ghost var ring := raw.Ring();
      var i := start;
      while i < end
        invariant start <= i <= end && Valid() && |raw.inner| == |ring|
        invariant BlankBetween(ring, raw.Ring(), lines - i, lines - start, BlankLine())
      {
        ResetLine(i);
        i := i + 1;
      }
    }

    /** Exchange two lines. */
    method SwapLines(a: int, b: int)
      requires Valid() && lines - raw.len <= a < lines && lines - raw.len <= b < lines
      modifies raw`inner
      ensures Valid() && |raw.inner| == old(|raw.inner|)
      ensures raw.Ring() == S.Exchanged(old(raw.Ring()), lines - 1 - a, lines - 1 - b)
      ensures raw.Ring() == S.Exchanged(old(raw.Ring()), lines - 1 - b, lines - 1 - a)
    {
      raw.Swap(a, b);
    }

    /** Bring the lowest lines back to their places after the ring has been turned up by `p`. */
    method RestoreBottom(bottom: int, p: nat)
      requires Valid() && 0 <= bottom <= lines && lines - bottom + p <= raw.len
      modifies raw`inner
      ensures Valid() && |raw.inner| == old(|raw.inner|)
      ensures raw.Ring() == SwapsUpward(old(raw.Ring()), 0, lines - bottom, p)
    {
      ghost var ring := raw.Ring();
      var i := lines;
      while i > bottom
        invariant bottom <= i <= lines && Valid() && |raw.inner| == |ring|
        invariant raw.Ring() == SwapsUpward(ring, 0, lines - i, p)
      {
        i := i - 1;
        SwapLines(i, i - p);
      }
    }

    /** Move the lines of a region up by `p`, without touching lines outside it. */
    method SwapRegionUp(top: int, bottom: int, p: nat)
      requires Valid() && 0 <= top && top + p <= bottom <= lines
      modifies raw`inner
      ensures Valid() && |raw.inner| == old(|raw.inner|)
      ensures raw.Ring() == SwapsDownward(old(raw.Ring()), lines - top, bottom - p - top, p)
    {
      ghost var ring := raw.Ring();
      var i := top;
      while i < bottom - p
        invariant top <= i <= bottom - p && Valid() && |raw.inner| == |ring|
        invariant raw.Ring() == SwapsDownward(ring, lines - top, i - top, p)
      {
        SwapLines(i, i + p);
        i := i + 1;
      }
    }

    /** Move the lines of a region down by `p`, without touching lines outside it. */
    method SwapRegionDown(top: int, bottom: int, p: nat)
      requires Valid() && 0 <= top && top + p <= bottom <= lines
      modifies raw`inner
      ensures Valid() && |raw.inner| == old(|raw.inner|)
      ensures raw.Ring() == SwapsUpward(old(raw.Ring()), lines - bottom, bottom - p - top, p)
    {
      ghost var ring := raw.Ring();
      var i := bottom;
      while i > top + p
        invariant top + p <= i <= bottom && Valid() && |raw.inner| == |ring|
        invariant raw.Ring() == SwapsUpward(ring, lines - bottom, bottom - i, p)
      {
        i := i - 1;
        SwapLines(i, i - p);
      }
    }

    /** Put the lowest lines where turning the ring down by `p` will bring them back to their places. */
    method RaiseBottom(bottom: int, p: nat)
      requires Valid() && 0 <= bottom <= lines && p <= bottom
      modifies raw`inner
      ensures Valid() && |raw.inner| == old(|raw.inner|)
      ensures raw.Ring() == SwapsDownward(old(raw.Ring()), lines - bottom + p, lines - bottom, p)
    {
      ghost var ring := raw.Ring();
      var i := bottom;
      while i < lines
        invariant bottom <= i <= lines && Valid() && |raw.inner| == |ring|
        invariant raw.Ring() == SwapsDownward(ring, lines - bottom + p, i - bottom, p)
      {
        SwapLines(i, i - p);
        i := i + 1;
      }
    }

    /** Bring the highest lines of the screen back to their places after the ring has been turned down by `p`. */
    method RestoreTop(top: int, p: nat)
      requires Valid() && 0 <= top && top + p <= lines
      modifies raw`inner
      ensures Valid() && |raw.inner| == old(|raw.inner|)
      ensures raw.Ring() == SwapsDownward(old(raw.Ring()), lines, top, p)
    {
      ghost var ring := raw.Ring();
      var i := 0;
      while i < top
        invariant 0 <= i <= top && Valid() && |raw.inner| == |ring|
        invariant raw.Ring() == SwapsDownward(ring, lines, i, p)
      {
        SwapLines(i, i + p);
        i := i + 1;
      }
    }

    /** Add scrollback lines while the limit allows. */
    method IncreaseScrollLimit(count: nat)
      requires Valid()
      modifies raw
      ensures Valid() && raw.len == Min(old(raw.len) + count, lines + maxScrollLimit)
      ensures Holds(raw.Ring(), old(View()))
    {
      var added := Min(count, maxScrollLimit - (raw.len - lines));
      if added != 0 {
        NewRowClean(columns);
        raw.Initialize(added, columns);
        assert forall h :: 0 <= h < old(|raw.inner|) ==> raw.Ring()[h] == raw.Ring()[..old(|raw.inner|)][h];
      }
    }

    /** Turn the whole ring up by `p` lines. */
    method TurnUp(p: nat)
      requires Valid() && p <= |raw.inner|
      modifies raw`zero
      ensures Valid() && raw.Ring() == S.TurnedUp(old(raw.Ring()), p)
    {
      RowsOkTurned(raw.Ring(), columns, p);
      raw.Rotate(0 - p);
    }

    /** Turn the whole ring down by `p` lines. */
    method TurnDown(p: nat)
      requires Valid() && p <= |raw.inner|
      modifies raw`zero
      ensures Valid() && raw.Ring() == S.Turned(old(raw.Ring()), p)
    {
      RowsOkTurned(raw.Ring(), columns, p);
      raw.RotateDown(p);
    }

    /** Turn the ring up by `p` and bring the lowest lines back. */
    method TurnUpKeepingBottom(bottom: int, p: nat)
      requires Valid() && 0 < bottom <= lines && p <= bottom
      modifies raw`inner, raw`zero
      ensures Valid() && |raw.inner| == old(|raw.inner|)
      ensures raw.Ring() == SwapsUpward(S.TurnedUp(old(raw.Ring()), p), 0, lines - bottom, p)
    {
      TurnUp(p);
      RestoreBottom(bottom, p);
    }

    /** Then reset the lines that came in above them. */
    method TurnUpAndRestore(bottom: int, p: nat) returns (ghost kept: seq<Row>)
      requires Valid() && 0 < bottom <= lines && p <= bottom
      modifies raw`inner, raw`zero
      ensures Valid() && |raw.inner| == old(|raw.inner|)
      ensures kept == SwapsUpward(S.TurnedUp(old(raw.Ring()), p), 0, lines - bottom, p)
      ensures BlankBetween(kept, raw.Ring(), lines - bottom, lines - bottom + p, BlankLine())
    {
      TurnUpKeepingBottom(bottom, p);
      kept := raw.Ring();
      ResetLines(bottom - p, bottom);
    }

    /** With room for `p` more lines above a text, that moves the text up. */
    method TurnTextUp(bottom: int, p: nat, ghost text: seq<Line>)
      requires Valid() && 0 < bottom <= lines && p <= bottom && Holds(raw.Ring(), text)
      requires lines <= |text| && raw.len == Min(|text| + p, lines + maxScrollLimit)
      modifies raw`inner, raw`zero
      ensures Valid() && View() == MovedUp(text, lines - bottom, p, lines + maxScrollLimit, BlankLine())
    {
      ghost var r0 := raw.Ring();
      ghost var kept := TurnUpAndRestore(bottom, p);
      MovedUpByTurning(r0, kept, raw.Ring(), text, lines - bottom, p, lines + maxScrollLimit, raw.len, BlankLine());
    }

    /** Move the lines above `bottom` up by `p` lines, the highest into the scrollback. */
    method ScrollUpAll(bottom: int, p: nat)
      requires Valid() && 0 < bottom <= lines && p <= bottom
      modifies raw
      ensures Valid()
      ensures View() == MovedUp(old(View()), lines - bottom, p, lines + maxScrollLimit, BlankLine())
    {
      ghost var text := View();
      IncreaseScrollLimit(p);
      TurnTextUp(bottom, p, text);
    }

    /** Move the lines of a region up by `p` lines, without moving anything into the scrollback. */
    method ScrollRegionUp(top: int, bottom: int, p: nat)
      requires Valid() && 0 <= top && top + p <= bottom <= lines
      modifies raw`inner
      ensures Valid() && View() == RegionUp(old(View()), lines - bottom, lines - top, p, BlankLine())
    {
      ghost var r0 := raw.Ring();
      SwapRegionUp(top, bottom, p);
      ghost var r1 := raw.Ring();
      ResetLines(bottom - p, bottom);
      RegionUpBySwaps(r0, r1, raw.Ring(), lines - bottom, lines - top, p, raw.len, BlankLine());
    }

    /** Reset all lines of a region. */
    method ClearRegion(top: int, bottom: int)
      requires Valid() && 0 <= top <= bottom <= lines
      modifies raw`inner
      ensures Valid()
      ensures View() == RegionUp(old(View()), lines - bottom, lines - top, bottom - top, BlankLine())
      ensures View() == RegionDown(old(View()), lines - bottom, lines - top, bottom - top, BlankLine())
    {
      ghost var r0 := raw.Ring();
      ResetLines(top, bottom);
      RegionCleared(r0, raw.Ring(), lines - bottom, lines - top, raw.len, BlankLine());
    }

    /** Raise the display offset unless the view is at the bottom. */
    method RaiseOffset(p: nat)
      requires Valid()
      modifies this`displayOffset
      ensures Valid() && View() == old(View())
      ensures displayOffset == if old(displayOffset) == 0 then 0 else Min(old(displayOffset) + p, maxScrollLimit)
    {
      if displayOffset != 0 {
        displayOffset := Min(displayOffset + p, maxScrollLimit);
      }
    }

    /** Move the lines between `top` and `bottom` up by `p` lines; from the top of the screen, lines move into
        the scrollback. */
    method ScrollUp(top: int, bottom: int, p: nat)
      requires Valid() && 0 <= top < bottom <= lines && (top == 0 ==> p <= bottom)
      modifies this`displayOffset, raw
      ensures Valid() && displayOffset == ScrolledOffset(old(displayOffset), top, bottom, p, maxScrollLimit)
      ensures View() == ScrolledUp(old(View()), lines, top, bottom, p, maxScrollLimit, BlankLine())
    {
      if bottom - top <= p && top != 0 {
        ClearRegion(top, bottom);
        return;
      }
      RaiseOffset(p);
      if top == 0 {
        ScrollUpAll(bottom, p);
      } else {
        ScrollRegionUp(top, bottom, p);
      }
    }

    /** Lower all lines above `bottom` by `p` by turning the ring. */
    method LowerUpperLines(bottom: int, p: nat)
      requires Valid() && 0 <= bottom <= lines && p <= bottom
      modifies raw`inner, raw`zero
      ensures Valid() && |raw.inner| == old(|raw.inner|)
      ensures Lowered(old(raw.Ring()), raw.Ring(), lines - bottom, p, lines)
    {
      ghost var r0 := raw.Ring();
      RaiseBottom(bottom, p);
      ghost var r1 := raw.Ring();
      TurnDown(p);
      LoweredByTurning(r0, r1, raw.Ring(), lines - bottom, p, lines);
    }

    /** Reset the lines that came in at the top and bring the highest lines back above them. */
    method ResetAndRestoreTop(top: int, p: nat) returns (ghost reset: seq<Row>)
      requires Valid() && 0 <= top && top + p <= lines
      modifies raw`inner
      ensures Valid() && |raw.inner| == old(|raw.inner|) && |reset| == |raw.inner|
      ensures BlankBetween(old(raw.Ring()), reset, lines - p, lines, BlankLine())
      ensures raw.Ring() == SwapsDownward(reset, lines, top, p)
    {
      ResetLines(0, p);
      reset := raw.Ring();
      RestoreTop(top, p);
    }

    /** Lower the lines above `bottom`, reset the lines that came in at the top and bring the highest back. */
    method LowerBetween(top: int, bottom: int, p: nat) returns (ghost lowered: seq<Row>, ghost reset: seq<Row>)
      requires Valid() && 0 <= top && top + p <= bottom <= lines
      modifies raw`inner, raw`zero
      ensures Valid() && |raw.inner| == old(|raw.inner|) == |reset|
      ensures Lowered(old(raw.Ring()), lowered, lines - bottom, p, lines)
      ensures BlankBetween(lowered, reset, lines - p, lines, BlankLine())
      ensures raw.Ring() == SwapsDownward(reset, lines, top, p)
    {
      LowerUpperLines(bottom, p);
      lowered := raw.Ring();
      reset := ResetAndRestoreTop(top, p);
    }

    /** Move the lines of a region down by turning the whole ring, which is possible without scrollback. */
    method TurnRegionDown(top: int, bottom: int, p: nat)
      requires Valid() && 0 <= top && top + p <= bottom <= lines && maxScrollLimit == 0
      modifies raw`inner, raw`zero
      ensures Valid() && View() == RegionDown(old(View()), lines - bottom, lines - top, p, BlankLine())
    {
      ghost var r0 := raw.Ring();
      assert raw.len == lines;
      ghost var r2, r3 := LowerBetween(top, bottom, p);
      RegionDownByTurning(r0, r2, r3, raw.Ring(), lines - bottom, lines - top, p, lines, BlankLine());
    }

    /** Move the lines of a region down by swapping rows. */
    method SwapRegionDownAndClear(top: int, bottom: int, p: nat)
      requires Valid() && 0 <= top && top + p <= bottom <= lines
      modifies raw`inner
      ensures Valid() && View() == RegionDown(old(View()), lines - bottom, lines - top, p, BlankLine())
    {
      ghost var r0 := raw.Ring();
      SwapRegionDown(top, bottom, p);
      ghost var r1 := raw.Ring();
      ResetLines(top, top + p);
      RegionDownBySwaps(r0, r1, raw.Ring(), lines - bottom, lines - top, p, raw.len, BlankLine());
    }

    /** Move the lines between `top` and `bottom` down by `p` lines; the scrollback stays. */
    method ScrollDown(top: int, bottom: int, p: nat)
      requires Valid() && 0 <= top < bottom <= lines
      modifies raw
      ensures Valid()
      ensures View() == ScrolledDown(old(View()), lines, top, bottom, p, BlankLine())
    {
      if bottom - top <= p {
        ClearRegion(top, bottom);
        return;
      }
      if maxScrollLimit == 0 {
        TurnRegionDown(top, bottom, p);
      } else {
        SwapRegionDownAndClear(top, bottom, p);
      }
    }

    /** Drop the whole scrollback. */
    method ClearHistory()
      requires Valid()
      modifies this`displayOffset, raw
      ensures Valid() && displayOffset == 0 && View() == old(View())[..lines]
    {
      ghost var text := View();
      raw.ShrinkLines(raw.len - lines);
      displayOffset := 0;
      assert forall h :: 0 <= h < lines ==> View()[h] == text[h];
    }

    /** Scroll the whole screen up, if at all. */
    method ScrollScreenUp(p: nat)
      requires Valid() && p <= lines
      modifies this`displayOffset, raw
      ensures Valid() && View() == MovedUp(old(View()), 0, p, lines + maxScrollLimit, BlankLine())
      ensures displayOffset == if old(displayOffset) == 0 then 0 else Min(old(displayOffset) + p, maxScrollLimit)
      ensures raw.len == Min(old(raw.len) + p, lines + maxScrollLimit)
    {
      if p > 0 {
        ScrollUp(0, lines, p);
        assert raw.len == |View()|;
      } else {
        MovedByNothing(View(), 0, 0, lines + maxScrollLimit, BlankLine());
      }
    }

    /** Drop lines at the top of the scrollback. */
    method DecreaseScrollLimit(count: nat)
      requires Valid()
      modifies this`displayOffset, raw
      ensures Valid() && View() == old(View())[..Max(old(raw.len) - count, lines)]
      ensures displayOffset <= old(displayOffset) && raw.len == Max(old(raw.len) - count, lines)
      ensures displayOffset == if old(raw.len) == lines || count == 0 then old(displayOffset)
                               else Min(old(displayOffset), raw.len - lines)
    {
      ghost var text := View();
      var dropped := Min(count, raw.len - lines);
      if dropped != 0 {
        raw.ShrinkLines(dropped);
        displayOffset := Min(displayOffset, raw.len - lines);
      }
      assert forall h :: 0 <= h < raw.len ==> View()[h] == text[h];
    }

    /** Turn the ring down by the lines that the screen loses and cut them off. */
    method CutBottom(target: nat)
      requires Valid() && 1 <= target <= lines && raw.len - (lines - target) - target <= maxScrollLimit
      modifies this`lines, raw
      ensures Valid() && lines == target && View() == old(View())[old(lines) - target..]
    {
      ghost var r0, k, len := raw.Ring(), lines - target, raw.len;
      raw.Rotate(lines - target);
      raw.ShrinkVisibleLines(target);
      CutByTurning(r0, k, raw.Ring(), len, columns);
      lines := target;
    }

    /** Scroll the screen up so that the cursor is among the lines that a smaller screen keeps. */
    method PushIntoScrollback(target: nat, cursorLine: int) returns (newCursorLine: int)
      requires Valid() && 1 <= target < lines && 0 <= cursorLine < lines
      modifies this`displayOffset, raw
      ensures Valid()
      ensures View() == MovedUp(old(View()), 0, Pushed(target, cursorLine), lines + maxScrollLimit, BlankLine())
      ensures displayOffset == ResizedOffset(old(displayOffset), lines, target, cursorLine, maxScrollLimit)
      ensures newCursorLine == Min(cursorLine, target - 1)
    {
      var required := Max(cursorLine + 1 - target, 0);
      newCursorLine := if required > 0 then Min(cursorLine, target - 1) else cursorLine;
      ScrollScreenUp(required);
    }

    /** Cut the bottom off a text that was pushed up for it. */
    method CutPushed(target: nat, ghost cursorLine: int, ghost text: seq<Line>)
      requires Valid() && 1 <= target < lines <= |text| <= lines + maxScrollLimit && 0 <= cursorLine < lines
      requires View() == MovedUp(text, 0, Pushed(target, cursorLine), lines + maxScrollLimit, BlankLine())
      modifies this`lines, raw
      ensures Valid() && lines == target
      ensures View() == ShrunkText(text, old(lines), target, cursorLine, maxScrollLimit)
    {
      ShrunkBySplicing(text, lines, target, cursorLine, maxScrollLimit, BlankLine());
      CutBottom(target);
    }

    /** Make the screen smaller, keeping the cursor on it. */
    method ShrinkScreen(target: nat, cursorLine: int) returns (newCursorLine: int)
      requires Valid() && 1 <= target < lines && 0 <= cursorLine < lines
      modifies this`lines, this`displayOffset, raw
      ensures Valid() && lines == target
      ensures View() == ShrunkText(old(View()), old(lines), target, cursorLine, maxScrollLimit)
      ensures displayOffset == ResizedOffset(old(displayOffset), old(lines), target, cursorLine, maxScrollLimit)
      ensures newCursorLine == Min(cursorLine, target - 1)
    {
      ghost var text := View();
      newCursorLine := PushIntoScrollback(target, cursorLine);
      CutPushed(target, cursorLine, text);
    }

    /** Enlarge the screen, and move the text up over lines that the scrollback cannot fill. */
    method AddRowsAndScroll(target: nat) returns (fromHistory: nat, ghost taller: seq<Line>)
      requires Valid() && lines < target
      modifies this`lines, this`displayOffset, raw
      ensures Valid() && lines == target && fromHistory == Min(old(raw.len - lines), target - old(lines))
      ensures |taller| == old(raw.len) + (target - old(lines)) && taller[..old(raw.len)] == old(View())
      ensures View() == MovedUp(taller, 0, Max(target - old(raw.len), 0), target + maxScrollLimit, BlankLine())
      ensures displayOffset == if old(displayOffset) == 0 then 0
                               else Min(old(displayOffset) + Max(target - old(raw.len), 0), maxScrollLimit)
    {
      var added := target - lines;
      AddRows(target);
      taller := View();
      fromHistory := Min(raw.len - lines, added);
      ScrollScreenUp(added - fromHistory);
    }

    /** Make the screen larger; the cursor moves down with the lines that come back from the scrollback. */
    method GrowScreen(target: nat) returns (fromHistory: nat)
      requires Valid() && lines < target
      modifies this`lines, this`displayOffset, raw
      ensures Valid() && lines == target
      ensures View() == GrownText(old(View()), old(lines), target, BlankLine())
      ensures old(displayOffset + lines <= raw.len) ==>
        displayOffset == Max(old(displayOffset) - (target - old(lines)), 0)
      ensures fromHistory == Min(old(raw.len - lines), target - old(lines))
    {
      ghost var text, screen := View(), lines;
      var added := target - lines;
      ghost var taller;
      fromHistory, taller := AddRowsAndScroll(target);
      GrownBySplicing(text, taller, View(), screen, target, maxScrollLimit, BlankLine());
      displayOffset := Max(displayOffset - added, 0);
      DecreaseScrollLimit(added);
    }

    /** Enlarge the screen over the scrollback, which gets as many rows of any content at its top. */
    method AddRows(target: nat)
      requires Valid() && lines <= target
      modifies this`lines, raw
      ensures Valid() && lines == target && raw.len == old(raw.len) + (target - old(lines))
      ensures View()[..old(raw.len)] == old(View())
    {
      NewRowClean(columns);
      raw.GrowVisibleLines(target);
      lines := target;
    }

    /** Resize the screen without changing its width. New lines do not get the current background colour. */
    method ResizeLines(target: nat, cursorLine: int) returns (newCursorLine: int)
      requires Valid() && 1 <= target && 0 <= cursorLine < lines
      modifies this, raw
      ensures Valid() && lines == target && template == old(template) && maxScrollLimit == old(maxScrollLimit)
      ensures View() == ResizedText(old(View()), old(lines), target, cursorLine, maxScrollLimit, ResizeBlank())
      ensures old(displayOffset + lines <= raw.len) ==>
        displayOffset == ResizedOffset(old(displayOffset), old(lines), target, cursorLine, maxScrollLimit)
      ensures newCursorLine == ResizedCursor(old(raw.len), old(lines), target, cursorLine)
    {
      var current := template;
      template := DEFAULT_CELL;
      newCursorLine := cursorLine;
      if lines < target {
        var fromHistory := GrowScreen(target);
        newCursorLine := cursorLine + fromHistory;
      } else if lines > target {
        newCursorLine := ShrinkScreen(target, cursorLine);
      }
      template := current;
    }

    /** Write one cell of the screen or of the scrollback. */
    method WriteCell(line: int, column: nat, cell: Cell)
      requires Valid() && lines - raw.len <= line < lines && column < columns
      modifies raw`inner
      ensures Valid()
      ensures View() == old(View())[lines - 1 - line := old(View())[lines - 1 - line][column := cell]]
    {
      ghost var ring, h := raw.Ring(), lines - 1 - line;
      raw.WriteCell(line, column, cell);
      CellWritten(ring, columns, raw.len, h, column, cell);
    }
  }

  // ----- Laws of the list surgery -----

  /** How many lines below the screen's bottom are dropped by a resize, or added if negative. */
  function Dropped(length: nat, screen: nat, target: nat, cursorLine: int): int {
    if target <= screen then screen - target - Pushed(target, cursorLine) else -Max(target - length, 0)
  }

  /** All other lines keep their distances. */
  lemma ResizedAt(
    text: seq<Line>, screen: nat, target: nat, cursorLine: int, limit: nat, blank: Line, h: nat)
    requires 1 <= target && 1 <= screen <= |text| <= screen + limit && 0 <= cursorLine < screen
    requires h < |text| && 0 <= h - Dropped(|text|, screen, target, cursorLine) < target + limit
    ensures var resized, dropped :=
        ResizedText(text, screen, target, cursorLine, limit, blank), Dropped(|text|, screen, target, cursorLine);
      target <= |resized| <= target + limit && h - dropped < |resized| && resized[h - dropped] == text[h]
  {
    ResizedLength(text, screen, target, cursorLine, limit, blank);
  }

  /** The terminal cursor stays on the screen and on its line of text. */
  lemma ResizeKeepsCursorLine(
    text: seq<Line>, screen: nat, target: nat, cursorLine: int, limit: nat, blank: Line)
    requires 1 <= target && 1 <= screen <= |text| <= screen + limit && 0 <= cursorLine < screen
    ensures var resized := ResizedText(text, screen, target, cursorLine, limit, blank);
      var line := ResizedCursor(|text|, screen, target, cursorLine);
      && 0 <= line < target <= |resized| <= target + limit
      && resized[target - 1 - line] == text[screen - 1 - cursorLine]
  {
    ResizedAt(text, screen, target, cursorLine, limit, blank, screen - 1 - cursorLine);
  }

  /** Lines above the cursor stay above it, up to the limit; only as many lines as needed leave the screen. */
  lemma ResizeKeepsLinesAbove(
    text: seq<Line>, screen: nat, target: nat, cursorLine: int, limit: nat, blank: Line, above: nat)
    requires 1 <= target && 1 <= screen <= |text| <= screen + limit && 0 <= cursorLine < screen
    requires screen - 1 - cursorLine + above < |text|
    ensures var resized := ResizedText(text, screen, target, cursorLine, limit, blank);
      var line := ResizedCursor(|text|, screen, target, cursorLine);
      && 0 <= line < target
      && (above <= line + limit ==>
          target - 1 - line + above < |resized|
          && resized[target - 1 - line + above] == text[screen - 1 - cursorLine + above])
      && (target < screen ==> line == Min(cursorLine, target - 1))
      && (screen < target ==> line == cursorLine + Min(|text| - screen, target - screen))
  {
    ResizedAt(text, screen, target, cursorLine, limit, blank, screen - 1 - cursorLine);
    if above <= ResizedCursor(|text|, screen, target, cursorLine) + limit {
      ResizedAt(text, screen, target, cursorLine, limit, blank, screen - 1 - cursorLine + above);
    }
  }

  /** Scrolled back, the view keeps its first line while the screen is resized, as far as the scrollback allows. */
  lemma ResizeKeepsTopOfView(
    text: seq<Line>, screen: nat, target: nat, cursorLine: int, limit: nat, blank: Line, offset: nat)
    requires 1 <= target && 1 <= screen && offset + screen <= |text| <= screen + limit && 0 <= cursorLine < screen
    requires offset != 0
    requires if target < screen then offset + Pushed(target, cursorLine) <= limit else target - screen <= offset
    ensures var resized := ResizedText(text, screen, target, cursorLine, limit, blank);
      var after := ResizedOffset(offset, screen, target, cursorLine, limit);
      && after + target <= |resized|
      && Displayed(resized, target, after)[target - 1] == Displayed(text, screen, offset)[screen - 1]
  {
    ResizedAt(text, screen, target, cursorLine, limit, blank, offset + screen - 1);
  }

  /** At the bottom the view stays at the bottom. */
  lemma ResizeKeepsBottom(screen: nat, target: nat, cursorLine: int, limit: nat)
    ensures ResizedOffset(0, screen, target, cursorLine, limit) == 0
  {
  }

  /** Adding rows at the top, moving up over blank lines and cutting the top off is growing. */
  lemma GrownBySplicing(
    text: seq<Line>, taller: seq<Line>, moved: seq<Line>, screen: nat, target: nat, limit: nat, blank: Line)
    requires screen <= target && screen <= |text| <= screen + limit
    requires |taller| == |text| + (target - screen) && taller[..|text|] == text
    requires moved == MovedUp(taller, 0, Max(target - |text|, 0), target + limit, blank)
    ensures var left := Max(|moved| - (target - screen), target);
      left <= |moved| && moved[..left] == GrownText(text, screen, target, blank)
  {
    forall h | 0 <= h < |text|
      ensures taller[h] == text[h]
    {
      assert taller[h] == taller[..|text|][h];
    }
  }

  /** Moving up just far enough and cutting the bottom off is shrinking. */
  lemma ShrunkBySplicing(text: seq<Line>, screen: nat, target: nat, cursorLine: int, limit: nat, blank: Line)
    requires 1 <= target <= screen <= |text| <= screen + limit && cursorLine < screen
    ensures var moved := MovedUp(text, 0, Pushed(target, cursorLine), screen + limit, blank);
      |moved| >= screen && moved[screen - target..] == ShrunkText(text, screen, target, cursorLine, limit)
  {
  }

  /** Scrolling is cutting the list of lines, putting blank lines in and leaving lines out. */
  lemma ScrollingIsSplicing(text: seq<Line>, low: nat, high: nat, p: nat, limit: nat, blank: Line)
    requires low + p <= high <= |text|
    ensures MovedUp(text, low, p, limit, blank)
         == (text[..low] + Repeat(p, blank) + text[low..])[..Min(|text| + p, limit)]
    ensures RegionUp(text, low, high, p, blank)
         == text[..low] + Repeat(p, blank) + text[low..high - p] + text[high..]
    ensures RegionDown(text, low, high, p, blank)
         == text[..low] + text[low + p..high] + Repeat(p, blank) + text[high..]
  {
  }

  /** Moving up by `p` and then by `q` is moving up by `p + q`. */
  lemma MovedUpTwice(text: seq<Line>, fixed: nat, p: nat, q: nat, limit: nat, blank: Line)
    requires fixed <= |text| && fixed + p + q <= limit
    ensures MovedUp(MovedUp(text, fixed, p, limit, blank), fixed, q, limit, blank)
         == MovedUp(text, fixed, p + q, limit, blank)
  {
  }

  /** Moving a region up and then down loses only the lines that left it at the top. */
  lemma RegionUpThenDown(text: seq<Line>, low: nat, high: nat, p: nat, blank: Line)
    requires low + p <= high <= |text|
    ensures RegionDown(RegionUp(text, low, high, p, blank), low, high, p, blank)
         == text[..high - p] + Repeat(p, blank) + text[high..]
  {
  }

  /** As long as the limit is not reached, moving up loses no line: taking the new blank lines out again gives
      the old text. */
  lemma MovedUpLosesNothing(text: seq<Line>, fixed: nat, p: nat, limit: nat, blank: Line)
    requires fixed <= |text| && |text| + p <= limit
    ensures var moved := MovedUp(text, fixed, p, limit, blank);
      |moved| == |text| + p && moved[..fixed] + moved[fixed + p..] == text
  {
  }
}
