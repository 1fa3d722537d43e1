/** Motions by whitespace-separated words in vi mode. */
module ViMotion {
  import opened Arith
  import opened Index

  /** The part of a cell that motions look at. */
  datatype Glyph = Glyph(c: char, wide: bool, wideSpacer: bool, leadingSpacer: bool)

  /** A grid with the glyph of every cell, by cell number. */
  datatype Term = Term(d: Dimensions, glyphs: seq<Glyph>) {
    predicate Valid() {
      d.Valid() && |glyphs| == d.Cells()
    }
  }

  // ----- Steps -----

  function Advance(t: Term, p: Point, direction: Direction): Point
    requires t.Valid()
  {
    if direction == Left then Sub(t.d, WholeGrid, p, 1) else Add(t.d, WholeGrid, p, 1)
  }

  /** Spacers of wide characters are not whitespace, whatever they contain. */
  predicate SpaceGlyph(g: Glyph) {
    !(g.wideSpacer || g.leadingSpacer) && (g.c == ' ' || g.c == '\t')
  }

  predicate IsSpace(t: Term, p: Point)
    requires t.Valid() && t.d.Contains(p)
  {
    LinearRange(t.d, p);
    SpaceGlyph(t.glyphs[Linear(t.d, p)])
  }

  predicate IsBoundary(t: Term, p: Point, direction: Direction) {
    || (p.line <= t.d.TopmostLine() && p.column == 0 && direction == Left)
    || (p.line == t.d.BottommostLine() && p.column + 1 >= t.d.columns && direction == Right)
  }

  // ----- Wide characters -----

  function At(t: Term, p: Point): Glyph
    requires t.Valid() && t.d.Contains(p)
  {
    LinearRange(t.d, p);
    t.glyphs[Linear(t.d, p)]
  }

  /** A wide character has a spacer behind it and, if it did not fit its line, a spacer at the end of the line
      before. No cell is two of these. */
  predicate WideAt(t: Term, p: Point)
    requires t.Valid() && t.d.Contains(p)
  {
    var g := At(t, p);
    && (g.wide ==>
        && !g.wideSpacer && !g.leadingSpacer && g.c != ' ' && g.c != '\t'
        && p.column < t.d.LastColumn() && At(t, Point(p.line, p.column + 1)).wideSpacer)
    && (g.wideSpacer ==> !g.leadingSpacer && p.column >= 1 && At(t, Point(p.line, p.column - 1)).wide)
    && (g.leadingSpacer ==>
        p.column == t.d.LastColumn() && p.line < t.d.BottommostLine() && At(t, Point(p.line + 1, 0)).wide)
  }

  ghost predicate WellFormed(t: Term)
    requires t.Valid()
  {
    forall p :: t.d.Contains(p) ==> WideAt(t, p)
  }

  /** The jump over a wide character stays in the grid; otherwise the program ends. */
  predicate CanExpand(t: Term, p: Point, direction: Direction)
    requires t.Valid() && t.d.Contains(p)
  {
    var g := At(t, p);
    if direction == Right then g.leadingSpacer ==> p.line < t.d.BottommostLine() && t.d.columns >= 2
    else g.wideSpacer ==> p.column >= 1
  }

  /** Jump to the end of a wide character in a direction. */
  function ExpandWide(t: Term, p: Point, direction: Direction): (q: Point)
    requires t.Valid() && t.d.Contains(p) && CanExpand(t, p, direction)
    ensures t.d.Contains(q)
  {
    var g := At(t, p);
    if direction == Right then
      if g.leadingSpacer then Point(p.line + 1, 1)
      else if g.wide then Point(p.line, Min(p.column + 1, t.d.LastColumn()))
      else p
    else if g.wide || g.wideSpacer then
      var q := if g.wideSpacer then Point(p.line, p.column - 1) else p;
      GridClampedArithmetic(t.d, q, 1);
      var previous := Sub(t.d, WholeGrid, q, 1);
      if At(t, previous).leadingSpacer then previous else q
    else p
  }

  // ----- Positions along the motion -----

  /** Distance of a cell from the end that the motion comes from. */
  function Position(t: Term, p: Point, direction: Direction): int {
    if direction == Right then Linear(t.d, p) else t.d.Cells() - 1 - Linear(t.d, p)
  }

  /** Whether the cell at a position is whitespace. */
  predicate SpaceAt(t: Term, direction: Direction, k: int)
    requires t.Valid() && 0 <= k < |t.glyphs|
  {
    SpaceGlyph(t.glyphs[if direction == Right then k else |t.glyphs| - 1 - k])
  }

  lemma PositionFacts(t: Term, p: Point, direction: Direction)
    requires t.Valid() && t.d.Contains(p)
    ensures 0 <= Position(t, p, direction) < |t.glyphs|
    ensures IsSpace(t, p) <==> SpaceAt(t, direction, Position(t, p, direction))
    ensures IsBoundary(t, p, direction) <==> Position(t, p, direction) == |t.glyphs| - 1
  {
    LinearRange(t.d, p);
    EndCells(t.d);
    LinearMonotone(t.d, p, Point(t.d.TopmostLine(), 0));
    LinearMonotone(t.d, p, Point(t.d.BottommostLine(), t.d.LastColumn()));
  }

  /** A step moves one position on, or stays at the last one. */
  lemma AdvancePosition(t: Term, p: Point, direction: Direction)
    requires t.Valid() && t.d.Contains(p)
    ensures t.d.Contains(Advance(t, p, direction))
    ensures Position(t, Advance(t, p, direction), direction) == Min(Position(t, p, direction) + 1, |t.glyphs| - 1)
  {
    GridClampedArithmetic(t.d, p, 1);
    LinearRange(t.d, p);
  }

  /** The cells with numbers `i` and `i + 1` belong to the same character. */
  predicate Joined(t: Term, i: int) {
    0 <= i && i + 1 < |t.glyphs| && (t.glyphs[i].leadingSpacer || t.glyphs[i].wide)
  }

  /** The cells at positions `k` and `k + 1` along the motion belong to the same character. */
  predicate JoinedAt(t: Term, direction: Direction, k: int) {
    Joined(t, if direction == Right then k else |t.glyphs| - 2 - k)
  }

  /** Number and glyph of the cells around a cell. */
  lemma Neighbour(t: Term, p: Point, q: Point)
    requires t.Valid() && t.d.Contains(p) && t.d.Contains(q)
    ensures 0 <= Linear(t.d, p) < |t.glyphs| && At(t, p) == t.glyphs[Linear(t.d, p)]
    ensures q.line == p.line ==> Linear(t.d, q) - Linear(t.d, p) == q.column - p.column
    ensures q.line == p.line + 1 && q.column == 0 && p.column == t.d.LastColumn() ==>
      Linear(t.d, q) == Linear(t.d, p) + 1
  {
    LinearRange(t.d, p);
    assert (p.line + 1 - t.d.TopmostLine()) * t.d.columns == (p.line - t.d.TopmostLine()) * t.d.columns + t.d.columns;
  }

  /** The point of a cell number. */
  lemma PointOf(t: Term, i: int) returns (p: Point)
    requires t.Valid() && 0 <= i < |t.glyphs|
    ensures t.d.Contains(p) && Linear(t.d, p) == i
  {
    p := Point(t.d.TopmostLine() + i / t.d.columns, i % t.d.columns);
    LinearRange(t.d, p);
  }

  /** Joined cells are told apart by their flags: a spacer follows a wide character, which follows a spacer. */
  lemma JoinedFlags(t: Term, i: int)
    requires t.Valid() && WellFormed(t) && Joined(t, i)
    ensures t.glyphs[i].wide ==> t.glyphs[i + 1].wideSpacer && !t.glyphs[i + 1].wide && !t.glyphs[i + 1].leadingSpacer
    ensures t.glyphs[i].leadingSpacer ==> t.glyphs[i + 1].wide && !t.glyphs[i].wide && !t.glyphs[i + 1].wideSpacer
  {
    var p := PointOf(t, i);
    assert WideAt(t, p);
    var q := if At(t, p).wide then Point(p.line, p.column + 1) else Point(p.line + 1, 0);
    assert WideAt(t, q);
    Neighbour(t, p, q);
    Neighbour(t, q, p);
  }

  /** A spacer follows its wide character, and a wide character its leading spacer, if any. */
  lemma BackwardFlags(t: Term, i: int)
    requires t.Valid() && WellFormed(t) && 0 <= i < |t.glyphs|
    ensures t.glyphs[i].wideSpacer ==> i >= 1 && t.glyphs[i - 1].wide
    ensures t.glyphs[i].leadingSpacer || t.glyphs[i].wide ==> Joined(t, i)
  {
    var p := PointOf(t, i);
    assert WideAt(t, p);
    if At(t, p).wideSpacer {
      Neighbour(t, Point(p.line, p.column - 1), p);
    } else if At(t, p).wide {
      Neighbour(t, Point(p.line, p.column + 1), p);
      Neighbour(t, p, Point(p.line, p.column + 1));
    } else if At(t, p).leadingSpacer {
      Neighbour(t, Point(p.line + 1, 0), p);
      Neighbour(t, p, Point(p.line + 1, 0));
    }
  }

  /** No cell of a wide character is whitespace; a cell of another one is if it shows a space or a tab. */
  lemma SpaceOfCharacter(t: Term, i: int)
    requires t.Valid() && WellFormed(t) && 0 <= i < |t.glyphs|
    ensures Joined(t, i) ==> !SpaceGlyph(t.glyphs[i]) && !SpaceGlyph(t.glyphs[i + 1])
    ensures !Joined(t, i) && !Joined(t, i - 1) ==>
      (SpaceGlyph(t.glyphs[i]) <==> t.glyphs[i].c == ' ' || t.glyphs[i].c == '\t')
  {
    BackwardFlags(t, i);
    if Joined(t, i) {
      JoinedFlags(t, i);
      var p := PointOf(t, i);
      assert WideAt(t, p);
      Neighbour(t, p, p);
      var q := PointOf(t, i + 1);
      assert WideAt(t, q);
      Neighbour(t, q, q);
    }
  }

  /** `q` is where the character at position `k` ends in the direction of the motion. */
  predicate GlyphEnd(t: Term, direction: Direction, k: int, q: int) {
    && 0 <= k <= q < |t.glyphs|
    && (forall j :: k <= j < q ==> JoinedAt(t, direction, j))
    && !JoinedAt(t, direction, q)
  }

  /** Number of the cell that a jump to the right reaches. */
  /** Wide characters with their spacers can be jumped over. */
  lemma WellFormedExpands(t: Term, p: Point, direction: Direction)
    requires t.Valid() && t.d.Contains(p) && WellFormed(t)
    ensures CanExpand(t, p, direction)
  {
    assert WideAt(t, p);
    if At(t, p).leadingSpacer && p.line < t.d.BottommostLine() {
      assert WideAt(t, Point(p.line + 1, 0));
    }
  }

  lemma ExpandRightNumber(t: Term, p: Point)
    requires t.Valid() && t.d.Contains(p) && WellFormed(t)
    ensures CanExpand(t, p, Right)
    ensures Linear(t.d, ExpandWide(t, p, Right)) - Linear(t.d, p)
         == if At(t, p).leadingSpacer then 2 else if At(t, p).wide then 1 else 0
  {
    WellFormedExpands(t, p, Right);
    assert WideAt(t, p);
    if At(t, p).leadingSpacer {
      var q := Point(p.line + 1, 0);
      assert WideAt(t, q);
      Neighbour(t, p, q);
      Neighbour(t, q, Point(q.line, 1));
    } else if At(t, p).wide {
      Neighbour(t, p, Point(p.line, p.column + 1));
    }
  }

  lemma ExpandsRight(t: Term, p: Point)
    requires t.Valid() && t.d.Contains(p) && WellFormed(t)
    ensures CanExpand(t, p, Right)
    ensures GlyphEnd(t, Right, Linear(t.d, p), Linear(t.d, ExpandWide(t, p, Right)))
  {
    WellFormedExpands(t, p, Right);
    var i := Linear(t.d, p);
    ExpandRightNumber(t, p);
    Neighbour(t, p, p);
    BackwardFlags(t, i);
    if Joined(t, i) {
      JoinedFlags(t, i);
      BackwardFlags(t, i + 1);
      if Joined(t, i + 1) {
        JoinedFlags(t, i + 1);
      }
    }
  }

  /** `e` is the first cell of the character that cell `i` belongs to. */
  predicate LeftEnd(t: Term, i: int, e: int)
    requires 0 <= i < |t.glyphs|
  {
    var w := if t.glyphs[i].wideSpacer then i - 1 else i;
    0 <= w && e == if t.glyphs[w].wide && w >= 1 && t.glyphs[w - 1].leadingSpacer then w - 1 else w
  }

  /** Number of the cell that a jump to the left reaches. */
  lemma ExpandLeftNumber(t: Term, p: Point)
    requires t.Valid() && t.d.Contains(p) && WellFormed(t)
    ensures CanExpand(t, p, Left)
    ensures 0 <= Linear(t.d, p) < |t.glyphs|
    ensures LeftEnd(t, Linear(t.d, p), Linear(t.d, ExpandWide(t, p, Left)))
  {
    WellFormedExpands(t, p, Left);
    var i := Linear(t.d, p);
    Neighbour(t, p, p);
    assert WideAt(t, p);
    var q := if At(t, p).wideSpacer then Point(p.line, p.column - 1) else p;
    Neighbour(t, q, p);
    assert WideAt(t, q);
    GridClampedArithmetic(t.d, q, 1);
    var previous := Sub(t.d, WholeGrid, q, 1);
    Neighbour(t, previous, previous);
  }

  lemma ExpandsLeft(t: Term, p: Point)
    requires t.Valid() && t.d.Contains(p) && WellFormed(t)
    ensures CanExpand(t, p, Left)
    ensures var n := |t.glyphs|;
      GlyphEnd(t, Left, n - 1 - Linear(t.d, p), n - 1 - Linear(t.d, ExpandWide(t, p, Left)))
  {
    WellFormedExpands(t, p, Left);
    var i := Linear(t.d, p);
    ExpandLeftNumber(t, p);
    BackwardFlags(t, i);
    var e := Linear(t.d, ExpandWide(t, p, Left));
    LeftSteps(t, i, e);
  }

  /** The cells that a jump to the left passes are joined, and the one before is not. */
  lemma LeftSteps(t: Term, i: int, e: int)
    requires t.Valid() && WellFormed(t) && 0 <= i < |t.glyphs|
    requires LeftEnd(t, i, e)
    ensures GlyphEnd(t, Left, |t.glyphs| - 1 - i, |t.glyphs| - 1 - e)
  {
    var n := |t.glyphs|;
    BackwardFlags(t, i);
    forall k | n - 1 - i <= k < n - 1 - e
      ensures JoinedAt(t, Left, k)
    {
      BackwardFlags(t, n - 2 - k);
    }
    BackwardFlags(t, e);
    if Joined(t, e) {
      JoinedFlags(t, e);
    }
    if Joined(t, e - 1) {
      JoinedFlags(t, e - 1);
    }
  }

  /** Jumping over a wide character ends where the character does. */
  lemma ExpandWideEndsGlyph(t: Term, p: Point, direction: Direction)
    requires t.Valid() && t.d.Contains(p) && WellFormed(t)
    ensures CanExpand(t, p, direction)
    ensures GlyphEnd(t, direction, Position(t, p, direction), Position(t, ExpandWide(t, p, direction), direction))
  {
    WellFormedExpands(t, p, direction);
    if direction == Right {
      ExpandsRight(t, p);
    } else {
      ExpandsLeft(t, p);
    }
  }

  // ----- Word boundaries -----

  /** A non-space cell that the next one does not continue. */
  predicate EndsWord(t: Term, direction: Direction, k: int)
    requires t.Valid() && 0 <= k < |t.glyphs|
  {
    !SpaceAt(t, direction, k) && (k + 1 == |t.glyphs| || SpaceAt(t, direction, k + 1))
  }

  /** A non-space cell after a space. */
  predicate StartsWord(t: Term, direction: Direction, k: int)
    requires t.Valid() && 0 <= k < |t.glyphs|
  {
    k > 0 && !SpaceAt(t, direction, k) && SpaceAt(t, direction, k - 1)
  }

  /** Where the motion should stop: at word ends when it goes to the side it moves toward, else at word starts. */
  predicate Stop(t: Term, direction: Direction, side: Side, k: int)
    requires t.Valid() && 0 <= k < |t.glyphs|
  {
    if direction == side then EndsWord(t, direction, k) else StartsWord(t, direction, k)
  }

  /** `q` is the nearest stop after `k`, or the last position when there is none. */
  predicate NearestStop(t: Term, direction: Direction, side: Side, k: int, q: int)
    requires t.Valid()
  {
    && 0 <= k <= q < |t.glyphs|
    && (forall j :: k < j < q ==> !Stop(t, direction, side, j))
    && if q > k && Stop(t, direction, side, q) then true
       else q == |t.glyphs| - 1
  }

  // ----- The motion -----

  /** Step on while the next cell is (`space`) or is not (`!space`) whitespace. */
  method SkipAhead(t: Term, start: Point, direction: Direction, space: bool) returns (p: Point)
    requires t.Valid() && t.d.Contains(start)
    ensures t.d.Contains(p)
    ensures var k, q := Position(t, start, direction), Position(t, p, direction);
      && 0 <= k <= q < |t.glyphs|
      && (forall j :: k < j <= q ==> SpaceAt(t, direction, j) == space)
      && (q == |t.glyphs| - 1 || SpaceAt(t, direction, q + 1) != space)
  {
    p := start;
    var next := Advance(t, p, direction);
    PositionFacts(t, p, direction);
    AdvancePosition(t, p, direction);
    PositionFacts(t, next, direction);
    while !IsBoundary(t, p, direction) && IsSpace(t, next) == space
      invariant t.d.Contains(p) && t.d.Contains(next) && next == Advance(t, p, direction)
      invariant 0 <= Position(t, start, direction) <= Position(t, p, direction) < |t.glyphs|
      invariant Position(t, next, direction) == Min(Position(t, p, direction) + 1, |t.glyphs| - 1)
      invariant IsBoundary(t, p, direction) <==> Position(t, p, direction) == |t.glyphs| - 1
      invariant IsSpace(t, next) <==> SpaceAt(t, direction, Position(t, next, direction))
      invariant forall j :: Position(t, start, direction) < j <= Position(t, p, direction) ==>
        SpaceAt(t, direction, j) == space
      decreases |t.glyphs| - Position(t, p, direction)
    {
      p := next;
      next := Advance(t, p, direction);
      PositionFacts(t, p, direction);
      AdvancePosition(t, p, direction);
      PositionFacts(t, next, direction);
    }
  }

  /** Step on while the current cell is (`space`) or is not (`!space`) whitespace. */
  method SkipHere(t: Term, start: Point, direction: Direction, space: bool) returns (p: Point)
    requires t.Valid() && t.d.Contains(start)
    ensures t.d.Contains(p)
    ensures var k, q := Position(t, start, direction), Position(t, p, direction);
      && 0 <= k <= q < |t.glyphs|
      && (forall j :: k <= j < q ==> SpaceAt(t, direction, j) == space)
      && (q == |t.glyphs| - 1 || SpaceAt(t, direction, q) != space)
  {
    p := start;
    PositionFacts(t, p, direction);
    while !IsBoundary(t, p, direction) && IsSpace(t, p) == space
      invariant t.d.Contains(p)
      invariant 0 <= Position(t, start, direction) <= Position(t, p, direction) < |t.glyphs|
      invariant IsBoundary(t, p, direction) <==> Position(t, p, direction) == |t.glyphs| - 1
      invariant IsSpace(t, p) <==> SpaceAt(t, direction, Position(t, p, direction))
      invariant forall j :: Position(t, start, direction) <= j < Position(t, p, direction) ==>
        SpaceAt(t, direction, j) == space
      decreases |t.glyphs| - Position(t, p, direction)
    {
      AdvancePosition(t, p, direction);
      p := Advance(t, p, direction);
      PositionFacts(t, p, direction);
    }
  }

  /** Skipping whitespace ahead and then the word behind it stops at the nearest word end. */
  lemma SkippedToEnd(t: Term, direction: Direction, side: Side, k: int, s: int, q: int)
    requires t.Valid() && direction == side && 0 <= k <= s <= q < |t.glyphs|
    requires forall j :: k < j <= s ==> SpaceAt(t, direction, j)
    requires s == |t.glyphs| - 1 || !SpaceAt(t, direction, s + 1)
    requires forall j :: s < j <= q ==> !SpaceAt(t, direction, j)
    requires q == |t.glyphs| - 1 || SpaceAt(t, direction, q + 1)
    ensures NearestStop(t, direction, side, k, q)
  {
  }

  /** Skipping the word here and then the whitespace behind it stops at the nearest word start. */
  lemma SkippedToStart(t: Term, direction: Direction, side: Side, k: int, s: int, q: int)
    requires t.Valid() && direction != side && 0 <= k <= s <= q < |t.glyphs|
    requires forall j :: k <= j < s ==> !SpaceAt(t, direction, j)
    requires s == |t.glyphs| - 1 || SpaceAt(t, direction, s)
    requires forall j :: s <= j < q ==> SpaceAt(t, direction, j)
    requires q == |t.glyphs| - 1 || !SpaceAt(t, direction, q)
    ensures NearestStop(t, direction, side, k, q)
  {
    forall j | k < j < q
      ensures !StartsWord(t, direction, j)
    {
      assert j < s ==> !SpaceAt(t, direction, j - 1);
      assert j == s ==> !SpaceAt(t, direction, j - 1);
    }
    if s < q {
      assert SpaceAt(t, direction, q - 1);
    }
  }

  /** Main result: from any cell of the grid, a word motion ends at the nearest word end or word start strictly
      behind the character at that cell, in its direction, and at the grid's boundary when there is none. */
  method Word(t: Term, start: Point, direction: Direction, side: Side) returns (p: Point, ghost from: int)
    requires t.Valid() && t.d.Contains(start) && CanExpand(t, start, direction)
    ensures t.d.Contains(p) && from == Position(t, ExpandWide(t, start, direction), direction)
    ensures WellFormed(t) ==> GlyphEnd(t, direction, Position(t, start, direction), from)
    ensures NearestStop(t, direction, side, from, Position(t, p, direction))
  {
    if WellFormed(t) {
      ExpandWideEndsGlyph(t, start, direction);
    }
    p := ExpandWide(t, start, direction);
    from := Position(t, p, direction);
    if direction == side {
      p := SkipAhead(t, p, direction, true);
      ghost var s := Position(t, p, direction);
      p := SkipAhead(t, p, direction, false);
      SkippedToEnd(t, direction, side, from, s, Position(t, p, direction));
    }
    if direction != side {
      p := SkipHere(t, p, direction, false);
      ghost var s := Position(t, p, direction);
      p := SkipHere(t, p, direction, true);
      SkippedToStart(t, direction, side, from, s, Position(t, p, direction));
    }
  }

  lemma GlyphEndUnique(t: Term, direction: Direction, k: int, p: int, q: int)
    requires GlyphEnd(t, direction, k, p) && GlyphEnd(t, direction, k, q)
    ensures p == q
  {
  }

  /** The stop that a motion must reach is unique, so the contract of `Word` determines its result. */
  lemma NearestStopUnique(t: Term, direction: Direction, side: Side, k: int, p: int, q: int)
    requires t.Valid()
    requires NearestStop(t, direction, side, k, p) && NearestStop(t, direction, side, k, q)
    ensures p == q
  {
  }
}
