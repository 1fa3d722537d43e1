# Terminal core: a verified model

This project models the parts of the terminal emulator whose correctness depends on loops, interleavings or
arithmetic, and proves what they are for:

- **Keyboard hints** (`HintLabels`, `HintState`, `HintMatches`). Labels come from an odometer whose last wheel runs
  over one half of the alphabet and whose other wheels run over the other half. The generator is a bijection with the
  well-formed labels, no label begins another, and in every session typing a label selects exactly its match.
- **Geometry and selections** (`Arith`, `Index`, `Selection`, `ViMotion`). Point arithmetic is arithmetic on one cell
  number. Selections are pairs of half-cell anchors; scrolling shifts and clips the covered cells, and the selected
  range is what the anchors cover, each under a condition that is shown to be necessary and sufficient. Word motions
  reach the nearest word boundary, wide characters included.
- **Lines** (`Rows`, `Storage`, `Grid`, `SelectionAcross`, `SelectionScroll`). Rows reset lazily, the ring buffer of rows turns instead
  of moving rows, regions scroll by chains of swaps, and the screen grows and shrinks at the ring's ends; all of it is
  proved to be plain surgery on a list of lines. When what is displayed and what is selected stays on its text is
  stated exactly.
- **PTY event loop and fair mutex** (`PtyWrite`, `PtyRead`, `FairMutex`). No byte is lost, repeated or reordered
  under partial writes, refusals and errors. The two-lock mutex excludes, does not let a waiting thread or a lease be
  overtaken and does not deadlock, for any number of threads and all interleavings.
- **Display bookkeeping** (`Damage`, `Scheduler`, `SearchView`, `MessageBar`). Damage rectangles cover what changed,
  timers fire in deadline order, cancelling a search restores the view although the search bar resizes the terminal
  twice, and wrapping a message loses no text.

Operations that the program performs in place are methods of classes, proved against a specification function; the
theorems are lemmas about those functions. `Common` holds shared types. `dafny verify dfyconfig.toml` checks it all.

Where the program does not always do what one would expect, the model keeps its behaviour and states when it does, as
an if-and-only-if:

- `HintState.AllLabelsSelectIff`: every label selects its match iff no two equal characters of the alphabet are in use
  for the given number of matches.
- `Selection.RotateShiftsAndClips`, `Selection.ToRangeExact`: selections that pass the last screen line, and anchors on
  both sides of a line break or above the grid.
- `SelectionScroll.ScrollDownFollowsTextIff`: a selection moves with text that scrolls down even where it covers
  scrollback, which does not move.
- `Grid.ViewKeptIff`, `Grid.OffsetStaysIff`: scrolling a region below a fixed first line raises the display offset
  although no line enters the scrollback; the view then moves, and the offset can exceed the scrollback.
- `SelectionScroll.ScrollUpAcrossIff`, `SelectionScroll.ScrollDownAcrossIff`: selections that only reach into the part
  that scrolls.
- `Rows.GrowKeepsCleanIff`, `Rows.AppendKeepsCleanIff`: rows that grow or are appended to behind a clean part. The
  program appends only to rows without a clean part (alacritty_terminal/src/grid/resize.rs:129-165).
- `SearchView.SessionRestoresViewIff`, `SearchView.SessionRestoresCursorIff`: a search that is cancelled, possibly after
  it was cleared.
- `Scheduler.UpdateEndsIff`: due timers that repeat with interval zero. The program's repeating timers have a constant
  interval or one with a positive minimum (alacritty/src/input/mod.rs:1147, alacritty/src/config/cursor.rs:58-60).
- `MessageBar.Text`: the close button's place is counted in bytes, so that it can hide text that is not ASCII.

Pixel sizes, times and colours are integers. Lines of a text are listed from the bottom of the screen upward in
`Storage`, `Grid` and `SearchView`, so that the scrollback comes last.

## Model

| member | source | states |
|---|---|---|
| HintLabels.Wheels.SuccessorRank | alacritty/src/display/hint.rs:290-315 | moving to the next index sequence raises its mixed-radix rank by exactly one, whatever carries happen |
| HintLabels.Wheels.RankOfNth | alacritty/src/display/hint.rs:283-315 | the k-th generated index sequence has rank k |
| HintLabels.Wheels.NthOfRank | alacritty/src/display/hint.rs:283-315 | every well-formed index sequence is generated, namely as the one that its rank says |
| HintLabels.Wheels.RankOfIndicesAt | alacritty/src/display/hint.rs:252-268 | decoding a number into an index sequence and ranking it gives the number back |
| HintLabels.Wheels.IndicesAtOfRank | alacritty/src/display/hint.rs:252-268 | ranking a well-formed index sequence and decoding the rank gives the sequence back |
| HintLabels.Wheels.ShorterFirst | alacritty/src/display/hint.rs:290-315 | shorter index sequences have smaller ranks than longer ones |
| HintLabels.Generator.constructor | alacritty/src/display/hint.rs:275-280 | a new generator has generated no label yet, and its split point leaves halves that differ by at most one character |
| HintLabels.Generator.Carry | alacritty/src/display/hint.rs:300-314 | the loop resets the wheels at their limit and advances the first other one, or adds a wheel |
| HintLabels.Generator.Increment | alacritty/src/display/hint.rs:290-315 | the in-place update of the indices computes their successor |
| HintLabels.Generator.Next | alacritty/src/display/hint.rs:283-287 | the label returned is the one whose number is the count of labels generated before, and that count grows by one |
| HintLabels.NthLabelShape | alacritty/src/display/hint.rs:252-287 | every label consists of characters of the second half, followed by one of the first half |
| HintLabels.PrefixFree | alacritty/src/display/hint.rs:252-287 | no word of that shape is a proper prefix of another, for repeat-free alphabets |
| HintLabels.NthLabelInjective | alacritty/src/display/hint.rs:283-315 | different numbers give different labels, for repeat-free alphabets |
| HintLabels.UsedNotBefore | alacritty/src/display/hint.rs:283-315 | a label uses only characters whose first use, computed in closed form, is not later in the generation order |
| HintLabels.NthLabelsUnambiguous | alacritty/src/display/hint.rs:283-315 | of the first labels, one begins another only if they have the same number, when those labels use no two equal characters |
| HintLabels.EveryLabelGenerated | alacritty/src/display/hint.rs:283-315 | every word of that shape is generated, and only once when the alphabet has no repeats |
| HintLabels.LabelsGrow | alacritty/src/display/hint.rs:290-315 | labels never get shorter as the generator runs |
| HintState.VisibleMatches | alacritty/src/display/hint.rs:83-113 | the matches are exactly the longest one at each start of what the hint looks for, hyperlinks or regex matches or both, in strict order of their starts |
| HintState.FindLastStarting | alacritty/src/display/hint.rs:148-150 | the backward search finds the last label starting with the key, or none |
| HintState.AssignLabels | alacritty/src/display/hint.rs:115-129 | the match at index i of n gets label number n - 1 - i without the keys pressed so far, or nothing if they do not begin it |
| HintState.Selector.Stop | alacritty/src/display/hint.rs:65-71 | clears matches, labels, keys and the hint, and keeps the alphabet |
| HintState.Selector.UpdateMatches | alacritty/src/display/hint.rs:74-130 | the new state is the specified refresh: unchanged without a hint, stopped without matches, else relabelled |
| HintState.Selector.Choose | alacritty/src/display/hint.rs:146-172 | the state and answer for a key once the labels are up to date |
| HintState.Selector.KeyboardInput | alacritty/src/display/hint.rs:132-173 | the state and answer of one key, control keys included, are the specified ones |
| HintState.Selector.UpdateAlphabet | alacritty/src/display/hint.rs:186-191 | a changed alphabet drops the pressed keys |
| HintState.AlphabetSet | alacritty/src/display/hint.rs:186-191 | the alphabet is then the given one, the pressed keys survive iff it was so before, and all else does |
| HintState.CancelStops | alacritty/src/display/hint.rs:134-147 | escape and end of text end the hint, clear matches, labels and keys and select nothing, in every state |
| HintState.BackspaceErases | alacritty/src/display/hint.rs:134-144 | backspace and unit separator leave the state of a refresh without the last key, if there is one |
| HintState.NothingToSelect | alacritty/src/display/hint.rs:74-113 | other keys do nothing without a hint, and end a hint for which nothing in view is looked for |
| HintState.AllLabelsUnambiguous | alacritty/src/display/hint.rs:115-129 | of the labels of all matches, none begins another, when they use no two equal characters |
| HintState.FoundLabel | alacritty/src/display/hint.rs:120-150 | searching residual labels for a key finds the last full label that the pressed keys and the key begin |
| HintState.KeyWalksTree | alacritty/src/display/hint.rs:144-172 | a key selects the match whose label it completes, is stored if a label goes on after it, and is ignored otherwise |
| HintState.TypedIsWalked | alacritty/src/display/hint.rs:132-173 | recomputing matches and labels at every key gives the same session as one fixed set of labels, for a fixed view |
| HintState.TypingLabelSelects | alacritty/src/display/hint.rs:74-173 | from empty keys, typing the label of match i answers nothing until its last key, which selects match i; the hint ends unless it persists |
| HintState.BackspaceUndoes | alacritty/src/display/hint.rs:134-137 | either backspace key, given by its character, undoes a key that was stored |
| HintState.RepeatLosesMatch | alacritty/src/display/hint.rs:115-173 | if the labels of the visible matches use two equal characters, some label does not select its match |
| HintState.AllLabelsSelectIff | alacritty/src/display/hint.rs:74-173 | for every number of matches, all labels select exactly their matches iff the labels use no two equal characters of the alphabet |
| HintState.KeysAlwaysHeads | alacritty/src/display/hint.rs:56-191 | in every reachable state of every run the stored keys are characters of the second half of the alphabet |
| HintMatches.Cursor.Advance | alacritty/src/display/content.rs:532-543 | the moving index answers whether some match contains the point, and only leaves matches behind that end before it |
| HintMatches.Highlight | alacritty/src/display/content.rs:529-543 | over any nondecreasing run of points the answers are those of a full search, overlaps allowed |
| HintMatches.VisibleSortedByStart | alacritty/src/display/hint.rs:111-113 | hint matches are in the order that the moving index needs |
| Index.LinearMonotone | alacritty_terminal/src/index.rs:117-129 | the order of points is the order of their cell numbers, and equal numbers mean equal points |
| Index.LinearRange | alacritty_terminal/src/grid/mod.rs:486-519 | the points of the grid are exactly those numbered from 0 to the number of cells minus one |
| Index.RawAddIsPlus | alacritty_terminal/src/index.rs:79-87 | before clamping, adding columns adds to the cell number |
| Index.RawSubIsMinus | alacritty_terminal/src/index.rs:65-74 | before clamping, the ceiling division and the wrapped column subtract from the cell number |
| Index.WrapLineIsModulo | alacritty_terminal/src/index.rs:149-162 | the two truncated remainders compute the distance from the top modulo the number of lines |
| Index.ClampToGrid | alacritty_terminal/src/index.rs:92-114 | clamping a point to the grid clamps its cell number to the grid's |
| Index.ClampToCursorArea | alacritty_terminal/src/index.rs:92-114 | clamping a point to the cursor area clamps its cell number to the screen's |
| Index.WrappingArithmetic | alacritty_terminal/src/index.rs:65-114 | without a boundary, add and sub are plus and minus on cell numbers modulo the number of cells, and stay in the grid |
| Index.GridClampedArithmetic | alacritty_terminal/src/index.rs:65-114 | with the grid boundary, the same sum and difference are clamped to the grid |
| Index.CursorClampedArithmetic | alacritty_terminal/src/index.rs:65-114 | with the cursor boundary, they are clamped to the screen |
| Index.AddSubInverse | alacritty_terminal/src/index.rs:65-114 | without a boundary, add and sub undo each other |
| Index.AddSubAdditive | alacritty_terminal/src/index.rs:65-114 | without a boundary, two steps are one step of the summed length |
| Selection.Selection.constructor | alacritty_terminal/src/selection.rs:125-130 | a new selection has both anchors at the given half cell |
| Selection.Selection.Update | alacritty_terminal/src/selection.rs:133-135 | only the end anchor moves |
| Selection.Selection.IncludeAll | alacritty_terminal/src/selection.rs:252-268 | the sides become the outward ones for the order of the anchors |
| Selection.AllIncludedCovers | alacritty_terminal/src/selection.rs:252-268 | with those sides the selection covers exactly the cells from the lower anchor's to the higher anchor's, both included |
| Selection.AllIncludedBlock | alacritty_terminal/src/selection.rs:252-268 | a block then reaches from the left of its leftmost column to the right of its rightmost |
| Selection.Selection.Rotate | alacritty_terminal/src/selection.rs:137-191 | the branches compute the specified region, or drop the selection |
| Selection.RotateAtCell | alacritty_terminal/src/selection.rs:137-191 | a cell is covered after scrolling iff it is in the scrolled part and the cell that many lines below was covered, unless the high anchor passes the last screen line |
| Selection.RotateShiftsAndClips | alacritty_terminal/src/selection.rs:137-191 | the same for all cells of the grid, exactly when a selection that passes the last screen line reaches the last column, or vanishes with equal columns; the scrolled part may end below the screen |
| Selection.OvershootWitness | alacritty_terminal/src/selection.rs:155-185 | otherwise some cell of the last line is selected wrongly |
| Selection.BlockRotates | alacritty_terminal/src/selection.rs:137-191 | scrolling a block keeps its columns and sides, shifts its rows and cuts them off at the scrolled part, unless they pass a part that ends with the screen |
| SelectionAcross.RotateAcrossIff | alacritty_terminal/src/selection.rs:137-191 | with at most one end in the scrolled part, every cell that is not new keeps its selectedness exactly if the low end does not pass unmoved cells below, and the high end leaves the part neither at the top nor past the screen with an effect |
| SelectionAcross.AcrossBottomCovers | alacritty_terminal/src/selection.rs:152-171 | with the high end below the scrolled part, the cells between the moved and clipped low anchor and the high anchor are covered |
| SelectionAcross.AcrossTopCovers | alacritty_terminal/src/selection.rs:173-188 | with the low end above the scrolled part, the cells between the low anchor and the moved and clipped high anchor are covered, or none when that is on a line above |
| SelectionAcross.NeitherScrolls | alacritty_terminal/src/selection.rs:137-191 | with no end in the scrolled part, the selection stays and every cell that is not new keeps its selectedness |
| Selection.ContainsByCells | alacritty_terminal/src/selection.rs:51-57 | a non-block range contains the cells numbered between its ends |
| Selection.BlockContains | alacritty_terminal/src/selection.rs:51-57 | a block range contains the cells of a rectangle |
| Selection.EmptyIff | alacritty_terminal/src/selection.rs:193-225 | a block is empty iff its anchors are at the same column boundary; semantic and line selections never are |
| Selection.RangeInGrid | alacritty_terminal/src/selection.rs:271-296 | for anchors in the grid the range contains a cell iff it lies completely between the half-cell anchors, except for anchors on both sides of a line break |
| Selection.RangeFromAbove | alacritty_terminal/src/selection.rs:271-296 | what the range and the anchors cover when the low anchor has scrolled out of the grid |
| Selection.LineBreakWitness | alacritty_terminal/src/selection.rs:193-208 | anchors on both sides of a line break cover nothing, yet a cell is selected |
| Selection.FromAboveWitness | alacritty_terminal/src/selection.rs:271-296 | a low anchor above the grid that fails the condition gets the grid's first cell wrong |
| Selection.ToRangeExact | alacritty_terminal/src/selection.rs:193-359 | the range is, cell for cell, what the anchors cover exactly when a condition on the anchors holds |
| Selection.NoRangeIffNothingCovered | alacritty_terminal/src/selection.rs:193-359 | then there is no range iff no cell of the grid is covered |
| Selection.PlacementOrderIrrelevant | alacritty_terminal/src/selection.rs:271-296 | exchanging the anchors does not change the range |
| ViMotion.PositionFacts | alacritty_terminal/src/vi_mode.rs:393-410 | whitespace and boundary tests in terms of the position along the motion |
| ViMotion.SpaceOfCharacter | alacritty_terminal/src/vi_mode.rs:393-398 | no cell of a wide character is whitespace; a cell of another one is iff it shows a space or a tab |
| ViMotion.AdvancePosition | alacritty_terminal/src/vi_mode.rs:384-390 | a step moves one position on and stays at the last one |
| ViMotion.ExpandWideEndsGlyph | alacritty_terminal/src/term/mod.rs:901-925 | the jump over a wide character ends at the last cell of that character in the direction of the motion, leading spacer included |
| ViMotion.SkipAhead | alacritty_terminal/src/vi_mode.rs:339-351 | the loop stops at the first position whose successor differs, or at the boundary |
| ViMotion.SkipHere | alacritty_terminal/src/vi_mode.rs:355-363 | the loop stops at the first position that differs, or at the boundary |
| ViMotion.Word | alacritty_terminal/src/vi_mode.rs:329-367 | the motion stays in the grid and ends at the nearest word end (or word start) strictly behind the character it starts in, or at the boundary when there is none |
| ViMotion.NearestStopUnique | alacritty_terminal/src/vi_mode.rs:329-367 | the stop is unique |
| ViMotion.GlyphEndUnique | alacritty_terminal/src/term/mod.rs:901-925 | so is the end of a character |
| Rows.LazyResetIsFull | alacritty_terminal/src/grid/row.rs:89-110 | resetting only the dirty prefix leaves every cell as resetting all cells would |
| Rows.ResetsFullyIffClean | alacritty_terminal/src/grid/row.rs:89-110 | resetting is full for every template iff the row is clean |
| Rows.NewRowClean | alacritty_terminal/src/grid/row.rs:37-56 | a new row is clean |
| Rows.WriteKeepsClean | alacritty_terminal/src/grid/row.rs:202-293 | whatever is written through a mutable index or range, the row stays clean |
| Rows.ResizeKeepsClean | alacritty_terminal/src/grid/row.rs:71-169 | shrinking, splitting off the front and appending in front keep a row clean |
| Rows.GrowKeepsCleanIff | alacritty_terminal/src/grid/row.rs:60-66 | growing keeps a row clean iff its clean part is empty or has the default background |
| Rows.AppendKeepsCleanIff | alacritty_terminal/src/grid/row.rs:137-143 | appending keeps a row clean iff it has no clean part or the cells that end up behind the bound are blank alike |
| Rows.EmptyIffDefault | alacritty_terminal/src/term/cell.rs:226-239 | a cell is empty iff it is a default cell, but for a tab and the attributes that do not count |
| Rows.RowRoundTrips | alacritty_terminal/src/grid/row.rs:58-169 | shrinking undoes growing and splitting off the front undoes appending in front; appended cells stay in order |
| Rows.WriteReads | alacritty_terminal/src/grid/row.rs:202-293 | what is written is read back and nothing else changes |
| Rows.RowBuffer.constructor | alacritty_terminal/src/grid/row.rs:37-56 | a new row holds default cells |
| Rows.RowBuffer.Grow | alacritty_terminal/src/grid/row.rs:60-66 | default cells are added up to the width |
| Rows.RowBuffer.Shrink | alacritty_terminal/src/grid/row.rs:71-87 | the cells behind the width are cut off and given back up to the last non-empty one |
| Rows.RowBuffer.Reset | alacritty_terminal/src/grid/row.rs:89-110 | the loop over the dirty prefix resets the whole row |
| Rows.RowBuffer.Write | alacritty_terminal/src/grid/row.rs:202-293 | only the given cells change, and the row stays clean |
| Storage.MoveZero | alacritty_terminal/src/grid/storage.rs:178-195 | moving the zero modulo the buffer turns the ring |
| Storage.UnrolledAt | alacritty_terminal/src/grid/storage.rs:220-234 | reading and writing through the computed index reads and writes that line of the ring |
| Storage.Storage.constructor | alacritty_terminal/src/grid/storage.rs:67-76 | a new storage holds the visible lines |
| Storage.Storage.ComputeIndex | alacritty_terminal/src/grid/storage.rs:220-234 | a line's place in the buffer |
| Storage.Storage.Swap | alacritty_terminal/src/grid/storage.rs:153-176 | two lines exchange places and no other changes |
| Storage.Storage.WriteCell | alacritty_terminal/src/grid/storage.rs:258-264 | exactly one cell of one line changes |
| Storage.Storage.Rotate | alacritty_terminal/src/grid/storage.rs:180-185 | all lines move in either direction, by moving the zero alone |
| Storage.Storage.RotateDown | alacritty_terminal/src/grid/storage.rs:193-195 | all lines move down, by moving the zero alone |
| Storage.Storage.Rezero | alacritty_terminal/src/grid/storage.rs:238-245 | the lines keep their order and the zero is at the buffer's start |
| Storage.Storage.Initialize | alacritty_terminal/src/grid/storage.rs:126-138 | lines are added above the topmost and all others stay, wherever the zero is; how many rows are allocated, so that the limit on cached rows is kept |
| Storage.Storage.Truncate | alacritty_terminal/src/grid/storage.rs:118-122 | cached rows go and all lines stay |
| Storage.Storage.ShrinkLines | alacritty_terminal/src/grid/storage.rs:107-114 | only the topmost lines go; their rows stay cached iff the limit on cached rows allows |
| Storage.Storage.GrowVisibleLines | alacritty_terminal/src/grid/storage.rs:80-92 | rows are added above the topmost line and no line moves in the ring |
| Storage.Storage.ShrinkVisibleLines | alacritty_terminal/src/grid/storage.rs:96-103 | the topmost rows go and no line moves in the ring |
| Grid.SwapsUpwardShift | alacritty_terminal/src/grid/mod.rs:235-240 | a chain of swaps in ascending order shifts all its rows by the distance |
| Grid.SwapsDownwardShift | alacritty_terminal/src/grid/mod.rs:296-300 | a chain of swaps in descending order shifts all its rows by the distance |
| Grid.SwapsDownwardCarries | alacritty_terminal/src/grid/mod.rs:230-233 | the rows displaced by such a chain travel to its other end |
| Grid.MovedUpByTurning | alacritty_terminal/src/grid/mod.rs:270-306 | turning the ring, swapping the fixed lines back and resetting the gap moves the lines up into the scrollback |
| Grid.RegionUpBySwaps | alacritty_terminal/src/grid/mod.rs:295-306 | swaps and resets move a region up and leave everything else |
| Grid.RegionDownBySwaps | alacritty_terminal/src/grid/mod.rs:234-245 | swaps and resets move a region down and leave everything else |
| Grid.RegionDownByTurning | alacritty_terminal/src/grid/mod.rs:208-233 | without scrollback, turning the whole ring between two chains of swaps does the same |
| Grid.Grid.constructor | alacritty_terminal/src/grid/mod.rs:141-151 | a new grid is a screen of default cells |
| Grid.Grid.IncreaseScrollLimit | alacritty_terminal/src/grid/mod.rs:175-180 | lines are added up to the limit and all others stay |
| Grid.Grid.ScrollUp | alacritty_terminal/src/grid/mod.rs:252-307 | the resulting text is the specified list surgery, and the display offset the specified one |
| Grid.OffsetStaysIff | alacritty_terminal/src/grid/mod.rs:267-306 | the display offset stays within the scrollback iff the region starts at the first line, the view is at the bottom, the region is cleared as a whole, or there are lines to spare |
| Grid.OffsetLeavesScrollback | alacritty_terminal/src/grid/mod.rs:267-301 | scrolling below a fixed first line while the topmost line is shown leaves an offset beyond the scrollback |
| Grid.ViewKept | alacritty_terminal/src/grid/mod.rs:252-307 | a view of the scrollback shows the same lines after scrolling up, if the whole screen moves into the scrollback below its limit with no fixed line in view, or a region out of view moves and the offset does not |
| Grid.ViewKeptIff | alacritty_terminal/src/grid/mod.rs:252-307 | only then, for texts whose lines can be told apart |
| Grid.Grid.ScrollDown | alacritty_terminal/src/grid/mod.rs:191-247 | all three implementations move the region down by the same list surgery and leave the scrollback alone |
| Grid.Grid.ClearHistory | alacritty_terminal/src/grid/mod.rs:383-389 | the screen is left |
| Grid.Grid.DecreaseScrollLimit | alacritty_terminal/src/grid/mod.rs:182-188 | the topmost lines go and the offset stays within what is left |
| Grid.Grid.ShrinkScreen | alacritty_terminal/src/grid/resize.rs:77-98 | lines below the cursor are dropped, the others move into the scrollback up to its limit, and the offset follows |
| Grid.Grid.GrowScreen | alacritty_terminal/src/grid/resize.rs:43-70 | lines come back from the scrollback and blank ones are added below only when it is exhausted; cached rows never show |
| Grid.Grid.ResizeLines | alacritty_terminal/src/grid/resize.rs:14-36 | the text, the offset and the cursor line after a resize that keeps the width |
| Grid.ResizeKeepsCursorLine | alacritty_terminal/src/grid/resize.rs:43-98 | after a resize the terminal cursor is on the screen and on the line of text that it was on |
| Grid.ResizeKeepsLinesAbove | alacritty_terminal/src/grid/resize.rs:43-98 | the lines above the cursor stay above it up to the limit, and no more lines leave the screen or come back than needed |
| Grid.ResizeKeepsTopOfView | alacritty_terminal/src/grid/resize.rs:43-98 | a view that is scrolled back keeps its first line during a resize, as far as the scrollback allows |
| Grid.ResizeKeepsBottom | alacritty_terminal/src/grid/resize.rs:43-98 | a view at the bottom stays there |
| Grid.Grid.WriteCell | alacritty_terminal/src/grid/mod.rs:478-482 | exactly one cell changes |
| Grid.ScrollingIsSplicing | alacritty_terminal/src/grid/mod.rs:191-307 | the list surgery is cutting, putting blank lines in and leaving lines out |
| Grid.MovedUpTwice | alacritty_terminal/src/grid/mod.rs:252-307 | scrolling up twice is scrolling up by the sum |
| Grid.RegionUpThenDown | alacritty_terminal/src/grid/mod.rs:191-307 | scrolling a region up and down again loses only the lines that left it |
| Grid.MovedUpLosesNothing | alacritty_terminal/src/grid/mod.rs:252-307 | below the limit no line is lost |
| SelectionScroll.ScrollUpKeepsSelectedText | alacritty_terminal/src/term/mod.rs:770-780 | after scrolling up, the selected cells are the previously selected ones that are left, and show the same text |
| SelectionScroll.ScrolledDownShows | alacritty_terminal/src/term/mod.rs:742-762 | which old cell each cell shows after scrolling down |
| SelectionScroll.ScrollDownFollowsTextIff | alacritty_terminal/src/term/mod.rs:742-762 | after scrolling down, every cell of the grid is selected iff the cell that it shows was, exactly if rotation is exact and nothing above the scrolled part is covered, or what is covered is too far above the grid to matter |
| SelectionScroll.ScrollDownFollowsTextInGrid | alacritty_terminal/src/term/mod.rs:742-762 | for anchors in the grid: exactly if rotation is exact and no cell of the scrollback is covered |
| SelectionScroll.ScrollUpAcrossIff | alacritty_terminal/src/term/mod.rs:770-780 | for a selection that only reaches into the part that scrolls up: every cell that shows an old cell is selected iff that one was, exactly if the high end does not leave the part at the top with an effect |
| SelectionScroll.ScrollDownAcrossIff | alacritty_terminal/src/term/mod.rs:742-762 | the same for scrolling down, exactly if no end passes cells that do not move and no scrollback is covered that does not move |
| SelectionScroll.ResizedShows | alacritty_terminal/src/term/mod.rs:655-676 | which old cell each cell shows after a resize |
| SelectionScroll.ResizeFollowsTextIff | alacritty_terminal/src/term/mod.rs:655-690 | after a resize, every cell of the grid is selected iff the cell that it shows was, exactly if rotation in the new dimensions is exact, as it always is when the screen grows |
| SelectionScroll.ScrolledUpShows | alacritty_terminal/src/term/mod.rs:770-780 | which old cell each cell shows after scrolling up |
| SelectionScroll.ViCursorFollowsTextIff | alacritty_terminal/src/term/mod.rs:742-790 | the vi cursor stays on its text iff it need not stop at the edge of the scrolled part |
| SelectionScroll.Term.ScrollUpRelative | alacritty_terminal/src/term/mod.rs:770-790 | text, selection, display offset and vi cursor move by the same clamped count over the same region |
| SelectionScroll.Term.ScrollDownRelative | alacritty_terminal/src/term/mod.rs:742-763 | text, selection and vi cursor move by the same clamped count over the same region |
| FairMutex.StepConsistent | alacritty_terminal/src/sync.rs:28-48 | every step keeps the owners of the two locks in line with where the threads are |
| FairMutex.ReachableConsistent | alacritty_terminal/src/sync.rs:28-48 | so do all runs of any number of threads |
| FairMutex.LockRun | alacritty_terminal/src/sync.rs:33-38 | a call of lock on free locks takes the ticket, then the data, and gives the ticket back when it returns |
| FairMutex.LockHandsOver | alacritty_terminal/src/sync.rs:33-38 | while the data is held after lock, another thread can take the ticket, must wait for the data and gets it as soon as it is dropped |
| FairMutex.LeaseRun | alacritty_terminal/src/event_loop.rs:116-146 | a lease takes the ticket and keeps it, also while the data is held under it, taken by a try or by waiting, so that no other thread gets the ticket until the lease is dropped |
| FairMutex.TryFailsIffHeld | alacritty_terminal/src/event_loop.rs:138-145 | a try under a lease fails iff the data is held, and changes nothing |
| FairMutex.MutualExclusion | alacritty_terminal/src/sync.rs:28-48 | in every reachable state at most one thread holds the data, and at most one the ticket |
| FairMutex.WaiterIsNext | alacritty_terminal/src/sync.rs:33-38 | while a thread with the ticket waits for the data, taking the data is what that thread and no other can do |
| FairMutex.NoOvertaking | alacritty_terminal/src/sync.rs:28-48 | in every run from every reachable state, no other thread takes the data before the waiting one |
| FairMutex.TicketExcludes | alacritty_terminal/src/sync.rs:25-48 | while a thread holds the ticket, only that thread can take the data, and only it can give the ticket up |
| FairMutex.LeaseKeepsOthersOut | alacritty_terminal/src/event_loop.rs:116-146 | in every run from every reachable state, nobody else takes the data from the moment a thread has the ticket or a lease until it gives it back, also while it only tries for the data |
| FairMutex.NoDeadlock | alacritty_terminal/src/sync.rs:28-48 | in every consistent state with an unfinished call some thread can go on with its work, without giving up a lease under which the data has not been held |
| FairMutex.ProgressRunBounded | alacritty_terminal/src/event_loop.rs:116-146 | runs of progress steps are bounded by the work left |
| FairMutex.EveryCallEnds | alacritty_terminal/src/sync.rs:28-48 | from every reachable state, such steps can only stop when all calls have ended and both locks are free, after a bounded number of them |
| PtyWrite.BalancedSend | alacritty_terminal/src/event_loop.rs:389-394 | sending keeps written, unwritten and pending bytes equal to the bytes sent |
| PtyWrite.BalancedReceive | alacritty_terminal/src/event_loop.rs:91-101 | so does moving a message from the channel to the queue |
| PtyWrite.EventLoop.constructor | alacritty_terminal/src/event_loop.rs:63-82 | everything is empty and only reading is polled for |
| PtyWrite.EventLoop.Send | alacritty_terminal/src/event_loop.rs:389-394 | messages go behind those pending |
| PtyWrite.EventLoop.Notify | alacritty_terminal/src/event_loop.rs:335-348 | all bytes given are sent, without ever queueing an empty chunk |
| PtyWrite.EventLoop.Peek | alacritty_terminal/src/event_loop.rs:468-474 | the first pending message, without changing what is pending |
| PtyWrite.EventLoop.Recv | alacritty_terminal/src/event_loop.rs:476-485 | the first pending message is taken, whether it was peeked or not |
| PtyWrite.EventLoop.DrainRecvChannel | alacritty_terminal/src/event_loop.rs:91-101 | bytes are conserved, all messages are received unless there is a shutdown, and the result tells which |
| PtyWrite.EventLoop.GotoNext | alacritty_terminal/src/event_loop.rs:416-418 | the first chunk becomes current and no byte changes place |
| PtyWrite.EventLoop.EnsureNext | alacritty_terminal/src/event_loop.rs:409-413 | afterwards there is a current chunk unless the queue is empty |
| PtyWrite.EventLoop.NeedsWriteIffUnwritten | alacritty_terminal/src/event_loop.rs:426-428 | without empty chunks, writing is needed iff drained bytes are unwritten |
| PtyWrite.EventLoop.WriteOnce | alacritty_terminal/src/event_loop.rs:183-187 | one write: what the PTY takes of the rest, by its answer alone, is written, and the chunk advances by just that |
| PtyWrite.QueueOfFirst | alacritty_terminal/src/event_loop.rs:177-200 | the calls made for a chunk leave what the outcomes leave of it in front of the other chunks, or nothing of it |
| PtyWrite.EventLoop.WriteOne | alacritty_terminal/src/event_loop.rs:177-200 | the bytes written and the rest are those that the outcomes of the calls made give, each call taking as many bytes as the PTY accepted of what was left; calls stop exactly at a refusal, an error or the end of the chunk, which is put back unless it is finished |
| PtyWrite.EventLoop.WriteCurrent | alacritty_terminal/src/event_loop.rs:176-200 | the same for the queue with the current chunk in front, which gives way to the next one when it is finished |
| PtyWrite.EventLoop.PtyWrite | alacritty_terminal/src/event_loop.rs:174-203 | bytes are conserved; the queue afterwards is what the outcomes of the calls made leave of the queue before; an error is reported iff the last write failed, and otherwise bytes are left only if the PTY refused |
| PtyWrite.EventLoop.HandleEvent | alacritty_terminal/src/event_loop.rs:256-307 | bytes are conserved; which events end the loop and which leave the queue alone; a write event leaves what its outcomes leave, ends the loop only if a write failed, and empties the queue unless the PTY refused |
| PtyWrite.EventLoop.DrainAndHandle | alacritty_terminal/src/event_loop.rs:245-307 | if the loop goes on, all messages were received, none was a shutdown, no event ended the loop, and bytes are left after a write event only if the PTY refused; it ends only for a shutdown, an event that ends it or a failed write |
| PtyWrite.EventLoop.UpdateInterest | alacritty_terminal/src/event_loop.rs:309-316 | the PTY is polled for writing iff writing is needed |
| PtyWrite.EventLoop.HandlePass | alacritty_terminal/src/event_loop.rs:245-317 | the same for a pass, which then polls for writing iff writing is needed; an idle pass changes nothing |
| PtyWrite.EventLoop.HandlePoll | alacritty_terminal/src/event_loop.rs:227-317 | the same for one turn with any poll result and any messages arriving during it; afterwards a shutdown is pending iff one was or arrived |
| PtyWrite.EventLoop.Run | alacritty_terminal/src/event_loop.rs:205-324 | over every run, bytes written, then unwritten, then pending are the bytes sent, in order; what was written stays written; writing is polled for iff drained bytes are unwritten; a run that goes on met no failed poll and no event that ends it, and has every shutdown still pending; it ends only for a shutdown, a failed poll, an event that ends it or a failed write |
| PtyRead.Pty.Read | alacritty_terminal/src/event_loop.rs:122-124 | a read puts the next bytes of the stream behind those held, as far as there is room |
| PtyRead.Fill | alacritty_terminal/src/event_loop.rs:122-135 | what each read outcome does to the buffer, and that reading stops exactly when nothing is held |
| PtyRead.ReadAndParse | alacritty_terminal/src/event_loop.rs:104-171 | parsed bytes, then held ones, are the bytes read; all of them on success; fewer than both limits together; reading ends only for a stated reason; nothing is parsed before the first turn in which the terminal is free or the buffer full; and bytes are held back only while the terminal is locked by others |
| Damage.MergeIsLeast | alacritty/src/display/damage.rs:293-299 | the merged rectangle is the least that contains both |
| Damage.OverdamageContains | alacritty/src/display/damage.rs:238-251 | a grown rectangle contains the original and stays on the surface |
| Damage.OverdamageReaches | alacritty/src/display/damage.rs:238-251 | it reaches a cell to either side and half a cell up and down as far as the surface goes, and at most twice as far where it starts at the surface's edge |
| Damage.LineOnSurface | alacritty/src/display/damage.rs:227-235 | a line's rectangle is on the surface when the grid fits it |
| Damage.CellsOfLine | alacritty/src/display/damage.rs:227-235 | a line's rectangle holds the pixels of its damaged cells, with line 0 at the top of the surface, and of no other cells |
| Damage.OverlapIff | alacritty/src/display/damage.rs:278-291 | rectangles overlap iff they share a point, be it on their edges |
| Damage.HullIsLeast | alacritty/src/display/damage.rs:257-274 | repeated merging gives the least rectangle around all merged lines |
| Damage.RectIterator.Next | alacritty/src/display/damage.rs:257-274 | each rectangle is the hull of the next run of damaged lines, which ends before a line that does not touch it |
| Damage.ShapeLines | alacritty/src/display/damage.rs:93-103 | the runs partition the damaged lines in order: each is consumed exactly once |
| Damage.LineCovered | alacritty/src/display/damage.rs:93-103 | every pixel of every damaged cell of a line is in a rectangle |
| Damage.HullOnSurface | alacritty/src/display/damage.rs:227-274 | every rectangle made from lines is on the surface |
| Damage.ShapeFrameDamage | alacritty/src/display/damage.rs:93-103 | a full frame is the surface; otherwise every pixel of every damaged cell, placed by its line and column, is in a rectangle, added rectangles are passed on and no other rectangle leaves the surface |
| Damage.SkippedIsInvisible | alacritty/src/display/damage.rs:118-127 | the visibility test with its absolute value skips only selections that reach no viewport line |
| Damage.MeetsIffSelected | alacritty/src/display/damage.rs:106-135 | a selection reaches a viewport line iff a cell of the line is selected |
| Damage.ExpandAdds | alacritty_terminal/src/term/mod.rs:155-170 | expanding the damage of a line adds the given columns and, to an undamaged line, no others |
| Damage.DamageTracker.constructor | alacritty/src/display/damage.rs:31-42 | the first frame is fully damaged |
| Damage.DamageTracker.SwapDamage | alacritty/src/display/damage.rs:58-63 | the next frame becomes active and is replaced by an undamaged one |
| Damage.DamageTracker.DamageOne | alacritty/src/display/damage.rs:117-134 | exactly the viewport lines that the selection reaches are fully expanded, for every display offset |
| Damage.DamageTracker.DamageSelection | alacritty/src/display/damage.rs:106-135 | exactly the lines met by the old or the new selection are expanded, and nothing when the frame is full or the selection unchanged |
| Damage.SelectionChangeDamaged | alacritty/src/display/damage.rs:106-135 | a viewport cell whose selectedness changes is inside its line's damage |
| Scheduler.InsertedSorted | alacritty/src/scheduler.rs:76-90 | inserting keeps the deque sorted |
| Scheduler.InsertedMultiset | alacritty/src/scheduler.rs:76-90 | inserting adds just the one timer |
| Scheduler.InsertedAllSorted | alacritty/src/scheduler.rs:58-90 | so do all reschedulings of an update |
| Scheduler.RescheduledEach | alacritty/src/scheduler.rs:62-69 | each repeating timer that fires comes back with the deadline that its interval and one reading of the clock give |
| Scheduler.DueAreLeading | alacritty/src/scheduler.rs:58-61 | the due timers are exactly the leading ones |
| Scheduler.TurnsArePartway | alacritty/src/scheduler.rs:61-70 | after any number of turns the deque is the due timers left, followed by the later ones with all replacements |
| Scheduler.LoopEnd | alacritty/src/scheduler.rs:61-72 | when the loop ends all remaining timers are later than the sampled time |
| Scheduler.ZeroNeverEnds | alacritty/src/scheduler.rs:61-69 | with a due timer that repeats with interval zero and a clock that stands still, the front is due after every number of turns |
| Scheduler.UpdateEndsIff | alacritty/src/scheduler.rs:58-73 | an update ends on every clock that does not run backwards iff no due timer repeats with interval zero |
| Scheduler.Scheduler.Schedule | alacritty/src/scheduler.rs:76-90 | the timer goes behind all timers that are due no later |
| Scheduler.Scheduler.FireFront | alacritty/src/scheduler.rs:62-69 | the front timer's event is emitted and the timer replaced if it repeats |
| Scheduler.Scheduler.Update | alacritty/src/scheduler.rs:58-73 | the update ends; the events of the timers due at entry are emitted once each in deadline order, ties in insertion order; repeating timers are rescheduled; the result is the least remaining deadline, later than the sampled time |
| Scheduler.Scheduler.Unschedule | alacritty/src/scheduler.rs:93-96 | the first timer with the id is removed and returned, or there is none |
| SearchView.SearchContext.ScrollDisplay | alacritty_terminal/src/term/mod.rs:389-408 | the offset stays in the scrollback and the cursor in the viewport |
| SearchView.ScrollShows | alacritty_terminal/src/grid/mod.rs:163-173 | which lines each way of scrolling shows: the top or the bottom of the text, the page before or after, or as many lines away as asked for or as there are |
| SearchView.ScrollKeepsCursor | alacritty_terminal/src/term/mod.rs:389-408 | the vi cursor stays where it is if it is still in view, and otherwise moves to the nearest line in view |
| SearchView.SearchContext.UserScroll | alacritty/src/event.rs:702-713 | a scroll keeps offset plus counted lines, so the way back stays known |
| SearchView.SearchContext.StartSearch | alacritty/src/event.rs:941-960 | the search is anchored at the current offset |
| SearchView.SearchContext.ResetState | alacritty/src/event.rs:1525-1546 | the viewport is back at the offset at which the search was anchored |
| SearchView.SearchContext.GotoMatch | alacritty/src/event.rs:1549-1600 | whatever the search finds, the way back stays known |
| SearchView.MatchShown | alacritty/src/event.rs:1549-1600 | a match is shown with the cursor on it, scrolling no further than needed; without one the view and the cursor go back; a search that ran into its limit only forgets the match |
| SearchView.SearchContext.ScrollToPoint | alacritty_terminal/src/term/mod.rs:884-898 | afterwards a point of the grid is in the viewport |
| SearchView.SearchContext.CancelSearch | alacritty/src/event.rs:1042-1058 | the display offset is the one at which the search was anchored |
| SearchView.SearchContext.ClearSearch | alacritty/src/input/mod.rs:312-316 | clearing a search keeps the way back known |
| SearchView.SearchContext.ShowBar | alacritty/src/window_context.rs:539-559 | the state when the search bar has taken its line and the view has been scrolled for it, without counting that scroll |
| SearchView.SearchContext.Resize | alacritty_terminal/src/term/mod.rs:655-697 | the terminal after a resize, with the vi cursor moved with the content and kept in the viewport |
| SearchView.SearchContext.SearchAndCancel | alacritty/src/event.rs:941-1058 | a whole search in place: the bar appears, anything is scrolled, searched and cleared, the search is cancelled and the bar goes; the same lines are displayed, under the stated condition |
| SearchView.AppliedAllAnchored | alacritty/src/event.rs:702-713 | over every run of scrolls, match jumps and clears, display offset plus count is constant and the text stays |
| SearchView.AppliedAllOrigin | alacritty/src/input/mod.rs:312-316 | over every such run, where cancelling would put the cursor depends only on the number of clears, each of which moves the origin up a line if the terminal cursor is on the last line |
| SearchView.CancelReturns | alacritty/src/event.rs:1042-1058 | cancelling undoes every run: the offset is restored and the cursor put where the origin and the number of clears say |
| SearchView.OffsetRestoredIff | alacritty/src/window_context.rs:539-559 | with the resizes and the scroll for the search bar, the display offset is restored iff the bar takes no line, the view is at the bottom, or the content was pushed up below the scrollback limit |
| SearchView.SessionRestoresView | alacritty/src/window_context.rs:539-559 | the lines displayed before the search are displayed after it, if the content was pushed up below the limit, or was not pushed and the view is scrolled back |
| SearchView.SessionRestoresViewIff | alacritty/src/window_context.rs:539-559 | only then, for texts whose lines can be told apart |
| SearchView.SessionShiftsText | alacritty_terminal/src/grid/resize.rs:43-98 | where each line of text is after the two resizes |
| SearchView.SessionRestoresCursorIff | alacritty_terminal/src/term/mod.rs:669-697 | the vi cursor is back on its line of text iff that line stays in view beside the bar and, if the search was cleared, clearing could not move the origin |
| MessageBar.BreakLine | alacritty/src/message_bar.rs:60-72 | a line that must end is split at its last whitespace, which is dropped, unless it ends at whitespace; no visible character is lost |
| MessageBar.LineBroken | alacritty/src/message_bar.rs:60-76 | for characters of one column the line then ends at the last whitespace that it can, or in a word that fills it |
| MessageBar.TakeCharacter | alacritty/src/message_bar.rs:52-86 | each character keeps all visible characters before it, whatever their widths, and for characters of one column the lines so far consecutive and the current line within its capacity |
| MessageBar.Wrap | alacritty/src/message_bar.rs:48-88 | no visible character is lost, whatever the widths; characters of one column are shown in consecutive segments, broken by the rules |
| MessageBar.WrapUnique | alacritty/src/message_bar.rs:48-88 | the rules leave exactly one way to wrap a text |
| MessageBar.WrappedWidths | alacritty/src/message_bar.rs:52-88 | every line shows its segment within its capacity and has exactly the bar's width |
| MessageBar.VisibleAll | alacritty/src/message_bar.rs:52-88 | the lines together show every visible character once and in order |
| MessageBar.NonSpacePad | alacritty/src/message_bar.rs:131-135 | padding shows nothing |
| MessageBar.TrimSegment | alacritty/src/message_bar.rs:51 | trimming leaves one segment of the message, with only whitespace outside it and none at its ends |
| MessageBar.WhitespaceOf | alacritty/src/message_bar.rs:51-72 | which characters of Latin-1 and behind the general punctuation are whitespace |
| MessageBar.ButtonCoversPadding | alacritty/src/message_bar.rs:53-58 | the close button hides no visible character of a first line of single-byte characters |
| MessageBar.CutVisibleIff | alacritty/src/message_bar.rs:101-104 | cutting a line to a number of bytes keeps all visible characters iff the line up to its last visible character fits |
| MessageBar.CutFailsIff | alacritty/src/message_bar.rs:101-104 | cutting fails iff there are more bytes and no character starts at the place of the cut |
| MessageBar.Finish | alacritty/src/message_bar.rs:90-106 | the number of lines is limited, a cut is marked in the last line if the mark fits, also if that is the only line, and the first line is cut in bytes to end with the button if it fits; the program ends iff that is within a character |
| MessageBar.Text | alacritty/src/message_bar.rs:39-109 | wrapping loses no visible character; when no line is cut, the button hides none iff the first line leaves room for it in bytes; for single-byte characters of one column every line is exactly as wide as the bar and all is visible |

## Left out

- Machine integers: widths and overflow of `i32` and `usize` are not modelled, nor rounding of the label split point, which is computed in floating point.
- HintState.TypingLabelSelects: needs a view that stays the same during the session. That the alphabet has no control key is no restriction, because the configuration accepts only characters of width one (alacritty/src/config/ui_config.rs:311-315).
- HintState.Selector.KeyboardInput: an alphabet has at least two characters, as the configuration guarantees (alacritty/src/config/ui_config.rs:319-321); the view's hyperlinks and regex matches are given, so the regex engine, post-processing of matches and hyperlink iteration are not modelled.
- Selection.RotateShiftsAndClips: block selections are in `Selection.BlockRotates`, but for blocks that pass a part that ends with the screen; selections with an end outside the scrolled part are in `SelectionAcross.RotateAcrossIff`.
- Selection.ToRangeExact: simple selections only; which semantic, line and block ranges the anchors give is not modelled.
- ViMotion.Word: requires that the jump over a wide character stays in the grid, without which the program ends; the semantic motions and bracket search are not modelled.
- Rows.RowBuffer.Write: hands out a written range at once; aliasing of mutable references is not modelled.
- Grid.Grid.ScrollUp: a region from the first line scrolls by at most its height, which the callers ensure (alacritty_terminal/src/term/mod.rs:773).
- Grid.Grid.ResizeLines: the saved cursor is not modelled, nor resizing in width with its reflow.
- FairMutex.EveryCallEnds: that the operating system schedules every thread is not modelled, nor threads that use the unfair locks without a lease.
- PtyWrite.EventLoop.Run: the outcomes of polls, reads and writes and the arrival of messages are parameters; the parser, synchronized updates, logging and the panic on a closed channel are not modelled (the loop itself owns a sender).
- PtyRead.ReadAndParse: the outcomes of reads and lock attempts are parameters, and the parser is the sequence of bytes handed to it.
- Damage.ShapeFrameDamage: coverage assumes that the cell grid and the padding fit the surface; the intersection test of frames and the cursor's own damage are not modelled.
- Scheduler.Scheduler.Update: requires that no due timer repeats with interval zero, without which it need not end (`Scheduler.UpdateEndsIff`), and a clock that does not run backwards.
- SearchView.SessionRestoresView: vi mode with the vi cursor in view, as vi mode keeps it, with the terminal's resize done before the next input is handled, no output of the program that runs in the terminal and no other change of the window meanwhile; the delayed search timer is not modelled.
- SearchView.SearchContext.SearchAndCancel: moving the search origin to the next or previous match (alacritty/src/event.rs:1127-1169), which anchors the search anew and can be bound to a key in vi mode, is not modelled.
- MessageBar.Text: nothing is stated about the width of lines with characters of two columns or none.
- Rendering, windows, clipboard, configuration, IPC and the process manager are not modelled.
