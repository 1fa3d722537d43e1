/** Searching in vi mode moves the viewport, and the search bar takes a line of the screen; cancelling the search
    must put everything back. */
module SearchView {
  import opened Common
  import opened Arith
  import opened Index
  import G = Grid

  datatype Scroll = Delta(count: int) | PageUp | PageDown | Top | Bottom

  /** Text, viewport, cursors and search bookkeeping. `active` is whether a search history entry is selected. */
  datatype State = State(
    text: seq<G.Line>, screen: nat, limit: nat, offset: nat, terminalCursor: int,
    cursor: Point, active: bool, origin: Point, delta: int, focused: Option<Point>)
  {
    /** The display offset does not exceed the scrollback, and the terminal cursor is on the screen. */
    predicate Sound() {
      && 1 <= screen <= |text| <= screen + limit && offset + screen <= |text|
      && 0 <= terminalCursor < screen
    }

    function History(): int { |text| - screen }

    /** First and last line of the viewport. */
    function FirstLine(): int { -(offset as int) }

    function LastLine(): int { screen - 1 - offset }

    predicate CursorInView() {
      FirstLine() <= cursor.line <= LastLine()
    }
  }

  // ----- Scrolling -----

  /** Display offset after scrolling, kept within the scrollback. */
  function ScrolledOffset(s: State, scroll: Scroll): nat
    requires s.Sound()
  {
    match scroll
    case Delta(count) => Min(Max(s.offset + count, 0), s.History())
    case PageUp => Min(s.offset + s.screen, s.History())
    case PageDown => Max(s.offset - s.screen, 0)
    case Top => s.History()
    case Bottom => 0
  }

  /** The nearest viewport line. */
  function ClampToViewport(screen: nat, offset: nat, p: Point): Point {
    Point(Min(screen - 1 - offset, Max(-(offset as int), p.line)), p.column)
  }

  /** Scrolling the display moves the offset and keeps the vi cursor in the viewport. */
  function DisplayScrolled(s: State, scroll: Scroll): State
    requires s.Sound()
  {
    var offset := ScrolledOffset(s, scroll);
    s.(offset := offset, cursor := ClampToViewport(s.screen, offset, s.cursor))
  }

  /** Which lines each way of scrolling shows: the top and the bottom of the text, or as many lines away as asked for or
      as there are. */
  lemma ScrollShows(s: State, scroll: Scroll)
    requires s.Sound()
    ensures var t := DisplayScrolled(s, scroll);
      && t.Sound() && t.CursorInView()
      && (scroll == Top ==> G.Displayed(t.text, t.screen, t.offset) == s.text[|s.text| - s.screen..])
      && (scroll == Bottom ==> G.Displayed(t.text, t.screen, t.offset) == s.text[..s.screen])
      && (scroll == PageUp ==>
          t.LastLine() + 1 == s.FirstLine() || (t.offset == s.History() && t.LastLine() + 1 >= s.FirstLine()))
      && (scroll == PageDown ==>
          t.FirstLine() == s.LastLine() + 1 || (t.offset == 0 && t.FirstLine() <= s.LastLine() + 1))
      && (scroll.Delta? ==>
          && (0 <= s.offset + scroll.count <= s.History() ==> t.FirstLine() == s.FirstLine() - scroll.count)
          && (s.offset + scroll.count < 0 ==> t.offset == 0)
          && (s.History() < s.offset + scroll.count ==> t.offset == s.History()))
  {
  }

  /** The cursor moves with the viewport only as far as it must. */
  lemma ScrollKeepsCursor(s: State, scroll: Scroll)
    requires s.Sound()
    ensures var t := DisplayScrolled(s, scroll);
      && t.cursor.column == s.cursor.column
      && (t.FirstLine() <= s.cursor.line <= t.LastLine() ==> t.cursor == s.cursor)
      && (s.cursor.line < t.FirstLine() ==> t.cursor.line == t.FirstLine())
      && (t.LastLine() < s.cursor.line ==> t.cursor.line == t.LastLine())
  {
  }

  /** Scroll just far enough to show a point. */
  function ScrolledToPoint(s: State, p: Point): State
    requires s.Sound()
  {
    if p.line < -(s.offset as int) then DisplayScrolled(s, Delta(-(p.line + s.offset)))
    else if p.line >= s.screen - s.offset then DisplayScrolled(s, Delta(-(p.line + s.offset - s.screen + 1)))
    else s
  }

  /** Scrolling by the user. */
  function Scrolled(s: State, scroll: Scroll): State
    requires s.Sound()
  {
    var t := DisplayScrolled(s, scroll);
    if t.active then t.(delta := t.delta + (s.offset - t.offset)) else t
  }

  // ----- The search -----

  /** The terminal cursor is on the last line, so that the search bar will push the content up. */
  predicate Pushes(s: State) { s.terminalCursor + 1 == s.screen }

  /** Starting a search; the origin moves with content that the search bar will push up. */
  function Started(s: State): State {
    var line := if Pushes(s) then s.cursor.line - 1 else s.cursor.line;
    s.(active := true, focused := None, delta := 0, origin := Point(line, s.cursor.column))
  }

  /** Back to the state before the search. */
  function Reset(s: State): State
    requires s.Sound()
  {
    DisplayScrolled(s.(focused := None, cursor := s.origin), Delta(s.delta)).(delta := 0)
  }

  /** Result of looking for a match: its start, or none within a limit or in the whole terminal. */
  datatype Search = Found(start: Point) | NotWithinLimit | NoMatch

  function WentToMatch(s: State, search: Search): State
    requires s.Sound()
  {
    match search
    case Found(start) =>
      var t := ScrolledToPoint(s, start);
      t.(cursor := start, focused := Some(start), delta := s.delta + (s.offset - t.offset))
    case NoMatch => Reset(s)
    case NotWithinLimit => s.(focused := None)
  }

  function Cancelled(s: State): State
    requires s.Sound()
  {
    Reset(s).(active := false, focused := None)
  }

  /** A match of the text is shown with the cursor on it, scrolling no further than needed; with no match in the whole
      text the cursor goes to the origin, or the viewport line nearest to it; a search that ran into its limit only
      forgets the match. */
  lemma MatchShown(s: State, start: Point)
    requires s.Sound() && -s.History() <= start.line < s.screen
    ensures var t := WentToMatch(s, Found(start));
      && t.Sound() && t.CursorInView() && t.cursor == start && t.focused == Some(start)
      && (s.FirstLine() <= start.line <= s.LastLine() ==> t.offset == s.offset)
      && (start.line < s.FirstLine() ==> t.FirstLine() == start.line)
      && (s.LastLine() < start.line ==> t.LastLine() == start.line)
    ensures WentToMatch(s, NotWithinLimit) == s.(focused := None)
    ensures var t := WentToMatch(s, NoMatch);
      && t.offset == Min(Max(s.offset + s.delta, 0), s.History()) && t.delta == 0 && t.focused == None
      && t.cursor == ClampToViewport(s.screen, t.offset, s.origin)
  {
  }

  /** The terminal with another number of lines; the vi cursor moves with the content and stays in the viewport. */
  function Resized(s: State, lines: nat, blank: G.Line): State
    requires s.Sound() && 1 <= lines
  {
    if lines == s.screen then s
    else
      var delta := G.ResizeDelta(|s.text|, s.screen, lines, s.terminalCursor);
      var offset := G.ResizedOffset(s.offset, s.screen, lines, s.terminalCursor, s.limit);
      s.(text := G.ResizedText(s.text, s.screen, lines, s.terminalCursor, s.limit, blank),
         screen := lines,
         offset := offset,
         terminalCursor := G.ResizedCursor(|s.text|, s.screen, lines, s.terminalCursor),
         cursor := ClampToViewport(lines, offset, Point(s.cursor.line + delta, s.cursor.column)))
  }

  /** Lines of the screen that the search bar leaves. */
  function LinesBesideBar(screen: nat): nat {
    Max(screen - 1, 1)
  }

  /** What can happen during a search; clearing it cancels it and starts it again, without resizing. */
  datatype Op = UserScrolls(scroll: Scroll) | Searches(search: Search) | Clears

  function Applied(s: State, op: Op): (t: State)
    requires s.Sound()
    ensures t.Sound()
  {
    match op
    case UserScrolls(scroll) => Scrolled(s, scroll)
    case Searches(search) => WentToMatch(s, search)
    case Clears => Started(Cancelled(s))
  }

  function AppliedAll(s: State, ops: seq<Op>): (t: State)
    requires s.Sound()
    ensures t.Sound()
  {
    if ops == [] then s else Applied(AppliedAll(s, ops[..|ops| - 1]), ops[|ops| - 1])
  }

  lemma ResizedSound(s: State, lines: nat, blank: G.Line)
    requires s.Sound() && 1 <= lines
    ensures Resized(s, lines, blank).Sound()
  {
    G.ResizedLength(s.text, s.screen, lines, s.terminalCursor, s.limit, blank);
  }

  /** Once the bar has taken its line, a scroll by one line may keep the cursor of the time before, in `before`, in
      view. It is not counted as a scroll of the search. */
  function StartScrolled(before: State, s: State): State
    requires s.Sound()
  {
    var cursorAtBottom := before.cursor.line == before.screen - 1;
    if s.offset == 0 && Pushes(before) && !cursorAtBottom then DisplayScrolled(s, Delta(1))
    else if s.offset != 0 && cursorAtBottom then DisplayScrolled(s, Delta(-1))
    else s
  }

  /** The search has started and the bar has appeared. */
  function WithBar(s: State, blank: G.Line): (t: State)
    requires s.Sound()
    ensures t.Sound()
  {
    ResizedSound(Started(s), LinesBesideBar(s.screen), blank);
    StartScrolled(s, Resized(Started(s), LinesBesideBar(s.screen), blank))
  }

  /** A whole search: the bar appears, anything that can happen during a search does, the search is cancelled and
      the bar disappears. */
  function Session(s: State, ops: seq<Op>, blank: G.Line): State
    requires s.Sound()
  {
    Resized(Cancelled(AppliedAll(WithBar(s, blank), ops)), s.screen, blank)
  }

  // ----- Every run -----

  /** A search in `base`, anchored at display offset `start`: the way back is always known. */
  predicate Anchored(s: State, base: State, start: nat) {
    && s.Sound() && s.active && s.offset + s.delta == start <= s.History()
    && s == base.(offset := s.offset, cursor := s.cursor, delta := s.delta, focused := s.focused, origin := s.origin)
  }

  lemma AppliedAnchored(s: State, op: Op, base: State, start: nat)
    requires Anchored(s, base, start)
    ensures Anchored(Applied(s, op), base, start)
  {
  }

  lemma {:induction false} AppliedAllAnchored(s: State, ops: seq<Op>, base: State, start: nat)
    requires Anchored(s, base, start)
    ensures Anchored(AppliedAll(s, ops), base, start)
  {
    if ops != [] {
      AppliedAllAnchored(s, ops[..|ops| - 1], base, start);
      AppliedAnchored(AppliedAll(s, ops[..|ops| - 1]), ops[|ops| - 1], base, start);
    }
  }

  function CountClears(ops: seq<Op>): nat {
    if ops == [] then 0 else CountClears(ops[..|ops| - 1]) + if ops[|ops| - 1].Clears? then 1 else 0
  }

  /** The viewport line nearest to the search's origin. */
  function OriginInView(s: State): Point {
    ClampToViewport(s.screen, s.offset, s.origin)
  }

  /** Where cancelling puts the cursor: each time the search was cleared with the terminal cursor on the last line,
      the origin moved up a line, as far as the viewport goes. */
  function CancelLine(s: State, clears: nat): int {
    if Pushes(s) then Max(OriginInView(s).line - clears, s.FirstLine()) else OriginInView(s).line
  }

  /** The origin is nearest to the line that cancelling leads to. */
  predicate OriginLeadsTo(t: State, s: State, line: int) {
    ClampToViewport(s.screen, s.offset, t.origin) == Point(line, s.origin.column)
  }

  lemma AppliedOrigin(t: State, op: Op, s: State, clears: nat)
    requires s.Sound() && s.active && Anchored(t, s, s.offset) && OriginLeadsTo(t, s, CancelLine(s, clears))
    ensures OriginLeadsTo(Applied(t, op), s, CancelLine(s, clears + if op.Clears? then 1 else 0))
  {
  }

  lemma {:induction false} AppliedAllOrigin(s: State, ops: seq<Op>)
    requires s.Sound() && s.active && s.delta == 0
    ensures OriginLeadsTo(AppliedAll(s, ops), s, CancelLine(s, CountClears(ops)))
  {
    if ops != [] {
      var front := ops[..|ops| - 1];
      AppliedAllOrigin(s, front);
      AppliedAllAnchored(s, front, s, s.offset);
      AppliedOrigin(AppliedAll(s, front), ops[|ops| - 1], s, CountClears(front));
    }
  }

  /** Whatever happens during a search, cancelling returns to the display offset at which it was anchored; where the
      cursor goes depends only on the origin and on how often the search was cleared. */
  lemma CancelReturns(s: State, ops: seq<Op>)
    requires s.Sound() && s.active && s.delta == 0
    ensures Cancelled(AppliedAll(s, ops))
         == s.(cursor := Point(CancelLine(s, CountClears(ops)), s.origin.column),
               origin := AppliedAll(s, ops).origin, active := false, focused := None)
  {
    AppliedAllAnchored(s, ops, s, s.offset);
    AppliedAllOrigin(s, ops);
  }

  /** The terminal when the bar has taken its line. */
  function Small(s: State): State
    requires s.Sound() && s.screen >= 2
  {
    var offset := if Pushes(s) && s.offset != 0 then Min(s.offset + 1, s.limit) else s.offset;
    Started(s).(
      text := G.ShrunkText(s.text, s.screen, s.screen - 1, s.terminalCursor, s.limit),
      screen := s.screen - 1,
      offset := offset,
      terminalCursor := Min(s.terminalCursor, s.screen - 2),
      cursor := ClampToViewport(s.screen - 1, offset, Started(s).origin))
  }

  lemma ShrunkByOne(text: seq<G.Line>, screen: nat, terminalCursor: int, limit: nat)
    requires 2 <= screen <= |text| <= screen + limit && 0 <= terminalCursor < screen
    ensures G.ShrunkText(text, screen, screen - 1, terminalCursor, limit)
         == if terminalCursor + 1 == screen then text[..Min(|text|, limit + screen - 1)]
            else text[1..]
  {
  }

  lemma ShrinkNumbers(length: nat, screen: nat, terminalCursor: int, limit: nat, offset: nat)
    requires 2 <= screen <= length && 0 <= terminalCursor < screen && offset <= limit
    ensures G.ResizeDelta(length, screen, screen - 1, terminalCursor)
         == if terminalCursor + 1 == screen then -1 else 0
    ensures G.ResizedOffset(offset, screen, screen - 1, terminalCursor, limit)
         == if terminalCursor + 1 == screen && offset != 0 then Min(offset + 1, limit) else offset
    ensures G.ResizedCursor(length, screen, screen - 1, terminalCursor) == Min(terminalCursor, screen - 2)
  {
  }

  lemma ShrinkForBar(s: State, blank: G.Line)
    requires s.Sound() && s.screen >= 2
    ensures Resized(Started(s), s.screen - 1, blank) == Small(s)
  {
    ShrinkNumbers(|s.text|, s.screen, s.terminalCursor, s.limit, s.offset);
  }

  lemma SmallHistory(s: State)
    requires s.Sound() && s.screen >= 2
    ensures Small(s).Sound() && Small(s).History() == if Pushes(s) then Min(s.History() + 1, s.limit) else s.History()
  {
    ShrunkByOne(s.text, s.screen, s.terminalCursor, s.limit);
  }

  /** The terminal with the line of the search bar back. */
  function Larger(s: State, blank: G.Line): State
    requires s.Sound()
  {
    var offset := Max(s.offset - 1, 0);
    s.(text := if s.History() == 0 then [blank] + s.text else s.text,
       screen := s.screen + 1,
       offset := offset,
       terminalCursor := s.terminalCursor + Min(s.History(), 1),
       cursor := ClampToViewport(s.screen + 1, offset, Point(s.cursor.line + Min(s.History(), 1), s.cursor.column)))
  }

  lemma GrowAfterBar(s: State, blank: G.Line)
    requires s.Sound()
    ensures Resized(s, s.screen + 1, blank) == Larger(s, blank)
  {
    G.ResizedLength(s.text, s.screen, s.screen + 1, s.terminalCursor, s.limit, blank);
  }

  /** The terminal during the search. */
  function Bar(s: State): (t: State)
    requires s.Sound() && s.screen >= 2
    ensures t.Sound() && t.screen == s.screen - 1
  {
    SmallHistory(s);
    StartScrolled(s, Small(s))
  }

  /** Display offset during the search. */
  function BarOffset(s: State): nat {
    if !Pushes(s) then s.offset
    else if s.offset != 0 then Min(s.offset + 1, s.limit)
    else if s.limit >= 1 && s.cursor.line != s.screen - 1 then 1
    else 0
  }

  lemma StartScrollNumbers(s: State, small: State)
    requires s.Sound() && s.CursorInView() && s.screen >= 2 && small.Sound()
    requires small.offset == if Pushes(s) && s.offset != 0 then Min(s.offset + 1, s.limit) else s.offset
    requires small.History() == if Pushes(s) then Min(s.History() + 1, s.limit) else s.History()
    ensures StartScrolled(s, small) == small.(offset := BarOffset(s), cursor := StartScrolled(s, small).cursor)
  {
  }

  lemma BarNumbers(s: State)
    requires s.Sound() && s.CursorInView() && s.screen >= 2
    ensures Bar(s) == Small(s).(offset := BarOffset(s), cursor := Bar(s).cursor)
    ensures Bar(s).History() == if Pushes(s) then Min(s.History() + 1, s.limit) else s.History()
  {
    SmallHistory(s);
    StartScrollNumbers(s, Small(s));
  }

  /** The terminal when the search has been cancelled. */
  function CancelledBar(s: State, ops: seq<Op>): (t: State)
    requires s.Sound() && s.screen >= 2
    ensures t.Sound() && t.screen == s.screen - 1
  {
    Bar(s).(cursor := Point(CancelLine(Bar(s), CountClears(ops)), s.cursor.column),
            origin := AppliedAll(Bar(s), ops).origin, active := false)
  }

  lemma CancelBesideBar(s: State, ops: seq<Op>)
    requires s.Sound() && s.screen >= 2
    ensures Cancelled(AppliedAll(Bar(s), ops)) == CancelledBar(s, ops)
  {
    CancelReturns(Bar(s), ops);
  }

  lemma GrowBack(s: State, screen: nat, blank: G.Line)
    requires s.Sound() && screen == s.screen + 1
    ensures Resized(s, screen, blank) == Larger(s, blank)
  {
    GrowAfterBar(s, blank);
  }

  lemma WithBarIsBar(s: State, blank: G.Line)
    requires s.Sound() && s.screen >= 2
    ensures WithBar(s, blank) == Bar(s)
  {
    ShrinkForBar(s, blank);
  }

  /** A session depends on nothing that happens during the search but the number of times that it is cleared. */
  lemma SessionOutcome(s: State, ops: seq<Op>, blank: G.Line)
    requires s.Sound() && s.screen >= 2
    ensures Session(s, ops, blank) == Larger(CancelledBar(s, ops), blank)
  {
    WithBarIsBar(s, blank);
    CancelBesideBar(s, ops);
    GrowBack(CancelledBar(s, ops), s.screen, blank);
  }

  /** A screen of one line has no line for the bar, and the cursor on it stays. */
  lemma SingleLineSession(s: State, ops: seq<Op>, blank: G.Line)
    requires s.Sound() && s.CursorInView() && s.screen == 1
    ensures Session(s, ops, blank)
         == Started(s).(cursor := s.cursor, origin := AppliedAll(Started(s), ops).origin, active := false)
  {
    CancelReturns(Started(s), ops);
  }

  lemma SessionSound(s: State, ops: seq<Op>, blank: G.Line)
    requires s.Sound() && s.CursorInView()
    ensures Session(s, ops, blank).Sound() && Session(s, ops, blank).screen == s.screen
  {
    if s.screen == 1 {
      SingleLineSession(s, ops, blank);
    } else {
      SessionOutcome(s, ops, blank);
    }
  }

  /** The text after a session. */
  function TextAfter(s: State, blank: G.Line): seq<G.Line>
    requires s.Sound()
  {
    if s.screen == 1 then s.text
    else if Pushes(s) then
      if s.limit == 0 then [blank] + s.text[..s.screen - 1]
      else s.text[..Min(|s.text|, s.limit + s.screen - 1)]
    else if s.History() == 0 then [blank] + s.text[1..]
    else s.text[1..]
  }

  lemma TextFromSmall(s: State, small: State, blank: G.Line)
    requires s.Sound() && s.screen >= 2 && small.Sound() && small.screen == s.screen - 1
    requires small.text == if Pushes(s) then s.text[..Min(|s.text|, s.limit + s.screen - 1)] else s.text[1..]
    ensures Larger(small, blank).text == TextAfter(s, blank)
  {
  }

  lemma CancelledBarText(s: State, ops: seq<Op>)
    requires s.Sound() && s.CursorInView() && s.screen >= 2
    ensures CancelledBar(s, ops).text
         == if Pushes(s) then s.text[..Min(|s.text|, s.limit + s.screen - 1)] else s.text[1..]
  {
    BarNumbers(s);
    ShrunkByOne(s.text, s.screen, s.terminalCursor, s.limit);
  }

  lemma SessionText(s: State, ops: seq<Op>, blank: G.Line)
    requires s.Sound() && s.CursorInView()
    ensures Session(s, ops, blank).text == TextAfter(s, blank)
  {
    if s.screen == 1 {
      SingleLineSession(s, ops, blank);
    } else {
      SessionOutcome(s, ops, blank);
      CancelledBarText(s, ops);
      TextFromSmall(s, CancelledBar(s, ops), blank);
    }
  }

  /** Display offset after a session. */
  lemma SessionOffset(s: State, ops: seq<Op>, blank: G.Line)
    requires s.Sound() && s.CursorInView()
    ensures Session(s, ops, blank).offset
         == if s.screen == 1 || (Pushes(s) && s.offset < s.limit) then s.offset else Max(s.offset - 1, 0)
  {
    if s.screen == 1 {
      SingleLineSession(s, ops, blank);
    } else {
      SessionOutcome(s, ops, blank);
      BarNumbers(s);
    }
  }

  /** The display offset is restored exactly when the bar takes no line, the view is at the bottom, or the content
      was pushed up with room in the scrollback above the view. */
  lemma OffsetRestoredIff(s: State, ops: seq<Op>, blank: G.Line)
    requires s.Sound() && s.CursorInView()
    ensures Session(s, ops, blank).offset == s.offset
       <==> s.screen == 1 || s.offset == 0 || (Pushes(s) && s.offset < s.limit)
  {
    SessionOffset(s, ops, blank);
  }

  /** When the view shows the same lines after the search as before. */
  predicate RestoresView(s: State) {
    s.screen == 1 || if Pushes(s) then s.offset < s.limit else s.offset >= 1
  }

  /** The view in the text after a session. */
  lemma ViewAfter(s: State, blank: G.Line)
    requires s.Sound() && RestoresView(s)
    ensures var offset := if s.screen == 1 || Pushes(s) then s.offset else s.offset - 1;
      && offset + s.screen <= |TextAfter(s, blank)|
      && TextAfter(s, blank)[offset..offset + s.screen] == s.text[s.offset..s.offset + s.screen]
  {
    if s.screen > 1 && Pushes(s) {
      var m := Min(|s.text|, s.limit + s.screen - 1);
      assert s.text[..m][s.offset..s.offset + s.screen] == s.text[s.offset..s.offset + s.screen];
    } else if s.screen > 1 {
      assert s.text[1..][s.offset - 1..s.offset - 1 + s.screen] == s.text[s.offset..s.offset + s.screen];
    }
  }

  lemma ViewFromParts(s: State, after: State, blank: G.Line)
    requires s.Sound() && RestoresView(s) && after.Sound() && after.screen == s.screen
    requires after.text == TextAfter(s, blank)
    requires after.offset == if s.screen == 1 || Pushes(s) then s.offset else s.offset - 1
    ensures G.Displayed(after.text, after.screen, after.offset) == G.Displayed(s.text, s.screen, s.offset)
  {
    ViewAfter(s, blank);
  }

  /** Main result: cancelling a search shows the lines that were shown before it, under `RestoresView`. */
  lemma SessionRestoresView(s: State, ops: seq<Op>, blank: G.Line)
    requires s.Sound() && s.CursorInView() && RestoresView(s)
    ensures var after := Session(s, ops, blank);
      after.Sound() && G.Displayed(after.text, after.screen, after.offset) == G.Displayed(s.text, s.screen, s.offset)
  {
    SessionSound(s, ops, blank);
    SessionText(s, ops, blank);
    SessionOffset(s, ops, blank);
    ViewFromParts(s, Session(s, ops, blank), blank);
  }

  lemma MovesFromParts(s: State, after: State, blank: G.Line)
    requires s.Sound() && !RestoresView(s) && G.Distinct(s.text, blank)
    requires after.text == TextAfter(s, blank) && after.offset == Max(s.offset - 1, 0)
    ensures after.offset < |after.text| && after.text[after.offset] != s.text[s.offset]
  {
  }

  /** Without `RestoresView`, a distinct line at the bottom of the view is another one. */
  lemma SessionMovesView(s: State, ops: seq<Op>, blank: G.Line)
    requires s.Sound() && s.CursorInView() && !RestoresView(s) && G.Distinct(s.text, blank)
    ensures var after := Session(s, ops, blank);
      after.offset < |after.text| && after.text[after.offset] != s.text[s.offset]
  {
    SessionText(s, ops, blank);
    SessionOffset(s, ops, blank);
    MovesFromParts(s, Session(s, ops, blank), blank);
  }

  /** Exactly then, for texts whose lines can be told apart. */
  lemma SessionRestoresViewIff(s: State, ops: seq<Op>, blank: G.Line)
    requires s.Sound() && s.CursorInView() && G.Distinct(s.text, blank)
    ensures var after := Session(s, ops, blank);
      && after.Sound() && after.screen == s.screen
      && (G.Displayed(after.text, s.screen, after.offset) == G.Displayed(s.text, s.screen, s.offset)
          <==> RestoresView(s))
  {
    SessionSound(s, ops, blank);
    if RestoresView(s) {
      SessionRestoresView(s, ops, blank);
    } else {
      SessionMovesView(s, ops, blank);
      G.DisplayedDiffer(Session(s, ops, blank).text, Session(s, ops, blank).offset, s.text, s.offset, s.screen, 0);
    }
  }

  /** How far a session moves the text down. */
  function TextShift(s: State): int {
    if s.screen == 1 then 0
    else if Pushes(s) then if s.limit == 0 then -1 else 0
    else Min(1, s.History())
  }

  /** The line of text at a line number. */
  function LineAt(s: State, line: int): G.Line
    requires s.Sound() && -s.History() <= line < s.screen
  {
    s.text[s.screen - 1 - line]
  }

  /** Lines that the bar does not push out: at the bottom when nothing is pushed up, else at the top of a full
      scrollback. */
  predicate Survives(s: State, line: int) {
    s.screen == 1 || if Pushes(s) then line + s.limit > 0 else line < s.screen - 1
  }

  lemma ShiftedLine(s: State, blank: G.Line, line: int)
    requires s.Sound() && -s.History() <= line < s.screen && Survives(s, line)
    ensures var h := s.screen - 1 - line - TextShift(s);
      0 <= h < |TextAfter(s, blank)| && TextAfter(s, blank)[h] == s.text[s.screen - 1 - line]
  {
  }

  lemma ShiftedFromParts(s: State, after: State, blank: G.Line, line: int)
    requires s.Sound() && -s.History() <= line < s.screen && Survives(s, line)
    requires after.Sound() && after.screen == s.screen && after.text == TextAfter(s, blank)
    ensures -after.History() <= line + TextShift(s) < after.screen
    ensures LineAt(after, line + TextShift(s)) == LineAt(s, line)
  {
    ShiftedLine(s, blank, line);
  }

  /** Every line that survives is found `TextShift` lines lower. */
  lemma SessionShiftsText(s: State, ops: seq<Op>, blank: G.Line, line: int)
    requires s.Sound() && s.CursorInView() && -s.History() <= line < s.screen && Survives(s, line)
    ensures var after := Session(s, ops, blank);
      && after.Sound() && -after.History() <= line + TextShift(s) < after.screen
      && LineAt(after, line + TextShift(s)) == LineAt(s, line)
  {
    SessionSound(s, ops, blank);
    SessionText(s, ops, blank);
    ShiftedFromParts(s, Session(s, ops, blank), blank, line);
  }

  /** When the bar lets the cursor come back to its line of text: that line is in view during the search. */
  predicate RestoresCursor(s: State) {
    || s.screen == 1
    || (Pushes(s) && s.offset == 0 && s.limit >= 1)
    || s.cursor.line != if Pushes(s) && s.offset == s.limit then s.FirstLine() else s.LastLine()
  }

  /** When it comes back even if the search is cleared: clearing does not move the origin, or cannot because the
      origin is on the first line in view. */
  predicate ClearKeepsCursor(s: State) {
    || s.screen <= 2
    || s.terminalCursor + 2 < s.screen
    || s.cursor.line == s.FirstLine() + if Pushes(s) && s.offset == s.limit then 1 else 0
  }

  /** Line of the cursor after a session, from the numbers beside the bar. */
  function CursorLineAfter(screen: nat, offset: nat, history: int, line: int): int {
    var last := Max(offset - 1, 0);
    Min(screen - 1 - last, Max(-last, line + Min(history, 1)))
  }

  lemma CursorFromSmall(screen: nat, small: State, blank: G.Line)
    requires screen >= 2 && small.Sound() && small.screen == screen - 1
    ensures Larger(small, blank).cursor
         == Point(CursorLineAfter(screen, small.offset, small.History(), small.cursor.line), small.cursor.column)
  {
  }

  /** Line on which cancelling leaves the cursor while the bar is there. */
  function BarLine(s: State, clears: nat): int {
    var offset := BarOffset(s);
    var origin := if Pushes(s) then s.cursor.line - 1 else s.cursor.line;
    var line := Min(s.screen - 2 - offset, Max(-(offset as int), origin));
    if s.terminalCursor + 2 >= s.screen then Max(line - clears, -(offset as int)) else line
  }

  lemma LineFromBar(s: State, bar: State, clears: nat)
    requires s.Sound() && s.screen >= 2 && bar.offset == BarOffset(s) && bar.screen == s.screen - 1
    requires bar.terminalCursor == Min(s.terminalCursor, s.screen - 2) && bar.origin == Started(s).origin
    ensures CancelLine(bar, clears) == BarLine(s, clears)
  {
  }

  lemma CancelledBarLine(s: State, ops: seq<Op>)
    requires s.Sound() && s.CursorInView() && s.screen >= 2
    ensures CancelledBar(s, ops).offset == BarOffset(s) && CancelledBar(s, ops).screen == s.screen - 1
    ensures CancelledBar(s, ops).cursor == Point(BarLine(s, CountClears(ops)), s.cursor.column)
    ensures CancelledBar(s, ops).History() == if Pushes(s) then Min(s.History() + 1, s.limit) else s.History()
  {
    BarNumbers(s);
    LineFromBar(s, Bar(s), CountClears(ops));
  }

  lemma SessionCursor(s: State, ops: seq<Op>, blank: G.Line)
    requires s.Sound() && s.CursorInView() && s.screen >= 2
    ensures var history := if Pushes(s) then Min(s.History() + 1, s.limit) else s.History();
      Session(s, ops, blank).cursor
      == Point(CursorLineAfter(s.screen, BarOffset(s), history, BarLine(s, CountClears(ops))), s.cursor.column)
  {
    SessionOutcome(s, ops, blank);
    CancelledBarLine(s, ops);
    CursorFromSmall(s.screen, CancelledBar(s, ops), blank);
  }

  lemma {:induction false} ClearsCounted(ops: seq<Op>)
    ensures Clears in ops <==> CountClears(ops) > 0
  {
    if ops != [] {
      ClearsCounted(ops[..|ops| - 1]);
      assert ops == ops[..|ops| - 1] + [ops[|ops| - 1]];
    }
  }

  /** The cursor comes back to its line of text exactly if the line that cancelling leaves it on is that line. */
  lemma LineRestoredIff(s: State, clears: nat)
    requires s.Sound() && s.CursorInView() && s.screen >= 2
    ensures var history := if Pushes(s) then Min(s.History() + 1, s.limit) else s.History();
      CursorLineAfter(s.screen, BarOffset(s), history, BarLine(s, clears)) == s.cursor.line + TextShift(s)
      <==> BarLine(s, clears) == if Pushes(s) then s.cursor.line - 1 else s.cursor.line
  {
  }

  lemma BarLineIff(s: State, clears: nat)
    requires s.Sound() && s.CursorInView() && s.screen >= 2
    ensures BarLine(s, clears) == (if Pushes(s) then s.cursor.line - 1 else s.cursor.line)
       <==> RestoresCursor(s) && (clears == 0 || ClearKeepsCursor(s))
  {
  }

  /** Main result: cancelling puts the cursor back on its line of text exactly under `RestoresCursor` and, if the
      search has been cleared, `ClearKeepsCursor`. */
  lemma SessionRestoresCursorIff(s: State, ops: seq<Op>, blank: G.Line)
    requires s.Sound() && s.CursorInView()
    ensures Session(s, ops, blank).cursor == Point(s.cursor.line + TextShift(s), s.cursor.column)
       <==> RestoresCursor(s) && (Clears in ops ==> ClearKeepsCursor(s))
    ensures RestoresCursor(s) ==> Survives(s, s.cursor.line)
  {
    if s.screen == 1 {
      SingleLineSession(s, ops, blank);
    } else {
      SessionCursor(s, ops, blank);
      ClearsCounted(ops);
      LineRestoredIff(s, CountClears(ops));
      BarLineIff(s, CountClears(ops));
    }
  }

  // ----- The search as it is updated in place -----

  class SearchContext {
    const grid: G.Grid
    var terminalCursor: int
    var cursor: Point
    var active: bool
    var origin: Point
    var delta: int
    var focused: Option<Point>

    ghost predicate Valid()
      reads this, grid, grid.raw
    {
      grid.Valid() && Value().Sound()
    }

    ghost function Value(): State
      requires grid.Valid()
      reads this, grid, grid.raw
    {
      State(grid.View(), grid.lines, grid.maxScrollLimit, grid.displayOffset, terminalCursor,
            cursor, active, origin, delta, focused)
    }

    constructor (grid: G.Grid)
      requires grid.Valid() && grid.displayOffset == 0
      ensures Valid() && this.grid == grid && !active && terminalCursor == 0 && cursor == Point(0, 0)
    {
      this.grid := grid;
      terminalCursor, cursor, active, origin, delta, focused := 0, Point(0, 0), false, Point(0, 0), 0, None;
    }

    /** Move the display offset within the scrollback and keep the vi cursor in the viewport. */
    method ScrollDisplay(scroll: Scroll)
      requires Valid()
      modifies this`cursor, grid`displayOffset
      ensures Valid() && Value().CursorInView()
      ensures Value() == DisplayScrolled(old(Value()), scroll)
    {
      var history := grid.raw.len - grid.lines;
      var offset := grid.displayOffset;
      match scroll {
        case Delta(count) => offset := Min(Max(offset + count, 0), history);
        case PageUp => offset := Min(offset + grid.lines, history);
        case PageDown => offset := Max(offset - grid.lines, 0);
        case Top => offset := history;
        case Bottom => offset := 0;
      }
      grid.displayOffset := offset;
      cursor := ClampToViewport(grid.lines, offset, cursor);
    }

    /** Scrolling by the user keeps the way back known. */
    method UserScroll(scroll: Scroll, ghost base: State, ghost start: nat)
      requires Valid()
      modifies this, grid`displayOffset
      ensures Valid() && Value() == Scrolled(old(Value()), scroll)
      ensures Anchored(old(Value()), base, start) ==> Anchored(Value(), base, start)
    {
      var oldOffset := grid.displayOffset;
      ScrollDisplay(scroll);
      if active {
        delta := delta + (oldOffset - grid.displayOffset);
      }
    }

    method StartSearch()
      requires Valid()
      modifies this
      ensures Valid() && Value() == Started(old(Value()))
      ensures Anchored(Value(), Value(), grid.displayOffset)
    {
      active, focused := true, None;
      origin := cursor;
      delta := 0;
      if terminalCursor + 1 == grid.lines {
        origin := Point(origin.line - 1, origin.column);
      }
    }

    method ResetState(ghost base: State, ghost start: nat)
      requires Valid()
      modifies this, grid`displayOffset
      ensures Valid() && Value() == Reset(old(Value()))
      ensures Anchored(old(Value()), base, start) ==> Anchored(Value(), base, start) && grid.displayOffset == start
    {
      focused := None;
      cursor := origin;
      ScrollDisplay(Delta(delta));
      delta := 0;
    }

    /** Going to a match, or finding none, keeps the way back known; a match is in the viewport. */
    method GotoMatch(search: Search, ghost base: State, ghost start: nat)
      requires Valid()
      modifies this, grid`displayOffset
      ensures Valid() && Value() == WentToMatch(old(Value()), search)
      ensures Anchored(old(Value()), base, start) ==> Anchored(Value(), base, start)
    {
      match search
      case Found(point) =>
        var oldOffset := grid.displayOffset;
        ScrollToPoint(point);
        cursor := point;
        focused := Some(point);
        delta := delta + (oldOffset - grid.displayOffset);
      case NoMatch => ResetState(base, start);
      case NotWithinLimit => focused := None;
    }

    /** Scroll just far enough to show a point of the grid. */
    method ScrollToPoint(p: Point)
      requires Valid()
      modifies this`cursor, grid`displayOffset
      ensures Valid() && Value() == ScrolledToPoint(old(Value()), p)
      ensures -Value().History() <= p.line < grid.lines ==> Value().FirstLine() <= p.line <= Value().LastLine()
    {
      var offset := grid.displayOffset;
      if p.line < -(offset as int) {
        ScrollDisplay(Delta(-(p.line + offset)));
      } else if p.line >= grid.lines - offset {
        ScrollDisplay(Delta(-(p.line + offset - grid.lines + 1)));
      }
    }

    /** Cancelling returns to the display offset at which the search was anchored. */
    method CancelSearch(ghost base: State, ghost start: nat)
      requires Valid()
      modifies this, grid`displayOffset
      ensures Valid() && Value() == Cancelled(old(Value())) && !active
      ensures Anchored(old(Value()), base, start) ==> grid.displayOffset == start
    {
      ResetState(base, start);
      active, focused := false, None;
    }

    /** Cancel the search and start it again. */
    method ClearSearch(ghost base: State, ghost start: nat)
      requires Valid()
      modifies this, grid`displayOffset
      ensures Valid() && Value() == Started(Cancelled(old(Value())))
      ensures Anchored(old(Value()), base, start) ==> Anchored(Value(), base, start)
    {
      CancelSearch(base, start);
      StartSearch();
    }

    /** Give the terminal another number of lines. */
    method Resize(lines: nat)
      requires Valid() && 1 <= lines
      modifies this, grid, grid.raw
      ensures Valid() && Value() == Resized(old(Value()), lines, grid.ResizeBlank())
    {
      if lines == grid.lines {
        return;
      }
      ghost var before := Value();
      ResizedSound(before, lines, grid.ResizeBlank());
      var delta := Min(Max(lines - grid.lines, Min(0, lines - terminalCursor - 1)), grid.raw.len - grid.lines);
      cursor := Point(cursor.line + delta, cursor.column);
      terminalCursor := grid.ResizeLines(lines, terminalCursor);
      cursor := ClampToViewport(grid.lines, grid.displayOffset, cursor);
    }

    method Apply(op: Op, ghost base: State, ghost start: nat)
      requires Valid()
      modifies this, grid`displayOffset
      ensures Valid() && Value() == Applied(old(Value()), op)
      ensures Anchored(old(Value()), base, start) ==> Anchored(Value(), base, start)
    {
      match op
      case UserScrolls(scroll) => UserScroll(scroll, base, start);
      case Searches(search) => GotoMatch(search, base, start);
      case Clears => ClearSearch(base, start);
    }

    /** Scrolls and match jumps of a search. */
    method ApplyAll(ops: seq<Op>)
      requires Valid() && active && delta == 0
      modifies this, grid`displayOffset
      ensures Valid() && Value() == AppliedAll(old(Value()), ops)
      ensures Anchored(Value(), old(Value()), old(grid.displayOffset))
    {
      ghost var base := Value();
      var i := 0;
      while i < |ops|
        invariant 0 <= i <= |ops| && Valid() && Value() == AppliedAll(base, ops[..i])
        invariant Anchored(Value(), base, base.offset)
      {
        assert ops[..i + 1][..i] == ops[..i];
        Apply(ops[i], base, base.offset);
        i := i + 1;
      }
      assert ops[..i] == ops;
    }

    /** Let the search bar take a line, and scroll to keep the cursor of the time before in view. */
    method ShowBar(ghost before: State)
      requires Valid() && Value() == Started(before) && before.Sound()
      modifies this, grid, grid.raw
      ensures Valid() && Value() == WithBar(before, grid.ResizeBlank())
    {
      var terminalAtBottom := terminalCursor + 1 == grid.lines;
      var cursorAtBottom := cursor.line == grid.lines - 1;
      Resize(LinesBesideBar(grid.lines));
      if grid.displayOffset == 0 && terminalAtBottom && !cursorAtBottom {
        ScrollDisplay(Delta(1));
      } else if grid.displayOffset != 0 && cursorAtBottom {
        ScrollDisplay(Delta(-1));
      }
    }

    /** A whole search that is cancelled, with the search bar taking a line and giving it back. */
    method SearchAndCancel(ops: seq<Op>)
      requires Valid()
      modifies this, grid, grid.raw
      ensures Valid() && Value() == Session(old(Value()), ops, grid.ResizeBlank())
      ensures old(Value().CursorInView() && RestoresView(Value())) ==>
        G.Displayed(grid.View(), grid.lines, grid.displayOffset)
        == old(G.Displayed(grid.View(), grid.lines, grid.displayOffset))
    {
      ghost var before := Value();
      var screen := grid.lines;
      StartSearch();
      ShowBar(before);
      ghost var base := Value();
      ApplyAll(ops);
      CancelSearch(base, base.offset);
      Resize(screen);
      if before.CursorInView() && RestoresView(before) {
        SessionRestoresView(before, ops, grid.ResizeBlank());
      }
    }
  }
}
