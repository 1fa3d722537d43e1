/** Messages in the bar: wrapping into lines, truncation and the close button. */
module MessageBar {
  import opened Common
  import opened Arith

  const CLOSE_BUTTON_TEXT: string := "[X]"
  const CLOSE_BUTTON_LEN: nat := 3
  const CLOSE_BUTTON_PADDING: nat := 1
  const TRUNCATED_MESSAGE: string := "[MESSAGE TRUNCATED]"

  /** Columns that a character takes, and bytes of its encoding. */
  datatype Chars = Chars(width: char -> nat, size: char -> nat) {

    /** Printable ASCII characters take one column and one byte; every character takes a byte. */
    ghost predicate Valid() {
      (forall c :: ' ' <= c <= '~' ==> width(c) == 1 && size(c) == 1) && forall c :: size(c) >= 1
    }
  }

  /** Every character takes one column, except for newlines. */
  predicate AllNarrow(text: string, chars: Chars) {
    forall i :: 0 <= i < |text| ==> text[i] == '\n' || chars.width(text[i]) == 1
  }

  /** Unicode whitespace. */
  predicate IsWhitespace(c: char) {
    || '\U{9}' <= c <= '\U{d}' || c == ' ' || c == '\U{85}' || c == '\U{a0}' || c == '\U{1680}'
    || '\U{2000}' <= c <= '\U{200a}' || c == '\U{2028}' || c == '\U{2029}' || c == '\U{202f}'
    || c == '\U{205f}' || c == '\U{3000}'
  }

  function TrimStart(s: string): string {
    if s != [] && IsWhitespace(s[0]) then TrimStart(s[1..]) else s
  }

  function TrimEnd(s: string): string {
    if s != [] && IsWhitespace(s[|s| - 1]) then TrimEnd(s[..|s| - 1]) else s
  }

  function Trim(s: string): string {
    TrimEnd(TrimStart(s))
  }

  function Spaces(n: nat): (s: string)
    ensures |s| == n && forall i :: 0 <= i < n ==> s[i] == ' '
  {
    seq(n, _ => ' ')
  }

  function Pad(text: string, columns: nat): (s: string)
    ensures |s| == if |text| < columns then columns else |text|
    ensures s[..|text|] == text && forall i :: |text| <= i < |s| ==> s[i] == ' '
  {
    if |text| < columns then text + Spaces(columns - |text|) else text
  }

  /** Index of the last whitespace, or -1. */
  function LastWhitespace(s: string): (index: int)
    ensures -1 <= index < |s|
    ensures index >= 0 ==> IsWhitespace(s[index])
    ensures forall i :: index < i < |s| ==> !IsWhitespace(s[i])
  {
    if s == [] then -1
    else if IsWhitespace(s[|s| - 1]) then |s| - 1
    else LastWhitespace(s[..|s| - 1])
  }

  // ----- Lines as segments of the text -----

  /** The part of the text that a line shows. */
  datatype Segment = Segment(from: nat, to: nat)

  /** Columns that the line with a given index may use; the first leaves room for the button. */
  function Capacity(columns: nat, index: nat): nat {
    if index == 0 && columns >= CLOSE_BUTTON_LEN then
      if columns < CLOSE_BUTTON_LEN + CLOSE_BUTTON_PADDING then 0
      else columns - CLOSE_BUTTON_LEN - CLOSE_BUTTON_PADDING
    else columns
  }

  /** No line break is asked for in a part of the text. */
  predicate NoNewline(text: string, from: nat, to: nat) {
    to <= |text| && forall i :: from <= i < to ==> text[i] != '\n'
  }

  predicate NoSpace(text: string, from: nat, to: nat) {
    to <= |text| && forall i :: from <= i < to ==> !IsWhitespace(text[i])
  }

  /** The line is full before the character at `i`, which is no newline. It ends at the last whitespace that it
      can end at, which is dropped, or else in the middle of a word that is too long for it. */
  predicate FullLine(text: string, a: Segment, i: nat, next: nat) {
    && a.from <= a.to <= i < |text| && NoNewline(text, a.from, i + 1)
    && (if IsWhitespace(text[i]) then a.to == i && next == i + 1
        else if a.to < i then IsWhitespace(text[a.to]) && NoSpace(text, a.to + 1, i) && next == a.to + 1
        else NoSpace(text, a.from, i) && next == i)
  }

  /** Where a line ends and the next one starts: at the first newline, or where the line is full. */
  predicate Continues(text: string, a: Segment, capacity: nat, next: nat) {
    || FullLine(text, a, a.from + capacity, next)
    || (&& a.from <= a.to < |text| && a.to - a.from <= capacity && next == a.to + 1
        && text[a.to] == '\n' && NoNewline(text, a.from, a.to))
  }

  /** The line holds the rest of the text. */
  predicate Ends(text: string, a: Segment, capacity: nat) {
    a.from <= a.to == |text| && a.to - a.from <= capacity && NoNewline(text, a.from, a.to)
  }

  /** A line that shows a segment within its capacity. */
  predicate LineShows(text: string, columns: nat, index: nat, line: string, s: Segment) {
    && s.from <= s.to <= |text| && s.to - s.from <= Capacity(columns, index)
    && line == Pad(text[s.from..s.to], columns)
  }

  /** Lines that show consecutive segments of the text up to where the next line starts. */
  ghost predicate Shows(text: string, columns: nat, lines: seq<string>, segments: seq<Segment>, next: nat) {
    |lines| == |segments| && next <= |text| &&
    if segments == [] then next == 0
    else
      var k := |segments| - 1;
      && LineShows(text, columns, k, lines[k], segments[k])
      && Continues(text, segments[k], Capacity(columns, k), next)
      && Shows(text, columns, lines[..k], segments[..k], segments[k].from)
  }

  /** One more line. */
  lemma ShowsOneMore(
    text: string, columns: nat, lines: seq<string>, segments: seq<Segment>, line: string, s: Segment, next: nat)
    requires Shows(text, columns, lines, segments, s.from)
    requires LineShows(text, columns, |segments|, line, s)
    requires next <= |text| && Continues(text, s, Capacity(columns, |segments|), next)
    ensures Shows(text, columns, lines + [line], segments + [s], next)
  {
    assert (lines + [line])[..|lines|] == lines;
    assert (segments + [s])[..|segments|] == segments;
  }

  /** Lines that show the whole text. */
  ghost predicate ShowsAll(text: string, columns: nat, lines: seq<string>, segments: seq<Segment>) {
    && |lines| == |segments| >= 1
    && var k := |segments| - 1;
       && Ends(text, segments[k], Capacity(columns, k)) && LineShows(text, columns, k, lines[k], segments[k])
       && Shows(text, columns, lines[..k], segments[..k], segments[k].from)
  }

  /** The last line. */
  lemma ShowsLast(text: string, columns: nat, lines: seq<string>, segments: seq<Segment>, from: nat)
    requires Shows(text, columns, lines, segments, from)
    requires Ends(text, Segment(from, |text|), Capacity(columns, |segments|))
    ensures ShowsAll(text, columns, lines + [Pad(text[from..], columns)], segments + [Segment(from, |text|)])
  {
    assert text[from..] == text[from..|text|];
    assert (lines + [Pad(text[from..], columns)])[..|lines|] == lines;
    assert (segments + [Segment(from, |text|)])[..|segments|] == segments;
  }

  /** The lines shown so far are as wide as the bar. */
  lemma {:induction false} ShowsEachLine(
    text: string, columns: nat, lines: seq<string>, segments: seq<Segment>, next: nat)
    requires Shows(text, columns, lines, segments, next)
    ensures forall k :: 0 <= k < |lines| ==>
      LineShows(text, columns, k, lines[k], segments[k]) && |lines[k]| == columns
    decreases |lines|
  {
    if segments != [] {
      var k := |segments| - 1;
      ShowsEachLine(text, columns, lines[..k], segments[..k], segments[k].from);
      forall j | 0 <= j < |lines|
        ensures LineShows(text, columns, j, lines[j], segments[j]) && |lines[j]| == columns
      {
        if j < k {
          assert lines[j] == lines[..k][j] && segments[j] == segments[..k][j];
        }
      }
    }
  }

  /** Where the text goes on behind a line break at `i`: whitespace there is dropped. */
  function Behind(text: string, i: nat): nat
    requires i < |text|
  {
    if IsWhitespace(text[i]) then i + 1 else i
  }

  /** A line from `start` on, broken before the character at `i`, with what is left for the next line. */
  ghost predicate Broken(
    text: string, i: nat, start: nat, capacity: nat, ended: string, rest: string, next: nat)
    requires i < |text|
  {
    && start + |ended| <= i && ended == text[start..start + |ended|] && |ended| <= capacity
    && Continues(text, Segment(start, start + |ended|), capacity, next)
    && next <= Behind(text, i) && rest == text[next..Behind(text, i)] && (rest == [] || |rest| < capacity)
    && NoNewline(text, next, Behind(text, i))
  }

  /** The line ends before `i`, because there is whitespace or because the line is one word. */
  lemma BrokenHere(text: string, i: nat, start: nat, capacity: nat)
    requires start <= i < |text| && i - start <= capacity && NoNewline(text, start, i)
    requires text[i] != '\n' ==> i - start == capacity
    requires IsWhitespace(text[i]) || NoSpace(text, start, i)
    ensures Broken(text, i, start, capacity, text[start..i], [], Behind(text, i))
  {
    var s := Segment(start, i);
    if text[i] == '\n' {
      assert Continues(text, s, capacity, i + 1);
    } else {
      assert FullLine(text, s, start + capacity, Behind(text, i));
    }
  }

  /** The line ends at its last whitespace. */
  lemma BrokenBefore(text: string, i: nat, start: nat, capacity: nat, index: nat)
    requires start <= index < i < |text| && i - start == capacity && NoNewline(text, start, i)
    requires !IsWhitespace(text[i]) && IsWhitespace(text[index]) && NoSpace(text, index + 1, i)
    ensures Broken(text, i, start, capacity, text[start..index], text[index + 1..i], index + 1)
  {
    assert FullLine(text, Segment(start, index), start + capacity, index + 1);
  }

  /** End the current line before a character: a word that is not finished moves to the next line, and whitespace
      at the break is dropped. */
  method BreakLine(line: string, c: char) returns (ended: string, rest: string)
    ensures var index := LastWhitespace(line);
      if index >= 0 && !IsWhitespace(c) then ended == line[..index] && rest == line[index + 1..]
      else ended == line && rest == []
    ensures NonSpace(ended) + NonSpace(rest) == NonSpace(line)
  {
    ended, rest := line, [];
    var index := LastWhitespace(line);
    if index >= 0 && !IsWhitespace(c) {
      rest := line[index + 1..];
      ended := line[..index];
      SplitVisible(line, index);
    }
  }

  /** Whitespace between two parts is not visible. */
  lemma JoinedVisible(a: string, c: char, b: string)
    requires IsWhitespace(c)
    ensures NonSpace(a + [c] + b) == NonSpace(a) + NonSpace(b)
  {
    NonSpaceConcat(a + [c], b);
    DropSpace(a, c);
  }

  lemma DropSpace(a: string, c: char)
    requires IsWhitespace(c)
    ensures NonSpace(a + [c]) == NonSpace(a)
  {
    assert (a + [c])[..|a|] == a;
  }

  lemma SplitVisible(line: string, index: nat)
    requires index < |line| && IsWhitespace(line[index])
    ensures NonSpace(line[..index]) + NonSpace(line[index + 1..]) == NonSpace(line)
  {
    assert line == line[..index] + [line[index]] + line[index + 1..];
    JoinedVisible(line[..index], line[index], line[index + 1..]);
  }

  /** Where the next line starts when a narrow line is broken so. */
  lemma LineBroken(text: string, i: nat, start: nat, capacity: nat, line: string, ended: string, rest: string)
    returns (next: nat)
    requires start <= i < |text| && line == text[start..i] && |line| <= capacity
    requires NoNewline(text, start, i) && (text[i] != '\n' ==> |line| == capacity)
    requires var index := LastWhitespace(line);
      if index >= 0 && !IsWhitespace(text[i]) then ended == line[..index] && rest == line[index + 1..]
      else ended == line && rest == []
    ensures Broken(text, i, start, capacity, ended, rest, next)
  {
    var index := LastWhitespace(line);
    if index >= 0 && !IsWhitespace(text[i]) {
      BrokenBefore(text, i, start, capacity, start + index);
      next := start + index + 1;
    } else {
      BrokenHere(text, i, start, capacity);
      next := Behind(text, i);
    }
  }

  /** The loop's state: `line` is the text from `start` to `i`, and what is before `start` is shown. */
  ghost predicate Wrapping(
    text: string, columns: nat, lines: seq<string>, segments: seq<Segment>, line: string, i: nat, start: nat)
  {
    && start <= i <= |text| && line == text[start..i] && |line| <= Capacity(columns, |segments|)
    && NoNewline(text, start, i) && Shows(text, columns, lines, segments, start)
  }

  lemma EndedShows(text: string, columns: nat, index: nat, start: nat, ended: string)
    requires start + |ended| <= |text| && ended == text[start..start + |ended|] && |ended| <= Capacity(columns, index)
    ensures LineShows(text, columns, index, Pad(ended, columns), Segment(start, start + |ended|))
  {
  }

  lemma ShowsEnded(
    text: string, columns: nat, lines: seq<string>, segments: seq<Segment>, start: nat, ended: string, next: nat)
    requires Shows(text, columns, lines, segments, start) && next <= |text|
    requires start + |ended| <= |text| && ended == text[start..start + |ended|]
    requires |ended| <= Capacity(columns, |segments|)
    requires Continues(text, Segment(start, start + |ended|), Capacity(columns, |segments|), next)
    ensures Shows(text, columns, lines + [Pad(ended, columns)], segments + [Segment(start, start + |ended|)], next)
  {
    var line, s := Pad(ended, columns), Segment(start, start + |ended|);
    EndedShows(text, columns, |segments|, start, ended);
    ShowsOneMore(text, columns, lines, segments, line, s, next);
  }

  /** The state behind a line break. */
  lemma WrappingEnd(
    text: string, columns: nat, lines: seq<string>, segments: seq<Segment>, i: nat, start: nat,
    ended: string, rest: string, next: nat)
    requires i < |text| && Shows(text, columns, lines, segments, start)
    requires Broken(text, i, start, Capacity(columns, |segments|), ended, rest, next)
    ensures Wrapping(text, columns, lines + [Pad(ended, columns)], segments + [Segment(start, start + |ended|)],
                     rest, Behind(text, i), next)
    ensures rest == [] || |rest| < columns
  {
    ShowsEnded(text, columns, lines, segments, start, ended, next);
  }

  /** One more character on the current line. */
  lemma WrappingPush(
    text: string, columns: nat, lines: seq<string>, segments: seq<Segment>, line: string, i: nat, start: nat)
    requires Wrapping(text, columns, lines, segments, line, i, start) && i < |text|
    requires |line| < Capacity(columns, |segments|) && text[i] != '\n'
    ensures Wrapping(text, columns, lines, segments, line + [text[i]], i + 1, start)
  {
  }

  /** Whether the current line must end before a character. */
  predicate MustBreak(c: char, columns: nat, lines: nat, lineLen: nat) {
    || c == '\n' || lineLen == columns
    || (lines == 0 && columns >= CLOSE_BUTTON_LEN && lineLen == Capacity(columns, 0))
  }

  /** A line that need not end has room for a character; one that must end is full or ends at a newline. */
  lemma BreakIffFull(c: char, columns: nat, lines: nat, lineLen: nat)
    requires columns >= 1 && lineLen <= Capacity(columns, lines)
    ensures MustBreak(c, columns, lines, lineLen) <==> c == '\n' || lineLen == Capacity(columns, lines)
  {
  }

  /** No visible character before `i` is lost, whatever the characters are; narrow ones are shown as they should. */
  ghost predicate Taken(
    text: string, columns: nat, chars: Chars, lines: seq<string>, segments: seq<Segment>,
    line: string, lineLen: nat, i: nat, start: nat)
  {
    && i <= |text| && Visible(lines) + NonSpace(line) == NonSpace(text[..i])
    && (AllNarrow(text, chars) ==> lineLen == |line| && Wrapping(text, columns, lines, segments, line, i, start))
  }

  /** Put a line out. */
  lemma VisibleEnded(lines: seq<string>, line: string, ended: string, rest: string, columns: nat)
    requires NonSpace(ended) + NonSpace(rest) == NonSpace(line)
    ensures Visible(lines + [Pad(ended, columns)]) + NonSpace(rest) == Visible(lines) + NonSpace(line)
  {
    NonSpacePad(ended, columns);
    assert (lines + [Pad(ended, columns)])[..|lines|] == lines;
  }

  lemma VisiblePrefix(text: string, i: nat)
    requires i < |text|
    ensures NonSpace(text[..i + 1]) == NonSpace(text[..i]) + if IsWhitespace(text[i]) then [] else [text[i]]
  {
    assert text[..i + 1][..i] == text[..i];
  }

  /** Put the current line out and begin the next one. */
  method EndLine(
    text: string, columns: nat, chars: Chars, lines: seq<string>, ghost segments: seq<Segment>,
    line: string, lineLen: nat, i: nat, ghost start: nat)
    returns (newLines: seq<string>, ghost newSegments: seq<Segment>, rest: string, ghost next: nat)
    requires Taken(text, columns, chars, lines, segments, line, lineLen, i, start) && i < |text|
    requires |segments| == |lines|
    requires AllNarrow(text, chars) && text[i] != '\n' ==> lineLen == Capacity(columns, |segments|)
    ensures |newSegments| == |newLines| >= 1 && Visible(newLines) + NonSpace(rest) == NonSpace(text[..i])
    ensures AllNarrow(text, chars) ==>
      Wrapping(text, columns, newLines, newSegments, rest, Behind(text, i), next) && (rest == [] || |rest| < columns)
  {
    var ended;
    ended, rest := BreakLine(line, text[i]);
    VisibleEnded(lines, line, ended, rest, columns);
    newLines := lines + [Pad(ended, columns)];
    newSegments := segments + [Segment(start, start + |ended|)];
    next := 0;
    if AllNarrow(text, chars) {
      next := LineBroken(text, i, start, Capacity(columns, |segments|), line, ended, rest);
      WrappingEnd(text, columns, lines, segments, i, start, ended, rest, next);
    }
  }

  lemma PushVisible(line: string, c: char, spacer: string)
    requires spacer in {"", " "}
    ensures NonSpace(line + [c] + spacer) == NonSpace(line) + if IsWhitespace(c) then [] else [c]
  {
    NonSpaceConcat(line + [c], spacer);
    NonSpaceBlank(spacer);
    assert (line + [c])[..|line|] == line;
  }

  /** One more character on the current line; a wide one gets a column more. */
  lemma TakenPush(
    text: string, columns: nat, chars: Chars, lines: seq<string>, segments: seq<Segment>,
    line: string, lineLen: nat, i: nat, start: nat)
    requires i < |text| && Visible(lines) + NonSpace(line) == NonSpace(text[..i])
    requires AllNarrow(text, chars) ==>
      && text[i] != '\n' && lineLen == |line| < Capacity(columns, |segments|)
      && Wrapping(text, columns, lines, segments, line, i, start)
    ensures Taken(text, columns, chars, lines, segments,
                  line + [text[i]] + (if chars.width(text[i]) == 2 then " " else ""),
                  lineLen + chars.width(text[i]), i + 1, start)
  {
    var c := text[i];
    var spacer := if chars.width(c) == 2 then " " else "";
    VisiblePrefix(text, i);
    PushVisible(line, c, spacer);
    var shown := if IsWhitespace(c) then [] else [c];
    assert Visible(lines) + (NonSpace(line) + shown) == (Visible(lines) + NonSpace(line)) + shown;
    if AllNarrow(text, chars) {
      WrappingPush(text, columns, lines, segments, line, i, start);
      assert line + [c] + spacer == line + [c];
    }
  }

  /** Handle the character at `i`. */
  method TakeCharacter(
    text: string, columns: nat, chars: Chars, lines: seq<string>, ghost segments: seq<Segment>,
    line: string, lineLen: nat, i: nat, ghost start: nat)
    returns (newLines: seq<string>, ghost newSegments: seq<Segment>, newLine: string, newLen: nat, ghost newStart: nat)
    requires columns >= 1 && i < |text| && |segments| == |lines|
    requires Taken(text, columns, chars, lines, segments, line, lineLen, i, start)
    ensures |newSegments| == |newLines|
    ensures Taken(text, columns, chars, newLines, newSegments, newLine, newLen, i + 1, newStart)
  {
    newLines, newSegments, newLine, newLen, newStart := lines, segments, line, lineLen, start;
    if AllNarrow(text, chars) {
      BreakIffFull(text[i], columns, |lines|, lineLen);
    }
    if MustBreak(text[i], columns, |lines|, lineLen) {
      newLines, newSegments, newLine, newStart :=
        EndLine(text, columns, chars, lines, segments, line, lineLen, i, start);
      newLen := |newLine|;
      if IsWhitespace(text[i]) {
        VisiblePrefix(text, i);
        return;
      }
    }
    TakenPush(text, columns, chars, newLines, newSegments, newLine, newLen, i, newStart);
    newLine := newLine + [text[i]] + (if chars.width(text[i]) == 2 then " " else "");
    newLen := newLen + chars.width(text[i]);
  }

  /** Put the last line out. */
  lemma TakenAll(
    text: string, columns: nat, chars: Chars, lines: seq<string>, segments: seq<Segment>,
    line: string, lineLen: nat, start: nat)
    requires Taken(text, columns, chars, lines, segments, line, lineLen, |text|, start)
    ensures Visible(lines + [Pad(line, columns)]) == NonSpace(text)
    ensures AllNarrow(text, chars) ==>
      start <= |text| && ShowsAll(text, columns, lines + [Pad(line, columns)], segments + [Segment(start, |text|)])
  {
    assert text[..|text|] == text;
    VisibleEnded(lines, line, line, [], columns);
    if AllNarrow(text, chars) {
      assert line == text[start..];
      ShowsLast(text, columns, lines, segments, start);
    }
  }

  /** Split the text into padded lines at newlines, at the last whitespace that fits or, failing that, in words. No
      visible character is lost; if all characters take one column, the lines show consecutive segments. */
  method Wrap(text: string, columns: nat, chars: Chars) returns (lines: seq<string>, ghost segments: seq<Segment>)
    requires columns >= 1
    ensures |lines| >= 1 && Visible(lines) == NonSpace(text)
    ensures AllNarrow(text, chars) ==> ShowsAll(text, columns, lines, segments)
  {
    lines, segments := [], [];
    var line: string := [];
    ghost var start: nat := 0;
    var i: nat, lineLen: nat := 0, 0;
    while i < |text|
      invariant 0 <= i <= |text| && |segments| == |lines|
      invariant Taken(text, columns, chars, lines, segments, line, lineLen, i, start)
    {
      lines, segments, line, lineLen, start :=
        TakeCharacter(text, columns, chars, lines, segments, line, lineLen, i, start);
      i := i + 1;
    }
    TakenAll(text, columns, chars, lines, segments, line, lineLen, start);
    lines := lines + [Pad(line, columns)];
    segments := segments + [Segment(start, |text|)];
  }

  // ----- The lines are determined -----

  /** Where a line ends follows from where it starts. */
  lemma BreakUnique(text: string, a: Segment, b: Segment, capacity: nat, m: nat, n: nat)
    requires a.from == b.from && Continues(text, a, capacity, m) && Continues(text, b, capacity, n)
    ensures a == b && m == n
  {
  }

  /** A line that holds the rest of the text goes on nowhere. */
  lemma EndOrBreak(text: string, a: Segment, b: Segment, capacity: nat, next: nat)
    requires a.from == b.from && Ends(text, a, capacity)
    ensures !Continues(text, b, capacity, next)
  {
  }

  lemma LastEqual(a: seq<Segment>, b: seq<Segment>, k: nat)
    requires |a| == |b| == k + 1 && a[..k] == b[..k] && a[k] == b[k]
    ensures a == b
  {
    assert a == a[..k] + [a[k]] && b == b[..k] + [b[k]];
  }

  /** Equally many lines show the same segments. */
  lemma {:induction false} ShowsUnique(
    text: string, columns: nat, x: seq<string>, a: seq<Segment>, m: nat, y: seq<string>, b: seq<Segment>, n: nat)
    requires Shows(text, columns, x, a, m) && Shows(text, columns, y, b, n) && |a| == |b|
    ensures a == b && m == n
    decreases |a|
  {
    if a != [] {
      var k := |a| - 1;
      ShowsUnique(text, columns, x[..k], a[..k], a[k].from, y[..k], b[..k], b[k].from);
      BreakUnique(text, a[k], b[k], Capacity(columns, k), m, n);
      LastEqual(a, b, k);
    }
  }

  /** Every line before the last goes on. */
  lemma {:induction false} ShowsPart(text: string, columns: nat, lines: seq<string>, a: seq<Segment>, n: nat, k: nat)
    returns (next: nat)
    requires Shows(text, columns, lines, a, n) && k < |a|
    ensures Shows(text, columns, lines[..k], a[..k], a[k].from)
    ensures Continues(text, a[k], Capacity(columns, k), next)
    decreases |a|
  {
    next := n;
    var last := |a| - 1;
    if k < last {
      next := ShowsPart(text, columns, lines[..last], a[..last], a[last].from, k);
      assert lines[..last][..k] == lines[..k] && a[..last][..k] == a[..k];
    }
  }

  /** Likewise in a whole text. */
  lemma ShowsAllPart(text: string, columns: nat, lines: seq<string>, a: seq<Segment>, k: nat) returns (next: nat)
    requires ShowsAll(text, columns, lines, a) && k < |a| - 1
    ensures Shows(text, columns, lines[..k], a[..k], a[k].from)
    ensures Continues(text, a[k], Capacity(columns, k), next)
  {
    var last := |a| - 1;
    next := ShowsPart(text, columns, lines[..last], a[..last], a[last].from, k);
    assert lines[..last][..k] == lines[..k] && a[..last][..k] == a[..k];
  }

  /** A text that ends does not have more lines elsewhere. */
  lemma NoMoreLines(text: string, columns: nat, x: seq<string>, a: seq<Segment>, y: seq<string>, b: seq<Segment>)
    requires ShowsAll(text, columns, x, a) && ShowsAll(text, columns, y, b)
    ensures |b| <= |a|
  {
    if |a| < |b| {
      var k := |a| - 1;
      var next := ShowsAllPart(text, columns, y, b, k);
      ShowsUnique(text, columns, x[..k], a[..k], a[k].from, y[..k], b[..k], b[k].from);
      EndOrBreak(text, a[k], b[k], Capacity(columns, k), next);
    }
  }

  lemma SegmentsUnique(text: string, columns: nat, x: seq<string>, a: seq<Segment>, y: seq<string>, b: seq<Segment>)
    requires ShowsAll(text, columns, x, a) && ShowsAll(text, columns, y, b) && |a| == |b|
    ensures a == b
  {
    var k := |a| - 1;
    ShowsUnique(text, columns, x[..k], a[..k], a[k].from, y[..k], b[..k], b[k].from);
    LastEqual(a, b, k);
  }

  /** The rules for line breaks leave exactly one way to wrap a text. */
  lemma WrapUnique(text: string, columns: nat, x: seq<string>, a: seq<Segment>, y: seq<string>, b: seq<Segment>)
    requires ShowsAll(text, columns, x, a) && ShowsAll(text, columns, y, b)
    ensures x == y && a == b
  {
    NoMoreLines(text, columns, x, a, y, b);
    NoMoreLines(text, columns, y, b, x, a);
    SegmentsUnique(text, columns, x, a, y, b);
    WrappedWidths(text, columns, x, a);
    WrappedWidths(text, columns, y, b);
  }

  // ----- No text is lost -----

  /** The visible characters of a text. */
  function NonSpace(s: string): string {
    if s == [] then []
    else NonSpace(s[..|s| - 1]) + if IsWhitespace(s[|s| - 1]) then [] else [s[|s| - 1]]
  }

  lemma {:induction false} NonSpaceConcat(a: string, b: string)
    ensures NonSpace(a + b) == NonSpace(a) + NonSpace(b)
  {
    if b == [] {
      assert a + b == a;
    } else {
      NonSpaceConcat(a, b[..|b| - 1]);
      assert (a + b)[..|a + b| - 1] == a + b[..|b| - 1];
    }
  }

  lemma {:induction false} NonSpaceBlank(s: string)
    requires forall i :: 0 <= i < |s| ==> IsWhitespace(s[i])
    ensures NonSpace(s) == []
  {
    if s != [] {
      NonSpaceBlank(s[..|s| - 1]);
    }
  }

  lemma NonSpacePad(s: string, columns: nat)
    ensures NonSpace(Pad(s, columns)) == NonSpace(s)
  {
    var p := Pad(s, columns);
    assert p == s + p[|s|..];
    NonSpaceConcat(s, p[|s|..]);
    NonSpaceBlank(p[|s|..]);
  }

  function Visible(lines: seq<string>): string {
    if lines == [] then [] else Visible(lines[..|lines| - 1]) + NonSpace(lines[|lines| - 1])
  }

  /** The visible characters of the lines are those of the text before the next line. */
  lemma {:induction false} VisibleSoFar(
    text: string, columns: nat, lines: seq<string>, segments: seq<Segment>, next: nat)
    requires Shows(text, columns, lines, segments, next)
    ensures Visible(lines) == NonSpace(text[..next])
    decreases |lines|
  {
    if segments == [] {
      assert text[..0] == [];
    } else {
      var k := |segments| - 1;
      var s := segments[k];
      VisibleSoFar(text, columns, lines[..k], segments[..k], s.from);
      NonSpacePad(text[s.from..s.to], columns);
      SegmentVisible(text, s);
      GapIsBlank(text, s, Capacity(columns, k), next);
    }
  }

  lemma SegmentVisible(text: string, s: Segment)
    requires s.from <= s.to <= |text|
    ensures NonSpace(text[..s.to]) == NonSpace(text[..s.from]) + NonSpace(text[s.from..s.to])
  {
    assert text[..s.to] == text[..s.from] + text[s.from..s.to];
    NonSpaceConcat(text[..s.from], text[s.from..s.to]);
  }

  lemma VisibleAll(text: string, columns: nat, lines: seq<string>, segments: seq<Segment>)
    requires ShowsAll(text, columns, lines, segments)
    ensures Visible(lines) == NonSpace(text)
  {
    var k := |segments| - 1;
    var s := segments[k];
    VisibleSoFar(text, columns, lines[..k], segments[..k], s.from);
    NonSpacePad(text[s.from..s.to], columns);
    SegmentVisible(text, s);
    assert text[..|text|] == text;
  }

  /** Only whitespace is dropped between lines. */
  lemma GapIsBlank(text: string, a: Segment, capacity: nat, next: nat)
    requires Continues(text, a, capacity, next)
    ensures a.to <= next <= |text| && NonSpace(text[..next]) == NonSpace(text[..a.to])
  {
    if next == a.to + 1 {
      assert text[..next][..a.to] == text[..a.to];
    }
  }

  lemma {:induction false} TrimStartVisible(s: string)
    ensures NonSpace(TrimStart(s)) == NonSpace(s)
  {
    if s != [] && IsWhitespace(s[0]) {
      TrimStartVisible(s[1..]);
      assert s == [s[0]] + s[1..];
      NonSpaceConcat([s[0]], s[1..]);
      NonSpaceBlank([s[0]]);
    }
  }

  lemma {:induction false} TrimEndVisible(s: string)
    ensures NonSpace(TrimEnd(s)) == NonSpace(s)
  {
    if s != [] && IsWhitespace(s[|s| - 1]) {
      TrimEndVisible(s[..|s| - 1]);
    }
  }

  lemma TrimVisible(s: string)
    ensures NonSpace(Trim(s)) == NonSpace(s)
  {
    TrimStartVisible(s);
    TrimEndVisible(TrimStart(s));
  }

  lemma {:induction false} TrimStartSplits(s: string)
    ensures |TrimStart(s)| <= |s| && TrimStart(s) == s[|s| - |TrimStart(s)|..]
    ensures forall i :: 0 <= i < |s| - |TrimStart(s)| ==> IsWhitespace(s[i])
    ensures TrimStart(s) != [] ==> !IsWhitespace(TrimStart(s)[0])
  {
    if s != [] && IsWhitespace(s[0]) {
      TrimStartSplits(s[1..]);
      var n := |TrimStart(s[1..])|;
      assert s[1..][|s| - 1 - n..] == s[|s| - n..];
      forall i | 0 <= i < |s| - n
        ensures IsWhitespace(s[i])
      {
        assert i > 0 ==> s[i] == s[1..][i - 1];
      }
    }
  }

  /** The whitespace of ASCII and Latin-1, and what lies behind the general punctuation. */
  lemma WhitespaceOf(c: char)
    ensures c < '\U{100}' ==>
      (IsWhitespace(c) <==> c in {' ', '\t', '\n', '\r', '\U{000b}', '\U{000c}', '\U{0085}', '\U{00a0}'})
    ensures '\U{2060}' <= c ==> (IsWhitespace(c) <==> c == '\U{3000}')
  {
  }

  /** Trimming leaves one segment, with whitespace outside it and none at its ends. */
  lemma TrimSegment(s: string) returns (from: nat, to: nat)
    ensures from <= to <= |s| && Trim(s) == s[from..to]
    ensures forall i :: 0 <= i < from || to <= i < |s| ==> IsWhitespace(s[i])
    ensures from < to ==> !IsWhitespace(s[from]) && !IsWhitespace(s[to - 1])
  {
    var t := TrimStart(s);
    TrimStartSplits(s);
    TrimEndSplits(t);
    from := |s| - |t|;
    to := from + |Trim(s)|;
    forall i | to <= i < |s|
      ensures IsWhitespace(s[i])
    {
      assert s[i] == t[i - from];
    }
    assert from < to ==> s[from] == t[0] && s[to - 1] == Trim(s)[|Trim(s)| - 1];
  }

  lemma TrimNarrow(s: string, chars: Chars)
    requires AllNarrow(s, chars)
    ensures AllNarrow(Trim(s), chars)
  {
    TrimStartNarrow(s, chars);
    TrimEndNarrow(TrimStart(s), chars);
  }

  lemma {:induction false} TrimStartNarrow(s: string, chars: Chars)
    requires AllNarrow(s, chars)
    ensures AllNarrow(TrimStart(s), chars)
  {
    if s != [] && IsWhitespace(s[0]) {
      TrimStartNarrow(s[1..], chars);
    }
  }

  lemma {:induction false} TrimEndNarrow(s: string, chars: Chars)
    requires AllNarrow(s, chars)
    ensures AllNarrow(TrimEnd(s), chars)
  {
    if s != [] && IsWhitespace(s[|s| - 1]) {
      TrimEndNarrow(s[..|s| - 1], chars);
    }
  }

  // ----- The formatted message -----

  /** Bytes of a string. */
  function Bytes(s: string, chars: Chars): nat {
    if s == [] then 0 else chars.size(s[0]) + Bytes(s[1..], chars)
  }

  /** A string cut to a number of bytes; None when that is in the middle of a character, which ends the program. */
  function CutToBytes(s: string, bytes: nat, chars: Chars): Option<string> {
    if s == [] || bytes == 0 then Some([])
    else if bytes < chars.size(s[0]) then None
    else
      var rest := CutToBytes(s[1..], bytes - chars.size(s[0]), chars);
      if rest == None then None else Some([s[0]] + rest.value)
  }

  /** What is left is a beginning of the string that ends where it should. */
  lemma {:induction false} CutIsPrefix(s: string, bytes: nat, chars: Chars)
    requires CutToBytes(s, bytes, chars).Some?
    ensures var cut := CutToBytes(s, bytes, chars).value;
      cut <= s && (cut == s || Bytes(cut, chars) == bytes)
  {
    if s != [] && bytes != 0 {
      CutIsPrefix(s[1..], bytes - chars.size(s[0]), chars);
      var cut := CutToBytes(s, bytes, chars).value;
      assert cut[1..] == CutToBytes(s[1..], bytes - chars.size(s[0]), chars).value;
      assert s == [s[0]] + s[1..];
    }
  }

  /** Cutting fails exactly if there are more bytes and none of the characters starts at the place of the cut. */
  lemma {:induction false} CutFailsIff(s: string, bytes: nat, chars: Chars)
    requires chars.Valid()
    ensures CutToBytes(s, bytes, chars) == None
       <==> bytes < Bytes(s, chars) && forall k :: 0 <= k <= |s| ==> Bytes(s[..k], chars) != bytes
  {
    if s == [] {
    } else if bytes == 0 {
      assert Bytes(s[..0], chars) == 0;
    } else {
      var n := chars.size(s[0]);
      forall k | 1 <= k <= |s|
        ensures Bytes(s[..k], chars) == n + Bytes(s[1..][..k - 1], chars)
      {
        assert s[..k][1..] == s[1..][..k - 1];
      }
      assert Bytes(s[..0], chars) == 0;
      if n <= bytes {
        CutFailsIff(s[1..], bytes - n, chars);
        forall k | 0 <= k <= |s| - 1
          ensures Bytes(s[..k + 1], chars) == bytes <==> Bytes(s[1..][..k], chars) == bytes - n
        {
        }
      }
    }
  }

  /** All characters of a string take one byte. */
  predicate AllSingle(s: string, chars: Chars) {
    forall i :: 0 <= i < |s| ==> chars.size(s[i]) == 1
  }

  lemma {:induction false} CutSingle(s: string, bytes: nat, chars: Chars)
    requires AllSingle(s, chars)
    ensures CutToBytes(s, bytes, chars) == Some(s[..Min(|s|, bytes)])
  {
    if s != [] && bytes != 0 {
      CutSingle(s[1..], bytes - 1, chars);
      assert s[..Min(|s|, bytes)] == [s[0]] + s[1..][..Min(|s| - 1, bytes - 1)];
    }
  }

  lemma {:induction false} BytesConcat(a: string, b: string, chars: Chars)
    ensures Bytes(a + b, chars) == Bytes(a, chars) + Bytes(b, chars)
  {
    if a == [] {
      assert a + b == b;
    } else {
      BytesConcat(a[1..], b, chars);
      assert (a + b)[1..] == a[1..] + b;
    }
  }

  lemma {:induction false} BytesPositive(s: string, chars: Chars)
    requires chars.Valid()
    ensures Bytes(s, chars) >= |s|
  {
    if s != [] {
      BytesPositive(s[1..], chars);
    }
  }

  lemma {:induction false} TrimEndSplits(s: string)
    ensures TrimEnd(s) <= s && forall i :: |TrimEnd(s)| <= i < |s| ==> IsWhitespace(s[i])
    ensures TrimEnd(s) != [] ==> !IsWhitespace(TrimEnd(s)[|TrimEnd(s)| - 1])
  {
    if s != [] && IsWhitespace(s[|s| - 1]) {
      TrimEndSplits(s[..|s| - 1]);
    }
  }

  /** A string with a visible character shows something. */
  lemma {:induction false} SomeVisible(s: string, k: nat)
    requires k < |s| && !IsWhitespace(s[k])
    ensures NonSpace(s) != []
  {
    if k < |s| - 1 {
      SomeVisible(s[..|s| - 1], k);
    }
  }

  /** A beginning of a line shows what the line does exactly if it is long enough. */
  lemma PrefixVisibleIff(s: string, t: string)
    requires t <= s
    ensures NonSpace(t) == NonSpace(s) <==> |TrimEnd(s)| <= |t|
  {
    TrimEndSplits(s);
    assert s == t + s[|t|..];
    NonSpaceConcat(t, s[|t|..]);
    if |TrimEnd(s)| <= |t| {
      NonSpaceBlank(s[|t|..]);
    } else {
      SomeVisible(s[|t|..], |TrimEnd(s)| - 1 - |t|);
    }
  }

  /** In bytes: the text of the line up to its last visible character must fit. */
  lemma CutVisibleIff(s: string, bytes: nat, chars: Chars)
    requires chars.Valid() && CutToBytes(s, bytes, chars).Some?
    ensures NonSpace(CutToBytes(s, bytes, chars).value) == NonSpace(s) <==> Bytes(TrimEnd(s), chars) <= bytes
  {
    var cut, trimmed := CutToBytes(s, bytes, chars).value, TrimEnd(s);
    CutIsPrefix(s, bytes, chars);
    TrimEndSplits(s);
    PrefixVisibleIff(s, cut);
    if |trimmed| <= |cut| {
      assert cut == trimmed + cut[|trimmed|..];
      BytesConcat(trimmed, cut[|trimmed|..], chars);
      CutAtMost(s, bytes, chars);
    } else {
      assert trimmed == cut + trimmed[|cut|..];
      BytesConcat(cut, trimmed[|cut|..], chars);
      BytesPositive(trimmed[|cut|..], chars);
    }
  }

  lemma {:induction false} CutAtMost(s: string, bytes: nat, chars: Chars)
    requires CutToBytes(s, bytes, chars).Some?
    ensures Bytes(CutToBytes(s, bytes, chars).value, chars) <= bytes
  {
    if s != [] && bytes != 0 {
      CutAtMost(s[1..], bytes - chars.size(s[0]), chars);
      var cut := CutToBytes(s, bytes, chars).value;
      assert cut[1..] == CutToBytes(s[1..], bytes - chars.size(s[0]), chars).value;
    }
  }

  /** A line of the message once it is cut to the available number of lines; the last one then tells so. */
  function CutLine(wrapped: seq<string>, columns: nat, maxLines: nat, k: nat): string
    requires k < |wrapped|
  {
    if maxLines < |wrapped| && k + 1 == maxLines && |TRUNCATED_MESSAGE| <= columns then Pad(TRUNCATED_MESSAGE, columns)
    else wrapped[k]
  }

  /** What is left of the first line beside the close button. */
  function FirstLine(wrapped: seq<string>, columns: nat, maxLines: nat, chars: Chars): Option<string>
    requires wrapped != []
  {
    var first := CutLine(wrapped, columns, maxLines, 0);
    if columns >= CLOSE_BUTTON_LEN then CutToBytes(first, columns - CLOSE_BUTTON_LEN, chars) else Some(first)
  }

  /** Cut the lines to the available number and put the close button on the first. The button's place is counted in
      bytes; None means that this ends the program. */
  method Finish(wrapped: seq<string>, columns: nat, maxLines: nat, chars: Chars) returns (result: Option<seq<string>>)
    requires wrapped != []
    ensures result == None <==> maxLines > 0 && FirstLine(wrapped, columns, maxLines, chars) == None
    ensures result.Some? ==> |result.value| == Min(|wrapped|, maxLines)
    ensures result.Some? ==>
      forall k :: 1 <= k < |result.value| ==> result.value[k] == CutLine(wrapped, columns, maxLines, k)
    ensures result.Some? && maxLines > 0 ==>
      result.value[0] == FirstLine(wrapped, columns, maxLines, chars).value
                         + if columns >= CLOSE_BUTTON_LEN then CLOSE_BUTTON_TEXT else ""
  {
    var lines := wrapped;
    if |lines| > maxLines {
      lines := lines[..maxLines];
      if |TRUNCATED_MESSAGE| <= columns && lines != [] {
        lines := lines[|lines| - 1 := Pad(TRUNCATED_MESSAGE, columns)];
      }
    }
    if CLOSE_BUTTON_LEN <= columns && lines != [] {
      var first := CutToBytes(lines[0], columns - CLOSE_BUTTON_LEN, chars);
      if first == None {
        return None;
      }
      lines := lines[0 := first.value + CLOSE_BUTTON_TEXT];
    }
    return Some(lines);
  }

  /** A line of a wrapped message is as wide as the bar and shows its segment within its capacity. */
  lemma WrappedLine(text: string, columns: nat, lines: seq<string>, segments: seq<Segment>, k: nat)
    requires ShowsAll(text, columns, lines, segments) && k < |lines|
    ensures LineShows(text, columns, k, lines[k], segments[k]) && |lines[k]| == columns
  {
    var n := |segments| - 1;
    if k < n {
      ShowsEachLine(text, columns, lines[..n], segments[..n], segments[n].from);
      assert lines[..n][k] == lines[k] && segments[..n][k] == segments[k];
    }
  }

  lemma WrappedWidths(text: string, columns: nat, lines: seq<string>, segments: seq<Segment>)
    requires ShowsAll(text, columns, lines, segments)
    ensures |lines| == |segments| >= 1
    ensures forall k :: 0 <= k < |lines| ==> LineShows(text, columns, k, lines[k], segments[k]) && |lines[k]| == columns
  {
    forall k | 0 <= k < |lines|
      ensures LineShows(text, columns, k, lines[k], segments[k]) && |lines[k]| == columns
    {
      WrappedLine(text, columns, lines, segments, k);
    }
  }

  /** The close button replaces only padding of the first line. */
  lemma ButtonCoversPadding(text: string, columns: nat, line: string, s: Segment)
    requires LineShows(text, columns, 0, line, s) && columns >= 3 && |line| == columns
    ensures NonSpace(line[..columns - 3]) == NonSpace(line)
  {
    assert line == line[..columns - 3] + line[columns - 3..];
    NonSpaceConcat(line[..columns - 3], line[columns - 3..]);
    NonSpaceBlank(line[columns - 3..]);
  }

  lemma {:induction false} VisibleConcat(a: seq<string>, b: seq<string>)
    ensures Visible(a + b) == Visible(a) + Visible(b)
  {
    if b == [] {
      assert a + b == a;
    } else {
      var front, last := b[..|b| - 1], b[|b| - 1];
      VisibleConcat(a, front);
      assert (a + b)[..|a + b| - 1] == a + front && (a + b)[|a + b| - 1] == last;
      assert Visible(a) + (Visible(front) + NonSpace(last)) == (Visible(a) + Visible(front)) + NonSpace(last);
    }
  }

  lemma VisibleSplit(lines: seq<string>)
    requires lines != []
    ensures Visible(lines) == NonSpace(lines[0]) + Visible(lines[1..])
  {
    assert lines == [lines[0]] + lines[1..];
    VisibleConcat([lines[0]], lines[1..]);
    assert [lines[0]][..0] == [];
    assert Visible([lines[0]]) == NonSpace(lines[0]);
  }

  /** Replacing the first line keeps what is visible exactly if the two lines show the same. */
  lemma VisibleFirstIff(lines: seq<string>, first: string)
    requires lines != []
    ensures Visible(lines[0 := first]) == Visible(lines) <==> NonSpace(first) == NonSpace(lines[0])
  {
    VisibleSplit(lines);
    VisibleSplit(lines[0 := first]);
    assert lines[0 := first][1..] == lines[1..];
    var rest := Visible(lines[1..]);
    if NonSpace(first) + rest == NonSpace(lines[0]) + rest {
      assert NonSpace(first) == (NonSpace(first) + rest)[..|NonSpace(first)|];
      assert NonSpace(lines[0]) == (NonSpace(lines[0]) + rest)[..|NonSpace(lines[0])|];
    }
  }

  /** The message's lines without the close button. */
  ghost function WithoutButton(wrapped: seq<string>, columns: nat, maxLines: nat, chars: Chars): seq<string>
    requires wrapped != [] && FirstLine(wrapped, columns, maxLines, chars).Some?
  {
    wrapped[0 := FirstLine(wrapped, columns, maxLines, chars).value]
  }

  /** Text that is not ASCII may not leave room for the button in bytes. */
  predicate ButtonFits(first: string, columns: nat, chars: Chars) {
    columns >= CLOSE_BUTTON_LEN ==> Bytes(TrimEnd(first), chars) <= columns - CLOSE_BUTTON_LEN
  }

  /** When nothing is cut, all is visible beside the button exactly if the first line's text fits in bytes. */
  lemma FinishedVisibleIff(wrapped: seq<string>, columns: nat, maxLines: nat, chars: Chars)
    requires chars.Valid() && 1 <= |wrapped| <= maxLines && FirstLine(wrapped, columns, maxLines, chars).Some?
    ensures Visible(WithoutButton(wrapped, columns, maxLines, chars)) == Visible(wrapped)
       <==> ButtonFits(wrapped[0], columns, chars)
  {
    VisibleFirstIff(wrapped, FirstLine(wrapped, columns, maxLines, chars).value);
    if columns >= CLOSE_BUTTON_LEN {
      CutVisibleIff(wrapped[0], columns - CLOSE_BUTTON_LEN, chars);
    }
  }

  lemma PadSingle(s: string, columns: nat, chars: Chars)
    requires chars.Valid() && AllSingle(s, chars)
    ensures AllSingle(Pad(s, columns), chars)
  {
    var padded := Pad(s, columns);
    forall i | 0 <= i < |padded|
      ensures chars.size(padded[i]) == 1
    {
      assert i < |s| ==> padded[i] == padded[..|s|][i];
    }
  }

  lemma TruncatedSingle(chars: Chars)
    requires chars.Valid()
    ensures AllSingle(TRUNCATED_MESSAGE, chars)
  {
  }

  /** The first line of a text of single bytes. */
  lemma CutLineSingle(text: string, columns: nat, chars: Chars, wrapped: seq<string>, s: Segment, maxLines: nat)
    requires chars.Valid() && AllSingle(text, chars) && wrapped != [] && |wrapped[0]| == columns
    requires LineShows(text, columns, 0, wrapped[0], s)
    ensures |CutLine(wrapped, columns, maxLines, 0)| == columns
    ensures AllSingle(CutLine(wrapped, columns, maxLines, 0), chars)
  {
    PadSingle(text[s.from..s.to], columns, chars);
    TruncatedSingle(chars);
    PadSingle(TRUNCATED_MESSAGE, columns, chars);
  }

  /** A narrow first line of single bytes leaves room for the button. */
  lemma SingleFirstLine(text: string, columns: nat, chars: Chars, wrapped: seq<string>, s: Segment, maxLines: nat)
    requires chars.Valid() && AllSingle(text, chars) && wrapped != [] && |wrapped[0]| == columns
    requires LineShows(text, columns, 0, wrapped[0], s)
    ensures var first := CutLine(wrapped, columns, maxLines, 0);
      && |first| == columns
      && FirstLine(wrapped, columns, maxLines, chars)
         == Some(if columns >= CLOSE_BUTTON_LEN then first[..columns - CLOSE_BUTTON_LEN] else first)
  {
    CutLineSingle(text, columns, chars, wrapped, s, maxLines);
    var first := CutLine(wrapped, columns, maxLines, 0);
    if columns >= CLOSE_BUTTON_LEN {
      CutSingle(first, columns - CLOSE_BUTTON_LEN, chars);
    }
  }

  lemma SingleButtonFits(text: string, columns: nat, chars: Chars, wrapped: seq<string>, s: Segment, maxLines: nat)
    requires chars.Valid() && AllSingle(text, chars) && 1 <= |wrapped| <= maxLines && |wrapped[0]| == columns
    requires LineShows(text, columns, 0, wrapped[0], s)
    ensures FirstLine(wrapped, columns, maxLines, chars).Some?
    ensures Visible(WithoutButton(wrapped, columns, maxLines, chars)) == Visible(wrapped)
  {
    SingleFirstLine(text, columns, chars, wrapped, s, maxLines);
    if columns >= CLOSE_BUTTON_LEN {
      ButtonCoversPadding(text, columns, wrapped[0], s);
    }
    VisibleFirstIff(wrapped, FirstLine(wrapped, columns, maxLines, chars).value);
  }

  /** Main result: wrapping loses no visible character, whatever the characters are. For characters of one column
      the lines show consecutive segments, as wide as the bar. When no line is cut, the close button hides no
      visible character exactly if the first line's text leaves room for it in bytes, as text of one byte per
      character does. */
  method Text(message: string, columns: nat, maxLines: nat, chars: Chars)
    returns (result: Option<seq<string>>, ghost wrapped: seq<string>, ghost segments: seq<Segment>)
    requires columns >= 1 && chars.Valid()
    ensures wrapped != [] && Visible(wrapped) == NonSpace(message)
    ensures AllNarrow(message, chars) ==> ShowsAll(Trim(message), columns, wrapped, segments)
    ensures result == None <==> maxLines > 0 && FirstLine(wrapped, columns, maxLines, chars) == None
    ensures result.Some? ==>
      && |result.value| == Min(|wrapped|, maxLines)
      && (forall k :: 1 <= k < |result.value| ==> result.value[k] == CutLine(wrapped, columns, maxLines, k))
      && (maxLines > 0 ==>
          result.value[0] == FirstLine(wrapped, columns, maxLines, chars).value
                             + if columns >= CLOSE_BUTTON_LEN then CLOSE_BUTTON_TEXT else "")
    ensures result.Some? && |wrapped| <= maxLines ==>
      (Visible(WithoutButton(wrapped, columns, maxLines, chars)) == NonSpace(message)
       <==> ButtonFits(wrapped[0], columns, chars))
    ensures AllNarrow(message, chars) && AllSingle(message, chars) ==>
      && result.Some? && (forall k :: 0 <= k < |result.value| ==> |result.value[k]| == columns)
      && (|wrapped| <= maxLines ==> Visible(WithoutButton(wrapped, columns, maxLines, chars)) == NonSpace(message))
  {
    TrimVisible(message);
    var trimmed := Trim(message);
    var all;
    if AllNarrow(message, chars) {
      TrimNarrow(message, chars);
    }
    all, segments := Wrap(trimmed, columns, chars);
    wrapped := all;
    result := Finish(all, columns, maxLines, chars);
    if result.Some? && |all| <= maxLines {
      FinishedVisibleIff(all, columns, maxLines, chars);
    }
    if AllNarrow(message, chars) && AllSingle(message, chars) {
      TrimSingle(message, chars);
      SingleLines(trimmed, columns, chars, all, segments, maxLines);
    }
  }

  /** A narrow text of single bytes: the width of each line, and that all is visible. */
  lemma SingleLines(
    text: string, columns: nat, chars: Chars, wrapped: seq<string>, segments: seq<Segment>, maxLines: nat)
    requires chars.Valid() && AllSingle(text, chars) && ShowsAll(text, columns, wrapped, segments)
    ensures var first := FirstLine(wrapped, columns, maxLines, chars);
      first.Some? && |first.value| + (if columns >= CLOSE_BUTTON_LEN then CLOSE_BUTTON_LEN else 0) == columns
    ensures forall k :: 0 <= k < |wrapped| ==> |CutLine(wrapped, columns, maxLines, k)| == columns
    ensures |wrapped| <= maxLines ==> Visible(WithoutButton(wrapped, columns, maxLines, chars)) == Visible(wrapped)
  {
    WrappedColumns(text, columns, wrapped, segments);
    SingleFirstLine(text, columns, chars, wrapped, segments[0], maxLines);
    if |wrapped| <= maxLines {
      SingleButtonFits(text, columns, chars, wrapped, segments[0], maxLines);
    }
  }

  lemma WrappedColumns(text: string, columns: nat, lines: seq<string>, segments: seq<Segment>)
    requires ShowsAll(text, columns, lines, segments)
    ensures |lines| == |segments| >= 1 && forall k :: 0 <= k < |lines| ==> |lines[k]| == columns
    ensures LineShows(text, columns, 0, lines[0], segments[0])
  {
    WrappedWidths(text, columns, lines, segments);
  }

  lemma TrimSingle(s: string, chars: Chars)
    requires AllSingle(s, chars)
    ensures AllSingle(Trim(s), chars)
  {
    TrimStartSingle(s, chars);
    TrimEndSplits(TrimStart(s));
  }

  lemma {:induction false} TrimStartSingle(s: string, chars: Chars)
    requires AllSingle(s, chars)
    ensures AllSingle(TrimStart(s), chars)
  {
    if s != [] && IsWhitespace(s[0]) {
      TrimStartSingle(s[1..], chars);
    }
  }
}
