/** Keyboard selection of on-screen matches: every key narrows the labels until one match is chosen. */
module HintState {
  import opened Common
  import opened Arith
  import opened Index
  import opened HintLabels

  /** An inclusive range of cells. */
  datatype Match = Match(start: Point, end: Point) {

    /** The sorting key: earlier starts first, longer matches first among equal starts. */
    predicate KeyAtMost(other: Match) {
      start.Before(other.start) || (start == other.start && other.end.AtMost(end))
    }
  }

  /** What a hint looks for, and whether it stays active after a selection. */
  datatype Hint = Hint(hyperlinks: bool, regex: bool, persist: bool, action: nat)

  datatype HintMatch = HintMatch(bounds: Match, hyperlink: Option<string>, hint: Hint)

  /** What the terminal shows: hyperlink ranges, regex matches and the hyperlink of each cell. */
  datatype View = View(links: seq<Match>, regexMatches: seq<Match>, hyperlinkAt: map<Point, string>)

  // ----- Visible matches -----

  function Found(hint: Hint, view: View): seq<Match> {
    (if hint.hyperlinks then view.links else []) + (if hint.regex then view.regexMatches else [])
  }

  function InsertMatch(m: Match, sorted: seq<Match>): seq<Match> {
    if sorted == [] || m.KeyAtMost(sorted[0]) then [m] + sorted
    else [sorted[0]] + InsertMatch(m, sorted[1..])
  }

  function SortMatches(found: seq<Match>): seq<Match> {
    if found == [] then [] else InsertMatch(found[0], SortMatches(found[1..]))
  }

  /** Of each run of matches with the same start, keep the first. */
  function DedupStarts(sorted: seq<Match>): seq<Match>
    decreases |sorted|
  {
    if |sorted| <= 1 then sorted
    else if sorted[0].start == sorted[1].start then DedupStarts([sorted[0]] + sorted[2..])
    else [sorted[0]] + DedupStarts(sorted[1..])
  }

  function Visible(hint: Hint, view: View): seq<Match> {
    DedupStarts(SortMatches(Found(hint, view)))
  }

  predicate SortedByKey(s: seq<Match>) {
    forall i, j :: 0 <= i < j < |s| ==> s[i].KeyAtMost(s[j])
  }

  /** Matches in the order of their starts, one per start. */
  predicate StartsIncrease(s: seq<Match>) {
    forall i, j :: 0 <= i < j < |s| ==> s[i].start.Before(s[j].start)
  }

  lemma {:induction false} InsertMatchSorts(m: Match, sorted: seq<Match>)
    requires SortedByKey(sorted)
    ensures SortedByKey(InsertMatch(m, sorted))
    ensures forall x :: x in InsertMatch(m, sorted) <==> x == m || x in sorted
  {
    if sorted != [] && !m.KeyAtMost(sorted[0]) {
      InsertMatchSorts(m, sorted[1..]);
      assert sorted == [sorted[0]] + sorted[1..];
      var r := InsertMatch(m, sorted[1..]);
      forall i | 0 <= i < |r|
        ensures sorted[0].KeyAtMost(r[i])
      {
        assert r[i] in r;
        if r[i] != m {
          var j :| 0 <= j < |sorted[1..]| && sorted[1..][j] == r[i];
          assert sorted[0].KeyAtMost(sorted[j + 1]);
        }
      }
    } else if sorted != [] {
      forall i | 0 <= i < |sorted|
        ensures m.KeyAtMost(sorted[i])
      {
        assert i > 0 ==> sorted[0].KeyAtMost(sorted[i]);
      }
    }
  }

  lemma {:induction false} SortMatchesSorts(found: seq<Match>)
    ensures SortedByKey(SortMatches(found))
    ensures forall x :: x in SortMatches(found) <==> x in found
  {
    if found != [] {
      SortMatchesSorts(found[1..]);
      InsertMatchSorts(found[0], SortMatches(found[1..]));
      assert found == [found[0]] + found[1..];
    }
  }

  /** The longest match of `s` at its start. */
  predicate LongestAtStart(m: Match, s: seq<Match>) {
    m in s && forall x :: x in s && x.start == m.start ==> x.end.AtMost(m.end)
  }

  lemma {:induction false} DedupKeepsLongest(sorted: seq<Match>)
    requires SortedByKey(sorted)
    ensures StartsIncrease(DedupStarts(sorted))
    ensures forall m :: m in DedupStarts(sorted) <==> LongestAtStart(m, sorted)
    ensures sorted != [] ==> DedupStarts(sorted) != [] && DedupStarts(sorted)[0] == sorted[0]
    decreases |sorted|
  {
    if |sorted| <= 1 {
    } else if sorted[0].start == sorted[1].start {
      var rest := [sorted[0]] + sorted[2..];
      DedupKeepsLongest(rest);
      assert sorted == [sorted[0]] + [sorted[1]] + sorted[2..];
      forall m
        ensures LongestAtStart(m, rest) <==> LongestAtStart(m, sorted)
      {
        assert forall x :: x in sorted <==> x in rest || x == sorted[1];
      }
    } else {
      var rest := sorted[1..];
      DedupKeepsLongest(rest);
      assert sorted == [sorted[0]] + rest;
      DedupHead(sorted);
    }
  }

  /** A first match with a start of its own is kept, in front of the rest. */
  lemma DedupHead(sorted: seq<Match>)
    requires SortedByKey(sorted) && |sorted| >= 2 && sorted[0].start != sorted[1].start
    requires StartsIncrease(DedupStarts(sorted[1..]))
    requires forall m :: m in DedupStarts(sorted[1..]) <==> LongestAtStart(m, sorted[1..])
    ensures StartsIncrease([sorted[0]] + DedupStarts(sorted[1..]))
    ensures forall m :: m in [sorted[0]] + DedupStarts(sorted[1..]) <==> LongestAtStart(m, sorted)
  {
    var first, rest := sorted[0], sorted[1..];
    assert sorted == [first] + rest;
    forall x | x in rest
      ensures first.start.Before(x.start)
    {
      var j :| 0 <= j < |rest| && rest[j] == x;
      assert first.KeyAtMost(sorted[1]);
      assert j > 0 ==> sorted[1].KeyAtMost(sorted[j + 1]);
    }
    var kept := DedupStarts(rest);
    forall i | 0 <= i < |kept|
      ensures kept[i] in rest
    {
      assert kept[i] in kept;
      assert LongestAtStart(kept[i], rest);
    }
    assert first.end.AtMost(first.end);
    forall m
      ensures LongestAtStart(m, sorted) <==> m == first || LongestAtStart(m, rest)
    {
    }
  }

  /** What a hint looks for: hyperlinks, regex matches or both. */
  predicate Sought(hint: Hint, view: View, m: Match) {
    (hint.hyperlinks && m in view.links) || (hint.regex && m in view.regexMatches)
  }

  /** The visible matches are, in order of their starts, the longest match at each start that the hint looks for. */
  lemma VisibleMatches(hint: Hint, view: View)
    ensures StartsIncrease(Visible(hint, view))
    ensures forall m :: m in Visible(hint, view) <==>
      Sought(hint, view, m) && forall x :: Sought(hint, view, x) && x.start == m.start ==> x.end.AtMost(m.end)
    ensures Visible(hint, view) == [] <==> forall m :: !Sought(hint, view, m)
  {
    VisibleLongest(hint, view);
    assert forall m :: m in Found(hint, view) <==> Sought(hint, view, m);
    if Found(hint, view) != [] {
      assert Sought(hint, view, Found(hint, view)[0]);
    }
  }

  lemma VisibleLongest(hint: Hint, view: View)
    ensures StartsIncrease(Visible(hint, view))
    ensures forall m :: m in Visible(hint, view) <==> LongestAtStart(m, Found(hint, view))
    ensures Visible(hint, view) == [] <==> Found(hint, view) == []
  {
    var found := Found(hint, view);
    SortMatchesSorts(found);
    DedupKeepsLongest(SortMatches(found));
    assert forall m :: LongestAtStart(m, SortMatches(found)) <==> LongestAtStart(m, found);
    if found != [] {
      assert found[0] in SortMatches(found);
    }
  }

  // ----- The selection state -----

  datatype State = State(
    hint: Option<Hint>,
    alphabet: seq<char>,
    matches: seq<Match>,
    labels: seq<string>,
    keys: string)

  function Stopped(s: State): State {
    State(None, s.alphabet, [], [], [])
  }

  /** The label of every match; the last match has the first label generated. */
  function AllLabels(alphabet: seq<char>, count: nat): (r: seq<string>)
    requires |alphabet| >= 2
    ensures |r| == count
  {
    seq(count, i requires 0 <= i < count => NthLabel(alphabet, count - 1 - i))
  }

  /** What is left of a label once the pressed keys are taken off its front. */
  function Residual(word: string, keys: string): string {
    if keys <= word then word[|keys|..] else []
  }

  function Residuals(words: seq<string>, keys: string): (r: seq<string>)
    ensures |r| == |words|
  {
    seq(|words|, i requires 0 <= i < |words| => Residual(words[i], keys))
  }

  function Updated(s: State, view: View): State
    requires |s.alphabet| >= 2
  {
    if s.hint == None then s
    else
      var matches := Visible(s.hint.value, view);
      if matches == [] then Stopped(s)
      else s.(matches := matches, labels := Residuals(AllLabels(s.alphabet, |matches|), s.keys))
  }

  /** Index of the last label that starts with a character, or -1. */
  function LastStarting(labels: seq<string>, c: char): (index: int)
    ensures -1 <= index < |labels|
    ensures index >= 0 ==> labels[index] != [] && labels[index][0] == c
    ensures forall j :: index < j < |labels| ==> labels[j] == [] || labels[j][0] != c
  {
    if labels == [] then -1
    else
      var last := |labels| - 1;
      if labels[last] != [] && labels[last][0] == c then last else LastStarting(labels[..last], c)
  }

  predicate IsBackspace(c: char) { c == '\U{0008}' || c == '\U{001f}' }

  predicate IsCancel(c: char) { c == '\U{001b}' || c == '\U{0003}' }

  /** Effect of a control character, before the matches are recomputed. */
  function Controlled(s: State, c: char): State {
    if IsBackspace(c) then s.(keys := if s.keys == [] then [] else s.keys[..|s.keys| - 1])
    else if IsCancel(c) then Stopped(s)
    else s
  }

  function HyperlinkAt(view: View, p: Point): Option<string> {
    if p in view.hyperlinkAt then Some(view.hyperlinkAt[p]) else None
  }

  /** State after a key, and the match that it selects, once the labels are up to date. */
  function Chosen(u: State, view: View, c: char): (State, Option<HintMatch>)
    requires u.hint.Some? ==> |u.labels| == |u.matches|
  {
    if u.hint == None then (u, None)
    else
      var index := LastStarting(u.labels, c);
      if index < 0 then (u, None)
      else if |u.labels[index]| == 1 then
        var bounds := u.matches[index];
        (if u.hint.value.persist then u.(keys := []) else Stopped(u),
         Some(HintMatch(bounds, HyperlinkAt(view, bounds.start), u.hint.value)))
      else (u.(keys := u.keys + [c]), None)
  }

  function Pressed(s: State, view: View, c: char): (State, Option<HintMatch>)
    requires |s.alphabet| >= 2
  {
    Chosen(Updated(Controlled(s, c), view), view, c)
  }

  /** Search the labels from the last to the first. */
  method FindLastStarting(labels: seq<string>, c: char) returns (index: int)
    ensures index == LastStarting(labels, c)
  {
    index := |labels| - 1;
    while index >= 0 && (labels[index] == [] || labels[index][0] != c)
      invariant -1 <= index < |labels|
      invariant forall j :: index < j < |labels| ==> labels[j] == [] || labels[j][0] != c
    {
      index := index - 1;
    }
  }

  /** Generate a label for every match, from the last match to the first, and take the pressed keys off it. */
  method AssignLabels(alphabet: seq<char>, count: nat, keys: string) returns (labels: seq<string>)
    requires |alphabet| >= 2
    ensures labels == Residuals(AllLabels(alphabet, count), keys)
  {
    var generator := new Generator(alphabet);
    labels := seq(count, _ => []);
    var i := count;
    while 0 < i
      invariant 0 <= i <= count == |labels|
      invariant fresh(generator) && generator.Valid() && generator.alphabet == alphabet
      invariant generator.Generated() == count - i
      invariant forall j :: i <= j < count ==> labels[j] == Residual(NthLabel(alphabet, count - 1 - j), keys)
    {
      i := i - 1;
      var word := generator.Next();
      if |word| >= |keys| && word[..|keys|] == keys {
        labels := labels[i := word[|keys|..]];
      } else {
        labels := labels[i := []];
      }
    }
  }

  class Selector {
    var hint: Option<Hint>
    var alphabet: seq<char>
    var matches: seq<Match>
    var labels: seq<string>
    var keys: string

    ghost function Value(): State
      reads this
    {
      State(hint, alphabet, matches, labels, keys)
    }

    constructor (alphabet: seq<char>)
      ensures Value() == State(None, alphabet, [], [], [])
    {
      this.alphabet := alphabet;
      hint, matches, labels, keys := None, [], [], [];
    }

    method Start(newHint: Hint)
      modifies this`hint
      ensures Value() == old(Value()).(hint := Some(newHint))
    {
      hint := Some(newHint);
    }

    method Stop()
      modifies this
      ensures Value() == Stopped(old(Value()))
    {
      matches, labels, keys, hint := [], [], [], None;
    }

    /** Recompute the visible matches and hand a residual label to each, from the last match to the first. */
    method UpdateMatches(view: View)
      requires |alphabet| >= 2
      modifies this
      ensures Value() == Updated(old(Value()), view)
    {
      if hint == None {
        return;
      }
      matches := Visible(hint.value, view);
      if matches == [] {
        Stop();
        return;
      }
      labels := AssignLabels(alphabet, |matches|, keys);
    }

    method KeyboardInput(view: View, c: char) returns (selected: Option<HintMatch>)
      requires |alphabet| >= 2
      modifies this
      ensures (Value(), selected) == Pressed(old(Value()), view, c)
    {
      if IsBackspace(c) {
        keys := if keys == [] then [] else keys[..|keys| - 1];
      } else if IsCancel(c) {
        Stop();
      }
      UpdateMatches(view);
      selected := Choose(view, c);
    }

    /** Select the match whose label ends with the key, or store the key if a longer label continues with it. */
    method Choose(view: View, c: char) returns (selected: Option<HintMatch>)
      requires hint.Some? ==> |labels| == |matches|
      modifies this
      ensures (Value(), selected) == Chosen(old(Value()), view, c)
    {
      if hint == None {
        return None;
      }
      var index := FindLastStarting(labels, c);
      if index < 0 {
        return None;
      }
      if |labels[index]| == 1 {
        var bounds := matches[index];
        var chosen := hint.value;
        if chosen.persist {
          keys := [];
        } else {
          Stop();
        }
        return Some(HintMatch(bounds, HyperlinkAt(view, bounds.start), chosen));
      } else {
        keys := keys + [c];
        return None;
      }
    }

    method UpdateAlphabet(newAlphabet: seq<char>)
      modifies this
      ensures Value() == Realphabeted(old(Value()), newAlphabet)
    {
      if alphabet != newAlphabet {
        alphabet := newAlphabet;
        keys := [];
      }
    }
  }

  function Realphabeted(s: State, alphabet: seq<char>): State {
    if s.alphabet != alphabet then s.(alphabet := alphabet, keys := []) else s
  }

  /** The alphabet is the given one; the keys survive exactly if it was before, and all else does. */
  lemma AlphabetSet(s: State, alphabet: seq<char>)
    ensures var t := Realphabeted(s, alphabet);
      && t.alphabet == alphabet && t.hint == s.hint && t.matches == s.matches && t.labels == s.labels
      && (alphabet == s.alphabet ==> t == s) && (alphabet != s.alphabet ==> t.keys == [])
  {
  }

  // ----- One key -----

  /** No label begins another, so none equals another. */
  predicate Unambiguous(words: seq<string>) {
    forall i, j :: 0 <= i < |words| && 0 <= j < |words| && words[i] <= words[j] ==> i == j
  }

  lemma AllLabelsUnambiguous(alphabet: seq<char>, count: nat)
    requires |alphabet| >= 2 && DistinctInUse(alphabet, count)
    ensures Unambiguous(AllLabels(alphabet, count))
  {
    var words := AllLabels(alphabet, count);
    forall i, j | 0 <= i < count && 0 <= j < count && words[i] <= words[j]
      ensures i == j
    {
      NthLabelsUnambiguous(alphabet, count, count - 1 - i, count - 1 - j);
    }
  }

  /** The label found for a key is the last one that the pressed keys and the new one begin. */
  lemma FoundLabel(words: seq<string>, keys: string, c: char)
    ensures var index := LastStarting(Residuals(words, keys), c);
      && (index >= 0 ==> keys + [c] <= words[index] && |Residuals(words, keys)[index]| == |words[index]| - |keys|)
      && (forall i :: 0 <= i < |words| && keys + [c] <= words[i] ==> i <= index)
  {
    var labels := Residuals(words, keys);
    forall i | 0 <= i < |words|
      ensures (labels[i] != [] && labels[i][0] == c) <==> keys + [c] <= words[i]
    {
      if keys <= words[i] && |keys| < |words[i]| {
        assert words[i][..|keys| + 1] == keys + [words[i][|keys|]];
      }
    }
  }

  /** An up-to-date state: the labels shown are the residuals of `words`. */
  predicate Shows(u: State, words: seq<string>) {
    u.hint.Some? && |u.matches| == |words| && u.labels == Residuals(words, u.keys)
  }

  /** The answer that selects match `i`. */
  function Selection(u: State, view: View, i: nat): Option<HintMatch>
    requires u.hint.Some? && i < |u.matches|
  {
    Some(HintMatch(u.matches[i], HyperlinkAt(view, u.matches[i].start), u.hint.value))
  }

  /** A key acts on the labels as a walk down their prefix tree: it selects at a leaf, moves down at an
      inner node, and is ignored where there is no branch. */
  lemma KeyWalksTree(u: State, view: View, words: seq<string>, c: char)
    requires Shows(u, words) && Unambiguous(words)
    ensures forall i :: 0 <= i < |words| && u.keys + [c] == words[i] ==>
      Chosen(u, view, c) == (if u.hint.value.persist then u.(keys := []) else Stopped(u), Selection(u, view, i))
    ensures (exists i :: 0 <= i < |words| && u.keys + [c] < words[i]) ==>
      Chosen(u, view, c) == (u.(keys := u.keys + [c]), None)
    ensures (forall i :: 0 <= i < |words| ==> !(u.keys + [c] <= words[i])) ==>
      Chosen(u, view, c) == (u, None)
  {
    FoundLabel(words, u.keys, c);
  }

  /** A key below which there are longer labels moves down. */
  lemma KeyMovesDown(u: State, view: View, words: seq<string>, c: char, i: nat)
    requires Shows(u, words) && Unambiguous(words) && i < |words| && u.keys + [c] < words[i]
    ensures Chosen(u, view, c) == (u.(keys := u.keys + [c]), None)
  {
    KeyWalksTree(u, view, words, c);
  }

  /** A key that reaches a label selects its match. */
  lemma KeySelects(u: State, view: View, words: seq<string>, c: char, i: nat)
    requires Shows(u, words) && Unambiguous(words) && i < |words| && u.keys + [c] == words[i]
    ensures Chosen(u, view, c) == (if u.hint.value.persist then u.(keys := []) else Stopped(u), Selection(u, view, i))
  {
    KeyWalksTree(u, view, words, c);
  }

  // ----- Whole sessions -----

  /** Backspace, unit separator, escape and end of text. */
  const CONTROLS: set<char> := {'\U{0008}', '\U{001f}', '\U{001b}', '\U{0003}'}

  predicate NoControls(text: string) {
    forall i :: 0 <= i < |text| ==> text[i] !in CONTROLS
  }

  /** A state brought up to date with given matches and labels. */
  function Refreshed(s: State, matches: seq<Match>, words: seq<string>): State {
    s.(matches := matches, labels := Residuals(words, s.keys))
  }

  /** State and answers of a sequence of keys, for fixed matches and labels. */
  function Walked(s: State, view: View, matches: seq<Match>, words: seq<string>, text: string)
    : (r: (State, seq<Option<HintMatch>>))
    requires |matches| == |words|
    ensures |r.1| == |text|
    decreases |text|
  {
    if text == [] then (s, [])
    else
      var (before, answers) := Walked(s, view, matches, words, text[..|text| - 1]);
      if before.hint == None then (before, answers + [None])
      else
        var (after, answer) := Chosen(Refreshed(before, matches, words), view, text[|text| - 1]);
        (after, answers + [answer])
  }

  lemma WalkedOneMore(s: State, view: View, matches: seq<Match>, words: seq<string>, text: string, c: char)
    requires |matches| == |words|
    ensures var (before, answers) := Walked(s, view, matches, words, text);
      Walked(s, view, matches, words, text + [c])
      == if before.hint == None then (before, answers + [None])
         else (Chosen(Refreshed(before, matches, words), view, c).0,
               answers + [Chosen(Refreshed(before, matches, words), view, c).1])
  {
    assert (text + [c])[..|text + [c]| - 1] == text;
  }

  /** No answer but the last, which selects the given match. */
  predicate OnlyLastSelects(answers: seq<Option<HintMatch>>, view: View, bounds: Match, hint: Hint) {
    && |answers| >= 1
    && (forall k :: 0 <= k < |answers| - 1 ==> answers[k] == None)
    && answers[|answers| - 1]
       == Some(HintMatch(
            bounds, if bounds.start in view.hyperlinkAt then Some(view.hyperlinkAt[bounds.start]) else None, hint))
  }

  /** Typing `text` answered nothing and stored every key. */
  predicate WalkedQuietly(s: State, view: View, matches: seq<Match>, words: seq<string>, text: string)
    requires |matches| == |words|
  {
    var (after, answers) := Walked(s, view, matches, words, text);
    && after.hint == s.hint && after.alphabet == s.alphabet && after.keys == text
    && forall k :: 0 <= k < |answers| ==> answers[k] == None
  }

  /** One more key of a proper beginning. */
  lemma WalkedDeeper(
    s: State, view: View, matches: seq<Match>, words: seq<string>, i: nat, text: string, c: char)
    requires s.hint.Some? && |matches| == |words| && Unambiguous(words) && i < |words| && text + [c] < words[i]
    requires WalkedQuietly(s, view, matches, words, text)
    ensures WalkedQuietly(s, view, matches, words, text + [c])
  {
    WalkedOneMore(s, view, matches, words, text, c);
    KeyMovesDown(Refreshed(Walked(s, view, matches, words, text).0, matches, words), view, words, c, i);
  }

  /** Walking down a proper beginning of a label selects nothing and stores it. */
  lemma {:induction false} WalkedPrefix(
    s: State, view: View, matches: seq<Match>, words: seq<string>, i: nat, k: nat)
    requires s.hint.Some? && s.keys == [] && |matches| == |words| && Unambiguous(words)
    requires i < |words| && k < |words[i]|
    ensures WalkedQuietly(s, view, matches, words, words[i][..k])
  {
    var word := words[i];
    if k == 0 {
      assert word[..0] == [];
    } else {
      WalkedPrefix(s, view, matches, words, i, k - 1);
      assert word[..k] == word[..k - 1] + [word[k - 1]];
      WalkedDeeper(s, view, matches, words, i, word[..k - 1], word[k - 1]);
    }
  }

  /** The last key of a label. */
  lemma WalkedToEnd(
    s: State, view: View, matches: seq<Match>, words: seq<string>, i: nat, text: string, c: char)
    requires s.hint.Some? && |matches| == |words| && Unambiguous(words) && i < |words| && text + [c] == words[i]
    requires WalkedQuietly(s, view, matches, words, text)
    ensures var (after, answers) := Walked(s, view, matches, words, text + [c]);
      && OnlyLastSelects(answers, view, matches[i], s.hint.value)
      && after.keys == []
      && after.hint == if s.hint.value.persist then s.hint else None
  {
    WalkedOneMore(s, view, matches, words, text, c);
    KeySelects(Refreshed(Walked(s, view, matches, words, text).0, matches, words), view, words, c, i);
  }

  /** Walking down a whole label selects its match with the last key. */
  lemma WalkedLabel(s: State, view: View, matches: seq<Match>, words: seq<string>, i: nat)
    requires s.hint.Some? && s.keys == [] && |matches| == |words| && Unambiguous(words)
    requires i < |words| && |words[i]| >= 1
    ensures var (after, answers) := Walked(s, view, matches, words, words[i]);
      && OnlyLastSelects(answers, view, matches[i], s.hint.value)
      && after.keys == []
      && after.hint == if s.hint.value.persist then s.hint else None
  {
    var word, k := words[i], |words[i]| - 1;
    WalkedPrefix(s, view, matches, words, i, k);
    assert word == word[..k] + [word[k]];
    WalkedToEnd(s, view, matches, words, i, word[..k], word[k]);
  }

  /** State and answers of a sequence of keys, with the matches recomputed at each key. */
  function Typed(s: State, view: View, text: string): (r: (State, seq<Option<HintMatch>>))
    requires |s.alphabet| >= 2
    ensures r.0.alphabet == s.alphabet && |r.1| == |text|
    decreases |text|
  {
    if text == [] then (s, [])
    else
      var (before, answers) := Typed(s, view, text[..|text| - 1]);
      var (after, answer) := Pressed(before, view, text[|text| - 1]);
      (after, answers + [answer])
  }

  /** The labels of the visible matches. */
  function Labels(s: State, view: View): seq<string>
    requires |s.alphabet| >= 2 && s.hint.Some?
  {
    AllLabels(s.alphabet, |Visible(s.hint.value, view)|)
  }

  /** A selection in progress with at least one visible match and a usable alphabet. */
  predicate Selecting(s: State, view: View) {
    && |s.alphabet| >= 2 && NoControls(s.alphabet)
    && s.hint.Some? && Visible(s.hint.value, view) != []
  }

  /** Pressing an ordinary key is choosing from a state brought up to date. */
  lemma PressedIsChosen(s: State, view: View, c: char)
    requires Selecting(s, view) && c !in CONTROLS
    ensures Pressed(s, view, c) == Chosen(Refreshed(s, Visible(s.hint.value, view), Labels(s, view)), view, c)
  {
  }

  /** For a view that stays the same, typing ordinary keys is walking through its labels. */
  lemma {:induction false} TypedIsWalked(s: State, view: View, text: string)
    requires Selecting(s, view) && NoControls(text)
    ensures Typed(s, view, text) == Walked(s, view, Visible(s.hint.value, view), Labels(s, view), text)
    ensures Typed(s, view, text).0.hint in {s.hint, None}
    decreases |text|
  {
    if text != [] {
      TypedIsWalked(s, view, text[..|text| - 1]);
      var before := Typed(s, view, text[..|text| - 1]).0;
      if before.hint == s.hint {
        PressedIsChosen(before, view, text[|text| - 1]);
      }
    }
  }

  lemma LabelCharacters(alphabet: seq<char>, rank: nat)
    requires |alphabet| >= 2 && NoControls(alphabet)
    ensures NoControls(NthLabel(alphabet, rank))
  {
    WheelsOf(alphabet).IndicesInRange(WheelsOf(alphabet).Nth(rank));
  }

  /** Typing `text` answers once, with its last key, and selects exactly match `i`. */
  predicate SelectsExactly(s: State, view: View, text: string, i: nat)
    requires |s.alphabet| >= 2 && s.hint.Some? && i < |Visible(s.hint.value, view)|
  {
    OnlyLastSelects(Typed(s, view, text).1, view, Visible(s.hint.value, view)[i], s.hint.value)
  }

  /** Main result: typing the label of match `i` selects exactly match `i`, at the last key and not before. */
  lemma TypingLabelSelects(s: State, view: View, i: nat)
    requires Selecting(s, view) && s.keys == [] && i < |Visible(s.hint.value, view)|
    requires DistinctInUse(s.alphabet, |Visible(s.hint.value, view)|)
    ensures SelectsExactly(s, view, Labels(s, view)[i], i)
    ensures Typed(s, view, Labels(s, view)[i]).0.keys == []
    ensures Typed(s, view, Labels(s, view)[i]).0.hint == if s.hint.value.persist then s.hint else None
  {
    var matches, words := Visible(s.hint.value, view), Labels(s, view);
    AllLabelsUnambiguous(s.alphabet, |matches|);
    LabelCharacters(s.alphabet, |matches| - 1 - i);
    WalkedLabel(s, view, matches, words, i);
    TypedIsWalked(s, view, words[i]);
  }

  lemma PrefixContains(keys: string, c: char, word: string)
    requires keys + [c] <= word
    ensures c in word
  {
    assert word[|keys|] == c;
  }

  /** Where no label continues with the key, only the matches are brought up to date. */
  lemma KeyOutsideLabels(u: State, view: View, words: seq<string>, c: char)
    requires Shows(u, words) && forall i :: 0 <= i < |words| ==> c !in words[i]
    ensures Chosen(u, view, c) == (u, None)
  {
    FoundLabel(words, u.keys, c);
    var index := LastStarting(u.labels, c);
    if index >= 0 {
      PrefixContains(u.keys, c, words[index]);
    }
  }

  /** An erased key leaves the state to be brought up to date. */
  lemma EraseUpdates(s: State, view: View, c: char, erase: char)
    requires Selecting(s, view) && erase in {'\U{0008}', '\U{001f}'}
    ensures var u := Refreshed(s, Visible(s.hint.value, view), Labels(s, view));
      Updated(Controlled(u.(keys := s.keys + [c]), erase), view) == u == Updated(s, view)
  {
    assert (s.keys + [c])[..|s.keys|] == s.keys;
  }

  /** Erasing the last key undoes a key that only extended the pressed keys. */
  lemma BackspaceUndoes(s: State, view: View, c: char, i: nat, erase: char)
    requires Selecting(s, view) && DistinctInUse(s.alphabet, |Visible(s.hint.value, view)|)
    requires c !in CONTROLS && erase in {'\U{0008}', '\U{001f}'}
    requires i < |Labels(s, view)| && s.keys + [c] < Labels(s, view)[i]
    ensures Pressed(Pressed(s, view, c).0, view, erase) == (Updated(s, view), None)
  {
    var matches, words := Visible(s.hint.value, view), Labels(s, view);
    var u := Refreshed(s, matches, words);
    AllLabelsUnambiguous(s.alphabet, |words|);
    PressedIsChosen(s, view, c);
    KeyMovesDown(u, view, words, c, i);
    EraseUpdates(s, view, c, erase);
    EraseOutsideLabels(s, view, erase);
  }

  lemma EraseOutsideLabels(s: State, view: View, erase: char)
    requires Selecting(s, view) && erase in {'\U{0008}', '\U{001f}'}
    ensures var u := Refreshed(s, Visible(s.hint.value, view), Labels(s, view));
      Chosen(u, view, erase) == (u, None)
  {
    var words := Labels(s, view);
    forall j | 0 <= j < |words|
      ensures erase !in words[j]
    {
      LabelCharacters(s.alphabet, |words| - 1 - j);
    }
    KeyOutsideLabels(Refreshed(s, Visible(s.hint.value, view), words), view, words, erase);
  }

  /** Without a hint keys do nothing; without a match the hint ends. */
  lemma NothingToSelect(s: State, view: View, c: char)
    requires |s.alphabet| >= 2 && c !in CONTROLS
    ensures s.hint == None ==> Pressed(s, view, c) == (s, None)
    ensures s.hint.Some? && (forall m :: !Sought(s.hint.value, view, m)) ==>
      Pressed(s, view, c) == (State(None, s.alphabet, [], [], []), None)
  {
    if s.hint.Some? {
      VisibleMatches(s.hint.value, view);
    }
  }

  /** Escape and end of text leave the selection, whatever is going on. */
  lemma CancelStops(s: State, view: View, c: char)
    requires |s.alphabet| >= 2 && c in {'\U{001b}', '\U{0003}'}
    ensures Pressed(s, view, c) == (State(None, s.alphabet, [], [], []), None)
  {
  }

  /** Backspace and unit separator take back the last key, if any, and select nothing. */
  lemma BackspaceErases(s: State, view: View, erase: char)
    requires Selecting(s, view) && erase in {'\U{0008}', '\U{001f}'}
    ensures Pressed(s, view, erase)
         == (Updated(s.(keys := if s.keys == [] then [] else s.keys[..|s.keys| - 1]), view), None)
  {
    var t := s.(keys := if s.keys == [] then [] else s.keys[..|s.keys| - 1]);
    EraseOutsideLabels(t, view, erase);
  }

  /** When a later label continues with the key too, the key cannot answer with an earlier match. */
  lemma LaterLabelWins(u: State, view: View, words: seq<string>, c: char, i: nat, j: nat)
    requires Shows(u, words) && StartsIncrease(u.matches)
    requires i < j < |words| && u.keys + [c] <= words[j]
    ensures var (after, answer) := Chosen(u, view, c);
      if answer == None then after == u.(keys := u.keys + [c]) else answer.value.bounds != u.matches[i]
  {
    FoundLabel(words, u.keys, c);
  }

  /** A label that is at most one key away wins over every longer one. */
  lemma ShortLabelWins(u: State, view: View, words: seq<string>, c: char, j: nat)
    requires Shows(u, words) && j < |words| && u.keys + [c] == words[j]
    requires forall k :: j <= k < |words| ==> |words[k]| <= |words[j]|
    ensures Chosen(u, view, c).1.Some?
  {
    FoundLabel(words, u.keys, c);
  }

  /** The answer to one key. */
  lemma WalkedSingle(s: State, view: View, matches: seq<Match>, words: seq<string>, c: char)
    requires s.hint.Some? && |matches| == |words|
    ensures Walked(s, view, matches, words, [c])
         == (Chosen(Refreshed(s, matches, words), view, c).0, [Chosen(Refreshed(s, matches, words), view, c).1])
  {
    WalkedOneMore(s, view, matches, words, [], c);
    assert [] + [c] == [c];
    var answer := Chosen(Refreshed(s, matches, words), view, c).1;
    assert [] + [answer] == [answer];
  }

  /** A one-key label that a later match has too does not select its match. */
  lemma SingleClash(s: State, view: View, matches: seq<Match>, words: seq<string>, i: nat, j: nat, c: char)
    requires s.hint.Some? && s.keys == [] && |matches| == |words| && StartsIncrease(matches)
    requires i < j < |words| && words[j] == [c]
    ensures !OnlyLastSelects(Walked(s, view, matches, words, [c]).1, view, matches[i], s.hint.value)
  {
    LaterLabelWins(Refreshed(s, matches, words), view, words, c, i, j);
    WalkedSingle(s, view, matches, words, c);
  }

  /** The answers to two keys. */
  lemma WalkedPair(s: State, view: View, matches: seq<Match>, words: seq<string>, c: char, d: char)
    requires s.hint.Some? && |matches| == |words|
    ensures var (t, answer) := Chosen(Refreshed(s, matches, words), view, c);
      Walked(s, view, matches, words, [c, d]).1
      == [answer, if t.hint == None then None else Chosen(Refreshed(t, matches, words), view, d).1]
  {
    WalkedSingle(s, view, matches, words, c);
    WalkedOneMore(s, view, matches, words, [c], d);
    assert [c] + [d] == [c, d];
  }

  /** A two-key label whose first key is a later match's whole label does not select its match. */
  lemma FirstKeyClash(
    s: State, view: View, matches: seq<Match>, words: seq<string>, i: nat, j: nat, c: char, d: char)
    requires s.hint.Some? && s.keys == [] && |matches| == |words|
    requires i < j < |words| && words[j] == [c]
    requires forall k :: j <= k < |words| ==> |words[k]| <= |words[j]|
    ensures !OnlyLastSelects(Walked(s, view, matches, words, [c, d]).1, view, matches[i], s.hint.value)
  {
    ShortLabelWins(Refreshed(s, matches, words), view, words, c, j);
    WalkedPair(s, view, matches, words, c, d);
    assert Walked(s, view, matches, words, [c, d]).1[0].Some?;
  }

  /** A two-key label that a later match has too does not select its match. */
  lemma PairClash(
    s: State, view: View, matches: seq<Match>, words: seq<string>, i: nat, j: nat, c: char, d: char)
    requires s.hint.Some? && s.keys == [] && |matches| == |words| && StartsIncrease(matches)
    requires i < j < |words| && words[j] == [c, d]
    ensures !OnlyLastSelects(Walked(s, view, matches, words, [c, d]).1, view, matches[i], s.hint.value)
  {
    assert [] + [c] <= [c, d] && ([] + [c]) + [d] == [c, d];
    LaterLabelWins(Refreshed(s, matches, words), view, words, c, i, j);
    WalkedPair(s, view, matches, words, c, d);
    var t := Chosen(Refreshed(s, matches, words), view, c).0;
    var answers := Walked(s, view, matches, words, [c, d]).1;
    if answers[0] == None {
      LaterLabelWins(Refreshed(t, matches, words), view, words, d, i, j);
      assert answers[1] == Chosen(Refreshed(t, matches, words), view, d).1;
    }
  }

  /** Index sequence of the first label that uses alphabet index `x`. */
  function FirstUse(w: Wheels, x: nat): seq<nat> {
    if x <= w.split then [x] else [0, x]
  }

  lemma FirstUseRanked(w: Wheels, x: nat)
    requires w.Valid() && x < w.size
    ensures w.WellFormed(FirstUse(w, x))
    ensures w.Rank(FirstUse(w, x)) == FirstUseRank(w.split, x)
  {
    assert [0, x][1..] == [x] && [x][1..] == [];
    assert x > w.split ==> w.HeadRank([x]) == x - w.split + w.Heads() * w.HeadRank([]);
  }

  /** The first label that uses a character. */
  lemma FirstLabelWith(alphabet: seq<char>, x: nat)
    requires |alphabet| >= 2 && x < |alphabet| && WheelsOf(alphabet).WellFormed(FirstUse(WheelsOf(alphabet), x))
    ensures NthLabel(alphabet, WheelsOf(alphabet).Rank(FirstUse(WheelsOf(alphabet), x)))
         == if x <= WheelsOf(alphabet).split then [alphabet[x]] else [alphabet[x], alphabet[0]]
  {
    LabelAtRank(alphabet, FirstUse(WheelsOf(alphabet), x));
  }

  /** The first label that uses a character belongs to a match, counted from the last one. */
  lemma MatchOfFirstUse(alphabet: seq<char>, count: nat, x: nat) returns (i: nat)
    requires |alphabet| >= 2 && x < |alphabet| && FirstUseRank(WheelsOf(alphabet).split, x) < count
    ensures i == count - 1 - FirstUseRank(WheelsOf(alphabet).split, x)
    ensures AllLabels(alphabet, count)[i]
         == if x <= WheelsOf(alphabet).split then [alphabet[x]] else [alphabet[x], alphabet[0]]
  {
    FirstUseRanked(WheelsOf(alphabet), x);
    FirstLabelWith(alphabet, x);
    i := count - 1 - FirstUseRank(WheelsOf(alphabet).split, x);
  }

  /** A repeated character gives two clashing labels. */
  lemma ClashingLabels(alphabet: seq<char>, count: nat, a: nat, b: nat) returns (i: nat, j: nat)
    requires |alphabet| >= 2 && a < b < |alphabet| && alphabet[a] == alphabet[b]
    requires FirstUseRank(WheelsOf(alphabet).split, b) < count
    ensures i < j < count
    ensures AllLabels(alphabet, count)[i] in {[alphabet[a]], [alphabet[a], alphabet[0]]}
    ensures AllLabels(alphabet, count)[j] in {[alphabet[a]], AllLabels(alphabet, count)[i]}
  {
    FirstUseRankIncreases(WheelsOf(alphabet).split, a, b);
    i := MatchOfFirstUse(alphabet, count, b);
    j := MatchOfFirstUse(alphabet, count, a);
  }

  /** Later matches have labels that are no longer. */
  lemma AllLabelsShrink(alphabet: seq<char>, count: nat, j: nat)
    requires |alphabet| >= 2 && j < count
    ensures forall k :: j <= k < count ==> |AllLabels(alphabet, count)[k]| <= |AllLabels(alphabet, count)[j]|
  {
    forall k | j <= k < count
      ensures |AllLabels(alphabet, count)[k]| <= |AllLabels(alphabet, count)[j]|
    {
      LabelsGrow(alphabet, count - 1 - k, count - 1 - j);
    }
  }

  /** A repeated character that the visible labels use makes one of them useless: typing it does not select
      exactly its match. */
  lemma RepeatLosesMatch(s: State, view: View, a: nat, b: nat) returns (i: nat)
    requires Selecting(s, view) && s.keys == []
    requires a < b < |s.alphabet| && s.alphabet[a] == s.alphabet[b]
    requires FirstUseRank(WheelsOf(s.alphabet).split, b) < |Visible(s.hint.value, view)|
    ensures i < |Visible(s.hint.value, view)| && !SelectsExactly(s, view, Labels(s, view)[i], i)
  {
    var j;
    i, j := ClashingLabels(s.alphabet, |Visible(s.hint.value, view)|, a, b);
    AllLabelsShrink(s.alphabet, |Visible(s.hint.value, view)|, j);
    VisibleMatches(s.hint.value, view);
    var matches, words, c, d := Visible(s.hint.value, view), Labels(s, view), s.alphabet[a], s.alphabet[0];
    if words[i] == [c] {
      SingleClash(s, view, matches, words, i, j, c);
    } else if words[j] == [c] {
      FirstKeyClash(s, view, matches, words, i, j, c, d);
    } else {
      PairClash(s, view, matches, words, i, j, c, d);
    }
    LabelCharacters(s.alphabet, |Visible(s.hint.value, view)| - 1 - i);
    TypedIsWalked(s, view, Labels(s, view)[i]);
  }

  /** Main result: for every number of matches, each label selects exactly its match if and only if the labels use
      no two equal characters of the alphabet. */
  lemma AllLabelsSelectIff(s: State, view: View)
    requires Selecting(s, view) && s.keys == []
    ensures (forall i :: 0 <= i < |Visible(s.hint.value, view)| ==> SelectsExactly(s, view, Labels(s, view)[i], i))
       <==> DistinctInUse(s.alphabet, |Visible(s.hint.value, view)|)
  {
    var count := |Visible(s.hint.value, view)|;
    if DistinctInUse(s.alphabet, count) {
      forall i | 0 <= i < count
        ensures SelectsExactly(s, view, Labels(s, view)[i], i)
      {
        TypingLabelSelects(s, view, i);
      }
    } else {
      var a, b :| 0 <= a < b < |s.alphabet| && s.alphabet[a] == s.alphabet[b]
                  && FirstUseRank(WheelsOf(s.alphabet).split, b) < count;
      var i := RepeatLosesMatch(s, view, a, b);
    }
  }

  // ----- Every run -----

  datatype Event =
    | StartHint(hint: Hint)
    | Refresh(view: View)
    | Key(view: View, c: char)
    | SetAlphabet(alphabet: seq<char>)

  predicate LawfulEvent(e: Event) {
    e.SetAlphabet? ==> |e.alphabet| >= 2
  }

  function Handled(s: State, e: Event): State
    requires |s.alphabet| >= 2
  {
    match e
    case StartHint(hint) => s.(hint := Some(hint))
    case Refresh(view) => Updated(s, view)
    case Key(view, c) => Pressed(s, view, c).0
    case SetAlphabet(alphabet) => Realphabeted(s, alphabet)
  }

  predicate KeysAreHeads(s: State) {
    |s.alphabet| >= 2 && OnlyHeads(s.alphabet, s.keys)
  }

  /** A key that is stored is one that a label continues after. */
  lemma ChosenKeepsHeads(u: State, view: View, words: seq<string>, c: char)
    requires KeysAreHeads(u) && Shows(u, words)
    requires forall i :: 0 <= i < |words| ==> IsLabel(u.alphabet, words[i])
    ensures KeysAreHeads(Chosen(u, view, c).0)
  {
    FoundLabel(words, u.keys, c);
    var index := LastStarting(u.labels, c);
    if index >= 0 && |u.labels[index]| > 1 {
      var word := words[index];
      assert word[..|word| - 1][|u.keys|] == c;
    }
  }

  lemma AllLabelsShaped(alphabet: seq<char>, count: nat)
    requires |alphabet| >= 2
    ensures forall i :: 0 <= i < count ==> IsLabel(alphabet, AllLabels(alphabet, count)[i])
  {
    forall i | 0 <= i < count
      ensures IsLabel(alphabet, AllLabels(alphabet, count)[i])
    {
      NthLabelShape(alphabet, count - 1 - i);
    }
  }

  lemma ControlledKeepsHeads(s: State, view: View, c: char)
    requires KeysAreHeads(s)
    ensures KeysAreHeads(Updated(Controlled(s, c), view))
  {
  }

  lemma KeyKeepsHeads(s: State, view: View, c: char)
    requires KeysAreHeads(s)
    ensures KeysAreHeads(Pressed(s, view, c).0)
  {
    ControlledKeepsHeads(s, view, c);
    var u := Updated(Controlled(s, c), view);
    if u.hint.Some? {
      AllLabelsShaped(u.alphabet, |u.matches|);
      ChosenKeepsHeads(u, view, AllLabels(u.alphabet, |u.matches|), c);
    }
  }

  lemma KeepKeysHeads(s: State, e: Event)
    requires KeysAreHeads(s) && LawfulEvent(e)
    ensures KeysAreHeads(Handled(s, e))
  {
    if e.Key? {
      KeyKeepsHeads(s, e.view, e.c);
    }
  }

  function HandledAll(s: State, events: seq<Event>): State
    requires |s.alphabet| >= 2
  {
    if events == [] then s
    else
      var t := HandledAll(s, events[..|events| - 1]);
      if |t.alphabet| >= 2 then Handled(t, events[|events| - 1]) else t
  }

  /** In every reachable state the pressed keys come from the half that never ends a label. */
  lemma {:induction false} KeysAlwaysHeads(alphabet: seq<char>, events: seq<Event>)
    requires |alphabet| >= 2 && forall i :: 0 <= i < |events| ==> LawfulEvent(events[i])
    ensures KeysAreHeads(HandledAll(State(None, alphabet, [], [], []), events))
  {
    if events != [] {
      KeysAlwaysHeads(alphabet, events[..|events| - 1]);
      KeepKeysHeads(HandledAll(State(None, alphabet, [], [], []), events[..|events| - 1]), events[|events| - 1]);
    }
  }
}
