/** The moving cursor that tells, cell after cell, whether a cell belongs to a match. */
module HintMatches {
  import opened Index
  import opened HintState

  predicate SortedByStart(matches: seq<Match>) {
    forall i, j :: 0 <= i < j < |matches| ==> matches[i].start.AtMost(matches[j].start)
  }

  predicate Within(m: Match, p: Point) {
    m.start.AtMost(p) && p.AtMost(m.end)
  }

  /** The plain search that the cursor replaces. */
  predicate InSomeMatch(matches: seq<Match>, p: Point) {
    exists m :: m in matches && Within(m, p)
  }

  predicate Nondecreasing(points: seq<Point>) {
    forall i, j :: 0 <= i < j < |points| ==> points[i].AtMost(points[j])
  }

  class Cursor {
    const matches: seq<Match>
    var index: nat

    /** Every match left behind ends before `p`. */
    ghost predicate PassedBefore(p: Point)
      reads this
    {
      index <= |matches| && forall i :: 0 <= i < index ==> matches[i].end.Before(p)
    }

    constructor (matches: seq<Match>)
      ensures this.matches == matches && forall p :: PassedBefore(p)
    {
      this.matches := matches;
      index := 0;
    }

    method Advance(p: Point) returns (inside: bool)
      requires SortedByStart(matches) && PassedBefore(p)
      modifies this`index
      ensures PassedBefore(p) && index >= old(index)
      ensures inside <==> InSomeMatch(matches, p)
    {
      while index < |matches|
        invariant PassedBefore(p) && index >= old(index)
      {
        var bounds := matches[index];
        if p.Before(bounds.start) {
          break;
        } else if bounds.end.Before(p) {
          index := index + 1;
        } else {
          assert Within(bounds, p);
          return true;
        }
      }
      forall m | m in matches
        ensures !Within(m, p)
      {
        var i :| 0 <= i < |matches| && matches[i] == m;
        assert i > index ==> matches[index].start.AtMost(m.start);
      }
      return false;
    }
  }

  /** Over any nondecreasing run of cells the cursor answers like a search of all matches; matches may overlap. */
  method Highlight(matches: seq<Match>, points: seq<Point>) returns (inside: seq<bool>)
    requires SortedByStart(matches) && Nondecreasing(points)
    ensures |inside| == |points|
    ensures forall i :: 0 <= i < |points| ==> (inside[i] <==> InSomeMatch(matches, points[i]))
  {
    var cursor := new Cursor(matches);
    inside := [];
    while |inside| < |points|
      invariant fresh(cursor) && cursor.matches == matches && |inside| <= |points|
      invariant forall k :: |inside| <= k < |points| ==> cursor.PassedBefore(points[k])
      invariant forall i :: 0 <= i < |inside| ==> (inside[i] <==> InSomeMatch(matches, points[i]))
    {
      var flag := cursor.Advance(points[|inside|]);
      inside := inside + [flag];
    }
  }

  /** The matches of a keyboard hint are in the order that the cursor needs. */
  lemma VisibleSortedByStart(hint: Hint, view: View)
    ensures SortedByStart(Visible(hint, view))
  {
    VisibleMatches(hint, view);
  }
}
