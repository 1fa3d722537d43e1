/** The ring buffer of rows behind the grid: rotating all lines only moves the ring's zero. */
module Storage {
  import opened Arith
  import opened Rows

  const MAX_CACHE_SIZE: nat := 1000

  /** A ring read from its zero. Index 0 is the bottommost line, later indices are higher lines, and the last
      ones are cached rows that belong to no line. */
  function Unrolled<T>(inner: seq<T>, zero: nat): seq<T>
    requires zero <= |inner|
  {
    inner[zero..] + inner[..zero]
  }

  /** A ring turned left by `k`. */
  function Turned<T>(ring: seq<T>, k: nat): seq<T>
    requires k <= |ring|
  {
    ring[k..] + ring[..k]
  }

  /** A ring turned right by `k`. */
  function TurnedUp<T>(ring: seq<T>, k: nat): seq<T>
    requires k <= |ring|
  {
    Turned(ring, |ring| - k)
  }

  function Exchanged<T>(s: seq<T>, i: nat, j: nat): seq<T>
    requires i < |s| && j < |s|
  {
    s[i := s[j]][j := s[i]]
  }

  /** Where an unrolled index is in a buffer of `n` rows, without a division. */
  function BufferIndex(n: nat, zero: nat, i: nat): (at: nat)
    requires zero < n && i < n
    ensures at < n
  {
    if zero + i >= n then zero + i - n else zero + i
  }

  lemma UnrolledAt<T>(inner: seq<T>, zero: nat, i: nat, x: T)
    requires zero < |inner| && i < |inner|
    ensures Unrolled(inner, zero)[i] == inner[BufferIndex(|inner|, zero, i)]
    ensures Unrolled(inner[BufferIndex(|inner|, zero, i) := x], zero) == Unrolled(inner, zero)[i := x]
  {
  }

  /** Moving the zero forward turns the ring. */
  lemma MoveZero<T>(inner: seq<T>, zero: nat, k: nat)
    requires zero < |inner| && k <= |inner|
    ensures (zero + k) % |inner| < |inner|
    ensures Unrolled(inner, (zero + k) % |inner|) == Turned(Unrolled(inner, zero), k)
  {
    var n := |inner|;
    if zero + k < n {
      DivModUnique(zero + k, n, 0, zero + k);
    } else {
      DivModUnique(zero + k, n, 1, zero + k - n);
    }
  }

  class Storage {
    var inner: seq<Row>
    var zero: nat
    var visibleLines: nat
    var len: nat

    /** The buffer holds the lines and a limited number of cached rows. */
    ghost predicate Valid()
      reads this
    {
      zero < |inner| && 1 <= visibleLines <= len <= |inner| <= len + MAX_CACHE_SIZE
    }

    ghost function Ring(): (r: seq<Row>)
      requires zero < |inner|
      reads this
      ensures |r| == |inner|
    {
      Unrolled(inner, zero)
    }

    constructor (visibleLines: nat, columns: nat)
      requires visibleLines >= 1
      ensures Valid() && this.visibleLines == visibleLines == len
      ensures Ring() == Repeat(visibleLines, NewRow(columns))
    {
      inner := Repeat(visibleLines, NewRow(columns));
      zero := 0;
      this.visibleLines := visibleLines;
      len := visibleLines;
    }

    /** Index in the ring of a line of the terminal. */
    function Height(line: int): int
      reads this
    {
      visibleLines - 1 - line
    }

    method ComputeIndex(line: int) returns (index: nat)
      requires Valid() && 0 <= Height(line) < len
      ensures index == BufferIndex(|inner|, zero, Height(line))
    {
      var positive := -(line - visibleLines) - 1;
      var zeroed := zero + positive;
      index := if zeroed >= |inner| then zeroed - |inner| else zeroed;
    }

    /** Exchange two lines. */
    method Swap(a: int, b: int)
      requires Valid() && 0 <= Height(a) < len && 0 <= Height(b) < len
      modifies this`inner
      ensures Valid() && |inner| == old(|inner|)
      ensures Ring() == Exchanged(old(Ring()), Height(a), Height(b))
    {
      var i := ComputeIndex(a);
      var j := ComputeIndex(b);
      ghost var ring := Ring();
      UnrolledAt(inner, zero, Height(a), inner[j]);
      UnrolledAt(inner, zero, Height(b), inner[i]);
      var rowA, rowB := inner[i], inner[j];
      inner := inner[i := rowB];
      UnrolledAt(inner, zero, Height(b), rowA);
      inner := inner[j := rowA];
    }

    /** Reset a line to the template. */
    method ResetLine(line: int, template: Cell)
      requires Valid() && 0 <= Height(line) < len
      requires var row := Ring()[Height(line)]; |row.cells| >= 1 && row.occ <= |row.cells|
      modifies this`inner
      ensures Valid() && |inner| == old(|inner|)
      ensures Ring() == old(Ring())[Height(line) := old(Ring())[Height(line)].Reset(template)]
    {
      var i := ComputeIndex(line);
      UnrolledAt(inner, zero, Height(line), inner[i]);
      UnrolledAt(inner, zero, Height(line), inner[i].Reset(template));
      inner := inner[i := inner[i].Reset(template)];
    }

    /** Write one cell of a line. */
    method WriteCell(line: int, column: nat, cell: Cell)
      requires Valid() && 0 <= Height(line) < len && column < |Ring()[Height(line)].cells|
      modifies this`inner
      ensures Valid() && |inner| == old(|inner|)
      ensures Ring() == old(Ring())[Height(line) := old(Ring())[Height(line)].Write(column, [cell])]
    {
      var i := ComputeIndex(line);
      UnrolledAt(inner, zero, Height(line), inner[i]);
      UnrolledAt(inner, zero, Height(line), inner[i].Write(column, [cell]));
      inner := inner[i := inner[i].Write(column, [cell])];
    }

    /** Turn the ring, to the left for positive counts. */
    method Rotate(count: int)
      requires Valid() && -|inner| <= count <= |inner|
      modifies this`zero
      ensures Valid()
      ensures Ring() == Turned(old(Ring()), if count >= 0 then count else count + |inner|)
    {
      if count >= 0 {
        ModShift(zero + count, 1, |inner|);
        MoveZero(inner, zero, count);
      } else {
        MoveZero(inner, zero, count + |inner|);
      }
      zero := (zero + count + |inner|) % |inner|;
    }

    method RotateDown(count: nat)
      requires Valid() && count <= |inner|
      modifies this`zero
      ensures Valid() && Ring() == Turned(old(Ring()), count)
    {
      MoveZero(inner, zero, count);
      zero := (zero + count) % |inner|;
    }

    /** Turn the buffer itself so that the zero is at its start. */
    method Rezero()
      requires zero < |inner|
      modifies this`inner, this`zero
      ensures zero == 0 < |inner| && Ring() == inner == old(Ring())
    {
      if zero == 0 {
        return;
      }
      inner := inner[zero..] + inner[..zero];
      zero := 0;
    }

    /** Add lines above the topmost one, from cached rows or, when they do not suffice, from fresh ones. */
    method Initialize(additional: nat, columns: nat)
      requires Valid()
      modifies this`inner, this`zero, this`len
      ensures Valid() && len == old(len) + additional
      ensures |Ring()| >= old(|Ring()|) && Ring()[..old(|inner|)] == old(Ring())
      ensures |inner| == old(|inner|) + if len <= old(|inner|) then 0 else Max(additional, MAX_CACHE_SIZE)
      ensures forall i :: old(|inner|) <= i < |inner| ==> Ring()[i] == NewRow(columns)
    {
      if len + additional > |inner| {
        Rezero();
        var realloc := |inner| + Max(additional, MAX_CACHE_SIZE);
        inner := inner + Repeat(realloc - |inner|, NewRow(columns));
      }
      len := len + additional;
    }

    method Truncate()
      requires zero < |inner| && 1 <= len <= |inner|
      modifies this`inner, this`zero
      ensures zero < |inner| == len && Ring() == old(Ring())[..len]
    {
      Rezero();
      inner := inner[..len];
    }

    /** Drop the topmost lines; their rows stay cached unless there are too many. */
    method ShrinkLines(shrinkage: nat)
      requires Valid() && visibleLines <= len - shrinkage
      modifies this`inner, this`zero, this`len
      ensures Valid() && len == old(len) - shrinkage
      ensures |inner| == if old(|inner|) > len + MAX_CACHE_SIZE then len else old(|inner|)
      ensures Ring() == old(Ring())[..|inner|]
    {
      len := len - shrinkage;
      if |inner| > len + MAX_CACHE_SIZE {
        Truncate();
      }
    }

    /** Add visible lines; rows are added above the topmost line. */
    method GrowVisibleLines(next: nat)
      requires Valid() && visibleLines <= next
      modifies this
      ensures Valid() && visibleLines == next && len == old(len) + (next - old(visibleLines))
      ensures |Ring()| >= old(|Ring()|) && Ring()[..old(|inner|)] == old(Ring())
      ensures forall i :: old(|inner|) <= i < |inner| ==> Ring()[i] == NewRow(|old(Ring()[visibleLines - 1]).cells|)
    {
      var i := ComputeIndex(0);
      UnrolledAt(inner, zero, visibleLines - 1, inner[i]);
      Initialize(next - visibleLines, |inner[i].cells|);
      visibleLines := next;
    }

    /** Drop visible lines; the topmost rows go. */
    method ShrinkVisibleLines(next: nat)
      requires Valid() && 1 <= next <= visibleLines
      modifies this
      ensures Valid() && visibleLines == next && len == old(len) - (old(visibleLines) - next)
      ensures len <= |Ring()| <= old(|Ring()|) && Ring() == old(Ring())[..|inner|]
    {
      var shrinkage := visibleLines - next;
      visibleLines := next;
      ShrinkLines(shrinkage);
    }
  }
}
