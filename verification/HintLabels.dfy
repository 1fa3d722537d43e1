/** The generator of keyboard hint labels: an odometer over one half of the alphabet whose last wheel runs over the
    other half. */
module HintLabels {
  import opened Arith

  // ----- Index sequences and their rank -----

  /** An alphabet size with the last index reserved for the final character of a label. */
  datatype Wheels = Wheels(size: nat, split: nat) {
    ghost predicate Valid() {
      split + 1 < size
    }

    /** Number of characters usable as the final character. */
    function Tails(): nat { split + 1 }

    /** Number of characters usable everywhere else. */
    function Heads(): nat
      requires Valid()
    {
      size - 1 - split
    }

    predicate HeadIndices(heads: seq<nat>) {
      forall i :: 0 <= i < |heads| ==> split < heads[i] < size
    }

    /** Index sequences of labels: the final character's index comes first. */
    predicate WellFormed(indices: seq<nat>) {
      |indices| >= 1 && indices[0] <= split && HeadIndices(indices[1..])
    }

    /** Value of the head indices in bijective numeration: digits 1 to `Heads()`, least significant first. */
    function HeadRank(heads: seq<nat>): nat
      requires Valid() && HeadIndices(heads)
    {
      if heads == [] then 0
      else (heads[0] - split) + Heads() * HeadRank(heads[1..])
    }

    /** Position of an index sequence in the order of generation. */
    function Rank(indices: seq<nat>): nat
      requires Valid() && WellFormed(indices)
    {
      indices[0] + Tails() * HeadRank(indices[1..])
    }

    /** Head indices of a given value, the inverse of `HeadRank`. */
    function HeadsAt(rank: nat): (heads: seq<nat>)
      requires Valid()
      ensures HeadIndices(heads)
    {
      if rank == 0 then []
      else
        DivAtMost(rank - 1, Heads());
        [split + 1 + (rank - 1) % Heads()] + HeadsAt((rank - 1) / Heads())
    }

    /** Index sequence of a given rank, the inverse of `Rank`. */
    function IndicesAt(rank: nat): (indices: seq<nat>)
      requires Valid()
      ensures WellFormed(indices)
    {
      [rank % Tails()] + HeadsAt(rank / Tails())
    }

    lemma {:induction false} HeadRankOfHeadsAt(rank: nat)
      requires Valid()
      ensures HeadRank(HeadsAt(rank)) == rank
    {
      if rank != 0 {
        DivAtMost(rank - 1, Heads());
        HeadRankOfHeadsAt((rank - 1) / Heads());
        assert HeadsAt(rank)[1..] == HeadsAt((rank - 1) / Heads());
        DigitSplit(rank - 1, Heads());
      }
    }

    /** Decoding takes the least digit off. */
    lemma HeadsAtStep(digit: nat, rest: nat, rank: nat)
      requires Valid() && digit < Heads() && rank == 1 + (digit + Heads() * rest)
      ensures HeadsAt(rank) == [split + 1 + digit] + HeadsAt(rest)
    {
      DigitJoin(digit, Heads(), rest);
    }

    lemma {:induction false} HeadsAtOfHeadRank(heads: seq<nat>)
      requires Valid() && HeadIndices(heads)
      ensures HeadsAt(HeadRank(heads)) == heads
    {
      if heads != [] {
        HeadsAtOfHeadRank(heads[1..]);
        HeadsAtStep(heads[0] - split - 1, HeadRank(heads[1..]), HeadRank(heads));
        assert heads == [heads[0]] + heads[1..];
      }
    }

    /** Rank and index sequence determine each other. */
    lemma RankOfIndicesAt(rank: nat)
      requires Valid()
      ensures Rank(IndicesAt(rank)) == rank
    {
      HeadRankOfHeadsAt(rank / Tails());
      assert IndicesAt(rank)[1..] == HeadsAt(rank / Tails());
      DigitSplit(rank, Tails());
    }

    lemma IndicesAtOfRank(indices: seq<nat>)
      requires Valid() && WellFormed(indices)
      ensures IndicesAt(Rank(indices)) == indices
    {
      HeadsAtOfHeadRank(indices[1..]);
      DigitJoin(indices[0], Tails(), HeadRank(indices[1..]));
      assert indices == [indices[0]] + indices[1..];
    }

    lemma {:induction false} FewerHeadsMin(a: seq<nat>, b: seq<nat>)
      requires Valid() && HeadIndices(a) && HeadIndices(b) && |a| < |b|
      ensures HeadRank(a) < HeadRank(b)
    {
      if a == [] {
        MulMonotone(0, HeadRank(b[1..]), Heads());
        assert HeadRank(b[1..]) * Heads() == Heads() * HeadRank(b[1..]);
      } else {
        FewerHeadsMin(a[1..], b[1..]);
        DigitOrder(a[0] - split, HeadRank(a[1..]), b[0] - split, HeadRank(b[1..]), Heads());
      }
    }

    /** Shorter index sequences are generated before longer ones. */
    lemma ShorterFirst(a: seq<nat>, b: seq<nat>)
      requires Valid() && WellFormed(a) && WellFormed(b) && |a| < |b|
      ensures Rank(a) < Rank(b)
    {
      FewerHeadsMin(a[1..], b[1..]);
      DigitOrder(a[0], HeadRank(a[1..]), b[0], HeadRank(b[1..]), Tails());
    }

    /** The carry over the head indices. */
    function NextHeads(heads: seq<nat>): (r: seq<nat>)
      requires Valid() && HeadIndices(heads)
      ensures HeadIndices(r)
    {
      if heads == [] then [split + 1]
      else if heads[0] + 1 == size then [split + 1] + NextHeads(heads[1..])
      else [heads[0] + 1] + heads[1..]
    }

    lemma {:induction false} NextHeadsRank(heads: seq<nat>)
      requires Valid() && HeadIndices(heads)
      ensures HeadRank(NextHeads(heads)) == HeadRank(heads) + 1
    {
      if heads == [] {
        assert NextHeads(heads)[1..] == [];
      } else if heads[0] + 1 == size {
        NextHeadsRank(heads[1..]);
        assert NextHeads(heads)[1..] == NextHeads(heads[1..]);
        DistributeSuccessor(Heads(), HeadRank(heads[1..]));
      } else {
        assert NextHeads(heads)[1..] == heads[1..];
      }
    }

    /** The index sequence generated next. */
    function Successor(indices: seq<nat>): (r: seq<nat>)
      requires Valid() && WellFormed(indices)
      ensures WellFormed(r)
    {
      if indices[0] < split then [indices[0] + 1] + indices[1..]
      else [0] + NextHeads(indices[1..])
    }

    /** Moving to the next index sequence raises the rank by one. */
    lemma SuccessorRank(indices: seq<nat>)
      requires Valid() && WellFormed(indices)
      ensures Rank(Successor(indices)) == Rank(indices) + 1
    {
      if indices[0] < split {
        assert Successor(indices)[1..] == indices[1..];
      } else {
        assert Successor(indices)[1..] == NextHeads(indices[1..]);
        NextHeadsRank(indices[1..]);
        DistributeSuccessor(Tails(), HeadRank(indices[1..]));
      }
    }

    /** The index sequence generated after `k` others. */
    function Nth(k: nat): (indices: seq<nat>)
      requires Valid()
      ensures WellFormed(indices)
    {
      if k == 0 then [0] else Successor(Nth(k - 1))
    }

    /** The k-th index sequence is the one of rank k. */
    lemma {:induction false} RankOfNth(k: nat)
      requires Valid()
      ensures Rank(Nth(k)) == k
    {
      if k == 0 {
        assert [0][1..] == [];
      } else {
        RankOfNth(k - 1);
        SuccessorRank(Nth(k - 1));
      }
    }

    /** Every well-formed index sequence is generated, at its rank. */
    lemma NthOfRank(indices: seq<nat>)
      requires Valid() && WellFormed(indices)
      ensures Nth(Rank(indices)) == indices
    {
      RankOfNth(Rank(indices));
      IndicesAtOfRank(indices);
      IndicesAtOfRank(Nth(Rank(indices)));
    }

    /** What the carry does when the first `k` head indices are at their limit and the next is not. */
    lemma {:induction false} CarryShape(heads: seq<nat>, k: nat)
      requires Valid() && HeadIndices(heads) && k <= |heads|
      requires forall i :: 0 <= i < k ==> heads[i] + 1 == size
      requires k < |heads| ==> heads[k] + 1 != size
      ensures |NextHeads(heads)| == if k == |heads| then |heads| + 1 else |heads|
      ensures forall i :: 0 <= i < k ==> NextHeads(heads)[i] == split + 1
      ensures NextHeads(heads)[k] == if k == |heads| then split + 1 else heads[k] + 1
      ensures forall i :: k < i < |heads| ==> NextHeads(heads)[i] == heads[i]
    {
      if k > 0 {
        CarryShape(heads[1..], k - 1);
      }
    }

    /** The carry has reset the wheels before index `k` and not touched the others. */
    ghost predicate Carried(heads: seq<nat>, indices: seq<nat>, k: nat) {
      && 1 <= k <= |indices| == |heads| + 1
      && indices[0] == 0
      && (forall i :: 1 <= i < k ==> indices[i] == split + 1)
      && (forall i :: 0 <= i < k - 1 ==> heads[i] + 1 == size)
      && (forall i :: k <= i < |indices| ==> indices[i] == heads[i - 1])
    }

    /** The carry ends at the first wheel that is not at its limit. */
    lemma CarryStops(heads: seq<nat>, indices: seq<nat>, k: nat)
      requires Valid() && HeadIndices(heads) && Carried(heads, indices, k)
      requires k < |indices| && indices[k] + 1 != size
      ensures [0] + NextHeads(heads) == indices[k := indices[k] + 1]
    {
      CarryShape(heads, k - 1);
    }

    /** When all are at their limit, a wheel is added. */
    lemma CarryGrows(heads: seq<nat>, indices: seq<nat>)
      requires Valid() && HeadIndices(heads) && Carried(heads, indices, |indices|)
      ensures [0] + NextHeads(heads) == indices + [split + 1]
    {
      CarryShape(heads, |heads|);
    }

    lemma IndicesInRange(indices: seq<nat>)
      requires Valid() && WellFormed(indices)
      ensures forall i :: 0 <= i < |indices| ==> indices[i] < size
      ensures forall i :: 1 <= i < |indices| ==> split < indices[i]
    {
      forall i | 1 <= i < |indices|
        ensures split < indices[i] < size
      {
        assert indices[1..][i - 1] == indices[i];
      }
    }
  }

  /** Half of the alphabet, rounded down after leaving one character out, is reserved for final characters. */
  function WheelsOf(alphabet: seq<char>): (w: Wheels)
    requires |alphabet| >= 2
    ensures w.Valid() && w.size == |alphabet| && 0 <= w.Tails() - w.Heads() <= 1
  {
    Wheels(|alphabet|, (|alphabet| - 1) / 2)
  }

  /** Generator of labels. */
  class Generator {
    const alphabet: seq<char>
    const splitPoint: nat
    var indices: seq<nat>

    ghost predicate Valid()
      reads this
    {
      && |alphabet| >= 2
      && splitPoint == WheelsOf(alphabet).split
      && WheelsOf(alphabet).WellFormed(indices)
    }

    /** Number of labels generated so far. */
    ghost function Generated(): nat
      requires Valid()
      reads this
    {
      WheelsOf(alphabet).Rank(indices)
    }

    constructor (alphabet: seq<char>)
      requires |alphabet| >= 2
      ensures Valid() && this.alphabet == alphabet
      ensures Generated() == 0
    {
      this.alphabet := alphabet;
      splitPoint := (|alphabet| - 1) / 2;
      indices := [0];
    }

    /** Carry over the wheels behind the first, whose positions were `heads`. */
    method Carry(ghost heads: seq<nat>)
      requires |alphabet| >= 2 && splitPoint == WheelsOf(alphabet).split
      requires WheelsOf(alphabet).HeadIndices(heads) && WheelsOf(alphabet).Carried(heads, indices, 1)
      modifies this`indices
      ensures indices == [0] + WheelsOf(alphabet).NextHeads(heads)
    {
      ghost var w := WheelsOf(alphabet);
      var k := 1;
      while k < |indices|
        invariant w.Carried(heads, indices, k)
      {
        if indices[k] + 1 == |alphabet| {
          indices := indices[k := splitPoint + 1];
          k := k + 1;
        } else {
          w.CarryStops(heads, indices, k);
          indices := indices[k := indices[k] + 1];
          return;
        }
      }
      w.CarryGrows(heads, indices);
      indices := indices + [splitPoint + 1];
    }

    /** Move to the next index sequence. */
    method Increment()
      requires Valid()
      modifies this`indices
      ensures Valid()
      ensures indices == WheelsOf(alphabet).Successor(old(indices))
    {
      ghost var before := indices;
      if indices[0] < splitPoint {
        indices := indices[0 := indices[0] + 1];
        assert indices == WheelsOf(alphabet).Successor(before);
      } else {
        indices := indices[0 := 0];
        Carry(before[1..]);
      }
    }

    /** The next label, read off the indices from the last wheel to the first. */
    method Next() returns (word: string)
      requires Valid()
      modifies this`indices
      ensures Valid()
      ensures word == NthLabel(alphabet, old(Generated()))
      ensures Generated() == old(Generated()) + 1
    {
      WheelsOf(alphabet).IndicesInRange(indices);
      word := LabelOf(alphabet, indices);
      WheelsOf(alphabet).NthOfRank(indices);
      WheelsOf(alphabet).SuccessorRank(indices);
      Increment();
    }
  }

  // ----- Labels -----

  /** Characters of an index sequence, the final one last. */
  function LabelOf(alphabet: seq<char>, indices: seq<nat>): (word: string)
    requires forall i :: 0 <= i < |indices| ==> indices[i] < |alphabet|
    ensures |word| == |indices|
    ensures forall i :: 0 <= i < |word| ==> word[i] == alphabet[indices[|indices| - 1 - i]]
  {
    seq(|indices|, i requires 0 <= i < |indices| => alphabet[indices[|indices| - 1 - i]])
  }

  /** The label generated after `rank` others. */
  function NthLabel(alphabet: seq<char>, rank: nat): (word: string)
    requires |alphabet| >= 2
    ensures |word| >= 1
  {
    var indices := WheelsOf(alphabet).Nth(rank);
    WheelsOf(alphabet).IndicesInRange(indices);
    LabelOf(alphabet, indices)
  }

  predicate RepeatFree(alphabet: seq<char>) {
    forall i, j :: 0 <= i < j < |alphabet| ==> alphabet[i] != alphabet[j]
  }

  /** Characters of the half that never ends a label. */
  predicate OnlyHeads(alphabet: seq<char>, text: string)
    requires |alphabet| >= 2
  {
    forall i :: 0 <= i < |text| ==> text[i] in alphabet[WheelsOf(alphabet).split + 1..]
  }

  /** Words that a label can be: heads only, then one character of the other half. */
  predicate IsLabel(alphabet: seq<char>, text: string)
    requires |alphabet| >= 2
  {
    && |text| >= 1
    && OnlyHeads(alphabet, text[..|text| - 1])
    && text[|text| - 1] in alphabet[..WheelsOf(alphabet).Tails()]
  }

  lemma NthLabelShape(alphabet: seq<char>, rank: nat)
    requires |alphabet| >= 2
    ensures IsLabel(alphabet, NthLabel(alphabet, rank))
  {
    var w, indices, word := WheelsOf(alphabet), WheelsOf(alphabet).Nth(rank), NthLabel(alphabet, rank);
    w.IndicesInRange(indices);
    var front := word[..|word| - 1];
    forall i | 0 <= i < |front|
      ensures front[i] in alphabet[w.split + 1..]
    {
      var ix := indices[|indices| - 1 - i];
      assert alphabet[w.split + 1..][ix - w.split - 1] == alphabet[ix];
    }
    assert alphabet[..w.Tails()][indices[0]] == alphabet[indices[0]];
  }

  /** The two halves of a repeat-free alphabet share no character. */
  lemma HalvesDisjoint(alphabet: seq<char>, c: char)
    requires |alphabet| >= 2 && RepeatFree(alphabet)
    ensures !(c in alphabet[WheelsOf(alphabet).split + 1..] && c in alphabet[..WheelsOf(alphabet).Tails()])
  {
  }

  /** No label is a proper prefix of another. */
  lemma PrefixFree(alphabet: seq<char>, a: string, b: string)
    requires |alphabet| >= 2 && RepeatFree(alphabet)
    requires IsLabel(alphabet, a) && IsLabel(alphabet, b) && a <= b
    ensures a == b
  {
    assert |a| < |b| ==> a[|a| - 1] == b[..|b| - 1][|a| - 1];
    HalvesDisjoint(alphabet, a[|a| - 1]);
  }

  /** Different ranks give different labels. */
  lemma NthLabelInjective(alphabet: seq<char>, j: nat, k: nat)
    requires |alphabet| >= 2 && RepeatFree(alphabet)
    requires NthLabel(alphabet, j) == NthLabel(alphabet, k)
    ensures j == k
  {
    var w, word := WheelsOf(alphabet), NthLabel(alphabet, j);
    var a, b := w.Nth(j), w.Nth(k);
    w.IndicesInRange(a);
    w.IndicesInRange(b);
    forall i | 0 <= i < |a|
      ensures a[i] == b[i]
    {
      assert word[|a| - 1 - i] == alphabet[a[i]] == alphabet[b[i]];
    }
    assert a == b;
    w.RankOfNth(j);
    w.RankOfNth(k);
  }

  // ----- Which characters are in use -----

  /** Rank of the first label that uses the character at an index. */
  function FirstUseRank(split: nat, x: nat): nat {
    if x <= split then x else (x - split) * (split + 1)
  }

  /** The first `count` labels use no two equal characters of the alphabet. */
  predicate DistinctInUse(alphabet: seq<char>, count: nat)
    requires |alphabet| >= 2
  {
    forall a, b :: 0 <= a < b < |alphabet| && alphabet[a] == alphabet[b] ==>
      count <= FirstUseRank(WheelsOf(alphabet).split, b)
  }

  /** Labels that use later characters are generated later. */
  lemma FirstUseRankIncreases(split: nat, a: nat, b: nat)
    requires a < b
    ensures FirstUseRank(split, a) < FirstUseRank(split, b)
  {
    if split < b {
      MulMonotone(if a <= split then 1 else a + 1 - split, b - split, split + 1);
    }
  }

  /** The value of head indices is at least that of each digit. */
  lemma {:induction false} HeadRankAtLeast(w: Wheels, heads: seq<nat>, i: nat)
    requires w.Valid() && w.HeadIndices(heads) && i < |heads|
    ensures heads[i] - w.split <= w.HeadRank(heads)
  {
    MulAtLeast(w.HeadRank(heads[1..]), w.Heads());
    assert w.HeadRank(heads[1..]) * w.Heads() == w.Heads() * w.HeadRank(heads[1..]);
    if i > 0 {
      HeadRankAtLeast(w, heads[1..], i - 1);
    }
  }

  /** A label uses only characters whose first use is not later. */
  lemma UsedNotBefore(w: Wheels, indices: seq<nat>, i: nat)
    requires w.Valid() && w.WellFormed(indices) && i < |indices|
    ensures FirstUseRank(w.split, indices[i]) <= w.Rank(indices)
  {
    var rest := w.HeadRank(indices[1..]);
    if i == 0 {
      MulMonotone(0, rest, w.Tails());
    } else {
      HeadRankAtLeast(w, indices[1..], i - 1);
      assert indices[1..][i - 1] == indices[i];
      MulMonotone(indices[i] - w.split, rest, w.Tails());
    }
    assert rest * w.Tails() == w.Tails() * rest;
  }

  /** Characters in use determine their indices. */
  lemma InUseInjective(alphabet: seq<char>, count: nat, x: nat, y: nat)
    requires |alphabet| >= 2 && DistinctInUse(alphabet, count) && x < |alphabet| && y < |alphabet|
    requires FirstUseRank(WheelsOf(alphabet).split, x) < count && FirstUseRank(WheelsOf(alphabet).split, y) < count
    requires alphabet[x] == alphabet[y]
    ensures x == y
  {
  }

  /** Indices of characters that the first `count` labels use. */
  predicate InUse(alphabet: seq<char>, count: nat, indices: seq<nat>)
    requires |alphabet| >= 2
  {
    forall i :: 0 <= i < |indices| ==>
      indices[i] < |alphabet| && FirstUseRank(WheelsOf(alphabet).split, indices[i]) < count
  }

  lemma NthInUse(alphabet: seq<char>, count: nat, k: nat)
    requires |alphabet| >= 2 && k < count
    ensures InUse(alphabet, count, WheelsOf(alphabet).Nth(k))
  {
    var w := WheelsOf(alphabet);
    var indices := w.Nth(k);
    w.IndicesInRange(indices);
    w.RankOfNth(k);
    forall i | 0 <= i < |indices|
      ensures FirstUseRank(w.split, indices[i]) < count
    {
      UsedNotBefore(w, indices, i);
    }
  }

  /** Where the label of some indices begins that of others, the indices agree. */
  lemma SameIndex(alphabet: seq<char>, count: nat, a: seq<nat>, b: seq<nat>, i: nat)
    requires |alphabet| >= 2 && DistinctInUse(alphabet, count) && InUse(alphabet, count, a) && InUse(alphabet, count, b)
    requires LabelOf(alphabet, a) <= LabelOf(alphabet, b) && i < |a|
    ensures |a| <= |b| && a[|a| - 1 - i] == b[|b| - 1 - i]
  {
    var x, y := a[|a| - 1 - i], b[|b| - 1 - i];
    assert LabelOf(alphabet, a)[i] == LabelOf(alphabet, b)[i];
    InUseInjective(alphabet, count, x, y);
  }

  lemma IndicesUnambiguous(alphabet: seq<char>, count: nat, a: seq<nat>, b: seq<nat>)
    requires |alphabet| >= 2 && DistinctInUse(alphabet, count) && InUse(alphabet, count, a) && InUse(alphabet, count, b)
    requires WheelsOf(alphabet).WellFormed(a) && WheelsOf(alphabet).WellFormed(b)
    requires LabelOf(alphabet, a) <= LabelOf(alphabet, b)
    ensures a == b
  {
    SameIndex(alphabet, count, a, b, |a| - 1);
    WheelsOf(alphabet).IndicesInRange(b);
    assert |a| == |b|;
    forall i | 0 <= i < |a|
      ensures a[i] == b[i]
    {
      SameIndex(alphabet, count, a, b, |a| - 1 - i);
    }
  }

  /** Of the first `count` labels, one begins another only if they are the same one. */
  lemma NthLabelsUnambiguous(alphabet: seq<char>, count: nat, j: nat, k: nat)
    requires |alphabet| >= 2 && DistinctInUse(alphabet, count) && j < count && k < count
    requires NthLabel(alphabet, j) <= NthLabel(alphabet, k)
    ensures j == k
  {
    var w := WheelsOf(alphabet);
    NthInUse(alphabet, count, j);
    NthInUse(alphabet, count, k);
    IndicesUnambiguous(alphabet, count, w.Nth(j), w.Nth(k));
    w.RankOfNth(j);
    w.RankOfNth(k);
  }

  /** Some head indices spell a given word of head characters. */
  lemma {:induction false} SpellHeads(alphabet: seq<char>, text: string) returns (heads: seq<nat>)
    requires |alphabet| >= 2 && OnlyHeads(alphabet, text)
    ensures WheelsOf(alphabet).HeadIndices(heads) && |heads| == |text|
    ensures forall i :: 0 <= i < |heads| ==> alphabet[heads[i]] == text[|text| - 1 - i]
  {
    if text == [] {
      heads := [];
    } else {
      var split := WheelsOf(alphabet).split;
      var rest := SpellHeads(alphabet, text[1..]);
      var j :| 0 <= j < |alphabet[split + 1..]| && alphabet[split + 1..][j] == text[0];
      heads := rest + [split + 1 + j];
    }
  }

  /** The label of a well-formed index sequence is generated at the sequence's rank. */
  lemma LabelAtRank(alphabet: seq<char>, indices: seq<nat>)
    requires |alphabet| >= 2 && WheelsOf(alphabet).WellFormed(indices)
    ensures |NthLabel(alphabet, WheelsOf(alphabet).Rank(indices))| == |indices|
    ensures forall i :: 0 <= i < |indices| ==> indices[i] < |alphabet|
    ensures NthLabel(alphabet, WheelsOf(alphabet).Rank(indices)) == LabelOf(alphabet, indices)
  {
    WheelsOf(alphabet).NthOfRank(indices);
    WheelsOf(alphabet).IndicesInRange(indices);
  }

  /** Every well-formed word is generated, and at exactly one rank when the alphabet has no repeats. */
  lemma EveryLabelGenerated(alphabet: seq<char>, text: string) returns (rank: nat)
    requires |alphabet| >= 2 && IsLabel(alphabet, text)
    ensures NthLabel(alphabet, rank) == text
    ensures RepeatFree(alphabet) ==> forall k: nat :: NthLabel(alphabet, k) == text ==> k == rank
  {
    var w := WheelsOf(alphabet);
    var heads := SpellHeads(alphabet, text[..|text| - 1]);
    var t :| 0 <= t < w.Tails() && alphabet[..w.Tails()][t] == text[|text| - 1];
    var indices := [t] + heads;
    assert indices[1..] == heads;
    rank := w.Rank(indices);
    LabelAtRank(alphabet, indices);
    assert NthLabel(alphabet, rank) == text;
    if RepeatFree(alphabet) {
      forall k: nat | NthLabel(alphabet, k) == text
        ensures k == rank
      {
        NthLabelInjective(alphabet, k, rank);
      }
    }
  }

  /** Labels never get shorter as the generator runs. */
  lemma LabelsGrow(alphabet: seq<char>, j: nat, k: nat)
    requires |alphabet| >= 2 && j <= k
    ensures |NthLabel(alphabet, j)| <= |NthLabel(alphabet, k)|
  {
    var w := WheelsOf(alphabet);
    w.RankOfNth(j);
    w.RankOfNth(k);
    if |w.Nth(k)| < |w.Nth(j)| {
      w.ShorterFirst(w.Nth(k), w.Nth(j));
    }
  }
}
