/** Minimum, maximum and facts about Euclidean division and remainder. */
module Arith {

  function Min(a: int, b: int): int { if a <= b then a else b }

  function Max(a: int, b: int): int { if a >= b then a else b }

  /** A quotient and a remainder in range determine `/` and `%`. */
  lemma DivModUnique(a: int, b: int, q: int, r: int)
    requires 0 < b && 0 <= r < b && a == q * b + r
    ensures a / b == q && a % b == r
  {
    var q', r' := a / b, a % b;
    assert (q - q') * b == r' - r;
    if q - q' >= 1 {
      MulMonotone(1, q - q', b);
    } else if q - q' <= -1 {
      MulMonotone(q - q', -1, b);
    }
  }

  /** Adding whole multiples of the modulus does not change the remainder. */
  lemma ModShift(a: int, k: int, b: int)
    requires 0 < b
    ensures (a + k * b) % b == a % b
  {
    assert a == (a / b) * b + a % b;
    assert a + k * b == (a / b + k) * b + a % b;
    DivModUnique(a + k * b, b, a / b + k, a % b);
  }

  /** A remainder may be taken early in a sum. */
  lemma ModAddLeft(a: int, n: int, b: int)
    requires 0 < b
    ensures (a % b + n) % b == (a + n) % b
  {
    assert a == (a / b) * b + a % b;
    assert a + n == (a % b + n) + (a / b) * b;
    ModShift(a % b + n, a / b, b);
  }

  /** A remainder may be taken early in a difference. */
  lemma ModSubLeft(a: int, n: int, b: int)
    requires 0 < b
    ensures (a % b - n) % b == (a - n) % b
  {
    ModAddLeft(a, -n, b);
  }

  /** The product of a nonnegative and a positive number is at least the first. */
  lemma MulAtLeast(a: int, b: int)
    requires 0 <= a && 1 <= b
    ensures a <= a * b && 0 <= a * b
  {
    assert a * (b - 1) >= 0;
  }

  /** Multiplication by a nonnegative number keeps the order. */
  lemma MulMonotone(a: int, b: int, c: int)
    requires a <= b && 0 <= c
    ensures a * c <= b * c
  {
    assert (b - a) * c >= 0;
  }

  /** Row-major numbering orders pairs lexicographically. */
  lemma RowMajorOrder(r1: int, c1: int, r2: int, c2: int, cols: int)
    requires 0 <= c1 < cols && 0 <= c2 < cols
    ensures (r1 < r2 || (r1 == r2 && c1 <= c2)) <==> r1 * cols + c1 <= r2 * cols + c2
    ensures (r1 == r2 && c1 == c2) <==> r1 * cols + c1 == r2 * cols + c2
  {
    if r1 < r2 {
      MulMonotone(r1 + 1, r2, cols);
    } else if r2 < r1 {
      MulMonotone(r2 + 1, r1, cols);
    }
  }

  /** Stepping forward and back modulo `b` returns to the start. */
  lemma ModCancel(k: int, n: int, b: int)
    requires 0 <= k < b
    ensures ((k + n) % b - n) % b == k
  {
    ModAddLeft(k + n, -n, b);
    DivModUnique(k, b, 0, k);
  }

  /** A number is its last digit plus the base times the rest. */
  lemma DigitSplit(k: int, base: int)
    requires 0 < base
    ensures k == k % base + base * (k / base)
  {
  }

  /** The digit and the rest of a number are unique. */
  lemma DigitJoin(digit: int, base: int, rest: int)
    requires 0 <= digit < base
    ensures (digit + base * rest) % base == digit && (digit + base * rest) / base == rest
  {
    assert base * rest == rest * base;
    DivModUnique(digit + base * rest, base, rest, digit);
  }

  /** A larger rest outweighs every digit. */
  lemma DigitOrder(a: int, x: int, b: int, y: int, base: int)
    requires x < y && a < base + b
    ensures 0 < base ==> a + base * x < b + base * y
  {
    if 0 < base {
      MulMonotone(x + 1, y, base);
      assert (x + 1) * base == base * x + base;
      assert y * base == base * y;
    }
  }

  /** Division does not grow a number. */
  lemma DivAtMost(k: nat, base: int)
    requires 0 < base
    ensures 0 <= k / base <= k && 0 <= k % base < base
  {
    var q := k / base;
    if q < 0 {
      MulMonotone(q, -1, base);
    } else {
      MulAtLeast(q, base);
    }
  }

  /** One more of the rest is one more base. */
  lemma DistributeSuccessor(base: int, rest: int)
    ensures base * (rest + 1) == base * rest + base
  {
  }

  /** Reducing the row reduces the row-major number. */
  lemma RowMajorModulo(row: int, c: int, total: int, cols: int)
    requires 0 < total && 0 <= c < cols
    ensures 0 < total * cols
    ensures (row * cols + c) % (total * cols) == (row % total) * cols + c
  {
    var q, r := row / total, row % total;
    MulAtLeast(total, cols);
    MulMonotone(0, r, cols);
    MulMonotone(r, total - 1, cols);
    assert (total - 1) * cols == total * cols - cols;
    assert row == q * total + r;
    RowMajorSplit(q, r, c, total, cols);
    DivModUnique(row * cols + c, total * cols, q, r * cols + c);
  }

  lemma RowMajorSplit(q: int, r: int, c: int, total: int, cols: int)
    ensures (q * total + r) * cols + c == q * (total * cols) + (r * cols + c)
  {
    assert (q * total + r) * cols == (q * total) * cols + r * cols;
    assert (q * total) * cols == q * (total * cols);
  }
}
