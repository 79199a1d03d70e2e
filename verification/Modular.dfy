/** Remainders: the arithmetic behind blocks, strides and rounds. */
module Modular {
  lemma ModBounds(a: nat, b: nat)
    requires b > 0
    ensures 0 <= a % b < b && a % b <= a
  {
  }

  lemma SmallMod(a: nat, b: nat)
    requires a < b
    ensures a % b == a
  {
  }

  lemma MulAtLeast(k: int, t: nat)
    requires k >= 1
    ensures k * t >= t
  {
  }

  lemma MulMinus(p: int, q: int, t: nat)
    ensures (p - q) * t == p * t - q * t
  {
  }

  lemma MulOrdered(x: nat, y: nat, b: nat)
    requires x <= y
    ensures 0 <= x * b <= y * b
  {
  }

  /** Index `i` in the blocks of `b`. */
  lemma BlockOf(i: nat, b: nat, total: nat)
    requires i < total * b
    ensures b > 0 && i / b < total && i == i / b * b + i % b
  {
  }

  lemma ModUnique(t: nat, q: int, x: int, a: int)
    requires 0 <= x < t && a == q * t + x
    ensures a % t == x && a / t == q
  {
    var p, y := a / t, a % t;
    MulMinus(p, q, t);
    MulMinus(q, p, t);
    if p > q { MulAtLeast(p - q, t); }
    if q > p { MulAtLeast(q - p, t); }
  }

  /** Moving right inside a row. */
  lemma ModShift(t: nat, a: nat, d: nat)
    requires t > 0 && a % t + d < t
    ensures (a + d) % t == a % t + d
  {
    ModUnique(t, a / t, a % t + d, a + d);
  }

  /** Moving down a row. */
  lemma ModStride(t: nat, a: nat)
    requires t > 0
    ensures (a + t) % t == a % t
  {
    ModUnique(t, a / t + 1, a % t, a + t);
  }

  lemma ModClose(t: nat, a: nat, b: nat)
    requires t > 0 && a % t == b % t && a <= b < a + t
    ensures a == b
  {
    if a < b { ModShiftBack(t, a, b - a); }
  }

  lemma ModShiftBack(t: nat, a: nat, d: nat)
    requires t > 0 && 0 < d < t
    ensures (a + d) % t != a % t
  {
    if a % t + d < t {
      ModShift(t, a, d);
    } else {
      ModUnique(t, a / t + 1, a % t + d - t, a + d);
    }
  }

  /** The remainder of a sum of two small parts. */
  lemma ModIs(a: nat, n: nat, q: nat, s: nat)
    requires n > 0 && a == q * n + s && s < 2 * n
    ensures a % n == (if s < n then s else s - n) && a / n == (if s < n then q else q + 1)
  {
    var q' := if s < n then q else q + 1;
    assert q' * n == q * n + (if s < n then 0 else n);
    ModUnique(n, q', if s < n then s else s - n, a);
  }

  /** Counting on from one turn later, modulo `n`. */
  lemma TurnLater(w: nat, j: nat, n: nat)
    requires w < n
    ensures ((w + 1) % n + j) % n == (w + 1 + j) % n
  {
    if w + 1 == n {
      ModIs(w + 1, n, 1, 0);
      ModIs(j, n, j / n, j % n);
      ModIs(n + j, n, j / n, n + j % n);
    } else {
      SmallMod(w + 1, n);
    }
  }

  lemma SameTurn(w: nat, j: nat, n: nat)
    requires w < n
    ensures (w + j) % n == w <==> j % n == 0
  {
    ModIs(w + j, n, j / n, w + j % n);
  }

  lemma OneMore(q: nat, b: nat)
    ensures q > 0 ==> (q - 1) * b == q * b - b
  {
  }

  lemma BlockBefore(i: nat, b: nat)
    requires 0 < b <= i
    ensures i / b > 0 && (i - b) / b == i / b - 1 && (i - b) % b == i % b
  {
    var j := i / b;
    assert i == j * b + i % b && j > 0;
    OneMore(j, b);
    ModUnique(b, j - 1, i % b, i - b);
  }

  lemma RowBefore(j: nat, n: nat)
    requires j > 0 && n > 0
    ensures (j - 1) / n == if j % n == 0 then j / n - 1 else j / n
  {
    var q, r := j / n, j % n;
    assert j == q * n + r;
    if r == 0 {
      assert (q - 1) * n == q * n - n;
      ModUnique(n, q - 1, n - 1, j - 1);
    } else {
      ModUnique(n, q, r - 1, j - 1);
    }
  }
}
