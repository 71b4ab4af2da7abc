/** Integer helpers shared by the tile, grid and network modules: Python's
    `abs`, `2**n` for a natural exponent, and ceiling division. Python's `//`
    and `%` with a positive divisor round towards minus infinity, which is what
    Dafny's `/` and `%` do for a positive divisor, so those are used directly. */
module Arith {
  function Abs(x: int): nat {
    if x < 0 then -x else x
  }

  function Pow2(n: nat): (r: nat)
    ensures r >= 1
  {
    if n == 0 then 1 else 2 * Pow2(n - 1)
  }

  lemma {:induction false} Pow2Add(a: nat, b: nat)
    decreases a
    ensures Pow2(a + b) == Pow2(a) * Pow2(b)
  {
    if a > 0 {
      Pow2Add(a - 1, b);
      assert Pow2(a + b) == 2 * Pow2(a - 1 + b);
    }
  }

  lemma {:induction false} Pow2Monotone(a: nat, b: nat)
    requires a <= b
    decreases b - a
    ensures Pow2(a) <= Pow2(b)
  {
    if a < b {
      Pow2Monotone(a, b - 1);
    }
  }

  /** `-(-a // b)`, the ceiling of a / b, for a positive b. */
  function CeilDiv(a: int, b: int): (r: int)
    requires b > 0
    ensures (r - 1) * b < a <= r * b
  {
    var q := a / b;
    if q * b == a then q else q + 1
  }

  /** Division with a positive divisor is determined by the quotient and a
      remainder in `[0, c)`. */
  lemma DivModUnique(a: int, c: int, q: int, r: int)
    requires c > 0 && a == q * c + r && 0 <= r < c
    ensures a / c == q && a % c == r
  {
    var q', r' := a / c, a % c;
    assert a == q' * c + r';
    assert (q - q') * c == r' - r;
    SmallMultipleZero(q - q', c);
  }

  /** The only multiple of c strictly between `-c` and c is 0. */
  lemma SmallMultipleZero(d: int, c: int)
    requires c > 0 && -c < d * c < c
    ensures d == 0
  {
  }

  lemma MulMonotone(x: int, y: int, c: int)
    requires x <= y && c > 0
    ensures x * c <= y * c
  {
    assert (y - x) * c >= 0;
    assert (y - x) * c == y * c - x * c;
  }

  /** `CeilDiv(a, b)` is the only r with `(r - 1) * b < a <= r * b`. */
  lemma CeilDivUnique(a: int, b: int, r: int)
    requires b > 0 && (r - 1) * b < a <= r * b
    ensures CeilDiv(a, b) == r
  {
    var r' := CeilDiv(a, b);
    assert (r - 1) * b == r * b - b && (r' - 1) * b == r' * b - b;
    assert (r - r') * b == r * b - r' * b;
    SmallMultipleZero(r - r', b);
  }

  /** The floor quotient brackets a: `(a / c) * c <= a < (a / c + 1) * c`. */
  lemma DivBounds(a: int, c: int)
    requires c > 0
    ensures (a / c) * c <= a < (a / c + 1) * c
    ensures a >= 0 ==> a / c >= 0
  {
    assert a == (a / c) * c + a % c;
    assert (a / c + 1) * c == (a / c) * c + c;
    if a >= 0 {
      PositiveFactor(a / c + 1, c);
    }
  }

  lemma PositiveFactor(x: int, c: int)
    requires c > 0 && x * c > 0
    ensures x > 0
  {
  }
}
