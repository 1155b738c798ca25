/** Integer facts the filter's arithmetic relies on: C's truncating conversions and
    small lemmas about multiplication and division that the solver does not find alone. */
module Numeric {

  /** C's `/` on `int` for a positive divisor: the quotient is truncated toward zero. */
  function CDiv(a: int, b: int): (q: int)
    requires b > 0
    ensures a >= 0 ==> q == a / b
    ensures a < 0 ==> q <= 0 && -b < a - q * b <= 0
  {
    if a >= 0 then a / b
    else
      var m := -a;
      assert m == m / b * b + m % b;
      -(m / b)
  }

  /** C's conversion of a floating-point value to `int`: truncation toward zero. */
  function TruncToInt(x: real): (n: int)
    ensures x >= 0.0 ==> n as real <= x < n as real + 1.0
    ensures x < 0.0 ==> n as real - 1.0 < x <= n as real
  {
    if x >= 0.0 then x.Floor else -((-x).Floor)
  }

  /** `x >= 0 ? x : -x`, the weight-table index of the sample at offset `x`. */
  function Abs(x: int): (a: nat)
    ensures a == x || a == -x
  {
    if x >= 0 then x else -x
  }

  function Min(a: int, b: int): (m: int)
    ensures m <= a && m <= b && (m == a || m == b)
  {
    if a < b then a else b
  }

  lemma MulLeft(a: int, b: int, c: int)
    requires 0 <= a && b <= c
    ensures a * b <= a * c
  {
    assert a * c - a * b == a * (c - b);
  }

  lemma MulNonNeg(a: int, b: int)
    requires 0 <= a && 0 <= b
    ensures 0 <= a * b
  {
  }

  /** A non-zero multiple of a non-negative number is at least that number in size. */
  lemma MulAtLeast(d: int, k: int)
    requires 0 <= d
    ensures k >= 1 ==> d * k >= d
    ensures k <= -1 ==> d * k <= -d
  {
    if k >= 1 {
      MulLeft(d, 1, k);
    } else if k <= -1 {
      MulLeft(d, k, -1);
    }
  }

  /** Division by a positive number has one quotient and one remainder. */
  lemma DivModUnique(i: int, d: int, q: int, m: int)
    requires d > 0 && 0 <= m < d && i == d * q + m
    ensures i / d == q && i % d == m
  {
    var q', m' := i / d, i % d;
    assert d * (q' - q) == m - m' by {
      assert i == d * q' + m';
    }
    MulAtLeast(d, q' - q);
  }

  /** Row-major layout: the byte `c` of element `col` of row `row`, with `step` bytes per
      element and `stride` bytes per row, lies before the end of row `rows - 1`. */
  lemma RowMajorInBounds(stride: int, step: int, rows: int, cols: int, row: int, col: int, c: int)
    requires 0 <= row < rows && 0 <= col < cols && 0 <= c < step && cols * step <= stride
    ensures 0 <= stride * row + step * col + c < stride * rows
    ensures 0 <= step * col + c < stride
  {
    MulLeft(step, col + 1, cols);
    MulNonNeg(step, col);
    assert step * col + c < stride;
    MulLeft(stride, row + 1, rows);
    MulNonNeg(stride, row);
  }

  /** Row-major layout read back: dividing the offset by the stride recovers the row, and
      dividing the remainder by the element size recovers the element and the byte. */
  lemma RowMajorDecode(stride: int, step: int, cols: int, row: int, col: int, c: int)
    requires 0 <= col < cols && 0 <= c < step && cols * step <= stride
    ensures var i := stride * row + step * col + c;
      && stride > 0
      && i / stride == row && i % stride == step * col + c
      && (i % stride) / step == col && (i % stride) % step == c
  {
    RowMajorInBounds(stride, step, 1, cols, 0, col, c);
    DivModUnique(stride * row + step * col + c, stride, row, step * col + c);
    DivModUnique(step * col + c, step, col, c);
  }
}
