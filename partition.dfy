/** The static split of the rows `[0, absHeight)` among `ThreadCount` workers in the
    multi-threaded path of `Filter`: worker `i` gets `absHeight / ThreadCount` rows starting
    at `absHeight / ThreadCount * i`, and the last worker also takes the remainder. */
module Partition {
  import opened Numeric

  /** `ThreadCount = min(m_nThreadCount, absHeight)`. */
  function ChunkCount(threads: int, h: nat): (n: int)
    ensures n <= h && n <= threads && (n == threads || n == h)
    ensures threads >= 1 && h >= 1 ==> n >= 1
  {
    Min(threads, h)
  }

  /** First row of chunk `i`. */
  function RowBegin(h: nat, n: int, i: int): int
    requires n >= 1
  {
    h / n * i
  }

  /** One past the last row of chunk `i`. */
  function RowEnd(h: nat, n: int, i: int): int
    requires n >= 1
  {
    if i == n - 1 then h else RowBegin(h, n, i) + h / n
  }

  /** Every chunk is a non-empty range of rows inside the image. */
  lemma {:induction false} ChunkInImage(h: nat, n: int, i: int)
    requires 1 <= n <= h && 0 <= i < n
    ensures 0 <= RowBegin(h, n, i) < RowEnd(h, n, i) <= h
  {
    var q := h / n;
    assert h == n * q + h % n;
    MulAtLeast(q, n - i);
    assert q >= 1 by {
      MulAtLeast(n, q);
    }
    MulNonNeg(q, i);
    assert q * n - q * i == q * (n - i);
  }

  /** Chunk `i + 1` starts where chunk `i` ends; the first starts at row 0 and the last
      ends at the last row. */
  lemma ChunksContiguous(h: nat, n: int, i: int)
    requires 1 <= n <= h && 0 <= i < n
    ensures i == 0 ==> RowBegin(h, n, i) == 0
    ensures i == n - 1 ==> RowEnd(h, n, i) == h
    ensures i < n - 1 ==> RowEnd(h, n, i) == RowBegin(h, n, i + 1)
  {
  }

  /** Distinct chunks do not share a row. */
  lemma {:induction false} ChunksDisjoint(h: nat, n: int, i: int, j: int)
    requires 1 <= n <= h && 0 <= i < j < n
    ensures RowEnd(h, n, i) <= RowBegin(h, n, j)
  {
    var q := h / n;
    MulLeft(q, i + 1, j);
  }

  /** The chunk that holds a given row: every row of the image is in some chunk. */
  function ChunkOf(h: nat, n: int, row: int): (k: int)
    requires 1 <= n <= h && 0 <= row < h
    ensures 0 <= k < n
    ensures RowBegin(h, n, k) <= row < RowEnd(h, n, k)
  {
    QuotientPositive(h, n);
    ChunkHoldsRow(h, n, row);
    Min(row / (h / n), n - 1)
  }

  /** With no more chunks than rows, every chunk gets at least one row. */
  lemma QuotientPositive(h: nat, n: int)
    requires 1 <= n <= h
    ensures h / n >= 1
  {
    assert h == n * (h / n) + h % n;
  }

  lemma {:induction false} ChunkHoldsRow(h: nat, n: int, row: int)
    requires 1 <= n <= h && 0 <= row < h && h / n >= 1
    ensures var k := Min(row / (h / n), n - 1);
      0 <= k < n && RowBegin(h, n, k) <= row < RowEnd(h, n, k)
  {
    var q := h / n;
    var k := Min(row / q, n - 1);
    assert row == q * (row / q) + row % q;
    MulLeft(q, k, row / q);
    assert RowBegin(h, n, k) == q * k;
    if k < n - 1 {
      assert RowEnd(h, n, k) == q * (row / q) + q;
    }
  }
}
