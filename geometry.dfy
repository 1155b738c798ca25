/** Buffer geometry of `CGaussBlurImgFilter::Filter`: row stride (32-bit aligned rows),
    bytes per pixel and the row count taken from a possibly negative height. */
module Geometry {
  import opened Numeric

  /** The bit depths `Filter` accepts. */
  predicate SupportedDepth(bpp: int)
  {
    bpp == 24 || bpp == 8 || bpp == 32
  }

  /** The number of rows, whatever the sign convention of the height. */
  function AbsHeight(height: int): nat
  {
    Abs(height)
  }

  /** Bytes per row: `(width * bpp + 31) / 32 * 4`, with C's truncating division. */
  function Stride(width: int, bpp: int): (s: int)
    ensures s % 4 == 0
  {
    CDiv(width * bpp + 31, 32) * 4
  }

  /** Bytes per pixel: `bpp / 8`. */
  function PixelSize(bpp: int): (p: int)
    ensures bpp >= 0 ==> 8 * p <= bpp < 8 * p + 8
  {
    CDiv(bpp, 8)
  }

  /** Channels a pass blurs: one at 8 bpp, three (R, G, B) at 24 and 32 bpp. */
  function Channels(bpp: int): int
  {
    if bpp == 8 then 1 else 3
  }

  /** Size of the scratch buffer and of the caller's buffers: `stride * absHeight`. */
  function BufferSize(width: int, height: int, bpp: int): int
  {
    Stride(width, bpp) * AbsHeight(height)
  }

  lemma PixelSizeOfDepth(bpp: int)
    requires SupportedDepth(bpp)
    ensures PixelSize(bpp) * 8 == bpp
    ensures Channels(bpp) <= PixelSize(bpp)
  {
  }

  /** `(8 * n + 31) / 32 * 4` rounds `n` bytes up to the next multiple of four. */
  lemma AlignedRow(n: int)
    requires n >= 0
    ensures (8 * n + 31) / 32 * 4 % 4 == 0
    ensures n <= (8 * n + 31) / 32 * 4 < n + 4
  {
    var q := (8 * n + 31) / 32;
    assert 32 * q <= 8 * n + 31 < 32 * q + 32;
  }

  /** A row is 4-byte aligned, holds every pixel, and has fewer than 4 bytes of padding. */
  lemma StrideFitsRow(width: int, bpp: int)
    requires width >= 0 && SupportedDepth(bpp)
    ensures Stride(width, bpp) % 4 == 0
    ensures width * PixelSize(bpp) <= Stride(width, bpp) < width * PixelSize(bpp) + 4
    ensures width > 0 ==> Stride(width, bpp) > 0
  {
    if bpp == 8 {
      assert Stride(width, 8) == (8 * width + 31) / 32 * 4;
      AlignedRow(width);
      assert width * PixelSize(bpp) == width;
    } else if bpp == 24 {
      assert Stride(width, 24) == (8 * (3 * width) + 31) / 32 * 4;
      AlignedRow(3 * width);
      assert width * PixelSize(bpp) == 3 * width;
    } else {
      assert Stride(width, 32) == (8 * (4 * width) + 31) / 32 * 4;
      AlignedRow(4 * width);
      assert width * PixelSize(bpp) == 4 * width;
    }
  }

  /** Every byte a pass writes, `stride * row + pixelSize * col + c`, lies in the buffer. */
  lemma {:induction false} PixelOffsetInBuffer(width: int, height: int, bpp: int, row: int, col: int, c: int)
    requires width >= 0 && SupportedDepth(bpp)
    requires 0 <= row < AbsHeight(height) && 0 <= col < width && 0 <= c < Channels(bpp)
    ensures 0 <= Stride(width, bpp) * row + PixelSize(bpp) * col + c < BufferSize(width, height, bpp)
  {
    StrideFitsRow(width, bpp);
    RowMajorInBounds(Stride(width, bpp), PixelSize(bpp), AbsHeight(height), width, row, col, c);
  }
}
