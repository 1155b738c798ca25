/** One separable convolution pass (`GaussBlurThreadProc8`, `GaussBlurThreadProc24`): for
    every row of `[rowBegin, rowEnd)` and every column of `[0, width)`, and for every channel
    the pass handles, the destination byte becomes the truncated weighted sum of `2r + 1`
    source samples taken along one axis, with the sample coordinate clamped to the image.

    Floating-point accumulation is modelled with exact `real`s, summed in the same order as
    the loop over `x = -r .. r`. A pixel is `step` bytes wide: the 8 bpp pass addresses
    `stride * row + col` (step 1), the 24/32 bpp pass `stride * row + pixelSize * col`. */
module Convolution {
  import opened Numeric

  type Byte = x: int | 0 <= x < 256

  /** The parameter block a worker receives (`CGaussBlurThreadParams`), without the two
      buffer addresses and the weight table, which the pass methods take as arguments. */
  datatype PassTask = PassTask(r: int, width: int, height: int, rowBegin: int, rowEnd: int,
                               stride: int, pixelSize: int, horz: bool)

  /** The same pass over all rows. The value written at a position does not depend on which
      worker writes it, so the functions below read the shared fields from `Whole(t)`. */
  function Whole(t: PassTask): PassTask
  {
    t.(rowBegin := 0, rowEnd := t.height)
  }

  /** Edge clamping: an out-of-range sample coordinate is replaced by the nearest edge. */
  function Clamp(v: int, maxVal: int): (c: int)
    ensures maxVal >= 0 ==> 0 <= c <= maxVal
    ensures 0 <= v <= maxVal ==> c == v
    ensures maxVal >= 0 && v < 0 ==> c == 0
    ensures maxVal >= 0 && v > maxVal ==> c == maxVal
  {
    if v < 0 then 0 else if v > maxVal then maxVal else v
  }

  /** The image laid out in a buffer of `srcLen` bytes: pixels `step` bytes apart, rows
      `stride` bytes apart, every row holding `width` pixels and `height` rows fitting. */
  predicate Fits(t: PassTask, step: int, srcLen: int)
  {
    && step >= 1
    && (t.width > 0 ==> t.width * step <= t.stride && t.stride * t.height <= srcLen)
  }

  /** The source byte read for offset `x` of output pixel `(row, col)`, channel `c`: the
      column is perturbed in the horizontal pass, the row in the vertical one. */
  function SampleOffset(t: PassTask, step: int, srcLen: int, row: int, col: int, x: int, c: int): (o: int)
    requires Fits(t, step, srcLen)
    requires 0 <= row < t.height && 0 <= col < t.width && 0 <= c < step
    ensures 0 <= o < srcLen
  {
    var subRow := if t.horz then row else Clamp(row + x, t.height - 1);
    var subCol := if t.horz then Clamp(col + x, t.width - 1) else col;
    RowMajorInBounds(t.stride, step, t.height, t.width, subRow, subCol, c);
    t.stride * subRow + step * subCol + c
  }

  /** The `2r + 1` source bytes read for channel `c` of output pixel `(row, col)`, in the
      order of the loop over `x = -r .. r`. */
  function Taps(src: seq<Byte>, t: PassTask, step: int, row: int, col: int, c: int): (taps: seq<Byte>)
    requires Fits(t, step, |src|) && 0 <= t.r
    requires 0 <= row < t.height && 0 <= col < t.width && 0 <= c < step
    ensures |taps| == 2 * t.r + 1
  {
    seq(2 * t.r + 1, j requires 0 <= j < 2 * t.r + 1 => src[SampleOffset(t, step, |src|, row, col, j - t.r, c)])
  }

  /** The first `k` taps, each multiplied by the weight of its offset `j - r`, added from
      left to right. */
  function Dot(taps: seq<Byte>, w: seq<real>, r: nat, k: nat): real
    requires |taps| == 2 * r + 1 && r < |w| && k <= |taps|
  {
    if k == 0 then 0.0 else Dot(taps, w, r, k - 1) + (taps[k - 1] as real) * w[Abs(k - 1 - r)]
  }

  /** The accumulator after the samples at offsets `-r .. k - 1`. */
  function Conv(src: seq<Byte>, w: seq<real>, t: PassTask, step: int, row: int, col: int, c: int, k: int): real
    requires Fits(t, step, |src|) && 0 <= t.r < |w|
    requires 0 <= row < t.height && 0 <= col < t.width && 0 <= c < step
    requires -t.r <= k <= t.r + 1
  {
    Dot(Taps(src, t, step, row, col, c), w, t.r, k + t.r)
  }

  /** `(BYTE)result`: the accumulator truncated toward zero, keeping its low eight bits. */
  function StoreByte(acc: real): Byte
  {
    TruncToInt(acc) % 256
  }

  /** The byte a pass stores for channel `c` of pixel `(row, col)`. */
  function Pixel(src: seq<Byte>, w: seq<real>, t: PassTask, step: int, row: int, col: int, c: int): Byte
    requires Fits(t, step, |src|) && 0 <= t.r < |w|
    requires 0 <= row < t.height && 0 <= col < t.width && 0 <= c < step
  {
    StoreByte(Conv(src, w, t, step, row, col, c, t.r + 1))
  }

  /** Byte `i` of the buffer is channel `c < ch` of a pixel in rows `[rb, re)` and columns
      `[0, ce)`; row, column and channel are read back from the offset. */
  predicate InRegion(t: PassTask, step: int, ch: int, rb: int, re: int, ce: int, i: int)
    requires step >= 1
  {
    && t.stride > 0 && 0 <= i
    && rb <= i / t.stride < re
    && (i % t.stride) / step < ce
    && (i % t.stride) % step < ch
  }

  /** The buffer `d` after the pass has stored every byte of the region rows `[rb, re)`,
      columns `[0, ce)`, channels `[0, ch)`; every other byte is left as it was. */
  function Apply(d: seq<Byte>, src: seq<Byte>, w: seq<real>, t: PassTask, step: int, ch: int,
                 rb: int, re: int, ce: int): (out: seq<Byte>)
    requires Fits(t, step, |src|) && 0 <= t.r < |w| && 1 <= ch <= step
    requires 0 <= rb && (re <= t.height || re <= rb) && (ce <= t.width || ce <= 0)
    ensures |out| == |d|
  {
    seq(|d|, i requires 0 <= i < |d| =>
      if InRegion(t, step, ch, rb, re, ce, i)
      then RegionDecode(t, step, ch, rb, re, ce, i);
           Pixel(src, w, t, step, i / t.stride, (i % t.stride) / step, (i % t.stride) % step)
      else d[i])
  }

  /** Row, column and channel read back from a byte of the region are not negative, and the
      channel is within the pixel. */
  lemma RegionDecode(t: PassTask, step: int, ch: int, rb: int, re: int, ce: int, i: int)
    requires step >= 1 && InRegion(t, step, ch, rb, re, ce, i)
    ensures 0 <= i / t.stride && 0 <= (i % t.stride) / step && 0 <= (i % t.stride) % step < step
  {
    var m := i % t.stride;
    assert 0 <= m;
    assert 0 <= m / step;
  }

  /** What a worker's pass makes of `d`: its own rows stored, everything else untouched. */
  function PassResult(d: seq<Byte>, src: seq<Byte>, w: seq<real>, t: PassTask, step: int, ch: int): (out: seq<Byte>)
    requires Fits(t, step, |src|) && 0 <= t.r < |w| && 1 <= ch <= step
    requires 0 <= t.rowBegin && t.rowEnd <= t.height
    ensures |out| == |d|
  {
    Apply(d, src, w, Whole(t), step, ch, t.rowBegin, t.rowEnd, t.width)
  }

  /** Storing an empty region changes nothing. */
  lemma ApplyEmpty(d: seq<Byte>, src: seq<Byte>, w: seq<real>, t: PassTask, step: int, ch: int,
                   rb: int, re: int, ce: int)
    requires Fits(t, step, |src|) && 0 <= t.r < |w| && 1 <= ch <= step
    requires 0 <= rb && (re <= t.height || re <= rb) && (ce <= t.width || ce <= 0)
    requires re <= rb || ce <= 0
    ensures Apply(d, src, w, t, step, ch, rb, re, ce) == d
  {
    var out := Apply(d, src, w, t, step, ch, rb, re, ce);
    forall i | 0 <= i < |d|
      ensures out[i] == d[i]
    {
      EmptyRegion(t, step, ch, rb, re, ce, i);
    }
  }

  /** A region with no rows or no columns holds no byte. */
  lemma EmptyRegion(t: PassTask, step: int, ch: int, rb: int, re: int, ce: int, i: int)
    requires step >= 1 && (re <= rb || ce <= 0)
    ensures !InRegion(t, step, ch, rb, re, ce, i)
  {
    if t.stride > 0 && 0 <= i {
      var m := i % t.stride;
      assert 0 <= m;
      assert 0 <= m / step;
    }
  }

  /** Storing rows `[a, b)` and then rows `[b, c)` is storing rows `[a, c)`: the bytes a
      pass stores depend on the source alone, never on what the destination held. */
  lemma ApplyConcat(d: seq<Byte>, src: seq<Byte>, w: seq<real>, t: PassTask, step: int, ch: int,
                    a: int, b: int, c: int, ce: int)
    requires Fits(t, step, |src|) && 0 <= t.r < |w| && 1 <= ch <= step
    requires 0 <= a <= b <= c <= t.height && (ce <= t.width || ce <= 0)
    ensures Apply(Apply(d, src, w, t, step, ch, a, b, ce), src, w, t, step, ch, b, c, ce)
         == Apply(d, src, w, t, step, ch, a, c, ce)
  {
  }

  /** The bytes of column `col` of row `row` are its channels, stored with their values. */
  lemma ColumnStepInside(d: seq<Byte>, src: seq<Byte>, w: seq<real>, t: PassTask, step: int, ch: int,
                         row: int, col: int, c: int)
    requires Fits(t, step, |src|) && 0 <= t.r < |w| && 1 <= ch <= step
    requires 0 <= row < t.height && 0 <= col < t.width && 0 <= c < ch
    requires t.stride * row + step * col + c < |d|
    ensures Apply(d, src, w, t, step, ch, row, row + 1, col + 1)[t.stride * row + step * col + c]
         == Pixel(src, w, t, step, row, col, c)
  {
    RowMajorDecode(t.stride, step, t.width, row, col, c);
  }

  /** Every other byte is stored after column `col + 1` exactly when it was after column `col`. */
  lemma ColumnStepOutside(d: seq<Byte>, src: seq<Byte>, w: seq<real>, t: PassTask, step: int, ch: int,
                          row: int, col: int, i: int)
    requires Fits(t, step, |src|) && 0 <= t.r < |w| && 1 <= ch <= step
    requires 0 <= row < t.height && 0 <= col < t.width && 0 <= i < |d|
    requires !(t.stride * row + step * col <= i < t.stride * row + step * col + ch)
    ensures Apply(d, src, w, t, step, ch, row, row + 1, col + 1)[i]
         == Apply(d, src, w, t, step, ch, row, row + 1, col)[i]
  {
    if InRegion(t, step, ch, row, row + 1, col + 1, i) {
      var q, m := i / t.stride, i % t.stride;
      assert i == t.stride * q + m;
      assert m == step * (m / step) + m % step;
      assert q == row;
      assert m / step != col;
    }
  }

  /** The bytes of pixel `(row, col)` lie inside the first `stride * height` bytes. */
  lemma PixelInImage(t: PassTask, step: int, ch: int, srcLen: int, row: int, col: int)
    requires Fits(t, step, srcLen) && 1 <= ch <= step
    requires 0 <= row < t.height && 0 <= col < t.width
    ensures 0 <= t.stride * row + step * col
    ensures t.stride * row + step * col + ch <= t.stride * t.height
  {
    RowMajorInBounds(t.stride, step, t.height, t.width, row, col, ch - 1);
  }

  /** One more sample taken: the accumulator grows by the sample times its weight. */
  lemma ConvStep(s: seq<Byte>, w: seq<real>, t: PassTask, step: int, row: int, col: int, c: int, k: int,
                 sample: Byte, weight: real)
    requires Fits(t, step, |s|) && 0 <= t.r < |w|
    requires 0 <= row < t.height && 0 <= col < t.width && 0 <= c < step
    requires -t.r <= k <= t.r
    requires sample == s[SampleOffset(t, step, |s|, row, col, k, c)] && weight == w[Abs(k)]
    ensures Conv(s, w, t, step, row, col, c, k + 1) == Conv(s, w, t, step, row, col, c, k) + (sample as real) * weight
  {
    assert Taps(s, t, step, row, col, c)[k + t.r] == sample;
  }

  /** The inner loop of GaussBlurThreadProc8: the weighted sum of the `2r + 1` clamped
      samples around pixel `(row, col)`. */
  method Convolve8(src: array<Byte>, templ: array<real>, t: PassTask, row: int, col: int) returns (acc: real)
    requires Fits(t, 1, src.Length) && 0 <= t.r < templ.Length
    requires 0 <= row < t.height && 0 <= col < t.width
    ensures acc == Conv(src[..], templ[..], Whole(t), 1, row, col, 0, t.r + 1)
  {
    ghost var s, w := src[..], templ[..];
    var tw := Whole(t);
    acc := 0.0;
    var x := -t.r;
    while x <= t.r
      invariant -t.r <= x <= t.r + 1
      invariant acc == Conv(s, w, tw, 1, row, col, 0, x)
    {
      var x1 := if x >= 0 then x else -x;
      var p := SampleOffset(tw, 1, src.Length, row, col, x, 0);
      var sample, weight := src[p], templ[x1];
      ConvStep(s, w, tw, 1, row, col, 0, x, sample, weight);
      acc := acc + (sample as real) * weight;
      x := x + 1;
    }
  }

  /** Storing the byte of pixel `(row, col)` extends the stored region by one column. */
  lemma StoreColumn1(d: seq<Byte>, src: seq<Byte>, w: seq<real>, t: PassTask,
                     row: int, col: int, pos: int, cur: seq<Byte>)
    requires Fits(t, 1, |src|) && 0 <= t.r < |w|
    requires 0 <= row < t.height && 0 <= col < t.width
    requires pos == t.stride * row + col && 0 <= pos < |d|
    requires cur == Apply(d, src, w, t, 1, 1, row, row + 1, col)
    ensures cur[pos := Pixel(src, w, t, 1, row, col, 0)] == Apply(d, src, w, t, 1, 1, row, row + 1, col + 1)
  {
    ColumnStepInside(d, src, w, t, 1, 1, row, col, 0);
    forall i | 0 <= i < |d| && i != pos
      ensures cur[i] == Apply(d, src, w, t, 1, 1, row, row + 1, col + 1)[i]
    {
      ColumnStepOutside(d, src, w, t, 1, 1, row, col, i);
    }
  }

  /** One row of GaussBlurThreadProc8: every pixel of row `row` stored. */
  method BlurRow8(src: array<Byte>, dest: array<Byte>, templ: array<real>, t: PassTask, row: int)
    requires src != dest
    requires Fits(t, 1, src.Length) && 0 <= t.r < templ.Length
    requires 0 <= row < t.height && t.stride * t.height <= dest.Length
    modifies dest
    ensures dest[..] == Apply(old(dest[..]), src[..], templ[..], Whole(t), 1, 1, row, row + 1, t.width)
  {
    ghost var d0, s, w, tw := dest[..], src[..], templ[..], Whole(t);
    var col := 0;
    while col < t.width
      invariant 0 <= col && (col <= t.width || col == 0)
      invariant dest[..] == Apply(d0, s, w, tw, 1, 1, row, row + 1, col)
    {
      var acc := Convolve8(src, templ, t, row, col);
      var pos := t.stride * row + col;
      PixelInImage(tw, 1, 1, |s|, row, col);
      StoreColumn1(d0, s, w, tw, row, col, pos, dest[..]);
      dest[pos] := StoreByte(acc);
      col := col + 1;
    }
    if t.width <= 0 {
      ApplyEmpty(d0, s, w, tw, 1, 1, row, row + 1, t.width);
    }
  }

  /** GaussBlurThreadProc8: the pass over one byte per pixel. */
  method BlurPass8(src: array<Byte>, dest: array<Byte>, templ: array<real>, t: PassTask)
    requires src != dest
    requires Fits(t, 1, src.Length) && 0 <= t.r < templ.Length
    requires 0 <= t.rowBegin && t.rowEnd <= t.height
    requires t.width > 0 ==> t.stride * t.height <= dest.Length
    modifies dest
    ensures dest[..] == PassResult(old(dest[..]), src[..], templ[..], t, 1, 1)
  {
    ghost var d0, s, w, tw := dest[..], src[..], templ[..], Whole(t);
    var row := t.rowBegin;
    while row < t.rowEnd
      invariant t.rowBegin <= row && (row <= t.rowEnd || row == t.rowBegin)
      invariant dest[..] == Apply(d0, s, w, tw, 1, 1, t.rowBegin, row, t.width)
    {
      ghost var rowStart := dest[..];
      if t.width > 0 {
        BlurRow8(src, dest, templ, t, row);
      } else {
        ApplyEmpty(rowStart, s, w, tw, 1, 1, row, row + 1, t.width);
      }
      ApplyConcat(d0, s, w, tw, 1, 1, t.rowBegin, row, row + 1, t.width);
      row := row + 1;
    }
    if t.rowEnd < t.rowBegin {
      ApplyEmpty(d0, s, w, tw, 1, 1, t.rowBegin, t.rowBegin, t.width);
      ApplyEmpty(d0, s, w, tw, 1, 1, t.rowBegin, t.rowEnd, t.width);
    }
  }

  /** One more source pixel taken by the three-channel loop: its channels are the three
      bytes from the clamped sample offset on, and each accumulator grows by one of them
      times the shared weight. */
  lemma ConvStep3(s: seq<Byte>, w: seq<real>, t: PassTask, step: int, row: int, col: int, k: int,
                  p: int, b0: Byte, b1: Byte, b2: Byte, weight: real)
    requires Fits(t, step, |s|) && 3 <= step && 0 <= t.r < |w|
    requires 0 <= row < t.height && 0 <= col < t.width
    requires -t.r <= k <= t.r
    requires p == SampleOffset(t, step, |s|, row, col, k, 0) && p + 2 < |s|
    requires b0 == s[p] && b1 == s[p + 1] && b2 == s[p + 2] && weight == w[Abs(k)]
    ensures Conv(s, w, t, step, row, col, 0, k + 1) == Conv(s, w, t, step, row, col, 0, k) + (b0 as real) * weight
    ensures Conv(s, w, t, step, row, col, 1, k + 1) == Conv(s, w, t, step, row, col, 1, k) + (b1 as real) * weight
    ensures Conv(s, w, t, step, row, col, 2, k + 1) == Conv(s, w, t, step, row, col, 2, k) + (b2 as real) * weight
  {
    assert SampleOffset(t, step, |s|, row, col, k, 1) == p + 1;
    assert SampleOffset(t, step, |s|, row, col, k, 2) == p + 2;
    ConvStep(s, w, t, step, row, col, 0, k, b0, weight);
    ConvStep(s, w, t, step, row, col, 1, k, b1, weight);
    ConvStep(s, w, t, step, row, col, 2, k, b2, weight);
  }

  /** The three channels of a source pixel lie inside the buffer. */
  lemma PixelChannelsInside(t: PassTask, step: int, srcLen: int, row: int, col: int, k: int)
    requires Fits(t, step, srcLen) && 3 <= step
    requires 0 <= row < t.height && 0 <= col < t.width
    ensures SampleOffset(t, step, srcLen, row, col, k, 0) + 2 < srcLen
  {
    assert SampleOffset(t, step, srcLen, row, col, k, 2) == SampleOffset(t, step, srcLen, row, col, k, 0) + 2;
  }

  /** The inner loop of GaussBlurThreadProc24: three weighted sums, one per colour channel,
      over the same `2r + 1` clamped source pixels. */
  method Convolve24(src: array<Byte>, templ: array<real>, t: PassTask, row: int, col: int)
    returns (acc0: real, acc1: real, acc2: real)
    requires Fits(t, t.pixelSize, src.Length) && 3 <= t.pixelSize && 0 <= t.r < templ.Length
    requires 0 <= row < t.height && 0 <= col < t.width
    ensures acc0 == Conv(src[..], templ[..], Whole(t), t.pixelSize, row, col, 0, t.r + 1)
    ensures acc1 == Conv(src[..], templ[..], Whole(t), t.pixelSize, row, col, 1, t.r + 1)
    ensures acc2 == Conv(src[..], templ[..], Whole(t), t.pixelSize, row, col, 2, t.r + 1)
  {
    ghost var s, w := src[..], templ[..];
    var tw := Whole(t);
    var ps := t.pixelSize;
    acc0, acc1, acc2 := 0.0, 0.0, 0.0;
    var x := -t.r;
    while x <= t.r
      invariant -t.r <= x <= t.r + 1
      invariant acc0 == Conv(s, w, tw, ps, row, col, 0, x)
      invariant acc1 == Conv(s, w, tw, ps, row, col, 1, x)
      invariant acc2 == Conv(s, w, tw, ps, row, col, 2, x)
    {
      var x1 := if x >= 0 then x else -x;
      var p := SampleOffset(tw, ps, src.Length, row, col, x, 0);
      PixelChannelsInside(tw, ps, src.Length, row, col, x);
      var b0, b1, b2, weight := src[p], src[p + 1], src[p + 2], templ[x1];
      ConvStep3(s, w, tw, ps, row, col, x, p, b0, b1, b2, weight);
      acc0 := acc0 + (b0 as real) * weight;
      acc1 := acc1 + (b1 as real) * weight;
      acc2 := acc2 + (b2 as real) * weight;
      x := x + 1;
    }
  }

  /** Storing the three channels of pixel `(row, col)` extends the stored region by one
      column. */
  lemma StoreColumn3(d: seq<Byte>, src: seq<Byte>, w: seq<real>, t: PassTask, step: int,
                     row: int, col: int, pos: int, cur: seq<Byte>)
    requires Fits(t, step, |src|) && 0 <= t.r < |w| && 3 <= step
    requires 0 <= row < t.height && 0 <= col < t.width
    requires pos == t.stride * row + step * col && 0 <= pos && pos + 3 <= |d|
    requires cur == Apply(d, src, w, t, step, 3, row, row + 1, col)
    ensures cur[pos := Pixel(src, w, t, step, row, col, 0)]
               [pos + 1 := Pixel(src, w, t, step, row, col, 1)]
               [pos + 2 := Pixel(src, w, t, step, row, col, 2)]
         == Apply(d, src, w, t, step, 3, row, row + 1, col + 1)
  {
    ColumnStepInside(d, src, w, t, step, 3, row, col, 0);
    ColumnStepInside(d, src, w, t, step, 3, row, col, 1);
    ColumnStepInside(d, src, w, t, step, 3, row, col, 2);
    forall i | 0 <= i < |d| && !(pos <= i < pos + 3)
      ensures cur[i] == Apply(d, src, w, t, step, 3, row, row + 1, col + 1)[i]
    {
      ColumnStepOutside(d, src, w, t, step, 3, row, col, i);
    }
  }

  /** One row of GaussBlurThreadProc24: channels 0, 1 and 2 of every pixel of row `row`
      stored. */
  method BlurRow24(src: array<Byte>, dest: array<Byte>, templ: array<real>, t: PassTask, row: int)
    requires src != dest
    requires Fits(t, t.pixelSize, src.Length) && 3 <= t.pixelSize && 0 <= t.r < templ.Length
    requires 0 <= row < t.height && t.stride * t.height <= dest.Length
    modifies dest
    ensures dest[..] == Apply(old(dest[..]), src[..], templ[..], Whole(t), t.pixelSize, 3, row, row + 1, t.width)
  {
    ghost var d0, s, w, tw := dest[..], src[..], templ[..], Whole(t);
    var ps := t.pixelSize;
    var col := 0;
    while col < t.width
      invariant 0 <= col && (col <= t.width || col == 0)
      invariant dest[..] == Apply(d0, s, w, tw, ps, 3, row, row + 1, col)
    {
      var acc0, acc1, acc2 := Convolve24(src, templ, t, row, col);
      var pos := t.stride * row + ps * col;
      PixelInImage(tw, ps, 3, |s|, row, col);
      StoreColumn3(d0, s, w, tw, ps, row, col, pos, dest[..]);
      dest[pos] := StoreByte(acc0);
      dest[pos + 1] := StoreByte(acc1);
      dest[pos + 2] := StoreByte(acc2);
      col := col + 1;
    }
    if t.width <= 0 {
      ApplyEmpty(d0, s, w, tw, ps, 3, row, row + 1, t.width);
    }
  }

  /** GaussBlurThreadProc24: the pass over 3- or 4-byte pixels; it stores channels 0, 1 and 2
      of each pixel and never writes a fourth byte. */
  method BlurPass24(src: array<Byte>, dest: array<Byte>, templ: array<real>, t: PassTask)
    requires src != dest
    requires Fits(t, t.pixelSize, src.Length) && 3 <= t.pixelSize && 0 <= t.r < templ.Length
    requires 0 <= t.rowBegin && t.rowEnd <= t.height
    requires t.width > 0 ==> t.stride * t.height <= dest.Length
    modifies dest
    ensures dest[..] == PassResult(old(dest[..]), src[..], templ[..], t, t.pixelSize, 3)
  {
    ghost var d0, s, w, tw := dest[..], src[..], templ[..], Whole(t);
    var row := t.rowBegin;
    while row < t.rowEnd
      invariant t.rowBegin <= row && (row <= t.rowEnd || row == t.rowBegin)
      invariant dest[..] == Apply(d0, s, w, tw, t.pixelSize, 3, t.rowBegin, row, t.width)
    {
      ghost var rowStart := dest[..];
      if t.width > 0 {
        BlurRow24(src, dest, templ, t, row);
      } else {
        ApplyEmpty(rowStart, s, w, tw, t.pixelSize, 3, row, row + 1, t.width);
      }
      ApplyConcat(d0, s, w, tw, t.pixelSize, 3, t.rowBegin, row, row + 1, t.width);
      row := row + 1;
    }
    if t.rowEnd < t.rowBegin {
      ApplyEmpty(d0, s, w, tw, t.pixelSize, 3, t.rowBegin, t.rowBegin, t.width);
      ApplyEmpty(d0, s, w, tw, t.pixelSize, 3, t.rowBegin, t.rowEnd, t.width);
    }
  }
}
