/** Properties of the passes that `Filter` relies on: the workers of one pass together do
    what a single pass over all rows does, in whatever order they finish; the vertical pass
    reads only bytes the horizontal pass has stored, so the scratch buffer's initial
    contents never matter; and with a normalised table a pass keeps a uniform image as it is
    and never stores a value that wraps around. */
module PassFacts {
  import opened Numeric
  import opened Kernel
  import opened Partition
  import opened Convolution

  /** The parameter block of worker `i` of `n`: the pass parameters with that worker's rows. */
  function Worker(t: PassTask, n: int, i: int): (p: PassTask)
    requires 1 <= n <= t.height && 0 <= i < n
    ensures Whole(p) == Whole(t)
    ensures 0 <= p.rowBegin < p.rowEnd <= p.height
  {
    ChunkInImage(t.height, n, i);
    t.(rowBegin := RowBegin(t.height, n, i), rowEnd := RowEnd(t.height, n, i))
  }

  /** The buffer after workers `0 .. k - 1` of `n` have each run their pass on `d`. */
  function Chunked(d: seq<Byte>, src: seq<Byte>, w: seq<real>, t: PassTask, step: int, ch: int,
                   n: int, k: int): (out: seq<Byte>)
    requires Fits(t, step, |src|) && 0 <= t.r < |w| && 1 <= ch <= step
    requires 1 <= n <= t.height && 0 <= k <= n
    ensures |out| == |d|
    decreases k
  {
    if k == 0 then d
    else PassResult(Chunked(d, src, w, t, step, ch, n, k - 1), src, w, Worker(t, n, k - 1), step, ch)
  }

  /** The first `k` workers have together stored rows `[0, RowEnd(k - 1))`. */
  lemma {:induction false} ChunkedPrefix(d: seq<Byte>, src: seq<Byte>, w: seq<real>, t: PassTask,
                                         step: int, ch: int, n: int, k: int)
    requires Fits(t, step, |src|) && 0 <= t.r < |w| && 1 <= ch <= step
    requires 1 <= n <= t.height && 1 <= k <= n
    ensures 0 <= RowEnd(t.height, n, k - 1) <= t.height
    ensures Chunked(d, src, w, t, step, ch, n, k)
         == Apply(d, src, w, Whole(t), step, ch, 0, RowEnd(t.height, n, k - 1), t.width)
  {
    ChunkInImage(t.height, n, k - 1);
    ChunksContiguous(t.height, n, k - 1);
    if k == 1 {
      assert Chunked(d, src, w, t, step, ch, n, 0) == d;
    } else {
      ChunkedPrefix(d, src, w, t, step, ch, n, k - 1);
      ChunksContiguous(t.height, n, k - 2);
      ApplyConcat(d, src, w, Whole(t), step, ch, 0, RowEnd(t.height, n, k - 2),
                  RowEnd(t.height, n, k - 1), t.width);
    }
  }

  /** All `n` workers of a pass together make exactly the single-threaded pass over rows
      `[0, height)`. */
  lemma ChunkedIsWholePass(d: seq<Byte>, src: seq<Byte>, w: seq<real>, t: PassTask,
                           step: int, ch: int, n: int)
    requires Fits(t, step, |src|) && 0 <= t.r < |w| && 1 <= ch <= step
    requires 1 <= n <= t.height
    ensures Chunked(d, src, w, t, step, ch, n, n) == PassResult(d, src, w, Whole(t), step, ch)
  {
    ChunkedPrefix(d, src, w, t, step, ch, n, n);
    ChunksContiguous(t.height, n, n - 1);
  }

  /** Two workers with disjoint rows can finish in either order: the stored bytes of one
      never depend on what the other stores. */
  lemma {:induction false} DisjointPassesCommute(d: seq<Byte>, src: seq<Byte>, w: seq<real>, t: PassTask,
                                                 step: int, ch: int, a: int, b: int, c: int, e: int)
    requires Fits(t, step, |src|) && 0 <= t.r < |w| && 1 <= ch <= step
    requires 0 <= a <= b <= c <= e <= t.height
    ensures Apply(Apply(d, src, w, t, step, ch, a, b, t.width), src, w, t, step, ch, c, e, t.width)
         == Apply(Apply(d, src, w, t, step, ch, c, e, t.width), src, w, t, step, ch, a, b, t.width)
  {
    var x := Apply(Apply(d, src, w, t, step, ch, a, b, t.width), src, w, t, step, ch, c, e, t.width);
    var y := Apply(Apply(d, src, w, t, step, ch, c, e, t.width), src, w, t, step, ch, a, b, t.width);
    forall i | 0 <= i < |d|
      ensures x[i] == y[i]
    {
      if InRegion(t, step, ch, c, e, t.width, i) {
        assert !InRegion(t, step, ch, a, b, t.width, i);
      }
    }
  }

  /** The source byte read for channel `c < ch` of any pixel lies in the region a pass over
      all rows stores, channels `[0, ch)`: the clamp keeps the sample inside the image. */
  lemma SampleInRegion(t: PassTask, step: int, ch: int, srcLen: int, row: int, col: int, x: int, c: int)
    requires Fits(t, step, srcLen) && 1 <= ch <= step
    requires 0 <= row < t.height && 0 <= col < t.width && 0 <= c < ch
    ensures InRegion(t, step, ch, 0, t.height, t.width, SampleOffset(t, step, srcLen, row, col, x, c))
  {
    var subRow := if t.horz then row else Clamp(row + x, t.height - 1);
    var subCol := if t.horz then Clamp(col + x, t.width - 1) else col;
    RowMajorDecode(t.stride, step, t.width, subRow, subCol, c);
    RowMajorInBounds(t.stride, step, t.height, t.width, subRow, subCol, c);
  }

  /** Two sources that agree on the stored region give a pixel the same taps. */
  lemma TapsReadRegion(s1: seq<Byte>, s2: seq<Byte>, t: PassTask, step: int, ch: int,
                       row: int, col: int, c: int)
    requires |s1| == |s2| && Fits(t, step, |s1|) && 0 <= t.r && 1 <= ch <= step
    requires 0 <= row < t.height && 0 <= col < t.width && 0 <= c < ch
    requires forall i :: 0 <= i < |s1| && InRegion(t, step, ch, 0, t.height, t.width, i) ==> s1[i] == s2[i]
    ensures Taps(s1, t, step, row, col, c) == Taps(s2, t, step, row, col, c)
  {
    forall j | 0 <= j < 2 * t.r + 1
      ensures Taps(s1, t, step, row, col, c)[j] == Taps(s2, t, step, row, col, c)[j]
    {
      SampleInRegion(t, step, ch, |s1|, row, col, j - t.r, c);
    }
  }

  /** Two sources that agree on the stored region give the same byte at every position of
      the region. */
  lemma PixelReadsRegion(s1: seq<Byte>, s2: seq<Byte>, w: seq<real>, t: PassTask, step: int, ch: int, i: int)
    requires |s1| == |s2| && Fits(t, step, |s1|) && 0 <= t.r < |w| && 1 <= ch <= step
    requires InRegion(t, step, ch, 0, t.height, t.width, i)
    requires forall j :: 0 <= j < |s1| && InRegion(t, step, ch, 0, t.height, t.width, j) ==> s1[j] == s2[j]
    ensures Pixel(s1, w, t, step, i / t.stride, (i % t.stride) / step, (i % t.stride) % step)
         == Pixel(s2, w, t, step, i / t.stride, (i % t.stride) / step, (i % t.stride) % step)
  {
    RegionDecode(t, step, ch, 0, t.height, t.width, i);
    TapsReadRegion(s1, s2, t, step, ch, i / t.stride, (i % t.stride) / step, (i % t.stride) % step);
  }

  /** The whole blur: a horizontal pass from `src` into `scratch`, then a vertical pass from
      `scratch` into `d`, each over all rows. */
  function TwoPass(d: seq<Byte>, scratch: seq<Byte>, src: seq<Byte>, w: seq<real>, t: PassTask,
                   step: int, ch: int): (out: seq<Byte>)
    requires Fits(t, step, |src|) && Fits(t, step, |scratch|) && 0 <= t.r < |w| && 1 <= ch <= step
    ensures |out| == |d|
  {
    var mid := Apply(scratch, src, w, t.(horz := true), step, ch, 0, t.height, t.width);
    Apply(d, mid, w, t.(horz := false), step, ch, 0, t.height, t.width)
  }

  /** A pass over all rows stores the same bytes whatever the destination held before. */
  lemma StoredRegionAgrees(a: seq<Byte>, b: seq<Byte>, src: seq<Byte>, w: seq<real>, t: PassTask,
                           u: PassTask, step: int, ch: int)
    requires Fits(t, step, |src|) && |a| == |b| && 0 <= t.r < |w| && 1 <= ch <= step
    requires u.stride == t.stride && u.height == t.height && u.width == t.width
    ensures forall i :: 0 <= i < |a| && InRegion(u, step, ch, 0, u.height, u.width, i) ==>
      Apply(a, src, w, t, step, ch, 0, t.height, t.width)[i] == Apply(b, src, w, t, step, ch, 0, t.height, t.width)[i]
  {
  }

  /** One byte of the two-pass result does not depend on the scratch buffer. */
  lemma TwoPassByte(d: seq<Byte>, a: seq<Byte>, b: seq<Byte>, src: seq<Byte>, w: seq<real>,
                    t: PassTask, step: int, ch: int, i: int)
    requires Fits(t, step, |src|) && Fits(t, step, |a|) && |a| == |b| && 0 <= t.r < |w| && 1 <= ch <= step
    requires 0 <= i < |d|
    ensures TwoPass(d, a, src, w, t, step, ch)[i] == TwoPass(d, b, src, w, t, step, ch)[i]
  {
    var th, tv := t.(horz := true), t.(horz := false);
    if InRegion(tv, step, ch, 0, tv.height, tv.width, i) {
      var ma := Apply(a, src, w, th, step, ch, 0, t.height, t.width);
      var mb := Apply(b, src, w, th, step, ch, 0, t.height, t.width);
      StoredRegionAgrees(a, b, src, w, th, tv, step, ch);
      PixelReadsRegion(ma, mb, w, tv, step, ch, i);
    }
  }

  /** The scratch buffer is read only where the horizontal pass has already stored, so its
      initial contents do not change the result. */
  lemma TwoPassIgnoresScratch(d: seq<Byte>, a: seq<Byte>, b: seq<Byte>, src: seq<Byte>, w: seq<real>,
                              t: PassTask, step: int, ch: int)
    requires Fits(t, step, |src|) && Fits(t, step, |a|) && |a| == |b| && 0 <= t.r < |w| && 1 <= ch <= step
    ensures TwoPass(d, a, src, w, t, step, ch) == TwoPass(d, b, src, w, t, step, ch)
  {
    forall i | 0 <= i < |d|
      ensures TwoPass(d, a, src, w, t, step, ch)[i] == TwoPass(d, b, src, w, t, step, ch)[i]
    {
      TwoPassByte(d, a, b, src, w, t, step, ch, i);
    }
  }

  lemma Distribute(a: real, x: real, y: real)
    ensures a * (x + y) == a * x + a * y
  {
  }

  /** Over taps that all hold `v`, the first `k` of them add up to `v` times their weights. */
  lemma {:induction false} DotUniform(taps: seq<Byte>, w: seq<real>, r: nat, k: nat, v: Byte)
    requires |taps| == 2 * r + 1 && r < |w| && k <= |taps|
    requires forall j :: 0 <= j < |taps| ==> taps[j] == v
    ensures Dot(taps, w, r, k) == (v as real) * Window(w, -(r as int), k - r)
  {
    if k > 0 {
      DotUniform(taps, w, r, k - 1, v);
      var prev, before, wk := Dot(taps, w, r, k - 1), Window(w, -(r as int), k - 1 - r), w[Abs(k - 1 - r)];
      assert taps[k - 1] == v;
      assert Dot(taps, w, r, k) == prev + (v as real) * wk;
      assert Window(w, -(r as int), k - r) == before + wk;
      Distribute(v as real, before, wk);
    }
  }

  /** With a normalised table a pass stores `v` wherever the source image is uniformly `v`;
      what the padding bytes hold does not matter. */
  lemma UniformPixel(src: seq<Byte>, w: seq<real>, t: PassTask, step: int, ch: int,
                     row: int, col: int, c: int, v: Byte)
    requires Fits(t, step, |src|) && 0 <= t.r && Normalised(w, t.r) && 1 <= ch <= step
    requires 0 <= row < t.height && 0 <= col < t.width && 0 <= c < ch
    requires forall i :: 0 <= i < |src| && InRegion(t, step, ch, 0, t.height, t.width, i) ==> src[i] == v
    ensures Pixel(src, w, t, step, row, col, c) == v
  {
    var taps := Taps(src, t, step, row, col, c);
    forall j | 0 <= j < |taps|
      ensures taps[j] == v
    {
      SampleInRegion(t, step, ch, |src|, row, col, j - t.r, c);
    }
    DotUniform(taps, w, t.r, 2 * t.r + 1, v);
    assert 2 * t.r + 1 - t.r == t.r + 1;
    WindowIsSymmetricMass(w, t.r);
    StoreWholeByte(v);
  }

  /** Storing an accumulator that already holds a byte value gives that byte back. */
  lemma StoreWholeByte(v: Byte)
    ensures StoreByte(v as real) == v
  {
    assert (v as real).Floor == v;
  }

  /** Adding a byte times a non-negative weight to an accumulator within `[0, 255 * mass]`
      keeps it within `[0, 255 * (mass + weight)]`. */
  lemma WeightedSampleBounds(acc: real, mass: real, b: Byte, wk: real)
    requires 0.0 <= acc <= 255.0 * mass && wk >= 0.0
    ensures 0.0 <= acc + (b as real) * wk <= 255.0 * (mass + wk)
  {
    NatTimesNonNeg(b, wk);
    NatTimesNonNeg(255 - b, wk);
    Distribute(255.0, mass, wk);
    assert ((255 - b) as real) * wk == 255.0 * wk - (b as real) * wk;
  }

  /** A natural number of non-negative weights weighs at least nothing. */
  lemma {:induction false} NatTimesNonNeg(n: nat, x: real)
    requires x >= 0.0
    ensures (n as real) * x >= 0.0
  {
    if n > 0 {
      NatTimesNonNeg(n - 1, x);
      assert (n as real) * x == ((n - 1) as real) * x + x;
    }
  }

  /** With no negative weight the first `k` taps add up to between zero and 255 times their
      weights. */
  lemma {:induction false} DotBounds(taps: seq<Byte>, w: seq<real>, r: nat, k: nat)
    requires |taps| == 2 * r + 1 && r < |w| && k <= |taps| && NonNegative(w)
    ensures 0.0 <= Dot(taps, w, r, k) <= 255.0 * Window(w, -(r as int), k - r)
  {
    if k > 0 {
      DotBounds(taps, w, r, k - 1);
      var prev, before, wk := Dot(taps, w, r, k - 1), Window(w, -(r as int), k - 1 - r), w[Abs(k - 1 - r)];
      assert Dot(taps, w, r, k) == prev + (taps[k - 1] as real) * wk;
      assert Window(w, -(r as int), k - r) == before + wk;
      WeightedSampleBounds(prev, before, taps[k - 1], wk);
    }
  }

  /** With a normalised table of non-negative weights the stored byte is the accumulator
      rounded down: the `(BYTE)` conversion never wraps. */
  lemma PixelIsFloor(src: seq<Byte>, w: seq<real>, t: PassTask, step: int, row: int, col: int, c: int)
    requires Fits(t, step, |src|) && 0 <= t.r && Normalised(w, t.r) && NonNegative(w)
    requires 0 <= row < t.height && 0 <= col < t.width && 0 <= c < step
    ensures Pixel(src, w, t, step, row, col, c) == Conv(src, w, t, step, row, col, c, t.r + 1).Floor
  {
    DotBounds(Taps(src, t, step, row, col, c), w, t.r, 2 * t.r + 1);
    assert 2 * t.r + 1 - t.r == t.r + 1;
    WindowIsSymmetricMass(w, t.r);
  }
}
