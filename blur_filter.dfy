/** `CGaussBlurImgFilter` together with the thread settings it inherits from `IImgFilter`:
    a radius and a weight table derived from sigma, and `Filter`, which blurs an image
    with a horizontal pass into a scratch buffer followed by a vertical pass into the
    destination, each pass either run whole or split by rows among workers. */
module BlurFilter {
  import opened Numeric
  import opened Geometry
  import opened Partition
  import opened Kernel
  import opened Convolution
  import opened PassFacts

  /** The horizontal pass over all rows of an image, as `Filter` sets it up. */
  function HorzTask(r: int, width: int, height: int, bpp: int): PassTask
    requires SupportedDepth(bpp)
  {
    PassTask(r, width, AbsHeight(height), 0, AbsHeight(height), Stride(width, bpp), PixelSize(bpp), true)
  }

  /** A buffer of at least `stride * absHeight` bytes holds the image the passes address. */
  lemma TaskFits(r: int, width: int, height: int, bpp: int, len: int)
    requires SupportedDepth(bpp) && BufferSize(width, height, bpp) <= len
    ensures Fits(HorzTask(r, width, height, bpp), PixelSize(bpp), len)
    ensures 1 <= Channels(bpp) <= PixelSize(bpp)
  {
    PixelSizeOfDepth(bpp);
    if width > 0 {
      StrideFitsRow(width, bpp);
    }
  }

  /** Bytes in the scratch buffer: `stride * absHeight`, or none when that is negative. */
  function ScratchSize(width: int, height: int, bpp: int): nat
  {
    if BufferSize(width, height, bpp) >= 0 then BufferSize(width, height, bpp) else 0
  }

  /** What a successful `Filter` makes of the destination `d`: the vertical pass over the
      result of the horizontal pass over `src`. The scratch buffer is taken as zeros; by
      `TwoPassIgnoresScratch` any other contents give the same result. */
  function Blur(d: seq<Byte>, src: seq<Byte>, w: seq<real>, r: int, width: int, height: int, bpp: int): (out: seq<Byte>)
    requires SupportedDepth(bpp) && 0 <= r < |w| && BufferSize(width, height, bpp) <= |src|
    ensures |out| == |d|
  {
    TaskFits(r, width, height, bpp, |src|);
    TaskFits(r, width, height, bpp, ScratchSize(width, height, bpp));
    TwoPass(d, seq(ScratchSize(width, height, bpp), _ => 0), src, w, HorzTask(r, width, height, bpp),
            PixelSize(bpp), Channels(bpp))
  }

  /** Byte `i` is one the blur stores: a colour channel of a pixel of the image. */
  predicate Stored(width: int, height: int, bpp: int, i: int)
    requires SupportedDepth(bpp)
  {
    InRegion(HorzTask(0, width, height, bpp), PixelSize(bpp), Channels(bpp), 0, AbsHeight(height), width, i)
  }

  /** A byte of the region lies before the end of the last row, before the row's padding
      and in one of the first `ch` bytes of its pixel. */
  lemma RegionBounds(t: PassTask, step: int, ch: int, rows: int, cols: int, i: int)
    requires step >= 1 && InRegion(t, step, ch, 0, rows, cols, i)
    ensures i < t.stride * rows && i % t.stride < cols * step && i % t.stride % step < ch
  {
    var q, m := i / t.stride, i % t.stride;
    assert i == t.stride * q + m;
    MulLeft(t.stride, q + 1, rows);
    assert m == step * (m / step) + m % step;
    MulLeft(step, m / step + 1, cols);
  }

  /** The blur leaves alone every byte that is not a colour channel of a pixel: the padding
      at the end of each row, the fourth byte of a 32 bpp pixel, and anything past the last
      row. */
  lemma BlurKeepsUnstored(d: seq<Byte>, src: seq<Byte>, w: seq<real>, r: int,
                          width: int, height: int, bpp: int, i: int)
    requires SupportedDepth(bpp) && 0 <= r < |w| && BufferSize(width, height, bpp) <= |src|
    requires 0 <= i < |d|
    requires || i >= BufferSize(width, height, bpp)
             || (Stride(width, bpp) > 0 && i % Stride(width, bpp) >= width * PixelSize(bpp))
             || (Stride(width, bpp) > 0 && i % Stride(width, bpp) % PixelSize(bpp) >= Channels(bpp))
    ensures !Stored(width, height, bpp, i)
    ensures Blur(d, src, w, r, width, height, bpp)[i] == d[i]
  {
    PixelSizeOfDepth(bpp);
    if Stored(width, height, bpp, i) {
      RegionBounds(HorzTask(0, width, height, bpp), PixelSize(bpp), Channels(bpp), AbsHeight(height), width, i);
      assert false;
    }
  }

  /** An image whose pixels all have the same value in every colour channel keeps that value
      in every channel the blur stores; the other bytes are `BlurKeepsUnstored`'s concern. */
  lemma BlurKeepsUniform(d: seq<Byte>, src: seq<Byte>, w: seq<real>, r: int,
                         width: int, height: int, bpp: int, v: Byte, i: int)
    requires SupportedDepth(bpp) && 0 <= r && Normalised(w, r) && BufferSize(width, height, bpp) <= |src|
    requires forall j :: 0 <= j < |src| && Stored(width, height, bpp, j) ==> src[j] == v
    requires 0 <= i < |d| && Stored(width, height, bpp, i)
    ensures Blur(d, src, w, r, width, height, bpp)[i] == v
  {
    var t := HorzTask(r, width, height, bpp);
    var th, tv, ps, ch := t.(horz := true), t.(horz := false), PixelSize(bpp), Channels(bpp);
    TaskFits(r, width, height, bpp, |src|);
    TaskFits(r, width, height, bpp, ScratchSize(width, height, bpp));
    var mid := Apply(seq(ScratchSize(width, height, bpp), _ => 0), src, w, th, ps, ch, 0, t.height, t.width);
    forall j | 0 <= j < |mid| && InRegion(tv, ps, ch, 0, tv.height, tv.width, j)
      ensures mid[j] == v
    {
      UniformPixel(src, w, th, ps, ch, j / t.stride, (j % t.stride) / ps, (j % t.stride) % ps, v);
    }
    UniformPixel(mid, w, tv, ps, ch, i / t.stride, (i % t.stride) / ps, (i % t.stride) % ps, v);
  }

  /** A blur of an image without rows changes nothing. */
  lemma BlurOfNoRows(d: seq<Byte>, src: seq<Byte>, w: seq<real>, r: int, width: int, height: int, bpp: int)
    requires SupportedDepth(bpp) && 0 <= r < |w| && BufferSize(width, height, bpp) <= |src|
    requires height == 0
    ensures Blur(d, src, w, r, width, height, bpp) == d
  {
    var t := HorzTask(r, width, height, bpp);
    TaskFits(r, width, height, bpp, |src|);
    TaskFits(r, width, height, bpp, ScratchSize(width, height, bpp));
    var mid := Apply(seq(ScratchSize(width, height, bpp), _ => 0), src, w, t, PixelSize(bpp), Channels(bpp), 0, 0, width);
    ApplyEmpty(d, mid, w, t.(horz := false), PixelSize(bpp), Channels(bpp), 0, 0, width);
  }

  /** `(bpp == 8) ? GaussBlurThreadProc8 : GaussBlurThreadProc24`: one worker's pass. */
  method RunPass(src: array<Byte>, dest: array<Byte>, templ: array<real>, t: PassTask, bpp: int)
    requires src != dest && SupportedDepth(bpp) && t.pixelSize == PixelSize(bpp)
    requires Fits(t, PixelSize(bpp), src.Length) && 0 <= t.r < templ.Length
    requires 0 <= t.rowBegin && t.rowEnd <= t.height
    requires t.width > 0 ==> t.stride * t.height <= dest.Length
    modifies dest
    ensures dest[..] == PassResult(old(dest[..]), src[..], templ[..], t, PixelSize(bpp), Channels(bpp))
  {
    PixelSizeOfDepth(bpp);
    if bpp == 8 {
      BlurPass8(src, dest, templ, t);
    } else {
      BlurPass24(src, dest, templ, t);
    }
  }

  /** The first loop of the multi-threaded branch of `Filter`: worker `i` of `n` gets the
      parameter block of the horizontal pass over its own rows and runs it from `src` into
      `temp`. Workers run here one after another, in creation order. */
  method HorizontalWorkers(src: array<Byte>, temp: array<Byte>, templ: array<real>,
                           params: array<PassTask>, t: PassTask, bpp: int)
    requires temp != src && SupportedDepth(bpp) && t.pixelSize == PixelSize(bpp)
    requires Fits(t, PixelSize(bpp), src.Length) && 0 <= t.r < templ.Length
    requires t.width > 0 ==> t.stride * t.height <= temp.Length
    requires 1 <= params.Length <= t.height
    modifies temp, params
    ensures forall j :: 0 <= j < params.Length ==> params[j] == Worker(t, params.Length, j)
    ensures temp[..] == Chunked(old(temp[..]), src[..], templ[..], t, PixelSize(bpp), Channels(bpp),
                                params.Length, params.Length)
  {
    ghost var scratch0, s0, w := temp[..], src[..], templ[..];
    ghost var ps, ch := PixelSize(bpp), Channels(bpp);
    PixelSizeOfDepth(bpp);
    var n := params.Length;
    var i := 0;
    while i < n
      invariant 0 <= i <= n
      invariant src[..] == s0
      invariant temp[..] == Chunked(scratch0, s0, w, t, ps, ch, n, i)
      invariant forall j :: 0 <= j < i ==> params[j] == Worker(t, n, j)
    {
      var rowBegin := t.height / n * i;
      var rowEnd := if i == n - 1 then t.height else rowBegin + t.height / n;
      params[i] := t.(rowBegin := rowBegin, rowEnd := rowEnd);
      assert params[i] == Worker(t, n, i);
      RunPass(src, temp, templ, params[i], bpp);
      i := i + 1;
    }
  }

  /** The second loop of the multi-threaded branch of `Filter`: every worker's parameter
      block is switched to the vertical pass, which it runs from `temp` into `dest`. */
  method VerticalWorkers(temp: array<Byte>, dest: array<Byte>, templ: array<real>,
                         params: array<PassTask>, t: PassTask, bpp: int)
    requires temp != dest && SupportedDepth(bpp) && t.pixelSize == PixelSize(bpp)
    requires Fits(t, PixelSize(bpp), temp.Length) && 0 <= t.r < templ.Length
    requires t.width > 0 ==> t.stride * t.height <= dest.Length
    requires 1 <= params.Length <= t.height
    requires forall j :: 0 <= j < params.Length ==> params[j] == Worker(t, params.Length, j)
    modifies dest, params
    ensures forall j :: 0 <= j < params.Length ==> params[j] == Worker(t.(horz := false), params.Length, j)
    ensures dest[..] == Chunked(old(dest[..]), temp[..], templ[..], t.(horz := false), PixelSize(bpp),
                                Channels(bpp), params.Length, params.Length)
  {
    ghost var d0, mid, w := dest[..], temp[..], templ[..];
    ghost var ps, ch, tv := PixelSize(bpp), Channels(bpp), t.(horz := false);
    PixelSizeOfDepth(bpp);
    var n := params.Length;
    var i := 0;
    while i < n
      invariant 0 <= i <= n
      invariant temp[..] == mid
      invariant dest[..] == Chunked(d0, mid, w, tv, ps, ch, n, i)
      invariant forall j :: 0 <= j < i ==> params[j] == Worker(tv, n, j)
      invariant forall j :: i <= j < n ==> params[j] == Worker(t, n, j)
    {
      params[i] := params[i].(horz := false);
      assert params[i] == Worker(tv, n, i);
      RunPass(temp, dest, templ, params[i], bpp);
      i := i + 1;
    }
  }

  /** The multi-threaded branch of `Filter`: `n` workers run the horizontal pass from `src`
      into `temp`, each over its own block of rows; after all of them are done, the same
      workers run the vertical pass from `temp` into `dest`. */
  method Workers(src: array<Byte>, temp: array<Byte>, dest: array<Byte>, templ: array<real>,
                 t: PassTask, bpp: int, n: int)
    requires temp != src && temp != dest && SupportedDepth(bpp) && t.pixelSize == PixelSize(bpp)
    requires t.horz && t.rowBegin == 0 && t.rowEnd == t.height
    requires Fits(t, PixelSize(bpp), src.Length) && Fits(t, PixelSize(bpp), temp.Length)
    requires 0 <= t.r < templ.Length
    requires t.width > 0 ==> t.stride * t.height <= dest.Length
    requires 0 <= n <= t.height && (n == 0 ==> t.height == 0)
    modifies temp, dest
    ensures dest[..] == TwoPass(old(dest[..]), old(temp[..]), old(src[..]), templ[..], t,
                                PixelSize(bpp), Channels(bpp))
  {
    ghost var d0, s0, w, scratch0 := dest[..], src[..], templ[..], temp[..];
    ghost var ps, ch, tv := PixelSize(bpp), Channels(bpp), t.(horz := false);
    PixelSizeOfDepth(bpp);
    assert t.(horz := true) == t;
    if n == 0 {
      ApplyEmpty(scratch0, s0, w, t, ps, ch, 0, 0, t.width);
      ApplyEmpty(d0, scratch0, w, tv, ps, ch, 0, 0, t.width);
      return;
    }
    var params := new PassTask[n];
    HorizontalWorkers(src, temp, templ, params, t, bpp);
    ChunkedIsWholePass(scratch0, s0, w, t, ps, ch, n);
    ghost var mid := temp[..];
    VerticalWorkers(temp, dest, templ, params, t, bpp);
    ChunkedIsWholePass(d0, mid, w, tv, ps, ch, n);
  }

  /** The first loop of `SetSigma`: entry `i` of the table becomes `weightOf(i)`. */
  method FillRaw(a: array<real>, weightOf: nat -> real)
    requires a.Length >= 1
    modifies a
    ensures a[..] == RawTable(weightOf, a.Length - 1)
  {
    var i := 0;
    while i < a.Length
      invariant 0 <= i <= a.Length
      invariant forall j :: 0 <= j < i ==> a[j] == weightOf(j)
    {
      a[i] := weightOf(i);
      i := i + 1;
    }
  }

  /** The second loop of `SetSigma`: `w[0] + 2 * w[1] + ... + 2 * w[r]`. */
  method SumTable(a: array<real>) returns (sum: real)
    requires a.Length >= 1
    ensures sum == SymmetricMass(a[..], a.Length - 1)
  {
    sum := a[0];
    var i := 1;
    while i < a.Length
      invariant 1 <= i <= a.Length
      invariant sum == SymmetricMass(a[..], i - 1)
    {
      sum := sum + a[i] * 2.0;
      i := i + 1;
    }
  }

  /** The third loop of `SetSigma`: every entry multiplied by `c`. */
  method ScaleTable(a: array<real>, c: real)
    modifies a
    ensures a[..] == Scale(old(a[..]), c)
  {
    ghost var raw := a[..];
    var i := 0;
    while i < a.Length
      invariant 0 <= i <= a.Length
      invariant forall j :: 0 <= j < i ==> a[j] == raw[j] * c
      invariant forall j :: i <= j < a.Length ==> a[j] == raw[j]
    {
      a[i] := a[i] * c;
      i := i + 1;
    }
    assert forall j :: 0 <= j < a.Length ==> a[..][j] == Scale(raw, c)[j];
  }

  /** The three loops of `SetSigma` over a freshly allocated table of `r + 1` entries:
      store `weightOf(i)` at `i`, add up `w[0] + 2 * (w[1] + ... + w[r])`, and multiply
      every entry by the reciprocal of that total. */
  method FillTable(a: array<real>, weightOf: nat -> real)
    requires a.Length >= 1
    requires weightOf(0) == 1.0 && forall i: nat :: weightOf(i) >= 0.0
    modifies a
    ensures a[..] == NormalisedTable(weightOf, a.Length - 1)
  {
    FillRaw(a, weightOf);
    var sum := SumTable(a);
    MassAtLeastCentre(a[..], a.Length - 1);
    ScaleTable(a, 1.0 / sum);
  }

  class GaussBlurFilter {
    var multiThreads: bool
    var threadCount: int
    var r: int
    var sigma: real
    var templ: array?<real>

    /** The radius is unset (-1, with sigma -1 and no table) or derived from sigma; a table,
        when there is one, has `r + 1` non-negative weights that add up to one over
        `[-r, r]`; and the multi-threaded flag says whether more than one thread is asked for. */
    ghost predicate Valid()
      reads this, templ
    {
      && multiThreads == (threadCount > 1)
      && ((r == -1 && sigma == -1.0 && templ == null) || r == RadiusOf(sigma))
      && (templ != null ==> templ.Length == r + 1 && Normalised(templ[..], r) && NonNegative(templ[..]))
    }

    /** A new filter has no radius, no sigma, no table and no threads. */
    constructor ()
      ensures Valid()
      ensures r == -1 && sigma == -1.0 && templ == null
      ensures threadCount == 0 && !multiThreads
    {
      r := -1;
      sigma := -1.0;
      templ := null;
      multiThreads := false;
      threadCount := 0;
    }

    /** The radius: unset, or the one sigma gives. */
    function GetR(): (v: int)
      requires Valid()
      reads this, templ
      ensures v == -1 || (v >= 1 && v == RadiusOf(sigma))
      ensures templ != null ==> v >= 1 && templ.Length == v + 1
    {
      r
    }

    /** Sigma: either the unset value -1 with no radius, or the sigma the radius came from. */
    function GetSigma(): (s: real)
      requires Valid()
      reads this, templ
      ensures (s == -1.0 && r == -1) || RadiusOf(s) == r
    {
      sigma
    }

    /** The thread count; it is above one exactly when the filter runs multi-threaded. */
    function GetThreadCount(): (n: int)
      requires Valid()
      reads this, templ
      ensures n > 1 <==> multiThreads
    {
      threadCount
    }

    /** Records the thread count and turns multi-threading on exactly when it exceeds one. */
    method SetThreads(n: int)
      requires Valid()
      modifies this
      ensures Valid()
      ensures threadCount == n && multiThreads == (n > 1)
      ensures r == old(r) && sigma == old(sigma) && templ == old(templ)
    {
      threadCount := n;
      multiThreads := threadCount > 1;
    }

    /** Sets sigma, derives the radius (at least one) and rebuilds the table of `r + 1`
        weights: `weightOf(i)` stands for `exp(-i * i / (2 * sigma * sigma))`, and the table
        is divided by its symmetric total. When the allocation fails the table is gone. */
    method SetSigma(s: real, weightOf: nat -> real, allocOk: bool)
      requires Valid()
      requires weightOf(0) == 1.0 && forall i: nat :: weightOf(i) >= 0.0
      modifies this
      ensures Valid()
      ensures sigma == s && r == RadiusOf(s) && r >= 1
      ensures templ != null <==> allocOk
      ensures templ != null ==> fresh(templ) && templ[..] == NormalisedTable(weightOf, r)
      ensures threadCount == old(threadCount) && multiThreads == old(multiThreads)
    {
      sigma := s;
      var radius := TruncToInt(sigma * 3.0 + 0.5);
      if radius <= 0 {
        radius := 1;
      }
      r := radius;
      assert r == RadiusOf(s);
      if !allocOk {
        templ := null;
        return;
      }
      var a := new real[radius + 1];
      templ := a;
      FillTable(a, weightOf);
    }

    /** `Init` takes sigma from its argument and hands it to `SetSigma`. */
    method Init(info: real, weightOf: nat -> real, allocOk: bool)
      requires Valid()
      requires weightOf(0) == 1.0 && forall i: nat :: weightOf(i) >= 0.0
      modifies this
      ensures Valid()
      ensures sigma == info && r == RadiusOf(info)
      ensures templ != null <==> allocOk
      ensures templ != null ==> fresh(templ) && templ[..] == NormalisedTable(weightOf, r)
      ensures threadCount == old(threadCount) && multiThreads == old(multiThreads)
    {
      SetSigma(info, weightOf, allocOk);
    }

    /** Forgets sigma, the radius and the table; the thread settings stay. */
    method Reset()
      requires Valid()
      modifies this
      ensures Valid()
      ensures r == -1 && sigma == -1.0 && templ == null
      ensures threadCount == old(threadCount) && multiThreads == old(multiThreads)
    {
      r := -1;
      sigma := -1.0;
      if templ != null {
        templ := null;
      }
    }

    /** Blurs the image in `src` into `dest`. It refuses, leaving `dest` alone, when a buffer
        is missing, the depth is not 8, 24 or 32 bits, there is no radius or no table, or
        the scratch buffer cannot be had; otherwise `dest` holds exactly `Blur` of the
        source, whether the rows were split among workers or not. `src` and `dest` may be
        the same buffer. */
    method Filter(src: array?<Byte>, dest: array?<Byte>, width: int, height: int, bpp: int, allocOk: bool)
      returns (ok: bool)
      requires Valid()
      requires src != null && dest != null && SupportedDepth(bpp) && r >= 0 && templ != null && allocOk ==>
                 BufferSize(width, height, bpp) <= src.Length && BufferSize(width, height, bpp) <= dest.Length
      modifies dest
      ensures Valid()
      ensures ok <==> src != null && dest != null && SupportedDepth(bpp) && r >= 0 && templ != null && allocOk
      ensures !ok && dest != null ==> dest[..] == old(dest[..])
      ensures ok ==> dest[..] == Blur(old(dest[..]), old(src[..]), templ[..], r, width, height, bpp)
    {
      if src == null || dest == null {
        return false;
      }
      if bpp != 24 && bpp != 8 && bpp != 32 {
        return false;
      }
      if r < 0 || templ == null {
        return false;
      }
      var absHeight := if height >= 0 then height else -height;
      var stride := CDiv(width * bpp + 31, 32) * 4;
      var pixelSize := CDiv(bpp, 8);
      if !allocOk {
        return false;
      }
      var temp := new Byte[ScratchSize(width, height, bpp)];
      ghost var d0, s0, w, scratch0 := dest[..], src[..], templ[..], temp[..];
      var t := PassTask(r, width, absHeight, 0, absHeight, stride, pixelSize, true);
      assert t == HorzTask(r, width, height, bpp);
      TaskFits(r, width, height, bpp, src.Length);
      TaskFits(r, width, height, bpp, temp.Length);
      if multiThreads && threadCount > 1 {
        Workers(src, temp, dest, templ, t, bpp, ChunkCount(threadCount, absHeight));
      } else {
        var params := t;
        RunPass(src, temp, templ, params, bpp);
        params := params.(horz := false);
        RunPass(temp, dest, templ, params, bpp);
      }
      TwoPassIgnoresScratch(d0, scratch0, seq(ScratchSize(width, height, bpp), _ => 0), s0, w, t,
                            pixelSize, Channels(bpp));
      return true;
    }
  }
}
