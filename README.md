# Gaussian blur filter of DuiLib, modelled in Dafny

This project models `CGaussBlurImgFilter` from DuiLib (`DuiLib/Utils/GaussBlurFilter.hpp`),
together with the thread settings it inherits from `IImgFilter`. The filter blurs an image
held in a Windows DIB-style buffer: rows are aligned to 32 bits, there are 8, 24 or 32 bits
per pixel, and the height may be negative. It builds a normalised half table of Gaussian
weights from sigma. `Filter` then runs a horizontal one-dimensional convolution from the
source into a scratch buffer, followed by a vertical one from the scratch buffer into the
destination. Sample coordinates are clamped to the image edge. Each pass runs either as a
single call or split by rows among worker threads.

The parameter block a worker thread receives, `CGaussBlurThreadParams`
(`DuiLib/Utils/GaussBlurFilter.hpp:54-72`), is the datatype `Convolution.PassTask`. It has
the same radius, width, height, row range, stride, pixel size and direction flag. The source
and destination pointers and the table pointer become arguments of the pass.

The modules follow the structure of the file:

- `Numeric`: C's truncating division and float-to-int conversion, and small facts about
  multiplication, division and row-major offsets.
- `Geometry`: stride, pixel size, row count and buffer size of an image.
- `Partition`: the static split of the rows among `ThreadCount` workers.
- `Kernel`: the radius derived from sigma, and the symmetric total and normalisation of the
  weight table.
- `Convolution`: the two thread procedures. `GaussBlurThreadProc8` and
  `GaussBlurThreadProc24` are imperative methods over arrays (`BlurPass8`, `BlurPass24`).
  Each is proved against the function `PassResult`, which says which bytes
  the pass stores and with what value.
- `PassFacts`: what `Filter` relies on.
  - The workers of one pass together equal one pass over all rows.
  - Disjoint workers commute.
  - The scratch buffer's initial contents never matter.
  - A uniform image stays uniform.
  - With a normalised table the `(BYTE)` cast never wraps.
- `BlurFilter`: the class `GaussBlurFilter` (constructor, getters, `SetThreads`, `SetSigma`,
  `Init`, `Reset`, `Filter`) and the worker loops of the multi-threaded branch.

`Filter`'s postcondition ties the destination to `Blur`: the vertical pass over the
horizontal pass over the source. The postcondition holds for both branches of `Filter`:
single-threaded, and multi-threaded with the workers of each pass all finished before the next
step. In the program, that barrier is `WaitForMultipleObjects`, which waits on at most 64
handles (see "## Left out").

Two behaviours of the code worth noting:

- `SetSigma` assigns sigma and the radius before it reallocates. When the reallocation
  fails, the old table is freed and the table becomes null, while sigma and the radius
  keep their new values. The kernel is therefore neither unchanged nor reset to `r = -1`.
  `Filter` still refuses afterwards, because the table is null.
- The radius is `(int)(sigma * 3 + 0.5)`. For a non-negative `sigma * 3 + 0.5` this rounds
  `sigma * 3` half up. Any result that is not positive, including every negative sigma,
  becomes 1.

## Model

| member | source | states |
|---|---|---|
| Numeric.CDiv | DuiLib/Utils/GaussBlurFilter.hpp:177-178 | C's `/` by a positive divisor: for a non-negative dividend it is the floor quotient; for a negative one the quotient is not positive and the remainder `a - q * b` lies in `(-b, 0]`, i.e. truncation toward zero |
| Numeric.TruncToInt | DuiLib/Utils/GaussBlurFilter.hpp:118 | `(int)` of a floating value truncates toward zero: the result is within one below a non-negative value and within one above a negative one |
| Numeric.Abs | DuiLib/Utils/GaussBlurFilter.hpp:305 | `x1 = (x >= 0) ? x : -x` is non-negative and equals `x` or `-x` |
| Numeric.Min | DuiLib/Utils/GaussBlurFilter.hpp:188 | `min` is at most both arguments and equals one of them |
| Numeric.RowMajorInBounds | DuiLib/Utils/GaussBlurFilter.hpp:361 | the offset `stride * row + pixelSize * col + c` of a byte of a pixel inside the image lies before the end of the last row, and its in-row part before the end of the row |
| Numeric.RowMajorDecode | DuiLib/Utils/GaussBlurFilter.hpp:345 | a pixel's byte offset divided by the stride and then by the pixel size gives back its row, column and channel |
| Geometry.AbsHeight | DuiLib/Utils/GaussBlurFilter.hpp:176 | the row count is `Abs(height)`, so non-negative and equal to the height or its negation by `Numeric.Abs` |
| Geometry.Stride | DuiLib/Utils/GaussBlurFilter.hpp:177 | the stride `(width * bpp + 31) / 32 * 4` is a multiple of four; `StrideFitsRow` bounds it |
| Geometry.PixelSize | DuiLib/Utils/GaussBlurFilter.hpp:178 | `bpp / 8` is the number of whole bytes in `bpp` bits: `8 * p <= bpp < 8 * p + 8` for a non-negative depth |
| Geometry.BufferSize | DuiLib/Utils/GaussBlurFilter.hpp:182 | the scratch size `stride * absHeight`; `PixelOffsetInBuffer` shows every written byte lies below it |
| Geometry.SupportedDepth | DuiLib/Utils/GaussBlurFilter.hpp:170-171 | the depth gate of `Filter`: only 24, 8 and 32 bpp pass; `Filter`'s `ok <==>` clause uses it |
| Geometry.Channels | DuiLib/Utils/GaussBlurFilter.hpp:253-256 | the channels one pass stores: one for the 8 bpp procedure, three for the 24 bpp procedure that also serves 32 bpp; `PixelSizeOfDepth` shows they fit in a pixel |
| Geometry.PixelSizeOfDepth | DuiLib/Utils/GaussBlurFilter.hpp:178 | for 8, 24 and 32 bpp, `pixelSize = bpp / 8` is exact, and the channels a pass blurs fit in a pixel |
| Geometry.AlignedRow | DuiLib/Utils/GaussBlurFilter.hpp:177 | `(8n + 31) / 32 * 4` is a multiple of four, at least `n` and less than `n + 4` |
| Geometry.StrideFitsRow | DuiLib/Utils/GaussBlurFilter.hpp:177 | the stride is a multiple of 4, holds `width * pixelSize` bytes with fewer than 4 bytes of padding, and is positive for a positive width |
| Geometry.PixelOffsetInBuffer | DuiLib/Utils/GaussBlurFilter.hpp:345 | every byte a pass writes lies inside the `stride * absHeight` bytes of the buffer |
| Partition.ChunkCount | DuiLib/Utils/GaussBlurFilter.hpp:188 | `ThreadCount` is the smaller of the thread setting and the row count: at most each, equal to one of them, and at least 1 when both are |
| Partition.RowBegin | DuiLib/Utils/GaussBlurFilter.hpp:204 | worker `i`'s first row `absHeight / ThreadCount * i`; `ChunkInImage`, `ChunksContiguous` and `ChunksDisjoint` state its properties |
| Partition.RowEnd | DuiLib/Utils/GaussBlurFilter.hpp:206-209 | one past worker `i`'s last row: `absHeight` for the last worker, otherwise `rowBegin + absHeight / ThreadCount` |
| Partition.QuotientPositive | DuiLib/Utils/GaussBlurFilter.hpp:204 | with no more workers than rows, `absHeight / ThreadCount` is at least one |
| Partition.ChunkInImage | DuiLib/Utils/GaussBlurFilter.hpp:204-209 | every worker's rows `[rowBegin, rowEnd)` are non-empty and inside the image |
| Partition.ChunksContiguous | DuiLib/Utils/GaussBlurFilter.hpp:204-209 | the first worker starts at row 0, each worker starts where the previous one ends, and the last ends at `absHeight`, taking the remainder |
| Partition.ChunksDisjoint | DuiLib/Utils/GaussBlurFilter.hpp:204-209 | two different workers share no row |
| Partition.ChunkHoldsRow | DuiLib/Utils/GaussBlurFilter.hpp:204-209 | row `row` lies in the rows of worker `min(row / q, n - 1)`, where `q = absHeight / n` |
| Partition.ChunkOf | DuiLib/Utils/GaussBlurFilter.hpp:204-209 | every row of the image belongs to some worker, so together the workers cover the image |
| Kernel.RadiusOf | DuiLib/Utils/GaussBlurFilter.hpp:117-119 | the radius is at least 1; when `sigma * 3 + 0.5 >= 1` it is that value truncated, and otherwise it is exactly 1 |
| Kernel.RadiusMonotone | DuiLib/Utils/GaussBlurFilter.hpp:118-119 | a larger sigma never gives a smaller radius |
| Kernel.SymmetricMass | DuiLib/Utils/GaussBlurFilter.hpp:135-138 | the sum loop's total `pTempl[0] + 2 * pTempl[1] + ... + 2 * pTempl[r]`, added in the loop's order; `BlurFilter.SumTable` is the loop proved equal to it |
| Kernel.Scale | DuiLib/Utils/GaussBlurFilter.hpp:140-142 | the scaling loop's result: every weight times the reciprocal, same length; `ScaledMass` shows the total scales with it |
| Kernel.RawTable | DuiLib/Utils/GaussBlurFilter.hpp:131-133 | the fill loop's table of `r + 1` weights `weightOf(i)`, the model of `exp(k1 * i * i)` |
| Kernel.ScaledMass | DuiLib/Utils/GaussBlurFilter.hpp:140-142 | multiplying every weight by `c` multiplies the symmetric total by `c` |
| Kernel.MassAtLeastCentre | DuiLib/Utils/GaussBlurFilter.hpp:135-138 | with no negative weight the symmetric total is at least the centre weight, so the reciprocal taken at line 140 exists |
| Kernel.NormalisedTable | DuiLib/Utils/GaussBlurFilter.hpp:131-142 | the table `SetSigma` builds has `r + 1` non-negative weights whose total over `[-r, r]` is exactly one |
| Kernel.Window | DuiLib/Utils/GaussBlurFilter.hpp:304-305 | the weights `pTempl[x1]`, with `x1` the absolute value of `x`, for the offsets `x` of a range, added from left to right; `WindowIsSymmetricMass` ties it to the normalised total |
| Kernel.WindowFront | DuiLib/Utils/GaussBlurFilter.hpp:304-305 | the weights read for offsets `[lo, hi)` are the first one plus those of `[lo + 1, hi)` |
| Kernel.WindowIsSymmetricMass | DuiLib/Utils/GaussBlurFilter.hpp:304-305 | the weights `pTempl[x1]` read for `x = -r .. r` (with `x1` the absolute value of `x`) add up to the total `SetSigma` normalised by |
| Convolution.Clamp | DuiLib/Utils/GaussBlurFilter.hpp:306-308 | the sample coordinate stays in `[0, MaxVal]`: unchanged inside the range, and the nearest edge outside it |
| Convolution.SampleOffset | DuiLib/Utils/GaussBlurFilter.hpp:301-310 | every source byte a pass reads, after clamping, lies inside the source buffer |
| Convolution.StoreByte | DuiLib/Utils/GaussBlurFilter.hpp:314 | `(BYTE)result`: the accumulator truncated toward zero, reduced modulo 256; `PixelIsFloor` shows no reduction happens with a normalised table |
| Convolution.Apply | DuiLib/Utils/GaussBlurFilter.hpp:295-296 | the destination after storing the convolved byte at every channel `c < ch` of every pixel in rows `[rb, re)`, columns `[0, ce)`, with every other byte kept; same length as the destination |
| Convolution.PassResult | DuiLib/Utils/GaussBlurFilter.hpp:274-373 | the bytes one thread procedure stores: `Apply` over its rows `[rowBegin, rowEnd)` and all columns; same length as the destination |
| Convolution.ApplyEmpty | DuiLib/Utils/GaussBlurFilter.hpp:295-296 | a pass over no rows or no columns leaves the destination as it was |
| Convolution.ApplyConcat | DuiLib/Utils/GaussBlurFilter.hpp:295 | storing rows `[a, b)` and then `[b, c)` is the same as storing rows `[a, c)` |
| Convolution.ColumnStepInside | DuiLib/Utils/GaussBlurFilter.hpp:297 | after column `col` is done, its byte for channel `c` holds that channel's stored value |
| Convolution.ColumnStepOutside | DuiLib/Utils/GaussBlurFilter.hpp:296-297 | finishing column `col` changes no byte outside that pixel's channels |
| Convolution.PixelInImage | DuiLib/Utils/GaussBlurFilter.hpp:345 | the bytes of pixel `(row, col)` lie within the first `stride * height` bytes |
| Convolution.Taps | DuiLib/Utils/GaussBlurFilter.hpp:301-311 | the `2r + 1` clamped source bytes read for one output channel, in the order of `x = -r .. r`; `SampleInRegion` shows each lies in the image |
| Convolution.Dot | DuiLib/Utils/GaussBlurFilter.hpp:312 | the `result += *pSrcPixel * pTempl[x1]` sum over the first `k` taps, from left to right; `DotBounds` and `DotUniform` bound and evaluate it |
| Convolution.Conv | DuiLib/Utils/GaussBlurFilter.hpp:299-313 | the accumulator `result` after the `x` loop has run up to offset `k - 1`; `ConvStep` is one iteration of that loop |
| Convolution.Pixel | DuiLib/Utils/GaussBlurFilter.hpp:299-314 | the byte stored for one channel of one pixel: `(BYTE)` of the full convolution; `PixelIsFloor` shows it is the floor of the weighted sum, `UniformPixel` that a uniform source gives its value back |
| Convolution.ConvStep | DuiLib/Utils/GaussBlurFilter.hpp:312 | one iteration of the `x` loop adds the clamped sample times `pTempl[x1]` to the accumulator |
| Convolution.Convolve8 | DuiLib/Utils/GaussBlurFilter.hpp:299-313 | the accumulator after the `x` loop is the weighted sum `Conv` of the `2r + 1` clamped samples |
| Convolution.StoreColumn1 | DuiLib/Utils/GaussBlurFilter.hpp:314 | storing `(BYTE)result` at `stride * row + col` extends the stored region by one column |
| Convolution.BlurRow8 | DuiLib/Utils/GaussBlurFilter.hpp:296-315 | after the column loop, row `row` is stored and every other byte is unchanged |
| Convolution.BlurPass8 | DuiLib/Utils/GaussBlurFilter.hpp:274-318 | `GaussBlurThreadProc8` leaves the destination equal to `PassResult`: each byte of rows `[rowBegin, rowEnd)`, columns `[0, width)` holds its truncated convolution, and every other byte is untouched |
| Convolution.ConvStep3 | DuiLib/Utils/GaussBlurFilter.hpp:363-365 | one iteration of the three-channel `x` loop adds `pSrcPixel[c] * pTempl[x1]` to accumulator `c` for each channel |
| Convolution.PixelChannelsInside | DuiLib/Utils/GaussBlurFilter.hpp:361-365 | the three channels read from a clamped source pixel lie inside the source buffer |
| Convolution.Convolve24 | DuiLib/Utils/GaussBlurFilter.hpp:347-366 | the three accumulators after the `x` loop are the weighted sums of channels 0, 1 and 2 of the clamped source pixels |
| Convolution.StoreColumn3 | DuiLib/Utils/GaussBlurFilter.hpp:367-369 | storing the three channel bytes of pixel `(row, col)` extends the stored region by one column |
| Convolution.BlurRow24 | DuiLib/Utils/GaussBlurFilter.hpp:344-370 | after the column loop, channels 0 to 2 of every pixel of row `row` are stored, and nothing else changes |
| Convolution.BlurPass24 | DuiLib/Utils/GaussBlurFilter.hpp:322-373 | `GaussBlurThreadProc24` leaves the destination equal to `PassResult` with three channels per pixel: the 4th byte of a 32 bpp pixel and the row padding are untouched |
| PassFacts.Worker | DuiLib/Utils/GaussBlurFilter.hpp:193-211 | worker `i`'s parameter block shares every field but the row range with the whole pass, and its rows are non-empty and inside the image |
| PassFacts.Chunked | DuiLib/Utils/GaussBlurFilter.hpp:193-218 | the destination after the first `k` workers of a pass have run in creation order; same length as the destination |
| PassFacts.ChunkedPrefix | DuiLib/Utils/GaussBlurFilter.hpp:193-218 | after the first `k` workers have run, rows `[0, rowEnd of worker k - 1)` are stored as one pass would store them |
| PassFacts.ChunkedIsWholePass | DuiLib/Utils/GaussBlurFilter.hpp:187-236 | all `ThreadCount` workers of a pass together give exactly the single-threaded pass over rows `[0, absHeight)` |
| PassFacts.DisjointPassesCommute | DuiLib/Utils/GaussBlurFilter.hpp:214-218 | two workers with disjoint rows give the same buffer in either order of completion |
| PassFacts.SampleInRegion | DuiLib/Utils/GaussBlurFilter.hpp:306-310 | every byte a pass reads is a blurred channel of a pixel of the image, never row padding or the 4th byte of a 32 bpp pixel |
| PassFacts.TapsReadRegion | DuiLib/Utils/GaussBlurFilter.hpp:304-312 | two sources that agree on the image's channel bytes give every pixel the same samples |
| PassFacts.PixelReadsRegion | DuiLib/Utils/GaussBlurFilter.hpp:304-314 | two sources that agree on the image's channel bytes give the same stored byte |
| PassFacts.TwoPass | DuiLib/Utils/GaussBlurFilter.hpp:240-266 | the horizontal pass over all rows from the source into the scratch buffer, then the vertical pass from it into the destination; same length as the destination |
| PassFacts.StoredRegionAgrees | DuiLib/Utils/GaussBlurFilter.hpp:182 | a pass over all rows stores the same bytes whatever the destination held before |
| PassFacts.TwoPassByte | DuiLib/Utils/GaussBlurFilter.hpp:182 | no byte of the blurred image depends on the initial contents of the scratch buffer |
| PassFacts.TwoPassIgnoresScratch | DuiLib/Utils/GaussBlurFilter.hpp:182 | the uninitialised contents `malloc` returns for the scratch buffer never change the result |
| PassFacts.DotUniform | DuiLib/Utils/GaussBlurFilter.hpp:312 | when every sample is `v`, the accumulator is `v` times the weights taken so far |
| PassFacts.UniformPixel | DuiLib/Utils/GaussBlurFilter.hpp:304-314 | with a normalised table, a pass stores `v` at every pixel of a source whose image bytes are all `v` |
| PassFacts.StoreWholeByte | DuiLib/Utils/GaussBlurFilter.hpp:314 | `(BYTE)` of an accumulator that holds a byte value gives that byte |
| PassFacts.WeightedSampleBounds | DuiLib/Utils/GaussBlurFilter.hpp:312 | adding a byte times a non-negative weight keeps the accumulator between 0 and 255 times the weights taken |
| PassFacts.DotBounds | DuiLib/Utils/GaussBlurFilter.hpp:312 | with no negative weight, the accumulator lies between 0 and 255 times the weights taken so far |
| PassFacts.PixelIsFloor | DuiLib/Utils/GaussBlurFilter.hpp:314 | with a normalised table of non-negative weights, `(BYTE)result` is the accumulator rounded down and never wraps |
| BlurFilter.Blur | DuiLib/Utils/GaussBlurFilter.hpp:176-266 | what a successful `Filter` leaves in the destination: `TwoPass` with the geometry of lines 176-178 and any scratch contents; same length as the destination |
| BlurFilter.HorzTask | DuiLib/Utils/GaussBlurFilter.hpp:239-251 | the parameter block of the horizontal pass over all rows, with the geometry of lines 176-178; `Worker` derives the per-thread blocks of lines 193-211 from it and `TaskFits` shows the buffers hold it |
| BlurFilter.ScratchSize | DuiLib/Utils/GaussBlurFilter.hpp:182 | the size `stride * absHeight` passed to `malloc`, as a natural number |
| BlurFilter.TaskFits | DuiLib/Utils/GaussBlurFilter.hpp:176-178 | a buffer of `stride * absHeight` bytes holds the image the passes address, and the blurred channels fit in a pixel |
| BlurFilter.BlurKeepsUnstored | DuiLib/Utils/GaussBlurFilter.hpp:343-370 | the blur leaves row padding, the 4th byte of a 32 bpp pixel and bytes past the last row unchanged |
| BlurFilter.BlurKeepsUniform | DuiLib/Utils/GaussBlurFilter.hpp:239-265 | with a normalised table, an image whose channels all hold `v` keeps `v` in every channel after both passes |
| BlurFilter.BlurOfNoRows | DuiLib/Utils/GaussBlurFilter.hpp:176 | an image with height 0 comes out of the blur unchanged |
| BlurFilter.RunPass | DuiLib/Utils/GaussBlurFilter.hpp:253-256 | `(bpp == 8) ? GaussBlurThreadProc8 : GaussBlurThreadProc24` performs `PassResult` with one channel at 8 bpp and three otherwise |
| BlurFilter.HorizontalWorkers | DuiLib/Utils/GaussBlurFilter.hpp:193-218 | the parameter loop gives worker `i` its rows, and after all workers the scratch buffer holds `Chunked` of the horizontal pass |
| BlurFilter.VerticalWorkers | DuiLib/Utils/GaussBlurFilter.hpp:222-231 | every block ends switched to the vertical pass with its rows unchanged, and the destination ends as `Chunked` of the vertical pass over the scratch buffer |
| BlurFilter.Workers | DuiLib/Utils/GaussBlurFilter.hpp:187-236 | the multi-threaded branch, for any number of workers including none, leaves the destination equal to the two-pass blur |
| BlurFilter.FillRaw | DuiLib/Utils/GaussBlurFilter.hpp:131-133 | the first loop stores `weightOf(i)` (standing for `exp(k1 * i * i)`) at every index |
| BlurFilter.SumTable | DuiLib/Utils/GaussBlurFilter.hpp:135-138 | the second loop computes `w[0] + 2 * w[1] + ... + 2 * w[r]` |
| BlurFilter.ScaleTable | DuiLib/Utils/GaussBlurFilter.hpp:140-142 | the third loop multiplies every entry by the reciprocal and changes nothing else |
| BlurFilter.FillTable | DuiLib/Utils/GaussBlurFilter.hpp:130-142 | the three loops leave the normalised table: non-negative, with a total of one over `[-r, r]` |
| BlurFilter.GaussBlurFilter.constructor | DuiLib/Utils/GaussBlurFilter.hpp:96-104 | a new filter has `r = -1`, `sigma = -1`, no table, a thread count of 0 and multi-threading off |
| BlurFilter.GaussBlurFilter.GetR | DuiLib/Utils/GaussBlurFilter.hpp:87 | the radius is unset (-1) or the one sigma gives, and a table present has `r + 1` entries |
| BlurFilter.GaussBlurFilter.GetSigma | DuiLib/Utils/GaussBlurFilter.hpp:88 | sigma is unset (-1, with radius -1) or gives the current radius |
| BlurFilter.GaussBlurFilter.GetThreadCount | DuiLib/Utils/GaussBlurFilter.hpp:25 | the thread count exceeds one exactly when multi-threading is on |
| BlurFilter.GaussBlurFilter.SetThreads | DuiLib/Utils/GaussBlurFilter.hpp:27-32 | stores the count and turns multi-threading on if and only if it exceeds one; the kernel is unchanged |
| BlurFilter.GaussBlurFilter.SetSigma | DuiLib/Utils/GaussBlurFilter.hpp:113-143 | sets sigma and a radius of at least 1; on success the fresh table is the normalised one with `r + 1` entries, and on allocation failure the table is null |
| BlurFilter.GaussBlurFilter.Init | DuiLib/Utils/GaussBlurFilter.hpp:146-151 | the same effect as `SetSigma` with the sigma passed in |
| BlurFilter.GaussBlurFilter.Reset | DuiLib/Utils/GaussBlurFilter.hpp:153-162 | sigma and radius become -1 and the table is dropped, while the thread settings stay; after it `Filter` refuses because `templ` is null |
| BlurFilter.GaussBlurFilter.Filter | DuiLib/Utils/GaussBlurFilter.hpp:164-270 | returns true exactly when both buffers are present, bpp is 8, 24 or 32, the kernel is set and the scratch allocation succeeds. On false the destination is untouched; on true it equals `Blur` of the source in either branch. `src` and `dest` may alias |

## Left out

- Floating point: `T` is modelled as exact `real` arithmetic, so rounding of the `float` or `double` sums is not captured. The accumulation order of the source is kept.
- `exp`: `SetSigma`, `Init` and `FillTable` take `weightOf(i)` in place of `exp(k1 * i * i)`, with `weightOf(0) == 1` and no negative value.
- BlurFilter.GaussBlurFilter.SetSigma: sigma 0 is not captured. There `k1` is infinite and the table is NaN, which the conditions on `weightOf` exclude.
- BlurFilter.GaussBlurFilter.SetSigma: `realloc` is modelled as a fresh allocation whose success is the `allocOk` parameter. Freeing the old table is not modelled, since the model has no memory management.
- BlurFilter.GaussBlurFilter.Filter: `malloc` of the scratch buffer is the `allocOk` parameter. `free` is not modelled. The scratch contents are arbitrary, and `TwoPassIgnoresScratch` shows they do not matter.
- BlurFilter.GaussBlurFilter.Filter: `CreateThread`, `WaitForMultipleObjects` and `CloseHandle` are not modelled. The workers of a pass run one after another in creation order, and the wait is the sequencing between the two worker loops. `DisjointPassesCommute` shows that the order of disjoint workers does not matter. True interleavings within a worker are not captured.
- BlurFilter.GaussBlurFilter.Filter: the model assumes that each `WaitForMultipleObjects` returns only after every worker of the pass has finished, and that every `CreateThread` succeeds. In the program, `WaitForMultipleObjects` accepts at most 64 (`MAXIMUM_WAIT_OBJECTS`) handles. With more than 64 threads set and more than 64 rows, the wait fails at once. The vertical workers, the rewrite of the parameter blocks and the final `delete[]` and `free` then race the horizontal workers. A `CreateThread` that returns NULL leaves its rows unblurred and passes an invalid handle to the wait. The equality with `Blur` therefore describes the program only for up to 64 workers whose threads were all created.
- BlurFilter.GaussBlurFilter.Filter: the caller's buffers must be at least `stride * absHeight` bytes when the filter goes ahead. The source reads and writes them without a check, so a shorter buffer is out of bounds there.
- 32-bit `int` overflow of `width * bpp + 31`, `stride * absHeight` and `-height`, of `sizeof(T) * (m_r + 1)` in `SetSigma`, and the undefined `(int)(m_sigma * 3 + 0.5)` for a sigma above about `INT_MAX / 3` or a NaN sigma are not modelled: integers and reals are unbounded and exact.
- The `(BYTE)` conversion of a value outside `[0, 256)` is undefined in C. It is modelled as truncation toward zero followed by reduction modulo 256. `PixelIsFloor` shows that this case never arises with a normalised table.
- `IImgFilter`'s own virtual `Init`, `Reset` and `Filter`, which do nothing or return false, are not modelled, and neither is virtual dispatch. The base constructor's thread count of 1 is overwritten by the derived constructor's 0, so the model starts at 0.
- The destructor, which frees the table, is not modelled.
- `Init`'s `LPVOID` argument is modelled as the sigma value it points to.
