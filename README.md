# Grayscale work-distribution benchmark, modelled in Dafny

The program is a small Go benchmark, `main.go`. It turns an RGBA image gray
twice, with two ways of spreading the per-pixel work over a pool of four
goroutines:

- **Static partitioning** (`processImageWithWaitGroup`). The `W*H` linear pixel
  indices are cut into `NumWorkers` equal chunks of `W*H / NumWorkers`. Worker
  `i` handles `[i*chunk, i*chunk + chunk)`. A `sync.WaitGroup` waits for all of
  them. When `W*H` is not a multiple of the worker count, the last
  `W*H mod NumWorkers` pixels are never processed.
- **Dynamic dispatch** (`processImageWithChannel`). One sender puts every index
  of `[0, W*H)`, in ascending order, on an unbuffered channel. Each index is
  received, and processed, by exactly one worker.

Every task does the same work. It converts the linear index `p` to
`(p % W, p / W)`, reads that pixel, and writes back an opaque gray pixel. The
benchmark runs each strategy on its own deep copy of the input
(`cloneImage`).

The model has six modules:

- `Color`: the pixel type and the grayscale kernel. The kernel is exactly the
  source's arithmetic. `color.RGBA.RGBA()` widens each channel to 16 bits
  (`c * 257`). The widened channels are added as `uint32`, divided by 3, and
  the quotient is truncated to `uint8`.
- `Geometry`: the conversion between linear indices and `(x, y)` points, for an
  image whose bounds start at `(0, 0)`.
- `Tasks`: the sequences of tasks (pixel indices) the strategies dispatch, and
  two functions of the buffer contents:
  - `Grayscaled(s, done)` is the reference definition: exactly the pixels in
    `done` hold the kernel of their original value.
  - `ApplyInOrder(s, ps)` runs tasks `ps` one after another, first to last.
- `Partition`: the static split into worker ranges.
- `Raster`: `class Image`, the `image.RGBA` buffer as a row-major
  `array<Pixel>`, and `CloneImage`. `At` outside the bounds returns the zero
  colour and `Set` outside the bounds does nothing, as in Go.
- `Strategies`: both strategies as in-place loops over the `Image`, and the
  lemmas that relate them.

Each strategy method returns a ghost trace of the tasks in the order it ran
them. The method proves that the new buffer is `ApplyInOrder` of the old one over
that trace. The lemmas then show three things:

- The trace runs each task of its set exactly once.
- Any order that does so leaves the same buffer `Grayscaled` describes. So the
  goroutines' interleaving, and which worker receives which index, cannot
  change the result.
- The two strategies leave the same buffer exactly when every skipped tail
  pixel is already opaque gray. In particular they agree when `W*H` is a
  multiple of the worker count.

The gray level intended for this program is the integer mean
`(R + G + B) / 3`, but the code does not compute it. Because of the 16-bit
widening, the code computes `(257 * (R + G + B) / 3) mod 256`. That equals the
mean exactly when `R + G + B` is a multiple of 3 (`Color.GrayIsMeanIff`).
Otherwise it is the mean plus 85 or 171, modulo 256 (`Color.GrayClosedForm`).
For example, `(1, 0, 0)` becomes 85, not 0. The model follows the code
throughout. The examples `(120, 60, 30)` → 70, `(255, 0, 0)` → 85
and `(0, 0, 255)` → 85 still hold, because their channel sums are multiples
of 3.

## Model

| member | source | states |
|---|---|---|
| Color.AddUint32 | main.go:119 | `uint32` addition: the exact sum below 2^32, the sum minus 2^32 above it |
| Color.Widen | main.go:118 | `color.RGBA.RGBA()` for one channel: a value below 2^16 whose high and low bytes are both the channel |
| Color.Gray | main.go:118-119 | the gray level is `(257 * (R + G + B) / 3) mod 256`, so the `uint32` sum never wraps |
| Color.WidenedSumBound | main.go:118-119 | the widened sum is `257 * (R + G + B)`, at most 196605, far below 2^32 |
| Color.Uint8 | main.go:119 | the `uint8(...)` conversion keeps the low eight bits: the result differs from its argument by a multiple of 256 |
| Color.Kernel | main.go:118-120 | the written pixel `(gray, gray, gray, 255)` is opaque gray at level `Gray(c)`, whatever the input's alpha |
| Color.MeanGray | main.go:119 | the intended level, the integer mean of the 8-bit channels: `3 * m <= R + G + B < 3 * m + 3` |
| Color.GrayClosedForm | main.go:119 | the gray level is `(m + 85k + k/2) mod 256` with `m = (R+G+B)/3` and `k = (R+G+B) mod 3` |
| Color.GrayIsMeanIff | main.go:119 | the gray level equals `MeanGray`, the integer mean of the channels, if and only if their sum is a multiple of 3 |
| Color.GrayMissesMean | main.go:118-119 | for `(1, 0, 0)` the integer mean is 0 but the level written is 85 |
| Color.MeanGrayOnGray | main.go:119 | the intended level keeps the level of a pixel with `R == G == B` |
| Color.KernelFixedIff | main.go:118-120 | the kernel leaves a pixel unchanged if and only if it is already opaque gray |
| Color.KernelOnGray | main.go:118-120 | a pixel with `R == G == B` keeps its channels and only gets alpha 255 |
| Color.KernelIdempotent | main.go:118-120 | applying the kernel twice equals applying it once |
| Color.KernelExamples | main.go:118-120 | worked inputs: (120,60,30,200) → 70; (255,0,0) and (0,0,255) → 85; (0,0,0,0) → (0,0,0,255); (1,0,0) → 85 |
| Geometry.PointOf | main.go:115-116 | `x = p % W` and `y = p / W` give `0 <= x < W`, `y >= 0` and `y*W + x == p` |
| Geometry.PointOfInRect | main.go:115-116 | for `p < W*H`, the point lies inside the bounds and its row-major offset is `p` again |
| Geometry.IndexOf | main.go:122 | the row-major offset at which `At` and `Set` address `(x, y)`: for `0 <= x < W` it lies in row `y`'s block `[y*W, y*W + W)` |
| Geometry.IndexOfInRange | main.go:96-97 | every point inside bounds `[0,W) x [0,H)` has an offset in `[0, W*H)` |
| Geometry.PointOfIndexOf | main.go:115-116 | offset then index conversion gives back the point |
| Geometry.IndexOfInjective | main.go:115-116 | two indices are different if and only if they denote different points |
| Tasks.Ascending | main.go:163-165 | the tasks `lo, ..., hi - 1`: length `hi - lo`, element `k` is `lo + k` |
| Tasks.Span | main.go:163 | `p` is in the set exactly when `lo <= p < hi` |
| Tasks.ApplyAt | main.go:118-122 | one task keeps the buffer's length |
| Tasks.ApplyInOrder | main.go:114-123 | running a task sequence keeps the buffer's length |
| Tasks.ApplyInOrderConcat | main.go:114-123 | running `a` and then `b` is running `a + b` |
| Tasks.AscendingMembers | main.go:114 | the ascending run holds exactly the tasks of `[lo, hi)` |
| Tasks.AscendingExactlyOnce | main.go:163-165 | the ascending run dispatches no task twice |
| Tasks.AscendingConcat | main.go:114 | two adjacent ascending runs make one |
| Tasks.GrayscaledStep | main.go:118-122 | one more not-yet-done task adds its index to the done set |
| Tasks.ApplyInOrderGrayscaled | main.go:114-123 | distinct in-range tasks, run in any sequence, leave the kernel at exactly their indices and every other pixel unchanged |
| Tasks.AnyOrderSameBuffer | main.go:94-170 | two orders that each run the same task set exactly once leave the same buffer |
| Tasks.GrayscaledIdempotent | main.go:118-122 | grayscaling the same set twice equals grayscaling it once |
| Tasks.GrayscaledOnGrayBuffer | main.go:118-122 | a buffer that is already opaque gray everywhere is left as it is |
| Partition.PixelsPerWorker | main.go:104 | `chunk * N <= W*H < chunk * N + N`: the largest chunk all `N` workers fit into the buffer with |
| Partition.StartPixel | main.go:110 | worker `id`'s first task; for `id <= N` it is not beyond `N * chunk` |
| Partition.EndPixel | main.go:111 | worker `id`'s end is the next worker's start, and for `id < N` it is not beyond `N * chunk` |
| Partition.Covered | main.go:104 | `N * chunk <= W*H`, `W*H - N*chunk < N`, and `N*chunk == W*H` if and only if `W*H mod N == 0` |
| Partition.Owner | main.go:110-111 | every covered task lies in the range of some worker `id < N` |
| Partition.WorkerRangesDisjoint | main.go:110-111 | the ranges of two different workers share no task |
| Partition.WorkerRangesCover | main.go:104-111 | a task is covered if and only if some worker's range holds it, and that worker is unique |
| Partition.StaticScheduleAscending | main.go:106-114 | workers `0..k-1` together run the ascending run `[0, k*chunk)` |
| Partition.StaticScheduleExactlyOnce | main.go:104-114 | all workers together dispatch each task of `[0, N*chunk)` exactly once and nothing outside the buffer |
| Raster.Image.constructor | main.go:83 | `image.NewRGBA`: the given bounds, a fresh buffer of `W*H` pixels, every pixel zero |
| Raster.Image.At | main.go:87 | inside the bounds, the pixel at `y*W + x`; outside, the zero colour |
| Raster.Image.Set | main.go:122 | inside the bounds, only the pixel at `y*W + x` becomes `c`; outside, nothing changes |
| Raster.CloneImage | main.go:81-92 | a fresh image and buffer with the same bounds and the same pixels as the source |
| Strategies.StaticOutcomeAt | main.go:104-124 | in the static outcome, pixels below `N*chunk` hold the kernel of the original value and the rest are unchanged |
| Strategies.StaticScheduleOutcome | main.go:104-128 | the workers' schedules run each covered task once and leave the static outcome |
| Strategies.ProcessPixel | main.go:115-122 | one task on the image applies the kernel at that index and changes nothing else |
| Strategies.ProcessRange | main.go:114-123 | the inner loop leaves the buffer as running `[start, end)` in ascending order |
| Strategies.Worker | main.go:107-124 | worker `id` runs exactly its range `[id*chunk, id*chunk + chunk)` |
| Strategies.RunWorkers | main.go:106-128 | the workers together run the concatenation of their schedules |
| Strategies.ProcessImageWithWaitGroup | main.go:94-129 | the bounds are kept; tasks `[0, N*chunk)` run exactly once; those pixels hold the kernel of their original value; pixels from `N*chunk` on are unchanged |
| Strategies.ProcessImageWithChannel | main.go:131-170 | the bounds are kept; `[0, W*H)` is sent in ascending order, each index once; every pixel holds the kernel of its original value |
| Strategies.RunBenchmark | main.go:28-39 | two fresh, separate clones; the input is unchanged; the first holds the static outcome for `NumWorkers` (the constant 4 of main.go:15), the second the channel outcome |
| Strategies.StaticAnyInterleaving | main.go:106-128 | any interleaving of the workers' tasks leaves the static outcome |
| Strategies.ChannelAnyDelivery | main.go:144-165 | whatever order the workers process the received indices in, the result is the channel outcome |
| Strategies.ChannelOutcomeOpaqueGray | main.go:149-157 | after the channel strategy every pixel is opaque gray |
| Strategies.StrategiesAgreeIff | main.go:94-170 | the two strategies leave the same buffer if and only if every tail pixel `[N*chunk, W*H)` is already opaque gray |
| Strategies.StrategiesAgreeWhenAligned | main.go:104 | when `W*H mod N == 0` the two strategies leave the same buffer |
| Strategies.StrategiesIdempotent | main.go:94-170 | running either strategy twice equals running it once; on an all-gray opaque buffer neither changes anything |
| Strategies.UniformBufferExample | main.go:94-170 | a 4 x 4 buffer of (120,60,30,200) with four workers: all pixels become (70,70,70,255) under both strategies |
| Strategies.TwoPixelExample | main.go:94-170 | [(255,0,0,255), (0,0,255,0)] with two workers: both strategies give two (85,85,85,255) pixels |
| Strategies.TailSkippedExample | main.go:104-111 | a 3 x 1 buffer with two workers: the static strategy grays pixels 0 and 1 and leaves pixel 2; the channel strategy grays all three |

## Findings

| source | as written | input that shows it | evidently intended | confidence | as-written member | corrected member |
|---|---|---|---|---|---|---|
| main.go:118-119 (and 153-154) | `uint8((r + g + b) / 3)` on the 16-bit values of `RGBA()`, which is `(257 * (R + G + B) / 3) mod 256` | `(1, 0, 0)`: level 85, where the mean is 0 | the integer mean `(R + G + B) / 3` of the 8-bit channels | high, by reading the arithmetic; not executed | Color.Gray, with Color.GrayMissesMean and Color.GrayIsMeanIff | Color.MeanGray, with Color.MeanGrayOnGray |

The strategies keep the as-written `Color.Gray`, because they model what the
program writes. `Color.GrayIsMeanIff` states exactly where the two levels
agree: when `R + G + B` is a multiple of 3. `Color.GrayClosedForm` gives the
difference everywhere else.

## Left out

- `main`'s image loading and saving (`loadImage`, `saveImage`, lines 18-79): file I/O and the JPEG codec are calls into libraries outside this model. `RunBenchmark` starts from an `Image` that is already decoded.
- Timing with `time.Now`/`time.Since` and printing the elapsed times (lines 33-48): clocks and output.
- Goroutines, the `sync.WaitGroup` and the unbuffered channel: the model runs the work sequentially. Workers run one after another in `RunWorkers`. Each sent index is processed at once in `ProcessImageWithChannel`. Concurrency is covered by `StaticAnyInterleaving`, `ChannelAnyDelivery` and `AnyOrderSameBuffer`: since the tasks touch distinct pixels, the order does not matter. Rendezvous timing, blocking and data-race freedom are not modelled.
- Strategies.ProcessImageWithChannel: it takes no worker count. In the sequential model the number of receivers does not affect the result, and `ChannelAnyDelivery` covers any split of the indices among them.
- Strategies.ProcessImageWithWaitGroup: the worker count is a parameter `workers >= 1` instead of the constant. `RunBenchmark` passes `NumWorkers = 4`, as the source does.
- Tasks.ApplyAt: for an index outside the buffer it returns the buffer unchanged. The strategies never produce such an index, because every dispatched index is below `W*H`.
- Colour-model conversion in `clone.Set(x, y, src.At(x, y))` for sources that are not RGBA (line 87): the input is modelled as an `image.RGBA`, so the copy is pixel for pixel.
- Images whose bounds do not start at `(0, 0)`: the source reads `W` and `H` from `bounds.Max` (lines 96-97, 133-134), which assumes that origin, and so does the model.
- Overflow of Go's `int` in `W*H`, `workerID*pixelsPerWorker` and the index arithmetic: integers are unbounded here, in line with the realistic image sizes the program is used on.
- The byte layout of `image.RGBA.Pix` (four bytes per pixel, `Stride`): the buffer is one `Pixel` per element in row-major order, which is the same addressing at pixel granularity.
