/** The two work-distribution strategies of main.go (processImageWithWaitGroup, lines
  * 94-129, and processImageWithChannel, lines 131-170), run as sequential loops, and the
  * part of main (lines 28-39) that clones the input once per strategy and runs each. */
module Strategies {
  import opened Color
  import opened Geometry
  import opened Tasks
  import opened Partition
  import opened Raster

  /** What the static strategy leaves: the kernel on [0, Covered), the tail untouched. */
  function StaticOutcome(s: seq<Pixel>, workers: nat): seq<Pixel>
    requires workers >= 1
  {
    Grayscaled(s, Span(0, Covered(|s|, workers)))
  }

  /** What the channel strategy leaves: the kernel on every pixel. */
  function ChannelOutcome(s: seq<Pixel>): seq<Pixel>
  {
    Grayscaled(s, Span(0, |s|))
  }

  /** Pixel by pixel: the static strategy's outcome holds the kernel of the original
    * below Covered and the original value from Covered on. */
  lemma StaticOutcomeAt(s: seq<Pixel>, workers: nat)
    requires workers >= 1
    ensures |StaticOutcome(s, workers)| == |s|
    ensures forall p :: 0 <= p < Covered(|s|, workers) ==> StaticOutcome(s, workers)[p] == Kernel(s[p])
    ensures forall p :: Covered(|s|, workers) <= p < |s| ==> StaticOutcome(s, workers)[p] == s[p]
  {
  }

  /** The static schedule runs each covered task exactly once, so running it in order
    * leaves the static outcome. */
  lemma StaticScheduleOutcome(s: seq<Pixel>, workers: nat)
    requires workers >= 1
    ensures AllBelow(StaticSchedule(|s|, workers, workers), |s|)
    ensures Distinct(StaticSchedule(|s|, workers, workers))
    ensures Elements(StaticSchedule(|s|, workers, workers)) == Span(0, Covered(|s|, workers))
    ensures ApplyInOrder(s, StaticSchedule(|s|, workers, workers)) == StaticOutcome(s, workers)
    ensures forall p :: 0 <= p < Covered(|s|, workers) ==>
              ApplyInOrder(s, StaticSchedule(|s|, workers, workers))[p] == Kernel(s[p])
    ensures forall p :: Covered(|s|, workers) <= p < |s| ==>
              ApplyInOrder(s, StaticSchedule(|s|, workers, workers))[p] == s[p]
  {
    StaticScheduleExactlyOnce(|s|, workers);
    ApplyInOrderGrayscaled(s, StaticSchedule(|s|, workers, workers));
    StaticOutcomeAt(s, workers);
  }

  /** One task, the same in both strategies: convert the linear index to (x, y), read
    * the pixel there and write back its kernel. */
  method ProcessPixel(img: Image, pixel: nat)
    requires img.Valid() && pixel < img.pix.Length
    modifies img.pix
    ensures img.Valid()
    ensures img.pix[..] == ApplyAt(old(img.pix[..]), pixel)
  {
    var width := img.width;
    var pt := PointOf(pixel, width);
    PointOfInRect(pixel, width, img.height);
    img.Set(pt.x, pt.y, Kernel(img.At(pt.x, pt.y)));
  }

  /** The loop of one goroutine of processImageWithWaitGroup: the tasks
    * [startPixel, endPixel) in ascending order. */
  method ProcessRange(img: Image, startPixel: nat, endPixel: nat)
    requires img.Valid() && startPixel <= endPixel <= img.pix.Length
    modifies img.pix
    ensures img.Valid()
    ensures img.pix[..] == ApplyInOrder(old(img.pix[..]), Ascending(startPixel, endPixel))
  {
    ghost var s0 := img.pix[..];
    ghost var done: seq<int> := [];
    var pixel := startPixel;
    while pixel < endPixel
      invariant startPixel <= pixel <= endPixel && img.Valid()
      invariant done == Ascending(startPixel, pixel)
      invariant img.pix[..] == ApplyInOrder(s0, done)
    {
      ProcessPixel(img, pixel);
      AscendingConcat(startPixel, pixel, pixel + 1);
      done := done + [pixel];
      pixel := pixel + 1;
    }
  }

  /** The goroutine of worker workerID in processImageWithWaitGroup: it derives its
    * range from its ordinal and the shared chunk size and processes that range. */
  method Worker(img: Image, ghost workers: nat, workerID: nat, pixelsPerWorker: nat)
    requires img.Valid() && workers >= 1 && workerID < workers
    requires pixelsPerWorker == PixelsPerWorker(img.pix.Length, workers)
    modifies img.pix
    ensures img.Valid()
    ensures img.pix[..] == ApplyInOrder(old(img.pix[..]), WorkerSchedule(img.pix.Length, workers, workerID))
  {
    var startPixel := workerID * pixelsPerWorker;
    var endPixel := startPixel + pixelsPerWorker;
    assert endPixel == EndPixel(img.pix.Length, workers, workerID);
    ProcessRange(img, startPixel, endPixel);
  }

  /** The spawning loop of processImageWithWaitGroup followed by the wait for all
    * workers: worker id gets ordinal id and the shared chunk size. The workers run here
    * one after the other; `trace` records their tasks in that order. */
  method RunWorkers(img: Image, workers: nat, pixelsPerWorker: nat) returns (ghost trace: seq<int>)
    requires img.Valid() && workers >= 1
    requires pixelsPerWorker == PixelsPerWorker(img.pix.Length, workers)
    modifies img.pix
    ensures img.Valid()
    ensures trace == StaticSchedule(img.pix.Length, workers, workers)
    ensures img.pix[..] == ApplyInOrder(old(img.pix[..]), trace)
  {
    ghost var s0 := img.pix[..];
    trace := [];
    var id := 0;
    while id < workers
      invariant 0 <= id <= workers && img.Valid()
      invariant trace == StaticSchedule(|s0|, workers, id)
      invariant img.pix[..] == ApplyInOrder(s0, trace)
    {
      ApplyInOrderConcat(s0, trace, WorkerSchedule(|s0|, workers, id));
      Worker(img, workers, id, pixelsPerWorker);
      trace := trace + WorkerSchedule(|s0|, workers, id);
      id := id + 1;
    }
  }

  /** processImageWithWaitGroup with the given worker count (main uses NumWorkers):
    * chunk = W * H / workers, worker id processes [id * chunk, id * chunk + chunk), and
    * the tail [workers * chunk, W * H) is left as it was. */
  method ProcessImageWithWaitGroup(img: Image, workers: nat) returns (ghost trace: seq<int>)
    requires img.Valid() && workers >= 1
    modifies img.pix
    ensures img.Valid() && img.width == old(img.width) && img.height == old(img.height)
    ensures trace == StaticSchedule(img.pix.Length, workers, workers)
    ensures AllBelow(trace, img.pix.Length) && Distinct(trace)
    ensures Elements(trace) == Span(0, Covered(img.pix.Length, workers))
    ensures img.pix[..] == ApplyInOrder(old(img.pix[..]), trace)
    ensures img.pix[..] == StaticOutcome(old(img.pix[..]), workers)
    ensures forall p :: 0 <= p < Covered(img.pix.Length, workers) ==>
              img.pix[p] == Kernel(old(img.pix[p]))
    ensures forall p :: Covered(img.pix.Length, workers) <= p < img.pix.Length ==>
              img.pix[p] == old(img.pix[p])
  {
    var width, height := img.width, img.height;
    var pixelsPerWorker := width * height / workers;
    trace := RunWorkers(img, workers, pixelsPerWorker);
    StaticScheduleOutcome(old(img.pix[..]), workers);
  }

  /** processImageWithChannel: the sender puts every index of [0, W * H) on the channel
    * in ascending order and each index is received, and processed, by one worker. As a
    * sequential loop each send is processed at once; `sent` records what was sent. */
  method ProcessImageWithChannel(img: Image) returns (ghost sent: seq<int>)
    requires img.Valid()
    modifies img.pix
    ensures img.Valid() && img.width == old(img.width) && img.height == old(img.height)
    ensures sent == Ascending(0, img.width * img.height)
    ensures AllBelow(sent, img.pix.Length) && Distinct(sent)
    ensures Elements(sent) == Span(0, img.pix.Length)
    ensures img.pix[..] == ApplyInOrder(old(img.pix[..]), sent)
    ensures img.pix[..] == ChannelOutcome(old(img.pix[..]))
    ensures forall p :: 0 <= p < img.pix.Length ==> img.pix[p] == Kernel(old(img.pix[p]))
  {
    var width, height := img.width, img.height;
    ghost var s0 := img.pix[..];
    sent := [];
    var pixel := 0;
    while pixel < width * height
      invariant 0 <= pixel <= width * height && img.Valid()
      invariant sent == Ascending(0, pixel)
      invariant img.pix[..] == ApplyInOrder(s0, sent)
    {
      ProcessPixel(img, pixel);
      AscendingConcat(0, pixel, pixel + 1);
      sent := sent + [pixel];
      pixel := pixel + 1;
    }
    AscendingExactlyOnce(0, |s0|);
    ApplyInOrderGrayscaled(s0, sent);
  }

  /** main without loading, timing, saving and printing: two independent clones of the
    * input, the static strategy on the first, the channel strategy on the second. */
  method RunBenchmark(input: Image) returns (imageWG: Image, imageCh: Image)
    requires input.Valid()
    ensures fresh(imageWG) && fresh(imageWG.pix) && fresh(imageCh) && fresh(imageCh.pix)
    ensures imageWG.pix != imageCh.pix && imageWG.pix != input.pix && imageCh.pix != input.pix
    ensures input.pix[..] == old(input.pix[..])
    ensures imageWG.Valid() && imageWG.width == input.width && imageWG.height == input.height
    ensures imageCh.Valid() && imageCh.width == input.width && imageCh.height == input.height
    ensures imageWG.pix[..] == StaticOutcome(input.pix[..], NumWorkers)
    ensures imageCh.pix[..] == ChannelOutcome(input.pix[..])
  {
    imageWG := CloneImage(input);
    imageCh := CloneImage(input);
    ghost var traceWG := ProcessImageWithWaitGroup(imageWG, NumWorkers);
    ghost var sentCh := ProcessImageWithChannel(imageCh);
  }

  /** The workers of the static strategy may interleave in any way: every order that
    * runs each task of the worker schedules exactly once leaves the same buffer. */
  lemma StaticAnyInterleaving(s: seq<Pixel>, workers: nat, order: seq<int>)
    requires workers >= 1
    requires AllBelow(order, |s|) && Distinct(order)
    requires Elements(order) == Elements(StaticSchedule(|s|, workers, workers))
    ensures ApplyInOrder(s, order) == StaticOutcome(s, workers)
  {
    StaticScheduleExactlyOnce(|s|, workers);
    ApplyInOrderGrayscaled(s, order);
  }

  /** The channel hands each index to exactly one worker; whatever order the workers
    * then process them in, the buffer is the same. */
  lemma ChannelAnyDelivery(s: seq<Pixel>, order: seq<int>)
    requires AllBelow(order, |s|) && Distinct(order)
    requires Elements(order) == Elements(Ascending(0, |s|))
    ensures ApplyInOrder(s, order) == ChannelOutcome(s)
  {
    AscendingExactlyOnce(0, |s|);
    ApplyInOrderGrayscaled(s, order);
  }

  /** After the channel strategy every pixel is opaque gray. */
  lemma ChannelOutcomeOpaqueGray(s: seq<Pixel>, p: nat)
    requires p < |s|
    ensures IsOpaqueGray(ChannelOutcome(s)[p])
  {
    assert ChannelOutcome(s)[p] == Kernel(s[p]);
  }

  /** The two strategies leave the same buffer exactly when every tail pixel the static
    * strategy skips is already opaque gray. */
  lemma StrategiesAgreeIff(s: seq<Pixel>, workers: nat)
    requires workers >= 1
    ensures StaticOutcome(s, workers) == ChannelOutcome(s) <==>
            forall p :: Covered(|s|, workers) <= p < |s| ==> IsOpaqueGray(s[p])
  {
    var c := Covered(|s|, workers);
    if StaticOutcome(s, workers) == ChannelOutcome(s) {
      forall p | c <= p < |s| ensures IsOpaqueGray(s[p]) {
        assert StaticOutcome(s, workers)[p] == ChannelOutcome(s)[p];
        KernelFixedIff(s[p]);
      }
    }
    if forall p :: c <= p < |s| ==> IsOpaqueGray(s[p]) {
      forall p | c <= p < |s| ensures Kernel(s[p]) == s[p] {
        KernelFixedIff(s[p]);
      }
      assert StaticOutcome(s, workers) == ChannelOutcome(s);
    }
  }

  /** When the pixel count is a multiple of the worker count the strategies agree. */
  lemma StrategiesAgreeWhenAligned(s: seq<Pixel>, workers: nat)
    requires workers >= 1 && |s| % workers == 0
    ensures StaticOutcome(s, workers) == ChannelOutcome(s)
  {
    StrategiesAgreeIff(s, workers);
  }

  /** Running either strategy a second time changes nothing, and on a buffer that is
    * already opaque gray neither changes anything. */
  lemma StrategiesIdempotent(s: seq<Pixel>, workers: nat)
    requires workers >= 1
    ensures StaticOutcome(StaticOutcome(s, workers), workers) == StaticOutcome(s, workers)
    ensures ChannelOutcome(ChannelOutcome(s)) == ChannelOutcome(s)
    ensures (forall p :: 0 <= p < |s| ==> IsOpaqueGray(s[p])) ==>
              StaticOutcome(s, workers) == s && ChannelOutcome(s) == s
  {
    GrayscaledIdempotent(s, Span(0, Covered(|s|, workers)));
    GrayscaledIdempotent(s, Span(0, |s|));
    if forall p :: 0 <= p < |s| ==> IsOpaqueGray(s[p]) {
      GrayscaledOnGrayBuffer(s, Span(0, Covered(|s|, workers)));
      GrayscaledOnGrayBuffer(s, Span(0, |s|));
    }
  }

  /** A 4 x 4 buffer filled with (120, 60, 30, 200) and four workers: both strategies
    * turn every pixel into (70, 70, 70, 255) and leave identical buffers. */
  lemma UniformBufferExample(s: seq<Pixel>)
    requires |s| == 16 && forall p :: 0 <= p < 16 ==> s[p] == RGBA(120, 60, 30, 200)
    ensures StaticOutcome(s, NumWorkers) == ChannelOutcome(s)
    ensures forall p :: 0 <= p < 16 ==> ChannelOutcome(s)[p] == RGBA(70, 70, 70, 255)
  {
    StrategiesAgreeWhenAligned(s, NumWorkers);
    KernelExamples();
  }

  /** A 2 x 1 buffer [(255, 0, 0, 255), (0, 0, 255, 0)] with two workers: both strategies
    * leave [(85, 85, 85, 255), (85, 85, 85, 255)]. */
  lemma TwoPixelExample()
    ensures StaticOutcome([RGBA(255, 0, 0, 255), RGBA(0, 0, 255, 0)], 2) ==
            [RGBA(85, 85, 85, 255), RGBA(85, 85, 85, 255)]
    ensures ChannelOutcome([RGBA(255, 0, 0, 255), RGBA(0, 0, 255, 0)]) ==
            [RGBA(85, 85, 85, 255), RGBA(85, 85, 85, 255)]
  {
    KernelExamples();
  }

  /** A 3 x 1 buffer with two workers: chunk 1, so the static strategy covers pixels 0
    * and 1 and leaves pixel 2 as it was, while the channel strategy covers all three. */
  lemma TailSkippedExample(s: seq<Pixel>)
    requires |s| == 3
    ensures Covered(|s|, 2) == 2
    ensures StaticOutcome(s, 2) == [Kernel(s[0]), Kernel(s[1]), s[2]]
    ensures ChannelOutcome(s) == [Kernel(s[0]), Kernel(s[1]), Kernel(s[2])]
  {
  }
}
