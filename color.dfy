/** Pixel values and the per-pixel grayscale kernel (main.go, lines 118-120 and 153-155). */
module Color {
  /** Go's uint8: one 8-bit channel. */
  type Byte = x: int | 0 <= x < 0x100

  /** Go's uint32: the type of the channels that color.Color's RGBA method reports. */
  type Uint32 = x: int | 0 <= x < 0x1_0000_0000

  /** color.RGBA: four 8-bit channels (alpha-premultiplied). */
  datatype Pixel = RGBA(r: Byte, g: Byte, b: Byte, a: Byte)

  /** The zero color.RGBA, with which image.NewRGBA fills a new buffer. */
  const Transparent: Pixel := RGBA(0, 0, 0, 0)

  /** Addition of two Go uint32 values, which wraps around modulo 2^32. */
  function AddUint32(u: Uint32, v: Uint32): (w: Uint32)
    ensures u + v < 0x1_0000_0000 ==> w == u + v
    ensures u + v >= 0x1_0000_0000 ==> w == u + v - 0x1_0000_0000
  {
    (u + v) % 0x1_0000_0000
  }

  /** The Go conversion of a uint32 to uint8, which keeps the low eight bits. */
  function Uint8(v: Uint32): (b: Byte)
    ensures (v - b) % 0x100 == 0
  {
    v % 0x100
  }

  /** The 16-bit value that color.RGBA's RGBA method reports for an 8-bit channel:
    * the byte repeated in the high and the low half. */
  function Widen(c: Byte): (w: Uint32)
    ensures w < 0x1_0000
    ensures w / 0x100 == c && w % 0x100 == c
  {
    c * 0x100 + c
  }

  /** Sum of the three colour channels, each in [0, 255]. */
  function ChannelSum(c: Pixel): (s: nat)
    ensures s <= 765
  {
    c.r + c.g + c.b
  }

  /** The gray level the source computes: the three widened channels are added as
    * uint32, divided by 3, and the quotient is truncated to uint8. Alpha is ignored.
    * The uint32 sum never wraps, so the level is (257 * (R + G + B) / 3) mod 256. */
  function Gray(c: Pixel): (gray: Byte)
    ensures gray == (257 * ChannelSum(c) / 3) % 256
  {
    var r, g, b := Widen(c.r), Widen(c.g), Widen(c.b);
    var sum := AddUint32(AddUint32(r, g), b);
    assert sum == 257 * ChannelSum(c);
    Uint8(sum / 3)
  }

  /** The grayscale kernel: the colour written back to a pixel, opaque gray at level
    * Gray(c), whatever the input's alpha. */
  function Kernel(c: Pixel): (k: Pixel)
    ensures IsOpaqueGray(k) && k.r == Gray(c)
  {
    var gray := Gray(c);
    RGBA(gray, gray, gray, 255)
  }

  /** The integer mean of the three colour channels, the gray level the program is
    * meant to write: computed on the 8-bit channels, without widening them first. */
  function MeanGray(c: Pixel): (gray: Byte)
    ensures 3 * gray <= ChannelSum(c) < 3 * gray + 3
  {
    ChannelSum(c) / 3
  }

  /** A pixel that is already gray and fully opaque. */
  predicate IsOpaqueGray(c: Pixel)
  {
    c.r == c.g && c.g == c.b && c.a == 255
  }

  /** The widened channel sum stays far below the uint32 limit (at most 3 * 65535). */
  lemma WidenedSumBound(c: Pixel)
    ensures Widen(c.r) + Widen(c.g) + Widen(c.b) == 257 * ChannelSum(c)
    ensures Widen(c.r) + Widen(c.g) + Widen(c.b) <= 196605
  {
  }

  /** Closed form of the gray level in terms of the integer mean m = (R + G + B) / 3 and
    * the remainder (R + G + B) % 3: the 16-bit widening adds 0, 85 or 171 to m,
    * modulo 256. */
  lemma GrayClosedForm(c: Pixel)
    ensures Gray(c) == (ChannelSum(c) / 3 + 85 * (ChannelSum(c) % 3) + ChannelSum(c) % 3 / 2) % 256
  {
    var m, k := ChannelSum(c) / 3, ChannelSum(c) % 3;
    assert ChannelSum(c) == 3 * m + k;
    WidenedThird(m, k);
    ModAfterMultiple(m, m + 85 * k + k / 2);
  }

  /** A third of 257 * (3m + k), for k < 3, is 256 * m plus m + 85 * k + k / 2. */
  lemma WidenedThird(m: nat, k: nat)
    requires k < 3
    ensures 257 * (3 * m + k) / 3 == 256 * m + (m + 85 * k + k / 2)
  {
    var q := 256 * m + (m + 85 * k + k / 2);
    if k == 0 {
      assert 257 * (3 * m + k) == 3 * q;
    } else if k == 1 {
      assert 257 * (3 * m + k) == 3 * q + 2;
    } else {
      assert 257 * (3 * m + k) == 3 * q + 1;
    }
  }

  lemma ModAfterMultiple(m: nat, q: nat)
    ensures (256 * m + q) % 256 == q % 256
  {
  }

  /** For a byte m and a remainder k < 3, shifting m by the offset 85 * k + k / 2 leaves
    * it unchanged modulo 256 exactly when k is 0. */
  lemma ShiftKeepsByteIff(m: nat, k: nat)
    requires m < 256 && k < 3
    ensures (m + 85 * k + k / 2) % 256 == m <==> k == 0
  {
    if k == 1 {
      assert m + 85 >= 256 ==> (m + 85) % 256 == m + 85 - 256;
    } else if k == 2 {
      assert m + 171 >= 256 ==> (m + 171) % 256 == m + 171 - 256;
    }
  }

  /** The source's gray level is the integer mean of the channels exactly when the
    * channel sum is a multiple of 3. */
  lemma GrayIsMeanIff(c: Pixel)
    ensures Gray(c) == MeanGray(c) <==> ChannelSum(c) % 3 == 0
  {
    GrayClosedForm(c);
    ShiftKeepsByteIff(ChannelSum(c) / 3, ChannelSum(c) % 3);
  }

  /** The kernel leaves a pixel unchanged exactly when it is already opaque gray. */
  lemma KernelFixedIff(c: Pixel)
    ensures Kernel(c) == c <==> IsOpaqueGray(c)
  {
    if IsOpaqueGray(c) {
      assert ChannelSum(c) == 3 * c.r;
      GrayIsMeanIff(c);
    }
  }

  /** (1, 0, 0) has integer mean 0, but the source writes level 85. */
  lemma GrayMissesMean()
    ensures MeanGray(RGBA(1, 0, 0, 255)) == 0
    ensures Gray(RGBA(1, 0, 0, 255)) == 85
  {
    assert ChannelSum(RGBA(1, 0, 0, 255)) == 1;
  }

  /** The intended level keeps the level of a pixel that is already gray. */
  lemma MeanGrayOnGray(c: Pixel)
    requires c.r == c.g && c.g == c.b
    ensures MeanGray(c) == c.r
  {
  }

  /** A pixel with R == G == B keeps its level; only its alpha becomes 255. */
  lemma KernelOnGray(c: Pixel)
    requires c.r == c.g && c.g == c.b
    ensures Kernel(c) == c.(a := 255)
  {
    KernelFixedIff(c.(a := 255));
  }

  /** Applying the kernel twice is the same as applying it once. */
  lemma KernelIdempotent(c: Pixel)
    ensures Kernel(Kernel(c)) == Kernel(c)
  {
    KernelFixedIff(Kernel(c));
  }

  /** Worked values: (120, 60, 30) has sum 210, a multiple of 3, and gives the mean 70;
    * (255, 0, 0) and (0, 0, 255) give 85; black gains full alpha; (1, 0, 0), whose
    * integer mean is 0, gives 85. */
  lemma KernelExamples()
    ensures Kernel(RGBA(120, 60, 30, 200)) == RGBA(70, 70, 70, 255)
    ensures Kernel(RGBA(255, 0, 0, 255)) == RGBA(85, 85, 85, 255)
    ensures Kernel(RGBA(0, 0, 255, 0)) == RGBA(85, 85, 85, 255)
    ensures Kernel(Transparent) == RGBA(0, 0, 0, 255)
    ensures Kernel(RGBA(1, 0, 0, 255)) == RGBA(85, 85, 85, 255)
  {
  }
}
