/**
 * The pixel values produced by RenderWeirdGradient: every pixel is a 32-bit
 * word whose low byte (blue) is the column plus the blue offset and whose
 * second byte (green) is the row plus the green offset, both truncated to
 * eight bits; the red and alpha bytes are zero.
 */
module WeirdGradient {
  import opened FixedWidth
  import Layout

  /** Conversion of an integer to uint8_t: the unique byte congruent to v modulo 256. */
  function Truncate8(v: int): (b: uint8)
    ensures (v - b) % 256 == 0
  {
    v % 256
  }

  /**
   * The packed pixel `(green << 8) | blue`. The two channels occupy disjoint
   * bits, so the shift-and-or is green * 256 + blue (see PackIsShiftOr).
   */
  function Pack(green: uint8, blue: uint8): (p: uint32)
    ensures p % 256 == blue && (p / 256) % 256 == green
    ensures p / 0x1_0000 == 0
  {
    green * 256 + blue
  }

  /** The C expression on 32-bit words agrees with Pack, and leaves bits 16 to 31 (red, alpha) clear. */
  lemma PackIsShiftOr(green: bv8, blue: bv8)
    ensures ((green as bv32 << 8) | blue as bv32) as int == Pack(green as int, blue as int)
    ensures ((green as bv32 << 8) | blue as bv32) >> 16 == 0
  {
  }

  /** The value the fill stores at column x of row y. */
  function GradientPixel(x: int, y: int, blueOffset: int, greenOffset: int): (p: uint32)
    ensures p == ((y + greenOffset) % 256) * 256 + (x + blueOffset) % 256
    ensures p < 0x1_0000
  {
    Pack(Truncate8(y + greenOffset), Truncate8(x + blueOffset))
  }

  /**
   * The whole buffer after a fill, one word per pixel, rows stored one after
   * the other: word k holds column k % width of row k / width.
   */
  function Gradient(width: nat, height: nat, blueOffset: int, greenOffset: int): (s: seq<uint32>)
    ensures |s| == width * height
  {
    if width == 0 then []
    else seq(width * height, k => GradientPixel(k % width, k / width, blueOffset, greenOffset))
  }

  /** The pixel at column x of row y of a filled buffer is the closed-form gradient value. */
  lemma GradientAt(width: nat, height: nat, blueOffset: int, greenOffset: int, x: int, y: int)
    requires 0 <= x < width && 0 <= y < height
    ensures y * width + x < width * height
    ensures Gradient(width, height, blueOffset, greenOffset)[y * width + x]
            == GradientPixel(x, y, blueOffset, greenOffset)
  {
    assert (y + 1) * width == y * width + width;
    Layout.MulLe(y + 1, height, width);
    Layout.DivModOfRowMajor(y, width, x);
  }

  lemma PixelPeriod(x: int, y: int, blueOffset: int, greenOffset: int)
    ensures GradientPixel(x, y, blueOffset + 256, greenOffset) == GradientPixel(x, y, blueOffset, greenOffset)
    ensures GradientPixel(x, y, blueOffset, greenOffset + 256) == GradientPixel(x, y, blueOffset, greenOffset)
  {
    assert (x + blueOffset + 256) % 256 == (x + blueOffset) % 256;
    assert (y + greenOffset + 256) % 256 == (y + greenOffset) % 256;
  }

  /** Adding 256 to the blue offset leaves every pixel unchanged. */
  lemma BlueOffsetPeriod(width: nat, height: nat, blueOffset: int, greenOffset: int)
    ensures Gradient(width, height, blueOffset + 256, greenOffset)
            == Gradient(width, height, blueOffset, greenOffset)
  {
    var a := Gradient(width, height, blueOffset + 256, greenOffset);
    var b := Gradient(width, height, blueOffset, greenOffset);
    forall k | 0 <= k < |a| ensures a[k] == b[k] {
      PixelPeriod(k % width, k / width, blueOffset, greenOffset);
    }
  }

  /** Adding 256 to the green offset leaves every pixel unchanged. */
  lemma GreenOffsetPeriod(width: nat, height: nat, blueOffset: int, greenOffset: int)
    ensures Gradient(width, height, blueOffset, greenOffset + 256)
            == Gradient(width, height, blueOffset, greenOffset)
  {
    var a := Gradient(width, height, blueOffset, greenOffset + 256);
    var b := Gradient(width, height, blueOffset, greenOffset);
    forall k | 0 <= k < |a| ensures a[k] == b[k] {
      PixelPeriod(k % width, k / width, blueOffset, greenOffset);
    }
  }

  /** No shift of the blue offset by less than 256 reproduces a non-empty buffer. */
  lemma BlueOffsetMinimalPeriod(width: nat, height: nat, blueOffset: int, greenOffset: int, d: int)
    requires 0 < width && 0 < height && 0 < d < 256
    ensures Gradient(width, height, blueOffset + d, greenOffset)
            != Gradient(width, height, blueOffset, greenOffset)
  {
    Layout.MulLe(1, height, width);
    var a := Gradient(width, height, blueOffset + d, greenOffset);
    var b := Gradient(width, height, blueOffset, greenOffset);
    assert a[0] == GradientPixel(0, 0, blueOffset + d, greenOffset);
    assert b[0] == GradientPixel(0, 0, blueOffset, greenOffset);
    assert Truncate8(blueOffset + d) != Truncate8(blueOffset);
  }

  /** No shift of the green offset by less than 256 reproduces a non-empty buffer. */
  lemma GreenOffsetMinimalPeriod(width: nat, height: nat, blueOffset: int, greenOffset: int, d: int)
    requires 0 < width && 0 < height && 0 < d < 256
    ensures Gradient(width, height, blueOffset, greenOffset + d)
            != Gradient(width, height, blueOffset, greenOffset)
  {
    Layout.MulLe(1, height, width);
    var a := Gradient(width, height, blueOffset, greenOffset + d);
    var b := Gradient(width, height, blueOffset, greenOffset);
    assert a[0] == GradientPixel(0, 0, blueOffset, greenOffset + d);
    assert b[0] == GradientPixel(0, 0, blueOffset, greenOffset);
    assert Truncate8(greenOffset + d) != Truncate8(greenOffset);
  }

  /**
   * The frame loop keeps two counters, xOffset and yOffset, which start at 0
   * and are post-incremented together after every fill, so they are always
   * equal; with both offsets equal to tick, the animation repeats every 256
   * frames.
   */
  lemma AnimationRepeats(width: nat, height: nat, tick: int)
    ensures Gradient(width, height, tick + 256, tick + 256) == Gradient(width, height, tick, tick)
  {
    BlueOffsetPeriod(width, height, tick, tick + 256);
    GreenOffsetPeriod(width, height, tick, tick);
  }
}
