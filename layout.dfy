/**
 * Row-major layout of the pixel memory: pixel (x, y) lives at byte offset
 * y * pitch + x * 4, and with pitch == width * 4 the rows follow one another
 * with neither gap nor overlap.
 */
module Layout {

  /** Bytes in one 32-bit pixel. */
  const BytesPerPixel: int := 4

  /** Byte offset at which pixel (x, y) is written: the row start plus x pixels. */
  function PixelOffset(x: int, y: int, pitch: int): int {
    y * pitch + x * BytesPerPixel
  }

  lemma MulLe(a: int, b: int, d: int)
    requires a <= b && 0 <= d
    ensures a * d <= b * d
  {
    var e := b - a;
    assert b * d == a * d + e * d;
  }

  /** Euclidean division undoes row-major numbering: q * d + r splits back into q and r. */
  lemma DivModOfRowMajor(q: int, d: int, r: int)
    requires 0 <= q && 0 <= r < d
    ensures (q * d + r) / d == q && (q * d + r) % d == r
  {
    var k := q * d + r;
    var q', r' := k / d, k % d;
    assert k == q' * d + r';
    if q' < q {
      assert (q' + 1) * d == q' * d + d;
      MulLe(q' + 1, q, d);
    } else if q' > q {
      assert (q + 1) * d == q * d + d;
      MulLe(q + 1, q', d);
    }
  }

  /** Every pixel of a width x height buffer with pitch width * 4 lies wholly inside its width * height * 4 bytes. */
  lemma PixelOffsetInBuffer(width: int, height: int, x: int, y: int)
    requires 0 <= x < width && 0 <= y < height
    ensures 0 <= PixelOffset(x, y, width * BytesPerPixel)
    ensures PixelOffset(x, y, width * BytesPerPixel) + BytesPerPixel <= width * height * BytesPerPixel
    ensures PixelOffset(x, y, width * BytesPerPixel) % BytesPerPixel == 0
    ensures PixelOffset(x, y, width * BytesPerPixel) == (y * width + x) * BytesPerPixel
  {
    MulLe(y + 1, height, width);
    assert y * (width * 4) == (y * width) * 4;
    assert (y + 1) * width == y * width + width;
    assert width * height * 4 == (height * width) * 4;
    MulLe(0, y, width);
  }

  /** Distinct pixels are written at distinct offsets: no pixel overwrites another. */
  lemma PixelOffsetInjective(width: int, x1: int, y1: int, x2: int, y2: int)
    requires 0 <= x1 < width && 0 <= y1 && 0 <= x2 < width && 0 <= y2
    requires PixelOffset(x1, y1, width * BytesPerPixel) == PixelOffset(x2, y2, width * BytesPerPixel)
    ensures x1 == x2 && y1 == y2
  {
    assert y1 * (width * 4) == (y1 * width) * 4;
    assert y2 * (width * 4) == (y2 * width) * 4;
    assert y1 * width + x1 == y2 * width + x2;
    DivModOfRowMajor(y1, width, x1);
    DivModOfRowMajor(y2, width, x2);
  }

  /** Every pixel-aligned offset of the buffer is the offset of some pixel: the fill leaves no word unwritten. */
  lemma PixelOffsetCovers(width: int, height: int, b: int)
    requires 0 < width && 0 <= b < width * height * BytesPerPixel && b % BytesPerPixel == 0
    ensures 0 <= (b / BytesPerPixel) % width < width && 0 <= (b / BytesPerPixel) / width < height
    ensures PixelOffset((b / BytesPerPixel) % width, (b / BytesPerPixel) / width, width * BytesPerPixel) == b
  {
    var k := b / 4;
    var x, y := k % width, k / width;
    assert k == y * width + x;
    assert k < width * height;
    if y >= height {
      MulLe(height, y, width);
      assert false;
    }
    assert y * (width * 4) == (y * width) * 4;
  }

  /**
   * When the k-th store of a fill lands at byte 4k, the store for pixel (x, y)
   * lands at its row start y * pitch plus x pixels, with pitch = width * 4.
   */
  lemma StoreFollowsPitch(offsets: seq<int>, width: int, height: int, x: int, y: int)
    requires 0 <= width && 0 <= height && |offsets| == width * height
    requires forall i :: 0 <= i < |offsets| ==> offsets[i] == i * BytesPerPixel
    requires 0 <= x < width && 0 <= y < height
    ensures 0 <= y * width + x < |offsets|
    ensures offsets[y * width + x] == PixelOffset(x, y, width * BytesPerPixel)
  {
    var k := y * width + x;
    PixelOffsetInBuffer(width, height, x, y);
    assert 0 <= k < |offsets| by {
      MulLe(0, y, width);
      MulLe(y + 1, height, width);
      assert (y + 1) * width == k - x + width;
      assert height * width == |offsets|;
    }
    assert offsets[k] == k * BytesPerPixel;
  }

  /** The last pixel of row y ends exactly where the first pixel of row y + 1 begins. */
  lemma RowsContiguous(width: int, y: int)
    requires 0 < width
    ensures PixelOffset(width - 1, y, width * BytesPerPixel) + BytesPerPixel
            == PixelOffset(0, y + 1, width * BytesPerPixel)
  {
    assert (y + 1) * (width * 4) == y * (width * 4) + width * 4;
  }
}
