/**
 * The BITMAPINFOHEADER that ResizeDIBSection fills in, and how a device-independent
 * bitmap header is read: each scan line holds biWidth * biBitCount bits rounded up
 * to a whole number of 32-bit words, there are |biHeight| scan lines, and a negative
 * biHeight means the first scan line in memory is the top row of the image.
 */
module DibHeader {
  import Layout

  /** sizeof(BITMAPINFOHEADER). */
  const BitmapInfoHeaderSize: int := 40
  /** BI_RGB: uncompressed pixels. */
  const BiRgb: int := 0

  datatype BitmapInfoHeader = BitmapInfoHeader(
    biSize: int,
    biWidth: int,
    biHeight: int,
    biPlanes: int,
    biBitCount: int,
    biCompression: int,
    biSizeImage: int,
    biXPelsPerMeter: int,
    biYPelsPerMeter: int,
    biClrUsed: int,
    biClrImportant: int)

  /** The header of the zero-initialised static buffer. */
  const ZeroHeader := BitmapInfoHeader(0, 0, 0, 0, 0, 0, 0, 0, 0, 0, 0)

  /** The six fields ResizeDIBSection writes, for a buffer of the given size. */
  predicate Describes(hd: BitmapInfoHeader, width: int, height: int) {
    && hd.biSize == BitmapInfoHeaderSize
    && hd.biWidth == width
    && hd.biHeight == -height
    && hd.biPlanes == 1
    && hd.biBitCount == 32
    && hd.biCompression == BiRgb
  }

  /** Bytes per scan line: biWidth * biBitCount bits rounded up to a multiple of 32 bits. */
  function Stride(hd: BitmapInfoHeader): int {
    ((hd.biWidth * hd.biBitCount + 31) / 32) * 4
  }

  /** Number of scan lines. */
  function RowCount(hd: BitmapInfoHeader): int {
    if hd.biHeight < 0 then -hd.biHeight else hd.biHeight
  }

  predicate IsTopDown(hd: BitmapInfoHeader) {
    hd.biHeight < 0
  }

  /** The image row (0 = top) shown by the scan line stored at position i in memory. */
  function DisplayRow(hd: BitmapInfoHeader, i: int): int {
    if IsTopDown(hd) then i else RowCount(hd) - 1 - i
  }

  /**
   * A header written by ResizeDIBSection describes exactly the memory the fill
   * writes: its scan line is the pitch, it has height scan lines of 32-bit
   * pixels, the image takes width * height * 4 bytes, and the row the fill
   * writes at y * pitch is shown as row y from the top.
   */
  lemma HeaderMatchesLayout(hd: BitmapInfoHeader, width: int, height: int)
    requires 0 <= width && 0 <= height
    requires Describes(hd, width, height)
    ensures Stride(hd) == width * Layout.BytesPerPixel
    ensures hd.biBitCount == 8 * Layout.BytesPerPixel
    ensures RowCount(hd) == height
    ensures Stride(hd) * RowCount(hd) == width * height * Layout.BytesPerPixel
    ensures height > 0 ==> IsTopDown(hd)
    ensures forall y :: 0 <= y < height ==> DisplayRow(hd, y) == y
  {
    Layout.DivModOfRowMajor(width, 32, 31);
    assert (width * 4) * height == width * height * 4;
  }
}
