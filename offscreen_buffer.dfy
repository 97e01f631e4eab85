/**
 * The offscreen pixel buffer of the Win32 layer: a block of 32-bit pixels
 * with its geometry (width, height, bytes per pixel, pitch) and the bitmap
 * header handed to the display. ResizeDIBSection releases the old block and
 * allocates a new one; RenderWeirdGradient paints the animated gradient in
 * place, one row at a time.
 */
module Offscreen {
  import opened FixedWidth
  import Layout
  import opened WeirdGradient
  import opened DibHeader

  /** A call into the allocator: VirtualAlloc of a new block or VirtualFree of an old one. */
  datatype MemoryEvent = Alloc(block: array<uint32>) | Free(block: array<uint32>)

  /** The geometry of a buffer and the size in bytes of its pixel memory. */
  datatype Geometry = Geometry(width: int, height: int, bytesPerPixel: int, pitch: int, memorySize: int)

  class OffscreenBuffer {
    var bitmapInfo: BitmapInfoHeader
    /** The pixel memory, one 32-bit word per pixel; null until the first resize. */
    var buffer: array?<uint32>
    var width: int
    var height: int
    var bytesPerPixel: int
    var pitch: int

    /** Every block of pixel memory obtained from the allocator, oldest first. */
    ghost var Allocations: seq<array<uint32>>
    /** The blocks given back to the allocator. */
    ghost var Released: set<array<uint32>>
    /** The allocator calls made so far, in the order they were made. */
    ghost var Events: seq<MemoryEvent>

    ghost predicate Valid()
      reads this
    {
      && 0 <= width && 0 <= height && width * height * Layout.BytesPerPixel <= INT32_MAX
      // width, height and pitch are int32_t fields
      && pitch <= INT32_MAX && height <= INT32_MAX
      && pitch == width * bytesPerPixel
      && (buffer == null ==> width == 0 && height == 0 && bytesPerPixel == 0 && Allocations == [])
      && (buffer != null ==>
            && bytesPerPixel == Layout.BytesPerPixel
            && buffer.Length == width * height
            && Describes(bitmapInfo, width, height)
            && |Allocations| > 0 && Allocations[|Allocations| - 1] == buffer
            && buffer !in Released)
      // no block other than the current one is still held
      && (forall i :: 0 <= i < |Allocations| - 1 ==> Allocations[i] in Released)
    }

    /** Bytes of pixel memory currently held. */
    function MemorySize(): int
      reads this
    {
      if buffer == null then 0 else buffer.Length * bytesPerPixel
    }

    function GetGeometry(): Geometry
      reads this
    {
      Geometry(width, height, bytesPerPixel, pitch, MemorySize())
    }

    /** The zero-initialised static buffer: no memory, every field zero. */
    constructor ()
      ensures Valid()
      ensures buffer == null && GetGeometry() == Geometry(0, 0, 0, 0, 0)
      ensures bitmapInfo == ZeroHeader
      ensures Allocations == [] && Released == {} && Events == []
    {
      bitmapInfo := ZeroHeader;
      buffer := null;
      width, height, bytesPerPixel, pitch := 0, 0, 0, 0;
      Allocations, Released, Events := [], {}, [];
    }

    /**
     * Releases the current block, if any, records the new size, fills in the
     * six header fields and allocates width * height * 4 bytes of zeroed memory.
     */
    method ResizeDIBSection(w: int, h: int)
      requires Valid()
      requires 0 <= w && 0 <= h && w * h * Layout.BytesPerPixel <= INT32_MAX
      requires w * Layout.BytesPerPixel <= INT32_MAX && h <= INT32_MAX
      modifies this
      ensures Valid()
      ensures GetGeometry() == Geometry(w, h, Layout.BytesPerPixel, w * Layout.BytesPerPixel, w * h * Layout.BytesPerPixel)
      ensures bitmapInfo == old(bitmapInfo).(biSize := BitmapInfoHeaderSize, biWidth := w, biHeight := -h,
                                             biPlanes := 1, biBitCount := 32, biCompression := BiRgb)
      ensures buffer != null && fresh(buffer)
      ensures forall k :: 0 <= k < buffer.Length ==> buffer[k] == 0
      ensures Allocations == old(Allocations) + [buffer]
      ensures Released == if old(buffer) == null then old(Released) else old(Released) + {old(buffer)}
      ensures forall a :: a in old(Allocations) ==> a in Released
      // the old block is freed before the new one is allocated
      ensures Events == old(Events) + (if old(buffer) == null then [] else [Free(old(buffer))]) + [Alloc(buffer)]
    {
      if buffer != null {
        Released := Released + {buffer};
        Events := Events + [Free(buffer)];
      }

      width := w;
      height := h;
      bytesPerPixel := Layout.BytesPerPixel;

      bitmapInfo := bitmapInfo.(biSize := BitmapInfoHeaderSize, biWidth := width, biHeight := -height,
                                biPlanes := 1, biBitCount := 32, biCompression := BiRgb);

      var bitmapMemorySize := width * height * bytesPerPixel;
      Layout.DivModOfRowMajor(width * height, bytesPerPixel, 0);
      buffer := new uint32[bitmapMemorySize / bytesPerPixel](_ => 0);
      Allocations := Allocations + [buffer];
      Events := Events + [Alloc(buffer)];

      pitch := width * bytesPerPixel;
    }

    /**
     * Paints the gradient row by row. `row` and `pixel` are the byte offsets
     * of the two pointers of the loop; `written` records, in order, the byte
     * offset of every pixel store.
     */
    method RenderWeirdGradient(blueOffset: int, greenOffset: int) returns (ghost written: seq<int>)
      requires Valid()
      requires IsInt32(blueOffset) && IsInt32(greenOffset)
      // x + blueOffset and y + greenOffset must not overflow int32_t
      requires 0 < width && 0 < height ==> blueOffset + width - 1 <= INT32_MAX
      requires 0 < width && 0 < height ==> greenOffset + height - 1 <= INT32_MAX
      modifies buffer
      ensures Valid() && unchanged(this)
      ensures buffer != null ==> buffer[..] == Gradient(width, height, blueOffset, greenOffset)
      ensures |written| == width * height
      ensures forall i :: 0 <= i < |written| ==> written[i] == i * Layout.BytesPerPixel
    {
      ghost var g := Gradient(width, height, blueOffset, greenOffset);
      var w, h, buf := width, height, buffer;
      assert pitch == w * Layout.BytesPerPixel;
      assert buf != null ==> buf.Length == |g|;
      written := [];
      ghost var done := 0;  // pixels in the rows already painted
      var row := 0;
      var y := 0;
      while y < h
        invariant 0 <= y <= h
        invariant done == y * w && row == done * Layout.BytesPerPixel
        invariant done <= |g|
        invariant |written| == done
        invariant forall i :: 0 <= i < |written| ==> written[i] == i * Layout.BytesPerPixel
        invariant forall k :: 0 <= k < done ==> buf[k] == g[k]
      {
        assert (y + 1) * w == done + w;
        Layout.MulLe(y + 1, h, w);
        assert buf != null && done + w <= |g| == buf.Length;
        var pixel := row;
        var x := 0;
        while x < w
          invariant 0 <= x <= w
          invariant pixel == (done + x) * Layout.BytesPerPixel
          invariant |written| == done + x
          invariant forall i :: 0 <= i < |written| ==> written[i] == i * Layout.BytesPerPixel
          invariant forall k :: 0 <= k < done + x ==> buf[k] == g[k]
        {
          assert IsInt32(x + blueOffset) && IsInt32(y + greenOffset);
          var blue := Truncate8(x + blueOffset);
          var green := Truncate8(y + greenOffset);
          GradientAt(w, h, blueOffset, greenOffset, x, y);
          Layout.DivModOfRowMajor(done + x, Layout.BytesPerPixel, 0);
          assert pixel / Layout.BytesPerPixel == y * w + x == done + x;
          buf[pixel / Layout.BytesPerPixel] := Pack(green, blue);
          written := written + [pixel];
          pixel := pixel + Layout.BytesPerPixel;
          x := x + 1;
        }
        done := done + w;
        row := row + pitch;
        y := y + 1;
      }
      assert done == |g|;
    }
  }

  /**
   * Resizing twice to the same size yields the same geometry and storage size
   * both times, and the block from the first call is released by the second.
   */
  method ResizeTwice(b: OffscreenBuffer, w: int, h: int) returns (first: Geometry, second: Geometry)
    requires b.Valid()
    requires 0 <= w && 0 <= h && w * h * Layout.BytesPerPixel <= INT32_MAX
    requires w * Layout.BytesPerPixel <= INT32_MAX && h <= INT32_MAX
    modifies b
    ensures b.Valid()
    ensures first == second == b.GetGeometry()
    ensures second == Geometry(w, h, Layout.BytesPerPixel, w * Layout.BytesPerPixel, w * h * Layout.BytesPerPixel)
    ensures |b.Allocations| == |old(b.Allocations)| + 2
    ensures b.Allocations[|b.Allocations| - 2] in b.Released
    ensures b.Allocations[|b.Allocations| - 1] == b.buffer && b.buffer !in b.Released
  {
    b.ResizeDIBSection(w, h);
    first := b.GetGeometry();
    b.ResizeDIBSection(w, h);
    second := b.GetGeometry();
  }
}
