# Offscreen pixel buffer of the Win32 platform layer

This project models the offscreen pixel buffer of the Win32 layer of a
Handmade Hero style program, written in Dafny. The layer keeps one static
`offscreen_buffer`. It holds a bitmap header, a pointer to pixel memory, and
the width, height, bytes per pixel and pitch. Two operations act on it:

- `ResizeDIBSection` gives back the old pixel memory. It records the new
  size, fills in the bitmap header (negative height, so rows are stored top
  down; 32 bits per pixel; uncompressed) and allocates `width * height * 4`
  bytes. Then it sets the pitch to `width * 4`.
- `RenderWeirdGradient` walks the buffer one row at a time. A row pointer
  moves forward by `pitch` and a pixel pointer moves forward one 32-bit word
  at a time. Each pixel gets `(uint8(y + greenOffset) << 8) | uint8(x + blueOffset)`.
  The frame loop passes two counters, `xOffset` and `yOffset`. Both start at 0
  and are post-incremented together after every fill, so the two offsets are
  always equal and grow by one each frame.

Files:

- `fixed_width.dfy` (`FixedWidth`): the `uint8_t`, `uint32_t` and `int32_t`
  ranges.
- `layout.dfy` (`Layout`): byte offsets in row-major order. It ties the
  fill's stores to the row start `y * pitch` and shows that they cover every
  pixel exactly once.
- `gradient.dfy` (`WeirdGradient`): the pixel value, the whole filled image
  as a sequence, and its period of 256 in each offset.
- `dib_header.dfy` (`DibHeader`): the `BITMAPINFOHEADER` fields the resize
  writes, and how a device-independent bitmap header is read. Each scan line
  takes `biWidth * biBitCount` bits rounded up to 32-bit words. There are
  `|biHeight|` scan lines, and a negative `biHeight` means top-down.
- `offscreen_buffer.dfy` (`Offscreen`): the `OffscreenBuffer` class with the
  two methods.

Modelling choices:

- The pixel memory is an `array?<uint32>` with one element per pixel. It is
  `null` until the first resize. The fill keeps `row` and `pixel` as byte
  offsets, like the C pointers. It stores to word `pixel / 4`, which is what
  the cast from `uint8_t *` to `uint32_t *` does.
- `VirtualAlloc` becomes a fresh array of zeros, since committed pages come
  back zeroed. `VirtualFree` adds the old array to the ghost set `Released`.
  The ghost sequence `Allocations` lists every block ever allocated. The
  object invariant `Valid()` says that every block except the current one has
  been released, so nothing leaks.
- A ghost log `Events` records the allocator calls in order, so the resize
  can state that the old block is freed before the new one is allocated.
- The conversion to `uint8_t` is `v % 256`. Dafny's `%` is Euclidean, so this
  is exactly C's modular conversion to an unsigned type, negative sums
  included.
- `(green << 8) | blue` is written as `green * 256 + blue`. The lemma
  `PackIsShiftOr` shows that the bit-vector expression on 32-bit words has
  the same value.

## Model

| member | source | states |
|---|---|---|
| `WeirdGradient.Truncate8` | src/win32_handmade.cpp:42-43 | the `uint8_t` value of a sum is the unique byte congruent to it modulo 256 |
| `WeirdGradient.Pack` | src/win32_handmade.cpp:44 | the packed pixel has blue in bits 0-7 and green in bits 8-15, and both unpack again; bits 16-31 (red, alpha) are zero |
| `WeirdGradient.PackIsShiftOr` | src/win32_handmade.cpp:44 | the C expression `(green << 8) \| blue` on 32-bit words equals the arithmetic packing and clears bits 16-31 |
| `WeirdGradient.GradientPixel` | src/win32_handmade.cpp:42-44 | the pixel at (x, y) is `((y+greenOffset) mod 256) * 256 + (x+blueOffset) mod 256` with a non-negative mod, and is below 65536 |
| `WeirdGradient.Gradient` | src/win32_handmade.cpp:36-48 | the filled image as width * height words in row-major order (its contents are stated by `GradientAt`) |
| `WeirdGradient.GradientAt` | src/win32_handmade.cpp:37-46 | in the filled image, word y * width + x lies inside the buffer and holds the gradient value of column x, row y |
| `WeirdGradient.PixelPeriod` | src/win32_handmade.cpp:42-43 | adding 256 to either offset leaves a single pixel unchanged |
| `WeirdGradient.BlueOffsetPeriod` | src/win32_handmade.cpp:42 | filling with blueOffset + 256 gives the same image as filling with blueOffset |
| `WeirdGradient.GreenOffsetPeriod` | src/win32_handmade.cpp:43 | filling with greenOffset + 256 gives the same image as filling with greenOffset |
| `WeirdGradient.BlueOffsetMinimalPeriod` | src/win32_handmade.cpp:42 | for a non-empty buffer, a blue shift of 1 to 255 changes the image, so 256 is the least period |
| `WeirdGradient.GreenOffsetMinimalPeriod` | src/win32_handmade.cpp:43 | for a non-empty buffer, a green shift of 1 to 255 changes the image, so 256 is the least period |
| `WeirdGradient.AnimationRepeats` | src/win32_handmade.cpp:166 | with both offsets equal to t (the two counters start at 0 and are incremented together), frame t + 256 equals frame t |
| `Layout.DivModOfRowMajor` | src/win32_handmade.cpp:37-47 | the row-major number y * width + x splits back into row y and column x |
| `Layout.PixelOffsetInBuffer` | src/win32_handmade.cpp:36-47 | the pixel at (x, y), at byte y * pitch + 4x with pitch = width * 4, is 4-byte aligned, lies wholly inside the width * height * 4 bytes, and is word y * width + x |
| `Layout.PixelOffsetInjective` | src/win32_handmade.cpp:36-47 | two different pixels are never written at the same offset (no overlap) |
| `Layout.PixelOffsetCovers` | src/win32_handmade.cpp:36-47 | every aligned offset below width * height * 4 is the offset of some pixel of the buffer (full coverage) |
| `Layout.StoreFollowsPitch` | src/win32_handmade.cpp:36-47 | applied to the store offsets `RenderWeirdGradient` ensures (the k-th at byte 4k), the store for pixel (x, y) lands at its row start y * pitch plus 4x, with pitch = width * 4 |
| `Layout.RowsContiguous` | src/win32_handmade.cpp:47 | with pitch = width * 4, row y + 1 starts right where the last pixel of row y ends |
| `DibHeader.HeaderMatchesLayout` | src/win32_handmade.cpp:62-72 | the header the resize writes has scan line = pitch, height scan lines, 8 * bytesPerPixel bits per pixel and width * height * 4 image bytes; for a non-empty buffer it is top-down, so memory row y is shown as screen row y |
| `Offscreen.OffscreenBuffer.constructor` | src/win32_handmade.cpp:6-15 | the static buffer starts with no memory, zero geometry and an all-zero header |
| `Offscreen.OffscreenBuffer.ResizeDIBSection` | src/win32_handmade.cpp:51-73 | afterwards width = w, height = h, bytesPerPixel = 4, pitch = 4w, and the memory is a fresh zero-filled block of w * h * 4 bytes; the six header fields are set (biWidth = w, biHeight = -h, biPlanes = 1, biBitCount = 32) and the rest of the header is unchanged; the old block is freed before the new one is allocated (a ghost log of allocator calls gains `Free(old)` then `Alloc(new)`) and nothing leaks |
| `Offscreen.OffscreenBuffer.RenderWeirdGradient` | src/win32_handmade.cpp:34-49 | afterwards the memory equals the gradient image for the two offsets; it writes width * height pixels, the i-th at byte 4i, so each pixel exactly once and in order; no field of the buffer (geometry, header, memory pointer) changes |
| `Offscreen.ResizeTwice` | src/win32_handmade.cpp:51-73 | two resizes to the same size give the same geometry both times (width w, height h, 4 bytes per pixel, pitch 4w, w * h * 4 bytes of memory), and the first block is released by the second call |

## Left out

- `WindowProc`, `WinMain`, the message pump and the `running` flag (src/win32_handmade.cpp:5, 87-175): Win32 event plumbing. Only the use of the two equal counters as the offsets is kept, in `AnimationRepeats`.
- `CopyBufferToWindow` / `StretchDIBits` and `GetWindowDimensions` / `GetClientRect`: calls into GDI and the window manager, which are outside this model.
- `VirtualAlloc` failure: the code never checks the pointer it gets back, so the model has no error path. `VirtualAlloc` of zero bytes returns `NULL`. The model allocates an empty array instead; it holds no pixels either.
- Byte-level aliasing of the pixel memory: the memory is modelled as 32-bit words. A store through `uint32_t *` writes one element, and the little-endian byte order of those words is not modelled.
- `bmiColors` and `biSize` computed with `sizeof`: the colour table is never touched, and `biSize` is the constant 40.
- Offscreen.OffscreenBuffer.ResizeDIBSection: the requires excludes negative sizes. It also excludes sizes that overflow `int32_t`: `width` or `height` themselves, the byte count `width * height * 4` (line 69) and `pitch = width * 4` (line 72). The code accepts all of these. A negative size or an overflowing byte count hands `VirtualAlloc` a wrong size, and an overflowing pitch is undefined behaviour.
- Offscreen.OffscreenBuffer.RenderWeirdGradient: the requires excludes offsets for which `x + blueOffset` or `y + greenOffset` overflows `int32_t` (undefined behaviour in C). The same goes for the frame counter's `xOffset++` / `yOffset++` after 2^31 frames.
