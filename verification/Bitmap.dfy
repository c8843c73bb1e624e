/** Screenshots as Windows bitmaps (bitmap.c), proved against an independent
    reader of the format (BITMAPFILEHEADER followed by BITMAPINFOHEADER). */
module Bitmap {
  import opened WlList

  type byte = b: int | 0 <= b < 256
  type uint32 = n: int | 0 <= n < 0x1_0000_0000

  /** wl_shm pixel formats. */
  const ARGB8888: uint32 := 0
  const XRGB8888: uint32 := 1
  const ABGR8888: uint32 := 0x34324241
  const XBGR8888: uint32 := 0x34324258

  predicate Supported(format: uint32) {
    format == ARGB8888 || format == XRGB8888 || format == ABGR8888 || format == XBGR8888
  }

  function FourCc(a: char, b: char, c: char, d: char): nat {
    a as nat + 0x100 * b as nat + 0x1_0000 * c as nat + 0x100_0000 * d as nat
  }

  /** The two formats that wl_shm numbers itself, and two by their DRM code; those
      with an A have a fourth byte. */
  lemma FormatsSpec(format: uint32)
    ensures Supported(format) <==>
              format == 0 || format == 1 || format == FourCc('A', 'B', '2', '4') || format == FourCc('X', 'B', '2', '4')
    ensures BytesPerPixel(format) == if format == 0 || format == FourCc('A', 'B', '2', '4') then 4 else 3
  {
  }

  predicate HasAlpha(format: uint32) {
    format == ARGB8888 || format == ABGR8888
  }

  function BytesPerPixel(format: uint32): nat {
    if HasAlpha(format) then 4 else 3
  }

  /** Byte `k` of the pixel value, least significant first. */
  function ByteOf(pixel: uint32, k: nat): byte
    requires k < 4
  {
    (if k == 0 then pixel else if k == 1 then pixel / 0x100 else if k == 2 then pixel / 0x1_0000 else pixel / 0x100_0000) % 256
  }

  /** What the wl_shm formats mean: the letters of a name from the most to the
      least significant byte. */
  function Red(format: uint32, pixel: uint32): byte {
    if format == ARGB8888 || format == XRGB8888 then ByteOf(pixel, 2) else ByteOf(pixel, 0)
  }

  function Green(pixel: uint32): byte {
    ByteOf(pixel, 1)
  }

  function Blue(format: uint32, pixel: uint32): byte {
    if format == ARGB8888 || format == XRGB8888 then ByteOf(pixel, 0) else ByteOf(pixel, 2)
  }

  function Alpha(pixel: uint32): byte {
    ByteOf(pixel, 3)
  }

  /** Byte `i` of a pixel in the image. */
  function Channel(format: uint32, pixel: uint32, i: nat): byte
    requires i < BytesPerPixel(format)
  {
    if i == 0 then Blue(format, pixel) else if i == 1 then Green(pixel) else if i == 2 then Red(format, pixel)
    else Alpha(pixel)
  }

  /** The channels make up the pixel, as the name of its format says. */
  lemma ChannelsAre(format: uint32, pixel: uint32)
    ensures format == ARGB8888 || format == XRGB8888 ==>
              pixel == Blue(format, pixel) + 0x100 * Green(pixel) + 0x1_0000 * Red(format, pixel) + 0x100_0000 * Alpha(pixel)
    ensures format == ABGR8888 || format == XBGR8888 ==>
              pixel == Red(format, pixel) + 0x100 * Green(pixel) + 0x1_0000 * Blue(format, pixel) + 0x100_0000 * Alpha(pixel)
  {
    assert pixel / 0x100 / 0x100 == pixel / 0x1_0000 && pixel / 0x1_0000 / 0x100 == pixel / 0x100_0000;
    assert pixel / 0x100_0000 < 0x100;
  }

  // ---------- layout of the image ----------

  /** `(width * bytes_per_pixel + 3) & ~3`. */
  function Stride(width: nat, bpp: nat): nat {
    var n := width * bpp + 3;
    n - n % 4
  }

  lemma RoundUp(row: nat, m: nat)
    ensures var r := row + 3 - (row + 3) % 4;
            r % 4 == 0 && row <= r && (m % 4 == 0 && row <= m ==> r <= m) && r == (8 * row + 31) / 32 * 4
  {
    var q := (row + 3) / 4;
    assert row + 3 == 4 * q + (row + 3) % 4;
    assert 8 * row + 31 == 32 * q + (8 * ((row + 3) % 4) + 7);
    if m % 4 == 0 && row <= m {
      assert m == 4 * (m / 4);
    }
  }

  /** The stride is the least multiple of four that holds a row, as the format
      prescribes. */
  lemma StrideLeast(width: nat, bpp: nat, m: nat)
    ensures Stride(width, bpp) % 4 == 0 && width * bpp <= Stride(width, bpp)
    ensures m % 4 == 0 && width * bpp <= m ==> Stride(width, bpp) <= m
    ensures Stride(width, bpp) == (width * (8 * bpp) + 31) / 32 * 4
  {
    RoundUp(width * bpp, m);
    assert width * (8 * bpp) == 8 * (width * bpp);
  }

  function Position(stride: nat, bpp: nat, row: nat, col: nat, i: nat): nat {
    row * stride + col * bpp + i
  }

  lemma DivModUnique(q: nat, d: nat, r: nat)
    requires r < d
    ensures (q * d + r) / d == q && (q * d + r) % d == r
  {
    var a := q * d + r;
    assert a == (a / d) * d + a % d;
    if a / d < q {
      MulMono(a / d + 1, q, d);
    } else if a / d > q {
      MulMono(q + 1, a / d, d);
    }
  }

  lemma MulMono(a: nat, b: nat, d: nat)
    requires a <= b
    ensures a * d <= b * d
  {
    assert b * d == a * d + (b - a) * d;
  }

  lemma ColumnInRow(width: nat, bpp: nat, col: nat, i: nat)
    requires col < width && i < bpp
    ensures col * bpp + i < width * bpp <= Stride(width, bpp)
  {
    MulMono(col + 1, width, bpp);
    StrideLeast(width, bpp, 0);
  }

  /** Every write lands inside the image, and row, column and channel can be
      read off the position: distinct writes hit distinct bytes. */
  lemma PositionUnique(width: nat, height: nat, bpp: nat, row: nat, col: nat, i: nat)
    requires row < height && col < width && i < bpp
    ensures var stride := Stride(width, bpp);
            var k := Position(stride, bpp, row, col, i);
            k < stride * height && k / stride == row && k % stride / bpp == col && k % stride % bpp == i
            && k % stride < width * bpp
  {
    var stride := Stride(width, bpp);
    ColumnInRow(width, bpp, col, i);
    DivModUnique(row, stride, col * bpp + i);
    DivModUnique(col, bpp, i);
    MulMono(row + 1, height, stride);
  }

  lemma SourceInBuffer(width: nat, height: nat, row: nat, col: nat)
    requires row < height && col < width
    ensures 0 <= (height - row - 1) * width + col < width * height
  {
    MulMono(height - row, height, width);
  }

  /** The source pixel of a cell of the image, which is stored bottom-up. */
  function Source(pixels: seq<uint32>, width: nat, height: nat, row: nat, col: nat): uint32
    requires |pixels| == width * height && row < height && col < width
  {
    SourceInBuffer(width, height, row, col);
    pixels[(height - row - 1) * width + col]
  }

  lemma InRow(width: nat, bpp: nat, p: nat)
    requires 0 < bpp && p < width * bpp
    ensures p / bpp < width
  {
    if p / bpp >= width {
      MulMono(width, p / bpp, bpp);
    }
  }

  /** Byte `p` of an image row; padding keeps what was there. */
  function RowByte(pixels: seq<uint32>, width: nat, height: nat, format: uint32, row: nat, was: byte, p: nat): byte
    requires |pixels| == width * height && row < height
  {
    var bpp := BytesPerPixel(format);
    if p >= width * bpp then was
    else
      InRow(width, bpp, p);
      Channel(format, Source(pixels, width, height, row, p / bpp), p % bpp)
  }

  function Quotient(k: nat, d: nat): nat
    requires d > 0
  {
    k / d
  }

  function Remainder(k: nat, d: nat): nat
    requires d > 0
  {
    k % d
  }

  /** The byte the loops leave at position `k`. */
  function Written(pixels: seq<uint32>, width: nat, height: nat, format: uint32, stride: nat, was: byte, k: nat): byte
    requires |pixels| == width * height
  {
    if stride == 0 || Quotient(k, stride) >= height then was
    else RowByte(pixels, width, height, format, Quotient(k, stride), was, Remainder(k, stride))
  }

  lemma WrittenAt(pixels: seq<uint32>, width: nat, height: nat, format: uint32, row: nat, col: nat, i: nat, was: byte)
    requires |pixels| == width * height && row < height && col < width && i < BytesPerPixel(format)
    ensures var stride := Stride(width, BytesPerPixel(format));
            Written(pixels, width, height, format, stride, was, Position(stride, BytesPerPixel(format), row, col, i))
            == Channel(format, Source(pixels, width, height, row, col), i)
  {
    PositionUnique(width, height, BytesPerPixel(format), row, col, i);
  }

  lemma PaddingKept(pixels: seq<uint32>, width: nat, height: nat, format: uint32, row: nat, p: nat, was: byte)
    requires |pixels| == width * height && row < height
    requires width * BytesPerPixel(format) <= p < Stride(width, BytesPerPixel(format))
    ensures var stride := Stride(width, BytesPerPixel(format));
            Written(pixels, width, height, format, stride, was, row * stride + p) == was
  {
    DivModUnique(row, Stride(width, BytesPerPixel(format)), p);
  }

  // ---------- the loops ----------

  /** The bytes of `htonl(pixel)` in memory. */
  function NetworkBytes(pixel: uint32): seq<byte> {
    [ByteOf(pixel, 3), ByteOf(pixel, 2), ByteOf(pixel, 1), ByteOf(pixel, 0)]
  }

  /** The body of the column loop. */
  method WritePixel(image: array<byte>, at: nat, pixel: uint32, format: uint32)
    requires Supported(format) && at + BytesPerPixel(format) <= image.Length
    modifies image
    ensures forall i :: 0 <= i < BytesPerPixel(format) ==> image[at + i] == Channel(format, pixel, i)
    ensures forall k :: 0 <= k < at || at + BytesPerPixel(format) <= k < image.Length ==> image[k] == old(image[k])
  {
    var flipOrder := format == ARGB8888 || format == XRGB8888;
    var hasAlpha := HasAlpha(format);
    var pixelP := NetworkBytes(pixel);
    var i := 0;
    while i < 3
      invariant i <= 3
      invariant forall c :: 0 <= c < i ==> image[at + c] == Channel(format, pixel, c)
      invariant forall k :: 0 <= k < at || at + BytesPerPixel(format) <= k < image.Length ==> image[k] == old(image[k])
    {
      var j := if flipOrder then 2 - i else i;
      image[at + i] := pixelP[1 + j];
      i := i + 1;
    }
    if hasAlpha {
      image[at + 3] := pixelP[0];
    }
  }

  /** What is done when everything before `cursor` is. */
  ghost predicate Done(image: seq<byte>, was: seq<byte>, pixels: seq<uint32>, width: nat, height: nat, format: uint32, cursor: int)
    requires |pixels| == width * height
  {
    |image| == |was| && forall k :: 0 <= k < |image| ==>
      image[k] == if k < cursor
                  then Written(pixels, width, height, format, Stride(width, BytesPerPixel(format)), was[k], k)
                  else was[k]
  }

  /** Where the pixel of one cell comes from and goes to. */
  lemma CellBounds(width: nat, height: nat, bpp: nat, row: nat, col: nat)
    requires row < height && col < width && 0 < bpp
    ensures 0 <= (height - row - 1) * width + col < width * height
    ensures row * Stride(width, bpp) + col * bpp + bpp <= Stride(width, bpp) * height
    ensures row * Stride(width, bpp) + (col + 1) * bpp == row * Stride(width, bpp) + col * bpp + bpp
  {
    SourceInBuffer(width, height, row, col);
    PositionUnique(width, height, bpp, row, col, bpp - 1);
  }

  /** The column loop of save_as_bitmap. */
  method FillRow(image: array<byte>, ghost was: seq<byte>, pixels: seq<uint32>, width: nat, height: nat, format: uint32, row: nat)
    requires Supported(format) && |pixels| == width * height && row < height
    requires image.Length == Stride(width, BytesPerPixel(format)) * height
    requires Done(image[..], was, pixels, width, height, format, row * Stride(width, BytesPerPixel(format)))
    modifies image
    ensures Done(image[..], was, pixels, width, height, format, (row + 1) * Stride(width, BytesPerPixel(format)))
  {
    var bytesPerPixel := BytesPerPixel(format);
    var start := row * Stride(width, bytesPerPixel);
    var col := 0;
    while col < width
      invariant col <= width
      invariant Done(image[..], was, pixels, width, height, format, start + col * bytesPerPixel)
    {
      CellBounds(width, height, bytesPerPixel, row, col);
      var offset := (height - row - 1) * width + col;
      ghost var before := image[..];
      WritePixel(image, start + col * bytesPerPixel, pixels[offset], format);
      PixelDone(before, image[..], was, pixels, width, height, format, row, col);
      col := col + 1;
    }
    RowDone(image[..], was, pixels, width, height, format, row);
  }

  /** The row loop of save_as_bitmap. */
  method FillImage(image: array<byte>, pixels: seq<uint32>, width: nat, height: nat, format: uint32)
    requires Supported(format) && |pixels| == width * height
    requires image.Length == Stride(width, BytesPerPixel(format)) * height
    modifies image
    ensures Done(image[..], old(image[..]), pixels, width, height, format, image.Length)
  {
    ghost var was := image[..];
    NothingDone(was, pixels, width, height, format);
    var row := 0;
    while row < height
      invariant row <= height
      invariant Done(image[..], was, pixels, width, height, format, row * Stride(width, BytesPerPixel(format)))
    {
      FillRow(image, was, pixels, width, height, format, row);
      row := row + 1;
    }
    Commute(height, Stride(width, BytesPerPixel(format)));
  }

  lemma Commute(a: nat, b: nat)
    ensures a * b == b * a
  {
  }

  lemma NothingDone(was: seq<byte>, pixels: seq<uint32>, width: nat, height: nat, format: uint32)
    requires |pixels| == width * height
    ensures Done(was, was, pixels, width, height, format, 0 * Stride(width, BytesPerPixel(format)))
  {
    assert 0 * Stride(width, BytesPerPixel(format)) == 0;
  }

  lemma PixelDone(before: seq<byte>, after: seq<byte>, was: seq<byte>, pixels: seq<uint32>, width: nat, height: nat,
                  format: uint32, row: nat, col: nat)
    requires |pixels| == width * height && row < height && col < width && |before| == |after|
    requires var bpp := BytesPerPixel(format);
             var cursor := row * Stride(width, bpp) + col * bpp;
             && Done(before, was, pixels, width, height, format, cursor)
             && cursor + bpp <= |after|
             && (forall i :: 0 <= i < bpp ==> after[cursor + i] == Channel(format, Source(pixels, width, height, row, col), i))
             && (forall k :: 0 <= k < cursor || cursor + bpp <= k < |after| ==> after[k] == before[k])
    ensures var bpp := BytesPerPixel(format);
            Done(after, was, pixels, width, height, format, row * Stride(width, bpp) + (col + 1) * bpp)
  {
    var bpp := BytesPerPixel(format);
    var stride := Stride(width, bpp);
    var cursor := row * stride + col * bpp;
    assert (col + 1) * bpp == col * bpp + bpp;
    forall k | 0 <= k < |after|
      ensures after[k] == if k < cursor + bpp then Written(pixels, width, height, format, stride, was[k], k) else was[k] {
      if cursor <= k < cursor + bpp {
        WrittenAt(pixels, width, height, format, row, col, k - cursor, was[k]);
        assert after[cursor + (k - cursor)] == after[k];
      }
    }
  }

  lemma RowDone(image: seq<byte>, was: seq<byte>, pixels: seq<uint32>, width: nat, height: nat, format: uint32, row: nat)
    requires |pixels| == width * height && row < height
    requires Done(image, was, pixels, width, height, format,
                  row * Stride(width, BytesPerPixel(format)) + width * BytesPerPixel(format))
    ensures Done(image, was, pixels, width, height, format, (row + 1) * Stride(width, BytesPerPixel(format)))
  {
    var stride := Stride(width, BytesPerPixel(format));
    var start := row * stride;
    assert (row + 1) * stride == start + stride;
    StrideLeast(width, BytesPerPixel(format), 0);
    forall k | 0 <= k < |image|
      ensures image[k] == if k < start + stride then Written(pixels, width, height, format, stride, was[k], k) else was[k] {
      if start + width * BytesPerPixel(format) <= k < start + stride {
        PaddingKept(pixels, width, height, format, row, k - start, was[k]);
      }
    }
  }

  // ---------- headers ----------

  function Le16(n: nat): (r: seq<byte>)
    requires n < 0x1_0000
    ensures |r| == 2
  {
    [n % 256, n / 256]
  }

  function Le32(n: uint32): (r: seq<byte>)
    ensures |r| == 4
  {
    [ByteOf(n, 0), ByteOf(n, 1), ByteOf(n, 2), ByteOf(n, 3)]
  }

  const HEADERS := 14 + 40

  /** create_file_header: BITMAPFILEHEADER, packed. */
  function FileHeader(imageSize: nat): (r: seq<byte>)
    requires imageSize < 0x8000_0000
    ensures |r| == 14
  {
    [0x42, 0x4D] + Le32(HEADERS + imageSize) + Le16(0) + Le16(0) + Le32(HEADERS)
  }

  /** create_info_header: BITMAPINFOHEADER, packed. */
  function InfoHeader(imageSize: nat, width: nat, height: nat, bitsPerPixel: nat): (r: seq<byte>)
    requires imageSize < 0x8000_0000 && width < 0x8000_0000 && height < 0x8000_0000 && bitsPerPixel < 0x8000
    ensures |r| == 40
  {
    Le32(40) + Le32(width) + Le32(height) + Le16(1) + Le16(bitsPerPixel) + Le32(0) + Le32(imageSize)
    + Le32(0) + Le32(0) + Le32(0) + Le32(0)
  }

  // ---------- a reader of the format ----------

  function Read16(s: seq<byte>, at: nat): nat
    requires at + 2 <= |s|
  {
    s[at] as int + 256 * s[at + 1] as int
  }

  function Read32(s: seq<byte>, at: nat): nat
    requires at + 4 <= |s|
  {
    s[at] as int + 0x100 * s[at + 1] as int + 0x1_0000 * s[at + 2] as int + 0x100_0000 * s[at + 3] as int
  }

  lemma RowInside(height: nat, stride: nat, y: nat)
    requires y < height
    ensures 0 <= (height - 1 - y) * stride <= height * stride - stride
  {
    var rows := height - 1 - y;
    MulMono(rows + 1, height, stride);
    assert (rows + 1) * stride == rows * stride + stride;
  }

  lemma ColumnInside(width: nat, bpp: nat, x: nat, channel: nat)
    requires x < width && channel < bpp
    ensures 0 <= x * bpp + channel < width * bpp
  {
    MulMono(x + 1, width, bpp);
    assert (x + 1) * bpp == x * bpp + bpp;
  }

  lemma SampleInside(width: nat, height: nat, bpp: nat, stride: nat, x: nat, y: nat, channel: nat)
    requires width * bpp <= stride && x < width && y < height && channel < bpp
    ensures 0 <= (height - 1 - y) * stride + x * bpp + channel < stride * height
  {
    RowInside(height, stride, y);
    ColumnInside(width, bpp, x, channel);
  }

  datatype Picture = Picture(width: nat, height: nat, bytesPerPixel: nat, stride: nat, start: nat, file: seq<byte>)
  {
    ghost predicate Valid() {
      && start + stride * height <= |file|
      && (bytesPerPixel == 3 || bytesPerPixel == 4)
      && width * bytesPerPixel <= stride
    }

    /** One byte of the pixel at column `x` of line `y`, counted from the top. */
    function Sample(x: nat, y: nat, channel: nat): byte
      requires Valid() && x < width && y < height && channel < bytesPerPixel
    {
      SampleInside(width, height, bytesPerPixel, stride, x, y, channel);
      file[start + ((height - 1 - y) * stride + x * bytesPerPixel + channel)]
    }
  }

  /** Reads an uncompressed bottom-up bitmap of 24 or 32 bits per pixel; rows are
      padded to 32 bits. */
  function ReadBmp(file: seq<byte>): (r: Option<Picture>)
  {
    if |file| < 54 || Read16(file, 0) != 0x4D42 || Read32(file, 2) != |file| || Read32(file, 14) != 40
       || Read16(file, 26) != 1 || Read32(file, 30) != 0 || Read16(file, 28) !in {24, 32} then None
    else
      var width, height, bits := Read32(file, 18), Read32(file, 22), Read16(file, 28);
      var stride := (width * bits + 31) / 32 * 4;
      if Read32(file, 10) + stride * height > |file| || Read32(file, 34) != stride * height then None
      else Some(Picture(width, height, bits / 8, stride, Read32(file, 10), file))
  }

  lemma Digits(n: nat)
    ensures n == n % 0x100 + 0x100 * (n / 0x100)
  {
  }

  lemma Read32Le32(n: uint32, s: seq<byte>, at: nat)
    requires at + 4 <= |s| && s[at] == Le32(n)[0] && s[at + 1] == Le32(n)[1] && s[at + 2] == Le32(n)[2] && s[at + 3] == Le32(n)[3]
    ensures Read32(s, at) == n
  {
    assert n / 0x100 / 0x100 == n / 0x1_0000 && n / 0x1_0000 / 0x100 == n / 0x100_0000;
    Digits(n);
    Digits(n / 0x100);
    Digits(n / 0x1_0000);
    assert n / 0x100_0000 < 0x100;
  }

  /** The file as write_bitmap writes it. */
  function FileOf(image: seq<byte>, width: nat, height: nat, bitsPerPixel: nat): (r: seq<byte>)
    requires |image| < 0x8000_0000 && width < 0x8000_0000 && height < 0x8000_0000 && bitsPerPixel < 0x8000
    ensures |r| == HEADERS + |image|
  {
    FileHeader(|image|) + InfoHeader(|image|, width, height, bitsPerPixel) + image
  }

  lemma ReadFront(a: seq<byte>, b: seq<byte>, at: nat)
    ensures at + 2 <= |a| ==> Read16(a + b, at) == Read16(a, at)
    ensures at + 4 <= |a| ==> Read32(a + b, at) == Read32(a, at)
  {
  }

  lemma ReadBehind(a: seq<byte>, b: seq<byte>, at: nat)
    requires |a| <= at
    ensures at + 2 <= |a| + |b| ==> Read16(a + b, at) == Read16(b, at - |a|)
    ensures at + 4 <= |a| + |b| ==> Read32(a + b, at) == Read32(b, at - |a|)
  {
  }

  lemma FileHeaderFields(imageSize: nat)
    requires imageSize < 0x8000_0000
    ensures var h := FileHeader(imageSize);
            Read16(h, 0) == 0x4D42 && Read32(h, 2) == HEADERS + imageSize && Read32(h, 10) == HEADERS
  {
    var h := FileHeader(imageSize);
    Read32Le32(HEADERS + imageSize, h, 2);
    Read32Le32(HEADERS, h, 10);
  }

  lemma InfoHeaderSizes(imageSize: nat, width: nat, height: nat, bitsPerPixel: nat)
    requires imageSize < 0x8000_0000 && width < 0x8000_0000 && height < 0x8000_0000 && bitsPerPixel < 0x8000
    ensures var h := InfoHeader(imageSize, width, height, bitsPerPixel);
            Read32(h, 0) == 40 && Read32(h, 4) == width && Read32(h, 8) == height && Read16(h, 12) == 1
  {
    var h := InfoHeader(imageSize, width, height, bitsPerPixel);
    Read32Le32(40, h, 0);
    Read32Le32(width, h, 4);
    Read32Le32(height, h, 8);
  }

  lemma InfoHeaderRest(imageSize: nat, width: nat, height: nat, bitsPerPixel: nat)
    requires imageSize < 0x8000_0000 && width < 0x8000_0000 && height < 0x8000_0000 && bitsPerPixel < 0x8000
    ensures var h := InfoHeader(imageSize, width, height, bitsPerPixel);
            Read16(h, 14) == bitsPerPixel && Read32(h, 16) == 0 && Read32(h, 20) == imageSize
  {
    var h := InfoHeader(imageSize, width, height, bitsPerPixel);
    Read32Le32(0, h, 16);
    Read32Le32(imageSize, h, 20);
  }

  lemma HeaderFields(image: seq<byte>, width: nat, height: nat, bitsPerPixel: nat)
    requires |image| < 0x8000_0000 && width < 0x8000_0000 && height < 0x8000_0000 && bitsPerPixel < 0x8000
    ensures var f := FileOf(image, width, height, bitsPerPixel);
            && Read16(f, 0) == 0x4D42 && Read32(f, 2) == |f| && Read32(f, 10) == HEADERS
            && Read32(f, 14) == 40 && Read32(f, 18) == width && Read32(f, 22) == height
            && Read16(f, 26) == 1 && Read16(f, 28) == bitsPerPixel && Read32(f, 30) == 0 && Read32(f, 34) == |image|
            && f[HEADERS..] == image
  {
    var f := FileOf(image, width, height, bitsPerPixel);
    var a, b := FileHeader(|image|), InfoHeader(|image|, width, height, bitsPerPixel);
    FileHeaderFields(|image|);
    InfoHeaderSizes(|image|, width, height, bitsPerPixel);
    InfoHeaderRest(|image|, width, height, bitsPerPixel);
    forall at: nat | at <= 34
      ensures at + 4 <= 14 ==> Read16(f, at) == Read16(a, at) && Read32(f, at) == Read32(a, at)
      ensures at >= 14 ==> Read16(f, at) == Read16(b, at - 14) && Read32(f, at) == Read32(b, at - 14) {
      ReadFront(a + b, image, at);
      if at + 4 <= 14 {
        ReadFront(a, b, at);
      } else if at >= 14 {
        ReadBehind(a, b, at);
      }
    }
  }

  /** The image fits 32-bit arithmetic. */
  predicate Fits(width: nat, height: nat, format: uint32) {
    width < 0x8000_0000 && height < 0x8000_0000
    && width * BytesPerPixel(format) + 3 < 0x8000_0000
    && Stride(width, BytesPerPixel(format)) * height < 0x8000_0000
  }

  /** The picture shows the pixels, top line first. */
  ghost predicate Shows(pic: Picture, pixels: seq<uint32>, width: nat, height: nat, format: uint32)
    requires |pixels| == width * height
  {
    && pic.Valid() && pic.width == width && pic.height == height
    && pic.bytesPerPixel == BytesPerPixel(format)
    && forall x: nat, y: nat :: x < width && y < height ==> PixelShown(pic, pixels, width, height, format, x, y)
  }

  ghost predicate PixelShown(pic: Picture, pixels: seq<uint32>, width: nat, height: nat, format: uint32, x: nat, y: nat)
    requires |pixels| == width * height && x < width && y < height
    requires pic.Valid() && pic.width == width && pic.height == height && pic.bytesPerPixel == BytesPerPixel(format)
  {
    SourceInBuffer(width, height, height - 1 - y, x);
    var pixel := pixels[y * width + x];
    && pic.Sample(x, y, 0) == Blue(format, pixel)
    && pic.Sample(x, y, 1) == Green(pixel)
    && pic.Sample(x, y, 2) == Red(format, pixel)
    && (HasAlpha(format) ==> pic.Sample(x, y, 3) == Alpha(pixel))
  }

  lemma ReadsFields(f: seq<byte>, width: nat, height: nat, bits: nat, stride: nat)
    requires |f| >= 54 && Read16(f, 0) == 0x4D42 && Read32(f, 2) == |f| && Read32(f, 14) == 40
    requires Read16(f, 26) == 1 && Read32(f, 30) == 0 && Read16(f, 28) == bits && bits in {24, 32}
    requires Read32(f, 18) == width && Read32(f, 22) == height && stride == (width * bits + 31) / 32 * 4
    requires Read32(f, 34) == stride * height && Read32(f, 10) + stride * height <= |f|
    ensures ReadBmp(f) == Some(Picture(width, height, bits / 8, stride, Read32(f, 10), f))
  {
  }

  lemma ReadsHeader(image: seq<byte>, width: nat, height: nat, format: uint32)
    requires Supported(format) && Fits(width, height, format)
    requires |image| == Stride(width, BytesPerPixel(format)) * height
    ensures var bpp := BytesPerPixel(format);
            ReadBmp(FileOf(image, width, height, bpp * 8))
            == Some(Picture(width, height, bpp, Stride(width, bpp), HEADERS, FileOf(image, width, height, bpp * 8)))
  {
    var bpp, f := BytesPerPixel(format), FileOf(image, width, height, BytesPerPixel(format) * 8);
    HeaderFields(image, width, height, bpp * 8);
    StrideLeast(width, bpp, 0);
    assert |f| == HEADERS + |image|;
    ReadsFields(f, width, height, bpp * 8, Stride(width, bpp));
  }

  /** Reading back what was written yields every pixel. */
  lemma ReadsBack(image: seq<byte>, was: seq<byte>, pixels: seq<uint32>, width: nat, height: nat, format: uint32)
    requires Supported(format) && Fits(width, height, format) && |pixels| == width * height
    requires |image| == Stride(width, BytesPerPixel(format)) * height
    requires Done(image, was, pixels, width, height, format, |image|)
    ensures var r := ReadBmp(FileOf(image, width, height, BytesPerPixel(format) * 8));
            r.Some? && Shows(r.value, pixels, width, height, format)
  {
    var bpp := BytesPerPixel(format);
    var f := FileOf(image, width, height, bpp * 8);
    HeaderFields(image, width, height, bpp * 8);
    ReadsHeader(image, width, height, format);
    StrideLeast(width, bpp, 0);
    var pic := ReadBmp(f).value;
    forall x: nat, y: nat | x < width && y < height ensures PixelShown(pic, pixels, width, height, format, x, y) {
      PixelReadsBack(pic, image, was, pixels, width, height, format, x, y);
    }
  }

  lemma PixelReadsBack(pic: Picture, image: seq<byte>, was: seq<byte>, pixels: seq<uint32>, width: nat, height: nat,
                       format: uint32, x: nat, y: nat)
    requires Supported(format) && |pixels| == width * height && x < width && y < height
    requires pic.Valid() && pic.width == width && pic.height == height && pic.bytesPerPixel == BytesPerPixel(format)
    requires pic.stride == Stride(width, BytesPerPixel(format)) && pic.start == HEADERS && pic.file[HEADERS..] == image
    requires |image| == pic.stride * height && Done(image, was, pixels, width, height, format, |image|)
    ensures PixelShown(pic, pixels, width, height, format, x, y)
  {
    var bpp, row := BytesPerPixel(format), height - 1 - y;
    SourceInBuffer(width, height, row, x);
    assert Source(pixels, width, height, row, x) == pixels[y * width + x];
    forall i: nat | i < bpp ensures pic.Sample(x, y, i) == Channel(format, pixels[y * width + x], i) {
      var k := Position(pic.stride, bpp, row, x, i);
      PositionUnique(width, height, bpp, row, x, i);
      assert pic.file[HEADERS + k] == image[k];
      WrittenAt(pixels, width, height, format, row, x, i, was[k]);
    }
  }

  /** save_as_bitmap: the bytes of the file, or nothing for another format or
      when the file cannot be opened. */
  method SaveAsBitmap(pixels: seq<uint32>, width: nat, height: nat, format: uint32, writable: bool)
    returns (file: Option<seq<byte>>)
    requires |pixels| == width * height && (Supported(format) ==> Fits(width, height, format))
    ensures file.Some? <==> Supported(format) && writable
    ensures file.Some? ==> |file.value| == HEADERS + Stride(width, BytesPerPixel(format)) * height
    ensures file.Some? ==> ReadBmp(file.value).Some? && Shows(ReadBmp(file.value).value, pixels, width, height, format)
  {
    if !Supported(format) {
      return None;
    }
    var bytesPerPixel := BytesPerPixel(format);
    var imageSize := Stride(width, bytesPerPixel) * height;
    var image := new byte[imageSize];
    ghost var was := image[..];
    FillImage(image, pixels, width, height, format);
    ReadsBack(image[..], was, pixels, width, height, format);
    if !writable {
      return None;
    }
    file := Some(FileOf(image[..], width, height, bytesPerPixel * 8));
  }
}
