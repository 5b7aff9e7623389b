/**
  Writing an image to a BMP file and reading it back.
 */
module BmpCodec {
  import opened Bytes
  import opened Images
  import opened BmpHeader

  /** OutOfBounds is no status of the program: it stands for a run that goes on to read or
      write outside its buffer. */
  datatype ReadStatus = ReadOk | InvalidSignature | InvalidBits | InvalidHeader | OutOfBounds
  datatype WriteStatus = WriteOk | WriteError | WriteOutOfBounds

  function U32(x: nat): nat { x % 0x1_0000_0000 }

  /** The bytes that fill up a row: four of them, not none, when it is aligned already. */
  function Padding(width: nat): nat {
    4 - (width * 3) % 4
  }

  function RowBytes(width: nat): nat {
    width * 3 + Padding(width)
  }

  /** Rows are aligned, and padded as the format says unless they need no padding. */
  lemma PaddingAligns(width: nat)
    ensures RowBytes(width) % 4 == 0 && 1 <= Padding(width) <= 4
    ensures Padding(width) == (4 - (width * 3) % 4) % 4 <==> (width * 3) % 4 != 0
  {
    var n, q := width * 3, width * 3 / 4;
    assert n == 4 * q + n % 4;
    assert RowBytes(width) == 4 * (q + 1);
  }

  function HeaderFor(width: nat, height: nat): Header {
    var size := U32(Start(U32(RowBytes(width)), height));
    Header(19778, U32(size + 54), 0, 54, 40, U32(width), U32(height), 1, 24, 0, size, 0, 0, 0, 0)
  }

  /** What read_header accepts. */
  predicate Accepted(h: Header) {
    !(h.bfType != 19778 || h.bfReserved != 0 || h.bfOffBits != 54 || h.biPlanes != 1 || h.biSize != 40
      || h.biWidth < 1 || h.biHeight < 1 || h.biBitCount != 24 || h.biCompression != 0)
  }

  /** The pixel data of the image fits the size field of the header. */
  predicate Encodable(width: nat, height: nat) {
    Start(RowBytes(width), height) < 0x1_0000_0000
  }

  lemma HeaderInRange(width: nat, height: nat)
    ensures InRange(WIDTHS, Fields(HeaderFor(width, height)))
  {
    var h := HeaderFor(width, height);
    assert Range(2) == 65536 && Range(4) == 0x1_0000_0000 by {
      assert Range(1) == 256 && Range(2) == 256 * Range(1) && Range(3) == 256 * Range(2);
    }
    forall i | 0 <= i < 15 ensures Fields(h)[i] < Range(WIDTHS[i]) {
      assert WIDTHS[i] == 2 || WIDTHS[i] == 4;
    }
  }

  lemma RowsWithin(rb: nat, height: nat)
    requires height > 0
    ensures rb <= Start(rb, height) && (rb > 0 ==> height <= Start(rb, height))
  {
    RowsFit(rb, 0, height);
    if rb > 0 { RowsFit(height, 0, rb); }
  }

  /** The header of an image with both sides at least 1 gives its sides and the size of its
      data, and is accepted. */
  lemma HeaderDescribes(width: nat, height: nat)
    requires width >= 1 && height >= 1 && Encodable(width, height)
    ensures var h := HeaderFor(width, height);
            Accepted(h) && h.biWidth == width && h.biHeight == height && h.biSizeImage == Start(RowBytes(width), height)
    ensures DecodeHeader(EncodeHeader(HeaderFor(width, height))) == HeaderFor(width, height)
  {
    HeaderInRange(width, height);
    HeaderRoundTrip(HeaderFor(width, height));
    hide EncodeHeader, DecodeHeader, InRange, RowBytes, U32, Start;
    RowsWithin(RowBytes(width), height);
    WidthsWithin(width);
    U32Same(RowBytes(width));
    U32Same(Start(RowBytes(width), height));
    U32Same(width);
    U32Same(height);
  }

  lemma U32Same(x: nat)
    requires x < 0x1_0000_0000
    ensures U32(x) == x
  {
  }

  lemma WidthsWithin(width: nat)
    ensures 0 < RowBytes(width) && width <= RowBytes(width)
  {
  }

  /** The first bytes of a file for an image with these sides, field by field: the size of
      its data and of the whole file modulo 2^32. */
  predicate Labelled(b: seq<byte>, width: nat, height: nat)
    requires |b| >= HEADER_BYTES
  {
    var size := Start(RowBytes(width), height);
    && b[..2] == [0x42, 0x4D] && WordAt(b, 2) == U32(HEADER_BYTES + size) && WordAt(b, 6) == 0
    && WordAt(b, 10) == HEADER_BYTES && WordAt(b, 14) == 40 && WordAt(b, 18) == U32(width)
    && WordAt(b, 22) == U32(height) && HalfAt(b, 26) == 1 && HalfAt(b, 28) == 24 && WordAt(b, 30) == 0
    && WordAt(b, 34) == U32(size)
    && WordAt(b, 38) == WordAt(b, 42) == WordAt(b, 46) == WordAt(b, 50) == 0
  }

  /** The header of any image is labelled so. */
  lemma HeaderLabels(width: nat, height: nat)
    ensures Labelled(EncodeHeader(HeaderFor(width, height)), width, height)
  {
    hide EncodeHeader, InRange, RowBytes, Start, WordAt, U32;
    HeaderInRange(width, height);
    var h := HeaderFor(width, height);
    var b := EncodeHeader(h);
    WrittenLaidOut(h);
    SizeWraps(RowBytes(width), height);
    Signature(b);
  }

  lemma Signature(b: seq<byte>)
    requires |b| >= 2
    ensures HalfAt(b, 0) == 19778 <==> b[..2] == [0x42, 0x4D]
  {
    assert b[0] as nat + 0x100 * b[1] as nat == 19778 <==> b[0] == 0x42 && b[1] == 0x4D;
  }

  lemma SizeWraps(rb: nat, height: nat)
    ensures U32(Start(U32(rb), height)) == U32(Start(rb, height))
    ensures U32(U32(Start(U32(rb), height)) + 54) == U32(HEADER_BYTES + Start(rb, height))
  {
    hide U32;
    var k := (rb / 0x1_0000_0000) * height;
    RowsWrap(rb, height);
    WrapsOff(Start(U32(rb), height), k);
    WrapsOff(Start(U32(rb), height) + 54, k);
    WrapsInner(Start(U32(rb), height), 54);
  }

  lemma RowsWrap(rb: nat, height: nat)
    ensures Start(rb, height) == Start(U32(rb), height) + 0x1_0000_0000 * ((rb / 0x1_0000_0000) * height)
  {
    Distributed(rb / 0x1_0000_0000, 0x1_0000_0000, U32(rb), height);
  }

  lemma Distributed(q: nat, m: nat, r: nat, h: nat)
    ensures (q * m + r) * h == r * h + m * (q * h)
  {
  }

  lemma WrapsOff(x: nat, k: nat)
    ensures U32(x + 0x1_0000_0000 * k) == U32(x)
  {
  }

  lemma WrapsInner(x: nat, y: nat)
    ensures U32(U32(x) + y) == U32(x + y)
  {
  }

  /** The first bytes of a file are those of every longer one that starts with them. */
  lemma LabelsOf(b: seq<byte>, file: seq<byte>, width: nat, height: nat)
    requires |b| == HEADER_BYTES <= |file| && file[..HEADER_BYTES] == b
    ensures Labelled(b, width, height) <==> Labelled(file, width, height)
  {
    hide RowBytes, Start;
    assert forall k | 0 <= k < HEADER_BYTES :: file[k] == b[k];
    assert file[..2] == b[..2];
  }

  // ----- the pixel data -----

  /** One row of p, at base: its pixels, blue first, and zeros. */
  ghost predicate RowAt(b: seq<byte>, base: nat, p: Picture, from: nat)
    requires from + p.width <= |p.pixels| && base + RowBytes(p.width) <= |b|
  {
    && (forall j | 0 <= j < p.width :: PixelAt(b, base + 3 * j) == p.pixels[from + j])
    && (forall k | base + 3 * p.width <= k < base + RowBytes(p.width) :: b[k] == 0)
  }

  function PixelAt(b: seq<byte>, k: nat): Pixel
    requires k + 3 <= |b|
  {
    Pixel(b[k], b[k + 1], b[k + 2])
  }

  ghost predicate RowOf(b: seq<byte>, p: Picture, i: nat)
    requires p.Whole() && |b| == Start(RowBytes(p.width), p.height) && i < p.height
  {
    RowsFit(RowBytes(p.width), i, p.height);
    RowsFit(p.width, i, p.height);
    RowAt(b, Start(RowBytes(p.width), i), p, Start(p.width, i))
  }

  /** The pixel data of p: all its rows, and nothing else. */
  ghost predicate Raster(b: seq<byte>, p: Picture) {
    && p.Whole() && |b| == Start(RowBytes(p.width), p.height)
    && forall i | 0 <= i < p.height :: RowOf(b, p, i)
  }

  /** Every byte of the data is fixed by the image. */
  lemma RasterUnique(b: seq<byte>, c: seq<byte>, p: Picture)
    requires Raster(b, p) && Raster(c, p)
    ensures b == c
  {
    var rb := RowBytes(p.width);
    hide RowOf, RowBytes, Start;
    forall k: nat | k < |b| ensures b[k] == c[k] {
      var i, j := Coordinates(rb, p.height, k);
      assert RowOf(b, p, i) && RowOf(c, p, i);
      SameInRows(b, c, p, i, k);
    }
  }

  lemma SameInRows(b: seq<byte>, c: seq<byte>, p: Picture, i: nat, k: nat)
    requires p.Whole() && |b| == |c| == Start(RowBytes(p.width), p.height) && i < p.height && RowOf(b, p, i) &&
        RowOf(c, p, i)
    requires Start(RowBytes(p.width), i) <= k < Start(RowBytes(p.width), i) + RowBytes(p.width) && k < |b|
    ensures b[k] == c[k]
  {
    hide RowBytes, RowAt, Start;
    RowsFit(RowBytes(p.width), i, p.height);
    RowsFit(p.width, i, p.height);
    SameInRow(b, c, p, Start(RowBytes(p.width), i), Start(p.width, i), k);
  }

  lemma SameInRow(b: seq<byte>, c: seq<byte>, p: Picture, base: nat, from: nat, k: nat)
    requires from + p.width <= |p.pixels| && base + RowBytes(p.width) <= |b| == |c|
    requires RowAt(b, base, p, from) && RowAt(c, base, p, from) && base <= k < base + RowBytes(p.width)
    ensures b[k] == c[k]
  {
    if k < base + 3 * p.width {
      var j := (k - base) / 3;
      assert PixelAt(b, base + 3 * j) == PixelAt(c, base + 3 * j);
    }
  }

  /** The image has the pixels that the data gives for its sides. */
  ghost predicate Decoded(b: seq<byte>, p: Picture) {
    && p.Whole() && forall i | 0 <= i < p.height :: RowDecoded(b, p, i)
  }

  ghost predicate RowDecoded(b: seq<byte>, p: Picture, i: nat)
    requires p.Whole() && i < p.height
  {
    RowsFit(p.width, i, p.height);
    Start(RowBytes(p.width), i) + 3 * p.width <= |b|
    && forall j | 0 <= j < p.width :: PixelAt(b, Start(RowBytes(p.width), i) + 3 * j) == p.pixels[Start(p.width, i) + j]
  }

  /** Reading the data of an image gives the image. */
  lemma DecodedIsOriginal(b: seq<byte>, p: Picture, q: Picture)
    requires Raster(b, p) && Decoded(b, q) && q.width == p.width && q.height == p.height
    ensures q == p
  {
    hide Start;
    forall k: nat | k < |p.pixels| ensures q.pixels[k] == p.pixels[k] {
      var i, j := Coordinates(p.width, p.height, k);
      RowsFit(RowBytes(p.width), i, p.height);
      RowsFit(p.width, i, p.height);
      assert RowOf(b, p, i) && RowDecoded(b, q, i);
      assert PixelAt(b, Start(RowBytes(p.width), i) + 3 * j) == p.pixels[Start(p.width, i) + j];
    }
  }

  /** The data reaches as far as an image of these sides is read from it. */
  predicate Reaches(h: Header) {
    h.biHeight >= 1 ==> Start(RowBytes(h.biWidth), h.biHeight - 1) + 3 * h.biWidth <= h.biSizeImage
  }

  /** Where pixel j of row i ends in the data. */
  function PixelEnd(width: nat, i: nat, j: nat): nat {
    Start(RowBytes(width), i) + 3 * j + 3
  }

  /** The data of an accepted file reaches far enough exactly when every pixel that is read
      lies inside it. */
  lemma ReachesExactly(h: Header)
    requires Accepted(h)
    ensures Reaches(h) <==>
        forall i: nat, j: nat | i < h.biHeight && j < h.biWidth :: PixelEnd(h.biWidth, i, j) <= h.biSizeImage
  {
    hide RowBytes, Start;
    var rb := RowBytes(h.biWidth);
    if Reaches(h) {
      forall i: nat, j: nat | i < h.biHeight && j < h.biWidth ensures PixelEnd(h.biWidth, i, j) <= h.biSizeImage {
        LastRow(rb, i, h.biHeight);
      }
    } else {
      assert PixelEnd(h.biWidth, h.biHeight - 1, h.biWidth - 1) > h.biSizeImage;
    }
  }

  /** One row of the output: the inner loops of to_bmp. */
  method WriteRow(bytes: array<byte>, base: nat, img: Image, from: nat)
    requires from + img.width <= img.pixels.Length && base + RowBytes(img.width) <= bytes.Length
    modifies bytes
    ensures RowAt(bytes[..], base, img.Shown(), from)
    ensures forall k | 0 <= k < bytes.Length && !(base <= k < base + RowBytes(img.width)) :: bytes[k] == old(bytes[k])
  {
    var width := img.width;
    for j := 0 to width
      invariant forall l | 0 <= l < j :: PixelAt(bytes[..], base + 3 * l) == img.pixels[from + l]
      invariant forall k | 0 <= k < bytes.Length && !(base <= k < base + 3 * width) :: bytes[k] == old(bytes[k])
    {
      bytes[base + j * 3] := img.pixels[from + j].b;
      bytes[base + j * 3 + 1] := img.pixels[from + j].g;
      bytes[base + j * 3 + 2] := img.pixels[from + j].r;
    }
    var pad := Padding(width);
    for j := 0 to pad
      invariant forall l | 0 <= l < width :: PixelAt(bytes[..], base + 3 * l) == img.pixels[from + l]
      invariant forall k | base + 3 * width <= k < base + 3 * width + j :: bytes[k] == 0
      invariant forall k | 0 <= k < bytes.Length && !(base <= k < base + RowBytes(width)) :: bytes[k] == old(bytes[k])
    {
      bytes[base + width * 3 + j] := 0;
    }
  }

  /** Rows that were done stay done when a later one is written. */
  lemma RowStays(b: seq<byte>, c: seq<byte>, p: Picture, i: nat, done: nat)
    requires p.Whole() && |b| == |c| == Start(RowBytes(p.width), p.height) && done < i < p.height && RowOf(b, p, done)
    requires forall k | 0 <= k < |b| &&
        !(Start(RowBytes(p.width), i) <= k < Start(RowBytes(p.width), i) + RowBytes(p.width)) :: c[k] == b[k]
    ensures RowOf(c, p, done)
  {
    hide Start;
    var rb := RowBytes(p.width);
    RowsFit(rb, done, i);
    RowsFit(rb, done, p.height);
    RowsFit(p.width, done, p.height);
    RowSame(b, c, p, Start(rb, done), Start(p.width, done));
  }

  lemma RowSame(b: seq<byte>, c: seq<byte>, p: Picture, base: nat, from: nat)
    requires from + p.width <= |p.pixels| && base + RowBytes(p.width) <= |b| == |c| && RowAt(b, base, p, from)
    requires forall k | base <= k < base + RowBytes(p.width) :: c[k] == b[k]
    ensures RowAt(c, base, p, from)
  {
    forall j | 0 <= j < p.width ensures PixelAt(c, base + 3 * j) == p.pixels[from + j] {
      assert PixelAt(b, base + 3 * j) == p.pixels[from + j];
    }
  }

  /** The rows of the output, in a buffer of the size that the header gives. */
  method WriteRows(img: Image, size: nat) returns (bytes: array<byte>)
    requires img.pixels.Length == Start(img.width, img.height) && size == Start(RowBytes(img.width), img.height)
    ensures fresh(bytes) && Raster(bytes[..], img.Shown())
  {
    bytes := new byte[size];
    var rb := RowBytes(img.width);
    ghost var p := img.Shown();
    hide RowBytes, RowAt, RowOf, Start;
    for i := 0 to img.height
      invariant img.Shown() == p && bytes.Length == Start(rb, img.height)
      invariant forall k | 0 <= k < i :: RowOf(bytes[..], p, k)
    {
      RowsFit(rb, i, img.height);
      RowsFit(img.width, i, img.height);
      ghost var before := bytes[..];
      WriteRow(bytes, Start(rb, i), img, Start(img.width, i));
      forall k | 0 <= k < i ensures RowOf(bytes[..], p, k) { RowStays(before, bytes[..], p, i, k); }
      RowIs(bytes[..], p, i);
    }
  }

  lemma RowIs(b: seq<byte>, p: Picture, i: nat)
    requires p.Whole() && |b| == Start(RowBytes(p.width), p.height) && i < p.height
    requires Start(RowBytes(p.width), i) + RowBytes(p.width) <= |b| && Start(p.width, i) + p.width <= |p.pixels|
    requires RowAt(b, Start(RowBytes(p.width), i), p, Start(p.width, i))
    ensures RowOf(b, p, i)
  {
  }

  /** A whole file for the image: the header that describes it, and its pixel data. */
  ghost predicate FileFor(file: seq<byte>, p: Picture) {
    |file| >= HEADER_BYTES && file[..HEADER_BYTES] == EncodeHeader(HeaderFor(p.width, p.height)) &&
        Raster(file[HEADER_BYTES..], p)
  }

  lemma FileFrom(data: seq<byte>, p: Picture)
    requires Raster(data, p)
    ensures FileFor(EncodeHeader(HeaderFor(p.width, p.height)) + data, p)
  {
    hide EncodeHeader, Raster;
    var file := EncodeHeader(HeaderFor(p.width, p.height)) + data;
    assert file[..HEADER_BYTES] == EncodeHeader(HeaderFor(p.width, p.height)) && file[HEADER_BYTES..] == data;
  }

  /** Its size field is the length of the file, unless that has more than 32 bits. */
  lemma FileLabelled(file: seq<byte>, p: Picture)
    requires FileFor(file, p)
    ensures Labelled(file, p.width, p.height)
    ensures |file| == HEADER_BYTES + Start(RowBytes(p.width), p.height)
    ensures WordAt(file, 2) == |file| <==> |file| < 0x1_0000_0000
  {
    hide EncodeHeader, HeaderFor, Raster, RowBytes, Start;
    HeaderLabels(p.width, p.height);
    LabelsOf(file[..HEADER_BYTES], file, p.width, p.height);
    RasterSize(file[HEADER_BYTES..], p);
  }

  /** How writing an image with these sides ends. */
  function WriteOutcome(width: nat, height: nat, capacity: nat): WriteStatus {
    if capacity < HEADER_BYTES then WriteError
    else if !Encodable(width, height) then WriteOutOfBounds
    else if capacity < HEADER_BYTES + Start(RowBytes(width), height) then WriteError
    else WriteOk
  }

  /** to_bmp: header and pixel data, to a file that takes so many bytes.  Pixel data that
      the size field cannot count is written outside the buffer. */
  method ToBmp(img: Image, capacity: nat) returns (status: WriteStatus, out: seq<byte>)
    requires img.pixels.Length == Start(img.width, img.height)
    ensures status == WriteOutcome(img.width, img.height, capacity)
    ensures status == WriteOutOfBounds <==> capacity >= HEADER_BYTES && !Encodable(img.width, img.height)
    ensures status == WriteOk <==>
        Encodable(img.width, img.height) && capacity >= HEADER_BYTES + Start(RowBytes(img.width), img.height)
    ensures status == WriteOk ==> FileFor(out, img.Shown())
    ensures status == WriteOk || status == WriteOutOfBounds ==>
        |out| >= HEADER_BYTES && Labelled(out, img.width, img.height)
    ensures status == WriteOk ==> (WordAt(out, 2) == |out| <==> |out| < 0x1_0000_0000)
    ensures status != WriteOk && Encodable(img.width, img.height) ==>
      exists file :: FileFor(file, img.Shown()) && capacity < |file| && out == file[..capacity]
    ensures !Encodable(img.width, img.height) ==>
      out == EncodeHeader(HeaderFor(img.width, img.height))[..if capacity < HEADER_BYTES then capacity
          else HEADER_BYTES]
  {
    hide HeaderFor, EncodeHeader, Raster, RowBytes, Start, FileFor, Labelled, WordAt;
    var header := HeaderFor(img.width, img.height);
    SizeFieldCovers(img.width, img.height);
    var head := EncodeHeader(header);
    if header.biSizeImage < Start(RowBytes(img.width), img.height) {
      if capacity < HEADER_BYTES { return WriteError, head[..capacity]; }
      assert head[..HEADER_BYTES] == head;
      HeaderLabels(img.width, img.height);
      return WriteOutOfBounds, head;
    }
    SizeExact(img.width, img.height);
    var bytes := WriteRows(img, header.biSizeImage);
    RasterSize(bytes[..], img.Shown());
    FileFrom(bytes[..], img.Shown());
    ghost var file := head + bytes[..];
    if capacity < HEADER_BYTES {
      Prefixes(head, bytes[..], capacity);
      return WriteError, head[..capacity];
    }
    if capacity - HEADER_BYTES < header.biSizeImage {
      var n := capacity - HEADER_BYTES;
      Prefixes(head, bytes[..], capacity);
      assert n == 0 ==> head + bytes[..n] == head == head[..capacity];
      return WriteError, head + bytes[..n];
    }
    FileLabelled(file, img.Shown());
    return WriteOk, head + bytes[..];
  }

  /** The size field is the size of the data, also when a side is zero. */
  lemma SizeExact(width: nat, height: nat)
    requires Encodable(width, height)
    ensures HeaderFor(width, height).biSizeImage == Start(RowBytes(width), height)
  {
    hide RowBytes;
    if height > 0 {
      RowsWithin(RowBytes(width), height);
      U32Same(RowBytes(width));
    }
    U32Same(Start(RowBytes(width), height));
  }

  /** Every byte of the data has its place in a buffer of the size field exactly when the
      size does not wrap. */
  lemma SizeFieldCovers(width: nat, height: nat)
    ensures HeaderFor(width, height).biSizeImage >= Start(RowBytes(width), height) <==> Encodable(width, height)
  {
    if Encodable(width, height) { SizeExact(width, height); }
  }

  /** One row of the input: the inner loop of from_bmp. */
  method ReadRow(bytes: seq<byte>, base: nat, img: Image, from: nat)
    requires from + img.width <= img.pixels.Length && base + 3 * img.width <= |bytes|
    modifies img.pixels
    ensures forall j | 0 <= j < img.width :: img.pixels[from + j] == PixelAt(bytes, base + 3 * j)
    ensures forall k | 0 <= k < img.pixels.Length && !(from <= k < from + img.width) ::
        img.pixels[k] == old(img.pixels[k])
  {
    for j := 0 to img.width
      invariant forall l | 0 <= l < j :: img.pixels[from + l] == PixelAt(bytes, base + 3 * l)
      invariant forall k | 0 <= k < img.pixels.Length && !(from <= k < from + img.width) ::
          img.pixels[k] == old(img.pixels[k])
    {
      img.pixels[from + j] := Pixel(bytes[base + j * 3], bytes[base + j * 3 + 1], bytes[base + j * 3 + 2]);
    }
  }

  lemma DecodedStays(b: seq<byte>, p: Picture, q: Picture, i: nat, done: nat)
    requires p.Whole() && q.Whole() && q.width == p.width && q.height == p.height && done < i < p.height &&
        RowDecoded(b, p, done)
    requires forall k | 0 <= k < |p.pixels| && !(Start(p.width, i) <= k < Start(p.width, i) + p.width) ::
        q.pixels[k] == p.pixels[k]
    ensures RowDecoded(b, q, done)
  {
    hide Start, RowBytes;
    RowsFit(p.width, done, i);
    RowsFit(p.width, done, p.height);
    forall j | 0 <= j < p.width
        ensures PixelAt(b, Start(RowBytes(p.width), done) + 3 * j) == q.pixels[Start(p.width, done) + j] {
      assert PixelAt(b, Start(RowBytes(p.width), done) + 3 * j) == p.pixels[Start(p.width, done) + j];
    }
  }

  lemma DecodedIs(b: seq<byte>, p: Picture, i: nat)
    requires p.Whole() && i < p.height && Start(p.width, i) + p.width <= |p.pixels| &&
        Start(RowBytes(p.width), i) + 3 * p.width <= |b|
    requires forall j | 0 <= j < p.width ::
        p.pixels[Start(p.width, i) + j] == PixelAt(b, Start(RowBytes(p.width), i) + 3 * j)
    ensures RowDecoded(b, p, i)
  {
    forall j | 0 <= j < p.width
        ensures PixelAt(b, Start(RowBytes(p.width), i) + 3 * j) == p.pixels[Start(p.width, i) + j] {
      assert p.pixels[Start(p.width, i) + j] == PixelAt(b, Start(RowBytes(p.width), i) + 3 * j);
    }
  }

  method ReadRows(bytes: seq<byte>, img: Image)
    requires img.pixels.Length == Start(img.width, img.height)
    requires img.height >= 1 ==> Start(RowBytes(img.width), img.height - 1) + 3 * img.width <= |bytes|
    modifies img.pixels
    ensures Decoded(bytes, img.Shown())
  {
    hide RowDecoded, RowBytes, Start;
    for i := 0 to img.height
      invariant forall k | 0 <= k < i :: RowDecoded(bytes, img.Shown(), k)
    {
      var rb := RowBytes(img.width);
      RowsFit(img.width, i, img.height);
      LastRow(rb, i, img.height);
      ghost var before := img.Shown();
      ReadRow(bytes, Start(rb, i), img, Start(img.width, i));
      forall k | 0 <= k < i
          ensures RowDecoded(bytes, img.Shown(), k) { DecodedStays(bytes, before, img.Shown(), i, k); }
      DecodedIs(bytes, img.Shown(), i);
    }
  }

  lemma LastRow(rb: nat, i: nat, height: nat)
    requires i < height
    ensures Start(rb, i) <= Start(rb, height - 1)
  {
    if i < height - 1 { RowsFit(rb, i, height - 1); }
  }

  /** The header and the pixel data that a file is read as. */
  function HeaderOf(input: seq<byte>): Header
    requires |input| >= HEADER_BYTES
  {
    DecodeHeader(input[..HEADER_BYTES])
  }

  predicate Readable(input: seq<byte>) {
    |input| >= HEADER_BYTES && Accepted(HeaderOf(input)) && 0 < HeaderOf(input).biSizeImage <= |input| - HEADER_BYTES
  }

  /** The first bytes of a file that is accepted, field by field. */
  predicate Acceptable(b: seq<byte>)
    requires |b| >= HEADER_BYTES
  {
    && b[..2] == [0x42, 0x4D] && WordAt(b, 6) == 0 && WordAt(b, 10) == HEADER_BYTES && WordAt(b, 14) == 40
    && WordAt(b, 18) > 0 && WordAt(b, 22) > 0 && HalfAt(b, 26) == 1 && HalfAt(b, 28) == 24 && WordAt(b, 30) == 0
  }

  /** Which headers are refused, and what is read from the others. */
  lemma AcceptedExactly(input: seq<byte>)
    requires |input| >= HEADER_BYTES
    ensures Accepted(HeaderOf(input)) <==> Acceptable(input)
    ensures HeaderOf(input).biWidth == WordAt(input, 18) && HeaderOf(input).biHeight == WordAt(input, 22)
    ensures HeaderOf(input).biSizeImage == WordAt(input, 34)
  {
    hide DecodeHeader;
    var b := input[..HEADER_BYTES];
    ReadLaidOut(b);
    Signature(b);
    assert input[..2] == b[..2];
    assert forall k | 0 <= k < HEADER_BYTES :: input[k] == b[k];
  }

  /** How reading a file ends. */
  function ReadOutcome(input: seq<byte>): ReadStatus {
    if |input| < HEADER_BYTES then InvalidHeader
    else if !Accepted(HeaderOf(input)) then InvalidBits
    else if !Readable(input) then InvalidSignature
    else if !Reaches(HeaderOf(input)) then OutOfBounds
    else ReadOk
  }

  /** from_bmp.  When the header announces less data than its sides need, pixels are read
      from behind the buffer. */
  method FromBmp(input: seq<byte>) returns (status: ReadStatus, img: Image?)
    ensures status == ReadOutcome(input)
    ensures status == ReadOk <==> Readable(input) && Reaches(HeaderOf(input))
    ensures status == OutOfBounds <==> Readable(input) && !Reaches(HeaderOf(input))
    ensures status == InvalidHeader <==> |input| < HEADER_BYTES
    ensures status == InvalidBits <==> |input| >= HEADER_BYTES && !Acceptable(input)
    ensures (img != null <==> status == ReadOk) && (img != null ==> fresh(img) && fresh(img.pixels))
    ensures img != null ==>
      && img.width == HeaderOf(input).biWidth == WordAt(input, 18)
      && img.height == HeaderOf(input).biHeight == WordAt(input, 22) &&
          img.pixels.Length == Start(img.width, img.height)
      && Decoded(input[HEADER_BYTES..HEADER_BYTES + HeaderOf(input).biSizeImage], img.Shown())
  {
    hide DecodeHeader, RowBytes, Decoded, Start, Acceptable, WordAt;
    img := null;
    if |input| < HEADER_BYTES {
      return InvalidHeader, null;
    }
    AcceptedExactly(input);
    var header := DecodeHeader(input[..HEADER_BYTES]);
    if !Accepted(header) {
      return InvalidBits, null;
    }
    if |input| - HEADER_BYTES < header.biSizeImage || header.biSizeImage == 0 {
      return InvalidSignature, null;
    }
    var bytes := input[HEADER_BYTES..HEADER_BYTES + header.biSizeImage];
    if !Reaches(header) {
      return OutOfBounds, null;
    }
    img := new Image(header.biWidth, header.biHeight);
    ReadRows(bytes, img);
    status := ReadOk;
  }

  /** What was written is read back as the identical image, exactly when the image has a
      pixel, its data can be counted, and the file took all of it. */
  method WriteThenRead(img: Image, capacity: nat) returns (status: ReadStatus, back: Image?)
    requires img.pixels.Length == Start(img.width, img.height)
    ensures status == ReadOk <==>
      img.width >= 1 && img.height >= 1 && Encodable(img.width, img.height) &&
          capacity >= HEADER_BYTES + Start(RowBytes(img.width), img.height)
    ensures status == ReadOk ==> back != null && back.Shown() == img.Shown()
    ensures status != OutOfBounds
  {
    hide HeaderFor, EncodeHeader, DecodeHeader, Decoded, Raster, RowBytes, Accepted, Reaches, Readable, Start, FileFor,
        Encodable;
    ghost var p := img.Shown();
    var written, out;
    written, out := ToBmp(img, capacity);
    if written != WriteOk {
      CutFile(p, out, capacity);
    } else if img.width >= 1 && img.height >= 1 {
      FileOf(p, out);
    } else {
      FileOfNothing(p, out);
    }
    status, back := FromBmp(out);
    if status == ReadOk { DecodedIsOriginal(out[HEADER_BYTES..], p, back.Shown()); }
  }

  /** A file that is cut short is not read. */
  lemma CutFile(p: Picture, out: seq<byte>, capacity: nat)
    requires if Encodable(p.width, p.height) then exists file ::
        FileFor(file, p) && capacity < |file| && out == file[..capacity]
             else out == EncodeHeader(HeaderFor(p.width, p.height))[..if capacity < HEADER_BYTES then capacity
                 else HEADER_BYTES]
    ensures !Readable(out)
  {
    hide EncodeHeader, DecodeHeader, HeaderFor, Accepted, RowBytes, Start, Raster;
    HeaderInRange(p.width, p.height);
    HeaderRoundTrip(HeaderFor(p.width, p.height));
    if |out| >= HEADER_BYTES {
      if Encodable(p.width, p.height) {
        var file :| FileFor(file, p) && capacity < |file| && out == file[..capacity];
        assert out[..HEADER_BYTES] == file[..HEADER_BYTES];
        RasterSize(file[HEADER_BYTES..], p);
        SizeExact(p.width, p.height);
      } else {
        assert out[..HEADER_BYTES] == EncodeHeader(HeaderFor(p.width, p.height));
      }
    }
  }

  /** The file for an image without pixels is not read. */
  lemma FileOfNothing(p: Picture, out: seq<byte>)
    requires (p.width == 0 || p.height == 0) && FileFor(out, p)
    ensures !Readable(out)
  {
    hide EncodeHeader, DecodeHeader, RowBytes, Start, Raster;
    HeaderInRange(p.width, p.height);
    HeaderRoundTrip(HeaderFor(p.width, p.height));
  }

  /** A file that is accepted although its size field is too small: one pixel, one byte. */
  lemma ShortSizeField()
    ensures var h := Header(19778, 0, 0, 54, 40, 1, 1, 1, 24, 0, 1, 0, 0, 0, 0);
            HeaderOf(EncodeHeader(h) + [0]) == h && Readable(EncodeHeader(h) + [0]) && !Reaches(h)
  {
    var h := Header(19778, 0, 0, 54, 40, 1, 1, 1, 24, 0, 1, 0, 0, 0, 0);
    SmallInRange(h);
    HeaderRoundTrip(h);
    hide EncodeHeader, DecodeHeader;
    assert (EncodeHeader(h) + [0])[..HEADER_BYTES] == EncodeHeader(h);
  }

  /** A file that is accepted, and read inside its buffer, for an image that is then written
      outside: one column of 2^30 rows, whose last row has no padding. */
  lemma TallImage(data: seq<byte>)
    requires |data| == 0xFFFF_FFFF
    ensures var h := Header(19778, 0, 0, 54, 40, 1, 0x4000_0000, 1, 24, 0, 0xFFFF_FFFF, 0, 0, 0, 0);
            var file := EncodeHeader(h) + data;
            HeaderOf(file) == h && Readable(file) && Reaches(h) && !Encodable(1, 0x4000_0000)
  {
    var h := Header(19778, 0, 0, 54, 40, 1, 0x4000_0000, 1, 24, 0, 0xFFFF_FFFF, 0, 0, 0, 0);
    TallInRange(h);
    HeaderRoundTrip(h);
    TallReaches();
    hide EncodeHeader, DecodeHeader, Start, RowBytes;
    assert (EncodeHeader(h) + data)[..HEADER_BYTES] == EncodeHeader(h);
  }

  lemma TallReaches()
    ensures RowBytes(1) == 4 && Start(4, 0x3FFF_FFFF) + 3 == 0xFFFF_FFFF && Start(4, 0x4000_0000) == 0x1_0000_0000
  {
  }

  lemma TallInRange(h: Header)
    requires Fields(h) == [19778, 0, 0, 54, 40, 1, 0x4000_0000, 1, 24, 0, 0xFFFF_FFFF, 0, 0, 0, 0]
    ensures InRange(WIDTHS, Fields(h))
  {
    assert Range(2) == 65536 && Range(4) == 0x1_0000_0000 by {
      assert Range(1) == 256 && Range(2) == 256 * Range(1) && Range(3) == 256 * Range(2);
    }
    forall i | 0 <= i < 15 ensures Fields(h)[i] < Range(WIDTHS[i]) {
      assert WIDTHS[i] == 2 || WIDTHS[i] == 4;
    }
  }

  lemma SmallInRange(h: Header)
    requires forall i | 0 <= i < 15 :: Fields(h)[i] < 65536
    ensures InRange(WIDTHS, Fields(h))
  {
    assert Range(2) == 65536 && Range(4) >= 65536 by {
      assert Range(1) == 256 && Range(2) == 256 * Range(1) && Range(3) == 256 * Range(2);
    }
    forall i | 0 <= i < 15 ensures Fields(h)[i] < Range(WIDTHS[i]) {
      assert WIDTHS[i] == 2 || WIDTHS[i] == 4;
    }
  }

  lemma RasterSize(b: seq<byte>, p: Picture)
    requires Raster(b, p)
    ensures |b| == Start(RowBytes(p.width), p.height) && p.Whole()
  {
  }

  /** A file for an image with both sides at least 1 is read as that image's data. */
  lemma FileOf(p: Picture, out: seq<byte>)
    requires p.width >= 1 && p.height >= 1 && Encodable(p.width, p.height) && FileFor(out, p)
    ensures Readable(out) && Reaches(HeaderOf(out)) && Raster(out[HEADER_BYTES..], p)
    ensures HeaderOf(out).biWidth == p.width && HeaderOf(out).biHeight == p.height
    ensures out[HEADER_BYTES..HEADER_BYTES + HeaderOf(out).biSizeImage] == out[HEADER_BYTES..]
  {
    hide EncodeHeader, DecodeHeader, HeaderFor, Accepted, RowBytes, Start, Raster;
    HeaderDescribes(p.width, p.height);
    RasterSize(out[HEADER_BYTES..], p);
    WidthsWithin(p.width);
    RowsWithin(RowBytes(p.width), p.height);
    RowEnd(p.width, p.height);
  }

  lemma Prefixes(a: seq<byte>, b: seq<byte>, n: nat)
    requires n <= |a| + |b|
    ensures n <= |a| ==> (a + b)[..n] == a[..n]
    ensures n > |a| ==> (a + b)[..n] == a + b[..n - |a|]
  {
  }

  lemma RowEnd(width: nat, height: nat)
    requires height >= 1
    ensures Start(RowBytes(width), height - 1) + 3 * width <= Start(RowBytes(width), height)
  {
    RowsFit(RowBytes(width), height - 1, height);
  }
}
