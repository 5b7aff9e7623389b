/**
  The packed header of a BMP file, as the bytes that fwrite puts out and fread takes in on
  a little-endian machine.
 */
module BmpHeader {
  import opened Bytes

  function LittleEndian(n: nat, x: nat): (r: seq<byte>)
    ensures |r| == n
  {
    if n == 0 then [] else [(x % 256) as byte] + LittleEndian(n - 1, x / 256)
  }

  function Value(b: seq<byte>): nat {
    if b == [] then 0 else b[0] as nat + 256 * Value(b[1..])
  }

  function Range(n: nat): nat {
    if n == 0 then 1 else 256 * Range(n - 1)
  }

  lemma {:induction false} ValueOf(n: nat, x: nat)
    requires x < Range(n)
    ensures Value(LittleEndian(n, x)) == x
    decreases n
  {
    if n > 0 {
      ValueOf(n - 1, x / 256);
      assert LittleEndian(n, x)[1..] == LittleEndian(n - 1, x / 256);
    }
  }

  function Total(widths: seq<nat>): nat {
    if widths == [] then 0 else widths[0] + Total(widths[1..])
  }

  /** Fields of the given widths, one after the other without gaps. */
  function Pack(widths: seq<nat>, values: seq<nat>): (r: seq<byte>)
    requires |values| == |widths|
    ensures |r| == Total(widths)
    decreases |widths|
  {
    if widths == [] then [] else LittleEndian(widths[0], values[0]) + Pack(widths[1..], values[1..])
  }

  function Unpack(widths: seq<nat>, b: seq<byte>): (r: seq<nat>)
    requires |b| >= Total(widths)
    ensures |r| == |widths|
    decreases |widths|
  {
    if widths == [] then [] else [Value(b[..widths[0]])] + Unpack(widths[1..], b[widths[0]..])
  }

  ghost predicate InRange(widths: seq<nat>, values: seq<nat>) {
    |values| == |widths| && forall i | 0 <= i < |widths| :: values[i] < Range(widths[i])
  }

  lemma {:induction false} UnpackPack(widths: seq<nat>, values: seq<nat>)
    requires InRange(widths, values)
    ensures Unpack(widths, Pack(widths, values)) == values
    decreases |widths|
  {
    if widths != [] {
      ValueOf(widths[0], values[0]);
      UnpackPack(widths[1..], values[1..]);
      var b := Pack(widths, values);
      assert b[..widths[0]] == LittleEndian(widths[0], values[0]);
      assert b[widths[0]..] == Pack(widths[1..], values[1..]);
    }
  }

  datatype Header = Header(
    bfType: nat, bfileSize: nat, bfReserved: nat, bfOffBits: nat, biSize: nat, biWidth: nat, biHeight: nat,
    biPlanes: nat, biBitCount: nat, biCompression: nat, biSizeImage: nat, biXPelsPerMeter: nat, biYPelsPerMeter: nat,
    biClrUsed: nat, biClrImportant: nat)

  const WIDTHS: seq<nat> := [2, 4, 4, 4, 4, 4, 4, 2, 2, 4, 4, 4, 4, 4, 4]
  const HEADER_BYTES: nat := 54

  function Fields(h: Header): seq<nat> {
    [h.bfType, h.bfileSize, h.bfReserved, h.bfOffBits, h.biSize, h.biWidth, h.biHeight, h.biPlanes, h.biBitCount,
     h.biCompression, h.biSizeImage, h.biXPelsPerMeter, h.biYPelsPerMeter, h.biClrUsed, h.biClrImportant]
  }

  lemma {:induction false} TotalSplit(a: seq<nat>, b: seq<nat>)
    ensures Total(a + b) == Total(a) + Total(b)
    decreases |a|
  {
    if a == [] {
      assert a + b == b;
    } else {
      assert (a + b)[1..] == a[1..] + b;
      TotalSplit(a[1..], b);
    }
  }

  lemma TotalThree(a: nat, b: nat, c: nat)
    ensures Total([a, b, c]) == a + b + c
  {
    assert [a, b, c][1..] == [b, c] && [b, c][1..] == [c] && [c][1..] == [];
    assert Total([c]) == c && Total([b, c]) == b + Total([c]);
  }

  /** The struct is packed: 54 bytes. */
  lemma HeaderSize()
    ensures Total(WIDTHS) == HEADER_BYTES
  {
    TotalThree(2, 4, 4);
    TotalThree(4, 4, 4);
    TotalThree(4, 2, 2);
    TotalSplit([2, 4, 4], [4, 4, 4]);
    TotalSplit([2, 4, 4] + [4, 4, 4], [4, 2, 2]);
    TotalSplit([2, 4, 4] + [4, 4, 4] + [4, 2, 2], [4, 4, 4]);
    TotalSplit([2, 4, 4] + [4, 4, 4] + [4, 2, 2] + [4, 4, 4], [4, 4, 4]);
    assert WIDTHS == [2, 4, 4] + [4, 4, 4] + [4, 2, 2] + [4, 4, 4] + [4, 4, 4];
  }

  function EncodeHeader(h: Header): (b: seq<byte>)
    ensures |b| == HEADER_BYTES
  {
    HeaderSize();
    Pack(WIDTHS, Fields(h))
  }

  function FromFields(v: seq<nat>): Header
    requires |v| == 15
  {
    Header(v[0], v[1], v[2], v[3], v[4], v[5], v[6], v[7], v[8], v[9], v[10], v[11], v[12], v[13], v[14])
  }

  function DecodeHeader(b: seq<byte>): Header
    requires |b| == HEADER_BYTES
  {
    HeaderSize();
    FromFields(Unpack(WIDTHS, b))
  }

  /** A header whose fields fit their types is read back as it was written. */
  lemma HeaderRoundTrip(h: Header)
    requires InRange(WIDTHS, Fields(h))
    ensures DecodeHeader(EncodeHeader(h)) == h
  {
    HeaderSize();
    UnpackPack(WIDTHS, Fields(h));
  }

  // ----- the fields as bytes -----

  /** The number in the two bytes at a place, low byte first. */
  function HalfAt(b: seq<byte>, k: nat): nat
    requires k + 2 <= |b|
  {
    b[k] as nat + 0x100 * b[k + 1] as nat
  }

  /** The number in the four bytes at a place, low byte first. */
  function WordAt(b: seq<byte>, k: nat): nat
    requires k + 4 <= |b|
  {
    b[k] as nat + 0x100 * b[k + 1] as nat + 0x1_0000 * b[k + 2] as nat + 0x100_0000 * b[k + 3] as nat
  }

  /** These bytes are the header: which field lies where. */
  predicate LaidOut(b: seq<byte>, h: Header)
    requires |b| >= HEADER_BYTES
  {
    && HalfAt(b, 0) == h.bfType && WordAt(b, 2) == h.bfileSize && WordAt(b, 6) == h.bfReserved
    && WordAt(b, 10) == h.bfOffBits && WordAt(b, 14) == h.biSize && WordAt(b, 18) == h.biWidth
    && WordAt(b, 22) == h.biHeight && HalfAt(b, 26) == h.biPlanes && HalfAt(b, 28) == h.biBitCount
    && WordAt(b, 30) == h.biCompression && WordAt(b, 34) == h.biSizeImage
    && WordAt(b, 38) == h.biXPelsPerMeter && WordAt(b, 42) == h.biYPelsPerMeter
    && WordAt(b, 46) == h.biClrUsed && WordAt(b, 50) == h.biClrImportant
  }

  lemma HalfValue(b: seq<byte>, k: nat)
    requires k + 2 <= |b|
    ensures Value(b[k..k + 2]) == HalfAt(b, k)
  {
    var c := b[k..k + 2];
    assert c[1..] == [b[k + 1]] && c[1..][1..] == [];
    assert Value(c[1..]) == b[k + 1] as nat + 256 * Value([]);
  }

  lemma WordValue(b: seq<byte>, k: nat)
    requires k + 4 <= |b|
    ensures Value(b[k..k + 4]) == WordAt(b, k)
  {
    var c := b[k..k + 4];
    assert c[2..] == b[k + 2..k + 4] && c[1..][1..] == c[2..];
    HalfValue(b, k + 2);
    assert Value(c[1..]) == c[1] as nat + 256 * Value(c[2..]);
  }

  /** Field i of what is unpacked lies behind the fields before it. */
  lemma {:induction false} UnpackedField(widths: seq<nat>, b: seq<byte>, i: nat)
    requires |b| >= Total(widths) && i < |widths|
    ensures Total(widths[..i]) + widths[i] <= |b|
    ensures Unpack(widths, b)[i] == Value(b[Total(widths[..i])..Total(widths[..i]) + widths[i]])
    decreases i
  {
    hide Value;
    if i == 0 {
      assert widths[..0] == [];
    } else {
      var w, c := widths[1..], b[widths[0]..];
      UnpackedField(w, c, i - 1);
      TotalFirst(widths, i);
      SliceOfRest(b, widths[0], Total(w[..i - 1]), widths[i]);
      assert Unpack(widths, b)[i] == Unpack(w, c)[i - 1];
    }
  }

  lemma TotalFirst(widths: seq<nat>, i: nat)
    requires 0 < i < |widths|
    ensures Total(widths[..i]) == widths[0] + Total(widths[1..][..i - 1])
  {
    assert widths[..i][1..] == widths[1..][..i - 1];
  }

  lemma SliceOfRest(b: seq<byte>, d: nat, from: nat, n: nat)
    requires d + from + n <= |b|
    ensures b[d..][from..from + n] == b[d + from..d + from + n]
  {
  }

  lemma TotalStep(widths: seq<nat>, i: nat)
    requires i < |widths|
    ensures Total(widths[..i + 1]) == Total(widths[..i]) + widths[i]
  {
    assert widths[..i + 1] == widths[..i] + [widths[i]];
    TotalSplit(widths[..i], [widths[i]]);
    assert [widths[i]][1..] == [];
  }

  lemma HalfRead(b: seq<byte>, i: nat, k: nat)
    requires |b| == HEADER_BYTES == Total(WIDTHS) && i < 15 && WIDTHS[i] == 2 && Total(WIDTHS[..i]) == k
    ensures k + 2 <= |b| && Total(WIDTHS[..i + 1]) == k + 2
    ensures Unpack(WIDTHS, b)[i] == HalfAt(b, k)
  {
    hide Unpack, Total, Value;
    UnpackedField(WIDTHS, b, i);
    HalfValue(b, k);
    TotalStep(WIDTHS, i);
  }

  lemma WordRead(b: seq<byte>, i: nat, k: nat)
    requires |b| == HEADER_BYTES == Total(WIDTHS) && i < 15 && WIDTHS[i] == 4 && Total(WIDTHS[..i]) == k
    ensures k + 4 <= |b| && Total(WIDTHS[..i + 1]) == k + 4
    ensures Unpack(WIDTHS, b)[i] == WordAt(b, k)
  {
    hide Unpack, Total, Value;
    UnpackedField(WIDTHS, b, i);
    WordValue(b, k);
    TotalStep(WIDTHS, i);
  }

  lemma NoFields()
    ensures Total(WIDTHS[..0]) == 0
  {
    assert WIDTHS[..0] == [];
  }

  lemma FirstFields(b: seq<byte>)
    requires |b| == HEADER_BYTES == Total(WIDTHS)
    ensures Total(WIDTHS[..7]) == 26
    ensures var v := Unpack(WIDTHS, b);
            && HalfAt(b, 0) == v[0] && WordAt(b, 2) == v[1] && WordAt(b, 6) == v[2] && WordAt(b, 10) == v[3]
            && WordAt(b, 14) == v[4] && WordAt(b, 18) == v[5] && WordAt(b, 22) == v[6]
  {
    hide Unpack, Total, Value, HalfAt, WordAt;
    NoFields();
    HalfRead(b, 0, 0);
    WordRead(b, 1, 2);
    WordRead(b, 2, 6);
    WordRead(b, 3, 10);
    WordRead(b, 4, 14);
    WordRead(b, 5, 18);
    WordRead(b, 6, 22);
  }

  lemma LastFields(b: seq<byte>)
    requires |b| == HEADER_BYTES == Total(WIDTHS) && Total(WIDTHS[..7]) == 26
    ensures var v := Unpack(WIDTHS, b);
            && HalfAt(b, 26) == v[7] && HalfAt(b, 28) == v[8] && WordAt(b, 30) == v[9] && WordAt(b, 34) == v[10]
            && WordAt(b, 38) == v[11] && WordAt(b, 42) == v[12] && WordAt(b, 46) == v[13] && WordAt(b, 50) == v[14]
  {
    hide Unpack, Total, Value, HalfAt, WordAt;
    HalfRead(b, 7, 26);
    HalfRead(b, 8, 28);
    WordRead(b, 9, 30);
    WordRead(b, 10, 34);
    WordRead(b, 11, 38);
    WordRead(b, 12, 42);
    WordRead(b, 13, 46);
    WordRead(b, 14, 50);
  }

  /** A header is read with each field at its place, low byte first. */
  lemma ReadLaidOut(b: seq<byte>)
    requires |b| == HEADER_BYTES
    ensures LaidOut(b, DecodeHeader(b))
  {
    hide Unpack, Total, Value, HalfAt, WordAt;
    HeaderSize();
    FirstFields(b);
    LastFields(b);
  }

  /** And written so. */
  lemma WrittenLaidOut(h: Header)
    requires InRange(WIDTHS, Fields(h))
    ensures LaidOut(EncodeHeader(h), h)
  {
    hide EncodeHeader, DecodeHeader, LaidOut;
    HeaderRoundTrip(h);
    ReadLaidOut(EncodeHeader(h));
  }
}
