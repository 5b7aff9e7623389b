/**
  The whole program: a file is read, its image turned, and the result written.
 */
module Transformer {
  import opened Bytes
  import opened Images
  import opened BmpHeader
  import opened BmpCodec
  import opened Rotation
  import opened Angles

  /** How a run ends.  An overflow of an int, of the angle's number or of the loop counter,
      is no outcome of the program: it stands for a run whose behaviour is not defined. */
  datatype Outcome =
    | AngleOverflows | WrongAngle | ReadFailed(read: ReadStatus) | CounterOverflows
    | WriteFailed(write: WriteStatus) | Done

  /** An int holds the angle's number and that plus 360. */
  predicate AngleFits(angle: string) {
    -INT_MAX - 1 <= Atoi(angle) && Atoi(angle) + 360 <= INT_MAX
  }

  /** The number of turns as the unsigned 64-bit count that rotating takes. */
  function Unsigned(number: int): nat {
    number % 0x1_0000_0000_0000_0000
  }

  /** The image that a file holds. */
  ghost predicate Holds(file: seq<byte>, p: Picture) {
    && Readable(file) && Reaches(HeaderOf(file)) && p.width == HeaderOf(file).biWidth &&
        p.height == HeaderOf(file).biHeight
    && Decoded(file[HEADER_BYTES..HEADER_BYTES + HeaderOf(file).biSizeImage], p)
  }

  /** The part of main behind opening the files: the new file takes so many bytes. */
  method Transform(input: seq<byte>, angle: string, capacity: nat)
        returns (result: Outcome, out: seq<byte>, ghost p: Picture)
    ensures result == AngleOverflows <==> !AngleFits(angle)
    ensures result == WrongAngle <==> AngleFits(angle) && Validate(angle) == -1
    ensures result.ReadFailed? <==> AngleFits(angle) && Validate(angle) != -1 && ReadOutcome(input) != ReadOk
    ensures result.ReadFailed? ==> result.read == ReadOutcome(input)
    ensures result == CounterOverflows <==> AngleFits(angle) && Validate(angle) < -1 && ReadOutcome(input) == ReadOk
    ensures result.Done? || result.WriteFailed? ==>
      && Holds(input, p) && 0 <= Validate(angle) <= 3
      && var q := Turns(p, Validate(angle));
      && WriteOutcome(q.width, q.height, capacity) == (if result.Done? then WriteOk else result.write)
      && (result == Done <==> WriteOutcome(q.width, q.height, capacity) == WriteOk)
      && (result == Done ==> FileFor(out, q))
  {
    hide Validate, Turns, Decoded, FileFor, Raster, RowBytes, Start, Readable, Reaches, HeaderOf, Encodable,
        HeaderFor, EncodeHeader, AngleFits, ReadOutcome, WriteOutcome, Atoi;
    out, p := [], Picture(0, 0, []);
    if !AngleFits(angle) {
      return AngleOverflows, out, p;
    }
    var number := Validate(angle);
    CountRange(angle);
    if number == -1 {
      return WrongAngle, out, p;
    }
    var status, image;
    status, image := FromBmp(input);
    if image == null {
      return ReadFailed(status), out, p;
    }
    p := image.Shown();
    ReadHolds(input, p);
    var turned := RotateNumber(image, Unsigned(number));
    if turned == null {
      return CounterOverflows, out, p;
    }
    var written;
    written, out := ToBmp(turned, capacity);
    result := if written == WriteOk then Done else WriteFailed(written);
  }

  /** There are at most three turns, in either direction; the other way round they are more
      than the counter can count. */
  lemma CountRange(angle: string)
    ensures -3 <= Validate(angle) <= 3
    ensures if Validate(angle) < 0 then Unsigned(Validate(angle)) > INT_MAX
        else Unsigned(Validate(angle)) == Validate(angle)
  {
    hide Atoi;
    TestIsAlwaysTrue(angle);
    var q, r, k := CountParts(Atoi(angle));
  }

  lemma ReadHolds(input: seq<byte>, p: Picture)
    requires Readable(input) && Reaches(HeaderOf(input))
    requires p.width == HeaderOf(input).biWidth && p.height == HeaderOf(input).biHeight
    requires Decoded(input[HEADER_BYTES..HEADER_BYTES + HeaderOf(input).biSizeImage], p)
    ensures Holds(input, p)
  {
  }

  /** A picture that a file holds is the only one. */
  lemma HeldOnce(file: seq<byte>, p: Picture, q: Picture)
    requires Holds(file, p) && Holds(file, q)
    ensures p == q
  {
    hide Start, RowBytes, HeaderOf, Reaches;
    forall k: nat | k < |p.pixels| ensures p.pixels[k] == q.pixels[k] {
      var i, j := Coordinates(p.width, p.height, k);
      var b := file[HEADER_BYTES..HEADER_BYTES + HeaderOf(file).biSizeImage];
      assert RowDecoded(b, p, i) && RowDecoded(b, q, i);
      assert p.pixels[Start(p.width, i) + j] == PixelAt(b, Start(RowBytes(p.width), i) + 3 * j);
    }
  }

  /** A file for an image holds that image. */
  lemma FileHolds(file: seq<byte>, p: Picture, q: Picture)
    requires p.width >= 1 && p.height >= 1 && Encodable(p.width, p.height) && FileFor(file, p) && Holds(file, q)
    ensures q == p
  {
    hide Start, RowBytes, HeaderOf, Reaches, Raster, Decoded, Encodable, HeaderFor, EncodeHeader;
    FileOf(p, file);
    DecodedIsOriginal(file[HEADER_BYTES..], p, q);
  }

  /** Turning a file by a listed angle and then by one that makes whole turns with it gives
      the file of the first image. */
  method TurnAndBack(input: seq<byte>, a: string, b: string, capacity: nat)
        returns (first: Outcome, second: Outcome, out: seq<byte>, ghost p: Picture)
    requires Listed(a) && Listed(b) && (Atoi(a) + Atoi(b)) % 360 == 0
    ensures first.Done? || first.ReadFailed? || first.WriteFailed?
    ensures second.Done? || second.ReadFailed? || second.WriteFailed?
    ensures first == Done ==> Holds(input, p) && !second.ReadFailed? && (second == Done ==> FileFor(out, p))
  {
    hide AngleFits, ReadOutcome, WriteOutcome, Validate, Turns, Holds, FileFor, RowBytes, Start, Readable, Reaches,
        HeaderOf, Encodable, Listed, Atoi,
        Unsigned;
    ListedFits(a);
    ListedFits(b);
    var middle;
    first, middle, p := Transform(input, a, capacity);
    ListedAngles(a);
    ListedAngles(b);
    ghost var q;
    second, out, q := Transform(middle, b, capacity);
    if first == Done {
      NonEmpty(input, p, Validate(a));
      ghost var t := Turns(p, Validate(a));
      OkIsEncodable(t.width, t.height, capacity);
      FileOf(t, middle);
      ReadableIsOk(middle);
      if second == Done {
        FileHolds(middle, t, q);
        BackAgain(p, Validate(a), Validate(b), Atoi(a), Atoi(b));
      }
    }
  }

  lemma ListedFits(angle: string)
    requires Listed(angle)
    ensures AngleFits(angle)
  {
    hide Atoi, Listed;
    ListedValue(angle);
  }

  lemma ReadableIsOk(input: seq<byte>)
    requires Readable(input) && Reaches(HeaderOf(input))
    ensures ReadOutcome(input) == ReadOk
  {
  }

  lemma OkIsEncodable(width: nat, height: nat, capacity: nat)
    requires WriteOutcome(width, height, capacity) == WriteOk
    ensures Encodable(width, height)
  {
  }

  lemma BackAgain(p: Picture, x: nat, y: nat, a: int, b: int)
    requires p.Whole() && x <= 3 && y <= 3 && (90 * x - a) % 360 == 0 && (90 * y - b) % 360 == 0 && (a + b) % 360 == 0
    ensures Turns(Turns(p, x), y) == p
  {
    hide Turned, Start;
    SumOfCounts(x, y, 0, a, b, 0);
    TurnsCompose(p, x, y);
  }

  lemma NonEmpty(file: seq<byte>, p: Picture, n: nat)
    requires Holds(file, p)
    ensures p.Whole() && Turns(p, n).width >= 1 && Turns(p, n).height >= 1
  {
    assert Accepted(HeaderOf(file));
    TurnsSides(p, n);
  }

  lemma {:induction false} TurnsSides(p: Picture, n: nat)
    requires p.Whole() && p.width >= 1 && p.height >= 1
    ensures Turns(p, n).width >= 1 && Turns(p, n).height >= 1
  {
    if n > 0 { TurnsSides(p, n - 1); }
  }
}
