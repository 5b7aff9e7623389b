/**
  Turning an image by copying its pixels, once and repeatedly.
 */
module Rotation {
  import opened Images

  predicate Sized(img: Image) {
    img.pixels.Length == Start(img.width, img.height)
  }

  /** What row i of the turned image holds, from base on. */
  ghost predicate RowTurned(p: Picture, q: seq<Pixel>, base: nat, i: nat)
    requires p.Whole() && i < p.width && base + p.height <= |q|
  {
    forall k: nat | base <= k < base + p.height :: q[k] == At(p, p.width - i - 1, k - base)
  }

  ghost predicate TurnedRow(p: Picture, q: seq<Pixel>, i: nat)
    requires p.Whole() && |q| == Start(p.height, p.width) && i < p.width
  {
    RowsFit(p.height, i, p.width);
    RowTurned(p, q, Start(p.height, i), i)
  }

  lemma TurnedRows(p: Picture, q: seq<Pixel>)
    requires p.Whole() && |q| == Start(p.height, p.width) && forall i: nat | i < p.width :: TurnedRow(p, q, i)
    ensures q == Turned(p).pixels
  {
    hide Start, SourceIndex;
    forall k: nat | k < |q| ensures q[k] == Turned(p).pixels[k] {
      var i, j := Coordinates(p.height, p.width, k);
      SourceAt(p.width, p.height, i, j);
      assert TurnedRow(p, q, i);
      RowsFit(p.height, i, p.width);
      assert q[Start(p.height, i) + j] == At(p, p.width - i - 1, j);
    }
  }

  lemma RowKept(p: Picture, q: seq<Pixel>, r: seq<Pixel>, i: nat, done: nat)
    requires p.Whole() && |q| == |r| == Start(p.height, p.width) && done < i < p.width && TurnedRow(p, q, done)
    requires forall k | 0 <= k < |q| && !(Start(p.height, i) <= k < Start(p.height, i) + p.height) :: r[k] == q[k]
    ensures TurnedRow(p, r, done)
  {
    RowsFit(p.height, done, i);
    RowsFit(p.height, done, p.width);
  }

  /** One row of the new image: the inner loop. */
  method TurnRow(source: Image, target: Image, i: nat)
    requires Sized(source) && Sized(target) && target.width == source.height && target.height == source.width
    requires i < source.width && source.pixels != target.pixels
    modifies target.pixels
    ensures TurnedRow(source.Shown(), target.pixels[..], i)
    ensures forall k | 0 <= k < target.pixels.Length &&
        !(Start(source.height, i) <= k < Start(source.height, i) + source.height) ::
              target.pixels[k] == old(target.pixels[k])
  {
    var base := Start(target.width, i);
    ghost var p := source.Shown();
    RowsFit(source.height, i, source.width);
    for j: nat := 0 to target.width
      invariant source.Shown() == p
      invariant forall k: nat | base <= k < base + j :: target.pixels[k] == At(p, p.width - i - 1, k - base)
      invariant forall k | 0 <= k < target.pixels.Length && !(base <= k < base + source.height) ::
          target.pixels[k] == old(target.pixels[k])
    {
      RowsFit(source.width, j, source.height);
      target.pixels[base + j] := source.pixels[Start(source.width, j) + source.width - i - 1];
    }
  }

  /** rotate */
  method Rotate(source: Image) returns (image: Image)
    requires Sized(source)
    ensures Sized(image) && fresh(image) && fresh(image.pixels) && image.Shown() == Turned(source.Shown())
  {
    hide TurnedRow, Start;
    image := new Image(source.height, source.width);
    ghost var p := source.Shown();
    for i: nat := 0 to image.height
      invariant source.Shown() == p
      invariant forall k: nat | k < i :: TurnedRow(p, image.pixels[..], k)
    {
      ghost var before := image.pixels[..];
      TurnRow(source, image, i);
      forall k: nat | k < i ensures TurnedRow(p, image.pixels[..], k) { RowKept(p, before, image.pixels[..], i, k); }
    }
    TurnedRows(p, image.pixels[..]);
  }

  /** The largest value of the loop counter, which is an int. */
  const INT_MAX: int := 0x7FFF_FFFF

  /** rotate_number: turns again and again; none at all gives the same image.  There is no
      image when the counter overflows. */
  method RotateNumber(source: Image, count: nat) returns (image: Image?)
    requires Sized(source)
    ensures image == null <==> count > INT_MAX
    ensures image != null ==> Sized(image) && image.Shown() == Turns(source.Shown(), count)
    ensures source.Shown() == old(source.Shown()) && (count == 0 ==> image == source)
  {
    hide Turned;
    var turned := source;
    for i: nat := 0 to count
      invariant i <= INT_MAX && Sized(turned) && source.Shown() == old(source.Shown())
      invariant turned.Shown() == Turns(source.Shown(), i) && (i == 0 ==> turned == source)
    {
      turned := Rotate(turned);
      if i == INT_MAX {
        return null;
      }
    }
    image := turned;
  }
}
