/**
  Images as flat sequences of pixels, the index arithmetic of their rows, and the quarter
  turn with the group of four that it makes.
 */
module Images {
  import opened Bytes

  datatype Pixel = Pixel(b: byte, g: byte, r: byte)

  /** The index where row y of rows of w starts, which is also the size of y rows. */
  function Start(w: nat, y: nat): nat { w * y }

  datatype Picture = Picture(width: nat, height: nat, pixels: seq<Pixel>) {
    predicate Whole() { |pixels| == Start(width, height) }
  }

  // ----- rows -----

  lemma {:induction false} RowsFit(w: nat, y: nat, h: nat)
    requires y < h
    ensures Start(w, y) + w <= Start(w, h)
    decreases h
  {
    assert w * h == w * (h - 1) + w;
    if y + 1 < h { RowsFit(w, y, h - 1); }
  }

  lemma {:induction false} RowsGrow(w: nat, a: nat, b: nat)
    ensures a <= b ==> Start(w, a) <= Start(w, b)
    decreases b
  {
    if a < b {
      RowsGrow(w, a, b - 1);
      assert w * b == w * (b - 1) + w;
    }
  }

  /** The same pixels, counted by rows or by columns. */
  lemma Sides(w: nat, h: nat)
    ensures Start(w, h) == Start(h, w)
  {
  }

  lemma NoRows(w: nat)
    ensures Start(w, 0) == 0
  {
  }

  /** A flat index belongs to one row and column only. */
  lemma FlatParts(w: nat, x: nat, y: nat)
    requires x < w
    ensures (Start(w, y) + x) / w == y && (Start(w, y) + x) % w == x
  {
    var k := Start(w, y) + x;
    var q, r := Division(k, w);
    hide Start;
    if q < y { RowsFit(w, q, y); }
    if y < q { RowsFit(w, y, q); }
  }

  lemma Division(k: nat, w: nat) returns (q: nat, r: nat)
    requires w > 0
    ensures q == k / w && r == k % w && k == Start(w, q) + r && r < w
  {
    q, r := k / w, k % w;
  }

  lemma FlatSplit(w: nat, h: nat, k: nat)
    requires k < Start(w, h)
    ensures w > 0 && k % w < w && k / w < h && k == Start(w, k / w) + k % w
  {
    Sides(w, h);
    NoRows(h);
    assert w > 0;
    var y, x := Division(k, w);
    RowsGrow(w, h, y);
  }

  lemma Coordinates(w: nat, h: nat, k: nat) returns (y: nat, x: nat)
    requires k < Start(w, h)
    ensures x < w && y < h && k == Start(w, y) + x
  {
    FlatSplit(w, h, k);
    y, x := k / w, k % w;
  }

  // ----- the quarter turn -----

  /** Where the pixel at flat index k of the turned image comes from. */
  function SourceIndex(w: nat, h: nat, k: nat): (r: nat)
    requires k < Start(h, w)
    ensures r < Start(w, h)
  {
    FlatSplit(h, w, k);
    RowsFit(w, k % h, h);
    Start(w, k % h) + w - k / h - 1
  }

  /** Where the pixel at flat index k of the image goes. */
  function TargetIndex(w: nat, h: nat, k: nat): (r: nat)
    requires k < Start(w, h)
    ensures r < Start(h, w)
  {
    FlatSplit(w, h, k);
    RowsFit(h, w - k % w - 1, w);
    Start(h, w - k % w - 1) + k / w
  }

  /** Pixel j of row i of the turned image comes from column w - 1 - i of row j. */
  lemma SourceAt(w: nat, h: nat, i: nat, j: nat)
    requires i < w && j < h
    ensures Start(h, i) + j < Start(h, w) && SourceIndex(w, h, Start(h, i) + j) == Start(w, j) + (w - i - 1)
  {
    hide Start;
    RowsFit(h, i, w);
    FlatParts(h, j, i);
  }

  lemma TargetAt(w: nat, h: nat, i: nat, j: nat)
    requires i < w && j < h
    ensures Start(w, j) + (w - i - 1) < Start(w, h) && TargetIndex(w, h, Start(w, j) + (w - i - 1)) == Start(h, i) + j
  {
    hide Start;
    RowsFit(w, j, h);
    FlatParts(w, w - i - 1, j);
  }

  /** The turn loses no pixel and doubles none. */
  lemma TurnIsBijection(w: nat, h: nat, k: nat)
    requires k < Start(w, h)
    ensures k < Start(h, w) && TargetIndex(w, h, SourceIndex(w, h, k)) == k
    ensures SourceIndex(w, h, TargetIndex(w, h, k)) == k
  {
    Sides(w, h);
    hide Start, SourceIndex, TargetIndex;
    var i, j := Coordinates(h, w, k);
    SourceAt(w, h, i, j);
    TargetAt(w, h, i, j);
    var y, x := Coordinates(w, h, k);
    TargetAt(w, h, w - 1 - x, y);
    SourceAt(w, h, w - 1 - x, y);
  }

  /** The image after one quarter turn clockwise. */
  function Turned(p: Picture): (q: Picture)
    requires p.Whole()
    ensures q.Whole()
  {
    Picture(p.height, p.width, seq(Start(p.height, p.width),
      k requires 0 <= k < Start(p.height, p.width) => p.pixels[SourceIndex(p.width, p.height, k)]))
  }

  /** The pixel in column x of row y. */
  function At(p: Picture, x: nat, y: nat): Pixel
    requires p.Whole() && x < p.width && y < p.height
  {
    RowsFit(p.width, y, p.height);
    p.pixels[Start(p.width, y) + x]
  }

  /** Rows are stored from the bottom up, so this turns clockwise: the pixel at (x, y), in
      coordinates with y pointing up, goes to (y, width - 1 - x). */
  lemma TurnedAt(p: Picture, x: nat, y: nat)
    requires p.Whole() && x < p.width && y < p.height
    ensures At(Turned(p), y, p.width - 1 - x) == At(p, x, y)
  {
    hide Start, SourceIndex;
    SourceAt(p.width, p.height, p.width - 1 - x, y);
  }

  lemma SamePicture(p: Picture, q: Picture)
    requires p.Whole() && q.Whole() && p.width == q.width && p.height == q.height
    requires forall x: nat, y: nat | x < p.width && y < p.height :: At(p, x, y) == At(q, x, y)
    ensures p == q
  {
    hide Start;
    forall k: nat | k < |p.pixels| ensures p.pixels[k] == q.pixels[k] {
      var y, x := Coordinates(p.width, p.height, k);
      assert At(p, x, y) == At(q, x, y);
    }
  }

  function Turns(p: Picture, n: nat): (q: Picture)
    requires p.Whole()
    ensures q.Whole()
  {
    if n == 0 then p else Turned(Turns(p, n - 1))
  }

  lemma {:induction false} TurnsAdd(p: Picture, a: nat, b: nat)
    requires p.Whole()
    ensures Turns(Turns(p, a), b) == Turns(p, a + b)
  {
    if b > 0 { TurnsAdd(p, a, b - 1); }
  }

  /** Four turns are none. */
  lemma FourTurns(p: Picture)
    requires p.Whole()
    ensures Turned(Turned(Turned(Turned(p)))) == p
  {
    var q := Turned(p);
    var r := Turned(q);
    var s := Turned(r);
    var t := Turned(s);
    hide Turned, At, Start;
    forall x: nat, y: nat | x < p.width && y < p.height ensures At(p, x, y) == At(t, x, y) {
      TurnedAt(p, x, y);
      TurnedAt(q, y, p.width - 1 - x);
      TurnedAt(r, p.width - 1 - x, p.height - 1 - y);
      TurnedAt(s, p.height - 1 - y, x);
    }
    SamePicture(p, t);
  }

  lemma TurnsFour(p: Picture)
    requires p.Whole()
    ensures Turns(p, 4) == p
  {
    assert Turns(p, 1) == Turned(p) && Turns(p, 2) == Turned(Turns(p, 1)) && Turns(p, 3) == Turned(Turns(p, 2));
    FourTurns(p);
  }

  /** Only the number of turns modulo four matters. */
  lemma {:induction false} TurnsModFour(p: Picture, n: nat)
    requires p.Whole()
    ensures Turns(p, n) == Turns(p, n % 4)
    decreases n
  {
    hide Turned, Turns, Start;
    if n >= 4 {
      TurnsModFour(p, n - 4);
      TurnsAdd(p, n - 4, 4);
      TurnsFour(Turns(p, n - 4));
    }
  }

  /** a turns and then b turns are a + b modulo four turns. */
  lemma TurnsCompose(p: Picture, a: nat, b: nat)
    requires p.Whole()
    ensures Turns(Turns(p, a), b) == Turns(p, (a + b) % 4)
  {
    hide Turned, Turns, Start;
    TurnsAdd(p, a, b);
    TurnsModFour(p, a + b);
  }

  class Image {
    const width: nat
    const height: nat
    const pixels: array<Pixel>

    /** init_image: the pixels are not set yet. */
    constructor (width: nat, height: nat)
      ensures this.width == width && this.height == height && pixels.Length == Start(width, height) && fresh(pixels)
    {
      this.width, this.height := width, height;
      pixels := new Pixel[Start(width, height)](_ => Pixel(0, 0, 0));
    }

    ghost function Shown(): Picture
      reads pixels
    {
      Picture(width, height, pixels[..])
    }
  }
}
