/**
  One 32-bit word of the bin bitmap, as a natural below 2^32.  The scan only ever
  masks a word with a one-bit operand; those masks are written arithmetically and
  shifts drop what leaves the word.
 */
module BinmapWord {

  const WORD: nat := 0x1_0000_0000

  /** The word with only bit k set: what idx2bit computes. */
  function Bit(k: nat): nat {
    if k == 0 then 1 else 2 * Bit(k - 1)
  }

  predicate TestBit(w: nat, k: nat) {
    if k == 0 then w % 2 == 1 else TestBit(w / 2, k - 1)
  }

  /** bit << 1 in 32 bits */
  function ShiftLeft(bit: nat): nat {
    (bit * 2) % WORD
  }

  /** w |= Bit(k) */
  function SetBit(w: nat, k: nat): nat {
    if TestBit(w, k) then w else w + Bit(k)
  }

  /** w &= ~Bit(k) */
  function ClearBit(w: nat, k: nat): (r: int) {
    if TestBit(w, k) then w - Bit(k) else w
  }

  lemma BitTable()
    ensures Bit(30) == 0x4000_0000 && Bit(31) == 0x8000_0000 && Bit(32) == WORD
  {
    assert Bit(8) == 0x100;
    assert Bit(16) == 0x1_0000;
    assert Bit(24) == 0x100_0000;
  }

  lemma {:induction false} BitMonotone(j: nat, k: nat)
    requires j <= k
    ensures 0 < Bit(j) <= Bit(k)
  {
    if j < k { BitMonotone(j, k - 1); }
    else if j > 0 { BitMonotone(j - 1, j - 1); }
  }

  /** Shifting left walks the bits in order and overflows to zero after the last. */
  lemma ShiftWalksBits(k: nat)
    requires k < 32
    ensures 0 < Bit(k)
    ensures ShiftLeft(Bit(k)) == if k < 31 then Bit(k + 1) else 0
  {
    BitTable();
    BitMonotone(k, if k < 31 then 30 else 31);
  }

  lemma BitPositive(k: nat)
    ensures Bit(k) > 0
  {
    BitMonotone(k, k);
  }

  /** A word is at least Bit(k) exactly when one of its bits from k on is set;
      this is what the scan's test "bit > map" decides. */
  lemma BitsFrom(w: nat, k: nat)
    requires k < 32 && w < WORD
    ensures Bit(k) > w ==> forall j | k <= j < 32 :: !TestBit(w, j)
    ensures Bit(k) <= w ==> exists j :: k <= j < 32 && TestBit(w, j)
  {
    if Bit(k) > w {
      forall j | k <= j < 32 ensures !TestBit(w, j) { SmallWord(w, k, j); }
    } else {
      BitTable();
      BitMonotone(k, k);
      var j := TopBit(w, 32);
      if j < k { BitMonotone(j + 1, k); }
    }
  }

  lemma {:induction false} SmallWord(w: nat, k: nat, j: nat)
    requires w < Bit(k) && k <= j
    ensures !TestBit(w, j)
  {
    if k > 0 { SmallWord(w / 2, k - 1, j - 1); }
    else if j > 0 { SmallWord(0, 0, j - 1); }
  }

  /** The highest set bit of a non-zero word. */
  lemma {:induction false} TopBit(w: nat, n: nat) returns (j: nat)
    requires 0 < w < Bit(n)
    ensures j < n && TestBit(w, j) && w < Bit(j + 1)
  {
    if w == 1 {
      if n == 0 { assert false; }
      j := 0;
    } else {
      j := TopBit(w / 2, n - 1);
      j := j + 1;
    }
  }

  /** Setting or clearing bit k changes bit k and no other, within the word. */
  lemma SetBitOnly(w: nat, k: nat)
    requires k < 32 && w < WORD
    ensures SetBit(w, k) < WORD
    ensures forall j: nat :: TestBit(SetBit(w, k), j) <==> TestBit(w, j) || j == k
  {
    BitTable();
    if !TestBit(w, k) { AddBit(w, k, 32); }
  }

  lemma ClearBitOnly(w: nat, k: nat)
    requires k < 32 && w < WORD
    ensures 0 <= ClearBit(w, k) <= w
    ensures forall j: nat :: TestBit(ClearBit(w, k), j) <==> TestBit(w, j) && j != k
  {
    if TestBit(w, k) {
      DropBit(w, k);
      var v: nat := w - Bit(k);
      BitTable();
      AddBit(v, k, 32);
    }
  }

  lemma TestHalf(w: nat, j: nat)
    ensures TestBit(w, j) <==> if j == 0 then w % 2 == 1 else TestBit(w / 2, j - 1)
  {
  }

  lemma {:induction false} AddBit(w: nat, k: nat, n: nat)
    requires k < n && w < Bit(n)
    requires !TestBit(w, k)
    ensures w + Bit(k) < Bit(n)
    ensures forall j: nat :: TestBit(w + Bit(k), j) <==> TestBit(w, j) || j == k
  {
    if k == 0 {
      assert (w + 1) / 2 == w / 2;
    } else {
      AddBit(w / 2, k - 1, n - 1);
      assert (w + Bit(k)) / 2 == w / 2 + Bit(k - 1);
      assert (w + Bit(k)) % 2 == w % 2;
      forall j: nat
          ensures TestBit(w + Bit(k), j) <==> TestBit(w, j) || j == k { TestHalf(w + Bit(k), j); TestHalf(w, j); }
    }
  }

  lemma {:induction false} DropBit(w: nat, k: nat)
    requires TestBit(w, k)
    ensures w >= Bit(k) && !TestBit(w - Bit(k), k)
  {
    if k > 0 {
      DropBit(w / 2, k - 1);
      assert (w - Bit(k)) / 2 == w / 2 - Bit(k - 1);
    }
  }
}
