/**
  Size arithmetic of the glibc allocator: request padding, fastbin indexes and
  the mapping from chunk sizes to bins, for a 64-bit machine (SIZE_SZ == 8,
  MALLOC_ALIGNMENT == 16).  Shifts are written as divisions.
 */
module MallocSizes {

  const SIZE_SZ: nat := 8
  const MALLOC_ALIGNMENT: nat := 16
  const CHUNK_HDR_SZ: nat := 16
  const MINSIZE: nat := 32
  const NBINS: nat := 128
  const NSMALLBINS: nat := 64
  const MIN_LARGE_SIZE: nat := 1024
  const MAX_FAST_SIZE: nat := 160
  const NFASTBINS: nat := 10
  const PTRDIFF_MAX: nat := 0x7FFF_FFFF_FFFF_FFFF
  const FASTBIN_CONSOLIDATION_THRESHOLD: nat := 65536

  /** 2^64, SIZE_MAX / 2 + 1, and the end of the addresses that the kernel hands out. */
  const SIZE_MODULUS: nat := 0x1_0000_0000_0000_0000
  const LARGEST_POWER: nat := 0x8000_0000_0000_0000
  const ADDRESS_LIMIT: nat := 0x8000_0000_0000

  /** Pads a request with one size word and rounds it to the alignment. */
  function Request2Size(req: nat): nat {
    if req + SIZE_SZ + (MALLOC_ALIGNMENT - 1) < MINSIZE then MINSIZE
    else (req + SIZE_SZ + (MALLOC_ALIGNMENT - 1)) / 16 * 16
  }

  /** A size that a chunk may have. */
  predicate ChunkSized(sz: int) {
    sz >= MINSIZE && sz % 16 == 0
  }

  /** The padded size is the least chunk size that leaves room for the request
      beside one size word. */
  lemma RequestPaddingIsLeast(req: nat, sz: nat)
    ensures ChunkSized(Request2Size(req)) && Request2Size(req) >= req + SIZE_SZ
    ensures ChunkSized(sz) && sz >= req + SIZE_SZ ==> Request2Size(req) <= sz
  {
  }

  function FastbinIndex(sz: nat): int {
    sz / 16 - 2
  }

  predicate InSmallbinRange(sz: int) {
    sz < MIN_LARGE_SIZE
  }

  function SmallbinIndex(sz: nat): nat {
    sz / 16
  }

  function LargebinIndex(sz: nat): nat {
    if sz / 64 <= 48 then 48 + sz / 64
    else if sz / 512 <= 20 then 91 + sz / 512
    else if sz / 4096 <= 10 then 110 + sz / 4096
    else if sz / 32768 <= 4 then 119 + sz / 32768
    else if sz / 262144 <= 2 then 124 + sz / 262144
    else 126
  }

  function BinIndex(sz: nat): nat {
    if InSmallbinRange(sz) then SmallbinIndex(sz) else LargebinIndex(sz)
  }

  /** Larger sizes never map to an earlier bin, across every seam between
      spacings; so a later bin holds strictly larger chunks only. */
  lemma BinIndexMonotone(a: nat, b: nat)
    requires a <= b
    ensures BinIndex(a) <= BinIndex(b)
  {
    if !InSmallbinRange(a) {
      LargebinIndexMonotone(a, b);
    } else if !InSmallbinRange(b) {
      LargebinIndexMonotone(MIN_LARGE_SIZE, b);
    }
  }

  lemma LargebinIndexMonotone(a: nat, b: nat)
    requires MIN_LARGE_SIZE <= a <= b
    ensures LargebinIndex(a) <= LargebinIndex(b)
  {
    assert a / 64 <= b / 64 && a / 512 <= b / 512 && a / 4096 <= b / 4096;
    assert a / 32768 <= b / 32768 && a / 262144 <= b / 262144;
  }

  /** Chunk sizes use bins 2 to 126; a bin below 64 holds one size only, a bin
      from 64 on holds large chunks only. */
  lemma BinIndexRange(a: nat)
    requires ChunkSized(a)
    ensures 2 <= BinIndex(a) <= 126
    ensures BinIndex(a) < NSMALLBINS <==> InSmallbinRange(a)
    ensures BinIndex(a) < NSMALLBINS ==> a == 16 * BinIndex(a)
  {
    if !InSmallbinRange(a) {
      LargebinIndexMonotone(MIN_LARGE_SIZE, a);
    }
  }

  /** The least size of a large bin: the bins are 64 bytes apart, then 512, 4096, 32768 and
      262144, and where one spacing takes over from another a bin may be shorter or longer. */
  function LargebinStart(i: nat): nat
    requires NSMALLBINS <= i <= 126
  {
    if i <= 96 then 64 * (i - 48)
    else if i == 97 then 3136
    else if i <= 111 then 512 * (i - 91)
    else if i == 112 then 10752
    else if i <= 120 then 4096 * (i - 110)
    else if i <= 123 then 32768 * (i - 119)
    else if i == 124 then 163840
    else 262144 * (i - 124)
  }

  /** A large bin holds the sizes from its start to that of the next bin, the last one all
      that are left. */
  lemma LargebinHolds(sz: nat, i: nat)
    requires sz >= MIN_LARGE_SIZE && NSMALLBINS <= i <= 126
    ensures LargebinIndex(sz) == i <==> LargebinStart(i) <= sz && (i < 126 ==> sz < LargebinStart(i + 1))
  {
    if sz / 64 <= 48 {
    } else if sz / 512 <= 20 {
    } else if sz / 4096 <= 10 {
    } else if sz / 32768 <= 4 {
    } else {
    }
  }

  /** Each fastbin, and each small bin, holds chunks of one size. */
  lemma ExactBins(sz: nat, i: nat)
    requires ChunkSized(sz)
    ensures FastbinIndex(sz) == i <==> sz == 16 * (i + 2)
    ensures i < NSMALLBINS ==> (BinIndex(sz) == i <==> sz == 16 * i)
  {
    BinIndexRange(sz);
  }

  predicate PowerOfTwo(n: nat) {
    n == 1 || (n > 1 && n % 2 == 0 && PowerOfTwo(n / 2))
  }

  /** (m + alignment - 1) & -alignment: the next multiple of a power of two. */
  function AlignUp(m: nat, alignment: nat): nat
    requires alignment > 0
  {
    (m + alignment - 1) / alignment * alignment
  }

  lemma LargePowerOfTwo(n: nat)
    requires PowerOfTwo(n) && n >= 32
    ensures n % 16 == 0
  {
    var h := n / 2;
    var q := h / 2;
    var e := q / 2;
    assert n == 2 * h && PowerOfTwo(h);
    assert h == 2 * q && PowerOfTwo(q);
    assert q == 2 * e && PowerOfTwo(e);
    assert e == 2 * (e / 2);
  }

  /** Two powers of two are at least a factor of two apart. */
  lemma {:induction false} PowersApart(a: nat, b: nat)
    requires PowerOfTwo(a) && PowerOfTwo(b) && a < b
    ensures 2 * a <= b
  {
    if a > 1 {
      assert a == 2 * (a / 2) && b == 2 * (b / 2);
      PowersApart(a / 2, b / 2);
    }
  }

  lemma PowerDoubled(a: nat)
    requires PowerOfTwo(a)
    ensures PowerOfTwo(2 * a)
  {
    assert (2 * a) / 2 == a;
  }

  lemma PowerByteShifted(a: nat)
    requires PowerOfTwo(a)
    ensures PowerOfTwo(256 * a)
  {
    hide PowerOfTwo;
    PowerDoubled(a);
    PowerDoubled(2 * a);
    PowerDoubled(4 * a);
    PowerDoubled(8 * a);
    PowerDoubled(16 * a);
    PowerDoubled(32 * a);
    PowerDoubled(64 * a);
    PowerDoubled(128 * a);
  }

  lemma LargestPower()
    ensures PowerOfTwo(LARGEST_POWER)
  {
    assert PowerOfTwo(128) by {
      PowerDoubled(1);
      PowerDoubled(2);
      PowerDoubled(4);
      PowerDoubled(8);
      PowerDoubled(16);
      PowerDoubled(32);
      PowerDoubled(64);
    }
    PowerByteShifted(0x80);
    PowerByteShifted(0x8000);
    PowerByteShifted(0x80_0000);
    PowerByteShifted(0x8000_0000);
    PowerByteShifted(0x80_0000_0000);
    PowerByteShifted(0x8000_0000_0000);
    PowerByteShifted(0x80_0000_0000_0000);
  }

  lemma MinimalPower()
    ensures PowerOfTwo(MINSIZE)
  {
    PowerDoubled(1);
    PowerDoubled(2);
    PowerDoubled(4);
    PowerDoubled(8);
    PowerDoubled(16);
  }

  lemma SmallPowers(a: nat)
    requires PowerOfTwo(a) && a <= MALLOC_ALIGNMENT
    ensures a in {1, 2, 4, 8, 16}
  {
    if a > 1 { SmallPowers(a / 2); }
  }

  lemma SmallMultiples(r: int, a: nat)
    requires r % 16 == 0 && a in {1, 2, 4, 8, 16}
    ensures a > 0 && r % a == 0
  {
    var q := r / 16;
    if {
      case a == 1 => MultipleOf(16 * q, 1);
      case a == 2 => MultipleOf(8 * q, 2);
      case a == 4 => MultipleOf(4 * q, 4);
      case a == 8 => MultipleOf(2 * q, 8);
      case a == 16 => MultipleOf(q, 16);
    }
  }

  lemma FromSixteen(a: nat)
    requires PowerOfTwo(a) && a > MALLOC_ALIGNMENT
    ensures a >= MINSIZE
  {
    PowerDoubled(1);
    PowerDoubled(2);
    PowerDoubled(4);
    PowerDoubled(8);
    PowersApart(16, a);
  }

  /** A power of two that a size_t can hold is at most 2^63, and at most half of that if it
      is less. */
  lemma PowersInWord(a: nat)
    requires PowerOfTwo(a) && a < SIZE_MODULUS
    ensures a <= LARGEST_POWER && (a < LARGEST_POWER ==> 2 * a <= LARGEST_POWER)
  {
    LargestPower();
    if a < LARGEST_POWER { PowersApart(a, LARGEST_POWER); }
    if a > LARGEST_POWER { PowersApart(LARGEST_POWER, a); }
  }

  /** What memalign asks malloc for: room for any alignment point, in size_t. */
  function PaddedRequest(alignment: nat, bytes: nat): nat {
    (Request2Size(bytes) + alignment + MINSIZE) % SIZE_MODULUS
  }

  /** That size does not fit size_t. */
  predicate PadWraps(alignment: nat, bytes: nat) {
    Request2Size(bytes) + alignment + MINSIZE >= SIZE_MODULUS
  }

  /** For which requests it does not: the largest alignment there is, with the 55 largest
      sizes that are admitted.  What is left is at most 48 bytes. */
  lemma PadWrapsExactly(alignment: nat, bytes: nat)
    requires PowerOfTwo(alignment) && alignment < SIZE_MODULUS && bytes <= PTRDIFF_MAX
    ensures PadWraps(alignment, bytes) <==> alignment == LARGEST_POWER && bytes >= LARGEST_POWER - 55
    ensures PadWraps(alignment, bytes) ==> PaddedRequest(alignment, bytes) <= 48
    ensures !PadWraps(alignment, bytes) ==> PaddedRequest(alignment, bytes) == Request2Size(bytes) + alignment + MINSIZE
  {
    hide PowerOfTwo, Request2Size;
    PowersInWord(alignment);
    PaddedNear(bytes);
  }

  lemma PaddedNear(bytes: nat)
    requires bytes <= PTRDIFF_MAX
    ensures Request2Size(bytes) >= LARGEST_POWER - MINSIZE <==> bytes >= LARGEST_POWER - 55
    ensures Request2Size(bytes) <= LARGEST_POWER + 16
  {
  }

  /** The largest such request. */
  lemma LargestRequestWraps()
    ensures PowerOfTwo(LARGEST_POWER) && PadWraps(LARGEST_POWER, PTRDIFF_MAX)
    ensures Request2Size(PTRDIFF_MAX) + LARGEST_POWER + MINSIZE == SIZE_MODULUS + 48
    ensures PaddedRequest(LARGEST_POWER, PTRDIFF_MAX) == 48
  {
    LargestPower();
  }

  /** The only multiple of 2^63 that follows an address below the limit is 2^63 itself, far
      behind every chunk. */
  lemma WrappedSpot(p: nat)
    requires 0 < p < ADDRESS_LIMIT
    ensures (p + CHUNK_HDR_SZ) % LARGEST_POWER != 0 && AlignedSpot(p, LARGEST_POWER) == LARGEST_POWER - CHUNK_HDR_SZ
  {
  }

  lemma MultipleOf(q: int, d: nat)
    requires d > 0
    ensures (q * d) % d == 0
  {
    var k, r := (q * d) / d, (q * d) % d;
    assert (q - k) * d == r;
    MultipleGap(q - k, d);
  }

  lemma MultipleGap(n: int, d: int)
    requires d > 0
    ensures n >= 1 ==> n * d >= d
    ensures n <= -1 ==> n * d <= -d
  {
  }

  /** The aligned address is the first multiple at or after m, and stays chunk-aligned. */
  lemma AlignUpIsNext(m: nat, alignment: nat)
    requires alignment > 0
    ensures m <= AlignUp(m, alignment) < m + alignment && AlignUp(m, alignment) % alignment == 0
    ensures m % alignment != 0 ==> m < AlignUp(m, alignment)
    ensures m % 16 == 0 && alignment % 16 == 0 ==> AlignUp(m, alignment) % 16 == 0
  {
    var q := (m + alignment - 1) / alignment;
    MultipleOf(q, alignment);
    if alignment % 16 == 0 {
      var c := alignment / 16;
      assert q * alignment == (q * c) * 16 by { assert alignment == c * 16; }
      MultipleOf(q * c, 16);
    }
  }

  /** Where memalign cuts a chunk at p whose memory m = p + 16 is not aligned: the next
      aligned memory address that leaves a leader of at least a minimal chunk. */
  function AlignedSpot(p: nat, alignment: nat): int
    requires alignment > 0
  {
    var brk := AlignUp(p + CHUNK_HDR_SZ, alignment) - CHUNK_HDR_SZ;
    if brk - p < MINSIZE then brk + alignment else brk
  }

  /** The memory of a chunk at p is aligned. */
  predicate MemoryAligned(p: int, alignment: nat)
    requires alignment > 0
  {
    (p + CHUNK_HDR_SZ) % alignment == 0
  }

  /** The chunk in which memalign serves from a chunk at q: q itself if its memory is aligned,
      and else the first with aligned memory that leaves a leader of at least MINSIZE. */
  predicate FirstAligned(q: int, p: int, alignment: nat)
    requires alignment > 0
  {
    && MemoryAligned(p, alignment)
    && if MemoryAligned(q, alignment) then p == q
       else q + MINSIZE <= p && forall s | q + MINSIZE <= s < p :: !MemoryAligned(s, alignment)
  }

  lemma AlreadyAligned(q: int, alignment: nat)
    requires alignment > 0 && (q + CHUNK_HDR_SZ) % alignment == 0
    ensures FirstAligned(q, q, alignment)
  {
  }

  lemma FirstIsAligned(q: int, p: int, alignment: nat)
    requires alignment > 0 && FirstAligned(q, p, alignment)
    ensures p >= q && (p + CHUNK_HDR_SZ) % alignment == 0
  {
  }

  /** No multiple lies strictly between two neighbouring ones. */
  lemma NoneBetween(r: int, x: int, d: int)
    requires d > 0 && r % d == 0 && r < x < r + d
    ensures x % d != 0
  {
    var a, b, c := r / d, x / d, x % d;
    assert r == a * d && x == b * d + c;
    MultiplesApart(b, a, d);
  }

  lemma MultiplesApart(b: int, a: int, d: int)
    requires d > 0
    ensures b * d <= a * d || b * d >= a * d + d
  {
    assert b * d - a * d == (b - a) * d;
    MultipleGap(b - a, d);
  }

  lemma AlignedSpotIsFirst(q: nat, alignment: nat)
    requires PowerOfTwo(alignment) && alignment >= MINSIZE && q % 16 == 0 && (q + CHUNK_HDR_SZ) % alignment != 0
    ensures FirstAligned(q, AlignedSpot(q, alignment), alignment)
  {
    hide PowerOfTwo, AlignUp;
    AlignedSpotFits(q, alignment);
    var p, r := AlignedSpot(q, alignment), AlignUp(q + CHUNK_HDR_SZ, alignment);
    AlignUpIsNext(q + CHUNK_HDR_SZ, alignment);
    PreviousMultiple(r, alignment);
    forall s | q + MINSIZE <= s < p ensures !MemoryAligned(s, alignment) {
      if s + CHUNK_HDR_SZ < r {
        NoneBetween(r - alignment, s + CHUNK_HDR_SZ, alignment);
      } else {
        NoneBetween(r, s + CHUNK_HDR_SZ, alignment);
      }
    }
  }

  lemma PreviousMultiple(r: int, d: nat)
    requires d > 0 && r % d == 0
    ensures (r - d) % d == 0
  {
    var q := r / d;
    assert r - d == (q - 1) * d;
    MultipleOf(q - 1, d);
  }

  lemma AlignedSpotFits(p: nat, alignment: nat)
    requires PowerOfTwo(alignment) && alignment >= MINSIZE && p % 16 == 0 && (p + CHUNK_HDR_SZ) % alignment != 0
    ensures var lead := AlignedSpot(p, alignment) - p;
            MINSIZE <= lead <= alignment + CHUNK_HDR_SZ && lead % 16 == 0 &&
                (AlignedSpot(p, alignment) + CHUNK_HDR_SZ) % alignment == 0
  {
    hide PowerOfTwo, AlignUp;
    LargePowerOfTwo(alignment);
    NextSpot(p, alignment);
    SpotAligned(p, alignment);
    LeadFits(p, alignment, AlignUp(p + CHUNK_HDR_SZ, alignment));
  }

  lemma NextSpot(p: nat, alignment: nat)
    requires alignment > 0 && alignment % 16 == 0 && p % 16 == 0 && (p + CHUNK_HDR_SZ) % alignment != 0
    ensures var r := AlignUp(p + CHUNK_HDR_SZ, alignment);
            p + CHUNK_HDR_SZ < r < p + CHUNK_HDR_SZ + alignment && r % 16 == 0
  {
    hide AlignUp;
    SixteenMore(p);
    AlignUpIsNext(p + CHUNK_HDR_SZ, alignment);
  }

  lemma SixteenMore(p: nat)
    requires p % 16 == 0
    ensures (p + CHUNK_HDR_SZ) % 16 == 0
  {
  }

  lemma SpotAligned(p: nat, alignment: nat)
    requires alignment > 0
    ensures var r := AlignUp(p + CHUNK_HDR_SZ, alignment); r % alignment == 0 && (r + alignment) % alignment == 0
  {
    hide AlignUp;
    AlignUpIsNext(p + CHUNK_HDR_SZ, alignment);
    NextMultiple(AlignUp(p + CHUNK_HDR_SZ, alignment), alignment);
  }

  lemma LeadFits(p: nat, alignment: nat, r: nat)
    requires p % 16 == 0 && r % 16 == 0 && alignment % 16 == 0 && alignment >= MINSIZE &&
        p + CHUNK_HDR_SZ < r < p + CHUNK_HDR_SZ + alignment
    ensures var brk := if r - CHUNK_HDR_SZ - p < MINSIZE then r - CHUNK_HDR_SZ + alignment else r - CHUNK_HDR_SZ;
            MINSIZE <= brk - p <= alignment + CHUNK_HDR_SZ && (brk - p) % 16 == 0
  {
    SixteensApart(r, p + CHUNK_HDR_SZ);
  }

  lemma SixteensApart(a: nat, b: nat)
    requires a % 16 == 0 && b % 16 == 0 && a > b
    ensures a >= b + 16
  {
  }

  lemma NextMultiple(r: nat, d: nat)
    requires d > 0 && r % d == 0
    ensures (r + d) % d == 0
  {
    var q := r / d;
    assert r + d == (q + 1) * d;
    MultipleOf(q + 1, d);
  }
}
