/**
  Sizes of the list allocator: block headers, pages and regions, with size_t
  arithmetic in 64 bits where a request can make it wrap.
 */
module MemSizes {

  /** offsetof(struct block_header, contents) */
  const HEADER: nat := 17

  /** What a struct assignment to a header may write: its padded size. */
  const HEADER_WRITE: nat := 24
  const BLOCK_MIN_CAPACITY: nat := 24
  const PAGE: nat := 4096
  const REGION_MIN_SIZE: nat := 8192
  const HEAP_START: nat := 0x0404_0000

  /** 2^64, and the end of the addresses that the kernel hands out. */
  const WORD: nat := 0x1_0000_0000_0000_0000
  const ADDRESS_LIMIT: nat := 0x8000_0000_0000

  function SizeMax(x: nat, y: nat): nat {
    if x >= y then x else y
  }

  function PagesCount(mem: nat): nat {
    mem / 4096 + if mem % 4096 > 0 then 1 else 0
  }

  function RoundPages(mem: nat): nat {
    (4096 * PagesCount(mem)) % WORD
  }

  /** The size of the region mapped for a block of the given capacity. */
  function RegionSize(query: nat): nat {
    SizeMax(RoundPages((query + HEADER) % WORD), REGION_MIN_SIZE)
  }

  /** Neither adding the header nor rounding to pages leaves size_t. */
  predicate RegionFits(query: nat) {
    query + HEADER <= WORD - PAGE
  }

  /** A region is whole pages, and has room for the block it was mapped for exactly when
      its size does not wrap; no fewer pages would do then. */
  lemma RegionHoldsQuery(query: nat)
    requires query < WORD
    ensures RegionSize(query) % 4096 == 0 && RegionSize(query) >= REGION_MIN_SIZE
    ensures RegionSize(query) - HEADER >= query <==> RegionFits(query)
    ensures !RegionFits(query) ==> RegionSize(query) == REGION_MIN_SIZE
    ensures RegionFits(query) ==>
        forall k: nat | 4096 * k >= query + HEADER && 4096 * k >= REGION_MIN_SIZE :: RegionSize(query) <= 4096 * k
  {
    var s := (query + HEADER) % WORD;
    var r := 4096 * PagesCount(s);
    assert s <= r < s + 4096;
    if s > WORD - PAGE {
      assert PagesCount(s) == 0x10_0000_0000_0000;
    } else {
      assert r <= WORD - PAGE;
    }
  }
}
