/**
  The list allocator itself: the operations that overwrite headers in memory, in the
  order and with the branches of the source.
 */
module ListHeap {
  import opened MemSizes
  import opened BlockChain
  import opened MemorySpans
  import opened HeapBlocks
  import opened HeapGrowth
  import opened HeapOutcomes

  datatype BlockSearch = FoundGood | ReachedEnd | Corrupted

  class Heap {
    var hdr: Headers
    var data: Bytes
    var regions: seq<Span>
    ghost var chain: Chain
    ghost var live: map<int, int>

    ghost predicate Valid()
      reads this
    {
      Sound(hdr, chain, regions, live)
    }

    /** Nothing mapped yet. */
    constructor ()
      ensures hdr == map[] && regions == [] && chain == [] && live == map[]
    {
      hdr, data, regions, chain, live := map[], x => 0, [], [], map[];
    }

    /** block_init: one struct assignment; it may also write the padding after the header. */
    method BlockInit(a: int, size: int, next: int)
      modifies this`hdr, this`data
      ensures hdr == old(hdr)[a := Header(next, size - HEADER, true)]
      ensures forall x | !(a <= x < a + HEADER_WRITE) :: data(x) == old(data)(x)
    {
      hdr := hdr[a := Header(next, size - HEADER, true)];
      var before: Bytes, junk: Bytes := data, *;
      data := x => if a <= x < a + HEADER_WRITE then junk(x) else before(x);
    }

    /** Stores the is_free byte of a header. */
    method SetFree(a: int, free: bool)
      requires a in hdr
      modifies this`hdr, this`data
      ensures hdr == old(hdr)[a := old(hdr)[a].(free := free)]
      ensures forall x | x != a + HEADER - 1 :: data(x) == old(data)(x)
    {
      hdr := hdr[a := hdr[a].(free := free)];
      var before: Bytes := data;
      data := x => if x == a + HEADER - 1 then (if free then 1 else 0) else before(x);
    }

    /** Merges a block with its successor if both are free and adjacent. */
    method TryMergeWithNext(block: int, ghost i: nat) returns (merged: bool)
      requires Valid() && i < |chain| && chain[i].addr == block
      modifies this`hdr, this`data, this`chain
      ensures Valid() && Untouched(Used(chain), old(data), data) && Used(chain) == Used(old(chain))
      ensures merged <==> i + 1 < |old(chain)| && Mergeable(old(chain)[i], old(chain)[i + 1])
      ensures chain == if merged then MergeAt(old(chain), i) else old(chain)
    {
      hide Blocks, Regions, Tiles, Owners;
      assert Stored(hdr, chain, i) && (i + 1 < |chain| ==> Stored(hdr, chain, i + 1));
      BlockFacts(chain, i);
      var b := hdr[block];
      if b.next == NULL {
        return false;
      }
      var n := hdr[b.next];
      if !(b.free && n.free && b.next == block + HEADER + b.cap) {
        return false;
      }
      MergeSound(hdr, chain, regions, live, i);
      var newSize := (b.cap + HEADER) + (n.cap + HEADER);
      BlockInit(block, newSize, n.next);
      chain := MergeAt(chain, i);
      BlockFacts(chain, i);
      WritesWithin(chain, i, old(data), data);
      merged := true;
    }


    /** The inner loop of the search: block k takes in every successor it can. */
    method AbsorbNext(cur: int, ghost k: nat)
      requires Valid() && k < |chain| && chain[k].addr == cur
      modifies this`hdr, this`data, this`chain
      ensures Valid() && Untouched(Used(chain), old(data), data) && Used(chain) == Used(old(chain))
      ensures chain == old(chain)[..k] + Absorb(old(chain)[k..]) && k < |chain| && chain[k].addr == cur
    {
      hide Sound, Used, Untouched, MergeAt, Absorb;
      UntouchedSelf(Used(chain), data);
      assert chain == chain[..k] + chain[k..];
      var more := true;
      while more
        invariant Valid() && Untouched(Used(chain), old(data), data) && Used(chain) == Used(old(chain))
        invariant k < |chain| && chain[k].addr == cur && chain[..k] == old(chain)[..k]
        invariant Absorb(chain[k..]) == Absorb(old(chain)[k..])
        invariant !more ==> k + 1 == |chain| || !Mergeable(chain[k], chain[k + 1])
        decreases |chain|, more
      {
        HeaderAt(hdr, chain, regions, live, k);
        if hdr[cur].next == NULL {
          more := false;
        } else {
          ghost var s, d := chain, data;
          more := TryMergeWithNext(cur, k);
          UntouchedTwice(Used(chain), old(data), d, data);
          if more { AbsorbOnce(s, k); }
        }
      }
      AbsorbDone(chain, k);
    }

    /** find_good_or_last: coalesces on the way and stops at the first block that fits. */
    method FindGoodOrLast(block: int, sz: int, ghost at: nat) returns (found: bool, res: int, ghost k: nat)
      requires Valid() && at < |chain| && chain[at].addr == block
      modifies this`hdr, this`data, this`chain
      ensures Valid() && Untouched(Used(chain), old(data), data) && Used(chain) == Used(old(chain))
      ensures chain == old(chain)[..at] + Search(old(chain)[at..], sz).0
      ensures at <= k < |chain| && chain[k].addr == res
      ensures found ==> Search(old(chain)[at..], sz).1 == FoundAt(k - at) && chain[k].free && chain[k].cap >= sz
      ensures !found ==> Search(old(chain)[at..], sz).1 == NotFound && k == |chain| - 1
    {
      hide Sound, Search, Used, Untouched, Absorb, Onward;
      UntouchedSelf(Used(chain), data);
      HeaderAt(hdr, chain, regions, live, at);
      SearchStart(chain, at, sz);
      var cur := block;
      k := at;
      res := NULL;
      while cur != NULL
        invariant Valid() && Untouched(Used(chain), old(data), data) && Used(chain) == Used(old(chain))
        invariant at <= k <= |chain| && (if cur == NULL then k == |chain| else k < |chain| && chain[k].addr == cur)
        invariant chain[..at] == old(chain)[..at]
        invariant Search(old(chain)[at..], sz) == Onward(chain[at..k], Search(chain[k..], sz))
        invariant k > at ==> chain[k - 1].addr == res
        invariant cur == NULL ==> k > at
        decreases |chain| - k
      {
        ghost var s, d := chain, data;
        AbsorbNext(cur, k);
        UntouchedTwice(Used(chain), old(data), d, data);
        SearchOn(s, chain, at, k, sz);
        HeaderAt(hdr, chain, regions, live, k);
        if hdr[cur].free && hdr[cur].cap >= sz {
          return true, cur, k;
        }
        res := cur;
        cur := hdr[cur].next;
        k := k + 1;
      }
      SearchOver(chain, at, sz);
      k := k - 1;
      found := false;
    }

    /** split_if_too_big */
    method SplitIfTooBig(block: int, query: int, ghost i: nat)
      requires Valid() && i < |chain| && chain[i].addr == block && chain[i].free &&
          BLOCK_MIN_CAPACITY <= query <= chain[i].cap
      modifies this`hdr, this`data, this`chain
      ensures Valid() && Untouched(Used(chain), old(data), data) && Used(chain) == Used(old(chain))
      ensures chain == if query + HEADER + BLOCK_MIN_CAPACITY <= old(chain)[i].cap then SplitAt(old(chain), i, query)
          else old(chain)
    {
      hide Sound, Used, Untouched, SplitAt;
      HeaderAt(hdr, chain, regions, live, i);
      UntouchedSelf(Used(chain), data);
      var b := hdr[block];
      if !(b.free && query + HEADER + BLOCK_MIN_CAPACITY <= b.cap) {
        return;
      }
      var cap1 := SizeMax(query, BLOCK_MIN_CAPACITY);
      var block2 := block + HEADER + cap1;
      SplitSound(hdr, chain, regions, live, i, query);
      BlockInit(block2, b.cap - cap1, b.next);
      SetFree(block2, b.free);
      BlockInit(block, cap1 + HEADER, block2);
      SetFree(block, b.free);
      WritesInFree(old(hdr), chain, regions, live, i, old(data), data);
      assert hdr == old(hdr)[block2 := Header(b.next, b.cap - cap1 - HEADER, true)][block :=
          Header(block2, cap1, true)];
      chain := SplitAt(chain, i, query);
    }

    /** Searches from a block on; a block found is cut to size and handed out. */
    method TryMemallocExisting(query: int, block: int, ghost at: nat)
          returns (result: BlockSearch, b: int, ghost k: nat)
      requires Valid() && (block != NULL ==> at < |chain| && chain[at].addr == block) && query >= BLOCK_MIN_CAPACITY
      modifies this`hdr, this`data, this`chain, this`live
      ensures Valid() && Untouched(Used(old(chain)), old(data), data)
      ensures result == Corrupted <==> block == NULL
      ensures result == Corrupted ==> b == NULL && chain == old(chain) && live == old(live)
      ensures result == ReachedEnd ==>
          Search(old(chain)[at..], query).1 == NotFound && chain == old(chain)[..at] + Search(old(chain)[at..], query).0
      ensures result == ReachedEnd ==>
          live == old(live) && Used(chain) == Used(old(chain)) && k == |chain| - 1 && chain[k].addr == b
      ensures result == FoundGood ==> HandedOut(old(chain), chain, old(live), live, at, query, b)
    {
      hide Sound, Search, Used, Untouched, SplitAt, Marked, HandedOut;
      UntouchedSelf(Used(chain), data);
      k := 0;
      if block == NULL {
        return Corrupted, NULL, 0;
      }
      var found;
      found, b, k := FindGoodOrLast(block, query, at);
      if !found {
        result := ReachedEnd;
        return;
      }
      ghost var s, d := chain, data;
      SplitIfTooBig(b, query, k);
      UntouchedTwice(Used(s), old(data), d, data);
      ghost var d1, h1 := data, hdr;
      SplitAtFacts(s, k, query);
      MarkSound(hdr, chain, regions, live, k, query);
      SetFree(b, false);
      WritesToHeader(h1, chain, regions, live, k, d1, data);
      UntouchedTwice(Used(s), old(data), d1, data);
      HandsOut(old(chain), s, chain, live, at, k, query);
      chain, live := Marked(chain, k, false), live[b + HEADER := query];
      result := FoundGood;
    }

    /** mmap of fresh anonymous pages, at the hint only or anywhere. */
    method MapPages(hint: int, length: int, noReplace: bool, kernel: Kernel) returns (a: int)
      requires hint % 4096 == 0
      modifies this`data, this`regions
      ensures a == if noReplace then (if kernel.fixed && Mappable(old(regions), Span(hint, hint + length)) then hint
          else MAP_FAILED)
                   else if Mappable(old(regions), Span(kernel.anywhere, kernel.anywhere + length)) then kernel.anywhere
                       else MAP_FAILED
      ensures a == MAP_FAILED ==> data == old(data) && regions == old(regions)
      ensures a != MAP_FAILED ==>
          regions == old(regions) + [Span(a, a + length)] && Mappable(old(regions), Span(a, a + length))
      ensures forall x | !(a != MAP_FAILED && a <= x < a + length) :: data(x) == old(data)(x)
    {
      a := if noReplace then hint else kernel.anywhere;
      if (noReplace && !kernel.fixed) || !Mappable(regions, Span(a, a + length)) {
        return MAP_FAILED;
      }
      var before: Bytes := data;
      regions, data := regions + [Span(a, a + length)], x => if a <= x < a + length then 0 else before(x);
    }

    /** alloc_region: right after the hint if that is free, otherwise anywhere. */
    method AllocRegion(hint: int, query: nat, kernel: Kernel) returns (a: int, size: int)
      requires hint % 4096 == 0 && query < WORD
      modifies this`hdr, this`data, this`regions
      ensures size == RegionSize(query) >= REGION_MIN_SIZE
      ensures var g := Granted(old(regions), hint, size, kernel); if g == MAP_FAILED then a == NULL else a == g != NULL
      ensures kernel.fixed && Mappable(old(regions), Span(hint, hint + size)) ==> a == hint
      ensures a == NULL ==> !Mappable(old(regions), Span(kernel.anywhere, kernel.anywhere + size))
      ensures a == NULL ==> hdr == old(hdr) && data == old(data) && regions == old(regions)
      ensures a != NULL ==> regions == old(regions) + [Span(a, a + size)] && Mappable(old(regions), Span(a, a + size))
      ensures a != NULL ==> hdr == old(hdr)[a := Header(NULL, size - HEADER, true)]
      ensures forall x | !(a != NULL && a <= x < a + size) :: data(x) == old(data)(x)
    {
      size := RegionSize(query);
      RegionHoldsQuery(query);
      hide RegionSize;
      a := MapPages(hint, size, true, kernel);
      if a == MAP_FAILED {
        a := MapPages(hint, size, false, kernel);
        if a == MAP_FAILED {
          a := NULL;
          return;
        }
      }
      BlockInit(a, size, NULL);
    }

    /** heap_init: the heap can be used exactly when the kernel granted the fixed address. */
    method HeapInit(initial: nat, kernel: Kernel) returns (a: int)
      requires hdr == map[] && regions == [] && chain == [] && live == map[] && initial < WORD
      modifies this`hdr, this`data, this`regions, this`chain
      ensures var granted := Granted([], HEAP_START, RegionSize(initial), kernel);
        if granted == MAP_FAILED then a == NULL else a == granted != NULL
      ensures a != NULL ==>
          regions == [Span(a, a + RegionSize(initial))] && chain == [Block(a, RegionSize(initial) - HEADER, true)]
      ensures Valid() <==> a == HEAP_START
    {
      hide RegionSize;
      var size;
      a, size := AllocRegion(HEAP_START, initial, kernel);
      if a != NULL {
        chain := [Block(a, size - HEADER, true)];
        FirstRegion(hdr, a, size);
      }
    }

    /** Stores the next pointer of a header. */
    method SetNext(a: int, next: int)
      requires a in hdr
      modifies this`hdr, this`data
      ensures hdr == old(hdr)[a := old(hdr)[a].(next := next)]
      ensures forall x | !(a <= x < a + HEADER) :: data(x) == old(data)(x)
    {
      hdr := hdr[a := hdr[a].(next := next)];
      var before: Bytes, written: Bytes := data, *;
      data := x => if a <= x < a + 8 then written(x) else before(x);
    }

    /** The last block of the list gets a new successor, the block of a new region. */
    method LinkRegion(last: int, a: int, size: int, ghost n: nat, ghost hdr0: Headers, ghost regions0: seq<Span>,
          ghost d0: Bytes)
      requires Sound(hdr0, chain, regions0, live) && n + 1 == |chain| && chain[n].addr == last
      requires Mappable(regions0, Span(a, a + size)) && size >= REGION_MIN_SIZE &&
          regions == regions0 + [Span(a, a + size)]
      requires hdr == hdr0[a := Header(NULL, size - HEADER, true)] && forall x | !(a <= x < a + size) ::
          data(x) == d0(x)
      modifies this`hdr, this`data, this`chain
      ensures Valid() && chain == Appended(old(chain), a, size) && Used(chain) == Used(old(chain)) &&
          Untouched(Used(chain), d0, data)
    {
      hide Sound, Used, Untouched, Mappable;
      AppendSound(hdr0, chain, regions0, live, Span(a, a + size));
      NewRegionUntouched(hdr0, chain, regions0, live, Span(a, a + size), d0, data);
      ghost var d := data;
      SetNext(last, a);
      chain := Appended(chain, a, size);
      WritesToHeader(hdr, chain, regions, live, n, d, data);
      UntouchedTwice(Used(chain), d0, d, data);
    }

    /** grow_heap: maps a region, appends its block to the list and merges it if it can. */
    method GrowHeap(last: int, query: nat, kernel: Kernel, ghost n: nat) returns (b: int, ghost k: nat)
      requires Valid() && n + 1 == |chain| && chain[n].addr == last && query < WORD
      modifies this`hdr, this`data, this`regions, this`chain
      ensures Valid() && Untouched(Used(chain), old(data), data) && Used(chain) == Used(old(chain))
      ensures var size, g := RegionSize(query), Granted(old(regions), old(chain)[n].End(), RegionSize(query), kernel);
              && (g == MAP_FAILED ==> b == NULL && chain == old(chain) && regions == old(regions))
              && (g != MAP_FAILED ==>
                  b != NULL && regions == old(regions) + [Span(g, g + size)] && chain == Grown(old(chain), g, size))
      ensures b != NULL ==>
          k + 1 == |chain| && chain[k].addr == b && chain[k].free && chain[k].cap >= RegionSize(query) - HEADER
    {
      hide Sound, Used, Untouched, Mergeable, MergeAt, RegionSize, Mappable, Granted, Appended, Grown;
      UntouchedSelf(Used(chain), data);
      k := 0;
      if last == NULL {
        HeaderAt(hdr, chain, regions, live, n);
        assert false;
      }
      HeaderAt(hdr, chain, regions, live, n);
      LastEndsOnPage(hdr, chain, regions, live);
      ghost var hdr0, regions0, d0 := hdr, regions, data;
      var a, size := AllocRegion(last + HEADER + hdr[last].cap, query, kernel);
      if a == NULL {
        return NULL, 0;
      }
      GrownLastAt(hdr0, chain, regions0, live, a, size);
      LinkRegion(last, a, size, n, hdr0, regions0, d0);
      ghost var d := data;
      var merged := TryMergeWithNext(last, n);
      UntouchedTwice(Used(chain), old(data), d, data);
      k := if merged then n else n + 1;
      b := last;
      HeaderAt(hdr, chain, regions, live, n);
      if !merged {
        b := hdr[last].next;
      }
    }

    /** memalloc: first fit, then one attempt to grow. */
    method Memalloc(query: nat, heapStart: int, kernel: Kernel) returns (b: int)
      requires Valid() && heapStart == HEAP_START && query < WORD
      modifies this`hdr, this`data, this`regions, this`chain, this`live
      ensures Valid() && Untouched(Used(old(chain)), old(data), data)
      ensures var q := SizeMax(query, BLOCK_MIN_CAPACITY);
              && Outcome(old(chain), old(regions), kernel, q, chain, regions, if b == NULL then NULL else b + HEADER)
              && (b == NULL <==> Search(old(chain), q).1 == NotFound && (regions == old(regions) || !RegionFits(q)))
              && (b == NULL ==> live == old(live) && Used(chain) == Used(old(chain)))
              && (b != NULL ==> b > 0 && OneMore(old(chain), chain, old(live), live, q, b + HEADER))
              && (Search(old(chain), q).1 == NotFound ==> CoalescedOf(old(chain), Search(old(chain), q).0))
    {
      hide Sound, Search, Used, Untouched, Taken, Grown, RegionSize, Granted, RegionFits, Outcome, OneMore, HandedOut,
          CoalescedOf;
      if heapStart == NULL {
        return NULL;
      }
      var q := SizeMax(query, BLOCK_MIN_CAPACITY);
      ghost var s := chain;
      assert s[0..] == s && s[..0] == [];
      FirstBlock(hdr, chain, regions, live);
      var result;
      ghost var k;
      result, b, k := TryMemallocExisting(q, heapStart, 0);
      if result == FoundGood {
        OutcomeFirst(s, chain, old(live), live, regions, kernel, q, b);
        ServedOneMore(old(hdr), s, old(regions), hdr, chain, regions, old(live), live, 0, q, b, s);
        return;
      }
      if result == ReachedEnd {
        ghost var u, d := chain, data;
        assert [] + Search(s, q).0 == Search(s, q).0;
        SearchCoalesces(old(hdr), s, hdr, u, regions, old(live), live, q);
        OutcomeNone(s, u, regions, kernel, q);
        var newBlock;
        newBlock, k := GrowHeap(b, q, kernel, k);
        UntouchedTwice(Used(s), old(data), d, data);
        if newBlock == NULL { return NULL; }
        GrowthSuffices(hdr, chain, regions, live, q);
        SearchLast(chain, q);
        ghost var v, h := chain, hdr;
        d := data;
        result, b, k := TryMemallocExisting(q, newBlock, k);
        UntouchedTwice(Used(s), old(data), d, data);
        if result == FoundGood {
          OutcomeGrown(s, u, v, chain, old(regions), kernel, q, b, old(live), live);
          ServedOneMore(h, v, regions, hdr, chain, regions, old(live), live, |v| - 1, q, b, s);
          return;
        }
      }
      b := NULL;
    }

    /** _malloc: a pointer to the contents of the block, or NULL. */
    method Malloc(query: nat, kernel: Kernel) returns (p: int)
      requires Valid() && query < WORD
      modifies this`hdr, this`data, this`regions, this`chain, this`live
      ensures Valid() && Untouched(Used(old(chain)), old(data), data)
      ensures var q := SizeMax(query, BLOCK_MIN_CAPACITY);
              && Outcome(old(chain), old(regions), kernel, q, chain, regions, p)
              && (p == NULL <==> Search(old(chain), q).1 == NotFound && (regions == old(regions) || !RegionFits(q)))
              && (p == NULL ==> live == old(live) && Used(chain) == Used(old(chain)))
              && (p != NULL ==> OneMore(old(chain), chain, old(live), live, q, p))
              && ServedAs(old(chain), old(regions), kernel, q, chain, regions, p)
    {
      hide Sound, Untouched, Outcome, OneMore, Search, RegionFits, CoalescedOf, ServedAs;
      var addr := Memalloc(query, HEAP_START, kernel);
      p := if addr != NULL then addr + HEADER else NULL;
      OutcomeServes(old(chain), old(regions), kernel, SizeMax(query, BLOCK_MIN_CAPACITY), chain, regions, p);
    }

    /** _free: the block is marked free, then merged with its successor if that is free too. */
    method Free(mem: int) returns (ghost i: nat)
      requires Valid() && (mem != NULL ==> mem in live)
      modifies this`hdr, this`data, this`chain, this`live
      ensures Valid() && Untouched(Used(chain), old(data), data)
      ensures mem == NULL ==> chain == old(chain) && live == old(live) && data == old(data)
      ensures mem != NULL ==>
        && i < |old(chain)| && Pointer(old(chain)[i]) == mem && !old(chain)[i].free
        && FreedInto(old(chain), i, chain)
        && chain == Released(old(chain), i) && live == old(live) - {mem} &&
            Used(chain) == Used(old(chain)) - {old(chain)[i]}
    {
      hide Sound, Used, Untouched, MergeAt, Mergeable;
      i := 0;
      UntouchedSelf(Used(chain), data);
      if mem == NULL {
        return;
      }
      i := OwnedBlock(hdr, chain, regions, live, mem);
      var header := mem - HEADER;
      MarkSound(hdr, chain, regions, live, i, 0);
      SetFree(header, true);
      WritesToHeader(old(hdr), chain, regions, live, i, old(data), data);
      ghost var d := data;
      UntouchedFewer(Used(chain), chain[i], old(data), d);
      chain, live := Marked(chain, i, true), live - {mem};
      var merged := TryMergeWithNext(header, i);
      UntouchedTwice(Used(chain), old(data), d, data);
      ReleasedInto(old(chain), i);
    }

    /** A block that was released serves any request for no more than its capacity, and
        the kernel is not asked. */
    method FreeThenMalloc(mem: int, query: nat, kernel: Kernel) returns (p: int, ghost cap: int)
      requires Valid() && mem in live && query < WORD
      modifies this`hdr, this`data, this`regions, this`chain, this`live
      ensures Valid() && exists b :: b in Used(old(chain)) && Pointer(b) == mem && b.cap == cap
      ensures query <= cap ==> p != NULL && regions == old(regions)
    {
      hide Sound, Untouched, Search, Released, OneMore;
      ghost var j := OwnedBlock(hdr, chain, regions, live, mem);
      cap := chain[j].cap;
      SoundBlocks(hdr, chain, regions, live);
      ghost var i := Free(mem);
      OwnerUnique(old(chain), i, j);
      BlockFacts(old(chain), i);
      p := Malloc(query, kernel);
      if query <= cap {
        ReleasedIsFound(old(chain), i, SizeMax(query, BLOCK_MIN_CAPACITY));
      }
    }

    /** A store by the program. */
    method Write(a: int, value: int)
      modifies this`data
      ensures data(a) == value && forall x | x != a :: data(x) == old(data)(x)
    {
      var before: Bytes := data;
      data := x => if x == a then value else before(x);
    }

    /** heap_term: the calls to munmap that it makes. */
    method HeapTerm() returns (unmapped: seq<Span>)
      requires Valid()
      ensures unmapped == Joined(regions) && UnmapsAll(unmapped, regions)
    {
      hide Sound, Gathered, UnmapsAll, Joined, Blocks, Regions, Tiles, Apart;
      SoundBlocks(hdr, chain, regions, live);
      GatherStart(chain);
      var block, start, size := HEAP_START, HEAP_START, 0;
      unmapped := [];
      ghost var k := 0;
      while block != NULL
        invariant 0 <= k <= |chain| && size >= 0 &&
            (if block == NULL then k == |chain| && size == 0 else k < |chain| && chain[k].addr == block)
        invariant k < |chain| ==> start + size == block
        invariant k < |chain| && size == 0 && unmapped != [] ==> unmapped[|unmapped| - 1].hi != block
        invariant Joined(Extents(chain)[..k]) == Gathered(unmapped, start, size)
        decreases |chain| - k
      {
        UnreadYet(chain, k, unmapped, start, size);
        HeaderAt(hdr, chain, regions, live, k);
        assert Apart(unmapped, Span(block, block + HEADER));  // the header is still mapped
        size := size + (hdr[block].cap + HEADER);
        var next := hdr[block].next;
        GatherStep(chain, k, unmapped, start, size - hdr[block].cap - HEADER);
        if next == NULL || next != block + HEADER + hdr[block].cap {
          unmapped := unmapped + [Span(start, start + size)];
          start, size := next, 0;
        }
        block, k := next, k + 1;
      }
      GatheredAll(chain, regions, unmapped, start);
    }
  }

  /** A kernel that refuses the fixed address and has room elsewhere: heap_init returns an
      address, and the heap cannot be used. */
  method InitElsewhere(initial: nat) returns (h: Heap, a: int)
    requires initial <= 0x1_0000_0000
    ensures fresh(h) && a == 0x1000_0000 && h.regions == [Span(a, a + RegionSize(initial))] && !h.Valid()
  {
    RegionHoldsQuery(initial);
    SmallRegion(initial);
    hide RegionSize;
    h := new Heap();
    a := h.HeapInit(initial, Kernel(false, 0x1000_0000));
  }

  lemma SmallRegion(initial: nat)
    requires initial <= 0x1_0000_0000
    ensures RegionSize(initial) <= 0x2_0000_0000
  {
  }
}
