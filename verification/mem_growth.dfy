/**
  Growing the heap: a region from the kernel becomes one more block at the end of the
  list, merged with the last one when they touch.
 */
module HeapGrowth {
  import opened MemSizes
  import opened BlockChain
  import opened MemorySpans
  import opened HeapBlocks

  /** What the kernel answers: whether it grants a request for a fixed address, and where
      it places a request that leaves the address open. */
  datatype Kernel = Kernel(fixed: bool, anywhere: int)

  /** The kernel may map these pages: they are aligned, below its limit, and not in use. */
  predicate Mappable(regions: seq<Span>, y: Span) {
    && 0 < y.lo < y.hi <= ADDRESS_LIMIT && y.lo % 4096 == 0 && y.hi % 4096 == 0
    && forall i | 0 <= i < |regions| :: regions[i].hi <= y.lo || y.hi <= regions[i].lo
  }

  /** The address of a new region: the hint if it is granted, otherwise anywhere. */
  function Granted(regions: seq<Span>, hint: int, size: int, kernel: Kernel): int {
    if kernel.fixed && Mappable(regions, Span(hint, hint + size)) then hint
    else if Mappable(regions, Span(kernel.anywhere, kernel.anywhere + size)) then kernel.anywhere
    else MAP_FAILED
  }

  function Appended(s: Chain, a: int, size: int): Chain {
    s + [Block(a, size - HEADER, true)]
  }

  /** The blocks after growing. */
  function Grown(s: Chain, a: int, size: int): Chain
    requires s != []
  {
    var t := Appended(s, a, size);
    if Mergeable(s[|s| - 1], t[|s|]) then MergeAt(t, |s| - 1) else t
  }

  lemma JoinedLast(s: seq<Span>)
    requires s != []
    ensures Joined(s) != [] && Joined(s)[|Joined(s)| - 1].hi == s[|s| - 1].hi
  {
    assert s == s[..|s| - 1] + [s[|s| - 1]];
    JoinSnoc(s[..|s| - 1], s[|s| - 1]);
  }

  /** The last block ends where the last region does, so the growth hint is aligned. */
  lemma LastEndsOnPage(hdr: Headers, s: Chain, regions: seq<Span>, live: map<int, int>)
    requires Sound(hdr, s, regions, live)
    ensures regions != [] && s[|s| - 1].End() == regions[|regions| - 1].hi && s[|s| - 1].End() % 4096 == 0
  {
    JoinedLast(Extents(s));
    JoinedLast(regions);
  }

  /** Every block lies below the end of the addresses. */
  lemma BlockBelowLimit(hdr: Headers, s: Chain, regions: seq<Span>, live: map<int, int>, i: nat)
    requires Sound(hdr, s, regions, live) && i < |s|
    ensures s[i].End() <= ADDRESS_LIMIT && 0 <= s[i].cap < ADDRESS_LIMIT
  {
    var e := Extents(s);
    PartInJoined(e, i);
    var k :| 0 <= k < |Joined(e)| && Joined(e)[k].lo <= e[i].lo && e[i].hi <= Joined(e)[k].hi;
    var a, b := JoinedEdges(regions, k);
  }

  /** A new region touches no block. */
  lemma NewRegionApart(s: Chain, regions: seq<Span>, y: Span)
    requires Blocks(s) && Tiles(s, regions) && Regions(regions) && Mappable(regions, y)
    ensures Apart(Extents(s), y)
  {
    JoinedApart(regions, y);
    ApartFromParts(Extents(s), y);
  }

  lemma AppendBlocks(s: Chain, y: Span)
    requires Blocks(s) && Apart(Extents(s), y) && y.lo > 0 && y.hi - y.lo >= REGION_MIN_SIZE
    ensures Blocks(Appended(s, y.lo, y.hi - y.lo)) && Extents(Appended(s, y.lo, y.hi - y.lo)) == Extents(s) + [y]
  {
    assert Extents(Appended(s, y.lo, y.hi - y.lo)) == Extents(s) + [y];
  }

  lemma AppendLinked(hdr: Headers, s: Chain, y: Span)
    requires Linked(hdr, s) && Blocks(s) && Blocks(Appended(s, y.lo, y.hi - y.lo))
    ensures s[|s| - 1].addr != y.lo
    ensures var n, size := |s| - 1, y.hi - y.lo;
            Stored(hdr, s, n) &&
                Linked(hdr[y.lo := Header(NULL, size - HEADER, true)][s[n].addr := hdr[s[n].addr].(next := y.lo)],
                Appended(s, y.lo, size))
  {
    var n, size := |s| - 1, y.hi - y.lo;
    assert Stored(hdr, s, n);
    AddrsDiffer(Appended(s, y.lo, size), n, n + 1);
    var t, h := Appended(s, y.lo, size),
        hdr[y.lo := Header(NULL, size - HEADER, true)][s[n].addr := hdr[s[n].addr].(next := y.lo)];
    forall k | 0 <= k < |t| ensures Stored(h, t, k) {
      if k <= n {
        assert Stored(hdr, s, k) && t[k] == s[k];
        AddrsDiffer(t, k, n + 1);
        if k < n { AddrsDiffer(t, k, n); }
      } else {
        AddrsDiffer(t, n, n + 1);
      }
    }
  }

  lemma AppendUsed(s: Chain, a: int, size: int)
    ensures Used(Appended(s, a, size)) == Used(s)
  {
  }

  /** Growing keeps what the allocator keeps, and no block changes hands. */
  lemma AppendSound(hdr: Headers, s: Chain, regions: seq<Span>, live: map<int, int>, y: Span)
    requires Sound(hdr, s, regions, live) && Mappable(regions, y) && y.hi - y.lo >= REGION_MIN_SIZE
    ensures s[|s| - 1].addr in hdr && s[|s| - 1].addr != y.lo
    ensures var n, size := |s| - 1, y.hi - y.lo;
            Sound(hdr[y.lo := Header(NULL, size - HEADER, true)][s[n].addr := hdr[s[n].addr].(next := y.lo)],
                  Appended(s, y.lo, size), regions + [y], live)
    ensures Used(Appended(s, y.lo, y.hi - y.lo)) == Used(s)
  {
    NewRegionApart(s, regions, y);
    AppendBlocks(s, y);
    AppendLinked(hdr, s, y);
    AppendUsed(s, y.lo, y.hi - y.lo);
    JoinSnoc(Extents(s), y);
    JoinSnoc(regions, y);
    hide Linked, Blocks, Joined, Mappable;
    NewRegions(regions, y);
  }

  lemma NewRegions(regions: seq<Span>, y: Span)
    requires Regions(regions) && Mappable(regions, y)
    ensures Regions(regions + [y])
  {
  }

  lemma FirstRegion(hdr: Headers, a: int, size: int)
    requires Mappable([], Span(a, a + size)) && size >= REGION_MIN_SIZE &&
        hdr == map[a := Header(NULL, size - HEADER, true)]
    ensures Sound(hdr, [Block(a, size - HEADER, true)], [Span(a, a + size)], map[]) <==> a == HEAP_START
  {
    var s, y := [Block(a, size - HEADER, true)], Span(a, a + size);
    assert Extents(s) == [y];
  }

  lemma GrownLastAt(hdr: Headers, s: Chain, regions: seq<Span>, live: map<int, int>, a: int, size: int)
    requires Sound(hdr, s, regions, live) && size >= REGION_MIN_SIZE
    ensures var u, t, n := Appended(s, a, size), Grown(s, a, size), |s| - 1;
            && |u| == |s| + 1 && u[n] == s[n] && u[n + 1].addr == a
            && t == (if Mergeable(u[n], u[n + 1]) then MergeAt(u, n) else u)
            && |t| == (if Mergeable(u[n], u[n + 1]) then |s| else |s| + 1)
            && t[|t| - 1].free && t[|t| - 1].cap >= size - HEADER
            && t[|t| - 1].addr == (if Mergeable(u[n], u[n + 1]) then s[n].addr else a)
  {
    BlockFacts(s, |s| - 1);
  }

  /** Writes within a new region touch no payload. */
  lemma NewRegionUntouched(hdr: Headers, s: Chain, regions: seq<Span>, live: map<int, int>, y: Span, d: Bytes,
        d': Bytes)
    requires Sound(hdr, s, regions, live) && Mappable(regions, y) && forall x | !y.Has(x) :: d'(x) == d(x)
    ensures Untouched(Used(s), d, d')
  {
    NewRegionApart(s, regions, y);
    forall b, x | b in Used(s) && Pointer(b) <= x < b.End() ensures d'(x) == d(x) {
      var k :| 0 <= k < |s| && s[k] == b;
      assert Extents(s)[k] == Span(b.addr, b.End());
      BlockFacts(s, k);
    }
  }

  /** A search of the last block alone. */
  lemma SearchLast(s: Chain, q: int)
    requires s != []
    ensures s[..|s| - 1] + Search(s[|s| - 1..], q).0 == s
    ensures Search(s[|s| - 1..], q).1 == if s[|s| - 1].free && s[|s| - 1].cap >= q then FoundAt(0) else NotFound
  {
    var n := |s| - 1;
    assert s[n..] == [s[n]] && [s[n]][1..] == [];
    assert s[..n] + [s[n]] == s;
  }

  /**
    What a request for q bytes comes to, given what the kernel would answer.  First fit
    in the blocks there are; failing that, a new region, whose block, alone or merged with
    the last one, serves the request unless its size wrapped.
   */
  ghost predicate Outcome(s: Chain, regions: seq<Span>, kernel: Kernel, q: nat, t: Chain, regions': seq<Span>, p: int) {
    var (u, r) := Search(s, q);
    if r.FoundAt? then
      r.index < |u| && t == Taken(u, r.index, q) && regions' == regions && p == Pointer(u[r.index])
    else
      u != [] &&
      var size := RegionSize(q);
      var g := Granted(regions, u[|u| - 1].End(), size, kernel);
      if g == MAP_FAILED then
        t == u && regions' == regions && p == NULL
      else
        var v := Grown(u, g, size);
        && regions' == regions + [Span(g, g + size)]
        && v != []
        && if RegionFits(q) then t == Taken(v, |v| - 1, q) && p == Pointer(v[|v| - 1]) else t == v && p == NULL
  }

  /** The block that growth leaves last serves the request exactly when its region did
      not wrap: a merged block is no way out, since no block is that large. */
  lemma GrowthSuffices(hdr: Headers, t: Chain, regions: seq<Span>, live: map<int, int>, q: nat)
    requires Sound(hdr, t, regions, live) && q < WORD && t[|t| - 1].cap >= RegionSize(q) - HEADER
    ensures t[|t| - 1].cap >= q <==> RegionFits(q)
  {
    RegionHoldsQuery(q);
    BlockBelowLimit(hdr, t, regions, live, |t| - 1);
  }

  /** A request whose region wraps: growth leaves a block that is far too small. */
  lemma WrappedRequest()
    ensures var q := WORD - HEADER; var t := Grown([Block(HEAP_START, 8175, true)], HEAP_START + 8192, RegionSize(q));
            !RegionFits(q) && RegionSize(q) == REGION_MIN_SIZE && t == [Block(HEAP_START, 16367, true)] && t[0].cap < q
  {
    RegionHoldsQuery(WORD - HEADER);
  }

  /** The program owns exactly one more block. */
  ghost predicate OneMore(s: Chain, t: Chain, live: map<int, int>, live': map<int, int>, q: int, p: int) {
    && p !in live && live' == live[p := q]
    && exists b: Block :: Pointer(b) == p && b.cap >= q && Used(t) == Used(s) + {b} && b !in Used(s)
  }

  lemma FirstBlock(hdr: Headers, s: Chain, regions: seq<Span>, live: map<int, int>)
    requires Sound(hdr, s, regions, live)
    ensures s != [] && s[0].addr == HEAP_START
  {
  }

  lemma SoundBlocks(hdr: Headers, s: Chain, regions: seq<Span>, live: map<int, int>)
    requires Sound(hdr, s, regions, live)
    ensures Blocks(s) && Regions(regions) && Tiles(s, regions) && s != [] && s[0].addr == HEAP_START
  {
  }

  /** A block handed out is one more block owned, by a pointer that was not in use. */
  lemma ServedOneMore(hdr0: Headers, s: Chain, regions0: seq<Span>, hdr: Headers, t: Chain, regions: seq<Span>,
        live: map<int, int>, live': map<int, int>, at: nat, q: int, b: int, r: Chain)
    requires Used(r) == Used(s)
    requires Sound(hdr0, s, regions0, live) && Sound(hdr, t, regions, live') && HandedOut(s, t, live, live', at, q, b)
    ensures b > 0 && OneMore(r, t, live, live', q, b + HEADER)
  {
    hide Search, Taken;
    var u, k := s[..at] + Search(s[at..], q).0, at + Search(s[at..], q).1.index;
    var c := TakenBlock(u[k], q);
    assert c in Used(t) && Pointer(c) == b + HEADER;
    var i :| 0 <= i < |t| && t[i] == c;
    BlockFacts(t, i);
  }

  lemma OutcomeFirst(s: Chain, t: Chain, live: map<int, int>, live': map<int, int>, regions: seq<Span>, kernel: Kernel,
        q: nat, b: int)
    requires HandedOut(s, t, live, live', 0, q, b)
    ensures Outcome(s, regions, kernel, q, t, regions, b + HEADER) && Search(s, q).1.FoundAt?
  {
    assert s[..0] + Search(s[0..], q).0 == Search(s, q).0 && s[0..] == s;
  }

  /** Neither a block nor a region, or a region whose size wrapped. */
  lemma OutcomeNone(s: Chain, u: Chain, regions: seq<Span>, kernel: Kernel, q: nat)
    requires Search(s, q) == (u, NotFound) && u != []
    ensures var g, size := Granted(regions, u[|u| - 1].End(), RegionSize(q), kernel), RegionSize(q);
            && (g == MAP_FAILED ==> Outcome(s, regions, kernel, q, u, regions, NULL))
            && (g != MAP_FAILED && !RegionFits(q) && Grown(u, g, size) != [] ==>
                  Outcome(s, regions, kernel, q, Grown(u, g, size), regions + [Span(g, g + size)], NULL))
  {
    hide Search, Taken, Grown, Granted, RegionSize, RegionFits;
  }

  /** The second search looks at the last block only, and takes it. */
  lemma OutcomeGrown(s: Chain, u: Chain, v: Chain, t: Chain, regions: seq<Span>, kernel: Kernel, q: nat, b: int,
        live: map<int, int>, live': map<int, int>)
    requires Search(s, q) == (u, NotFound) && u != [] && v != []
    requires var g := Granted(regions, u[|u| - 1].End(), RegionSize(q), kernel);
        g != MAP_FAILED && v == Grown(u, g, RegionSize(q))
    requires HandedOut(v, t, live, live', |v| - 1, q, b) && (v[|v| - 1].cap >= q <==> RegionFits(q))
    ensures RegionFits(q)
    ensures var g := Granted(regions, u[|u| - 1].End(), RegionSize(q), kernel);
        Outcome(s, regions, kernel, q, t, regions + [Span(g, g + RegionSize(q))], b + HEADER)
  {
    hide Search, Taken, TakenBlock, Used, Grown, Granted, RegionSize, RegionFits;
    SearchLast(v, q);
    assert t == Taken(v, |v| - 1, q) && b == v[|v| - 1].addr;
  }

  /** Releasing a block: it is marked free, and merged with its successor if it can be. */
  function Released(s: Chain, i: nat): Chain
    requires i < |s|
  {
    var t := Marked(s, i, true);
    if i + 1 < |t| && Mergeable(t[i], t[i + 1]) then MergeAt(t, i) else t
  }

  /** A block that was released is found again by any search for no more bytes, wherever
      it is in the list and whatever its neighbours are. */
  lemma ReleasedIsFound(s: Chain, i: nat, q: int)
    requires Blocks(s) && i < |s| && q <= s[i].cap
    ensures Search(Released(s, i), q).1.FoundAt?
  {
    var t := Released(s, i);
    FreeBlockIsFound(t, i, q);
  }

  /** The blocks behind two live pointers do not overlap, headers included. */
  lemma LiveApart(hdr: Headers, s: Chain, regions: seq<Span>, live: map<int, int>, p: int, r: int)
    requires Sound(hdr, s, regions, live) && p in live && r in live && p != r
    ensures p + live[p] <= r - HEADER || r + live[r] <= p - HEADER
  {
    var b :| b in Used(s) && Pointer(b) == p;
    var c :| c in Used(s) && Pointer(c) == r;
    var i :| 0 <= i < |s| && s[i] == b;
    var j :| 0 <= j < |s| && s[j] == c;
    BlocksApart(s, i, j);
  }

  /** The block behind a live pointer. */
  lemma OwnedBlock(hdr: Headers, s: Chain, regions: seq<Span>, live: map<int, int>, p: int) returns (i: nat)
    requires Sound(hdr, s, regions, live) && p in live
    ensures i < |s| && Pointer(s[i]) == p && !s[i].free && live[p] <= s[i].cap && s[i] in Used(s)
    ensures p - HEADER > 0
  {
    var b :| b in Used(s) && Pointer(b) == p;
    i :| 0 <= i < |s| && s[i] == b;
    BlockFacts(s, i);
  }

  /** A pointer belongs to one block only. */
  lemma OwnerUnique(s: Chain, i: nat, j: nat)
    requires Blocks(s) && i < |s| && j < |s| && Pointer(s[i]) == Pointer(s[j])
    ensures i == j
  {
    if i != j { AddrsDiffer(s, i, j); }
  }

  // ----- teardown -----

  /** The ranges unmapped so far, with the one being gathered. */
  function Gathered(done: seq<Span>, start: int, size: int): seq<Span> {
    if size == 0 then done else done + [Span(start, start + size)]
  }

  /** One more block: it extends the range being gathered, which is closed when the next
      block does not touch it. */
  lemma GatherStep(s: Chain, k: nat, done: seq<Span>, start: int, size: nat)
    requires Blocks(s) && k < |s| && start + size == s[k].addr
    requires Joined(Extents(s)[..k]) == Gathered(done, start, size)
    requires size == 0 && done != [] ==> done[|done| - 1].hi != s[k].addr
    ensures Joined(Extents(s)[..k + 1]) == Gathered(done, start, s[k].End() - start)
    ensures forall next :: Joined(Extents(s)[..k + 1]) == Gathered(done + [Span(start, s[k].End())], next, 0)
    ensures s[k].End() - start > 0
  {
    var e := Extents(s);
    assert e[..k + 1] == e[..k] + [e[k]];
    JoinSnoc(e[..k], e[k]);
  }

  lemma GatherStart(s: Chain)
    ensures Joined(Extents(s)[..0]) == Gathered([], HEAP_START, 0)
  {
  }

  /** All blocks gathered: exactly what was mapped. */
  lemma GatheredAll(s: Chain, regions: seq<Span>, done: seq<Span>, start: int)
    requires Blocks(s) && Regions(regions) && Tiles(s, regions) && Joined(Extents(s)[..|s|]) == Gathered(done, start, 0)
    ensures done == Joined(regions) && UnmapsAll(done, regions)
  {
    assert Extents(s)[..|s|] == Extents(s);
    JoinedUnmapsAll(regions);
  }

  /** No header is read after its memory was unmapped. */
  lemma UnreadYet(s: Chain, k: nat, done: seq<Span>, start: int, size: int)
    requires Blocks(s) && k < |s| && Joined(Extents(s)[..k]) == Gathered(done, start, size)
    ensures Apart(done, Span(s[k].addr, s[k].addr + HEADER))
  {
    var e := Extents(s);
    assert Apart(e[..k], e[k]) && e[k].lo < e[k].hi;
    JoinedApart(e[..k], e[k]);
    var g := Gathered(done, start, size);
    forall i | 0 <= i < |done|
        ensures done[i].hi <= e[k].lo || e[k].lo + HEADER <= done[i].lo { assert done[i] == g[i]; }
  }

  /** What teardown unmaps: every mapped byte, once, in ranges that start and end where
      regions do. */
  ghost predicate UnmapsAll(done: seq<Span>, regions: seq<Span>) {
    && (forall x :: Covered(done, x) <==> Covered(regions, x))
    && Disjoint(done)
    && forall k | 0 <= k < |done| :: OnEdges(regions, done[k])
  }

  ghost predicate OnEdges(regions: seq<Span>, y: Span) {
    (exists i :: 0 <= i < |regions| && regions[i].lo == y.lo) && exists j :: 0 <= j < |regions| && regions[j].hi == y.hi
  }

  lemma JoinedUnmapsAll(regions: seq<Span>)
    requires Regions(regions)
    ensures UnmapsAll(Joined(regions), regions)
  {
    var done := Joined(regions);
    forall x ensures Covered(done, x) <==> Covered(regions, x) { JoinedCovers(regions, x); }
    JoinedDisjoint(regions);
    forall k | 0 <= k < |done| ensures OnEdges(regions, done[k]) {
      var i, j := JoinedEdges(regions, k);
    }
  }
}
