/**
  The allocator state of one arena and the operations that change it in place:
  unlinking, binning, freeing with consolidation, and the steps of an allocation.
 */
module MallocState {
  import opened MallocSizes
  import opened ArenaModel
  import opened LinkedRings
  import opened BinmapWord
  import opened FreeStore
  import opened MemoryWords
  import opened ChunkChoice
  import opened ChunkLists
  import opened SmallBinQueues

  /** Every bin header linked to itself. */
  function SelfLinked(): Links {
    map i {:trigger IsHeader(i)} | 1 <= i < NBINS && IsHeader(i) :: i
  }

  predicate IsHeader(i: int) {
    1 <= i < NBINS
  }

  function NoChunks(n: nat): (bins: Bins)
    ensures |bins| == n && forall i | 0 <= i < n :: bins[i] == []
  {
    seq(n, _ => [])
  }

  function Nulls(n: nat): (r: seq<int>)
    ensures |r| == n && forall i | 0 <= i < n :: r[i] == 0
  {
    seq(n, _ => 0)
  }

  /** Boundary tags that describe the chunk space, links that describe the free store. */
  ghost predicate Consistent(mem: Memory, g: Shape, base: int, top: int, end: int, fast: seq<int>, binmap: seq<nat>) {
    && Space(g.m, base, top, end) && Aligned(g.m) && Tags(g.m, base, top, mem.head, mem.foot)
    && Binned(g.m, g.bins) && LinkedBins(mem.fd, mem.bk, g.bins) && SizeRings(g.m, mem.fdn, mem.bkn, g.bins, g.firsts)
    && Bitmap(binmap, g.bins) && FastLists(g.m, mem.fd, fast, g.fasts)
  }

  /** Chunks lo to hi, all off their lists, become one free chunk. */
  lemma MergedFree(mem: Memory, g: Shape, base: int, top: int, end: int, fast: seq<int>, binmap: seq<nat>, lo: int,
        p: int, n: int, hi: int)
    requires Consistent(mem, g, base, top, end, fast, binmap)
    requires lo in g.m && p in g.m && p != top && n == Next(g.m, p) && hi in g.m && InUse(g.m[hi].kind)
    requires lo == p || Next(g.m, lo) == p
    requires hi == n || (n in g.m && Next(g.m, n) == hi)
    requires lo in mem.head && mem.head[lo].prevInuse && hi in mem.head
    requires (g.m[p].kind == Used || g.m[p].kind == Held) && (lo != p ==> g.m[lo].kind == Free(0)) &&
        (hi != n ==> g.m[n].kind == Free(0))
    ensures Consistent(mem.(head := mem.head[hi := mem.head[hi].(prevInuse := false)][lo := Head(hi - lo, true)],
        foot := mem.foot[hi := hi - lo]),
                       g.(m := Merged(g.m, lo, hi, Free(0))), base, top, end, fast, binmap)
  {
    hide Aligned, Binned, LinkedBins, SizeRings, Bitmap, FastLists, SameLinks, Tags, Space, Merged;
    RunOfChunks(g.m, base, top, end, lo, p, n, hi);
    MergedStore(g.m, g.bins, g.firsts, mem.fd, mem.fdn, mem.bkn, fast, g.fasts, lo, hi, Free(0));
    MergedSpace(g.m, base, top, end, lo, hi, Free(0));
    MergedTags(g.m, base, top, end, mem.head, mem.foot, lo, hi, 0);
    assert mem.head[hi := mem.head[hi].(prevInuse := false)][lo := Head(hi - lo, true)]
        == mem.head[lo := Head(hi - lo, true)][hi := mem.head[hi].(prevInuse := false)];
    MergedAligned(g.m, lo, hi, Free(0), lo);
  }

  /** Chunk lo and everything after it up to top become the new top. */
  lemma MergedTop(mem: Memory, g: Shape, base: int, top: int, end: int, fast: seq<int>, binmap: seq<nat>, lo: int,
        p: int)
    requires Consistent(mem, g, base, top, end, fast, binmap)
    requires lo in g.m && p in g.m && p != top && top == Next(g.m, p)
    requires lo == p || Next(g.m, lo) == p
    requires lo in mem.head && mem.head[lo].prevInuse
    requires (g.m[p].kind == Used || g.m[p].kind == Held) && (lo != p ==> g.m[lo].kind == Free(0))
    ensures Consistent(mem.(head := mem.head[lo := Head(end - lo, true)]), g.(m := Merged(g.m, lo, end, Top)), base,
        lo, end, fast, binmap)
  {
    SpaceBounds(g.m, base, top, end);
    hide Aligned, Binned, LinkedBins, SizeRings, Bitmap, FastLists, SameLinks, Tags, Space, Merged;
    RunOfChunks(g.m, base, top, end, lo, p, top, end);
    MergedStore(g.m, g.bins, g.firsts, mem.fd, mem.fdn, mem.bkn, fast, g.fasts, lo, end, Top);
    MergedSpace(g.m, base, top, end, lo, end, Top);
    MergedTopTags(g.m, base, top, end, mem.head, mem.foot, lo);
    MergedAligned(g.m, lo, end, Top, top);
  }

  lemma FastCounts(mem: Memory, g: Shape, base: int, top: int, end: int, fast: seq<int>, binmap: seq<nat>)
    requires Consistent(mem, g, base, top, end, fast, binmap)
    ensures |fast| == NFASTBINS && |g.fasts| == NFASTBINS
  {
  }

  lemma NoneWaiting(mem: Memory, g: Shape, base: int, top: int, end: int, fast: seq<int>, binmap: seq<nat>)
    requires Consistent(mem, g, base, top, end, fast, binmap) && FastWithin(g.m, 0)
    ensures NoFast(g.m)
  {
    ZeroWithin(g.m, mem.fd, fast, g.fasts);
  }

  lemma NoFastLeft(mem: Memory, g: Shape, base: int, top: int, end: int, fast: seq<int>, binmap: seq<nat>)
    requires Consistent(mem, g, base, top, end, fast, binmap)
    requires |g.fasts| == NFASTBINS && forall j | 0 <= j < NFASTBINS :: g.fasts[j] == []
    ensures NoFast(g.m)
  {
    AllFastbinsEmpty(g.m, mem.fd, fast, g.fasts);
  }

  /** Emptying fastbin i at once: its chunks are held, everything else stands. */
  lemma DetachFastbin(mem: Memory, g: Shape, base: int, top: int, end: int, fast: seq<int>, binmap: seq<nat>, i: nat)
    requires Consistent(mem, g, base, top, end, fast, binmap) && NoHeld(g.m) && i < NFASTBINS
    ensures |fast| == NFASTBINS && |g.fasts| == NFASTBINS
    ensures var g' := g.(m := Detached(g.m, i), fasts := g.fasts[i := []]);
            Consistent(mem, g', base, top, end, fast[i := 0], binmap) && Live(g'.m) == Live(g.m) &&
                (NoLoose(g.m) ==> NoLoose(g'.m))
    ensures Chain(mem.fd, fast[i], g.fasts[i]) && HeldAre(Detached(g.m, i), g.fasts[i], i)
  {
    hide Space, Aligned, Tags, Binned, LinkedBins, SizeRings, Bitmap, FastLists;
    DetachedStore(g.m, g.bins, g.firsts, mem.fd, mem.fdn, mem.bkn, fast, g.fasts, i);
    RekindedTags(g.m, Detached(g.m, i), base, top, end, mem.head, mem.foot);
  }

  lemma HeldChunk(mem: Memory, g: Shape, base: int, top: int, end: int, fast: seq<int>, binmap: seq<nat>, l: seq<int>,
        i: nat, p: int)
    requires Consistent(mem, g, base, top, end, fast, binmap)
    requires HeldAre(g.m, l, i) && Chain(mem.fd, p, l) && p != 0
    ensures l != [] && p == l[0] && p in g.m && g.m[p].kind == Held && p in mem.fd && Chain(mem.fd, mem.fd[p], l[1..])
    ensures p in mem.head && mem.head[p].size == g.m[p].size >= 0 && FastbinIndex(mem.head[p].size) == i
    ensures p !in Live(g.m)
  {
    hide Space, Aligned, Tags, Binned, LinkedBins, SizeRings, Bitmap, FastLists;
    assert p in l;
    PrevChunkTags(g.m, base, top, end, mem.head, mem.foot, p);
  }

  lemma HeldEnd(mem: Memory, g: Shape, base: int, top: int, end: int, fast: seq<int>, binmap: seq<nat>, l: seq<int>,
        i: nat)
    requires Consistent(mem, g, base, top, end, fast, binmap) && HeldAre(g.m, l, i) && Chain(mem.fd, 0, l)
    ensures NoHeld(g.m) && l == []
  {
    SpaceBounds(g.m, base, top, end);
    assert 0 !in l;
    hide Space, Aligned, Tags, Binned, LinkedBins, SizeRings, Bitmap, FastLists;
    HeldNone(g.m, i);
  }

  /** Linking allocated chunk p in front of its fastbin. */
  lemma PushedFast(mem: Memory, g: Shape, base: int, top: int, end: int, fast: seq<int>, binmap: seq<nat>, i: nat,
        p: int)
    requires Consistent(mem, g, base, top, end, fast, binmap)
    requires p in g.m && g.m[p].kind == Used && FastbinIndex(g.m[p].size) == i < NFASTBINS && g.m[p].size >= MINSIZE
    ensures |fast| == NFASTBINS && |g.fasts| == NFASTBINS && fast[i] != p
    ensures var g' := g.(m := g.m[p := Chunk(g.m[p].size, Fast(i))], fasts := g.fasts[i := [p] + g.fasts[i]]);
            && Consistent(mem.(fd := mem.fd[p := fast[i]]), g', base, top, end, fast[i := p], binmap)
            && Live(g'.m) == Live(g.m) - {p} && (NoLoose(g.m) ==> NoLoose(g'.m)) && (NoHeld(g.m) ==> NoHeld(g'.m))
  {
    hide Consistent, Live, NoLoose, NoHeld;
    FastEmptyHead(mem, g, base, top, end, fast, binmap, i, p);
    PushedFastStore(mem, g, base, top, end, fast, binmap, i, p);
    PushedLive(g.m, p, i);
  }

  /** A chunk that leaves the program for a fastbin. */
  lemma PushedLive(m: Arena, p: int, i: nat)
    requires p in m && m[p].kind == Used
    ensures var m' := m[p := Chunk(m[p].size, Fast(i))];
            Live(m') == Live(m) - {p} && (NoLoose(m) ==> NoLoose(m')) && (NoHeld(m) ==> NoHeld(m'))
  {
  }

  lemma PushedFastStore(mem: Memory, g: Shape, base: int, top: int, end: int, fast: seq<int>, binmap: seq<nat>, i: nat,
        p: int)
    requires Consistent(mem, g, base, top, end, fast, binmap)
    requires p in g.m && g.m[p].kind == Used && FastbinIndex(g.m[p].size) == i < NFASTBINS && g.m[p].size >= MINSIZE
    requires |fast| == NFASTBINS && |g.fasts| == NFASTBINS
    ensures Consistent(mem.(fd := mem.fd[p := fast[i]]),
        g.(m := g.m[p := Chunk(g.m[p].size, Fast(i))], fasts := g.fasts[i := [p] + g.fasts[i]]),
                       base, top, end, fast[i := p], binmap)
  {
    var m' := g.m[p := Chunk(g.m[p].size, Fast(i))];
    SpaceBounds(g.m, base, top, end);
    hide Space, Aligned, Tags, Binned, LinkedBins, SizeRings, Bitmap, FastLists;
    RekindedTags(g.m, m', base, top, end, mem.head, mem.foot);
    BinsFrame(g.m, m', mem.fdn, mem.bkn, mem.fdn, mem.bkn, g.bins, g.firsts);
    FastPushed(g.m, mem.fd, fast, g.fasts, i, p);
    LinkedElsewhere(g.m, mem.fd, mem.fd[p := fast[i]], mem.bk, g.bins, base, top, end);
  }

  lemma FastEmptyHead(mem: Memory, g: Shape, base: int, top: int, end: int, fast: seq<int>, binmap: seq<nat>, i: nat,
        p: int)
    requires Consistent(mem, g, base, top, end, fast, binmap) && i < NFASTBINS && p in g.m && !g.m[p].kind.Fast?
    ensures |fast| == NFASTBINS && |g.fasts| == NFASTBINS && fast[i] != p && (fast[i] == 0 <==> g.fasts[i] == [])
  {
    SpaceBounds(g.m, base, top, end);
    FastEmpty(g.m, mem.fd, fast, g.fasts, i);
    assert Chain(mem.fd, fast[i], g.fasts[i]);
    assert g.fasts[i] != [] ==> g.fasts[i][0] in g.fasts[i];
  }

  lemma LiveChunk(mem: Memory, g: Shape, base: int, top: int, end: int, fast: seq<int>, binmap: seq<nat>, p: int)
    requires Consistent(mem, g, base, top, end, fast, binmap) && p in Live(g.m)
    ensures p in mem.head && mem.head[p].size == Live(g.m)[p] && ChunkSized(Live(g.m)[p]) && p >= 4096 && p % 16 == 0
  {
    SpaceBounds(g.m, base, top, end);
    PrevChunkTags(g.m, base, top, end, mem.head, mem.foot, p);
  }

  lemma UsedChunk(mem: Memory, g: Shape, base: int, top: int, end: int, fast: seq<int>, binmap: seq<nat>, p: int)
    requires Consistent(mem, g, base, top, end, fast, binmap) && p in g.m && g.m[p].kind == Used
    ensures p in mem.head && mem.head[p].size == g.m[p].size && ChunkSized(g.m[p].size)
  {
    PrevChunkTags(g.m, base, top, end, mem.head, mem.foot, p);
  }

  /** The front nb bytes of detached free chunk p go to the program, the rest stays free. */
  lemma CarvedFree(mem: Memory, g: Shape, base: int, top: int, end: int, fast: seq<int>, binmap: seq<nat>, p: int,
        nb: int)
    requires Consistent(mem, g, base, top, end, fast, binmap)
    requires p in g.m && g.m[p].kind == Free(0) && MINSIZE <= nb <= g.m[p].size - MINSIZE && nb % 16 == 0
    ensures var g' := g.(m := Split(g.m, p, nb, Used, Free(0)));
            && Consistent(mem.(head := mem.head[p := Head(nb, true)][p + nb := Head(g.m[p].size - nb, true)],
                               foot := mem.foot[p + g.m[p].size := g.m[p].size - nb]), g', base, top, end, fast, binmap)
            && p + nb in g'.m && g'.m[p + nb] == Chunk(g.m[p].size - nb, Free(0)) && p + nb !in g.m
            && Kept(g'.m) == Kept(g.m)[p := Chunk(nb, Used)]
  {
    hide Space, Aligned, Tags, Binned, LinkedBins, SizeRings, Bitmap, FastLists, Kept, Split;
    ChunkPlace(g.m, base, top, end, p);
    FreeChunkTags(g.m, base, top, end, mem.head, mem.foot, p);
    CarvedSpace(g.m, base, top, end, mem.head, mem.foot, p, nb, Free(0));
    SplitKept(g.m, base, top, end, p, nb, Free(0));
    SplitStore(g.m, g.bins, g.firsts, mem.fd, mem.fdn, mem.bkn, fast, g.fasts, p, nb, Free(0));
  }

  /** The front nb bytes of top go to the program, the rest is the new top. */
  lemma CarvedTop(mem: Memory, g: Shape, base: int, top: int, end: int, fast: seq<int>, binmap: seq<nat>, nb: int)
    requires Consistent(mem, g, base, top, end, fast, binmap)
    requires top in g.m && MINSIZE <= nb <= g.m[top].size - MINSIZE && nb % 16 == 0
    ensures var g' := g.(m := Split(g.m, top, nb, Used, Top));
            && Consistent(mem.(head := mem.head[top := Head(nb, true)][top + nb := Head(g.m[top].size - nb, true)]),
                          g', base, top + nb, end, fast, binmap)
            && Kept(g'.m) == Kept(g.m)[top := Chunk(nb, Used)] && (NoLoose(g.m) ==> NoLoose(g'.m))
    ensures top !in Kept(g.m)
  {
    hide Space, Aligned, Tags, Binned, LinkedBins, SizeRings, Bitmap, FastLists, Kept, NoLoose, Split;
    TopPlace(g.m, base, top, end);
    TopTags(g.m, base, top, end, mem.head, mem.foot);
    CarvedSpace(g.m, base, top, end, mem.head, mem.foot, top, nb, Top);
    SplitKept(g.m, base, top, end, top, nb, Top);
    SplitStore(g.m, g.bins, g.firsts, mem.fd, mem.fdn, mem.bkn, fast, g.fasts, top, nb, Top);
  }

  /** The whole of detached free chunk p goes to the program. */
  lemma TakenWhole(mem: Memory, g: Shape, base: int, top: int, end: int, fast: seq<int>, binmap: seq<nat>, p: int)
    requires Consistent(mem, g, base, top, end, fast, binmap) && p in g.m && g.m[p].kind == Free(0)
    ensures var n, g' := p + g.m[p].size, g.(m := g.m[p := Chunk(g.m[p].size, Used)]);
            && n in mem.head &&
                Consistent(mem.(head := mem.head[n := mem.head[n].(prevInuse := true)]), g', base, top, end, fast,
                binmap)
            && Kept(g'.m) == Kept(g.m)[p := Chunk(g.m[p].size, Used)]
  {
    hide Space, Aligned, Tags, Binned, LinkedBins, SizeRings, Bitmap, FastLists;
    AllocatedTags(g.m, base, top, end, mem.head, mem.foot, p);
    AllocatedAligned(g.m, p);
    CarvedStore(g.m, g.m[p := Chunk(g.m[p].size, Used)], g.bins, g.firsts, mem.fd, mem.fdn, mem.bkn, fast, g.fasts, p,
        p);
  }

  /** The neighbours of a binned chunk on its ring. */
  lemma BinSpots(m: Arena, bins: Bins, i: nat, k: nat)
    requires Binned(m, bins) && 0 < i < NBINS && k < |bins[i]|
    ensures LinkSpot(m, if k + 1 < |bins[i]| then bins[i][k + 1] else i) &&
        LinkSpot(m, if k > 0 then bins[i][k - 1] else i)
    ensures LinkSpot(m, bins[i][k]) && forall x | x in bins[i] :: LinkSpot(m, x)
  {
    InBinList(m, bins, i);
    hide Binned;
    assert k > 0 ==> bins[i][k - 1] in bins[i];
    assert k + 1 < |bins[i]| ==> bins[i][k + 1] in bins[i];
  }

  /** Where a bin header points. */
  lemma HeaderSpots(mem: Memory, g: Shape, base: int, top: int, end: int, fast: seq<int>, binmap: seq<nat>, i: nat)
    requires Consistent(mem, g, base, top, end, fast, binmap) && 0 < i < NBINS
    ensures i in mem.fd && LinkSpot(g.m, mem.fd[i]) && i in mem.bk && LinkSpot(g.m, mem.bk[i])
    ensures |g.bins| == NBINS && forall x | x in g.bins[i] :: LinkSpot(g.m, x)
  {
    LastOfBin(mem, g, base, top, end, fast, binmap, i);
    ConsistentBinned(mem, g, base, top, end, fast, binmap);
    hide Consistent, LinkSpot;
    HeaderSpot(g.m, i);
    if g.bins[i] != [] {
      BinSpots(g.m, g.bins, i, 0);
      BinSpots(g.m, g.bins, i, |g.bins[i]| - 1);
    }
  }

  lemma HeaderSpot(m: Arena, i: nat)
    requires i < NBINS
    ensures LinkSpot(m, i)
  {
  }

  lemma ChunkSpot(m: Arena, p: int)
    requires p in m && m[p].kind != Used
    ensures LinkSpot(m, p) && p !in Live(m)
  {
  }

  lemma SpaceOf(mem: Memory, g: Shape, base: int, top: int, end: int, fast: seq<int>, binmap: seq<nat>)
    requires Consistent(mem, g, base, top, end, fast, binmap)
    ensures Space(g.m, base, top, end)
  {
  }

  /** A chunk that the program has given up, off every list and not yet merged. */
  lemma GivenUp(mem: Memory, g: Shape, base: int, top: int, end: int, fast: seq<int>, binmap: seq<nat>, p: int)
    requires Consistent(mem, g, base, top, end, fast, binmap) && p in g.m && g.m[p].kind == Used
    ensures Consistent(mem, g.(m := g.m[p := Chunk(g.m[p].size, Held)]), base, top, end, fast, binmap)
  {
    hide Space, Aligned, Tags, Binned, LinkedBins, SizeRings, Bitmap, FastLists;
    var m' := g.m[p := Chunk(g.m[p].size, Held)];
    RekindedTags(g.m, m', base, top, end, mem.head, mem.foot);
    CarvedStore(g.m, m', g.bins, g.firsts, mem.fd, mem.fdn, mem.bkn, fast, g.fasts, p, p);
  }

  lemma ReleasedHeld(m: Arena, m': Arena, p: int, lo: int, size: int, top: int)
    requires p in m && m[p].size > 0 && Released(m[p := Chunk(m[p].size, Held)], m', p, lo, size, top)
    ensures Released(m, m', p, lo, size, top)
  {
    MergedIgnoresInside(m, m[p := Chunk(m[p].size, Held)], lo, lo + size, if lo == top then Top else Free(1));
  }

  /** Chunk p and its free neighbours become one, as in m1; when that has 64k bytes and
      fastbins were in use, these are consolidated then. */
  ghost predicate Coalesced(m: Arena, m1: Arena, p: int, lo: int, size: int, t: int, hadFast: bool, g: Shape,
        haveFast: bool, base: int, end: int)
  {
    && ReleaseSpan(m, p, lo, lo + size) && Released(m, m1, p, lo, size, t)
    && if size >= FASTBIN_CONSOLIDATION_THRESHOLD && hadFast then !haveFast && Consolidated(m1, g, base, end)
       else haveFast == hadFast && g.m == m1
  }

  lemma CoalescedAs(m: Arena, m1: Arena, p: int, lo: int, size: int, t: int, hadFast: bool, g: Shape,
        haveFast: bool, base: int, end: int)
    requires ReleaseSpan(m, p, lo, lo + size) && Released(m, m1, p, lo, size, t)
    requires if size >= FASTBIN_CONSOLIDATION_THRESHOLD && hadFast then !haveFast && Consolidated(m1, g, base, end)
             else haveFast == hadFast && g.m == m1
    ensures Coalesced(m, m1, p, lo, size, t, hadFast, g, haveFast, base, end)
  {
  }

  /** The link that a freed chunk gets lies where its memory was. */
  lemma KeepsPushed(mem: Memory, g: Shape, base: int, top: int, end: int, fast: seq<int>, binmap: seq<nat>,
        stored: Stores, p: int, i: nat)
    requires Consistent(mem, g, base, top, end, fast, binmap) && Keeps(g.m, mem, stored) && p in g.m &&
        g.m[p].kind == Used && i < |fast|
    ensures Keeps(g.m[p := Chunk(g.m[p].size, Fast(i))], mem.(fd := mem.fd[p := fast[i]]),
        Forgotten(stored, p, g.m[p].size))
  {
    hide Aligned, Tags, Binned, LinkedBins, SizeRings, Bitmap, FastLists, Keeps, Live, Forgotten, Space;
    var m' := g.m[p := Chunk(g.m[p].size, Fast(i))];
    LiveIs(g.m, p);
    PushedLive(g.m, p, i);
    KeepsLess(g.m, m', mem, stored, p);
    RekindedSpace(g.m, m', base, top, end);
    LinksKept(m', base, top, end, mem, Forgotten(stored, p, g.m[p].size), p, fast[i]);
  }

  lemma NotUsed(m: Arena, p: int)
    requires p !in Live(m)
    ensures p in m ==> m[p].kind != Used
  {
  }

  lemma NotLive(m: Arena, p: int)
    requires p !in m
    ensures p !in Live(m)
  {
  }

  /** Chunk k leaves the ring of an unsorted or small bin i. */
  lemma OffSmallRing(mem: Memory, g: Shape, base: int, top: int, end: int, fast: seq<int>, binmap: seq<nat>, i: nat,
        k: nat)
    requires Consistent(mem, g, base, top, end, fast, binmap) && 0 < i < NSMALLBINS && k < |g.bins[i]|
    ensures var p := g.bins[i][k];
            && p in g.m && g.m[p].kind == Free(i) && p in mem.fd && p in mem.bk
            && mem.fd[p] == (if k + 1 < |g.bins[i]| then g.bins[i][k + 1] else i)
            && mem.bk[p] == (if k > 0 then g.bins[i][k - 1] else i) && (k > 0 ==> mem.bk[p] != i)
            && mem.fd[p] in mem.bk && mem.bk[mem.fd[p]] == p && mem.bk[p] in mem.fd && mem.fd[mem.bk[p]] == p
    ensures var p := g.bins[i][k];
            var g' := g.(m := g.m[p := Chunk(g.m[p].size, Free(0))], bins := g.bins[i := Without(g.bins[i], k)]);
            && Consistent(mem.(fd := mem.fd[mem.bk[p] := mem.fd[p]], bk := mem.bk[mem.fd[p] := mem.bk[p]]), g', base,
                top, end, fast, binmap)
            && Kept(g'.m) == Kept(g.m)
  {
    SpaceBounds(g.m, base, top, end);
    hide Space, Aligned, Tags, Binned, LinkedBins, SizeRings, Bitmap, FastLists, Without, Kept, SameLinks;
    if k > 0 { BinnedChunk(g.m, g.bins, i, k - 1); }
    OffBin(g.m, g.bins, mem.fd, mem.bk, binmap, fast, g.fasts, i, k);
    RebinnedKept(g.m, g.bins[i][k], 0);
    SmallTaken(g.m, mem.fdn, mem.bkn, g.bins, g.firsts, i, k);
    RebinnedTags(g.m, base, top, end, mem.head, mem.foot, g.bins[i][k], 0);
  }

  lemma FreeHead(mem: Memory, g: Shape, base: int, top: int, end: int, fast: seq<int>, binmap: seq<nat>, p: int)
    requires Consistent(mem, g, base, top, end, fast, binmap) && p in g.m && g.m[p].kind.Free?
    ensures p in mem.head && mem.head[p] == Head(g.m[p].size, true) && ChunkSized(g.m[p].size)
    ensures p + g.m[p].size in mem.head && p + g.m[p].size in mem.foot && mem.foot[p + g.m[p].size] == g.m[p].size
    ensures !mem.head[p + g.m[p].size].prevInuse
    ensures p >= 4096
  {
    FreeChunkTags(g.m, base, top, end, mem.head, mem.foot, p);
  }

  /** A fastbin that is not empty gives its first chunk, which has exactly the size asked. */
  lemma PoppedFast(mem: Memory, g: Shape, base: int, top: int, end: int, fast: seq<int>, binmap: seq<nat>, i: nat,
        nb: int)
    requires Consistent(mem, g, base, top, end, fast, binmap) && i < NFASTBINS && ChunkSized(nb) &&
        FastbinIndex(nb) == i
    ensures |fast| == NFASTBINS && |g.fasts| == NFASTBINS
    ensures var p := fast[i]; p != 0 ==>
              && p in g.m && g.m[p] == Chunk(nb, Fast(i)) && p in mem.fd && g.fasts[i] != []
              && p in mem.head && mem.head[p].size == nb
              && var g' := g.(m := g.m[p := Chunk(nb, Used)], fasts := g.fasts[i := g.fasts[i][1..]]);
              && Consistent(mem, g', base, top, end, fast[i := mem.fd[p]], binmap)
              && p !in Live(g.m) && Live(g'.m) == Live(g.m)[p := nb]
              && (NoLoose(g.m) ==> NoLoose(g'.m)) && (NoHeld(g.m) ==> NoHeld(g'.m)) && FastLess(g.m, g'.m)
  {
    hide Consistent, Live, NoLoose, NoHeld, NoFast, FastbinIndex;
    FastHead(mem, g, base, top, end, fast, binmap, i);
    if fast[i] != 0 {
      FastHeadIndex(mem, g, base, top, end, fast, binmap, i);
      FastHeadSize(mem, g, base, top, end, fast, binmap, i, nb);
      PoppedFastStore(mem, g, base, top, end, fast, binmap, i);
      PoppedLive(g.m, fast[i], nb, i);
    }
  }

  lemma FastHeadSize(mem: Memory, g: Shape, base: int, top: int, end: int, fast: seq<int>, binmap: seq<nat>, i: nat,
        nb: int)
    requires Consistent(mem, g, base, top, end, fast, binmap) && i < NFASTBINS && ChunkSized(nb) &&
        FastbinIndex(nb) == i
    requires |fast| == NFASTBINS && fast[i] != 0 && fast[i] in mem.head && mem.head[fast[i]].size >= 0 &&
        FastbinIndex(mem.head[fast[i]].size) == i
    ensures mem.head[fast[i]].size == nb && fast[i] in g.m && g.m[fast[i]].size == nb
  {
    assert Chain(mem.fd, fast[i], g.fasts[i]);
    assert fast[i] in g.fasts[i];
    hide Space, Tags, Binned, LinkedBins, SizeRings, Bitmap;
    HeadOf(g.m, base, top, end, mem.head, mem.foot, fast[i]);
    AlignedChunk(g.m, fast[i]);
  }

  /** A chunk that leaves its fastbin for the program. */
  lemma PoppedLive(m: Arena, p: int, nb: int, i: nat)
    requires p in m && m[p] == Chunk(nb, Fast(i))
    ensures p !in Live(m) && Live(m[p := Chunk(nb, Used)]) == Live(m)[p := nb]
    ensures NoLoose(m) ==> NoLoose(m[p := Chunk(nb, Used)])
    ensures NoHeld(m) ==> NoHeld(m[p := Chunk(nb, Used)])
    ensures FastLess(m, m[p := Chunk(nb, Used)])
  {
  }

  lemma PoppedFastStore(mem: Memory, g: Shape, base: int, top: int, end: int, fast: seq<int>, binmap: seq<nat>, i: nat)
    requires Consistent(mem, g, base, top, end, fast, binmap) && i < NFASTBINS && |fast| == |g.fasts| == NFASTBINS &&
        g.fasts[i] != []
    ensures var p := fast[i];
      && p in g.m && g.m[p].kind == Fast(i) && p in mem.fd
      && Consistent(mem, g.(m := g.m[p := Chunk(g.m[p].size, Used)], fasts := g.fasts[i := g.fasts[i][1..]]), base,
          top, end, fast[i := mem.fd[p]], binmap)
  {
    hide Space, Aligned, Tags, Binned, LinkedBins, SizeRings, Bitmap, FastLists;
    FastPopped(g.m, mem.fd, fast, g.fasts, i, Used);
    var m' := g.m[fast[i] := Chunk(g.m[fast[i]].size, Used)];
    RekindedTags(g.m, m', base, top, end, mem.head, mem.foot);
    BinsFrame(g.m, m', mem.fdn, mem.bkn, mem.fdn, mem.bkn, g.bins, g.firsts);
  }

  /** The last chunk of bin i, or its header when the bin is empty. */
  lemma LastOfBin(mem: Memory, g: Shape, base: int, top: int, end: int, fast: seq<int>, binmap: seq<nat>, i: nat)
    requires Consistent(mem, g, base, top, end, fast, binmap) && 0 < i < NBINS
    ensures |g.bins| == NBINS && i in mem.fd && i in mem.bk
    ensures if g.bins[i] == [] then mem.bk[i] == i && mem.fd[i] == i
            else
              mem.bk[i] == g.bins[i][|g.bins[i]| - 1] && mem.fd[i] == g.bins[i][0] && mem.bk[i] != i && mem.fd[i] != i
    ensures mem.bk[i] != 0 && mem.fd[i] != 0
  {
    SpaceBounds(g.m, base, top, end);
    HeaderNotNull(g.m, mem.fd, mem.bk, g.bins, i);
  }

  /** A chunk in a small bin has exactly the size of its bin. */
  lemma SmallChunk(mem: Memory, g: Shape, base: int, top: int, end: int, fast: seq<int>, binmap: seq<nat>, i: nat,
        k: nat, nb: int)
    requires Consistent(mem, g, base, top, end, fast, binmap) && 1 < i < NSMALLBINS && k < |g.bins[i]|
    requires ChunkSized(nb) && BinIndex(nb) == i
    ensures g.bins[i][k] in g.m && g.m[g.bins[i][k]] == Chunk(nb, Free(i))
  {
    hide Space, Aligned, Tags, Binned, LinkedBins, SizeRings, Bitmap, FastLists;
    BinnedChunk(g.m, g.bins, i, k);
    AlignedChunk(g.m, g.bins[i][k]);
    BinIndexRange(nb);
    BinIndexRange(g.m[g.bins[i][k]].size);
  }

  lemma SmallServed(m: Arena, p: int, nb: int)
    requires p in m && m[p].kind.Free? && m[p].size == nb
    ensures var m' := m[p := Chunk(nb, Free(0))][p := Chunk(nb, Used)];
      && p !in Live(m) && Live(m') == Live(m)[p := nb]
      && (NoLoose(m) ==> NoLoose(m')) && (NoHeld(m) ==> NoHeld(m')) && FastLess(m, m')
  {
  }

  /** A large bin, as a detached chunk about to join it finds it. */
  lemma LargeBin(mem: Memory, g: Shape, base: int, top: int, end: int, fast: seq<int>, binmap: seq<nat>, i: nat, p: int)
    requires Consistent(mem, g, base, top, end, fast, binmap) && NSMALLBINS <= i < NBINS
    requires p in g.m && g.m[p].kind == Free(0)
    ensures |g.bins| == |g.firsts| == NBINS && p in mem.head && mem.head[p] == Head(SizeOf(g.m, p), true) &&
        g.m[p].size >= MINSIZE
    ensures SizeRing(g.m, mem.fdn, mem.bkn, g.bins[i], g.firsts[i]) && NoDup(g.bins[i]) && Descending(g.m, g.bins[i])
    ensures Firsts(g.m, g.bins[i], g.firsts[i]) && p !in g.bins[i] && p !in g.firsts[i]
  {
    hide Consistent, SizeRing, Firsts, NoDup, Descending, Binned;
    LargeRing(mem, g, base, top, end, fast, binmap, i);
    ConsistentBinned(mem, g, base, top, end, fast, binmap);
    FreeHead(mem, g, base, top, end, fast, binmap, p);
    LooseOffBins(g.m, g.bins, g.firsts[i], i, p);
  }

  lemma LooseOffBins(m: Arena, bins: Bins, f: seq<int>, i: nat, p: int)
    requires Binned(m, bins) && i < NBINS && p in m && m[p].kind == Free(0) && Firsts(m, bins[i], f)
    ensures p !in bins[i] && p !in f
  {
    hide NoDup, Descending;
    assert p !in bins[i] by { assert !InBin(m, p) && bins[0] == []; }
  }

  lemma FreeChunkSized(mem: Memory, g: Shape, base: int, top: int, end: int, fast: seq<int>, binmap: seq<nat>, i: nat,
        k: nat)
    requires Consistent(mem, g, base, top, end, fast, binmap) && 0 < i < NBINS && k < |g.bins[i]|
    ensures g.bins[i][k] in g.m && ChunkSized(g.m[g.bins[i][k]].size)
  {
    hide Space, Aligned, Tags, Binned, LinkedBins, SizeRings, Bitmap, FastLists;
    BinnedChunk(g.m, g.bins, i, k);
    AlignedChunk(g.m, g.bins[i][k]);
  }

  lemma LargeChunk(mem: Memory, g: Shape, base: int, top: int, end: int, fast: seq<int>, binmap: seq<nat>, i: nat,
        k: nat)
    requires Consistent(mem, g, base, top, end, fast, binmap) && NSMALLBINS <= i < NBINS && k < |g.bins[i]|
    ensures var x := g.bins[i][k]; x in g.m && x in mem.head && mem.head[x] == Head(SizeOf(g.m, x), true)
  {
    hide Space, Aligned, Tags, Binned, LinkedBins, SizeRings, Bitmap, FastLists;
    BinnedChunk(g.m, g.bins, i, k);
    FreeChunkTags(g.m, base, top, end, mem.head, mem.foot, g.bins[i][k]);
  }

  lemma RingLinks(mem: Memory, g: Shape, base: int, top: int, end: int, fast: seq<int>, binmap: seq<nat>, i: nat,
        k: nat)
    requires Consistent(mem, g, base, top, end, fast, binmap) && 0 < i < NBINS && k < |g.bins[i]|
    ensures var p := g.bins[i][k];
            && p in mem.fd && mem.fd[p] == (if k + 1 < |g.bins[i]| then g.bins[i][k + 1] else i)
            && p in mem.bk && mem.bk[p] == (if k > 0 then g.bins[i][k - 1] else i)
            && mem.fd[p] in mem.bk && mem.bk[mem.fd[p]] == p && mem.bk[p] in mem.fd && mem.fd[mem.bk[p]] == p
  {
    BinMirror(mem.fd, mem.bk, g.bins, i, k);
  }

  lemma FollowerFits(m: Arena, l: seq<int>, k: nat, p: int)
    requires Descending(m, l) && k < |l| && SizeOf(m, l[k]) == SizeOf(m, p)
    ensures k + 1 < |l| ==> SizeOf(m, l[k + 1]) <= SizeOf(m, p)
  {
  }

  lemma SmallFits(mem: Memory, g: Shape, base: int, top: int, end: int, fast: seq<int>, binmap: seq<nat>, i: nat,
        p: int)
    requires Consistent(mem, g, base, top, end, fast, binmap) && 1 < i < NSMALLBINS
    requires p in g.m && g.m[p].kind == Free(0) && ChunkSized(g.m[p].size) && BinIndex(g.m[p].size) == i
    ensures FitsBin(g.m, g.bins, i, 0, p)
  {
    if g.bins[i] != [] { SmallChunk(mem, g, base, top, end, fast, binmap, i, 0, g.m[p].size); }
  }

  lemma FirstsCount(mem: Memory, g: Shape, base: int, top: int, end: int, fast: seq<int>, binmap: seq<nat>)
    requires Consistent(mem, g, base, top, end, fast, binmap)
    ensures |g.firsts| == NBINS == |g.bins|
  {
  }

  /** Memory after chunk p of the given size has been linked in front of the unsorted bin. */
  function UnsortedLinks(mem: Memory, p: int, size: int): Memory
    requires 1 in mem.fd
  {
    var large := !InSmallbinRange(size);
    mem.(fd := mem.fd[p := mem.fd[1]][1 := p], bk := mem.bk[p := 1][mem.fd[1] := p],
         fdn := if large then mem.fdn[p := 0] else mem.fdn, bkn := if large then mem.bkn[p := 0] else mem.bkn)
  }

  lemma LinkedUnsorted(mem: Memory, g: Shape, base: int, top: int, end: int, fast: seq<int>, binmap: seq<nat>, p: int)
    requires Consistent(mem, g, base, top, end, fast, binmap) && p in g.m && g.m[p].kind == Free(0)
    ensures |g.bins| == NBINS && 1 in mem.fd && mem.fd[1] in mem.bk && mem.bk[mem.fd[1]] == 1
    ensures p in mem.head && mem.head[p].size == g.m[p].size
    ensures var g', mem' := g.(m := g.m[p := Chunk(g.m[p].size, Free(1))], bins := g.bins[1 := [p] + g.bins[1]]),
        UnsortedLinks(mem, p, g.m[p].size);
            && Consistent(mem', g', base, top, end, fast, binmap) && Kept(g'.m) == Kept(g.m) &&
                SameLinks(g'.m, mem.fd, mem'.fd)
  {
    hide Space, Aligned, Tags, Binned, LinkedBins, SizeRings, Bitmap, FastLists, Kept, SameLinks;
    FreeChunkTags(g.m, base, top, end, mem.head, mem.foot, p);
    IntoUnsorted(g.m, g.bins, g.firsts, mem.fd, mem.bk, mem.fdn, mem.bkn, binmap, fast, g.fasts, base, top, end, p);
    RebinnedTags(g.m, base, top, end, mem.head, mem.foot, p, 1);
    RebinnedKept(g.m, p, 1);
  }

  /** Everything after detached chunk p has joined its bin: rings, size ring, bitmap. */
  lemma PlacedStore(mem0: Memory, mem: Memory, g: Shape, base: int, top: int, end: int, fast: seq<int>,
        binmap: seq<nat>,
                    i: nat, k: nat, p: int, bck: int, fwd: int, f': seq<int>)
    requires Consistent(mem0, g, base, top, end, fast, binmap) && mem == mem0.(fdn := mem.fdn, bkn := mem.bkn)
    requires FitsBin(g.m, g.bins, i, k, p) && i > 1
    requires bck == (if k > 0 then g.bins[i][k - 1] else i) && fwd == (if k < |g.bins[i]| then g.bins[i][k] else i)
    requires if i < NSMALLBINS then mem == mem0
        else SizeRing(g.m, mem.fdn, mem.bkn, With(g.bins[i], k, p), f') && SameOutside(mem0, mem, g.bins[i], p)
    requires |g.firsts| == NBINS && (i < NSMALLBINS ==> f' == g.firsts[i])
    ensures 0 <= i / 32 < |binmap| == 4
    ensures Consistent(mem.(fd := mem.fd[p := fwd][bck := p], bk := mem.bk[p := bck][fwd := p]),
                       g.(m := g.m[p := Chunk(g.m[p].size, Free(i))], bins := g.bins[i := With(g.bins[i], k, p)],
                           firsts := g.firsts[i := f']),
                       base, top, end, fast, binmap[i / 32 := SetBit(binmap[i / 32], i % 32)])
  {
    SpaceBounds(g.m, base, top, end);
    assert |binmap| == 4;
    hide Space, Aligned, Tags, Binned, LinkedBins, SizeRings, Bitmap, FastLists, With, SizeRing;
    IntoBin(g.m, g.bins, mem.fd, mem.bk, fast, g.fasts, i, k, p, bck, fwd);
    PutSizeRings(g.m, mem0.fdn, mem0.bkn, mem.fdn, mem.bkn, g.bins, g.firsts, i, k, p, f');
    PutBitmap(binmap, g.bins, i, With(g.bins[i], k, p));
    RebinnedTags(g.m, base, top, end, mem.head, mem.foot, p, i);
  }

  /** Memory after the only unsorted chunk p of the given size has been cut at nb. */
  function SplitUnsorted(mem: Memory, p: int, size: int, nb: int): Memory {
    var r, large := p + nb, !InSmallbinRange(size - nb);
    mem.(head := mem.head[p := Head(nb, true)][r := Head(size - nb, true)], foot := mem.foot[p + size := size - nb],
         fd := mem.fd[1 := r][r := 1], bk := mem.bk[1 := r][r := 1],
         fdn := if large then mem.fdn[r := 0] else mem.fdn, bkn := if large then mem.bkn[r := 0] else mem.bkn)
  }

  /** Linking the remainder of a lone unsorted chunk as if the list had been emptied first. */
  lemma SplitUnsortedLinks(mem: Memory, p: int, size: int, nb: int)
    ensures var r, mem1 := p + nb, mem.(fd := mem.fd[1 := 1], bk := mem.bk[1 := 1]);
            UnsortedLinks(mem1.(head := mem.head[p := Head(nb, true)][r := Head(size - nb, true)], foot :=
                mem.foot[p + size := size - nb]), r, size - nb)
              == SplitUnsorted(mem, p, size, nb)
  {
    var r, mem1 := p + nb, mem.(fd := mem.fd[1 := 1], bk := mem.bk[1 := 1]);
    Relinked(mem.fd, r);
    Relinked(mem.bk, r);
    var a := UnsortedLinks(mem1.(head := mem.head[p := Head(nb, true)][r := Head(size - nb, true)], foot :=
        mem.foot[p + size := size - nb]), r, size - nb);
    assert a.fd == SplitUnsorted(mem, p, size, nb).fd;
    assert a.bk == SplitUnsorted(mem, p, size, nb).bk;
  }

  lemma Relinked(d: Links, r: int)
    ensures d[1 := 1][r := 1][1 := r] == d[1 := r][r := 1] == d[r := 1][1 := r]
  {
  }

  lemma LastRemainderSplit(mem: Memory, g: Shape, base: int, top: int, end: int, fast: seq<int>, binmap: seq<nat>,
        p: int, nb: int)
    requires Consistent(mem, g, base, top, end, fast, binmap) && NoLoose(g.m)
    requires ChunkSized(nb) && |g.bins| == NBINS && g.bins[1] == [p] && p in mem.head && mem.head[p].size > nb + MINSIZE
    ensures p in g.m && p !in Live(g.m) && mem.head[p].size == g.m[p].size
    ensures var g' := g.(m := Split(g.m, p, nb, Used, Free(1)), bins := g.bins[1 := [p + nb]]);
            && Consistent(SplitUnsorted(mem, p, g.m[p].size, nb), g', base, top, end, fast, binmap)
            && NoLoose(g'.m) && Kept(g'.m) == Kept(g.m)[p := Chunk(nb, Used)]
  {
    hide Consistent, Kept, NoLoose, LooseOnly, SameLinks, UnsortedLinks, SplitUnsorted;
    OffSmallRing(mem, g, base, top, end, fast, binmap, 1, 0);
    LoneUnsorted(g.m, g.bins[1], p);
    FreeHead(mem, g, base, top, end, fast, binmap, p);
    var size, r := g.m[p].size, p + nb;
    var mem1, g1 := mem.(fd := mem.fd[1 := 1], bk := mem.bk[1 := 1]),
        g.(m := g.m[p := Chunk(size, Free(0))], bins := g.bins[1 := []]);
    CarvedFree(mem1, g1, base, top, end, fast, binmap, p, nb);
    var mem2, g2 :=
        mem1.(head := mem.head[p := Head(nb, true)][r := Head(size - nb, true)], foot :=
        mem.foot[p + size := size - nb]),
                    g1.(m := Split(g1.m, p, nb, Used, Free(0)));
    LinkedUnsorted(mem2, g2, base, top, end, fast, binmap, r);
    LastRemainderLoose(g.m, p, nb);
    SplitUnsortedLinks(mem, p, size, nb);
    assert [r] + g2.bins[1] == [r];
    assert g2.bins[1 := [r]] == g.bins[1 := [r]];
  }

  /** Cutting the last remainder writes within it, behind it and to the bin header. */
  lemma KeepsSplit(mem: Memory, g: Shape, base: int, top: int, end: int, fast: seq<int>, binmap: seq<nat>,
        stored: Stores, p: int, nb: int)
    requires Consistent(mem, g, base, top, end, fast, binmap) && Keeps(g.m, mem, stored)
    requires p in g.m && g.m[p].kind != Used && MINSIZE <= nb <= g.m[p].size - MINSIZE
    ensures Keeps(g.m, SplitUnsorted(mem, p, g.m[p].size, nb), stored)
  {
    hide Consistent, Keeps, LinkSpot, Space;
    SpaceOf(mem, g, base, top, end, fast, binmap);
    HeaderSpot(g.m, 1);
    var m, size, r := g.m, g.m[p].size, p + nb;
    CutTagsKept(m, base, top, end, mem, stored, p, nb);
    var m1 := mem.(head := mem.head[p := Head(nb, true)][r := Head(size - nb, true)], foot :=
        mem.foot[p + size := size - nb]);
    LinksKept(m, base, top, end, m1, stored, 1, r);
    var m2 := m1.(fd := m1.fd[1 := r]);
    LinksKeptInside(m, base, top, end, m2, stored, p, r, 1);
    var m3 := m2.(fd := m2.fd[r := 1]);
    LinksKept(m, base, top, end, m3, stored, 1, r);
    var m4 := m3.(bk := m3.bk[1 := r]);
    LinksKeptInside(m, base, top, end, m4, stored, p, r, 1);
    var m5 := m4.(bk := m4.bk[r := 1]);
    if !InSmallbinRange(size - nb) {
      LinksKeptInside(m, base, top, end, m5, stored, p, r, 0);
      LinksKeptInside(m, base, top, end, m5.(fdn := m5.fdn[r := 0]), stored, p, r, 0);
    }
  }

  lemma SameLinksOutside(mem: Memory, l: seq<int>, p: int)
    ensures SameOutside(mem, mem, l, p)
  {
  }

  /** Placing a chunk in its bin writes to its neighbours there and to its size ring. */
  lemma KeepsPlaced(mem0: Memory, mem: Memory, g: Shape, base: int, top: int, end: int, fast: seq<int>,
        binmap: seq<nat>, stored: Stores,
                    i: nat, k: nat, p: int, bck: int, fwd: int)
    requires Consistent(mem0, g, base, top, end, fast, binmap) && Keeps(g.m, mem0, stored) &&
        mem == mem0.(fdn := mem.fdn, bkn := mem.bkn)
    requires 0 < i < NBINS && |g.bins| == NBINS && k <= |g.bins[i]| && p in g.m && g.m[p].kind == Free(0) &&
        SameOutside(mem0, mem, g.bins[i], p)
    requires bck == (if k > 0 then g.bins[i][k - 1] else i) && fwd == (if k < |g.bins[i]| then g.bins[i][k] else i)
    ensures Keeps(g.m[p := Chunk(g.m[p].size, Free(i))],
        mem.(fd := mem.fd[p := fwd][bck := p], bk := mem.bk[p := bck][fwd := p]), stored)
  {
    hide Consistent, Keeps, LinkSpot, Space, Kept, SameOutside;
    HeaderSpots(mem0, g, base, top, end, fast, binmap, i);
    HeaderSpot(g.m, i);
    ChunkSpot(g.m, p);
    SpaceOf(mem0, g, base, top, end, fast, binmap);
    SizeLinksKept(g.m, base, top, end, mem0, mem, stored, g.bins[i], p);
    assert k > 0 ==> bck in g.bins[i];
    assert k < |g.bins[i]| ==> fwd in g.bins[i];
    JoinKept(g.m, base, top, end, mem, stored, p, bck, fwd);
    RebinnedKept(g.m, p, i);
    KeepsKept(g.m, g.m[p := Chunk(g.m[p].size, Free(i))],
        mem.(fd := mem.fd[p := fwd][bck := p], bk := mem.bk[p := bck][fwd := p]), stored);
  }

  /** Taking the last chunk of a small bin writes to its neighbours and behind it. */
  lemma KeepsSmall(mem: Memory, g: Shape, base: int, top: int, end: int, fast: seq<int>, binmap: seq<nat>,
        stored: Stores, i: nat, k: nat, nb: int)
    requires Consistent(mem, g, base, top, end, fast, binmap) && Keeps(g.m, mem, stored)
    requires 1 < i < NSMALLBINS && |g.bins| == NBINS && k + 1 == |g.bins[i]| && g.bins[i][k] in mem.bk
    requires var p := g.bins[i][k];
        p in g.m && g.m[p] == Chunk(nb, Free(i)) && p + nb in mem.head &&
        mem.bk[p] == (if k > 0 then g.bins[i][k - 1] else i)
    ensures var p := g.bins[i][k];
            Keeps(g.m[p := Chunk(nb, Free(0))][p := Chunk(nb, Used)],
                  mem.(head := mem.head[p + nb := mem.head[p + nb].(prevInuse := true)], bk := mem.bk[i := mem.bk[p]],
                      fd := mem.fd[mem.bk[p] := i]), stored)
  {
    hide Consistent, Keeps, LinkSpot, Space, Binned, Live, NoLoose, NoHeld, NoFast;
    var p := g.bins[i][k];
    SpaceOf(mem, g, base, top, end, fast, binmap);
    ConsistentBinned(mem, g, base, top, end, fast, binmap);
    BinSpots(g.m, g.bins, i, k);
    HeaderSpot(g.m, i);
    LeftKept(g.m, base, top, end, mem, stored, p, mem.head[p + nb].(prevInuse := true), i, mem.bk[p]);
    SmallServed(g.m, p, nb);
    KeepsMore(g.m, g.m[p := Chunk(nb, Free(0))][p := Chunk(nb, Used)],
              mem.(head := mem.head[p + nb := mem.head[p + nb].(prevInuse := true)], bk := mem.bk[i := mem.bk[p]],
                  fd := mem.fd[mem.bk[p] := i]), stored, p, nb);
  }

  lemma WordsOf(mem: Memory, g: Shape, base: int, top: int, end: int, fast: seq<int>, binmap: seq<nat>)
    requires Consistent(mem, g, base, top, end, fast, binmap)
    ensures |g.bins| == NBINS && |binmap| == 4 && forall w | 0 <= w < 4 :: binmap[w] < WORD
  {
  }

  lemma ClearedBit(mem: Memory, g: Shape, base: int, top: int, end: int, fast: seq<int>, binmap: seq<nat>, i: nat)
    requires Consistent(mem, g, base, top, end, fast, binmap) && |g.bins| == NBINS && |binmap| == 4 &&
        2 <= i < NBINS && g.bins[i] == []
    ensures ClearBit(binmap[i / 32], i % 32) >= 0
    ensures Consistent(mem, g, base, top, end, fast, binmap[i / 32 := ClearBit(binmap[i / 32], i % 32)])
  {
    hide Space, Aligned, Tags, Binned, LinkedBins, SizeRings, Bitmap, FastLists;
    ClearBitmap(binmap, g.bins, i);
  }

  /** Bits of the binmap are only cleared. */
  ghost predicate OnlyCleared(binmap: seq<nat>, binmap': seq<nat>) {
    |binmap| == |binmap'| == 4 && forall j | 0 <= j < NBINS && BitOf(binmap', j) :: BitOf(binmap, j)
  }

  lemma ClearedNone(binmap: seq<nat>)
    requires |binmap| == 4
    ensures OnlyCleared(binmap, binmap)
  {
  }

  lemma ClearedOnce(binmap0: seq<nat>, binmap: seq<nat>, i: nat)
    requires OnlyCleared(binmap0, binmap) && i < NBINS && binmap[i / 32] < WORD
    ensures ClearBit(binmap[i / 32], i % 32) >= 0
    ensures OnlyCleared(binmap0, binmap[i / 32 := ClearBit(binmap[i / 32], i % 32)])
  {
    ClearBitOnly(binmap[i / 32], i % 32);
    hide ClearBit, TestBit;
    var binmap' := binmap[i / 32 := ClearBit(binmap[i / 32], i % 32)];
    forall j | 0 <= j < NBINS && BitOf(binmap', j) ensures BitOf(binmap, j) {}
  }

  /** The size a chunk has once nb bytes of it have been served. */
  function ServedSize(size: int, nb: int): int {
    if size - nb < MINSIZE then size else nb
  }

  lemma BinnedNotLive(mem: Memory, g: Shape, base: int, top: int, end: int, fast: seq<int>, binmap: seq<nat>, i: nat,
        k: nat)
    requires Consistent(mem, g, base, top, end, fast, binmap) && 0 < i < NBINS && k < |g.bins[i]|
    ensures g.bins[i][k] in g.m && g.m[g.bins[i][k]].kind == Free(i) && g.bins[i][k] !in Live(g.m) && g.bins[i][k] != 0
  {
    BinnedChunk(g.m, g.bins, i, k);
  }

  lemma LargeRing(mem: Memory, g: Shape, base: int, top: int, end: int, fast: seq<int>, binmap: seq<nat>, i: nat)
    requires Consistent(mem, g, base, top, end, fast, binmap) && NSMALLBINS <= i < NBINS
    ensures |g.bins| == |g.firsts| == NBINS
    ensures SizeRing(g.m, mem.fdn, mem.bkn, g.bins[i], g.firsts[i]) && NoDup(g.bins[i]) && Descending(g.m, g.bins[i])
    ensures Firsts(g.m, g.bins[i], g.firsts[i])
  {
    assert SizeRing(g.m, mem.fdn, mem.bkn, g.bins[i], g.firsts[i]);
  }

  lemma AlignedAtLeast(size: int, nb: int)
    requires size % 16 == 0 && nb % 16 == 0 && size + 1 >= nb
    ensures size >= nb
  {
  }

  lemma TooSmall(m: Arena, l: seq<int>, nb: int)
    requires Descending(m, l) && (l != [] ==> SizeOf(m, l[0]) < nb)
    ensures NoneFits(m, l, nb)
  {
  }

  lemma LastSlot(l: seq<int>, k: nat)
    requires NoDup(l) && k < |l|
    ensures l[k] == l[|l| - 1] <==> k == |l| - 1
  {
  }

  /** When the sizes after f[j] are too small, a chunk of the size of f[j] is a best fit. */
  lemma SmallestFit(mem: Memory, g: Shape, base: int, top: int, end: int, fast: seq<int>, binmap: seq<nat>, i: nat,
        j: nat, v: int, nb: nat)
    requires Consistent(mem, g, base, top, end, fast, binmap) && NSMALLBINS <= i < NBINS && i == BinIndex(nb)
    requires |g.bins| == |g.firsts| == NBINS && j < |g.firsts[i]|
    requires v in g.bins[i] && SizeOf(g.m, v) == SizeOf(g.m, g.firsts[i][j]) >= nb
    requires forall a | j < a < |g.firsts[i]| :: SizeOf(g.m, g.firsts[i][a]) < nb
    ensures v in g.m && g.m[v].size >= nb && BestFit(g.m, v, nb)
  {
    LargeRing(mem, g, base, top, end, fast, binmap, i);
    ConsistentBinned(mem, g, base, top, end, fast, binmap);
    InBinList(g.m, g.bins, i);
    hide Consistent, SizeRing, Firsts, Descending, Binned, NoDup, BestFit;
    forall x | x in g.m && g.m[x].kind == Free(i) && g.m[x].size >= nb ensures g.m[v].size <= g.m[x].size {
      FirstOfFits(g.m, g.bins[i], g.firsts[i], j, x, nb);
    }
    BestInOwnBin(g.m, g.bins, v, nb);
    assert BestFit(g.m, v, nb);
  }

  lemma ConsistentBinned(mem: Memory, g: Shape, base: int, top: int, end: int, fast: seq<int>, binmap: seq<nat>)
    requires Consistent(mem, g, base, top, end, fast, binmap)
    ensures Binned(g.m, g.bins)
  {
  }

  lemma BinnedAligned(mem: Memory, g: Shape, base: int, top: int, end: int, fast: seq<int>, binmap: seq<nat>)
    requires Consistent(mem, g, base, top, end, fast, binmap)
    ensures Binned(g.m, g.bins) && Aligned(g.m) && |g.bins| == NBINS
  {
  }

  lemma TopHead(mem: Memory, g: Shape, base: int, top: int, end: int, fast: seq<int>, binmap: seq<nat>)
    requires Consistent(mem, g, base, top, end, fast, binmap)
    ensures top in g.m && g.m[top].kind == Top && top in mem.head && mem.head[top] == Head(g.m[top].size, true) &&
        top != 0
    ensures top !in Live(g.m) && top + g.m[top].size == end
  {
    SpaceBounds(g.m, base, top, end);
    TopTags(g.m, base, top, end, mem.head, mem.foot);
  }

  lemma EmptyFitsNone(m: Arena, bins: Bins, nb: int)
    requires ChunkSized(nb) && SmallBinEmpty(bins, nb) && InSmallbinRange(nb)
    ensures NoneFits(m, bins[BinIndex(nb)], nb)
  {
  }

  /** A round that found nothing, stated of the arena before it. */
  lemma RoundFailed(mem: Memory, g: Shape, base: int, top: int, end: int, fast: seq<int>, binmap: seq<nat>, nb: int,
        remainder: int)
    requires Consistent(mem, g, base, top, end, fast, binmap) && |g.bins| == NBINS
    requires NoneStops(g.m, g.bins[1], RoundStart(g.bins[1]), nb, remainder) &&
        NoneLarge(RoundArena(g.m, g.bins[1]), nb)
    requires SizeOf(RoundArena(g.m, g.bins[1]), top) < nb + MINSIZE
    ensures RoundFails(g.m, g.bins[1], nb, remainder)
  {
    hide Space, RoundArena, NoneStops, NoneLarge;
    RoundTop(g.m, g.bins[1], base, top, end, nb);
  }

  /** With nothing left in fastbins the arena is settled. */
  lemma ConsolidatedBy(mem: Memory, g: Shape, base: int, top: int, end: int, fast: seq<int>, binmap: seq<nat>, m: Arena)
    requires Consistent(mem, g, base, top, end, fast, binmap) && NoFast(g.m) && NoHeld(g.m) && NoLoose(g.m)
    requires Live(g.m) == Live(m) && SortedKept(m, g.m)
    ensures Consolidated(m, g, base, end)
  {
    hide Space, Aligned, Tags, Binned, LinkedBins, SizeRings, Bitmap, FastLists, Live;
    forall x | x in g.m && g.m[x].kind.Free? ensures FollowedByUse(g.m, x) {
      FreeChunkTags(g.m, base, top, end, mem.head, mem.foot, x);
    }
    assert Settled(g.m, base, top, end);
  }

  /** The program holds exactly one more chunk, p: new to it, aligned, with room for
      bytes beside the size word, and not a whole minimal chunk too large. */
  ghost predicate Served(m: Arena, m': Arena, p: int, bytes: nat) {
    && p !in Live(m) && p in Live(m') && Live(m') == Live(m)[p := Live(m')[p]] && p % 16 == 0
    && bytes + SIZE_SZ <= Live(m')[p] <= Request2Size(bytes) + MINSIZE
  }

  /** What the program holds after a chunk it holds is cut in two. */
  lemma CutLive(m: Arena, p: int, nb: int)
    requires p in Live(m) && p + nb !in m && nb != 0
    ensures var m' := Split(m, p, nb, Used, Used);
            && Live(m') == Live(m)[p := nb][p + nb := m[p].size - nb]
            && (NoLoose(m) ==> NoLoose(m')) && (NoHeld(m) ==> NoHeld(m')) && FastLess(m, m')
  {
  }

  /** An allocated chunk cut in two. */
  lemma CutTags(mem: Memory, g: Shape, base: int, top: int, end: int, fast: seq<int>, binmap: seq<nat>, p: int, nb: int)
    requires Consistent(mem, g, base, top, end, fast, binmap)
    requires p in Live(g.m) && ChunkSized(nb) && nb <= Live(g.m)[p] - MINSIZE
    ensures p in mem.head && mem.head[p].size == g.m[p].size && p + nb !in g.m
    ensures Consistent(mem.(head :=
        mem.head[p + nb := Head(mem.head[p].size - nb, true)][p := mem.head[p].(size := nb)]),
                       g.(m := Split(g.m, p, nb, Used, Used)), base, top, end, fast, binmap)
    ensures var m' := Split(g.m, p, nb, Used, Used);
            && Live(m') == Live(g.m)[p := nb][p + nb := g.m[p].size - nb]
            && (NoLoose(g.m) ==> NoLoose(m')) && (NoHeld(g.m) ==> NoHeld(m')) && FastLess(g.m, m')
  {
    hide Space, Aligned, Tags, Binned, LinkedBins, SizeRings, Bitmap, FastLists, Live, NoLoose, NoHeld, NoFast, Split,
        ChunkSized;
    LiveIsUsed(g.m, p);
    SizedChunk(nb);
    CutSpace(g.m, base, top, end, mem.head, mem.foot, p, nb);
    SplitStore(g.m, g.bins, g.firsts, mem.fd, mem.fdn, mem.bkn, fast, g.fasts, p, nb, Used);
    CutLive(g.m, p, nb);
  }

  lemma LiveIsUsed(m: Arena, p: int)
    requires p in Live(m)
    ensures p in m && m[p].kind == Used && Live(m)[p] == m[p].size
  {
  }

  lemma SizedChunk(nb: int)
    requires ChunkSized(nb)
    ensures nb >= MINSIZE && nb % 16 == 0
  {
  }

  /** What the tests on size words find at a chunk that is not top, and behind it. */
  lemma ChunkWords(mem: Memory, g: Shape, base: int, top: int, end: int, fast: seq<int>, binmap: seq<nat>, p: int)
    requires Consistent(mem, g, base, top, end, fast, binmap) && p in g.m && g.m[p].kind != Top
    ensures p % 16 == 0 && p in mem.head && MINSIZE <= mem.head[p].size <= end - base
    ensures var next := p + mem.head[p].size;
        next in mem.head && CHUNK_HDR_SZ < mem.head[next].Word() <= end - base && mem.head[next].size < end - base
  {
    hide Space, Aligned, Tags, Binned, LinkedBins, SizeRings, Bitmap, FastLists;
    ChunkPlace(g.m, base, top, end, p);
    AlignedChunk(g.m, p);
    PrevChunkTags(g.m, base, top, end, mem.head, mem.foot, p);
    NextChunkTags(g.m, base, top, end, mem.head, mem.foot, p);
    NextFits(g.m, base, top, end, p);
  }

  /** The index of the chunk in front of a fastbin. */
  lemma FastHeadIndex(mem: Memory, g: Shape, base: int, top: int, end: int, fast: seq<int>, binmap: seq<nat>, i: nat)
    requires Consistent(mem, g, base, top, end, fast, binmap) && i < NFASTBINS
    ensures |fast| == NFASTBINS
    ensures fast[i] != 0 ==>
        fast[i] in mem.head && mem.head[fast[i]].size >= 0 && FastbinIndex(mem.head[fast[i]].size) == i &&
        fast[i] % 16 == 0
  {
    assert Chain(mem.fd, fast[i], g.fasts[i]);
    if fast[i] != 0 {
      var p := fast[i];
      assert p in g.fasts[i] && p in g.m && g.m[p].kind == Fast(i);
      hide Space, Aligned, Tags, Binned, LinkedBins, SizeRings, Bitmap, FastLists;
      AlignedChunk(g.m, p);
      HeadOf(g.m, base, top, end, mem.head, mem.foot, p);
    }
  }

  lemma FastHead(mem: Memory, g: Shape, base: int, top: int, end: int, fast: seq<int>, binmap: seq<nat>, i: nat)
    requires Consistent(mem, g, base, top, end, fast, binmap) && i < NFASTBINS
    ensures |fast| == NFASTBINS == |g.fasts| && (fast[i] == 0 <==> g.fasts[i] == []) &&
        (fast[i] != 0 ==> fast[i] == g.fasts[i][0])
  {
    assert Chain(mem.fd, fast[i], g.fasts[i]);
    SpaceBounds(g.m, base, top, end);
    FastEmpty(g.m, mem.fd, fast, g.fasts, i);
  }

  lemma TopFits(mem: Memory, g: Shape, base: int, top: int, end: int, fast: seq<int>, binmap: seq<nat>)
    requires Consistent(mem, g, base, top, end, fast, binmap)
    ensures top in mem.head && mem.head[top].size <= end - base
  {
    hide Aligned, Binned, LinkedBins, SizeRings, Bitmap, FastLists, Tags;
    TopTags(g.m, base, top, end, mem.head, mem.foot);
  }

  /** What the tests on the oldest unsorted chunk find. */
  lemma UnsortedTests(mem: Memory, g: Shape, base: int, top: int, end: int, fast: seq<int>, binmap: seq<nat>, k: nat)
    requires Consistent(mem, g, base, top, end, fast, binmap) && |g.bins| == NBINS && k + 1 == |g.bins[1]|
    ensures var p := g.bins[1][k];
      && p in mem.head && p in mem.fd && p in mem.bk && mem.bk[p] in mem.fd
      && CHUNK_HDR_SZ < mem.head[p].size <= end - base && mem.fd[mem.bk[p]] == p && mem.fd[p] == 1
    ensures var p := g.bins[1][k]; var next := p + mem.head[p].size;
      && next in mem.head && next in mem.foot && CHUNK_HDR_SZ <= mem.head[next].Word() <= end - base
      && mem.foot[next] == mem.head[p].size && !mem.head[next].prevInuse
  {
    hide Consistent;
    OffSmallRing(mem, g, base, top, end, fast, binmap, 1, k);
    FreeHead(mem, g, base, top, end, fast, binmap, g.bins[1][k]);
    ChunkWords(mem, g, base, top, end, fast, binmap, g.bins[1][k]);
  }

  lemma UnsortedMark(mem: Memory, g: Shape, base: int, top: int, end: int, fast: seq<int>, binmap: seq<nat>, k: nat)
    requires Consistent(mem, g, base, top, end, fast, binmap) && |g.bins| == NBINS && k < |g.bins[1]|
    ensures var p := g.bins[1][k];
        p in g.m && g.m[p].kind == Free(1) && p !in Live(g.m) &&
        (!InSmallbinRange(g.m[p].size) ==> NoSizeLinks(mem.fdn, mem.bkn, p))
  {
    SpaceBounds(g.m, base, top, end);
    BinnedChunk(g.m, g.bins, 1, k);
    hide Space, Aligned, Tags, Binned, LinkedBins, SizeRings, Bitmap, FastLists;
    SizeLinks(g.m, mem.fdn, mem.bkn, g.bins, g.firsts, 1, k);
  }

  lemma UnsortedChunk(mem: Memory, g: Shape, base: int, top: int, end: int, fast: seq<int>, binmap: seq<nat>, k: nat)
    requires Consistent(mem, g, base, top, end, fast, binmap) && |g.bins| == NBINS && k < |g.bins[1]|
    ensures var p := g.bins[1][k]; p in mem.bk && p in mem.head && (mem.bk[p] == 1 <==> k == 0)
    ensures var p := g.bins[1][k]; p in g.m && mem.head[p].size == g.m[p].size
  {
    hide Consistent;
    OffSmallRing(mem, g, base, top, end, fast, binmap, 1, k);
    FreeHead(mem, g, base, top, end, fast, binmap, g.bins[1][k]);
  }

  /** A chunk of another size does not go to the small bin of nb. */
  lemma WithoutLast(l: seq<int>, k: nat)
    requires k + 1 == |l|
    ensures Without(l, k) == l[..k]
  {
  }

  lemma OtherSmallBin(l: seq<int>, k: nat, size: int, nb: int)
    requires ChunkSized(size) && ChunkSized(nb) && size != nb && k < |l|
    ensures InSmallbinRange(nb) ==> BinIndex(size) != SmallbinIndex(nb)
    ensures |Without(l, k)| == |l| - 1
  {
    BinIndexRange(size);
    BinIndexRange(nb);
  }

  /** Whatever the program stores in its own chunks, the allocator finds its own words as
      it left them. */
  lemma StoresAreForeign(mem: Memory, g: Shape, base: int, top: int, end: int, fast: seq<int>, binmap: seq<nat>,
        w: int, v: int)
    requires Consistent(mem, g, base, top, end, fast, binmap) && OwnWord(g.m, w)
    ensures Consistent(Written(mem, w, v), g, base, top, end, fast, binmap)
  {
    hide Space, Aligned, Tags, Binned, LinkedBins, SizeRings, Bitmap, FastLists, OwnWord, Written;
    TagsWritten(g.m, base, top, end, mem, w, v);
    BinsWritten(g.m, base, top, end, mem, w, v, g.bins, g.firsts);
    FastWritten(g.m, base, top, end, mem, w, v, fast, g.fasts);
  }

  /** An arena that is all top. */
  lemma FreshState(start: int, size: int)
    requires start >= 4096 && start % 16 == 0 && ChunkSized(size)
    ensures var mem := Memory(map[start := Head(size, true)], map[], SelfLinked(), SelfLinked(), map[], map[]);
            var g := Shape(map[start := Chunk(size, Top)], NoChunks(NBINS), NoChunks(NBINS), NoChunks(NFASTBINS));
            && Consistent(mem, g, start, start, start + size, Nulls(NFASTBINS), [0, 0, 0, 0]) && Keeps(g.m, mem, map[])
            && Live(g.m) == map[] && NoLoose(g.m) && NoHeld(g.m) && NoFast(g.m)
  {
    hide NoChunks, Nulls, SelfLinked, Space, Aligned, Tags, Binned, LinkedBins, SizeRings, Bitmap, FastLists, Keeps;
    FreshTags(start, size);
    FreshBins(map[start := Chunk(size, Top)]);
    FreshLinks();
    assert Keeps(map[start := Chunk(size, Top)],
        Memory(map[start := Head(size, true)], map[], SelfLinked(), SelfLinked(), map[], map[]), map[]) by {
      NothingKept(map[start := Chunk(size, Top)],
          Memory(map[start := Head(size, true)], map[], SelfLinked(), SelfLinked(), map[], map[]));
    }
  }

  lemma NothingKept(m: Arena, mem: Memory)
    ensures Keeps(m, mem, map[])
  {
  }

  lemma FreshTags(start: int, size: int)
    requires start >= 4096 && start % 16 == 0 && ChunkSized(size)
    ensures var m := map[start := Chunk(size, Top)];
            Space(m, start, start, start + size) && Aligned(m) &&
                Tags(m, start, start, map[start := Head(size, true)], map[])
  {
  }

  lemma FreshBins(m: Arena)
    requires forall x | x in m :: m[x].kind == Top
    ensures Binned(m, NoChunks(NBINS)) && SizeRings(m, map[], map[], NoChunks(NBINS), NoChunks(NBINS))
    ensures Bitmap([0, 0, 0, 0], NoChunks(NBINS)) && FastLists(m, SelfLinked(), Nulls(NFASTBINS), NoChunks(NFASTBINS))
  {
  }

  lemma FreshLinks()
    ensures LinkedBins(SelfLinked(), SelfLinked(), NoChunks(NBINS))
  {
    forall i | 1 <= i < NBINS ensures Ring(SelfLinked(), SelfLinked(), [i] + NoChunks(NBINS)[i]) {
      assert IsHeader(i);
      assert [i] + NoChunks(NBINS)[i] == [i];
    }
  }

  /** The places of a ring of sizes that a new size is threaded between. */
  lemma RingPlace(m: Arena, fdn: Links, bkn: Links, l: seq<int>, f: seq<int>, j: nat)
    requires SizeRing(m, fdn, bkn, l, f) && j < |f|
    ensures f[j] in bkn && f[j] in l && bkn[f[j]] in l
  {
    hide SizeRing;
    SizeRingAt(m, fdn, bkn, l, f, j);
    SizeRingAt(m, fdn, bkn, l, f, if j > 0 then j - 1 else |f| - 1);
  }

  lemma ThreadedOutside(mem: Memory, l: seq<int>, p: int, b: int, n: int)
    requires b in l && n in l
    ensures SameOutside(mem, mem.(fdn := mem.fdn[p := n][b := p], bkn := mem.bkn[p := b][n := p]), l, p)
  {
  }

  lemma ServedChunk(m: Arena, m': Arena, p: int, bytes: nat)
    requires Served(m, m', p, bytes)
    ensures p !in Live(m) && p in Live(m') && Live(m') == Live(m)[p := Live(m')[p]] && p % 16 == 0
    ensures bytes + SIZE_SZ <= Live(m')[p] <= Request2Size(bytes) + MINSIZE
  {
  }

  lemma ServedIs(m: Arena, m': Arena, p: int, bytes: nat)
    requires p !in Live(m) && p in Live(m') && Live(m') == Live(m)[p := Live(m')[p]] && p % 16 == 0
    requires bytes + SIZE_SZ <= Live(m')[p] <= Request2Size(bytes) + MINSIZE
    ensures Served(m, m', p, bytes)
  {
  }

  /** A chunk more than live0, at p instead of q. */
  lemma LiveMoved(live0: map<int, int>, live1: map<int, int>, live2: map<int, int>, q: int, p: int)
    requires q !in live0 && q in live1 && live1 == live0[q := live1[q]] && (p != q ==> p !in live1)
    requires p in live2 && live2 == (live1 - {q})[p := live2[p]]
    ensures p !in live0 && live2 == live0[p := live2[p]]
  {
  }

  /** What malloc returns has the alignments up to its own. */
  lemma SmallAlignment(m: Arena, m': Arena, r: int, bytes: nat, alignment: nat)
    requires Served(m, m', r - CHUNK_HDR_SZ, bytes) && alignment <= MALLOC_ALIGNMENT
    ensures PowerOfTwo(alignment) ==> alignment > 0 && r % alignment == 0
  {
    hide PowerOfTwo, Live, Request2Size;
    if PowerOfTwo(alignment) {
      SmallPowers(alignment);
      SmallMultiples(r, alignment);
    }
  }

  lemma LeastIsItself(a: nat, alignment: nat)
    requires PowerOfTwo(alignment) && alignment > MALLOC_ALIGNMENT && alignment <= a
    requires forall b: nat | PowerOfTwo(b) && MINSIZE <= b && alignment <= b :: a <= b
    ensures a == alignment
  {
    FromSixteen(alignment);
  }

  lemma LiveEnds(mem: Memory, g: Shape, base: int, top: int, end: int, fast: seq<int>, binmap: seq<nat>, p: int)
    requires Consistent(mem, g, base, top, end, fast, binmap) && p in Live(g.m)
    ensures 0 < p < end
  {
    hide Aligned, Tags, Binned, LinkedBins, SizeRings, Bitmap, FastLists;
  }

  class State {
    const base: int
    const maxFast: nat

    var mem: Memory
    var fast: seq<int>
    var haveFast: bool
    var top: int
    var lastRemainder: int
    var binmap: seq<nat>
    var systemMem: int

    ghost var g: Shape

    /** What the program has stored in the chunks it holds. */
    ghost var stored: Stores

    ghost function End(): int
      reads this
    {
      base + systemMem
    }

    /** Everything the allocator keeps between its steps; chunks may be in transit. */
    ghost predicate Inv()
      reads this
    {
      Consistent(mem, g, base, top, End(), fast, binmap) && End() <= ADDRESS_LIMIT && maxFast <= MAX_FAST_SIZE &&
        Keeps(g.m, mem, stored)
    }

    /** Everything it keeps between calls. */
    ghost predicate Valid()
      reads this
    {
      Inv() && NoLoose(g.m) && NoHeld(g.m) && FastWithin(g.m, if haveFast then maxFast else 0)
    }

    /** Nothing in the arena serves nb bytes: top is too small, no fastbin is in use, and no
        chunk in a sorted bin is large enough. */
    ghost predicate Exhausted(nb: int)
      reads this
    {
      top in g.m && g.m[top].size < nb + MINSIZE && NoFast(g.m) && NoneLarge(g.m, nb)
    }

    /** The fd_nextsize word at a; that of a bin header is the fd word of the next header. */
    function NextSizeWord(a: int): int
      requires if a < NBINS then a + 1 in mem.fd else a in mem.fdn
      reads this
    {
      if a < NBINS then mem.fd[a + 1] else mem.fdn[a]
    }

    constructor (start: int, size: int, fastLimit: nat)
      requires start >= 4096 && start % 16 == 0 && ChunkSized(size) && fastLimit <= MAX_FAST_SIZE
      requires start + size <= ADDRESS_LIMIT
      ensures Valid() && base == start && systemMem == size && Live(g.m) == map[] && stored == map[]
    {
      base, maxFast, systemMem := start, fastLimit, size;
      mem := Memory(map[start := Head(size, true)], map[], SelfLinked(), SelfLinked(), map[], map[]);
      fast, haveFast, top, lastRemainder := Nulls(NFASTBINS), false, start, 0;
      binmap, stored := [0, 0, 0, 0], map[];
      g := Shape(map[start := Chunk(size, Top)], NoChunks(NBINS), NoChunks(NBINS), NoChunks(NFASTBINS));
      new;
      hide Consistent, Keeps, Live, NoLoose, NoHeld, FastWithin, NoFast;
      FreshState(start, size);
    }

    /** Takes free chunk p off its bin: the bin loses p and nothing else. */
    method UnlinkChunk(p: int, ghost i: nat, ghost k: nat)
      requires Inv() && 0 < i < NBINS && k < |g.bins[i]| && g.bins[i][k] == p
      modifies this`mem, this`g
      ensures Inv() && p in old(g.m)
      ensures g.m == old(g.m)[p := Chunk(old(g.m)[p].size, Free(0))]
      ensures g.bins == old(g.bins)[i := Without(old(g.bins)[i], k)] && g.fasts == old(g.fasts)
      ensures mem.head == old(mem.head) && mem.foot == old(mem.foot)
      ensures SameLinks(g.m, old(mem.fd), mem.fd) && Kept(g.m) == Kept(old(g.m))
    {
      hide Keeps, LinkSpot, SameOutside, Kept, Space, Aligned, Tags, Binned, LinkedBins, SizeRings, Bitmap, FastLists,
          SameLinks, Without;
      SpaceBounds(g.m, base, top, End());
      OffBin(g.m, g.bins, mem.fd, mem.bk, binmap, fast, g.fasts, i, k);
      FreeChunkTags(g.m, base, top, End(), mem.head, mem.foot, p);
      assert mem.foot[p + mem.head[p].size] == mem.head[p].size; // "corrupted size vs. prev_size" is not reached
      var fwd, bck := mem.fd[p], mem.bk[p];
      assert mem.bk[fwd] == p && mem.fd[bck] == p;               // "corrupted double-linked list" is not reached
      BinSpots(g.m, g.bins, i, k);
      LinksKept(g.m, base, top, End(), mem, stored, fwd, bck);
      mem := mem.(bk := mem.bk[fwd := bck]);
      LinksKept(g.m, base, top, End(), mem, stored, bck, fwd);
      mem := mem.(fd := mem.fd[bck := fwd]);
      ghost var mem1 := mem;
      ghost var f' := UnlinkSizeLinks(p, fwd, i, k);
      SizeLinksKept(g.m, base, top, End(), mem1, mem, stored, g.bins[i], p);
      RebinnedTags(g.m, base, top, End(), mem.head, mem.foot, p, 0);
      RebinnedKept(g.m, p, 0);
      KeepsKept(g.m, g.m[p := Chunk(g.m[p].size, Free(0))], mem, stored);
      g := g.(m := g.m[p := Chunk(g.m[p].size, Free(0))], bins := g.bins[i := Without(g.bins[i], k)], firsts :=
          g.firsts[i := f']);
    }

    /** The part of unlinking that repairs the ring of distinct sizes. */
    method UnlinkSizeLinks(p: int, fwd: int, ghost i: nat, ghost k: nat) returns (ghost f': seq<int>)
      requires Binned(g.m, g.bins) && SizeRings(g.m, mem.fdn, mem.bkn, g.bins, g.firsts) && Aligned(g.m) &&
          forall x | x in g.m :: x >= 4096
      requires 0 < i < NBINS && k < |g.bins[i]| && g.bins[i][k] == p &&
          fwd == (if k + 1 < |g.bins[i]| then g.bins[i][k + 1] else i)
      requires p in g.m && p in mem.head && mem.head[p].size == g.m[p].size
      requires i < 127 ==> i + 1 in mem.fd && mem.fd[i + 1] != 0
      modifies this`mem
      ensures |g.firsts| == NBINS && mem == old(mem).(fdn := mem.fdn, bkn := mem.bkn) &&
          SameOutside(old(mem), mem, g.bins[i], p)
      ensures SizeRings(g.m[p := Chunk(g.m[p].size, Free(0))], mem.fdn, mem.bkn, g.bins[i := Without(g.bins[i], k)],
          g.firsts[i := f'])
    {
      hide Keeps, Aligned, Binned, SizeRings, SizeRing, NoDup, Descending, Without;
      BinnedChunk(g.m, g.bins, i, k);
      SizeLinks(g.m, mem.fdn, mem.bkn, g.bins, g.firsts, i, k);
      WordInSmallRange(g.m, mem.head[p], p);
      f' := g.firsts[i];
      if !InSmallbinRange(mem.head[p].Word()) && mem.fdn[p] != 0 {
        SizeMirror(g.m, mem.fdn, mem.bkn, g.bins[i], g.firsts[i], p);
        var fn, bn := mem.fdn[p], mem.bkn[p];
        assert mem.bkn[fn] == p && mem.fdn[bn] == p; // "corrupted double-linked list (not small)" is not reached
        if k + 1 < |g.bins[i]| {
          SizeLinks(g.m, mem.fdn, mem.bkn, g.bins, g.firsts, i, k + 1);
          BinnedChunk(g.m, g.bins, i, k + 1);
        }
        if NextSizeWord(fwd) == 0 {
          f' := HeirTaken(g.m, mem.fdn, mem.bkn, g.bins[i], g.firsts[i], k);
          if fn == p {
            mem := mem.(fdn := mem.fdn[fwd := fwd], bkn := mem.bkn[fwd := fwd]);
          } else {
            mem := mem.(fdn := mem.fdn[fwd := fn]);
            mem := mem.(bkn := mem.bkn[fwd := bn]);
            mem := mem.(bkn := mem.bkn[fn := fwd]);
            mem := mem.(fdn := mem.fdn[bn := fwd]);
          }
        } else {
          f' := AloneTaken(g.m, mem.fdn, mem.bkn, g.bins[i], g.firsts[i], k);
          mem := mem.(bkn := mem.bkn[fn := bn]);
          mem := mem.(fdn := mem.fdn[bn := fn]);
        }
      } else if i >= NSMALLBINS {
        FollowerTaken(g.m, mem.fdn, mem.bkn, g.bins[i], g.firsts[i], k);
      }
      TakeSizeRings(g.m, old(mem.fdn), old(mem.bkn), mem.fdn, mem.bkn, g.bins, g.firsts, i, k, f');
    }

    /** Links free chunk p in front of the unsorted bin. */
    method LinkUnsorted(p: int)
      requires Inv() && p in g.m && g.m[p].kind == Free(0)
      modifies this`mem, this`g
      ensures Inv()
      ensures |old(g.bins)| == NBINS && g == old(g).(m := g.m, bins := old(g.bins)[1 := [p] + old(g.bins)[1]])
      ensures g.m == old(g.m)[p := Chunk(old(g.m)[p].size, Free(1))]
      ensures SameLinks(g.m, old(mem.fd), mem.fd) && Kept(g.m) == Kept(old(g.m))
      ensures mem.head == old(mem.head)
    {
      hide Keeps, LinkSpot, Space, Consistent, Kept, SameLinks;
      SpaceOf(mem, g, base, top, End(), fast, binmap);
      LinkedUnsorted(mem, g, base, top, End(), fast, binmap, p);
      HeaderSpots(mem, g, base, top, End(), fast, binmap, 1);
      HeaderSpot(g.m, 1);
      ChunkSpot(g.m, p);
      var fwd := mem.fd[1];
      assert mem.bk[fwd] == 1; // "corrupted unsorted chunks" is not reached
      LinksKept(g.m, base, top, End(), mem, stored, p, fwd);
      mem := mem.(fd := mem.fd[p := fwd]);
      LinksKept(g.m, base, top, End(), mem, stored, p, 1);
      mem := mem.(bk := mem.bk[p := 1]);
      if !InSmallbinRange(mem.head[p].size) {
        LinksKept(g.m, base, top, End(), mem, stored, p, 0);
        LinksKept(g.m, base, top, End(), mem.(fdn := mem.fdn[p := 0]), stored, p, 0);
        mem := mem.(fdn := mem.fdn[p := 0], bkn := mem.bkn[p := 0]);
      }
      LinksKept(g.m, base, top, End(), mem, stored, 1, p);
      mem := mem.(fd := mem.fd[1 := p]);
      LinksKept(g.m, base, top, End(), mem, stored, fwd, p);
      mem := mem.(bk := mem.bk[fwd := p]);
      KeepsKept(g.m, g.m[p := Chunk(g.m[p].size, Free(1))], mem, stored);
      g := g.(m := g.m[p := Chunk(g.m[p].size, Free(1))], bins := g.bins[1 := [p] + g.bins[1]]);
    }

    /** The part of a release that takes a free chunk before p, if there is one, off its bin. */
    method AbsorbPrevious(p: int, size: int) returns (q: int, size': int)
      requires Inv() && NoLoose(g.m) && p in g.m && g.m[p].kind == Held
      modifies this`mem, this`g
      ensures g.bins == RemovedFrom(old(g.bins), q)
      ensures Inv() && q in g.m && q <= p && size' == size + p - q && g.fasts == old(g.fasts) &&
          Kept(g.m) == Kept(old(g.m))
      ensures g.m.Keys == old(g.m).Keys && (q == p ==> g.m == old(g.m))
      ensures q != p ==>
          g.m == old(g.m)[q := Chunk(p - q, Free(0))] && old(g.m)[q].size == p - q && old(g.m)[q].kind.Free?
      ensures mem.head == old(mem.head) && q in mem.head && mem.head[q].prevInuse
      ensures SameLinks(g.m, old(mem.fd), mem.fd)
      ensures q == p ==> NoFreeBefore(g.m, p)
    {
      hide Keeps, Space, Aligned, Tags, Binned, LinkedBins, SizeRings, Bitmap, FastLists, SameLinks, NoLoose, Kept,
          NoFreeBefore, RemovedFrom, Without;
      PrevChunkTags(g.m, base, top, End(), mem.head, mem.foot, p);
      q, size' := p, size;
      if !mem.head[p].prevInuse {
        var prevsize := mem.foot[p];
        size' := size' + prevsize;
        q := p - prevsize;
        assert mem.head[q].size == prevsize; // "corrupted size vs. prev_size while consolidating" is not reached
        FreeIsBinned(g.m, q);
        ghost var k := BinSlot(g.m, g.bins, q);
        UnbinnedIs(g.m, g.bins, g.m[q].kind.bin, k);
        UnlinkChunk(q, g.m[q].kind.bin, k);
      } else {
        UnbinnedNone(g.m, g.bins, p);
        UsedBefore(g.m, base, top, End(), mem.head, mem.foot, p);
      }
      SameLinksSelf(old(g.m), mem.fd);
    }

    /** Gives chunk p, which the program has given up, back: merges it with a free chunk
        before it and a free chunk, or top, after it, and puts the result in the unsorted
        bin unless it became top. */
    method ReleaseChunk(p: int) returns (size: int, ghost lo: int)
      requires Inv() && NoLoose(g.m) && p in g.m && g.m[p].kind == Held
      modifies this`mem, this`g, this`top
      ensures Inv() && NoLoose(g.m)
      ensures Kept(g.m) == Kept(old(g.m)) - {p} && g.fasts == old(g.fasts) && OnlyLosses(old(g.bins), g.bins)
      ensures SameLinks(g.m, old(mem.fd), mem.fd) && Released(old(g.m), g.m, p, lo, size, top)
      ensures SortedKept(old(g.m), g.m)
      ensures ReleaseSpan(old(g.m), p, lo, lo + size)
      ensures ReleasedAt(ListsOf(old(g)), p, ListsOf(g), lo, lo + size)
    {
      hide Keeps, Space, Aligned, Tags, Binned, LinkedBins, SizeRings, Bitmap, FastLists, SameLinks, Merged, Kept,
          NoLoose, Released, OnlyLosses, SortedKept, RemovedFrom, ReleasedAt;
      SpaceBounds(g.m, base, top, End());
      FirstsCount(mem, g, base, top, End(), fast, binmap);
      PrevChunkTags(g.m, base, top, End(), mem.head, mem.foot, p);
      NextChunkTags(g.m, base, top, End(), mem.head, mem.foot, p);
      size := mem.head[p].size;
      var next := p + size;
      var nextsize := mem.head[next].size;
      assert p != top && next < End() && mem.head[next].prevInuse;                  // no "double free or corruption"
      assert mem.head[next].Word() > CHUNK_HDR_SZ && nextsize < systemMem;          // no "invalid next size (normal)"
      var q;
      q, size := AbsorbPrevious(p, size);
      ghost var m1, fd1 := g.m, mem.fd;
      if next != top {
        if !mem.head[next + nextsize].prevInuse { FreeIsBinned(old(g.m), next); }
        size := FinishInBin(p, q, next, nextsize, size);
        ReleasedKept(old(g.m), m1, base, top, End(), q, p, next, q + size, Free(1));
      } else {
        ReleasedKept(old(g.m), g.m, base, top, End(), q, p, next, End(), Top);
        UnbinnedNone(g.m, g.bins, top);
        size := FinishInTop(p, q, size);
      }
      SameLinksTwice(m1, g.m, old(mem.fd), fd1, mem.fd);
      ReleasedAs(old(g.m), m1, g.m, p, q, size, top);
      lo := q;
      ReleasedSortedKept(old(g.m), g.m, base, End(), p, lo, size, old(top), top);
      LossesFrom(old(g.m), old(g.bins), g.m, g.bins);
      ReleasedAtIs(ListsOf(old(g)), p, ListsOf(g), base, old(top), End(), lo, size, top);
    }

    /** The part of a release that takes a free chunk after p, if there is one, off its bin,
        and puts the merged chunk in the unsorted bin. */
    method FinishInBin(ghost p: int, q: int, next: int, nextsize: int, size: int) returns (size': int)
      requires Inv() && p in g.m && p != top && next == Next(g.m, p) && next != top && q in g.m && size == next - q
      requires q == p || (Next(g.m, q) == p && g.m[q].kind == Free(0))
      requires q in mem.head && mem.head[q].prevInuse && g.m[p].kind == Held
      requires next in mem.head && nextsize == mem.head[next].size && next + nextsize in mem.head
      requires !mem.head[next + nextsize].prevInuse ==> next in g.m && InBin(g.m, next)
      modifies this`mem, this`g
      ensures Inv() && g.fasts == old(g.fasts) && SameLinks(g.m, old(mem.fd), mem.fd)
      ensures g.m == Merged(old(g.m), q, q + size', Free(1)) && next in old(g.m) && size' >= size
      ensures size' == size || (q + size' == Next(old(g.m), next) && old(g.m)[next].kind.Free?)
      ensures size' == size <==> InUse(old(g.m)[next].kind)
      ensures var bins := RemovedFrom(old(g.bins), next); |bins| == NBINS && g.bins == bins[1 := [q] + bins[1]]
    {
      hide Keeps, Space, Aligned, Tags, Binned, LinkedBins, SizeRings, Bitmap, FastLists, SameLinks, Merged,
          OnlyLosses, Kept, NoLoose, RemovedFrom, Without;
      NextChunkTags(g.m, base, top, End(), mem.head, mem.foot, p);
      SameLinksSelf(g.m, mem.fd);
      size' := size;
      if !mem.head[next + nextsize].prevInuse {
        ghost var k := BinSlot(g.m, g.bins, next);
        UnbinnedIs(g.m, g.bins, g.m[next].kind.bin, k);
        UnlinkChunk(next, g.m[next].kind.bin, k);
        size' := size' + nextsize;
      } else {
        UnbinnedNone(g.m, g.bins, next);
      }
      ghost var m2, fd2 := g.m, mem.fd;
      ReleasedKept(old(g.m), m2, base, top, End(), q, p, next, q + size', Free(1));
      FinishRelease(p, q, next, size');
      SameLinksTwice(m2, g.m, old(mem.fd), fd2, mem.fd);
    }

    /** The part of a release that writes the tags of the merged chunk q and links it. */
    method FinishRelease(ghost p: int, q: int, next: int, size: int)
      requires Inv() && p in g.m && p != top && next == Next(g.m, p) && next != top && q in g.m && q + size in g.m
      requires q == p || Next(g.m, q) == p
      requires q + size == next || (next in g.m && Next(g.m, next) == q + size)
      requires InUse(g.m[q + size].kind) && q in mem.head && mem.head[q].prevInuse && q + size in mem.head
      requires q + size != next ==> !mem.head[q + size].prevInuse
      requires g.m[p].kind == Held
      requires (q != p ==> g.m[q].kind == Free(0)) && (q + size != next ==> g.m[next].kind == Free(0))
      modifies this`mem, this`g
      ensures Inv() && g.m == Merged(old(g.m), q, q + size, Free(1)) && g.fasts == old(g.fasts) &&
          OnlyLosses(old(g.bins), g.bins)
      ensures SameLinks(g.m, old(mem.fd), mem.fd)
      ensures |old(g.bins)| == NBINS && g.bins == old(g.bins)[1 := [q] + old(g.bins)[1]]
    {
      hide Keeps, Space, Aligned, Tags, Binned, LinkedBins, SizeRings, Bitmap, FastLists, SameLinks, Merged,
          OnlyLosses, SortedKept;
      MergedFree(mem, g, base, top, End(), fast, binmap, q, p, next, q + size);
      if q + size == next {
        HeadKept(g.m, base, top, End(), mem, stored, p, next, mem.head[next].(prevInuse := false));
        mem := mem.(head := mem.head[next := mem.head[next].(prevInuse := false)]);
      } else {
        assert mem.head[q + size := mem.head[q + size].(prevInuse := false)] == mem.head;
      }
      HeadKept(g.m, base, top, End(), mem, stored, q, q, Head(size, true));
      mem := mem.(head := mem.head[q := Head(size, true)]);
      FootKept(g.m, base, top, End(), mem, stored, if q + size == next then p else next, size);
      mem := mem.(foot := mem.foot[q + size := size]);
      KeepsMerged(g.m, base, top, End(), mem, stored, q, p, next, q + size, Free(0));
      MergedIgnoresInside(g.m, g.m, q, q + size, Free(1));
      g := g.(m := Merged(g.m, q, q + size, Free(0)));
      MergedAt(old(g.m), q, q + size, Free(0));
      LinkUnsorted(q);
      MergedSortedKept(old(g.m), base, top, End(), q, p, next, q + size);
      LossesFrom(old(g.m), old(g.bins), g.m, g.bins);
    }

    /** The part of a release next to top: chunk q, of size bytes up to top, and top become
        the new top. */
    method FinishInTop(ghost p: int, q: int, size: int) returns (size': int)
      requires Inv() && p in g.m && p != top && top == Next(g.m, p) && q in g.m && size == top - q
      requires q == p || (Next(g.m, q) == p && g.m[q].kind == Free(0))
      requires q in mem.head && mem.head[q].prevInuse && g.m[p].kind == Held
      modifies this`mem, this`g, this`top
      ensures Inv() && g == old(g).(m := Merged(old(g.m), q, End(), Top)) && top == q && size' == End() - q
      ensures SameLinks(g.m, old(mem.fd), mem.fd)
    {
      hide Keeps, Space, Aligned, Tags, Binned, LinkedBins, SizeRings, Bitmap, FastLists, SameLinks, Merged;
      TopHead(mem, g, base, top, End(), fast, binmap);
      TopFits(mem, g, base, top, End(), fast, binmap);
      size' := size + mem.head[top].size;
      MergedTop(mem, g, base, top, End(), fast, binmap, q, p);
      HeadKept(g.m, base, top, End(), mem, stored, q, q, Head(size', true));
      mem := mem.(head := mem.head[q := Head(size', true)]);
      KeepsMerged(g.m, base, top, End(), mem, stored, q, p, top, End(), Top);
      g := g.(m := Merged(g.m, q, End(), Top));
      SameLinksSelf(g.m, mem.fd);
      top := q;
    }

    /** Releases the chunks of a fastbin that has been torn down. */
    method ReleaseFastbin(first: int, ghost i: nat, ghost chunks: seq<int>)
      requires Inv() && NoLoose(g.m) && HeldAre(g.m, chunks, i) && Chain(mem.fd, first, chunks)
      modifies this`mem, this`g, this`top
      ensures Inv() && NoLoose(g.m) && NoHeld(g.m) && Live(g.m) == Live(old(g.m)) && g.fasts == old(g.fasts)
      ensures SortedKept(old(g.m), g.m)
      ensures ReleaseSteps(ListsOf(old(g)), chunks, ListsOf(g))
    {
      hide Keeps, Consistent, Kept, Live, NoLoose, NoHeld, Released, SortedKept, OnlyLosses, ReleasedAt,
          ReleaseSteps, Chain, HeldAre;
      SortedKeptSelf(g.m);
      ReleaseNone(ListsOf(g));
      var p := first;
      ghost var done, rest := [], chunks;
      while p != 0
        invariant Inv() && NoLoose(g.m) && Live(g.m) == Live(old(g.m)) && g.fasts == old(g.fasts)
        invariant SortedKept(old(g.m), g.m) && HeldAre(g.m, rest, i) && Chain(mem.fd, p, rest)
        invariant done + rest == chunks && ReleaseSteps(ListsOf(old(g)), done, ListsOf(g))
        decreases |rest|
      {
        HeldChunk(mem, g, base, top, End(), fast, binmap, rest, i, p);
        ChunkWords(mem, g, base, top, End(), fast, binmap, p);
        assert p % 16 == 0;                         // "unaligned fastbin chunk detected" is not reached
        assert FastbinIndex(mem.head[p].size) == i; // "invalid chunk size" is not reached
        var nextp := mem.fd[p];
        ghost var m1, fd1, g1 := g.m, mem.fd, g;
        var size;
        ghost var lo;
        size, lo := ReleaseChunk(p);
        ReleaseMore(ListsOf(old(g)), done, ListsOf(g1), p, ListsOf(g), lo, lo + size);
        SortedKeptTwice(old(g.m), m1, g.m);
        HeldLess(m1, g.m, rest, i);
        done, rest := done + [rest[0]], rest[1..];
        HeldChain(g.m, fd1, mem.fd, nextp, rest, i);
        KeptLive(m1, g.m, {p});
        assert Live(m1) - {p} == Live(m1);
        p := nextp;
      }
      HeldEnd(mem, g, base, top, End(), fast, binmap, rest, i);
      assert done + [] == done;
    }

    /** Tears down every fastbin, releasing its chunks one by one. */
    method MallocConsolidate()
      requires Valid()
      modifies this`mem, this`g, this`top, this`fast, this`haveFast
      ensures Valid() && NoFast(g.m) && Live(g.m) == Live(old(g.m)) && !haveFast && OnlyLosses(old(g.bins), g.bins)
      ensures Consolidated(old(g.m), g, base, End()) && |g.fasts| == NFASTBINS && forall j | 0 <= j < NFASTBINS ::
          g.fasts[j] == []
      ensures TearDown(ListsOf(old(g)), NFASTBINS, ListsOf(g))
    {
      hide Keeps, Consistent, Kept, Live, FastWithin, NoFast, NoLoose, NoHeld, Released, SortedKept, OnlyLosses,
          Consolidated, ReleaseSteps, TearDown;
      TearDownNone(ListsOf(g));
      SortedKeptSelf(g.m);
      haveFast := false;
      var i := 0;
      FastCounts(mem, g, base, top, End(), fast, binmap);
      ConsistentBinned(mem, g, base, top, End(), fast, binmap);
      FirstsCount(mem, g, base, top, End(), fast, binmap);
      while i < NFASTBINS
        invariant i <= NFASTBINS
        invariant Inv() && NoLoose(g.m) && NoHeld(g.m) && Live(g.m) == Live(old(g.m)) && !haveFast &&
            SortedKept(old(g.m), g.m)
        invariant |g.fasts| == NFASTBINS && |fast| == NFASTBINS && forall j | 0 <= j < i :: g.fasts[j] == []
        invariant TearDown(ListsOf(old(g)), i, ListsOf(g))
      {
        ghost var g1 := g;
        var p := fast[i];
        DetachFastbin(mem, g, base, top, End(), fast, binmap, i);
        fast := fast[i := 0];
        ghost var rest := g.fasts[i];
        DetachedSortedKept(g.m, i);
        SortedKeptTwice(old(g.m), g.m, Detached(g.m, i));
        KeepsLive(g.m, Detached(g.m, i), mem, stored);
        g := g.(m := Detached(g.m, i), fasts := g.fasts[i := []]);
        ghost var m1 := g.m;
        ReleaseFastbin(p, i, rest);
        SortedKeptTwice(old(g.m), m1, g.m);
        TearDownMore(ListsOf(old(g)), i, ListsOf(g1), ListsOf(g));
        i := i + 1;
      }
      NoFastLeft(mem, g, base, top, End(), fast, binmap);
      NoneWithin(g.m, 0);
      ConsolidatedBy(mem, g, base, top, End(), fast, binmap, old(g.m));
      ConsistentBinned(mem, g, base, top, End(), fast, binmap);
      LossesFrom(old(g.m), old(g.bins), g.m, g.bins);
    }

    /** free: a small chunk waits in its fastbin, any other is merged at once. */
    method IntFree(p: int)
      requires Valid() && p in Live(g.m)
      modifies this`mem, this`g, this`top, this`fast, this`haveFast, this`stored
      ensures Valid() && Live(g.m) == Live(old(g.m)) - {p} && stored == Forgotten(old(stored), p, Live(old(g.m))[p])
      ensures Live(old(g.m))[p] <= maxFast ==>
        && var idx := FastbinIndex(Live(old(g.m))[p]);
        && 0 <= idx < |old(fast)| && fast == old(fast)[idx := p] && g.bins == old(g.bins) && top == old(top)
        && |g.fasts| == |old(g.fasts)| == NFASTBINS && g.fasts[idx] == [p] + old(g.fasts)[idx]
      ensures Live(old(g.m))[p] > maxFast ==>
        (exists lo, size :: Released(old(g.m), g.m, p, lo, size, top)) || (old(haveFast) && !haveFast && NoFast(g.m))
      ensures Live(old(g.m))[p] > maxFast ==>
        exists m1, lo, size, t :: Coalesced(old(g.m), m1, p, lo, size, t, old(haveFast), g, haveFast, base, End())
      ensures FreeStep(ListsOf(old(g)), p, maxFast, old(haveFast), ListsOf(g), haveFast)
    {
      hide Keeps, Live, Forgotten, Consistent, Kept, FastWithin, NoFast, NoLoose, NoHeld, Released, ReleasedAt,
          TearDown;
      LiveIsUsed(g.m, p);
      UsedChunk(mem, g, base, top, End(), fast, binmap, p);
      var size := mem.head[p].size;
      ChunkWords(mem, g, base, top, End(), fast, binmap, p);
      assert p % 16 == 0;                       // "free(): invalid pointer" is not reached
      assert size >= MINSIZE && size % 16 == 0; // "free(): invalid size" is not reached
      HeldLive(g.m, p);
      KeepsLess(g.m, g.m[p := Chunk(size, Held)], mem, stored, p);
      if size <= maxFast {
        var next := p + size;
        assert CHUNK_HDR_SZ < mem.head[next].Word() && mem.head[next].size < systemMem; // "invalid next size (fast)"
        haveFast := true;
        var idx := FastbinIndex(size);
        FastHeadIndex(mem, g, base, top, End(), fast, binmap, idx);
        PushedFast(mem, g, base, top, End(), fast, binmap, idx, p);
        PushedWithin(g.m, p, idx, old(haveFast), maxFast);
        KeepsPushed(mem, g, base, top, End(), fast, binmap, stored, p, idx);
        var first := fast[idx];
        assert first != p; // "double free or corruption (fasttop)" is not reached
        assert first != 0 ==> FastbinIndex(mem.head[first].size) == idx; // "invalid fastbin entry (free)"
        mem := mem.(fd := mem.fd[p := first]);
        fast := fast[idx := p];
        g := g.(m := g.m[p := Chunk(g.m[p].size, Fast(idx))], fasts := g.fasts[idx := [p] + g.fasts[idx]]);
        stored := Forgotten(stored, p, size);
      } else {
        ghost var m1 := g.m;
        GivenUp(mem, g, base, top, End(), fast, binmap, p);
        g, stored := g.(m := g.m[p := Chunk(size, Held)]), Forgotten(stored, p, size);
        var total;
        ghost var lo;
        total, lo := ReleaseChunk(p);
        ReleasedHeld(m1, g.m, p, lo, total, top);
        KeptLive(m1, g.m, {p});
        KeptNone(m1, g.m, p);
        SpanRekinded(m1, p, lo, lo + total);
        ghost var m2, t, c := g.m, top, ListsOf(g);
        if total >= FASTBIN_CONSOLIDATION_THRESHOLD && haveFast {
          MallocConsolidate();
        }
        CoalescedAs(m1, m2, p, lo, total, t, old(haveFast), g, haveFast, base, End());
        LargeFreedAs(ListsOf(old(g)), p, maxFast, old(haveFast), ListsOf(g), haveFast, c, lo, lo + total);
      }
    }

    /** Serves nb bytes from detached chunk victim: all of it, or its front with the
        remainder back in the unsorted bin. */
    method Carve(victim: int, nb: int) returns (remainder: int)
      requires Inv() && victim in g.m && g.m[victim].kind == Free(0) && LooseOnly(g.m, victim)
      requires ChunkSized(nb) && nb <= g.m[victim].size
      modifies this`mem, this`g
      ensures Inv() && NoLoose(g.m) && g.fasts == old(g.fasts)
      ensures var size := ServedSize(old(g.m)[victim].size, nb);
              Kept(g.m) == Kept(old(g.m))[victim := Chunk(size, Used)]
      ensures victim in mem.head && mem.head[victim].prevInuse
      ensures remainder == if old(g.m)[victim].size - nb < MINSIZE then 0 else victim + nb
      ensures |old(g.bins)| == NBINS &&
          g.bins == if old(g.m)[victim].size - nb < MINSIZE then old(g.bins)
                    else old(g.bins)[1 := [victim + nb] + old(g.bins)[1]]
    {
      hide Keeps, LinkSpot, Space, Live, Consistent, Kept, NoLoose, LooseOnly, Split;
      SpaceOf(mem, g, base, top, End(), fast, binmap);
      FirstsCount(mem, g, base, top, End(), fast, binmap);
      ChunkSpot(g.m, victim);
      FreeHead(mem, g, base, top, End(), fast, binmap, victim);
      var size := mem.head[victim].size;
      if size - nb < MINSIZE {
        TakenWhole(mem, g, base, top, End(), fast, binmap, victim);
        LooseSettled(g.m, victim, Used);
        HeadKept(g.m, base, top, End(), mem, stored, victim, victim + size,
            mem.head[victim + size].(prevInuse := true));
        KeptLiveMore(g.m, g.m[victim := Chunk(size, Used)], victim, size);
        mem := mem.(head := mem.head[victim + size := mem.head[victim + size].(prevInuse := true)]);
        KeepsMore(g.m, g.m[victim := Chunk(size, Used)], mem, stored, victim, size);
        g := g.(m := g.m[victim := Chunk(size, Used)]);
        remainder := 0;
      } else {
        CarvedFree(mem, g, base, top, End(), fast, binmap, victim, nb);
        LooseSplit(g.m, victim, nb);
        remainder := victim + nb;
        HeadKept(g.m, base, top, End(), mem, stored, victim, victim, Head(nb, true));
        mem := mem.(head := mem.head[victim := Head(nb, true)]);
        HeadKept(g.m, base, top, End(), mem, stored, victim, remainder, Head(size - nb, true));
        mem := mem.(head := mem.head[remainder := Head(size - nb, true)]);
        FootKept(g.m, base, top, End(), mem, stored, victim, size - nb);
        mem := mem.(foot := mem.foot[remainder + (size - nb) := size - nb]);
        KeptLiveMore(g.m, Split(g.m, victim, nb, Used, Free(0)), victim, nb);
        KeepsMore(g.m, Split(g.m, victim, nb, Used, Free(0)), mem, stored, victim, nb);
        g := g.(m := Split(g.m, victim, nb, Used, Free(0)));
        LooseSettled(g.m, remainder, Free(1));
        LinkUnsorted(remainder);
      }
    }

    /** Serves a request from its fastbin, if that has a chunk. */
    method TakeFast(nb: int) returns (victim: int)
      requires Valid() && ChunkSized(nb) && nb <= maxFast
      modifies this`g, this`fast
      ensures Valid()
      ensures 0 <= FastbinIndex(nb) < |old(fast)| && victim == old(fast)[FastbinIndex(nb)]
      ensures victim == 0 ==> g == old(g) && FastEmptyFor(g.fasts, nb, maxFast)
      ensures victim != 0 ==> Chosen(FastList, old(g), victim, nb, maxFast, lastRemainder)
      ensures victim != 0 ==>
        && var idx, fasts := FastbinIndex(nb), old(g.fasts);
        && 0 <= idx < |fasts| && fasts[idx] != [] && g.bins == old(g.bins) && g.fasts == fasts[idx := fasts[idx][1..]]
      ensures victim != 0 ==> victim !in Live(old(g.m)) && Live(g.m) == Live(old(g.m))[victim := nb]
    {
      hide Keeps, Consistent, Live, FastWithin, NoFast, NoLoose, NoHeld;
      var idx := FastbinIndex(nb);
      FastCounts(mem, g, base, top, End(), fast, binmap);
      FastHeadIndex(mem, g, base, top, End(), fast, binmap, idx);
      FastHead(mem, g, base, top, End(), fast, binmap, idx);
      victim := fast[idx];
      assert victim != 0 ==> victim % 16 == 0; // "unaligned fastbin chunk detected 2" is not reached
      PoppedFast(mem, g, base, top, End(), fast, binmap, idx, nb);
      if victim != 0 {
        assert FastbinIndex(mem.head[victim].size) == idx; // "memory corruption (fast)" is not reached
        KeepsMore(g.m, g.m[victim := Chunk(nb, Used)], mem, stored, victim, nb);
        fast := fast[idx := mem.fd[victim]];
        g := g.(m := g.m[victim := Chunk(nb, Used)], fasts := g.fasts[idx := g.fasts[idx][1..]]);
      }
    }

    /** Serves a small request from its own bin, if that has a chunk. */
    method TakeSmall(nb: int) returns (victim: int)
      requires Valid() && ChunkSized(nb) && InSmallbinRange(nb)
      modifies this`mem, this`g
      ensures Valid()
      ensures victim == 0 ==> g == old(g) && SmallBinEmpty(g.bins, nb)
      ensures victim != 0 ==> victim !in Live(old(g.m)) && Live(g.m) == Live(old(g.m))[victim := nb]
      ensures victim != 0 && FastEmptyFor(old(g.fasts), nb, maxFast) ==>
          Chosen(SmallBin, old(g), victim, nb, maxFast, lastRemainder)
      ensures victim != 0 ==>
        && var idx, bins := SmallbinIndex(nb), old(g.bins);
        && |bins| == NBINS && bins[idx] != [] && victim == bins[idx][|bins[idx]| - 1]
        && g.bins == bins[idx := Without(bins[idx], |bins[idx]| - 1)] == RemovedFrom(bins, victim)
        && g.fasts == old(g.fasts)
      ensures victim != 0 ==> victim in mem.head && mem.head[victim].prevInuse
    {
      hide Keeps, Consistent, Live, Kept, FastWithin, NoFast, NoLoose, NoHeld, Without, RemovedFrom, Binned;
      var idx := SmallbinIndex(nb);
      LastOfBin(mem, g, base, top, End(), fast, binmap, idx);
      victim := mem.bk[idx];
      if victim != idx {
        ghost var k := |g.bins[idx]| - 1;
        SmallChunk(mem, g, base, top, End(), fast, binmap, idx, k, nb);
        ConsistentBinned(mem, g, base, top, End(), fast, binmap);
        UnbinnedIs(g.m, g.bins, idx, k);
        FreeHead(mem, g, base, top, End(), fast, binmap, victim);
        OffSmallRing(mem, g, base, top, End(), fast, binmap, idx, k);
        ghost var g1, mem1 :=
              g.(m := g.m[victim := Chunk(nb, Free(0))], bins := g.bins[idx := Without(g.bins[idx], k)]),
                              mem.(fd := mem.fd[mem.bk[victim] := idx], bk := mem.bk[idx := mem.bk[victim]]);
        TakenWhole(mem1, g1, base, top, End(), fast, binmap, victim);
        SmallServed(g.m, victim, nb);
        var bck := mem.bk[victim];
        assert mem.fd[bck] == victim; // "smallbin double linked list corrupted" is not reached
        KeepsSmall(mem, g, base, top, End(), fast, binmap, stored, idx, k, nb);
        mem := mem.(head := mem.head[victim + nb := mem.head[victim + nb].(prevInuse := true)]);
        mem := mem.(bk := mem.bk[idx := bck]);
        mem := mem.(fd := mem.fd[bck := idx]);
        g := g1.(m := g1.m[victim := Chunk(nb, Used)]);
      } else {
        victim := 0;
      }
    }

    /** Walks the ring of distinct sizes down to the first size that is not larger. */
    method SeekLarge(victim: int, first: int, ghost i: nat) returns (fwd: int, ghost k: nat, ghost j: nat)
      requires Inv() && victim in g.m && g.m[victim].kind == Free(0) && NSMALLBINS <= i < NBINS &&
          |g.bins| == |g.firsts| == NBINS
      requires g.bins[i] != [] && first == g.bins[i][0] &&
          SizeOf(g.m, g.bins[i][|g.bins[i]| - 1]) <= SizeOf(g.m, victim)
      ensures k < |g.bins[i]| && j < |g.firsts[i]| && fwd == g.bins[i][k] == g.firsts[i][j] &&
          FirstOfSize(g.m, g.bins[i], k)
      ensures fwd in mem.head && mem.head[fwd] == Head(SizeOf(g.m, fwd), true) &&
          SizeOf(g.m, fwd) <= SizeOf(g.m, victim)
      ensures forall a | 0 <= a < j :: SizeOf(g.m, g.firsts[i][a]) > SizeOf(g.m, victim)
    {
      hide Keeps, Consistent, SizeRing, Firsts, Descending, With, NoDup, FirstOfSize;
      LargeBin(mem, g, base, top, End(), fast, binmap, i, victim);
      ghost var l, f := g.bins[i], g.firsts[i];
      SmallestLast(g.m, l, f);
      fwd, j := first, 0;
      k := FirstSlot(g.m, l, f, j);
      LargeChunk(mem, g, base, top, End(), fast, binmap, i, k);
      SizeRingAt(g.m, mem.fdn, mem.bkn, l, f, j);
      while mem.head[victim].Word() < mem.head[fwd].Word()
        invariant j < |f| && fwd == f[j] && fwd in mem.head && mem.head[fwd] == Head(SizeOf(g.m, fwd), true) &&
            fwd in mem.fdn
        invariant k < |l| && l[k] == f[j] && FirstOfSize(g.m, l, k)
        invariant forall a | 0 <= a < j :: SizeOf(g.m, f[a]) > SizeOf(g.m, victim)
        decreases |f| - j
      {
        SizeRingAt(g.m, mem.fdn, mem.bkn, l, f, j);
        fwd := mem.fdn[fwd];
        j := j + 1;
        k := FirstSlot(g.m, l, f, j);
        LargeChunk(mem, g, base, top, End(), fast, binmap, i, k);
        SizeRingAt(g.m, mem.fdn, mem.bkn, l, f, j);
      }
    }

    /** Finds the place of a large chunk in its bin, in descending order of size, and
        threads it into the ring of distinct sizes if its size is new there.  A chunk
        of a known size goes right behind the first one of that size. */
    method PlaceLarge(victim: int, i: nat) returns (bck: int, fwd: int, ghost k: nat, ghost f': seq<int>)
      requires Inv() && victim in g.m && g.m[victim].kind == Free(0) && BinIndex(g.m[victim].size) == i
      requires NSMALLBINS <= i < NBINS && NoSizeLinks(mem.fdn, mem.bkn, victim)
      modifies this`mem
      ensures mem == old(mem).(fdn := mem.fdn, bkn := mem.bkn)
      ensures FitsBin(g.m, g.bins, i, k, victim) && k == Place(g.m, g.bins[i], g.m[victim].size)
      ensures bck == (if k > 0 then g.bins[i][k - 1] else i) && fwd == (if k < |g.bins[i]| then g.bins[i][k] else i)
      ensures SizeRing(g.m, mem.fdn, mem.bkn, With(g.bins[i], k, victim), f')
      ensures SameOutside(old(mem), mem, g.bins[i], victim)
    {
      hide Keeps, Consistent, SizeRing, Firsts, Descending, With, NoDup, Place;
      LastOfBin(mem, g, base, top, End(), fast, binmap, i);
      LargeBin(mem, g, base, top, End(), fast, binmap, i, victim);
      ghost var l, f := g.bins[i], g.firsts[i];
      bck, fwd := i, mem.fd[i];
      if fwd != bck {
        SmallestLast(g.m, l, f);
        LargeChunk(mem, g, base, top, End(), fast, binmap, i, |l| - 1);
        if mem.head[victim].Word() < mem.head[mem.bk[bck]].Word() {
          fwd := bck;
          bck := mem.bk[bck];
          k := |l|;
          PlaceAt(g.m, l, k, SizeOf(g.m, victim));
          f' := ThreadBefore(victim, mem.fd[fwd], i, k, |f|);
        } else {
          ghost var j: nat;
          fwd, k, j := SeekLarge(victim, fwd, i);
          LargerBefore(g.m, l, f, j, k, SizeOf(g.m, victim));
          PlaceAt(g.m, l, k, SizeOf(g.m, victim));
          if mem.head[victim].Word() == mem.head[fwd].Word() {
            RingLinks(mem, g, base, top, End(), fast, binmap, i, k);
            FollowerFits(g.m, l, k, victim);
            fwd := mem.fd[fwd];
            k := k + 1;
            FollowerPut(g.m, mem.fdn, mem.bkn, l, f, k, victim);
            f' := f;
          } else {
            f' := ThreadBefore(victim, fwd, i, k, j);
          }
          if k < |l| { RingLinks(old(mem), g, base, top, End(), fast, binmap, i, k); }
          bck := mem.bk[fwd];
          assert mem.fd[bck] == fwd; // "largebin double linked list corrupted (bk)" is not reached
        }
      } else {
        mem := mem.(fdn := mem.fdn[victim := victim], bkn := mem.bkn[victim := victim]);
        k, f' := 0, [victim];
        PlaceAt(g.m, l, k, SizeOf(g.m, victim));
        OnlyPut(g.m, old(mem.fdn), old(mem.bkn), victim);
      }
    }

    /** Threads a chunk of a new size into the size ring in front of first chunk n. */
    method ThreadBefore(victim: int, n: int, ghost i: nat, ghost k: nat, ghost j: nat) returns (ghost f': seq<int>)
      requires |g.bins| == |g.firsts| == NBINS && i < NBINS && k <= |g.bins[i]| && j <= |g.firsts[i]|
      requires SizeRing(g.m, mem.fdn, mem.bkn, g.bins[i], g.firsts[i]) && NoDup(g.bins[i]) && Descending(g.m, g.bins[i])
      requires victim !in g.bins[i] && g.firsts[i] != [] && NewSize(g.m, g.bins[i], g.firsts[i], k, j, victim)
      requires n == (if j < |g.firsts[i]| then g.firsts[i][j] else g.firsts[i][0])
      modifies this`mem
      ensures mem == old(mem).(fdn := mem.fdn, bkn := mem.bkn)
      ensures SizeRing(g.m, mem.fdn, mem.bkn, With(g.bins[i], k, victim), f')
      ensures SameOutside(old(mem), mem, g.bins[i], victim)
    {
      hide Keeps, SameOutside, SizeRing, Firsts, Descending, With, NoDup, NewSize;
      ghost var f := g.firsts[i];
      SizeRingAt(g.m, mem.fdn, mem.bkn, g.bins[i], f, if j < |f| then j else 0);
      RingPlace(g.m, mem.fdn, mem.bkn, g.bins[i], f, if j < |f| then j else 0);
      ThreadedOutside(mem, g.bins[i], victim, mem.bkn[n], n);
      FirstPut(g.m, mem.fdn, mem.bkn, g.bins[i], f, k, j, victim, mem.bkn[n], n);
      assert mem.fdn[mem.bkn[n]] == n; // "largebin double linked list corrupted (nextsize)" is not reached
      mem := mem.(fdn := mem.fdn[victim := n]);
      mem := mem.(bkn := mem.bkn[victim := mem.bkn[n]]);
      mem := mem.(bkn := mem.bkn[n := victim]);
      mem := mem.(fdn := mem.fdn[mem.bkn[victim] := victim]);
      f' := With(f, j, victim);
    }

    /** Puts a chunk that was not taken from the unsorted bin into its own bin and marks
        that bin in the bitmap. */
    method PlaceInBin(victim: int) returns (ghost k: nat)
      requires Inv() && victim in g.m && g.m[victim].kind == Free(0) && LooseOnly(g.m, victim)
      requires !InSmallbinRange(g.m[victim].size) ==> NoSizeLinks(mem.fdn, mem.bkn, victim)
      modifies this`mem, this`g, this`binmap
      ensures Inv() && NoLoose(g.m) && Kept(g.m) == Kept(old(g.m)) && g.fasts == old(g.fasts)
      ensures var i := BinIndex(old(g.m)[victim].size);
              && 1 < i < NBINS == |old(g.bins)| && k <= |old(g.bins)[i]|
              && g.bins == old(g.bins)[i := With(old(g.bins)[i], k, victim)]
      ensures g.bins == Filed(old(g.m), old(g.bins), victim)
      ensures g.m == old(g.m)[victim := Chunk(old(g.m)[victim].size, Free(BinIndex(old(g.m)[victim].size)))]
    {
      hide Keeps, SameOutside, Consistent, Kept, NoLoose, LooseOnly, With, SizeRing, Place;
      FreeHead(mem, g, base, top, End(), fast, binmap, victim);
      var size := mem.head[victim].size;
      BinIndexRange(size);
      var i := BinIndex(size);
      LastOfBin(mem, g, base, top, End(), fast, binmap, i);
      FirstsCount(mem, g, base, top, End(), fast, binmap);
      var bck, fwd;
      ghost var f';
      if InSmallbinRange(size) {
        bck, fwd := i, mem.fd[i];
        k := 0;
        SmallFits(mem, g, base, top, End(), fast, binmap, i, victim);
        f' := g.firsts[i];
      } else {
        bck, fwd, k, f' := PlaceLarge(victim, i);
      }
      if InSmallbinRange(size) { SameLinksOutside(mem, g.bins[i], victim); }
      KeepsPlaced(old(mem), mem, g, base, top, End(), fast, binmap, stored, i, k, victim, bck, fwd);
      PlacedStore(old(mem), mem, g, base, top, End(), fast, binmap, i, k, victim, bck, fwd, f');
      LooseSettled(g.m, victim, Free(i));
      RebinnedKept(g.m, victim, i);
      binmap := binmap[i / 32 := SetBit(binmap[i / 32], i % 32)];
      mem := mem.(bk := mem.bk[victim := bck]);
      mem := mem.(fd := mem.fd[victim := fwd]);
      mem := mem.(bk := mem.bk[fwd := victim]);
      mem := mem.(fd := mem.fd[bck := victim]);
      g := g.(m := g.m[victim := Chunk(size, Free(i))], bins := g.bins[i := With(g.bins[i], k, victim)], firsts :=
          g.firsts[i := f']);
      WithFront(old(g.bins)[i], victim);
    }

    /** Serves a small request from the only unsorted chunk, the remainder of the last
        split, and leaves what is left of it as the only unsorted chunk. */
    method SplitLastRemainder(victim: int, nb: int)
      requires Valid() && ChunkSized(nb) && |g.bins| == NBINS && g.bins[1] == [victim]
      requires victim in mem.head && mem.head[victim].size > nb + MINSIZE
      modifies this`mem, this`g, this`lastRemainder
      ensures Valid() && g.fasts == old(g.fasts)
      ensures victim !in Live(old(g.m)) && Live(g.m) == Live(old(g.m))[victim := nb]
      ensures g.bins == old(g.bins)[1 := [victim + nb]] && lastRemainder == victim + nb
      ensures victim in mem.head && mem.head[victim].prevInuse
    {
      hide Keeps, Consistent, Kept, NoLoose, LooseOnly, Split, SameLinks, FastWithin, NoFast, NoHeld, Live;
      LastRemainderSplit(mem, g, base, top, End(), fast, binmap, victim, nb);
      var size := mem.head[victim].size;
      var remainderSize := size - nb;
      var remainder := victim + nb;
      mem := mem.(bk := mem.bk[1 := remainder], fd := mem.fd[1 := remainder]);
      lastRemainder := remainder;
      mem := mem.(bk := mem.bk[remainder := 1], fd := mem.fd[remainder := 1]);
      if !InSmallbinRange(remainderSize) {
        mem := mem.(fdn := mem.fdn[remainder := 0], bkn := mem.bkn[remainder := 0]);
      }
      mem := mem.(head := mem.head[victim := Head(nb, true)]);
      mem := mem.(head := mem.head[remainder := Head(remainderSize, true)]);
      mem := mem.(foot := mem.foot[remainder + remainderSize := remainderSize]);
      assert mem == SplitUnsorted(old(mem), victim, size, nb);
      NotUsed(g.m, victim);
      KeepsSplit(old(mem), g, base, top, End(), fast, binmap, stored, victim, nb);
      g := g.(m := Split(g.m, victim, nb, Used, Free(1)), bins := g.bins[1 := [remainder]]);
      KeptLiveMore(old(g.m), g.m, victim, nb);
      KeepsMore(old(g.m), g.m, mem, stored, victim, nb);
      KeptLiveMoreFast(old(g.m), g.m, victim, nb);
    }

    /** Takes the oldest unsorted chunk off its list. */
    method PopUnsorted(victim: int, bck: int, size: int, ghost k: nat)
      requires Inv() && NoLoose(g.m) && |g.bins| == NBINS && k == |g.bins[1]| - 1 && victim == g.bins[1][k]
      requires victim in mem.bk && bck == mem.bk[victim] && victim in mem.head && size == mem.head[victim].size
      modifies this`mem, this`g
      ensures Inv() && LooseOnly(g.m, victim) && Kept(g.m) == Kept(old(g.m)) && g.fasts == old(g.fasts)
      ensures victim in old(g.m) && g.m == old(g.m)[victim := Chunk(size, Free(0))] &&
          old(g.m)[victim] == Chunk(size, Free(1)) && ChunkSized(size)
      ensures g.bins == old(g.bins)[1 := Without(old(g.bins)[1], k)] && victim !in Live(old(g.m))
      ensures !InSmallbinRange(size) ==> NoSizeLinks(mem.fdn, mem.bkn, victim)
    {
      hide Keeps, LinkSpot, Space, Binned, Consistent, Kept, NoLoose, LooseOnly, Live, Without;
      OffSmallRing(mem, g, base, top, End(), fast, binmap, 1, k);
      FreeHead(mem, g, base, top, End(), fast, binmap, victim);
      assert mem.fd[bck] == victim; // "corrupted unsorted chunks 3" is not reached
      UnsortedMark(mem, g, base, top, End(), fast, binmap, k);
      LooseTaken(g.m, victim);
      SpaceOf(mem, g, base, top, End(), fast, binmap);
      ConsistentBinned(mem, g, base, top, End(), fast, binmap);
      BinSpots(g.m, g.bins, 1, k);
      HeaderSpot(g.m, 1);
      LinksKept(g.m, base, top, End(), mem, stored, 1, bck);
      mem := mem.(bk := mem.bk[1 := bck]);
      LinksKept(g.m, base, top, End(), mem, stored, bck, 1);
      mem := mem.(fd := mem.fd[bck := 1]);
      KeepsKept(g.m, g.m[victim := Chunk(size, Free(0))], mem, stored);
      g := g.(m := g.m[victim := Chunk(size, Free(0))], bins := g.bins[1 := Without(g.bins[1], k)]);
    }

    /** Takes the last unsorted chunk off the list: hands it out if it fits exactly, bins it
        otherwise. */
    method SortUnsorted(victim: int, bck: int, size: int, nb: int, ghost k: nat) returns (taken: bool)
      requires Valid() && ChunkSized(nb) && SmallBinEmpty(g.bins, nb)
      requires |g.bins| == NBINS && k == |g.bins[1]| - 1 && victim == g.bins[1][k]
      requires victim in mem.bk && bck == mem.bk[victim] && victim in mem.head && size == mem.head[victim].size
      modifies this`mem, this`g, this`binmap
      ensures Valid() && (taken <==> size == nb)
      ensures taken ==> victim !in Live(old(g.m)) && Live(g.m) == Live(old(g.m))[victim := nb]
      ensures !taken ==> Live(g.m) == Live(old(g.m)) && SmallBinEmpty(g.bins, nb)
      ensures !taken ==> |g.bins| == NBINS && g.bins[1] == old(g.bins)[1][..k]
      ensures victim in old(g.m) && (!taken ==> g.m == old(g.m)[victim := InItsBin(old(g.m)[victim])])
      ensures taken ==> victim in mem.head && mem.head[victim].prevInuse
      ensures g.fasts == old(g.fasts) && ChunkSized(size) && SizeOf(old(g.m), victim) == size
      ensures var bins := old(g.bins)[1 := old(g.bins)[1][..k]];
        g.bins == if taken then bins else Filed(old(g.m), bins, victim)
    {
      hide Keeps, Consistent, Kept, NoLoose, LooseOnly, FastWithin, NoFast, NoHeld, Live, With, Place;
      ghost var m0, l := g.m, g.bins[1];
      PopUnsorted(victim, bck, size, k);
      WithoutLast(l, k);
      taken := size == nb;
      if taken {
        var _ := Carve(victim, nb);
        KeptLiveMore(m0, g.m, victim, nb);
        KeptLiveMoreFast(m0, g.m, victim, nb);
      } else {
        ghost var _ := PlaceInBin(victim);
        KeptSame(m0, g.m);
        OtherSmallBin(l, k, size, nb);
        FiledSame(m0, m0[victim := Chunk(size, Free(0))], old(g.bins)[1 := l[..k]], victim);
      }
    }

    /** Goes through the unsorted chunks, oldest first: takes one that fits exactly (or,
        for a small request, splits the last remainder when it is alone) and bins the
        others, at most MAX_ITERS of them. */
    method ProcessUnsorted(nb: int) returns (victim: int, ghost k: nat)
      requires Valid() && ChunkSized(nb) && SmallBinEmpty(g.bins, nb)
      modifies this`mem, this`g, this`binmap, this`lastRemainder
      ensures Valid() && |old(g.bins)| == NBINS
      ensures victim == 0 ==>
          Live(g.m) == Live(old(g.m)) && SmallBinEmpty(g.bins, nb) && lastRemainder == old(lastRemainder)
      ensures victim == 0 ==> |g.bins| == NBINS && g.bins[1] == old(g.bins)[1][..RoundStart(old(g.bins)[1])]
      ensures victim == 0 ==> g.m == RoundArena(old(g.m), old(g.bins)[1])
      ensures victim == 0 ==> NoneStops(old(g.m), old(g.bins)[1], RoundStart(old(g.bins)[1]), nb, old(lastRemainder))
      ensures victim != 0 ==> victim !in Live(old(g.m)) && Live(g.m) == Live(old(g.m))[victim := nb]
      ensures victim != 0 ==> RoundChoice(Unsorted(k), old(g.m), old(g.bins)[1], victim, nb, old(lastRemainder))
      ensures victim != 0 ==> victim in mem.head && mem.head[victim].prevInuse
      ensures g.fasts == old(g.fasts) && (victim == 0 ==> g.bins == RoundBins(old(g.m), old(g.bins)))
      ensures victim != 0 ==>
          Leaves(Unsorted(k), old(g), victim, nb, old(lastRemainder), g.bins, g.fasts, lastRemainder)
    {
      hide Keeps, Consistent, NoLoose, FastWithin, NoFast, NoHeld, Live, Sorted, Stops, NoneStops, SmallBinEmpty,
          InItsBin, FiledAll, Filed, Leaves, Picked, RemovedFrom, CutBins, RoundChoice, RoundArena, RoundBins;
      var iters := 0;
      LastOfBin(mem, g, base, top, End(), fast, binmap, 1);
      victim := mem.bk[1];
      ghost var m, bins, l, remainder := g.m, g.bins, g.bins[1], lastRemainder;
      k := |l|;
      FiledNone(m, bins, l);
      SortedStart(m, l);
      NoneStopsYet(m, l, nb, remainder);
      while victim != 1
        invariant Valid() && SmallBinEmpty(g.bins, nb) && Live(g.m) == Live(m) && lastRemainder == remainder
        invariant k <= |l| && iters == |l| - k < MAX_ITERS && |g.bins| == NBINS && g.bins[1] == l[..k]
        invariant g.m == Sorted(m, l[k..]) && NoneStops(m, l, k, nb, remainder)
        invariant victim != 0 && victim == if k == 0 then 1 else l[k - 1]
        invariant victim == 1 <==> k == 0
        invariant g.fasts == old(g.fasts) && g.bins == FiledAll(m, bins, l[k..])[1 := l[..k]]
        decreases k
      {
        k := k - 1;
        ghost var filed, sorted := FiledAll(m, bins, l[k + 1..]), g.m;
        assert g.bins[1 := l[..k]] == filed[1 := l[..k]];
        SortedSizes(m, l[k + 1..]);
        UnsortedChunk(mem, g, base, top, End(), fast, binmap, k);
        SortedMember(m, l[k + 1..], victim);
        SortedSize(m, l[k + 1..], victim);
        SortedStep(m, l, k);
        var bck := mem.bk[victim];
        var size := mem.head[victim].size;
        UnsortedTests(mem, g, base, top, End(), fast, binmap, k);
        var next := victim + size;
        assert CHUNK_HDR_SZ < size <= systemMem;                     // "invalid size (unsorted)" is not reached
        assert CHUNK_HDR_SZ <= mem.head[next].Word() <= systemMem;   // "invalid next size (unsorted)"
        assert mem.foot[next] == size;                               // "mismatching next->prev_size (unsorted)"
        assert mem.fd[bck] == victim && mem.fd[victim] == 1;         // "unsorted double linked list corrupted"
        assert !mem.head[next].prevInuse;                            // "invalid next->prev_inuse (unsorted)"
        StopsIs(m, l, k, nb, remainder, size);
        if InSmallbinRange(nb) && bck == 1 && victim == lastRemainder && size > nb + MINSIZE {
          assert g.bins[1] == [victim];
          SplitLastRemainder(victim, nb);
          LeavesStop(old(g), k, nb, remainder, g.bins, g.fasts, lastRemainder);
          RoundStops(m, l, k, nb, remainder);
          return;
        }
        assert l[..k + 1][..k] == l[..k];
        var taken := SortUnsorted(victim, bck, size, nb, k);
        if taken {
          LeavesStop(old(g), k, nb, remainder, g.bins, g.fasts, lastRemainder);
          RoundStops(m, l, k, nb, remainder);
          return;
        }
        FiledStep(m, sorted, bins, l, k);
        iters := iters + 1;
        if iters >= MAX_ITERS {
          break;
        }
        LastOfBin(mem, g, base, top, End(), fast, binmap, 1);
        victim := mem.bk[1];
      }
      victim := 0;
      RoundSorted(m, bins);
    }

    /** The first non-empty bin after bin idx, or 0: walks the bitmap word by word and bit
        by bit, clearing the bits of bins it finds empty. */
    method ScanBinmap(idx: nat) returns (bin: nat)
      requires Inv() && 1 < idx <= 126
      modifies this`binmap
      ensures Inv() && |g.bins| == NBINS
      ensures OnlyCleared(old(binmap), binmap)
      ensures bin == 0 ==> forall j | idx < j < NBINS :: g.bins[j] == []
      ensures bin != 0 ==> idx < bin < NBINS && g.bins[bin] != [] && forall j | idx < j < bin :: g.bins[j] == []
    {
      hide Keeps, Consistent, Bitmap, Bit, TestBit, ClearBit, OnlyCleared;
      WordsOf(mem, g, base, top, End(), fast, binmap);
      ClearedNone(binmap);
      bin := idx + 1;
      var block := bin / 32;
      var word := binmap[block];
      var bit := Bit(bin % 32);
      while true
        invariant Inv() && |g.bins| == NBINS && |binmap| == 4 && block < 4 && word == binmap[block] < WORD &&
            idx < bin <= 128
        invariant if bin < 32 * (block + 1) then bin / 32 == block && bit == Bit(bin % 32)
            else bin == 32 * (block + 1) && bit == 0
        invariant OnlyCleared(old(binmap), binmap)
        invariant (forall w | 0 <= w < 4 :: binmap[w] < WORD) && forall j | idx < j < bin :: g.bins[j] == []
        decreases 128 - bin
      {
        // Skip the rest of the word if there are no more set bits in it.
        if bit > word || bit == 0 {
          bin, block, bit := SkipWords(idx, bin, block, bit);
          if block == 4 {
            return 0;
          }
          word := binmap[block];
        }
        // Advance to the bin with a set bit; there must be one.
        bin, bit := SeekBit(idx, bin, block, word, bit);
        LastOfBin(mem, g, base, top, End(), fast, binmap, bin);
        if mem.bk[bin] != bin {
          return;
        }
        // A false alarm: clear the bit.
        ClearedBit(mem, g, base, top, End(), fast, binmap, bin);
        ClearedOnce(old(binmap), binmap, bin);
        word := ClearBit(word, bin % 32);
        binmap := binmap[block := word];
        ShiftWalksBits(bin % 32);
        WordsOf(mem, g, base, top, End(), fast, binmap);
        bin := bin + 1;
        bit := ShiftLeft(bit);
      }
    }

    /** Moves on to the next non-zero word; block 4 when there is none. */
    method SkipWords(ghost idx: nat, bin0: nat, block0: nat, bit0: nat) returns (bin: nat, block: nat, bit: nat)
      requires Inv() && |g.bins| == NBINS && |binmap| == 4 && block0 < 4 && 2 <= idx < bin0 <= 128
      requires if bin0 < 32 * (block0 + 1) then bin0 / 32 == block0 && bit0 == Bit(bin0 % 32)
          else bin0 == 32 * (block0 + 1) && bit0 == 0
      requires (bit0 > binmap[block0] || bit0 == 0) && forall j | idx < j < bin0 :: g.bins[j] == []
      ensures bin0 <= bin && block0 < block <= 4 && bin == 32 * block && bit == Bit(0) == 1 &&
          (block < 4 ==> binmap[block] > 0)
      ensures forall j | idx < j < bin && j < NBINS :: g.bins[j] == []
    {
      hide Keeps, Space, Aligned, Tags, Binned, LinkedBins, SizeRings, FastLists, Bitmap, TestBit;
      if bin0 < 32 * (block0 + 1) {
        BitPositive(bin0 % 32);
        RestOfWord(binmap, g.bins, bin0, block0);
      }
      block, bit := block0 + 1, 1;
      while block < 4 && binmap[block] == 0
        invariant block0 < block <= 4 && forall j | idx < j < 32 * block && j < NBINS :: g.bins[j] == []
      {
        ZeroWord(binmap, g.bins, block);
        block := block + 1;
      }
      bin := 32 * block;
    }

    /** Moves on to the next set bit of the current word. */
    method SeekBit(ghost idx: nat, bin0: nat, block: nat, word: nat, bit0: nat) returns (bin: nat, bit: nat)
      requires Inv() && |g.bins| == NBINS && |binmap| == 4 && block < 4 && word == binmap[block] < WORD &&
          2 <= idx < bin0
      requires bin0 / 32 == block && bit0 == Bit(bin0 % 32) && 0 < bit0 <= word && forall j | idx < j < bin0 ::
          g.bins[j] == []
      ensures bin0 <= bin && bin / 32 == block && bit == Bit(bin % 32) && TestBit(word, bin % 32)
      ensures forall j | idx < j < bin :: g.bins[j] == []
    {
      hide Keeps, Space, Aligned, Tags, Binned, LinkedBins, SizeRings, FastLists, Bitmap, TestBit, Bit;
      bin, bit := bin0, bit0;
      ghost var ahead := BitAhead(word, bin % 32);
      while !TestBit(word, bin % 32)
        invariant bin0 <= bin && bin / 32 == block && bit == Bit(bin % 32) && bin % 32 <= ahead < 32 &&
            TestBit(word, ahead)
        invariant forall j | idx < j < bin :: g.bins[j] == []
        decreases ahead - bin % 32
      {
        ClearBitEmpty(binmap, g.bins, bin);
        ShiftWalksBits(bin % 32);
        assert bin % 32 < 31;
        bin := bin + 1;
        bit := ShiftLeft(bit);
        assert bit != 0 by { BitPositive(bin % 32); }
      }
    }

    /** Unlinks the chosen chunk and serves nb bytes from it. */
    method TakeBinned(victim: int, nb: int, ghost i: nat, ghost k: nat) returns (remainder: int)
      requires Valid() && 1 < i < NBINS && k < |g.bins[i]| && g.bins[i][k] == victim
      requires victim in g.m && ChunkSized(nb) && nb <= g.m[victim].size
      modifies this`mem, this`g
      ensures Valid()
      ensures victim !in Live(old(g.m)) && Live(g.m) == Live(old(g.m))[victim := ServedSize(old(g.m)[victim].size, nb)]
      ensures victim in mem.head && mem.head[victim].prevInuse
      ensures remainder == if old(g.m)[victim].size - nb < MINSIZE then 0 else victim + nb
      ensures |old(g.bins)| == NBINS && g.bins == CutBins(old(g.m), old(g.bins), victim, nb) && g.fasts == old(g.fasts)
    {
      hide Keeps, Consistent, Kept, NoLoose, LooseOnly, FastWithin, NoFast, NoHeld, Live, Without, RemovedFrom;
      ConsistentBinned(mem, g, base, top, End(), fast, binmap);
      UnbinnedIs(g.m, g.bins, i, k);
      BinnedNotLive(mem, g, base, top, End(), fast, binmap, i, k);
      LooseTaken(g.m, victim);
      UnlinkChunk(victim, i, k);
      remainder := Carve(victim, nb);
      KeptLiveMore(old(g.m), g.m, victim, ServedSize(old(g.m)[victim].size, nb));
      KeptLiveMoreFast(old(g.m), g.m, victim, ServedSize(old(g.m)[victim].size, nb));
    }

    /** Serves a large request from its own bin: the smallest chunk there that fits, and
        not the first of its size when there is another. */
    method TakeLarge(nb: int) returns (victim: int)
      requires Valid() && ChunkSized(nb) && !InSmallbinRange(nb)
      modifies this`mem, this`g
      ensures Valid()
      ensures victim == 0 ==>
          g == old(g) && |g.bins| == NBINS && LargebinIndex(nb) < NBINS && NoneFits(g.m, g.bins[LargebinIndex(nb)], nb)
      ensures victim != 0 ==> BestFit(old(g.m), victim, nb)
      ensures victim != 0 ==> var size := ServedSize(old(g.m)[victim].size, nb);
        nb <= size < nb + MINSIZE && victim !in Live(old(g.m)) && Live(g.m) == Live(old(g.m))[victim := size]
      ensures victim != 0 ==> victim in mem.head && mem.head[victim].prevInuse
      ensures victim != 0 ==>
        && |old(g.bins)| == NBINS && Picked(old(g.m), old(g.bins), victim, nb)
        && g.bins == CutBins(old(g.m), old(g.bins), victim, nb) && g.fasts == old(g.fasts)
    {
      hide Keeps, Consistent, NoLoose, FastWithin, NoFast, NoHeld, Live, SizeRing, Firsts, Descending, NoDup, BestFit,
          NoneFits, CutBins, SecondOfSize;
      BinIndexRange(nb);
      var idx := LargebinIndex(nb);
      LastOfBin(mem, g, base, top, End(), fast, binmap, idx);
      LargeRing(mem, g, base, top, End(), fast, binmap, idx);
      victim := mem.fd[idx];
      if g.bins[idx] != [] {
        LargeChunk(mem, g, base, top, End(), fast, binmap, idx, 0);
      }
      if victim != idx && mem.head[victim].Word() >= nb {
        FreeChunkSized(mem, g, base, top, End(), fast, binmap, idx, 0);
        AlignedAtLeast(mem.head[victim].size, nb);
        ghost var k;
        victim, k := SearchLarge(nb, idx, victim);
        assert PickedAt(g.m, g.bins, victim, nb, idx, k);
        var _ := TakeBinned(victim, nb, idx, k);
      } else {
        TooSmall(g.m, g.bins[idx], nb);
        victim := 0;
      }
    }

    /** Walks the size ring from the smallest size up to the first that fits. */
    method SearchLarge(nb: int, idx: nat, first: int) returns (victim: int, ghost k: nat)
      requires Inv() && ChunkSized(nb) && !InSmallbinRange(nb) && idx == BinIndex(nb) < NBINS
      requires |g.bins| == NBINS && g.bins[idx] != [] && first == g.bins[idx][0] && SizeOf(g.m, first) >= nb
      ensures k < |g.bins[idx]| && g.bins[idx][k] == victim && victim in g.m && nb <= g.m[victim].size
      ensures victim != 0 && BestFit(g.m, victim, nb)
      ensures SecondOfSize(g.m, g.bins[idx], k)
    {
      hide Keeps, Consistent, SizeRing, Firsts, Descending, NoDup, BestFit;
      LastOfBin(mem, g, base, top, End(), fast, binmap, idx);
      ghost var j;
      victim, k, j := WalkSizes(nb, idx, first);
      ghost var l := g.bins[idx];
      RingLinks(mem, g, base, top, End(), fast, binmap, idx, k);
      if k + 1 < |l| { LargeChunk(mem, g, base, top, End(), fast, binmap, idx, k + 1); }
      LastSlot(l, k);
      if victim != mem.bk[idx] && mem.head[victim].Word() == mem.head[mem.fd[victim]].Word() {
        victim := mem.fd[victim];
        k := k + 1;
      }
      SmallestFit(mem, g, base, top, End(), fast, binmap, idx, j, victim, nb);
      BinnedNotLive(mem, g, base, top, End(), fast, binmap, idx, k);
    }

    /** Walks the ring of sizes from the smallest on, to the first that is large enough. */
    method WalkSizes(nb: int, idx: nat, first: int) returns (victim: int, ghost k: nat, ghost j: nat)
      requires Inv() && ChunkSized(nb) && !InSmallbinRange(nb) && idx == BinIndex(nb) < NBINS
      requires |g.bins| == NBINS && g.bins[idx] != [] && first == g.bins[idx][0] && SizeOf(g.m, first) >= nb
      ensures NSMALLBINS <= idx && |g.firsts| == NBINS && j < |g.firsts[idx]| && k < |g.bins[idx]| && NoDup(g.bins[idx])
      ensures victim == g.firsts[idx][j] == g.bins[idx][k] && victim in g.m && SizeOf(g.m, victim) >= nb
      ensures FirstOfSize(g.m, g.bins[idx], k)
      ensures victim in mem.head && mem.head[victim] == Head(SizeOf(g.m, victim), true)
      ensures forall a | j < a < |g.firsts[idx]| :: SizeOf(g.m, g.firsts[idx][a]) < nb
    {
      hide Keeps, Consistent, SizeRing, Firsts, Descending, NoDup;
      LargeIffLargeBin(nb);
      LargeRing(mem, g, base, top, End(), fast, binmap, idx);
      ghost var l, f := g.bins[idx], g.firsts[idx];
      SmallestLast(g.m, l, f);
      SizeRingAt(g.m, mem.fdn, mem.bkn, l, f, 0);
      victim := mem.bkn[first];
      j := |f| - 1;
      k := FirstSlot(g.m, l, f, j);
      LargeChunk(mem, g, base, top, End(), fast, binmap, idx, k);
      while mem.head[victim].size < nb
        invariant 0 <= j < |f| && victim == f[j] && k < |l| && l[k] == victim && victim in g.m
        invariant FirstOfSize(g.m, l, k)
        invariant victim in mem.head && mem.head[victim] == Head(SizeOf(g.m, victim), true)
        invariant forall a | j < a < |f| :: SizeOf(g.m, f[a]) < nb
        decreases j
      {
        SizeRingAt(g.m, mem.fdn, mem.bkn, l, f, j);
        victim := mem.bkn[victim];
        j := j - 1;
        k := FirstSlot(g.m, l, f, j);
        LargeChunk(mem, g, base, top, End(), fast, binmap, idx, k);
      }
    }

    /** Serves a request from the first non-empty bin after its own. */
    method TakeFromLaterBin(nb: int) returns (victim: int)
      requires Valid() && ChunkSized(nb) && |g.bins| == NBINS && BinIndex(nb) < NBINS &&
          NoneFits(g.m, g.bins[BinIndex(nb)], nb)
      modifies this`mem, this`g, this`binmap, this`lastRemainder
      ensures Valid()
      ensures victim == 0 ==>
          g == old(g) && lastRemainder == old(lastRemainder) && forall x | InSortedBin(g.m, x) :: g.m[x].size < nb
      ensures victim != 0 ==>
        && Picked(old(g.m), old(g.bins), victim, nb) && victim in old(g.m)
        && g.bins == CutBins(old(g.m), old(g.bins), victim, nb) && g.fasts == old(g.fasts)
        && lastRemainder == if InSmallbinRange(nb) && old(g.m)[victim].size - nb >= MINSIZE then victim + nb
                            else old(lastRemainder)
      ensures victim != 0 ==> BestFit(old(g.m), victim, nb)
      ensures victim != 0 ==> var size := ServedSize(old(g.m)[victim].size, nb);
        nb <= size < nb + MINSIZE && victim !in Live(old(g.m)) && Live(g.m) == Live(old(g.m))[victim := size]
      ensures victim != 0 ==> victim in mem.head && mem.head[victim].prevInuse
    {
      hide Keeps, Consistent, NoLoose, FastWithin, NoFast, NoHeld, Live, NoneFits, CutBins;
      BinIndexRange(nb);
      ConsistentBinned(mem, g, base, top, End(), fast, binmap);
      var bin := ScanBinmap(BinIndex(nb));
      if bin == 0 {
        NoFit(g.m, g.bins, nb);
        return 0;
      }
      LastOfBin(mem, g, base, top, End(), fast, binmap, bin);
      victim := mem.bk[bin];
      ghost var k := |g.bins[bin]| - 1;
      BestInLaterBin(g.m, g.bins, bin, nb);
      BinnedNotLive(mem, g, base, top, End(), fast, binmap, bin, k);
      FreeHead(mem, g, base, top, End(), fast, binmap, victim);
      assert PickedAt(g.m, g.bins, victim, nb, bin, k);
      assert mem.head[victim].size >= nb; // the bin's chunks are big enough to use
      var remainder := TakeBinned(victim, nb, bin, k);
      if remainder != 0 && InSmallbinRange(nb) {
        lastRemainder := remainder;
      }
    }

    /** Serves a request from the front of top, if that leaves a top of at least MINSIZE. */
    method UseTop(nb: int) returns (victim: int)
      requires Valid() && ChunkSized(nb)
      modifies this`mem, this`g, this`top
      ensures Valid()
      ensures victim == 0 ==> g == old(g) && top == old(top) && top in g.m && g.m[top].size < nb + MINSIZE
      ensures victim != 0 ==> victim == old(top) && victim in old(g.m) && old(g.m)[victim].kind == Top
      ensures g.bins == old(g.bins) && g.fasts == old(g.fasts)
      ensures victim != 0 ==> victim !in Live(old(g.m)) && Live(g.m) == Live(old(g.m))[victim := nb]
      ensures victim != 0 ==> victim in mem.head && mem.head[victim].prevInuse
    {
      hide Keeps, Space, Consistent, Kept, NoLoose, FastWithin, NoFast, NoHeld, Live, Split;
      TopHead(mem, g, base, top, End(), fast, binmap);
      TopFits(mem, g, base, top, End(), fast, binmap);
      victim := top;
      var size := mem.head[victim].size;
      assert size <= systemMem; // "corrupted top size" is not reached
      if size >= nb + MINSIZE {
        CarvedTop(mem, g, base, top, End(), fast, binmap, nb);
        var remainder := victim + nb;
        ghost var end, m' := End(), Split(g.m, victim, nb, Used, Top);
        SpaceOf(mem, g, base, top, End(), fast, binmap);
        HeadKept(g.m, base, victim, end, mem, stored, victim, victim, Head(nb, true));
        top := remainder;
        mem := mem.(head := mem.head[victim := Head(nb, true)]);
        HeadKept(g.m, base, victim, end, mem, stored, victim, remainder, Head(size - nb, true));
        mem := mem.(head := mem.head[remainder := Head(size - nb, true)]);
        KeptLiveMore(g.m, m', victim, nb);
        KeepsMore(g.m, m', mem, stored, victim, nb);
        g := g.(m := m');
        KeptLiveMoreFast(old(g.m), g.m, victim, nb);
      } else {
        victim := 0;
      }
    }

    /** One round: the unsorted list, the request's own bin, the later bins, top. */
    method SearchRound(nb: int) returns (victim: int, ghost how: Origin)
      requires Valid() && ChunkSized(nb) && SmallBinEmpty(g.bins, nb)
      modifies this`mem, this`g, this`binmap, this`top, this`lastRemainder
      ensures Valid() && |old(g.bins)| == NBINS
      ensures victim == 0 ==>
          Live(g.m) == Live(old(g.m)) && lastRemainder == old(lastRemainder) && SmallBinEmpty(g.bins, nb)
      ensures victim == 0 ==> top in g.m && g.m[top].size < nb + MINSIZE && NoneLarge(g.m, nb)
      ensures victim == 0 ==>
          g.m == RoundArena(old(g.m), old(g.bins)[1]) && RoundFails(old(g.m), old(g.bins)[1], nb, old(lastRemainder))
      ensures victim != 0 ==> victim !in Live(old(g.m)) && victim in Live(g.m) && nb <= Live(g.m)[victim] < nb + MINSIZE
      ensures victim != 0 ==> Live(g.m) == Live(old(g.m))[victim := Live(g.m)[victim]]
      ensures victim != 0 ==> RoundChoice(how, old(g.m), old(g.bins)[1], victim, nb, old(lastRemainder))
      ensures victim != 0 && !how.SortedBin? ==> Live(g.m)[victim] == nb
      ensures victim != 0 ==> victim in mem.head && mem.head[victim].prevInuse
      ensures victim == 0 ==> g.bins == RoundBins(old(g.m), old(g.bins)) && g.fasts == old(g.fasts)
      ensures victim != 0 ==>
          Leaves(how, old(g), victim, nb, old(lastRemainder), g.bins, g.fasts, lastRemainder) && !AtOnce(how)
    {
      hide Keeps, RoundChoice, NoneStops, RoundArena, RoundFails, InSortedBin, Consistent, NoLoose, FastWithin, NoFast,
          NoHeld, Live, BestFit, NoneFits, SmallBinEmpty, Leaves, RoundBins, Picked, CutBins;
      BinIndexRange(nb);
      FirstsCount(mem, g, base, top, End(), fast, binmap);
      TopHead(mem, g, base, top, End(), fast, binmap);
      ghost var m, l, remainder, k := g.m, g.bins[1], lastRemainder, 0;
      victim, k := ProcessUnsorted(nb);
      how := Unsorted(k);
      if victim != 0 { return; }
      how := SortedBin;
      ghost var m1, bins := g.m, g.bins;
      RoundSizes(m, l);
      if !InSmallbinRange(nb) {
        victim := TakeLarge(nb);
        ChosenBest(m, l, victim, nb, remainder);
        if victim != 0 {
          LeavesSorted(old(g), m1, bins, victim, nb, remainder, g.bins, g.fasts, lastRemainder);
          return;
        }
      } else {
        EmptyFitsNone(g.m, g.bins, nb);
      }
      victim := TakeFromLaterBin(nb);
      ChosenBest(m, l, victim, nb, remainder);
      if victim != 0 {
        LeavesSorted(old(g), m1, bins, victim, nb, remainder, g.bins, g.fasts, lastRemainder);
        return;
      }
      how := TopChunk;
      LeavesTop(old(g), nb, remainder);
      victim := UseTop(nb);
      ChosenBest(m, l, victim, nb, remainder);
      if victim == 0 {
        RoundFailed(old(mem), old(g), base, top, End(), fast, old(binmap), nb, remainder);
      }
    }

    /**
      The search for a chunk of nb bytes including its header: fastbin,
      exact small bin, unsorted chunks, best fit in the sorted bins, top; when all of
      these fail and fastbins are in use, once more after consolidating them.  0 means
      that more memory has to be obtained from the system.  h is the shape that the choice
      was made from: the one at the call, or the consolidated one.
     */
    method TakeChunk(nb: int) returns (victim: int, ghost how: Origin, ghost h: Shape)
      requires Valid() && ChunkSized(nb)
      modifies this`mem, this`g, this`fast, this`haveFast, this`binmap, this`top, this`lastRemainder
      ensures Valid()
      ensures victim == 0 ==> Live(g.m) == Live(old(g.m)) && Exhausted(nb)
      ensures victim != 0 ==> victim !in Live(old(g.m)) && victim in Live(g.m) && nb <= Live(g.m)[victim] < nb + MINSIZE
      ensures victim != 0 ==> Live(g.m) == Live(old(g.m))[victim := Live(g.m)[victim]]
      ensures victim != 0 ==> Searched(old(g), h, old(haveFast), nb, old(lastRemainder), base, End())
      ensures victim != 0 ==> Chosen(how, h, victim, nb, maxFast, old(lastRemainder)) && (AtOnce(how) ==> h == old(g))
      ensures victim != 0 ==> Leaves(how, h, victim, nb, old(lastRemainder), g.bins, g.fasts, lastRemainder)
      ensures victim == 0 ==>
        && NotServed(old(g), old(haveFast), nb, old(lastRemainder), base, End(), g.bins)
        && lastRemainder == old(lastRemainder) && !haveFast
      ensures haveFast ==> old(haveFast)
      ensures victim != 0 && !how.SortedBin? ==> Live(g.m)[victim] == nb
      ensures victim != 0 && !how.FastList? ==> victim in mem.head && mem.head[victim].prevInuse
    {
      hide Keeps, Searched, Chosen, RoundChoice, RoundFails, FastEmptyFor, SmallBinEmpty, NoneLarge, Consolidated,
          OnlyLosses, TearDown, TornDown, RoundArena, RoundBins, Leaves, NotServed, RemovedFrom;
      hide Consistent, NoLoose, FastWithin, NoFast, NoHeld, Live;
      h, how := g, FastList;
      ghost var g1 := g;
      FirstsCount(mem, g, base, top, End(), fast, binmap);
      ConsistentBinned(mem, g, base, top, End(), fast, binmap);
      if !haveFast || InSmallbinRange(nb) { SearchedAtOnce(g, haveFast, nb, lastRemainder, base, End()); }
      if nb <= maxFast {
        victim := TakeFast(nb);
        if victim != 0 {
          LeavesFast(g1, victim, nb, lastRemainder);
          return;
        }
      } else {
        NotFastSized(g.fasts, nb, maxFast);
      }
      how := SmallBin;
      if InSmallbinRange(nb) {
        victim := TakeSmall(nb);
        if victim != 0 {
          LeavesSmall(g1, victim, nb, lastRemainder);
          return;
        }
      } else {
        if haveFast {
          ConsolidateFirst(nb);
          h := g;
        }
        NotSmallSized(g.bins, nb);
      }
      FirstsCount(mem, g, base, top, End(), fast, binmap);
      while true
        invariant Valid() && SmallBinEmpty(g.bins, nb) && FastEmptyFor(g.fasts, nb, maxFast)
        invariant h == g && Searched(old(g), h, old(haveFast), nb, lastRemainder, base, End())
        invariant Live(g.m) == Live(old(g.m)) && lastRemainder == old(lastRemainder)
        invariant haveFast ==> g == old(g) && old(haveFast) && InSmallbinRange(nb)
        invariant old(haveFast) && !haveFast ==> NoFast(h.m)
        invariant |h.bins| == NBINS
        decreases haveFast
      {
        victim, how := SearchRound(nb);
        if victim != 0 {
          ChosenInRound(how, h, victim, nb, maxFast, old(lastRemainder));
          return;
        }
        if !haveFast {
          NoneWaiting(mem, g, base, top, End(), fast, binmap);
          NotServedBy(old(g), old(haveFast), nb, old(lastRemainder), base, End(), h, g.bins);
          return;
        }
        ConsolidateAgain(nb, old(g));
        h := g;
      }
    }

    /** Consolidates the fastbins before a large request is searched for. */
    method ConsolidateFirst(nb: int)
      requires Valid() && ChunkSized(nb) && !InSmallbinRange(nb)
      modifies this`mem, this`g, this`top, this`fast, this`haveFast
      ensures Valid() && Live(g.m) == Live(old(g.m)) && !haveFast && NoFast(g.m) && |g.bins| == NBINS
      ensures FastEmptyFor(g.fasts, nb, maxFast) && Searched(old(g), g, true, nb, lastRemainder, base, End())
    {
      hide Keeps, Searched, FastEmptyFor, Consolidated, OnlyLosses, Consistent, NoLoose, FastWithin, NoFast, NoHeld,
          Live, TearDown, TornDown;
      FirstsCount(mem, g, base, top, End(), fast, binmap);
      MallocConsolidate();
      FirstsCount(mem, g, base, top, End(), fast, binmap);
      TornDownBy(ListsOf(old(g)), old(g.m), g, base, End());
      SearchedAfter(old(g), g, nb, lastRemainder, base, End());
      NoFastEntries(g.fasts, nb, maxFast);
    }

    /** Consolidates the fastbins after a round that started from shape g0 has found nothing. */
    method ConsolidateAgain(nb: int, ghost g0: Shape)
      requires Valid() && ChunkSized(nb) && SmallBinEmpty(g.bins, nb) && Binned(g0.m, g0.bins) &&
          Live(g.m) == Live(g0.m)
      requires |g0.bins| == NBINS && ListsOf(g) == RoundLists(g0) && InSmallbinRange(nb) &&
          RoundFails(g0.m, g0.bins[1], nb, lastRemainder)
      modifies this`mem, this`g, this`top, this`fast, this`haveFast
      ensures Valid() && Live(g.m) == Live(g0.m) && !haveFast && SmallBinEmpty(g.bins, nb) &&
          FastEmptyFor(g.fasts, nb, maxFast) && NoFast(g.m) && |g.bins| == NBINS
      ensures Searched(g0, g, true, nb, lastRemainder, base, End())
    {
      hide Keeps, Searched, RoundFails, RoundArena, FastEmptyFor, SmallBinEmpty, Consolidated, OnlyLosses, Consistent,
          NoLoose, FastWithin, NoFast, NoHeld, Live, Binned, TearDown, TornDown, RoundBins;
      MallocConsolidate();
      SmallBinStaysEmpty(old(g.bins), g.bins, nb);
      NoFastEntries(g.fasts, nb, maxFast);
      ConsolidatedAfterRound(g0.m, g0.bins, g, base, End());
      TornDownBy(RoundLists(g0), g0.m, g, base, End());
      FirstsCount(mem, g, base, top, End(), fast, binmap);
      SearchedAfter(g0, g, nb, lastRemainder, base, End());
    }

    /** _int_malloc: pads the request and returns memory for it, or 0. */
    method IntMalloc(bytes: nat) returns (p: int)
      requires Valid()
      modifies this`mem, this`g, this`fast, this`haveFast, this`binmap, this`top, this`lastRemainder
      ensures Valid()
      ensures bytes > PTRDIFF_MAX ==> p == 0
      ensures p == 0 ==> Live(g.m) == Live(old(g.m))
      ensures p == 0 && bytes <= PTRDIFF_MAX ==> Exhausted(Request2Size(bytes))
      ensures p != 0 ==> Served(old(g.m), g.m, p - CHUNK_HDR_SZ, bytes)
      ensures p != 0 ==>
        && ChunkSized(Request2Size(bytes))
        && WellChosen(old(g), old(haveFast), p - CHUNK_HDR_SZ, Request2Size(bytes), maxFast, old(lastRemainder), base,
            End())
        && WellServed(old(g), old(haveFast), p - CHUNK_HDR_SZ, Request2Size(bytes), maxFast, old(lastRemainder), base,
            End(), g.bins, g.fasts, lastRemainder)
      ensures p == 0 && bytes <= PTRDIFF_MAX ==>
        && NotServed(old(g), old(haveFast), Request2Size(bytes), old(lastRemainder), base, End(), g.bins)
        && lastRemainder == old(lastRemainder) && !haveFast
      ensures haveFast ==> old(haveFast)
      ensures BinsQueued(old(g.bins), g.bins)
    {
      hide Keeps, Consistent, NoLoose, FastWithin, NoFast, NoHeld, Live, Chosen, Searched, WellChosen, NoneLarge,
          WellServed, NotServed, Leaves, Binned, Aligned, BinsQueued;
      BinnedAligned(mem, g, base, top, End(), fast, binmap);
      if bytes > PTRDIFF_MAX {
        BinsShrunkSelf(g.bins);
        return 0;
      }
      RequestPaddingIsLeast(bytes, 0);
      ghost var how, h;
      p, how, h := TakeChunk(Request2Size(bytes));
      if p != 0 {
        WellServedBy(how, h, old(g), old(haveFast), p, Request2Size(bytes), maxFast, old(lastRemainder), base, End(),
            g.bins, g.fasts, lastRemainder);
        ServingQueues(old(g), old(haveFast), p, Request2Size(bytes), maxFast, old(lastRemainder), base, End(), g.bins,
            g.fasts, lastRemainder);
        LiveChunk(mem, g, base, top, End(), fast, binmap, p);
        p := p + CHUNK_HDR_SZ;
      } else {
        FailingQueues(old(g), old(haveFast), Request2Size(bytes), old(lastRemainder), base, End(), g.bins);
      }
    }

    /** Cuts an allocated chunk in two allocated chunks. */
    method CutUsed(p: int, nb: int)
      requires Valid() && p in Live(g.m) && ChunkSized(nb) && nb <= Live(g.m)[p] - MINSIZE &&
          NothingIn(stored, p, Live(g.m)[p])
      modifies this`mem, this`g
      ensures Valid() && p + nb !in Live(old(g.m))
      ensures Live(g.m) == Live(old(g.m))[p := nb][p + nb := Live(old(g.m))[p] - nb]
      ensures p in old(g.m) && g == old(g).(m := Split(old(g.m), p, nb, Used, Used))
    {
      hide Keeps, Space, Live, Consistent, NoLoose, FastWithin, NoFast, NoHeld, Split, NothingIn;
      CutTags(mem, g, base, top, End(), fast, binmap, p, nb);
      SpaceOf(mem, g, base, top, End(), fast, binmap);
      LiveIsUsed(g.m, p);
      NotLive(g.m, p + nb);
      KeepsCut(g.m, base, top, End(), mem, stored, p, nb, mem.head[p].(size := nb), Head(mem.head[p].size - nb, true));
      KeepsCutOff(g.m,
          mem.(head := mem.head[p + nb := Head(mem.head[p].size - nb, true)][p := mem.head[p].(size := nb)]), stored,
          p, nb);
      var size := mem.head[p].size;
      mem := mem.(head := mem.head[p + nb := Head(size - nb, true)]);
      mem := mem.(head := mem.head[p := mem.head[p].(size := nb)]);
      g := g.(m := Split(g.m, p, nb, Used, Used));
    }

    /** Frees the part of an allocated chunk that lies before brk. */
    method GiveBackLeader(p: int, brk: int) returns (newp: int)
      requires Valid() && p in Live(g.m) && ChunkSized(brk - p) && brk - p <= Live(g.m)[p] - MINSIZE &&
          NothingIn(stored, p, Live(g.m)[p])
      modifies this`mem, this`g, this`fast, this`haveFast, this`top, this`stored
      ensures stored == old(stored) && NothingIn(stored, brk, Live(old(g.m))[p] - (brk - p))
      ensures Valid() && newp == brk && brk !in Live(old(g.m)) &&
          Live(g.m) == (Live(old(g.m)) - {p})[brk := Live(old(g.m))[p] - (brk - p)]
      ensures brk != p && LeaderFreed(ListsOf(old(g)), old(haveFast), p, brk, maxFast, ListsOf(g), haveFast)
    {
      hide Keeps, Consistent, NoLoose, FastWithin, NoFast, NoHeld, Live, Forgotten, NothingIn, FreeStep, Coalesced,
          Split;
      NothingInParts(stored, p, brk - p, Live(g.m)[p]);
      CutUsed(p, brk - p);
      ForgetNothing(stored, p, brk - p);
      IntFree(p);
      newp := brk;
    }

    /** Frees what an allocated chunk has beyond nb bytes, if that is more than a minimal chunk. */
    method GiveBackTail(p: int, nb: int)
      requires Valid() && p in Live(g.m) && ChunkSized(nb) && nb <= Live(g.m)[p] && NothingIn(stored, p, Live(g.m)[p])
      modifies this`mem, this`g, this`fast, this`haveFast, this`top, this`stored
      ensures stored == old(stored)
      ensures Valid() &&
          Live(g.m) == Live(old(g.m))[p := if Live(old(g.m))[p] > nb + MINSIZE then nb else Live(old(g.m))[p]]
      ensures TailFreed(ListsOf(old(g)), old(haveFast), p, nb, maxFast, ListsOf(g), haveFast)
    {
      hide Keeps, Consistent, NoLoose, FastWithin, NoFast, NoHeld, Live, Forgotten, NothingIn, FreeStep, Coalesced,
          Split;
      LiveChunk(mem, g, base, top, End(), fast, binmap, p);
      LiveIsUsed(g.m, p);
      var size := mem.head[p].size;
      if size > nb + MINSIZE {
        NothingInParts(stored, p, nb, size);
        CutUsed(p, nb);
        ForgetNothing(stored, p + nb, size - nb);
        IntFree(p + nb);
      }
    }

    /** Chunk p is cut from chunk q, which malloc has chosen for padded bytes and served as a
        and f say: it is where aligned memory first begins, and what lies before it and behind
        nb bytes has been freed. */
    ghost predicate CutFrom(g0: Shape, hadFast: bool, remainder: int, padded: nat, q: int, a: Lists, f: bool, p: int,
          alignment: nat, nb: int)
      requires ChunkSized(Request2Size(padded)) && alignment > 0
      reads this
    {
      && q in Live(a.m) && Live(a.m) == Live(g0.m)[q := Live(a.m)[q]]
      && padded + SIZE_SZ <= Live(a.m)[q] <= Request2Size(padded) + MINSIZE
      && WellServed(g0, hadFast, q, Request2Size(padded), maxFast, remainder, base, End(), a.bins, a.fasts,
          lastRemainder)
      && FirstAligned(q, p, alignment) && GivenBack(a, f, q, p, nb, maxFast, ListsOf(g), haveFast)
      && p in Live(g.m)
      && Live(g.m)[p] == (var left := Live(a.m)[q] - (p - q); if left > nb + MINSIZE then nb else left)
    }

    /** From some chunk q. */
    ghost predicate MemalignServes(g0: Shape, hadFast: bool, remainder: int, p: int, alignment: nat, bytes: nat)
      requires alignment > 0
      reads this
    {
      && ChunkSized(Request2Size(PaddedRequest(alignment, bytes)))
      && exists q, a, f ::
        CutFrom(g0, hadFast, remainder, PaddedRequest(alignment, bytes), q, a, f, p, alignment, Request2Size(bytes))
    }

    lemma ServesAligned(g0: Shape, hadFast: bool, remainder: int, q: int, a: Lists, f: bool, p: int, alignment: nat,
          bytes: nat)
      requires alignment > 0 && ChunkSized(Request2Size(PaddedRequest(alignment, bytes)))
      requires CutFrom(g0, hadFast, remainder, PaddedRequest(alignment, bytes), q, a, f, p, alignment,
          Request2Size(bytes))
      ensures MemalignServes(g0, hadFast, remainder, p, alignment, bytes)
    {
      hide CutFrom, PaddedRequest, Request2Size;
    }

    /** The second half of memalign: cuts an aligned chunk for nb bytes from chunk q. */
    method AlignWithin(q: int, alignment: nat, nb: int) returns (p: int)
      requires Valid() && q in Live(g.m) && NothingIn(stored, q, Live(g.m)[q]) && ChunkSized(nb)
      requires PowerOfTwo(alignment) && alignment >= MINSIZE && q >= 0 && q % 16 == 0
      requires Live(g.m)[q] >= nb + alignment + MINSIZE
      modifies this`mem, this`g, this`fast, this`haveFast, this`top, this`stored
      ensures Valid() && stored == old(stored) && FirstAligned(q, p, alignment) && p >= q
      ensures p % 16 == 0 && (p != q ==> p !in Live(old(g.m))) && Live(old(g.m))[q] - (p - q) >= nb
      ensures Live(g.m) == (Live(old(g.m)) - {q})[
          p := var left := Live(old(g.m))[q] - (p - q); if left > nb + MINSIZE then nb else left]
      ensures GivenBack(ListsOf(old(g)), old(haveFast), q, p, nb, maxFast, ListsOf(g), haveFast)
      ensures BinsShrunk(old(g.bins), g.bins)
    {
      hide Keeps, NothingIn, Space, Consistent, NoLoose, FastWithin, NoFast, NoHeld, Live, PowerOfTwo, AlignUp,
          FirstAligned, LeaderFreed, TailFreed, BinsShrunk;
      FirstsCount(mem, g, base, top, End(), fast, binmap);
      p := q;
      LeaderNone(ListsOf(g), haveFast, q, maxFast);
      var m := p + CHUNK_HDR_SZ;
      if m % alignment != 0 {
        AlignedSpotFits(p, alignment);
        AlignedSpotIsFirst(p, alignment);
        var brk := AlignUp(m, alignment) - CHUNK_HDR_SZ;
        if brk - p < MINSIZE {
          brk := brk + alignment;
        }
        assert brk == AlignedSpot(p, alignment);
        p := GiveBackLeader(p, brk);
      } else {
        AlreadyAligned(q, alignment);
      }
      LiveChunk(mem, g, base, top, End(), fast, binmap, p);
      assert mem.head[p].size >= nb && (p + CHUNK_HDR_SZ) % alignment == 0 by { // large enough and aligned
        FirstIsAligned(q, p, alignment);
      }
      ghost var c, f := ListsOf(g), haveFast;
      GiveBackTail(p, nb);
      assert LeaderFreed(ListsOf(old(g)), old(haveFast), q, p, maxFast, c, f);
      GivenBackShrinks(ListsOf(old(g)), old(haveFast), q, p, nb, maxFast, ListsOf(g), haveFast);
    }

    /** A chunk for padded bytes has been allocated, and the next word to be stored is the
        size word at an alignment point behind the arena. */
    ghost predicate StoreOutside(m: Arena, alignment: nat, padded: nat)
      requires alignment > 0
      reads this
    {
      exists p: nat :: Served(m, g.m, p, padded) && End() <= AlignedSpot(p, alignment)
    }

    /**
      _int_memalign: takes a chunk with room for any alignment point, gives back what lies
      before the aligned address and what is left over at the end.  When the padded size
      does not fit size_t the chunk is too small; the run then ends with a store outside.
     */
    method IntMemalign(alignment: nat, bytes: nat) returns (r: int, outside: bool)
      requires Valid() && PowerOfTwo(alignment) && MINSIZE <= alignment < SIZE_MODULUS
      modifies this`mem, this`g, this`fast, this`haveFast, this`binmap, this`top, this`lastRemainder, this`stored
      ensures Valid() && stored == old(stored)
      ensures bytes > PTRDIFF_MAX ==> r == 0 && !outside
      ensures r == 0 && !outside ==> Live(g.m) == Live(old(g.m))
      ensures r == 0 && !outside && bytes <= PTRDIFF_MAX ==>
        var padded := PaddedRequest(alignment, bytes); padded > PTRDIFF_MAX || Exhausted(Request2Size(padded))
      ensures r == 0 && !outside && bytes <= PTRDIFF_MAX && PaddedRequest(alignment, bytes) <= PTRDIFF_MAX ==>
        var nb := Request2Size(PaddedRequest(alignment, bytes));
        ChunkSized(nb) && NotServed(old(g), old(haveFast), nb, old(lastRemainder), base, End(), g.bins)
      ensures outside ==>
        r == 0 && PadWraps(alignment, bytes) && StoreOutside(old(g.m), alignment, PaddedRequest(alignment, bytes))
      ensures r != 0 ==> !outside && !PadWraps(alignment, bytes)
      ensures r != 0 ==> r % alignment == 0 && Served(old(g.m), g.m, r - CHUNK_HDR_SZ, bytes)
      ensures r != 0 ==>
          MemalignServes(old(g), old(haveFast), old(lastRemainder), r - CHUNK_HDR_SZ, alignment, bytes)
      ensures BinsQueued(old(g.bins), g.bins)
    {
      hide Keeps, NothingIn, Space, Consistent, NoLoose, FastWithin, NoFast, NoHeld, Live, PowerOfTwo, AlignUp,
          Exhausted, WellChosen, WellServed, NotServed, PaddedRequest, PadWraps, Request2Size, Served, FirstAligned,
          GivenBack, MemalignServes, BinsQueued, BinsShrunk;
      outside := false;
      FirstsCount(mem, g, base, top, End(), fast, binmap);
      if bytes > PTRDIFF_MAX {
        BinsShrunkSelf(g.bins);
        return 0, false;
      }
      var nb := Request2Size(bytes);
      RequestPaddingIsLeast(bytes, 0);
      PadWrapsExactly(alignment, bytes);
      var padded := PaddedRequest(alignment, bytes);
      RequestPaddingIsLeast(padded, 0);
      var m := IntMalloc(padded);
      if m == 0 {
        return 0, false;
      }
      var p := m - CHUNK_HDR_SZ;
      ServedChunk(old(g.m), g.m, p, padded);
      LiveChunk(mem, g, base, top, End(), fast, binmap, p);
      LiveEnds(mem, g, base, top, End(), fast, binmap, p);
      SpaceOf(mem, g, base, top, End(), fast, binmap);
      if PadWraps(alignment, bytes) {
        WrappedSpot(p);
        assert m % alignment != 0 && AlignedSpot(p, alignment) >= End();
        return 0, true;
      }
      NothingYet(old(g.m), g.m, base, top, End(), old(mem), stored, p);
      ghost var a, f := ListsOf(g), haveFast;
      var q := p;
      p := AlignWithin(q, alignment, nb);
      QueuedThenShrunk(old(g.bins), a.bins, g.bins);
      FirstIsAligned(q, p, alignment);
      LiveMoved(Live(old(g.m)), Live(a.m), Live(g.m), q, p);
      r := p + CHUNK_HDR_SZ;
      ServedIs(old(g.m), g.m, p, bytes);
      ServesAligned(old(g), old(haveFast), old(lastRemainder), q, a, f, p, alignment, bytes);
    }

    /** The power of two that an alignment is raised to, at least a minimal chunk. */
    method RoundAlignment(alignment: nat) returns (a: nat)
      requires alignment <= LARGEST_POWER
      ensures PowerOfTwo(a) && MINSIZE <= a <= LARGEST_POWER && alignment <= a
      ensures forall b: nat | PowerOfTwo(b) && MINSIZE <= b && alignment <= b :: a <= b
    {
      hide PowerOfTwo;
      LargestPower();
      MinimalPower();
      a := if alignment < MINSIZE then MINSIZE else alignment;
      if !PowerOfTwo(a) {
        a := MALLOC_ALIGNMENT * 2;
        while a < alignment
          invariant PowerOfTwo(a) && MINSIZE <= a <= LARGEST_POWER
          invariant forall b: nat | PowerOfTwo(b) && MINSIZE <= b && alignment <= b :: a <= b
        {
          forall b: nat | PowerOfTwo(b) && MINSIZE <= b && alignment <= b ensures 2 * a <= b { PowersApart(a, b); }
          PowerDoubled(a);
          PowersApart(a, LARGEST_POWER);
          a := 2 * a;
        }
      }
    }

    /**
      _mid_memalign: any alignment.  One that every chunk has is left to malloc, one beyond
      2^63 is refused, any other is raised to the next power of two.
     */
    method MidMemalign(alignment: nat, bytes: nat) returns (r: int, outside: bool, ghost a: nat)
      requires Valid() && alignment < SIZE_MODULUS
      modifies this`mem, this`g, this`fast, this`haveFast, this`binmap, this`top, this`lastRemainder, this`stored
      ensures Valid() && stored == old(stored)
      ensures alignment > LARGEST_POWER ==> r == 0 && !outside && g == old(g)
      ensures MALLOC_ALIGNMENT < alignment <= LARGEST_POWER ==>
        && PowerOfTwo(a) && MINSIZE <= a <= LARGEST_POWER && alignment <= a
        && forall b: nat | PowerOfTwo(b) && MINSIZE <= b && alignment <= b :: a <= b
      ensures bytes > PTRDIFF_MAX ==> r == 0 && !outside
      ensures r == 0 && !outside ==> Live(g.m) == Live(old(g.m))
      ensures r == 0 && !outside && bytes <= PTRDIFF_MAX && alignment <= LARGEST_POWER ==>
        var padded := if alignment <= MALLOC_ALIGNMENT then bytes else PaddedRequest(a, bytes);
        padded > PTRDIFF_MAX || Exhausted(Request2Size(padded))
      ensures outside ==>
        && r == 0 && MALLOC_ALIGNMENT < alignment <= LARGEST_POWER == a && PadWraps(a, bytes)
        && StoreOutside(old(g.m), a, PaddedRequest(a, bytes))
      ensures r != 0 ==> !outside && alignment <= LARGEST_POWER && Served(old(g.m), g.m, r - CHUNK_HDR_SZ, bytes)
      ensures r != 0 && alignment > MALLOC_ALIGNMENT ==> a > 0 && r % a == 0 && !PadWraps(a, bytes)
      ensures r != 0 && PowerOfTwo(alignment) ==> alignment > 0 && r % alignment == 0
      ensures r != 0 && alignment <= MALLOC_ALIGNMENT ==>
        && ChunkSized(Request2Size(bytes))
        && WellServed(old(g), old(haveFast), r - CHUNK_HDR_SZ, Request2Size(bytes), maxFast, old(lastRemainder), base,
            End(), g.bins, g.fasts, lastRemainder)
      ensures r != 0 && alignment > MALLOC_ALIGNMENT ==>
          a > 0 && MemalignServes(old(g), old(haveFast), old(lastRemainder), r - CHUNK_HDR_SZ, a, bytes)
      ensures BinsQueued(old(g.bins), g.bins)
    {
      hide Consistent, Keeps, NoLoose, NoHeld, NoFast, FastWithin, Live, PowerOfTwo, PaddedRequest, PadWraps,
          Exhausted, WellChosen, WellServed, NotServed, MemalignServes, Served, BinsQueued;
      a := 0;
      FirstsCount(mem, g, base, top, End(), fast, binmap);
      BinsShrunkSelf(g.bins);
      if alignment <= MALLOC_ALIGNMENT {
        r := IntMalloc(bytes);
        if r != 0 { SmallAlignment(old(g.m), g.m, r, bytes, alignment); }
        return r, false, a;
      }
      if alignment > LARGEST_POWER {
        return 0, false, a;
      }
      var rounded := RoundAlignment(alignment);
      a := rounded;
      r, outside := IntMemalign(rounded, bytes);
      if outside { PadWrapsExactly(a, bytes); }
      if PowerOfTwo(alignment) { LeastIsItself(a, alignment); }
    }

    /** The program stores a word in a chunk that it holds. */
    method StoreWord(w: int, v: int)
      requires Valid() && OwnWord(g.m, w) && w % 8 == 0
      modifies this`mem, this`stored
      ensures Valid() && stored == old(stored)[w := v]
    {
      hide Keeps, Consistent, OwnWord, Written;
      StoresAreForeign(mem, g, base, top, End(), fast, binmap, w, v);
      KeepsWritten(g.m, mem, stored, w, v);
      mem, stored := Written(mem, w, v), stored[w := v];
    }

    /** The program reads a word that it has stored. */
    method LoadWord(w: int) returns (v: int)
      requires Valid() && w in stored
      ensures v == stored[w]
    {
      hide Consistent;
      assert Reads(mem, w, stored[w]);
      v := mem.foot[w];
    }
  }
}
