/**
  The allocator's own debugging checks, which read only the words in memory: they find
  nothing wrong in any state that the allocator keeps between its calls.
 */
module MallocChecks {
  import opened MallocSizes
  import opened ArenaModel
  import opened LinkedRings
  import opened FreeStore
  import opened MemoryWords
  import opened ChunkChoice
  import opened MallocState

  /** The size word of a chunk can be read. */
  predicate HasHead(mem: Memory, p: int) {
    p in mem.head && p + mem.head[p].size in mem.head
  }

  function NextChunk(mem: Memory, p: int): int
    requires p in mem.head
  {
    p + mem.head[p].size
  }

  /** inuse: the flag is kept in the chunk after p. */
  predicate ClaimsInUse(mem: Memory, p: int)
    requires HasHead(mem, p)
  {
    mem.head[NextChunk(mem, p)].prevInuse
  }

  /** do_check_chunk */
  predicate ChunkOk(mem: Memory, top: int, systemMem: int, p: int) {
    && top in mem.head && p in mem.head
    && var sz, max := mem.head[p].size, NextChunk(mem, top);
    if p != top then p >= max - systemMem && p + sz <= top
    else sz >= MINSIZE && mem.head[p].prevInuse
  }

  /** do_check_free_chunk */
  predicate FreeChunkOk(mem: Memory, top: int, systemMem: int, p: int) {
    && ChunkOk(mem, top, systemMem, p) && HasHead(mem, p)
    && var sz, next := mem.head[p].size, NextChunk(mem, p);
    && !ClaimsInUse(mem, p)
    && if sz >= MINSIZE then
         && sz % 16 == 0 && p % 16 == 0
         && next in mem.foot && mem.foot[next] == sz
         && mem.head[p].prevInuse
         && (next == top || (HasHead(mem, next) && ClaimsInUse(mem, next)))
         && p in mem.fd && mem.fd[p] in mem.bk && mem.bk[mem.fd[p]] == p
         && p in mem.bk && mem.bk[p] in mem.fd && mem.fd[mem.bk[p]] == p
       else sz == SIZE_SZ
  }

  /** do_check_inuse_chunk */
  predicate InuseChunkOk(mem: Memory, top: int, systemMem: int, p: int) {
    && ChunkOk(mem, top, systemMem, p) && HasHead(mem, p)
    && var next := NextChunk(mem, p);
    && ClaimsInUse(mem, p)
    && (!mem.head[p].prevInuse ==>
          p in mem.foot && p - mem.foot[p] in mem.head && NextChunk(mem, p - mem.foot[p]) == p
          && FreeChunkOk(mem, top, systemMem, p - mem.foot[p]))
    && if next == top then mem.head[next].prevInuse && mem.head[next].size >= MINSIZE
       else HasHead(mem, next) && (!ClaimsInUse(mem, next) ==> FreeChunkOk(mem, top, systemMem, next))
  }

  /** The size links of chunk p in the large bin with header b. */
  predicate SizeLinksOk(mem: Memory, b: int, p: int) {
    && p in mem.head && p in mem.fdn && p in mem.bkn && b in mem.fd
    && var sz, fn, bn, first := mem.head[p].size, mem.fdn[p], mem.bkn[p], mem.fd[b];
    if fn != 0 then
      if fn == p then bn == p
      else
        && fn in mem.head && bn in mem.head
        && (if fn == first then sz < mem.head[fn].size else sz > mem.head[fn].size)
        && (if p == first then sz > mem.head[bn].size else sz < mem.head[bn].size)
    else bn == 0
  }

  /** The clauses of do_check_malloc_state about chunk p of bin i. */
  predicate BinnedChunkOk(mem: Memory, top: int, systemMem: int, i: nat, p: int)
    requires p in mem.head && mem.head[p].size >= 0
  {
    var sz := mem.head[p].size;
    && FreeChunkOk(mem, top, systemMem, p)
    && if i >= 2 then
         && BinIndex(sz) == i
         && p in mem.bk && (mem.bk[p] == i || (mem.bk[p] in mem.head && mem.head[mem.bk[p]].size >= sz))
         && (!InSmallbinRange(sz) ==> SizeLinksOk(mem, i, p))
       else !InSmallbinRange(sz) ==> p in mem.fdn && mem.fdn[p] == 0 && p in mem.bkn && mem.bkn[p] == 0
  }

  // ----- what the invariant says about each check -----

  lemma ChunkHolds(m: Arena, base: int, top: int, end: int, mem: Memory, p: int)
    requires Space(m, base, top, end) && Tags(m, base, top, mem.head, mem.foot) && p in m
    ensures ChunkOk(mem, top, end - base, p) && mem.head[p].size == m[p].size
    ensures p != top ==>
        HasHead(mem, p) && NextChunk(mem, p) == Next(m, p) && Next(m, p) in m &&
        (ClaimsInUse(mem, p) <==> InUse(m[p].kind))
    ensures top in mem.head && mem.head[top].size >= MINSIZE && mem.head[top].prevInuse
  {
    TopTags(m, base, top, end, mem.head, mem.foot);
    PrevChunkTags(m, base, top, end, mem.head, mem.foot, p);
    if p != top {
      NextChunkTags(m, base, top, end, mem.head, mem.foot, p);
      assert TagsNext(m, mem.head, mem.foot, p);
    }
  }

  lemma FreeHolds(mem: Memory, g: Shape, base: int, top: int, end: int, fast: seq<int>, binmap: seq<nat>, i: nat,
        k: nat)
    requires Consistent(mem, g, base, top, end, fast, binmap) && 0 < i < NBINS && |g.bins| == NBINS && k < |g.bins[i]|
    ensures FreeChunkOk(mem, top, end - base, g.bins[i][k])
  {
    hide Space, Tags, Binned, SizeRings, Bitmap, FastLists;
    var p := g.bins[i][k];
    BinnedChunk(g.m, g.bins, i, k);
    FreeChunkTags(g.m, base, top, end, mem.head, mem.foot, p);
    ChunkHolds(g.m, base, top, end, mem, p);
    ChunkHolds(g.m, base, top, end, mem, Next(g.m, p));
    assert Ring(mem.fd, mem.bk, [i] + g.bins[i]);
    RingMirror(mem.fd, mem.bk, [i] + g.bins[i], k + 1);
    assert ([i] + g.bins[i])[k + 1] == p;
  }

  /** Between calls a free chunk is in a bin. */
  lemma FreeIsBinned(m: Arena, bins: Bins, p: int) returns (i: nat, k: nat)
    requires Binned(m, bins) && NoLoose(m) && p in m && m[p].kind.Free?
    ensures 0 < i < NBINS && |bins| == NBINS && k < |bins[i]| && bins[i][k] == p
  {
    assert InBin(m, p);
    i := m[p].kind.bin;
    k :| 0 <= k < |bins[i]| && bins[i][k] == p;
  }

  lemma InuseHolds(mem: Memory, g: Shape, base: int, top: int, end: int, fast: seq<int>, binmap: seq<nat>, p: int)
    requires Consistent(mem, g, base, top, end, fast, binmap) && NoLoose(g.m) && p in g.m && InUse(g.m[p].kind)
    ensures InuseChunkOk(mem, top, end - base, p)
  {
    hide Space, Aligned, Tags, Binned, SizeRings, Bitmap, FastLists, LinkedBins, NoLoose, FreeChunkOk, ChunkOk;
    ChunkPlace(g.m, base, top, end, p);
    ChunkHolds(g.m, base, top, end, mem, p);
    PrevChunkTags(g.m, base, top, end, mem.head, mem.foot, p);
    if !mem.head[p].prevInuse {
      var i, k := FreeIsBinned(g.m, g.bins, Prev(mem.foot, p));
      FreeHolds(mem, g, base, top, end, fast, binmap, i, k);
    }
    var next := Next(g.m, p);
    ChunkHolds(g.m, base, top, end, mem, next);
    if next != top && !ClaimsInUse(mem, next) {
      ChunkKinds(g.m, base, top, end, next);
      var i, k := FreeIsBinned(g.m, g.bins, next);
      FreeHolds(mem, g, base, top, end, fast, binmap, i, k);
    }
  }

  lemma ChunkKinds(m: Arena, base: int, top: int, end: int, p: int)
    requires Space(m, base, top, end) && p in m && p != top
    ensures InUse(m[p].kind) <==> !m[p].kind.Free?
  {
  }

  /** A first chunk lies between larger and smaller ones on the ring of distinct sizes. */
  lemma SizeLinksHold(mem: Memory, m: Arena, b: int, l: seq<int>, f: seq<int>, p: int)
    requires SizeRing(m, mem.fdn, mem.bkn, l, f) && Descending(m, l) && p in l && b in mem.fd && mem.fd[b] == l[0]
    requires forall x | x in l :: x in m && x in mem.head && mem.head[x].size == m[x].size && x >= 4096
    ensures SizeLinksOk(mem, b, p)
  {
    if p in f {
      var j :| 0 <= j < |f| && f[j] == p;
      SizeRingAt(m, mem.fdn, mem.bkn, l, f, j);
      RingEnds(m, l, f, j);
      assert f[0] in l && f[|f| - 1] in l && (j > 0 ==> f[j - 1] in l) && (j + 1 < |f| ==> f[j + 1] in l);
    } else {
      assert NoSizeLinks(mem.fdn, mem.bkn, p);
    }
  }

  /** The head of the bin is the first of the firsts. */
  lemma RingEnds(m: Arena, l: seq<int>, f: seq<int>, j: nat)
    requires Firsts(m, l, f) && Descending(m, l) && l != [] && j < |f|
    ensures f[0] == l[0]
    ensures j > 0 ==> f[j] != f[0] && SizeOf(m, f[j]) < SizeOf(m, f[0]) && SizeOf(m, f[j]) < SizeOf(m, f[j - 1])
    ensures j + 1 < |f| ==>
        f[j + 1] != f[0] && SizeOf(m, f[j]) > SizeOf(m, f[j + 1]) && SizeOf(m, f[j]) > SizeOf(m, f[|f| - 1])
    ensures |f| > 1 ==> f[|f| - 1] != f[0]
  {
    SmallestLast(m, l, f);
  }

  lemma BinnedHolds(mem: Memory, g: Shape, base: int, top: int, end: int, fast: seq<int>, binmap: seq<nat>, i: nat,
        k: nat)
    requires Consistent(mem, g, base, top, end, fast, binmap) && 0 < i < NBINS && |g.bins| == NBINS && k < |g.bins[i]|
    ensures var p := g.bins[i][k];
            p in g.m && p in mem.head && mem.head[p].size == g.m[p].size >= MINSIZE &&
                BinnedChunkOk(mem, top, end - base, i, p)
    ensures var p := g.bins[i][k]; p in mem.bk && mem.bk[p] == (if k > 0 then g.bins[i][k - 1] else i) && p >= 4096
  {
    hide Space, Tags, Bitmap, FastLists, Binned, SizeRings, FreeChunkOk, SizeLinksOk, SizeRing, Descending;
    var l, p := g.bins[i], g.bins[i][k];
    ChunkPlace(g.m, base, top, end, p) by { BinnedChunk(g.m, g.bins, i, k); }
    FreeHolds(mem, g, base, top, end, fast, binmap, i, k);
    BinnedChunk(g.m, g.bins, i, k);
    ChunkHolds(g.m, base, top, end, mem, p);
    BackInRing(mem, l, i, k) by { assert Ring(mem.fd, mem.bk, [i] + l); }
    if k > 0 {
      BinnedChunk(g.m, g.bins, i, k - 1);
      ChunkHolds(g.m, base, top, end, mem, l[k - 1]);
      if i > 1 { BinOrder(g.m, g.bins, i, k); }
    }
    SpaceBounds(g.m, base, top, end);
    SizeLinks(g.m, mem.fdn, mem.bkn, g.bins, g.firsts, i, k);
    if i >= NSMALLBINS {
      forall x | x in l ensures x in g.m && x in mem.head && mem.head[x].size == g.m[x].size && x >= 4096 {
        var j :| 0 <= j < |l| && l[j] == x;
        BinnedChunk(g.m, g.bins, i, j);
        ChunkHolds(g.m, base, top, end, mem, x);
      }
      SizeLinksHold(mem, g.m, i, l, g.firsts[i], p);
    }
  }

  lemma BackInRing(mem: Memory, l: seq<int>, i: nat, k: nat)
    requires Ring(mem.fd, mem.bk, [i] + l) && k < |l|
    ensures l[k] in mem.bk && mem.bk[l[k]] == (if k > 0 then l[k - 1] else i)
    ensures i in mem.fd && mem.fd[i] == l[0] && i in mem.bk && mem.bk[i] == l[|l| - 1]
  {
    RingMirror(mem.fd, mem.bk, [i] + l, k + 1);
    RingMirror(mem.fd, mem.bk, [i] + l, 0);
  }

  lemma BinOrder(m: Arena, bins: Bins, i: nat, k: nat)
    requires Binned(m, bins) && 2 <= i < NBINS && 0 < k < |bins[i]|
    ensures SizeOf(m, bins[i][k - 1]) >= SizeOf(m, bins[i][k])
  {
    assert Descending(m, bins[i]);
  }

  /** do_check_remalloced_chunk, for a request of s bytes including the header */
  predicate RemallocedChunkOk(mem: Memory, top: int, systemMem: int, p: int, s: int) {
    && InuseChunkOk(mem, top, systemMem, p)
    && var sz := mem.head[p].size;
    && sz % 16 == 0 && sz >= MINSIZE && (p + CHUNK_HDR_SZ) % 16 == 0 && sz - s >= 0 && sz - (s + MINSIZE) < 0
  }

  /** do_check_malloced_chunk: the chunk before is in use, too. */
  predicate MallocedChunkOk(mem: Memory, top: int, systemMem: int, p: int, s: int) {
    RemallocedChunkOk(mem, top, systemMem, p, s) && mem.head[p].prevInuse
  }

  lemma RemallocedHolds(mem: Memory, g: Shape, base: int, top: int, end: int, fast: seq<int>, binmap: seq<nat>,
        p: int, s: int)
    requires Consistent(mem, g, base, top, end, fast, binmap) && NoLoose(g.m)
    requires p in Live(g.m) && s <= Live(g.m)[p] < s + MINSIZE
    ensures RemallocedChunkOk(mem, top, end - base, p, s)
  {
    hide Consistent, InuseChunkOk, NoLoose;
    LiveIsUsed(g.m, p);
    LiveChunk(mem, g, base, top, end, fast, binmap, p);
    InuseHolds(mem, g, base, top, end, fast, binmap, p);
  }

  /** Every chunk that malloc hands out passes these checks, the second one unless it comes
      from a fastbin. */
  method ServeChecked(s: State, nb: int) returns (victim: int, ok: bool, ghost how: Origin)
    requires s.Valid() && ChunkSized(nb)
    modifies s
    ensures s.Valid() && ok
    ensures victim != 0 ==> RemallocedChunkOk(s.mem, s.top, s.systemMem, victim, nb)
    ensures victim != 0 && !how.FastList? ==> MallocedChunkOk(s.mem, s.top, s.systemMem, victim, nb)
  {
    hide Consistent, Keeps, NoLoose, NoHeld, NoFast, FastWithin, Live, InuseChunkOk, Searched, Chosen;
    ghost var h;
    victim, how, h := s.TakeChunk(nb);
    if victim != 0 { RemallocedHolds(s.mem, s.g, s.base, s.top, s.End(), s.fast, s.binmap, victim, nb); }
    ok := victim == 0 || RemallocedChunkOk(s.mem, s.top, s.systemMem, victim, nb);
  }

  // ----- the walk over all lists -----

  lemma NextInSpace(m: Arena, base: int, top: int, end: int, p: int)
    requires Space(m, base, top, end) && p in m && p != top
    ensures Next(m, p) in m && p < Next(m, p) <= top
  {
  }

  /** The chunks in use that follow chunk p. */
  method CheckFollowers(s: State, p: int) returns (ok: bool)
    requires s.Valid() && p in s.g.m && p != s.top
    ensures ok
  {
    hide Space, Aligned, Tags, Binned, LinkedBins, SizeRings, Bitmap, FastLists, FastWithin, Keeps, NoLoose, NoHeld,
        InuseChunkOk;
    ghost var m, end := s.g.m, s.End();
    ok := true;
    ChunkHolds(m, s.base, s.top, end, s.mem, p);
    NextInSpace(m, s.base, s.top, end, p);
    var q := NextChunk(s.mem, p);
    while q != s.top && HasHead(s.mem, q) && ClaimsInUse(s.mem, q) && s.mem.head[q].size >= MINSIZE
      invariant ok && q in m && q <= s.top && q in s.mem.head
      decreases s.top - q
    {
      ChunkHolds(m, s.base, s.top, end, s.mem, q);
      NextInSpace(m, s.base, s.top, end, q);
      InuseHolds(s.mem, s.g, s.base, s.top, end, s.fast, s.binmap, q);
      ok := ok && InuseChunkOk(s.mem, s.top, s.systemMem, q);
      ChunkHolds(m, s.base, s.top, end, s.mem, Next(m, q));
      q := NextChunk(s.mem, q);
    }
  }

  /** A link of a fastbin chain: null exactly at the end. */
  lemma ChainLink(m: Arena, fd: Links, fast: seq<int>, fasts: Bins, i: nat, p: int, rest: seq<int>)
    requires FastLists(m, fd, fast, fasts) && i < NFASTBINS && Chain(fd, p, rest) && forall x | x in rest ::
        x in fasts[i]
    requires forall x | x in m :: x >= 4096
    ensures p == 0 <==> rest == []
    ensures rest != [] ==>
        p == rest[0] && p in m && m[p].kind == Fast(i) && FastbinIndex(m[p].size) == i && m[p].size >= MINSIZE
    ensures rest != [] ==> p in fd && Chain(fd, fd[p], rest[1..])
  {
    if rest != [] { assert rest[0] in rest; }
  }

  lemma FastStart(m: Arena, fd: Links, fast: seq<int>, fasts: Bins, i: nat)
    requires FastLists(m, fd, fast, fasts) && i < NFASTBINS
    ensures |fast| == NFASTBINS && |fasts| == NFASTBINS && Chain(fd, fast[i], fasts[i])
  {
  }

  lemma LimitHolds(m: Arena, p: int, i: nat, used: bool, limit: nat)
    requires FastWithin(m, if used then limit else 0) && p in m && m[p].kind == Fast(i) && m[p].size >= 0 &&
        FastbinIndex(m[p].size) == i
    ensures i <= FastbinIndex(limit)
  {
    assert m[p].size / 16 <= limit / 16;
  }

  /** The chunks of fastbin i. */
  method CheckFastbin(s: State, i: nat) returns (ok: bool)
    requires s.Valid() && i < NFASTBINS
    ensures ok
  {
    hide Space, Aligned, Tags, Binned, LinkedBins, SizeRings, Bitmap, FastLists, FastWithin, Keeps, NoLoose, NoHeld,
        InuseChunkOk, Chain;
    SpaceBounds(s.g.m, s.base, s.top, s.End());
    FastStart(s.g.m, s.mem.fd, s.fast, s.g.fasts, i);
    ghost var m, end, rest := s.g.m, s.End(), s.g.fasts[i];
    var p := s.fast[i];
    ChainLink(m, s.mem.fd, s.fast, s.g.fasts, i, p, rest);
    if p != 0 { LimitHolds(m, p, i, s.haveFast, s.maxFast); }
    ok := i <= FastbinIndex(s.maxFast) || p == 0; // bins past the limit are empty
    while p != 0
      invariant ok && Chain(s.mem.fd, p, rest) && (forall x | x in rest :: x in s.g.fasts[i]) &&
          (p == 0 <==> rest == [])
      decreases |rest|
    {
      ChainLink(m, s.mem.fd, s.fast, s.g.fasts, i, p, rest);
      ChunkHolds(m, s.base, s.top, end, s.mem, p);
      AlignedChunk(m, p);
      InuseHolds(s.mem, s.g, s.base, s.top, end, s.fast, s.binmap, p);
      ok := ok && p % 16 == 0 && InuseChunkOk(s.mem, s.top, s.systemMem, p) && FastbinIndex(s.mem.head[p].size) == i;
      p, rest := s.mem.fd[p], rest[1..];
      ChainLink(m, s.mem.fd, s.fast, s.g.fasts, i, p, rest);
    }
  }

  /** The header of bin i, and what its bit in the binmap has to say. */
  lemma BinHeader(mem: Memory, g: Shape, base: int, top: int, end: int, fast: seq<int>, binmap: seq<nat>, i: nat)
    requires Consistent(mem, g, base, top, end, fast, binmap) && 0 < i < NBINS
    ensures |g.bins| == NBINS && |binmap| == 4 && i in mem.bk && mem.bk[i] == if g.bins[i] == [] then i
        else g.bins[i][|g.bins[i]| - 1]
    ensures i >= 2 && !BitOf(binmap, i) ==> g.bins[i] == []
  {
    var l := g.bins[i];
    assert Ring(mem.fd, mem.bk, [i] + l);
    RingMirror(mem.fd, mem.bk, [i] + l, 0);
  }

  /** The chunks of bin i, from the last to the first, and those in use after each. */
  method CheckBin(s: State, i: nat) returns (ok: bool)
    requires s.Valid() && 0 < i < NBINS
    ensures ok
  {
    hide Space, Aligned, Tags, Binned, LinkedBins, SizeRings, Bitmap, FastLists, FastWithin, Keeps, NoLoose, NoHeld,
        BinnedChunkOk, BitOf;
    ghost var l, end := s.g.bins, s.End();
    BinHeader(s.mem, s.g, s.base, s.top, end, s.fast, s.binmap, i);
    var b := i;
    ok := i < 2 || BitOf(s.binmap, i) || s.mem.bk[b] == b;
    var p := s.mem.bk[b];
    ghost var k := |l[i]|;
    while p != b
      invariant ok && 0 <= k <= |l[i]| && p == (if k > 0 then l[i][k - 1] else b)
      decreases k
    {
      k := k - 1;
      BinnedHolds(s.mem, s.g, s.base, s.top, end, s.fast, s.binmap, i, k);
      BinnedChunk(s.g.m, l, i, k);
      ChunkPlace(s.g.m, s.base, s.top, end, p);
      var followers := CheckFollowers(s, p);
      ok := ok && BinnedChunkOk(s.mem, s.top, s.systemMem, i, p) && followers;
      if k > 0 { BinnedHolds(s.mem, s.g, s.base, s.top, end, s.fast, s.binmap, i, k - 1); }
      p := s.mem.bk[p];
    }
  }

  /** do_check_malloc_state: no check fails between calls. */
  method CheckMallocState(s: State) returns (ok: bool)
    requires s.Valid()
    ensures ok
  {
    hide Space, Aligned, Tags, Binned, LinkedBins, SizeRings, Bitmap, FastLists, FastWithin, Keeps, NoLoose, NoHeld;
    SpaceBounds(s.g.m, s.base, s.top, s.End());
    ChunkHolds(s.g.m, s.base, s.top, s.End(), s.mem, s.top);
    ok := s.top != 0 && s.base + s.systemMem == s.top + s.mem.head[s.top].size && s.maxFast <= MAX_FAST_SIZE;
    for i := 0 to NFASTBINS
      invariant ok
    {
      var bin := CheckFastbin(s, i);
      ok := ok && bin;
    }
    for i := 1 to NBINS
      invariant ok
    {
      var bin := CheckBin(s, i);
      ok := ok && bin;
    }
    ok := ok && ChunkOk(s.mem, s.top, s.systemMem, s.top);
  }
}
