/**
  What allocating and releasing come to, told of the addresses of blocks alone.
 */
module HeapOutcomes {
  import opened MemSizes
  import opened BlockChain
  import opened MemorySpans
  import opened HeapBlocks
  import opened HeapGrowth

  // ----- releasing -----

  /** Block i has been freed: it reaches to the end of its successor if that was free and
      nothing lay between them, and every other block is as it was. */
  ghost predicate FreedInto(s: Chain, i: nat, t: Chain)
    requires i < |s|
  {
    if i + 1 < |s| && s[i + 1].free && s[i].addr + HEADER + s[i].cap == s[i + 1].addr then
      && |t| == |s| - 1 && t[i].free && t[i].addr == s[i].addr && t[i].End() == s[i + 1].End()
      && t[..i] == s[..i] && t[i + 1..] == s[i + 2..]
    else
      && |t| == |s| && t[i].free && t[i].addr == s[i].addr && t[i].End() == s[i].End()
      && t[..i] == s[..i] && t[i + 1..] == s[i + 1..]
  }

  lemma ReleasedInto(s: Chain, i: nat)
    requires i < |s|
    ensures FreedInto(s, i, Released(s, i))
  {
  }

  // ----- allocating -----

  /** From the addresses a to e, block k of t has its header and q bytes, and a free block
      the rest if that makes one; else block k has it all.  Then follow the blocks of rest. */
  ghost predicate ServedFrom(t: Chain, k: nat, a: int, e: int, q: int, rest: Chain) {
    && k < |t| && t[k].addr == a && !t[k].free
    && if a + HEADER + q + HEADER + BLOCK_MIN_CAPACITY <= e then
         && t[k].cap == q && k + 1 < |t| && t[k + 1].free && t[k + 1].addr == t[k].End() && t[k + 1].End() == e
         && t[k + 2..] == rest
       else t[k].End() == e && t[k + 1..] == rest
  }

  lemma TakenServes(s: Chain, k: nat, q: int)
    requires k < |s| && s[k].free
    ensures |Taken(s, k, q)| >= |s| && Taken(s, k, q)[..k] == s[..k]
    ensures ServedFrom(Taken(s, k, q), k, s[k].addr, s[k].End(), q, s[k + 1..])
  {
  }

  /** The same memory and the same used blocks, and no two free blocks touch. */
  ghost predicate CoalescedOf(s: Chain, u: Chain) {
    u != [] && Coalesced(u, |u|) && Used(u) == Used(s) && Joined(Extents(u)) == Joined(Extents(s))
  }

  /** A search that finds nothing has coalesced everything. */
  lemma SearchCoalesces(hdr0: Headers, s: Chain, hdr: Headers, u: Chain, regions: seq<Span>, live0: map<int, int>,
        live: map<int, int>, q: int)
    requires Sound(hdr0, s, regions, live0) && Sound(hdr, u, regions, live) && Used(u) == Used(s)
    requires Search(s, q) == (u, NotFound)
    ensures CoalescedOf(s, u)
  {
    SearchIsFirstFit(s, q);
  }

  /** Growing from the coalesced blocks u: a new region, right behind the last block if the
      kernel allows that, from which, and from the last block if it is free and touches it,
      the request is served unless the size of the region wrapped. */
  ghost predicate ServedByGrowth(u: Chain, regions: seq<Span>, kernel: Kernel, q: nat, t: Chain, regions': seq<Span>,
        p: int)
    requires u != []
  {
    var last, size := u[|u| - 1], RegionSize(q);
    var g := Granted(regions, last.End(), size, kernel);
    if g == MAP_FAILED then t == u && regions' == regions && p == NULL
    else
      var k := if last.free && g == last.End() then |u| - 1 else |u|;
      var a := if last.free && g == last.End() then last.addr else g;
      && regions' == regions + [Span(g, g + size)] && k < |t| && t[..k] == u[..k]
      && if RegionFits(q) then ServedFrom(t, k, a, g + size, q, []) && p == a + HEADER
         else |t| == k + 1 && t[k].free && t[k].addr == a && t[k].End() == g + size && p == NULL
  }

  /** From the maximal run i to j of s, the first that fits; what lies before it is coalesced
      and what lies behind it is as it was. */
  ghost predicate ServedByRun(s: Chain, q: nat, t: Chain, p: int, i: nat, j: nat, k: nat) {
    && FirstFit(s, q, i, j) && ServedFrom(t, k, s[i].addr, s[j - 1].End(), q, s[j..])
    && Coalesced(t, k) && p == s[i].addr + HEADER
  }

  /** How a request is served. */
  ghost predicate ServedAs(s: Chain, regions: seq<Span>, kernel: Kernel, q: nat, t: Chain, regions': seq<Span>, p: int)
  {
    if NoRunFits(s, q) then
      exists u :: CoalescedOf(s, u) && ServedByGrowth(u, regions, kernel, q, t, regions', p)
    else
      regions' == regions && exists i: nat, j: nat, k: nat :: ServedByRun(s, q, t, p, i, j, k)
  }

  lemma GrownServes(u: Chain, regions: seq<Span>, kernel: Kernel, q: nat, t: Chain, regions': seq<Span>, p: int)
    requires u != []
    requires var g, size := Granted(regions, u[|u| - 1].End(), RegionSize(q), kernel), RegionSize(q);
        if g == MAP_FAILED then t == u && regions' == regions && p == NULL
        else var v := Grown(u, g, size);
          && regions' == regions + [Span(g, g + size)] && v != []
          && if RegionFits(q) then t == Taken(v, |v| - 1, q) && p == Pointer(v[|v| - 1]) else t == v && p == NULL
    ensures ServedByGrowth(u, regions, kernel, q, t, regions', p)
  {
    hide RegionSize, RegionFits, Granted, Taken, ServedFrom;
    var g := Granted(regions, u[|u| - 1].End(), RegionSize(q), kernel);
    if g != MAP_FAILED {
      var v := Grown(u, g, RegionSize(q));
      TakenServes(v, |v| - 1, q);
    }
  }

  /** Told of addresses, every outcome is one of these. */
  lemma OutcomeServes(s: Chain, regions: seq<Span>, kernel: Kernel, q: nat, t: Chain, regions': seq<Span>, p: int)
    requires Outcome(s, regions, kernel, q, t, regions', p)
    requires Search(s, q).1 == NotFound ==> CoalescedOf(s, Search(s, q).0)
    ensures ServedAs(s, regions, kernel, q, t, regions', p)
  {
    hide Search, RegionSize, RegionFits, Granted, Taken, ServedFrom, CoalescedOf, ServedByGrowth, Grown,
        NoRunFits;
    SearchIsFirstFit(s, q);
    var (u, r) := Search(s, q);
    if r.FoundAt? {
      var i: nat, j: nat :| FirstFit(s, q, i, j) && StopsAt(s, q, i, j);
      FoundServes(s, q, i, j);
      assert ServedByRun(s, q, t, p, i, j, r.index);
    } else {
      GrownServes(u, regions, kernel, q, t, regions', p);
    }
  }

  lemma FoundServes(s: Chain, q: nat, i: nat, j: nat)
    requires FirstFit(s, q, i, j) && StopsAt(s, q, i, j)
    ensures var (u, r) := Search(s, q);
        ServedByRun(s, q, Taken(u, r.index, q), Pointer(u[r.index]), i, j, r.index)
  {
    hide Search, Taken, FirstFit, ServedFrom;
    var (u, r) := Search(s, q);
    TakenServes(u, r.index, q);
    var t := Taken(u, r.index, q);
    forall x | 0 < x <= r.index && x < |t| ensures !JoinsPrevious(t, x) {
      assert t[..r.index][x - 1] == u[..r.index][x - 1];
      if x < r.index { assert t[..r.index][x] == u[..r.index][x] && !JoinsPrevious(u, x); }
    }
  }
}
