/**
  Block headers in memory, the blocks and mapped regions that they describe, and what
  merging, splitting, marking and adding a block keep.
 */
module HeapBlocks {
  import opened MemSizes
  import opened BlockChain
  import opened MemorySpans

  const NULL: int := 0
  const MAP_FAILED: int := -1

  datatype Header = Header(next: int, cap: int, free: bool)

  type Headers = map<int, Header>

  /** The bytes of memory. */
  type Bytes = int -> int

  function NextAddr(s: Chain, i: nat): int
    requires i < |s|
  {
    if i + 1 < |s| then s[i + 1].addr else NULL
  }

  ghost predicate Stored(hdr: Headers, s: Chain, i: nat)
    requires i < |s|
  {
    s[i].addr in hdr && hdr[s[i].addr] == Header(NextAddr(s, i), s[i].cap, s[i].free)
  }

  /** The headers in memory link exactly the blocks of s, in order. */
  ghost predicate Linked(hdr: Headers, s: Chain) {
    forall i | 0 <= i < |s| :: Stored(hdr, s, i)
  }

  ghost predicate Blocks(s: Chain) {
    && s != [] && s[0].addr == HEAP_START
    && (forall i | 0 <= i < |s| :: s[i].cap >= BLOCK_MIN_CAPACITY && s[i].addr > 0)
    && Disjoint(Extents(s))
  }

  ghost predicate Regions(regions: seq<Span>) {
    Disjoint(regions) && forall i | 0 <= i < |regions| ::
      regions[i].lo > 0 && regions[i].lo % 4096 == 0 && regions[i].hi % 4096 == 0 && regions[i].hi <= ADDRESS_LIMIT
  }

  /** The blocks cover exactly the mapped regions. */
  ghost predicate Tiles(s: Chain, regions: seq<Span>) {
    Joined(Extents(s)) == Joined(regions)
  }

  ghost function Used(s: Chain): set<Block> {
    set b | b in s && !b.free
  }

  function Pointer(b: Block): int {
    b.addr + HEADER
  }

  /** live maps the pointers handed out, and not yet freed, to the bytes asked for. */
  ghost predicate Owners(s: Chain, live: map<int, int>) {
    && (forall b | b in Used(s) :: Pointer(b) in live && live[Pointer(b)] <= b.cap)
    && (forall p | p in live :: exists b :: b in Used(s) && Pointer(b) == p)
  }

  /** The payload bytes of these blocks are the same. */
  ghost predicate Untouched(blocks: set<Block>, d: Bytes, d': Bytes) {
    forall b, x | b in blocks && Pointer(b) <= x < b.End() :: d'(x) == d(x)
  }

  lemma UntouchedTwice(blocks: set<Block>, d0: Bytes, d1: Bytes, d2: Bytes)
    requires Untouched(blocks, d0, d1) && Untouched(blocks, d1, d2)
    ensures Untouched(blocks, d0, d2)
  {
  }

  lemma UntouchedFewer(blocks: set<Block>, b: Block, d: Bytes, d': Bytes)
    requires Untouched(blocks, d, d')
    ensures Untouched(blocks - {b}, d, d')
  {
  }

  // ----- merging -----

  lemma MergeBlocks(s: Chain, i: nat)
    requires Blocks(s) && i + 1 < |s| && Mergeable(s[i], s[i + 1])
    ensures Blocks(MergeAt(s, i))
  {
    var t := MergeAt(s, i);
    assert forall k | 0 <= k < |t| :: t[k] == if k < i then s[k] else if k == i then Join(s[i], s[i + 1]) else s[k + 1];
    var e, f := Extents(s), Extents(t);
    forall k, h | 0 <= k < h < |f| ensures f[k].hi <= f[h].lo || f[h].hi <= f[k].lo {
      var k', h' := if k <= i then k else k + 1, if h <= i then h else h + 1;
      assert e[k'].hi <= e[h'].lo || e[h'].hi <= e[k'].lo;
      if k == i { assert e[i + 1].hi <= e[h'].lo || e[h'].hi <= e[i + 1].lo; }
      if h == i { assert e[k'].hi <= e[i + 1].lo || e[i + 1].hi <= e[k'].lo; }
    }
  }

  lemma MergeTiles(s: Chain, i: nat)
    requires i + 1 < |s| && Mergeable(s[i], s[i + 1])
    ensures Joined(Extents(MergeAt(s, i))) == Joined(Extents(s))
  {
    var e := Extents(s);
    assert e == (e[..i] + [e[i]]) + [e[i + 1]] + e[i + 2..];
    JoinPair(e[..i], e[i], e[i + 1], e[i + 2..]);
    assert Extents(MergeAt(s, i)) == e[..i] + [Span(e[i].lo, e[i + 1].hi)] + e[i + 2..];
  }

  lemma MergeUsed(s: Chain, i: nat)
    requires i + 1 < |s| && s[i].free && s[i + 1].free
    ensures Used(MergeAt(s, i)) == Used(s)
  {
    var t := MergeAt(s, i);
    forall b: Block | !b.free ensures b in s <==> b in t {
      if b in s {
        var k :| 0 <= k < |s| && s[k] == b;
        assert t[if k < i then k else k - 1] == b;
      }
    }
  }

  lemma MergeLinked(hdr: Headers, s: Chain, i: nat)
    requires Linked(hdr, s) && Blocks(s) && i + 1 < |s|
    ensures Stored(hdr, s, i) && Stored(hdr, s, i + 1)
    ensures Linked(hdr[s[i].addr := Header(NextAddr(s, i + 1), Join(s[i], s[i + 1]).cap, true)], MergeAt(s, i))
  {
    var t, h := MergeAt(s, i), hdr[s[i].addr := Header(NextAddr(s, i + 1), Join(s[i], s[i + 1]).cap, true)];
    assert Stored(hdr, s, i) && Stored(hdr, s, i + 1);
    forall k | 0 <= k < |t| ensures Stored(h, t, k) {
      if k != i {
        var k' := if k < i then k else k + 1;
        assert Stored(hdr, s, k') && t[k] == s[k'];
        AddrsDiffer(s, i, k');
      }
    }
  }

  lemma AddrsDiffer(s: Chain, i: nat, j: nat)
    requires Blocks(s) && i < |s| && j < |s| && i != j
    ensures s[i].addr != s[j].addr
  {
    var e := Extents(s);
    assert e[i].lo < e[i].hi && e[j].lo < e[j].hi;
    if i < j { assert e[i].hi <= e[j].lo || e[j].hi <= e[i].lo; }
        else { assert e[j].hi <= e[i].lo || e[i].hi <= e[j].lo; }
  }

  // ----- splitting -----

  lemma SplitBlocks(s: Chain, i: nat, q: int)
    requires Blocks(s) && i < |s| && BLOCK_MIN_CAPACITY <= q && q + HEADER + BLOCK_MIN_CAPACITY <= s[i].cap
    ensures Blocks(SplitAt(s, i, q))
  {
    var t := SplitAt(s, i, q);
    assert forall k | 0 <= k < |t| :: k != i && k != i + 1 ==> t[k] == s[if k < i then k else k - 1];
    var e, f := Extents(s), Extents(t);
    forall k, h | 0 <= k < h < |f| ensures f[k].hi <= f[h].lo || f[h].hi <= f[k].lo {
      var k', h' := if k <= i then k else k - 1, if h <= i then h else h - 1;
      if k' < h' { assert e[k'].hi <= e[h'].lo || e[h'].hi <= e[k'].lo; }
    }
  }

  lemma SplitTiles(s: Chain, i: nat, q: int)
    requires i < |s|
    ensures Joined(Extents(SplitAt(s, i, q))) == Joined(Extents(s))
  {
    var e, f := Extents(s), Extents(SplitAt(s, i, q));
    assert f == (f[..i] + [f[i]]) + [f[i + 1]] + f[i + 2..];
    JoinPair(f[..i], f[i], f[i + 1], f[i + 2..]);
    assert e == f[..i] + [Span(f[i].lo, f[i + 1].hi)] + f[i + 2..];
  }

  lemma SplitUsed(s: Chain, i: nat, q: int)
    requires i < |s| && s[i].free
    ensures Used(SplitAt(s, i, q)) == Used(s)
  {
    var t := SplitAt(s, i, q);
    forall b: Block | !b.free ensures b in s <==> b in t {
      if b in s {
        var k :| 0 <= k < |s| && s[k] == b;
        assert t[if k < i then k else k + 1] == b;
      }
    }
  }

  lemma SplitLinked(hdr: Headers, s: Chain, i: nat, q: int)
    requires Linked(hdr, s) && Blocks(s) && i < |s| && BLOCK_MIN_CAPACITY <= q &&
        q + HEADER + BLOCK_MIN_CAPACITY <= s[i].cap
    ensures var a, b := s[i].addr, s[i].addr + HEADER + q;
            Linked(hdr[b := Header(NextAddr(s, i), s[i].cap - q - HEADER, s[i].free)][a := Header(b, q, s[i].free)],
                SplitAt(s, i, q))
  {
    var a, b := s[i].addr, s[i].addr + HEADER + q;
    var t, h := SplitAt(s, i, q),
        hdr[b := Header(NextAddr(s, i), s[i].cap - q - HEADER, s[i].free)][a := Header(b, q, s[i].free)];
    SplitBlocks(s, i, q);
    forall k | 0 <= k < |t| ensures Stored(h, t, k) {
      if k != i && k != i + 1 {
        var k' := if k < i then k else k - 1;
        assert Stored(hdr, s, k') && t[k] == s[k'];
        AddrsDiffer(t, i, k);
        AddrsDiffer(t, i + 1, k);
      }
    }
  }

  // ----- handing out and taking back -----

  function Marked(s: Chain, i: nat, free: bool): Chain
    requires i < |s|
  {
    s[i := Block(s[i].addr, s[i].cap, free)]
  }

  lemma MarkedKeeps(hdr: Headers, s: Chain, i: nat, free: bool)
    requires Linked(hdr, s) && Blocks(s) && i < |s|
    ensures Stored(hdr, s, i)
    ensures Blocks(Marked(s, i, free)) && Extents(Marked(s, i, free)) == Extents(s)
    ensures Linked(hdr[s[i].addr := hdr[s[i].addr].(free := free)], Marked(s, i, free))
  {
    var t := Marked(s, i, free);
    assert Stored(hdr, s, i);
    assert Extents(t) == Extents(s);
    var h := hdr[s[i].addr := hdr[s[i].addr].(free := free)];
    forall k | 0 <= k < |t| ensures Stored(h, t, k) {
      assert Stored(hdr, s, k);
      if k != i { AddrsDiffer(s, i, k); }
    }
  }

  lemma MarkedUsed(s: Chain, i: nat)
    requires Blocks(s) && i < |s|
    ensures var b := Block(s[i].addr, s[i].cap, false);
            Used(Marked(s, i, false)) == Used(s) + {b} && Used(Marked(s, i, true)) == Used(s) - {b}
  {
    var b, t, u := Block(s[i].addr, s[i].cap, false), Marked(s, i, false), Marked(s, i, true);
    assert t[i] == b;
    forall c: Block | !c.free ensures (c in t <==> c in s || c == b) && (c in u <==> c in s && c != b) {
      if c in s {
        var k :| 0 <= k < |s| && s[k] == c;
        if k != i { assert t[k] == c && u[k] == c; AddrsDiffer(s, i, k); }
      }
      if c in u {
        var k :| 0 <= k < |u| && u[k] == c;
        assert k != i && s[k] == c;
        AddrsDiffer(s, i, k);
      }
    }
  }

  lemma MarkedOwners(s: Chain, i: nat, live: map<int, int>, q: int)
    requires Blocks(s) && Owners(s, live) && i < |s|
    ensures s[i].free && q <= s[i].cap ==>
        Pointer(s[i]) !in live && Owners(Marked(s, i, false), live[Pointer(s[i]) := q])
    ensures !s[i].free ==> Pointer(s[i]) in live && Owners(Marked(s, i, true), live - {Pointer(s[i])})
  {
    MarkedUsed(s, i);
    var b := Block(s[i].addr, s[i].cap, false);
    forall c | c in Used(s) && c != b ensures c.addr != s[i].addr {
      var k :| 0 <= k < |s| && s[k] == c;
      if k != i { AddrsDiffer(s, i, k); }
    }
    if s[i].free {
      if b in Used(s) {
        var k :| 0 <= k < |s| && s[k] == b;
        AddrsDiffer(s, i, k);
      }
      assert b in Used(Marked(s, i, false));
    }
  }

  lemma BlockFacts(s: Chain, i: nat)
    requires Blocks(s) && i < |s|
    ensures s[i].cap >= BLOCK_MIN_CAPACITY && s[i].addr > 0 && s[0].addr == HEAP_START
    ensures i + 1 < |s| ==> s[i + 1].addr > 0 && s[i + 1].cap >= BLOCK_MIN_CAPACITY
    ensures s[i].free ==> Used(s) - {s[i]} == Used(s)
  {
  }

  /** Writes within one block touch the payload of no used block other than it. */
  lemma WritesWithin(s: Chain, i: nat, d: Bytes, d': Bytes)
    requires Blocks(s) && i < |s| && forall x | !(s[i].addr <= x < s[i].End()) :: d'(x) == d(x)
    ensures Untouched(Used(s) - {s[i]}, d, d')
  {
    forall b, x | b in Used(s) - {s[i]} && Pointer(b) <= x < b.End() ensures d'(x) == d(x) {
      var k :| 0 <= k < |s| && s[k] == b;
      BlocksApart(s, i, k);
    }
  }

  lemma BlocksApart(s: Chain, i: nat, k: nat)
    requires Blocks(s) && i < |s| && k < |s| && i != k
    ensures s[i].End() <= s[k].addr || s[k].End() <= s[i].addr
  {
    var e := Extents(s);
    if i < k { assert e[i].hi <= e[k].lo || e[k].hi <= e[i].lo; }
        else { assert e[k].hi <= e[i].lo || e[i].hi <= e[k].lo; }
  }

  /** Writes within the header of one block touch no payload at all. */
  lemma WritesInHeader(s: Chain, i: nat, d: Bytes, d': Bytes)
    requires Blocks(s) && i < |s| && forall x | !(s[i].addr <= x < s[i].addr + HEADER) :: d'(x) == d(x)
    ensures Untouched(Used(s), d, d')
  {
    BlockFacts(s, i);
    forall b, x | b in Used(s) && Pointer(b) <= x < b.End() ensures d'(x) == d(x) {
      var k :| 0 <= k < |s| && s[k] == b;
      if k != i { BlocksApart(s, i, k); }
    }
  }

  /** What the allocator keeps: headers link blocks that tile the mapped regions, and
      the used blocks are those that have an owner. */
  ghost predicate Sound(hdr: Headers, s: Chain, regions: seq<Span>, live: map<int, int>) {
    Linked(hdr, s) && Blocks(s) && Regions(regions) && Tiles(s, regions) && Owners(s, live)
  }

  lemma MergeSound(hdr: Headers, s: Chain, regions: seq<Span>, live: map<int, int>, i: nat)
    requires Sound(hdr, s, regions, live) && i + 1 < |s| && Mergeable(s[i], s[i + 1])
    ensures Sound(hdr[s[i].addr := Header(NextAddr(s, i + 1), Join(s[i], s[i + 1]).cap, true)], MergeAt(s, i), regions,
        live)
    ensures Used(MergeAt(s, i)) == Used(s)
  {
    MergeBlocks(s, i);
    MergeTiles(s, i);
    MergeUsed(s, i);
    MergeLinked(hdr, s, i);
  }

  lemma SplitSound(hdr: Headers, s: Chain, regions: seq<Span>, live: map<int, int>, i: nat, q: int)
    requires Sound(hdr, s, regions, live) && i < |s| && s[i].free && BLOCK_MIN_CAPACITY <= q &&
        q + HEADER + BLOCK_MIN_CAPACITY <= s[i].cap
    ensures var a, b := s[i].addr, s[i].addr + HEADER + q;
            Sound(hdr[b := Header(NextAddr(s, i), s[i].cap - q - HEADER, true)][a := Header(b, q, true)],
                SplitAt(s, i, q), regions, live)
    ensures Used(SplitAt(s, i, q)) == Used(s)
  {
    SplitBlocks(s, i, q);
    SplitTiles(s, i, q);
    SplitUsed(s, i, q);
    SplitLinked(hdr, s, i, q);
  }

  /** Block i, in use, with at least q bytes; what it has beyond them is split off when
      that makes a block of its own. */
  function Taken(s: Chain, i: nat, q: int): Chain
    requires i < |s|
  {
    Marked(if q + HEADER + BLOCK_MIN_CAPACITY <= s[i].cap then SplitAt(s, i, q) else s, i, false)
  }

  function TakenBlock(b: Block, q: int): Block {
    Block(b.addr, if q + HEADER + BLOCK_MIN_CAPACITY <= b.cap then q else b.cap, false)
  }

  lemma WritesInFree(hdr: Headers, s: Chain, regions: seq<Span>, live: map<int, int>, i: nat, d: Bytes, d': Bytes)
    requires Sound(hdr, s, regions, live) && i < |s| && s[i].free && forall x | !(s[i].addr <= x < s[i].End()) ::
        d'(x) == d(x)
    ensures Untouched(Used(s), d, d')
  {
    BlockFacts(s, i);
    WritesWithin(s, i, d, d');
  }

  lemma WritesToHeader(hdr: Headers, s: Chain, regions: seq<Span>, live: map<int, int>, i: nat, d: Bytes, d': Bytes)
    requires Sound(hdr, s, regions, live) && i < |s| && forall x | !(s[i].addr <= x < s[i].addr + HEADER) ::
        d'(x) == d(x)
    ensures Untouched(Used(s), d, d')
  {
    WritesInHeader(s, i, d, d');
  }

  lemma MarkSound(hdr: Headers, s: Chain, regions: seq<Span>, live: map<int, int>, i: nat, q: int)
    requires Sound(hdr, s, regions, live) && i < |s|
    ensures s[i].addr in hdr
    ensures s[i].free && q <= s[i].cap ==>
      && Pointer(s[i]) !in live && Used(Marked(s, i, false)) == Used(s) + {Block(s[i].addr, s[i].cap, false)}
      && Sound(hdr[s[i].addr := hdr[s[i].addr].(free := false)], Marked(s, i, false), regions, live[Pointer(s[i]) := q])
    ensures !s[i].free ==>
      && Used(Marked(s, i, true)) == Used(s) - {s[i]}
      && Sound(hdr[s[i].addr := hdr[s[i].addr].(free := true)], Marked(s, i, true), regions, live - {Pointer(s[i])})
  {
    MarkedKeeps(hdr, s, i, !s[i].free);
    MarkedUsed(s, i);
    MarkedOwners(s, i, live, q);
  }

  lemma UntouchedSelf(blocks: set<Block>, d: Bytes)
    ensures Untouched(blocks, d, d)
  {
  }

  /** The header of block k. */
  lemma HeaderAt(hdr: Headers, s: Chain, regions: seq<Span>, live: map<int, int>, k: nat)
    requires Sound(hdr, s, regions, live) && k < |s|
    ensures s[k].addr in hdr && hdr[s[k].addr] == Header(NextAddr(s, k), s[k].cap, s[k].free)
    ensures s[k].cap >= BLOCK_MIN_CAPACITY && (hdr[s[k].addr].next == NULL <==> k == |s| - 1)
    ensures s[0].addr == HEAP_START && s[k].addr > 0
  {
    assert Stored(hdr, s, k);
    BlockFacts(s, k);
  }

  lemma SplitAtFacts(s: Chain, i: nat, q: int)
    requires i < |s|
    ensures SplitAt(s, i, q)[i] == Block(s[i].addr, q, s[i].free) && i < |SplitAt(s, i, q)|
  {
  }

  /** A search from block at on found a block, and it was handed out at address b: the
      program owns exactly one more block. */
  ghost predicate HandedOut(s: Chain, t: Chain, live: map<int, int>, live': map<int, int>, at: nat, q: int, b: int) {
    && at <= |s| && Search(s[at..], q).1.FoundAt?
    && var u, k := s[..at] + Search(s[at..], q).0, at + Search(s[at..], q).1.index;
    && k < |u| && b == u[k].addr && u[k].free && u[k].cap >= q && t == Taken(u, k, q)
    && b + HEADER !in live && live' == live[b + HEADER := q]
    && Used(t) == Used(s) + {TakenBlock(u[k], q)}
  }

  /** The block found at k, cut to size as v and marked, is handed out. */
  lemma HandsOut(s0: Chain, s: Chain, v: Chain, live: map<int, int>, at: nat, k: nat, q: int)
    requires at <= |s0| && at <= k < |s| && s == s0[..at] + Search(s0[at..], q).0 &&
        Search(s0[at..], q).1 == FoundAt(k - at)
    requires s[k].free && s[k].cap >= q && Pointer(s[k]) !in live
    requires k < |v| && v == if q + HEADER + BLOCK_MIN_CAPACITY <= s[k].cap then SplitAt(s, k, q) else s
    requires Used(s) == Used(s0) && Used(v) == Used(s) &&
        Used(Marked(v, k, false)) == Used(v) + {Block(v[k].addr, v[k].cap, false)}
    ensures HandedOut(s0, Marked(v, k, false), live, live[Pointer(s[k]) := q], at, q, s[k].addr)
  {
    hide Search, Used, Marked;
  }
}
