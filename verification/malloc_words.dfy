/**
  The words of memory: those that the allocator reads, and those that the program has
  stored in its own chunks, which no step of the allocator changes.
 */
module MemoryWords {
  import opened MallocSizes
  import opened ArenaModel
  import opened LinkedRings
  import opened FreeStore

  /** The words that chunks and bin headers keep in memory, by chunk address: the foot of the
      chunk before at the address itself, the size word 8 bytes behind, then the links.
      A word of memory is an entry in each table, as it would be read in that role. */
  datatype Memory = Memory(head: Heads, foot: Foots, fd: Links, bk: Links, fdn: Links, bkn: Links)

  /** The words that the program has stored, by address. */
  type Stores = map<int, int>

  /** Word w belongs to the memory of the program's chunk c. */
  ghost predicate WordOf(m: Arena, c: int, w: int) {
    c in m && m[c].kind == Used && c + CHUNK_HDR_SZ <= w < c + m[c].size + SIZE_SZ
  }

  ghost predicate OwnWord(m: Arena, w: int) {
    exists c :: WordOf(m, c, w)
  }

  /** A word as a size word. */
  function AsHead(v: int): Head {
    Head(v - v % 8, v % 2 == 1)
  }

  /** Word w has value v, in whichever role it is read. */
  predicate Reads(mem: Memory, w: int, v: int) {
    && w - 8 in mem.head && mem.head[w - 8] == AsHead(v) && w in mem.foot && mem.foot[w] == v
    && w - 16 in mem.fd && mem.fd[w - 16] == v && w - 24 in mem.bk && mem.bk[w - 24] == v
    && w - 32 in mem.fdn && mem.fdn[w - 32] == v && w - 40 in mem.bkn && mem.bkn[w - 40] == v
  }

  /** Memory after value v has been stored at word w. */
  function Written(mem: Memory, w: int, v: int): Memory {
    Memory(mem.head[w - 8 := AsHead(v)], mem.foot[w := v], mem.fd[w - 16 := v], mem.bk[w - 24 := v],
           mem.fdn[w - 32 := v], mem.bkn[w - 40 := v])
  }

  /** Every word that the program has stored lies in one of its chunks and still has its
      value. */
  ghost predicate Keeps(m: Arena, mem: Memory, stored: Stores) {
    forall w | w in stored :: OwnWord(m, w) && Reads(mem, w, stored[w]) && w % 8 == 0
  }

  // ----- words that are not the program's -----

  /** From its size word to the size word behind it, a chunk that the program does not hold
      has no word of the program. */
  lemma NotOwn(m: Arena, base: int, top: int, end: int, c: int, w: int)
    requires Space(m, base, top, end) && c in m && m[c].kind != Used && c + SIZE_SZ <= w < c + m[c].size + CHUNK_HDR_SZ
    ensures !OwnWord(m, w)
  {
    forall d ensures !WordOf(m, d, w) {
      if d in m && m[d].kind == Used { assert d < c || c < d; }
    }
  }

  lemma HeaderNotOwn(m: Arena, base: int, top: int, end: int, w: int)
    requires Space(m, base, top, end) && w < 4096
    ensures !OwnWord(m, w)
  {
  }

  /** The address of a bin header, or of a chunk that the program does not hold. */
  predicate LinkSpot(m: Arena, x: int) {
    x < NBINS || (x in m && m[x].kind != Used)
  }

  lemma SpotWords(m: Arena, base: int, top: int, end: int, x: int)
    requires Space(m, base, top, end) && LinkSpot(m, x)
    ensures !OwnWord(m, x + 16) && !OwnWord(m, x + 24) && !OwnWord(m, x + 32) && !OwnWord(m, x + 40)
  {
    if x in m && m[x].kind != Used {
      SizeAt(m, base, top, end, x);
      hide Space, OwnWord;
      NotOwn(m, base, top, end, x, x + 16);
      NotOwn(m, base, top, end, x, x + 24);
      NotOwn(m, base, top, end, x, x + 32);
      NotOwn(m, base, top, end, x, x + 40);
    } else {
      hide Space, OwnWord;
      HeaderNotOwn(m, base, top, end, x + 16);
      HeaderNotOwn(m, base, top, end, x + 24);
      HeaderNotOwn(m, base, top, end, x + 32);
      HeaderNotOwn(m, base, top, end, x + 40);
    }
  }

  lemma SizeAt(m: Arena, base: int, top: int, end: int, x: int)
    requires Space(m, base, top, end) && x in m
    ensures m[x].size >= MINSIZE
  {
  }

  /** No size word of a chunk is the program's. */
  lemma HeadNotOwn(m: Arena, base: int, top: int, end: int, c: int)
    requires Space(m, base, top, end) && c in m
    ensures !OwnWord(m, c + 8)
  {
    var w := c + 8;
    forall d ensures !WordOf(m, d, w) {
      if d in m && m[d].kind == Used { assert d < c ==> d + m[d].size <= c; }
    }
  }

  // ----- what the program's own stores leave alone -----

  lemma TagsWritten(m: Arena, base: int, top: int, end: int, mem: Memory, w: int, v: int)
    requires Space(m, base, top, end) && Tags(m, base, top, mem.head, mem.foot) && OwnWord(m, w)
    ensures Tags(m, base, top, Written(mem, w, v).head, Written(mem, w, v).foot)
  {
    hide Space, TagsNext, TagsBack, OwnWord;
    var mem' := Written(mem, w, v);
    forall a | a in m ensures a != w - 8 { HeadNotOwn(m, base, top, end, a); }
    forall a | a in m && a != top
        ensures TagsNext(m, mem'.head, mem'.foot, a) { TagNextWritten(m, base, top, end, mem, w, v, a); }
    forall a | a in m ensures TagsBack(m, mem'.head, mem'.foot, a) { TagBackWritten(m, base, top, end, mem, w, v, a); }
  }

  lemma TagNextWritten(m: Arena, base: int, top: int, end: int, mem: Memory, w: int, v: int, a: int)
    requires Space(m, base, top, end) && OwnWord(m, w) && a in m && TagsNext(m, mem.head, mem.foot, a)
    ensures TagsNext(m, Written(mem, w, v).head, Written(mem, w, v).foot, a)
  {
    SizeAt(m, base, top, end, a);
    hide Space, OwnWord;
    HeadNotOwn(m, base, top, end, Next(m, a));
    if m[a].kind.Free? { NotOwn(m, base, top, end, a, Next(m, a)); }
  }

  lemma TagBackWritten(m: Arena, base: int, top: int, end: int, mem: Memory, w: int, v: int, a: int)
    requires Space(m, base, top, end) && OwnWord(m, w) && a in m && a in mem.head && TagsBack(m, mem.head, mem.foot, a)
    ensures a in Written(mem, w, v).head && TagsBack(m, Written(mem, w, v).head, Written(mem, w, v).foot, a)
  {
    HeadNotOwn(m, base, top, end, a);
    if a in mem.foot && Prev(mem.foot, a) in m {
      var q := Prev(mem.foot, a);
      SizeAt(m, base, top, end, q);
      hide Space, OwnWord;
      if m[q].kind.Free? && Next(m, q) == a { NotOwn(m, base, top, end, q, a); }
    }
  }

  /** Links of headers, and of chunks that are not the program's, are no words of its. */
  lemma LinkWritten(m: Arena, base: int, top: int, end: int, mem: Memory, w: int, v: int, x: int)
    requires Space(m, base, top, end) && OwnWord(m, w) && LinkSpot(m, x)
    ensures var mem' := Written(mem, w, v);
      && (x in mem.fd ==> x in mem'.fd && mem'.fd[x] == mem.fd[x]) &&
          (x in mem.bk ==> x in mem'.bk && mem'.bk[x] == mem.bk[x])
      && (x in mem.fdn ==> x in mem'.fdn && mem'.fdn[x] == mem.fdn[x]) &&
          (x in mem.bkn ==> x in mem'.bkn && mem'.bkn[x] == mem.bkn[x])
  {
    hide Space, OwnWord, LinkSpot;
    SpotWords(m, base, top, end, x);
  }

  lemma BinsWritten(m: Arena, base: int, top: int, end: int, mem: Memory, w: int, v: int, bins: Bins, firsts: Bins)
    requires Space(m, base, top, end) && OwnWord(m, w) && Binned(m, bins) && LinkedBins(mem.fd, mem.bk, bins)
    requires SizeRings(m, mem.fdn, mem.bkn, bins, firsts)
    ensures var mem' := Written(mem, w, v);
        LinkedBins(mem'.fd, mem'.bk, bins) && SizeRings(m, mem'.fdn, mem'.bkn, bins, firsts)
  {
    hide Space, OwnWord, Binned, SizeRings, Written, Ring, LinkSpot;
    var mem' := Written(mem, w, v);
    forall x | InBin(m, x) ensures LinkSpot(m, x) { BinnedSpot(m, x); }
    forall x | LinkSpot(m, x)
      ensures (x in mem.fdn ==> x in mem'.fdn && mem'.fdn[x] == mem.fdn[x]) &&
          (x in mem.bkn ==> x in mem'.bkn && mem'.bkn[x] == mem.bkn[x])
    {
      LinkWritten(m, base, top, end, mem, w, v, x);
    }
    BinsFrame(m, m, mem.fdn, mem.bkn, mem'.fdn, mem'.bkn, bins, firsts);
    forall i | 1 <= i < NBINS
        ensures Ring(mem'.fd, mem'.bk, [i] + bins[i]) { RingWritten(m, base, top, end, mem, w, v, bins, i); }
  }

  lemma BinnedSpot(m: Arena, x: int)
    requires InBin(m, x)
    ensures LinkSpot(m, x)
  {
  }

  lemma RingWritten(m: Arena, base: int, top: int, end: int, mem: Memory, w: int, v: int, bins: Bins, i: nat)
    requires Space(m, base, top, end) && OwnWord(m, w) && Binned(m, bins) && 1 <= i < NBINS &&
        Ring(mem.fd, mem.bk, [i] + bins[i])
    ensures Ring(Written(mem, w, v).fd, Written(mem, w, v).bk, [i] + bins[i])
  {
    InBinList(m, bins, i);
    hide Space, OwnWord, Binned, Written, Ring, LinkSpot;
    var mem' := Written(mem, w, v);
    forall x | x in [i] + bins[i]
      ensures (x in mem.fd ==> x in mem'.fd && mem'.fd[x] == mem.fd[x]) &&
          (x in mem.bk ==> x in mem'.bk && mem'.bk[x] == mem.bk[x])
    {
      ListedSpot(m, bins[i], i, x);
      LinkWritten(m, base, top, end, mem, w, v, x);
    }
    RingFrame(mem.fd, mem.bk, mem'.fd, mem'.bk, [i] + bins[i]);
  }

  lemma ListedSpot(m: Arena, l: seq<int>, i: nat, x: int)
    requires i < NBINS && x in [i] + l && forall y | y in l :: y in m && m[y].kind == Free(i)
    ensures LinkSpot(m, x)
  {
    if x != i { assert x in l; }
  }

  lemma FastWritten(m: Arena, base: int, top: int, end: int, mem: Memory, w: int, v: int, fast: seq<int>, fasts: Bins)
    requires Space(m, base, top, end) && OwnWord(m, w) && FastLists(m, mem.fd, fast, fasts)
    ensures FastLists(m, Written(mem, w, v).fd, fast, fasts)
  {
    hide Space, OwnWord, FastLists, Written, LinkSpot;
    var mem' := Written(mem, w, v);
    forall x | x in m && m[x].kind.Fast? && x in mem.fd ensures x in mem'.fd && mem'.fd[x] == mem.fd[x] {
      FastSpot(m, x);
      LinkWritten(m, base, top, end, mem, w, v, x);
    }
    FastFrame(m, m, mem.fd, mem'.fd, fast, fasts);
  }

  lemma FastSpot(m: Arena, x: int)
    requires x in m && m[x].kind.Fast?
    ensures LinkSpot(m, x)
  {
  }

  /** A store at an aligned word keeps the other words that are stored. */
  lemma KeepsWritten(m: Arena, mem: Memory, stored: Stores, w: int, v: int)
    requires Keeps(m, mem, stored) && OwnWord(m, w) && w % 8 == 0
    ensures Keeps(m, Written(mem, w, v), stored[w := v])
  {
    hide OwnWord;
    forall x | x in stored[w := v]
        ensures OwnWord(m, x) && Reads(Written(mem, w, v), x, stored[w := v][x]) && x % 8 == 0 {
      if x != w { assert x in stored; }
    }
  }

  // ----- what writes leave alone -----

  /** Link words of headers and of chunks that are not the program's. */
  lemma LinksKept(m: Arena, base: int, top: int, end: int, mem: Memory, stored: Stores, x: int, v: int)
    requires Space(m, base, top, end) && Keeps(m, mem, stored) && LinkSpot(m, x)
    ensures Keeps(m, mem.(fd := mem.fd[x := v]), stored) && Keeps(m, mem.(bk := mem.bk[x := v]), stored)
    ensures Keeps(m, mem.(fdn := mem.fdn[x := v]), stored) && Keeps(m, mem.(bkn := mem.bkn[x := v]), stored)
  {
    hide Space, OwnWord;
    SpotWords(m, base, top, end, x);
    forall w | w in stored ensures w != x + 16 && w != x + 24 && w != x + 32 && w != x + 40 {
      assert OwnWord(m, w);
    }
  }

  /** Linking chunk p between two such places. */
  lemma JoinKept(m: Arena, base: int, top: int, end: int, mem: Memory, stored: Stores, p: int, bck: int, fwd: int)
    requires Space(m, base, top, end) && Keeps(m, mem, stored) && LinkSpot(m, p) && LinkSpot(m, bck) && LinkSpot(m, fwd)
    ensures Keeps(m, mem.(fd := mem.fd[p := fwd][bck := p], bk := mem.bk[p := bck][fwd := p]), stored)
  {
    hide Space, Keeps, LinkSpot;
    LinksKept(m, base, top, end, mem, stored, p, fwd);
    var m1 := mem.(fd := mem.fd[p := fwd]);
    LinksKept(m, base, top, end, m1, stored, bck, p);
    var m2 := m1.(fd := m1.fd[bck := p]);
    LinksKept(m, base, top, end, m2, stored, p, bck);
    var m3 := m2.(bk := m2.bk[p := bck]);
    LinksKept(m, base, top, end, m3, stored, fwd, p);
  }

  /** Link words within such a chunk. */
  lemma LinksKeptInside(m: Arena, base: int, top: int, end: int, mem: Memory, stored: Stores, c: int, x: int, v: int)
    requires Space(m, base, top, end) && Keeps(m, mem, stored) && c in m && m[c].kind != Used && c <= x &&
        x + MINSIZE <= c + m[c].size
    ensures Keeps(m, mem.(fd := mem.fd[x := v]), stored) && Keeps(m, mem.(bk := mem.bk[x := v]), stored)
    ensures Keeps(m, mem.(fdn := mem.fdn[x := v]), stored) && Keeps(m, mem.(bkn := mem.bkn[x := v]), stored)
  {
    hide Space, OwnWord;
    NotOwn(m, base, top, end, c, x + 16);
    NotOwn(m, base, top, end, c, x + 24);
    NotOwn(m, base, top, end, c, x + 32);
    NotOwn(m, base, top, end, c, x + 40);
    forall w | w in stored ensures w != x + 16 && w != x + 24 && w != x + 32 && w != x + 40 {
      assert OwnWord(m, w);
    }
  }

  /** The size word of, within, or right behind a chunk that is not the program's. */
  lemma HeadKept(m: Arena, base: int, top: int, end: int, mem: Memory, stored: Stores, c: int, x: int, h: Head)
    requires Space(m, base, top, end) && Keeps(m, mem, stored) && c in m && m[c].kind != Used &&
        (x == c || x == Next(m, c) || c <= x <= Next(m, c))
    ensures Keeps(m, mem.(head := mem.head[x := h]), stored)
  {
    SizeAt(m, base, top, end, c);
    hide Space, OwnWord;
    NotOwn(m, base, top, end, c, x + 8);
    forall w | w in stored ensures w != x + 8 { assert OwnWord(m, w); }
  }

  /** The foot of such a chunk. */
  lemma FootKept(m: Arena, base: int, top: int, end: int, mem: Memory, stored: Stores, c: int, v: int)
    requires Space(m, base, top, end) && Keeps(m, mem, stored) && c in m && m[c].kind != Used
    ensures Keeps(m, mem.(foot := mem.foot[c + m[c].size := v]), stored)
  {
    SizeAt(m, base, top, end, c);
    hide Space, OwnWord;
    NotOwn(m, base, top, end, c, c + m[c].size);
    forall w | w in stored ensures w != c + m[c].size { assert OwnWord(m, w); }
  }

  /** The tags of a chunk cut in two, before it is the program's. */
  lemma CutTagsKept(m: Arena, base: int, top: int, end: int, mem: Memory, stored: Stores, p: int, nb: int)
    requires Space(m, base, top, end) && Keeps(m, mem, stored) && p in m && m[p].kind != Used && 0 <= nb <= m[p].size
    ensures var size := m[p].size;
            Keeps(m, mem.(head := mem.head[p := Head(nb, true)][p + nb := Head(size - nb, true)], foot :=
                mem.foot[p + size := size - nb]), stored)
  {
    hide Space, Keeps;
    HeadKept(m, base, top, end, mem, stored, p, p, Head(nb, true));
    var m1 := mem.(head := mem.head[p := Head(nb, true)]);
    HeadKept(m, base, top, end, m1, stored, p, p + nb, Head(m[p].size - nb, true));
    var m2 := m1.(head := m1.head[p + nb := Head(m[p].size - nb, true)]);
    FootKept(m, base, top, end, m2, stored, p, m[p].size - nb);
  }

  /** A chunk that leaves its ring whole: its neighbours' links, and the flag behind it. */
  lemma LeftKept(m: Arena, base: int, top: int, end: int, mem: Memory, stored: Stores, p: int, h: Head, fwd: int,
        bck: int)
    requires Space(m, base, top, end) && Keeps(m, mem, stored) && p in m && m[p].kind != Used && LinkSpot(m, fwd) &&
        LinkSpot(m, bck)
    ensures Keeps(m, mem.(head := mem.head[Next(m, p) := h], bk := mem.bk[fwd := bck], fd := mem.fd[bck := fwd]),
        stored)
  {
    hide Space, Keeps, LinkSpot;
    HeadKept(m, base, top, end, mem, stored, p, Next(m, p), h);
    var m1 := mem.(head := mem.head[Next(m, p) := h]);
    LinksKept(m, base, top, end, m1, stored, fwd, bck);
    LinksKept(m, base, top, end, m1.(bk := m1.bk[fwd := bck]), stored, bck, fwd);
  }

  /** Size links that only change at chunks that are not the program's. */
  lemma SizeLinksKept(m: Arena, base: int, top: int, end: int, mem: Memory, mem': Memory, stored: Stores, l: seq<int>,
        p: int)
    requires Space(m, base, top, end) && Keeps(m, mem, stored) && mem' == mem.(fdn := mem'.fdn, bkn := mem'.bkn)
    requires SameOutside(mem, mem', l, p) && LinkSpot(m, p) && forall x | x in l :: LinkSpot(m, x)
    ensures Keeps(m, mem', stored)
  {
    hide Space, OwnWord, LinkSpot;
    forall w | w in stored ensures Reads(mem', w, stored[w]) {
      assert OwnWord(m, w) && Reads(mem, w, stored[w]);
      SizeLinkKept(m, base, top, end, mem, mem', l, p, w, stored[w]);
    }
  }

  lemma SizeLinkKept(m: Arena, base: int, top: int, end: int, mem: Memory, mem': Memory, l: seq<int>, p: int, w: int,
        v: int)
    requires Space(m, base, top, end) && OwnWord(m, w) && Reads(mem, w, v) &&
        mem' == mem.(fdn := mem'.fdn, bkn := mem'.bkn)
    requires SameOutside(mem, mem', l, p) && LinkSpot(m, p) && forall x | x in l :: LinkSpot(m, x)
    ensures Reads(mem', w, v)
  {
    hide Space, OwnWord, LinkSpot;
    var x, y := w - 32, w - 40;
    if x == p || x in l { SpotWords(m, base, top, end, x); }
    if y == p || y in l { SpotWords(m, base, top, end, y); }
  }

  /** Size links outside a list and a chunk are as they were. */
  ghost predicate SameOutside(mem: Memory, mem': Memory, l: seq<int>, p: int) {
    && (forall x | x in mem.fdn && x != p && x !in l :: x in mem'.fdn && mem'.fdn[x] == mem.fdn[x])
    && (forall x | x in mem.bkn && x != p && x !in l :: x in mem'.bkn && mem'.bkn[x] == mem.bkn[x])
  }

  // ----- what changes of the arena leave alone -----

  lemma KeepsWithin(m: Arena, m': Arena, mem: Memory, stored: Stores)
    requires Keeps(m, mem, stored) && forall c | c in Live(m) :: c in Live(m') && Live(m')[c] == Live(m)[c]
    ensures Keeps(m', mem, stored)
  {
    hide Reads;
    forall w | w in stored ensures OwnWord(m', w) {
      var c :| WordOf(m, c, w);
      assert c in Live(m) && c in Live(m') && Live(m')[c] == Live(m)[c];
      assert WordOf(m', c, w);
    }
  }

  /** The program holds one more chunk. */
  lemma KeepsMore(m: Arena, m': Arena, mem: Memory, stored: Stores, p: int, size: int)
    requires Keeps(m, mem, stored) && p !in Live(m) && Live(m') == Live(m)[p := size]
    ensures Keeps(m', mem, stored)
  {
    hide Keeps, Live;
    KeepsWithin(m, m', mem, stored);
  }

  lemma KeepsKept(m: Arena, m': Arena, mem: Memory, stored: Stores)
    requires Keeps(m, mem, stored) && Kept(m') == Kept(m)
    ensures Keeps(m', mem, stored)
  {
    KeptLive(m, m', {});
    hide Keeps, Live, Kept;
    assert Live(m) - {} == Live(m);
    KeepsWithin(m, m', mem, stored);
  }

  lemma KeepsLive(m: Arena, m': Arena, mem: Memory, stored: Stores)
    requires Keeps(m, mem, stored) && Live(m') == Live(m)
    ensures Keeps(m', mem, stored)
  {
    hide Keeps, Live;
    KeepsWithin(m, m', mem, stored);
  }

  /** Chunks that the program does not hold become one. */
  lemma KeepsMerged(m: Arena, base: int, top: int, end: int, mem: Memory, stored: Stores, lo: int, p: int, n: int,
        hi: int, k: Kind)
    requires Keeps(m, mem, stored) && Space(m, base, top, end) && lo in m && p in m && p != top && n == Next(m, p)
    requires lo == p || (Next(m, lo) == p && m[lo].kind != Used)
    requires hi == n || (n in m && Next(m, n) == hi && m[n].kind != Used)
    requires m[p].kind != Used && k != Used
    ensures Keeps(Merged(m, lo, hi, k), mem, stored)
  {
    hide Space, Keeps, Live, Merged;
    RunOfChunks(m, base, top, end, lo, p, n, hi);
    LiveOutside(m, lo, p, n, hi, k);
    KeepsWithin(m, Merged(m, lo, hi, k), mem, stored);
  }

  lemma LiveOutside(m: Arena, lo: int, p: int, n: int, hi: int, k: Kind)
    requires lo in m && m[lo].kind != Used && (p in m ==> m[p].kind != Used) &&
        (n in m && n < hi ==> m[n].kind != Used) && k != Used
    requires forall a | a in m && lo <= a < hi :: a == lo || a == p || a == n
    ensures forall c | c in Live(m) :: c in Live(Merged(m, lo, hi, k)) && Live(Merged(m, lo, hi, k))[c] == Live(m)[c]
  {
  }

  // ----- what the program gives up -----

  /** No word is stored in so many bytes from chunk p on. */
  ghost predicate NothingIn(stored: Stores, p: int, size: int) {
    forall w | w in stored :: !(p + CHUNK_HDR_SZ <= w < p + size + SIZE_SZ)
  }

  /** The words that remain when chunk p is given up. */
  ghost function Forgotten(stored: Stores, p: int, size: int): Stores {
    map w | w in stored && !(p + CHUNK_HDR_SZ <= w < p + size + SIZE_SZ) :: stored[w]
  }

  lemma ForgetNothing(stored: Stores, p: int, size: int)
    requires NothingIn(stored, p, size)
    ensures Forgotten(stored, p, size) == stored
  {
  }

  lemma NothingInParts(stored: Stores, p: int, nb: int, size: int)
    requires NothingIn(stored, p, size) && 0 <= nb <= size
    ensures NothingIn(stored, p, nb) && NothingIn(stored, p + nb, size - nb)
  {
  }

  lemma KeepsLess(m: Arena, m': Arena, mem: Memory, stored: Stores, p: int)
    requires Keeps(m, mem, stored) && p in Live(m) && Live(m') == Live(m) - {p}
    ensures Keeps(m', mem, Forgotten(stored, p, Live(m)[p]))
  {
    hide Reads;
    forall w | w in Forgotten(stored, p, Live(m)[p]) ensures OwnWord(m', w) {
      var c :| WordOf(m, c, w);
      assert c != p && c in Live(m) && c in Live(m') && Live(m')[c] == Live(m)[c];
      assert WordOf(m', c, w);
    }
  }

  /** In a chunk that the program did not hold before nothing is stored. */
  lemma NothingYet(m: Arena, m': Arena, base: int, top: int, end: int, mem: Memory, stored: Stores, p: int)
    requires Keeps(m, mem, stored) && Space(m', base, top, end) && p !in Live(m) && p in Live(m')
    requires forall c | c in Live(m) :: c in Live(m') && Live(m')[c] == Live(m)[c]
    ensures NothingIn(stored, p, Live(m')[p])
  {
    hide Reads;
    forall w | w in stored ensures !(p + CHUNK_HDR_SZ <= w < p + Live(m')[p] + SIZE_SZ) {
      var c :| WordOf(m, c, w);
      assert c in Live(m) && c in Live(m') && c != p;
    }
  }

  lemma LiveIs(m: Arena, p: int)
    requires p in m && m[p].kind == Used
    ensures p in Live(m) && Live(m)[p] == m[p].size
  {
  }

  lemma HeldSpace(m: Arena, base: int, top: int, end: int, p: int)
    requires Space(m, base, top, end) && p in m && m[p].kind == Used
    ensures Space(m[p := Chunk(m[p].size, Held)], base, top, end)
  {
    hide Space;
    RekindedSpace(m, m[p := Chunk(m[p].size, Held)], base, top, end);
  }

  /** A chunk in which nothing is stored may be cut in two. */
  lemma KeepsCut(m: Arena, base: int, top: int, end: int, mem: Memory, stored: Stores, p: int, nb: int, h: Head,
        r: Head)
    requires Space(m, base, top, end) && Keeps(m, mem, stored) && p in m && m[p].kind == Used &&
        NothingIn(stored, p, m[p].size)
    requires 0 <= nb <= m[p].size
    ensures Keeps(m[p := Chunk(m[p].size, Held)], mem.(head := mem.head[p + nb := r][p := h]), stored)
  {
    hide Space, Keeps, Live, NothingIn, Forgotten, Kept, NoLoose;
    var m1 := m[p := Chunk(m[p].size, Held)];
    LiveIs(m, p);
    HeldLive(m, p);
    KeepsLess(m, m1, mem, stored, p);
    ForgetNothing(stored, p, m[p].size);
    HeldSpace(m, base, top, end, p);
    HeadKept(m1, base, top, end, mem, stored, p, p + nb, r);
    HeadKept(m1, base, top, end, mem.(head := mem.head[p + nb := r]), stored, p, p, h);
  }

  lemma KeepsCutOff(m: Arena, mem: Memory, stored: Stores, p: int, nb: int)
    requires p in m && m[p].kind == Used && p + nb !in m && Keeps(m[p := Chunk(m[p].size, Held)], mem, stored)
    ensures Keeps(Split(m, p, nb, Used, Used), mem, stored)
  {
    hide Keeps;
    KeepsWithin(m[p := Chunk(m[p].size, Held)], Split(m, p, nb, Used, Used), mem, stored);
  }

  /** Chunk p leaves the program, and waits to be merged. */
  lemma HeldLive(m: Arena, p: int)
    requires p in m && m[p].kind == Used
    ensures var m' := m[p := Chunk(m[p].size, Held)];
            Live(m') == Live(m) - {p} && Kept(m') - {p} == Kept(m) - {p} && (NoLoose(m) ==> NoLoose(m'))
  {
  }

  // ----- the words that the allocator relies on -----

  /** The roles that a word behind a chunk's address can have. */
  datatype Role = FootWord | HeadWord | FdWord | BkWord | FdnWord | BknWord

  function AddressOf(r: Role, x: int): int {
    match r
    case FootWord => x
    case HeadWord => x + 8
    case FdWord => x + 16
    case BkWord => x + 24
    case FdnWord => x + 32
    case BknWord => x + 40
  }

  /** The allocator will read the word at address x in this role: every size word, the foot
      of a free chunk, the links of a listed one, the size links of a large free one. */
  ghost predicate ReliedOn(m: Arena, r: Role, x: int) {
    match r
    case FootWord => exists a {:trigger Next(m, a)} :: a in m && m[a].kind.Free? && Next(m, a) == x
    case HeadWord => x in m
    case FdWord => x in m && (m[x].kind.Free? || m[x].kind.Fast? || m[x].kind.Held?)
    case BkWord => x in m && m[x].kind.Free?
    case FdnWord => x in m && m[x].kind.Free? && !InSmallbinRange(m[x].size)
    case BknWord => x in m && m[x].kind.Free? && !InSmallbinRange(m[x].size)
  }

  /** Word w lies from the size word of chunk c up to that of the next. */
  predicate BelongsTo(m: Arena, c: int, w: int) {
    c in m && c + SIZE_SZ <= w < c + m[c].size + SIZE_SZ
  }

  lemma ReliedBelongs(m: Arena, base: int, top: int, end: int, r: Role, x: int) returns (c: int)
    requires Space(m, base, top, end) && ReliedOn(m, r, x)
    ensures BelongsTo(m, c, AddressOf(r, x)) && c == (if r == FootWord then x - m[c].size else x)
  {
    c := x;
    if r == FootWord { c :| c in m && m[c].kind.Free? && Next(m, c) == x; }
  }

  lemma BelongsOnce(m: Arena, base: int, top: int, end: int, c: int, d: int, w: int)
    requires Space(m, base, top, end) && BelongsTo(m, c, w) && BelongsTo(m, d, w)
    ensures c == d && m[c].size >= MINSIZE
  {
  }

  /** No two of these words share an address: what the allocator keeps in one role it never
      reads in another. */
  lemma RolesApart(m: Arena, base: int, top: int, end: int, r: Role, x: int, s: Role, y: int)
    requires Space(m, base, top, end) && ReliedOn(m, r, x) && ReliedOn(m, s, y) && AddressOf(r, x) == AddressOf(s, y)
    ensures r == s && x == y
  {
    var c := ReliedBelongs(m, base, top, end, r, x);
    var d := ReliedBelongs(m, base, top, end, s, y);
    BelongsOnce(m, base, top, end, c, d, AddressOf(r, x));
  }

  /** A fastbin link as it is stored at address pos. */
  function Protected(pos: bv64, p: bv64): bv64 {
    (pos >> 12) ^ p
  }

  /** Reading it back with the same operation gives the link. */
  lemma ProtectedIsRevealed(pos: bv64, p: bv64)
    ensures Protected(pos, Protected(pos, p)) == p
  {
  }
}
