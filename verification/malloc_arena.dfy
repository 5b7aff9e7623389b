/**
  The chunk space of one contiguous arena: which chunk sits at which address,
  and the boundary tags that encode it in memory.

  heads holds the mchunk_size word of each chunk: its size and the PREV_INUSE
  flag packed in the lowest bit.  foots holds the mchunk_prev_size words; the one
  that describes a chunk lies at the address of the following chunk.
 */
module ArenaModel {
  import opened MallocSizes

  datatype Head = Head(size: int, prevInuse: bool) {
    /** The packed word: size | PREV_INUSE */
    function Word(): int { size + if prevInuse then 1 else 0 }
  }

  type Heads = map<int, Head>
  type Foots = map<int, int>

  /** Masking the three flag bits of a packed word gives back the size, its lowest
      bit the flag. */
  lemma HeadPacking(h: Head)
    requires h.size % 16 == 0
    ensures h.Word() - h.Word() % 8 == h.size && (h.Word() % 2 == 1 <==> h.prevInuse)
  {
    var q := h.size / 16;
    assert h.size == 16 * q;
    LowBits(2 * q, if h.prevInuse then 1 else 0);
    LowBit(8 * q, if h.prevInuse then 1 else 0);
  }

  lemma LowBits(q: int, b: int)
    requires 0 <= b < 8
    ensures (8 * q + b) % 8 == b
  {
  }

  lemma LowBit(q: int, b: int)
    requires 0 <= b < 2
    ensures (2 * q + b) % 2 == b
  {
  }

  /** Used chunks belong to the program; Fast chunks wait in a fastbin, Held ones have
      been detached from it for consolidation; Free(0) is a free chunk that has been
      taken off its bin, Free(1) is in the unsorted bin. */
  datatype Kind = Used | Fast(idx: nat) | Held | Free(bin: nat) | Top

  /** Kinds whose successor carries PREV_INUSE, and which end no free space. */
  predicate InUse(k: Kind) {
    k.Used? || k.Fast? || k.Held?
  }

  datatype Chunk = Chunk(size: int, kind: Kind)

  type Arena = map<int, Chunk>

  function Next(m: Arena, a: int): int
    requires a in m
  {
    a + m[a].size
  }

  function Prev(foot: Foots, a: int): int
    requires a in foot
  {
    a - foot[a]
  }

  /** The chunks lie end to end from base to end; the last one is top. */
  ghost predicate Space(m: Arena, base: int, top: int, end: int) {
    && base in m && top in m && base >= 4096 && Next(m, top) == end
    && (forall a | a in m :: base <= a <= top && m[a].size >= MINSIZE)
    && (forall a | a in m :: m[a].kind == Top <==> a == top)
    && (forall a {:trigger Next(m, a)} | a in m && a != top :: Next(m, a) in m)
    && (forall a, b | a in m && b in m && a < b :: a + m[a].size <= b)
  }

  ghost predicate Aligned(m: Arena) {
    forall a | a in m :: a % 16 == 0 && m[a].size % 16 == 0
  }

  /** The tags that chunk a puts on its successor: the in-use bit and, when free,
      the foot; and no free chunk touches another free chunk or top. */
  ghost predicate TagsNext(m: Arena, head: Heads, foot: Foots, a: int)
    requires a in m
  {
    var n := Next(m, a);
    && n in m && n in head
    && (head[n].prevInuse <==> !m[a].kind.Free?)
    && (m[a].kind.Free? ==> n in foot && foot[n] == m[a].size && InUse(m[n].kind))
  }

  /** A clear in-use bit leads back to the free chunk just before a. */
  ghost predicate TagsBack(m: Arena, head: Heads, foot: Foots, a: int)
    requires a in m && a in head
  {
    && head[a].size == m[a].size
    && (!head[a].prevInuse ==>
      a in foot && Prev(foot, a) in m && m[Prev(foot, a)].kind.Free? && Next(m, Prev(foot, a)) == a)
  }

  ghost predicate Tags(m: Arena, base: int, top: int, head: Heads, foot: Foots) {
    && (forall a | a in m :: a in head)
    && base in m && head[base].prevInuse
    && (forall a {:trigger TagsNext(m, head, foot, a)} | a in m && a != top :: TagsNext(m, head, foot, a))
    && (forall a {:trigger TagsBack(m, head, foot, a)} | a in m :: TagsBack(m, head, foot, a))
  }

  /** What the program holds: allocated chunks with their sizes. */
  ghost function Live(m: Arena): map<int, int> {
    map a | a in m && m[a].kind == Used :: m[a].size
  }

  /** All chunks in use, also those that only wait in a fastbin. */
  ghost function Kept(m: Arena): Arena {
    map a | a in m && InUse(m[a].kind) :: m[a]
  }

  lemma KeptLive(m: Arena, m': Arena, gone: set<int>)
    requires Kept(m') == Kept(m) - gone
    ensures Live(m') == Live(m) - gone
  {
    forall a
      ensures a in Live(m') <==> a in Live(m) && a !in gone
      ensures a in Live(m') ==> Live(m')[a] == Live(m)[a]
    {
      assert a in Kept(m') <==> a in Kept(m) && a !in gone;
      assert a in Kept(m') ==> Kept(m')[a] == Kept(m)[a];
    }
  }

  /** A chunk that joins those in use is one the program did not hold before. */
  lemma KeptLiveMore(m: Arena, m': Arena, p: int, size: int)
    requires Kept(m') == Kept(m)[p := Chunk(size, Used)] && p !in Live(m)
    ensures Live(m') == Live(m)[p := size]
    ensures NoHeld(m) ==> NoHeld(m')
  {
    forall a
      ensures a in Live(m') <==> a in Live(m) || a == p
      ensures a in Live(m') ==> Live(m')[a] == if a == p then size else Live(m)[a]
    {
      assert a in Kept(m') <==> a in Kept(m) || a == p;
      assert a in Kept(m') ==> Kept(m')[a] == if a == p then Chunk(size, Used) else Kept(m)[a];
    }
    forall x | x in m' && InUse(m'[x].kind) ensures x == p || (x in m && m[x] == m'[x]) {
      assert x in Kept(m');
    }
    assert p in Kept(m') && Kept(m')[p].kind == Used;
  }

  /** No free chunk is off its bin. */
  ghost predicate NoLoose(m: Arena) {
    forall x | x in m :: m[x].kind != Free(0)
  }

  /** At most chunk p is. */
  ghost predicate LooseOnly(m: Arena, p: int) {
    forall x | x in m && m[x].kind == Free(0) :: x == p
  }

  ghost predicate NoHeld(m: Arena) {
    forall x | x in m :: m[x].kind != Held
  }

  /** Every byte of the arena belongs to exactly one chunk. */
  lemma EveryByteInOneChunk(m: Arena, base: int, top: int, end: int, x: int)
    requires Space(m, base, top, end) && base <= x < end
    ensures exists a :: a in m && a <= x < Next(m, a)
    ensures forall a, b | a in m && b in m && a <= x < Next(m, a) && b <= x < Next(m, b) :: a == b
  {
    var a := FindChunk(m, base, top, end, x, base);
  }

  lemma {:induction false} FindChunk(m: Arena, base: int, top: int, end: int, x: int, from: int) returns (a: int)
    requires Space(m, base, top, end) && from in m && from <= x < end
    ensures a in m && a <= x < Next(m, a)
    decreases x - from
  {
    a := from;
    if x >= Next(m, from) {
      a := FindChunk(m, base, top, end, x, Next(m, from));
    }
  }

  /** Chunks strictly between lo and hi disappear into the one at lo. */
  ghost function Merged(m: Arena, lo: int, hi: int, k: Kind): Arena {
    map a | a in m && !(lo < a < hi) :: if a == lo then Chunk(hi - lo, k) else m[a]
  }

  lemma MergedSpace(m: Arena, base: int, top: int, end: int, lo: int, hi: int, k: Kind)
    requires Space(m, base, top, end) && lo in m && Next(m, lo) <= hi
    requires if k == Top then hi == end else hi in m
    ensures Space(Merged(m, lo, hi, k), base, if k == Top then lo else top, end)
  {
    var m' := Merged(m, lo, hi, k);
    var top' := if k == Top then lo else top;
    forall a | a in m' && a != top' ensures Next(m', a) in m' {
      MergedNext(m, base, top, end, lo, hi, k, a);
    }
    if k == Top && lo != top {
      assert top !in m';
    }
  }

  lemma MergedNext(m: Arena, base: int, top: int, end: int, lo: int, hi: int, k: Kind, a: int)
    requires Space(m, base, top, end) && lo in m && Next(m, lo) <= hi
    requires if k == Top then hi == end else hi in m
    requires a in m && !(lo < a < hi) && a != (if k == Top then lo else top)
    ensures Next(Merged(m, lo, hi, k), a) in Merged(m, lo, hi, k)
  {
    if a != lo {
      assert Next(m, a) in m;
    }
  }

  /** Turning lo..hi into one free chunk: header, foot and the successor's bit. */
  lemma MergedTags(m: Arena, base: int, top: int, end: int, head: Heads, foot: Foots, lo: int, hi: int, j: nat)
    requires Space(m, base, top, end) && Tags(m, base, top, head, foot)
    requires lo in m && hi in m && Next(m, lo) <= hi
    requires head[lo].prevInuse && InUse(m[hi].kind)
    ensures Tags(Merged(m, lo, hi, Free(j)), base, top,
                 head[lo := Head(hi - lo, true)][hi := head[hi].(prevInuse := false)], foot[hi := hi - lo])
  {
    hide Space, TagsNext, TagsBack;
    var m', head', foot' := Merged(m, lo, hi, Free(j)),
        head[lo := Head(hi - lo, true)][hi := head[hi].(prevInuse := false)], foot[hi := hi - lo];
    BaseFirst(m, base, top, end, lo);
    Apart(m, base, top, end, lo, hi);
    forall a | a in m' && a != top ensures TagsNext(m', head', foot', a) {
      MergedTagsNext(m, base, top, end, head, foot, lo, hi, j, a);
    }
    forall a | a in m' ensures TagsBack(m', head', foot', a) {
      MergedBack(m, base, top, end, head, foot, lo, hi, j, a);
    }
  }

  lemma BaseFirst(m: Arena, base: int, top: int, end: int, a: int)
    requires Space(m, base, top, end) && a in m
    ensures base in m && top in m && base <= a <= top && Next(m, a) > a
  {
  }

  /** A chunk before another ends before it or where it begins. */
  lemma Apart(m: Arena, base: int, top: int, end: int, a: int, b: int)
    requires Space(m, base, top, end) && a in m && b in m
    ensures a < b ==> a < Next(m, a) <= b
    ensures a < Next(m, a)
  {
  }

  lemma MergedBack(m: Arena, base: int, top: int, end: int, head: Heads, foot: Foots, lo: int, hi: int, j: nat, a: int)
    requires Space(m, base, top, end) && Tags(m, base, top, head, foot)
    requires lo in m && hi in m && Next(m, lo) <= hi
    requires head[lo].prevInuse && InUse(m[hi].kind)
    requires a in m && !(lo < a < hi)
    ensures TagsBack(Merged(m, lo, hi, Free(j)),
                     head[lo := Head(hi - lo, true)][hi := head[hi].(prevInuse := false)], foot[hi := hi - lo], a)
  {
    assert TagsBack(m, head, foot, a);
    hide Space, Tags;
    Apart(m, base, top, end, lo, hi);
    if a in foot && Prev(foot, a) in m {
      var q := Prev(foot, a);
      Apart(m, base, top, end, lo, q);
      Apart(m, base, top, end, q, hi);
      Apart(m, base, top, end, a, lo);
      Apart(m, base, top, end, q, lo);
    }
  }

  lemma MergedTagsNext(m: Arena, base: int, top: int, end: int, head: Heads, foot: Foots, lo: int, hi: int, j: nat,
        a: int)
    requires Space(m, base, top, end) && Tags(m, base, top, head, foot)
    requires lo in m && hi in m && Next(m, lo) <= hi
    requires head[lo].prevInuse && InUse(m[hi].kind)
    requires a in m && !(lo < a < hi) && a != top
    ensures TagsNext(Merged(m, lo, hi, Free(j)),
                     head[lo := Head(hi - lo, true)][hi := head[hi].(prevInuse := false)], foot[hi := hi - lo], a)
  {
    assert TagsNext(m, head, foot, a);
    if a != lo { MergedNext(m, base, top, end, lo, hi, Free(j), a); }
  }

  /** A chunk that swallows everything up to the end becomes top. */
  lemma MergedTopTags(m: Arena, base: int, top: int, end: int, head: Heads, foot: Foots, lo: int)
    requires Space(m, base, top, end) && Tags(m, base, top, head, foot)
    requires lo in m && head[lo].prevInuse
    ensures Tags(Merged(m, lo, end, Top), base, lo, head[lo := Head(end - lo, true)], foot)
  {
    var m', head' := Merged(m, lo, end, Top), head[lo := Head(end - lo, true)];
    assert Next(m, top) == end;
    forall a | a in m'
        ensures a in head' && TagsBack(m', head', foot, a) && (a != lo ==> TagsNext(m', head', foot, a)) {
      MergedTopTag(m, base, top, end, head, foot, lo, a);
    }
  }

  lemma MergedTopTag(m: Arena, base: int, top: int, end: int, head: Heads, foot: Foots, lo: int, a: int)
    requires Space(m, base, top, end) && Tags(m, base, top, head, foot)
    requires lo in m && head[lo].prevInuse && a in m && a <= lo
    ensures var m', head' := Merged(m, lo, end, Top), head[lo := Head(end - lo, true)];
            a in m' && a in head' && TagsBack(m', head', foot, a) && (a != lo ==> TagsNext(m', head', foot, a))
  {
    assert TagsBack(m, head, foot, a);
    if a != lo { 
      assert TagsNext(m, head, foot, a);
      assert Next(m, a) in m && Next(m, a) <= lo;
    }
  }

  /** Chunk a cut in two at a + nb. */
  ghost function Split(m: Arena, a: int, nb: int, k: Kind, rest: Kind): Arena
    requires a in m
  {
    m[a := Chunk(nb, k)][a + nb := Chunk(m[a].size - nb, rest)]
  }

  lemma SplitSpace(m: Arena, base: int, top: int, end: int, a: int, nb: int, k: Kind, rest: Kind)
    requires Space(m, base, top, end) && a in m
    requires MINSIZE <= nb <= m[a].size - MINSIZE
    requires k != Top && (rest == Top <==> a == top)
    ensures a + nb !in m
    ensures Space(Split(m, a, nb, k, rest), base, if a == top then a + nb else top, end)
  {
    hide Space, Split;
    var m' := Split(m, a, nb, k, rest);
    var top' := if a == top then a + nb else top;
    SplitEdges(m, base, top, end, a, nb, k, rest);
    forall c | c in m' && c != top' ensures Next(m', c) in m' { SplitNext(m, base, top, end, a, nb, k, rest, c); }
    SplitOrdered(m, base, top, end, a, nb, k, rest);
    SpaceFrom(m', base, top', end);
  }

  lemma SpaceFrom(m: Arena, base: int, top: int, end: int)
    requires base in m && top in m && base >= 4096 && Next(m, top) == end
    requires forall a | a in m :: base <= a <= top && m[a].size >= MINSIZE
    requires forall a | a in m :: m[a].kind == Top <==> a == top
    requires forall a {:trigger Next(m, a)} | a in m && a != top :: Next(m, a) in m
    requires forall a, b | a in m && b in m && a < b :: a + m[a].size <= b
    ensures Space(m, base, top, end)
  {
  }

  lemma SplitEdges(m: Arena, base: int, top: int, end: int, a: int, nb: int, k: Kind, rest: Kind)
    requires Space(m, base, top, end) && a in m && MINSIZE <= nb <= m[a].size - MINSIZE
    requires k != Top && (rest == Top <==> a == top)
    ensures a + nb !in m
    ensures var m', top' := Split(m, a, nb, k, rest), if a == top then a + nb else top;
            && base in m' && top' in m' && base >= 4096 && Next(m', top') == end
            && (forall c | c in m' :: base <= c <= top' && m'[c].size >= MINSIZE)
            && (forall c | c in m' :: m'[c].kind == Top <==> c == top')
  {
  }

  lemma SplitNext(m: Arena, base: int, top: int, end: int, a: int, nb: int, k: Kind, rest: Kind, c: int)
    requires Space(m, base, top, end) && a in m && MINSIZE <= nb <= m[a].size - MINSIZE
    requires c in Split(m, a, nb, k, rest) && c != if a == top then a + nb else top
    ensures Next(Split(m, a, nb, k, rest), c) in Split(m, a, nb, k, rest)
  {
    if c == a + nb { assert Next(m, a) in m; }
    else if c != a { assert Next(m, c) in m; }
  }

  lemma SplitOrdered(m: Arena, base: int, top: int, end: int, a: int, nb: int, k: Kind, rest: Kind)
    requires Space(m, base, top, end) && a in m && MINSIZE <= nb <= m[a].size - MINSIZE
    ensures var m' := Split(m, a, nb, k, rest); forall c, d | c in m' && d in m' && c < d :: c + m'[c].size <= d
  {
  }

  /** Cutting a chunk whose front part is in use keeps every tag in step; only the
      new header, and the foot of a free rest, are written. */
  lemma SplitTags(m: Arena, base: int, top: int, end: int, head: Heads, foot: Foots, a: int, nb: int, k: Kind,
        rest: Kind)
    requires Space(m, base, top, end) && Tags(m, base, top, head, foot)
    requires a in m && MINSIZE <= nb <= m[a].size - MINSIZE
    requires InUse(k) && (rest == Top <==> a == top) && (rest.Free? <==> m[a].kind.Free?)
    ensures Tags(Split(m, a, nb, k, rest), base, if a == top then a + nb else top,
                 head[a := head[a].(size := nb)][a + nb := Head(m[a].size - nb, true)],
                 if rest.Free? then foot[Next(m, a) := m[a].size - nb] else foot)
  {
    var m' := Split(m, a, nb, k, rest);
    var head' := head[a := head[a].(size := nb)][a + nb := Head(m[a].size - nb, true)];
    var foot' := if rest.Free? then foot[Next(m, a) := m[a].size - nb] else foot;
    forall c | c in m' && c != (if a == top then a + nb else top) ensures TagsNext(m', head', foot', c) {
      SplitTagsNext(m, base, top, end, head, foot, a, nb, k, rest, c);
    }
    forall c | c in m' ensures TagsBack(m', head', foot', c) {
      SplitTagsBack(m, base, top, end, head, foot, a, nb, k, rest, c);
    }
  }

  lemma SplitTagsNext(m: Arena, base: int, top: int, end: int, head: Heads, foot: Foots, a: int, nb: int, k: Kind,
        rest: Kind, c: int)
    requires Space(m, base, top, end) && Tags(m, base, top, head, foot)
    requires a in m && MINSIZE <= nb <= m[a].size - MINSIZE
    requires InUse(k) && (rest == Top <==> a == top) && (rest.Free? <==> m[a].kind.Free?)
    requires (c in m || c == a + nb) && c != (if a == top then a + nb else top)
    ensures TagsNext(Split(m, a, nb, k, rest),
                     head[a := head[a].(size := nb)][a + nb := Head(m[a].size - nb, true)],
                     if rest.Free? then foot[Next(m, a) := m[a].size - nb] else foot, c)
  {
    hide Space;
    SplitFresh(m, base, top, end, a, nb);
    if c == a + nb {
      assert TagsNext(m, head, foot, a);
    } else if c != a {
      assert TagsNext(m, head, foot, c);
      Apart(m, base, top, end, c, a);
      Apart(m, base, top, end, a, c);
      hide Tags;
      SplitTagsElse(m, head, foot, a, nb, k, rest, c);
    }
  }

  lemma SplitTagsElse(m: Arena, head: Heads, foot: Foots, a: int, nb: int, k: Kind, rest: Kind, c: int)
    requires a in m && a in head && c in m && c != a && a + nb !in m && InUse(k) && Next(m, c) != Next(m, a) &&
        TagsNext(m, head, foot, c)
    ensures TagsNext(Split(m, a, nb, k, rest),
                     head[a := head[a].(size := nb)][a + nb := Head(m[a].size - nb, true)],
                     if rest.Free? then foot[Next(m, a) := m[a].size - nb] else foot, c)
  {
  }

  lemma SplitTagsBack(m: Arena, base: int, top: int, end: int, head: Heads, foot: Foots, a: int, nb: int, k: Kind,
        rest: Kind, c: int)
    requires Space(m, base, top, end) && Tags(m, base, top, head, foot)
    requires a in m && MINSIZE <= nb <= m[a].size - MINSIZE
    requires InUse(k) && (rest == Top <==> a == top) && (rest.Free? <==> m[a].kind.Free?)
    requires c in m || c == a + nb
    ensures TagsBack(Split(m, a, nb, k, rest),
                     head[a := head[a].(size := nb)][a + nb := Head(m[a].size - nb, true)],
                     if rest.Free? then foot[Next(m, a) := m[a].size - nb] else foot, c)
  {
    if c != a + nb {
      assert TagsBack(m, head, foot, c);
    }
  }

  /** Handing out a whole free chunk sets the in-use bit of its successor. */
  lemma AllocatedTags(m: Arena, base: int, top: int, end: int, head: Heads, foot: Foots, a: int)
    requires Space(m, base, top, end) && Tags(m, base, top, head, foot)
    requires a in m && m[a].kind.Free?
    ensures Next(m, a) in head
    ensures Space(m[a := Chunk(m[a].size, Used)], base, top, end)
    ensures Tags(m[a := Chunk(m[a].size, Used)], base, top,
                 head[Next(m, a) := head[Next(m, a)].(prevInuse := true)], foot)
  {
    assert TagsNext(m, head, foot, a);
    var m', head' := m[a := Chunk(m[a].size, Used)], head[Next(m, a) := head[Next(m, a)].(prevInuse := true)];
    hide Space, TagsNext, TagsBack;
    AllocatedSpace(m, base, top, end, a);
    forall c | c in m' && c != top
        ensures TagsNext(m', head', foot, c) { AllocatedNext(m, base, top, end, head, foot, a, c); }
    forall c | c in m' ensures TagsBack(m', head', foot, c) { AllocatedBack(m, head, foot, a, c); }
  }

  lemma AllocatedSpace(m: Arena, base: int, top: int, end: int, a: int)
    requires Space(m, base, top, end) && a in m && m[a].kind.Free?
    ensures Space(m[a := Chunk(m[a].size, Used)], base, top, end)
  {
    var m' := m[a := Chunk(m[a].size, Used)];
    forall c | c in m' && c != top ensures Next(m', c) in m' { assert Next(m, c) in m; }
  }

  lemma AllocatedNext(m: Arena, base: int, top: int, end: int, head: Heads, foot: Foots, a: int, c: int)
    requires Space(m, base, top, end) && a in m && m[a].kind.Free? && c in m && c != top &&
        TagsNext(m, head, foot, c) && TagsNext(m, head, foot, a)
    ensures TagsNext(m[a := Chunk(m[a].size, Used)], head[Next(m, a) := head[Next(m, a)].(prevInuse := true)], foot, c)
  {
    assert c != a ==> Next(m, c) != Next(m, a);
  }

  lemma AllocatedBack(m: Arena, head: Heads, foot: Foots, a: int, c: int)
    requires a in m && TagsNext(m, head, foot, a) && c in m && c in head && TagsBack(m, head, foot, c)
    ensures TagsBack(m[a := Chunk(m[a].size, Used)], head[Next(m, a) := head[Next(m, a)].(prevInuse := true)], foot, c)
  {
  }

  /** Same chunks, with other kinds, but none that a tag would tell apart. */
  ghost predicate Rekinded(m: Arena, m': Arena) {
    && m'.Keys == m.Keys
    && (forall a | a in m ::
        m'[a].size == m[a].size && (m'[a].kind.Free? <==> m[a].kind.Free?) && (InUse(m'[a].kind) <==> InUse(m[a].kind)))
  }

  /** Moves between bins, fastbins and the program touch no tag. */
  lemma RekindedTags(m: Arena, m': Arena, base: int, top: int, end: int, head: Heads, foot: Foots)
    requires Space(m, base, top, end) && Tags(m, base, top, head, foot) && Rekinded(m, m')
    ensures Space(m', base, top, end) && Tags(m', base, top, head, foot) && (Aligned(m) ==> Aligned(m'))
  {
    hide Space, TagsNext, TagsBack;
    RekindedSpace(m, m', base, top, end);
    forall c | c in m' && c != top ensures TagsNext(m', head, foot, c) { RekindedTag(m, m', head, foot, c); }
    forall c | c in m' ensures TagsBack(m', head, foot, c) { RekindedTag(m, m', head, foot, c); }
  }

  lemma RekindedSpace(m: Arena, m': Arena, base: int, top: int, end: int)
    requires Space(m, base, top, end) && Rekinded(m, m')
    ensures Space(m', base, top, end)
  {
    forall c | c in m' && c != top ensures Next(m', c) in m' { assert Next(m, c) in m; }
  }

  lemma RekindedTag(m: Arena, m': Arena, head: Heads, foot: Foots, c: int)
    requires Rekinded(m, m') && c in m && c in head
    ensures TagsNext(m, head, foot, c) ==> TagsNext(m', head, foot, c)
    ensures TagsBack(m, head, foot, c) ==> TagsBack(m', head, foot, c)
  {
  }

  lemma RebinnedTags(m: Arena, base: int, top: int, end: int, head: Heads, foot: Foots, p: int, j: nat)
    requires Space(m, base, top, end) && Aligned(m) && Tags(m, base, top, head, foot) && p in m && m[p].kind.Free?
    ensures var m' := m[p := Chunk(m[p].size, Free(j))];
            Space(m', base, top, end) && Aligned(m') && Tags(m', base, top, head, foot)
  {
    hide Space, Tags, Aligned;
    RekindedTags(m, m[p := Chunk(m[p].size, Free(j))], base, top, end, head, foot);
  }

  lemma MergedAt(m: Arena, lo: int, hi: int, k: Kind)
    requires lo in m
    ensures lo in Merged(m, lo, hi, k) && Merged(m, lo, hi, k)[lo] == Chunk(hi - lo, k)
  {
  }

  lemma MergedIgnoresInside(m: Arena, m2: Arena, lo: int, hi: int, k: Kind)
    requires lo in m && m2.Keys == m.Keys && forall a | a in m && !(lo <= a < hi) :: m2[a] == m[a]
    ensures Merged(m2, lo, hi, k) == Merged(m, lo, hi, k)
    ensures Merged(m2, lo, hi, Free(0))[lo := Chunk(hi - lo, k)] == Merged(m, lo, hi, k)
  {
  }

  lemma MergedKept(m: Arena, lo: int, hi: int, k: Kind, p: int)
    requires lo in m && lo <= p < hi && !InUse(k) && forall a | a in m && lo <= a < hi :: a == p || !InUse(m[a].kind)
    ensures Kept(Merged(m, lo, hi, k)) == Kept(m) - {p}
    ensures NoLoose(m) && k != Free(0) ==> NoLoose(Merged(m, lo, hi, k))
  {
  }

  /** A chunk in use that is merged with its free neighbours, or with top, is all that
      the program gives up. */
  lemma ReleasedKept(m: Arena, m2: Arena, base: int, top: int, end: int, lo: int, p: int, n: int, hi: int, k: Kind)
    requires Space(m, base, top, end) && lo in m && p in m && p != top && n == Next(m, p)
    requires lo == p || (Next(m, lo) == p && m[lo].kind.Free?)
    requires hi == n || (n in m && Next(m, n) == hi && (m[n].kind.Free? || m[n].kind.Top?))
    requires m2.Keys == m.Keys && forall a | a in m && a != lo && a != n :: m2[a] == m[a]
    requires lo == p ==> m2[p] == m[p]
    requires hi == n && n in m ==> m2[n] == m[n]
    requires k == Free(1) || k == Top
    ensures Merged(m2, lo, hi, k) == Merged(m, lo, hi, k) && Kept(Merged(m, lo, hi, k)) == Kept(m) - {p}
    ensures NoLoose(m) ==> NoLoose(Merged(m, lo, hi, k))
  {
    RunOfChunks(m, base, top, end, lo, p, n, hi);
    hide Space, Merged, Kept, NoLoose;
    MergedIgnoresInside(m, m2, lo, hi, k);
    MergedKept(m, lo, hi, k, p);
  }

  lemma MergedAligned(m: Arena, lo: int, hi: int, k: Kind, t: int)
    requires Aligned(m) && lo in m && (hi in m || (t in m && hi == Next(m, t)))
    ensures Aligned(Merged(m, lo, hi, k))
  {
  }

  /** What the boundary tags around a free chunk say. */
  lemma FreeChunkTags(m: Arena, base: int, top: int, end: int, head: Heads, foot: Foots, p: int)
    requires Space(m, base, top, end) && Tags(m, base, top, head, foot) && p in m && m[p].kind.Free?
    ensures p in head && head[p].size == m[p].size && head[p].prevInuse
    ensures Next(m, p) in m && Next(m, p) in foot && foot[Next(m, p)] == m[p].size
    ensures p != top && Next(m, p) in head && !head[Next(m, p)].prevInuse && InUse(m[Next(m, p)].kind)
  {
    assert TagsNext(m, head, foot, p) && TagsBack(m, head, foot, p);
    if p in foot && Prev(foot, p) in m && Prev(foot, p) != top { assert TagsNext(m, head, foot, Prev(foot, p)); }
  }

  /** What the tags of chunk p say about the chunk before it. */
  lemma PrevChunkTags(m: Arena, base: int, top: int, end: int, head: Heads, foot: Foots, p: int)
    requires Space(m, base, top, end) && Tags(m, base, top, head, foot) && p in m
    ensures p in head && head[p].size == m[p].size >= MINSIZE
    ensures !head[p].prevInuse ==>
      p in foot && Prev(foot, p) in m && m[Prev(foot, p)].kind.Free? && Next(m, Prev(foot, p)) == p &&
      Prev(foot, p) < p && Prev(foot, p) in head && head[Prev(foot, p)].size == foot[p] && head[Prev(foot, p)].prevInuse
  {
    assert TagsBack(m, head, foot, p);
    if !head[p].prevInuse { FreeChunkTags(m, base, top, end, head, foot, Prev(foot, p)); }
  }

  /** What they say about the chunk after it, and about the one after that. */
  lemma NextChunkTags(m: Arena, base: int, top: int, end: int, head: Heads, foot: Foots, p: int)
    requires Space(m, base, top, end) && Tags(m, base, top, head, foot) && p in m && p != top
    ensures Next(m, p) in m && Next(m, p) in head && head[Next(m, p)].size == m[Next(m, p)].size >= MINSIZE
    ensures Next(m, p) <= top && (head[Next(m, p)].prevInuse <==> !m[p].kind.Free?)
    ensures base <= p < Next(m, p) && head[Next(m, p)].size < end - base
    ensures Next(m, p) != top ==> var n := Next(m, p); var h := Next(m, n);
      && h in head && h in m && h <= top
      && (head[h].prevInuse <==> !m[n].kind.Free?) && (head[h].prevInuse ==> InUse(m[n].kind))
      && (!head[h].prevInuse ==> InUse(m[h].kind))
  {
    assert TagsNext(m, head, foot, p) && TagsBack(m, head, foot, Next(m, p));
    if Next(m, p) != top { assert TagsNext(m, head, foot, Next(m, p)); }
  }

  /** The in-use bit does not take a chunk over the small-bin boundary. */
  lemma WordInSmallRange(m: Arena, h: Head, p: int)
    requires Aligned(m) && p in m && h.size == m[p].size
    ensures InSmallbinRange(h.Word()) <==> InSmallbinRange(m[p].size)
  {
  }

  lemma SpaceBounds(m: Arena, base: int, top: int, end: int)
    requires Space(m, base, top, end)
    ensures base in m && top in m && m[top].kind == Top && top < Next(m, top) == end && forall x | x in m :: x >= 4096
  {
  }

  lemma ChunkPlace(m: Arena, base: int, top: int, end: int, p: int)
    requires Space(m, base, top, end) && p in m
    ensures p >= 4096 && (m[p].kind != Top ==> p != top) && top in m
  {
  }

  lemma TopPlace(m: Arena, base: int, top: int, end: int)
    requires Space(m, base, top, end)
    ensures top in m && top >= 4096 && m[top].kind == Top && top !in Kept(m)
  {
  }

  /** A run of one to three neighbouring chunks holds no other chunk. */
  lemma RunOfChunks(m: Arena, base: int, top: int, end: int, lo: int, p: int, n: int, hi: int)
    requires Space(m, base, top, end) && lo in m && p in m && p != top && n == Next(m, p)
    requires lo == p || Next(m, lo) == p
    requires hi == n || (n in m && Next(m, n) == hi)
    ensures Next(m, lo) <= hi && lo <= p < hi && lo < hi
    ensures forall a | a in m && lo <= a < hi :: a == lo || a == p || a == n
  {
    assert Next(m, p) in m;
  }

  /** Carving a chunk out of free space or top adds that chunk to those in use. */
  lemma SplitKept(m: Arena, base: int, top: int, end: int, a: int, nb: int, rest: Kind)
    requires Space(m, base, top, end) && a in m && !InUse(m[a].kind) && !InUse(rest) &&
        MINSIZE <= nb <= m[a].size - MINSIZE
    ensures Kept(Split(m, a, nb, Used, rest)) == Kept(m)[a := Chunk(nb, Used)]
    ensures a + nb !in m && a + nb in Split(m, a, nb, Used, rest) &&
        Split(m, a, nb, Used, rest)[a + nb] == Chunk(m[a].size - nb, rest)
    ensures a !in Kept(m) && (rest != Free(0) && NoLoose(m) ==> NoLoose(Split(m, a, nb, Used, rest)))
  {
    hide Space;
    SplitFresh(m, base, top, end, a, nb);
    KeptSplit(m, a, nb, rest);
  }

  lemma SplitFresh(m: Arena, base: int, top: int, end: int, a: int, nb: int)
    requires Space(m, base, top, end) && a in m && 0 < nb < m[a].size
    ensures a + nb !in m
  {
  }

  lemma KeptSplit(m: Arena, a: int, nb: int, rest: Kind)
    requires a in m && a + nb !in m && nb > 0 && !InUse(m[a].kind) && !InUse(rest)
    ensures Kept(Split(m, a, nb, Used, rest)) == Kept(m)[a := Chunk(nb, Used)]
    ensures a !in Kept(m) && (rest != Free(0) && NoLoose(m) ==> NoLoose(Split(m, a, nb, Used, rest)))
  {
    var m', c := Split(m, a, nb, Used, rest), Kept(m)[a := Chunk(nb, Used)];
    assert Kept(m').Keys == c.Keys;
  }

  lemma LooseSettled(m: Arena, p: int, k: Kind)
    requires LooseOnly(m, p) && p in m && k != Free(0)
    ensures NoLoose(m[p := Chunk(m[p].size, k)])
  {
  }

  lemma LooseTaken(m: Arena, p: int)
    requires NoLoose(m) && p in m
    ensures LooseOnly(m[p := Chunk(m[p].size, Free(0))], p)
  {
  }

  lemma LooseSplit(m: Arena, p: int, nb: int)
    requires LooseOnly(m, p) && p in m
    ensures LooseOnly(Split(m, p, nb, Used, Free(0)), p + nb)
  {
  }

  lemma RebinnedKept(m: Arena, p: int, j: nat)
    requires p in m && m[p].kind.Free?
    ensures Kept(m[p := Chunk(m[p].size, Free(j))]) == Kept(m)
  {
  }

  lemma SplitAligned(m: Arena, a: int, nb: int, k: Kind, rest: Kind)
    requires Aligned(m) && a in m && nb % 16 == 0
    ensures Aligned(Split(m, a, nb, k, rest))
  {
  }

  lemma AllocatedAligned(m: Arena, a: int)
    requires Aligned(m) && a in m
    ensures Aligned(m[a := Chunk(m[a].size, Used)])
  {
  }

  lemma TopTags(m: Arena, base: int, top: int, end: int, head: Heads, foot: Foots)
    requires Space(m, base, top, end) && Tags(m, base, top, head, foot)
    ensures top in head && head[top].size == m[top].size && head[top].prevInuse
  {
    assert TagsBack(m, head, foot, top);
    if top in foot && Prev(foot, top) in m &&
        Prev(foot, top) != top { assert TagsNext(m, head, foot, Prev(foot, top)); }
  }

  /** Cutting an allocated chunk off the front of free space or top. */
  lemma CarvedSpace(m: Arena, base: int, top: int, end: int, head: Heads, foot: Foots, a: int, nb: int, rest: Kind)
    requires Space(m, base, top, end) && Aligned(m) && Tags(m, base, top, head, foot)
    requires a in m && MINSIZE <= nb <= m[a].size - MINSIZE && nb % 16 == 0 && a in head && head[a].prevInuse
    requires if a == top then rest == Top else rest == Free(0) && m[a].kind == Free(0)
    ensures a + nb !in m
    ensures var m' := Split(m, a, nb, Used, rest);
            var head', foot' := head[a := Head(nb, true)][a + nb := Head(m[a].size - nb, true)],
                                if a == top then foot else foot[a + m[a].size := m[a].size - nb];
            && Space(m', base, if a == top then a + nb else top, end) && Aligned(m')
            && Tags(m', base, if a == top then a + nb else top, head', foot')
  {
    SpaceBounds(m, base, top, end);
    hide Space, Aligned, Tags, Split;
    SplitSpace(m, base, top, end, a, nb, Used, rest);
    SplitTags(m, base, top, end, head, foot, a, nb, Used, rest);
    SplitAligned(m, a, nb, Used, rest);
  }

  lemma EitherOrder(head: Heads, a: int, x: Head, b: int, y: Head)
    requires a != b
    ensures head[a := x][b := y] == head[b := y][a := x]
  {
  }

  /** The spaces of a chunk in use that is cut in two, both parts in use. */
  lemma CutSpace(m: Arena, base: int, top: int, end: int, head: Heads, foot: Foots, a: int, nb: int)
    requires Space(m, base, top, end) && Aligned(m) && Tags(m, base, top, head, foot)
    requires a in m && m[a].kind == Used && MINSIZE <= nb <= m[a].size - MINSIZE && nb % 16 == 0
    ensures a + nb !in m && a in head && head[a].size == m[a].size
    ensures Space(Split(m, a, nb, Used, Used), base, top, end) && Aligned(Split(m, a, nb, Used, Used))
    ensures Tags(Split(m, a, nb, Used, Used), base, top,
        head[a + nb := Head(head[a].size - nb, true)][a := head[a].(size := nb)], foot)
  {
    hide Space, Aligned, Tags, Split;
    ChunkPlace(m, base, top, end, a);
    HeadOf(m, base, top, end, head, foot, a);
    SplitSpace(m, base, top, end, a, nb, Used, Used);
    SplitTags(m, base, top, end, head, foot, a, nb, Used, Used);
    SplitAligned(m, a, nb, Used, Used);
    EitherOrder(head, a, head[a].(size := nb), a + nb, Head(head[a].size - nb, true));
  }

  lemma HeadOf(m: Arena, base: int, top: int, end: int, head: Heads, foot: Foots, p: int)
    requires Space(m, base, top, end) && Tags(m, base, top, head, foot) && p in m
    ensures p in head && head[p].size == m[p].size
  {
    hide Space, Tags;
    PrevChunkTags(m, base, top, end, head, foot, p);
  }

  /** The memory of a chunk in use runs from behind its size word to the size word of its
      successor: of two chunks, the memory of one ends before the size word of the other. */
  lemma PayloadsApart(m: Arena, base: int, top: int, end: int, p: int, q: int)
    requires Space(m, base, top, end) && p in m && q in m && p != q
    ensures p + m[p].size + SIZE_SZ <= q + SIZE_SZ || q + m[q].size + SIZE_SZ <= p + SIZE_SZ
  {
  }

  lemma AlignedChunk(m: Arena, p: int)
    requires Aligned(m) && p in m
    ensures p % 16 == 0 && m[p].size % 16 == 0
  {
  }

  /** Chunk p has become part of one free chunk, or of top, and nothing else has changed. */
  ghost predicate Released(m: Arena, m': Arena, p: int, lo: int, size: int, top: int) {
    && p in m && lo in m && lo <= p && Next(m, p) <= lo + size
    && m' == Merged(m, lo, lo + size, if lo == top then Top else Free(1))
  }

  /** The same, when the neighbours had been taken off their bins before. */
  lemma ReleasedAs(m: Arena, m2: Arena, m': Arena, p: int, lo: int, size: int, top: int)
    requires p in m && lo in m && lo <= p && Next(m, p) <= lo + size
    requires m2.Keys == m.Keys && forall a | a in m && !(lo <= a < lo + size) :: m2[a] == m[a]
    requires m' == Merged(m2, lo, lo + size, if lo == top then Top else Free(1))
    ensures Released(m, m', p, lo, size, top)
  {
    MergedIgnoresInside(m, m2, lo, lo + size, if lo == top then Top else Free(1));
  }

  /** Two neighbours fit the arena. */
  lemma NextFits(m: Arena, base: int, top: int, end: int, p: int)
    requires Space(m, base, top, end) && p in m && p != top
    ensures Next(m, p) in m && base <= p && m[p].size + m[Next(m, p)].size <= end - base
  {
  }

  ghost predicate NoFreeBefore(m: Arena, p: int) {
    forall a {:trigger Next(m, a)} | a in m && Next(m, a) == p :: !m[a].kind.Free?
  }

  /** What becomes one chunk when chunk p is released: it, the chunk before it if that is
      free, and the chunk behind it if that is free or top. */
  ghost predicate ReleaseSpan(m: Arena, p: int, lo: int, hi: int) {
    && p in m && lo in m && (if lo == p then NoFreeBefore(m, p) else Next(m, lo) == p && m[lo].kind.Free?)
    && var n := Next(m, p);
    && n in m && hi == if m[n].kind.Free? || m[n].kind == Top then Next(m, n) else n
  }

  /** There is one such span. */
  lemma SpanOnce(m: Arena, base: int, top: int, end: int, p: int, lo: int, hi: int, lo': int, hi': int)
    requires Space(m, base, top, end) && ReleaseSpan(m, p, lo, hi) && ReleaseSpan(m, p, lo', hi')
    ensures lo' == lo && hi' == hi
  {
    if lo != p && lo' != p {
      Apart(m, base, top, end, lo, lo');
      Apart(m, base, top, end, lo', lo);
    }
    assert lo != p ==> Next(m, lo) == p;
    assert lo' != p ==> Next(m, lo') == p;
  }

  lemma SpanRekinded(m: Arena, p: int, lo: int, hi: int)
    requires p in m && m[p].kind == Used && m[p].size > 0 && ReleaseSpan(m[p := Chunk(m[p].size, Held)], p, lo, hi)
    ensures ReleaseSpan(m, p, lo, hi)
  {
    var m' := m[p := Chunk(m[p].size, Held)];
    forall a | a in m && Next(m, a) == p && lo == p ensures !m[a].kind.Free? { assert Next(m', a) == p; }
  }

  lemma UsedBefore(m: Arena, base: int, top: int, end: int, head: Heads, foot: Foots, p: int)
    requires Space(m, base, top, end) && Tags(m, base, top, head, foot) && p in m && p in head && head[p].prevInuse
    ensures NoFreeBefore(m, p)
  {
    BaseFirst(m, base, top, end, p);
    forall a | a in m && Next(m, a) == p ensures !m[a].kind.Free? {
      if a != top { assert TagsNext(m, head, foot, a); }
    }
  }
}
