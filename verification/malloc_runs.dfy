/**
  Whole runs of a program over the glibc allocator: any sequence of allocations, aligned
  allocations and releases, and of words that the program stores in its memory and reads
  back.
 */
module MallocRuns {
  import opened MallocSizes
  import opened ArenaModel
  import opened MallocState
  import opened FreeStore
  import opened MemoryWords
  import opened MallocChecks
  import opened ChunkChoice
  import opened ChunkLists
  import opened SmallBinQueues

  datatype Call =
    | Alloc(bytes: nat) | AllocAligned(alignment: nat, bytes: nat) | Release(p: int)
    | Store(p: int, k: nat, value: int) | Load(p: int, k: nat)

  /** The pointers that the program owns, with the bytes it asked for. */
  type Owned = map<int, nat>

  /** What the program owns, and the words that it has stored there. */
  datatype View = View(owned: Owned, words: Stores)

  /** The program frees only what it owns, stores aligned words only within the bytes that it
      asked for, and reads what it has stored.  It may ask for any size and alignment. */
  predicate Permitted(v: View, c: Call) {
    match c
    case Alloc(_) => true
    case AllocAligned(alignment, _) => alignment < SIZE_MODULUS
    case Release(p) => p in v.owned
    case Store(p, k, _) => p in v.owned && k % 8 == 0 && k + 8 <= v.owned[p]
    case Load(p, k) => p in v.owned && k + 8 <= v.owned[p] && p + k in v.words
  }

  function After(v: View, c: Call, r: int): View
    requires Permitted(v, c)
  {
    match c
    case Alloc(bytes) => if r == 0 then v else v.(owned := v.owned[r := bytes])
    case AllocAligned(_, bytes) => if r == 0 then v else v.(owned := v.owned[r := bytes])
    case Release(p) => View(v.owned - {p}, map w | w in v.words && !(p <= w < p + v.owned[p]) :: v.words[w])
    case Store(p, k, value) => v.(words := v.words[p + k := value])
    case Load(_, _) => v
  }

  /** Word w lies within what the program owns at r. */
  ghost predicate Within(owned: Owned, r: int, w: int) {
    r in owned && r <= w && w + 8 <= r + owned[r]
  }

  ghost predicate Placed(v: View) {
    forall w | w in v.words :: exists r :: Within(v.owned, r, w)
  }

  /** The allocator holds for the program exactly what the program believes to own, and
      memory has the words that it believes to have stored. */
  ghost predicate Agrees(v: View, live: map<int, int>, stored: Stores) {
    Matches(v.owned, live) && stored == v.words && Placed(v)
  }

  /** What the program owns is exactly what the allocator counts as allocated, with room
      for the bytes. */
  ghost predicate Matches(owned: Owned, live: map<int, int>) {
    && (forall r {:trigger Backed(owned, live, r)} | r in owned :: Backed(owned, live, r))
    && (forall p {:trigger Claimed(owned, p)} | p in live :: Claimed(owned, p))
  }

  ghost predicate Backed(owned: Owned, live: map<int, int>, r: int) {
    r in owned && r - CHUNK_HDR_SZ in live && owned[r] + SIZE_SZ <= live[r - CHUNK_HDR_SZ] && r % 16 == 0
  }

  ghost predicate Claimed(owned: Owned, p: int) {
    p + CHUNK_HDR_SZ in owned
  }

  /** No byte is owned twice. */
  ghost predicate Separate(owned: Owned) {
    forall r, t | r in owned && t in owned && r != t :: r + owned[r] <= t || t + owned[t] <= r
  }

  lemma OwnedSeparate(m: Arena, base: int, top: int, end: int, owned: Owned)
    requires Space(m, base, top, end) && Matches(owned, Live(m))
    ensures Separate(owned)
  {
    hide Space, Live, Matches;
    forall r, t | r in owned && t in owned && r != t ensures r + owned[r] <= t || t + owned[t] <= r {
      OwnedSize(m, owned, r);
      OwnedSize(m, owned, t);
      PayloadsApart(m, base, top, end, r - CHUNK_HDR_SZ, t - CHUNK_HDR_SZ);
    }
  }

  lemma MatchesServed(owned: Owned, m: Arena, m': Arena, r: int, bytes: nat)
    requires Matches(owned, Live(m)) && Served(m, m', r - CHUNK_HDR_SZ, bytes)
    ensures r !in owned && Matches(owned[r := bytes], Live(m'))
  {
    hide Live;
    var p := r - CHUNK_HDR_SZ;
    MatchesMore(owned, Live(m), r, bytes, Live(m')[p]);
  }

  lemma MatchesMore(owned: Owned, live: map<int, int>, r: int, bytes: nat, size: int)
    requires Matches(owned, live) && r - CHUNK_HDR_SZ !in live && r % 16 == 0 && bytes + SIZE_SZ <= size
    ensures r !in owned && Matches(owned[r := bytes], live[r - CHUNK_HDR_SZ := size])
  {
    var owned', live' := owned[r := bytes], live[r - CHUNK_HDR_SZ := size];
    assert r in owned ==> Backed(owned, live, r);
    forall t | t in owned' ensures Backed(owned', live', t) {
      assert t != r ==> Backed(owned, live, t);
    }
    forall p | p in live' ensures Claimed(owned', p) {
      assert p != r - CHUNK_HDR_SZ ==> Claimed(owned, p);
    }
  }

  lemma MatchesReleased(owned: Owned, live: map<int, int>, r: int)
    requires Matches(owned, live) && r in owned
    ensures Matches(owned - {r}, live - {r - CHUNK_HDR_SZ})
  {
    var owned', live' := owned - {r}, live - {r - CHUNK_HDR_SZ};
    forall t | t in owned' ensures Backed(owned', live', t) { assert Backed(owned, live, t); }
    forall p | p in live' ensures Claimed(owned', p) { assert Claimed(owned, p); }
  }

  /** Storing within what is owned is storing in a chunk of the program. */
  lemma StoredWithin(m: Arena, v: View, p: int, k: nat)
    requires Agrees(v, Live(m), v.words) && p in v.owned && k % 8 == 0 && k + 8 <= v.owned[p]
    ensures OwnWord(m, p + k) && (p + k) % 8 == 0
  {
    assert Backed(v.owned, Live(m), p);
    assert WordOf(m, p - CHUNK_HDR_SZ, p + k);
  }

  lemma PlacedMore(v: View, p: int, k: nat, value: int)
    requires Placed(v) && p in v.owned && k + 8 <= v.owned[p]
    ensures Placed(v.(words := v.words[p + k := value]))
  {
    var v' := v.(words := v.words[p + k := value]);
    forall w | w in v'.words ensures exists r :: Within(v'.owned, r, w) {
      if w == p + k {
        assert Within(v'.owned, p, w);
      } else {
        var r :| Within(v.owned, r, w);
        assert Within(v'.owned, r, w);
      }
    }
  }

  lemma PlacedAlloc(v: View, r: int, bytes: nat)
    requires Placed(v) && r !in v.owned
    ensures Placed(v.(owned := v.owned[r := bytes]))
  {
    var v' := v.(owned := v.owned[r := bytes]);
    forall w | w in v.words ensures exists t :: Within(v'.owned, t, w) {
      var t :| Within(v.owned, t, w);
      assert Within(v'.owned, t, w);
    }
  }

  /** The words lost with a chunk are those that the program had stored in what it owned
      there. */
  lemma ForgottenWords(m: Arena, base: int, top: int, end: int, v: View, p: int)
    requires Space(m, base, top, end) && Agrees(v, Live(m), v.words) && p in v.owned
    ensures p - CHUNK_HDR_SZ in Live(m)
    ensures Forgotten(v.words, p - CHUNK_HDR_SZ, Live(m)[p - CHUNK_HDR_SZ]) == After(v, Release(p), 0).words
    ensures Placed(After(v, Release(p), 0))
  {
    hide Space, Live, Matches;
    OwnedSize(m, v.owned, p);
    var v', size := After(v, Release(p), 0), Live(m)[p - CHUNK_HDR_SZ];
    forall w | w in v.words
      ensures (p <= w < p + v.owned[p] <==> p <= w < p + size - 8) &&
          (!(p <= w < p + v.owned[p]) ==> exists r :: Within(v'.owned, r, w))
    {
      var r :| Within(v.owned, r, w);
      OwnedSize(m, v.owned, r);
      if r != p {
        PayloadsApart(m, base, top, end, r - CHUNK_HDR_SZ, p - CHUNK_HDR_SZ);
        assert Within(v'.owned, r, w);
      }
    }
  }

  lemma OwnedSize(m: Arena, owned: Owned, r: int)
    requires Matches(owned, Live(m)) && r in owned
    ensures r - CHUNK_HDR_SZ in m && r - CHUNK_HDR_SZ in Live(m) &&
        owned[r] + SIZE_SZ <= Live(m)[r - CHUNK_HDR_SZ] == m[r - CHUNK_HDR_SZ].size
  {
    assert Backed(owned, Live(m), r);
  }

  function AfterAll(script: seq<Call>, results: seq<int>): View
    requires |results| == |script|
  {
    if script == [] then View(map[], map[])
    else
      var n := |script| - 1;
      var v := AfterAll(script[..n], results[..n]);
      if Permitted(v, script[n]) then After(v, script[n], results[n]) else v
  }

  lemma AfterAllStep(script: seq<Call>, results: seq<int>, r: int)
    requires |results| < |script|
    ensures var n := |results|;
            var v := AfterAll(script[..n], results);
            AfterAll(script[..n + 1], results + [r]) == if Permitted(v, script[n]) then After(v, script[n], r) else v
  {
    var n := |results|;
    assert script[..n + 1][..n] == script[..n] && (results + [r])[..n] == results;
  }

  /** After n calls nothing is owned twice; an allocation that comes next gives null or an
      aligned pointer that is not owned, and a word that is read next is as it was stored. */
  ghost predicate SafeAt(script: seq<Call>, results: seq<int>, n: nat)
    requires n <= |results| <= |script|
  {
    Separate(AfterAll(script[..n], results[..n]).owned) &&
        (n < |results| ==> GoodResult(AfterAll(script[..n], results[..n]), script[n], results[n]))
  }

  /** An aligned request whose padded size does not fit size_t. */
  predicate PadOverflows(c: Call) {
    && c.AllocAligned? && LARGEST_POWER / 2 < c.alignment <= LARGEST_POWER
    && LARGEST_POWER - 55 <= c.bytes <= PTRDIFF_MAX
  }

  lemma PadOverflowsWhen(c: Call, a: nat)
    requires c.AllocAligned? && c.alignment <= a == LARGEST_POWER && PadWraps(a, c.bytes) && c.bytes <= PTRDIFF_MAX
    requires forall b: nat | PowerOfTwo(b) && MINSIZE <= b && c.alignment <= b :: a <= b
    ensures PadOverflows(c)
  {
    LargestPower();
    PadWrapsExactly(a, c.bytes);
    assert PowerOfTwo(LARGEST_POWER / 2);
  }

  lemma NoOverflowWhen(c: Call, a: nat)
    requires c.AllocAligned? && PowerOfTwo(a) && c.alignment <= a <= LARGEST_POWER && !PadWraps(a, c.bytes)
    ensures !PadOverflows(c)
  {
    if PadOverflows(c) {
      LargestPower();
      if a < LARGEST_POWER { PowersApart(a, LARGEST_POWER); }
      PadWrapsExactly(a, c.bytes);
    }
  }

  ghost predicate GoodResult(v: View, c: Call, r: int) {
    Permitted(v, c) ==>
      && (c.Alloc? && r != 0 ==> r !in v.owned && r % 16 == 0)
      && (c.AllocAligned? && r != 0 ==> r !in v.owned && r % 16 == 0 && !PadOverflows(c))
      && (c.AllocAligned? && r != 0 && PowerOfTwo(c.alignment) ==> c.alignment > 0 && r % c.alignment == 0)
      && (c.Load? ==> r == v.words[c.p + c.k])
  }

  lemma SafeEarlier(script: seq<Call>, results: seq<int>, r: int, n: nat)
    requires n <= |results| < |script| && SafeAt(script, results, n)
    requires GoodResult(AfterAll(script[..|results|], results), script[|results|], r)
    ensures SafeAt(script, results + [r], n)
  {
    assert (results + [r])[..n] == results[..n];
    if n == |results| { assert results[..n] == results; }
  }

  lemma SafeNow(script: seq<Call>, results: seq<int>)
    requires |results| <= |script| && Separate(AfterAll(script[..|results|], results).owned)
    ensures SafeAt(script, results, |results|)
  {
    assert results[..|results|] == results;
  }

  /** A small request that finds chunks in its small bin and none in its fastbin is served the
      last one of the bin. */
  ghost predicate OldestServed(g: Shape, limit: nat, c: Call, r: int) {
    c.Alloc? && c.bytes <= PTRDIFF_MAX ==>
      var nb := Request2Size(c.bytes);
      && ChunkSized(nb)
      && (InSmallbinRange(nb) && SmallbinIndex(nb) < |g.bins| && g.bins[SmallbinIndex(nb)] != [] &&
          FastEmptyFor(g.fasts, nb, limit) ==>
            var l := g.bins[SmallbinIndex(nb)]; r == l[|l| - 1] + CHUNK_HDR_SZ)
  }

  lemma OldestWhen(g: Shape, hadFast: bool, limit: nat, remainder: int, base: int, end: int, bytes: nat, r: int,
        bins: Bins)
    requires Binned(g.m, g.bins) && bytes <= PTRDIFF_MAX && ChunkSized(Request2Size(bytes))
    requires if r == 0 then NotServed(g, hadFast, Request2Size(bytes), remainder, base, end, bins)
             else WellChosen(g, hadFast, r - CHUNK_HDR_SZ, Request2Size(bytes), limit, remainder, base, end)
    ensures OldestServed(g, limit, Alloc(bytes), r)
  {
    hide NotServed, WellChosen, Binned, Request2Size;
    var nb := Request2Size(bytes);
    if InSmallbinRange(nb) && SmallbinIndex(nb) < |g.bins| && g.bins[SmallbinIndex(nb)] != [] &&
        FastEmptyFor(g.fasts, nb, limit) {
      if r == 0 {
        LastWouldBeServed(g, hadFast, nb, remainder, base, end, bins);
      } else {
        LastIsServed(g, hadFast, r - CHUNK_HDR_SZ, nb, limit, remainder, base, end);
      }
    }
  }

  /** History of the lists, from before the first call on: every small bin stays a queue, and
      the oldest chunk is served first. */
  ghost predicate FirstInFirstOut(history: seq<Shape>, limit: nat, script: seq<Call>, results: seq<int>) {
    && |results| <= |script| && |history| == |results| + 1
    && forall n | 0 <= n < |results| ::
      BinsQueued(history[n].bins, history[n + 1].bins) && OldestServed(history[n], limit, script[n], results[n])
  }

  lemma HistoryMore(history: seq<Shape>, limit: nat, script: seq<Call>, results: seq<int>, g: Shape, r: int)
    requires FirstInFirstOut(history, limit, script, results) && |results| < |script|
    requires BinsQueued(history[|results|].bins, g.bins)
    requires OldestServed(history[|results|], limit, script[|results|], r)
    ensures FirstInFirstOut(history + [g], limit, script, results + [r])
  {
    hide BinsQueued, OldestServed;
    var h, rs := history + [g], results + [r];
    forall n | 0 <= n < |rs|
        ensures BinsQueued(h[n].bins, h[n + 1].bins) && OldestServed(h[n], limit, script[n], rs[n]) {
      if n < |results| {
        assert h[n] == history[n] && h[n + 1] == history[n + 1] && rs[n] == results[n];
      }
    }
  }

  /** Over a run: the chunk that a small request is served from its small bin has waited there
      for at least as long as any other, y, that still does. */
  lemma ServedWaitedLongest(history: seq<Shape>, limit: nat, script: seq<Call>, results: seq<int>, n: nat, t: nat,
        y: int)
    requires FirstInFirstOut(history, limit, script, results) && t <= n < |results|
    requires script[n].Alloc? && script[n].bytes <= PTRDIFF_MAX && InSmallbinRange(Request2Size(script[n].bytes))
    requires ChunkSized(Request2Size(script[n].bytes))
    requires FastEmptyFor(history[n].fasts, Request2Size(script[n].bytes), limit)
    requires var i := SmallbinIndex(Request2Size(script[n].bytes));
        forall s | t <= s <= n :: |history[s].bins| == NBINS && y in history[s].bins[i]
    ensures var i := SmallbinIndex(Request2Size(script[n].bytes));
        forall s | t <= s <= n :: results[n] - CHUNK_HDR_SZ in history[s].bins[i]
  {
    hide BinsQueued, Request2Size, FastEmptyFor;
    var nb := Request2Size(script[n].bytes);
    BinIndexRange(nb);
    var i, h := SmallbinIndex(nb), history[..n + 1];
    assert OldestServed(history[n], limit, script[n], results[n]);
    forall s | 0 <= s < n ensures BinsQueued(h[s].bins, h[s + 1].bins) {
      assert h[s] == history[s] && h[s + 1] == history[s + 1];
    }
    LastJoinedFirst(h, i, y, t);
    assert forall s | t <= s <= n :: h[s] == history[s];
  }

  /** One call, if the program may make it.  It may end with a store outside the arena. */
  method Perform(s: State, v: View, c: Call) returns (r: int, outside: bool)
    requires s.Valid() && Agrees(v, Live(s.g.m), s.stored)
    modifies s
    ensures s.Valid() && (outside ==> PadOverflows(c))
    ensures !outside ==> Agrees(if Permitted(v, c) then After(v, c, r) else v, Live(s.g.m), s.stored)
    ensures !outside ==> GoodResult(v, c, r)
    ensures BinsQueued(old(s.g.bins), s.g.bins) && OldestServed(old(s.g), s.maxFast, c, r)
  {
    hide Consistent, Keeps, NoLoose, NoHeld, NoFast, FastWithin, Live, PowerOfTwo, Matches, Placed, Forgotten, OwnWord,
        PadOverflows, PadWraps, PaddedRequest, BinsQueued, BinsShrunk, FreeStep, Coalesced, WellServed, WellChosen,
        NotServed, Binned, Aligned, Request2Size;
    r, outside := 0, false;
    BinnedAligned(s.mem, s.g, s.base, s.top, s.End(), s.fast, s.binmap);
    BinsShrunkSelf(s.g.bins);
    if Permitted(v, c) {
      match c {
        case Alloc(bytes) =>
          RequestPaddingIsLeast(bytes, 0);
          r := s.IntMalloc(bytes);
          if bytes <= PTRDIFF_MAX {
            OldestWhen(old(s.g), old(s.haveFast), s.maxFast, old(s.lastRemainder), s.base, s.End(), bytes, r, s.g.bins);
          }
          if r != 0 {
            MatchesServed(v.owned, old(s.g.m), s.g.m, r, bytes);
            ServedAligned(old(s.g.m), s.g.m, r, bytes);
            PlacedAlloc(v, r, bytes);
          }
        case AllocAligned(alignment, bytes) =>
          r, outside := PerformAligned(s, v, alignment, bytes);
        case Release(p) =>
          MatchesReleased(v.owned, Live(s.g.m), p);
          SpaceOf(s.mem, s.g, s.base, s.top, s.End(), s.fast, s.binmap);
          ForgottenWords(s.g.m, s.base, s.top, s.End(), v, p);
          s.IntFree(p - CHUNK_HDR_SZ);
          FreeShrinks(ListsOf(old(s.g)), p - CHUNK_HDR_SZ, s.maxFast, old(s.haveFast), ListsOf(s.g), s.haveFast);
          ShrunkLength(old(s.g.bins), s.g.bins);
        case Store(p, k, value) =>
          StoredWithin(s.g.m, v, p, k);
          PlacedMore(v, p, k, value);
          s.StoreWord(p + k, value);
        case Load(p, k) =>
          r := s.LoadWord(p + k);
      }
    }
  }

  method PerformAligned(s: State, v: View, alignment: nat, bytes: nat) returns (r: int, outside: bool)
    requires s.Valid() && Agrees(v, Live(s.g.m), s.stored) && alignment < SIZE_MODULUS
    modifies s
    ensures s.Valid() && (outside ==> PadOverflows(AllocAligned(alignment, bytes)))
    ensures !outside ==> Agrees(After(v, AllocAligned(alignment, bytes), r), Live(s.g.m), s.stored)
    ensures !outside ==> GoodResult(v, AllocAligned(alignment, bytes), r)
    ensures BinsQueued(old(s.g.bins), s.g.bins)
  {
    hide Consistent, Keeps, NoLoose, NoHeld, NoFast, FastWithin, Live, PowerOfTwo, Matches, Placed, Served,
        PadOverflows, PadWraps, PaddedRequest, BinsQueued, WellServed, Request2Size;
    ghost var a;
    r, outside, a := s.MidMemalign(alignment, bytes);
    if outside { PadOverflowsWhen(AllocAligned(alignment, bytes), a); }
    if r != 0 {
      MatchesServed(v.owned, old(s.g.m), s.g.m, r, bytes);
      ServedAligned(old(s.g.m), s.g.m, r, bytes);
      PlacedAlloc(v, r, bytes);
      if alignment > MALLOC_ALIGNMENT {
        NoOverflowWhen(AllocAligned(alignment, bytes), a);
      } else {
        NotLargest(alignment, bytes);
      }
    }
  }

  lemma NotLargest(alignment: nat, bytes: nat)
    requires alignment <= MALLOC_ALIGNMENT
    ensures !PadOverflows(AllocAligned(alignment, bytes))
  {
  }

  lemma ServedAligned(m: Arena, m': Arena, r: int, bytes: nat)
    requires Served(m, m', r - CHUNK_HDR_SZ, bytes)
    ensures r % 16 == 0
  {
  }

  /**
    Safety over every run from a fresh arena: the allocator's own checks pass after every
    call, what the program owns is what is allocated, at no time is a byte owned twice, and
    every word that the program has stored reads back until it frees it.  The run goes to
    the end of the script unless an aligned request whose padded size does not fit size_t
    finds memory: then it ends there, with a store outside the arena.
   */
  method Run(s: State, script: seq<Call>)
        returns (results: seq<int>, view: View, checked: bool, outside: bool, ghost history: seq<Shape>)
    requires s.Valid() && Live(s.g.m) == map[] && s.stored == map[]
    modifies s
    ensures |results| <= |script| && view == AfterAll(script[..|results|], results)
    ensures if outside then |results| < |script| && PadOverflows(script[|results|]) else |results| == |script|
    ensures s.Valid() && checked && (!outside ==> Agrees(view, Live(s.g.m), s.stored))
    ensures forall n | 0 <= n <= |results| :: SafeAt(script, results, n)
    ensures FirstInFirstOut(history, s.maxFast, script, results) && history[0] == old(s.g)
  {
    hide Consistent, Keeps, NoLoose, NoHeld, NoFast, FastWithin, Live, AfterAll, SafeAt, Separate, Permitted, After,
        GoodResult, Matches, Placed, PadOverflows, BinsQueued, OldestServed;
    history := [s.g];
    results, view, checked, outside := [], View(map[], map[]), true, false;
    NothingOwned(script);
    while |results| < |script|
      invariant |results| <= |script| && view == AfterAll(script[..|results|], results) && !outside
      invariant s.Valid() && Agrees(view, Live(s.g.m), s.stored) && checked
      invariant forall n | 0 <= n <= |results| :: SafeAt(script, results, n)
      invariant FirstInFirstOut(history, s.maxFast, script, results) && history[0] == old(s.g)
      invariant history[|results|] == s.g
      decreases |script| - |results|
    {
      ghost var before := results;
      var r;
      r, outside := Perform(s, view, script[|results|]);
      if outside {
        return;
      }
      AfterAllStep(script, results, r);
      HistoryMore(history, s.maxFast, script, results, s.g, r);
      history := history + [s.g];
      if Permitted(view, script[|results|]) { view := After(view, script[|results|], r); }
      results := results + [r];
      StateSeparate(s, view.owned);
      forall n | 0 <= n < |results| ensures SafeAt(script, results, n) { SafeEarlier(script, before, r, n); }
      SafeNow(script, results);
      var ok := CheckMallocState(s);
      checked := checked && ok;
    }
  }

  lemma NothingOwned(script: seq<Call>)
    ensures AfterAll(script[..0], []) == View(map[], map[]) && Agrees(View(map[], map[]), map[], map[]) &&
        SafeAt(script, [], 0)
  {
  }

  lemma StateSeparate(s: State, owned: Owned)
    requires s.Valid() && Matches(owned, Live(s.g.m))
    ensures Separate(owned)
  {
    OwnedSeparate(s.g.m, s.base, s.top, s.End(), owned);
  }
}
