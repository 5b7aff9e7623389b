/**
  Small bins are queues: chunks join them in front and the one that joined first is the last,
  over any number of operations.
 */
module SmallBinQueues {
  import opened MallocSizes
  import opened ArenaModel
  import opened LinkedRings
  import opened FreeStore
  import opened ChunkLists
  import opened ChunkChoice

  ghost predicate Before(l: seq<int>, x: int, y: int) {
    exists a, b :: 0 <= a < b < |l| && l[a] == x && l[b] == y
  }

  /** What was in the list and still is lies behind all that has joined since, in its order. */
  ghost predicate Queued(l: seq<int>, l': seq<int>) {
    forall a, b | 0 <= a < b < |l'| :: l'[a] in l ==> Before(l, l'[a], l'[b])
  }

  ghost predicate BinsQueued(bins: Bins, bins': Bins) {
    |bins| == |bins'| == NBINS && forall i | 2 <= i < NSMALLBINS :: Queued(bins[i], bins'[i])
  }

  /** Nothing has joined. */
  ghost predicate Shrunk(l: seq<int>, l': seq<int>) {
    Queued(l, l') && forall x | x in l' :: x in l
  }

  ghost predicate BinsShrunk(bins: Bins, bins': Bins) {
    |bins| == |bins'| == NBINS && forall i | 2 <= i < NSMALLBINS :: Shrunk(bins[i], bins'[i])
  }

  // ----- steps of a list -----

  lemma QueuedSelf(l: seq<int>)
    ensures Shrunk(l, l)
  {
  }

  /** Two steps are one if nothing comes back in the second that left in the first. */
  lemma QueuedTwice(l: seq<int>, l': seq<int>, l'': seq<int>)
    requires Queued(l, l') && Queued(l', l'') && forall x | x in l && x in l'' :: x in l'
    ensures Queued(l, l'')
  {
    forall a, b | 0 <= a < b < |l''| && l''[a] in l ensures Before(l, l''[a], l''[b]) {
      assert Before(l', l''[a], l''[b]);
    }
  }

  lemma ShrunkTwice(l: seq<int>, l': seq<int>, l'': seq<int>)
    requires Shrunk(l, l') && Shrunk(l', l'')
    ensures Shrunk(l, l'')
  {
    QueuedTwice(l, l', l'');
  }

  lemma JoinedInFront(n: seq<int>, l: seq<int>)
    requires forall x | x in n :: x !in l
    ensures Queued(l, n + l)
  {
    var t := n + l;
    assert forall a | 0 <= a < |n| :: t[a] == n[a] && n[a] in n;
    forall a, b | 0 <= a < b < |t| && t[a] in l ensures Before(l, t[a], t[b]) {
      assert l[a - |n|] == t[a] && l[b - |n|] == t[b];
    }
  }

  lemma {:induction false} BeforeBehind(h: int, l: seq<int>, x: int, y: int)
    ensures Before(l, x, y) ==> Before([h] + l, x, y)
    ensures y in l ==> Before([h] + l, h, y)
  {
    var t := [h] + l;
    if Before(l, x, y) {
      var a, b :| 0 <= a < b < |l| && l[a] == x && l[b] == y;
      assert t[a + 1] == x && t[b + 1] == y;
    }
    if y in l {
      var b :| 0 <= b < |l| && l[b] == y;
      assert t[0] == h && t[b + 1] == y;
    }
  }

  lemma {:induction false} RemovedShrinks(l: seq<int>, x: int)
    ensures Shrunk(l, Removed(l, x))
  {
    if l != [] {
      var t, r := l[1..], Removed(l, x);
      RemovedShrinks(t, x);
      assert l == [l[0]] + t;
      var from := if l[0] == x then 0 else 1;
      assert forall a | from <= a < |r| :: r[a] == Removed(t, x)[a - from];
      forall a, b | 0 <= a < b < |r| ensures Before(l, r[a], r[b]) {
        BeforeBehind(l[0], t, r[a], r[b]);
        assert Removed(t, x)[b - from] in t;
        if a >= from { assert Removed(t, x)[a - from] in t; }
      }
      forall y | y in r ensures y in l {
        var a :| 0 <= a < |r| && r[a] == y;
        if a >= from { assert Removed(t, x)[a - from] in t; }
      }
    }
  }

  // ----- steps of the allocator -----

  lemma ReleasedShrinks(bins: Bins, lo: int, next: int, intoTop: bool)
    requires |bins| == NBINS
    ensures BinsShrunk(bins, ReleasedBins(bins, lo, next, intoTop))
  {
    forall i | 2 <= i < NSMALLBINS ensures Shrunk(bins[i], ReleasedBins(bins, lo, next, intoTop)[i]) {
      RemovedShrinks(bins[i], lo);
      RemovedShrinks(Removed(bins[i], lo), next);
      ShrunkTwice(bins[i], Removed(bins[i], lo), Removed(Removed(bins[i], lo), next));
    }
  }

  lemma BinsShrunkTwice(bins: Bins, bins': Bins, bins'': Bins)
    requires BinsShrunk(bins, bins') && BinsShrunk(bins', bins'')
    ensures BinsShrunk(bins, bins'')
  {
    hide Shrunk;
    forall i | 2 <= i < NSMALLBINS ensures Shrunk(bins[i], bins''[i]) { ShrunkTwice(bins[i], bins'[i], bins''[i]); }
  }

  lemma BinsShrunkSelf(bins: Bins)
    requires |bins| == NBINS
    ensures BinsShrunk(bins, bins) && BinsQueued(bins, bins)
  {
    forall i | 2 <= i < NSMALLBINS ensures Shrunk(bins[i], bins[i]) { QueuedSelf(bins[i]); }
  }

  lemma {:induction false} StepsShrink(a: Lists, l: seq<int>, b: Lists)
    requires |a.bins| == NBINS && ReleaseSteps(a, l, b)
    ensures BinsShrunk(a.bins, b.bins)
    decreases |l|
  {
    hide BinsShrunk, ReleasedBins;
    if l == [] {
      BinsShrunkSelf(a.bins);
    } else {
      var c :| ReleaseSteps(a, l[..|l| - 1], c) && ReleaseStep(c, l[|l| - 1], b);
      StepsShrink(a, l[..|l| - 1], c);
      ShrunkLength(a.bins, c.bins);
      var lo, hi :| ReleasedAt(c, l[|l| - 1], b, lo, hi);
      ReleasedShrinks(c.bins, lo, Next(c.m, l[|l| - 1]), BeforeTop(c.m, l[|l| - 1]));
      BinsShrunkTwice(a.bins, c.bins, b.bins);
    }
  }

  lemma ShrunkLength(bins: Bins, bins': Bins)
    requires BinsShrunk(bins, bins')
    ensures |bins'| == NBINS && BinsQueued(bins, bins')
  {
  }

  lemma {:induction false} TearDownShrinks(a: Lists, n: nat, b: Lists)
    requires |a.bins| == NBINS && TearDown(a, n, b)
    ensures BinsShrunk(a.bins, b.bins)
    decreases n
  {
    hide BinsShrunk, ReleaseSteps;
    if n == 0 {
      BinsShrunkSelf(a.bins);
    } else {
      var c :| TearDown(a, n - 1, c) && n <= |c.fasts| && ReleaseSteps(Emptied(c, n - 1), c.fasts[n - 1], b);
      TearDownShrinks(a, n - 1, c);
      ShrunkLength(a.bins, c.bins);
      StepsShrink(Emptied(c, n - 1), c.fasts[n - 1], b);
      BinsShrunkTwice(a.bins, c.bins, b.bins);
    }
  }

  /** Freeing a chunk puts nothing in a small bin. */
  lemma FreeShrinks(a: Lists, p: int, limit: nat, hadFast: bool, b: Lists, haveFast: bool)
    requires |a.bins| == NBINS && FreeStep(a, p, limit, hadFast, b, haveFast)
    ensures BinsShrunk(a.bins, b.bins)
  {
    hide BinsShrunk, TearDown, ReleasedBins;
    BinsShrunkSelf(a.bins);
    if a.m[p].size > limit {
      var c, lo, hi :| LargeFreed(a, p, hadFast, b, haveFast, c, lo, hi);
      var m := a.m[p := Chunk(a.m[p].size, Held)];
      ReleasedShrinks(a.bins, lo, Next(m, p), BeforeTop(m, p));
      ShrunkLength(a.bins, c.bins);
      if hi - lo >= FASTBIN_CONSOLIDATION_THRESHOLD && hadFast {
        TearDownShrinks(c, NFASTBINS, b);
        BinsShrunkTwice(a.bins, c.bins, b.bins);
      }
    }
  }

  lemma GivenBackShrinks(a: Lists, hadFast: bool, q: int, p: int, nb: int, limit: nat, b: Lists, haveFast: bool)
    requires |a.bins| == NBINS && GivenBack(a, hadFast, q, p, nb, limit, b, haveFast)
    ensures BinsShrunk(a.bins, b.bins)
  {
    hide BinsShrunk, FreeStep;
    var c, f :| LeaderFreed(a, hadFast, q, p, limit, c, f) && TailFreed(c, f, p, nb, limit, b, haveFast);
    BinsShrunkSelf(a.bins);
    if p != q { FreeShrinks(a.(m := Split(a.m, q, p - q, Used, Used)), q, limit, hadFast, c, f); }
    ShrunkLength(a.bins, c.bins);
    BinsShrunkSelf(c.bins);
    if c.m[p].size > nb + MINSIZE {
      FreeShrinks(c.(m := Split(c.m, p, nb, Used, Used)), p + nb, limit, f, b, haveFast);
    }
    BinsShrunkTwice(a.bins, c.bins, b.bins);
  }

  // ----- filing -----

  lemma {:induction false} OfBinFrom(m: Arena, l: seq<int>, i: nat, x: int)
    requires x in OfBin(m, l, i)
    ensures x in l && BinFor(SizeOf(m, x)) == i
  {
    if x !in OfBin(m, l[1..], i) {
      assert x == l[0];
    } else {
      OfBinFrom(m, l[1..], i, x);
    }
  }

  lemma UnsortedSized(m: Arena, bins: Bins, s: seq<int>)
    requires Binned(m, bins) && Aligned(m) && forall x | x in s :: x in bins[1]
    ensures forall x | x in s :: ChunkSized(SizeOf(m, x)) && x in m && m[x].kind == Free(1)
  {
    forall x | x in s ensures ChunkSized(SizeOf(m, x)) && x in m && m[x].kind == Free(1) {
      assert x in bins[1] && InBin(m, x);
    }
  }

  /** Filing unsorted chunks feeds the small bins in front; no chunk that is filed was there. */
  lemma FilingQueues(m: Arena, bins: Bins, s: seq<int>, i: nat)
    requires Binned(m, bins) && Aligned(m) && (forall x | x in s :: x in bins[1]) && 2 <= i < NSMALLBINS
    ensures Queued(bins[i], FiledAll(m, bins, s)[i])
    ensures forall x | x in FiledAll(m, bins, s)[i] ::
        x in bins[i] || (x in m && m[x].kind == Free(1) && BinFor(m[x].size) == i)
  {
    hide Queued;
    UnsortedSized(m, bins, s);
    SmallBinFed(m, bins, s, i);
    var n := OfBin(m, s, i);
    forall x | x in n ensures x in m && m[x].kind == Free(1) && BinFor(m[x].size) == i && x !in bins[i] {
      OfBinFrom(m, s, i, x);
    }
    JoinedInFront(n, bins[i]);
  }

  /** A round puts the chunks of a small size that it sorts in front of what their bin held,
      those that became free last first. */
  lemma SortingFeeds(m: Arena, bins: Bins, i: nat)
    requires Binned(m, bins) && Aligned(m) && 2 <= i < NSMALLBINS
    ensures RoundBins(m, bins)[i] == OfBin(m, bins[1][RoundStart(bins[1])..], i) + bins[i]
  {
    hide Binned;
    BinnedLength(m, bins);
    UnsortedSized(m, bins, bins[1][RoundStart(bins[1])..]);
    SmallBinFed(m, bins, bins[1][RoundStart(bins[1])..], i);
  }

  /** What a search leaves of a small bin of the lists it has searched. */
  ghost predicate Left(m: Arena, l: seq<int>, l': seq<int>, i: nat) {
    Queued(l, l') && forall x | x in l' :: x in l || (x in m && m[x].kind == Free(1) && BinFor(m[x].size) == i)
  }

  lemma LeftRemoved(m: Arena, l: seq<int>, l': seq<int>, i: nat, x: int)
    requires Left(m, l, l', i)
    ensures Left(m, l, Removed(l', x), i)
  {
    hide Queued;
    RemovedShrinks(l', x);
    QueuedTwice(l, l', Removed(l', x));
  }

  lemma LeftSelf(m: Arena, l: seq<int>, i: nat)
    ensures Left(m, l, l, i)
  {
  }

  lemma RoundLeft(m: Arena, bins: Bins, i: nat)
    requires Binned(m, bins) && Aligned(m) && 2 <= i < NSMALLBINS
    ensures Left(m, bins[i], RoundBins(m, bins)[i], i)
  {
    hide Binned, Queued;
    BinnedLength(m, bins);
    FilingQueues(m, bins, bins[1][RoundStart(bins[1])..], i);
  }

  lemma BinnedLength(m: Arena, bins: Bins)
    requires Binned(m, bins)
    ensures |bins| == NBINS
  {
  }

  lemma SearchLeft(how: Origin, h: Shape, v: int, nb: int, remainder: int, bins: Bins, fasts: Bins, remainder': int,
        i: nat)
    requires ChunkSized(nb) && Binned(h.m, h.bins) && Aligned(h.m) && 2 <= i < NSMALLBINS
    requires Leaves(how, h, v, nb, remainder, bins, fasts, remainder')
    ensures |bins| == NBINS && Left(h.m, h.bins[i], bins[i], i)
  {
    hide Left, Binned, Picked;
    BinnedLength(h.m, h.bins);
    LeftSelf(h.m, h.bins[i], i);
    match how {
      case FastList =>
      case SmallBin => LeftRemoved(h.m, h.bins[i], h.bins[i], i, v);
      case Unsorted(k) => StopLeft(h.m, h.bins, k, i);
      case SortedBin =>
        RoundLeft(h.m, h.bins, i);
        LeftRemoved(h.m, h.bins[i], RoundBins(h.m, h.bins)[i], i, v);
      case TopChunk => RoundLeft(h.m, h.bins, i);
    }
  }

  lemma LeavesLength(how: Origin, h: Shape, v: int, nb: int, remainder: int, bins: Bins, fasts: Bins, remainder': int)
    requires ChunkSized(nb) && Leaves(how, h, v, nb, remainder, bins, fasts, remainder')
    ensures |bins| == NBINS
  {
    hide Picked;
  }

  lemma StopLeft(m: Arena, bins: Bins, k: nat, i: nat)
    requires Binned(m, bins) && Aligned(m) && k < |bins[1]| && 2 <= i < NSMALLBINS
    ensures Left(m, bins[i], FiledAll(m, bins, bins[1][k + 1..])[i], i)
  {
    hide Binned, Queued;
    BinnedLength(m, bins);
    FilingQueues(m, bins, bins[1][k + 1..], i);
  }

  // ----- a whole search -----

  /** A chunk that was in a small bin does not come back there from the unsorted list once
      the fastbins are torn down: it has grown. */
  lemma NoneComesBack(m: Arena, bins: Bins, h: Shape, base: int, end: int, i: nat, x: int)
    requires Binned(m, bins) && Aligned(m) && Consolidated(m, h, base, end) && 2 <= i < NSMALLBINS
    requires x in bins[i]
    ensures x in h.m && h.m[x].kind == Free(1) ==> BinFor(h.m[x].size) != i
  {
    var t :| Settled(h.m, base, t, end);
    assert m[x].kind == Free(i) && InBin(m, x) && InSortedBin(m, x);
    if x in h.m && h.m[x].kind == Free(1) {
      assert h.m[x].size > m[x].size;
      assert ChunkSized(h.m[x].size) && ChunkSized(m[x].size);
      SameSmallBin(h.m[x].size, m[x].size, i);
    }
  }

  lemma SameSmallBin(a: int, b: int, i: nat)
    requires ChunkSized(a) && ChunkSized(b) && i < NSMALLBINS
    ensures BinFor(a) == i && BinFor(b) == i ==> a == b
  {
    BinIndexRange(a);
    BinIndexRange(b);
  }

  lemma TornDownQueues(a: Lists, m: Arena, bins: Bins, h: Shape, base: int, end: int, i: nat)
    requires Binned(m, bins) && Aligned(m) && |a.bins| == NBINS && TornDown(a, m, h, base, end) && 2 <= i < NSMALLBINS
    requires Left(m, bins[i], a.bins[i], i)
    ensures Queued(bins[i], h.bins[i])
  {
    hide TearDown, Consolidated, Queued;
    TearDownShrinks(a, NFASTBINS, ListsOf(h));
    QueuedTwice(bins[i], a.bins[i], h.bins[i]);
  }

  /** What was searched, of small bin i. */
  lemma SearchedQueues(g: Shape, h: Shape, hadFast: bool, nb: int, remainder: int, base: int, end: int, i: nat)
    requires Binned(g.m, g.bins) && Aligned(g.m) && Searched(g, h, hadFast, nb, remainder, base, end)
    requires 2 <= i < NSMALLBINS
    ensures Binned(h.m, h.bins) && Aligned(h.m) && Queued(g.bins[i], h.bins[i])
    ensures h == g || Consolidated(g.m, h, base, end)
  {
    hide TearDown, Queued, TornDown, RoundFails, Binned, RoundBins, Aligned;
    QueuedSelf(g.bins[i]);
    if h != g {
      if !InSmallbinRange(nb) {
        LeftSelf(g.m, g.bins[i], i);
        TornDownIs(ListsOf(g), g.m, h, base, end);
        TornDownQueues(ListsOf(g), g.m, g.bins, h, base, end, i);
      } else {
        RoundLeft(g.m, g.bins, i);
        TornDownIs(RoundLists(g), g.m, h, base, end);
        TornDownQueues(RoundLists(g), g.m, g.bins, h, base, end, i);
      }
      var t :| Settled(h.m, base, t, end);
    }
  }

  lemma LeftQueues(g: Shape, h: Shape, base: int, end: int, l: seq<int>, i: nat)
    requires Binned(g.m, g.bins) && Aligned(g.m) && Binned(h.m, h.bins) && 2 <= i < NSMALLBINS
    requires Queued(g.bins[i], h.bins[i]) && (h == g || Consolidated(g.m, h, base, end))
    requires Left(h.m, h.bins[i], l, i)
    ensures Queued(g.bins[i], l)
  {
    hide Consolidated, Queued;
    forall x | x in g.bins[i] && x in l ensures x in h.bins[i] {
      if h != g { NoneComesBack(g.m, g.bins, h, base, end, i, x); }
    }
    QueuedTwice(g.bins[i], h.bins[i], l);
  }

  /** Serving a request keeps the small bins queues. */
  lemma ServingQueues(g: Shape, hadFast: bool, v: int, nb: int, limit: nat, remainder: int, base: int, end: int,
        bins: Bins, fasts: Bins, remainder': int)
    requires ChunkSized(nb) && Binned(g.m, g.bins) && Aligned(g.m)
    requires WellServed(g, hadFast, v, nb, limit, remainder, base, end, bins, fasts, remainder')
    ensures BinsQueued(g.bins, bins)
  {
    hide Searched, Chosen, Leaves, Queued, Binned, Aligned, Left, Consolidated;
    var how, h :| Searched(g, h, hadFast, nb, remainder, base, end) && Chosen(how, h, v, nb, limit, remainder) &&
      (AtOnce(how) ==> h == g) && Leaves(how, h, v, nb, remainder, bins, fasts, remainder');
    BinnedLength(g.m, g.bins);
    LeavesLength(how, h, v, nb, remainder, bins, fasts, remainder');
    forall i | 2 <= i < NSMALLBINS ensures Queued(g.bins[i], bins[i]) {
      SearchedQueues(g, h, hadFast, nb, remainder, base, end, i);
      SearchLeft(how, h, v, nb, remainder, bins, fasts, remainder', i);
      LeftQueues(g, h, base, end, bins[i], i);
    }
  }

  /** So does a search that finds nothing. */
  lemma FailingQueues(g: Shape, hadFast: bool, nb: int, remainder: int, base: int, end: int, bins: Bins)
    requires Binned(g.m, g.bins) && Aligned(g.m) && NotServed(g, hadFast, nb, remainder, base, end, bins)
    ensures BinsQueued(g.bins, bins)
  {
    hide Searched, Queued, Binned, Aligned, Left, Consolidated, RoundBins;
    var h :| Searched(g, h, hadFast, nb, remainder, base, end) && Failed(h, hadFast, nb, remainder, bins);
    BinnedLength(g.m, g.bins);
    forall i | 2 <= i < NSMALLBINS ensures Queued(g.bins[i], bins[i]) {
      SearchedQueues(g, h, hadFast, nb, remainder, base, end, i);
      RoundLeft(h.m, h.bins, i);
      LeftQueues(g, h, base, end, bins[i], i);
    }
  }

  lemma QueuedThenShrunk(bins: Bins, bins': Bins, bins'': Bins)
    requires BinsQueued(bins, bins') && BinsShrunk(bins', bins'')
    ensures BinsQueued(bins, bins'')
  {
    hide Queued;
    forall i | 2 <= i < NSMALLBINS ensures Queued(bins[i], bins''[i]) { QueuedTwice(bins[i], bins'[i], bins''[i]); }
  }

  // ----- first in, first out -----

  /** A small request is served the last chunk of its small bin whenever that has one and the
      fastbin of the size has none. */
  lemma LastIsServed(g: Shape, hadFast: bool, v: int, nb: int, limit: nat, remainder: int, base: int, end: int)
    requires ChunkSized(nb) && InSmallbinRange(nb) && Binned(g.m, g.bins) && FastEmptyFor(g.fasts, nb, limit)
    requires g.bins[SmallbinIndex(nb)] != [] && WellChosen(g, hadFast, v, nb, limit, remainder, base, end)
    ensures var l := g.bins[SmallbinIndex(nb)]; v == l[|l| - 1]
  {
    hide TornDown, TearDown, RoundChoice, RoundFails;
    var how, h :| Searched(g, h, hadFast, nb, remainder, base, end) && Chosen(how, h, v, nb, limit, remainder) &&
      (AtOnce(how) ==> h == g);
    NoRoundFails(g, nb, remainder);
  }

  /** And it is served then. */
  lemma LastWouldBeServed(g: Shape, hadFast: bool, nb: int, remainder: int, base: int, end: int, bins: Bins)
    requires ChunkSized(nb) && InSmallbinRange(nb) && Binned(g.m, g.bins)
    requires g.bins[SmallbinIndex(nb)] != []
    ensures !NotServed(g, hadFast, nb, remainder, base, end, bins)
  {
    hide TornDown, TearDown, RoundBins, RoundFails;
    NoRoundFails(g, nb, remainder);
  }

  /** No round fails while there is a chunk in the small bin of the size. */
  lemma NoRoundFails(g: Shape, nb: int, remainder: int)
    requires ChunkSized(nb) && InSmallbinRange(nb) && Binned(g.m, g.bins) && g.bins[SmallbinIndex(nb)] != []
    ensures !RoundFails(g.m, g.bins[1], nb, remainder)
  {
    var x := g.bins[SmallbinIndex(nb)][0];
    SmallBinSize(g.m, g.bins, nb, x);
    SortedStays(g.m, g.bins, RoundStart(g.bins[1]), x);
    assert !NoneLarge(RoundArena(g.m, g.bins[1]), nb);
  }

  lemma SmallBinSize(m: Arena, bins: Bins, nb: int, x: int)
    requires ChunkSized(nb) && InSmallbinRange(nb) && Binned(m, bins) && x in bins[SmallbinIndex(nb)]
    ensures InSortedBin(m, x) && m[x].size >= nb
  {
    BinIndexRange(nb);
    assert InBin(m, x) && m[x].kind == Free(SmallbinIndex(nb));
  }

  /** In a history of queues the last chunk of a bin has been there for as long as any other:
      it is the one that joined first. */
  lemma {:induction false} LastJoinedFirst(history: seq<Shape>, i: nat, y: int, t: nat)
    requires t < |history| && 2 <= i < NSMALLBINS
    requires forall s | 0 <= s < |history| - 1 :: BinsQueued(history[s].bins, history[s + 1].bins)
    requires forall s | t <= s < |history| :: |history[s].bins| == NBINS && y in history[s].bins[i]
    ensures var l := history[|history| - 1].bins[i]; forall s | t <= s < |history| :: l[|l| - 1] in history[s].bins[i]
  {
    var l := history[|history| - 1].bins[i];
    var v := l[|l| - 1];
    var s := |history| - 1;
    LastBehind(l, y);
    while s > t
      invariant t <= s < |history| && (y == v || Before(history[s].bins[i], y, v))
      invariant forall r | s <= r < |history| :: v in history[r].bins[i]
    {
      s := s - 1;
      assert BinsQueued(history[s].bins, history[s + 1].bins);
      QueueBack(history[s].bins[i], history[s + 1].bins[i], y, v);
    }
  }

  lemma LastBehind(l: seq<int>, y: int)
    requires y in l
    ensures y == l[|l| - 1] || Before(l, y, l[|l| - 1])
  {
    var a :| 0 <= a < |l| && l[a] == y;
    if a < |l| - 1 { assert l[|l| - 1] == l[|l| - 1]; }
  }

  lemma QueueBack(l: seq<int>, l': seq<int>, y: int, v: int)
    requires Queued(l, l') && y in l && (y == v || Before(l', y, v))
    ensures v in l && (y == v || Before(l, y, v))
  {
    if y != v {
      var a, b :| 0 <= a < b < |l'| && l'[a] == y && l'[b] == v;
      assert Before(l, l'[a], l'[b]);
    }
  }
}
