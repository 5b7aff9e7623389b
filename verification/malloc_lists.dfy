/**
  What the steps of the allocator do to its lists, as functions of the lists there were:
  taking a chunk off its bin, filing unsorted chunks, releasing, tearing down fastbins.
 */
module ChunkLists {
  import opened MallocSizes
  import opened ArenaModel
  import opened LinkedRings
  import opened FreeStore

  /** The chunk space, the bins and the fastbins. */
  datatype Lists = Lists(m: Arena, bins: Bins, fasts: Bins)

  // ----- taking a chunk off -----

  function Removed(l: seq<int>, x: int): seq<int> {
    if l == [] then []
    else if l[0] == x then Removed(l[1..], x)
    else [l[0]] + Removed(l[1..], x)
  }

  /** No list has x any more. */
  function RemovedFrom(bins: Bins, x: int): (r: Bins)
    ensures |r| == |bins|
  {
    seq(|bins|, i requires 0 <= i < |bins| => Removed(bins[i], x))
  }

  lemma {:induction false} RemovedNone(l: seq<int>, x: int)
    requires x !in l
    ensures Removed(l, x) == l
  {
    if l != [] { RemovedNone(l[1..], x); }
  }

  /** Taking the k-th element out is removing it. */
  lemma {:induction false} WithoutIsRemoved(l: seq<int>, k: nat)
    requires NoDup(l) && k < |l|
    ensures Without(l, k) == Removed(l, l[k])
  {
    if k == 0 {
      RemovedNone(l[1..], l[0]);
    } else {
      assert l[1..][k - 1] == l[k];
      WithoutIsRemoved(l[1..], k - 1);
    }
  }

  lemma UnbinnedIs(m: Arena, bins: Bins, i: nat, k: nat)
    requires Binned(m, bins) && i < NBINS && k < |bins[i]|
    ensures bins[i := Without(bins[i], k)] == RemovedFrom(bins, bins[i][k])
  {
    var x := bins[i][k];
    assert x in bins[i];
    WithoutIsRemoved(bins[i], k);
    forall j | 0 <= j < NBINS && j != i ensures Removed(bins[j], x) == bins[j] {
      assert m[x].kind == Free(i);
      RemovedNone(bins[j], x);
    }
  }

  lemma UnbinnedNone(m: Arena, bins: Bins, x: int)
    requires Binned(m, bins) && !InBin(m, x)
    ensures RemovedFrom(bins, x) == bins
  {
    forall j | 0 <= j < NBINS ensures Removed(bins[j], x) == bins[j] {
      RemovedNone(bins[j], x);
    }
  }

  // ----- filing chunks in the bins of their sizes -----

  /** Where a chunk of this size goes in a bin of descending sizes: in front of the first
      that is smaller, but second among its own size. */
  function Place(m: Arena, l: seq<int>, size: int): (k: nat)
    ensures k <= |l|
  {
    if l == [] || SizeOf(m, l[0]) < size then 0
    else if SizeOf(m, l[0]) == size then 1
    else 1 + Place(m, l[1..], size)
  }

  function BinFor(size: int): nat {
    BinIndex(if size >= 0 then size else 0)
  }

  /** Chunk x joins the bin of its size: a small bin at its front, a large one at its place. */
  function Filed(m: Arena, bins: Bins, x: int): (r: Bins)
    ensures |r| == |bins|
  {
    var size := SizeOf(m, x);
    var i := BinFor(size);
    if i >= |bins| then bins
    else if InSmallbinRange(size) then bins[i := [x] + bins[i]]
    else bins[i := With(bins[i], Place(m, bins[i], size), x)]
  }

  lemma WithFront(l: seq<int>, x: int)
    ensures With(l, 0, x) == [x] + l
  {
  }

  /** The chunks of l are filed, the last of them first. */
  function FiledAll(m: Arena, bins: Bins, l: seq<int>): (r: Bins)
    ensures |r| == |bins|
  {
    if l == [] then bins else Filed(m, FiledAll(m, bins, l[1..]), l[0])
  }

  /** The chunks of l that belong in bin i, in their order. */
  function OfBin(m: Arena, l: seq<int>, i: nat): seq<int> {
    if l == [] then []
    else (if BinFor(SizeOf(m, l[0])) == i then [l[0]] else []) + OfBin(m, l[1..], i)
  }

  lemma SmallBinFiled(m: Arena, bins: Bins, x: int, i: nat)
    requires 2 <= i < NSMALLBINS && |bins| == NBINS && ChunkSized(SizeOf(m, x))
    ensures Filed(m, bins, x)[i] == OfBin(m, [x], i) + bins[i]
  {
    hide BinIndex, Place;
    BinIndexRange(SizeOf(m, x));
    assert [x][1..] == [];
    if BinFor(SizeOf(m, x)) != i { assert OfBin(m, [x], i) + bins[i] == bins[i]; }
  }

  lemma OfBinStep(m: Arena, l: seq<int>, i: nat)
    requires l != []
    ensures OfBin(m, l, i) == OfBin(m, [l[0]], i) + OfBin(m, l[1..], i)
  {
    assert [l[0]][1..] == [];
  }

  /** Filing a list puts its chunks of a small size in front of that bin, in their order:
      those unsorted last in front of those unsorted first, and these in front of all that
      the bin held. */
  lemma {:induction false} SmallBinFed(m: Arena, bins: Bins, l: seq<int>, i: nat)
    requires 2 <= i < NSMALLBINS && |bins| == NBINS && forall x | x in l :: ChunkSized(SizeOf(m, x))
    ensures FiledAll(m, bins, l)[i] == OfBin(m, l, i) + bins[i]
  {
    if l == [] {
    } else {
      hide Filed, OfBin;
      assert l[0] in l;
      SmallBinFed(m, bins, l[1..], i);
      SmallBinFiled(m, FiledAll(m, bins, l[1..]), l[0], i);
      OfBinStep(m, l, i);
    }
  }

  /** The place in a descending bin: behind the first chunk of the size if there is one, and
      else between the larger ones and the smaller ones. */
  lemma {:induction false} PlaceIs(m: Arena, l: seq<int>, k: nat, size: int)
    requires k <= |l| && forall a | 0 <= a < k :: SizeOf(m, l[a]) > size
    ensures k == |l| || SizeOf(m, l[k]) < size ==> Place(m, l, size) == k
    ensures k < |l| && SizeOf(m, l[k]) == size ==> Place(m, l, size) == k + 1
    decreases k
  {
    if k > 0 {
      assert SizeOf(m, l[0]) > size;
      assert forall a | 0 <= a < k - 1 :: l[1..][a] == l[a + 1];
      PlaceIs(m, l[1..], k - 1, size);
    }
  }

  lemma PlaceAt(m: Arena, l: seq<int>, k: nat, size: int)
    requires Descending(m, l) && k <= |l| && (k > 0 ==> SizeOf(m, l[k - 1]) > size)
    ensures k == |l| || SizeOf(m, l[k]) < size ==> Place(m, l, size) == k
    ensures k < |l| && SizeOf(m, l[k]) == size ==> Place(m, l, size) == k + 1
  {
    forall a | 0 <= a < k ensures SizeOf(m, l[a]) > size {
      if a < k - 1 { assert SizeOf(m, l[a]) >= SizeOf(m, l[k - 1]); }
    }
    PlaceIs(m, l, k, size);
  }

  /** Filing a chunk changes the order of no other chunks. */
  lemma FiledKeeps(m: Arena, bins: Bins, x: int, i: nat)
    requires i < |bins| && x !in bins[i] && NoDup(bins[i])
    ensures Removed(Filed(m, bins, x)[i], x) == bins[i]
  {
    var l := Filed(m, bins, x)[i];
    if l == bins[i] {
      RemovedNone(l, x);
    } else {
      var k := if InSmallbinRange(SizeOf(m, x)) then 0 else Place(m, bins[i], SizeOf(m, x));
      assert l == With(bins[i], k, x);
      WithNoDup(bins[i], k, x);
      WithoutIsRemoved(l, k);
      assert Without(l, k) == bins[i];
    }
  }

  /** Only the sizes of chunks count. */
  lemma {:induction false} PlaceSame(m: Arena, m': Arena, l: seq<int>, size: int)
    requires forall x :: SizeOf(m', x) == SizeOf(m, x)
    ensures Place(m', l, size) == Place(m, l, size)
  {
    if l != [] && SizeOf(m, l[0]) > size {
      PlaceSame(m, m', l[1..], size);
    } else if l != [] {
      assert SizeOf(m', l[0]) == SizeOf(m, l[0]);
    }
  }

  lemma FiledSame(m: Arena, m': Arena, bins: Bins, x: int)
    requires forall x :: SizeOf(m', x) == SizeOf(m, x)
    ensures Filed(m', bins, x) == Filed(m, bins, x)
  {
    hide BinIndex, Place;
    var size, i := SizeOf(m, x), BinFor(SizeOf(m, x));
    assert SizeOf(m', x) == size;
    if i < |bins| { PlaceSame(m, m', bins[i], size); }
  }

  /** Filing leaves the unsorted list alone, and is not concerned with it. */
  lemma FiledBesides(m: Arena, bins: Bins, x: int, s: seq<int>)
    requires |bins| > 1 && ChunkSized(SizeOf(m, x))
    ensures Filed(m, bins, x)[1] == bins[1] && Filed(m, bins[1 := s], x) == Filed(m, bins, x)[1 := s]
  {
    hide BinIndex, Place;
    BinIndexRange(SizeOf(m, x));
  }

  // ----- releasing -----

  /** The bins once chunk p, which starts in lo when it is released and is followed by next,
      has been joined with them. */
  function ReleasedBins(bins: Bins, lo: int, next: int, intoTop: bool): Bins {
    var b := RemovedFrom(RemovedFrom(bins, lo), next);
    if intoTop || |b| < 2 then b else b[1 := [lo] + b[1]]
  }

  predicate BeforeTop(m: Arena, p: int)
    requires p in m
  {
    Next(m, p) in m && m[Next(m, p)].kind == Top
  }

  /** Chunk p and its free neighbours, taken off their bins, become one chunk, which goes to
      the front of the unsorted list; next to top it becomes top. */
  ghost predicate ReleaseStep(a: Lists, p: int, b: Lists) {
    exists lo, hi :: ReleasedAt(a, p, b, lo, hi)
  }

  ghost predicate ReleasedAt(a: Lists, p: int, b: Lists, lo: int, hi: int) {
    && ReleaseSpan(a.m, p, lo, hi) && b.fasts == a.fasts
    && b.m == Merged(a.m, lo, hi, if BeforeTop(a.m, p) then Top else Free(1))
    && b.bins == ReleasedBins(a.bins, lo, Next(a.m, p), BeforeTop(a.m, p))
  }

  lemma ReleasedAtIs(a: Lists, p: int, b: Lists, base: int, top: int, end: int, lo: int, size: int, top': int)
    requires Space(a.m, base, top, end) && p != top && ReleaseSpan(a.m, p, lo, lo + size)
    requires Released(a.m, b.m, p, lo, size, top') && b.fasts == a.fasts
    requires top' == if Next(a.m, p) == top then lo else top
    requires b.bins == ReleasedBins(a.bins, lo, Next(a.m, p), Next(a.m, p) == top)
    ensures ReleasedAt(a, p, b, lo, lo + size)
  {
    hide ReleasedBins, Merged;
    assert BeforeTop(a.m, p) <==> Next(a.m, p) == top;
    assert lo <= p < top;
  }

  /** There is one outcome. */
  lemma ReleasedOnce(a: Lists, p: int, b: Lists, c: Lists, base: int, top: int, end: int)
    requires Space(a.m, base, top, end) && ReleaseStep(a, p, b) && ReleaseStep(a, p, c)
    ensures b == c
  {
    hide ReleasedBins, Merged;
    var lo, hi :| ReleasedAt(a, p, b, lo, hi);
    var lo', hi' :| ReleasedAt(a, p, c, lo', hi');
    SpanOnce(a.m, base, top, end, p, lo, hi, lo', hi');
  }

  /** The chunks of l are released, in this order. */
  ghost predicate ReleaseSteps(a: Lists, l: seq<int>, b: Lists)
    decreases |l|
  {
    if l == [] then b == a
    else exists c {:trigger ReleaseStep(c, l[|l| - 1], b)} ::
      ReleaseSteps(a, l[..|l| - 1], c) && ReleaseStep(c, l[|l| - 1], b)
  }

  /** The first n fastbins are torn down, one after the other; the chunks of each are
      released, the one freed last first. */
  ghost predicate TearDown(a: Lists, n: nat, b: Lists)
    decreases n
  {
    if n == 0 then b == a
    else exists c :: TearDown(a, n - 1, c) && n <= |c.fasts| && ReleaseSteps(Emptied(c, n - 1), c.fasts[n - 1], b)
  }

  /** What freeing chunk p does: a small chunk goes in front of its fastbin; any other is
      released, and the fastbins are torn down then if that makes 64k bytes. */
  ghost predicate FreeStep(a: Lists, p: int, limit: nat, hadFast: bool, b: Lists, haveFast: bool) {
    && p in a.m && a.m[p].size >= 0
    && if a.m[p].size <= limit then
         var i := FastbinIndex(a.m[p].size);
         && haveFast && 0 <= i < |a.fasts|
         && b == Lists(a.m[p := Chunk(a.m[p].size, Fast(i))], a.bins, a.fasts[i := [p] + a.fasts[i]])
       else exists c, lo, hi :: LargeFreed(a, p, hadFast, b, haveFast, c, lo, hi)
  }

  ghost predicate LargeFreed(a: Lists, p: int, hadFast: bool, b: Lists, haveFast: bool, c: Lists, lo: int, hi: int)
    requires p in a.m
  {
    && ReleasedAt(a.(m := a.m[p := Chunk(a.m[p].size, Held)]), p, c, lo, hi)
    && if hi - lo >= FASTBIN_CONSOLIDATION_THRESHOLD && hadFast then !haveFast && TearDown(c, NFASTBINS, b)
       else haveFast == hadFast && b == c
  }

  lemma LargeFreedAs(a: Lists, p: int, limit: nat, hadFast: bool, b: Lists, haveFast: bool, c: Lists, lo: int, hi: int)
    requires p in a.m && a.m[p].size > limit && LargeFreed(a, p, hadFast, b, haveFast, c, lo, hi)
    ensures FreeStep(a, p, limit, hadFast, b, haveFast)
  {
  }

  /** What memalign does to a chunk of which q starts and p serves nb bytes: the part before
      p is freed, and then the part behind nb bytes if it is more than a minimal chunk. */
  ghost predicate GivenBack(a: Lists, hadFast: bool, q: int, p: int, nb: int, limit: nat, b: Lists, haveFast: bool) {
    exists c, f :: LeaderFreed(a, hadFast, q, p, limit, c, f) && TailFreed(c, f, p, nb, limit, b, haveFast)
  }

  ghost predicate LeaderFreed(a: Lists, hadFast: bool, q: int, p: int, limit: nat, b: Lists, haveFast: bool) {
    if p == q then b == a && haveFast == hadFast
    else q in a.m && FreeStep(a.(m := Split(a.m, q, p - q, Used, Used)), q, limit, hadFast, b, haveFast)
  }

  lemma LeaderNone(a: Lists, hadFast: bool, q: int, limit: nat)
    ensures LeaderFreed(a, hadFast, q, q, limit, a, hadFast)
  {
  }

  ghost predicate TailFreed(a: Lists, hadFast: bool, p: int, nb: int, limit: nat, b: Lists, haveFast: bool) {
    && p in a.m
    && if a.m[p].size > nb + MINSIZE then
         FreeStep(a.(m := Split(a.m, p, nb, Used, Used)), p + nb, limit, hadFast, b, haveFast)
       else b == a && haveFast == hadFast
  }

  ghost function Emptied(a: Lists, i: nat): Lists
    requires i < |a.fasts|
  {
    Lists(Detached(a.m, i), a.bins, a.fasts[i := []])
  }

  lemma ReleaseNone(a: Lists)
    ensures ReleaseSteps(a, [], a)
  {
  }

  lemma TearDownNone(a: Lists)
    ensures TearDown(a, 0, a)
  {
  }

  lemma ReleaseMore(a: Lists, l: seq<int>, b: Lists, p: int, c: Lists, lo: int, hi: int)
    requires ReleaseSteps(a, l, b) && ReleasedAt(b, p, c, lo, hi)
    ensures ReleaseSteps(a, l + [p], c)
  {
    hide ReleasedAt;
    var l' := l + [p];
    assert ReleaseStep(b, p, c);
    assert l'[..|l'| - 1] == l && l'[|l'| - 1] == p;
  }

  lemma TearDownMore(a: Lists, n: nat, b: Lists, c: Lists)
    requires TearDown(a, n, b) && n < |b.fasts| && ReleaseSteps(Emptied(b, n), b.fasts[n], c)
    ensures TearDown(a, n + 1, c)
  {
  }
}
