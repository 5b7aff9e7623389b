/**
  The binned free store: 127 rings of free chunks (ring 1 unsorted, the others one
  size class each), the ring of distinct sizes that shortcuts each large bin, the
  bitmap that over-approximates the non-empty bins, and the fastbin lists.

  bins[i] lists the chunks of bin i from its header's fd on; firsts[i] lists the
  first chunk of each size in a large bin.  The header of bin i is address i.
 */
module FreeStore {
  import opened MallocSizes
  import opened ArenaModel
  import opened LinkedRings
  import opened BinmapWord

  type Bins = seq<seq<int>>

  function SizeOf(m: Arena, x: int): int {
    if x in m then m[x].size else 0
  }

  ghost predicate InBin(m: Arena, x: int) {
    x in m && m[x].kind.Free? && m[x].kind.bin > 0
  }

  ghost predicate Descending(m: Arena, l: seq<int>) {
    forall j, k | 0 <= j < k < |l| :: SizeOf(m, l[j]) >= SizeOf(m, l[k])
  }

  /** Bin i holds exactly the chunks of the arena marked Free(i), each once; a
      sorted bin holds its own size class in descending order. */
  ghost predicate Binned(m: Arena, bins: Bins) {
    && |bins| == NBINS && bins[0] == []
    && (forall i | 0 <= i < NBINS :: NoDup(bins[i]))
    && (forall i, x | 0 <= i < NBINS && x in bins[i] :: x in m && m[x].kind == Free(i))
    && (forall x | InBin(m, x) :: m[x].kind.bin < NBINS && x in bins[m[x].kind.bin])
    && (forall x | InBin(m, x) :: m[x].size >= MINSIZE && (m[x].kind.bin > 1 ==> BinIndex(m[x].size) == m[x].kind.bin))
    && (forall i | 2 <= i < NBINS :: Descending(m, bins[i]))
  }

  ghost predicate LinkedBins(fd: Links, bk: Links, bins: Bins) {
    |bins| == NBINS && forall i | 1 <= i < NBINS :: Ring(fd, bk, [i] + bins[i])
  }

  ghost predicate FirstOfSize(m: Arena, l: seq<int>, k: nat)
    requires k < |l|
  {
    k == 0 || SizeOf(m, l[k - 1]) != SizeOf(m, l[k])
  }

  /** f lists the first chunk of each distinct size of l, largest first. */
  ghost predicate Firsts(m: Arena, l: seq<int>, f: seq<int>) {
    && NoDup(f)
    && (forall j, k | 0 <= j < k < |f| :: SizeOf(m, f[j]) > SizeOf(m, f[k]))
    && (forall x | x in f :: x in l)
    && (forall k | 0 <= k < |l| :: l[k] in f <==> FirstOfSize(m, l, k))
  }

  /** The first chunks of each size form a ring of their own; every other chunk of l
      is marked as off that ring. */
  ghost predicate SizeRing(m: Arena, fdn: Links, bkn: Links, l: seq<int>, f: seq<int>) {
    Ring(fdn, bkn, f) && Firsts(m, l, f) && Followers(fdn, bkn, l, f)
  }

  /** Both size links are null. */
  ghost predicate NoSizeLinks(fdn: Links, bkn: Links, x: int) {
    x in fdn && fdn[x] == 0 && x in bkn && bkn[x] == 0
  }

  ghost predicate Followers(fdn: Links, bkn: Links, l: seq<int>, f: seq<int>) {
    forall x | x in l && x !in f :: NoSizeLinks(fdn, bkn, x)
  }

  ghost predicate SizeRings(m: Arena, fdn: Links, bkn: Links, bins: Bins, firsts: Bins) {
    && |bins| == NBINS && |firsts| == NBINS
    && (forall i | NSMALLBINS <= i < NBINS :: SizeRing(m, fdn, bkn, bins[i], firsts[i]))
    && (forall x | x in bins[1] && !InSmallbinRange(SizeOf(m, x)) :: NoSizeLinks(fdn, bkn, x))
  }

  predicate BitOf(binmap: seq<nat>, i: nat)
    requires |binmap| == 4 && i < 128
  {
    TestBit(binmap[i / 32], i % 32)
  }

  /** A clear bit means an empty bin. */
  ghost predicate Bitmap(binmap: seq<nat>, bins: Bins) {
    && |bins| == NBINS && |binmap| == 4
    && (forall w | 0 <= w < 4 :: binmap[w] < WORD)
    && (forall i | 2 <= i < NBINS && bins[i] != [] :: BitOf(binmap, i))
  }

  /** h starts a null-terminated list through fd of exactly l. */
  ghost predicate Chain(fd: Links, h: int, l: seq<int>)
    decreases l
  {
    if l == [] then h == 0
    else h == l[0] && h in fd && Chain(fd, fd[h], l[1..])
  }

  ghost predicate FastLists(m: Arena, fd: Links, fast: seq<int>, fasts: Bins) {
    && |fast| == NFASTBINS && |fasts| == NFASTBINS
    && (forall i | 0 <= i < NFASTBINS :: NoDup(fasts[i]) && Chain(fd, fast[i], fasts[i]))
    && (forall i, x | 0 <= i < NFASTBINS && x in fasts[i] :: x in m && m[x].kind == Fast(i))
    && (forall x | x in m && m[x].kind.Fast? :: m[x].kind.idx < NFASTBINS && x in fasts[m[x].kind.idx])
    && (forall x | x in m && m[x].kind.Fast? :: m[x].size >= MINSIZE && FastbinIndex(m[x].size) == m[x].kind.idx)
  }

  ghost predicate NoFast(m: Arena) {
    forall x | x in m :: !m[x].kind.Fast?
  }

  /** No chunk above this size waits in a fastbin. */
  ghost predicate FastWithin(m: Arena, limit: int) {
    forall x | x in m && m[x].kind.Fast? :: m[x].size <= limit
  }

  lemma NoneWithin(m: Arena, limit: int)
    requires NoFast(m)
    ensures FastWithin(m, limit)
  {
  }

  /** A chunk that joins its fastbin does not exceed the limit. */
  lemma PushedWithin(m: Arena, p: int, i: nat, used: bool, limit: nat)
    requires FastWithin(m, if used then limit else 0) && p in m && m[p].size <= limit
    ensures FastWithin(m[p := Chunk(m[p].size, Fast(i))], limit)
  {
  }

  lemma ZeroWithin(m: Arena, fd: Links, fast: seq<int>, fasts: Bins)
    requires FastLists(m, fd, fast, fasts) && FastWithin(m, 0)
    ensures NoFast(m)
  {
  }

  /** No chunk has joined a fastbin. */
  ghost predicate FastLess(m: Arena, m': Arena) {
    forall limit: int | FastWithin(m, limit) :: FastWithin(m', limit)
  }

  /** The link words of chunks in use are left alone. */
  ghost predicate SameLinks(m: Arena, fd: Links, fd': Links) {
    forall x | x in m && InUse(m[x].kind) && x in fd :: x in fd' && fd'[x] == fd[x]
  }

  lemma SameLinksTwice(m1: Arena, m2: Arena, fd0: Links, fd1: Links, fd2: Links)
    requires SameLinks(m1, fd0, fd1) && (fd1 == fd2 || SameLinks(m2, fd1, fd2)) && Kept(m2).Keys <= Kept(m1).Keys
    ensures SameLinks(m2, fd0, fd2)
  {
    forall x | x in m2 && InUse(m2[x].kind) && x in fd0 ensures x in fd2 && fd2[x] == fd0[x] {
      assert x in Kept(m2) && x in Kept(m1);
    }
  }

  lemma SameLinksSelf(m: Arena, fd: Links)
    ensures SameLinks(m, fd, fd)
  {
  }

  // ----- taking a chunk off its bin -----

  lemma TakeBinned(m: Arena, bins: Bins, i: nat, k: nat)
    requires Binned(m, bins) && 0 < i < NBINS && k < |bins[i]|
    ensures bins[i][k] in m
    ensures Binned(m[bins[i][k] := Chunk(m[bins[i][k]].size, Free(0))], bins[i := Without(bins[i], k)])
  {
    hide NoDup, Descending, Without;
    var p := bins[i][k];
    assert p in bins[i];
    var m', bins' := m[p := Chunk(m[p].size, Free(0))], bins[i := Without(bins[i], k)];
    WithoutNoDup(bins[i], k);
    forall x | InBin(m', x) ensures m'[x].kind.bin < NBINS && x in bins'[m'[x].kind.bin] { assert InBin(m, x); }
    forall j | 2 <= j < NBINS ensures Descending(m', bins'[j]) {
      WithoutDescending(m, bins[i], k);
      DescendingFrame(m, m', bins'[j]);
    }
  }

  lemma WithoutDescending(m: Arena, l: seq<int>, k: nat)
    requires k < |l|
    ensures Descending(m, l) ==> Descending(m, Without(l, k))
  {
  }

  lemma HeaderNoDup(m: Arena, bins: Bins, i: nat)
    requires Binned(m, bins) && i < NBINS && (forall x | x in m :: x >= NBINS)
    ensures NoDup([i] + bins[i])
  {
    var c := [i] + bins[i];
    assert NoDup(bins[i]);
    forall j, k | 0 <= j < k < |c| ensures c[j] != c[k] {
      assert c[k] == bins[i][k - 1] && c[k] in bins[i];
      if j > 0 { assert c[j] == bins[i][j - 1]; } else { assert c[j] == i && c[k] in m; }
    }
  }

  lemma TakeLinked(fd: Links, bk: Links, m: Arena, bins: Bins, i: nat, k: nat)
    requires Binned(m, bins) && LinkedBins(fd, bk, bins) && 0 < i < NBINS && k < |bins[i]|
    requires forall x | x in m :: x >= NBINS
    ensures Joined(fd, bk, [i] + bins[i], k + 1)
    ensures var p := bins[i][k];
            LinkedBins(fd[bk[p] := fd[p]], bk[fd[p] := bk[p]], bins[i := Without(bins[i], k)])
  {
    var p, c := bins[i][k], [i] + bins[i];
    assert p in bins[i] && p in m;
    assert Ring(fd, bk, c);
    HeaderNoDup(m, bins, i);
    RingWithout(fd, bk, c, k + 1);
    assert c[k + 1] == p && Without(c, k + 1) == [i] + Without(bins[i], k);
    var fd', bk' := fd[bk[p] := fd[p]], bk[fd[p] := bk[p]];
    forall j | 1 <= j < NBINS && j != i ensures Ring(fd', bk', [j] + bins[j]) {
      OtherBin(m, bins, fd, bk, fd', bk', i, j, p);
    }
  }

  /** The ring of bin j survives writes to the ring of another bin and to a chunk p
      that is in no bin. */
  lemma OtherBin(m: Arena, bins: Bins, fd: Links, bk: Links, fd': Links, bk': Links, i: nat, j: nat, p: int)
    requires Binned(m, bins) && 0 < i < NBINS && 0 < j < NBINS && i != j
    requires (forall x | x in m :: x >= NBINS) && p >= NBINS && (InBin(m, p) ==> p in bins[i])
    requires forall x | x in fd && x != i && x !in bins[i] && x != p :: x in fd' && fd'[x] == fd[x]
    requires forall x | x in bk && x != i && x !in bins[i] && x != p :: x in bk' && bk'[x] == bk[x]
    requires Ring(fd, bk, [j] + bins[j])
    ensures Ring(fd', bk', [j] + bins[j])
  {
    var c := [j] + bins[j];
    assert forall y | y in bins[i] :: y in m && m[y].kind == Free(i);
    forall x | x in c ensures x != i && x !in bins[i] && x != p {
      if x != j { assert x in bins[j] && m[x].kind == Free(j) && InBin(m, x); }
    }
    RingFrame(fd, bk, fd', bk', c);
  }

  // ----- the ring of distinct sizes -----

  lemma SizeRingFrame(m: Arena, m': Arena, fdn: Links, bkn: Links, fdn': Links, bkn': Links, l: seq<int>, f: seq<int>)
    requires SizeRing(m, fdn, bkn, l, f)
    requires forall x | x in l :: SizeOf(m', x) == SizeOf(m, x)
    requires forall x | x in l && x in fdn :: x in fdn' && fdn'[x] == fdn[x]
    requires forall x | x in l && x in bkn :: x in bkn' && bkn'[x] == bkn[x]
    ensures SizeRing(m', fdn', bkn', l, f)
  {
    RingFrame(fdn, bkn, fdn', bkn', f);
    FirstsFrame(m, m', l, f);
  }

  lemma FirstsFrame(m: Arena, m': Arena, l: seq<int>, f: seq<int>)
    requires Firsts(m, l, f) && forall x | x in l :: SizeOf(m', x) == SizeOf(m, x)
    ensures Firsts(m', l, f)
  {
    forall j, k | 0 <= j < k < |f| ensures SizeOf(m', f[j]) > SizeOf(m', f[k]) {
      assert f[j] in f && f[k] in f;
    }
    forall k | 0 <= k < |l| ensures l[k] in f <==> FirstOfSize(m', l, k) {
      assert l[k] in l && (k > 0 ==> l[k - 1] in l);
      assert l[k] in f <==> FirstOfSize(m, l, k);
    }
  }

  /** A null size link is what tells a follower from a first chunk. */
  lemma SizeRingMark(m: Arena, fdn: Links, bkn: Links, l: seq<int>, f: seq<int>, x: int)
    requires SizeRing(m, fdn, bkn, l, f) && x in l && forall y | y in l :: y != 0
    ensures x in fdn && (fdn[x] == 0 <==> x !in f)
    ensures x in f ==> x in bkn && fdn[x] in f && bkn[x] in f
  {
    if x in f {
      var j :| 0 <= j < |f| && f[j] == x;
      assert Joined(fdn, bkn, f, j);
      assert After(f, j) in f && Before(f, j) in f;
    }
  }

  lemma TakeFollower(m: Arena, l: seq<int>, f: seq<int>, k: nat)
    requires Firsts(m, l, f) && NoDup(l) && k < |l| && l[k] !in f
    ensures Firsts(m, Without(l, k), f)
  {
    var d := Without(l, k);
    WithoutNoDup(l, k);
    forall i | 0 <= i < |d| ensures d[i] in f <==> FirstOfSize(m, d, i) { FollowerGone(m, l, f, k, i); }
  }

  lemma FollowerGone(m: Arena, l: seq<int>, f: seq<int>, k: nat, i: nat)
    requires k < |l| && i < |l| - 1 && l[k] !in f
    requires forall h | 0 <= h < |l| :: l[h] in f <==> FirstOfSize(m, l, h)
    ensures Without(l, k)[i] in f <==> FirstOfSize(m, Without(l, k), i)
  {
    var j := if i < k then i else i + 1;
    assert !FirstOfSize(m, l, k) && Without(l, k)[i] == l[j] && (l[j] in f <==> FirstOfSize(m, l, j));
  }

  lemma Replaced(f: seq<int>, j: nat, q: int)
    requires NoDup(f) && j < |f| && q !in f
    ensures NoDup(f[j := q])
    ensures forall x :: x in f[j := q] <==> (x in f && x != f[j]) || x == q
  {
    var f' := f[j := q];
    assert f'[j] == q;
    forall x ensures x in f' <==> (x in f && x != f[j]) || x == q {
      if x in f && x != f[j] {
        var i :| 0 <= i < |f| && f[i] == x;
        assert f'[i] == x;
      }
    }
  }

  /** When the next chunk has the same size it inherits the place on the ring. */
  lemma TakeFirstWithHeir(m: Arena, l: seq<int>, f: seq<int>, k: nat, j: nat)
    requires Firsts(m, l, f) && NoDup(l) && k + 1 < |l| && j < |f| && f[j] == l[k] && l[k + 1] !in f
    ensures Firsts(m, Without(l, k), f[j := l[k + 1]])
  {
    var q, d, f' := l[k + 1], Without(l, k), f[j := l[k + 1]];
    Replaced(f, j, q);
    WithoutNoDup(l, k);
    assert !FirstOfSize(m, l, k + 1) && (l[k] in f <==> FirstOfSize(m, l, k));
    forall i | 0 <= i < |d| ensures d[i] in f' <==> FirstOfSize(m, d, i) {
      HeirFirst(m, l, f, k, j, i);
    }
  }

  lemma HeirFirst(m: Arena, l: seq<int>, f: seq<int>, k: nat, j: nat, i: nat)
    requires NoDup(l) && k + 1 < |l| && j < |f| && f[j] == l[k] && l[k + 1] !in f
    requires forall h | 0 <= h < |l| :: l[h] in f <==> FirstOfSize(m, l, h)
    requires forall x :: x in f[j := l[k + 1]] <==> (x in f && x != l[k]) || x == l[k + 1]
    requires i < |l| - 1
    ensures Without(l, k)[i] in f[j := l[k + 1]] <==> FirstOfSize(m, Without(l, k), i)
  {
    var h := if i < k then i else i + 1;
    assert Without(l, k)[i] == l[h] && (l[h] in f <==> FirstOfSize(m, l, h)) && (l[k] in f <==> FirstOfSize(m, l, k));
    assert !FirstOfSize(m, l, k + 1);
  }

  /** Otherwise its size disappears from the ring. */
  lemma TakeFirstAlone(m: Arena, l: seq<int>, f: seq<int>, k: nat, j: nat)
    requires Firsts(m, l, f) && NoDup(l) && Descending(m, l)
    requires k < |l| && j < |f| && f[j] == l[k] && (k + 1 < |l| ==> l[k + 1] in f)
    ensures Firsts(m, Without(l, k), Without(f, j))
  {
    var d, f' := Without(l, k), Without(f, j);
    WithoutNoDup(l, k);
    WithoutNoDup(f, j);
    hide Without, FirstOfSize, Descending, NoDup;
    WithoutCount(l, k);
    forall i | 0 <= i < |d| ensures d[i] in f' <==> FirstOfSize(m, d, i) {
      AloneFirst(m, l, f, k, i);
      assert d[i] in d;
    }
  }

  lemma WithoutCount(l: seq<int>, k: nat)
    requires k < |l|
    ensures |Without(l, k)| == |l| - 1
  {
  }

  lemma AloneFirst(m: Arena, l: seq<int>, f: seq<int>, k: nat, i: nat)
    requires NoDup(l) && Descending(m, l)
    requires k < |l| && l[k] in f && (k + 1 < |l| ==> l[k + 1] in f) && i < |l| - 1
    requires forall h | 0 <= h < |l| :: l[h] in f <==> FirstOfSize(m, l, h)
    ensures Without(l, k)[i] in f <==> FirstOfSize(m, Without(l, k), i)
  {
    var d := Without(l, k);
    var h := if i < k then i else i + 1;
    assert d[i] == l[h] && (l[h] in f <==> FirstOfSize(m, l, h)) && FirstOfSize(m, l, k);
    if i == k && k > 0 {
      assert SizeOf(m, l[k - 1]) >= SizeOf(m, l[k]) >= SizeOf(m, l[k + 1]);
    }
  }

  /** A chunk placed right behind one of its size joins that size. */
  lemma PutFollower(m: Arena, l: seq<int>, f: seq<int>, k: nat, p: int)
    requires Firsts(m, l, f) && NoDup(l) && p !in l
    requires 0 < k <= |l| && SizeOf(m, l[k - 1]) == SizeOf(m, p)
    ensures Firsts(m, With(l, k, p), f)
  {
    var d := With(l, k, p);
    WithNoDup(l, k, p);
    forall i | 0 <= i < |d| ensures d[i] in f <==> FirstOfSize(m, d, i) { FollowerFirst(m, l, f, k, p, i); }
  }

  lemma FollowerFirst(m: Arena, l: seq<int>, f: seq<int>, k: nat, p: int, i: nat)
    requires 0 < k <= |l| && i <= |l| && SizeOf(m, l[k - 1]) == SizeOf(m, p) && p !in f
    requires forall h | 0 <= h < |l| :: l[h] in f <==> FirstOfSize(m, l, h)
    ensures With(l, k, p)[i] in f <==> FirstOfSize(m, With(l, k, p), i)
  {
    if i != k {
      var j := if i < k then i else i - 1;
      assert With(l, k, p)[i] == l[j] && (l[j] in f <==> FirstOfSize(m, l, j));
    }
  }

  /** Chunk p fits in l at position k, as the first of a new size, and in f at j. */
  ghost predicate NewSize(m: Arena, l: seq<int>, f: seq<int>, k: nat, j: nat, p: int) {
    && k <= |l| && (k > 0 ==> SizeOf(m, l[k - 1]) > SizeOf(m, p)) && (k < |l| ==> SizeOf(m, l[k]) < SizeOf(m, p))
    && j <= |f| && (if k < |l| then j < |f| && f[j] == l[k] else j == |f|)
  }

  /** A chunk of a new size becomes the first of its size, between the next larger
      and the next smaller sizes. */
  lemma PutFirst(m: Arena, l: seq<int>, f: seq<int>, k: nat, j: nat, p: int)
    requires Firsts(m, l, f) && NoDup(l) && Descending(m, l) && p !in l && NewSize(m, l, f, k, j, p)
    ensures Firsts(m, With(l, k, p), With(f, j, p))
  {
    var d, f' := With(l, k, p), With(f, j, p);
    WithNoDup(l, k, p);
    WithNoDup(f, j, p);
    forall a, b | 0 <= a < b < |f'| ensures SizeOf(m, f'[a]) > SizeOf(m, f'[b]) {
      PutFirstOrder(m, l, f, k, j, p, a, b);
    }
    forall i | 0 <= i < |d| ensures d[i] in f' <==> FirstOfSize(m, d, i) {
      NewFirst(m, l, f, k, j, p, i);
      assert d[i] in d;
    }
  }

  lemma NewFirst(m: Arena, l: seq<int>, f: seq<int>, k: nat, j: nat, p: int, i: nat)
    requires NewSize(m, l, f, k, j, p) && i <= |l| && p !in l
    requires forall h | 0 <= h < |l| :: l[h] in f <==> FirstOfSize(m, l, h)
    ensures With(l, k, p)[i] in f || i == k <==> FirstOfSize(m, With(l, k, p), i)
  {
    var d := With(l, k, p);
    assert d[k] == p;
    if i != k {
      var h := if i < k then i else i - 1;
      assert d[i] == l[h] && (l[h] in f <==> FirstOfSize(m, l, h));
    }
  }

  lemma PutFirstOrder(m: Arena, l: seq<int>, f: seq<int>, k: nat, j: nat, p: int, a: nat, b: nat)
    requires Descending(m, l) && (forall x | x in f :: x in l)
    requires forall a, b | 0 <= a < b < |f| :: SizeOf(m, f[a]) > SizeOf(m, f[b])
    requires NewSize(m, l, f, k, j, p) && a < b < |f| + 1
    ensures SizeOf(m, With(f, j, p)[a]) > SizeOf(m, With(f, j, p)[b])
  {
    if b == j {
      assert f[a] in f;
      var h :| 0 <= h < |l| && l[h] == f[a];
      assert h < k;
    }
  }

  // ----- whole stores -----

  /** Unlinking a follower writes no size link. */
  lemma FollowerTaken(m: Arena, fdn: Links, bkn: Links, l: seq<int>, f: seq<int>, k: nat)
    requires SizeRing(m, fdn, bkn, l, f) && NoDup(l) && k < |l| && l[k] !in f
    ensures SizeRing(m, fdn, bkn, Without(l, k), f)
  {
    TakeFollower(m, l, f, k);
    WithoutNoDup(l, k);
  }

  /** Unlinking a first chunk hands its place on the size ring to the next chunk of
      its size. */
  lemma HeirTaken(m: Arena, fdn: Links, bkn: Links, l: seq<int>, f: seq<int>, k: nat) returns (f': seq<int>)
    requires SizeRing(m, fdn, bkn, l, f) && NoDup(l) && k + 1 < |l| && l[k] in f && l[k + 1] !in f
    ensures l[k] in fdn && l[k] in bkn
    ensures var q, n, v := l[k + 1], fdn[l[k]], bkn[l[k]];
            if n == l[k] then SizeRing(m, fdn[q := q], bkn[q := q], Without(l, k), f')
            else SizeRing(m, fdn[q := n][v := q], bkn[q := v][n := q], Without(l, k), f')
  {
    var j :| 0 <= j < |f| && f[j] == l[k];
    TakeFirstWithHeir(m, l, f, k, j);
    HeirRing(m, fdn, bkn, l, f, k, j);
    f' := f[j := l[k + 1]];
  }

  /** The only chunk of its size leaves the size ring. */
  lemma AloneTaken(m: Arena, fdn: Links, bkn: Links, l: seq<int>, f: seq<int>, k: nat) returns (f': seq<int>)
    requires SizeRing(m, fdn, bkn, l, f) && NoDup(l) && Descending(m, l)
    requires k < |l| && l[k] in f && (k + 1 < |l| ==> l[k + 1] in f)
    ensures l[k] in fdn && l[k] in bkn
    ensures var n, v := fdn[l[k]], bkn[l[k]];
            SizeRing(m, fdn[v := n], bkn[n := v], Without(l, k), f')
  {
    var j :| 0 <= j < |f| && f[j] == l[k];
    TakeFirstAlone(m, l, f, k, j);
    AloneRing(m, fdn, bkn, l, f, k, j);
    f' := Without(f, j);
  }

  lemma HeirRing(m: Arena, fdn: Links, bkn: Links, l: seq<int>, f: seq<int>, k: nat, j: nat)
    requires SizeRing(m, fdn, bkn, l, f) && NoDup(l) && k + 1 < |l| && j < |f| && f[j] == l[k] && l[k + 1] !in f
    ensures l[k] in fdn && l[k] in bkn
    ensures var q, n, v, f' := l[k + 1], fdn[l[k]], bkn[l[k]], f[j := l[k + 1]];
            if n == l[k] then
              Ring(fdn[q := q], bkn[q := q], f') && Followers(fdn[q := q], bkn[q := q], Without(l, k), f')
            else
              Ring(fdn[q := n][v := q], bkn[q := v][n := q], f') &&
              Followers(fdn[q := n][v := q], bkn[q := v][n := q], Without(l, k), f')
  {
    assert Joined(fdn, bkn, f, j);
    var q, n, v, f' := l[k + 1], fdn[l[k]], bkn[l[k]], f[j := l[k + 1]];
    WithoutNoDup(l, k);
    Replaced(f, j, q);
    if n == l[k] {
      assert |f| == 1;
      assert Joined(fdn[q := q], bkn[q := q], f', 0);
    } else {
      RingReplace(fdn, bkn, f, j, q);
      assert v == Before(f, j) && v in f;
    }
  }

  lemma AloneRing(m: Arena, fdn: Links, bkn: Links, l: seq<int>, f: seq<int>, k: nat, j: nat)
    requires SizeRing(m, fdn, bkn, l, f) && NoDup(l) && k < |l| && j < |f| && f[j] == l[k]
    requires k + 1 < |l| ==> l[k + 1] in f
    ensures l[k] in fdn && l[k] in bkn
    ensures var n, v := fdn[l[k]], bkn[l[k]];
            Ring(fdn[v := n], bkn[n := v], Without(f, j)) &&
                Followers(fdn[v := n], bkn[n := v], Without(l, k), Without(f, j))
  {
    assert Joined(fdn, bkn, f, j);
    WithoutNoDup(l, k);
    WithoutNoDup(f, j);
    assert Before(f, j) in f;
    if |f| > 1 {
      RingWithout(fdn, bkn, f, j);
    } else {
      assert l[0] in f by { assert FirstOfSize(m, l, 0); }
    }
  }

  lemma TakeSizeRings(m: Arena, fdn: Links, bkn: Links, fdn': Links, bkn': Links, bins: Bins, firsts: Bins, i: nat,
        k: nat, f': seq<int>)
    requires Binned(m, bins) && SizeRings(m, fdn, bkn, bins, firsts) && 0 < i < NBINS && k < |bins[i]|
    requires i >= NSMALLBINS ==> SizeRing(m, fdn', bkn', Without(bins[i], k), f')
    requires i < NSMALLBINS ==> fdn' == fdn && bkn' == bkn
    requires forall x | x in fdn && x !in bins[i] :: x in fdn' && fdn'[x] == fdn[x]
    requires forall x | x in bkn && x !in bins[i] :: x in bkn' && bkn'[x] == bkn[x]
    ensures bins[i][k] in m
    ensures SizeRings(m[bins[i][k] := Chunk(m[bins[i][k]].size, Free(0))], fdn', bkn', bins[i := Without(bins[i], k)],
        firsts[i := f'])
  {
    assert bins[i][k] in bins[i];
    var p, bins', firsts' := bins[i][k], bins[i := Without(bins[i], k)], firsts[i := f'];
    var m' := m[p := Chunk(m[p].size, Free(0))];
    WithoutNoDup(bins[i], k);
    hide SizeRing, Binned, Without;
    forall j | NSMALLBINS <= j < NBINS ensures SizeRing(m', fdn', bkn', bins'[j], firsts'[j]) {
      if j == i {
        SizeRingFrame(m, m', fdn', bkn', fdn', bkn', bins'[i], f');
      } else {
        DisjointBins(m, bins, i, j);
        SizeRingFrame(m, m', fdn, bkn, fdn', bkn', bins[j], firsts[j]);
      }
    }
    if i != 1 { DisjointBins(m, bins, i, 1); }
  }

  lemma DisjointBins(m: Arena, bins: Bins, i: nat, j: nat)
    requires Binned(m, bins) && i < NBINS && 0 < j < NBINS && i != j
    ensures forall x | x in bins[j] :: InBin(m, x) && x !in bins[i]
  {
    forall x | x in bins[j] ensures InBin(m, x) && x !in bins[i] {
      assert m[x].kind == Free(j);
    }
  }

  /** Chunk p, off every bin, may go to position k of bin i. */
  ghost predicate FitsBin(m: Arena, bins: Bins, i: nat, k: nat, p: int) {
    && |bins| == NBINS && 0 < i < NBINS && k <= |bins[i]|
    && p in m && m[p].kind == Free(0) && m[p].size >= MINSIZE
    && (i > 1 ==>
      && BinIndex(m[p].size) == i
      && (k > 0 ==> SizeOf(m, bins[i][k - 1]) >= m[p].size)
      && (k < |bins[i]| ==> SizeOf(m, bins[i][k]) <= m[p].size))
  }

  lemma WithDescending(m: Arena, l: seq<int>, k: nat, p: int)
    requires Descending(m, l) && k <= |l|
    requires (k > 0 ==> SizeOf(m, l[k - 1]) >= SizeOf(m, p)) && (k < |l| ==> SizeOf(m, l[k]) <= SizeOf(m, p))
    ensures Descending(m, With(l, k, p))
  {
  }

  lemma DescendingFrame(m: Arena, m': Arena, l: seq<int>)
    requires Descending(m, l) && forall x | x in l :: SizeOf(m', x) == SizeOf(m, x)
    ensures Descending(m', l)
  {
  }

  lemma PutBinned(m: Arena, bins: Bins, i: nat, k: nat, p: int)
    requires Binned(m, bins) && FitsBin(m, bins, i, k, p)
    ensures p !in bins[i]
    ensures Binned(m[p := Chunk(m[p].size, Free(i))], bins[i := With(bins[i], k, p)])
  {
    var m', bins' := m[p := Chunk(m[p].size, Free(i))], bins[i := With(bins[i], k, p)];
    assert !InBin(m, p) && p !in bins[i];
    WithNoDup(bins[i], k, p);
    forall x | InBin(m', x) ensures m'[x].kind.bin < NBINS && x in bins'[m'[x].kind.bin] {
      assert x != p ==> InBin(m, x);
    }
    forall j | 2 <= j < NBINS ensures Descending(m', bins'[j]) {
      if j == i { WithDescending(m, bins[i], k, p); }
      DescendingFrame(m, m', bins'[j]);
    }
  }

  lemma PutLinked(fd: Links, bk: Links, m: Arena, bins: Bins, i: nat, k: nat, p: int, v: int, n: int)
    requires Binned(m, bins) && LinkedBins(fd, bk, bins) && FitsBin(m, bins, i, k, p)
    requires forall x | x in m :: x >= NBINS
    requires v == (if k > 0 then bins[i][k - 1] else i) && n == (if k < |bins[i]| then bins[i][k] else i)
    ensures LinkedBins(fd[p := n][v := p], bk[p := v][n := p], bins[i := With(bins[i], k, p)])
  {
    assert !InBin(m, p) && p !in bins[i];
    HeaderNoDup(m, bins, i);
    PutRing(fd, bk, i, bins[i], k, p, v, n);
    var fd', bk' := fd[p := n][v := p], bk[p := v][n := p];
    forall j | 1 <= j < NBINS && j != i ensures Ring(fd', bk', [j] + bins[j]) {
      OtherBin(m, bins, fd, bk, fd', bk', i, j, p);
    }
  }

  lemma PutRing(fd: Links, bk: Links, b: int, l: seq<int>, k: nat, p: int, v: int, n: int)
    requires Ring(fd, bk, [b] + l) && NoDup([b] + l) && k <= |l| && p != b && p !in l
    requires v == (if k > 0 then l[k - 1] else b) && n == (if k < |l| then l[k] else b)
    ensures (v == b || v in l) && (n == b || n in l)
    ensures Ring(fd[p := n][v := p], bk[p := v][n := p], [b] + With(l, k, p))
  {
    var c := [b] + l;
    RingWith(fd, bk, c, k + 1, p, v, n);
    assert With(c, k + 1, p) == [b] + With(l, k, p);
  }

  lemma PutSizeRings(m: Arena, fdn: Links, bkn: Links, fdn': Links, bkn': Links, bins: Bins, firsts: Bins, i: nat,
        k: nat, p: int, f': seq<int>)
    requires Binned(m, bins) && SizeRings(m, fdn, bkn, bins, firsts) && FitsBin(m, bins, i, k, p)
    requires i >= NSMALLBINS ==> SizeRing(m, fdn', bkn', With(bins[i], k, p), f')
    requires i == 1 && !InSmallbinRange(m[p].size) ==> NoSizeLinks(fdn', bkn', p)
    requires forall x | x in fdn && x != p && (i < NSMALLBINS || x !in bins[i]) :: x in fdn' && fdn'[x] == fdn[x]
    requires forall x | x in bkn && x != p && (i < NSMALLBINS || x !in bins[i]) :: x in bkn' && bkn'[x] == bkn[x]
    ensures SizeRings(m[p := Chunk(m[p].size, Free(i))], fdn', bkn', bins[i := With(bins[i], k, p)], firsts[i := f'])
  {
    var bins', firsts', m' := bins[i := With(bins[i], k, p)], firsts[i := f'], m[p := Chunk(m[p].size, Free(i))];
    assert !InBin(m, p);
    forall j | NSMALLBINS <= j < NBINS ensures SizeRing(m', fdn', bkn', bins'[j], firsts'[j]) {
      if j == i {
        SizeRingFrame(m, m', fdn', bkn', fdn', bkn', bins'[i], f');
      } else {
        assert SizeRing(m, fdn, bkn, bins[j], firsts[j]);
        DisjointBins(m, bins, i, j);
        SizeRingFrame(m, m', fdn, bkn, fdn', bkn', bins[j], firsts[j]);
      }
    }
    forall x | x in bins'[1] && !InSmallbinRange(SizeOf(m', x)) ensures NoSizeLinks(fdn', bkn', x) {
      PutUnsortedMark(m, bins, i, k, p, x);
    }
  }

  lemma PutUnsortedMark(m: Arena, bins: Bins, i: nat, k: nat, p: int, x: int)
    requires Binned(m, bins) && FitsBin(m, bins, i, k, p)
    requires x in bins[i := With(bins[i], k, p)][1]
    ensures (x == p && i == 1) || (x in bins[1] && x != p && (i == 1 || x !in bins[i]))
  {
    assert !InBin(m, p) && p !in bins[i] && p !in bins[1];
    WithNoDup(bins[i], k, p);
    assert x in bins[1] ==> m[x].kind == Free(1);
  }

  lemma PutBitmap(binmap: seq<nat>, bins: Bins, i: nat, l: seq<int>)
    requires Bitmap(binmap, bins) && 0 < i < NBINS
    ensures 0 <= i / 32 < 4 && Bitmap(binmap[i / 32 := SetBit(binmap[i / 32], i % 32)], bins[i := l])
  {
    SetBitOnly(binmap[i / 32], i % 32);
    var b', bins' := binmap[i / 32 := SetBit(binmap[i / 32], i % 32)], bins[i := l];
    forall j | 2 <= j < NBINS && bins'[j] != [] ensures BitOf(b', j) {
      if j != i { assert BitOf(binmap, j); }
    }
  }

  lemma TakeBitmap(binmap: seq<nat>, bins: Bins, i: nat, k: nat)
    requires Bitmap(binmap, bins) && i < NBINS && k < |bins[i]|
    ensures Bitmap(binmap, bins[i := Without(bins[i], k)])
  {
    var bins' := bins[i := Without(bins[i], k)];
    forall j | 2 <= j < NBINS && bins'[j] != [] ensures BitOf(binmap, j) {
      assert bins[j] != [];
    }
  }

  lemma ClearBitmap(binmap: seq<nat>, bins: Bins, i: nat)
    requires Bitmap(binmap, bins) && i < NBINS && (i >= 2 ==> bins[i] == [])
    ensures 0 <= i / 32 < 4 && ClearBit(binmap[i / 32], i % 32) >= 0
    ensures Bitmap(binmap[i / 32 := ClearBit(binmap[i / 32], i % 32)], bins)
  {
    ClearBitOnly(binmap[i / 32], i % 32);
    var b' := binmap[i / 32 := ClearBit(binmap[i / 32], i % 32)];
    forall j | 2 <= j < NBINS && bins[j] != [] ensures BitOf(b', j) {
      assert BitOf(binmap, j) && j != i;
      if j / 32 == i / 32 { assert j % 32 != i % 32; }
    }
  }

  // ----- changes elsewhere in the arena -----

  ghost predicate SameBinned(m: Arena, m': Arena) {
    forall x | InBin(m, x) || InBin(m', x) :: x in m && x in m' && m[x] == m'[x]
  }

  ghost predicate SameFast(m: Arena, m': Arena) {
    forall x | (x in m && m[x].kind.Fast?) || (x in m' && m'[x].kind.Fast?) :: x in m && x in m' && m[x] == m'[x]
  }

  lemma BinsFrame(m: Arena, m': Arena, fdn: Links, bkn: Links, fdn': Links, bkn': Links, bins: Bins, firsts: Bins)
    requires Binned(m, bins) && SizeRings(m, fdn, bkn, bins, firsts) && SameBinned(m, m')
    requires forall x | x in fdn && InBin(m, x) :: x in fdn' && fdn'[x] == fdn[x]
    requires forall x | x in bkn && InBin(m, x) :: x in bkn' && bkn'[x] == bkn[x]
    ensures Binned(m', bins) && SizeRings(m', fdn', bkn', bins, firsts)
  {
    hide NoDup, SizeRing, Descending;
    forall i, x | 0 <= i < NBINS && x in bins[i] ensures InBin(m, x) && x in m' && m'[x] == m[x] {
      assert m[x].kind == Free(i);
    }
    forall i | 2 <= i < NBINS ensures Descending(m', bins[i]) { DescendingFrame(m, m', bins[i]); }
    forall i | NSMALLBINS <= i < NBINS ensures SizeRing(m', fdn', bkn', bins[i], firsts[i]) {
      SizeRingFrame(m, m', fdn, bkn, fdn', bkn', bins[i], firsts[i]);
    }
  }

  lemma {:induction false} ChainFrame(fd: Links, fd': Links, h: int, l: seq<int>)
    requires Chain(fd, h, l) && forall x | x in l && x in fd :: x in fd' && fd'[x] == fd[x]
    ensures Chain(fd', h, l)
    decreases l
  {
    if l != [] {
      assert l[0] in l;
      ChainFrame(fd, fd', fd[h], l[1..]);
    }
  }

  lemma FastFrame(m: Arena, m': Arena, fd: Links, fd': Links, fast: seq<int>, fasts: Bins)
    requires FastLists(m, fd, fast, fasts) && SameFast(m, m')
    requires forall x | x in m && m[x].kind.Fast? && x in fd :: x in fd' && fd'[x] == fd[x]
    ensures FastLists(m', fd', fast, fasts)
  {
    forall i | 0 <= i < NFASTBINS ensures NoDup(fasts[i]) && Chain(fd', fast[i], fasts[i]) {
      assert forall x | x in fasts[i] :: x in m && m[x].kind.Fast?;
      ChainFrame(fd, fd', fast[i], fasts[i]);
    }
  }

  /** The fastbins do not see a chunk outside them change kind, nor a link elsewhere. */
  lemma FastUntouched(m: Arena, fd: Links, fast: seq<int>, fasts: Bins, p: int, k: Kind, x: int, v: int)
    requires FastLists(m, fd, fast, fasts) && p in m && !m[p].kind.Fast? && !k.Fast?
    requires x in m ==> !m[x].kind.Fast?
    ensures FastLists(m[p := Chunk(m[p].size, k)], fd[x := v], fast, fasts)
  {
    FastFrame(m, m[p := Chunk(m[p].size, k)], fd, fd[x := v], fast, fasts);
  }

  /** Linking a chunk in front of its fastbin. */
  lemma FastPushed(m: Arena, fd: Links, fast: seq<int>, fasts: Bins, i: nat, p: int)
    requires FastLists(m, fd, fast, fasts) && i < NFASTBINS
    requires p in m && !m[p].kind.Fast? && m[p].size >= MINSIZE && FastbinIndex(m[p].size) == i
    ensures FastLists(m[p := Chunk(m[p].size, Fast(i))], fd[p := fast[i]], fast[i := p], fasts[i := [p] + fasts[i]])
  {
    var m', fd', fasts' := m[p := Chunk(m[p].size, Fast(i))], fd[p := fast[i]], fasts[i := [p] + fasts[i]];
    assert p !in fasts[i];
    forall j | 0 <= j < NFASTBINS ensures NoDup(fasts'[j]) && Chain(fd', fast[i := p][j], fasts'[j]) {
      assert NoDup(fasts[j]) && p !in fasts[j];
      ChainFrame(fd, fd', fast[j], fasts[j]);
      if j == i { assert fasts'[i][1..] == fasts[i]; }
    }
    forall x | x in m' && m'[x].kind.Fast? ensures m'[x].kind.idx < NFASTBINS && x in fasts'[m'[x].kind.idx] {
      if x != p { assert x in fasts[m[x].kind.idx]; }
    }
  }

  /** Taking the front chunk of a fastbin. */
  lemma FastPopped(m: Arena, fd: Links, fast: seq<int>, fasts: Bins, i: nat, k: Kind)
    requires FastLists(m, fd, fast, fasts) && i < NFASTBINS && fasts[i] != [] && !k.Fast?
    ensures fast[i] == fasts[i][0] && fast[i] in fd && fast[i] in m && m[fast[i]].kind == Fast(i)
    ensures FastLists(m[fast[i] := Chunk(m[fast[i]].size, k)], fd, fast[i := fd[fast[i]]], fasts[i := fasts[i][1..]])
  {
    var p := fast[i];
    assert Chain(fd, fast[i], fasts[i]) && p in fasts[i] && NoDup(fasts[i]);
    var m', fasts' := m[p := Chunk(m[p].size, k)], fasts[i := fasts[i][1..]];
    forall x | x in m' && m'[x].kind.Fast? ensures m'[x].kind.idx < NFASTBINS && x in fasts'[m'[x].kind.idx] {
      assert x in fasts[m[x].kind.idx];
      if m[x].kind.idx == i {
        var h :| 0 <= h < |fasts[i]| && fasts[i][h] == x;
        assert fasts[i][1..][h - 1] == x;
      }
    }
  }

  /** Detaching a whole fastbin leaves its chunks held: in use, but on no list. */
  ghost function Detached(m: Arena, i: nat): Arena {
    map a | a in m :: if m[a].kind == Fast(i) then Chunk(m[a].size, Held) else m[a]
  }

  lemma FastDetached(m: Arena, fd: Links, fast: seq<int>, fasts: Bins, i: nat)
    requires FastLists(m, fd, fast, fasts) && i < NFASTBINS
    ensures FastLists(Detached(m, i), fd, fast[i := 0], fasts[i := []])
  {
  }

  /** A fastbin is empty exactly when its head is null. */
  lemma FastEmpty(m: Arena, fd: Links, fast: seq<int>, fasts: Bins, i: nat)
    requires FastLists(m, fd, fast, fasts) && i < NFASTBINS && forall x | x in m :: x >= NBINS
    ensures fast[i] == 0 <==> fasts[i] == []
  {
    assert Chain(fd, fast[i], fasts[i]);
    if fasts[i] != [] { assert fasts[i][0] in fasts[i] && fasts[i][0] in m; }
  }

  // ----- what a step needs to know about one chunk -----

  lemma BinnedChunk(m: Arena, bins: Bins, i: nat, k: nat)
    requires Binned(m, bins) && 0 < i < NBINS && k < |bins[i]|
    ensures |bins| == NBINS && bins[i][k] in bins[i] && bins[i][k] in m && m[bins[i][k]].kind == Free(i) &&
        m[bins[i][k]].size >= MINSIZE
    ensures i > 1 ==> BinIndex(m[bins[i][k]].size) == i <= 126
    ensures NoDup(bins[i]) && (i >= NSMALLBINS ==> Descending(m, bins[i]))
  {
    assert bins[i][k] in bins[i];
    assert InBin(m, bins[i][k]);
  }

  lemma FreeIsBinned(m: Arena, p: int)
    requires NoLoose(m) && p in m && m[p].kind.Free?
    ensures InBin(m, p)
  {
  }

  /** Where a free chunk is on its bin. */
  lemma BinSlot(m: Arena, bins: Bins, p: int) returns (k: nat)
    requires Binned(m, bins) && InBin(m, p)
    ensures m[p].kind.bin < |bins| == NBINS && k < |bins[m[p].kind.bin]| && bins[m[p].kind.bin][k] == p
  {
    k :| 0 <= k < |bins[m[p].kind.bin]| && bins[m[p].kind.bin][k] == p;
  }

  /** The links of a binned chunk: its neighbours are chunks of its bin or the header,
      and they point back at it. */
  lemma BinMirror(fd: Links, bk: Links, bins: Bins, i: nat, k: nat)
    requires LinkedBins(fd, bk, bins) && 0 < i < NBINS && k < |bins[i]|
    ensures var p := bins[i][k];
            && p in fd && fd[p] == (if k + 1 < |bins[i]| then bins[i][k + 1] else i)
            && p in bk && bk[p] == (if k > 0 then bins[i][k - 1] else i)
            && fd[p] in bk && bk[fd[p]] == p && bk[p] in fd && fd[bk[p]] == p
  {
    var c := [i] + bins[i];
    assert Ring(fd, bk, c) && c[k + 1] == bins[i][k];
    RingMirror(fd, bk, c, k + 1);
  }

  /** The header word read as the fd_nextsize of the header before it is never null. */
  lemma HeaderNotNull(m: Arena, fd: Links, bk: Links, bins: Bins, i: nat)
    requires Binned(m, bins) && LinkedBins(fd, bk, bins) && 0 < i < NBINS && forall x | x in m :: x >= 4096
    ensures i in fd && fd[i] != 0 && (fd[i] == i <==> bins[i] == [])
    ensures i in bk && bk[i] != 0 && (bk[i] == i <==> bins[i] == [])
    ensures bins[i] != [] ==> fd[i] == bins[i][0] && bk[i] == bins[i][|bins[i]| - 1]
  {
    var c := [i] + bins[i];
    assert Ring(fd, bk, c) && Joined(fd, bk, c, 0);
    if bins[i] != [] {
      var a, z := bins[i][0], bins[i][|bins[i]| - 1];
      assert a in bins[i] && z in bins[i] && a in m && z in m;
      assert c[1] == a && c[|bins[i]|] == z;
    }
  }

  /** The size links of a chunk in a large bin, and of a large unsorted chunk. */
  lemma SizeLinks(m: Arena, fdn: Links, bkn: Links, bins: Bins, firsts: Bins, i: nat, k: nat)
    requires Binned(m, bins) && SizeRings(m, fdn, bkn, bins, firsts) && 0 < i < NBINS && k < |bins[i]|
    requires forall x | x in m :: x >= 4096
    ensures bins[i][k] in m && |firsts| == NBINS
    ensures i != 1 ==> (i >= NSMALLBINS <==> !InSmallbinRange(m[bins[i][k]].size))
    ensures i == 1 && !InSmallbinRange(m[bins[i][k]].size) ==> NoSizeLinks(fdn, bkn, bins[i][k])
    ensures i >= NSMALLBINS ==> SizeRing(m, fdn, bkn, bins[i], firsts[i])
    ensures i >= NSMALLBINS ==> bins[i][k] in fdn && (fdn[bins[i][k]] == 0 <==> bins[i][k] !in firsts[i])
  {
    hide SizeRing;
    BinnedChunk(m, bins, i, k);
    var p := bins[i][k];
    if i != 1 { LargeIffLargeBin(m[p].size); }
    if i >= NSMALLBINS {
      assert forall y | y in bins[i] :: y in m;
      SizeRingMark(m, fdn, bkn, bins[i], firsts[i], p);
    }
  }

  lemma LargeIffLargeBin(sz: nat)
    ensures BinIndex(sz) >= NSMALLBINS <==> !InSmallbinRange(sz)
  {
    if !InSmallbinRange(sz) { LargebinIndexMonotone(MIN_LARGE_SIZE, sz); }
  }

  /** A first chunk and its neighbours on the size ring point at each other. */
  lemma SizeMirror(m: Arena, fdn: Links, bkn: Links, l: seq<int>, f: seq<int>, p: int)
    requires SizeRing(m, fdn, bkn, l, f) && p in f
    ensures p in fdn && p in bkn && fdn[p] in l && bkn[p] in l
    ensures fdn[p] in bkn && bkn[fdn[p]] == p && bkn[p] in fdn && fdn[bkn[p]] == p
  {
    var j :| 0 <= j < |f| && f[j] == p;
    RingMirror(fdn, bkn, f, j);
    assert After(f, j) in f && Before(f, j) in f;
  }

  /** Everything but the size links, after chunk k of bin i has left its ring. */
  lemma OffBin(m: Arena, bins: Bins, fd: Links, bk: Links, binmap: seq<nat>, fast: seq<int>, fasts: Bins, i: nat,
        k: nat)
    requires Binned(m, bins) && LinkedBins(fd, bk, bins) && Bitmap(binmap, bins) && FastLists(m, fd, fast, fasts)
    requires 0 < i < NBINS && k < |bins[i]| && forall x | x in m :: x >= 4096
    ensures |bins| == NBINS
    ensures var p := bins[i][k];
            && p in m && m[p].kind == Free(i) && p in fd && p in bk
            && fd[p] == (if k + 1 < |bins[i]| then bins[i][k + 1] else i) &&
                bk[p] == (if k > 0 then bins[i][k - 1] else i)
            && fd[p] in bk && bk[fd[p]] == p && bk[p] in fd && fd[bk[p]] == p
            && (i < 127 ==> var fd' := fd[bk[p] := fd[p]]; i + 1 in fd' && fd'[i + 1] != 0)
    ensures var p := bins[i][k];
            var m', bins', fd', bk' := m[p := Chunk(m[p].size, Free(0))], bins[i := Without(bins[i], k)],
                fd[bk[p] := fd[p]], bk[fd[p] := bk[p]];
            Binned(m', bins') && LinkedBins(fd', bk', bins') && Bitmap(binmap, bins') &&
                FastLists(m', fd', fast, fasts) && SameLinks(m', fd, fd')
  {
    hide Binned, LinkedBins, Bitmap, FastLists, Without, NoDup, Descending;
    BinnedChunk(m, bins, i, k);
    HeaderNotNull(m, fd, bk, bins, if i < 127 then i + 1 else i);
    BinMirror(fd, bk, bins, i, k);
    if k > 0 { BinnedChunk(m, bins, i, k - 1); }
    var p := bins[i][k];
    TakeLinked(fd, bk, m, bins, i, k);
    TakeBinned(m, bins, i, k);
    TakeBitmap(binmap, bins, i, k);
    FastUntouched(m, fd, fast, fasts, p, Free(0), bk[p], fd[p]);
  }

  /** Everything but the size links, after chunk p has joined bin i at position k. */
  lemma IntoBin(m: Arena, bins: Bins, fd: Links, bk: Links, fast: seq<int>, fasts: Bins, i: nat, k: nat, p: int,
        v: int, n: int)
    requires Binned(m, bins) && LinkedBins(fd, bk, bins) && FastLists(m, fd, fast, fasts)
    requires FitsBin(m, bins, i, k, p) && forall x | x in m :: x >= 4096
    requires v == (if k > 0 then bins[i][k - 1] else i) && n == (if k < |bins[i]| then bins[i][k] else i)
    ensures p !in bins[i]
    ensures var m', bins', fd', bk' := m[p := Chunk(m[p].size, Free(i))], bins[i := With(bins[i], k, p)],
        fd[p := n][v := p], bk[p := v][n := p];
            Binned(m', bins') && LinkedBins(fd', bk', bins') && FastLists(m', fd', fast, fasts)
  {
    hide Binned, LinkedBins, FastLists, With, NoDup, Descending;
    if k > 0 { BinnedChunk(m, bins, i, k - 1); }
    PutLinked(fd, bk, m, bins, i, k, p, v, n);
    PutBinned(m, bins, i, k, p);
    FastFrame(m, m[p := Chunk(m[p].size, Free(i))], fd, fd[p := n][v := p], fast, fasts);
  }

  /** Any detached chunk may go to the front of the unsorted bin. */
  lemma UnsortedFits(m: Arena, bins: Bins, fd: Links, bk: Links, base: int, top: int, end: int, p: int)
    requires Binned(m, bins) && LinkedBins(fd, bk, bins) && Space(m, base, top, end)
    requires p in m && m[p].kind == Free(0)
    ensures FitsBin(m, bins, 1, 0, p)
    ensures 1 in fd && fd[1] == (if bins[1] != [] then bins[1][0] else 1) && fd[1] in bk && bk[fd[1]] == 1
    ensures fd[1] == 1 || (fd[1] in m && m[fd[1]].kind == Free(1))
    ensures With(bins[1], 0, p) == [p] + bins[1]
  {
    var c := [1] + bins[1];
    assert Ring(fd, bk, c);
    RingMirror(fd, bk, c, 0);
    if bins[1] != [] { assert bins[1][0] in bins[1]; }
  }

  lemma PutBitmapLow(binmap: seq<nat>, bins: Bins, l: seq<int>)
    requires Bitmap(binmap, bins)
    ensures Bitmap(binmap, bins[1 := l])
  {
  }

  /** The store after chunk p has been linked in front of the unsorted bin. */
  lemma IntoUnsorted(m: Arena, bins: Bins, firsts: Bins, fd: Links, bk: Links, fdn: Links, bkn: Links, binmap: seq<nat>,
                     fast: seq<int>, fasts: Bins, base: int, top: int, end: int, p: int)
    requires Binned(m, bins) && LinkedBins(fd, bk, bins) && SizeRings(m, fdn, bkn, bins, firsts) && Bitmap(binmap, bins)
    requires FastLists(m, fd, fast, fasts) && Space(m, base, top, end) && p in m && m[p].kind == Free(0)
    ensures |bins| == NBINS && 1 in fd && fd[1] in bk && bk[fd[1]] == 1
    ensures var large := !InSmallbinRange(m[p].size);
            var m', bins', fd', bk' := m[p := Chunk(m[p].size, Free(1))], bins[1 := [p] + bins[1]],
                fd[p := fd[1]][1 := p], bk[p := 1][fd[1] := p];
            var fdn', bkn' := if large then fdn[p := 0] else fdn, if large then bkn[p := 0] else bkn;
            && Binned(m', bins') && LinkedBins(fd', bk', bins') && SizeRings(m', fdn', bkn', bins', firsts) &&
                Bitmap(binmap, bins')
            && FastLists(m', fd', fast, fasts) && SameLinks(m', fd, fd')
  {
    hide Binned, LinkedBins, SizeRings, Bitmap, FastLists, With;
    assert Space(m, base, top, end) && forall x | x in m :: x >= 4096;
    hide Space;
    UnsortedFits(m, bins, fd, bk, base, top, end, p);
    IntoBin(m, bins, fd, bk, fast, fasts, 1, 0, p, 1, fd[1]);
    PutBitmapLow(binmap, bins, [p] + bins[1]);
    var large := !InSmallbinRange(m[p].size);
    var fdn', bkn' := if large then fdn[p := 0] else fdn, if large then bkn[p := 0] else bkn;
    SizeRingsLength(m, fdn, bkn, bins, firsts);
    PutSizeRings(m, fdn, bkn, fdn', bkn', bins, firsts, 1, 0, p, firsts[1]);
    assert firsts[1 := firsts[1]] == firsts;
  }

  lemma SizeRingsLength(m: Arena, fdn: Links, bkn: Links, bins: Bins, firsts: Bins)
    requires SizeRings(m, fdn, bkn, bins, firsts)
    ensures |firsts| == NBINS
  {
  }

  /** Merging chunks that are on no list leaves the free store as it is. */
  lemma MergedStore(m: Arena, bins: Bins, firsts: Bins, fd: Links, fdn: Links, bkn: Links, fast: seq<int>, fasts: Bins,
        lo: int, hi: int, k: Kind)
    requires Binned(m, bins) && SizeRings(m, fdn, bkn, bins, firsts) && FastLists(m, fd, fast, fasts)
    requires lo in m && lo < hi && (forall a | a in m && lo <= a < hi :: OnNoList(m[a].kind)) && OnNoList(k)
    ensures Binned(Merged(m, lo, hi, k), bins) && SizeRings(Merged(m, lo, hi, k), fdn, bkn, bins, firsts)
    ensures FastLists(Merged(m, lo, hi, k), fd, fast, fasts)
  {
    var m' := Merged(m, lo, hi, k);
    assert SameBinned(m, m') && SameFast(m, m');
    hide Binned, SizeRings, FastLists;
    BinsFrame(m, m', fdn, bkn, fdn, bkn, bins, firsts);
    FastFrame(m, m', fd, fd, fast, fasts);
  }

  predicate OnNoList(k: Kind) {
    k == Used || k == Held || k == Free(0) || k == Top
  }

  /** l lists the held chunks; all of them came from fastbin i. */
  ghost predicate HeldAre(m: Arena, l: seq<int>, i: nat) {
    && NoDup(l) && (forall x :: x in l <==> x in m && m[x].kind == Held)
    && (forall x | x in l :: m[x].size >= 0 && FastbinIndex(m[x].size) == i)
  }

  /** Detaching a fastbin touches no tag, no ring, and nothing the program holds. */
  lemma DetachedStore(m: Arena, bins: Bins, firsts: Bins, fd: Links, fdn: Links, bkn: Links, fast: seq<int>,
        fasts: Bins, i: nat)
    requires Binned(m, bins) && SizeRings(m, fdn, bkn, bins, firsts) && FastLists(m, fd, fast, fasts) && i < NFASTBINS
    requires NoHeld(m)
    ensures var m' := Detached(m, i);
            && Rekinded(m, m') && Live(m') == Live(m) && (NoLoose(m) ==> NoLoose(m'))
            && Binned(m', bins) && SizeRings(m', fdn, bkn, bins, firsts) &&
                FastLists(m', fd, fast[i := 0], fasts[i := []])
    ensures |fast| == NFASTBINS && |fasts| == NFASTBINS && Chain(fd, fast[i], fasts[i]) &&
        HeldAre(Detached(m, i), fasts[i], i)
  {
    FastDetached(m, fd, fast, fasts, i);
    BinsFrame(m, Detached(m, i), fdn, bkn, fdn, bkn, bins, firsts);
  }

  lemma HeldLess(m: Arena, m': Arena, l: seq<int>, i: nat)
    requires HeldAre(m, l, i) && l != [] && Kept(m') == Kept(m) - {l[0]}
    ensures HeldAre(m', l[1..], i)
  {
    forall x ensures x in l[1..] <==> x in m' && m'[x].kind == Held {
      assert x in Kept(m') <==> x in Kept(m) && x != l[0];
      assert x in Kept(m') ==> Kept(m')[x] == Kept(m)[x];
      assert l == [l[0]] + l[1..];
    }
    forall x | x in l[1..] ensures m'[x].size >= 0 && FastbinIndex(m'[x].size) == i {
      assert x in Kept(m') && x in l;
    }
  }

  lemma HeldNone(m: Arena, i: nat)
    requires HeldAre(m, [], i)
    ensures NoHeld(m)
  {
  }

  /** A chain stays a chain when the words of its (held) chunks are left alone. */
  lemma HeldChain(m: Arena, fd: Links, fd': Links, h: int, l: seq<int>, i: nat)
    requires HeldAre(m, l, i) && SameLinks(m, fd, fd') && Chain(fd, h, l)
    ensures Chain(fd', h, l)
  {
    ChainFrame(fd, fd', h, l);
  }

  lemma AllFastbinsEmpty(m: Arena, fd: Links, fast: seq<int>, fasts: Bins)
    requires FastLists(m, fd, fast, fasts) && forall i | 0 <= i < NFASTBINS :: fasts[i] == []
    ensures NoFast(m)
  {
  }

  /** Link words of chunks in use belong to no ring. */
  lemma LinkedElsewhere(m: Arena, fd: Links, fd': Links, bk: Links, bins: Bins, base: int, top: int, end: int)
    requires Binned(m, bins) && LinkedBins(fd, bk, bins) && Space(m, base, top, end)
    requires forall x | x in fd && (x < NBINS || InBin(m, x)) :: x in fd' && fd'[x] == fd[x]
    ensures LinkedBins(fd', bk, bins)
  {
    forall i | 1 <= i < NBINS ensures Ring(fd', bk, [i] + bins[i]) {
      var c := [i] + bins[i];
      assert Ring(fd, bk, c);
      forall x | x in c ensures x < NBINS || InBin(m, x) {
        if x != i { assert x in bins[i] && m[x].kind == Free(i); }
      }
      RingFrame(fd, bk, fd', bk, c);
    }
  }

  /** What was on no list stays on none when chunks in use only disappear. */
  lemma KeptNone(m: Arena, m': Arena, p: int)
    requires Kept(m') == Kept(m) - {p}
    ensures NoHeld(m) ==> NoHeld(m')
    ensures FastLess(m, m')
  {
    forall x | x in m' && InUse(m'[x].kind) ensures x in m && m[x] == m'[x] {
      assert x in Kept(m');
      assert x in Kept(m) && Kept(m)[x] == Kept(m')[x];
    }
  }

  /** Handing out or cutting a chunk that is on no list leaves the free store as it is. */
  lemma CarvedStore(m: Arena, m': Arena, bins: Bins, firsts: Bins, fd: Links, fdn: Links, bkn: Links, fast: seq<int>,
        fasts: Bins, a: int, r: int)
    requires Binned(m, bins) && SizeRings(m, fdn, bkn, bins, firsts) && FastLists(m, fd, fast, fasts)
    requires a in m && OnNoList(m[a].kind) && (r == a || r !in m) && m'.Keys == m.Keys + {r}
    requires OnNoList(m'[a].kind) && OnNoList(m'[r].kind) && forall x | x in m && x != a :: m'[x] == m[x]
    ensures Binned(m', bins) && SizeRings(m', fdn, bkn, bins, firsts) && FastLists(m', fd, fast, fasts)
  {
    assert SameBinned(m, m') && SameFast(m, m');
    hide Binned, SizeRings, FastLists;
    BinsFrame(m, m', fdn, bkn, fdn, bkn, bins, firsts);
    FastFrame(m, m', fd, fd, fast, fasts);
  }

  lemma SplitStore(m: Arena, bins: Bins, firsts: Bins, fd: Links, fdn: Links, bkn: Links, fast: seq<int>, fasts: Bins,
        a: int, nb: int, rest: Kind)
    requires Binned(m, bins) && SizeRings(m, fdn, bkn, bins, firsts) && FastLists(m, fd, fast, fasts)
    requires a in m && OnNoList(m[a].kind) && a + nb !in m && OnNoList(rest)
    ensures Binned(Split(m, a, nb, Used, rest), bins) && SizeRings(Split(m, a, nb, Used, rest), fdn, bkn, bins, firsts)
    ensures FastLists(Split(m, a, nb, Used, rest), fd, fast, fasts)
  {
    hide Binned, SizeRings, FastLists;
    CarvedStore(m, Split(m, a, nb, Used, rest), bins, firsts, fd, fdn, bkn, fast, fasts, a, a + nb);
  }

  /** A ring whose chunks are not on a size ring loses chunk k. */
  lemma SmallTaken(m: Arena, fdn: Links, bkn: Links, bins: Bins, firsts: Bins, i: nat, k: nat)
    requires Binned(m, bins) && SizeRings(m, fdn, bkn, bins, firsts) && 0 < i < NSMALLBINS && k < |bins[i]|
    ensures bins[i][k] in m
    ensures SizeRings(m[bins[i][k] := Chunk(m[bins[i][k]].size, Free(0))], fdn, bkn, bins[i := Without(bins[i], k)],
        firsts)
  {
    SizeRingsLength(m, fdn, bkn, bins, firsts);
    TakeSizeRings(m, fdn, bkn, fdn, bkn, bins, firsts, i, k, firsts[i]);
    assert firsts[i := firsts[i]] == firsts;
  }

  // ----- inserting into the ring of distinct sizes -----

  /** The first chunk of the size of l[k]. */
  lemma {:induction false} FirstOfItsSize(m: Arena, l: seq<int>, f: seq<int>, k: nat) returns (j: nat)
    requires Firsts(m, l, f) && k < |l|
    ensures j < |f| && SizeOf(m, f[j]) == SizeOf(m, l[k])
  {
    if FirstOfSize(m, l, k) {
      assert l[k] in f;
      j :| 0 <= j < |f| && f[j] == l[k];
    } else {
      j := FirstOfItsSize(m, l, f, k - 1);
    }
  }

  /** When the sizes after f[j] are below nb, a chunk with nb bytes is not below f[j]. */
  lemma FirstOfFits(m: Arena, l: seq<int>, f: seq<int>, j: nat, x: int, nb: int)
    requires Firsts(m, l, f) && j < |f| && x in l && SizeOf(m, x) >= nb
    requires forall a | j < a < |f| :: SizeOf(m, f[a]) < nb
    ensures SizeOf(m, f[j]) <= SizeOf(m, x)
  {
    var k :| 0 <= k < |l| && l[k] == x;
    var a := FirstOfItsSize(m, l, f, k);
    assert a < j ==> SizeOf(m, f[a]) > SizeOf(m, f[j]);
  }

  lemma FirstSlot(m: Arena, l: seq<int>, f: seq<int>, j: nat) returns (k: nat)
    requires Firsts(m, l, f) && j < |f|
    ensures k < |l| && l[k] == f[j] && FirstOfSize(m, l, k)
  {
    assert f[j] in f;
    k :| 0 <= k < |l| && l[k] == f[j];
  }

  /** Every size larger than the one sought lies before its place. */
  lemma LargerBefore(m: Arena, l: seq<int>, f: seq<int>, j: nat, k: nat, size: int)
    requires Firsts(m, l, f) && Descending(m, l) && j < |f| && k < |l| && l[k] == f[j] && FirstOfSize(m, l, k)
    requires forall i | 0 <= i < j :: SizeOf(m, f[i]) > size
    ensures k > 0 ==> SizeOf(m, l[k - 1]) > size
  {
    hide Firsts, Descending, FirstOfSize;
    if k > 0 {
      var i := FirstOfItsSize(m, l, f, k - 1);
      StepDown(m, l, k);
      LargerIsEarlier(m, l, f, i, j);
    }
  }

  lemma StepDown(m: Arena, l: seq<int>, k: nat)
    requires Descending(m, l) && 0 < k < |l| && FirstOfSize(m, l, k)
    ensures SizeOf(m, l[k - 1]) > SizeOf(m, l[k])
  {
    assert SizeOf(m, l[k - 1]) >= SizeOf(m, l[k]);
  }

  lemma LargerIsEarlier(m: Arena, l: seq<int>, f: seq<int>, i: nat, j: nat)
    requires Firsts(m, l, f)
    requires i < |f| && j < |f| && SizeOf(m, f[i]) > SizeOf(m, f[j])
    ensures i < j
  {
  }

  /** The smallest size of a bin ends its size ring. */
  lemma SmallestLast(m: Arena, l: seq<int>, f: seq<int>)
    requires Firsts(m, l, f) && Descending(m, l) && l != []
    ensures f != [] && f[0] == l[0] && SizeOf(m, f[|f| - 1]) == SizeOf(m, l[|l| - 1])
  {
    hide Firsts, Descending, FirstOfSize;
    var j := FirstOfItsSize(m, l, f, |l| - 1);
    var k := FirstSlot(m, l, f, |f| - 1);
    FirstsFall(m, l, f, j, |f| - 1);
    SizesFall(m, l, k, |l| - 1);
    var j0 := HeadIsFirst(m, l, f);
    var k0 := FirstSlot(m, l, f, 0);
    SizesFall(m, l, 0, k0);
    FirstsFall(m, l, f, 0, j0);
  }

  lemma SizesFall(m: Arena, l: seq<int>, i: nat, j: nat)
    requires Descending(m, l) && i <= j < |l|
    ensures SizeOf(m, l[i]) >= SizeOf(m, l[j])
  {
  }

  lemma FirstsFall(m: Arena, l: seq<int>, f: seq<int>, i: nat, j: nat)
    requires Firsts(m, l, f) && i <= j < |f|
    ensures i < j ==> SizeOf(m, f[i]) > SizeOf(m, f[j])
  {
  }

  lemma HeadIsFirst(m: Arena, l: seq<int>, f: seq<int>) returns (j: nat)
    requires Firsts(m, l, f) && l != []
    ensures j < |f| && f[j] == l[0]
  {
    assert FirstOfSize(m, l, 0) && l[0] in f;
    j :| 0 <= j < |f| && f[j] == l[0];
  }

  lemma FollowerPut(m: Arena, fdn: Links, bkn: Links, l: seq<int>, f: seq<int>, k: nat, p: int)
    requires SizeRing(m, fdn, bkn, l, f) && NoDup(l) && p !in l
    requires 0 < k <= |l| && SizeOf(m, l[k - 1]) == SizeOf(m, p) && NoSizeLinks(fdn, bkn, p)
    ensures SizeRing(m, fdn, bkn, With(l, k, p), f)
  {
    PutFollower(m, l, f, k, p);
    WithNoDup(l, k, p);
  }

  lemma FirstPut(m: Arena, fdn: Links, bkn: Links, l: seq<int>, f: seq<int>, k: nat, j: nat, p: int, v: int, n: int)
    requires SizeRing(m, fdn, bkn, l, f) && NoDup(l) && Descending(m, l) && p !in l && f != [] &&
        NewSize(m, l, f, k, j, p)
    requires v == (if j > 0 then f[j - 1] else f[|f| - 1]) && n == (if j < |f| then f[j] else f[0])
    ensures v in l && n in l
    ensures SizeRing(m, fdn[p := n][v := p], bkn[p := v][n := p], With(l, k, p), With(f, j, p))
  {
    PutFirst(m, l, f, k, j, p);
    assert v in f && n in f && p !in f;
    WithNoDup(l, k, p);
    WithNoDup(f, j, p);
    hide Firsts, Descending, NewSize, With, NoDup, Joined;
    RingWith(fdn, bkn, f, j, p, v, n);
    FollowersWith(fdn, bkn, l, f, With(l, k, p), With(f, j, p), p, v, n);
  }

  lemma FollowersWith(fdn: Links, bkn: Links, l: seq<int>, f: seq<int>, l': seq<int>, f': seq<int>, p: int, v: int,
        n: int)
    requires Followers(fdn, bkn, l, f) && v in f && n in f
    requires (forall x :: x in l' <==> x in l || x == p) && (forall x :: x in f' <==> x in f || x == p)
    ensures Followers(fdn[p := n][v := p], bkn[p := v][n := p], l', f')
  {
  }

  lemma OnlyPut(m: Arena, fdn: Links, bkn: Links, p: int)
    ensures SizeRing(m, fdn[p := p], bkn[p := p], With([], 0, p), [p])
  {
    assert With([], 0, p) == [p];
    assert Joined(fdn[p := p], bkn[p := p], [p], 0);
  }

  /** The size ring at its j-th first chunk. */
  lemma SizeRingAt(m: Arena, fdn: Links, bkn: Links, l: seq<int>, f: seq<int>, j: nat)
    requires SizeRing(m, fdn, bkn, l, f) && j < |f|
    ensures f[j] in l && f[j] in fdn && fdn[f[j]] == (if j + 1 < |f| then f[j + 1] else f[0])
    ensures f[j] in bkn && bkn[f[j]] == (if j > 0 then f[j - 1] else f[|f| - 1])
    ensures bkn[f[j]] in fdn && fdn[bkn[f[j]]] == f[j]
  {
    RingMirror(fdn, bkn, f, j);
    assert f[j] in f;
  }

  lemma LoneUnsorted(m: Arena, l: seq<int>, p: int)
    requires p in m && m[p].kind == Free(1) && l == [p]
    ensures p !in Live(m) && Without(l, 0) == []
  {
  }

  lemma KeptSame(m: Arena, m': Arena)
    requires Kept(m') == Kept(m)
    ensures Live(m') == Live(m) && (NoHeld(m) ==> NoHeld(m')) && FastLess(m, m')
  {
    KeptLive(m, m', {});
    assert Live(m) - {} == Live(m) && Kept(m) - {} == Kept(m);
    forall x | x in m' && InUse(m'[x].kind) ensures x in m && m[x] == m'[x] {
      assert x in Kept(m') && x in Kept(m) && Kept(m)[x] == Kept(m')[x];
    }
  }

  lemma KeptLiveMoreFast(m: Arena, m': Arena, p: int, size: int)
    requires Kept(m') == Kept(m)[p := Chunk(size, Used)]
    ensures FastLess(m, m')
  {
    forall x | x in m' && InUse(m'[x].kind) ensures x == p || (x in m && m[x] == m'[x]) {
      assert x in Kept(m');
    }
    assert p in Kept(m') && Kept(m')[p].kind == Used;
  }

  lemma LastRemainderLoose(m: Arena, p: int, nb: int)
    requires NoLoose(m) && p in m && nb != 0
    ensures Split(m[p := Chunk(m[p].size, Free(0))], p, nb, Used, Free(0))[p + nb :=
        Chunk(m[p].size - nb, Free(1))] == Split(m, p, nb, Used, Free(1))
    ensures NoLoose(Split(m, p, nb, Used, Free(1)))
  {
  }

  // ----- best fit -----

  /** In a sorted bin: not detached, not unsorted. */
  ghost predicate InSortedBin(m: Arena, x: int) {
    x in m && m[x].kind.Free? && m[x].kind.bin > 1
  }

  /** v is a smallest chunk of the sorted bins that has at least nb bytes. */
  ghost predicate BestFit(m: Arena, v: int, nb: int) {
    InSortedBin(m, v) && m[v].size >= nb && forall x | InSortedBin(m, x) && m[x].size >= nb :: m[v].size <= m[x].size
  }

  /** No chunk of bin i has nb bytes. */
  ghost predicate NoneFits(m: Arena, l: seq<int>, nb: int) {
    forall x | x in l :: SizeOf(m, x) < nb
  }

  lemma InBinList(m: Arena, bins: Bins, i: nat)
    requires Binned(m, bins) && 0 < i < NBINS
    ensures |bins| == NBINS && forall x :: x in bins[i] <==> x in m && m[x].kind == Free(i)
  {
    forall x | x in m && m[x].kind == Free(i) ensures x in bins[i] {
      assert InBin(m, x);
    }
  }

  /** A smallest fitting chunk of the bin of nb is a best fit: later bins hold larger chunks. */
  lemma BestInOwnBin(m: Arena, bins: Bins, v: int, nb: nat)
    requires Binned(m, bins) && InSortedBin(m, v) && m[v].kind.bin == BinIndex(nb) && m[v].size >= nb
    requires forall x | x in m && m[x].kind == m[v].kind && m[x].size >= nb :: m[v].size <= m[x].size
    ensures BestFit(m, v, nb)
  {
    forall x | InSortedBin(m, x) && m[x].size >= nb ensures m[v].size <= m[x].size {
      assert InBin(m, x) && InBin(m, v);
      BinIndexMonotone(nb, m[x].size);
      if m[x].kind.bin != BinIndex(nb) && m[x].size < m[v].size { BinIndexMonotone(m[x].size, m[v].size); }
    }
  }

  /** So is the last chunk of the first non-empty bin after one that cannot serve nb. */
  lemma BestInLaterBin(m: Arena, bins: Bins, i: nat, nb: nat)
    requires Binned(m, bins) && 1 < BinIndex(nb) < i < NBINS && bins[i] != []
    requires NoneFits(m, bins[BinIndex(nb)], nb) && forall j | BinIndex(nb) < j < i :: bins[j] == []
    ensures bins[i][|bins[i]| - 1] in m && BestFit(m, bins[i][|bins[i]| - 1], nb)
  {
    BinnedChunk(m, bins, i, |bins[i]| - 1);
    var v := bins[i][|bins[i]| - 1];
    if m[v].size < nb { BinIndexMonotone(m[v].size, nb); }
    forall x | InSortedBin(m, x) && m[x].size >= nb ensures m[v].size <= m[x].size {
      LaterBinLarger(m, bins, i, nb, x);
    }
  }

  lemma LaterBinLarger(m: Arena, bins: Bins, i: nat, nb: nat, x: int)
    requires Binned(m, bins) && 1 < BinIndex(nb) < i < NBINS && bins[i] != []
    requires NoneFits(m, bins[BinIndex(nb)], nb) && forall j | BinIndex(nb) < j < i :: bins[j] == []
    requires InSortedBin(m, x) && m[x].size >= nb
    ensures SizeOf(m, bins[i][|bins[i]| - 1]) <= m[x].size
  {
    BinnedChunk(m, bins, i, |bins[i]| - 1);
    var v, b := bins[i][|bins[i]| - 1], m[x].kind.bin;
    assert InBin(m, x) && x in bins[b];
    BinIndexMonotone(nb, m[x].size);
    assert b != BinIndex(nb) by { assert SizeOf(m, x) == m[x].size; }
    assert b >= i;
    if b == i {
      var k :| 0 <= k < |bins[i]| && bins[i][k] == x;
      assert Descending(m, bins[i]);
    } else if m[x].size < m[v].size {
      BinIndexMonotone(m[x].size, m[v].size);
    }
  }

  /** When neither the bin of nb nor any later one can serve it, no sorted bin can. */
  lemma NoFit(m: Arena, bins: Bins, nb: nat)
    requires Binned(m, bins) && 1 < BinIndex(nb) < NBINS
    requires NoneFits(m, bins[BinIndex(nb)], nb) && forall j | BinIndex(nb) < j < NBINS :: bins[j] == []
    ensures forall x | InSortedBin(m, x) :: m[x].size < nb
  {
    forall x | InSortedBin(m, x) ensures m[x].size < nb {
      assert InBin(m, x) && x in bins[m[x].kind.bin] && SizeOf(m, x) == m[x].size;
      if m[x].size >= nb {
        BinIndexMonotone(nb, m[x].size);
      }
    }
  }

  // ----- what the bitmap scan learns -----

  lemma ClearBitEmpty(binmap: seq<nat>, bins: Bins, i: nat)
    requires Bitmap(binmap, bins) && 2 <= i < NBINS && !TestBit(binmap[i / 32], i % 32)
    ensures bins[i] == []
  {
    assert !BitOf(binmap, i);
  }

  /** When the next bit is above the word, the rest of its bins are empty. */
  lemma RestOfWord(binmap: seq<nat>, bins: Bins, bin: nat, block: nat)
    requires Bitmap(binmap, bins) && block < 4 && bin / 32 == block && bin >= 2
    requires Bit(bin % 32) > binmap[block]
    ensures forall j | bin <= j < 32 * (block + 1) :: bins[j] == []
  {
    BitsFrom(binmap[block], bin % 32);
    forall j | bin <= j < 32 * (block + 1) ensures bins[j] == [] {
      assert j / 32 == block && j % 32 == j - 32 * block && bin % 32 == bin - 32 * block;
      ClearBitEmpty(binmap, bins, j);
    }
  }

  lemma ZeroWord(binmap: seq<nat>, bins: Bins, block: nat)
    requires Bitmap(binmap, bins) && 0 < block < 4 && binmap[block] == 0
    ensures forall j | 32 * block <= j < 32 * (block + 1) :: bins[j] == []
  {
    assert Bit(0) > binmap[block];
    RestOfWord(binmap, bins, 32 * block, block);
  }

  /** When it is not, some later bit of the word is set. */
  lemma BitAhead(w: nat, k: nat) returns (j: nat)
    requires k < 32 && w < WORD && Bit(k) <= w
    ensures k <= j < 32 && TestBit(w, j)
  {
    BitsFrom(w, k);
    j :| k <= j < 32 && TestBit(w, j);
  }

  /** Chunks in sorted bins are ones that were there before. */
  ghost predicate SortedKept(m: Arena, m': Arena) {
    && (forall x | InSortedBin(m', x) :: x in m && m'[x] == m[x])
    && (forall x | x in m' :: x in m && m'[x].size >= m[x].size)
    && (forall x | InSortedBin(m, x) && x in m' :: m'[x] == m[x] || m'[x].size > m[x].size)
  }

  lemma SortedKeptSelf(m: Arena)
    ensures SortedKept(m, m)
  {
  }

  lemma SortedKeptTwice(m: Arena, m1: Arena, m2: Arena)
    requires SortedKept(m, m1) && SortedKept(m1, m2)
    ensures SortedKept(m, m2)
  {
  }

  lemma ReleasedSortedKept(m: Arena, m': Arena, base: int, end: int, p: int, lo: int, size: int, top0: int, top: int)
    requires Space(m, base, top0, end) && Released(m, m', p, lo, size, top) && !m[p].kind.Free?
    ensures SortedKept(m, m')
  {
    Apart(m, base, top0, end, lo, p);
  }

  lemma MergedSortedKept(m: Arena, base: int, top: int, end: int, lo: int, p: int, n: int, hi: int)
    requires Space(m, base, top, end) && lo in m && p in m && p != top && n == Next(m, p) && !InSortedBin(m, lo)
    requires lo == p || Next(m, lo) == p
    requires hi == n || (n in m && Next(m, n) == hi)
    ensures SortedKept(m, Merged(m, lo, hi, Free(1)))
  {
    RunOfChunks(m, base, top, end, lo, p, n, hi);
  }

  lemma DetachedSortedKept(m: Arena, i: nat)
    ensures SortedKept(m, Detached(m, i))
  {
  }

  /** No chunk joins a sorted bin. */
  ghost predicate OnlyLosses(bins: Bins, bins': Bins) {
    |bins| == |bins'| == NBINS && forall i, x | 2 <= i < NBINS && x in bins'[i] :: x in bins[i]
  }

  lemma LossesFrom(m: Arena, bins: Bins, m': Arena, bins': Bins)
    requires Binned(m, bins) && Binned(m', bins') && SortedKept(m, m')
    ensures OnlyLosses(bins, bins')
  {
    forall i, x | 2 <= i < NBINS && x in bins'[i] ensures x in bins[i] {
      assert InSortedBin(m', x) && InBin(m, x);
    }
  }
}
