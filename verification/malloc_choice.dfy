/**
  Which chunk a request gets, stated of the arena and lists as they were before the call,
  and what that amounts to: the best fit.
 */
module ChunkChoice {
  import opened MallocSizes
  import opened ArenaModel
  import opened LinkedRings
  import opened FreeStore
  import opened ChunkLists

  /** What the words in memory mean: the chunk space, the bins, the first chunks of each
      size in them, and the fastbins. */
  datatype Shape = Shape(m: Arena, bins: Bins, firsts: Bins, fasts: Bins)

  ghost function ListsOf(g: Shape): Lists {
    Lists(g.m, g.bins, g.fasts)
  }

  /** How many unsorted chunks one round of the search handles. */
  const MAX_ITERS: nat := 10000

  /** Where an allocation came from: its fastbin; its small bin; place k of the unsorted
      list; the sorted bins; top. */
  datatype Origin = FastList | SmallBin | Unsorted(k: nat) | SortedBin | TopChunk

  /** The bin that would serve a small request exactly is empty. */
  ghost predicate SmallBinEmpty(bins: Bins, nb: int)
    requires ChunkSized(nb)
  {
    InSmallbinRange(nb) ==> |bins| == NBINS && bins[SmallbinIndex(nb)] == []
  }

  // ----- sorting the unsorted list -----

  function InItsBin(c: Chunk): Chunk {
    Chunk(c.size, Free(BinIndex(if c.size >= 0 then c.size else 0)))
  }

  /** The arena once the chunks of l are in the bins of their sizes. */
  ghost function Sorted(m: Arena, l: seq<int>): Arena {
    map x | x in m :: if x in l then InItsBin(m[x]) else m[x]
  }

  /** The part of the unsorted list that one round handles: its end, from here. */
  function RoundStart(l: seq<int>): nat {
    if |l| <= MAX_ITERS then 0 else |l| - MAX_ITERS
  }

  /** The arena in which a round searches the bins. */
  ghost function RoundArena(m: Arena, l: seq<int>): Arena {
    Sorted(m, l[RoundStart(l)..])
  }

  /** Unsorted chunk k is handed out instead of being sorted: it fits exactly, or it is the
      last remainder, has been left alone, and the request is small. */
  ghost predicate Stops(m: Arena, l: seq<int>, k: nat, nb: int, remainder: int)
    requires k < |l|
  {
    SizeOf(m, l[k]) == nb || (k == 0 && InSmallbinRange(nb) && l[0] == remainder && SizeOf(m, l[0]) > nb + MINSIZE)
  }

  ghost predicate NoneStops(m: Arena, l: seq<int>, from: nat, nb: int, remainder: int) {
    forall k | from <= k < |l| :: !Stops(m, l, k, nb, remainder)
  }

  ghost predicate NoneLarge(m: Arena, nb: int) {
    forall x | InSortedBin(m, x) :: m[x].size < nb
  }

  /** What one round chooses: the last unsorted chunk that stops it; else, with the others
      sorted, the best fit; else top. */
  ghost predicate RoundChoice(how: Origin, m: Arena, l: seq<int>, v: int, nb: int, remainder: int) {
    match how
    case Unsorted(k) => RoundStart(l) <= k < |l| && v == l[k] && Stops(m, l, k, nb, remainder) &&
        NoneStops(m, l, k + 1, nb, remainder)
    case SortedBin => NoneStops(m, l, RoundStart(l), nb, remainder) && BestFit(RoundArena(m, l), v, nb)
    case TopChunk =>
      NoneStops(m, l, RoundStart(l), nb, remainder) && NoneLarge(RoundArena(m, l), nb) && v in m && m[v].kind == Top
    case _ => false
  }

  /** One round finds nothing. */
  ghost predicate RoundFails(m: Arena, l: seq<int>, nb: int, remainder: int) {
    && NoneStops(m, l, RoundStart(l), nb, remainder) && NoneLarge(RoundArena(m, l), nb)
    && forall x | x in m && m[x].kind == Top :: m[x].size < nb + MINSIZE
  }

  ghost predicate FastEmptyFor(fasts: Bins, nb: int, limit: nat)
    requires ChunkSized(nb)
  {
    nb <= limit ==> 0 <= FastbinIndex(nb) < |fasts| && fasts[FastbinIndex(nb)] == []
  }

  /** What the search chooses from these lists: the chunk freed last of its fastbin, else
      the oldest of its small bin, else what a round chooses. */
  ghost predicate Chosen(how: Origin, h: Shape, v: int, nb: int, limit: nat, remainder: int)
    requires ChunkSized(nb)
  {
    match how
    case FastList =>
      var i := FastbinIndex(nb);
      nb <= limit && 0 <= i < |h.fasts| && h.fasts[i] != [] && v == h.fasts[i][0] && v in h.m &&
          h.m[v] == Chunk(nb, Fast(i))
    case SmallBin =>
      var i := SmallbinIndex(nb);
      && FastEmptyFor(h.fasts, nb, limit) && InSmallbinRange(nb)
      && i < |h.bins| && h.bins[i] != [] && v == h.bins[i][|h.bins[i]| - 1] && v in h.m && h.m[v].size == nb
    case _ =>
      && FastEmptyFor(h.fasts, nb, limit) && SmallBinEmpty(h.bins, nb)
      && |h.bins| == NBINS && RoundChoice(how, h.m, h.bins[1], v, nb, remainder)
  }

  // ----- the lists afterwards -----

  /** The bins once a round has filed the unsorted chunks it handles. */
  ghost function RoundBins(m: Arena, bins: Bins): (r: Bins)
    requires |bins| == NBINS
    ensures |r| == NBINS
  {
    var l := bins[1];
    FiledAll(m, bins, l[RoundStart(l)..])[1 := l[..RoundStart(l)]]
  }

  /** The bins when unsorted chunk k has stopped the round: the older ones are filed, and
      chunk k is gone, or what is left of it is the only unsorted chunk. */
  ghost function StopBins(m: Arena, bins: Bins, k: nat, nb: int): Bins
    requires |bins| == NBINS && k < |bins[1]|
  {
    var l := bins[1];
    FiledAll(m, bins, l[k + 1..])[1 := if SizeOf(m, l[k]) == nb then l[..k] else [l[k] + nb]]
  }

  /** The bins when chunk v has been taken for nb bytes; what is left of it, if that makes a
      chunk, goes to the front of the unsorted list. */
  ghost function CutBins(m: Arena, bins: Bins, v: int, nb: int): Bins
    requires |bins| == NBINS
  {
    var b := RemovedFrom(bins, v);
    if SizeOf(m, v) - nb < MINSIZE then b else b[1 := [v + nb] + b[1]]
  }

  /** Of the smallest chunks that fit: in the request's own bin the second of its size if
      there is one, in a later bin the last, the oldest. */
  ghost predicate Picked(m: Arena, bins: Bins, v: int, nb: int)
    requires ChunkSized(nb) && |bins| == NBINS
  {
    exists i: nat, k: nat :: PickedAt(m, bins, v, nb, i, k)
  }

  ghost predicate PickedAt(m: Arena, bins: Bins, v: int, nb: int, i: nat, k: nat)
    requires ChunkSized(nb) && |bins| == NBINS
  {
    && i < NBINS && k < |bins[i]| && bins[i][k] == v
    && if i == BinIndex(nb) then SecondOfSize(m, bins[i], k)
       else BinIndex(nb) < i && k == |bins[i]| - 1 && forall j | BinIndex(nb) < j < i :: bins[j] == []
  }

  ghost predicate SecondOfSize(m: Arena, l: seq<int>, k: nat)
    requires k < |l|
  {
    if FirstOfSize(m, l, k) then k + 1 < |l| ==> SizeOf(m, l[k + 1]) != SizeOf(m, l[k])
    else FirstOfSize(m, l, k - 1)
  }

  /** What the search leaves behind when it has served nb bytes from chunk v: the bins, the
      fastbins and the last remainder. */
  ghost predicate Leaves(how: Origin, h: Shape, v: int, nb: int, remainder: int, bins: Bins, fasts: Bins,
        remainder': int)
    requires ChunkSized(nb)
  {
    && |h.bins| == NBINS
    && match how
       case FastList =>
         var i := FastbinIndex(nb);
         && 0 <= i < |h.fasts| && h.fasts[i] != [] && fasts == h.fasts[i := h.fasts[i][1..]]
         && bins == h.bins && remainder' == remainder
       case SmallBin => bins == RemovedFrom(h.bins, v) && fasts == h.fasts && remainder' == remainder
       case Unsorted(k) =>
         && k < |h.bins[1]| && bins == StopBins(h.m, h.bins, k, nb) && fasts == h.fasts
         && remainder' == if SizeOf(h.m, v) == nb then remainder else v + nb
       case SortedBin =>
         var r := RoundBins(h.m, h.bins);
         && Picked(h.m, r, v, nb) && bins == CutBins(h.m, r, v, nb) && fasts == h.fasts
         && remainder' == if InSmallbinRange(nb) && SizeOf(h.m, v) - nb >= MINSIZE then v + nb else remainder
       case TopChunk => bins == RoundBins(h.m, h.bins) && fasts == h.fasts && remainder' == remainder
  }

  /** Sorting changes no sizes. */
  lemma SortedSizes(m: Arena, l: seq<int>)
    ensures forall x :: SizeOf(Sorted(m, l), x) == SizeOf(m, x)
  {
  }

  lemma FiledNone(m: Arena, bins: Bins, l: seq<int>)
    requires |bins| == NBINS && l == bins[1]
    ensures FiledAll(m, bins, l[|l|..])[1 := l[..|l|]] == bins
  {
    assert l[|l|..] == [] && l[..|l|] == l;
  }

  lemma RoundSizes(m: Arena, l: seq<int>)
    ensures forall x :: SizeOf(RoundArena(m, l), x) == SizeOf(m, x)
  {
    SortedSizes(m, l[RoundStart(l)..]);
  }

  lemma LeavesFast(h: Shape, v: int, nb: int, remainder: int)
    requires ChunkSized(nb) && |h.bins| == NBINS && 0 <= FastbinIndex(nb) < |h.fasts| && h.fasts[FastbinIndex(nb)] != []
    ensures Leaves(FastList, h, v, nb, remainder, h.bins,
        h.fasts[FastbinIndex(nb) := h.fasts[FastbinIndex(nb)][1..]], remainder)
  {
  }

  lemma LeavesSmall(h: Shape, v: int, nb: int, remainder: int)
    requires ChunkSized(nb) && |h.bins| == NBINS
    ensures Leaves(SmallBin, h, v, nb, remainder, RemovedFrom(h.bins, v), h.fasts, remainder)
  {
  }

  lemma RoundStops(m: Arena, l: seq<int>, k: nat, nb: int, remainder: int)
    requires RoundStart(l) <= k < |l| && Stops(m, l, k, nb, remainder) && NoneStops(m, l, k + 1, nb, remainder)
    ensures RoundChoice(Unsorted(k), m, l, l[k], nb, remainder)
  {
    hide Stops, NoneStops;
  }

  lemma RoundSorted(m: Arena, bins: Bins)
    requires |bins| == NBINS
    ensures RoundArena(m, bins[1]) == Sorted(m, bins[1][RoundStart(bins[1])..])
    ensures var l := bins[1]; RoundBins(m, bins) == FiledAll(m, bins, l[RoundStart(l)..])[1 := l[..RoundStart(l)]]
  {
    hide Sorted, FiledAll;
  }

  lemma LeavesStop(h: Shape, k: nat, nb: int, remainder: int, bins: Bins, fasts: Bins, remainder': int)
    requires ChunkSized(nb) && |h.bins| == NBINS && k < |h.bins[1]| && fasts == h.fasts
    requires var l := h.bins[1];
        bins == FiledAll(h.m, h.bins, l[k + 1..])[1 := if SizeOf(h.m, l[k]) == nb then l[..k] else [l[k] + nb]]
    requires remainder' == if SizeOf(h.m, h.bins[1][k]) == nb then remainder else h.bins[1][k] + nb
    ensures Leaves(Unsorted(k), h, h.bins[1][k], nb, remainder, bins, fasts, remainder')
  {
    hide FiledAll;
  }

  lemma LeavesTop(h: Shape, nb: int, remainder: int)
    requires ChunkSized(nb) && |h.bins| == NBINS
    ensures forall v :: Leaves(TopChunk, h, v, nb, remainder, RoundBins(h.m, h.bins), h.fasts, remainder)
  {
  }

  /** The same, told of the arena that a round has sorted. */
  lemma LeavesSorted(h: Shape, m: Arena, b: Bins, v: int, nb: int, remainder: int, bins: Bins, fasts: Bins,
        remainder': int)
    requires ChunkSized(nb) && |h.bins| == NBINS && b == RoundBins(h.m, h.bins)
    requires forall x :: SizeOf(m, x) == SizeOf(h.m, x)
    requires Picked(m, b, v, nb) && bins == CutBins(m, b, v, nb) && fasts == h.fasts
    requires remainder' == if InSmallbinRange(nb) && SizeOf(m, v) - nb >= MINSIZE then v + nb else remainder
    ensures Leaves(SortedBin, h, v, nb, remainder, bins, fasts, remainder')
  {
    hide Picked, RoundBins, RemovedFrom;
    PickedSame(m, h.m, b, v, nb);
    assert SizeOf(m, v) == SizeOf(h.m, v);
  }

  /** In a large bin a tie goes to the chunk that was filed last, not to the one that has been
      there longest, unless that is alone: a new chunk goes second, and the second is taken. */
  lemma TieGoesToNewest(m: Arena, l: seq<int>, f: nat, x: int)
    requires Descending(m, l) && f < |l| && FirstOfSize(m, l, f) && SizeOf(m, l[f]) == SizeOf(m, x)
    ensures var l' := With(l, Place(m, l, SizeOf(m, x)), x);
      && f + 1 < |l'| && l'[f + 1] == x
      && forall j | 0 <= j < |l'| && SizeOf(m, l'[j]) == SizeOf(m, x) :: SecondOfSize(m, l', j) <==> j == f + 1
  {
    hide Place;
    var size := SizeOf(m, x);
    if f > 0 { StepDown(m, l, f); }
    PlaceAt(m, l, f, size);
    var l' := With(l, f + 1, x);
    assert forall j | 0 <= j < |l'| :: l'[j] == if j <= f then l[j] else if j == f + 1 then x else l[j - 1];
    forall a | 0 <= a < f ensures SizeOf(m, l[a]) > size {
      assert a == f - 1 || SizeOf(m, l[a]) >= SizeOf(m, l[f - 1]);
    }
    forall j: nat | j < |l'| && SizeOf(m, l'[j]) == size ensures FirstOfSize(m, l', j) <==> j == f {
      if j > f + 1 { assert SizeOf(m, l[f]) >= SizeOf(m, l[j - 2]) >= SizeOf(m, l[j - 1]); }
    }
  }

  lemma PickedSame(m: Arena, m': Arena, bins: Bins, v: int, nb: int)
    requires ChunkSized(nb) && |bins| == NBINS && Picked(m, bins, v, nb)
    requires forall x :: SizeOf(m', x) == SizeOf(m, x)
    ensures Picked(m', bins, v, nb)
  {
    hide BinIndex;
    var i: nat, k: nat :| PickedAt(m, bins, v, nb, i, k);
    assert PickedAt(m', bins, v, nb, i, k);
  }

  /** One more chunk of the unsorted list is filed. */
  lemma FiledStep(m: Arena, m': Arena, bins: Bins, l: seq<int>, k: nat)
    requires |bins| == NBINS && k < |l| && ChunkSized(SizeOf(m, l[k])) && forall x :: SizeOf(m', x) == SizeOf(m, x)
    ensures Filed(m', FiledAll(m, bins, l[k + 1..])[1 := l[..k]], l[k]) == FiledAll(m, bins, l[k..])[1 := l[..k]]
  {
    hide Filed;
    var b := FiledAll(m, bins, l[k + 1..]);
    assert l[k..][0] == l[k] && l[k..][1..] == l[k + 1..];
    FiledSame(m, m', b[1 := l[..k]], l[k]);
    FiledBesides(m, b, l[k], l[..k]);
  }

  // ----- one step of sorting -----

  lemma SortedStart(m: Arena, l: seq<int>)
    ensures Sorted(m, l[|l|..]) == m
  {
  }

  lemma SortedSize(m: Arena, l: seq<int>, x: int)
    requires x in m
    ensures x in Sorted(m, l) && Sorted(m, l)[x].size == m[x].size
  {
  }

  lemma SortedMember(m: Arena, l: seq<int>, x: int)
    requires x in Sorted(m, l)
    ensures x in m
  {
  }

  /** Chunk k joins those that are sorted. */
  lemma SortedStep(m: Arena, l: seq<int>, k: nat)
    requires k < |l| && l[k] in m
    ensures l[k] in Sorted(m, l[k + 1..])
    ensures Sorted(m, l[k..]) == Sorted(m, l[k + 1..])[l[k] := InItsBin(Sorted(m, l[k + 1..])[l[k]])]
  {
    var s, r := l[k + 1..], l[k..];
    assert r == [l[k]] + s;
    forall x ensures x in r <==> x == l[k] || x in s {}
    var a, b := Sorted(m, r), Sorted(m, s)[l[k] := InItsBin(Sorted(m, s)[l[k]])];
    forall x | x in m ensures x in b && a[x] == b[x] { SortedSize(m, s, x); }
    assert a.Keys == b.Keys;
  }

  lemma StopsIs(m: Arena, l: seq<int>, k: nat, nb: int, remainder: int, size: int)
    requires k < |l| && l[k] in m && m[l[k]].size == size
    ensures Stops(m, l, k, nb, remainder) <==>
        size == nb || (k == 0 && InSmallbinRange(nb) && l[k] == remainder && size > nb + MINSIZE)
    ensures NoneStops(m, l, k + 1, nb, remainder) && !Stops(m, l, k, nb, remainder) ==>
        NoneStops(m, l, k, nb, remainder)
  {
  }

  lemma NoneStopsYet(m: Arena, l: seq<int>, nb: int, remainder: int)
    ensures NoneStops(m, l, |l|, nb, remainder)
  {
  }

  /** Sorting leaves top alone. */
  lemma RoundTop(m: Arena, l: seq<int>, base: int, top: int, end: int, nb: int)
    requires Space(m, base, top, end) && SizeOf(RoundArena(m, l), top) < nb + MINSIZE
    ensures forall x | x in m && m[x].kind == Top :: m[x].size < nb + MINSIZE
  {
    SortedSize(m, l[RoundStart(l)..], top);
  }

  lemma ChosenBest(m: Arena, l: seq<int>, v: int, nb: int, remainder: int)
    requires NoneStops(m, l, RoundStart(l), nb, remainder)
    ensures BestFit(RoundArena(m, l), v, nb) ==> RoundChoice(SortedBin, m, l, v, nb, remainder)
    ensures NoneLarge(RoundArena(m, l), nb) && v in m && m[v].kind == Top ==>
        RoundChoice(TopChunk, m, l, v, nb, remainder)
  {
  }

  /** A round's choice is the search's when no list has a chunk of exactly the size. */
  lemma ChosenInRound(how: Origin, h: Shape, v: int, nb: int, limit: nat, remainder: int)
    requires ChunkSized(nb) && FastEmptyFor(h.fasts, nb, limit) && SmallBinEmpty(h.bins, nb)
    requires |h.bins| == NBINS && RoundChoice(how, h.m, h.bins[1], v, nb, remainder)
    ensures Chosen(how, h, v, nb, limit, remainder)
  {
  }

  lemma NoFastEntries(fasts: Bins, nb: int, limit: nat)
    requires ChunkSized(nb) && limit <= MAX_FAST_SIZE && |fasts| == NFASTBINS && forall j | 0 <= j < NFASTBINS ::
        fasts[j] == []
    ensures FastEmptyFor(fasts, nb, limit)
  {
  }

  lemma SomeWithin(a: seq<int>, b: seq<int>)
    requires forall x | x in a :: x in b
    ensures a != [] ==> b != []
  {
    if a != [] {
      var x := a[0];
      assert x in a;
    }
  }

  lemma SmallBinStaysEmpty(bins: Bins, bins': Bins, nb: int)
    requires ChunkSized(nb) && SmallBinEmpty(bins, nb) && OnlyLosses(bins, bins')
    ensures SmallBinEmpty(bins', nb)
  {
    if InSmallbinRange(nb) {
      var i := SmallbinIndex(nb);
      assert 2 <= i < NBINS;
      SomeWithin(bins'[i], bins[i]);
    }
  }

  // ----- best fit -----

  /** A chunk that is taken from a sorted bin is the best fit of all chunks in sorted bins
      at the time of the call. */
  lemma SortedChoiceIsBestFit(how: Origin, h: Shape, v: int, nb: int, limit: nat, remainder: int)
    requires ChunkSized(nb) && Binned(h.m, h.bins) && Chosen(how, h, v, nb, limit, remainder) && InSortedBin(h.m, v)
    ensures BestFit(h.m, v, nb)
  {
    match how {
      case FastList =>
      case SmallBin =>
      case Unsorted(k) => NotSortedYet(h.m, h.bins, k);
      case SortedBin =>
        var r := RoundArena(h.m, h.bins[1]);
        forall x | InSortedBin(h.m, x)
            ensures InSortedBin(r, x) && r[x] == h.m[x] { SortedStays(h.m, h.bins, RoundStart(h.bins[1]), x); }
      case TopChunk =>
    }
  }

  lemma NotSortedYet(m: Arena, bins: Bins, k: nat)
    requires Binned(m, bins) && k < |bins[1]|
    ensures !InSortedBin(m, bins[1][k])
  {
    var x := bins[1][k];
    assert x in bins[1];
  }

  lemma SortedStays(m: Arena, bins: Bins, from: nat, x: int)
    requires Binned(m, bins) && from <= |bins[1]| && InSortedBin(m, x)
    ensures InSortedBin(Sorted(m, bins[1][from..]), x) && Sorted(m, bins[1][from..])[x] == m[x]
  {
    if x in bins[1][from..] { assert x in bins[1]; }
  }

  /** A worse chunk is never taken while a better one lies in a sorted bin. */
  lemma WorseIsNotChosen(how: Origin, h: Shape, v: int, w: int, nb: int, limit: nat, remainder: int)
    requires ChunkSized(nb) && Binned(h.m, h.bins) && InSortedBin(h.m, v) && InSortedBin(h.m, w)
    requires nb <= h.m[w].size < h.m[v].size
    ensures !Chosen(how, h, v, nb, limit, remainder)
  {
    if Chosen(how, h, v, nb, limit, remainder) { SortedChoiceIsBestFit(how, h, v, nb, limit, remainder); }
  }

  /** With no more unsorted chunks than one round handles, what the bins give is the
      smallest of all free chunks that fit, and top is cut only when none of them fits. */
  lemma ChoiceIsBestOfAll(how: Origin, h: Shape, v: int, nb: int, limit: nat, remainder: int, x: int)
    requires ChunkSized(nb) && Binned(h.m, h.bins) && NoLoose(h.m) && Chosen(how, h, v, nb, limit, remainder)
    requires |h.bins[1]| <= MAX_ITERS && x in h.m && h.m[x].kind.Free?
    ensures how == SortedBin ==>
        v in h.m && h.m[v].kind.Free? && h.m[v].size >= nb && (h.m[x].size >= nb ==> h.m[v].size <= h.m[x].size)
    ensures how == TopChunk ==> h.m[x].size < nb
  {
    if how == SortedBin || how == TopChunk {
      var r := RoundArena(h.m, h.bins[1]);
      SortedAll(h.m, h.bins, x);
      if how == SortedBin { SortedWasFree(h.m, h.bins, v); }
    }
  }

  lemma SortedAll(m: Arena, bins: Bins, x: int)
    requires Binned(m, bins) && NoLoose(m) && |bins[1]| <= MAX_ITERS && x in m && m[x].kind.Free?
    ensures InSortedBin(RoundArena(m, bins[1]), x) && RoundArena(m, bins[1])[x].size == m[x].size
  {
    assert InBin(m, x);
    assert bins[1][0..] == bins[1];
    if m[x].kind == Free(1) { BinIndexMonotone(MINSIZE, m[x].size); }
  }

  lemma SortedWasFree(m: Arena, bins: Bins, v: int)
    requires Binned(m, bins) && |bins[1]| <= MAX_ITERS && InSortedBin(RoundArena(m, bins[1]), v)
    ensures v in m && m[v].kind.Free? && RoundArena(m, bins[1])[v].size == m[v].size
  {
    assert bins[1][0..] == bins[1];
    if v in bins[1] { assert m[v].kind == Free(1); }
  }

  // ----- after consolidation -----

  /** No chunk waits in a fastbin or is in transit, and every free chunk is followed by one
      in use: nothing is left to coalesce. */
  ghost predicate Settled(m: Arena, base: int, top: int, end: int) {
    && Space(m, base, top, end) && Aligned(m) && NoFast(m) && NoHeld(m) && NoLoose(m)
    && forall x | x in m && m[x].kind.Free? :: FollowedByUse(m, x)
  }

  ghost predicate FollowedByUse(m: Arena, x: int)
    requires x in m
  {
    Next(m, x) in m && InUse(m[Next(m, x)].kind)
  }

  /** h is what m becomes when its fastbins are consolidated: settled, with the same chunks
      in use; a chunk in a sorted bin was free, and of that size, in m, and one that was in
      a sorted bin still is unless it has grown or was swallowed. */
  ghost predicate Consolidated(m: Arena, h: Shape, base: int, end: int) {
    && (exists top :: Settled(h.m, base, top, end)) && Live(h.m) == Live(m) && Binned(h.m, h.bins)
    && (forall x | InSortedBin(h.m, x) :: x in m && m[x].kind.Free? && m[x].size == h.m[x].size)
    && forall x | InSortedBin(m, x) && x in h.m :: h.m[x] == m[x] || h.m[x].size > m[x].size
  }

  /** Consolidation has one outcome: which chunks there are, and their sizes, is fixed by
      the chunks in use. */
  lemma ConsolidatedOnce(m: Arena, h1: Shape, h2: Shape, base: int, end: int)
    requires Consolidated(m, h1, base, end) && Consolidated(m, h2, base, end)
    ensures h1.m.Keys == h2.m.Keys && forall x | x in h1.m :: h1.m[x].size == h2.m[x].size
  {
    var t1 :| Settled(h1.m, base, t1, end);
    var t2 :| Settled(h2.m, base, t2, end);
    forall x | x in h1.m
        ensures x in h2.m && h2.m[x].size == h1.m[x].size { SettledSame(h1.m, h2.m, base, t1, t2, end, x, base); }
    forall x | x in h2.m ensures x in h1.m { SettledSame(h2.m, h1.m, base, t2, t1, end, x, base); }
  }

  /** Walking two settled arenas with the same chunks in use from a common chunk. */
  lemma {:induction false} SettledSame(m1: Arena, m2: Arena, base: int, t1: int, t2: int, end: int, x: int, from: int)
    requires Settled(m1, base, t1, end) && Settled(m2, base, t2, end) && Live(m1) == Live(m2)
    requires x in m1 && from in m1 && from in m2 && from <= x
    ensures x in m2 && m2[x].size == m1[x].size
    decreases x - from
  {
    SettledStep(m1, m2, base, t1, t2, end, from);
    if from < x {
      NotLast(m1, base, t1, end, from, x);
      SettledSame(m1, m2, base, t1, t2, end, x, Next(m1, from));
    }
  }

  lemma NotLast(m: Arena, base: int, top: int, end: int, a: int, x: int)
    requires Space(m, base, top, end) && a in m && x in m && a < x
    ensures a != top && Next(m, a) in m && a < Next(m, a) <= x
  {
  }

  lemma SettledStep(m1: Arena, m2: Arena, base: int, t1: int, t2: int, end: int, a: int)
    requires Settled(m1, base, t1, end) && Settled(m2, base, t2, end) && Live(m1) == Live(m2) && a in m1 && a in m2
    ensures m1[a].size == m2[a].size && (a != t1 ==> Next(m1, a) in m2)
  {
    if a in Live(m1) {
      assert a in Live(m2) && Live(m1)[a] == Live(m2)[a];
    } else {
      assert a !in Live(m2);
      FreeReach(m1, m2, base, t1, t2, end, a);
      FreeReach(m2, m1, base, t2, t1, end, a);
    }
    if a != t1 { assert a != t2 && Next(m2, a) in m2; }
  }

  /** A free chunk of m2 does not reach beyond the one of m1 at the same address. */
  lemma FreeReach(m1: Arena, m2: Arena, base: int, t1: int, t2: int, end: int, a: int)
    requires Settled(m1, base, t1, end) && Settled(m2, base, t2, end) && Live(m1) == Live(m2) && a in m1 && a in m2 &&
        a !in Live(m1)
    ensures Next(m2, a) <= Next(m1, a) && (a == t1 ==> Next(m1, a) == end) && Next(m2, a) <= end
  {
    if a != t1 {
      assert FollowedByUse(m1, a);
      var n := Next(m1, a);
      assert n in Live(m1) && n in Live(m2);
    } else if a != t2 {
      assert Next(m2, a) in m2;
    }
  }

  /** Consolidating after a round that found nothing is consolidating the arena before it. */
  lemma ConsolidatedAfterRound(m: Arena, bins: Bins, h: Shape, base: int, end: int)
    requires Binned(m, bins) && Consolidated(RoundArena(m, bins[1]), h, base, end) &&
        Live(RoundArena(m, bins[1])) == Live(m)
    ensures Consolidated(m, h, base, end)
  {
    hide Settled, Live;
    forall x | InSortedBin(h.m, x) ensures x in m && m[x].kind.Free? && m[x].size == h.m[x].size {
      SortedFreeWasFree(m, bins, RoundStart(bins[1]), x);
    }
    forall x | InSortedBin(m, x) && x in h.m ensures h.m[x] == m[x] || h.m[x].size > m[x].size {
      SortedStays(m, bins, RoundStart(bins[1]), x);
    }
  }

  lemma SortedFreeWasFree(m: Arena, bins: Bins, from: nat, x: int)
    requires Binned(m, bins) && from <= |bins[1]| && x in Sorted(m, bins[1][from..]) &&
        Sorted(m, bins[1][from..])[x].kind.Free?
    ensures x in m && m[x].kind.Free? && m[x].size == Sorted(m, bins[1][from..])[x].size
  {
    if x in bins[1][from..] { assert x in bins[1]; }
  }

  // ----- what a request is served from -----

  /** The shape that was searched, given the one at the time of the call: the same; but with
      fastbins in use a large request consolidates them first, and a small one when a first
      round has found nothing. */
  ghost predicate Searched(g: Shape, h: Shape, hadFast: bool, nb: int, remainder: int, base: int, end: int) {
    && |g.bins| == NBINS
    && if !hadFast then h == g
       else if !InSmallbinRange(nb) then TornDown(ListsOf(g), g.m, h, base, end)
       else h == g || (RoundFails(g.m, g.bins[1], nb, remainder) && TornDown(RoundLists(g), g.m, h, base, end))
  }

  /** The lists once a round has found nothing. */
  ghost function RoundLists(g: Shape): Lists
    requires |g.bins| == NBINS
  {
    Lists(RoundArena(g.m, g.bins[1]), RoundBins(g.m, g.bins), g.fasts)
  }

  /** h is what tearing down the fastbins makes of a, and so the consolidation of m. */
  ghost predicate TornDown(a: Lists, m: Arena, h: Shape, base: int, end: int) {
    TearDown(a, NFASTBINS, ListsOf(h)) && Consolidated(m, h, base, end)
  }

  lemma TornDownBy(a: Lists, m: Arena, h: Shape, base: int, end: int)
    requires TearDown(a, NFASTBINS, ListsOf(h)) && Consolidated(m, h, base, end)
    ensures TornDown(a, m, h, base, end)
  {
    hide TearDown, Consolidated;
  }

  lemma TornDownIs(a: Lists, m: Arena, h: Shape, base: int, end: int)
    requires TornDown(a, m, h, base, end)
    ensures Consolidated(m, h, base, end)
  {
    hide TearDown, Consolidated;
  }

  /** A chunk of exactly the size is looked for before anything else is done. */
  predicate AtOnce(how: Origin) {
    how.FastList? || how.SmallBin?
  }

  /** Chunk v is what the search chooses. */
  ghost predicate WellChosen(g: Shape, hadFast: bool, v: int, nb: int, limit: nat, remainder: int, base: int, end: int)
    requires ChunkSized(nb)
  {
    exists how, h :: Searched(g, h, hadFast, nb, remainder, base, end) && Chosen(how, h, v, nb, limit, remainder) &&
      (AtOnce(how) ==> h == g)
  }

  /** Chunk v is what the search chooses, and these are the bins, the fastbins and the last
      remainder that it leaves. */
  ghost predicate WellServed(g: Shape, hadFast: bool, v: int, nb: int, limit: nat, remainder: int, base: int, end: int,
        bins: Bins, fasts: Bins, remainder': int)
    requires ChunkSized(nb)
  {
    exists how, h :: Searched(g, h, hadFast, nb, remainder, base, end) && Chosen(how, h, v, nb, limit, remainder) &&
      (AtOnce(how) ==> h == g) && Leaves(how, h, v, nb, remainder, bins, fasts, remainder')
  }

  /** The search has found nothing: a round has filed the unsorted chunks, after the
      fastbins were torn down if any was in use. */
  ghost predicate NotServed(g: Shape, hadFast: bool, nb: int, remainder: int, base: int, end: int, bins: Bins) {
    exists h :: Searched(g, h, hadFast, nb, remainder, base, end) && Failed(h, hadFast, nb, remainder, bins)
  }

  ghost predicate Failed(h: Shape, hadFast: bool, nb: int, remainder: int, bins: Bins) {
    && |h.bins| == NBINS && RoundFails(h.m, h.bins[1], nb, remainder) && bins == RoundBins(h.m, h.bins)
    && (hadFast ==> NoFast(h.m))
  }

  lemma NotServedBy(g: Shape, hadFast: bool, nb: int, remainder: int, base: int, end: int, h: Shape, bins: Bins)
    requires Searched(g, h, hadFast, nb, remainder, base, end) && |h.bins| == NBINS
    requires RoundFails(h.m, h.bins[1], nb, remainder) && bins == RoundBins(h.m, h.bins) && (hadFast ==> NoFast(h.m))
    ensures NotServed(g, hadFast, nb, remainder, base, end, bins)
  {
    hide Searched, NoFast, RoundBins, RoundFails;
    assert Failed(h, hadFast, nb, remainder, bins);
  }

  lemma WellServedBy(how: Origin, h: Shape, g: Shape, hadFast: bool, v: int, nb: int, limit: nat, remainder: int,
        base: int, end: int, bins: Bins, fasts: Bins, remainder': int)
    requires ChunkSized(nb) && Searched(g, h, hadFast, nb, remainder, base, end) &&
        Chosen(how, h, v, nb, limit, remainder) && (AtOnce(how) ==> h == g)
    requires Leaves(how, h, v, nb, remainder, bins, fasts, remainder')
    ensures WellChosen(g, hadFast, v, nb, limit, remainder, base, end)
    ensures WellServed(g, hadFast, v, nb, limit, remainder, base, end, bins, fasts, remainder')
  {
    hide Searched, Chosen, Leaves, AtOnce;
  }

  /** With no fastbin in use, a request is never served from a sorted bin while a smaller
      chunk there fits. */
  lemma WorseIsNotWellChosen(g: Shape, v: int, w: int, nb: int, limit: nat, remainder: int, base: int, end: int)
    requires ChunkSized(nb) && Binned(g.m, g.bins) && InSortedBin(g.m, v) && InSortedBin(g.m, w) &&
        nb <= g.m[w].size < g.m[v].size
    ensures !WellChosen(g, false, v, nb, limit, remainder, base, end)
  {
    forall how: Origin ensures !Chosen(how, g, v, nb, limit, remainder) {
      WorseIsNotChosen(how, g, v, w, nb, limit, remainder);
    }
  }

  /** The bins hold no more chunks than there are. */
  lemma {:induction false} ListBound(l: seq<int>, s: set<int>)
    requires NoDup(l) && forall x | x in l :: x in s
    ensures |l| <= |s|
    decreases l
  {
    if l != [] {
      var t := l[1..];
      forall x | x in t ensures x in l && x != l[0] {
        var i :| 0 <= i < |t| && t[i] == x;
        assert l[i + 1] == x;
      }
      var a := l[0];
      assert a in l && a in s && a !in s - {a};
      assert s == (s - {a}) + {a};
      ListBound(t, s - {a});
    }
  }

  lemma UnsortedBound(m: Arena, bins: Bins)
    requires Binned(m, bins)
    ensures |bins[1]| <= |m|
  {
    ListBound(bins[1], m.Keys);
  }

  /** Which chunks are free is fixed by the chunks in use, too. */
  lemma FreeOnce(m: Arena, h1: Shape, h2: Shape, base: int, end: int, x: int)
    requires Consolidated(m, h1, base, end) && Consolidated(m, h2, base, end) && x in h1.m
    ensures x in h2.m && h2.m[x].size == h1.m[x].size && (h1.m[x].kind.Free? <==> h2.m[x].kind.Free?)
    ensures h1.m[x].kind == Top <==> h2.m[x].kind == Top
  {
    ConsolidatedOnce(m, h1, h2, base, end);
    var t1 :| Settled(h1.m, base, t1, end);
    var t2 :| Settled(h2.m, base, t2, end);
    SettledKind(h1.m, base, t1, end, x);
    SettledKind(h2.m, base, t2, end, x);
  }

  lemma SettledKind(m: Arena, base: int, top: int, end: int, x: int)
    requires Settled(m, base, top, end) && x in m
    ensures m[x].kind == Top <==> Next(m, x) == end
    ensures m[x].kind.Free? <==> m[x].kind != Top && x !in Live(m)
  {
  }

  /** What a large request is served from a shape whose unsorted list one round can sort. */
  lemma LargeChoiceIsBest(how: Origin, h: Shape, v: int, nb: int, limit: nat, remainder: int, x: int)
    requires ChunkSized(nb) && !InSmallbinRange(nb) && limit <= MAX_FAST_SIZE
    requires Binned(h.m, h.bins) && NoLoose(h.m) && Chosen(how, h, v, nb, limit, remainder)
    requires |h.bins[1]| <= MAX_ITERS && x in h.m && h.m[x].kind.Free?
    ensures v in h.m && (h.m[v].kind.Free? || h.m[v].kind == Top)
    ensures h.m[v].kind.Free? ==> h.m[v].size >= nb && (h.m[x].size >= nb ==> h.m[v].size <= h.m[x].size)
    ensures h.m[v].kind == Top ==> h.m[x].size < nb
  {
    ChoiceIsBestOfAll(how, h, v, nb, limit, remainder, x);
    match how {
      case FastList =>
      case SmallBin =>
      case Unsorted(k) => NotSortedYet(h.m, h.bins, k); UnsortedIs(h.m, h.bins, k);
      case SortedBin => SortedWasFree(h.m, h.bins, v);
      case TopChunk =>
    }
  }

  lemma UnsortedIs(m: Arena, bins: Bins, k: nat)
    requires Binned(m, bins) && k < |bins[1]|
    ensures bins[1][k] in m && m[bins[1][k]].kind == Free(1)
  {
    var x := bins[1][k];
    assert x in bins[1];
  }

  /** A large request gets the smallest of all free chunks that fit, once the fastbins are
      consolidated if any was in use, and the front of top only if none fits: provided that
      one round can sort the unsorted chunks. */
  lemma LargeRequestIsBestFit(g: Shape, hadFast: bool, c: Shape, v: int, nb: int, limit: nat, remainder: int,
        base: int, end: int, x: int)
    requires ChunkSized(nb) && !InSmallbinRange(nb) && limit <= MAX_FAST_SIZE
    requires WellChosen(g, hadFast, v, nb, limit, remainder, base, end)
    requires if hadFast then Consolidated(g.m, c, base, end) && |c.m| <= MAX_ITERS
             else c == g && Binned(g.m, g.bins) && NoLoose(g.m) && |g.bins[1]| <= MAX_ITERS
    requires x in c.m && c.m[x].kind.Free?
    ensures v in c.m && (c.m[v].kind.Free? || c.m[v].kind == Top)
    ensures c.m[v].kind.Free? ==> c.m[v].size >= nb && (c.m[x].size >= nb ==> c.m[v].size <= c.m[x].size)
    ensures c.m[v].kind == Top ==> c.m[x].size < nb
  {
    hide Chosen, TearDown;
    var how, h :| Searched(g, h, hadFast, nb, remainder, base, end) && Chosen(how, h, v, nb, limit, remainder);
    if hadFast {
      hide Consolidated, RoundLists;
      TornDownIs(ListsOf(g), g.m, h, base, end);
      ConsolidatedOnce(g.m, c, h, base, end);
      FreeOnce(g.m, c, h, base, end, x);
      ConsolidatedParts(g.m, h, base, end);
      UnsortedBound(h.m, h.bins);
      assert h.m.Keys == c.m.Keys;
      SameCount(h.m, c.m);
      LargeChoiceIsBest(how, h, v, nb, limit, remainder, x);
      FreeOnce(g.m, c, h, base, end, v);
    } else {
      LargeChoiceIsBest(how, h, v, nb, limit, remainder, x);
    }
  }

  lemma SameCount(m: Arena, m': Arena)
    requires m.Keys == m'.Keys
    ensures |m| == |m'|
  {
    assert |m| == |m.Keys| && |m'| == |m'.Keys|;
  }

  lemma ConsolidatedParts(m: Arena, h: Shape, base: int, end: int)
    requires Consolidated(m, h, base, end)
    ensures Binned(h.m, h.bins) && NoLoose(h.m)
  {
    var t :| Settled(h.m, base, t, end);
  }

  lemma SearchedAtOnce(g: Shape, hadFast: bool, nb: int, remainder: int, base: int, end: int)
    requires |g.bins| == NBINS && (hadFast ==> InSmallbinRange(nb))
    ensures Searched(g, g, hadFast, nb, remainder, base, end)
  {
  }

  lemma SearchedAfter(g: Shape, h: Shape, nb: int, remainder: int, base: int, end: int)
    requires |g.bins| == NBINS
    requires if InSmallbinRange(nb) then
               RoundFails(g.m, g.bins[1], nb, remainder) && TornDown(RoundLists(g), g.m, h, base, end)
             else TornDown(ListsOf(g), g.m, h, base, end)
    ensures Searched(g, h, true, nb, remainder, base, end)
  {
    hide TornDown, RoundLists, RoundFails;
  }

  lemma NotFastSized(fasts: Bins, nb: int, limit: nat)
    requires ChunkSized(nb) && nb > limit
    ensures FastEmptyFor(fasts, nb, limit)
  {
  }

  lemma NotSmallSized(bins: Bins, nb: int)
    requires ChunkSized(nb) && !InSmallbinRange(nb)
    ensures SmallBinEmpty(bins, nb)
  {
  }
}
