/**
  The list of blocks as a sequence, in list order, with the operations that the
  allocator performs on it and what they mean.
 */
module BlockChain {
  import opened MemSizes

  datatype Block = Block(addr: int, cap: int, free: bool) {
    function End(): int { addr + HEADER + cap }
  }

  type Chain = seq<Block>

  datatype Found = NotFound | FoundAt(index: nat)

  /** Both free, and the second starts where the first ends. */
  predicate Mergeable(a: Block, b: Block) {
    a.free && b.free && b.addr == a.End()
  }

  /** Block k and the one before it are free, and no address lies between them. */
  predicate JoinsPrevious(s: Chain, k: nat)
    requires 0 < k < |s|
  {
    s[k - 1].free && s[k].free && s[k - 1].addr + HEADER + s[k - 1].cap == s[k].addr
  }

  function Join(a: Block, b: Block): Block {
    Block(a.addr, a.cap + HEADER + b.cap, true)
  }

  /** Block i takes in block i + 1. */
  function MergeAt(s: Chain, i: nat): Chain
    requires i + 1 < |s|
  {
    s[..i] + [Join(s[i], s[i + 1])] + s[i + 2..]
  }

  /** Block i keeps q bytes and gives the rest to a new block after it. */
  function SplitAt(s: Chain, i: nat, q: int): Chain
    requires i < |s|
  {
    var b := s[i];
    s[..i] + [Block(b.addr, q, b.free), Block(b.addr + HEADER + q, b.cap - q - HEADER, b.free)] + s[i + 1..]
  }

  /** The first block takes in its successors as long as they can be merged. */
  function Absorb(s: Chain): Chain
    requires s != []
    decreases |s|
  {
    if |s| > 1 && Mergeable(s[0], s[1]) then Absorb(MergeAt(s, 0)) else s
  }

  /** First fit from the front, coalescing on the way: the blocks as the search leaves
      them, and where it stopped. */
  function Search(s: Chain, q: int): (Chain, Found)
    decreases |s|
  {
    if s == [] then ([], NotFound)
    else
      var t := Absorb(s);
      AbsorbLength(s);
      if t[0].free && t[0].cap >= q then (t, FoundAt(0))
      else
        var (u, r) := Search(t[1..], q);
        ([t[0]] + u, if r.FoundAt? then FoundAt(r.index + 1) else NotFound)
  }

  lemma {:induction false} AbsorbLength(s: Chain)
    requires s != []
    ensures 0 < |Absorb(s)| <= |s|
    decreases |s|
  {
    if |s| > 1 && Mergeable(s[0], s[1]) { AbsorbLength(MergeAt(s, 0)); }
  }

  /** The result of a search that has already passed the blocks of p. */
  function Onward(p: Chain, r: (Chain, Found)): (Chain, Found) {
    (p + r.0, if r.1.FoundAt? then FoundAt(r.1.index + |p|) else NotFound)
  }

  /** One step of the search: the block in front, once it has absorbed what it can. */
  lemma SearchStep(p: Chain, s: Chain, t: Chain, q: int)
    requires s != [] && t == Absorb(s)
    ensures t != []
    ensures t[0].free && t[0].cap >= q ==> Onward(p, Search(s, q)) == (p + t, FoundAt(|p|))
    ensures !(t[0].free && t[0].cap >= q) ==> Onward(p, Search(s, q)) == Onward(p + [t[0]], Search(t[1..], q))
  {
    AbsorbLength(s);
    var r := Search(t[1..], q);
    assert p + ([t[0]] + r.0) == (p + [t[0]]) + r.0;
  }

  /** Merging at k is merging at the front of the rest from k. */
  lemma MergeInRest(s: Chain, k: nat)
    requires k + 1 < |s|
    ensures MergeAt(s, k)[k..] == MergeAt(s[k..], 0) && MergeAt(s, k)[..k] == s[..k]
  {
  }

  /** The same step within a list of which the first blocks, up to k, have been passed. */
  lemma SearchOn(s: Chain, t: Chain, at: nat, k: nat, q: int)
    requires at <= k < |s| && t == s[..k] + Absorb(s[k..]) && k < |t|
    ensures |t| <= |s| && t[..at] == s[..at] && t == t[..at] + t[at..]
    ensures t[k].free && t[k].cap >= q ==> Onward(s[at..k], Search(s[k..], q)) == (t[at..], FoundAt(k - at))
    ensures !(t[k].free && t[k].cap >= q) ==>
        Onward(s[at..k], Search(s[k..], q)) == Onward(t[at..k + 1], Search(t[k + 1..], q))
  {
    AbsorbLength(s[k..]);
    assert t[k..] == Absorb(s[k..]) && t[k..][0] == t[k] && t[k..][1..] == t[k + 1..];
    assert s[at..k] + t[k..] == t[at..] && s[at..k] + [t[k]] == t[at..k + 1];
    SearchStep(s[at..k], s[k..], t[k..], q);
  }

  /** A search that has passed every block of the list. */
  lemma SearchOver(t: Chain, at: nat, q: int)
    requires at <= |t|
    ensures Onward(t[at..|t|], Search(t[|t|..], q)) == (t[at..], NotFound) && t == t[..at] + t[at..]
  {
    assert t[|t|..] == [] && t[at..|t|] == t[at..] && t[at..] + [] == t[at..];
  }

  lemma SearchStart(s: Chain, at: nat, q: int)
    requires at <= |s|
    ensures Onward(s[at..at], Search(s[at..], q)) == Search(s[at..], q)
  {
    assert s[at..at] == [] && [] + Search(s[at..], q).0 == Search(s[at..], q).0;
  }

  lemma AbsorbOnce(s: Chain, k: nat)
    requires k + 1 < |s| && Mergeable(s[k], s[k + 1])
    ensures Absorb(MergeAt(s, k)[k..]) == Absorb(s[k..]) && MergeAt(s, k)[..k] == s[..k]
    ensures k < |MergeAt(s, k)| == |s| - 1 && MergeAt(s, k)[k].addr == s[k].addr
  {
    MergeInRest(s, k);
  }

  lemma AbsorbDone(s: Chain, k: nat)
    requires k < |s| && (k + 1 == |s| || !Mergeable(s[k], s[k + 1]))
    ensures Absorb(s[k..]) == s[k..] && s == s[..k] + s[k..]
  {
  }

  // ----- runs of free blocks -----

  /** Blocks i to j are free and follow one another in memory. */
  ghost predicate FreeRun(s: Chain, i: nat, j: nat) {
    i < j <= |s| && s[i].free && forall k | i < k < j :: JoinsPrevious(s, k)
  }

  /** No block before or after can join them. */
  ghost predicate MaximalRun(s: Chain, i: nat, j: nat) {
    && FreeRun(s, i, j)
    && (i > 0 ==> !JoinsPrevious(s, i))
    && (j < |s| ==> !JoinsPrevious(s, j))
  }

  /** The capacity of the run once it is one block. */
  function RunCapacity(s: Chain, i: nat, j: nat): int
    requires i < j <= |s|
  {
    s[j - 1].End() - s[i].addr - HEADER
  }

  ghost predicate NoRunFits(s: Chain, q: int) {
    forall i: nat, j: nat | MaximalRun(s, i, j) :: RunCapacity(s, i, j) < q
  }

  /** The maximal run at i to j is the first that fits. */
  ghost predicate FirstFit(s: Chain, q: int, i: nat, j: nat) {
    && MaximalRun(s, i, j) && RunCapacity(s, i, j) >= q
    && forall a: nat, b: nat | MaximalRun(s, a, b) && a < i :: RunCapacity(s, a, b) < q
  }

  ghost predicate Coalesced(s: Chain, n: nat) {
    forall k | 0 < k <= n && k < |s| :: !JoinsPrevious(s, k)
  }

  /** Absorbing a whole run from the front. */
  lemma {:induction false} AbsorbRun(s: Chain) returns (j: nat)
    requires s != []
    ensures 0 < j <= |s| && (j < |s| ==> !JoinsPrevious(s, j))
    ensures if s[0].free then FreeRun(s, 0, j) && Absorb(s) == [Block(s[0].addr, RunCapacity(s, 0, j), true)] + s[j..]
            else j == 1 && Absorb(s) == s
    decreases |s|
  {
    if |s| > 1 && Mergeable(s[0], s[1]) {
      var t := MergeAt(s, 0);
      var h := AbsorbRun(t);
      j := h + 1;
      assert forall k | 1 <= k < |t| :: t[k] == s[k + 1];
      assert t[h..] == s[j..];
      assert t[h - 1].End() == s[j - 1].End();
      forall k | 0 < k < j ensures JoinsPrevious(s, k) {
        if k > 1 { assert JoinsPrevious(t, k - 1); }
      }
    } else {
      j := 1;
      if s[0].free { assert [Block(s[0].addr, RunCapacity(s, 0, 1), true)] + s[1..] == s; }
    }
  }

  /** Runs of the rest of the list are runs of the list, when the rest starts a run. */
  lemma RunShift(s: Chain, n: nat, i: nat, j: nat)
    requires n <= |s| && (0 < n < |s| ==> !JoinsPrevious(s, n)) && i < j <= |s| - n
    ensures MaximalRun(s[n..], i, j) <==> MaximalRun(s, n + i, n + j)
    ensures RunCapacity(s[n..], i, j) == RunCapacity(s, n + i, n + j)
  {
    var t := s[n..];
    JoinsShift(s, n);
    if FreeRun(s, n + i, n + j) {
      forall k | i < k < j ensures JoinsPrevious(t, k) { assert JoinsPrevious(s, n + k); }
    }
    if FreeRun(t, i, j) {
      forall k | n + i < k < n + j ensures JoinsPrevious(s, k) { assert JoinsPrevious(t, k - n); }
    }
  }

  lemma JoinsShift(s: Chain, n: nat)
    requires n <= |s|
    ensures forall k | 0 < k < |s| - n :: JoinsPrevious(s[n..], k) <==> JoinsPrevious(s, n + k)
  {
  }

  /** The first run ends where absorbing it stops; every other one lies in the rest. */
  lemma RunsSplit(s: Chain, j: nat, a: nat, b: nat)
    requires 0 < j <= |s| && (j < |s| ==> !JoinsPrevious(s, j)) && (if s[0].free then FreeRun(s, 0, j) else j == 1)
    requires MaximalRun(s, a, b)
    ensures (a == 0 && b == j) ||
        (a >= j && MaximalRun(s[j..], a - j, b - j) && RunCapacity(s[j..], a - j, b - j) == RunCapacity(s, a, b))
    ensures a == 0 ==> s[0].free
  {
    if a > 0 {
      RunShift(s, j, a - j, b - j);
    }
  }

  lemma FirstRun(s: Chain, j: nat)
    requires 0 < j <= |s| && (j < |s| ==> !JoinsPrevious(s, j)) && s[0].free && FreeRun(s, 0, j)
    ensures MaximalRun(s, 0, j)
  {
  }

  /** Where the list is coalesced in the result of a search, it starts with the same
      address and the same kind of block. */
  lemma {:induction false} AbsorbHead(s: Chain)
    requires s != []
    ensures Absorb(s) != [] && Absorb(s)[0].addr == s[0].addr && Absorb(s)[0].free == s[0].free
    decreases |s|
  {
    if |s| > 1 && Mergeable(s[0], s[1]) { AbsorbHead(MergeAt(s, 0)); }
  }

  lemma SearchHead(s: Chain, q: int)
    requires s != []
    ensures Search(s, q).0 != [] && Search(s, q).0[0].addr == s[0].addr && Search(s, q).0[0].free == s[0].free
  {
    AbsorbHead(s);
  }

  /** Where the search stops, compared with the list it started from. */
  ghost predicate StopsAt(s: Chain, q: int, i: nat, j: nat)
    requires i < j <= |s|
  {
    var (t, r) := Search(s, q);
    && r.FoundAt? && r.index < |t|
    && t[r.index] == Block(s[i].addr, RunCapacity(s, i, j), true)
    && t[r.index + 1..] == s[j..]
    && Coalesced(t, r.index)
  }

  /** One block put in front of a coalesced list that it cannot join. */
  lemma CoalescedCons(b: Block, u: Chain, n: nat)
    requires Coalesced(u, n) && (u != [] ==> !Mergeable(b, u[0]))
    ensures Coalesced([b] + u, n + 1)
  {
    var t := [b] + u;
    forall k | 0 < k <= n + 1 && k < |t| ensures !JoinsPrevious(t, k) {
      if k > 1 { assert !JoinsPrevious(u, k - 1); }
    }
  }

  /**
    Exact first fit: the search reports no block exactly when no maximal run of free,
    adjacent blocks fits; otherwise it stops at the head of the first run that fits,
    grown to the whole run, with everything before it coalesced and everything after
    it as it was.
   */
  lemma {:induction false} SearchIsFirstFit(s: Chain, q: int)
    ensures Search(s, q).1 == NotFound <==> NoRunFits(s, q)
    ensures Search(s, q).1 == NotFound ==> Coalesced(Search(s, q).0, |Search(s, q).0|)
    ensures Search(s, q).1.FoundAt? ==> exists i: nat, j: nat :: FirstFit(s, q, i, j) && StopsAt(s, q, i, j)
    decreases |s|
  {
    if s != [] {
      var j := AbsorbRun(s);
      var t := Absorb(s);
      if s[0].free { FirstRun(s, j); }
      assert t[1..] == s[j..];
      if t[0].free && t[0].cap >= q {
        assert FirstFit(s, q, 0, j) && StopsAt(s, q, 0, j);
      } else {
        SearchIsFirstFit(s[j..], q);
        SearchPastRun(s, q, j);
      }
    }
  }

  /** The first run of s ends at j and does not fit q. */
  ghost predicate RunTooSmall(s: Chain, q: int, j: nat) {
    && 0 < j <= |s| && (j < |s| ==> !JoinsPrevious(s, j))
    && (if s[0].free then FreeRun(s, 0, j) && RunCapacity(s, 0, j) < q else j == 1)
    && Absorb(s) == (if s[0].free then [Block(s[0].addr, RunCapacity(s, 0, j), true)] + s[j..] else s)
  }

  /** The search then goes on in the rest of the list, which the run cannot join. */
  lemma SearchRest(s: Chain, q: int, j: nat)
    requires RunTooSmall(s, q, j)
    ensures Search(s, q).0 == [Absorb(s)[0]] + Search(s[j..], q).0
    ensures Search(s, q).1 == if Search(s[j..], q).1.FoundAt? then FoundAt(Search(s[j..], q).1.index + 1) else NotFound
    ensures Search(s[j..], q).0 != [] ==> !Mergeable(Absorb(s)[0], Search(s[j..], q).0[0])
  {
    assert Absorb(s)[1..] == s[j..];
    if j < |s| {
      SearchHead(s[j..], q);
      assert j > 1 && s[0].free ==> JoinsPrevious(s, j - 1);
    } else {
      assert s[j..] == [];
    }
  }

  lemma SearchPastRun(s: Chain, q: int, j: nat)
    requires RunTooSmall(s, q, j)
    requires Search(s[j..], q).1 == NotFound <==> NoRunFits(s[j..], q)
    requires Search(s[j..], q).1 == NotFound ==> Coalesced(Search(s[j..], q).0, |Search(s[j..], q).0|)
    requires Search(s[j..], q).1.FoundAt? ==>
        exists i: nat, h: nat :: FirstFit(s[j..], q, i, h) && StopsAt(s[j..], q, i, h)
    ensures Search(s, q).1 == NotFound <==> NoRunFits(s, q)
    ensures Search(s, q).1 == NotFound ==> Coalesced(Search(s, q).0, |Search(s, q).0|)
    ensures Search(s, q).1.FoundAt? ==> exists i: nat, j: nat :: FirstFit(s, q, i, j) && StopsAt(s, q, i, j)
  {
    SearchRest(s, q, j);
    var b, u, r := Absorb(s)[0], Search(s[j..], q).0, Search(s[j..], q).1;
    hide Search, Absorb, Mergeable, RunCapacity, MaximalRun;
    if r == NotFound {
      forall a: nat, b: nat | MaximalRun(s, a, b) ensures RunCapacity(s, a, b) < q { RunPast(s, q, j, a, b); }
      CoalescedCons(b, u, |u|);
    } else {
      var i: nat, h: nat :| FirstFit(s[j..], q, i, h) && StopsAt(s[j..], q, i, h);
      FoundPastRun(s, q, j, i, h);
    }
  }

  lemma RunPast(s: Chain, q: int, j: nat, a: nat, b: nat)
    requires RunTooSmall(s, q, j) && MaximalRun(s, a, b)
    ensures RunCapacity(s, a, b) < q ||
        (a >= j && MaximalRun(s[j..], a - j, b - j) && RunCapacity(s[j..], a - j, b - j) == RunCapacity(s, a, b))
  {
    RunsSplit(s, j, a, b);
  }

  lemma FoundPastRun(s: Chain, q: int, j: nat, i: nat, h: nat)
    requires RunTooSmall(s, q, j) && FirstFit(s[j..], q, i, h) && StopsAt(s[j..], q, i, h)
    ensures FirstFit(s, q, j + i, j + h) && StopsAt(s, q, j + i, j + h)
  {
    SearchRest(s, q, j);
    RunShift(s, j, i, h);
    var b, u, r := Absorb(s)[0], Search(s[j..], q).0, Search(s[j..], q).1;
    assert s[j..][h..] == s[j + h..] && ([b] + u)[r.index + 2..] == u[r.index + 1..];
    hide Search, Absorb, Mergeable, RunCapacity, MaximalRun;
    forall a: nat, b: nat | MaximalRun(s, a, b) && a < j + i
        ensures RunCapacity(s, a, b) < q { RunPast(s, q, j, a, b); }
    CoalescedCons(b, u, r.index);
  }

  // ----- a free block that fits is found -----

  /** The maximal run around a free block. */
  lemma RunAround(s: Chain, k: nat) returns (i: nat, j: nat)
    requires k < |s| && s[k].free && forall h | 0 <= h < |s| :: s[h].cap >= 0
    ensures MaximalRun(s, i, j) && RunCapacity(s, i, j) >= s[k].cap
  {
    i := RunStart(s, k);
    j := RunEnd(s, i, k);
  }

  lemma {:induction false} RunStart(s: Chain, k: nat) returns (i: nat)
    requires k < |s| && s[k].free && forall h | 0 <= h < |s| :: s[h].cap >= 0
    ensures i <= k && FreeRun(s, i, k + 1) && (i > 0 ==> !JoinsPrevious(s, i)) && s[i].addr <= s[k].addr
  {
    if k > 0 && JoinsPrevious(s, k) {
      i := RunStart(s, k - 1);
    } else {
      i := k;
    }
  }

  lemma {:induction false} RunEnd(s: Chain, i: nat, k: nat) returns (j: nat)
    requires i <= k < |s| && FreeRun(s, i, k + 1) && forall h | 0 <= h < |s| :: s[h].cap >= 0
    ensures k < j && FreeRun(s, i, j) && (j < |s| ==> !JoinsPrevious(s, j)) && s[j - 1].End() >= s[k].End()
    decreases |s| - k
  {
    if k + 1 < |s| && JoinsPrevious(s, k + 1) {
      j := RunEnd(s, i, k + 1);
    } else {
      j := k + 1;
    }
  }

  /** The search succeeds whenever some free block has room, wherever it is and
      whatever its neighbours are. */
  lemma FreeBlockIsFound(s: Chain, k: nat, q: int)
    requires k < |s| && s[k].free && s[k].cap >= q && forall h | 0 <= h < |s| :: s[h].cap >= 0
    ensures Search(s, q).1.FoundAt?
  {
    var i, j := RunAround(s, k);
    SearchIsFirstFit(s, q);
  }
}
