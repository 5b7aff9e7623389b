/**
  Whole runs of a program over the list allocator.  The program's own view, a table of the
  pointers it owns and a table of the bytes it has stored, is what memory holds after any
  sequence of calls and stores, whatever the kernel answers.
 */
module HeapRuns {
  import opened MemSizes
  import opened BlockChain
  import opened MemorySpans
  import opened HeapBlocks
  import opened HeapGrowth
  import opened ListHeap

  datatype Action = Alloc(query: nat, kernel: Kernel) | Release(p: int) | Store(p: int, k: nat, value: int)

  /** The pointers owned with their sizes, and the bytes stored. */
  datatype View = View(owned: map<int, int>, bytes: map<int, int>)

  /** The program frees only pointers it owns, and stores only inside what it owns. */
  predicate Permitted(v: View, a: Action) {
    match a
    case Alloc(query, _) => query < WORD
    case Release(p) => p == NULL || p in v.owned
    case Store(p, k, _) => p in v.owned && k < v.owned[p]
  }

  /** The view after an action that returned r. */
  function After(v: View, a: Action, r: int): View
    requires Permitted(v, a)
  {
    match a
    case Alloc(query, _) => if r == NULL then v else v.(owned := v.owned[r := SizeMax(query, BLOCK_MIN_CAPACITY)])
    case Release(p) => if p == NULL then v
        else View(v.owned - {p}, map x | x in v.bytes && !(p <= x < p + v.owned[p]) :: v.bytes[x])
    case Store(p, k, value) => v.(bytes := v.bytes[p + k := value])
  }

  ghost predicate OwnedByte(owned: map<int, int>, x: int) {
    exists p :: p in owned && p <= x < p + owned[p]
  }

  /** Memory agrees with the view. */
  ghost predicate Agrees(v: View, live: map<int, int>, data: Bytes) {
    v.owned == live && forall x | x in v.bytes :: data(x) == v.bytes[x] && OwnedByte(v.owned, x)
  }

  /** What the program owns never overlaps: not payloads, and no payload a header. */
  ghost predicate Separate(owned: map<int, int>) {
    forall p, r | p in owned && r in owned && p != r :: p + owned[p] <= r - HEADER || r + owned[r] <= p - HEADER
  }

  lemma OwnedSeparate(hdr: Headers, s: Chain, regions: seq<Span>, live: map<int, int>)
    requires Sound(hdr, s, regions, live)
    ensures Separate(live)
  {
    hide Sound;
    forall p, r | p in live && r in live && p != r ensures p + live[p] <= r - HEADER || r + live[r] <= p - HEADER {
      LiveApart(hdr, s, regions, live, p, r);
    }
  }

  /** Where no payload in use is touched, bytes the program owns are the same. */
  lemma OwnedUntouched(hdr: Headers, s: Chain, regions: seq<Span>, live: map<int, int>, x: int, d: Bytes, d': Bytes)
    requires Sound(hdr, s, regions, live) && OwnedByte(live, x) && Untouched(Used(s), d, d')
    ensures d'(x) == d(x)
  {
    hide Sound, Used;
    var p :| p in live && p <= x < p + live[p];
    var i := OwnedBlock(hdr, s, regions, live, p);
  }

  lemma AfterAlloc(hdr: Headers, s: Chain, t: Chain, regions: seq<Span>, live: map<int, int>, live': map<int, int>,
                   v: View, d: Bytes, d': Bytes, query: nat, kernel: Kernel, p: int)
    requires Sound(hdr, s, regions, live) && Agrees(v, live, d) && query < WORD && Untouched(Used(s), d, d')
    requires if p == NULL then live' == live else OneMore(s, t, live, live', SizeMax(query, BLOCK_MIN_CAPACITY), p)
    ensures Agrees(After(v, Alloc(query, kernel), p), live', d')
  {
    hide Sound, Used, Untouched;
    forall x | x in v.bytes ensures d'(x) == v.bytes[x] && OwnedByte(live', x) {
      OwnedUntouched(hdr, s, regions, live, x, d, d');
      var r :| r in live && r <= x < r + live[r];
      assert r in live' && live'[r] == live[r];
    }
  }

  lemma AfterRelease(hdr: Headers, t: Chain, regions: seq<Span>, live: map<int, int>, v: View, d: Bytes, d': Bytes,
        p: int)
    requires p != NULL && p in live && Sound(hdr, t, regions, live - {p}) && Agrees(v, live, d) &&
        Untouched(Used(t), d, d')
    ensures Agrees(After(v, Release(p), 0), live - {p}, d')
  {
    hide Sound, Used, Untouched;
    var live' := live - {p};
    forall x | x in v.bytes && !(p <= x < p + live[p]) ensures d'(x) == v.bytes[x] && OwnedByte(live', x) {
      var r :| r in live && r <= x < r + live[r];
      assert r in live' && live'[r] == live[r];
      OwnedUntouched(hdr, t, regions, live', x, d, d');
    }
  }

  /** The view after the whole script, given the pointers that its calls returned. */
  function AfterAll(v: View, script: seq<Action>, results: seq<int>): View
    requires |results| == |script|
  {
    if script == [] then v
    else
      var n := |script| - 1;
      var w := AfterAll(v, script[..n], results[..n]);
      if Permitted(w, script[n]) then After(w, script[n], results[n]) else w
  }

  lemma AfterAllStep(v: View, script: seq<Action>, results: seq<int>, r: int)
    requires |results| < |script|
    ensures var n := |results|;
            var w := AfterAll(v, script[..n], results);
            AfterAll(v, script[..n + 1], results + [r]) == if Permitted(w, script[n]) then After(w, script[n], r) else w
  {
    var n := |results|;
    assert script[..n + 1][..n] == script[..n] && (results + [r])[..n] == results;
  }

  lemma RunStart(script: seq<Action>)
    ensures AfterAll(View(map[], map[]), script[..0], []) == View(map[], map[])
    ensures SafeAt(script, [], 0)
  {
  }

  /** After n actions what the program owns is separate, and an allocation that comes next
      returns NULL or a pointer that is not owned. */
  ghost predicate SafeAt(script: seq<Action>, results: seq<int>, n: nat)
    requires n <= |results| <= |script|
  {
    var v := AfterAll(View(map[], map[]), script[..n], results[..n]);
    Separate(v.owned) && (n < |results| && script[n].Alloc? && results[n] != NULL ==> results[n] !in v.owned)
  }

  lemma SafeEarlier(script: seq<Action>, results: seq<int>, r: int, n: nat)
    requires n <= |results| < |script|
    requires SafeAt(script, results, n)
    requires n == |results| && script[n].Alloc? && r != NULL ==>
        r !in AfterAll(View(map[], map[]), script[..|results|], results).owned
    ensures SafeAt(script, results + [r], n)
  {
    assert (results + [r])[..n] == results[..n];
  }

  lemma SafeNow(script: seq<Action>, results: seq<int>, live: map<int, int>)
    requires |results| <= |script| && AfterAll(View(map[], map[]), script[..|results|], results).owned == live &&
        Separate(live)
    ensures SafeAt(script, results, |results|)
  {
    assert results[..|results|] == results;
  }

  /**
    Safety over every run: after each action the heap is sound, what the program owns is
    separate, and every byte it stored and has not freed reads back as stored.
   */
  method Run(h: Heap, script: seq<Action>) returns (results: seq<int>, view: View)
    requires h.Valid() && h.live == map[]
    modifies h
    ensures |results| == |script| && view == AfterAll(View(map[], map[]), script, results)
    ensures h.Valid() && Agrees(view, h.live, h.data)
    ensures forall n | 0 <= n <= |script| :: SafeAt(script, results, n)
  {
    hide Sound, Untouched, Used, Outcome, OneMore, AfterAll, Separate, SafeAt;
    ghost var none := View(map[], map[]);
    results, view := [], View(map[], map[]);
    RunStart(script);
    while |results| < |script|
      invariant |results| <= |script| && view == AfterAll(none, script[..|results|], results)
      invariant h.Valid() && Agrees(view, h.live, h.data)
      invariant forall n | 0 <= n <= |results| :: SafeAt(script, results, n)
      decreases |script| - |results|
    {
      ghost var before := results;
      var r := Perform(h, view, script[|results|]);
      AfterAllStep(none, script, results, r);
      if Permitted(view, script[|results|]) { view := After(view, script[|results|], r); }
      results := results + [r];
      forall n | 0 <= n < |results| ensures SafeAt(script, results, n) { SafeEarlier(script, before, r, n); }
      SafeNow(script, results, h.live);
    }
    assert script[..|script|] == script;
  }

  /** One action, if the program may do it. */
  method Perform(h: Heap, view: View, a: Action) returns (r: int)
    requires h.Valid() && Agrees(view, h.live, h.data)
    modifies h
    ensures h.Valid() && Agrees(if Permitted(view, a) then After(view, a, r) else view, h.live, h.data)
    ensures Separate(h.live)
    ensures a.Alloc? && r != NULL ==> r !in view.owned
  {
    hide Sound, Untouched, Used, Outcome, Released;
    r := NULL;
    OwnedSeparate(h.hdr, h.chain, h.regions, h.live);
    if Permitted(view, a) {
      match a {
        case Alloc(query, kernel) =>
          r := h.Malloc(query, kernel);
          AfterAlloc(old(h.hdr), old(h.chain), h.chain, old(h.regions), old(h.live), h.live, view, old(h.data), h.data,
              query, kernel, r);
        case Release(p) =>
          ghost var i := h.Free(p);
          if p != NULL { AfterRelease(h.hdr, h.chain, h.regions, old(h.live), view, old(h.data), h.data, p); }
        case Store(p, k, value) =>
          h.Write(p + k, value);
      }
    }
    OwnedSeparate(h.hdr, h.chain, h.regions, h.live);
  }
}
