/**
  The memory that a list of blocks, or of mapped regions, covers: consecutive ranges
  that touch are joined, in list order.  Splitting and merging blocks does not change
  it, so the blocks keep covering exactly what was mapped.
 */
module MemorySpans {
  import opened BlockChain

  /** The addresses from lo up to, not including, hi. */
  datatype Span = Span(lo: int, hi: int) {
    predicate Has(x: int) { lo <= x < hi }
  }

  function Add(t: seq<Span>, x: Span): seq<Span> {
    if t != [] && t[|t| - 1].hi == x.lo then t[..|t| - 1] + [Span(t[|t| - 1].lo, x.hi)] else t + [x]
  }

  /** Joins touching neighbours of s, starting after the spans t. */
  function JoinAfter(t: seq<Span>, s: seq<Span>): seq<Span>
    decreases |s|
  {
    if s == [] then t else JoinAfter(Add(t, s[0]), s[1..])
  }

  function Joined(s: seq<Span>): seq<Span> {
    JoinAfter([], s)
  }

  function Extents(s: Chain): seq<Span> {
    seq(|s|, i requires 0 <= i < |s| => Span(s[i].addr, s[i].End()))
  }

  lemma {:induction false} JoinConcat(t: seq<Span>, a: seq<Span>, b: seq<Span>)
    ensures JoinAfter(t, a + b) == JoinAfter(JoinAfter(t, a), b)
    decreases |a|
  {
    if a == [] {
      assert a + b == b;
    } else {
      assert (a + b)[1..] == a[1..] + b;
      JoinConcat(Add(t, a[0]), a[1..], b);
    }
  }

  lemma JoinSnoc(s: seq<Span>, x: Span)
    ensures Joined(s + [x]) == Add(Joined(s), x)
  {
    JoinConcat([], s, [x]);
    assert [x][1..] == [];
  }

  lemma JoinPairLast(a: seq<Span>, x: Span, y: Span)
    requires x.hi == y.lo
    ensures Joined((a + [x]) + [y]) == Joined(a + [Span(x.lo, y.hi)])
  {
    JoinSnoc(a + [x], y);
    JoinSnoc(a, x);
    JoinSnoc(a, Span(x.lo, y.hi));
    hide Joined;
    AddPair(Joined(a), x, y);
  }

  lemma AddPair(t: seq<Span>, x: Span, y: Span)
    requires x.hi == y.lo
    ensures Add(Add(t, x), y) == Add(t, Span(x.lo, y.hi))
  {
  }

  /** Two touching ranges, or one range cut in two, cover the same memory. */
  lemma JoinPair(a: seq<Span>, x: Span, y: Span, b: seq<Span>)
    requires x.hi == y.lo
    ensures Joined((a + [x]) + [y] + b) == Joined(a + [Span(x.lo, y.hi)] + b)
  {
    JoinPairLast(a, x, y);
    JoinConcat([], (a + [x]) + [y], b);
    JoinConcat([], a + [Span(x.lo, y.hi)], b);
  }

  ghost predicate Covered(s: seq<Span>, x: int) {
    exists i :: 0 <= i < |s| && s[i].Has(x)
  }

  /** Joining loses and adds no address. */
  lemma {:induction false} JoinedCovers(s: seq<Span>, x: int)
    requires forall i | 0 <= i < |s| :: s[i].lo < s[i].hi
    ensures Covered(Joined(s), x) <==> Covered(s, x)
    ensures forall i | 0 <= i < |Joined(s)| :: Joined(s)[i].lo < Joined(s)[i].hi
    decreases |s|
  {
    if s != [] {
      var n := |s| - 1;
      JoinedCovers(s[..n], x);
      assert s == s[..n] + [s[n]];
      JoinSnoc(s[..n], s[n]);
      AddCovers(Joined(s[..n]), s[n], x);
      assert Covered(s, x) <==> Covered(s[..n], x) || s[n].Has(x) by {
        if Covered(s[..n], x) { var i :| 0 <= i < n && s[..n][i].Has(x); assert s[i].Has(x); }
        if Covered(s, x) { var i :| 0 <= i < |s| && s[i].Has(x); if i < n { assert s[..n][i].Has(x); } }
      }
    }
  }

  lemma AddCovers(t: seq<Span>, y: Span, x: int)
    requires (forall i | 0 <= i < |t| :: t[i].lo < t[i].hi) && y.lo < y.hi
    ensures Covered(Add(t, y), x) <==> Covered(t, x) || y.Has(x)
    ensures forall i | 0 <= i < |Add(t, y)| :: Add(t, y)[i].lo < Add(t, y)[i].hi
  {
    var u := Add(t, y);
    if Covered(t, x) {
      var i :| 0 <= i < |t| && t[i].Has(x);
      assert u[i].Has(x);
    }
    if y.Has(x) { assert u[|u| - 1].Has(x); }
    if Covered(u, x) {
      var i :| 0 <= i < |u| && u[i].Has(x);
      if i < |t| && !y.Has(x) { assert t[i].Has(x); }
    }
  }

  /** Every joined span runs from the start of one range to the end of one range. */
  lemma {:induction false} JoinedEdges(s: seq<Span>, k: nat) returns (a: nat, b: nat)
    requires k < |Joined(s)|
    ensures a <= b < |s| && Joined(s)[k].lo == s[a].lo && Joined(s)[k].hi == s[b].hi
    decreases |s|
  {
    var n := |s| - 1;
    assert s == s[..n] + [s[n]];
    JoinSnoc(s[..n], s[n]);
    if k < |Joined(s[..n])| {
      a, b := JoinedEdges(s[..n], k);
      if k == |Joined(s)| - 1 { b := if Joined(s)[k] == Joined(s[..n])[k] then b else n; }
    } else {
      a, b := n, n;
    }
  }

  ghost predicate Disjoint(s: seq<Span>) {
    && (forall i | 0 <= i < |s| :: s[i].lo < s[i].hi)
    && (forall i, j | 0 <= i < j < |s| :: s[i].hi <= s[j].lo || s[j].hi <= s[i].lo)
  }

  ghost predicate Apart(s: seq<Span>, y: Span) {
    forall i | 0 <= i < |s| :: s[i].hi <= y.lo || y.hi <= s[i].lo
  }

  /** A range apart from all ranges is apart from what they join to. */
  lemma {:induction false} JoinedApart(s: seq<Span>, y: Span)
    requires Apart(s, y) && y.lo < y.hi && forall i | 0 <= i < |s| :: s[i].lo < s[i].hi
    ensures Apart(Joined(s), y) && forall i | 0 <= i < |Joined(s)| :: Joined(s)[i].lo < Joined(s)[i].hi
    decreases |s|
  {
    if s != [] {
      var n := |s| - 1;
      JoinedApart(s[..n], y);
      assert s == s[..n] + [s[n]];
      JoinSnoc(s[..n], s[n]);
    }
  }

  /** Joining disjoint ranges gives disjoint ranges. */
  lemma {:induction false} JoinedDisjoint(s: seq<Span>)
    requires Disjoint(s)
    ensures Disjoint(Joined(s))
    decreases |s|
  {
    if s != [] {
      var n := |s| - 1;
      JoinedDisjoint(s[..n]);
      JoinedApart(s[..n], s[n]);
      assert s == s[..n] + [s[n]];
      JoinSnoc(s[..n], s[n]);
    }
  }

  /** A range apart from what ranges join to is apart from each of them. */
  lemma {:induction false} ApartFromParts(s: seq<Span>, y: Span)
    requires Apart(Joined(s), y) && y.lo < y.hi && forall i | 0 <= i < |s| :: s[i].lo < s[i].hi
    ensures Apart(s, y)
  {
    forall i | 0 <= i < |s| ensures s[i].hi <= y.lo || y.hi <= s[i].lo {
      PartInJoined(s, i);
    }
  }

  lemma {:induction false} PartInJoined(s: seq<Span>, i: nat)
    requires i < |s| && forall i | 0 <= i < |s| :: s[i].lo < s[i].hi
    ensures exists k :: 0 <= k < |Joined(s)| && Joined(s)[k].lo <= s[i].lo && s[i].hi <= Joined(s)[k].hi
    decreases |s|
  {
    var n := |s| - 1;
    assert s == s[..n] + [s[n]];
    JoinSnoc(s[..n], s[n]);
    var t, u := Joined(s[..n]), Joined(s);
    if i < n {
      PartInJoined(s[..n], i);
      var k :| 0 <= k < |t| && t[k].lo <= s[..n][i].lo && s[..n][i].hi <= t[k].hi;
      assert u[k].lo <= s[i].lo && (u[k].hi == t[k].hi || u[k].hi == s[n].hi);
    } else {
      JoinedCovers(s[..n], 0);
      assert u[|u| - 1].hi == s[n].hi && u[|u| - 1].lo <= s[n].lo;
    }
  }
}
