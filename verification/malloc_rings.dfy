/**
  Circular doubly linked rings over address-keyed link fields, as used for the
  bins (a header followed by its chunks) and for the second ring that joins the
  first chunk of each size in a large bin.
 */
module LinkedRings {

  type Links = map<int, int>

  ghost predicate NoDup(s: seq<int>) {
    forall i, j | 0 <= i < j < |s| :: s[i] != s[j]
  }

  function After(c: seq<int>, i: nat): int
    requires i < |c|
  {
    if i + 1 < |c| then c[i + 1] else c[0]
  }

  function Before(c: seq<int>, i: nat): int
    requires i < |c|
  {
    if i > 0 then c[i - 1] else c[|c| - 1]
  }

  /** Element i of the cycle c points at both of its neighbours. */
  ghost predicate Joined(fd: Links, bk: Links, c: seq<int>, i: nat)
    requires i < |c|
  {
    c[i] in fd && fd[c[i]] == After(c, i) && c[i] in bk && bk[c[i]] == Before(c, i)
  }

  /** The forward and backward links join the elements of c, in order, into one cycle. */
  ghost predicate Ring(fd: Links, bk: Links, c: seq<int>) {
    forall i | 0 <= i < |c| :: Joined(fd, bk, c, i)
  }

  function Without(c: seq<int>, k: nat): seq<int>
    requires k < |c|
  {
    c[..k] + c[k + 1..]
  }

  function With(c: seq<int>, k: nat, p: int): seq<int>
    requires k <= |c|
  {
    c[..k] + [p] + c[k..]
  }

  lemma WithoutNoDup(c: seq<int>, k: nat)
    requires NoDup(c) && k < |c|
    ensures NoDup(Without(c, k))
    ensures forall x :: x in Without(c, k) <==> x in c && x != c[k]
  {
    var d := Without(c, k);
    forall x ensures x in d <==> x in c && x != c[k] {
      if x in c && x != c[k] {
        var i :| 0 <= i < |c| && c[i] == x;
        assert d[if i < k then i else i - 1] == x;
      }
    }
  }

  lemma WithNoDup(c: seq<int>, k: nat, p: int)
    requires NoDup(c) && k <= |c| && p !in c
    ensures NoDup(With(c, k, p))
    ensures forall x :: x in With(c, k, p) <==> x in c || x == p
  {
    var d := With(c, k, p);
    assert d[k] == p;
    forall x ensures x in d <==> x in c || x == p {
      if x in c {
        var i :| 0 <= i < |c| && c[i] == x;
        assert d[if i < k then i else i + 1] == x;
      }
    }
  }

  /** Joining the neighbours of c[k] takes exactly c[k] off the ring. */
  lemma RingWithout(fd: Links, bk: Links, c: seq<int>, k: nat)
    requires Ring(fd, bk, c) && NoDup(c) && k < |c| && |c| > 1
    ensures Joined(fd, bk, c, k)
    ensures Ring(fd[bk[c[k]] := fd[c[k]]], bk[fd[c[k]] := bk[c[k]]], Without(c, k))
  {
    assert Joined(fd, bk, c, k);
    var p := c[k];
    var n, v := fd[p], bk[p];
    var fd', bk', d := fd[v := n], bk[n := v], Without(c, k);
    forall i | 0 <= i < |d| ensures Joined(fd', bk', d, i) {
      var j := if i < k then i else i + 1;
      assert d[i] == c[j] && Joined(fd, bk, c, j);
    }
  }

  /** Linking p between its neighbours-to-be puts it at position k of the ring. */
  lemma RingWith(fd: Links, bk: Links, c: seq<int>, k: nat, p: int, v: int, n: int)
    requires Ring(fd, bk, c) && NoDup(c) && k <= |c| && |c| > 0 && p !in c
    requires v == (if k > 0 then c[k - 1] else c[|c| - 1])
    requires n == (if k < |c| then c[k] else c[0])
    ensures Ring(fd[p := n][v := p], bk[p := v][n := p], With(c, k, p))
  {
    var fd', bk', d := fd[p := n][v := p], bk[p := v][n := p], With(c, k, p);
    assert d[k] == p;
    forall i | 0 <= i < |d| ensures Joined(fd', bk', d, i) {
      if i != k {
        var j := if i < k then i else i - 1;
        assert d[i] == c[j] && Joined(fd, bk, c, j);
      }
    }
  }

  /** Handing the links of c[k] over to q puts q in its place. */
  lemma RingReplace(fd: Links, bk: Links, c: seq<int>, k: nat, q: int)
    requires Ring(fd, bk, c) && NoDup(c) && k < |c| && |c| > 1 && q !in c
    ensures Joined(fd, bk, c, k)
    ensures var n, v := fd[c[k]], bk[c[k]];
            Ring(fd[q := n][v := q], bk[q := v][n := q], c[k := q])
  {
    assert Joined(fd, bk, c, k);
    var n, v := fd[c[k]], bk[c[k]];
    var fd', bk', d := fd[q := n][v := q], bk[q := v][n := q], c[k := q];
    forall i | 0 <= i < |d| ensures Joined(fd', bk', d, i) {
      if i != k { assert d[i] == c[i] && Joined(fd, bk, c, i); }
    }
  }

  /** A ring does not depend on links of addresses outside it. */
  lemma RingFrame(fd: Links, bk: Links, fd': Links, bk': Links, c: seq<int>)
    requires Ring(fd, bk, c)
    requires forall x | x in c && x in fd :: x in fd' && fd'[x] == fd[x]
    requires forall x | x in c && x in bk :: x in bk' && bk'[x] == bk[x]
    ensures Ring(fd', bk', c)
  {
    forall i | 0 <= i < |c| ensures Joined(fd', bk', c, i) {
      assert Joined(fd, bk, c, i);
      var x := c[i];
      assert x in c && x in fd && x in bk;
    }
  }

  /** Neighbours on a ring point at each other. */
  lemma RingMirror(fd: Links, bk: Links, c: seq<int>, i: nat)
    requires Ring(fd, bk, c) && i < |c|
    ensures Joined(fd, bk, c, i)
    ensures fd[c[i]] in bk && bk[fd[c[i]]] == c[i] && bk[c[i]] in fd && fd[bk[c[i]]] == c[i]
  {
    assert Joined(fd, bk, c, i);
    assert Joined(fd, bk, c, if i + 1 < |c| then i + 1 else 0);
    assert Joined(fd, bk, c, if i > 0 then i - 1 else |c| - 1);
  }
}
