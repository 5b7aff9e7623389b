/**
  Whole runs over the cache: every answer, and the contents at the end, are those of plain
  files kept in memory, whichever blocks are evicted on the way.
 */
module CacheRuns {
  import opened Bytes
  import opened CacheModel
  import opened CacheCounts
  import opened BlockCache

  datatype Op =
    | ReadAt(fd: int, pos: nat, count: nat) | WriteAt(fd: int, pos: nat, bytes: seq<byte>)
    | Sync(fd: int) | Shut(fd: int)

  datatype Answer = Bytes(bytes: seq<byte>) | Count(n: int)

  /** Positions never lie behind the end of the file. */
  predicate Allowed(files: Disk, op: Op) {
    op.fd in files && (op.ReadAt? || op.WriteAt? ==> op.pos <= |files[op.fd]|)
  }

  /** Plain files, except that a file does not grow past its last block. */
  function Flat(files: Disk, op: Op): (Disk, Answer)
    requires Allowed(files, op)
  {
    match op
    case ReadAt(fd, pos, count) => (files, Bytes(files[fd][pos..pos + FlatReadCount(pos, count, |files[fd]|)]))
    case WriteAt(fd, pos, bytes) =>
      FlatCounts(files[fd], pos, bytes);
      var n := WriteCount(pos, |bytes|, |files[fd]|);
      (files[fd := Stored(files[fd], pos, bytes[..n])], Count(n))
    case _ => (files, Count(0))
  }

  lemma FlatCounts(v: File, pos: nat, bytes: seq<byte>)
    requires pos <= |v|
    ensures 0 <= WriteCount(pos, |bytes|, |v|) <= |bytes|
    ensures pos + WriteCount(pos, |bytes|, |v|) <= RoundUp(|v|)
  {
    RoundUpIs(|v|);
  }

  ghost predicate AllAllowed(files: Disk, ops: seq<Op>)
    decreases |ops|
  {
    ops != [] ==> Allowed(files, ops[0]) && AllAllowed(Flat(files, ops[0]).0, ops[1..])
  }

  ghost function FlatRun(files: Disk, ops: seq<Op>): (Disk, seq<Answer>)
    requires AllAllowed(files, ops)
    decreases |ops|
  {
    if ops == [] then (files, [])
    else
      var (next, answer) := Flat(files, ops[0]);
      var (last, answers) := FlatRun(next, ops[1..]);
      (last, [answer] + answers)
  }

  /** Over any run a file keeps its length up to the end of the block that holds its last
      original byte, and never shrinks. */
  lemma {:induction false} RunBound(files: Disk, ops: seq<Op>, fd: int)
    requires AllAllowed(files, ops) && fd in files
    ensures fd in FlatRun(files, ops).0
    ensures |files[fd]| <= |FlatRun(files, ops).0[fd]| <= RoundUp(|files[fd]|) == RoundUp(|FlatRun(files, ops).0[fd]|)
    decreases |ops|
  {
    RoundUpIs(|files[fd]|);
    if ops != [] {
      StepBound(files, ops[0], fd);
      RunBound(Flat(files, ops[0]).0, ops[1..], fd);
    }
  }

  lemma StepBound(files: Disk, op: Op, fd: int)
    requires Allowed(files, op) && fd in files
    ensures fd in Flat(files, op).0
    ensures |files[fd]| <= |Flat(files, op).0[fd]| <= RoundUp(|files[fd]|) == RoundUp(|Flat(files, op).0[fd]|)
  {
    RoundUpIs(|files[fd]|);
    if op.WriteAt? && op.fd == fd {
      FlatCounts(files[fd], op.pos, op.bytes);
    }
    RoundUpSame(|files[fd]|, |Flat(files, op).0[fd]|);
  }

  lemma OnlyOne(files: Disk, files': Disk, fd: int)
    requires fd in files && files'.Keys == files.Keys && forall g | g in files' && g != fd :: files'[g] == files[g]
    ensures fd in files' && files' == files[fd := files'[fd]]
  {
    assert fd in files'.Keys;
    var m := files[fd := files'[fd]];
    assert m.Keys == files'.Keys;
    forall g | g in files' ensures g in m && m[g] == files'[g] { assert g in files'.Keys; }
  }

  method PerformRead(c: Cache, fd: int, pos: nat, count: nat, writable: bool) returns (answer: Answer, lost: bool)
    requires c.Valid() && Allowed(c.contents, ReadAt(fd, pos, count)) && fd in c.disk
    modifies c.Repr()
    ensures (writable ==> !lost) && (lost ==> c.BlockLost())
    ensures !lost ==> c.Valid() && fresh(c.Repr() - old(c.Repr()))
    ensures !lost ==> (c.contents, answer) == Flat(old(c.contents), ReadAt(fd, pos, count))
  {
    hide Cache.Valid, Cache.BlockLost;
    var buf := new byte[count];
    var r;
    r, lost := c.Read(fd, buf, count, pos, true, writable);
    answer := if lost then Count(0) else Bytes(buf[..r]);
  }

  method PerformWrite(c: Cache, fd: int, pos: nat, bytes: seq<byte>, writable: bool)
        returns (answer: Answer, lost: bool)
    requires c.Valid() && Allowed(c.contents, WriteAt(fd, pos, bytes)) && fd in c.disk
    modifies c.Repr()
    ensures (writable ==> !lost) && (lost ==> c.BlockLost())
    ensures !lost ==> c.Valid() && fresh(c.Repr() - old(c.Repr()))
    ensures !lost ==> (c.contents, answer) == Flat(old(c.contents), WriteAt(fd, pos, bytes))
  {
    hide Cache.Valid, Cache.BlockLost, Cache.Repr, RoundUp, WriteCount, Stored, Stores;
    ghost var v := c.contents[fd];
    FlatCounts(v, pos, bytes);
    var r;
    r, lost := c.Write(fd, bytes, pos, true, writable);
    answer := Count(r);
    if !lost {
      StoresExactly(v, c.contents[fd], pos, bytes[..r]);
      OnlyOne(old(c.contents), c.contents, fd);
    }
  }

  /** One operation through the cache is one operation on plain files, unless an eviction
      loses a block. */
  method Perform(c: Cache, op: Op, writable: bool) returns (answer: Answer, lost: bool)
    requires c.Valid() && Allowed(c.contents, op) && op.fd in c.disk
    modifies c.Repr()
    ensures (writable ==> !lost) && (lost ==> c.BlockLost())
    ensures !lost ==> c.Valid() && fresh(c.Repr() - old(c.Repr())) && (c.contents, answer) == Flat(old(c.contents), op)
  {
    hide Cache.Valid, Cache.BlockLost, Cache.Repr, RoundUp, WriteCount, Stored, Stores;
    lost := false;
    match op {
      case ReadAt(fd, pos, count) =>
        answer, lost := PerformRead(c, fd, pos, count, writable);
      case WriteAt(fd, pos, bytes) =>
        answer, lost := PerformWrite(c, fd, pos, bytes, writable);
      case Sync(fd) =>
        var r := c.Fsync(fd, true, 0);
        answer := Count(r);
      case Shut(fd) =>
        var r := c.Close(fd, true, 0);
        answer := Count(r);
    }
  }

  /**
    The cache refines plain files over every run: for any operations, and any victims of
    its evictions, it gives the same answers and ends with the same contents.  When the
    write-back of a victim fails the run ends there; up to then the answers are the same.
   */
  method Run(c: Cache, ops: seq<Op>, writable: bool) returns (answers: seq<Answer>, lost: bool)
    requires c.Valid() && AllAllowed(c.contents, ops)
    modifies c.Repr()
    ensures (writable ==> !lost) && (lost ==> c.BlockLost() && |answers| < |ops|)
    ensures !lost ==> c.Valid() && (c.contents, answers) == FlatRun(old(c.contents), ops)
    ensures answers <= FlatRun(old(c.contents), ops).1
  {
    hide Cache.Valid, Cache.BlockLost, Flat;
    answers, lost := [], false;
    var rest := ops;
    assert ([] + FlatRun(c.contents, ops).1) == FlatRun(c.contents, ops).1;
    while rest != []
      invariant !lost && c.Valid() && fresh(c.Repr() - old(c.Repr())) && AllAllowed(c.contents, rest)
      invariant FlatRun(old(c.contents), ops) == (FlatRun(c.contents, rest).0, answers + FlatRun(c.contents, rest).1)
      invariant |answers| + |rest| == |ops|
      decreases |rest|
    {
      c.FilesStillOpen(rest[0].fd);
      ghost var files := c.contents;
      var answer;
      answer, lost := Perform(c, rest[0], writable);
      if lost {
        return;
      }
      ghost var later := FlatRun(c.contents, rest[1..]).1;
      assert answers + ([answer] + later) == (answers + [answer]) + later;
      answers, rest := answers + [answer], rest[1..];
    }
    assert answers + [] == answers;
  }
}
