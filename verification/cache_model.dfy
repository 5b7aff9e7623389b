/**
  What the block cache means: the contents of a file as a program sees them, which are its
  bytes on disk with the cached blocks laid over them, and what loading, changing, flushing
  and dropping a block does to that.
 */
module CacheModel {
  import opened Bytes

  type File = seq<byte>

  /** A cached block: its whole buffer, of which the first valid bytes count. */
  datatype Entry = Entry(fd: int, offset: int, data: seq<byte>, valid: int, dirty: bool)

  function Min(a: int, b: int): int { if a <= b then a else b }

  function Max(a: int, b: int): int { if a >= b then a else b }

  /** The start of the block that holds position x. */
  function BlockStart(x: int): int { (x / 4096) * 4096 }

  /** The end of the block that holds the last byte of a file of this length. */
  function RoundUp(len: int): int { ((len + 4095) / 4096) * 4096 }

  ghost predicate Holds(e: Entry, fd: int, x: int) {
    e.fd == fd && e.offset <= x < e.offset + 4096
  }

  ghost predicate Cached(es: seq<Entry>, fd: int, x: int) {
    exists i :: 0 <= i < |es| && Holds(es[i], fd, x)
  }

  /** The block shows the contents v: it is aligned, starts inside, reaches as far as v
      does, and has the bytes of v. */
  ghost predicate Fits(e: Entry, v: File) {
    && e.offset % 4096 == 0 && 0 <= e.offset < |v| && |e.data| == 4096
    && e.valid == Min(4096, |v| - e.offset)
    && e.data[..e.valid] == v[e.offset..e.offset + e.valid]
  }

  /** The file on disk already has the bytes of the block. */
  ghost predicate OnDisk(file: File, e: Entry) {
    && 0 <= e.offset && 0 <= e.valid <= |e.data| && e.offset + e.valid <= |file|
    && file[e.offset..e.offset + e.valid] == e.data[..e.valid]
  }

  /** The file on disk has byte x of the contents. */
  ghost predicate ByteOnDisk(file: File, v: File, x: int)
    requires 0 <= x < |v|
  {
    x < |file| && file[x] == v[x]
  }

  /** The contents of fd are v: cached blocks show v, bytes that no block holds are on
      disk, and so are the bytes of clean blocks. */
  ghost predicate Shows(file: File, es: seq<Entry>, fd: int, v: File) {
    && |file| <= |v|
    && (forall i | 0 <= i < |es| && es[i].fd == fd :: Fits(es[i], v) && es[i].offset < |file|)
    && (forall x | 0 <= x < |v| && !Cached(es, fd, x) :: ByteOnDisk(file, v, x))
    && (forall i | 0 <= i < |es| && es[i].fd == fd && !es[i].dirty :: OnDisk(file, es[i]))
  }

  /** No block is cached twice. */
  ghost predicate Keyed(es: seq<Entry>) {
    forall i, j | 0 <= i < j < |es| :: es[i].fd != es[j].fd || es[i].offset != es[j].offset
  }

  // ----- the contents as a function of disk and cache -----

  /** A block written over contents. */
  function Put(v: File, e: Entry): File
    requires 0 <= e.offset <= |v| && 0 <= e.valid <= |e.data|
  {
    v[..e.offset] + e.data[..e.valid] + v[Min(|v|, e.offset + e.valid)..]
  }

  ghost predicate InOrder(es: seq<Entry>, fd: int, v: File) {
    forall i | 0 <= i < |es| && es[i].fd == fd :: 0 <= es[i].offset <= |v| && 0 <= es[i].valid <= |es[i].data|
  }

  /** Bytes stored in a buffer from a place on. */
  function Patched(b: seq<byte>, at: nat, c: seq<byte>): seq<byte>
    requires at + |c| <= |b|
  {
    b[..at] + c + b[at + |c|..]
  }

  lemma PatchedNone(b: seq<byte>, at: nat)
    requires at <= |b|
    ensures Patched(b, at, []) == b
  {
  }

  lemma PatchedTwice(b: seq<byte>, a: seq<byte>, c: seq<byte>)
    requires |a| + |c| <= |b|
    ensures Patched(Patched(b, 0, a), |a|, c) == Patched(b, 0, a + c)
  {
  }

  lemma PatchedAt(b: seq<byte>, a: seq<byte>)
    requires |a| <= |b|
    ensures Patched(b, 0, a)[..|a|] == a && Patched(b, 0, a)[|a|..] == b[|a|..]
  {
  }

  /** The file with every cached block of fd laid over it. */
  ghost function Overlay(file: File, es: seq<Entry>, fd: int): (v: File)
    requires InOrder(es, fd, file)
    ensures |v| >= |file|
    decreases |es|
  {
    if es == [] then file
    else
      var n := |es| - 1;
      var v := Overlay(file, es[..n], fd);
      if es[n].fd == fd then Put(v, es[n]) else v
  }

  // ----- blocks of one file do not overlap -----

  lemma BlocksApart(a: int, b: int)
    requires a % 4096 == 0 && b % 4096 == 0 && a < b
    ensures a + 4096 <= b
  {
  }

  /** The block that holds x is the one that starts at the start of x's block. */
  lemma HolderStart(e: Entry, fd: int, x: int)
    requires e.offset % 4096 == 0 && x >= 0
    ensures Holds(e, fd, x) <==> e.fd == fd && e.offset == BlockStart(x)
    ensures 0 <= BlockStart(x) <= x < BlockStart(x) + 4096 && BlockStart(x) % 4096 == 0
  {
  }

  lemma SameSlice(file: File, v: File, a: int, b: int)
    requires 0 <= a < b <= |v| && forall x | a <= x < b :: ByteOnDisk(file, v, x)
    ensures b <= |file| && file[a..b] == v[a..b]
  {
    assert ByteOnDisk(file, v, b - 1);
    forall x | a <= x < b ensures file[x] == v[x] { assert ByteOnDisk(file, v, x); }
  }

  // ----- loading -----

  /** What pread puts in the block at offset. */
  ghost predicate Loaded(file: File, e: Entry) {
    && |e.data| == 4096 && 0 <= e.offset < |file| && e.valid == Min(4096, |file| - e.offset)
    && e.data[..e.valid] == file[e.offset..e.offset + e.valid]
  }

  lemma UncachedOnDisk(file: File, es: seq<Entry>, fd: int, v: File, offset: int, x: int)
    requires Shows(file, es, fd, v) && offset % 4096 == 0 && offset <= x < offset + 4096 && 0 <= x < |v| && offset >= 0
    requires forall i | 0 <= i < |es| :: es[i].fd != fd || es[i].offset != offset
    ensures ByteOnDisk(file, v, x)
  {
    if Cached(es, fd, x) {
      var i :| 0 <= i < |es| && Holds(es[i], fd, x);
      HolderStart(es[i], fd, x);
      BlockStartOf(offset, x);
    }
  }

  lemma BlockStartOf(offset: int, x: int)
    requires offset % 4096 == 0 && offset <= x < offset + 4096
    ensures BlockStart(x) == offset
  {
  }

  /** A block that is not cached is on disk as far as the contents go, so reading it from
      disk shows the contents, and nothing is read exactly beyond their end. */
  lemma LoadFits(file: File, es: seq<Entry>, fd: int, v: File, offset: int)
    requires Shows(file, es, fd, v) && offset % 4096 == 0 && offset >= 0
    requires forall i | 0 <= i < |es| :: es[i].fd != fd || es[i].offset != offset
    ensures offset < |file| <==> offset < |v|
    ensures forall e: Entry | e.fd == fd && e.offset == offset && Loaded(file, e) :: Fits(e, v) && OnDisk(file, e)
  {
    assert |file| <= |v|;
    forall x | offset <= x < offset + 4096 && x < |v|
        ensures ByteOnDisk(file, v, x) { UncachedOnDisk(file, es, fd, v, offset, x); }
    hide Shows;
    if offset < |v| {
      SameSlice(file, v, offset, Min(offset + 4096, |v|));
    }
  }

  /** Changing a block in place does not change which bytes are cached. */
  lemma CachedUpdate(es: seq<Entry>, k: nat, e: Entry, fd: int, x: int)
    requires k < |es| && e.fd == es[k].fd && e.offset == es[k].offset
    ensures Cached(es[k := e], fd, x) <==> Cached(es, fd, x)
  {
    var t := es[k := e];
    if Cached(t, fd, x) {
      var j :| 0 <= j < |t| && Holds(t[j], fd, x);
      assert Holds(es[j], fd, x);
    }
    if Cached(es, fd, x) {
      var j :| 0 <= j < |es| && Holds(es[j], fd, x);
      assert Holds(t[j], fd, x);
    }
  }

  lemma CachedAdd(es: seq<Entry>, e: Entry, fd: int, x: int)
    ensures Cached(es + [e], fd, x) <==> Cached(es, fd, x) || Holds(e, fd, x)
  {
    var t := es + [e];
    if Cached(es, fd, x) {
      var i :| 0 <= i < |es| && Holds(es[i], fd, x);
      assert Holds(t[i], fd, x);
    }
    if Holds(e, fd, x) { assert Holds(t[|es|], fd, x); }
  }

  lemma AddShows(file: File, es: seq<Entry>, e: Entry, fd: int, v: File)
    requires Shows(file, es, fd, v) && (e.fd == fd ==> Fits(e, v) && OnDisk(file, e) && e.offset < |file|)
    ensures Shows(file, es + [e], fd, v)
  {
    forall x { CachedAdd(es, e, fd, x); }
  }

  // ----- dropping and flushing -----

  function Without(es: seq<Entry>, k: nat): seq<Entry>
    requires k < |es|
  {
    es[..k] + es[k + 1..]
  }

  /** What a write-back leaves on disk. */
  function WrittenBack(file: File, e: Entry): File
    requires 0 <= e.offset <= |file| && 0 <= e.valid <= |e.data|
  {
    if e.dirty then Put(file, e) else file
  }

  lemma PutOnDisk(file: File, e: Entry)
    requires 0 <= e.offset <= |file| && 0 <= e.valid <= |e.data|
    ensures OnDisk(Put(file, e), e) && |Put(file, e)| == Max(|file|, e.offset + e.valid)
    ensures forall x | 0 <= x < |file| && !(e.offset <= x < e.offset + e.valid) :: Put(file, e)[x] == file[x]
  {
  }

  /** Writing a block back leaves the contents as they were. */
  lemma WriteBackShows(file: File, es: seq<Entry>, k: nat, v: File)
    requires k < |es| && Keyed(es) && Shows(file, es, es[k].fd, v)
    ensures 0 <= es[k].valid <= |es[k].data| && 0 <= es[k].offset < |file|
    ensures Shows(WrittenBack(file, es[k]), es, es[k].fd, v) && OnDisk(WrittenBack(file, es[k]), es[k])
  {
    var e, fd := es[k], es[k].fd;
    assert Fits(e, v);
    if e.dirty {
      PutOnDisk(file, e);
      var f := Put(file, e);
      forall x | 0 <= x < |v| && !Cached(es, fd, x) ensures ByteOnDisk(f, v, x) {
        assert !Holds(e, fd, x);
      }
      forall i | 0 <= i < |es| && es[i].fd == fd && !es[i].dirty ensures OnDisk(f, es[i]) {
        assert Fits(es[i], v) && OnDisk(file, es[i]);
        KeyedApart(es, i, k);
        OnDiskStill(file, f, e, es[i]);
      }
    }
  }

  lemma KeyedApart(es: seq<Entry>, i: nat, j: nat)
    requires Keyed(es) && i < |es| && j < |es| && i != j && es[i].fd == es[j].fd
    requires es[i].offset % 4096 == 0 && es[j].offset % 4096 == 0
    ensures es[i].offset + 4096 <= es[j].offset || es[j].offset + 4096 <= es[i].offset
  {
    if es[i].offset < es[j].offset { BlocksApart(es[i].offset, es[j].offset); }
    else if es[j].offset < es[i].offset { BlocksApart(es[j].offset, es[i].offset); }
    else if i < j {} else {}
  }

  lemma OnDiskStill(file: File, f: File, e: Entry, c: Entry)
    requires |f| >= |file| && forall x | 0 <= x < |file| && !(e.offset <= x < e.offset + e.valid) :: f[x] == file[x]
    requires OnDisk(file, c) && e.valid <= 4096 && c.valid <= 4096
    requires e.offset + 4096 <= c.offset || c.offset + 4096 <= e.offset
    ensures OnDisk(f, c)
  {
    assert f[c.offset..c.offset + c.valid] == file[c.offset..c.offset + c.valid];
  }

  /** What a write-back does to the files on disk: a dirty block has its bytes there and no
      other byte changes; a clean one changes nothing. */
  ghost predicate FlushedTo(disk: Disk, e: Entry, disk': Disk) {
    && disk'.Keys == disk.Keys && e.fd in disk && (!e.dirty ==> disk' == disk)
    && (forall g | g in disk && g != e.fd :: disk'[g] == disk[g])
    && (e.dirty ==>
      && OnDisk(disk'[e.fd], e) && |disk'[e.fd]| == Max(|disk[e.fd]|, e.offset + e.valid)
      && forall x | 0 <= x < |disk[e.fd]| && !(e.offset <= x < e.offset + e.valid) :: disk'[e.fd][x] == disk[e.fd][x])
  }

  lemma WrittenBackFlushes(disk: Disk, e: Entry)
    requires e.fd in disk && 0 <= e.offset <= |disk[e.fd]| && 0 <= e.valid <= |e.data|
    ensures FlushedTo(disk, e, disk[e.fd := WrittenBack(disk[e.fd], e)])
  {
    PutOnDisk(disk[e.fd], e);
    hide Put, OnDisk;
    var d := disk[e.fd := WrittenBack(disk[e.fd], e)];
    assert d.Keys == disk.Keys;
    assert !e.dirty ==> d == disk;
  }

  const CACHE_CAPACITY := 4

  /** Room for one more block: while there is some nothing changes, and else exactly one
      block goes, whose bytes alone may reach the disk. */
  ghost predicate RoomMade(disk: Disk, es: seq<Entry>, disk': Disk, es': seq<Entry>) {
    if |es| < CACHE_CAPACITY then disk' == disk && es' == es
    else exists k: nat {:trigger Without(es, k)} :: k < |es| && es' == Without(es, k) && FlushedTo(disk, es[k], disk')
  }

  /** The block of fd at offset is read from disk and added, as the last one. */
  ghost predicate Admitted(disk: Disk, es: seq<Entry>, disk': Disk, es': seq<Entry>, fd: int, offset: int,
        dirty: bool)
  {
    && |es'| == Min(|es| + 1, CACHE_CAPACITY) && RoomMade(disk, es, disk', es'[..|es'| - 1])
    && var e := es'[|es'| - 1];
       e.fd == fd && e.offset == offset && e.dirty == dirty && fd in disk && Loaded(disk[fd], e)
  }

  lemma AdmittedAs(disk: Disk, es: seq<Entry>, disk': Disk, es': seq<Entry>, e: Entry)
    requires |es'| == Min(|es| + 1, CACHE_CAPACITY) > 0 && RoomMade(disk, es, disk', es'[..|es'| - 1])
    requires es'[|es'| - 1] == e && e.fd in disk && Loaded(disk[e.fd], e)
    ensures Admitted(disk, es, disk', es', e.fd, e.offset, e.dirty)
  {
    hide RoomMade, Loaded;
  }

  /** Reading makes no block dirty: the dirty ones are those there were, or fewer. */
  ghost predicate NoneDirtied(es: seq<Entry>, es': seq<Entry>) {
    forall e | e in es' && e.dirty :: e in es
  }

  /** Writing to fd makes no other change to the blocks of other files than dropping some. */
  ghost predicate OthersKept(es: seq<Entry>, es': seq<Entry>, fd: int) {
    forall e | e in es' && e.fd != fd :: e in es
  }

  lemma AdmittedFrom(disk: Disk, es: seq<Entry>, disk': Disk, es': seq<Entry>, fd: int, offset: int, dirty: bool)
    requires Admitted(disk, es, disk', es', fd, offset, dirty)
    ensures dirty || NoneDirtied(es, es')
    ensures OthersKept(es, es', fd)
  {
    hide FlushedTo, Loaded;
    var most := es'[..|es'| - 1];
    forall e | e in es' ensures e in es || e == es'[|es'| - 1] {
      if e != es'[|es'| - 1] {
        assert e in most;
      }
    }
  }

  lemma KeptAll(es: seq<Entry>, fd: int)
    ensures NoneDirtied(es, es) && OthersKept(es, es, fd)
  {
  }

  lemma NoneDirtiedTwice(es: seq<Entry>, es': seq<Entry>, es'': seq<Entry>)
    requires NoneDirtied(es, es') && NoneDirtied(es', es'')
    ensures NoneDirtied(es, es'')
  {
  }

  lemma KeptTwice(es: seq<Entry>, es': seq<Entry>, es'': seq<Entry>, fd: int)
    requires OthersKept(es, es', fd) && OthersKept(es', es'', fd)
    ensures OthersKept(es, es'', fd)
  {
  }

  lemma UpdateKeeps(es: seq<Entry>, k: nat, e: Entry)
    requires k < |es| && e.fd == es[k].fd
    ensures OthersKept(es, es[k := e], e.fd)
  {
    var t := es[k := e];
    forall c | c in t && c.fd != e.fd ensures c in es {
      var i :| 0 <= i < |t| && t[i] == c;
      assert es[i] == c;
    }
  }

  ghost predicate HasDirty(es: seq<Entry>, fd: int) {
    exists i :: 0 <= i < |es| && es[i].fd == fd && es[i].dirty
  }

  lemma DirtyWithout(es: seq<Entry>, k: nat, fd: int)
    requires k < |es|
    ensures HasDirty(es, fd) <==> HasDirty(Without(es, k), fd) || (es[k].fd == fd && es[k].dirty)
  {
    var t := Without(es, k);
    if HasDirty(t, fd) {
      var i :| 0 <= i < |t| && t[i].fd == fd && t[i].dirty;
      assert t[i] == es[if i < k then i else i + 1];
    }
    if HasDirty(es, fd) {
      var i :| 0 <= i < |es| && es[i].fd == fd && es[i].dirty;
      if i != k { assert es[i] == t[if i < k then i else i - 1]; }
    }
  }

  function Cleaned(e: Entry, fd: int): Entry {
    if e.fd == fd then e.(dirty := false) else e
  }

  /** The blocks of fd are clean, and nothing else about the blocks has changed. */
  ghost predicate CleanedIn(es: seq<Entry>, es': seq<Entry>, fd: int) {
    |es'| == |es| && forall i | 0 <= i < |es| :: es'[i] == Cleaned(es[i], fd)
  }

  /** A block can be dropped without losing contents exactly when the disk has its bytes:
      one that could not be written back cannot. */
  lemma DropShows(file: File, es: seq<Entry>, k: nat, v: File)
    requires k < |es| && Keyed(es) && Shows(file, es, es[k].fd, v)
    ensures Shows(file, Without(es, k), es[k].fd, v) <==> OnDisk(file, es[k])
  {
    var e, fd, t := es[k], es[k].fd, Without(es, k);
    assert Fits(e, v);
    forall x | 0 <= x < |v| ensures Cached(t, fd, x) <==> Cached(es, fd, x) && !Holds(e, fd, x) {
      CachedRemove(es, k, fd, x);
      if Holds(e, fd, x) { HeldOnce(es, k, fd, v, x); }
    }
    if OnDisk(file, e) {
      forall x | 0 <= x < |v| && !Cached(t, fd, x) ensures ByteOnDisk(file, v, x) {
        if Holds(e, fd, x) { SameByte(file, e, v, x); }
      }
    }
    if Shows(file, t, fd, v) {
      assert forall x | e.offset <= x < e.offset + e.valid :: Holds(e, fd, x);
      SameSlice(file, v, e.offset, e.offset + e.valid);
    }
  }

  /** Of blocks that showed the contents, with extra ones, a dirty one has been dropped. */
  ghost predicate DirtyErased(disk: Disk, es: seq<Entry>, extra: seq<Entry>, contents: Disk) {
    exists before: seq<Entry>, k: nat {:trigger Without(before, k)} ::
      k < |before| && before[k].dirty && es == Without(before, k) && Consistent(disk, before + extra, contents)
  }

  lemma DirtyErasedBy(disk: Disk, es: seq<Entry>, k: nat, extra: seq<Entry>, contents: Disk)
    requires k < |es| && es[k].dirty && Consistent(disk, es + extra, contents)
    ensures DirtyErased(disk, Without(es, k), extra, contents)
  {
  }

  lemma WithoutFiles(disk: Disk, es: seq<Entry>, k: nat)
    requires k < |es| && forall i | 0 <= i < |es| :: es[i].fd in disk
    ensures forall i | 0 <= i < |Without(es, k)| :: Without(es, k)[i].fd in disk
  {
    forall i | 0 <= i < |Without(es, k)| ensures Without(es, k)[i].fd in disk {
      assert Without(es, k)[i] == es[if i < k then i else i + 1];
    }
  }

  /** The contents are still there exactly when the disk has the bytes of the erased block. */
  lemma ErasedShows(disk: Disk, es: seq<Entry>, k: nat, extra: seq<Entry>, contents: Disk)
    requires k < |es| && Consistent(disk, es + extra, contents)
    ensures es[k].fd in disk
    ensures Consistent(disk, Without(es, k) + extra, contents) <==> OnDisk(disk[es[k].fd], es[k])
  {
    hide Shows, OnDisk, Keyed;
    var all := es + extra;
    assert all[k] == es[k] && Without(all, k) == Without(es, k) + extra;
    DropShows(disk[es[k].fd], all, k, contents[es[k].fd]);
    KeyedWithout(all, k);
    forall g | g in disk && g != es[k].fd ensures Shows(disk[g], Without(all, k), g, contents[g]) {
      DropOther(disk[g], all, k, g, contents[g]);
    }
    WithoutFiles(disk, all, k);
  }

  /** One byte changed in the cache and not on disk: dropping its block loses it. */
  lemma DirtyDropLoses()
    ensures var e, file, v := Entry(1, 0, seq(4096, _ => 7), 1, true), [0], [7];
            Shows(file, [e], 1, v) && !OnDisk(file, e) && Without([e], 0) == [] && !Shows(file, [], 1, v) &&
                Shows(file, [], 1, file)
  {
    var e, file, v: File := Entry(1, 0, seq(4096, _ => 7), 1, true), [0], [7];
    assert e.data[..1] == [7] == v[0..1] && file[0..1] == [0];
    assert Holds([e][0], 1, 0);
    DropShows(file, [e], 0, v);
    assert forall x :: !Cached([], 1, x);
  }

  lemma SameByte(file: File, e: Entry, v: File, x: int)
    requires Fits(e, v) && OnDisk(file, e) && e.offset <= x < e.offset + 4096 && x < |v|
    ensures ByteOnDisk(file, v, x)
  {
    assert file[e.offset..e.offset + e.valid][x - e.offset] == v[e.offset..e.offset + e.valid][x - e.offset];
  }

  lemma CachedRemove(es: seq<Entry>, k: nat, fd: int, x: int)
    requires k < |es|
    ensures Cached(es, fd, x) <==> Cached(Without(es, k), fd, x) || Holds(es[k], fd, x)
  {
    var t := Without(es, k);
    if Cached(t, fd, x) {
      var i :| 0 <= i < |t| && Holds(t[i], fd, x);
      assert Holds(es[if i < k then i else i + 1], fd, x);
    }
    if Cached(es, fd, x) {
      var j :| 0 <= j < |es| && Holds(es[j], fd, x);
      if j != k { assert Holds(t[if j < k then j else j - 1], fd, x); }
    }
  }

  /** Only one cached block holds a byte. */
  lemma HeldOnce(es: seq<Entry>, k: nat, fd: int, v: File, x: int)
    requires k < |es| && Keyed(es) && Holds(es[k], fd, x) && forall i | 0 <= i < |es| && es[i].fd == fd ::
        Fits(es[i], v)
    ensures !Cached(Without(es, k), fd, x)
  {
    var t := Without(es, k);
    assert Fits(es[k], v);
    forall i | 0 <= i < |t| && t[i].fd == fd ensures !Holds(t[i], fd, x) {
      var j := if i < k then i else i + 1;
      assert es[j] == t[i] && Fits(es[j], v);
      KeyedApart(es, j, k);
    }
  }

  /** Dropping a block of one file does not concern another. */
  lemma DropOther(file: File, es: seq<Entry>, k: nat, fd: int, v: File)
    requires k < |es| && Shows(file, es, fd, v) && es[k].fd != fd
    ensures Shows(file, Without(es, k), fd, v)
  {
    forall x { CachedRemove(es, k, fd, x); }
  }

  lemma KeyedWithout(es: seq<Entry>, k: nat)
    requires k < |es| && Keyed(es)
    ensures Keyed(Without(es, k))
  {
  }

  /** A block that is on disk may be marked clean. */
  lemma CleanShows(file: File, es: seq<Entry>, k: nat, fd: int, v: File)
    requires k < |es| && Shows(file, es, fd, v) && (es[k].fd == fd ==> OnDisk(file, es[k]))
    ensures Shows(file, es[k := es[k].(dirty := false)], fd, v)
  {
    var t := es[k := es[k].(dirty := false)];
    forall x { CachedUpdate(es, k, t[k], fd, x); }
  }

  /** Once no block is dirty, the disk has the contents. */
  lemma AllClean(file: File, es: seq<Entry>, fd: int, v: File)
    requires Shows(file, es, fd, v) && forall i | 0 <= i < |es| && es[i].fd == fd :: !es[i].dirty
    ensures file == v
  {
    forall x | 0 <= x < |v| ensures ByteOnDisk(file, v, x) {
      if Cached(es, fd, x) {
        var i :| 0 <= i < |es| && Holds(es[i], fd, x);
        assert Fits(es[i], v) && OnDisk(file, es[i]);
        SameByte(file, es[i], v, x);
      }
    }
    if |v| > 0 { SameSlice(file, v, 0, |v|); }
    assert file == file[0..|v|] && v == v[0..|v|];
  }

  // ----- writing into a block -----

  /** The contents v' are v with bytes stored at pos; a gap between the end of v and pos
      may hold anything. */
  ghost predicate Stores(v: File, v': File, pos: nat, bytes: seq<byte>) {
    if bytes == [] then v' == v
    else
      && |v'| == Max(|v|, pos + |bytes|) && v'[pos..pos + |bytes|] == bytes
      && forall x | 0 <= x < |v| && !(pos <= x < pos + |bytes|) :: v'[x] == v[x]
  }

  /** The contents after storing bytes inside v or right after it. */
  function Stored(v: File, pos: nat, bytes: seq<byte>): File
    requires pos <= |v|
  {
    v[..pos] + bytes + v[Min(|v|, pos + |bytes|)..]
  }

  lemma StoresExactly(v: File, v': File, pos: nat, bytes: seq<byte>)
    requires pos <= |v|
    ensures Stores(v, v', pos, bytes) <==> v' == Stored(v, pos, bytes)
  {
    var w := Stored(v, pos, bytes);
    if Stores(v, v', pos, bytes) && bytes != [] {
      forall x | 0 <= x < |v'| ensures v'[x] == w[x] {
        if pos <= x < pos + |bytes| { assert v'[pos..pos + |bytes|][x - pos] == v'[x]; }
      }
    }
  }

  lemma StoresNothing(v: File, pos: nat)
    ensures Stores(v, v, pos, [])
  {
  }

  lemma StoresLength(v: File, pos: nat, bytes: seq<byte>)
    ensures forall w: File :: Stores(v, w, pos, bytes) && bytes != [] ==> |w| == Max(|v|, pos + |bytes|)
  {
  }

  lemma StoresNone(v: File, w: File, pos: nat, bytes: seq<byte>)
    requires Stores(v, w, pos, bytes)
    ensures bytes == [] ==> v == w
  {
  }

  lemma StoresTwice(v0: File, v1: File, v2: File, pos: nat, a: seq<byte>, b: seq<byte>)
    requires Stores(v0, v1, pos, a) && Stores(v1, v2, pos + |a|, b)
    ensures Stores(v0, v2, pos, a + b)
  {
    if a == [] {
      assert a + b == b;
    } else if b == [] {
      assert a + b == a;
    } else {
      assert v2[pos..pos + |a + b|] == a + b by {
        assert v2[pos..pos + |a|] == v1[pos..pos + |a|];
        assert v2[pos..pos + |a + b|] == v2[pos..pos + |a|] + v2[pos + |a|..pos + |a| + |b|];
      }
    }
  }

  /** The block after memcpy at within. */
  function Changed(e: Entry, within: nat, bytes: seq<byte>): Entry
    requires within + |bytes| <= |e.data|
  {
    Entry(e.fd, e.offset, e.data[..within] + bytes + e.data[within + |bytes|..], Max(within + |bytes|, e.valid), true)
  }

  function ChangedContents(v: File, e: Entry, within: nat, bytes: seq<byte>): File
    requires Fits(e, v) && within + |bytes| <= 4096
  {
    var c := Changed(e, within, bytes);
    v[..e.offset] + c.data[..c.valid] + v[Min(|v|, e.offset + 4096)..]
  }

  lemma ChangedAt(v: File, e: Entry, within: nat, bytes: seq<byte>, x: int)
    requires Fits(e, v) && bytes != [] && within + |bytes| <= 4096
    ensures var c, w := Changed(e, within, bytes), ChangedContents(v, e, within, bytes);
            && |w| == Max(|v|, e.offset + within + |bytes|) && c.valid == Min(4096, |w| - e.offset)
            && (0 <= x < |w| ==> w[x] == if e.offset <= x < e.offset + c.valid then c.data[x - e.offset] else v[x])
  {
  }

  lemma ChangedByte(v: File, e: Entry, within: nat, bytes: seq<byte>, x: int)
    requires Fits(e, v) && bytes != [] && within + |bytes| <= 4096 && 0 <= x < |v|
    ensures var w, pos := ChangedContents(v, e, within, bytes), e.offset + within;
            |w| >= |v| && (!(pos <= x < pos + |bytes|) ==> w[x] == v[x])
  {
    ChangedAt(v, e, within, bytes, x);
    hide ChangedContents;
    if e.offset <= x < e.offset + e.valid {
      assert v[e.offset..e.offset + e.valid][x - e.offset] == e.data[..e.valid][x - e.offset];
    }
  }

  /** Changing a block changes the contents at that place and nowhere else. */
  lemma ChangedStores(v: File, e: Entry, within: nat, bytes: seq<byte>)
    requires Fits(e, v) && bytes != [] && within + |bytes| <= 4096
    ensures Fits(Changed(e, within, bytes), ChangedContents(v, e, within, bytes))
    ensures Stores(v, ChangedContents(v, e, within, bytes), e.offset + within, bytes)
  {
    var c, w := Changed(e, within, bytes), ChangedContents(v, e, within, bytes);
    var pos := e.offset + within;
    forall x { ChangedAt(v, e, within, bytes, x); }
    forall x | 0 <= x < |v| && !(pos <= x < pos + |bytes|) ensures w[x] == v[x] { ChangedByte(v, e, within, bytes, x); }
    Middle(v[..e.offset], c.data[..c.valid], v[Min(|v|, e.offset + 4096)..]);
    Middle(e.data[..within], bytes, e.data[within + |bytes|..]);
    hide ChangedContents;
    assert w[e.offset..e.offset + c.valid] == c.data[..c.valid];
    SliceInside(w, e.offset, e.offset + c.valid, within, |bytes|);
    SliceInside(c.data, 0, c.valid, within, |bytes|);
  }

  lemma Middle(a: seq<byte>, b: seq<byte>, c: seq<byte>)
    ensures (a + b + c)[|a|..|a| + |b|] == b
  {
  }

  lemma ChangedShows(file: File, es: seq<Entry>, k: nat, v: File, within: nat, bytes: seq<byte>)
    requires k < |es| && Keyed(es) && Shows(file, es, es[k].fd, v) && bytes != [] && within + |bytes| <= 4096
    ensures Fits(es[k], v)
    ensures Shows(file, es[k := Changed(es[k], within, bytes)], es[k].fd, ChangedContents(v, es[k], within, bytes))
  {
    var e, fd := es[k], es[k].fd;
    assert Fits(e, v);
    var c, w := Changed(e, within, bytes), ChangedContents(v, e, within, bytes);
    var t := es[k := c];
    ChangedStores(v, e, within, bytes);
    forall i | 0 <= i < |es| && i != k && es[i].fd == fd ensures Fits(es[i], w) {
      KeyedApart(es, i, k);
      FitsStill(es[i], v, e.offset, w);
    }
    forall x | 0 <= x < |w| && !Cached(t, fd, x) ensures ByteOnDisk(file, w, x) {
      CachedUpdate(es, k, c, fd, x);
      assert !Holds(t[k], fd, x);
    }
  }

  /** A change inside the block at offset leaves every other block as it was. */
  lemma FitsStill(c: Entry, v: File, offset: int, w: File)
    requires Fits(c, v) && offset % 4096 == 0 && 0 <= offset < |v| <= |w| && (|w| > |v| ==> |w| <= offset + 4096)
    requires forall x | 0 <= x < |v| && !(offset <= x < offset + 4096) :: w[x] == v[x]
    requires c.offset + 4096 <= offset || offset + 4096 <= c.offset
    ensures Fits(c, w)
  {
    assert w[c.offset..c.offset + c.valid] == v[c.offset..c.offset + c.valid];
  }

  lemma ChangedOther(file: File, es: seq<Entry>, k: nat, e: Entry, fd: int, v: File)
    requires k < |es| && Shows(file, es, fd, v) && es[k].fd != fd && e.fd == es[k].fd && e.offset == es[k].offset
    ensures Shows(file, es[k := e], fd, v)
  {
    var t := es[k := e];
    forall x { CachedUpdate(es, k, e, fd, x); }
  }

  /** What a program sees is the disk overlaid by the cache, in any order. */
  lemma {:induction false} OverlayAt(file: File, es: seq<Entry>, fd: int, v: File)
    requires |file| <= |v| && forall i | 0 <= i < |es| && es[i].fd == fd :: Fits(es[i], v) && es[i].offset < |file|
    ensures InOrder(es, fd, file) && |Overlay(file, es, fd)| <= |v|
    ensures forall x | 0 <= x < |v| && Cached(es, fd, x) :: ByteOnDisk(Overlay(file, es, fd), v, x)
    ensures forall x | 0 <= x < |Overlay(file, es, fd)| && !Cached(es, fd, x) ::
        x < |file| && Overlay(file, es, fd)[x] == file[x]
    decreases |es|
  {
    if es != [] {
      var n := |es| - 1;
      OverlayAt(file, es[..n], fd, v);
      assert es == es[..n] + [es[n]];
      forall x { CachedAdd(es[..n], es[n], fd, x); }
      if es[n].fd == fd { PutShows(Overlay(file, es[..n], fd), es[n], v); }
    }
  }

  lemma PutShows(w: File, e: Entry, v: File)
    requires Fits(e, v) && e.offset < |w| <= |v|
    ensures |w| <= |Put(w, e)| <= |v|
    ensures forall x | e.offset <= x < e.offset + 4096 && x < |v| :: ByteOnDisk(Put(w, e), v, x)
    ensures forall x | 0 <= x < |w| && !(e.offset <= x < e.offset + 4096) :: Put(w, e)[x] == w[x]
    ensures |Put(w, e)| <= Max(|w|, e.offset + 4096)
  {
    PutOnDisk(w, e);
    hide Put;
    forall x | e.offset <= x < e.offset + 4096 && x < |v|
        ensures ByteOnDisk(Put(w, e), v, x) { SameByte(Put(w, e), e, v, x); }
  }

  lemma ShowsOverlay(file: File, es: seq<Entry>, fd: int, v: File)
    requires Shows(file, es, fd, v)
    ensures InOrder(es, fd, file) && Overlay(file, es, fd) == v
  {
    OverlayAt(file, es, fd, v);
    var w := Overlay(file, es, fd);
    forall x | 0 <= x < |v| ensures ByteOnDisk(w, v, x) {
      if !Cached(es, fd, x) { assert ByteOnDisk(file, v, x); }
    }
    if |v| > 0 { SameSlice(w, v, 0, |v|); }
    assert w == w[0..|v|] && v == v[0..|v|];
  }

  // ----- all files at once -----

  type Disk = map<int, File>

  /** For every open file the cache and the disk show its contents. */
  ghost predicate Consistent(disk: Disk, es: seq<Entry>, contents: Disk) {
    && Keyed(es) && disk.Keys == contents.Keys
    && (forall i | 0 <= i < |es| :: es[i].fd in disk)
    && forall fd | fd in disk :: Shows(disk[fd], es, fd, contents[fd])
  }

  lemma ConsistentFiles(disk: Disk, es: seq<Entry>, contents: Disk)
    requires Consistent(disk, es, contents)
    ensures disk.Keys == contents.Keys
  {
  }

  /** Bytes of a cached block, within its valid part, are bytes of the contents. */
  lemma FitsSlice(disk: Disk, es: seq<Entry>, contents: Disk, k: nat, within: nat, n: nat)
    requires Consistent(disk, es, contents) && k < |es| && within + n <= es[k].valid
    ensures var e := es[k];
            e.fd in contents && |e.data| == 4096 && 0 <= e.offset && e.offset + within + n <= |contents[e.fd]|
            && e.data[within..within + n] == contents[e.fd][e.offset + within..e.offset + within + n]
  {
    var e := es[k];
    assert Fits(e, contents[e.fd]);
    var v := contents[e.fd];
    SliceInside(e.data, 0, e.valid, within, n);
    SliceInside(v, e.offset, e.offset + e.valid, within, n);
  }

  lemma SliceInside(s: seq<byte>, from: nat, to: nat, within: nat, n: nat)
    requires from <= to <= |s| && from + within + n <= to
    ensures s[from..to][within..within + n] == s[from + within..from + within + n]
  {
    var a, b := s[from..to][within..within + n], s[from + within..from + within + n];
    assert |a| == n == |b| && forall i | 0 <= i < n :: a[i] == s[from + within + i] == b[i];
  }

  /** How far a cached block reaches. */
  lemma FitsValid(disk: Disk, es: seq<Entry>, contents: Disk, k: nat)
    requires Consistent(disk, es, contents) && k < |es|
    ensures var e := es[k];
            e.fd in contents && |e.data| == 4096 && 0 <= e.offset < |contents[e.fd]| &&
                e.valid == Min(4096, |contents[e.fd]| - e.offset)
  {
    assert Fits(es[k], contents[es[k].fd]);
  }

  /** The blocks of other files, in order. */
  function Others(es: seq<Entry>, fd: int): (r: seq<Entry>)
    ensures forall i | 0 <= i < |r| :: r[i].fd != fd
  {
    if es == [] then [] else Others(es[..|es| - 1], fd) + if es[|es| - 1].fd == fd then [] else [es[|es| - 1]]
  }

  lemma OthersNone(es: seq<Entry>, fd: int)
    requires forall i | 0 <= i < |es| :: es[i].fd != fd
    ensures Others(es, fd) == es
  {
    if es != [] {
      OthersNone(es[..|es| - 1], fd);
      assert es == es[..|es| - 1] + [es[|es| - 1]];
    }
  }

  lemma {:induction false} OthersWithout(es: seq<Entry>, k: nat, fd: int)
    requires k < |es| && es[k].fd == fd
    ensures Others(Without(es, k), fd) == Others(es, fd)
    decreases |es|
  {
    var n := |es| - 1;
    if k < n {
      OthersWithout(es[..n], k, fd);
      assert Without(es, k)[..n - 1] == Without(es[..n], k);
      assert Without(es, k)[n - 1] == es[n];
    } else {
      assert Without(es, k) == es[..n];
    }
  }

  lemma WrittenBackDirty(disk: Disk, e: Entry)
    requires e.fd in disk && 0 <= e.offset <= |disk[e.fd]| && 0 <= e.valid <= |e.data| && e.dirty
    ensures WrittenBack(disk[e.fd], e) == Put(disk[e.fd], e)
  {
  }

  lemma NothingCachedYet(disk: Disk)
    ensures Consistent(disk, [], disk)
  {
    forall fd | fd in disk ensures Shows(disk[fd], [], fd, disk[fd]) {
      forall x | 0 <= x < |disk[fd]| ensures ByteOnDisk(disk[fd], disk[fd], x) {}
    }
  }

  lemma ConsistentLoad(disk: Disk, es: seq<Entry>, contents: Disk, fd: int, offset: int)
    requires Consistent(disk, es, contents) && fd in disk && offset % 4096 == 0 && offset >= 0
    requires forall i | 0 <= i < |es| :: es[i].fd != fd || es[i].offset != offset
    ensures fd in contents && (offset < |disk[fd]| <==> offset < |contents[fd]|)
    ensures forall e: Entry | e.fd == fd && e.offset == offset && Loaded(disk[fd], e) ::
        Consistent(disk, es + [e], contents)
  {
    LoadFits(disk[fd], es, fd, contents[fd], offset);
    hide Shows, Fits, OnDisk, Loaded;
    forall e: Entry | e.fd == fd && e.offset == offset && Loaded(disk[fd], e)
        ensures Consistent(disk, es + [e], contents) {
      LoadedStarts(disk[fd], e);
      forall g | g in disk
          ensures Shows(disk[g], es + [e], g, contents[g]) { AddShows(disk[g], es, e, g, contents[g]); }
    }
  }

  lemma LoadedAnyway(file: File, e: Entry, dirty: bool)
    requires Loaded(file, e)
    ensures Loaded(file, e.(dirty := dirty))
  {
  }

  lemma LoadedStarts(file: File, e: Entry)
    requires Loaded(file, e)
    ensures 0 <= e.offset < |file|
  {
  }

  /** A block is written back if it is dirty, and dropped; no contents change. */
  lemma ConsistentDrop(disk: Disk, es: seq<Entry>, k: nat, contents: Disk)
    requires Consistent(disk, es, contents) && k < |es|
    ensures var e := es[k];
            e.fd in disk && 0 <= e.offset < |disk[e.fd]| && 0 <= e.valid <= |e.data|
            && Consistent(disk[e.fd := WrittenBack(disk[e.fd], e)], Without(es, k), contents)
  {
    var e, fd := es[k], es[k].fd;
    WriteBackShows(disk[fd], es, k, contents[fd]);
    DropShows(WrittenBack(disk[fd], e), es, k, contents[fd]);
    KeyedWithout(es, k);
    hide Shows, WrittenBack;
    forall g | g in disk && g != fd
        ensures Shows(disk[g], Without(es, k), g, contents[g]) { DropOther(disk[g], es, k, g, contents[g]); }
  }

  /** A block is written back if it is dirty, and is clean then. */
  lemma ConsistentFlush(disk: Disk, es: seq<Entry>, k: nat, contents: Disk)
    requires Consistent(disk, es, contents) && k < |es|
    ensures var e := es[k];
            e.fd in disk && 0 <= e.offset < |disk[e.fd]| && 0 <= e.valid <= |e.data|
            && Consistent(disk[e.fd := WrittenBack(disk[e.fd], e)], es[k := e.(dirty := false)], contents)
  {
    var e, fd := es[k], es[k].fd;
    WriteBackShows(disk[fd], es, k, contents[fd]);
    hide Shows, WrittenBack;
    var d := disk[fd := WrittenBack(disk[fd], e)];
    forall g | g in disk
        ensures Shows(d[g], es[k := e.(dirty := false)], g, contents[g]) { CleanShows(d[g], es, k, g, contents[g]); }
  }

  /** A block may always be marked dirty. */
  lemma ConsistentDirty(disk: Disk, es: seq<Entry>, k: nat, contents: Disk)
    requires Consistent(disk, es, contents) && k < |es|
    ensures Consistent(disk, es[k := es[k].(dirty := true)], contents)
  {
    var e := es[k].(dirty := true);
    forall g | g in disk ensures Shows(disk[g], es[k := e], g, contents[g]) {
      forall x { CachedUpdate(es, k, e, g, x); }
    }
  }

  /** A block that changes is dirty; only the contents of its file change. */
  lemma ConsistentChange(disk: Disk, es: seq<Entry>, k: nat, contents: Disk, within: nat, bytes: seq<byte>)
    requires Consistent(disk, es, contents) && k < |es| && bytes != [] && within + |bytes| <= 4096
    ensures var e := es[k];
            e.fd in contents && Fits(e, contents[e.fd])
            && Stores(contents[e.fd], ChangedContents(contents[e.fd], e, within, bytes), e.offset + within, bytes)
            && Consistent(disk, es[k := Changed(e, within, bytes)],
                contents[e.fd := ChangedContents(contents[e.fd], e, within, bytes)])
  {
    var e, fd := es[k], es[k].fd;
    assert Fits(e, contents[fd]);
    var c, w := Changed(e, within, bytes), ChangedContents(contents[fd], e, within, bytes);
    ChangedStores(contents[fd], e, within, bytes);
    ChangedShows(disk[fd], es, k, contents[fd], within, bytes);
    hide Shows, ChangedContents, Stores;
    forall g | g in disk && g != fd
        ensures Shows(disk[g], es[k := c], g, contents[g]) { ChangedOther(disk[g], es, k, c, g, contents[g]); }
  }

  /** Once every block of fd is clean, the disk has its contents. */
  lemma ConsistentClean(disk: Disk, es: seq<Entry>, contents: Disk, fd: int)
    requires Consistent(disk, es, contents) && fd in disk && forall i | 0 <= i < |es| && es[i].fd == fd :: !es[i].dirty
    ensures fd in contents && disk[fd] == contents[fd]
  {
    AllClean(disk[fd], es, fd, contents[fd]);
  }
}
