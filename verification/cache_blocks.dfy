/**
  The write-back cache itself: blocks are objects whose buffers are changed in place, the
  victim of an eviction is any block, and a load may fail.
 */
module BlockCache {
  import opened Bytes
  import opened CacheModel
  import opened CacheCounts

  class CacheBlock {
    const fd: int
    const offset: int
    const data: array<byte>
    var validSize: nat
    var isDirty: bool

    /** A block as allocated: its buffer holds anything. */
    constructor (fd: int, offset: int)
      ensures this.fd == fd && this.offset == offset && data.Length == 4096 && fresh(data)
    {
      this.fd, this.offset := fd, offset;
      data := new byte[4096];
    }

    ghost function Value(): Entry
      reads this, data
    {
      Entry(fd, offset, data[..], validSize, isDirty)
    }

    /** memcpy into the buffer, which may be valid further now. */
    method CopyIn(within: nat, bytes: seq<byte>)
      requires within + |bytes| <= data.Length && isDirty
      modifies this`validSize, data
      ensures Value() == Changed(old(Value()), within, bytes)
    {
      ghost var before := data[..];
      forall i | 0 <= i < |bytes| { data[within + i] := bytes[i]; }
      assert data[..] == before[..within] + bytes + before[within + |bytes|..];
      validSize := Max(within + |bytes|, validSize);
    }
  }

  class Cache {
    var blocks: seq<CacheBlock>
    var size: nat
    var disk: Disk
    ghost var entries: seq<Entry>
    ghost var contents: Disk

    ghost function Repr(): set<object>
      reads this
    {
      {this} + (set b: CacheBlock | b in blocks :: b) + (set b: CacheBlock | b in blocks :: b.data)
    }

    /** Each block is an object of its own with a buffer of its own. */
    ghost predicate Backed()
      reads Repr()
    {
      && |entries| == |blocks|
      && (forall i | 0 <= i < |blocks| :: blocks[i].Value() == entries[i] && blocks[i].data.Length == 4096)
      && (forall i, j | 0 <= i < j < |blocks| :: blocks[i] != blocks[j] && blocks[i].data != blocks[j].data)
    }

    ghost predicate Valid()
      reads Repr()
    {
      Backed() && size == |blocks| <= CACHE_CAPACITY && Consistent(disk, entries, contents)
    }

    static ghost predicate HasBlock(bs: seq<CacheBlock>, fd: int, offset: int) {
      exists i :: 0 <= i < |bs| && bs[i].fd == fd && bs[i].offset == offset
    }

    /** Every byte of fd in this range has its block in the cache. */
    static ghost predicate HasRange(bs: seq<CacheBlock>, fd: int, pos: int, count: nat) {
      forall x | pos <= x < pos + count :: HasBlock(bs, fd, BlockStart(x))
    }

    /** The bytes are those of the buffer of the block that holds this position, wherever the
        file ends. */
    static ghost predicate FromBlock(b: CacheBlock, fd: int, offset: nat, bytes: seq<byte>)
      reads b.data
    {
      && b.fd == fd && b.offset == BlockStart(offset) && offset % 4096 + |bytes| <= b.data.Length
      && bytes == b.data[offset % 4096..offset % 4096 + |bytes|]
    }

    /** There are no fewer blocks than before; while there is room all of them are still
        there, and the disk is as it was. */
    static ghost predicate Grown(bs: seq<CacheBlock>, disk: Disk, bs': seq<CacheBlock>, disk': Disk) {
      |bs| <= |bs'| && (|bs'| < CACHE_CAPACITY ==> bs <= bs' && disk' == disk)
    }

    /** A dirty block has been erased that could not be written back. */
    ghost predicate BlockLost()
      reads this
    {
      exists e: Entry :: DirtyErased(disk, entries, [e], contents)
    }

    constructor (disk: Disk)
      ensures Valid() && fresh(Repr()) && this.disk == disk && contents == disk && entries == []
    {
      blocks, size, this.disk, entries, contents := [], 0, disk, [], disk;
      new;
      NothingCachedYet(disk);
    }

    /** What a program sees of a file is the disk overlaid by the cache. */
    lemma ContentsAreOverlay(fd: int)
      requires Valid() && fd in disk
      ensures InOrder(entries, fd, disk[fd]) && fd in contents && contents[fd] == Overlay(disk[fd], entries, fd)
    {
      ShowsOverlay(disk[fd], entries, fd, contents[fd]);
    }

    /** find_block */
    method FindBlock(fd: int, offset: int) returns (block: CacheBlock?, ghost k: nat)
      requires Valid()
      ensures block == null ==> forall i | 0 <= i < |entries| :: entries[i].fd != fd || entries[i].offset != offset
      ensures block != null <==> HasBlock(blocks, fd, offset)
      ensures block != null ==> k < |blocks| && blocks[k] == block && block.fd == fd && block.offset == offset
    {
      hide Consistent;
      k := 0;
      for i := 0 to |blocks|
        invariant forall j | 0 <= j < i :: entries[j].fd != fd || entries[j].offset != offset
      {
        assert blocks[i].Value() == entries[i];
        if blocks[i].fd == fd && blocks[i].offset == offset {
          return blocks[i], i;
        }
      }
      block := null;
    }

    /** delete_block: writes a dirty block back, which may fail. */
    method DeleteBlock(block: CacheBlock, writable: bool) returns (r: int)
      requires block.fd in disk && 0 <= block.offset <= |disk[block.fd]| && block.validSize <= block.data.Length &&
          size > 0
      modifies this`disk, this`size
      ensures r == if block.isDirty && !writable then -1 else 0
      ensures r == -1 ==> disk == old(disk) && size == old(size)
      ensures r == 0 ==>
          disk == old(disk)[block.fd := WrittenBack(old(disk)[block.fd], block.Value())] && size == old(size) - 1
    {
      if block.isDirty {
        if !writable {
          return -1;
        }
        PWrite(block);
      }
      size := size - 1;
      r := 0;
    }

    /** pwrite of a whole block. */
    method PWrite(block: CacheBlock)
      requires block.fd in disk && 0 <= block.offset <= |disk[block.fd]| && block.validSize <= block.data.Length
      modifies this`disk
      ensures disk == old(disk)[block.fd := Put(old(disk)[block.fd], block.Value())]
    {
      var file, o, n := disk[block.fd], block.offset, block.validSize;
      assert block.Value().data[..n] == block.data[..n];
      disk := disk[block.fd := file[..o] + block.data[..n] + file[Min(|file|, o + n)..]];
    }

    /** Deletes the block at index and erases it from the vector. */
    method RemoveBlock(index: nat, writable: bool, ghost extra: seq<Entry>) returns (r: int)
      requires Backed() && size == |blocks| && index < |blocks| && Consistent(disk, entries + extra, contents)
      modifies this`blocks, this`size, this`disk, this`entries
      ensures Backed() && size == |blocks| && r == if old(entries)[index].dirty && !writable then -1 else 0
      ensures r == -1 ==> blocks == old(blocks) && entries == old(entries) && disk == old(disk)
      ensures r == 0 ==>
          blocks == old(blocks)[..index] + old(blocks)[index + 1..] && entries == Without(old(entries), index)
      ensures r == 0 ==> Consistent(disk, Without(old(entries + extra), index), contents)
      ensures r == 0 ==> FlushedTo(old(disk), old(entries)[index], disk)
    {
      hide Consistent, Put, WrittenBack, FlushedTo;
      var block := blocks[index];
      ghost var es := entries + extra;
      assert block.Value() == entries[index] == es[index];
      ConsistentDrop(disk, es, index, contents);
      WrittenBackFlushes(disk, entries[index]);
      r := DeleteBlock(block, writable);
      if r == -1 {
        return;
      }
      blocks, entries := blocks[..index] + blocks[index + 1..], Without(entries, index);
    }

    /** evict_if_needed: drops blocks, any of them, until one more fits.  The loaded block
        extra is not in the vector yet.  A dirty block that cannot be written back is erased
        all the same, without being counted out: lost says that this has happened. */
    method EvictIfNeeded(writable: bool, ghost extra: Entry) returns (lost: bool)
      requires Backed() && size == |blocks| <= CACHE_CAPACITY && Consistent(disk, entries + [extra], contents)
      modifies this`blocks, this`size, this`disk, this`entries
      ensures Backed() && (forall b | b in blocks :: b in old(blocks)) && (writable ==> !lost)
      ensures !lost ==> size == |blocks| < CACHE_CAPACITY && Consistent(disk, entries + [extra], contents)
      ensures !lost ==> RoomMade(old(disk), old(entries), disk, entries)
      ensures |old(blocks)| < CACHE_CAPACITY ==>
          !lost && blocks == old(blocks) && entries == old(entries) && disk == old(disk)
      ensures |old(blocks)| == CACHE_CAPACITY ==> |blocks| == CACHE_CAPACITY - 1
      ensures lost ==> size == |blocks| + 1 && disk == old(disk) && DirtyErased(disk, entries, [extra], contents)
    {
      hide Consistent, DirtyErased, FlushedTo;
      lost := false;
      while size >= CACHE_CAPACITY
        invariant Backed() && size == |blocks| <= CACHE_CAPACITY && Consistent(disk, entries + [extra], contents)
        invariant forall b | b in blocks :: b in old(blocks)
        invariant if size == old(size) then blocks == old(blocks) && disk == old(disk) && entries == old(entries)
            else size == |old(blocks)| - 1 == CACHE_CAPACITY - 1 && RoomMade(old(disk), old(entries), disk, entries)
        decreases size
      {
        var index: nat :| index < |blocks|;
        assert Without(entries, index) + [extra] == Without(entries + [extra], index);
        var r := RemoveBlock(index, writable, [extra]);
        if r == -1 {
          assert blocks[index].Value() == entries[index];
          DirtyErasedBy(disk, entries, index, [extra], contents);
          blocks, entries := blocks[..index] + blocks[index + 1..], Without(entries, index);
          return true;
        }
      }
    }

    /** load_block: allocates a block and fills it from disk; either may fail. */
    method LoadBlock(fd: int, offset: int, reliable: bool) returns (n: int, block: CacheBlock?)
      requires fd in disk && offset >= 0
      ensures n >= -1 && (reliable ==> n >= 0) && (n > 0 <==> block != null)
      ensures n >= 0 ==> (n == 0 <==> |disk[fd]| <= offset)
      ensures block != null ==>
          fresh(block) && fresh(block.data) && Loaded(disk[fd], block.Value()) && block.Value().fd == fd &&
          block.Value().offset == offset && !block.isDirty
    {
      block := null;
      var works: bool := *;
      if !reliable && !works {
        return -1, null;
      }
      var file := disk[fd];
      n := Max(0, Min(4096, |file| - offset));
      if n == 0 {
        return;
      }
      block := new CacheBlock(fd, offset);
      forall i | 0 <= i < n { block.data[i] := file[offset + i]; }
      block.validSize, block.isDirty := n, false;
      assert block.data[..][..n] == file[offset..offset + n];
    }

    /** add_block */
    method AddBlock(block: CacheBlock, writable: bool) returns (lost: bool)
      requires Valid() && Consistent(disk, entries + [block.Value()], contents)
      requires block !in Repr() && block.data !in Repr() && block.data.Length == 4096
      modifies this`blocks, this`size, this`disk, this`entries
      ensures writable ==> !lost
      ensures lost ==> DirtyErased(disk, entries, [block.Value()], contents)
      ensures !lost ==>
        Valid() && Repr() <= old(Repr()) + {block, block.data} && blocks != [] && blocks[|blocks| - 1] == block
      ensures |old(blocks)| < CACHE_CAPACITY ==> !lost && blocks == old(blocks) + [block] && disk == old(disk)
      ensures !lost ==>
        && |blocks| == Min(|old(blocks)| + 1, CACHE_CAPACITY) && |entries| > 0
        && RoomMade(old(disk), old(entries), disk, entries[..|entries| - 1])
        && entries[|entries| - 1] == block.Value()
    {
      hide Consistent, DirtyErased, RoomMade;
      ghost var e := block.Value();
      lost := EvictIfNeeded(writable, e);
      if lost {
        return;
      }
      blocks, entries := blocks + [block], entries + [e];
      size := size + 1;
    }

    /** Loads a block that is not cached and adds it. */
    method LoadAndAdd(fd: int, offset: int, write: bool, reliable: bool, writable: bool)
          returns (status: int, block: CacheBlock?, lost: bool)
      requires Valid() && fd in disk && offset >= 0 && offset % 4096 == 0
      requires forall i | 0 <= i < |entries| :: entries[i].fd != fd || entries[i].offset != offset
      modifies Repr()
      ensures (writable ==> !lost) && contents == old(contents) && (lost ==> BlockLost())
      ensures !lost ==> Valid() && fresh(Repr() - old(Repr()))
      ensures status >= -1 && (reliable ==> status >= 0) && (status > 0 <==> block != null)
      ensures status >= 0 ==> fd in contents && (status == 0 <==> |contents[fd]| <= offset)
      ensures block != null && !lost ==>
          blocks != [] && blocks[|blocks| - 1] == block && block.fd == fd && block.offset == offset &&
          block.isDirty == write
      ensures status <= 0 ==> !lost && blocks == old(blocks) && entries == old(entries) && disk == old(disk)
      ensures status > 0 && !lost ==> Admitted(old(disk), old(entries), disk, entries, fd, offset, write)
      ensures |old(blocks)| < CACHE_CAPACITY ==> !lost && old(blocks) <= blocks && disk == old(disk)
      ensures !lost ==>
        && Grown(old(blocks), old(disk), blocks, disk) && OthersKept(old(entries), entries, fd)
        && (!write ==> NoneDirtied(old(entries), entries))
    {
      hide Consistent, Loaded, DirtyErased, RoomMade, NoneDirtied, OthersKept, Admitted, Grown;
      KeptAll(entries, fd);
      GrownSelf(blocks, disk);
      lost := false;
      ConsistentLoad(disk, entries, contents, fd, offset);
      status, block := LoadBlock(fd, offset, reliable);
      if status <= 0 {
        return;
      }
      ghost var e := block.Value().(dirty := write);
      LoadedAnyway(disk[fd], block.Value(), write);
      assert Consistent(disk, entries + [e], contents);
      block.isDirty := write;
      lost := AddBlock(block, writable);
      if !lost {
        AdmittedAs(old(disk), old(entries), disk, entries, e);
        AdmittedFrom(old(disk), old(entries), disk, entries, fd, offset, write);
        GrownBy(old(blocks), old(disk), blocks, disk);
      }
    }

    lemma BlockAt(k: nat)
      requires Valid() && k < |blocks|
      ensures blocks[k] in Repr() && blocks[k].data in Repr() && blocks[k].data.Length == 4096
      ensures blocks[k].fd in contents && blocks[k].fd in disk &&
          blocks[k].validSize == Min(4096, |contents[blocks[k].fd]| - blocks[k].offset)
    {
      hide Consistent;
      assert blocks[k].Value() == entries[k];
      FitsValid(disk, entries, contents, k);
      ConsistentFiles(disk, entries, contents);
    }

    method MarkDirty(block: CacheBlock, ghost k: nat)
      requires Valid() && k < |blocks| && blocks[k] == block
      modifies block`isDirty, this`entries
      ensures Valid() && Repr() == old(Repr()) && block.isDirty
      ensures k < |old(entries)| && entries == old(entries)[k := old(entries)[k].(dirty := true)]
      ensures OthersKept(old(entries), entries, block.fd)
    {
      hide Consistent;
      assert block.Value() == entries[k];
      ConsistentDirty(disk, entries, k, contents);
      UpdateKeeps(entries, k, entries[k].(dirty := true));
      block.isDirty := true;
      entries := entries[k := entries[k].(dirty := true)];
    }

    /** The block of fd at offset, loaded if it is not cached; status as load_block's. */
    method Fetch(fd: int, offset: int, write: bool, reliable: bool, writable: bool)
          returns (status: int, block: CacheBlock?, lost: bool, ghost k: nat)
      requires Valid() && fd in disk && offset >= 0 && offset % 4096 == 0
      modifies Repr()
      ensures (writable ==> !lost) && contents == old(contents) && fd in contents && (lost ==> BlockLost())
      ensures !lost ==> Valid() && fresh(Repr() - old(Repr())) && fd in disk
      ensures status >= -1 && (reliable ==> status >= 0) && (status > 0 <==> block != null)
      ensures status >= 0 ==> (status == 0 <==> |contents[fd]| <= offset)
      ensures block != null && !lost ==>
          k < |blocks| && blocks[k] == block && block in Repr() && block.data in Repr() && (write ==> block.isDirty)
      ensures block != null && !lost ==>
          block.fd == fd && block.offset == offset && block.data.Length == 4096 &&
          block.validSize == Min(4096, |contents[fd]| - offset)
      ensures HasBlock(old(blocks), fd, offset) ==>
        && !lost && status == 1 && blocks == old(blocks) && disk == old(disk) && k < |entries| == |old(entries)|
        && entries == if write then old(entries)[k := old(entries)[k].(dirty := true)] else old(entries)
      ensures !HasBlock(old(blocks), fd, offset) ==>
        if status <= 0 then !lost && blocks == old(blocks) && entries == old(entries) && disk == old(disk)
        else !lost ==> Admitted(old(disk), old(entries), disk, entries, fd, offset, write)
      ensures |old(blocks)| < CACHE_CAPACITY ==> !lost && old(blocks) <= blocks && disk == old(disk)
      ensures !lost ==>
        && Grown(old(blocks), old(disk), blocks, disk) && OthersKept(old(entries), entries, fd)
        && (!write ==> NoneDirtied(old(entries), entries))
    {
      hide Valid, BlockLost, Admitted, OthersKept, NoneDirtied;
      lost := false;
      FilesOpen(fd);
      status := 1;
      block, k := FindBlock(fd, offset);
      if block == null {
        status, block, lost := LoadAndAdd(fd, offset, write, reliable, writable);
        if lost {
          k := 0;
          return;
        }
        k := |blocks| - if status > 0 then 1 else 0;
        FilesStillOpen(fd);
      } else {
        BlockInside(k);
        KeptAll(entries, fd);
        if write {
          MarkDirty(block, k);
        }
      }
      if block != null { BlockAt(k); }
    }

    lemma FilesStillOpen(fd: int)
      requires Valid() && fd in contents
      ensures fd in disk
    {
    }

    lemma BlockInside(k: nat)
      requires Valid() && k < |blocks|
      ensures |entries| == |blocks| && blocks[k] in Repr() && this in Repr()
      ensures 0 <= blocks[k].offset < |contents[blocks[k].fd]|
    {
    }

    /** Bytes of a cached block are bytes of the contents. */
    lemma SliceOf(block: CacheBlock, k: nat, within: nat, n: nat)
      requires Valid() && k < |blocks| && blocks[k] == block && within + n <= block.validSize &&
          block.data.Length == 4096
      ensures block.fd in contents && block.validSize <= 4096 && 0 <= block.offset &&
          block.offset + within + n <= |contents[block.fd]|
      ensures block.data[within..within + n] == contents[block.fd][block.offset + within..block.offset + within + n]
    {
      hide Consistent;
      assert block.Value() == entries[k];
      FitsValid(disk, entries, contents, k);
      FitsSlice(disk, entries, contents, k, within, n);
      assert entries[k].data[within..within + n] == block.data[within..within + n];
    }

    /** memcpy into the caller's buffer. */
    method CopyOut(block: CacheBlock, within: nat, n: nat, buf: array<byte>, at: nat)
      requires within + n <= block.data.Length && at + n <= buf.Length && buf != block.data
      modifies buf
      ensures buf[..] == Patched(old(buf[..]), at, block.data[within..within + n])
    {
      forall i | 0 <= i < n { buf[at + i] := block.data[within + i]; }
    }

    /** One round of the read loop: the block at offset is copied as far as it goes. */
    method ReadRound(fd: int, buf: array<byte>, at: nat, left: nat, offset: nat, reliable: bool,
          writable: bool) returns (ok: bool, n: nat, more: bool, lost: bool, ghost chunk: seq<byte>)
      requires Valid() && fd in disk && left > 0 && at + left <= buf.Length && buf !in Repr()
      modifies Repr(), buf
      ensures (writable ==> !lost) && contents == old(contents) && fd in contents && (lost ==> BlockLost() && n == 0)
      ensures !lost ==> Valid() && fresh(Repr() - old(Repr())) && fd in disk
      ensures (reliable ==> ok) && |chunk| == n <= left && buf[..] == Patched(old(buf[..]), at, chunk)
      ensures !lost && ok && more ==>
          n > 0 && ReadCount(offset, left, |contents[fd]|) == n + ReadCount(offset + n, left - n, |contents[fd]|)
      ensures !lost && ok && !more ==> ReadCount(offset, left, |contents[fd]|) == n
      ensures offset <= |contents[fd]| ==>
          offset + n <= |contents[fd]| && chunk == contents[fd][offset..offset + n]
      ensures n > 0 ==> exists b :: b in blocks && FromBlock(b, fd, offset, chunk)
      ensures HasBlock(old(blocks), fd, BlockStart(offset)) ==>
          !lost && blocks == old(blocks) && entries == old(entries) && disk == old(disk)
      ensures !lost ==> Grown(old(blocks), old(disk), blocks, disk) && NoneDirtied(old(entries), entries)
    {
      hide Valid, BlockLost, ReadCount, BlockStart, Unsigned, NoneDirtied, OthersKept, Admitted, HasBlock, Grown,
          FromBlock, Patched;
      ok, n, more, chunk := true, 0, false, [];
      PatchedNone(buf[..], at);
      var blockOffset, within := BlockStart(offset), offset % 4096;
      BlockStartIs(offset);
      var toCopy := Min(4096 - within, left);
      var status, block;
      ghost var k;
      status, block, lost, k := Fetch(fd, blockOffset, false, reliable, writable);
      if lost {
        return;
      }
      if status == -1 {
        ok := false;
        return;
      }
      ReadStep(offset, left, |contents[fd]|, if status == 0 then 0 else block.validSize);
      if status == 0 {
        return;
      }
      n := Min(toCopy, Unsigned(block.validSize - within));
      if n == 0 {
        return;
      }
      if offset <= |contents[fd]| { SliceOf(block, k, within, n); }
      chunk := block.data[within..within + n];
      CopyOut(block, within, n, buf, at);
      BytesFrom(block, fd, offset, chunk);
      more := n == toCopy;
    }

    /**
      lab2_read at the file position pos, which is -1 for a bad descriptor.  Up to the end
      of the file it returns exactly the contents, whatever is evicted on the way, unless a
      dirty block is lost there.
     */
    method Read(fd: int, buf: array<byte>, count: nat, pos: int, reliable: bool, writable: bool)
          returns (r: int, lost: bool)
      requires Valid() && pos >= -1 && (pos >= 0 ==> fd in disk) && count <= buf.Length && buf !in Repr()
      modifies Repr(), buf
      ensures (writable ==> !lost) && contents == old(contents) && (lost ==> BlockLost())
      ensures !lost ==> Valid() && fresh(Repr() - old(Repr()))
      ensures r >= -1 && (pos == -1 ==> r == -1) && (pos >= 0 && reliable ==> r >= 0)
      ensures r >= 0 && !lost ==>
          fd in contents && r == ReadCount(pos, count, |contents[fd]|) <= count && buf[r..] == old(buf[r..])
      ensures r >= 0 ==> fd in contents
      ensures r >= 0 && pos <= |contents[fd]| ==>
        r <= count && pos + r <= |contents[fd]| && buf[..r] == contents[fd][pos..pos + r]
      ensures !lost ==> Grown(old(blocks), old(disk), blocks, disk) && NoneDirtied(old(entries), entries)
      ensures pos >= 0 && HasRange(old(blocks), fd, pos, count) ==>
          !lost && blocks == old(blocks) && entries == old(entries) && disk == old(disk)
    {
      hide Consistent, Valid, BlockLost, ReadCount, HasBlock, HasRange, BlockStart, NoneDirtied, FromBlock, Grown,
          Patched;
      PatchedNone(buf[..], 0);
      KeptAll(entries, fd);
      GrownSelf(blocks, disk);
      lost := false;
      if pos == -1 {
        return -1, false;
      }
      FilesOpen(fd);
      ghost var v := contents[fd];
      var offset, left, more := pos, count, true;
      r := 0;
      ghost var bytes: seq<byte> := [];
      PatchedAt(buf[..], []);
      ReadNothing(pos, |v|);
      while left > 0 && more
        invariant !lost && Valid() && fresh(Repr() - old(Repr())) && contents == old(contents) && buf !in Repr() &&
            fd in disk && fd in contents
        invariant 0 <= r && 0 <= left && r + left == count && offset == pos + r
        invariant ReadCount(pos, count, |v|) == r + if more then ReadCount(offset, left, |v|) else 0
        invariant |bytes| == r && buf[..] == Patched(old(buf[..]), 0, bytes)
        invariant buf[..r] == bytes && buf[r..] == old(buf[r..])
        invariant pos <= |v| ==> offset <= |v| && bytes == v[pos..offset]
        invariant Grown(old(blocks), old(disk), blocks, disk) && NoneDirtied(old(entries), entries)
        invariant HasRange(old(blocks), fd, pos, count) ==>
            blocks == old(blocks) && entries == old(entries) && disk == old(disk)
        decreases left, more
      {
        ghost var es, bs, d := entries, blocks, disk;
        RangeHas(old(blocks), fd, pos, count, offset);
        var ok, n;
        ghost var chunk;
        ok, n, more, lost, chunk := ReadRound(fd, buf, r, left, offset, reliable, writable);
        PatchedTwice(old(buf[..]), bytes, chunk);
        bytes := bytes + chunk;
        PatchedAt(old(buf[..]), bytes);
        if lost {
          return;
        }
        NoneDirtiedTwice(old(entries), es, entries);
        GrownTwice(old(blocks), old(disk), bs, d, blocks, disk);
        if !ok {
          return -1, false;
        }
        r, left, offset := r + n, left - n, offset + n;
      }
      ReadNothing(offset, |v|);
    }

    lemma BytesFrom(b: CacheBlock, fd: int, offset: nat, bytes: seq<byte>)
      requires b.fd == fd && b.offset == BlockStart(offset) && offset % 4096 + |bytes| <= b.data.Length
      requires bytes == b.data[offset % 4096..offset % 4096 + |bytes|]
      ensures FromBlock(b, fd, offset, bytes)
    {
    }

    lemma GrownSelf(bs: seq<CacheBlock>, d: Disk)
      ensures Grown(bs, d, bs, d)
    {
    }

    lemma GrownBy(bs: seq<CacheBlock>, d: Disk, bs': seq<CacheBlock>, d': Disk)
      requires |bs'| == Min(|bs| + 1, CACHE_CAPACITY) >= |bs| && (|bs| < CACHE_CAPACITY ==> bs <= bs' && d' == d)
      ensures Grown(bs, d, bs', d')
    {
    }

    lemma GrownTwice(bs: seq<CacheBlock>, d: Disk, bs': seq<CacheBlock>, d': Disk, bs'': seq<CacheBlock>, d'': Disk)
      requires Grown(bs, d, bs', d') && Grown(bs', d', bs'', d'')
      ensures Grown(bs, d, bs'', d'')
    {
    }

    lemma RangeHas(bs: seq<CacheBlock>, fd: int, pos: int, count: nat, x: int)
      requires pos <= x < pos + count
      ensures HasRange(bs, fd, pos, count) ==> HasBlock(bs, fd, BlockStart(x))
    {
    }

    lemma FilesOpen(fd: int)
      requires Valid() && fd in disk
      ensures fd in contents
    {
    }

    /** A change of a block that has been made in its buffer. */
    method StoreInto(block: CacheBlock, ghost k: nat, within: nat, bytes: seq<byte>)
      requires Valid() && k < |blocks| && blocks[k] == block && block.isDirty && bytes != [] && within + |bytes| <= 4096
      modifies block`validSize, block.data, this`entries, this`contents
      ensures Valid() && Repr() == old(Repr())
      ensures block.fd in old(contents) && contents.Keys == old(contents).Keys
      ensures forall g | g in contents && g != block.fd :: contents[g] == old(contents)[g]
      ensures block.offset >= 0 && Stores(old(contents)[block.fd], contents[block.fd], block.offset + within, bytes)
      ensures OthersKept(old(entries), entries, block.fd)
    {
      hide Consistent, Stores, ChangedContents, Changed, Fits;
      assert block.Value() == entries[k];
      ConsistentFiles(disk, entries, contents);
      ConsistentChange(disk, entries, k, contents, within, bytes);
      FitsValid(disk, entries, contents, k);
      ghost var e, fd := entries[k], block.fd;
      block.CopyIn(within, bytes);
      contents := contents[fd := ChangedContents(contents[fd], e, within, bytes)];
      entries := entries[k := Changed(e, within, bytes)];
    }

    /** One round of the write loop: as much as goes into the block at offset. */
    method WriteRound(fd: int, bytes: seq<byte>, offset: nat, reliable: bool, writable: bool)
          returns (ok: bool, n: nat, lost: bool)
      requires Valid() && fd in disk && bytes != []
      modifies Repr()
      ensures (writable ==> !lost) && fd in contents && fd in old(contents) && (lost ==> BlockLost() && n == 0)
      ensures !lost ==> Valid() && fresh(Repr() - old(Repr())) && fd in disk
      ensures contents.Keys == old(contents).Keys && forall g | g in contents && g != fd ::
          contents[g] == old(contents)[g]
      ensures (reliable ==> ok) && n <= |bytes| && Stores(old(contents)[fd], contents[fd], offset, bytes[..n])
      ensures !lost && ok && n > 0 ==>
        && RoundUp(|contents[fd]|) == RoundUp(|old(contents)[fd]|)
        && WriteCount(offset, |bytes|, |old(contents)[fd]|) == n + WriteCount(offset + n, |bytes| - n, |contents[fd]|)
      ensures !lost && ok && n == 0 ==> WriteCount(offset, |bytes|, |old(contents)[fd]|) == 0
      ensures HasBlock(old(blocks), fd, BlockStart(offset)) ==> !lost && blocks == old(blocks) && disk == old(disk)
      ensures !lost ==> Grown(old(blocks), old(disk), blocks, disk) && OthersKept(old(entries), entries, fd)
    {
      hide Valid, BlockLost, Stores, WriteCount, RoundUp, BlockStart, NoneDirtied, Admitted, HasBlock;
      var blockOffset, within := BlockStart(offset), offset % 4096;
      BlockStartIs(offset);
      FilesOpen(fd);
      WriteStep(offset, |bytes|, |contents[fd]|);
      StoresNothing(contents[fd], offset);
      assert bytes[..0] == [];
      var status, block;
      ghost var k;
      status, block, lost, k := Fetch(fd, blockOffset, true, reliable, writable);
      ok, n := status != -1, 0;
      if status <= 0 || lost {
        return;
      }
      n := Min(4096 - within, |bytes|);
      StoresLength(contents[fd], offset, bytes[..n]);
      StoreInto(block, k, within, bytes[..n]);
    }

    /**
      lab2_write at the file position pos, which is -1 for a bad descriptor.  It stores
      exactly the bytes that fit the last block of the file, at pos, and nothing else; when
      it fails, or a dirty block is lost on the way, it has stored some of them.  Other files
      keep their contents even when their blocks are evicted, unless one is lost.
     */
    method Write(fd: int, bytes: seq<byte>, pos: int, reliable: bool, writable: bool) returns (r: int, lost: bool)
      requires Valid() && pos >= -1 && (pos >= 0 ==> fd in disk)
      modifies Repr()
      ensures (writable ==> !lost) && (lost ==> BlockLost() && pos >= 0) && contents.Keys == old(contents).Keys
      ensures !lost ==> Valid() && fresh(Repr() - old(Repr()))
      ensures forall g | g in contents && g != fd :: contents[g] == old(contents)[g]
      ensures r >= -1 && (pos == -1 ==> r == -1 && contents == old(contents)) && (pos >= 0 && reliable ==> r >= 0)
      ensures r >= 0 && !lost ==>
        && fd in contents && r == WriteCount(pos, |bytes|, |old(contents)[fd]|) <= |bytes|
        && Stores(old(contents)[fd], contents[fd], pos, bytes[..r]) &&
            RoundUp(|contents[fd]|) == RoundUp(|old(contents)[fd]|)
      ensures (r == -1 && pos >= 0) || lost ==>
          fd in contents && exists k: nat :: k <= |bytes| && Stores(old(contents)[fd], contents[fd], pos, bytes[..k])
      ensures !lost ==> Grown(old(blocks), old(disk), blocks, disk) && OthersKept(old(entries), entries, fd)
      ensures pos >= 0 && HasRange(old(blocks), fd, pos, |bytes|) ==>
          !lost && blocks == old(blocks) && disk == old(disk)
    {
      hide Consistent, Valid, BlockLost, WriteCount, Stores, RoundUp, HasBlock, HasRange, BlockStart, OthersKept,
          Grown;
      GrownSelf(blocks, disk);
      KeptAll(entries, fd);
      lost := false;
      if pos == -1 {
        return -1, false;
      }
      FilesOpen(fd);
      ghost var v := contents[fd];
      r := 0;
      var offset, left, more := pos, bytes, true;
      assert bytes[..0] == [] && bytes[0..] == bytes;
      StoresNothing(v, pos);
      while left != [] && more
        invariant !lost && Valid() && fresh(Repr() - old(Repr())) && fd in disk && fd in contents && fd in old(contents)
        invariant contents.Keys == old(contents).Keys && forall g | g in contents && g != fd ::
            contents[g] == old(contents)[g]
        invariant 0 <= r <= |bytes| && left == bytes[r..] && offset == pos + r
        invariant Stores(v, contents[fd], pos, bytes[..r]) && RoundUp(|contents[fd]|) == RoundUp(|v|)
        invariant Grown(old(blocks), old(disk), blocks, disk) && OthersKept(old(entries), entries, fd)
        invariant HasRange(old(blocks), fd, pos, |bytes|) ==> blocks == old(blocks) && disk == old(disk)
        invariant WriteCount(pos, |bytes|, |v|) == r + if more then WriteCount(offset, |left|, |contents[fd]|) else 0
        decreases |left|, more
      {
        ghost var w, es, bs, d := contents[fd], entries, blocks, disk;
        RangeHas(old(blocks), fd, pos, |bytes|, offset);
        var ok, n;
        ok, n, lost := WriteRound(fd, left, offset, reliable, writable);
        assert bytes[..r + n] == bytes[..r] + left[..n];
        StoresTwice(v, w, contents[fd], pos, bytes[..r], left[..n]);
        if !lost {
          KeptTwice(old(entries), es, entries, fd);
          GrownTwice(old(blocks), old(disk), bs, d, blocks, disk);
        }
        if lost {
          return;
        }
        if !ok {
          return -1, false;
        }
        StoresNone(w, contents[fd], offset, left[..n]);
        more := n > 0;
        r, left, offset := r + n, left[n..], offset + n;
      }
      ReadNothing(offset, |contents[fd]|);
    }

    /** Writes a dirty block back; it is clean then. */
    method FlushBlock(block: CacheBlock, ghost k: nat)
      requires Valid() && k < |blocks| && blocks[k] == block && block.isDirty
      modifies this`disk, this`entries, block`isDirty
      ensures Valid() && Repr() == old(Repr()) && !block.isDirty && disk.Keys == old(disk).Keys
      ensures forall g | g in disk && g != block.fd :: disk[g] == old(disk)[g]
      ensures k < |old(entries)| && entries == old(entries)[k := old(entries)[k].(dirty := false)]
      ensures FlushedTo(old(disk), old(entries)[k], disk)
    {
      hide Consistent, Put, WrittenBack, FlushedTo;
      assert block.Value() == entries[k];
      ConsistentFlush(disk, entries, k, contents);
      WrittenBackDirty(disk, entries[k]);
      WrittenBackFlushes(disk, entries[k]);
      PWrite(block);
      block.isDirty := false;
      entries := entries[k := entries[k].(dirty := false)];
    }

    lemma EntryCount()
      requires Valid()
      ensures |entries| == |blocks|
    {
    }

    lemma AllFlushed(fd: int)
      requires Valid() && forall j | 0 <= j < |blocks| :: blocks[j].fd != fd || !blocks[j].isDirty
      ensures fd in disk ==> fd in contents && disk[fd] == contents[fd]
    {
      forall j | 0 <= j < |entries| && entries[j].fd == fd
          ensures !entries[j].dirty { assert blocks[j].Value() == entries[j]; }
      if fd in disk { ConsistentClean(disk, entries, contents, fd); }
    }

    /** lab2_fsync: afterwards the disk has the contents of the file. */
    method Fsync(fd: int, writable: bool, synced: int) returns (r: int)
      requires Valid()
      modifies Repr()
      ensures Valid() && Repr() == old(Repr()) && blocks == old(blocks) && contents == old(contents) &&
          disk.Keys == old(disk).Keys
      ensures forall g | g in disk && g != fd :: disk[g] == old(disk)[g]
      ensures if !writable && HasDirty(old(entries), fd) then r == -1 && disk == old(disk) && entries == old(entries)
          else r == synced && CleanedIn(old(entries), entries, fd) &&
               (fd in disk ==> fd in contents && disk[fd] == contents[fd])
    {
      hide Valid;
      EntryCount();
      for i := 0 to |blocks|
        invariant Valid() && Repr() == old(Repr()) && blocks == old(blocks) && contents == old(contents)
        invariant disk.Keys == old(disk).Keys && forall g | g in disk && g != fd :: disk[g] == old(disk)[g]
        invariant forall j | 0 <= j < i :: blocks[j].fd != fd || !blocks[j].isDirty
        invariant |entries| == |old(entries)| == |blocks| && old(entries)[i..] == entries[i..]
        invariant forall j | 0 <= j < i :: entries[j] == Cleaned(old(entries)[j], fd)
        invariant !writable ==>
            disk == old(disk) && entries == old(entries) &&
            forall j | 0 <= j < i :: entries[j].fd != fd || !entries[j].dirty
      {
        BlockAt(i);
        BlockEntry(i);
        assert entries[i] == old(entries)[i..][0];
        if blocks[i].fd == fd && blocks[i].isDirty {
          if !writable {
            return -1;
          }
          FlushBlock(blocks[i], i);
        }
      }
      AllFlushed(fd);
      EntryCount();
      r := synced;
    }

    /** Deletes a block that is in the way of closing. */
    method DropBlock(index: nat, writable: bool) returns (r: int)
      requires Valid() && index < |blocks|
      modifies this`blocks, this`size, this`disk, this`entries
      ensures Valid() && index < |old(entries)| && r == if old(entries)[index].dirty && !writable then -1 else 0
      ensures r == -1 ==> blocks == old(blocks) && entries == old(entries) && disk == old(disk)
      ensures r == 0 ==>
          FlushedTo(old(disk), old(entries)[index], disk) && old(entries)[index].fd == old(blocks)[index].fd
      ensures r == 0 ==>
          blocks == old(blocks)[..index] + old(blocks)[index + 1..] && entries == Without(old(entries), index)
      ensures Others(entries, old(blocks)[index].fd) == Others(old(entries), old(blocks)[index].fd)
    {
      hide Consistent, Others;
      assert blocks[index].Value() == entries[index];
      assert entries + [] == entries;
      OthersWithout(entries, index, blocks[index].fd);
      r := RemoveBlock(index, writable, []);
    }

    lemma BlockEntry(k: nat)
      requires Valid() && k < |blocks|
      ensures k < |entries| == |blocks| && entries[k].fd == blocks[k].fd && entries[k].dirty == blocks[k].isDirty
    {
      assert blocks[k].Value() == entries[k];
    }

    lemma AllClosed(fd: int)
      requires Valid() && forall j | 0 <= j < |blocks| :: blocks[j].fd != fd
      ensures !HasDirty(entries, fd) && Others(entries, fd) == entries
      ensures fd in disk ==> fd in contents && disk[fd] == contents[fd]
    {
      forall j | 0 <= j < |entries| ensures entries[j].fd != fd { BlockEntry(j); }
      OthersNone(entries, fd);
      if fd in disk { ConsistentClean(disk, entries, contents, fd); }
    }

    /** lab2_close: the disk has the contents of the file, and exactly its blocks are gone. */
    method Close(fd: int, writable: bool, closed: int) returns (r: int)
      requires Valid()
      modifies Repr()
      ensures Valid() && Repr() <= old(Repr()) && contents == old(contents) && disk.Keys == old(disk).Keys
      ensures forall g | g in disk && g != fd :: disk[g] == old(disk)[g]
      ensures forall b | b in blocks :: b in old(blocks)
      ensures if !writable && HasDirty(old(entries), fd) then r == -1 && disk == old(disk)
          else r == closed && entries == Others(old(entries), fd) &&
               (fd in disk ==> fd in contents && disk[fd] == contents[fd])
      ensures Others(entries, fd) == Others(old(entries), fd)
    {
      hide Valid, Others, Without, HasDirty;
      var it := 0;
      while it < |blocks|
        invariant 0 <= it <= |blocks| && Valid() && contents == old(contents) && disk.Keys == old(disk).Keys &&
            forall g | g in disk && g != fd :: disk[g] == old(disk)[g]
        invariant forall b | b in blocks :: b in old(blocks)
        invariant forall j | 0 <= j < it :: blocks[j].fd != fd
        invariant Others(entries, fd) == Others(old(entries), fd)
        invariant !writable ==> disk == old(disk) && (HasDirty(entries, fd) <==> HasDirty(old(entries), fd))
        decreases |blocks| - it
      {
        if blocks[it].fd == fd {
          BlockEntry(it);
          DirtyWithout(entries, it, fd);
          var deleted := DropBlock(it, writable);
          if deleted == -1 {
            return -1;
          }
        } else {
          it := it + 1;
        }
      }
      AllClosed(fd);
      r := closed;
    }
  }
}
