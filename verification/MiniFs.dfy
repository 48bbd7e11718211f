/** minifs (kernel/fs.c): block allocation, the inode cache, and file reads and writes.

  Blocks are read and written by number, as the buffer cache presents them (see BufferCache); the
  byte layout of the superblock and of inode records is left out. */
module MiniFs {
  import opened Volume
  import opened VolumeFiles
  import opened Space

  const ENOSPC := 28
  const UINT32_MAX := 0xFFFF_FFFF

  class FileSystem {
    const nblocks: nat
    const ninodes: nat
    var blocks: seq<Block>
    var itable: seq<Record>
    var icache: seq<Slot>
    var freeList: u16          // sb.free_list
    var sbFreeList: u16        // its copy in block 0

    ghost var free: seq<u16>
    ghost var openAt: map<nat, nat>
    ghost var owner: Owner
    ghost const pool: set<u16>

    ghost function V(): Vol
      reads this
    {
      Vol(nblocks, ninodes, blocks, itable, icache, freeList, free, openAt)
    }

    /** Block ownership, the inode cache, and: the free and the owned blocks together are always the
        same set. */
    ghost predicate Valid()
      reads this
    {
      && Inv(V(), owner) && Cached(V())
      && owner.Keys == pool && sbFreeList == freeList
    }

    ghost predicate Held(slot: nat)
      reads this
    {
      slot < MAXINODE == |icache| && icache[slot].refcount > 0
    }

    /** fs_init(): a volume is mounted with an empty inode cache. */
    constructor (blocks: seq<Block>, itable: seq<Record>, freeList: u16, ghost free: seq<u16>, ghost owner: Owner)
      requires itable != []
      requires var v := Vol(|blocks|, |itable| - 1, blocks, itable, seq(MAXINODE, i => Slot(0, NO_RECORD, 0, false)),
                            freeList, free, map[]);
               Inv(v, owner) && Cached(v)
      ensures Valid() && pool == owner.Keys
    {
      nblocks, ninodes := |blocks|, |itable| - 1;
      this.blocks, this.itable, this.freeList, sbFreeList := blocks, itable, freeList, freeList;
      icache := seq(MAXINODE, i => Slot(0, NO_RECORD, 0, false));
      this.free, openAt, this.owner, pool := free, map[], owner, owner.Keys;
    }

    method Balloc() returns (r: u16)
      requires Headed(V())
      modifies `freeList, `sbFreeList, `free
      ensures r == old(freeList)
      ensures r == 0 ==> unchanged(this)
      ensures r != 0 ==> V() == Popped(old(V())) && sbFreeList == freeList
    {
      if freeList == 0 {
        return 0;
      }
      r := freeList;
      freeList := Pointer(blocks[r], 0);
      sbFreeList := freeList;
      free := if free == [] then [] else free[..|free| - 1];
    }

    method Bfree(b: u16)
      requires Shape(V()) && InData(V(), b)
      modifies `blocks, `freeList, `sbFreeList, `free
      ensures V() == Pushed(old(V()), b) && sbFreeList == freeList
    {
      blocks := blocks[b := FreeBlock(freeList)];
      freeList := b;
      sbFreeList := freeList;
      free := free + [b];
    }

    /** bmap() on one of the twelve direct blocks. */
    method BmapDirect(slot: nat, bn: nat, alloc: bool) returns (r: u16)
      requires Headed(V()) && slot < MAXINODE && bn < NDIRECT && sbFreeList == freeList
      modifies `blocks, `icache, `freeList, `sbFreeList, `free
      ensures V() == DirectStep(old(V()), slot, bn, alloc) && r == icache[slot].rec.direct[bn]
      ensures sbFreeList == freeList
    {
      if icache[slot].rec.direct[bn] == 0 && alloc {
        var b := Balloc();
        var rec := icache[slot].rec;
        icache := icache[slot := icache[slot].(rec := rec.(direct := rec.direct[bn := b]), dirty := true)];
      }
      r := icache[slot].rec.direct[bn];
    }

    /** bmap() on a block reached through the indirect block. */
    method BmapIndirect(slot: nat, bn: nat, alloc: bool) returns (r: u16)
      requires Headed(V()) && slot < MAXINODE && bn < PTRS_PER_BLK && sbFreeList == freeList
      requires var u := AllocIndirectStep(V(), slot, alloc); Headed(u) && u.icache[slot].rec.indirect < u.nblocks
      modifies `blocks, `icache, `freeList, `sbFreeList, `free
      ensures var u := AllocIndirectStep(old(V()), slot, alloc);
              && V() == EntryStep(u, slot, bn, alloc)
              && var ib := u.icache[slot].rec.indirect; r == if ib == 0 then 0 else Pointer(blocks[ib], bn)
      ensures sbFreeList == freeList
    {
      ghost var u := AllocIndirectStep(V(), slot, alloc);
      if icache[slot].rec.indirect == 0 {
        if !alloc {
          return 0;
        }
        var b := Balloc();
        if b == 0 {
          return 0;
        }
        blocks := blocks[b := ZeroBlock()];
        icache := icache[slot := icache[slot].(rec := icache[slot].rec.(indirect := b), dirty := true)];
      }
      assert V() == u;
      var ib := icache[slot].rec.indirect;
      r := Pointer(blocks[ib], bn);
      if r == 0 && alloc {
        SetPointerSame(blocks[ib], bn);
        r := Balloc();
        SetPointerGet(blocks[ib], bn, r, bn);
        blocks := blocks[ib := SetPointer(blocks[ib], bn, r)];
      }
    }

    /** bmap(): the block of the file at byte `offset`, allocated when asked. */
    method Bmap(slot: nat, offset: nat, alloc: bool) returns (r: u16)
      requires Valid() && Held(slot)
      modifies `blocks, `icache, `freeList, `sbFreeList, `free, `owner
      ensures Valid() && BmapSpec(old(V()), V(), slot, offset / BLOCK_SIZE, alloc, r)
      ensures Headed(old(V())) && V() == BmapStep(old(V()), slot, offset / BLOCK_SIZE, alloc)
    {
      BmapKeeps(V(), owner, slot, offset / BLOCK_SIZE, alloc);
      owner := BmapOwner(V(), owner, slot, offset / BLOCK_SIZE, alloc);
      r := BmapBlock(slot, offset / BLOCK_SIZE, alloc);
    }

    method BmapBlock(slot: nat, bn0: nat, alloc: bool) returns (r: u16)
      requires Headed(V()) && slot < MAXINODE && sbFreeList == freeList
      requires NDIRECT <= bn0 < MAX_FILE_BLOCKS ==>
        var u := AllocIndirectStep(V(), slot, alloc); Headed(u) && u.icache[slot].rec.indirect < u.nblocks
      modifies `blocks, `icache, `freeList, `sbFreeList, `free
      ensures V() == BmapStep(old(V()), slot, bn0, alloc) && r == BmapResult(V(), slot, bn0)
      ensures sbFreeList == freeList
    {
      var bn := bn0;
      if bn < NDIRECT {
        r := BmapDirect(slot, bn, alloc);
        return;
      }
      bn := bn - NDIRECT;
      if bn < PTRS_PER_BLK {
        r := BmapIndirect(slot, bn, alloc);
        return;
      }
      r := 0;
    }

    /** fs_iupdate() */
    method Iupdate(slot: nat)
      requires Shape(V()) && slot < MAXINODE && IsInode(V(), icache[slot].inum)
      modifies `itable, `icache
      ensures V() == Updated(old(V()), slot)
    {
      itable := itable[icache[slot].inum := icache[slot].rec];
      icache := icache[slot := icache[slot].(dirty := false)];
    }

    /** The loop of fs_iput() over the entries of an indirect block, read once before. */
    method FreeEntries(ptrs: Block)
      requires Headed(V()) && sbFreeList == freeList
      requires forall i :: 0 <= i < PTRS_PER_BLK && Pointer(ptrs, i) != 0 ==> InData(V(), Pointer(ptrs, i))
      modifies `blocks, `freeList, `sbFreeList, `free
      ensures V() == PushAll(old(V()), ptrs, PTRS_PER_BLK) && sbFreeList == freeList
    {
      for i := 0 to PTRS_PER_BLK
        invariant V() == PushAll(old(V()), ptrs, i) && sbFreeList == freeList
      {
        if Pointer(ptrs, i) != 0 {
          Bfree(Pointer(ptrs, i));
        }
      }
    }

    /** The loop of fs_iput() over the direct blocks. */
    method ReclaimDirects(slot: nat)
      requires Headed(V()) && slot < MAXINODE && sbFreeList == freeList && DirectTidy(V(), slot)
      modifies `blocks, `icache, `freeList, `sbFreeList, `free
      ensures V() == FreeDirects(old(V()), slot, NDIRECT) && sbFreeList == freeList
    {
      ghost var v := V();
      for i := 0 to NDIRECT
        invariant V() == FreeDirects(v, slot, i) && sbFreeList == freeList
      {
        DirectsLeft(v, slot, i);
        var rec := icache[slot].rec;
        if rec.direct[i] != 0 {
          Bfree(rec.direct[i]);
          icache := icache[slot := icache[slot].(rec := rec.(direct := rec.direct[i := 0]))];
        }
      }
    }

    /** The part of fs_iput() that frees the blocks of an inode. */
    method Reclaim(slot: nat)
      requires Headed(V()) && slot < MAXINODE && sbFreeList == freeList
      requires DirectTidy(V(), slot) && IndirectTidy(FreeDirects(V(), slot, NDIRECT), slot)
      modifies `blocks, `icache, `freeList, `sbFreeList, `free
      ensures V() == Reclaimed(old(V()), slot) && sbFreeList == freeList
    {
      hide PushAll, FreeDirects;
      ReclaimDirects(slot);
      var ib := icache[slot].rec.indirect;
      if ib != 0 {
        PushAllCommutes(V(), slot, icache[slot].rec, blocks[ib], PTRS_PER_BLK);
        FreeEntries(blocks[ib]);
        Bfree(ib);
        icache := icache[slot := icache[slot].(rec := icache[slot].rec.(indirect := 0))];
      }
    }

    /** fs_iput(): a reference to the inode is given up. */
    method Iput(slot: nat)
      requires Valid() && Held(slot)
      modifies this
      ensures Valid() && PutSpec(old(V()), old(owner), V(), owner, slot)
      ensures Headed(old(V())) && IsInode(old(V()), old(icache[slot].inum)) && V() == Put(old(V()), slot)
    {
      ghost var v, n := V(), icache[slot].inum;
      PutKeeps(v, owner, slot);
      OpenFacts(v, slot);
      if Reclaims(v, slot) {
        ReclaimTidy(v, owner, slot);
      }
      owner := PutOwner(v, owner, slot);
      PutBlocks(slot, n);
    }

    method PutBlocks(slot: nat, ghost n: nat)
      requires Headed(V()) && slot < MAXINODE && icache[slot].refcount > 0 && sbFreeList == freeList
      requires n == icache[slot].inum && IsInode(V(), n) && icache[slot].rec.ftype != FT_FREE
      requires Reclaims(V(), slot) ==>
        var u := Dropped(V(), slot);
        Headed(u) && DirectTidy(u, slot) && IndirectTidy(FreeDirects(u, slot, NDIRECT), slot)
      modifies `blocks, `itable, `icache, `freeList, `sbFreeList, `free, `openAt
      ensures V() == Put(old(V()), slot) && sbFreeList == freeList
    {
      hide Reclaimed, DirectTidy, IndirectTidy, FreeDirects;
      if icache[slot].refcount > 0 {
        icache := icache[slot := icache[slot].(refcount := icache[slot].refcount - 1)];
      }
      if icache[slot].refcount == 0 && icache[slot].dirty {
        Iupdate(slot);
      }
      assert V() == Dropped(old(V()), slot);
      ghost var last := icache[slot].refcount == 0;
      if icache[slot].refcount == 0 && icache[slot].rec.nlink == 0 && icache[slot].rec.ftype != FT_FREE {
        ReclaimedShape(V(), slot);
        Reclaim(slot);
        icache := icache[slot := icache[slot].(rec := icache[slot].rec.(size := 0, ftype := FT_FREE), dirty := true)];
        Iupdate(slot);
      }
      if last {
        openAt := openAt - {n};
      }
    }

    /** The first loop of fs_iget(): the slot of an open inode, or MAXINODE. */
    method FindOpen(inum: nat) returns (r: nat)
      requires Valid()
      ensures if inum in openAt then r == openAt[inum] else r == MAXINODE
    {
      OpenSlotIs(V(), inum);
      for i := 0 to MAXINODE
        invariant forall j :: 0 <= j < i ==> !(icache[j].refcount > 0 && icache[j].inum == inum)
      {
        if icache[i].refcount > 0 && icache[i].inum == inum {
          OpenFacts(V(), i);
          return i;
        }
      }
      return MAXINODE;
    }

    /** The second loop: the first slot that nothing refers to, or MAXINODE. */
    method FindUnused() returns (r: nat)
      requires Valid()
      ensures r <= MAXINODE && (r < MAXINODE ==> icache[r].refcount == 0)
      ensures forall i :: 0 <= i < r ==> icache[i].refcount > 0
    {
      for i := 0 to MAXINODE
        invariant forall j :: 0 <= j < i ==> icache[j].refcount > 0
      {
        if icache[i].refcount == 0 {
          return i;
        }
      }
      return MAXINODE;
    }

    /** fs_iget(): the slot of an inode, or nothing when the number is out of range or the cache is
        full.  Callers take `inum` from a directory entry or from ialloc(), so its record is in use. */
    method Iget(inum: nat) returns (r: nat)
      requires Valid()
      modifies `icache, `openAt
      ensures Inv(V(), owner) && SameMap(old(V()), V())
      ensures r < MAXINODE ==> IsInode(old(V()), inum)
      ensures Valid() <==> (r < MAXINODE ==> Rec(old(V()), inum).ftype != FT_FREE)
      ensures r < MAXINODE ==>
        && Held(r) && icache[r].inum == inum && icache[r].rec == Rec(old(V()), inum)
        && icache[r].refcount == (if inum in old(openAt) then old(icache[r].refcount) else 0) + 1
        && icache[r].dirty == (if inum in old(openAt) then old(icache[r].dirty) else false)
        && icache == old(icache)[r := icache[r]] && openAt == old(openAt)[inum := r]
      ensures r >= MAXINODE ==>
        && V() == old(V())
        && (!IsInode(V(), inum) || (inum !in openAt && forall i :: 0 <= i < MAXINODE ==> icache[i].refcount > 0))
    {
      hide Chained, Owned, At, Cached, OpenSlot;
      if inum == 0 || inum > ninodes {
        return MAXINODE;
      }
      r := FindOpen(inum);
      if r < MAXINODE {
        OpenSlotIs(V(), inum);
        RefcountKeeps(V(), owner, r, icache[r].refcount + 1);
        icache := icache[r := icache[r].(refcount := icache[r].refcount + 1)];
        return;
      }
      r := FindUnused();
      if r < MAXINODE {
        FetchKeeps(V(), owner, inum, r);
        icache := icache[r := Slot(inum, itable[inum], 1, false)];
        openAt := openAt[inum := r];
      }
    }

    /** ialloc(): the first free record becomes a new inode with one name and no blocks. */
    method Ialloc(ftype: nat) returns (r: nat)
      requires Valid() && ftype != FT_FREE
      modifies `itable
      ensures Valid() && SameMap(old(V()), V())
      ensures r == 0 ==> V() == old(V()) && forall n :: 1 <= n <= ninodes ==> itable[n].ftype != FT_FREE
      ensures r != 0 ==>
        && IsInode(V(), r) && old(itable[r].ftype) == FT_FREE && r !in openAt
        && (forall n :: 1 <= n < r ==> old(itable[n].ftype) != FT_FREE)
        && itable == old(itable)[r := Record(ftype, 1, 0, 0, seq(12, _ => 0), 0)]
    {
      for i := 1 to ninodes + 1
        invariant forall n :: 1 <= n < i ==> itable[n].ftype != FT_FREE
        invariant V() == old(V())
      {
        if itable[i].ftype == FT_FREE {
          var rec := Record(ftype, 1, 0, 0, seq(12, _ => 0), 0);
          ClaimKeeps(V(), owner, i, rec);
          assert i in openAt ==> OpenSlot(V(), i);
          itable := itable[i := rec];
          return i;
        }
      }
      return 0;
    }

    /** The inode part of fs_unlink(): one name fewer; the caller then gives its reference up. */
    method DropName(slot: nat)
      requires Valid() && Held(slot)
      modifies `icache
      ensures Valid() && SameMap(old(V()), V())
      ensures var s := old(icache[slot]);
        icache == old(icache)[slot := s.(rec := s.rec.(nlink := (s.rec.nlink + 255) % 256), dirty := true)]
    {
      var rec := icache[slot].rec;
      OpenFacts(V(), slot);
      RecordKeeps(V(), owner, slot, rec.(nlink := (rec.nlink + 255) % 256));
      icache := icache[slot := icache[slot].(rec := rec.(nlink := (rec.nlink + 255) % 256), dirty := true)];
    }

    /** The O_TRUNC part of sys_open(): the file is empty, but keeps its blocks. */
    method Truncate(slot: nat)
      requires Valid() && Held(slot)
      modifies `icache, `itable
      ensures Valid() && SameMap(old(V()), V())
      ensures var s := old(icache[slot]);
        && icache == old(icache)[slot := s.(rec := s.rec.(size := 0), dirty := false)]
        && itable == old(itable)[s.inum := s.rec.(size := 0)]
    {
      OpenFacts(V(), slot);
      SetMeta(slot, icache[slot].rec.(size := 0));
    }

    /** The fields of a cached inode other than its block pointers are set and written to disk. */
    method SetMeta(slot: nat, rec: Record)
      requires Valid() && Held(slot) && rec.ftype != FT_FREE
      requires rec.direct == icache[slot].rec.direct && rec.indirect == icache[slot].rec.indirect
      modifies `icache, `itable
      ensures Valid() && SameMap(old(V()), V())
      ensures icache == old(icache)[slot := old(icache[slot]).(rec := rec, dirty := false)]
      ensures itable == old(itable)[icache[slot].inum := rec]
    {
      hide Chained, Owned;
      RecordKeeps(V(), owner, slot, rec);
      icache := icache[slot := icache[slot].(rec := rec, dirty := true)];
      UpdateKeeps(V(), owner, slot);
      Iupdate(slot);
    }

    /** fs_read() */
    method Read(slot: nat, off0: nat, count: nat) returns (dst: seq<byte>)
      requires Valid() && Held(slot)
      ensures ReadsAs(V(), icache[slot].inum, icache[slot].rec.size, off0, count, dst)
    {
      hide Chained, Owned, Cached;
      ghost var v, n := V(), icache[slot].inum;
      var size, off := icache[slot].rec.size, off0;
      if off >= size {
        return [];
      }
      var k := if count > size - off then size - off else count;
      dst := [];
      while |dst| < k
        invariant |dst| <= k && off == off0 + |dst|
        invariant Contains(v, n, off0, dst)
      {
        var blk := BmapLookup(slot, off);
        if blk == 0 {
          break;
        }
        var boff := off % BLOCK_SIZE;
        var chunk := BLOCK_SIZE - boff;
        if chunk > k - |dst| {
          chunk := k - |dst|;
        }
        ChunkContained(v, n, off, chunk);
        ContainsJoin(v, n, off0, dst, blocks[blk][boff..boff + chunk]);
        dst := dst + blocks[blk][boff..boff + chunk];
        off := off + chunk;
      }
    }

    /** bmap(ip, off, 0): nothing is allocated and nothing changes. */
    method BmapLookup(slot: nat, offset: nat) returns (r: u16)
      requires Valid() && Held(slot)
      ensures r == BlockOf(V(), icache[slot].inum, offset / BLOCK_SIZE) && (r != 0 ==> r < nblocks)
    {
      OpenFacts(V(), slot);
      var bn := offset / BLOCK_SIZE;
      if bn < NDIRECT {
        r := icache[slot].rec.direct[bn];
        assert r == At(V(), PlaceOf(icache[slot].inum, bn));
        return;
      }
      bn := bn - NDIRECT;
      if bn < PTRS_PER_BLK {
        if icache[slot].rec.indirect == 0 {
          return 0;
        }
        IndirectInData(V(), owner, slot);
        r := Pointer(blocks[icache[slot].rec.indirect], bn);
        assert r == At(V(), PlaceOf(icache[slot].inum, bn + NDIRECT));
        return;
      }
      r := 0;
    }

    /** bmap(ip, off, 1): the block is allocated exactly when the free chain has what is missing for it. */
    method BmapAlloc(slot: nat, off: nat) returns (r: u16)
      requires Valid() && Held(slot)
      modifies `blocks, `icache, `freeList, `sbFreeList, `free, `owner
      ensures Valid() && BmapSpec(old(V()), V(), slot, off / BLOCK_SIZE, true, r)
      ensures var v, n, bn := old(V()), icache[slot].inum, off / BLOCK_SIZE;
        if r != 0 then Paid(v, V(), n, bn) else bn >= MAX_FILE_BLOCKS || Missing(v, n, bn) > |v.free|
    {
      if off / BLOCK_SIZE < MAX_FILE_BLOCKS {
        BmapCounts(V(), owner, slot, off / BLOCK_SIZE);
      }
      r := Bmap(slot, off, true);
    }

    /** One turn of fs_write()'s loop: bytes that fit in one block are written, unless there is no block
        for them. */
    method WriteBlock(slot: nat, src: seq<byte>, off: nat) returns (ok: bool)
      requires Valid() && Held(slot) && off % BLOCK_SIZE + |src| <= BLOCK_SIZE
      modifies `blocks, `icache, `freeList, `sbFreeList, `free, `owner
      ensures Valid() && OnlyPointers(old(V()), V(), slot)
      ensures ok ==>
        Contains(V(), icache[slot].inum, off, src) && Untouched(old(V()), V(), icache[slot].inum, off, off + |src|)
      ensures !ok ==> Untouched(old(V()), V(), icache[slot].inum, off, off)
      ensures !ok ==> freeList == 0 || off / BLOCK_SIZE >= MAX_FILE_BLOCKS
      ensures var v, n, bn := old(V()), icache[slot].inum, off / BLOCK_SIZE;
        if ok then Paid(v, V(), n, bn) else bn >= MAX_FILE_BLOCKS || Missing(v, n, bn) > |v.free|
    {
      hide Chained, Owned, Cached, Paid, Contains, Untouched, OnlyMaps, Preserved, Missing;
      var blk := BmapAlloc(slot, off);
      if blk == 0 {
        PreservedBytes(old(V()), V(), icache[slot].inum, off);
        return false;
      }
      BlockWritten(old(V()), V(), owner, slot, off, src, blk);
      blocks := blocks[blk := Patch(blocks[blk], off % BLOCK_SIZE, src)];
      return true;
    }

    /** The next chunk of `data`; 0 when no block can be had for it. */
    method WriteChunk(slot: nat, data: seq<byte>, off0: nat, total: nat, ghost v: Vol) returns (chunk: nat)
      requires Valid() && Held(slot) && HeldIn(v, slot) && total < |data|
      requires Progress(v, V(), owner, slot, off0, data, total)
      modifies `blocks, `icache, `freeList, `sbFreeList, `free, `owner
      ensures Valid() && Held(slot) && icache[slot].inum == v.icache[slot].inum && total + chunk <= |data|
      ensures WrittenSoFar(v, V(), owner, slot, off0, data, total + chunk)
      ensures chunk == 0 ==> freeList == 0 || (off0 + total) / BLOCK_SIZE >= MAX_FILE_BLOCKS
      ensures if chunk == 0 then !RoomFor(v, v.icache[slot].inum, off0, total + 1)
              else Progress(v, V(), owner, slot, off0, data, total + chunk)
    {
      hide Chained, Owned, Cached, Progress, WrittenSoFar, RoomFor, Contains, Untouched, Paid, Missing;
      ghost var w, ow := V(), owner;
      chunk := BLOCK_SIZE - (off0 + total) % BLOCK_SIZE;
      if chunk > |data| - total {
        chunk := |data| - total;
      }
      var ok := WriteBlock(slot, data[total..total + chunk], off0 + total);
      if ok {
        ChunkDone(v, w, V(), ow, owner, slot, off0, data, total, chunk);
      } else {
        ChunkFailed(v, w, V(), ow, owner, slot, off0, data, total);
        chunk := 0;
      }
    }

    /** The loop of fs_write(): returns how many bytes went in. */
    method WriteBlocks(slot: nat, data: seq<byte>, off0: nat) returns (total: nat)
      requires Valid() && Held(slot)
      modifies `blocks, `icache, `freeList, `sbFreeList, `free, `owner
      ensures Valid() && Held(slot) && icache[slot].inum == old(icache[slot].inum)
      ensures total <= |data| && WrittenSoFar(old(V()), V(), owner, slot, off0, data, total)
      ensures total < |data| ==> freeList == 0 || (off0 + total) / BLOCK_SIZE >= MAX_FILE_BLOCKS
      ensures var v, n := old(V()), old(icache[slot].inum);
        RoomFor(v, n, off0, total) && (total < |data| ==> !RoomFor(v, n, off0, total + 1))
    {
      hide Chained, Owned, Cached, Progress, WrittenSoFar, RoomFor;
      ProgressStart(V(), owner, slot, off0, data);
      total := 0;
      while total < |data|
        invariant Valid() && Held(slot) && icache[slot].inum == old(icache[slot].inum) && total <= |data|
        invariant Progress(old(V()), V(), owner, slot, off0, data, total)
      {
        RoomSoFar(old(V()), V(), owner, slot, off0, data, total);
        var chunk := WriteChunk(slot, data, off0, total, old(V()));
        if chunk == 0 {
          return;
        }
        total := total + chunk;
      }
      RoomSoFar(old(V()), V(), owner, slot, off0, data, total);
    }

    /** fs_write(): returns the number of bytes written, or -ENOSPC. */
    method Write(slot: nat, data: seq<byte>, off: nat, now: nat) returns (r: int)
      requires Valid() && Held(slot) && off <= UINT32_MAX
      modifies this
      ensures Valid() && Held(slot) && WriteSpec(old(V()), V(), slot, data, off, now, r)
    {
      hide Chained, Owned, Cached, WrittenSoFar, RoomFor, WriteSpec, SameMap;
      var n := Clipped(off, |data|);
      ghost var v := V();
      OpenFacts(v, slot);
      var total := WriteBlocks(slot, data[..n], off);
      if total < n {
        r := if total > 0 then total else -ENOSPC;
        ShortWrite(v, V(), owner, slot, data, off, now, total);
      } else {
        r := total;
        ghost var w := V();
        var rec := icache[slot].rec;
        OpenFacts(w, slot);
        rec := rec.(size := if off + total > rec.size then off + total else rec.size, mtime := now);
        SetMeta(slot, rec);
        FullWrite(v, w, V(), owner, slot, data, off, now, rec);
      }
    }
  }

  /** How many of `count` bytes fs_write() tries to write: the end offset must fit in 32 bits. */
  function Clipped(off: nat, count: nat): nat
    requires off <= UINT32_MAX
  {
    if count > UINT32_MAX - off then UINT32_MAX - off else count
  }

  /** The largest part that ends at or before the last 32-bit offset. */
  lemma ClippedIs(off: nat, count: nat)
    requires off <= UINT32_MAX
    ensures var n := Clipped(off, count);
            n <= count && off + n < 0x1_0000_0000 && (n < count ==> off + n == 0xFFFF_FFFF)
  {
  }

  /** What fs_write() does: the bytes it counts are in the file, all other mapped bytes of all files are as before, and
      it counts less than it was asked for only when the volume is full or the file too large. A full write sets size
      and time and writes the inode back; a short one leaves them alone. */
  ghost predicate WriteSpec(v: Vol, w: Vol, slot: nat, data: seq<byte>, off: nat, now: nat, r: int)
    requires HeldIn(v, slot) && HeldIn(w, slot) && off <= UINT32_MAX
  {
    var s, t, n := v.icache[slot], w.icache[slot], Clipped(off, |data|);
    var k := if r < 0 then 0 else r;
    && IsInode(v, s.inum) && (if r < 0 then r == -ENOSPC && n > 0 else r <= n && (r == 0 ==> n == 0))
    && Contains(w, s.inum, off, data[..k]) && Untouched(v, w, s.inum, off, off + k)
    && (r < n ==> w.freeList == 0 || (off + k) / BLOCK_SIZE >= MAX_FILE_BLOCKS)
    && RoomFor(v, s.inum, off, k) && (k < n ==> !RoomFor(v, s.inum, off, k + 1))
    && w.icache == v.icache[slot := t] && w.openAt == v.openAt && t.inum == s.inum && t.refcount == s.refcount
    && if r == n then
         && t.rec == s.rec.(size := if off + r > s.rec.size then off + r else s.rec.size, mtime := now,
                            direct := t.rec.direct, indirect := t.rec.indirect)
         && w.itable == v.itable[s.inum := t.rec] && !t.dirty
       else t.rec == s.rec.(direct := t.rec.direct, indirect := t.rec.indirect) && w.itable == v.itable
  }

  lemma ShortWrite(v: Vol, w: Vol, owner: Owner, slot: nat, data: seq<byte>, off: nat, now: nat, total: nat)
    requires HeldIn(v, slot) && HeldIn(w, slot) && off <= UINT32_MAX && IsInode(v, v.icache[slot].inum)
    requires total < Clipped(off, |data|) && WrittenSoFar(v, w, owner, slot, off, data[..Clipped(off, |data|)], total)
    requires w.freeList == 0 || (off + total) / BLOCK_SIZE >= MAX_FILE_BLOCKS
    requires RoomFor(v, v.icache[slot].inum, off, total) && !RoomFor(v, v.icache[slot].inum, off, total + 1)
    ensures WriteSpec(v, w, slot, data, off, now, if total > 0 then total else -ENOSPC)
  {
    assert data[..Clipped(off, |data|)][..total] == data[..total];
  }

  lemma FullWrite(v: Vol, w: Vol, x: Vol, owner: Owner, slot: nat, data: seq<byte>, off: nat, now: nat, rec: Record)
    requires HeldIn(v, slot) && HeldIn(w, slot) && HeldIn(x, slot) && off <= UINT32_MAX
      && IsInode(v, v.icache[slot].inum)
    requires WrittenSoFar(v, w, owner, slot, off, data[..Clipped(off, |data|)], Clipped(off, |data|))
    requires RoomFor(v, v.icache[slot].inum, off, Clipped(off, |data|))
    requires var before, end := w.icache[slot].rec, off + Clipped(off, |data|);
      rec == before.(size := if end > before.size then end else before.size, mtime := now)
    requires SameMap(w, x) && x.icache == w.icache[slot := w.icache[slot].(rec := rec, dirty := false)]
    requires x.itable == w.itable[v.icache[slot].inum := rec] && x.openAt == w.openAt
    ensures WriteSpec(v, x, slot, data, off, now, Clipped(off, |data|))
  {
    var n := Clipped(off, |data|);
    assert data[..n][..n] == data[..n];
    SameBytes(w, x, v.icache[slot].inum, off, data[..n]);
  }

  lemma LongestFits(v: Vol, n: nat, off: nat, t: nat, most: nat, k: nat)
    requires Shape(v) && t <= most && RoomFor(v, n, off, t) && (t < most ==> !RoomFor(v, n, off, t + 1)) && k <= most
    ensures k <= t <==> RoomFor(v, n, off, k)
  {
    if k <= t {
      RoomForLess(v, n, off, k, t);
    } else if RoomFor(v, n, off, k) {
      RoomForLess(v, n, off, t + 1, k);
    }
  }

  /** fs_write() writes the longest beginning of the data that there is room for, so all of it exactly when there is
      room for all of it, and fails exactly when there is no room for the first byte. */
  lemma WritesWhatFits(v: Vol, w: Vol, slot: nat, data: seq<byte>, off: nat, now: nat, r: int, k: nat)
    requires HeldIn(v, slot) && HeldIn(w, slot) && off <= UINT32_MAX && WriteSpec(v, w, slot, data, off, now, r)
    requires k <= Clipped(off, |data|)
    ensures k <= (if r < 0 then 0 else r) <==> RoomFor(v, v.icache[slot].inum, off, k)
    ensures r == Clipped(off, |data|) <==> RoomFor(v, v.icache[slot].inum, off, Clipped(off, |data|))
    ensures r == -ENOSPC <==> Clipped(off, |data|) > 0 && !RoomFor(v, v.icache[slot].inum, off, 1)
  {
    var most, n, t := Clipped(off, |data|), v.icache[slot].inum, if r < 0 then 0 else r;
    LongestFits(v, n, off, t, most, k);
    LongestFits(v, n, off, t, most, most);
    if most > 0 {
      LongestFits(v, n, off, t, most, 1);
    }
  }

  /** The data written will be read back: there is room for all of it, or not even for one byte beyond the end of the
      file. */
  predicate Readable(v: Vol, slot: nat, off: nat, n: nat)
    requires Shape(v) && slot < MAXINODE
  {
    var s := v.icache[slot];
    RoomFor(v, s.inum, off, n) || (off <= s.rec.size && !RoomFor(v, s.inum, off, s.rec.size - off + 1))
  }

  /** Read after write: a read of the range gives the data counted exactly when the volume before the write was such. A
      short write leaves the size alone, so bytes that landed beyond the old end of the file cannot be read. */
  lemma ReadAfterWrite(v: Vol, w: Vol, slot: nat, data: seq<byte>, off: nat, now: nat, r: int, got: seq<byte>)
    requires HeldIn(v, slot) && HeldIn(w, slot) && off <= UINT32_MAX && WriteSpec(v, w, slot, data, off, now, r)
      && r > 0
    requires ReadsAs(w, w.icache[slot].inum, w.icache[slot].rec.size, off, r, got)
    ensures got == data[..r] <==> Readable(v, slot, off, Clipped(off, |data|))
  {
    hide Contains, Untouched, ReadsAs, RoomFor;
    ReadBack(w, w.icache[slot].inum, w.icache[slot].rec.size, off, data[..r], got);
    ReadableWhen(v, w, slot, data, off, now, r);
  }

  lemma ReadableWhen(v: Vol, w: Vol, slot: nat, data: seq<byte>, off: nat, now: nat, r: int)
    requires HeldIn(v, slot) && HeldIn(w, slot) && off <= UINT32_MAX && WriteSpec(v, w, slot, data, off, now, r)
      && r > 0
    ensures off + r <= w.icache[slot].rec.size <==> Readable(v, slot, off, Clipped(off, |data|))
  {
    hide Contains, Untouched, RoomFor;
    var n, size, inum := Clipped(off, |data|), v.icache[slot].rec.size, v.icache[slot].inum;
    WritesWhatFits(v, w, slot, data, off, now, r, n);
    if r < n && off <= size {
      if size - off + 1 <= n {
        WritesWhatFits(v, w, slot, data, off, now, r, size - off + 1);
      } else if RoomFor(v, inum, off, size - off + 1) {
        RoomForLess(v, inum, off, n, size - off + 1);
      }
    }
  }

  /** A file is written, closed and opened again, by this or another process: a read gives the data exactly under the
      same condition, since its record is on disk as it was in the cache. */
  lemma ReadAfterReopen(v: Vol, w: Vol, owner: Owner, x: Vol, o: Owner, y: Vol, slot: nat, again: nat, data: seq<byte>,
                        off: nat, now: nat, r: int, got: seq<byte>)
    requires HeldIn(v, slot) && HeldIn(w, slot) && off <= UINT32_MAX && WriteSpec(v, w, slot, data, off, now, r)
      && r > 0
    requires Inv(w, owner) && PutSpec(w, owner, x, o, slot) && w.icache[slot].rec.nlink != 0
    requires Shape(y) && SameMap(x, y) && HeldIn(y, again) && IsInode(x, w.icache[slot].inum)
      && y.icache[again].rec == Rec(x, w.icache[slot].inum)
    requires ReadsAs(y, w.icache[slot].inum, y.icache[again].rec.size, off, r, got)
    ensures got == data[..r] <==> Readable(v, slot, off, Clipped(off, |data|))
  {
    hide Contains, Untouched, RoomFor, Cached, Owned, Chained, At;
    var n, size := w.icache[slot].inum, w.icache[slot].rec.size;
    SameBytes(w, x, n, off, data[..r]);
    SameBytes(x, y, n, off, data[..r]);
    ReadBack(y, n, size, off, data[..r], got);
    ReadableWhen(v, w, slot, data, off, now, r);
  }

  /** One block for data, and an empty file that is open. */
  function OneBlock(): Vol {
    var rec := Record(1, 1, 0, 0, seq(12, (i: nat) => 0 as u16), 0);
    var v := NewVolume(3, 1);
    v.(itable := v.itable[1 := rec], icache := v.icache[0 := Slot(1, rec, 1, false)], openAt := map[1 := 0])
  }

  lemma OneBlockValid()
    ensures HeldIn(OneBlock(), 0) && Inv(OneBlock(), NewOwner(NewVolume(3, 1))) && Cached(OneBlock())
  {
    var v := NewVolume(3, 1);
    NewVolumeValid(3, 1);
    var rec := Record(1, 1, 0, 0, seq(12, (i: nat) => 0 as u16), 0);
    ClaimKeeps(v, NewOwner(v), 1, rec);
    FetchKeeps(v.(itable := v.itable[1 := rec]), NewOwner(v), 1, 0);
    assert OneBlock() == Fetched(v.(itable := v.itable[1 := rec]), 1, 0);
  }

  /** A new volume with one inode record, which is free: once fs_iget() has put it in the cache, a record is open that
      is not in use. */
  lemma FreeRecordOpened()
    ensures var v := NewVolume(3, 1);
            && Inv(v, NewOwner(v)) && Cached(v) && Rec(v, 1).ftype == FT_FREE
            && Inv(Fetched(v, 1, 0), NewOwner(v)) && HeldIn(Fetched(v, 1, 0), 0) && !Cached(Fetched(v, 1, 0))
  {
    NewVolumeValid(3, 1);
    FetchKeeps(NewVolume(3, 1), NewOwner(NewVolume(3, 1)), 1, 0);
  }

  /** There is room for one block, and not for one byte more. */
  lemma OneBlockRoom()
    ensures Shape(OneBlock()) && RoomFor(OneBlock(), 1, 0, 1024) && !RoomFor(OneBlock(), 1, 0, 1025)
  {
    var v := OneBlock();
    assert BlockOf(v, 1, 0) == 0 && BlockOf(v, 1, 1) == 0;
    assert Holes(v, 1, 0, 1) == 1 && Holes(v, 1, 0, 2) == 2;
  }

  /** A sound volume and a write for which it fails: of 1025 bytes 1024 are counted, and none of them can be read. */
  lemma ShortWriteLost(w: Vol, data: seq<byte>, now: nat, r: int, got: seq<byte>)
    requires HeldIn(OneBlock(), 0) && HeldIn(w, 0) && |data| == 1025 && WriteSpec(OneBlock(), w, 0, data, 0, now, r)
    requires ReadsAs(w, w.icache[0].inum, w.icache[0].rec.size, 0, if r < 0 then 0 else r, got)
    ensures Inv(OneBlock(), NewOwner(NewVolume(3, 1))) && Cached(OneBlock())
    ensures r == 1024 && got == []
  {
    hide Contains, Untouched, RoomFor;
    var v := OneBlock();
    OneBlockValid();
    OneBlockRoom();
    WritesWhatFits(v, w, 0, data, 0, now, r, 1024);
  }
}
