/** The state of a minifs volume (kernel/fs.c) as a value: device blocks, inode records on disk,
  cached inodes, and the chain of free blocks.  `Inv` says that every data block belongs to at most
  one place; the lemmas say which block-level steps keep it. */
module Volume {

  const BLOCK_SIZE := 1024
  const NDIRECT := 12
  const PTRS_PER_BLK := 512
  const MAXINODE := 128
  const MAX_FILE_BLOCKS := NDIRECT + PTRS_PER_BLK

  const FT_FREE := 0

  type byte = x: int | 0 <= x < 256
  type u16 = x: int | 0 <= x < 65536
  type Block = b: seq<byte> | |b| == 1024 witness seq(1024, _ => 0)
  type Pointers = d: seq<u16> | |d| == 12 witness seq(12, _ => 0)

  /** An inode's contents: the disk record, and its copy in the cache. */
  datatype Record = Record(ftype: nat, nlink: nat, size: nat, mtime: nat, direct: Pointers, indirect: u16)

  /** A slot of the inode cache. */
  datatype Slot = Slot(inum: nat, rec: Record, refcount: nat, dirty: bool)

  /** `itable[n]` is the disk record of inode n.  `free` is the free chain from its end to its head and
      `openAt` the slot of every open inode: both are determined by the rest. */
  datatype Vol = Vol(nblocks: nat, ninodes: nat, blocks: seq<Block>, itable: seq<Record>,
                           icache: seq<Slot>, freeList: u16, free: seq<u16>, openAt: map<nat, nat>)

  /** Where a block number can be stored. */
  datatype Place = Free(k: nat) | Direct(inum: nat, i: nat) | Indirect(inum: nat) | Entry(inum: nat, i: nat)

  type Owner = map<u16, Place>

  // ----- bytes of a block

  /** The i-th big-endian 16-bit word of a block. */
  function Pointer(b: Block, i: nat): u16
    requires i < PTRS_PER_BLK
  {
    var hi: int := b[2 * i];
    var lo: int := b[2 * i + 1];
    hi * 256 + lo
  }

  function SetPointer(b: Block, i: nat, p: u16): Block
    requires i < PTRS_PER_BLK
  {
    b[2 * i := p / 256][2 * i + 1 := p % 256]
  }

  function ZeroBlock(): Block {
    seq(1024, (i: nat) => 0 as byte)
  }

  /** What bfree() writes: the number of the next free block, then zeros. */
  function FreeBlock(next: u16): Block {
    SetPointer(ZeroBlock(), 0, next)
  }

  lemma SetPointerGet(b: Block, i: nat, p: u16, j: nat)
    requires i < PTRS_PER_BLK && j < PTRS_PER_BLK
    ensures Pointer(SetPointer(b, i, p), j) == if i == j then p else Pointer(b, j)
  {
  }

  lemma SetPointerSame(b: Block, i: nat)
    requires i < PTRS_PER_BLK
    ensures SetPointer(b, i, Pointer(b, i)) == b
  {
  }

  // ----- reading the state

  function DataStart(v: Vol): nat {
    1 + (v.ninodes + 20) / 21
  }

  predicate InData(v: Vol, b: u16) {
    DataStart(v) <= b < v.nblocks
  }

  predicate IsInode(v: Vol, n: nat) {
    1 <= n <= v.ninodes
  }

  predicate Shape(v: Vol) {
    && 0 < v.nblocks == |v.blocks| <= 65535 && |v.itable| == v.ninodes + 1 && |v.icache| == MAXINODE
    && (forall n :: n in v.openAt ==> IsInode(v, n) && v.openAt[n] < MAXINODE)
  }

  /** An open inode is its cached copy, any other inode its disk record. */
  function Rec(v: Vol, n: nat): Record
    requires Shape(v) && IsInode(v, n)
  {
    if n in v.openAt then v.icache[v.openAt[n]].rec else v.itable[n]
  }

  /** The block number stored at a place, or 0. */
  function At(v: Vol, p: Place): u16
    requires Shape(v)
  {
    match p
    case Free(k) => if k < |v.free| then v.free[k] else 0
    case Direct(n, i) => if IsInode(v, n) && i < NDIRECT then Rec(v, n).direct[i] else 0
    case Indirect(n) => if IsInode(v, n) then Rec(v, n).indirect else 0
    case Entry(n, i) =>
      if IsInode(v, n) && i < PTRS_PER_BLK && 0 < Rec(v, n).indirect < v.nblocks
      then Pointer(v.blocks[Rec(v, n).indirect], i) else 0
  }

  /** The k-th block of the chain points at the one before it. */
  predicate Link(v: Vol, k: nat)
    requires Shape(v) && k < |v.free|
  {
    InData(v, v.free[k]) && Pointer(v.blocks[v.free[k]], 0) == if k == 0 then 0 else v.free[k - 1]
  }

  predicate Chained(v: Vol)
    requires Shape(v)
  {
    && v.freeList == (if v.free == [] then 0 else v.free[|v.free| - 1])
    && forall k :: 0 <= k < |v.free| ==> Link(v, k)
  }

  /** No block is in two places, every block in a place is a data block, and `owner` lists them. */
  ghost predicate Owned(v: Vol, owner: Owner)
    requires Shape(v)
  {
    && (forall b :: b in owner ==> InData(v, b) && At(v, owner[b]) == b)
    && (forall p :: At(v, p) != 0 ==> At(v, p) in owner && owner[At(v, p)] == p)
  }

  /** The head of the chain is a block of the device. */
  predicate Headed(v: Vol) {
    Shape(v) && v.freeList < v.nblocks
  }

  ghost predicate Inv(v: Vol, owner: Owner) {
    Shape(v) && Chained(v) && Owned(v, owner)
  }

  // ----- the block-level steps

  /** balloc(): the head of the chain is taken off it. */
  function Popped(v: Vol): Vol
    requires Headed(v)
  {
    v.(freeList := Pointer(v.blocks[v.freeList], 0), free := if v.free == [] then [] else v.free[..|v.free| - 1])
  }

  lemma PopKeeps(v: Vol, owner: Owner)
    requires Inv(v, owner) && v.freeList != 0
    ensures Headed(v) && Inv(Popped(v), owner - {v.freeList})
    ensures v.freeList in owner && owner[v.freeList] == Free(|v.free| - 1)
    ensures forall p :: At(Popped(v), p) == if p == Free(|v.free| - 1) then 0 else At(v, p)
  {
    var last := |v.free| - 1;
    assert Link(v, last);
    assert At(v, Free(last)) == v.freeList;
    var w := Popped(v);
    assert Shape(w);
    assert v.freeList == v.free[last];
    assert Link(v, last);
    forall k | 0 <= k < |w.free|
      ensures Link(w, k)
    {
      assert Link(v, k);
    }
    forall p
      ensures At(w, p) == if p == Free(last) then 0 else At(v, p)
    {
    }
    forall b | b in owner - {v.freeList}
      ensures InData(w, b) && At(w, owner[b]) == b
    {
      assert owner[b] != Free(last);
    }
  }

  /** bfree(): the block becomes the head of the chain. */
  function Pushed(v: Vol, b: u16): Vol
    requires Shape(v) && InData(v, b)
  {
    v.(blocks := v.blocks[b := FreeBlock(v.freeList)], freeList := b, free := v.free + [b])
  }

  lemma PushKeeps(v: Vol, owner: Owner, b: u16)
    requires Inv(v, owner) && InData(v, b) && b !in owner
    ensures Inv(Pushed(v, b), owner[b := Free(|v.free|)])
    ensures forall p :: At(Pushed(v, b), p) == if p == Free(|v.free|) then b else At(v, p)
  {
    var w := Pushed(v, b);
    SetPointerGet(ZeroBlock(), 0, v.freeList, 0);
    forall p
      ensures At(w, p) == if p == Free(|v.free|) then b else At(v, p)
    {
      if p.Entry? && IsInode(v, p.inum) {
        assert At(v, Indirect(p.inum)) != b;
      }
    }
    forall k | 0 <= k < |w.free|
      ensures Link(w, k)
    {
      if k < |v.free| {
        assert Link(v, k) && At(v, Free(k)) == v.free[k];
      }
    }
  }

  /** A cached inode is changed in place and marked dirty. */
  function WithRec(v: Vol, slot: nat, rec: Record): Vol
    requires Shape(v) && slot < MAXINODE
  {
    v.(icache := v.icache[slot := v.icache[slot].(rec := rec, dirty := true)])
  }

  predicate Opened(v: Vol, n: nat, slot: nat) {
    n in v.openAt && v.openAt[n] == slot
  }

  /** Slots belong to one inode each. */
  predicate OneSlotEach(v: Vol) {
    forall n, m :: n in v.openAt && m in v.openAt && n != m ==> v.openAt[n] != v.openAt[m]
  }

  /** A place that held nothing now holds a block that no place held. */
  lemma AttachKeeps(v: Vol, w: Vol, owner: Owner, b: u16, place: Place)
    requires Inv(v, owner) && InData(v, b) && b !in owner
    requires Shape(w) && Chained(w) && w.nblocks == v.nblocks && w.ninodes == v.ninodes
    requires At(v, place) == 0
    requires forall p :: At(w, p) == if p == place then b else At(v, p)
    ensures Inv(w, owner[b := place])
  {
  }

  lemma SameChain(v: Vol, w: Vol)
    requires Shape(v) && Chained(v) && Shape(w)
    requires w.nblocks == v.nblocks && w.ninodes == v.ninodes && w.free == v.free && w.freeList == v.freeList
    requires forall k :: 0 <= k < |v.free| && InData(v, v.free[k]) ==> w.blocks[v.free[k]] == v.blocks[v.free[k]]
    ensures Chained(w)
  {
    forall k | 0 <= k < |w.free|
      ensures Link(w, k)
    {
      assert Link(v, k);
    }
  }

  lemma AttachDirect(v: Vol, owner: Owner, n: nat, slot: nat, i: nat, b: u16)
    requires Inv(v, owner) && OneSlotEach(v) && Opened(v, n, slot) && i < NDIRECT
    requires InData(v, b) && b !in owner && Rec(v, n).direct[i] == 0
    ensures var w := WithRec(v, slot, Rec(v, n).(direct := Rec(v, n).direct[i := b]));
            && Inv(w, owner[b := Direct(n, i)])
            && forall p :: At(w, p) == if p == Direct(n, i) then b else At(v, p)
  {
    var w := WithRec(v, slot, Rec(v, n).(direct := Rec(v, n).direct[i := b]));
    SameChain(v, w);
    AttachKeeps(v, w, owner, b, Direct(n, i));
  }

  /** The new indirect block is zeroed, so it maps nothing yet. */
  lemma AttachIndirect(v: Vol, owner: Owner, n: nat, slot: nat, b: u16)
    requires Inv(v, owner) && OneSlotEach(v) && Opened(v, n, slot)
    requires InData(v, b) && b !in owner && Rec(v, n).indirect == 0
    ensures var w := WithRec(v, slot, Rec(v, n).(indirect := b)).(blocks := v.blocks[b := ZeroBlock()]);
            && Inv(w, owner[b := Indirect(n)])
            && forall p :: At(w, p) == if p == Indirect(n) then b else At(v, p)
  {
    var w := WithRec(v, slot, Rec(v, n).(indirect := b)).(blocks := v.blocks[b := ZeroBlock()]);
    forall k | 0 <= k < |v.free| && InData(v, v.free[k])
      ensures w.blocks[v.free[k]] == v.blocks[v.free[k]]
    {
      assert At(v, Free(k)) == v.free[k];
    }
    SameChain(v, w);
    forall p
      ensures At(w, p) == if p == Indirect(n) then b else At(v, p)
    {
      if p.Entry? && IsInode(v, p.inum) {
        assert At(v, Indirect(p.inum)) != b;
      }
    }
    AttachKeeps(v, w, owner, b, Indirect(n));
  }

  lemma AttachEntry(v: Vol, owner: Owner, n: nat, i: nat, b: u16)
    requires Inv(v, owner) && IsInode(v, n) && i < PTRS_PER_BLK
    requires InData(v, b) && b !in owner && 0 < Rec(v, n).indirect < v.nblocks && At(v, Entry(n, i)) == 0
    ensures var ib := Rec(v, n).indirect;
            var w := v.(blocks := v.blocks[ib := SetPointer(v.blocks[ib], i, b)]);
            && Inv(w, owner[b := Entry(n, i)])
            && forall p :: At(w, p) == if p == Entry(n, i) then b else At(v, p)
  {
    var ib := Rec(v, n).indirect;
    var w := v.(blocks := v.blocks[ib := SetPointer(v.blocks[ib], i, b)]);
    assert At(v, Indirect(n)) == ib;
    forall k | 0 <= k < |v.free| && InData(v, v.free[k])
      ensures w.blocks[v.free[k]] == v.blocks[v.free[k]]
    {
      assert At(v, Free(k)) == v.free[k];
    }
    SameChain(v, w);
    forall p
      ensures At(w, p) == if p == Entry(n, i) then b else At(v, p)
    {
      if p.Entry? && IsInode(v, p.inum) && p.i < PTRS_PER_BLK {
        assert At(v, Indirect(p.inum)) == Rec(v, p.inum).indirect;
        SetPointerGet(v.blocks[ib], i, b, p.i);
      }
    }
    AttachKeeps(v, w, owner, b, Entry(n, i));
  }

  // ----- the inode cache

  ghost predicate NoBlocks(rec: Record) {
    rec.indirect == 0 && forall i :: 0 <= i < NDIRECT ==> rec.direct[i] == 0
  }

  /** A slot nobody refers to has nothing left to write back or to reclaim. */
  predicate Idle(s: Slot) {
    s.refcount == 0 ==> !s.dirty && (s.rec.nlink != 0 || s.rec.ftype == FT_FREE)
  }

  /** The slot of an open inode: in use, allocated, and equal to the disk record unless dirty. */
  predicate OpenSlot(v: Vol, n: nat)
    requires Shape(v) && n in v.openAt
  {
    var s := v.icache[v.openAt[n]];
    && s.inum == n && s.refcount > 0 && s.rec.ftype != FT_FREE && v.itable[n].ftype != FT_FREE
    && (s.dirty || s.rec == v.itable[n])
  }

  ghost predicate Cached(v: Vol)
    requires Shape(v)
  {
    && (forall i :: 0 <= i < MAXINODE ==>
          (v.icache[i].refcount > 0 ==> Opened(v, v.icache[i].inum, i)) && Idle(v.icache[i]))
    && (forall n :: n in v.openAt ==> OpenSlot(v, n))
    && (forall n: nat :: IsInode(v, n) && v.itable[n].ftype == FT_FREE ==> NoBlocks(v.itable[n]))
  }

  // ----- file contents

  function PlaceOf(n: nat, bn: nat): Place {
    if bn < NDIRECT then Direct(n, bn) else Entry(n, bn - NDIRECT)
  }

  /** The block that holds the bn-th block of a file, or 0. */
  function BlockOf(v: Vol, n: nat, bn: nat): u16
    requires Shape(v)
  {
    if bn < MAX_FILE_BLOCKS then At(v, PlaceOf(n, bn)) else 0
  }

  function Data(v: Vol, n: nat, bn: nat): Block
    requires Shape(v)
  {
    var b := BlockOf(v, n, bn);
    if 0 < b < v.nblocks then v.blocks[b] else ZeroBlock()
  }

  /** Every block that was mapped is still mapped to the same block with the same bytes. */
  ghost predicate Preserved(v: Vol, w: Vol)
    requires Shape(v) && Shape(w)
  {
    forall n: nat, bn: nat :: BlockOf(v, n, bn) != 0 ==>
      BlockOf(w, n, bn) == BlockOf(v, n, bn) && Data(w, n, bn) == Data(v, n, bn)
  }

  /** Writing a data block changes one block of one file and nothing else. */
  lemma DataWriteKeeps(v: Vol, owner: Owner, n: nat, bn: nat, d: Block)
    requires Inv(v, owner) && BlockOf(v, n, bn) != 0
    ensures var w := v.(blocks := v.blocks[BlockOf(v, n, bn) := d]);
            && Inv(w, owner)
            && (forall p :: At(w, p) == At(v, p))
            && (forall m: nat, k: nat :: BlockOf(v, m, k) != 0 ==>
                Data(w, m, k) == if m == n && k == bn then d else Data(v, m, k))
  {
    hide Chained;
    var b := BlockOf(v, n, bn);
    var w := v.(blocks := v.blocks[b := d]);
    assert At(v, PlaceOf(n, bn)) == b;
    forall k | 0 <= k < |v.free| && InData(v, v.free[k])
      ensures w.blocks[v.free[k]] == v.blocks[v.free[k]]
    {
      assert At(v, Free(k)) == v.free[k];
    }
    SameChain(v, w);
    forall p
      ensures At(w, p) == At(v, p)
    {
      if p.Entry? && IsInode(v, p.inum) {
        assert At(v, Indirect(p.inum)) == Rec(v, p.inum).indirect;
      }
    }
    forall m: nat, k: nat | BlockOf(v, m, k) != 0
      ensures BlockOf(w, m, k) == BlockOf(v, m, k)
      ensures Data(w, m, k) == if m == n && k == bn then d else Data(v, m, k)
    {
      assert At(v, PlaceOf(m, k)) == BlockOf(v, m, k);
    }
  }

  // ----- bmap

  /** Only the bn-th block of inode n can have become mapped. */
  ghost predicate OnlyMaps(v: Vol, w: Vol, n: nat, bn: nat)
    requires Shape(v) && Shape(w)
  {
    forall m: nat, k: nat :: m != n || k != bn ==> BlockOf(w, m, k) == BlockOf(v, m, k)
  }

  /** Nothing in the cache changed but the block numbers of one slot, which is then dirty. */
  ghost predicate OnlyPointers(v: Vol, w: Vol, slot: nat)
    requires Shape(v) && Shape(w) && slot < MAXINODE
  {
    var s, t := v.icache[slot], w.icache[slot];
    && w.nblocks == v.nblocks && w.ninodes == v.ninodes && w.itable == v.itable && w.openAt == v.openAt
    && w.icache == v.icache[slot := t] && t.inum == s.inum && t.refcount == s.refcount && (t.dirty || t == s)
    && t.rec == s.rec.(direct := t.rec.direct, indirect := t.rec.indirect)
  }

  ghost predicate HeldIn(v: Vol, slot: nat) {
    Shape(v) && slot < MAXINODE && v.icache[slot].refcount > 0
  }

  /** What bmap(ip, off, alloc) does, where ip is in `slot` and off lies in block `bn`. */
  ghost predicate BmapSpec(v: Vol, w: Vol, slot: nat, bn: nat, alloc: bool, r: u16)
    requires HeldIn(v, slot)
  {
    var n := v.icache[slot].inum;
    && Shape(w) && r == BlockOf(w, n, bn)
    && (!alloc ==> w == v)
    && OnlyMaps(v, w, n, bn) && Preserved(v, w) && OnlyPointers(v, w, slot)
    && (r == 0 && alloc ==> w.freeList == 0 || bn >= MAX_FILE_BLOCKS)
  }

  lemma OpenFacts(v: Vol, slot: nat)
    requires HeldIn(v, slot) && Cached(v)
    ensures var n := v.icache[slot].inum;
            Opened(v, n, slot) && OpenSlot(v, n) && OneSlotEach(v) && IsInode(v, n) && Rec(v, n) == v.icache[slot].rec
  {
    assert Opened(v, v.icache[slot].inum, slot);
    forall n, m | n in v.openAt && m in v.openAt && n != m
      ensures v.openAt[n] != v.openAt[m]
    {
      assert OpenSlot(v, n) && OpenSlot(v, m);
    }
  }

  /** Only one open inode changed, and it is still open, allocated, and dirty or written back. */
  lemma CachedKeeps(v: Vol, w: Vol, n: nat, slot: nat)
    requires HeldIn(v, slot) && Cached(v) && OneSlotEach(v) && Opened(v, n, slot)
    requires Shape(w) && w.ninodes == v.ninodes && w.openAt == v.openAt && OpenSlot(w, n)
    requires w.icache == v.icache[slot := w.icache[slot]]
    requires forall m: nat :: m < |v.itable| && m != n ==> w.itable[m] == v.itable[m]
    ensures Cached(w)
  {
    forall i | 0 <= i < MAXINODE
      ensures (w.icache[i].refcount > 0 ==> Opened(w, w.icache[i].inum, i)) && Idle(w.icache[i])
    {
      assert (v.icache[i].refcount > 0 ==> Opened(v, v.icache[i].inum, i)) && Idle(v.icache[i]);
    }
    forall n | n in w.openAt
      ensures OpenSlot(w, n)
    {
      assert OpenSlot(v, n);
    }
  }

  lemma CachedAfterPointers(v: Vol, w: Vol, slot: nat)
    requires HeldIn(v, slot) && Cached(v) && Shape(w) && OnlyPointers(v, w, slot)
    ensures Cached(w)
  {
    OpenFacts(v, slot);
    CachedKeeps(v, w, v.icache[slot].inum, slot);
  }

  /** The direct pointer is filled in with the head of the free chain. */
  function MapDirect(v: Vol, slot: nat, bn: nat, b: u16): Vol
    requires Shape(v) && slot < MAXINODE && bn < NDIRECT
  {
    var rec := v.icache[slot].rec;
    WithRec(v, slot, rec.(direct := rec.direct[bn := b]))
  }

  lemma MapDirectSpec(v: Vol, owner: Owner, slot: nat, bn: nat)
    requires Inv(v, owner) && HeldIn(v, slot) && Cached(v) && bn < NDIRECT
    requires v.freeList != 0 && v.icache[slot].rec.direct[bn] == 0
    ensures Headed(v)
    ensures var b := v.freeList;
            var w := MapDirect(Popped(v), slot, bn, b);
            && Inv(w, (owner - {b})[b := Direct(v.icache[slot].inum, bn)])
            && Cached(w) && BmapSpec(v, w, slot, bn, true, b)
  {
    hide Chained, Cached;
    var n, b := v.icache[slot].inum, v.freeList;
    PopKeeps(v, owner);
    var u := Popped(v);
    var w := MapDirect(u, slot, bn, b);
    OpenFacts(v, slot);
    AttachDirect(u, owner - {b}, n, slot, bn, b);
    CachedAfterPointers(v, w, slot);
    forall m: nat, k: nat | m != n || k != bn
      ensures BlockOf(w, m, k) == BlockOf(v, m, k)
    {
      if k < MAX_FILE_BLOCKS {
        assert At(w, PlaceOf(m, k)) == At(u, PlaceOf(m, k)) == At(v, PlaceOf(m, k));
      }
    }
    assert At(v, PlaceOf(n, bn)) == 0;
  }

  lemma DirtyPlaces(v: Vol, slot: nat)
    requires HeldIn(v, slot) && Cached(v)
    ensures forall p :: At(WithRec(v, slot, v.icache[slot].rec), p) == At(v, p)
  {
    OpenFacts(v, slot);
  }

  /** Marking an inode dirty changes no block. */
  lemma DirtyKeeps(v: Vol, owner: Owner, slot: nat)
    requires Inv(v, owner) && HeldIn(v, slot) && Cached(v)
    ensures var w := WithRec(v, slot, v.icache[slot].rec);
            && Inv(w, owner) && Cached(w) && OnlyPointers(v, w, slot) && (forall p :: At(w, p) == At(v, p))
            && Preserved(v, w) && forall m: nat, k: nat :: BlockOf(w, m, k) == BlockOf(v, m, k)
  {
    hide Chained, Cached, At;
    var w := WithRec(v, slot, v.icache[slot].rec);
    OpenFacts(v, slot);
    SameChain(v, w);
    CachedAfterPointers(v, w, slot);
    DirtyPlaces(v, slot);
  }

  /** A zeroed block from the head of the chain becomes the indirect block. */
  function MapIndirect(v: Vol, slot: nat, b: u16): Vol
    requires Shape(v) && slot < MAXINODE && b < v.nblocks
  {
    WithRec(v, slot, v.icache[slot].rec.(indirect := b)).(blocks := v.blocks[b := ZeroBlock()])
  }

  lemma MapIndirectSpec(v: Vol, owner: Owner, slot: nat)
    requires Inv(v, owner) && HeldIn(v, slot) && Cached(v)
    requires v.freeList != 0 && v.icache[slot].rec.indirect == 0
    ensures Headed(v)
    ensures var b := v.freeList;
            var w := MapIndirect(Popped(v), slot, b);
            && Inv(w, (owner - {b})[b := Indirect(v.icache[slot].inum)])
            && Cached(w) && OnlyPointers(v, w, slot) && Preserved(v, w)
            && forall m: nat, k: nat :: BlockOf(w, m, k) == BlockOf(v, m, k)
  {
    hide Chained, Cached;
    var n, b := v.icache[slot].inum, v.freeList;
    PopKeeps(v, owner);
    var u := Popped(v);
    var w := MapIndirect(u, slot, b);
    OpenFacts(v, slot);
    AttachIndirect(u, owner - {b}, n, slot, b);
    CachedAfterPointers(v, w, slot);
    forall m: nat, k: nat
      ensures BlockOf(w, m, k) == BlockOf(v, m, k)
    {
      if k < MAX_FILE_BLOCKS {
        assert At(w, PlaceOf(m, k)) == At(u, PlaceOf(m, k)) == At(v, PlaceOf(m, k));
      }
    }
    forall m: nat, k: nat | BlockOf(v, m, k) != 0
      ensures Data(w, m, k) == Data(v, m, k)
    {
      assert At(v, PlaceOf(m, k)) == BlockOf(v, m, k) != b by {
        assert owner[b] == Free(|v.free| - 1);
      }
    }
  }

  /** An entry of the indirect block is filled in. */
  function MapEntry(v: Vol, ib: u16, i: nat, b: u16): Vol
    requires Shape(v) && ib < v.nblocks && i < PTRS_PER_BLK
  {
    v.(blocks := v.blocks[ib := SetPointer(v.blocks[ib], i, b)])
  }

  lemma IndirectInData(v: Vol, owner: Owner, slot: nat)
    requires Inv(v, owner) && HeldIn(v, slot) && Cached(v) && v.icache[slot].rec.indirect != 0
    ensures InData(v, v.icache[slot].rec.indirect)
    ensures At(v, Indirect(v.icache[slot].inum)) == v.icache[slot].rec.indirect
    ensures forall i :: 0 <= i < PTRS_PER_BLK ==>
              At(v, Entry(v.icache[slot].inum, i)) == Pointer(v.blocks[v.icache[slot].rec.indirect], i)
  {
    OpenFacts(v, slot);
    assert At(v, Indirect(v.icache[slot].inum)) == v.icache[slot].rec.indirect;
  }

  lemma MapEntrySpec(v: Vol, owner: Owner, slot: nat, i: nat)
    requires Inv(v, owner) && HeldIn(v, slot) && Cached(v) && i < PTRS_PER_BLK
    requires v.freeList != 0 && 0 < v.icache[slot].rec.indirect < v.nblocks
    requires Pointer(v.blocks[v.icache[slot].rec.indirect], i) == 0
    ensures Headed(v)
    ensures var b := v.freeList;
            var w := MapEntry(Popped(v), v.icache[slot].rec.indirect, i, b);
            && Inv(w, (owner - {b})[b := Entry(v.icache[slot].inum, i)])
            && Cached(w) && BmapSpec(v, w, slot, i + NDIRECT, true, b)
  {
    hide Chained, Cached, At;
    var n, b, ib := v.icache[slot].inum, v.freeList, v.icache[slot].rec.indirect;
    PopKeeps(v, owner);
    var u := Popped(v);
    var w := MapEntry(u, ib, i, b);
    OpenFacts(v, slot);
    IndirectInData(v, owner, slot);
    AttachEntry(u, owner - {b}, n, i, b);
    CachedAfterPointers(v, w, slot);
    forall m: nat, k: nat | m != n || k != i + NDIRECT
      ensures BlockOf(w, m, k) == BlockOf(v, m, k)
    {
      if k < MAX_FILE_BLOCKS {
        assert At(w, PlaceOf(m, k)) == At(u, PlaceOf(m, k)) == At(v, PlaceOf(m, k));
      }
    }
    assert At(v, PlaceOf(n, i + NDIRECT)) == 0;
    forall m: nat, k: nat | BlockOf(v, m, k) != 0
      ensures Data(w, m, k) == Data(v, m, k)
    {
      assert At(v, PlaceOf(m, k)) == BlockOf(v, m, k) != ib;
    }
  }

  lemma BmapTrans(v: Vol, u: Vol, w: Vol, slot: nat, bn: nat, r: u16)
    requires HeldIn(v, slot) && Shape(u) && OnlyPointers(v, u, slot) && Preserved(v, u)
    requires forall m: nat, k: nat :: BlockOf(u, m, k) == BlockOf(v, m, k)
    requires HeldIn(u, slot) && BmapSpec(u, w, slot, bn, true, r)
    ensures BmapSpec(v, w, slot, bn, true, r)
  {
  }

  // ----- bmap as a step on the whole volume

  /** Ownership is kept, no block is lost or gained, and bmap() has done its work. */
  ghost predicate BmapKept(v: Vol, owner: Owner, w: Vol, owner': Owner, slot: nat, bn: nat, alloc: bool, r: u16)
    requires HeldIn(v, slot)
  {
    Inv(w, owner') && Cached(w) && owner'.Keys == owner.Keys && BmapSpec(v, w, slot, bn, alloc, r)
  }

  /** bmap() on a direct block. */
  function DirectStep(v: Vol, slot: nat, bn: nat, alloc: bool): Vol
    requires Headed(v) && slot < MAXINODE && bn < NDIRECT
  {
    if v.icache[slot].rec.direct[bn] != 0 || !alloc then v
    else if v.freeList == 0 then MapDirect(v, slot, bn, 0)
    else MapDirect(Popped(v), slot, bn, v.freeList)
  }

  function OwnerAfter(v: Vol, w: Vol, owner: Owner, place: Place): Owner {
    if w.freeList == v.freeList then owner else (owner - {v.freeList})[v.freeList := place]
  }

  lemma DirectStepKeeps(v: Vol, owner: Owner, slot: nat, bn: nat, alloc: bool)
    requires Inv(v, owner) && HeldIn(v, slot) && Cached(v) && bn < NDIRECT
    ensures Headed(v)
    ensures var w := DirectStep(v, slot, bn, alloc);
            var owner' := OwnerAfter(v, w, owner, Direct(v.icache[slot].inum, bn));
            BmapKept(v, owner, w, owner', slot, bn, alloc, w.icache[slot].rec.direct[bn])
  {
    hide Chained, Owned, Cached;
    OpenFacts(v, slot);
    HeadInData(v);
    if v.icache[slot].rec.direct[bn] == 0 && alloc {
      if v.freeList == 0 {
        var rec := v.icache[slot].rec;
        assert rec.direct[bn := 0] == rec.direct;
        DirtyKeeps(v, owner, slot);
      } else {
        PopKeeps(v, owner);
        MapDirectSpec(v, owner, slot, bn);
        ChainAcyclic(v, owner);
      }
    }
  }

  lemma HeadInData(v: Vol)
    requires Shape(v) && Chained(v)
    ensures Headed(v) && (v.freeList != 0 ==> v.free != [] && InData(v, v.freeList))
  {
    if v.free != [] {
      assert Link(v, |v.free| - 1);
    }
  }

  /** The block after the head of the chain is not the head. */
  lemma ChainAcyclic(v: Vol, owner: Owner)
    requires Inv(v, owner) && v.freeList != 0 && Headed(v)
    ensures Popped(v).freeList != v.freeList
  {
    var last := |v.free| - 1;
    assert Link(v, last);
    assert At(v, Free(last)) == v.freeList;
    if last > 0 {
      assert At(v, Free(last - 1)) == v.free[last - 1];
    }
  }

  /** The indirect block of a file, allocated when it is needed. */
  function AllocIndirectStep(v: Vol, slot: nat, alloc: bool): Vol
    requires Headed(v) && slot < MAXINODE
  {
    if v.icache[slot].rec.indirect != 0 || !alloc || v.freeList == 0 then v
    else MapIndirect(Popped(v), slot, v.freeList)
  }

  /** bmap() on entry `i` of an indirect block. */
  function EntryStep(v: Vol, slot: nat, i: nat, alloc: bool): Vol
    requires Headed(v) && slot < MAXINODE && i < PTRS_PER_BLK && v.icache[slot].rec.indirect < v.nblocks
  {
    var ib := v.icache[slot].rec.indirect;
    if ib == 0 || Pointer(v.blocks[ib], i) != 0 || !alloc || v.freeList == 0 then v
    else MapEntry(Popped(v), ib, i, v.freeList)
  }

  lemma AllocIndirectKeeps(v: Vol, owner: Owner, slot: nat, alloc: bool)
    requires Inv(v, owner) && HeldIn(v, slot) && Cached(v)
    ensures Headed(v)
    ensures var w := AllocIndirectStep(v, slot, alloc);
            var owner' := OwnerAfter(v, w, owner, Indirect(v.icache[slot].inum));
            && Inv(w, owner') && Cached(w) && owner'.Keys == owner.Keys
            && OnlyPointers(v, w, slot) && Preserved(v, w)
            && (forall m: nat, k: nat :: BlockOf(w, m, k) == BlockOf(v, m, k))
            && (w.icache[slot].rec.indirect == 0 ==> w == v && (!alloc || v.freeList == 0))
            && w.icache[slot].rec.indirect < w.nblocks
  {
    OpenFacts(v, slot);
    HeadInData(v);
    var n := v.icache[slot].inum;
    assert At(v, Indirect(n)) == v.icache[slot].rec.indirect;
    if v.icache[slot].rec.indirect == 0 && alloc && v.freeList != 0 {
      PopKeeps(v, owner);
      MapIndirectSpec(v, owner, slot);
      ChainAcyclic(v, owner);
    }
  }

  lemma EntryStepKeeps(v: Vol, owner: Owner, slot: nat, i: nat, alloc: bool)
    requires Inv(v, owner) && HeldIn(v, slot) && Cached(v) && i < PTRS_PER_BLK
    ensures Headed(v) && v.icache[slot].rec.indirect < v.nblocks
    ensures var w := EntryStep(v, slot, i, alloc);
            var ib := v.icache[slot].rec.indirect;
            var owner' := OwnerAfter(v, w, owner, Entry(v.icache[slot].inum, i));
            && Inv(w, owner') && Cached(w) && owner'.Keys == owner.Keys
            && (ib != 0 ==> BmapSpec(v, w, slot, i + NDIRECT, alloc, Pointer(w.blocks[ib], i)))
  {
    OpenFacts(v, slot);
    HeadInData(v);
    var ib := v.icache[slot].rec.indirect;
    assert At(v, Indirect(v.icache[slot].inum)) == ib;
    if ib != 0 {
      IndirectInData(v, owner, slot);
      if Pointer(v.blocks[ib], i) == 0 && alloc && v.freeList != 0 {
        PopKeeps(v, owner);
        MapEntrySpec(v, owner, slot, i);
        ChainAcyclic(v, owner);
        EntryFilled(v, ib, i);
      }
    }
  }

  lemma EntryFilled(v: Vol, ib: u16, i: nat)
    requires Headed(v) && 0 < ib < v.nblocks && i < PTRS_PER_BLK
    ensures Pointer(MapEntry(Popped(v), ib, i, v.freeList).blocks[ib], i) == v.freeList
  {
    SetPointerGet(v.blocks[ib], i, v.freeList, i);
  }

  /** Both steps of bmap() on a block behind the indirect block. */
  lemma IndirectStepsKeep(v: Vol, owner: Owner, slot: nat, i: nat, alloc: bool)
    requires Inv(v, owner) && HeldIn(v, slot) && Cached(v) && i < PTRS_PER_BLK
    ensures Headed(v)
    ensures var u := AllocIndirectStep(v, slot, alloc);
            Headed(u) && u.icache[slot].rec.indirect < u.nblocks
    ensures var n := v.icache[slot].inum;
            var u := AllocIndirectStep(v, slot, alloc);
            var w := EntryStep(u, slot, i, alloc);
            var ib := u.icache[slot].rec.indirect;
            var owner' := OwnerAfter(u, w, OwnerAfter(v, u, owner, Indirect(n)), Entry(n, i));
            BmapKept(v, owner, w, owner', slot, i + NDIRECT, alloc, if ib == 0 then 0 else Pointer(w.blocks[ib], i))
  {
    hide Chained, Owned, Cached;
    var n := v.icache[slot].inum;
    AllocIndirectKeeps(v, owner, slot, alloc);
    var u := AllocIndirectStep(v, slot, alloc);
    EntryStepKeeps(u, OwnerAfter(v, u, owner, Indirect(n)), slot, i, alloc);
    if u.icache[slot].rec.indirect == 0 {
      OpenFacts(v, slot);
    } else if alloc {
      var w := EntryStep(u, slot, i, alloc);
      BmapTrans(v, u, w, slot, i + NDIRECT, Pointer(w.blocks[u.icache[slot].rec.indirect], i));
    }
  }

  /** The volume after bmap(). */
  function BmapStep(v: Vol, slot: nat, bn: nat, alloc: bool): Vol
    requires Headed(v) && slot < MAXINODE
  {
    if bn < NDIRECT then DirectStep(v, slot, bn, alloc)
    else if bn < MAX_FILE_BLOCKS then
      var u := AllocIndirectStep(v, slot, alloc);
      if Headed(u) && u.icache[slot].rec.indirect < u.nblocks then EntryStep(u, slot, bn - NDIRECT, alloc) else v
    else v
  }

  /** The block number bmap() returns, read off the volume it leaves. */
  function BmapResult(w: Vol, slot: nat, bn: nat): u16
    requires Shape(w) && slot < MAXINODE
  {
    var rec := w.icache[slot].rec;
    if bn < NDIRECT then rec.direct[bn]
    else if bn < MAX_FILE_BLOCKS && 0 < rec.indirect < w.nblocks then Pointer(w.blocks[rec.indirect], bn - NDIRECT)
    else 0
  }

  function BmapOwner(v: Vol, owner: Owner, slot: nat, bn: nat, alloc: bool): Owner
    requires Headed(v) && slot < MAXINODE
  {
    var n, w := v.icache[slot].inum, BmapStep(v, slot, bn, alloc);
    if bn < NDIRECT then OwnerAfter(v, w, owner, Direct(n, bn))
    else if bn < MAX_FILE_BLOCKS then
      var u := AllocIndirectStep(v, slot, alloc);
      OwnerAfter(u, w, OwnerAfter(v, u, owner, Indirect(n)), Entry(n, bn - NDIRECT))
    else owner
  }

  lemma IndirectResult(v: Vol, slot: nat, i: nat, alloc: bool)
    requires Headed(v) && slot < MAXINODE && i < PTRS_PER_BLK && v.icache[slot].rec.indirect < v.nblocks
    ensures var w := EntryStep(v, slot, i, alloc);
            var ib := v.icache[slot].rec.indirect;
            Shape(w) && BmapResult(w, slot, i + NDIRECT) == if ib == 0 then 0 else Pointer(w.blocks[ib], i)
  {
  }

  ghost predicate BmapStepKept(v: Vol, owner: Owner, slot: nat, bn: nat, alloc: bool)
    requires HeldIn(v, slot)
  {
    && Headed(v)
    && (NDIRECT <= bn < MAX_FILE_BLOCKS ==>
          var u := AllocIndirectStep(v, slot, alloc);
          Headed(u) && u.icache[slot].rec.indirect < u.nblocks)
    && var w := BmapStep(v, slot, bn, alloc);
       Shape(w) && BmapKept(v, owner, w, BmapOwner(v, owner, slot, bn, alloc), slot, bn, alloc, BmapResult(w, slot, bn))
  }

  lemma BmapKeepsDirect(v: Vol, owner: Owner, slot: nat, bn: nat, alloc: bool)
    requires Inv(v, owner) && HeldIn(v, slot) && Cached(v) && bn < NDIRECT
    ensures BmapStepKept(v, owner, slot, bn, alloc)
  {
    DirectStepKeeps(v, owner, slot, bn, alloc);
  }

  lemma BmapKeepsIndirect(v: Vol, owner: Owner, slot: nat, bn: nat, alloc: bool)
    requires Inv(v, owner) && HeldIn(v, slot) && Cached(v) && NDIRECT <= bn < MAX_FILE_BLOCKS
    ensures BmapStepKept(v, owner, slot, bn, alloc)
  {
    IndirectStepsKeep(v, owner, slot, bn - NDIRECT, alloc);
    IndirectResult(AllocIndirectStep(v, slot, alloc), slot, bn - NDIRECT, alloc);
  }

  /** bmap() keeps block ownership, loses no block, maps at most the block asked for, and leaves the
      bytes of every mapped block alone; it fails only when the volume is full or the file too large. */
  lemma BmapKeeps(v: Vol, owner: Owner, slot: nat, bn: nat, alloc: bool)
    requires Inv(v, owner) && HeldIn(v, slot) && Cached(v)
    ensures BmapStepKept(v, owner, slot, bn, alloc)
  {
    if bn < NDIRECT {
      BmapKeepsDirect(v, owner, slot, bn, alloc);
    } else if bn < MAX_FILE_BLOCKS {
      BmapKeepsIndirect(v, owner, slot, bn, alloc);
    } else {
      HeadInData(v);
      OpenFacts(v, slot);
    }
  }
}
