/** Steps on whole files and inodes of a minifs volume: writing bytes, writing an inode back, opening, and giving back
  the blocks of a file that has no name left.

  `Contains` and `Untouched` say what a write does to the bytes of files, `ReadsAs` what a read returns. Steps that
  leave all block pointers alone are `SameMap`. For fs_iput(), `Released` says that the blocks at certain places, and
  no others, became free; it is proved for one direct pointer, for all of them, for an indirect block with its
  entries, and so for a file (`PutSpec`). Each step comes with the owner map that goes with the new volume, which shows
  that every block is still accounted for. */
module VolumeFiles {
  import opened Volume

  // ----- bytes of a file

  predicate Mapped(v: Vol, n: nat, o: nat)
    requires Shape(v)
  {
    BlockOf(v, n, o / BLOCK_SIZE) != 0
  }

  function Byte(v: Vol, n: nat, o: nat): byte
    requires Shape(v)
  {
    Data(v, n, o / BLOCK_SIZE)[o % BLOCK_SIZE]
  }

  /** Bytes `off..off + |data|` of the file are `data`. */
  ghost predicate Contains(v: Vol, n: nat, off: nat, data: seq<byte>)
    requires Shape(v)
  {
    forall o :: off <= o < off + |data| ==> Mapped(v, n, o) && Byte(v, n, o) == data[o - off]
  }

  /** Where byte o of a file is on the device: block o / 1024 of the file is one of the twelve direct blocks, or its
      number is a big-endian word of the indirect block. */
  lemma FileLayout(v: Vol, n: nat, o: nat)
    requires Shape(v) && IsInode(v, n)
    ensures var rec, k := Rec(v, n), o / 1024;
            && (k < 12 ==> BlockOf(v, n, k) == rec.direct[k])
            && (12 <= k < 524 && 0 < rec.indirect < v.nblocks ==>
                  var b, i := v.blocks[rec.indirect], 2 * (k - 12);
                  var hi: int, lo: int := b[i], b[i + 1];
                  BlockOf(v, n, k) == 256 * hi + lo)
            && (k >= 524 || (k >= 12 && rec.indirect == 0) ==> BlockOf(v, n, k) == 0)
            && (Mapped(v, n, o) <==> BlockOf(v, n, k) != 0)
            && (0 < BlockOf(v, n, k) < v.nblocks ==> Byte(v, n, o) == v.blocks[BlockOf(v, n, k)][o % 1024])
  {
  }

  /** Every mapped byte of every file, except bytes lo..hi of inode n, is mapped as before and has the
      value it had. */
  ghost predicate Untouched(v: Vol, w: Vol, n: nat, lo: nat, hi: nat)
    requires Shape(v) && Shape(w)
  {
    forall m: nat, o: nat :: Mapped(v, m, o) && !(m == n && lo <= o < hi) ==>
      Mapped(w, m, o) && Byte(w, m, o) == Byte(v, m, o)
  }

  function Patch(b: Block, at: nat, src: seq<byte>): Block
    requires at + |src| <= BLOCK_SIZE
  {
    b[..at] + src + b[at + |src|..]
  }

  /** One turn of fs_write()'s loop: the bytes land in the block that bmap() found or allocated. */
  lemma ChunkWritten(v: Vol, u: Vol, owner: Owner, slot: nat, off: nat, src: seq<byte>, b: u16)
    requires HeldIn(v, slot) && Inv(u, owner) && off % BLOCK_SIZE + |src| <= BLOCK_SIZE
    requires BmapSpec(v, u, slot, off / BLOCK_SIZE, true, b) && b != 0
    ensures b < u.nblocks
    ensures var w := u.(blocks := u.blocks[b := Patch(u.blocks[b], off % BLOCK_SIZE, src)]);
            var n := v.icache[slot].inum;
            && Inv(w, owner) && OnlyPointers(v, w, slot)
            && Contains(w, n, off, src) && Untouched(v, w, n, off, off + |src|)
  {
    var n, bn := v.icache[slot].inum, off / BLOCK_SIZE;
    assert At(u, PlaceOf(n, bn)) == b;
    var d := Patch(u.blocks[b], off % BLOCK_SIZE, src);
    var w := u.(blocks := u.blocks[b := d]);
    DataWriteKeeps(u, owner, n, bn, d);
    forall m: nat, o: nat | Mapped(u, m, o)
      ensures Mapped(w, m, o) && (m != n || o / BLOCK_SIZE != bn ==> Byte(w, m, o) == Byte(u, m, o))
    {
    }
    forall o | off <= o < off + |src|
      ensures Mapped(w, n, o) && Byte(w, n, o) == src[o - off]
    {
      assert o / BLOCK_SIZE == bn && o % BLOCK_SIZE == off % BLOCK_SIZE + (o - off);
    }
    forall m: nat, o: nat | Mapped(v, m, o) && !(m == n && off <= o < off + |src|)
      ensures Mapped(w, m, o) && Byte(w, m, o) == Byte(v, m, o)
    {
      assert Mapped(u, m, o) && Byte(u, m, o) == Byte(v, m, o);
      if m == n && o / BLOCK_SIZE == bn {
        assert d[o % BLOCK_SIZE] == u.blocks[b][o % BLOCK_SIZE];
      }
    }
  }

  /** Chunks written one after the other are one write. */
  lemma ChunksJoin(v: Vol, u: Vol, w: Vol, n: nat, off: nat, done: seq<byte>, src: seq<byte>)
    requires Shape(v) && Shape(u) && Shape(w)
    requires Contains(u, n, off, done) && Untouched(v, u, n, off, off + |done|)
    requires Contains(w, n, off + |done|, src) && Untouched(u, w, n, off + |done|, off + |done| + |src|)
    ensures Contains(w, n, off, done + src) && Untouched(v, w, n, off, off + |done| + |src|)
  {
  }

  // ----- inode records

  ghost predicate SameMap(v: Vol, w: Vol)
    requires Shape(v) && Shape(w)
  {
    && w.nblocks == v.nblocks && w.ninodes == v.ninodes && w.blocks == v.blocks
    && w.free == v.free && w.freeList == v.freeList
    && forall p :: At(w, p) == At(v, p)
  }

  lemma SameMapKeeps(v: Vol, w: Vol, owner: Owner)
    requires Inv(v, owner) && Shape(w) && SameMap(v, w)
    ensures Inv(w, owner) && Preserved(v, w)
    ensures forall n: nat, lo, hi :: Untouched(v, w, n, lo, hi)
  {
    SameChain(v, w);
  }

  /** An open inode is changed in place; what it maps stays. */
  lemma RecordKeeps(v: Vol, owner: Owner, slot: nat, rec: Record)
    requires Inv(v, owner) && HeldIn(v, slot) && Cached(v)
    requires rec.direct == v.icache[slot].rec.direct && rec.indirect == v.icache[slot].rec.indirect
    requires rec.ftype != FT_FREE
    ensures var w := WithRec(v, slot, rec); Inv(w, owner) && Cached(w) && SameMap(v, w)
  {
    var w := WithRec(v, slot, rec);
    OpenFacts(v, slot);
    CachedKeeps(v, w, v.icache[slot].inum, slot);
    assert forall p :: At(w, p) == At(v, p);
    SameMapKeeps(v, w, owner);
  }

  /** fs_iupdate(): the cached inode is written to its disk record. */
  function Updated(v: Vol, slot: nat): Vol
    requires Shape(v) && slot < MAXINODE && IsInode(v, v.icache[slot].inum)
  {
    v.(itable := v.itable[v.icache[slot].inum := v.icache[slot].rec],
       icache := v.icache[slot := v.icache[slot].(dirty := false)])
  }

  lemma UpdateKeeps(v: Vol, owner: Owner, slot: nat)
    requires Inv(v, owner) && HeldIn(v, slot) && Cached(v)
    ensures IsInode(v, v.icache[slot].inum)
    ensures var w := Updated(v, slot); Inv(w, owner) && Cached(w) && SameMap(v, w)
  {
    hide Chained, Owned;
    OpenFacts(v, slot);
    var w := Updated(v, slot);
    CachedKeeps(v, w, v.icache[slot].inum, slot);
    assert forall p :: At(w, p) == At(v, p);
    SameMapKeeps(v, w, owner);
  }

  /** fs_iget() on an inode that is not cached: its disk record is copied to an idle slot. */
  function Fetched(v: Vol, n: nat, slot: nat): Vol
    requires Shape(v) && IsInode(v, n) && slot < MAXINODE
  {
    v.(icache := v.icache[slot := Slot(n, v.itable[n], 1, false)], openAt := v.openAt[n := slot])
  }

  lemma FetchCached(v: Vol, n: nat, slot: nat)
    requires Shape(v) && Cached(v) && IsInode(v, n) && slot < MAXINODE
    requires n !in v.openAt && v.icache[slot].refcount == 0 && v.itable[n].ftype != FT_FREE
    ensures Cached(Fetched(v, n, slot))
  {
    var w := Fetched(v, n, slot);
    forall i | 0 <= i < MAXINODE
      ensures (w.icache[i].refcount > 0 ==> Opened(w, w.icache[i].inum, i)) && Idle(w.icache[i])
    {
      assert (v.icache[i].refcount > 0 ==> Opened(v, v.icache[i].inum, i)) && Idle(v.icache[i]);
    }
    forall m | m in w.openAt
      ensures OpenSlot(w, m)
    {
      if m != n {
        assert OpenSlot(v, m);
      }
    }
  }

  lemma FetchPlaces(v: Vol, n: nat, slot: nat)
    requires Shape(v) && Cached(v) && IsInode(v, n) && slot < MAXINODE
    requires n !in v.openAt && v.icache[slot].refcount == 0
    ensures Shape(Fetched(v, n, slot)) && forall p :: At(Fetched(v, n, slot), p) == At(v, p)
  {
    var w := Fetched(v, n, slot);
    forall m: nat | m in v.openAt
      ensures v.openAt[m] != slot
    {
      assert OpenSlot(v, m);
    }
    assert forall m: nat :: IsInode(v, m) ==> Rec(w, m) == Rec(v, m);
  }

  /** A free record in the cache is not what the cache is for. */
  lemma FetchFree(v: Vol, n: nat, slot: nat)
    requires Shape(v) && Cached(v) && IsInode(v, n) && slot < MAXINODE
    requires n !in v.openAt && v.icache[slot].refcount == 0
    ensures Shape(Fetched(v, n, slot)) && (Cached(Fetched(v, n, slot)) <==> v.itable[n].ftype != FT_FREE)
  {
    if v.itable[n].ftype != FT_FREE {
      FetchCached(v, n, slot);
    } else {
      assert n in Fetched(v, n, slot).openAt && !OpenSlot(Fetched(v, n, slot), n);
    }
  }

  lemma FetchKeeps(v: Vol, owner: Owner, n: nat, slot: nat)
    requires Inv(v, owner) && Cached(v) && IsInode(v, n) && slot < MAXINODE
    requires n !in v.openAt && v.icache[slot].refcount == 0
    ensures var w := Fetched(v, n, slot);
            Inv(w, owner) && SameMap(v, w) && (Cached(w) <==> v.itable[n].ftype != FT_FREE)
  {
    hide Cached, At, Owned, Chained;
    FetchFree(v, n, slot);
    FetchPlaces(v, n, slot);
    SameMapKeeps(v, Fetched(v, n, slot), owner);
  }

  /** A reference is taken or dropped, and the inode stays open. */
  lemma RefcountKeeps(v: Vol, owner: Owner, slot: nat, r: nat)
    requires Inv(v, owner) && HeldIn(v, slot) && Cached(v) && r > 0
    ensures var w := v.(icache := v.icache[slot := v.icache[slot].(refcount := r)]);
            Inv(w, owner) && Cached(w) && SameMap(v, w)
  {
    hide Chained, Owned;
    var w := v.(icache := v.icache[slot := v.icache[slot].(refcount := r)]);
    OpenFacts(v, slot);
    CachedKeeps(v, w, v.icache[slot].inum, slot);
    assert forall p :: At(w, p) == At(v, p);
    SameMapKeeps(v, w, owner);
  }

  /** The last reference is dropped: from here on the inode is its disk record. */
  function Closed(v: Vol, slot: nat): Vol
    requires Shape(v) && slot < MAXINODE
  {
    v.(icache := v.icache[slot := v.icache[slot].(refcount := 0)], openAt := v.openAt - {v.icache[slot].inum})
  }

  lemma CloseCached(v: Vol, slot: nat)
    requires HeldIn(v, slot) && Cached(v)
    requires !v.icache[slot].dirty && v.icache[slot].rec.nlink != 0
    ensures Shape(Closed(v, slot)) && Cached(Closed(v, slot))
  {
    var w := Closed(v, slot);
    OpenFacts(v, slot);
    forall i | 0 <= i < MAXINODE
      ensures (w.icache[i].refcount > 0 ==> Opened(w, w.icache[i].inum, i)) && Idle(w.icache[i])
    {
      assert (v.icache[i].refcount > 0 ==> Opened(v, v.icache[i].inum, i)) && Idle(v.icache[i]);
    }
    forall n | n in w.openAt
      ensures OpenSlot(w, n)
    {
      assert OpenSlot(v, n);
    }
  }

  lemma CloseKeeps(v: Vol, owner: Owner, slot: nat)
    requires Inv(v, owner) && HeldIn(v, slot) && Cached(v)
    requires !v.icache[slot].dirty && v.icache[slot].rec.nlink != 0
    ensures var w := Closed(v, slot); Inv(w, owner) && Cached(w) && SameMap(v, w)
  {
    var w := Closed(v, slot);
    OpenFacts(v, slot);
    CloseCached(v, slot);
    assert forall m: nat :: IsInode(v, m) ==> Rec(w, m) == Rec(v, m);
    assert forall p :: At(w, p) == At(v, p);
    SameMapKeeps(v, w, owner);
  }

  /** ialloc(): a free disk record is claimed for a new inode without blocks. */
  lemma ClaimKeeps(v: Vol, owner: Owner, n: nat, rec: Record)
    requires Inv(v, owner) && Cached(v) && IsInode(v, n) && v.itable[n].ftype == FT_FREE
    requires NoBlocks(rec) && rec.ftype != FT_FREE
    ensures var w := v.(itable := v.itable[n := rec]); Inv(w, owner) && Cached(w) && SameMap(v, w)
  {
    var w := v.(itable := v.itable[n := rec]);
    assert n in v.openAt ==> OpenSlot(v, n);
    forall i | 0 <= i < MAXINODE
      ensures (w.icache[i].refcount > 0 ==> Opened(w, w.icache[i].inum, i)) && Idle(w.icache[i])
    {
      assert (v.icache[i].refcount > 0 ==> Opened(v, v.icache[i].inum, i)) && Idle(v.icache[i]);
    }
    forall m | m in w.openAt
      ensures OpenSlot(w, m)
    {
      assert OpenSlot(v, m);
    }
    assert NoBlocks(v.itable[n]);
    assert forall p :: At(w, p) == At(v, p);
    SameMapKeeps(v, w, owner);
  }

  // ----- reclaiming a file

  predicate Belongs(p: Place, n: nat) {
    !p.Free? && p.inum == n
  }

  ghost predicate KeepsOthers(v: Vol, w: Vol, n: nat)
    requires Shape(v) && Shape(w)
  {
    forall m: nat, k: nat :: m != n && BlockOf(v, m, k) != 0 ==>
      BlockOf(w, m, k) == BlockOf(v, m, k) && Data(w, m, k) == Data(v, m, k)
  }

  function SetRec(v: Vol, slot: nat, rec: Record): Vol
    requires Shape(v) && slot < MAXINODE
  {
    v.(icache := v.icache[slot := v.icache[slot].(rec := rec)])
  }

  /** A block pointer that is cleared gives up its block. */
  lemma DetachDirect(v: Vol, owner: Owner, n: nat, slot: nat, i: nat)
    requires Inv(v, owner) && OneSlotEach(v) && Opened(v, n, slot) && i < NDIRECT
    ensures var rec := v.icache[slot].rec;
            var w := SetRec(v, slot, rec.(direct := rec.direct[i := 0]));
            && Inv(w, owner - {rec.direct[i]})
            && forall p :: At(w, p) == if p == Direct(n, i) then 0 else At(v, p)
  {
    var rec := v.icache[slot].rec;
    var w := SetRec(v, slot, rec.(direct := rec.direct[i := 0]));
    assert At(v, Direct(n, i)) == rec.direct[i];
    SameChain(v, w);
    assert forall p :: At(w, p) == if p == Direct(n, i) then 0 else At(v, p);
  }

  /** The owners left when the indirect block of inode n and its entries are dropped. */
  function WithoutIndirect(owner: Owner, n: nat): Owner {
    map b | b in owner && owner[b] != Indirect(n) && !(owner[b].Entry? && owner[b].inum == n) :: owner[b]
  }

  lemma DetachIndirect(v: Vol, owner: Owner, n: nat, slot: nat)
    requires Inv(v, owner) && OneSlotEach(v) && Opened(v, n, slot)
    ensures var w := SetRec(v, slot, v.icache[slot].rec.(indirect := 0));
            && Inv(w, WithoutIndirect(owner, n))
            && forall p :: At(w, p) == if p == Indirect(n) || (p.Entry? && p.inum == n) then 0 else At(v, p)
  {
    var w := SetRec(v, slot, v.icache[slot].rec.(indirect := 0));
    SameChain(v, w);
    assert forall p :: At(w, p) == if p == Indirect(n) || (p.Entry? && p.inum == n) then 0 else At(v, p);
  }

  // ----- freeing the blocks an indirect block lists

  /** The loop of fs_iput() over the first `k` entries of an indirect block. */
  function PushAll(v: Vol, ptrs: Block, k: nat): Vol
    requires Headed(v) && k <= PTRS_PER_BLK
    ensures Headed(PushAll(v, ptrs, k))
    ensures PushAll(v, ptrs, k).nblocks == v.nblocks && PushAll(v, ptrs, k).ninodes == v.ninodes
  {
    if k == 0 then v
    else
      var u := PushAll(v, ptrs, k - 1);
      var b := Pointer(ptrs, k - 1);
      if InData(u, b) then Pushed(u, b) else u
  }

  function OwnerAll(v: Vol, owner: Owner, ptrs: Block, k: nat): Owner
    requires Headed(v) && k <= PTRS_PER_BLK
  {
    if k == 0 then owner
    else
      var u := PushAll(v, ptrs, k - 1);
      var b := Pointer(ptrs, k - 1);
      var o := OwnerAll(v, owner, ptrs, k - 1);
      if b == 0 then o else o[b := Free(|u.free|)]
  }

  /** The entries of `ptrs` from `lo` on are data blocks that nobody owns, all different. */
  ghost predicate Unowned(v: Vol, owner: Owner, ptrs: Block) {
    && (forall i :: 0 <= i < PTRS_PER_BLK && Pointer(ptrs, i) != 0 ==>
          InData(v, Pointer(ptrs, i)) && Pointer(ptrs, i) !in owner)
    && (forall i, j :: 0 <= i < j < PTRS_PER_BLK && Pointer(ptrs, i) != 0 ==> Pointer(ptrs, i) != Pointer(ptrs, j))
  }

  ghost predicate Listed(ptrs: Block, k: nat, b: u16)
    requires k <= PTRS_PER_BLK
  {
    b != 0 && exists i :: 0 <= i < k && Pointer(ptrs, i) == b
  }

  /** After the first `k` entries are freed: exactly the listed blocks joined the free ones, and no
      other place or block changed. */
  ghost predicate FreedUpTo(v: Vol, owner: Owner, ptrs: Block, k: nat, w: Vol, o: Owner)
    requires k <= PTRS_PER_BLK && Shape(v)
  {
    && Inv(w, o) && w.nblocks == v.nblocks && w.ninodes == v.ninodes
    && w.icache == v.icache && w.itable == v.itable && w.openAt == v.openAt
    && (forall b :: b in o <==> b in owner || Listed(ptrs, k, b))
    && (forall b :: b in o ==> if b in owner then o[b] == owner[b] && w.blocks[b] == v.blocks[b] else o[b].Free?)
    && (forall p: Place :: !p.Free? ==> At(w, p) == At(v, p))
  }

  lemma FreeOneMore(v: Vol, owner: Owner, ptrs: Block, k: nat, u: Vol, o: Owner)
    requires Inv(v, owner) && Unowned(v, owner, ptrs) && k < PTRS_PER_BLK && FreedUpTo(v, owner, ptrs, k, u, o)
    requires Pointer(ptrs, k) != 0
    ensures var b := Pointer(ptrs, k);
            InData(u, b) && FreedUpTo(v, owner, ptrs, k + 1, Pushed(u, b), o[b := Free(|u.free|)])
  {
    hide Chained;
    var b := Pointer(ptrs, k);
    ListedStep(ptrs, k);
    assert !Listed(ptrs, k, b);
    PushKeeps(u, o, b);
  }

  lemma ListedStep(ptrs: Block, k: nat)
    requires k < PTRS_PER_BLK && Pointer(ptrs, k) != 0
    ensures forall c :: Listed(ptrs, k + 1, c) <==> Listed(ptrs, k, c) || c == Pointer(ptrs, k)
  {
  }

  lemma FreedNone(v: Vol, owner: Owner, ptrs: Block)
    requires Inv(v, owner)
    ensures FreedUpTo(v, owner, ptrs, 0, v, owner)
  {
  }

  lemma SkipZero(v: Vol, owner: Owner, ptrs: Block, k: nat, u: Vol, o: Owner)
    requires Shape(v) && k < PTRS_PER_BLK && FreedUpTo(v, owner, ptrs, k, u, o) && Pointer(ptrs, k) == 0
    ensures FreedUpTo(v, owner, ptrs, k + 1, u, o)
  {
    assert forall b :: Listed(ptrs, k + 1, b) <==> Listed(ptrs, k, b);
  }

  lemma PushAllStep(v: Vol, owner: Owner, ptrs: Block, k: nat)
    requires Headed(v) && Inv(v, owner) && Unowned(v, owner, ptrs) && 0 < k <= PTRS_PER_BLK
    requires FreedUpTo(v, owner, ptrs, k - 1, PushAll(v, ptrs, k - 1), OwnerAll(v, owner, ptrs, k - 1))
    ensures FreedUpTo(v, owner, ptrs, k, PushAll(v, ptrs, k), OwnerAll(v, owner, ptrs, k))
  {
    hide FreedUpTo, Owned, Chained, Unowned;
    var u, o := PushAll(v, ptrs, k - 1), OwnerAll(v, owner, ptrs, k - 1);
    if Pointer(ptrs, k - 1) == 0 {
      SkipZero(v, owner, ptrs, k - 1, u, o);
      return;
    }
    FreeOneMore(v, owner, ptrs, k - 1, u, o);
  }

  /** Freeing every block an indirect block lists, none of which anybody owns any more. */
  lemma {:induction false} PushAllKeeps(v: Vol, owner: Owner, ptrs: Block, k: nat)
    requires Headed(v) && Inv(v, owner) && Unowned(v, owner, ptrs) && k <= PTRS_PER_BLK
    ensures FreedUpTo(v, owner, ptrs, k, PushAll(v, ptrs, k), OwnerAll(v, owner, ptrs, k))
    decreases k
  {
    hide FreedUpTo, Owned, Chained, Unowned;
    if k == 0 {
      FreedNone(v, owner, ptrs);
      return;
    }
    PushAllKeeps(v, owner, ptrs, k - 1);
    PushAllStep(v, owner, ptrs, k);
  }

  // ----- all the blocks of a file

  /** The blocks in the places `gone` are free now; every other block is where it was, with the bytes
      it had. */
  ghost predicate Released(v: Vol, owner: Owner, gone: set<Place>, w: Vol, o: Owner)
    requires Shape(v)
  {
    && Inv(w, o) && o.Keys == owner.Keys
    && w.nblocks == v.nblocks && w.ninodes == v.ninodes && w.itable == v.itable && w.openAt == v.openAt
    && (forall b :: b in owner ==>
          if owner[b] in gone then o[b].Free? else o[b] == owner[b] && w.blocks[b] == v.blocks[b])
    && (forall p: Place :: !p.Free? ==> At(w, p) == if p in gone then 0 else At(v, p))
  }

  lemma ReleaseTwice(v: Vol, owner: Owner, gone: set<Place>, u: Vol, o: Owner, gone': set<Place>, w: Vol, o': Owner)
    requires Inv(v, owner) && Released(v, owner, gone, u, o) && Released(u, o, gone', w, o')
    requires forall p :: p in gone' ==> !p.Free?
    ensures Released(v, owner, gone + gone', w, o')
  {
  }

  lemma ReleaseNothing(v: Vol, owner: Owner, gone: set<Place>)
    requires Inv(v, owner) && forall p :: p in gone ==> At(v, p) == 0
    ensures Released(v, owner, gone, v, owner)
  {
  }

  /** One direct block is freed and its pointer cleared. */
  function FreeDirect(v: Vol, slot: nat, i: nat): Vol
    requires Headed(v) && slot < MAXINODE && i < NDIRECT
    ensures Headed(FreeDirect(v, slot, i))
    ensures FreeDirect(v, slot, i).nblocks == v.nblocks && FreeDirect(v, slot, i).ninodes == v.ninodes
  {
    var rec := v.icache[slot].rec;
    if InData(v, rec.direct[i]) then SetRec(Pushed(v, rec.direct[i]), slot, rec.(direct := rec.direct[i := 0])) else v
  }

  function DirectOwner(v: Vol, owner: Owner, slot: nat, i: nat): Owner
    requires Shape(v) && slot < MAXINODE && i < NDIRECT
  {
    var b := v.icache[slot].rec.direct[i];
    if b == 0 then owner else owner[b := Free(|v.free|)]
  }

  lemma DirectOwned(v: Vol, owner: Owner, n: nat, slot: nat, i: nat)
    requires Inv(v, owner) && Opened(v, n, slot) && i < NDIRECT
    ensures var b := v.icache[slot].rec.direct[i];
            && At(v, Direct(n, i)) == b && (b != 0 ==> InData(v, b) && b in owner && owner[b] == Direct(n, i))
            && forall x :: x in owner && owner[x] == Direct(n, i) ==> x == b
  {
  }

  lemma ReleaseDirect(v: Vol, owner: Owner, n: nat, slot: nat, i: nat)
    requires Headed(v) && Inv(v, owner) && OneSlotEach(v) && Opened(v, n, slot) && i < NDIRECT
    ensures v.icache[slot].rec.direct[i] != 0 ==> InData(v, v.icache[slot].rec.direct[i])
    ensures Released(v, owner, {Direct(n, i)}, FreeDirect(v, slot, i), DirectOwner(v, owner, slot, i))
  {
    hide Chained, Released, At;
    var rec := v.icache[slot].rec;
    var b := rec.direct[i];
    DirectOwned(v, owner, n, slot, i);
    if b == 0 {
      ReleaseNothing(v, owner, {Direct(n, i)});
      return;
    }
    var u := SetRec(v, slot, rec.(direct := rec.direct[i := 0]));
    DetachDirect(v, owner, n, slot, i);
    PushKeeps(u, owner - {b}, b);
    assert Pushed(u, b) == FreeDirect(v, slot, i);
    MinusUpdate(owner, b, Free(|v.free|));
    ReleasedOne(v, owner, n, i, b, Pushed(u, b), owner[b := Free(|v.free|)]);
  }

  /** One block goes from a direct pointer to the free chain, and nothing else changes. */
  lemma ReleasedOne(v: Vol, owner: Owner, n: nat, i: nat, b: u16, w: Vol, o: Owner)
    requires Shape(v) && Shape(w) && Inv(w, o) && |w.blocks| == |v.blocks|
    requires b in owner && owner[b] == Direct(n, i) && o == owner[b := Free(|v.free|)]
    requires forall x :: x in owner && owner[x] == Direct(n, i) ==> x == b
    requires w.nblocks == v.nblocks && w.ninodes == v.ninodes && w.itable == v.itable && w.openAt == v.openAt
    requires forall x :: 0 <= x < |v.blocks| && x != b ==> w.blocks[x] == v.blocks[x]
    requires forall x :: x in owner ==> x < |v.blocks|
    requires forall p: Place :: !p.Free? ==> At(w, p) == if p == Direct(n, i) then 0 else At(v, p)
    ensures Released(v, owner, {Direct(n, i)}, w, o)
  {
    hide At, Inv;
  }

  lemma MinusUpdate(owner: Owner, b: u16, p: Place)
    ensures (owner - {b})[b := p] == owner[b := p]
  {
  }

  function FreeDirects(v: Vol, slot: nat, k: nat): Vol
    requires Headed(v) && slot < MAXINODE && k <= NDIRECT
    ensures Headed(FreeDirects(v, slot, k))
    ensures FreeDirects(v, slot, k).nblocks == v.nblocks && FreeDirects(v, slot, k).ninodes == v.ninodes
  {
    if k == 0 then v else FreeDirect(FreeDirects(v, slot, k - 1), slot, k - 1)
  }

  function DirectsOwner(v: Vol, owner: Owner, slot: nat, k: nat): Owner
    requires Headed(v) && slot < MAXINODE && k <= NDIRECT
  {
    if k == 0 then owner
    else DirectOwner(FreeDirects(v, slot, k - 1), DirectsOwner(v, owner, slot, k - 1), slot, k - 1)
  }

  function DirectPlaces(n: nat, k: nat): set<Place> {
    set i | 0 <= i < k :: Direct(n, i)
  }

  lemma {:induction false} FreeDirectsShape(v: Vol, slot: nat, k: nat)
    requires Headed(v) && slot < MAXINODE && k <= NDIRECT
    ensures var w := FreeDirects(v, slot, k);
            && w.icache == v.icache[slot := w.icache[slot]] && w.openAt == v.openAt
            && w.icache[slot] == v.icache[slot].(rec := v.icache[slot].rec.(direct := w.icache[slot].rec.direct))
  {
    if k > 0 {
      FreeDirectsShape(v, slot, k - 1);
    }
  }

  lemma DirectPlacesStep(n: nat, k: nat)
    requires k > 0
    ensures DirectPlaces(n, k) == DirectPlaces(n, k - 1) + {Direct(n, k - 1)}
  {
  }

  lemma ReleaseDirectsStep(v: Vol, owner: Owner, n: nat, slot: nat, k: nat, u: Vol, o: Owner)
    requires Headed(v) && Inv(v, owner) && OneSlotEach(v) && Opened(v, n, slot) && 0 < k <= NDIRECT
    requires Headed(u) && Released(v, owner, DirectPlaces(n, k - 1), u, o)
    ensures Released(v, owner, DirectPlaces(n, k), FreeDirect(u, slot, k - 1), DirectOwner(u, o, slot, k - 1))
  {
    ReleaseDirect(u, o, n, slot, k - 1);
    DirectPlacesStep(n, k);
    ReleaseTwice(v, owner, DirectPlaces(n, k - 1), u, o, {Direct(n, k - 1)},
                 FreeDirect(u, slot, k - 1), DirectOwner(u, o, slot, k - 1));
  }

  lemma {:induction false} ReleaseDirects(v: Vol, owner: Owner, n: nat, slot: nat, k: nat)
    requires Headed(v) && Inv(v, owner) && OneSlotEach(v) && Opened(v, n, slot) && k <= NDIRECT
    ensures Released(v, owner, DirectPlaces(n, k), FreeDirects(v, slot, k), DirectsOwner(v, owner, slot, k))
    decreases k
  {
    hide Released, Owned, Chained;
    if k == 0 {
      ReleaseNothing(v, owner, DirectPlaces(n, 0));
      return;
    }
    ReleaseDirects(v, owner, n, slot, k - 1);
    ReleaseDirectsStep(v, owner, n, slot, k, FreeDirects(v, slot, k - 1), DirectsOwner(v, owner, slot, k - 1));
  }

  // ----- the indirect block

  function EntryPlaces(n: nat): set<Place> {
    (set i | 0 <= i < PTRS_PER_BLK :: Entry(n, i)) + {Indirect(n)}
  }

  /** The indirect block's entries are freed, then the block itself. */
  function FreeIndirect(v: Vol, slot: nat): Vol
    requires Headed(v) && slot < MAXINODE
    ensures Headed(FreeIndirect(v, slot))
    ensures FreeIndirect(v, slot).nblocks == v.nblocks && FreeIndirect(v, slot).ninodes == v.ninodes
  {
    var rec := v.icache[slot].rec;
    if InData(v, rec.indirect)
    then SetRec(Pushed(PushAll(v, v.blocks[rec.indirect], PTRS_PER_BLK), rec.indirect), slot, rec.(indirect := 0))
    else v
  }

  function IndirectOwner(v: Vol, owner: Owner, n: nat, slot: nat): Owner
    requires Headed(v) && slot < MAXINODE
  {
    var ib := v.icache[slot].rec.indirect;
    if InData(v, ib) then
      OwnerAll(v, WithoutIndirect(owner, n), v.blocks[ib], PTRS_PER_BLK)
        [ib := Free(|PushAll(v, v.blocks[ib], PTRS_PER_BLK).free|)]
    else owner
  }

  /** Freeing blocks does not look at the inode cache. */
  lemma {:induction false} PushAllCommutes(v: Vol, slot: nat, rec: Record, ptrs: Block, k: nat)
    requires Headed(v) && slot < MAXINODE && k <= PTRS_PER_BLK
    ensures Headed(SetRec(v, slot, rec))
    ensures PushAll(v, ptrs, k).icache == v.icache
    ensures PushAll(SetRec(v, slot, rec), ptrs, k) == SetRec(PushAll(v, ptrs, k), slot, rec)
    decreases k
  {
    if k > 0 {
      PushAllCommutes(v, slot, rec, ptrs, k - 1);
    }
  }

  lemma {:induction false} OwnerAllCommutes(v: Vol, slot: nat, rec: Record, owner: Owner, ptrs: Block, k: nat)
    requires Headed(v) && slot < MAXINODE && k <= PTRS_PER_BLK && Headed(SetRec(v, slot, rec))
    ensures OwnerAll(SetRec(v, slot, rec), owner, ptrs, k) == OwnerAll(v, owner, ptrs, k)
    decreases k
  {
    hide PushAll;
    if k > 0 {
      OwnerAllCommutes(v, slot, rec, owner, ptrs, k - 1);
      PushAllCommutes(v, slot, rec, ptrs, k - 1);
    }
  }

  /** Once the indirect block is unhooked, nobody owns the blocks it lists. */
  lemma EntriesUnowned(v: Vol, owner: Owner, n: nat, slot: nat)
    requires Inv(v, owner) && OneSlotEach(v) && Opened(v, n, slot) && InData(v, v.icache[slot].rec.indirect)
    ensures var ib := v.icache[slot].rec.indirect;
            var o := WithoutIndirect(owner, n);
            Unowned(v, o, v.blocks[ib]) && ib !in o && !Listed(v.blocks[ib], PTRS_PER_BLK, ib)
  {
    var ptrs := v.blocks[v.icache[slot].rec.indirect];
    assert At(v, Indirect(n)) == v.icache[slot].rec.indirect;
    forall i | 0 <= i < PTRS_PER_BLK
      ensures At(v, Entry(n, i)) == Pointer(ptrs, i)
    {
    }
  }

  /** The blocks that lose their owner are the indirect block and the blocks it lists. */
  ghost predicate Unhooked(owner: Owner, o1: Owner, n: nat, ptrs: Block, ib: u16) {
    forall b ::
      if b in o1 then b in owner && o1[b] == owner[b] && owner[b] !in EntryPlaces(n) && b != ib
      else
        && (b in owner <==> b == ib || Listed(ptrs, PTRS_PER_BLK, b))
        && (b in owner ==> owner[b] in EntryPlaces(n))
  }

  lemma UnhookedBy(v: Vol, owner: Owner, n: nat, slot: nat)
    requires Inv(v, owner) && OneSlotEach(v) && Opened(v, n, slot) && InData(v, v.icache[slot].rec.indirect)
    ensures var ib := v.icache[slot].rec.indirect;
            Unhooked(owner, WithoutIndirect(owner, n), n, v.blocks[ib], ib)
  {
    var ib := v.icache[slot].rec.indirect;
    var ptrs := v.blocks[ib];
    assert At(v, Indirect(n)) == ib;
    forall i | 0 <= i < PTRS_PER_BLK
      ensures At(v, Entry(n, i)) == Pointer(ptrs, i)
    {
    }
    forall b | b in owner && owner[b].Entry? && owner[b].inum == n
      ensures Listed(ptrs, PTRS_PER_BLK, b) && owner[b] in EntryPlaces(n)
    {
      assert At(v, owner[b]) == b && Pointer(ptrs, owner[b].i) == b;
    }
    forall b | Listed(ptrs, PTRS_PER_BLK, b)
      ensures b in owner && owner[b].Entry? && owner[b].inum == n
    {
      var i :| 0 <= i < PTRS_PER_BLK && Pointer(ptrs, i) == b;
      assert At(v, Entry(n, i)) == b;
    }
  }

  /** The listed blocks and then the indirect block itself join the free ones. */
  lemma FreedWithIndirect(s: Vol, o1: Owner, ptrs: Block, u: Vol, o: Owner, ib: u16)
    requires Inv(s, o1) && FreedUpTo(s, o1, ptrs, PTRS_PER_BLK, u, o)
    requires InData(s, ib) && ib !in o1 && !Listed(ptrs, PTRS_PER_BLK, ib)
    ensures InData(u, ib)
    ensures var w, o' := Pushed(u, ib), o[ib := Free(|u.free|)];
            && Inv(w, o') && w.nblocks == s.nblocks && w.ninodes == s.ninodes && w.itable == s.itable
            && w.openAt == s.openAt
            && (forall b :: b in o' <==> b in o1 || Listed(ptrs, PTRS_PER_BLK, b) || b == ib)
            && (forall b :: b in o' ==> if b in o1 then o'[b] == o1[b] && w.blocks[b] == s.blocks[b] else o'[b].Free?)
            && (forall p: Place :: !p.Free? ==> At(w, p) == At(s, p))
  {
    PushKeeps(u, o, ib);
  }

  lemma ReleaseIndirect(v: Vol, owner: Owner, n: nat, slot: nat)
    requires Headed(v) && Inv(v, owner) && OneSlotEach(v) && Opened(v, n, slot)
    ensures v.icache[slot].rec.indirect != 0 ==> InData(v, v.icache[slot].rec.indirect)
    ensures Released(v, owner, EntryPlaces(n), FreeIndirect(v, slot), IndirectOwner(v, owner, n, slot))
  {
    var rec := v.icache[slot].rec;
    var ib := rec.indirect;
    assert At(v, Indirect(n)) == ib;
    if ib == 0 {
      ReleaseNothing(v, owner, EntryPlaces(n));
      return;
    }
    var s, o1, ptrs := SetRec(v, slot, rec.(indirect := 0)), WithoutIndirect(owner, n), v.blocks[ib];
    DetachIndirect(v, owner, n, slot);
    EntriesUnowned(v, owner, n, slot);
    UnhookedBy(v, owner, n, slot);
    PushAllKeeps(s, o1, ptrs, PTRS_PER_BLK);
    PushAllCommutes(v, slot, rec.(indirect := 0), ptrs, PTRS_PER_BLK);
    OwnerAllCommutes(v, slot, rec.(indirect := 0), o1, ptrs, PTRS_PER_BLK);
    FreedWithIndirect(s, o1, ptrs, PushAll(s, ptrs, PTRS_PER_BLK), OwnerAll(s, o1, ptrs, PTRS_PER_BLK), ib);
    assert Pushed(PushAll(s, ptrs, PTRS_PER_BLK), ib) == FreeIndirect(v, slot);
    ReleasedFrom(v, owner, s, o1, n, ptrs, ib, FreeIndirect(v, slot), IndirectOwner(v, owner, n, slot));
  }

  lemma ReleasedFrom(v: Vol, owner: Owner, s: Vol, o1: Owner, n: nat, ptrs: Block, ib: u16, w: Vol, o: Owner)
    requires Shape(v) && Shape(s) && Unhooked(owner, o1, n, ptrs, ib) && s.blocks == v.blocks
    requires s.nblocks == v.nblocks && s.ninodes == v.ninodes && s.itable == v.itable && s.openAt == v.openAt
    requires Inv(w, o) && w.nblocks == s.nblocks && w.ninodes == s.ninodes && w.itable == s.itable
      && w.openAt == s.openAt
    requires forall b :: b in o <==> b in o1 || Listed(ptrs, PTRS_PER_BLK, b) || b == ib
    requires forall b :: b in o ==> if b in o1 then o[b] == o1[b] && w.blocks[b] == s.blocks[b] else o[b].Free?
    requires forall p: Place :: !p.Free? ==> At(w, p) == At(s, p)
    requires forall p :: At(s, p) == if p == Indirect(n) || (p.Entry? && p.inum == n) then 0 else At(v, p)
    ensures Released(v, owner, EntryPlaces(n), w, o)
  {
    forall b
      ensures b in o <==> b in owner
    {
    }
    forall p: Place | !p.Free?
      ensures At(w, p) == if p in EntryPlaces(n) then 0 else At(v, p)
    {
    }
  }

  // ----- the end of fs_iput()

  /** Every block of the file is freed, and its record becomes free on disk. */
  function Reclaimed(v: Vol, slot: nat): Vol
    requires Headed(v) && slot < MAXINODE
    ensures Headed(Reclaimed(v, slot))
    ensures Reclaimed(v, slot).nblocks == v.nblocks && Reclaimed(v, slot).ninodes == v.ninodes
  {
    FreeIndirect(FreeDirects(v, slot, NDIRECT), slot)
  }

  function ReclaimOwner(v: Vol, owner: Owner, n: nat, slot: nat): Owner
    requires Headed(v) && slot < MAXINODE
  {
    IndirectOwner(FreeDirects(v, slot, NDIRECT), DirectsOwner(v, owner, slot, NDIRECT), n, slot)
  }

  function FilePlaces(n: nat): set<Place> {
    DirectPlaces(n, NDIRECT) + EntryPlaces(n)
  }

  /** The reclaim frees exactly the blocks of the file, and no other file loses a byte. */
  lemma ReclaimReleases(v: Vol, owner: Owner, n: nat, slot: nat)
    requires Headed(v) && Inv(v, owner) && OneSlotEach(v) && Opened(v, n, slot)
    ensures Released(v, owner, FilePlaces(n), Reclaimed(v, slot), ReclaimOwner(v, owner, n, slot))
    ensures var rec := Reclaimed(v, slot).icache[slot].rec;
            NoBlocks(rec) && rec == v.icache[slot].rec.(direct := rec.direct, indirect := rec.indirect)
    ensures Reclaimed(v, slot).icache == v.icache[slot := v.icache[slot].(rec := Reclaimed(v, slot).icache[slot].rec)]
  {
    hide Chained, Owned;
    var u, o := FreeDirects(v, slot, NDIRECT), DirectsOwner(v, owner, slot, NDIRECT);
    ReleaseDirects(v, owner, n, slot, NDIRECT);
    FreeDirectsShape(v, slot, NDIRECT);
    ReleaseIndirect(u, o, n, slot);
    ReleaseTwice(v, owner, DirectPlaces(n, NDIRECT), u, o, EntryPlaces(n), Reclaimed(v, slot),
                 ReclaimOwner(v, owner, n, slot));
    FreeIndirectShape(u, slot);
    NoBlocksLeft(v, owner, n, slot, Reclaimed(v, slot), ReclaimOwner(v, owner, n, slot));
  }

  lemma FreeIndirectShape(v: Vol, slot: nat)
    requires Headed(v) && slot < MAXINODE
    ensures var rec := FreeIndirect(v, slot).icache[slot].rec;
            && FreeIndirect(v, slot).icache == v.icache[slot := v.icache[slot].(rec := rec)]
            && rec == v.icache[slot].rec.(indirect := rec.indirect)
  {
    var rec := v.icache[slot].rec;
    if InData(v, rec.indirect) {
      PushAllCommutes(v, slot, rec, v.blocks[rec.indirect], PTRS_PER_BLK);
    }
  }

  lemma ReclaimedShape(v: Vol, slot: nat)
    requires Headed(v) && slot < MAXINODE
    ensures var w := Reclaimed(v, slot);
            w.icache == v.icache[slot := v.icache[slot].(rec := w.icache[slot].rec)] && w.itable == v.itable
              && w.openAt == v.openAt
  {
    var u := FreeDirects(v, slot, NDIRECT);
    FreeDirectsShape(v, slot, NDIRECT);
    FreeIndirectShape(u, slot);
    DirectsKeepTable(v, slot, NDIRECT);
    if InData(u, u.icache[slot].rec.indirect) {
      PushAllKeepsTable(u, u.blocks[u.icache[slot].rec.indirect], PTRS_PER_BLK);
    }
  }

  lemma {:induction false} DirectsKeepTable(v: Vol, slot: nat, k: nat)
    requires Headed(v) && slot < MAXINODE && k <= NDIRECT
    ensures FreeDirects(v, slot, k).itable == v.itable && FreeDirects(v, slot, k).openAt == v.openAt
  {
    if k > 0 {
      DirectsKeepTable(v, slot, k - 1);
    }
  }

  lemma {:induction false} PushAllKeepsTable(v: Vol, ptrs: Block, k: nat)
    requires Headed(v) && k <= PTRS_PER_BLK
    ensures PushAll(v, ptrs, k).itable == v.itable && PushAll(v, ptrs, k).openAt == v.openAt
    decreases k
  {
    if k > 0 {
      PushAllKeepsTable(v, ptrs, k - 1);
    }
  }

  lemma NoBlocksLeft(v: Vol, owner: Owner, n: nat, slot: nat, w: Vol, o: Owner)
    requires Shape(v) && IsInode(v, n) && Opened(v, n, slot) && Released(v, owner, FilePlaces(n), w, o)
    ensures NoBlocks(w.icache[slot].rec)
  {
    assert At(w, Indirect(n)) == 0;
    forall i | 0 <= i < NDIRECT
      ensures w.icache[slot].rec.direct[i] == 0
    {
      assert Direct(n, i) in FilePlaces(n);
      assert At(w, Direct(n, i)) == 0;
    }
  }

  /** The emptied inode is marked free, written to disk and dropped from the cache. */
  function Erased(v: Vol, n: nat, slot: nat): Vol
    requires Shape(v) && IsInode(v, n) && slot < MAXINODE
  {
    var rec := v.icache[slot].rec.(size := 0, ftype := FT_FREE);
    v.(itable := v.itable[n := rec], icache := v.icache[slot := Slot(v.icache[slot].inum, rec, 0, false)],
       openAt := v.openAt - {n})
  }

  lemma EraseKeeps(v: Vol, owner: Owner, n: nat, slot: nat)
    requires Inv(v, owner) && OneSlotEach(v) && IsInode(v, n) && Opened(v, n, slot) && NoBlocks(v.icache[slot].rec)
    ensures var w := Erased(v, n, slot); Shape(w) && SameMap(v, w) && Inv(w, owner)
  {
    hide Chained, Owned;
    var w := Erased(v, n, slot);
    assert forall m: nat :: IsInode(v, m) && m != n ==> Rec(w, m) == Rec(v, m);
    assert forall p :: At(w, p) == At(v, p);
    SameMapKeeps(v, w, owner);
  }

  /** The cache after `n` was erased, when only its slot differs from a consistent cache. */
  lemma EraseCached(v: Vol, u: Vol, n: nat, slot: nat)
    requires HeldIn(v, slot) && Cached(v) && OneSlotEach(v) && Opened(v, n, slot) && IsInode(v, n)
    requires Shape(u) && u.ninodes == v.ninodes && u.openAt == v.openAt && NoBlocks(u.icache[slot].rec)
    requires u.icache == v.icache[slot := u.icache[slot]]
    requires forall m: nat :: m < |v.itable| && m != n ==> u.itable[m] == v.itable[m]
    ensures Shape(Erased(u, n, slot)) && Cached(Erased(u, n, slot))
  {
    var w := Erased(u, n, slot);
    forall i | 0 <= i < MAXINODE
      ensures (w.icache[i].refcount > 0 ==> Opened(w, w.icache[i].inum, i)) && Idle(w.icache[i])
    {
      assert (v.icache[i].refcount > 0 ==> Opened(v, v.icache[i].inum, i)) && Idle(v.icache[i]);
    }
    forall m | m in w.openAt
      ensures OpenSlot(w, m)
    {
      assert OpenSlot(v, m);
    }
  }

  lemma EraseRecords(v: Vol, u: Vol, n: nat, slot: nat)
    requires Shape(v) && Shape(u) && OneSlotEach(v) && Opened(v, n, slot) && IsInode(v, n)
    requires u.ninodes == v.ninodes && u.openAt == v.openAt && u.icache == v.icache[slot := u.icache[slot]]
    requires forall m: nat :: m < |v.itable| && m != n ==> u.itable[m] == v.itable[m]
    ensures Shape(Erased(u, n, slot)) && SameRecords(v, Erased(u, n, slot), n)
  {
  }

  // ----- fs_iput()

  /** The reference is gone; if it was the last one, a dirty inode is written back first. */
  function Dropped(v: Vol, slot: nat): Vol
    requires Shape(v) && slot < MAXINODE && IsInode(v, v.icache[slot].inum)
  {
    var n := v.icache[slot].refcount;
    var u := v.(icache := v.icache[slot := v.icache[slot].(refcount := if n > 0 then n - 1 else 0)]);
    if u.icache[slot].refcount == 0 && u.icache[slot].dirty then Updated(u, slot) else u
  }

  predicate Reclaims(v: Vol, slot: nat)
    requires Shape(v) && slot < MAXINODE
  {
    v.icache[slot].refcount <= 1 && v.icache[slot].rec.nlink == 0
  }

  function Put(v: Vol, slot: nat): Vol
    requires Headed(v) && slot < MAXINODE && IsInode(v, v.icache[slot].inum)
  {
    var n, u := v.icache[slot].inum, Dropped(v, slot);
    if v.icache[slot].refcount > 1 then u
    else if v.icache[slot].rec.nlink != 0 then u.(openAt := u.openAt - {n})
    else Erased(Reclaimed(u, slot), n, slot)
  }

  function PutOwner(v: Vol, owner: Owner, slot: nat): Owner
    requires Headed(v) && slot < MAXINODE && IsInode(v, v.icache[slot].inum)
  {
    if Reclaims(v, slot) then ReclaimOwner(Dropped(v, slot), owner, v.icache[slot].inum, slot) else owner
  }

  /** Every inode but `n` has the record that it had. */
  ghost predicate SameRecords(v: Vol, w: Vol, n: nat)
    requires Shape(v) && Shape(w)
  {
    forall m: nat :: IsInode(v, m) && m != n ==> IsInode(w, m) && Rec(w, m) == Rec(v, m)
  }

  /** What fs_iput() does to files: nothing, and with the last reference the inode is on disk as it was in the cache,
      unless it has no names; then exactly the blocks of that inode become free and its record becomes free. The other
      inodes stay as they are in every case. */
  ghost predicate PutSpec(v: Vol, owner: Owner, w: Vol, o: Owner, slot: nat)
    requires Inv(v, owner) && slot < MAXINODE
  {
    var n, last, rec := v.icache[slot].inum, v.icache[slot].refcount <= 1, v.icache[slot].rec;
    && Inv(w, o) && w.nblocks == v.nblocks && Cached(w) && o.Keys == owner.Keys
    && IsInode(w, n) && SameRecords(v, w, n) && (last <==> n !in w.openAt)
    && (!last || rec.nlink != 0 ==> SameMap(v, w) && o == owner && Rec(w, n) == rec)
    && (last && rec.nlink == 0 ==>
          && w.itable[n].ftype == FT_FREE && w.itable[n].size == 0 && NoBlocks(w.itable[n])
          && (forall b :: b in owner ==>
                if Belongs(owner[b], n) then o[b].Free? else o[b] == owner[b] && w.blocks[b] == v.blocks[b])
          && KeepsOthers(v, w, n))
  }

  lemma DropLast(v: Vol, owner: Owner, slot: nat)
    requires Inv(v, owner) && HeldIn(v, slot) && Cached(v) && v.icache[slot].refcount == 1
    ensures IsInode(v, v.icache[slot].inum)
    ensures var u := Dropped(v, slot);
            && Shape(u) && SameMap(v, u) && Inv(u, owner) && u.openAt == v.openAt
            && u.icache == v.icache[slot := v.icache[slot].(refcount := 0, dirty := false)]
            && (forall m: nat :: m < |v.itable| && m != v.icache[slot].inum ==> u.itable[m] == v.itable[m])
  {
    hide Chained, Owned;
    OpenFacts(v, slot);
    var u := Dropped(v, slot);
    assert forall p :: At(u, p) == At(v, p);
    SameMapKeeps(v, u, owner);
  }

  lemma PutShared(v: Vol, owner: Owner, slot: nat)
    requires Headed(v) && Inv(v, owner) && HeldIn(v, slot) && Cached(v) && v.icache[slot].refcount > 1
    ensures IsInode(v, v.icache[slot].inum) && PutSpec(v, owner, Put(v, slot), PutOwner(v, owner, slot), slot)
  {
    OpenFacts(v, slot);
    RefcountKeeps(v, owner, slot, v.icache[slot].refcount - 1);
  }

  lemma PutNamed(v: Vol, owner: Owner, slot: nat)
    requires Headed(v) && Inv(v, owner) && HeldIn(v, slot) && Cached(v)
    requires v.icache[slot].refcount == 1 && v.icache[slot].rec.nlink != 0
    ensures IsInode(v, v.icache[slot].inum) && PutSpec(v, owner, Put(v, slot), PutOwner(v, owner, slot), slot)
  {
    OpenFacts(v, slot);
    if v.icache[slot].dirty {
      UpdateKeeps(v, owner, slot);
      CloseKeeps(Updated(v, slot), owner, slot);
      assert Put(v, slot) == Closed(Updated(v, slot), slot);
      return;
    }
    CloseKeeps(v, owner, slot);
    assert Put(v, slot) == Closed(v, slot);
  }

  lemma ReleasedBlocks(v: Vol, owner: Owner, n: nat, w: Vol, o: Owner)
    requires Inv(v, owner) && Released(v, owner, FilePlaces(n), w, o)
    ensures forall b :: b in owner ==>
              if Belongs(owner[b], n) then o[b].Free? else o[b] == owner[b] && w.blocks[b] == v.blocks[b]
  {
    hide Chained;
    forall b | b in owner
      ensures Belongs(owner[b], n) <==> owner[b] in FilePlaces(n)
    {
      assert At(v, owner[b]) == b;
    }
  }

  /** A released file took nothing from the others. */
  lemma ReleasedOthers(v: Vol, owner: Owner, n: nat, w: Vol, o: Owner)
    requires Inv(v, owner) && Released(v, owner, FilePlaces(n), w, o)
    ensures KeepsOthers(v, w, n)
    ensures forall b :: b in owner ==>
              if Belongs(owner[b], n) then o[b].Free? else o[b] == owner[b] && w.blocks[b] == v.blocks[b]
  {
    hide Chained;
    ReleasedBlocks(v, owner, n, w, o);
    forall m: nat, k: nat | m != n && BlockOf(v, m, k) != 0
      ensures BlockOf(w, m, k) == BlockOf(v, m, k) && Data(w, m, k) == Data(v, m, k)
    {
      assert At(v, PlaceOf(m, k)) == BlockOf(v, m, k);
    }
  }

  lemma ReclaimSpec(v: Vol, owner: Owner, slot: nat, u: Vol, w: Vol, e: Vol, o: Owner)
    requires Inv(v, owner) && slot < MAXINODE && Reclaims(v, slot) && IsInode(v, v.icache[slot].inum)
    requires Shape(u) && Shape(w) && SameMap(v, u) && o.Keys == owner.Keys && w.nblocks == u.nblocks
    requires var n := v.icache[slot].inum;
             && KeepsOthers(u, w, n) && n < |e.itable| && n !in e.openAt
             && e.itable[n].ftype == FT_FREE && e.itable[n].size == 0
             && (forall b :: b in owner ==> b < u.nblocks)
             && forall b :: b in owner ==>
                  if Belongs(owner[b], n) then o[b].Free? else o[b] == owner[b] && w.blocks[b] == u.blocks[b]
    requires Inv(e, o) && Cached(e) && SameMap(w, e) && e.ninodes == v.ninodes
      && SameRecords(v, e, v.icache[slot].inum)
    ensures PutSpec(v, owner, e, o, slot)
  {
    KeepsChain(v, u, w, e, v.icache[slot].inum);
  }

  lemma EraseSpec(v: Vol, owner: Owner, slot: nat, u: Vol)
    requires Headed(u) && Inv(v, owner) && HeldIn(v, slot) && Cached(v) && Reclaims(v, slot)
    requires OneSlotEach(v) && Opened(v, v.icache[slot].inum, slot) && IsInode(v, v.icache[slot].inum)
    requires Inv(u, owner) && SameMap(v, u) && u.openAt == v.openAt
    requires u.icache == v.icache[slot := u.icache[slot]]
    requires forall m: nat :: m < |v.itable| && m != v.icache[slot].inum ==> u.itable[m] == v.itable[m]
    ensures PutSpec(v, owner, Erased(Reclaimed(u, slot), v.icache[slot].inum, slot),
                    ReclaimOwner(u, owner, v.icache[slot].inum, slot), slot)
  {
    hide Chained, Reclaimed, ReclaimOwner, KeepsOthers;
    var n := v.icache[slot].inum;
    var w, o := Reclaimed(u, slot), ReclaimOwner(u, owner, n, slot);
    ReclaimReleases(u, owner, n, slot);
    ReleasedOthers(u, owner, n, w, o);
    EraseKeeps(w, o, n, slot);
    EraseCached(v, w, n, slot);
    ReclaimedShape(u, slot);
    EraseRecords(v, w, n, slot);
    ReclaimSpec(v, owner, slot, u, w, Erased(w, n, slot), o);
  }

  lemma PutUnnamed(v: Vol, owner: Owner, slot: nat)
    requires Headed(v) && Inv(v, owner) && HeldIn(v, slot) && Cached(v)
    requires v.icache[slot].refcount == 1 && v.icache[slot].rec.nlink == 0
    ensures IsInode(v, v.icache[slot].inum) && PutSpec(v, owner, Put(v, slot), PutOwner(v, owner, slot), slot)
  {
    OpenFacts(v, slot);
    DropLast(v, owner, slot);
    EraseSpec(v, owner, slot, Dropped(v, slot));
  }

  lemma KeepsChain(v: Vol, u: Vol, w: Vol, e: Vol, n: nat)
    requires Shape(v) && Shape(u) && Shape(w) && Shape(e)
    requires SameMap(v, u) && KeepsOthers(u, w, n) && SameMap(w, e)
    ensures KeepsOthers(v, e, n)
  {
    forall m: nat, k: nat | m != n && BlockOf(v, m, k) != 0
      ensures BlockOf(e, m, k) == BlockOf(v, m, k) && Data(e, m, k) == Data(v, m, k)
    {
      assert BlockOf(u, m, k) == BlockOf(v, m, k);
    }
  }

  lemma PutKeeps(v: Vol, owner: Owner, slot: nat)
    requires Inv(v, owner) && HeldIn(v, slot) && Cached(v)
    ensures Headed(v) && IsInode(v, v.icache[slot].inum)
    ensures PutSpec(v, owner, Put(v, slot), PutOwner(v, owner, slot), slot)
  {
    HeadInData(v);
    if v.icache[slot].refcount > 1 {
      PutShared(v, owner, slot);
    } else if v.icache[slot].rec.nlink != 0 {
      PutNamed(v, owner, slot);
    } else {
      PutUnnamed(v, owner, slot);
    }
  }

  /** Every nonzero pointer of the inode in `slot` names a data block. */
  predicate DirectTidy(v: Vol, slot: nat)
    requires Shape(v) && slot < MAXINODE
  {
    var rec := v.icache[slot].rec;
    forall i :: 0 <= i < NDIRECT && rec.direct[i] != 0 ==> InData(v, rec.direct[i])
  }

  predicate IndirectTidy(v: Vol, slot: nat)
    requires Shape(v) && slot < MAXINODE
  {
    var ib := v.icache[slot].rec.indirect;
    ib != 0 ==> InData(v, ib) && forall i :: 0 <= i < PTRS_PER_BLK && Pointer(v.blocks[ib], i) != 0 ==>
      InData(v, Pointer(v.blocks[ib], i))
  }

  lemma PointersTidy(v: Vol, owner: Owner, n: nat, slot: nat)
    requires Inv(v, owner) && Opened(v, n, slot)
    ensures DirectTidy(v, slot) && IndirectTidy(v, slot)
  {
    var rec := v.icache[slot].rec;
    assert At(v, Indirect(n)) == rec.indirect;
    forall i | 0 <= i < NDIRECT && rec.direct[i] != 0
      ensures InData(v, rec.direct[i])
    {
      assert At(v, Direct(n, i)) == rec.direct[i];
    }
    if rec.indirect != 0 {
      forall i | 0 <= i < PTRS_PER_BLK && Pointer(v.blocks[rec.indirect], i) != 0
        ensures InData(v, Pointer(v.blocks[rec.indirect], i))
      {
        assert At(v, Entry(n, i)) == Pointer(v.blocks[rec.indirect], i);
      }
    }
  }

  lemma {:induction false} DirectsLeft(v: Vol, slot: nat, k: nat)
    requires Headed(v) && slot < MAXINODE && k <= NDIRECT
    ensures forall i :: k <= i < NDIRECT ==>
      FreeDirects(v, slot, k).icache[slot].rec.direct[i] == v.icache[slot].rec.direct[i]
  {
    if k > 0 {
      DirectsLeft(v, slot, k - 1);
    }
  }

  /** What fs_iput() needs of the volume it reclaims a file from. */
  lemma ReclaimTidy(v: Vol, owner: Owner, slot: nat)
    requires Inv(v, owner) && HeldIn(v, slot) && Cached(v) && Reclaims(v, slot)
    ensures IsInode(v, v.icache[slot].inum)
    ensures var u := Dropped(v, slot);
            Headed(u) && DirectTidy(u, slot) && IndirectTidy(FreeDirects(u, slot, NDIRECT), slot)
  {
    var n := v.icache[slot].inum;
    OpenFacts(v, slot);
    DropLast(v, owner, slot);
    HeadInData(v);
    var u := Dropped(v, slot);
    PointersTidy(u, owner, n, slot);
    ReleaseDirects(u, owner, n, slot, NDIRECT);
    PointersTidy(FreeDirects(u, slot, NDIRECT), DirectsOwner(u, owner, slot, NDIRECT), n, slot);
  }

  // ----- reading

  /** What fs_read(ip, off, k) returns: the bytes of the file from `off` on, up to `k` of them, the end
      of the file or the first hole, whichever comes first. */
  ghost predicate ReadsAs(v: Vol, n: nat, size: nat, off: nat, k: nat, r: seq<byte>)
    requires Shape(v)
  {
    var m := if off >= size then 0 else if k > size - off then size - off else k;
    |r| <= m && Contains(v, n, off, r) && (|r| < m ==> !Mapped(v, n, off + |r|))
  }

  /** The result of a read is determined by the volume. */
  lemma ReadUnique(v: Vol, n: nat, size: nat, off: nat, k: nat, r: seq<byte>, s: seq<byte>)
    requires Shape(v) && ReadsAs(v, n, size, off, k, r) && ReadsAs(v, n, size, off, k, s)
    ensures r == s
  {
    var atEnd, atEnd' := Mapped(v, n, off + |r|), Mapped(v, n, off + |s|);
    assert forall i :: 0 <= i < |r| ==> Mapped(v, n, off + i) && Byte(v, n, off + i) == r[i];
  }

  /** Bytes that a file contains are what a read of them returns, exactly when they lie within its size. */
  lemma ReadBack(v: Vol, n: nat, size: nat, off: nat, data: seq<byte>, r: seq<byte>)
    requires Shape(v) && Contains(v, n, off, data) && ReadsAs(v, n, size, off, |data|, r)
    ensures r == data <==> data == [] || off + |data| <= size
  {
    if data == [] || off + |data| > size { return; }
    ReadUnique(v, n, size, off, |data|, r, data);
  }

  lemma ContainsJoin(v: Vol, n: nat, off: nat, a: seq<byte>, b: seq<byte>)
    requires Shape(v) && Contains(v, n, off, a) && Contains(v, n, off + |a|, b)
    ensures Contains(v, n, off, a + b)
  {
  }

  lemma ChunkContained(v: Vol, n: nat, off: nat, c: nat)
    requires Shape(v) && Mapped(v, n, off) && off % BLOCK_SIZE + c <= BLOCK_SIZE
    ensures Contains(v, n, off, Data(v, n, off / BLOCK_SIZE)[off % BLOCK_SIZE..off % BLOCK_SIZE + c])
  {
    forall o | off <= o < off + c
      ensures o / BLOCK_SIZE == off / BLOCK_SIZE && o % BLOCK_SIZE == off % BLOCK_SIZE + (o - off)
    {
    }
  }

  /** A slot found for no number means that the inode is not open. */
  lemma OpenSlotIs(v: Vol, n: nat)
    requires Shape(v) && Cached(v)
    ensures n in v.openAt ==> v.icache[v.openAt[n]].inum == n && v.icache[v.openAt[n]].refcount > 0
    ensures n in v.openAt ==> Rec(v, n).ftype != FT_FREE
  {
    assert n in v.openAt ==> OpenSlot(v, n);
  }

  // ----- writing

  /** The state of fs_write()'s loop when `done` bytes of `data` are in the file. */
  ghost predicate WrittenSoFar(v: Vol, w: Vol, owner: Owner, slot: nat, off: nat, data: seq<byte>, done: nat)
    requires HeldIn(v, slot) && done <= |data|
  {
    var n := v.icache[slot].inum;
    && Inv(w, owner) && Cached(w) && OnlyPointers(v, w, slot)
    && Contains(w, n, off, data[..done]) && Untouched(v, w, n, off, off + done)
  }

  lemma WriteStart(v: Vol, owner: Owner, slot: nat, off: nat, data: seq<byte>)
    requires HeldIn(v, slot) && Inv(v, owner) && Cached(v)
    ensures WrittenSoFar(v, v, owner, slot, off, data, 0)
  {
    OpenFacts(v, slot);
  }

  lemma OnlyPointersTrans(v: Vol, u: Vol, w: Vol, slot: nat)
    requires Shape(v) && Shape(u) && Shape(w) && slot < MAXINODE && OnlyPointers(v, u, slot) && OnlyPointers(u, w, slot)
    ensures OnlyPointers(v, w, slot)
  {
  }

  lemma PreservedBytes(w: Vol, u: Vol, n: nat, off: nat)
    requires Shape(w) && Shape(u) && Preserved(w, u)
    ensures Untouched(w, u, n, off, off)
  {
  }

  lemma WriteChunkBytes(v: Vol, w: Vol, x: Vol, n: nat, off: nat, data: seq<byte>, done: nat, c: nat)
    requires Shape(v) && Shape(w) && Shape(x) && done + c <= |data|
    requires Contains(w, n, off, data[..done]) && Untouched(v, w, n, off, off + done)
    requires Contains(x, n, off + done, data[done..done + c]) && Untouched(w, x, n, off + done, off + done + c)
    ensures Contains(x, n, off, data[..done + c]) && Untouched(v, x, n, off, off + done + c)
  {
    var a, b := data[..done], data[done..done + c];
    assert |a| == done && |b| == c && data[..done + c] == a + b;
    ChunksJoin(v, w, x, n, off, a, b);
  }

  /** A chunk of `c` bytes more is in the file, and nothing else changed. */
  lemma WriteGrows(v: Vol, w: Vol, x: Vol, owner: Owner, owner': Owner, slot: nat, off: nat, data: seq<byte>, done: nat,
                   c: nat)
    requires HeldIn(v, slot) && HeldIn(w, slot) && done + c <= |data|
      && WrittenSoFar(v, w, owner, slot, off, data, done)
    requires Inv(x, owner') && OnlyPointers(w, x, slot)
    requires Contains(x, v.icache[slot].inum, off + done, data[done..done + c])
    requires Untouched(w, x, v.icache[slot].inum, off + done, off + done + c)
    ensures WrittenSoFar(v, x, owner', slot, off, data, done + c)
  {
    OnlyPointersTrans(v, w, x, slot);
    CachedAfterPointers(w, x, slot);
    WriteChunkBytes(v, w, x, v.icache[slot].inum, off, data, done, c);
  }

  lemma SameBytes(v: Vol, w: Vol, n: nat, off: nat, data: seq<byte>)
    requires Shape(v) && Shape(w) && SameMap(v, w)
    ensures Contains(v, n, off, data) ==> Contains(w, n, off, data)
    ensures forall u, lo, hi :: Shape(u) && Untouched(u, v, n, lo, hi) ==> Untouched(u, w, n, lo, hi)
  {
    forall m: nat, o: nat
      ensures Mapped(w, m, o) == Mapped(v, m, o) && Byte(w, m, o) == Byte(v, m, o)
    {
    }
  }

  // ----- a new volume

  const NO_RECORD := Record(FT_FREE, 0, 0, 0, seq(12, (i: nat) => 0 as u16), 0)

  function NewBlock(nblocks: nat, start: nat, b: nat): Block
    requires nblocks <= 65535
  {
    if start <= b < nblocks - 1 then FreeBlock(b + 1) else ZeroBlock()
  }

  /** The volume mkfs makes before it adds files: every data block is on the free list, in order. */
  function NewVolume(nblocks: nat, ninodes: nat): Vol
    requires 1 + (ninodes + 20) / 21 < nblocks <= 65535
  {
    var start := 1 + (ninodes + 20) / 21;
    Vol(nblocks, ninodes,
        seq(nblocks, (b: nat) => NewBlock(nblocks, start, b)),
        seq(ninodes + 1, (n: nat) => NO_RECORD), seq(MAXINODE, (i: nat) => Slot(0, NO_RECORD, 0, false)),
        start, seq(nblocks - start, (k: nat) => if k < nblocks then nblocks - 1 - k else 0), map[])
  }

  ghost function NewOwner(v: Vol): Owner {
    map b: u16 | 0 <= b < 65536 && InData(v, b) :: Free(v.nblocks - 1 - b)
  }

  lemma NewVolumeValid(nblocks: nat, ninodes: nat)
    requires 1 + (ninodes + 20) / 21 < nblocks <= 65535
    ensures var v := NewVolume(nblocks, ninodes); Inv(v, NewOwner(v)) && Cached(v)
  {
    var v := NewVolume(nblocks, ninodes);
    forall k | 0 <= k < |v.free|
      ensures Link(v, k)
    {
      if k > 0 {
        SetPointerGet(ZeroBlock(), 0, v.free[k - 1], 0);
      }
    }
  }
}
