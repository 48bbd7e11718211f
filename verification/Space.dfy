/** How much room a volume has for a write: the blocks that bmap() must allocate for a range of a file, and how the
  free chain pays for them. `RoomFor` is a condition on the volume before the write. */
module Space {
  import opened Volume
  import opened VolumeFiles

  /** The blocks bmap() allocates for block `bn` of inode n: none, one, or two when the indirect block is
      missing too. */
  function Missing(v: Vol, n: nat, bn: nat): nat
    requires Shape(v)
  {
    (if BlockOf(v, n, bn) == 0 then 1 else 0) + (if bn >= NDIRECT && At(v, Indirect(n)) == 0 then 1 else 0)
  }

  /** What bmap() leaves when it succeeds: the free chain is shorter by the blocks that were missing, and the indirect
      block is there when it was needed. */
  ghost predicate Paid(v: Vol, w: Vol, n: nat, bn: nat)
    requires Shape(v) && Shape(w)
  {
    && BlockOf(w, n, bn) != 0 && OnlyMaps(v, w, n, bn) && |w.free| + Missing(v, n, bn) == |v.free|
    && (At(w, Indirect(n)) != 0 <==> At(v, Indirect(n)) != 0 || bn >= NDIRECT)
  }

  lemma ChainEmpty(v: Vol)
    requires Shape(v) && Chained(v)
    ensures v.freeList == 0 <==> v.free == []
  {
    if v.free != [] {
      assert Link(v, |v.free| - 1);
    }
  }

  /** bmap() has allocated what was missing, if the free chain had it, and failed otherwise. */
  ghost predicate Settled(v: Vol, w: Vol, n: nat, bn: nat)
    requires Shape(v) && Shape(w)
  {
    OnlyMaps(v, w, n, bn) && if Missing(v, n, bn) <= |v.free| then Paid(v, w, n, bn) else BlockOf(w, n, bn) == 0
  }

  lemma DirectCounts(v: Vol, owner: Owner, slot: nat, bn: nat)
    requires Inv(v, owner) && HeldIn(v, slot) && Cached(v) && bn < NDIRECT
    ensures Headed(v) && Shape(DirectStep(v, slot, bn, true))
    ensures Settled(v, DirectStep(v, slot, bn, true), v.icache[slot].inum, bn)
  {
    var n := v.icache[slot].inum;
    DirectStepKeeps(v, owner, slot, bn, true);
    OpenFacts(v, slot);
    ChainEmpty(v);
    assert BlockOf(v, n, bn) == v.icache[slot].rec.direct[bn];
    var w := DirectStep(v, slot, bn, true);
    OpenFacts(w, slot);
    assert At(w, Indirect(n)) == At(v, Indirect(n));
  }

  /** What the first step of bmap() behind the indirect block leaves: an indirect block, or no free block. */
  ghost predicate FirstStep(v: Vol, u: Vol, o: Owner, slot: nat)
    requires HeldIn(v, slot)
  {
    var n := v.icache[slot].inum;
    && Inv(u, o) && HeldIn(u, slot) && Cached(u) && u.icache[slot].inum == n
    && At(u, Indirect(n)) == u.icache[slot].rec.indirect
    && (forall m: nat, k: nat :: BlockOf(u, m, k) == BlockOf(v, m, k))
    && if At(v, Indirect(n)) == 0 && v.free != [] then At(u, Indirect(n)) != 0 && |u.free| + 1 == |v.free| else u == v
  }

  lemma FirstStepCounts(v: Vol, owner: Owner, slot: nat) returns (o: Owner)
    requires Inv(v, owner) && HeldIn(v, slot) && Cached(v)
    ensures Headed(v) && FirstStep(v, AllocIndirectStep(v, slot, true), o, slot)
  {
    HeadInData(v);
    OpenFacts(v, slot);
    ChainEmpty(v);
    AllocIndirectKeeps(v, owner, slot, true);
    var u := AllocIndirectStep(v, slot, true);
    OpenFacts(u, slot);
    o := OwnerAfter(v, u, owner, Indirect(v.icache[slot].inum));
  }

  /** The second step, with the indirect block there. */
  lemma EntryCounts(u: Vol, owner: Owner, slot: nat, i: nat)
    requires Inv(u, owner) && HeldIn(u, slot) && Cached(u) && i < PTRS_PER_BLK && u.icache[slot].rec.indirect != 0
    ensures Headed(u) && u.icache[slot].rec.indirect < u.nblocks && Shape(EntryStep(u, slot, i, true))
    ensures Settled(u, EntryStep(u, slot, i, true), u.icache[slot].inum, i + NDIRECT)
  {
    var n, ib := u.icache[slot].inum, u.icache[slot].rec.indirect;
    EntryStepKeeps(u, owner, slot, i, true);
    OpenFacts(u, slot);
    ChainEmpty(u);
    IndirectInData(u, owner, slot);
    var w := EntryStep(u, slot, i, true);
    assert BlockOf(u, n, i + NDIRECT) == Pointer(u.blocks[ib], i);
    assert At(u, Indirect(n)) == At(w, Indirect(n)) == ib;
  }

  /** Without an indirect block there are no entries. */
  lemma NoEntries(v: Vol, n: nat, bn: nat)
    requires Shape(v) && At(v, Indirect(n)) == 0 && bn >= NDIRECT
    ensures BlockOf(v, n, bn) == 0
  {
  }

  lemma SettledInTwo(v: Vol, u: Vol, w: Vol, n: nat, bn: nat)
    requires Shape(v) && Shape(u) && Shape(w) && bn >= NDIRECT && Settled(u, w, n, bn)
    requires At(v, Indirect(n)) == 0 && At(u, Indirect(n)) != 0 && |u.free| + 1 == |v.free|
    requires forall m: nat, k: nat :: BlockOf(u, m, k) == BlockOf(v, m, k)
    ensures Settled(v, w, n, bn)
  {
    NoEntries(v, n, bn);
  }

  lemma SecondStepCounts(v: Vol, u: Vol, o: Owner, slot: nat, i: nat)
    requires HeldIn(v, slot) && FirstStep(v, u, o, slot) && i < PTRS_PER_BLK
    ensures Headed(u) && u.icache[slot].rec.indirect < u.nblocks && Shape(EntryStep(u, slot, i, true))
    ensures Settled(v, EntryStep(u, slot, i, true), v.icache[slot].inum, i + NDIRECT)
  {
    var n := v.icache[slot].inum;
    HeadInData(u);
    if u.icache[slot].rec.indirect == 0 {
      NoEntries(v, n, i + NDIRECT);
    } else {
      EntryCounts(u, o, slot, i);
      if At(v, Indirect(n)) == 0 {
        SettledInTwo(v, u, EntryStep(u, slot, i, true), n, i + NDIRECT);
      }
    }
  }

  /** bmap() succeeds exactly when the free chain has the missing blocks, and takes exactly these. */
  lemma BmapCounts(v: Vol, owner: Owner, slot: nat, bn: nat)
    requires Inv(v, owner) && HeldIn(v, slot) && Cached(v) && bn < MAX_FILE_BLOCKS
    ensures Headed(v) && Shape(BmapStep(v, slot, bn, true))
    ensures Settled(v, BmapStep(v, slot, bn, true), v.icache[slot].inum, bn)
  {
    if bn < NDIRECT {
      DirectCounts(v, owner, slot, bn);
    } else {
      var o := FirstStepCounts(v, owner, slot);
      SecondStepCounts(v, AllocIndirectStep(v, slot, true), o, slot, bn - NDIRECT);
    }
  }

  // ----- a range of blocks

  /** The unmapped blocks from `a` to `z`, the last one excluded. */
  function Holes(v: Vol, n: nat, a: nat, z: nat): nat
    requires Shape(v)
    decreases z
  {
    if a >= z then 0 else Holes(v, n, a, z - 1) + if BlockOf(v, n, z - 1) == 0 then 1 else 0
  }

  /** The blocks to be allocated for all of these, the indirect block included. */
  function Needed(v: Vol, n: nat, a: nat, z: nat): nat
    requires Shape(v)
  {
    Holes(v, n, a, z) + if a < z && z > NDIRECT && At(v, Indirect(n)) == 0 then 1 else 0
  }

  lemma {:induction false} HolesFilled(v: Vol, w: Vol, n: nat, bn: nat, a: nat, z: nat)
    requires Shape(v) && Shape(w) && OnlyMaps(v, w, n, bn) && BlockOf(w, n, bn) != 0
    ensures Holes(v, n, a, z) == Holes(w, n, a, z) + if a <= bn < z && BlockOf(v, n, bn) == 0 then 1 else 0
    decreases z
  {
    hide BlockOf;
    if a < z {
      HolesFilled(v, w, n, bn, a, z - 1);
    }
  }

  /** What is still needed after block `bn` of the range is there. */
  lemma NeededPaid(v: Vol, w: Vol, n: nat, bn: nat, a: nat, z: nat)
    requires Shape(v) && Shape(w) && Paid(v, w, n, bn) && a <= bn < z
    ensures Needed(v, n, a, z) == Needed(w, n, a, z) + Missing(v, n, bn)
  {
    HolesFilled(v, w, n, bn, a, z);
  }

  lemma {:induction false} HoleCounted(v: Vol, n: nat, bn: nat, a: nat, z: nat)
    requires Shape(v) && a <= bn < z
    ensures Missing(v, n, bn) <= Needed(v, n, a, z)
    decreases z
  {
    if bn < z - 1 {
      HoleCounted(v, n, bn, a, z - 1);
    }
  }

  lemma {:induction false} NeededGrows(v: Vol, n: nat, a: nat, z: nat, more: nat)
    requires Shape(v) && z <= more
    ensures Needed(v, n, a, z) <= Needed(v, n, a, more)
    decreases more
  {
    if z < more {
      NeededGrows(v, n, a, z, more - 1);
    }
  }

  lemma {:induction false} NoHoles(v: Vol, n: nat, a: nat, z: nat)
    requires Shape(v) && forall bn :: a <= bn < z ==> BlockOf(v, n, bn) != 0
    ensures Holes(v, n, a, z) == 0
    decreases z
  {
    if a < z {
      NoHoles(v, n, a, z - 1);
    }
  }

  lemma NothingNeeded(v: Vol, n: nat, a: nat, z: nat)
    requires Shape(v) && forall bn :: a <= bn < z ==> BlockOf(v, n, bn) != 0
    ensures Needed(v, n, a, z) == 0
  {
    NoHoles(v, n, a, z);
    if a < z && z > NDIRECT && At(v, Indirect(n)) == 0 {
      NoEntries(v, n, z - 1);
    }
  }

  // ----- a range of bytes

  /** The number of the block behind the last one that has a byte before `end`. */
  function EndBlock(end: nat): nat {
    (end + BLOCK_SIZE - 1) / BLOCK_SIZE
  }

  /** `k` bytes from `off` on can be written: they end within the largest file, and the free chain has the blocks that
      they need and the file does not have. */
  predicate RoomFor(v: Vol, n: nat, off: nat, k: nat)
    requires Shape(v)
  {
    k == 0 || (off + k <= MAX_FILE_BLOCKS * BLOCK_SIZE && Needed(v, n, off / BLOCK_SIZE, EndBlock(off + k)) <= |v.free|)
  }

  lemma EndBlockGrows(a: nat, b: nat)
    requires a <= b
    ensures EndBlock(a) <= EndBlock(b)
  {
  }

  lemma RoomForLess(v: Vol, n: nat, off: nat, k: nat, more: nat)
    requires Shape(v) && RoomFor(v, n, off, more) && k <= more
    ensures RoomFor(v, n, off, k)
  {
    EndBlockGrows(off + k, off + more);
    NeededGrows(v, n, off / BLOCK_SIZE, EndBlock(off + k), EndBlock(off + more));
  }

  /** From v to w the free chain has paid for all that a range beginning at `a` needed up to block `lo`. */
  ghost predicate Spent(v: Vol, w: Vol, n: nat, a: nat, lo: nat)
    requires Shape(v) && Shape(w)
  {
    forall z :: z >= lo ==> |w.free| + Needed(v, n, a, z) == |v.free| + Needed(w, n, a, z)
  }

  lemma SpentMore(v: Vol, w: Vol, x: Vol, n: nat, a: nat, lo: nat, bn: nat)
    requires Shape(v) && Shape(w) && Shape(x) && Spent(v, w, n, a, lo) && Paid(w, x, n, bn) && a <= bn && lo <= bn + 1
    ensures Spent(v, x, n, a, bn + 1)
  {
    forall z | z >= bn + 1
      ensures |x.free| + Needed(v, n, a, z) == |v.free| + Needed(x, n, a, z)
    {
      NeededPaid(w, x, n, bn, a, z);
    }
  }

  /** What was written had room. */
  lemma SpentRoom(v: Vol, w: Vol, n: nat, off: nat, data: seq<byte>)
    requires Shape(v) && Shape(w) && Contains(w, n, off, data)
    requires Spent(v, w, n, off / BLOCK_SIZE, EndBlock(off + |data|))
    ensures RoomFor(v, n, off, |data|)
  {
    if data == [] { return; }
    var a, z := off / BLOCK_SIZE, EndBlock(off + |data|);
    forall bn | a <= bn < z
      ensures BlockOf(w, n, bn) != 0
    {
      var o := if bn == a then off else bn * BLOCK_SIZE;
      assert off <= o < off + |data| && o / BLOCK_SIZE == bn;
      assert Mapped(w, n, o);
    }
    NothingNeeded(w, n, a, z);
    assert BlockOf(w, n, z - 1) != 0;
  }

  /** Where the next block cannot be had, not even one byte more has room. */
  lemma NoRoom(v: Vol, w: Vol, n: nat, off: nat, k: nat)
    requires Shape(v) && Shape(w) && Spent(v, w, n, off / BLOCK_SIZE, EndBlock(off + k))
    requires var bn := (off + k) / BLOCK_SIZE; bn >= MAX_FILE_BLOCKS || Missing(w, n, bn) > |w.free|
    ensures !RoomFor(v, n, off, k + 1)
  {
    var a, bn := off / BLOCK_SIZE, (off + k) / BLOCK_SIZE;
    assert EndBlock(off + k + 1) == bn + 1;
    if bn < MAX_FILE_BLOCKS {
      HoleCounted(w, n, bn, a, bn + 1);
    }
  }

  /** Writing into a data block changes no pointer. */
  lemma PaidAndFilled(v: Vol, u: Vol, owner: Owner, n: nat, bn: nat, d: Block)
    requires Shape(v) && Inv(u, owner) && Paid(v, u, n, bn)
    ensures var w := u.(blocks := u.blocks[BlockOf(u, n, bn) := d]); Shape(w) && Paid(v, w, n, bn)
  {
    DataWriteKeeps(u, owner, n, bn, d);
    var w := u.(blocks := u.blocks[BlockOf(u, n, bn) := d]);
    forall m: nat, k: nat
      ensures BlockOf(w, m, k) == BlockOf(u, m, k)
    {
    }
    assert At(w, Indirect(n)) == At(u, Indirect(n));
  }

  lemma ChunkSpent(v: Vol, w: Vol, x: Vol, n: nat, off: nat, done: nat, c: nat)
    requires Shape(v) && Shape(w) && Shape(x) && Spent(v, w, n, off / BLOCK_SIZE, EndBlock(off + done))
    requires Paid(w, x, n, (off + done) / BLOCK_SIZE) && 0 < c <= BLOCK_SIZE - (off + done) % BLOCK_SIZE
    ensures Spent(v, x, n, off / BLOCK_SIZE, EndBlock(off + done + c))
  {
    SpentMore(v, w, x, n, off / BLOCK_SIZE, EndBlock(off + done), (off + done) / BLOCK_SIZE);
  }

  /** The loop of fs_write(), after `done` bytes. */
  ghost predicate Progress(v: Vol, w: Vol, owner: Owner, slot: nat, off: nat, data: seq<byte>, done: nat)
    requires HeldIn(v, slot) && done <= |data|
  {
    && WrittenSoFar(v, w, owner, slot, off, data, done)
    && Spent(v, w, v.icache[slot].inum, off / BLOCK_SIZE, EndBlock(off + done))
  }

  lemma RoomSoFar(v: Vol, w: Vol, owner: Owner, slot: nat, off: nat, data: seq<byte>, done: nat)
    requires HeldIn(v, slot) && done <= |data| && Progress(v, w, owner, slot, off, data, done)
    ensures WrittenSoFar(v, w, owner, slot, off, data, done) && RoomFor(v, v.icache[slot].inum, off, done)
  {
    SpentRoom(v, w, v.icache[slot].inum, off, data[..done]);
  }

  lemma ProgressStart(v: Vol, owner: Owner, slot: nat, off: nat, data: seq<byte>)
    requires HeldIn(v, slot) && Inv(v, owner) && Cached(v)
    ensures Progress(v, v, owner, slot, off, data, 0)
  {
    WriteStart(v, owner, slot, off, data);
  }

  lemma ChunkDone(v: Vol, w: Vol, x: Vol, owner: Owner, owner': Owner, slot: nat, off: nat, data: seq<byte>, done: nat,
                  c: nat)
    requires HeldIn(v, slot) && HeldIn(w, slot) && done + c <= |data| && Progress(v, w, owner, slot, off, data, done)
    requires Inv(x, owner') && OnlyPointers(w, x, slot) && 0 < c <= BLOCK_SIZE - (off + done) % BLOCK_SIZE
    requires var n := x.icache[slot].inum;
      && Contains(x, n, off + done, data[done..done + c]) && Untouched(w, x, n, off + done, off + done + c)
      && Paid(w, x, n, (off + done) / BLOCK_SIZE)
    ensures HeldIn(x, slot) && x.icache[slot].inum == v.icache[slot].inum
    ensures WrittenSoFar(v, x, owner', slot, off, data, done + c)
    ensures Progress(v, x, owner', slot, off, data, done + c)
  {
    ChunkSpent(v, w, x, v.icache[slot].inum, off, done, c);
    WriteGrows(v, w, x, owner, owner', slot, off, data, done, c);
  }

  lemma ChunkFailed(v: Vol, w: Vol, x: Vol, owner: Owner, owner': Owner, slot: nat, off: nat, data: seq<byte>,
                    done: nat)
    requires HeldIn(v, slot) && HeldIn(w, slot) && done <= |data| && Progress(v, w, owner, slot, off, data, done)
    requires Inv(x, owner') && OnlyPointers(w, x, slot)
    requires var n, bn := x.icache[slot].inum, (off + done) / BLOCK_SIZE;
      Untouched(w, x, n, off + done, off + done) && (bn >= MAX_FILE_BLOCKS || Missing(w, n, bn) > |w.free|)
    ensures HeldIn(x, slot) && x.icache[slot].inum == v.icache[slot].inum
    ensures WrittenSoFar(v, x, owner', slot, off, data, done)
    ensures !RoomFor(v, v.icache[slot].inum, off, done + 1)
  {
    NoRoom(v, w, v.icache[slot].inum, off, done);
    WriteGrows(v, w, x, owner, owner', slot, off, data, done, 0);
  }

  /** One turn of it: what holds when the bytes are in the block that bmap() found. */
  lemma BlockWritten(v: Vol, u: Vol, owner: Owner, slot: nat, off: nat, src: seq<byte>, b: u16)
    requires HeldIn(v, slot) && Inv(u, owner) && Cached(u) && off % BLOCK_SIZE + |src| <= BLOCK_SIZE
    requires BmapSpec(v, u, slot, off / BLOCK_SIZE, true, b) && b != 0
    requires Paid(v, u, v.icache[slot].inum, off / BLOCK_SIZE)
    ensures b < u.nblocks
    ensures var w := u.(blocks := u.blocks[b := Patch(u.blocks[b], off % BLOCK_SIZE, src)]);
            var n := v.icache[slot].inum;
            && Inv(w, owner) && Cached(w) && OnlyPointers(v, w, slot)
            && Contains(w, n, off, src) && Untouched(v, w, n, off, off + |src|) && Paid(v, w, n, off / BLOCK_SIZE)
  {
    ChunkWritten(v, u, owner, slot, off, src, b);
    PaidAndFilled(v, u, owner, v.icache[slot].inum, off / BLOCK_SIZE, Patch(u.blocks[b], off % BLOCK_SIZE, src));
    CachedAfterPointers(u, u.(blocks := u.blocks[b := Patch(u.blocks[b], off % BLOCK_SIZE, src)]), slot);
  }
}
