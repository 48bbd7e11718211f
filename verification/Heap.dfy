/** The kernel heap of kernel/mem.c: blocks that tile the heap, the address-ordered free list, first fit with
  splitting, and free with coalescing on both sides. */
module Heap {

  const HDR: int := 8
  const T32: int := 0x1_0000_0000

  type u32 = x: int | 0 <= x < 0x1_0000_0000

  /** The heap [start, end); `blocks` gives the size of every block, free or in use, by its address, and `free` is
      the free list. */
  datatype State = State(start: int, end: int, blocks: map<int, int>, free: seq<int>)

  /** Blocks are not empty and stay in the heap. */
  ghost predicate Inside(s: State) {
    && 0 < s.start < s.end && s.start in s.blocks
    && forall a :: a in s.blocks ==> s.start <= a && 0 < s.blocks[a] && a + s.blocks[a] <= s.end
  }

  /** Behind a block comes another one, or the end of the heap. */
  ghost predicate Chained(s: State) {
    forall a :: a in s.blocks ==> a + s.blocks[a] == s.end || a + s.blocks[a] in s.blocks
  }

  ghost predicate Disjoint(s: State) {
    forall a, b :: a in s.blocks && b in s.blocks && a < b ==> a + s.blocks[a] <= b
  }

  /** The blocks lie end to end from start to end. */
  ghost predicate Tiled(s: State) {
    Inside(s) && Chained(s) && Disjoint(s)
  }

  /** Addresses and sizes are multiples of four, and every block has room for its header. */
  ghost predicate Aligned(s: State) {
    forall a :: a in s.blocks ==> a % 4 == 0 && s.blocks[a] % 4 == 0 && s.blocks[a] >= HDR
  }

  predicate Ascending(f: seq<int>) {
    forall i, j :: 0 <= i < j < |f| ==> f[i] < f[j]
  }

  predicate FreeBlocks(s: State) {
    forall i :: 0 <= i < |s.free| ==> s.free[i] in s.blocks
  }

  /** The free list is in address order, and no free block borders on another one. */
  ghost predicate Listed(s: State) {
    Ascending(s.free) && FreeBlocks(s) && forall i :: 0 <= i < |s.free| - 1 ==> Gap(s, i)
  }

  /** Free block number `i` ends before the next one in the list starts. */
  predicate Gap(s: State, i: int)
    requires FreeBlocks(s) && 0 <= i < |s.free| - 1
  {
    s.free[i] + s.blocks[s.free[i]] < s.free[i + 1]
  }

  ghost predicate Inv(s: State) {
    Tiled(s) && Aligned(s) && Listed(s)
  }

  predicate InUse(s: State, a: int) {
    a in s.blocks && a !in s.free
  }

  /** mem_init() */
  function Initial(start: int, end: int): State {
    State(start, end, map[start := end - start], [start])
  }

  lemma InitialInv(start: int, end: int)
    requires 0 < start && start % 4 == 0 && end % 4 == 0 && start + HDR <= end
    ensures Inv(Initial(start, end))
  {
  }

  // ----- what the invariant means

  /** Byte x belongs to the block at a. */
  predicate Holds(s: State, a: int, x: int) {
    a in s.blocks && a <= x < a + s.blocks[a]
  }

  /** Every byte of the heap belongs to exactly one block. */
  lemma {:induction false} EveryByteOnce(s: State, x: int) returns (a: int)
    requires Tiled(s) && s.start <= x < s.end
    ensures Holds(s, a, x) && forall b :: Holds(s, b, x) ==> b == a
    decreases x
  {
    if x == s.start {
      a := s.start;
    } else {
      a := EveryByteOnce(s, x - 1);
      if x == a + s.blocks[a] {
        a := x;
      }
    }
  }

  /** No free block borders on another free block. */
  lemma NoFreeNeighbours(s: State, i: nat, j: nat)
    requires Inv(s) && i < |s.free| && j < |s.free|
    ensures s.free[i] + s.blocks[s.free[i]] != s.free[j]
  {
    if i + 1 < j {
      assert Gap(s, i) && s.free[i + 1] < s.free[j];
    } else if j == i + 1 {
      assert Gap(s, i);
    } else if j < i {
      assert s.free[j] < s.free[i];
    }
  }

  /** When every block has been freed, in whatever order, the heap is one free block of the initial size. */
  lemma AllFree(s: State)
    requires Inv(s) && forall a :: !InUse(s, a)
    ensures s == Initial(s.start, s.end)
  {
    var e := s.start + s.blocks[s.start];
    assert !InUse(s, s.start) && !InUse(s, e);
    var i :| 0 <= i < |s.free| && s.free[i] == s.start;
    if e in s.blocks {
      var j :| 0 <= j < |s.free| && s.free[j] == e;
      NoFreeNeighbours(s, i, j);
    }
    OneBlock(s);
  }

  lemma OneBlock(s: State)
    requires Tiled(s) && Ascending(s.free) && FreeBlocks(s) && s.start in s.free && s.start + s.blocks[s.start] == s.end
    ensures s == Initial(s.start, s.end)
  {
    assert forall a :: a in s.blocks ==> a == s.start;
    assert s.blocks == map[s.start := s.end - s.start];
    forall i | 0 <= i < |s.free|
      ensures s.free[i] == s.start
    {
      assert s.free[i] in s.blocks;
    }
    Single(s.free, s.start);
  }

  lemma Single(f: seq<int>, a: int)
    requires Ascending(f) && a in f && forall i :: 0 <= i < |f| ==> f[i] == a
    ensures f == [a]
  {
    var n := |f| - 1;
    var x, y := f[0], f[n];
    assert x == a && y == a;
  }

  // ----- merging two neighbours, and splitting a block

  /** The block at a takes in the one behind it. */
  function Merge(s: State, a: int): (t: State)
    requires a in s.blocks && a + s.blocks[a] in s.blocks
    ensures forall x :: x in t.blocks <==> x in s.blocks && (x != a + s.blocks[a] || x == a)
  {
    var b := a + s.blocks[a];
    s.(blocks := map x | x in s.blocks && (x != b || x == a) ::
         if x == a then s.blocks[a] + s.blocks[b] else s.blocks[x])
  }

  lemma MergeInside(s: State, a: int)
    requires Tiled(s) && a in s.blocks && a + s.blocks[a] in s.blocks
    ensures Inside(Merge(s, a))
  {
  }

  lemma MergeChained(s: State, a: int)
    requires Tiled(s) && a in s.blocks && a + s.blocks[a] in s.blocks
    ensures Chained(Merge(s, a))
  {
    var t, b := Merge(s, a), a + s.blocks[a];
    forall x | x in t.blocks
      ensures x + t.blocks[x] == t.end || x + t.blocks[x] in t.blocks
    {
      if x == a {
        assert b + s.blocks[b] == s.end || b + s.blocks[b] in s.blocks;
      } else {
        assert x < a || b < x;
      }
    }
  }

  lemma MergeDisjoint(s: State, a: int)
    requires Tiled(s) && a in s.blocks && a + s.blocks[a] in s.blocks
    ensures Disjoint(Merge(s, a))
  {
    var t, b := Merge(s, a), a + s.blocks[a];
    forall x, y | x in t.blocks && y in t.blocks && x < y
      ensures x + t.blocks[x] <= y
    {
      assert x == a ==> b < y;
    }
  }

  lemma MergeAligned(s: State, a: int)
    requires Aligned(s) && a in s.blocks && a + s.blocks[a] in s.blocks
    ensures Aligned(Merge(s, a))
  {
    assert s.blocks[a] % 4 == 0 && s.blocks[a + s.blocks[a]] % 4 == 0;
  }

  lemma MergeKeeps(s: State, a: int)
    requires Tiled(s) && Aligned(s) && a in s.blocks && a + s.blocks[a] in s.blocks
    ensures Tiled(Merge(s, a)) && Aligned(Merge(s, a))
  {
    MergeInside(s, a);
    MergeChained(s, a);
    MergeDisjoint(s, a);
    MergeAligned(s, a);
  }

  /** The first n bytes of the block at p become a block, and the rest another one. */
  function Split(s: State, p: int, n: int): State
    requires p in s.blocks
  {
    s.(blocks := s.blocks[p + n := s.blocks[p] - n][p := n])
  }

  lemma SplitDisjoint(s: State, p: int, n: int)
    requires Tiled(s) && p in s.blocks && 0 < n < s.blocks[p]
    ensures Disjoint(Split(s, p, n)) && p + n !in s.blocks
  {
    var t := Split(s, p, n);
    forall x, y | x in t.blocks && y in t.blocks && x < y
      ensures x + t.blocks[x] <= y
    {
      assert x in s.blocks && y in s.blocks ==> x + s.blocks[x] <= y;
      assert x in s.blocks && x < p ==> x + s.blocks[x] <= p;
      assert y in s.blocks && p < y ==> p + s.blocks[p] <= y;
    }
  }

  lemma SplitInside(s: State, p: int, n: int)
    requires Inside(s) && Chained(s) && p in s.blocks && 0 < n < s.blocks[p]
    ensures Inside(Split(s, p, n))
  {
  }

  /** Behind block x is another one, or the end. */
  lemma SplitNext(s: State, p: int, n: int, x: int)
    requires Chained(s) && p in s.blocks && 0 < n < s.blocks[p] && p + n !in s.blocks && x in Split(s, p, n).blocks
    ensures var t := Split(s, p, n); x + t.blocks[x] == t.end || x + t.blocks[x] in t.blocks
  {
    var y := if x == p + n then p else x;
    assert y + s.blocks[y] == s.end || y + s.blocks[y] in s.blocks;
  }

  lemma SplitChained(s: State, p: int, n: int)
    requires Tiled(s) && p in s.blocks && 0 < n < s.blocks[p]
    ensures Chained(Split(s, p, n)) && Inside(Split(s, p, n))
  {
    hide Disjoint, Inside;
    SplitDisjoint(s, p, n);
    SplitInside(s, p, n);
    var t := Split(s, p, n);
    forall x | x in t.blocks
      ensures x + t.blocks[x] == t.end || x + t.blocks[x] in t.blocks
    {
      SplitNext(s, p, n, x);
    }
  }

  lemma Multiples(a: int, b: int)
    requires a % 4 == 0 && b % 4 == 0
    ensures (a + b) % 4 == 0 && (a - b) % 4 == 0
  {
  }

  lemma SplitAligned(s: State, p: int, n: int)
    requires Aligned(s) && p in s.blocks && n % 4 == 0 && HDR <= n <= s.blocks[p] - HDR
    ensures Aligned(Split(s, p, n))
  {
    var t := Split(s, p, n);
    Multiples(p, n);
    Multiples(s.blocks[p], n);
    forall a | a in t.blocks
      ensures a % 4 == 0 && t.blocks[a] % 4 == 0 && t.blocks[a] >= HDR
    {
      if a != p && a != p + n {
        assert a in s.blocks;
      }
    }
  }

  lemma SplitKeeps(s: State, p: int, n: int)
    requires Tiled(s) && Aligned(s) && p in s.blocks && n % 4 == 0 && HDR <= n <= s.blocks[p] - HDR
    ensures Tiled(Split(s, p, n)) && Aligned(Split(s, p, n)) && p + n !in s.blocks
  {
    SplitDisjoint(s, p, n);
    SplitChained(s, p, n);
    SplitAligned(s, p, n);
  }

  // ----- kmalloc()

  /** ALIGN(size + BLOCK_HDR_SIZE) in 32 bits */
  function Total(size: u32): u32 {
    (size + HDR + 3) % T32 / 4 * 4
  }

  /** A block of that size has room for the request and its header exactly when the sum does not wrap around. */
  lemma TotalCovers(size: u32)
    ensures Total(size) >= size + HDR <==> size + HDR + 3 < T32
    ensures size + HDR + 3 < T32 ==> Total(size) < size + HDR + 4 && Total(size) % 4 == 0
  {
  }

  /** The first block in the free list from `i` on with `total` bytes, or its length. */
  function FirstFit(s: State, total: int, i: nat): (k: nat)
    requires i <= |s.free| && FreeBlocks(s)
    ensures i <= k <= |s.free| && (k < |s.free| ==> s.blocks[s.free[k]] >= total)
    decreases |s.free| - i
  {
    if i == |s.free| || s.blocks[s.free[i]] >= total then i else FirstFit(s, total, i + 1)
  }

  lemma {:induction false} FirstFitFirst(s: State, total: int, i: nat)
    requires i <= |s.free| && FreeBlocks(s)
    ensures forall j :: i <= j < FirstFit(s, total, i) ==> s.blocks[s.free[j]] < total
    decreases |s.free| - i
  {
    if i < |s.free| && s.blocks[s.free[i]] < total {
      FirstFitFirst(s, total, i + 1);
    }
  }

  /** The block number `k` of the free list is taken, after its rest is split off if it is long enough. */
  function Take(s: State, total: int, k: nat): State
    requires k < |s.free| && s.free[k] in s.blocks
  {
    var p := s.free[k];
    if s.blocks[p] >= total + HDR + 16 then Split(s, p, total).(free := s.free[k := p + total])
    else s.(free := Remove(s.free, k))
  }

  /** kmalloc(): the new state, and the address of the block, or 0. */
  function AllocStep(s: State, size: u32): (State, int)
    requires FreeBlocks(s)
  {
    var k := FirstFit(s, Total(size), 0);
    if k == |s.free| then (s, 0) else (Take(s, Total(size), k), s.free[k])
  }

  /** What is taken off a longer block is a block itself. */
  predicate Splittable(s: State, total: int, k: nat)
    requires k < |s.free| && s.free[k] in s.blocks
  {
    && total % 4 == 0 && total <= s.blocks[s.free[k]]
    && (s.blocks[s.free[k]] >= total + HDR + 16 ==> HDR <= total)
  }

  lemma TakeTiled(s: State, total: int, k: nat)
    requires Inv(s) && k < |s.free| && s.free[k] in s.blocks && Splittable(s, total, k)
    ensures Tiled(Take(s, total, k)) && Aligned(Take(s, total, k))
  {
    var p := s.free[k];
    if s.blocks[p] >= total + HDR + 16 {
      SplitKeeps(s, p, total);
      assert Take(s, total, k).blocks == Split(s, p, total).blocks;
    }
  }

  lemma SplitListed(s: State, total: int, k: nat)
    requires Inv(s) && k < |s.free| && total % 4 == 0 && HDR <= total && s.blocks[s.free[k]] >= total + HDR + 16
    ensures Listed(Take(s, total, k))
  {
    hide Chained, Inside, Aligned;
    var p, t := s.free[k], Take(s, total, k);
    SplitKeeps(s, p, total);
    forall i | 0 <= i < |t.free| - 1
      ensures Gap(t, i)
    {
      assert Gap(s, i);
    }
    forall i | k < i < |s.free|
      ensures p + s.blocks[p] <= s.free[i]
    {
    }
  }

  function Remove(f: seq<int>, k: nat): (r: seq<int>)
    requires k < |f|
    ensures |r| == |f| - 1 && forall i :: 0 <= i < |r| ==> r[i] == if i < k then f[i] else f[i + 1]
  {
    f[..k] + f[k + 1..]
  }

  lemma RemoveListed(s: State, k: nat)
    requires Inv(s) && k < |s.free|
    ensures Listed(s.(free := Remove(s.free, k)))
  {
    var t := s.(free := Remove(s.free, k));
    forall i | 0 <= i < |t.free| - 1
      ensures Gap(t, i)
    {
      if i == k - 1 {
        assert Gap(s, i) && s.free[i + 1] < s.free[i + 2];
      } else {
        assert Gap(s, if i < k then i else i + 1);
      }
    }
  }

  lemma RemoveMembers(f: seq<int>, k: nat, a: int)
    requires Ascending(f) && k < |f|
    ensures a in Remove(f, k) <==> a in f && a != f[k]
  {
    if a in f && a != f[k] {
      var i :| 0 <= i < |f| && f[i] == a;
      assert Remove(f, k)[if i < k then i else i - 1] == a;
    }
  }

  lemma UpdateMembers(f: seq<int>, k: nat, x: int, a: int)
    requires Ascending(f) && k < |f|
    ensures a in f[k := x] <==> a == x || (a in f && a != f[k])
  {
    assert f[k := x][k] == x;
    if a in f && a != f[k] {
      var i :| 0 <= i < |f| && f[i] == a;
      assert f[k := x][i] == a;
    }
  }

  lemma TakeUses(s: State, total: int, k: nat)
    requires Inv(s) && k < |s.free| && s.free[k] in s.blocks && Splittable(s, total, k)
    ensures var t := Take(s, total, k);
            && InUse(t, s.free[k]) && t.blocks[s.free[k]] >= total
            && (forall a :: a != s.free[k] ==> (InUse(t, a) <==> InUse(s, a)))
            && (forall a :: InUse(s, a) ==> t.blocks[a] == s.blocks[a])
  {
    var p := s.free[k];
    var t := Take(s, total, k);
    if s.blocks[p] >= total + HDR + 16 {
      SplitKeeps(s, p, total);
      forall a
        ensures a in t.free <==> a == p + total || (a in s.free && a != p)
      {
        UpdateMembers(s.free, k, p + total, a);
      }
    } else {
      forall a
        ensures a in t.free <==> a in s.free && a != p
      {
        RemoveMembers(s.free, k, a);
      }
    }
  }

  /** A size that wraps around to less than a header, and a first free block that is long enough to be split. */
  predicate Breaks(s: State, size: u32)
    requires FreeBlocks(s)
  {
    Total(size) < HDR && s.free != [] && s.blocks[s.free[0]] >= Total(size) + HDR + 16
  }

  lemma BrokenBy(s: State, size: u32)
    requires Inv(s) && Breaks(s, size)
    ensures FirstFit(s, Total(size), 0) == 0 && !Inv(AllocStep(s, size).0)
  {
    var p, t := s.free[0], AllocStep(s, size).0;
    assert p in s.blocks && s.blocks[p] >= HDR;
    assert p in t.blocks && t.blocks[p] == Total(size) < HDR;
  }

  /** kmalloc() keeps the invariant exactly when the call does not break it in this way. Then the block returned was
      free, no block in use is touched, and the call fails exactly when no free block is large enough. */
  lemma AllocKeeps(s: State, size: u32)
    requires Inv(s)
    ensures var (t, p) := AllocStep(s, size);
            && (Inv(t) <==> !Breaks(s, size)) && (p == 0 ==> t == s)
            && (p == 0 <==> forall i :: 0 <= i < |s.free| ==> s.blocks[s.free[i]] < Total(size))
            && (p != 0 && !Breaks(s, size) ==> p in s.free && InUse(t, p) && t.blocks[p] >= Total(size))
            && (!Breaks(s, size) ==> forall a :: a != p ==> (InUse(t, a) <==> InUse(s, a)))
            && (!Breaks(s, size) ==> forall a :: InUse(s, a) ==> t.blocks[a] == s.blocks[a])
  {
    var k := FirstFit(s, Total(size), 0);
    FirstFitFirst(s, Total(size), 0);
    if k == |s.free| { return; }
    assert s.free[k] in s.blocks;
    if Breaks(s, size) {
      BrokenBy(s, size);
      return;
    }
    TakeKeeps(s, size, k);
  }

  lemma Unsplit(s: State, size: u32, k: nat)
    requires Inv(s) && !Breaks(s, size) && k == FirstFit(s, Total(size), 0) < |s.free|
    ensures s.free[k] in s.blocks && Splittable(s, Total(size), k)
  {
    assert s.free[k] in s.blocks;
    assert Total(size) < HDR ==> k == 0 by {
      assert s.free[0] in s.blocks;
    }
  }

  lemma TakeKeeps(s: State, size: u32, k: nat)
    requires Inv(s) && !Breaks(s, size) && k == FirstFit(s, Total(size), 0) < |s.free|
    ensures var t, p := Take(s, Total(size), k), s.free[k];
            && Inv(t) && p != 0 && InUse(t, p) && t.blocks[p] >= Total(size)
            && (forall a :: a != p ==> (InUse(t, a) <==> InUse(s, a)))
            && (forall a :: InUse(s, a) ==> t.blocks[a] == s.blocks[a])
  {
    Unsplit(s, size, k);
    TakeTiled(s, Total(size), k);
    if s.blocks[s.free[k]] >= Total(size) + HDR + 16 {
      SplitListed(s, Total(size), k);
    } else {
      RemoveListed(s, k);
    }
    TakeUses(s, Total(size), k);
  }

  /** Which block it is and how long: the first one in the list that is long enough; cut to the length asked for when
      the rest has room for a header and 16 bytes. */
  lemma AllocChooses(s: State, size: u32)
    requires Inv(s) && AllocStep(s, size).1 != 0
    ensures var (t, p) := AllocStep(s, size);
            && (exists k :: 0 <= k < |s.free| && s.free[k] == p
                  && forall j :: 0 <= j < k ==> s.blocks[s.free[j]] < Total(size))
            && p in s.blocks && p in t.blocks && s.blocks[p] >= Total(size)
            && t.blocks[p] == if s.blocks[p] >= Total(size) + 24 then Total(size) else s.blocks[p]
  {
    var k := FirstFit(s, Total(size), 0);
    FirstFitFirst(s, Total(size), 0);
    assert k < |s.free| && s.free[k] in s.blocks;
  }

  /** In a heap of 32-bit addresses, the block returned has room for the request and its header exactly when the size
      does not wrap around. */
  lemma AllocCovers(s: State, size: u32)
    requires Inv(s) && s.end <= T32 && AllocStep(s, size).1 != 0 && !Breaks(s, size)
    ensures var (t, p) := AllocStep(s, size); p in t.blocks && (t.blocks[p] >= size + HDR <==> size + HDR + 3 < T32)
  {
    AllocKeeps(s, size);
    TotalCovers(size);
    var (t, p) := AllocStep(s, size);
    assert p in t.blocks && p % 4 == 0 && t.start in t.blocks && t.start % 4 == 0;
    assert p + t.blocks[p] <= t.end == s.end;
  }

  /** Such a heap and such a request: it is granted, in a block of no bytes. */
  lemma WrappedRequest()
    ensures var s, size := Initial(4096, 8192), 0xFFFF_FFF5;
            && Inv(s) && Breaks(s, size) && AllocStep(s, size).1 == 4096
            && var t := AllocStep(s, size).0; 4096 in t.blocks && t.blocks[4096] == 0 && !Inv(t)
  {
    var s := Initial(4096, 8192);
    InitialInv(4096, 8192);
    BrokenBy(s, 0xFFFF_FFF5);
  }

  // ----- what is in use determines the heap

  ghost predicate SameUse(s: State, t: State) {
    && s.start == t.start && s.end == t.end
    && forall a :: (InUse(s, a) <==> InUse(t, a)) && (InUse(s, a) ==> s.blocks[a] == t.blocks[a])
  }

  /** Behind a free block is a block in use or the end. */
  lemma BehindFree(s: State, a: int)
    requires Inv(s) && a in s.free
    ensures a in s.blocks && (a + s.blocks[a] == s.end || InUse(s, a + s.blocks[a]))
  {
    var i :| 0 <= i < |s.free| && s.free[i] == a;
    assert s.free[i] in s.blocks;
    if a + s.blocks[a] in s.free {
      var j :| 0 <= j < |s.free| && s.free[j] == a + s.blocks[a];
      NoFreeNeighbours(s, i, j);
    }
  }

  lemma NotShorter(s: State, t: State, a: int)
    requires Inv(s) && Inv(t) && SameUse(s, t) && a in s.free && a in t.free
    ensures a in s.blocks && a in t.blocks && s.blocks[a] >= t.blocks[a]
  {
    BehindFree(s, a);
    BehindFree(t, a);
    var e := a + s.blocks[a];
    assert e != s.end ==> InUse(t, e);
  }

  lemma SameBlock(s: State, t: State, a: int)
    requires Inv(s) && Inv(t) && SameUse(s, t) && a in s.blocks && a in t.blocks
    ensures s.blocks[a] == t.blocks[a] && (a in s.free <==> a in t.free)
  {
    assert InUse(s, a) <==> InUse(t, a);
    if a in s.free {
      NotShorter(s, t, a);
      NotShorter(t, s, a);
    }
  }

  lemma {:induction false} BlockInBoth(s: State, t: State, a: int)
    requires Inv(s) && Inv(t) && SameUse(s, t) && a in s.blocks
    ensures a in t.blocks
    decreases a
  {
    if a > s.start {
      var b := EveryByteOnce(s, a - 1);
      assert b + s.blocks[b] == a;
      BlockInBoth(s, t, b);
      SameBlock(s, t, b);
    }
  }

  lemma {:induction false} AscendingSame(f: seq<int>, g: seq<int>)
    requires Ascending(f) && Ascending(g) && forall a :: a in f <==> a in g
    ensures f == g
    decreases |f|
  {
    assert (f != [] ==> f[0] in f) && (g != [] ==> g[0] in g);
    if f == [] || g == [] { return; }
    FirstSame(f, g);
    forall a
      ensures a in f[1..] <==> a in g[1..]
    {
      if a in f[1..] {
        var i :| 0 <= i < |f| - 1 && f[1..][i] == a;
        assert f[0] < f[i + 1] && a in f;
      }
      if a in g[1..] {
        var i :| 0 <= i < |g| - 1 && g[1..][i] == a;
        assert g[0] < g[i + 1] && a in g;
      }
    }
    AscendingSame(f[1..], g[1..]);
    assert f == [f[0]] + f[1..] && g == [g[0]] + g[1..];
  }

  lemma FirstSame(f: seq<int>, g: seq<int>)
    requires Ascending(f) && Ascending(g) && f != [] && g != [] && forall a :: a in f <==> a in g
    ensures f[0] == g[0]
  {
    assert f[0] in f && g[0] in g;
  }

  /** A heap is determined by the blocks in use: there is one way to tile the rest with free blocks of which no two
      border on each other. So kmalloc() and kfree() are determined by what they do to the blocks in use. */
  lemma UsedDetermine(s: State, t: State)
    requires Inv(s) && Inv(t) && SameUse(s, t)
    ensures s == t
  {
    forall a
      ensures a in s.blocks <==> a in t.blocks
      ensures a in s.blocks && a in t.blocks ==> s.blocks[a] == t.blocks[a] && (a in s.free <==> a in t.free)
    {
      if a in s.blocks { BlockInBoth(s, t, a); }
      if a in t.blocks { BlockInBoth(t, s, a); }
      if a in s.blocks { SameBlock(s, t, a); }
    }
    assert s.blocks == t.blocks;
    forall a
      ensures a in s.free <==> a in t.free
    {
      assert a in s.free ==> a in s.blocks;
      assert a in t.free ==> a in t.blocks;
    }
    AscendingSame(s.free, t.free);
  }

  // ----- kfree()

  /** Where p goes in the free list from `i` on. */
  function Position(f: seq<int>, p: int, i: nat): (k: nat)
    requires i <= |f|
    ensures i <= k <= |f| && (k < |f| ==> f[k] >= p)
    decreases |f| - i
  {
    if i == |f| || f[i] >= p then i else Position(f, p, i + 1)
  }

  lemma {:induction false} PositionLeast(f: seq<int>, p: int, i: nat)
    requires i <= |f|
    ensures forall j :: i <= j < Position(f, p, i) ==> f[j] < p
    decreases |f| - i
  {
    if i < |f| && f[i] < p {
      PositionLeast(f, p, i + 1);
    }
  }

  function Insert(f: seq<int>, k: nat, p: int): (r: seq<int>)
    requires k <= |f|
    ensures |r| == |f| + 1
    ensures forall i :: 0 <= i < |r| ==> r[i] == if i < k then f[i] else if i == k then p else f[i - 1]
  {
    f[..k] + [p] + f[k..]
  }

  /** Block number `k` of the free list takes in the next one, if it borders on it. */
  function Coalesce(s: State, k: nat): (t: State)
    requires FreeBlocks(s) && k < |s.free|
  {
    if k + 1 < |s.free| && s.free[k] + s.blocks[s.free[k]] == s.free[k + 1]
    then Merge(s, s.free[k]).(free := Remove(s.free, k + 1))
    else s
  }

  /** The two coalescing steps of kfree(). */
  function JoinBoth(t: State, k: nat): State
    requires FreeBlocks(t) && k < |t.free|
  {
    var u := Coalesce(t, k);
    if k > 0 && FreeBlocks(u) && k <= |u.free| then Coalesce(u, k - 1) else u
  }

  /** kfree() of the block at p: into the list, together with the next one, and the previous one together with it. */
  function FreeStep(s: State, p: int): State
    requires FreeBlocks(s) && p in s.blocks
  {
    var k := Position(s.free, p, 0);
    JoinBoth(s.(free := Insert(s.free, k, p)), k)
  }

  /** The free list as it should be, but for possible borders between block `first`, or `second`, and the next one. */
  ghost predicate Almost(s: State, first: int, second: int) {
    && Ascending(s.free) && FreeBlocks(s)
    && forall i :: 0 <= i < |s.free| - 1 && i != first && i != second ==> Gap(s, i)
  }

  lemma InsertAscending(f: seq<int>, k: nat, p: int)
    requires Ascending(f) && k <= |f| && (forall j :: 0 <= j < k ==> f[j] < p)
      && (forall j :: k <= j < |f| ==> p < f[j])
    ensures Ascending(Insert(f, k, p))
  {
  }

  lemma PositionSplits(f: seq<int>, p: int)
    requires Ascending(f) && p !in f
    ensures var k := Position(f, p, 0); (forall j :: 0 <= j < k ==> f[j] < p) && (forall j :: k <= j < |f| ==> p < f[j])
  {
    PositionLeast(f, p, 0);
    var k := Position(f, p, 0);
    if k < |f| {
      assert f[k] in f;
    }
  }

  lemma InsertAlmost(s: State, p: int)
    requires Listed(s) && InUse(s, p)
    ensures var k: int := Position(s.free, p, 0); Almost(s.(free := Insert(s.free, k, p)), k - 1, k)
  {
    hide Position;
    var k: int := Position(s.free, p, 0);
    PositionSplits(s.free, p);
    InsertAscending(s.free, k, p);
    var t := s.(free := Insert(s.free, k, p));
    forall i: int | 0 <= i < |t.free| - 1 && i != k - 1 && i != k
      ensures Gap(t, i)
    {
      SameGap(s, if i < k then i else i - 1, t, i);
    }
  }

  lemma RemoveAscending(f: seq<int>, k: nat)
    requires Ascending(f) && k < |f|
    ensures Ascending(Remove(f, k))
  {
  }

  /** Blocks that are equal in both states, and next to each other in both lists. */
  lemma SameGap(s: State, i: int, t: State, j: int)
    requires FreeBlocks(s) && FreeBlocks(t) && 0 <= i < |s.free| - 1 && 0 <= j < |t.free| - 1 && Gap(s, i)
    requires s.free[i] == t.free[j] && s.free[i + 1] == t.free[j + 1] && s.blocks[s.free[i]] == t.blocks[t.free[j]]
    ensures Gap(t, j)
  {
  }

  /** Coalescing at `k` with the next block. */
  lemma MergedAlmost(s: State, k: nat, other: int)
    requires Almost(s, other, k) && k < |s.free| && other < k
    requires k + 1 < |s.free| && s.free[k] + s.blocks[s.free[k]] == s.free[k + 1]
    ensures Almost(Merge(s, s.free[k]).(free := Remove(s.free, k + 1)), other, other)
  {
    var p, b := s.free[k], s.free[k + 1];
    var t := Merge(s, p).(free := Remove(s.free, k + 1));
    RemoveAscending(s.free, k + 1);
    forall i | 0 <= i < |t.free|
      ensures t.free[i] in t.blocks && t.free[i] != b && (i != k ==> t.free[i] != p)
    {
      assert s.free[if i <= k then i else i + 1] != b;
    }
    forall i | 0 <= i < |t.free| - 1 && i != other
      ensures Gap(t, i)
    {
      if i == k {
        assert Gap(s, k + 1);
        assert t.blocks[p] == s.blocks[p] + s.blocks[b];
      } else {
        SameGap(s, if i < k then i else i + 1, t, i);
      }
    }
  }

  /** After coalescing at `k` only the border before it may be left. */
  lemma CoalesceAlmost(s: State, k: nat, other: int)
    requires Disjoint(s) && Almost(s, other, k) && k < |s.free| && other < k
    ensures Almost(Coalesce(s, k), other, other)
  {
    if k + 1 < |s.free| {
      if s.free[k] + s.blocks[s.free[k]] == s.free[k + 1] {
        MergedAlmost(s, k, other);
      } else {
        assert s.free[k] < s.free[k + 1];
        assert Gap(s, k);
      }
    }
  }

  lemma InsertMembers(f: seq<int>, k: nat, p: int, a: int)
    requires k <= |f|
    ensures a in Insert(f, k, p) <==> a in f || a == p
  {
    assert Insert(f, k, p)[k] == p;
    if a in f {
      var i :| 0 <= i < |f| && f[i] == a;
      assert Insert(f, k, p)[if i < k then i else i + 1] == a;
    }
  }

  /** Coalescing does not touch blocks in use. */
  lemma CoalesceUses(s: State, k: nat)
    requires Ascending(s.free) && FreeBlocks(s) && k < |s.free|
    ensures var t := Coalesce(s, k);
            && (forall a :: InUse(t, a) <==> InUse(s, a)) && (forall a :: InUse(s, a) ==> t.blocks[a] == s.blocks[a])
  {
    if Coalesce(s, k) != s {
      forall a
        ensures a in Remove(s.free, k + 1) <==> a in s.free && a != s.free[k + 1]
      {
        RemoveMembers(s.free, k + 1, a);
      }
    }
  }

  /** One coalescing step, all together. */
  lemma CoalesceKeeps(t: State, k: nat, other: int)
    requires Tiled(t) && Aligned(t) && k < |t.free| && other < k && Almost(t, other, k)
    ensures var u := Coalesce(t, k);
            && Tiled(u) && Aligned(u) && k < |u.free| && Almost(u, other, other) && u.start == t.start && u.end == t.end
            && (forall a :: InUse(u, a) <==> InUse(t, a)) && (forall a :: InUse(t, a) ==> u.blocks[a] == t.blocks[a])
  {
    CoalesceAlmost(t, k, other);
    CoalesceTiled(t, k);
    CoalesceUses(t, k);
  }

  lemma JoinKeeps(t: State, k: int)
    requires Tiled(t) && Aligned(t) && 0 <= k < |t.free| && Almost(t, k - 1, k)
    ensures var u := JoinBoth(t, k);
            && Inv(u) && u.start == t.start && u.end == t.end
            && (forall a :: InUse(u, a) <==> InUse(t, a)) && (forall a :: InUse(t, a) ==> u.blocks[a] == t.blocks[a])
  {
    CoalesceKeeps(t, k, k - 1);
    var u := Coalesce(t, k);
    if k > 0 {
      AlmostWeaker(u, k - 1);
      CoalesceKeeps(u, k - 1, -1);
    }
  }

  /** kfree() keeps the invariant, and takes that block and no other out of use. */
  lemma FreeKeeps(s: State, p: int)
    requires Inv(s) && InUse(s, p)
    ensures var t := FreeStep(s, p);
            && Inv(t) && t.start == s.start && t.end == s.end
            && (forall a :: InUse(t, a) <==> InUse(s, a) && a != p)
            && (forall a :: InUse(t, a) ==> t.blocks[a] == s.blocks[a])
  {
    var k: int := Position(s.free, p, 0);
    var t := s.(free := Insert(s.free, k, p));
    InsertUses(s, k, p);
    InsertAlmost(s, p);
    SameBlocks(s, t);
    JoinKeeps(t, k);
  }

  lemma InsertUses(s: State, k: nat, p: int)
    requires k <= |s.free|
    ensures forall a :: InUse(s.(free := Insert(s.free, k, p)), a) <==> InUse(s, a) && a != p
  {
    forall a
      ensures a in Insert(s.free, k, p) <==> a in s.free || a == p
    {
      InsertMembers(s.free, k, p, a);
    }
  }

  lemma CoalesceTiled(s: State, k: nat)
    requires Tiled(s) && Aligned(s) && FreeBlocks(s) && k < |s.free|
    ensures var t := Coalesce(s, k);
            Tiled(t) && Aligned(t) && k < |t.free| && t.start == s.start && t.end == s.end
  {
    if Coalesce(s, k) != s {
      MergeKeeps(s, s.free[k]);
      SameBlocks(Merge(s, s.free[k]), Coalesce(s, k));
    }
  }

  lemma SameBlocks(s: State, t: State)
    requires Tiled(s) && Aligned(s) && t.blocks == s.blocks && t.start == s.start && t.end == s.end
    ensures Tiled(t) && Aligned(t)
  {
  }

  lemma AlmostWeaker(s: State, k: int)
    requires Almost(s, k, k)
    ensures Almost(s, -1, k)
  {
  }

  // ----- runs

  /** A request, or the release of a block in use. */
  datatype Event = Malloc(size: u32) | Free(p: int)

  predicate Allowed(s: State, e: Event) {
    e.Free? ==> InUse(s, e.p)
  }

  function Step(s: State, e: Event): State
    requires FreeBlocks(s) && Allowed(s, e)
  {
    match e
    case Malloc(size) => AllocStep(s, size).0
    case Free(p) => FreeStep(s, p)
  }

  ghost predicate Run(s: State, es: seq<Event>, t: State)
    decreases |es|
  {
    if es == [] then s == t else FreeBlocks(s) && Allowed(s, es[0]) && Run(Step(s, es[0]), es[1..], t)
  }

  /** The invariant holds in every state of the run. */
  ghost predicate Kept(s: State, es: seq<Event>)
    decreases |es|
  {
    Inv(s) && (es != [] && Allowed(s, es[0]) ==> Kept(Step(s, es[0]), es[1..]))
  }

  /** No request of the run breaks the heap. */
  ghost predicate Unbroken(s: State, es: seq<Event>)
    decreases |es|
  {
    es != [] && FreeBlocks(s) && Allowed(s, es[0]) ==>
      !(es[0].Malloc? && Breaks(s, es[0].size)) && Unbroken(Step(s, es[0]), es[1..])
  }

  /** The invariant holds throughout a run exactly when no request of it breaks the heap; and once nothing is in use,
      the heap is as it was at the start. */
  lemma {:induction false} RunKeeps(s: State, es: seq<Event>, t: State)
    requires Inv(s) && Run(s, es, t)
    ensures Kept(s, es) <==> Unbroken(s, es)
    ensures Unbroken(s, es) ==> Inv(t) && t.start == s.start && t.end == s.end
    ensures Unbroken(s, es) && (forall a :: !InUse(t, a)) ==> t == Initial(s.start, s.end)
    decreases |es|
  {
    if es == [] {
      if forall a :: !InUse(t, a) { AllFree(t); }
      return;
    }
    hide Tiled, Aligned, Breaks, InUse;
    match es[0] {
      case Malloc(size) =>
        AllocKeeps(s, size);
        if Breaks(s, size) { return; }
      case Free(p) => FreeKeeps(s, p);
    }
    RunKeeps(Step(s, es[0]), es[1..], t);
  }

  /** Requests that do not wrap around break nothing. */
  lemma {:induction false} SmallUnbroken(s: State, es: seq<Event>)
    requires forall i :: 0 <= i < |es| && es[i].Malloc? ==> es[i].size + HDR + 3 < T32
    ensures Unbroken(s, es)
    decreases |es|
  {
    if es != [] && FreeBlocks(s) && Allowed(s, es[0]) {
      SmallUnbroken(Step(s, es[0]), es[1..]);
    }
  }
}
