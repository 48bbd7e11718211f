/** kmalloc(), kfree() and kmem_stats() of kernel/mem.c over the linked free list in the block headers. */
module KernelHeap {
  import opened Heap

  /** The element behind number `i`, or NULL. */
  function After(f: seq<int>, i: int): int
    requires 0 <= i < |f|
  {
    if i + 1 < |f| then f[i + 1] else 0
  }

  /** The next word of element `i` holds the one behind it. */
  predicate Link(f: seq<int>, next: map<int, int>, i: int)
    requires 0 <= i < |f|
  {
    f[i] in next && next[f[i]] == After(f, i)
  }

  /** `head` and the next words link the free list in its order; 0 is NULL. */
  ghost predicate Linked(f: seq<int>, head: int, next: map<int, int>) {
    head == At(f, 0) && forall i :: 0 <= i < |f| ==> Link(f, next, i)
  }

  function At(f: seq<int>, i: nat): int {
    if i < |f| then f[i] else 0
  }

  /** The element before number `i`, or NULL for the head of the list. */
  function Prev(f: seq<int>, i: nat): int
    requires i <= |f|
  {
    if i == 0 then 0 else f[i - 1]
  }

  /** The size words of all blocks. */
  ghost predicate Sized(blocks: map<int, int>, size: map<int, int>) {
    forall a :: a in blocks ==> a in size && size[a] == blocks[a]
  }

  lemma Distinct(f: seq<int>, i: nat, j: nat)
    requires Ascending(f) && i < |f| && j < |f| && i != j
    ensures f[i] != f[j]
  {
    assert if i < j then f[i] < f[j] else f[j] < f[i];
  }

  lemma Injective(f: seq<int>, i: nat, j: nat)
    requires Ascending(f) && i < |f| && j < |f| && f[i] == f[j]
    ensures i == j
  {
  }

  /** The links after *pp = value, where pp belongs to element `k` - 1 or is the head of the list. */
  function SetNext(next: map<int, int>, prev: int, value: int): map<int, int> {
    if prev == 0 then next else next[prev := value]
  }

  function SetHead(head: int, prev: int, value: int): int {
    if prev == 0 then value else head
  }

  lemma RemoveLinked(f: seq<int>, head: int, next: map<int, int>, k: nat)
    requires Linked(f, head, next) && Ascending(f) && k < |f| && forall i :: 0 <= i < |f| ==> f[i] != 0
    ensures Link(f, next, k)
    ensures Linked(Remove(f, k), SetHead(head, Prev(f, k), next[f[k]]),
                   SetNext(next, Prev(f, k), next[f[k]])[f[k] := 0])
  {
    assert Link(f, next, k);
    var r, n := Remove(f, k), SetNext(next, Prev(f, k), next[f[k]])[f[k] := 0];
    forall i | 0 <= i < |r|
      ensures Link(r, n, i)
    {
      var j := if i < k then i else i + 1;
      assert Link(f, next, j);
      Distinct(f, j, k);
      if k > 0 && j != k - 1 {
        Distinct(f, j, k - 1);
      }
    }
  }

  lemma ReplaceLinked(f: seq<int>, head: int, next: map<int, int>, k: nat, q: int)
    requires Linked(f, head, next) && Ascending(f) && k < |f| && q !in f && forall i :: 0 <= i < |f| ==> f[i] != 0
    ensures Link(f, next, k)
    ensures Linked(f[k := q], SetHead(head, Prev(f, k), q), SetNext(next[q := next[f[k]]], Prev(f, k), q)[f[k] := 0])
  {
    assert Link(f, next, k);
    var r, n := f[k := q], SetNext(next[q := next[f[k]]], Prev(f, k), q)[f[k] := 0];
    forall i | 0 <= i < |r|
      ensures Link(r, n, i)
    {
      assert Link(f, next, i) && f[i] in f;
      if i != k {
        Distinct(f, i, k);
      }
      if k > 0 && i != k - 1 {
        Distinct(f, i, k - 1);
      }
      assert k > 0 ==> f[k - 1] in f;
    }
  }

  lemma InsertLinked(f: seq<int>, head: int, next: map<int, int>, k: nat, q: int)
    requires Linked(f, head, next) && Ascending(f) && k <= |f| && q !in f && q != 0
    requires forall i :: 0 <= i < |f| ==> f[i] != 0
    ensures Linked(Insert(f, k, q), SetHead(head, Prev(f, k), q), SetNext(next[q := At(f, k)], Prev(f, k), q))
  {
    var r, n := Insert(f, k, q), SetNext(next[q := At(f, k)], Prev(f, k), q);
    forall i | 0 <= i < |r|
      ensures Link(r, n, i)
    {
      if i != k {
        var j := if i < k then i else i - 1;
        assert Link(f, next, j) && f[j] in f;
        if k > 0 && j != k - 1 {
          Distinct(f, j, k - 1);
        }
      }
      assert k > 0 ==> f[k - 1] in f;
    }
  }

  /** Taking out the one behind number `k`. */
  lemma UnlinkNext(f: seq<int>, head: int, next: map<int, int>, k: nat)
    requires Linked(f, head, next) && Ascending(f) && k + 1 < |f|
    ensures Link(f, next, k) && Link(f, next, k + 1)
    ensures Linked(Remove(f, k + 1), head, next[f[k] := next[f[k + 1]]])
  {
    assert Link(f, next, k) && Link(f, next, k + 1);
    var r, n := Remove(f, k + 1), next[f[k] := next[f[k + 1]]];
    forall i | 0 <= i < |r|
      ensures Link(r, n, i)
    {
      var j := if i <= k then i else i + 1;
      assert Link(f, next, j);
      if j != k {
        Distinct(f, j, k);
      }
    }
  }

  class Allocator {
    const start: int
    const end: int
    var freeList: int
    var size: map<int, int>    // the header words, by the address of the block
    var next: map<int, int>
    ghost var g: State

    ghost predicate Valid()
      reads this
    {
      && Inv(g) && g.start == start && g.end == end <= T32 - HDR - 16
      && Linked(g.free, freeList, next) && Sized(g.blocks, size)
    }

    /** mem_init() */
    constructor (from: int, to: int)
      requires 0 < from && (from + 3) / 4 * 4 + HDR <= to / 4 * 4 <= T32 - HDR - 16
      ensures Valid() && g == Initial((from + 3) / 4 * 4, to / 4 * 4)
    {
      start := (from + 3) / 4 * 4;
      end := to / 4 * 4;
      freeList := (from + 3) / 4 * 4;
      size := map[(from + 3) / 4 * 4 := to / 4 * 4 - (from + 3) / 4 * 4];
      next := map[(from + 3) / 4 * 4 := 0];
      g := Initial((from + 3) / 4 * 4, to / 4 * 4);
      new;
      InitialInv(start, end);
    }

    /** The search of kmalloc(): the block and the one before it in the list. */
    method Find(total: int) returns (prev: int, p: int, ghost k: nat)
      requires Valid()
      ensures k == FirstFit(g, total, 0)
      ensures p == At(g.free, FirstFit(g, total, 0)) && prev == Prev(g.free, FirstFit(g, total, 0))
    {
      prev, p, k := 0, freeList, 0;
      Addresses(g);
      while p != 0
        invariant k <= |g.free| && p == At(g.free, k) && prev == Prev(g.free, k)
        invariant FirstFit(g, total, 0) == FirstFit(g, total, k)
        decreases |g.free| - k
      {
        assert Link(g.free, next, k);
        if size[p] >= total {
          return;
        }
        prev := p;
        p := next[p];
        k := k + 1;
      }
    }

    /** *pp = p */
    method SetLink(prev: int, p: int)
      modifies this`freeList, this`next
      ensures freeList == SetHead(old(freeList), prev, p) && next == SetNext(old(next), prev, p)
    {
      if prev == 0 {
        freeList := p;
      } else {
        next := next[prev := p];
      }
    }

    /** kmalloc(): the address of the payload, or 0. A request that breaks the heap by taking no bytes is granted the
        first free block, without bytes, and leaves that one alone in the list. */
    method Kmalloc(n: u32) returns (r: int)
      requires Valid() && (Breaks(g, n) ==> Total(n) == 0)
      modifies this
      ensures !Breaks(old(g), n) ==> Valid() && g == AllocStep(old(g), n).0
      ensures !Breaks(old(g), n) ==> var p := AllocStep(old(g), n).1; r == if p == 0 then 0 else p + HDR
      ensures Breaks(old(g), n) ==> freeList == old(freeList) == old(g).free[0] && r == freeList + HDR
      ensures Breaks(old(g), n) ==> size == old(size)[freeList := 0] && next == old(next)[freeList := 0]
      ensures Breaks(old(g), n) ==> Linked([freeList], freeList, next)
    {
      hide Chained, Disjoint, Inside;
      var total := Total(n);
      AllocKeeps(g, n);
      var prev, p;
      ghost var k;
      prev, p, k := Find(total);
      if p == 0 {
        Addresses(g);
        return 0;
      }
      Addresses(g);
      if Breaks(g, n) {
        BrokenBy(g, n);
      } else {
        Unsplit(g, n, k);
      }
      if size[p] >= total + HDR + 16 {
        SplitOff(prev, p, total, k);
      } else {
        RemoveLinked(g.free, freeList, next, k);
        SetLink(prev, next[p]);
        next := next[p := 0];
      }
      r := p + HDR;
      if !Breaks(g, n) {
        g := Take(g, total, k);
      }
    }

    /** The split of kmalloc(). */
    method SplitOff(prev: int, p: int, total: int, ghost k: nat)
      requires Valid() && k < |g.free| && p == g.free[k] && prev == Prev(g.free, k)
      requires total % 4 == 0 && (total == 0 || HDR <= total) && size[p] >= total + HDR + 16
      modifies this`freeList, this`next, this`size
      ensures total != 0 ==> Linked(Take(g, total, k).free, freeList, next) && Sized(Take(g, total, k).blocks, size)
      ensures total == 0 && prev == 0 ==> freeList == p && size == old(size)[p := 0] && next == old(next)[p := 0]
    {
      hide Chained, Disjoint, Inside;
      Addresses(g);
      assert Link(g.free, next, k);
      if total != 0 {
        SplitFresh(g, p, total);
        ReplaceLinked(g.free, freeList, next, k, p + total);
      }
      Store(prev, p, total);
    }

    /** Its stores, for two headers that are the same or lie apart. */
    method Store(prev: int, p: int, total: int)
      requires p in size && p in next && (total == 0 || HDR <= total)
      modifies this`freeList, this`next, this`size
      ensures freeList == SetHead(old(freeList), prev, p + total)
      ensures size == old(size)[p + total := old(size)[p] - total][p := total]
      ensures next == SetNext(old(next)[p + total := old(next)[p]], prev, p + total)[p := 0]
    {
      var newblk := p + total;
      size := size[newblk := size[p] - total];
      next := next[newblk := next[p]];
      SetLink(prev, newblk);
      size := size[p := total];
      next := next[p := 0];
    }

    /** The search of kfree(). */
    method Place(blk: int) returns (prev: int, p: int, ghost k: nat)
      requires Valid()
      ensures k == Position(g.free, blk, 0)
      ensures p == At(g.free, Position(g.free, blk, 0)) && prev == Prev(g.free, Position(g.free, blk, 0))
    {
      prev, p, k := 0, freeList, 0;
      Addresses(g);
      while p != 0 && p < blk
        invariant k <= |g.free| && p == At(g.free, k) && prev == Prev(g.free, k)
        invariant Position(g.free, blk, 0) == Position(g.free, blk, k)
        decreases |g.free| - k
      {
        assert Link(g.free, next, k);
        prev := p;
        p := next[p];
        k := k + 1;
      }
    }

    /** The block at p, number `k` in the list, takes in the next one if it borders on it. */
    method JoinNext(p: int, ghost k: nat)
      requires Tiled(g) && Aligned(g) && Ascending(g.free) && FreeBlocks(g) && k < |g.free| && p == g.free[k]
      requires Linked(g.free, freeList, next) && Sized(g.blocks, size)
      modifies this`size, this`next, this`g
      ensures g == Coalesce(old(g), k) && Linked(g.free, freeList, next) && Sized(g.blocks, size)
    {
      hide Chained, Disjoint, Inside, Aligned;
      Addresses(g);
      assert Link(g.free, next, k);
      if next[p] != 0 && p + size[p] == next[p] {
        UnlinkNext(g.free, freeList, next, k);
        size := size[p := size[p] + size[next[p]]];
        next := next[p := next[next[p]]];
        g := Coalesce(g, k);
      }
    }

    /** The second walk of kfree(): the block before blk in the list. */
    method Before(blk: int, ghost k: nat) returns (prev: int)
      requires Ascending(g.free) && FreeBlocks(g) && Tiled(g) && Linked(g.free, freeList, next)
      requires 0 < k < |g.free| && blk == g.free[k]
      ensures prev == g.free[k - 1]
    {
      prev := freeList;
      ghost var j := 0;
      Addresses(g);
      assert Link(g.free, next, j);
      while prev != 0 && next[prev] != blk
        invariant 0 <= j < k && prev == g.free[j] && Link(g.free, next, j)
        decreases k - j
      {
        prev := next[prev];
        j := j + 1;
        assert Link(g.free, next, j);
      }
      Injective(g.free, j + 1, k);
    }

    /** The first half of kfree(): the block goes into the list. */
    method Enlist(blk: int) returns (prev: int, ghost k: nat)
      requires Valid() && InUse(g, blk)
      modifies this`freeList, this`next, this`g
      ensures k == Position(old(g).free, blk, 0) && g == old(g).(free := Insert(old(g).free, k, blk))
      ensures Linked(g.free, freeList, next) && prev == Prev(old(g).free, k) && (prev == 0 <==> k == 0)
    {
      var p;
      prev, p, k := Place(blk);
      Addresses(g);
      InsertLinked(g.free, freeList, next, k, blk);
      next := next[blk := p];
      SetLink(prev, blk);
      g := g.(free := Insert(g.free, k, blk));
    }

    /** The second half of kfree(): the block joins the next one, and the previous one joins it. */
    method Join(blk: int, prev: int, ghost k: nat)
      requires Tiled(g) && Aligned(g) && k < |g.free| && Almost(g, k as int - 1, k) && blk == g.free[k]
        && (prev == 0 <==> k == 0)
      requires Linked(g.free, freeList, next) && Sized(g.blocks, size)
      modifies this`size, this`next, this`g
      ensures g == JoinBoth(old(g), k) && Linked(g.free, freeList, next) && Sized(g.blocks, size)
    {
      CoalesceKeeps(g, k, k as int - 1);
      JoinNext(blk, k);
      if prev != 0 {
        var before := Before(blk, k);
        JoinNext(before, k - 1);
      }
    }

    /** kfree() */
    method Kfree(ptr: int)
      requires Valid() && (ptr != 0 ==> InUse(g, ptr - HDR))
      modifies this
      ensures Valid() && g == if ptr == 0 then old(g) else FreeStep(old(g), ptr - HDR)
    {
      if ptr == 0 {
        return;
      }
      var blk := ptr - HDR;
      FreeKeeps(g, blk);
      InsertAlmost(g, blk);
      ghost var s := g;
      var prev;
      ghost var k;
      prev, k := Enlist(blk);
      SameBlocks(s, g);
      hide Linked, Almost, Chained, Disjoint, Inside, InUse, JoinBoth;
      Join(blk, prev, k);
    }

    /** kmem_stats(): the size of the heap, the bytes in free blocks, and the largest free block. */
    method KmemStats() returns (total: int, freeBytes: int, largest: int)
      requires Valid()
      ensures total == end - start && freeBytes == FreeBytes(g, |g.free|)
      ensures largest >= 0 && forall n: int :: n > 0 ==> (HasFree(g, n) <==> n <= largest)
    {
      hide Chained, Disjoint, Inside;
      total, freeBytes, largest := end - start, 0, 0;
      var p := freeList;
      ghost var k := 0;
      ghost var best := 0;
      Addresses(g);
      while p != 0
        invariant 0 <= k <= |g.free| && p == At(g.free, k) && freeBytes == FreeBytes(g, k)
        invariant largest == 0 || (0 <= best < k && largest > 0 && g.blocks[g.free[best]] == largest)
        invariant forall i :: 0 <= i < k ==> g.blocks[g.free[i]] <= largest
        decreases |g.free| - k
      {
        assert Link(g.free, next, k);
        freeBytes := freeBytes + size[p];
        if size[p] > largest {
          largest := size[p];
          best := k;
        }
        p := next[p];
        k := k + 1;
      }
      assert largest > 0 ==> g.blocks[g.free[best]] >= largest;
    }
  }

  /** Some free block has `n` bytes. */
  ghost predicate HasFree(s: State, n: int)
    requires FreeBlocks(s)
  {
    exists i :: 0 <= i < |s.free| && s.blocks[s.free[i]] >= n
  }

  function FreeBytes(s: State, k: nat): int
    requires FreeBlocks(s) && k <= |s.free|
  {
    if k == 0 then 0 else FreeBytes(s, k - 1) + s.blocks[s.free[k - 1]]
  }

  /** The bytes from a up to b. */
  function Span(a: int, b: int): set<int>
    decreases b - a
  {
    if b <= a then {} else Span(a, b - 1) + {b - 1}
  }

  lemma {:induction false} SpanIs(a: int, b: int)
    requires a <= b
    ensures |Span(a, b)| == b - a && forall x :: x in Span(a, b) <==> a <= x < b
    decreases b - a
  {
    if a < b {
      SpanIs(a, b - 1);
    }
  }

  predicate InFree(s: State, k: nat, x: int)
    requires FreeBlocks(s) && k <= |s.free|
  {
    exists i :: 0 <= i < k && s.free[i] <= x < s.free[i] + s.blocks[s.free[i]]
  }

  /** The bytes of the heap that are in the first k free blocks. */
  function FreeSpan(s: State, k: nat): set<int>
    requires FreeBlocks(s) && k <= |s.free|
  {
    set x | s.start <= x < s.end && InFree(s, k, x)
  }

  /** The sum is the number of bytes in free blocks. */
  lemma {:induction false} FreeBytesCount(s: State, k: nat)
    requires Inv(s) && FreeBlocks(s) && k <= |s.free|
    ensures FreeBytes(s, k) == |FreeSpan(s, k)|
    decreases k
  {
    hide Inv, Span, FreeSpan, FreeBlocks;
    if k == 0 {
      NoneFree(s);
      return;
    }
    var a := s.free[k - 1];
    FreeBytesCount(s, k - 1);
    FreeSpanMore(s, k);
    SpanIs(a, a + s.blocks[a]);
    UnionSize(FreeSpan(s, k - 1), Span(a, a + s.blocks[a]));
  }

  lemma NoneFree(s: State)
    requires FreeBlocks(s)
    ensures FreeSpan(s, 0) == {}
  {
  }

  lemma UnionSize(a: set<int>, b: set<int>)
    requires a !! b
    ensures |a + b| == |a| + |b|
  {
  }

  lemma FreeSpanMore(s: State, k: nat)
    requires Inv(s) && 0 < k <= |s.free|
    ensures var a := s.free[k - 1];
            a in s.blocks && s.blocks[a] > 0 && FreeSpan(s, k) == FreeSpan(s, k - 1) + Span(a, a + s.blocks[a])
              && FreeSpan(s, k - 1) !! Span(a, a + s.blocks[a])
  {
    var a := s.free[k - 1];
    assert s.free[k - 1] in s.blocks;
    var last := Span(a, a + s.blocks[a]);
    SpanIs(a, a + s.blocks[a]);
    hide Span, Chained, Disjoint, Aligned;
    forall x: int
      ensures x in FreeSpan(s, k) <==> x in FreeSpan(s, k - 1) || x in last
      ensures x in FreeSpan(s, k - 1) ==> x !in last
    {
      OneFreeMore(s, k, x);
      hide Inv, InFree;
    }
    hide Inv, InFree;
  }

  lemma OneFreeMore(s: State, k: nat, x: int)
    requires Inv(s) && 0 < k <= |s.free|
    ensures var a := s.free[k - 1];
            && (a <= x < a + s.blocks[a] ==> s.start <= x < s.end && !InFree(s, k - 1, x))
            && (InFree(s, k, x) <==> InFree(s, k - 1, x) || a <= x < a + s.blocks[a])
  {
    var a := s.free[k - 1];
    forall i | 0 <= i < k - 1
      ensures s.free[i] + s.blocks[s.free[i]] <= a
    {
      assert s.free[i] in s.blocks && a in s.blocks && s.free[i] < a;
    }
    assert a in s.blocks;
    assert a <= x < a + s.blocks[a] ==> 0 <= k - 1 < k && s.free[k - 1] <= x;
  }

  lemma SplitFresh(s: State, p: int, n: int)
    requires Tiled(s) && FreeBlocks(s) && p in s.blocks && 0 < n < s.blocks[p]
    ensures p + n !in s.blocks && p + n !in s.free
  {
    SplitDisjoint(s, p, n);
  }

  /** No block is at address 0. */
  lemma Addresses(s: State)
    requires Tiled(s) && FreeBlocks(s)
    ensures forall i :: 0 <= i < |s.free| ==> s.free[i] in s.blocks && s.free[i] > 0
  {
  }
}
