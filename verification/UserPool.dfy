/** umem_alloc(), umem_stats() and sbrk_proc() of kernel/mem.c over the process table. */
module UserPool {
  import opened UserMemory

  /** The two arrays hold base and size of the listed regions, in the order of the list. */
  ghost predicate Holds(s: State, ids: seq<Pid>, bases: seq<int>, sizes: seq<int>)
    requires Shaped(s)
  {
    |ids| <= |bases| && |ids| <= |sizes|
    && forall x :: 0 <= x < |ids| ==> bases[x] == s.base[ids[x]] && sizes[x] == s.size[ids[x]]
  }

  /** Entry `i` of both arrays moved back to place `k`, behind all that are not above it. */
  ghost predicate Inserted(b: seq<int>, z: seq<int>, b': seq<int>, z': seq<int>, i: nat, k: nat)
    requires |b| == |z| == |b'| == |z'| && k <= i < |b|
  {
    && (forall x :: 0 <= x < |b| && (x < k || x > i) ==> b'[x] == b[x] && z'[x] == z[x])
    && b'[k] == b[i] && z'[k] == z[i]
    && (forall x :: k < x <= i ==> b'[x] == b[x - 1] && z'[x] == z[x - 1])
    && (k > 0 ==> b[k - 1] <= b[i]) && (forall x :: k <= x < i ==> b[x] > b[i])
  }

  /** The elements from `k` up to `i` - 1 are also one place further on, and all others are where they were. */
  ghost predicate ShiftedFrom(a: seq<int>, b: seq<int>, i: nat, k: nat) {
    && |a| == |b| && k <= i < |a|
    && (forall x :: 0 <= x < k || i < x < |a| ==> b[x] == a[x])
    && forall x :: k < x <= i ==> b[x] == a[x - 1]
  }

  lemma ShiftsOn(a: seq<int>, b: seq<int>, i: nat, j: nat)
    requires ShiftedFrom(a, b, i, j + 1)
    ensures ShiftedFrom(a, b[j + 1 := b[j]], i, j)
  {
  }

  lemma ShiftStarts(a: seq<int>, i: nat)
    requires i < |a|
    ensures ShiftedFrom(a, a, i, i)
  {
  }

  lemma ShiftEnds(b: seq<int>, z: seq<int>, b': seq<int>, z': seq<int>, i: nat, k: nat)
    requires ShiftedFrom(b, b', i, k) && ShiftedFrom(z, z', i, k) && |b| == |z| && k <= i < |b|
    requires (k > 0 ==> b[k - 1] <= b[i]) && (forall x :: k <= x < i ==> b[x] > b[i])
    ensures |b'| == |z'| == |b| && Inserted(b, z, b'[k := b[i]], z'[k := z[i]], i, k)
  {
  }

  lemma ShiftedBelow(a: seq<int>, b: seq<int>, i: nat, k: nat)
    requires ShiftedFrom(a, b, i, k) && k > 0
    ensures |a| == |b| && k <= i < |a| && b[k - 1] == a[k - 1]
  {
  }

  /** One turn of the outer loop of the insertion sort. */
  method Insert(bases: array<int>, sizes: array<int>, i: nat) returns (ghost k: nat)
    requires bases != sizes && bases.Length == sizes.Length && i < bases.Length
    modifies bases, sizes
    ensures k <= i && Inserted(old(bases[..]), old(sizes[..]), bases[..], sizes[..], i, k)
  {
    hide ShiftedFrom, Inserted;
    ghost var b, z := bases[..], sizes[..];
    ShiftStarts(b, i);
    ShiftStarts(z, i);
    var kb, ks := bases[i], sizes[i];
    var j: int := i - 1;
    while j >= 0 && bases[j] > kb
      invariant -1 <= j < i
      invariant ShiftedFrom(b, bases[..], i, j + 1) && ShiftedFrom(z, sizes[..], i, j + 1)
      invariant forall x :: j < x < i ==> b[x] > kb
    {
      ShiftedBelow(b, bases[..], i, j + 1);
      ShiftsOn(b, bases[..], i, j);
      ShiftsOn(z, sizes[..], i, j);
      bases[j + 1] := bases[j];
      sizes[j + 1] := sizes[j];
      j := j - 1;
    }
    k := j + 1;
    if j >= 0 {
      ShiftedBelow(b, bases[..], i, k);
    }
    ShiftEnds(b, z, bases[..], sizes[..], i, k);
    bases[j + 1] := kb;
    sizes[j + 1] := ks;
  }

  lemma InsertedHolds(s: State, ids: seq<Pid>, b: seq<int>, z: seq<int>, b': seq<int>, z': seq<int>, i: nat, k: nat)
    requires Shaped(s) && |b| == |z| == |b'| == |z'| && k <= i < |ids| && Holds(s, ids, b, z)
    requires Inserted(b, z, b', z', i, k)
    ensures Holds(s, Moved(ids, i, k), b', z')
  {
  }

  lemma InsertedOrdered(s: State, ids: seq<Pid>, b: seq<int>, z: seq<int>, b': seq<int>, z': seq<int>, i: nat, k: nat)
    requires Shaped(s) && |b| == |z| == |b'| == |z'| && k <= i < |ids| && Holds(s, ids, b, z)
    requires Inserted(b, z, b', z', i, k) && Ordered(s, ids, i)
    ensures Ordered(s, Moved(ids, i, k), i + 1)
  {
    forall x | 0 <= x < k
      ensures s.base[ids[x]] <= s.base[ids[i]]
    {
      assert x < k - 1 ==> s.base[ids[x]] <= s.base[ids[k - 1]];
    }
    forall x | k <= x < i
      ensures s.base[ids[i]] < s.base[ids[x]]
    {
      assert b[x] > b[i];
    }
  }

  class Pool {
    const lo: int
    const hi: int
    var free: seq<bool>      // state == P_FREE
    var ppid: seq<Pid>
    var frozen: seq<bool>    // state == P_VFORK
    var base: seq<int>
    var size: seq<int>
    var brk: seq<int>

    ghost function V(): State
      reads this
    {
      State(lo, hi, free, base, size, brk)
    }

    ghost predicate Valid()
      reads this
    {
      Layout(V()) && |ppid| == |frozen| == MAXPROC
    }

    /** umem_init(), with the process table of proc_init() */
    constructor (lo: int, hi: int)
      requires 0 < lo <= hi < T32
      ensures Valid() && this.lo == lo && this.hi == hi && Total(V(), MAXPROC) == 0
    {
      this.lo, this.hi := lo, hi;
      free := seq(MAXPROC, p => p != 0);
      ppid := seq(MAXPROC, _ => 0);
      frozen := seq(MAXPROC, _ => false);
      base := seq(MAXPROC, _ => 0);
      size := seq(MAXPROC, _ => 0);
      brk := seq(MAXPROC, _ => 0);
      new;
      NoneLive(V(), MAXPROC);
    }

    method Collect(bases: array<int>, sizes: array<int>) returns (n: nat, ghost ids: seq<Pid>)
      requires Valid() && bases != sizes && bases.Length == sizes.Length == MAXPROC
      modifies bases, sizes
      ensures n == |ids| && Lists(V(), ids, MAXPROC) && Holds(V(), ids, bases[..], sizes[..])
    {
      n, ids := 0, [];
      for i := 0 to MAXPROC
        invariant n == |ids| <= i && Lists(V(), ids, i) && Holds(V(), ids, bases[..], sizes[..])
      {
        n, ids := CollectOne(bases, sizes, i, n, ids);
      }
    }

    method CollectOne(bases: array<int>, sizes: array<int>, i: Pid, n0: nat, ghost ids0: seq<Pid>)
      returns (n: nat, ghost ids: seq<Pid>)
      requires Shaped(V()) && bases != sizes && bases.Length == sizes.Length == MAXPROC
      requires n0 == |ids0| <= i && Lists(V(), ids0, i) && Holds(V(), ids0, bases[..], sizes[..])
      modifies bases, sizes
      ensures n == |ids| <= i + 1 && Lists(V(), ids, i + 1) && Holds(V(), ids, bases[..], sizes[..])
    {
      AppendLists(V(), ids0, i);
      n, ids := n0, ids0;
      if !free[i] && base[i] != 0 {
        bases[n] := base[i];
        sizes[n] := size[i];
        n := n + 1;
        ids := ids + [i];
      }
    }

    /** The live regions in address order. */
    method Sorted(bases: array<int>, sizes: array<int>) returns (n: nat, ghost ids: seq<Pid>)
      requires Valid() && bases != sizes && bases.Length == sizes.Length == MAXPROC
      modifies bases, sizes
      ensures n == |ids| && Lists(V(), ids, MAXPROC) && Ordered(V(), ids, n) && Holds(V(), ids, bases[..], sizes[..])
    {
      n, ids := Collect(bases, sizes);
      var i := 1;
      while i < n
        invariant 1 <= i && (i <= n || n == 0) && n == |ids| && Lists(V(), ids, MAXPROC)
        invariant Holds(V(), ids, bases[..], sizes[..]) && Ordered(V(), ids, if i <= n then i else 0)
      {
        ghost var b, z := bases[..], sizes[..];
        ghost var k := Insert(bases, sizes, i);
        InsertedHolds(V(), ids, b, z, bases[..], sizes[..], i, k);
        InsertedOrdered(V(), ids, b, z, bases[..], sizes[..], i, k);
        MovedLists(V(), ids, i, k, MAXPROC);
        ids := Moved(ids, i, k);
        i := i + 1;
      }
    }

    /** The gap scan of umem_alloc(). */
    method FirstGap(bases: array<int>, sizes: array<int>, n: nat, ghost ids: seq<Pid>, need: int) returns (r: int)
      requires Valid() && need >= 0 && n == |ids| && Lists(V(), ids, MAXPROC) && Ordered(V(), ids, n)
      requires Holds(V(), ids, bases[..], sizes[..])
      ensures FirstFit(V(), need, r)
    {
      var gapStart := lo;
      for i := 0 to n
        invariant gapStart == GapStart(V(), ids, i)
        invariant forall a :: Fits(V(), a, need) ==> gapStart <= a
      {
        var gap := bases[i] - gapStart;
        if gap >= need {
          GapOrdered(V(), ids, i);
          GapFits(V(), ids, i, need);
          return gapStart;
        }
        NextGap(V(), ids, i, need);
        gapStart := bases[i] + sizes[i];
      }
      if hi - gapStart >= need {
        GapOrdered(V(), ids, n);
        GapFits(V(), ids, n, need);
        return gapStart;
      }
      NextGap(V(), ids, n, need);
      r := 0;
    }

    /** umem_alloc(): the lowest address where the rounded request fits, or 0 when it fits nowhere. */
    method UmemAlloc(need0: u32) returns (r: int)
      requires Valid()
      ensures Allocates(V(), need0, r)
    {
      var need := Rounded(need0);
      var bases, sizes := new int[MAXPROC], new int[MAXPROC];
      var n;
      ghost var ids;
      n, ids := Sorted(bases, sizes);
      r := FirstGap(bases, sizes, n, ids, need);
    }

    /** The gap scan of umem_stats(). */
    method GapStats(bases: array<int>, sizes: array<int>, n: nat, ghost ids: seq<Pid>)
      returns (freeBytes: int, largest: int)
      requires Valid() && n == |ids| && Lists(V(), ids, MAXPROC) && Ordered(V(), ids, n)
      requires Holds(V(), ids, bases[..], sizes[..])
      ensures freeBytes + Sum(V(), ids) == hi - lo && IsLargest(V(), largest)
    {
      freeBytes, largest := 0, 0;
      var gapStart := lo;
      ghost var at := lo;
      NothingFits(V(), ids);
      for i := 0 to n
        invariant gapStart == GapStart(V(), ids, i) && freeBytes + Sum(V(), ids[..i]) == gapStart - lo
        invariant BestSoFar(V(), ids, i, largest, at)
      {
        var gap := bases[i] - gapStart;
        freeBytes := freeBytes + gap;
        BetterGap(V(), ids, i, largest, at);
        if gap > largest {
          largest := gap;
          at := gapStart;
        }
        SumNext(V(), ids, i);
        gapStart := bases[i] + sizes[i];
      }
      var gap := hi - gapStart;
      freeBytes := freeBytes + gap;
      BetterGap(V(), ids, n, largest, at);
      if gap > largest {
        largest := gap;
        at := gapStart;
      }
      assert ids[..n] == ids;
      Best(V(), ids, largest, at);
    }

    /** umem_stats(): free and live bytes make up the pool, and a request fits exactly when it is at most
        `largest`. */
    method UmemStats() returns (freeBytes: int, largest: int)
      requires Valid()
      ensures freeBytes + Total(V(), MAXPROC) == hi - lo && IsLargest(V(), largest)
    {
      var bases, sizes := new int[MAXPROC], new int[MAXPROC];
      var n;
      ghost var ids;
      n, ids := Sorted(bases, sizes);
      freeBytes, largest := GapStats(bases, sizes, n, ids);
    }

    /** sbrk_proc() by process p. A child of a frozen parent that has no region of its own works on its parent's. */
    method SbrkProc(p: Pid, incr: int) returns (r: int)
      requires Valid()
      modifies this`brk
      ensures (V(), r) == SbrkStep(old(V()), if base[p] == 0 && frozen[ppid[p]] then ppid[p] else p, incr)
    {
      var q := p;
      if base[q] == 0 {
        if frozen[ppid[q]] {
          q := ppid[q];
        }
      }
      if base[q] == 0 {
        return -1;
      }
      var oldBrk := brk[q];
      var newBrk := (oldBrk + incr) % T32;
      var memTop := (base[q] + size[q]) % T32;
      if newBrk > (memTop - USER_STACK_DEFAULT) % T32 || newBrk < base[q] {
        return -1;
      }
      brk := brk[q := newBrk];
      r := oldBrk;
    }

    /** One attempt to get a region for process p. */
    method Take(p: Pid, need: u32) returns (ok: bool)
      requires Valid()
      modifies this`base, this`size, this`free
      ensures Shaped(V()) && (Valid() <==> Granted(old(V()), Event.Load(p, need)))
      ensures ok ==> Live(V(), p) && size[p] == need && V() == Place(old(V()), p, base[p], need)
      ensures Allocates(old(V()), need, if ok then base[p] else 0) && (!ok ==> V() == old(V()))
    {
      var addr := UmemAlloc(need);
      LoadKeeps(V(), p, need, addr);
      if addr == 0 {
        return false;
      }
      free := free[p := false];
      base := base[p := addr];
      size := size[p := need];
      ok := true;
    }

    /** The memory part of do_spawn() and do_exec(): a region for the program, and when the program cannot run in
        place and needs more, another one instead. */
    method Load(p: Pid, need: u32, inPlace: bool, need2: u32) returns (ok: bool)
      requires Valid()
      modifies this`base, this`size, this`free
      ensures ok ==> Shaped(V()) && Live(V(), p) && size[p] == if inPlace || need2 <= need then need else need2
      ensures !ok ==>
        || (V() == old(V()) && Allocates(V(), need, 0))
        || (need2 > need && Shaped(V()) && !Live(V(), p) && Allocates(V(), need2, 0))
      ensures Loaded(old(V()), V(), p, need, inPlace, need2, Valid())
    {
      assert Shaped(V());
      hide Layout, Granted, Allocates;
      ghost var s := V();
      ok := Take(p, need);
      assert Step(s, Event.Load(p, need), V());
      if ok && !inPlace && need2 > size[p] {
        ghost var u := V();
        DropPlaced(s, p, base[p], need);
        ok := Retry(p, need2);
        assert Reloaded(s, u, V(), p, need, need2, Valid());
      }
    }

    /** The second attempt, when the region of the first one has been given back. */
    method Retry(p: Pid, need: u32) returns (ok: bool)
      requires Shaped(V()) && Layout(Drop(V(), p)) && |ppid| == |frozen| == MAXPROC
      modifies this`base, this`size, this`free
      ensures ok ==> Shaped(V()) && Live(V(), p) && size[p] == need
      ensures !ok ==> Shaped(V()) && !Live(V(), p) && Allocates(V(), need, 0)
      ensures Step(old(V()), Reload(p, need), V()) && (Valid() <==> Granted(old(V()), Reload(p, need)))
    {
      hide Layout, Granted, Allocates;
      ghost var u := V();
      base := base[p := 0];
      size := size[p := 0];
      assert V() == Drop(u, p);
      ok := Take(p, need);
      ReloadGranted(u, p, need);
    }
  }

  /** One or two attempts, and whether the layout is then `kept`: exactly if what the last one recorded was free. */
  ghost predicate Loaded(s: State, t: State, p: Pid, need: u32, inPlace: bool, need2: u32, kept: bool)
    requires Shaped(s)
  {
    || (Step(s, Event.Load(p, need), t) && (kept <==> Granted(s, Event.Load(p, need))))
    || (!inPlace && need2 > need && exists u :: Reloaded(s, u, t, p, need, need2, kept))
  }

  ghost predicate Reloaded(s: State, u: State, t: State, p: Pid, need: u32, need2: u32, kept: bool)
    requires Shaped(s)
  {
    && Shaped(u) && Step(s, Event.Load(p, need), u) && Step(u, Reload(p, need2), t)
    && (kept <==> Granted(u, Reload(p, need2)))
  }

  lemma {:induction false} NoneLive(s: State, i: nat)
    requires Shaped(s) && i <= MAXPROC && forall p: Pid :: !Live(s, p)
    ensures Total(s, i) == 0
  {
    if i > 0 {
      NoneLive(s, i - 1);
    }
  }

  /** What does not fit into gap `i` fits only behind it. */
  lemma NextGap(s: State, ids: seq<Pid>, i: nat, n: int)
    requires Layout(s) && Lists(s, ids, MAXPROC) && i <= |ids| && n > GapEnd(s, ids, i) - GapStart(s, ids, i)
    requires forall a :: Fits(s, a, n) ==> GapStart(s, ids, i) <= a
    ensures forall a :: Fits(s, a, n) ==> i < |ids| && GapStart(s, ids, i + 1) <= a
  {
    forall a | Fits(s, a, n)
      ensures i < |ids| && GapStart(s, ids, i + 1) <= a
    {
      GapSkipped(s, ids, i, n, a);
    }
  }

  lemma SumNext(s: State, ids: seq<Pid>, i: nat)
    requires Shaped(s) && i < |ids|
    ensures Sum(s, ids[..i + 1]) == Sum(s, ids[..i]) + s.size[ids[i]]
  {
    assert ids[..i + 1] == ids[..i] + [ids[i]];
    SumSnoc(s, ids[..i], ids[i]);
  }

  /** `largest` bytes fit at `at`, and more bytes fit only from gap `i` on. */
  ghost predicate BestSoFar(s: State, ids: seq<Pid>, i: nat, largest: int, at: int)
    requires Shaped(s)
  {
    && largest >= 0 && Fits(s, at, largest)
    && forall m, a :: m > largest && Fits(s, a, m) ==> i <= |ids| && GapStart(s, ids, i) <= a
  }

  lemma NothingFits(s: State, ids: seq<Pid>)
    requires Layout(s)
    ensures BestSoFar(s, ids, 0, 0, s.lo)
  {
    forall p: Pid | Live(s, p)
      ensures Apart(s.lo, 0, s.base[p], s.size[p])
    {
    }
  }

  lemma BetterGap(s: State, ids: seq<Pid>, i: nat, largest: int, at: int)
    requires Layout(s) && Lists(s, ids, MAXPROC) && Ordered(s, ids, |ids|) && i <= |ids|
    requires BestSoFar(s, ids, i, largest, at)
    ensures var gap := GapEnd(s, ids, i) - GapStart(s, ids, i);
            BestSoFar(s, ids, i + 1, if gap > largest then gap else largest,
                      if gap > largest then GapStart(s, ids, i) else at)
  {
    var gap := GapEnd(s, ids, i) - GapStart(s, ids, i);
    GapFits(s, ids, i, gap);
    forall m, a | m > largest && m > gap && Fits(s, a, m)
      ensures i < |ids| && GapStart(s, ids, i + 1) <= a
    {
      GapSkipped(s, ids, i, m, a);
    }
  }

  lemma Best(s: State, ids: seq<Pid>, largest: int, at: int)
    requires Layout(s) && BestSoFar(s, ids, |ids| + 1, largest, at)
    ensures IsLargest(s, largest)
  {
    forall n | n >= 0
      ensures FitsSomewhere(s, n) <==> n <= largest
    {
      if n <= largest {
        assert Fits(s, at, n);
      }
    }
  }
}
