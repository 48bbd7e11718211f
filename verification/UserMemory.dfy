/** The user memory of kernel/mem.c, where free space is what the process table leaves over: the allocator, its
  statistics, sbrk(), and the calls of kernel/proc.c and kernel/exec.c that place and drop regions. */
module UserMemory {

  const MAXPROC: int := 16
  const USER_STACK_DEFAULT: int := 4096
  const T32: int := 0x1_0000_0000

  type Pid = x: int | 0 <= x < 16
  type u32 = x: int | 0 <= x < 0x1_0000_0000

  /** The pool [lo, hi) and the region of each process: none when the entry is free or its base is 0. */
  datatype State = State(lo: int, hi: int, free: seq<bool>, base: seq<int>, size: seq<int>, brk: seq<int>)

  predicate Shaped(s: State) {
    && 0 < s.lo <= s.hi < T32
    && |s.free| == |s.base| == |s.size| == |s.brk| == MAXPROC
  }

  predicate Live(s: State, p: Pid)
    requires Shaped(s)
  {
    !s.free[p] && s.base[p] != 0
  }

  /** [a, a + n) and [b, b + m) do not meet. */
  predicate Apart(a: int, n: int, b: int, m: int) {
    a + n <= b || b + m <= a
  }

  /** Live regions are not empty, lie in the pool, and are pairwise disjoint. */
  predicate Layout(s: State) {
    && Shaped(s)
    && (forall p: Pid :: Live(s, p) ==> s.lo <= s.base[p] && 0 < s.size[p] && s.base[p] + s.size[p] <= s.hi)
    && (forall p: Pid, q: Pid :: Live(s, p) && Live(s, q) && p != q ==>
        Apart(s.base[p], s.size[p], s.base[q], s.size[q]))
  }

  /** `n` bytes from `a` on are in the pool and free. */
  predicate Fits(s: State, a: int, n: int)
    requires Shaped(s)
  {
    s.lo <= a && a + n <= s.hi && forall p: Pid :: Live(s, p) ==> Apart(a, n, s.base[p], s.size[p])
  }

  /** (need + 3) & ~3 in 32 bits */
  function Rounded(need: u32): (r: u32)
    ensures r % 4 == 0
  {
    (need + 3) % T32 / 4 * 4
  }

  /** The reserved size covers the request exactly when rounding does not wrap around. */
  lemma RoundedCovers(need: u32)
    ensures Rounded(need) >= need <==> need <= 0xFFFF_FFFC
    ensures need <= 0xFFFF_FFFC ==> Rounded(need) < need + 4
  {
  }

  /** `r` is the lowest address where `n` bytes fit, or 0 when they fit nowhere. */
  ghost predicate FirstFit(s: State, n: int, r: int)
    requires Shaped(s)
  {
    if r == 0 then forall a :: !Fits(s, a, n)
    else Fits(s, r, n) && forall a :: Fits(s, a, n) ==> r <= a
  }

  ghost predicate FitsSomewhere(s: State, n: int)
    requires Shaped(s)
  {
    exists a :: Fits(s, a, n)
  }

  /** A request fits somewhere exactly when it is at most `largest`. */
  ghost predicate IsLargest(s: State, largest: int)
    requires Shaped(s)
  {
    forall n :: n >= 0 ==> (FitsSomewhere(s, n) <==> n <= largest)
  }

  /** An allocation succeeds exactly when the rounded request is at most the largest gap. */
  lemma AllocSucceeds(s: State, need: u32, r: int, largest: int)
    requires Shaped(s) && FirstFit(s, Rounded(need), r) && IsLargest(s, largest)
    ensures r != 0 <==> Rounded(need) <= largest
  {
    assert FitsSomewhere(s, Rounded(need)) <==> r != 0;
  }

  // ----- the regions in address order

  /** The bytes in live regions of the processes below `i`. */
  function Total(s: State, i: nat): int
    requires Shaped(s) && i <= MAXPROC
  {
    if i == 0 then 0 else Total(s, i - 1) + if Live(s, i - 1) then s.size[i - 1] else 0
  }

  function Sum(s: State, ids: seq<Pid>): int
    requires Shaped(s)
  {
    if ids == [] then 0 else Sum(s, ids[..|ids| - 1]) + s.size[ids[|ids| - 1]]
  }

  /** `ids` lists the live processes below `i`, each once. */
  ghost predicate Lists(s: State, ids: seq<Pid>, i: nat)
    requires Shaped(s) && i <= MAXPROC
  {
    && (forall x, y :: 0 <= x < y < |ids| ==> ids[x] != ids[y])
    && (forall p: Pid :: p in ids <==> Live(s, p) && p < i)
    && Sum(s, ids) == Total(s, i)
  }

  predicate Ordered(s: State, ids: seq<Pid>, n: nat)
    requires Shaped(s) && n <= |ids|
  {
    forall x, y :: 0 <= x < y < n ==> s.base[ids[x]] <= s.base[ids[y]]
  }

  lemma {:induction false} SumSplit(s: State, a: seq<Pid>, b: seq<Pid>)
    requires Shaped(s)
    ensures Sum(s, a + b) == Sum(s, a) + Sum(s, b)
    decreases |b|
  {
    if b == [] {
      assert a + b == a;
    } else {
      var n := |b| - 1;
      SumSplit(s, a, b[..n]);
      assert (a + b)[..|a + b| - 1] == a + b[..n];
    }
  }

  /** Element `n` moved back to place `k`. */
  function Moved(ids: seq<Pid>, n: nat, k: nat): (r: seq<Pid>)
    requires k <= n < |ids|
    ensures |r| == |ids|
    ensures forall x :: 0 <= x < |ids| ==>
      r[x] == if x < k || x > n then ids[x] else if x == k then ids[n] else ids[x - 1]
  {
    ids[..k] + [ids[n]] + ids[k..n] + ids[n + 1..]
  }

  lemma SumOfFour(s: State, a: seq<Pid>, b: seq<Pid>, c: seq<Pid>, d: seq<Pid>)
    requires Shaped(s)
    ensures Sum(s, a + b + c + d) == Sum(s, a) + Sum(s, b) + Sum(s, c) + Sum(s, d)
  {
    SumSplit(s, a + b + c, d);
    SumSplit(s, a + b, c);
    SumSplit(s, a, b);
  }

  lemma SumSwapped(s: State, a: seq<Pid>, b: seq<Pid>, c: seq<Pid>, d: seq<Pid>)
    requires Shaped(s)
    ensures Sum(s, a + b + c + d) == Sum(s, a + c + b + d)
  {
    SumOfFour(s, a, b, c, d);
    SumOfFour(s, a, c, b, d);
  }

  lemma Cut(ids: seq<Pid>, n: nat, k: nat)
    requires k <= n < |ids|
    ensures ids == ids[..k] + ids[k..n] + [ids[n]] + ids[n + 1..]
  {
  }

  lemma SumMoved(s: State, ids: seq<Pid>, n: nat, k: nat)
    requires Shaped(s) && k <= n < |ids|
    ensures Sum(s, Moved(ids, n, k)) == Sum(s, ids)
  {
    Cut(ids, n, k);
    SumSwapped(s, ids[..k], ids[k..n], [ids[n]], ids[n + 1..]);
  }

  lemma SumSnoc(s: State, ids: seq<Pid>, p: Pid)
    requires Shaped(s)
    ensures Sum(s, ids + [p]) == Sum(s, ids) + s.size[p]
  {
    assert (ids + [p])[..|ids|] == ids;
  }

  lemma MovedMember(ids: seq<Pid>, n: nat, k: nat, p: Pid)
    requires k <= n < |ids|
    ensures p in Moved(ids, n, k) <==> p in ids
  {
    var r := Moved(ids, n, k);
    if p in ids {
      var x :| 0 <= x < |ids| && ids[x] == p;
      assert r[if x < k || x > n then x else if x == n then k else x + 1] == p;
    }
  }

  lemma MovedDistinct(ids: seq<Pid>, n: nat, k: nat)
    requires k <= n < |ids| && forall x, y :: 0 <= x < y < |ids| ==> ids[x] != ids[y]
    ensures var r := Moved(ids, n, k); forall x, y :: 0 <= x < y < |r| ==> r[x] != r[y]
  {
  }

  lemma MovedLists(s: State, ids: seq<Pid>, n: nat, k: nat, i: nat)
    requires Shaped(s) && i <= MAXPROC && Lists(s, ids, i) && k <= n < |ids|
    ensures Lists(s, Moved(ids, n, k), i)
  {
    SumMoved(s, ids, n, k);
    MovedDistinct(ids, n, k);
    forall p: Pid
      ensures p in Moved(ids, n, k) <==> p in ids
    {
      MovedMember(ids, n, k, p);
    }
  }

  lemma AppendLists(s: State, ids: seq<Pid>, i: nat)
    requires Shaped(s) && i < MAXPROC && Lists(s, ids, i)
    ensures Lists(s, if Live(s, i) then ids + [i] else ids, i + 1)
  {
    if Live(s, i) {
      SumSnoc(s, ids, i);
      assert forall p: Pid :: p in ids + [i] <==> p in ids || p == i;
    }
  }

  // ----- gaps

  /** In address order, each region ends before the next one starts. */
  lemma OrderedApart(s: State, ids: seq<Pid>, x: nat, y: nat)
    requires Layout(s) && Lists(s, ids, MAXPROC) && Ordered(s, ids, |ids|) && x < y < |ids|
    ensures s.base[ids[x]] + s.size[ids[x]] <= s.base[ids[y]]
  {
    assert ids[x] in ids && ids[y] in ids;
  }

  /** Where the gap before region `i` starts. */
  function GapStart(s: State, ids: seq<Pid>, i: nat): int
    requires Shaped(s) && i <= |ids|
  {
    if i == 0 then s.lo else s.base[ids[i - 1]] + s.size[ids[i - 1]]
  }

  function GapEnd(s: State, ids: seq<Pid>, i: nat): int
    requires Shaped(s) && i <= |ids|
  {
    if i == |ids| then s.hi else s.base[ids[i]]
  }

  lemma GapOrdered(s: State, ids: seq<Pid>, i: nat)
    requires Layout(s) && Lists(s, ids, MAXPROC) && Ordered(s, ids, |ids|) && i <= |ids|
    ensures s.lo <= GapStart(s, ids, i) <= GapEnd(s, ids, i) <= s.hi
  {
    if i > 0 {
      assert ids[i - 1] in ids;
    }
    if i < |ids| {
      assert ids[i] in ids;
    }
    if 0 < i < |ids| {
      OrderedApart(s, ids, i - 1, i);
    }
  }

  /** A gap is free. */
  lemma GapFits(s: State, ids: seq<Pid>, i: nat, n: int)
    requires Layout(s) && Lists(s, ids, MAXPROC) && Ordered(s, ids, |ids|) && i <= |ids|
    requires n <= GapEnd(s, ids, i) - GapStart(s, ids, i)
    ensures Fits(s, GapStart(s, ids, i), n)
  {
    GapOrdered(s, ids, i);
    forall p: Pid | Live(s, p)
      ensures Apart(GapStart(s, ids, i), n, s.base[p], s.size[p])
    {
      assert p in ids;
      var x :| 0 <= x < |ids| && ids[x] == p;
      if x < i - 1 {
        OrderedApart(s, ids, x, i - 1);
        GapOrdered(s, ids, i);
        assert ids[i - 1] in ids;
      } else if x > i {
        OrderedApart(s, ids, i, x);
        assert ids[i] in ids;
      }
    }
  }

  /** What does not fit into gap `i` and fits somewhere from its start on, fits from the next gap on. */
  lemma GapSkipped(s: State, ids: seq<Pid>, i: nat, n: int, a: int)
    requires Layout(s) && Lists(s, ids, MAXPROC) && i <= |ids| && Fits(s, a, n) && GapStart(s, ids, i) <= a
    requires n > GapEnd(s, ids, i) - GapStart(s, ids, i)
    ensures i < |ids| && GapStart(s, ids, i + 1) <= a
  {
    if i < |ids| {
      assert ids[i] in ids;
    }
  }

  // ----- placing and dropping regions

  function Place(s: State, p: Pid, base: int, size: int): (t: State)
    requires Shaped(s)
    ensures Shaped(t)
  {
    s.(free := s.free[p := false], base := s.base[p := base], size := s.size[p := size])
  }

  /** mem_base = 0 */
  function Drop(s: State, p: Pid): (t: State)
    requires Shaped(s)
    ensures Shaped(t)
  {
    s.(base := s.base[p := 0], size := s.size[p := 0])
  }

  /** Placing and dropping a region changes that of one process only. */
  lemma OneRegion(s: State, p: Pid, base: int, size: int, q: Pid)
    requires Shaped(s)
    ensures var t, u := Place(s, p, base, size), Drop(s, p);
            && t.base[p] == base && t.size[p] == size && (base != 0 ==> Live(t, p)) && u.base[p] == u.size[p] == 0
            && t.brk == u.brk == s.brk && u.free == s.free
            && (q != p ==> t.base[q] == u.base[q] == s.base[q] && t.size[q] == u.size[q] == s.size[q]
                           && t.free[q] == s.free[q])
  {
  }

  /** A region at an address that was free keeps the layout; the process may have had another one before. */
  lemma PlaceKeeps(s: State, p: Pid, base: int, size: int, n: int)
    requires Layout(s) && Fits(s, base, n) && 0 < size <= n
    ensures Layout(Place(s, p, base, size))
  {
    var t := Place(s, p, base, size);
    assert forall q: Pid :: q != p && Live(t, q) ==> Live(s, q);
  }

  lemma DropKeeps(s: State, p: Pid)
    requires Layout(s)
    ensures Layout(Drop(s, p))
  {
    assert forall q: Pid :: Live(Drop(s, p), q) ==> Live(s, q) && q != p;
  }

  /** A region that is dropped again leaves the others as they were, wherever it was. */
  lemma DropPlaced(s: State, p: Pid, base: int, size: int)
    requires Layout(s)
    ensures Layout(Drop(Place(s, p, base, size), p))
  {
    var t := Drop(Place(s, p, base, size), p);
    assert forall q: Pid :: Live(t, q) ==> Live(s, q) && q != p;
  }

  /** What the kernel does to regions: do_spawn() and do_exec() place one of `need` bytes, after a failed attempt to
      load the program in place perhaps another one of `need2`; the end of a program or a failure drops one; a
      process made by vfork() has none; waitpid() frees an entry. */
  datatype Event =
    | Load(p: Pid, need: u32) | Reload(p: Pid, need: u32) | End(p: Pid) | Fork(p: Pid) | Reap(p: Pid)
    | Sbrk(p: Pid, incr: int)

  /** The place found for a request, as umem_alloc() finds it. */
  ghost predicate Allocates(s: State, need: u32, r: int)
    requires Shaped(s)
  {
    FirstFit(s, Rounded(need), r)
  }

  /** The allocator is asked for at least one byte, and the request does not wrap around when it is rounded. */
  predicate Asked(e: Event) {
    (e.Load? || e.Reload?) ==> 0 < e.need <= 0xFFFF_FFFC
  }

  ghost predicate Step(s: State, e: Event, t: State)
    requires Shaped(s)
  {
    match e
    case Load(p, need) => exists r :: Allocates(s, need, r) && t == if r == 0 then s else Place(s, p, r, need)
    case Reload(p, need) =>
      exists r :: Allocates(Drop(s, p), need, r) && t == if r == 0 then Drop(s, p) else Place(Drop(s, p), p, r, need)
    case End(p) => t == Drop(s, p)
    case Fork(p) => t == Drop(s, p).(free := s.free[p := false])
    case Reap(p) => t == s.(free := s.free[p := true])
    case Sbrk(p, incr) => t == SbrkStep(s, p, incr).0
  }

  /** A run, with the states it goes through. */
  ghost predicate Run(ss: seq<State>, es: seq<Event>) {
    |ss| == |es| + 1 && Shaped(ss[0]) && forall i :: 0 <= i < |es| ==> StepsAt(ss, es, i)
  }

  ghost predicate StepsAt(ss: seq<State>, es: seq<Event>, i: nat)
    requires i < |es| < |ss|
  {
    Shaped(ss[i]) && Shaped(ss[i + 1]) && Step(ss[i], es[i], ss[i + 1])
  }

  // ----- sbrk()

  /** sbrk_proc() on the region of process p: the new state, and the old break or -1. All in 32 bits. */
  function SbrkStep(s: State, p: Pid, incr: int): (State, int)
    requires Shaped(s)
  {
    if s.base[p] == 0 then (s, -1) else
    var newBrk := (s.brk[p] + incr) % T32;
    var top := (s.base[p] + s.size[p]) % T32;
    if newBrk > (top - USER_STACK_DEFAULT) % T32 || newBrk < s.base[p] then (s, -1)
    else (s.(brk := s.brk[p := newBrk]), s.brk[p])
  }

  /** The break is in the region, below the part kept for the stack. */
  predicate BreakInside(s: State, p: Pid)
    requires Shaped(s)
  {
    s.base[p] <= s.brk[p] <= s.base[p] + s.size[p] - USER_STACK_DEFAULT
  }

  /** Without a region sbrk() fails. */
  lemma SbrkNone(s: State, p: Pid, incr: int)
    requires Shaped(s) && s.base[p] == 0
    ensures SbrkStep(s, p, incr) == (s, -1)
  {
  }

  /** A break that sbrk() sets is inside exactly when the region does not end in the first 4096 bytes. */
  lemma SbrkInside(s: State, p: Pid, incr: int)
    requires Layout(s) && Live(s, p)
    ensures var (t, r) := SbrkStep(s, p, incr);
            r != -1 ==> r == s.brk[p] && (BreakInside(t, p) <==> s.base[p] + s.size[p] >= USER_STACK_DEFAULT)
  {
  }

  /** The increment moves a break inside to a place that is inside too. */
  predicate MovesInside(s: State, p: Pid, incr: int)
    requires Shaped(s)
  {
    s.base[p] <= s.brk[p] + incr <= s.base[p] + s.size[p] - USER_STACK_DEFAULT
  }

  /** sbrk() moves the break by the increment if that leaves it inside, and fails otherwise. */
  predicate SbrkAsAsked(s: State, p: Pid, incr: int)
    requires Shaped(s)
  {
    SbrkStep(s, p, incr) ==
    if MovesInside(s, p, incr) then (s.(brk := s.brk[p := s.brk[p] + incr]), s.brk[p]) else (s, -1)
  }

  /** For a break inside and increments of 32 bits, it does so unless the region has 2^31 bytes below its stack. */
  lemma SbrkExact(s: State, p: Pid, incr: int)
    requires Layout(s) && Live(s, p) && BreakInside(s, p) && -(T32 / 2) <= incr < T32 / 2
    ensures s.size[p] - USER_STACK_DEFAULT < T32 / 2 ==> SbrkAsAsked(s, p, incr)
  {
  }

  /** In such a region a break at its start can go up by half of the address space instead of down. */
  lemma SbrkWraps(s: State, p: Pid)
    requires Layout(s) && Live(s, p) && s.brk[p] == s.base[p] && s.size[p] - USER_STACK_DEFAULT >= T32 / 2
    ensures BreakInside(s, p) && !SbrkAsAsked(s, p, -(T32 / 2))
    ensures SbrkStep(s, p, -(T32 / 2)).0.brk[p] == s.brk[p] + T32 / 2
  {
  }

  // ----- runs

  /** Rounded to nothing, a request gets the start of the pool, and is recorded in full. */
  lemma UnaskedPlace(s: State, need: u32, r: int)
    requires Layout(s) && !(0 < need <= 0xFFFF_FFFC) && Allocates(s, need, r)
    ensures r == s.lo
  {
    assert Fits(s, s.lo, 0);
  }

  /** Whether what is recorded for the request was free; a request that the allocator rounds up always is. */
  ghost predicate Granted(s: State, e: Event)
    requires Shaped(s)
  {
    Asked(e) || (0 < e.need && Fits(Drop(s, e.p), s.lo, e.need))
  }

  lemma ReloadGranted(s: State, p: Pid, need: u32)
    requires Shaped(s)
    ensures Granted(Drop(s, p), Load(p, need)) <==> Granted(s, Reload(p, need))
  {
    assert Drop(Drop(s, p), p) == Drop(s, p);
  }

  lemma PlacedLayout(s: State, p: Pid, need: u32)
    requires Layout(s)
    ensures Layout(Place(s, p, s.lo, need)) <==> 0 < need && Fits(Drop(s, p), s.lo, need)
  {
    var t, u := Place(s, p, s.lo, need), Drop(s, p);
    assert Live(t, p) && forall q: Pid :: q != p ==> (Live(t, q) <==> Live(s, q)) && (Live(u, q) <==> Live(s, q));
    DropKeeps(s, p);
    if 0 < need && Fits(u, s.lo, need) {
      PlaceKeeps(u, p, s.lo, need, need);
      assert Place(u, p, s.lo, need) == t.(brk := u.brk);
    }
  }

  lemma LoadKeeps(s: State, p: Pid, need: u32, r: int)
    requires Layout(s) && Allocates(s, need, r)
    ensures Layout(if r == 0 then s else Place(s, p, r, need)) <==> Granted(s, Load(p, need))
  {
    if Asked(Load(p, need)) {
      RoundedCovers(need);
      if r != 0 { PlaceKeeps(s, p, r, need, Rounded(need)); }
    } else {
      UnaskedPlace(s, need, r);
      PlacedLayout(s, p, need);
    }
  }

  lemma OtherKeeps(s: State, e: Event, t: State)
    requires Layout(s) && Step(s, e, t) && !e.Load? && !e.Reload?
    ensures Layout(t) && Granted(s, e)
  {
    match e
    case End(p) => DropKeeps(s, p);
    case Fork(p) =>
      DropKeeps(s, p);
      assert forall q: Pid :: Live(t, q) <==> Live(s, q) && q != p;
    case Reap(p) => assert forall q: Pid :: Live(t, q) ==> Live(s, q);
    case Sbrk(p, incr) => assert forall q: Pid :: Live(t, q) <==> Live(s, q);
  }

  /** Every call keeps the layout, except exactly those that ask for nothing, or for so much that it rounds to
      nothing, when that much is not free at the start of the pool. */
  lemma StepKeeps(s: State, e: Event, t: State)
    requires Layout(s) && Step(s, e, t)
    ensures Shaped(t) && (Layout(t) <==> Granted(s, e))
  {
    hide Allocates, Apart, Live, Fits, Granted;
    match e
    case Load(p, need) =>
      var r :| Allocates(s, need, r) && t == if r == 0 then s else Place(s, p, r, need);
      LoadKeeps(s, p, need, r);
    case Reload(p, need) =>
      var r :| Allocates(Drop(s, p), need, r) && t == if r == 0 then Drop(s, p) else Place(Drop(s, p), p, r, need);
      DropKeeps(s, p);
      LoadKeeps(Drop(s, p), p, need, r);
      ReloadGranted(s, p, need);
    case _ => OtherKeeps(s, e, t);
  }

  ghost predicate GrantedAt(ss: seq<State>, es: seq<Event>, i: nat)
    requires i < |es| < |ss|
  {
    Shaped(ss[i]) && Granted(ss[i], es[i])
  }

  /** No two live regions overlap and none leaves the pool, in any state of a run, exactly when every request of it is
      granted. */
  lemma {:induction false} NeverOverlap(ss: seq<State>, es: seq<Event>)
    requires Run(ss, es) && Layout(ss[0])
    ensures (forall i :: 0 <= i < |ss| ==> Layout(ss[i])) <==> forall i :: 0 <= i < |es| ==> GrantedAt(ss, es, i)
    decreases |es|
  {
    hide Layout, Step, Granted;
    if es == [] { return; }
    var n := |es| - 1;
    assert StepsAt(ss, es, n);
    var before, rest := ss[..|es|], es[..n];
    forall i | 0 <= i < n
      ensures StepsAt(before, rest, i)
    {
      assert StepsAt(ss, es, i);
    }
    NeverOverlap(before, rest);
    forall i | 0 <= i < n
      ensures GrantedAt(before, rest, i) <==> GrantedAt(ss, es, i)
    {
    }
    assert before[n] == ss[n];
    if Layout(ss[n]) {
      StepKeeps(ss[n], es[n], ss[|es|]);
      assert Layout(ss[|es|]) <==> GrantedAt(ss, es, n);
    }
    if forall i :: 0 <= i < |ss| ==> Layout(ss[i]) {
      forall i | 0 <= i < |before|
        ensures Layout(before[i])
      {
        assert before[i] == ss[i];
      }
      assert Layout(ss[|es|]);
    } else if forall i :: 0 <= i < |es| ==> GrantedAt(ss, es, i) {
      assert forall i :: 0 <= i < n ==> GrantedAt(ss, es, i);
      assert forall i :: 0 <= i < |before| ==> Layout(before[i]) && before[i] == ss[i];
      assert GrantedAt(ss, es, n);
    }
  }

  /** In a pool that leaves out the last four bytes of the address space, the requests granted are those that the
      allocator was meant to be asked. */
  lemma GrantedAsked(s: State, e: Event)
    requires Shaped(s) && s.hi <= 0xFFFF_FFFC
    ensures Granted(s, e) <==> Asked(e)
  {
  }

  /** A request that wraps around gets a place although it fits nowhere: rounded, it asks for no bytes. */
  lemma WrappedRequest(s: State, need: u32)
    requires Layout(s) && s.hi <= 0xFFFF_FFFC < need
    ensures Rounded(need) == 0 && Fits(s, s.lo, 0) && forall a :: !Fits(s, a, need)
  {
  }

  /** The base of a region is a multiple of four if the pool's start and all region sizes are. */
  predicate AllAligned(s: State)
    requires Shaped(s)
  {
    s.lo % 4 == 0 && forall p: Pid :: Live(s, p) ==> s.base[p] % 4 == 0 && s.size[p] % 4 == 0
  }

  /** The lowest place is the start of the pool or the end of a region. */
  lemma FirstFitWhere(s: State, n: int, r: int)
    requires Layout(s) && n > 0 && FirstFit(s, n, r) && r != 0 && r != s.lo
    ensures exists p: Pid :: Live(s, p) && r == s.base[p] + s.size[p]
  {
    if forall p: Pid :: Live(s, p) ==> r != s.base[p] + s.size[p] {
      assert Fits(s, r - 1, n);
    }
  }

  /** The allocator rounds requests, but the process entry keeps the request as it was: the next region starts at
      an aligned address exactly when that size is a multiple of four. */
  lemma AlignedPlaces(s: State, need: u32, r: int, p: Pid)
    requires Layout(s) && AllAligned(s) && Allocates(s, need, r) && r != 0
    ensures r % 4 == 0 && (AllAligned(Place(s, p, r, need)) <==> need % 4 == 0)
  {
    if !(0 < need <= 0xFFFF_FFFC) {
      UnaskedPlace(s, need, r);
    } else if r != s.lo {
      FirstFitWhere(s, Rounded(need), r);
    }
    var t := Place(s, p, r, need);
    assert Live(t, p) && forall q: Pid :: q != p ==> (Live(t, q) <==> Live(s, q));
  }

  /** An empty pool: the first program gets its start, and the next one a region that begins behind the bytes the first
      asked for, not behind the rounded ones. A program of five bytes with the default heap and stack asks for 8197. */
  lemma UnalignedNext(s: State, p: Pid, need: int, more: int)
    requires Layout(s) && s.lo % 4 == 0 && forall o: Pid :: !Live(s, o)
    requires 0 < need <= 0xFFFF_FFFC && 0 < more <= 0xFFFF_FFFC
    requires s.lo + Rounded(need) <= s.hi && s.lo + need + Rounded(more) <= s.hi
    ensures Allocates(s, need, s.lo) && Layout(Place(s, p, s.lo, need))
    ensures Allocates(Place(s, p, s.lo, need), more, s.lo + need) && (s.lo + need) % 4 == need % 4
  {
    RoundedCovers(need);
    RoundedCovers(more);
    hide Rounded;
    var t, n := Place(s, p, s.lo, need), Rounded(more);
    assert Fits(s, s.lo, Rounded(need));
    forall o: Pid | o != p
      ensures !Live(t, o)
    {
      assert !Live(s, o);
    }
    assert Fits(t, s.lo + need, n);
    forall a | Fits(t, a, n)
      ensures s.lo + need <= a
    {
      assert Live(t, p) && t.base[p] == s.lo && t.size[p] == need;
    }
  }
}
