/** When vfork() of kernel/proc.c returns the wrong pid: a run for every other child that gets as far as its exit, and
  with VforkRuns the exact condition. */
module VforkEscape {
  import opened Scheduler
  import opened VforkRuns

  // ----- runs that leave most processes alone

  /** Only ready and running were exchanged. */
  predicate Quiet(y: System, z: System)
    requires Shaped(y.s) && |y.waits| == MAXPROC && Shaped(z.s) && |z.waits| == MAXPROC
  {
    && z.waits == y.waits && z.s.ppid == y.s.ppid
    && forall x: Pid :: z.s.st[x] == y.s.st[x] || (OnCpu(z.s.st[x]) && OnCpu(y.s.st[x]))
  }

  /** The processes of rank less than m are where they were. */
  predicate Above(y: System, z: System, rank: seq<nat>, m: nat)
    requires Shaped(y.s) && |y.waits| == MAXPROC && Shaped(z.s) && |z.waits| == MAXPROC && |rank| == MAXPROC
  {
    forall x: Pid :: rank[x] < m ==>
      && z.waits[x] == y.waits[x] && z.s.ppid[x] == y.s.ppid[x]
      && (z.s.st[x] == y.s.st[x] || (OnCpu(z.s.st[x]) && OnCpu(y.s.st[x])))
  }

  lemma AboveTrans(x: System, y: System, z: System, rank: seq<nat>, m: nat, n: nat)
    requires Shaped(x.s) && |x.waits| == MAXPROC && Shaped(y.s) && |y.waits| == MAXPROC && Shaped(z.s)
      && |z.waits| == MAXPROC
    requires |rank| == MAXPROC && Above(x, y, rank, m) && Above(y, z, rank, n) && n <= m
    ensures Above(x, z, rank, n)
  {
  }

  lemma {:induction false} RunThen(x: System, es: seq<Event>, y: System, fs: seq<Event>, z: System, p: Pid)
    requires FrozenRun(x, es, y, p) && FrozenRun(y, fs, z, p)
    ensures FrozenRun(x, es + fs, z, p)
    decreases |es|
  {
    hide Step, Enabled;
    if es == [] {
      assert es + fs == fs;
    } else {
      assert (es + fs)[1..] == es[1..] + fs;
      RunThen(Step(x, es[0]), es[1..], y, fs, z, p);
    }
  }

  lemma OneEvent(y: System, e: Event, p: Pid)
    requires Shaped(y.s) && |y.waits| == MAXPROC && y.s.st[p] == Vfork && Enabled(y, e)
    ensures FrozenRun(y, [e], Step(y, e), p)
  {
    assert [e][1..] == [];
  }

  lemma QuietSchedule(y: System, rank: seq<nat>)
    requires Calm(y, rank)
    ensures Calm(Step(y, Schedule), rank) && Quiet(y, Step(y, Schedule))
  {
    ScheduleFrame(y.s);
    StepKeeps(y, Schedule);
    CallsKept(y, Schedule);
  }

  lemma QuietTrans(x: System, y: System, z: System)
    requires Shaped(x.s) && |x.waits| == MAXPROC && Shaped(y.s) && |y.waits| == MAXPROC && Shaped(z.s)
      && |z.waits| == MAXPROC
    requires Quiet(x, y) && Quiet(y, z)
    ensures Quiet(x, z)
  {
  }

  /** A ready process gets its turn. */
  lemma {:induction false} Turn(y: System, q: Pid, p: Pid, rank: seq<nat>) returns (es: seq<Event>, z: System)
    requires Calm(y, rank) && (y.s.cur == q || y.s.st[q] == Ready) && y.s.st[p] == Vfork
    ensures FrozenRun(y, es, z, p) && Calm(z, rank) && z.s.cur == q && Quiet(y, z)
    decreases Distance(y.s.cur, q)
  {
    if y.s.cur == q {
      es, z := [], y;
      return;
    }
    var u := Step(y, Schedule);
    QuietSchedule(y, rank);
    ScheduleCloser(y.s, q);
    OneEvent(y, Schedule, p);
    var fs;
    fs, z := Turn(u, q, p, rank);
    es := [Schedule] + fs;
    RunThen(y, [Schedule], u, fs, z, p);
    QuietTrans(y, u, z);
  }

  /** A process that sleeps or is stopped is woken by a signal, and then gets its turn. */
  lemma Woken(y: System, q: Pid, p: Pid, rank: seq<nat>) returns (es: seq<Event>, z: System)
    requires Calm(y, rank) && y.s.st[p] == Vfork && Movable(y.s.st[q])
    ensures FrozenRun(y, es, z, p) && Calm(z, rank) && z.s.cur == q && z.waits == y.waits && z.s.ppid == y.s.ppid
    ensures forall x: Pid :: z.s.st[x] == y.s.st[x] || (OnCpu(z.s.st[x]) && (OnCpu(y.s.st[x]) || x == q))
    ensures Movable(z.s.st[q])
  {
    hide NprocCounts, FrozenRun;
    if y.s.cur == q || y.s.st[q] == Ready {
      es, z := Turn(y, q, p, rank);
      return;
    }
    var u := Step(y, Kill(q, true));
    StepKeeps(y, Kill(q, true));
    CallsKept(y, Kill(q, true));
    OneEvent(y, Kill(q, true), p);
    var fs;
    fs, z := Turn(u, q, p, rank);
    es := [Kill(q, true)] + fs;
    RunThen(y, [Kill(q, true)], u, fs, z, p);
  }

  // ----- getting out

  /** Process q has its turn and can exit. */
  predicate Out(z: System, q: Pid)
    requires Shaped(z.s) && |z.waits| == MAXPROC
  {
    z.s.cur == q && Movable(z.s.st[q]) && z.waits[q] == No
  }

  /** What a run that lets q get out guarantees. */
  ghost predicate Escaped(y: System, es: seq<Event>, z: System, p: Pid, q: Pid, rank: seq<nat>) {
    && Calm(y, rank) && Calm(z, rank) && FrozenRun(y, es, z, p) && Out(z, q) && z.s.st[p] == Vfork
    && Above(y, z, rank, rank[q]) && z.s.ppid[q] == y.s.ppid[q]
  }

  /** The wait that returns at once reaps a zombie child, or finds no child. */
  lemma WaitReturns(u: State, q: Pid, pid: int)
    requires Shaped(u) && u.cur == q && Served(u, q, pid)
    ensures var (t, o) := WaitStep(u, pid, false);
            && !o.Asleep? && t.cur == q && t.ppid == u.ppid
            && forall x: Pid :: t.st[x] == u.st[x] || (t.st[x] == Free && u.st[x] == Zombie && u.ppid[x] == q)
  {
    if FindZombie(u, pid, 0) == MAXPROC && HasChild(u, q) {
      var c: Pid :| IsChild(u, q, c) && Matches(pid, c) && u.st[c] == Zombie;
      NoZombie(u, pid, 0, c);
    }
  }

  lemma ReapedRanked(s: State, t: State, q: Pid, rank: seq<nat>)
    requires Shaped(s) && Shaped(t) && Ranked(s, rank) && t.ppid == s.ppid && s.ppid[0] == 0 && q != 0
    requires forall x: Pid :: t.st[x] == s.st[x] || (t.st[x] == Free && s.st[x] == Zombie && s.ppid[x] == q)
    ensures Ranked(t, rank) && forall x: Pid :: rank[x] <= rank[q] ==> t.st[x] == s.st[x]
  {
    assert forall x: Pid :: Alive(s, x) ==> Alive(t, x);
  }

  lemma ServedWait(u: System, q: Pid, pid: int, p: Pid, rank: seq<nat>)
    requires Calm(u, rank) && u.s.st[p] == Vfork && u.s.cur == q && q != 0 && Movable(u.s.st[q])
    requires u.waits[q] == For(pid) && Served(u.s, q, pid)
    ensures Enabled(u, Wait(pid, false))
    ensures var z := Step(u, Wait(pid, false));
            && Calm(z, rank) && Out(z, q) && z.s.st[p] == Vfork && Above(u, z, rank, rank[q]) && z.s.ppid == u.s.ppid
  {
    hide WaitStep, NprocCounts, OnlyCurrentRuns, Served;
    StepKeeps(u, Wait(pid, false));
    CallsKept(u, Wait(pid, false));
    WaitReturns(u.s, q, pid);
    ReapedRanked(u.s, Step(u, Wait(pid, false)).s, q, rank);
  }

  lemma ServedStill(y: System, u: System, q: Pid, pid: int)
    requires Shaped(y.s) && |y.waits| == MAXPROC && Shaped(u.s) && |u.waits| == MAXPROC && Served(y.s, q, pid)
    requires u.s.ppid == y.s.ppid
    requires forall x: Pid :: u.s.st[x] == y.s.st[x] || (Movable(u.s.st[x]) && Movable(y.s.st[x]))
    ensures Served(u.s, q, pid)
  {
    assert forall x: Pid :: IsChild(u.s, q, x) <==> IsChild(y.s, q, x);
  }

  lemma AboveWoken(y: System, u: System, rank: seq<nat>, q: Pid)
    requires Shaped(y.s) && |y.waits| == MAXPROC && Shaped(u.s) && |u.waits| == MAXPROC && |rank| == MAXPROC
    requires u.waits == y.waits && u.s.ppid == y.s.ppid
    requires forall x: Pid :: u.s.st[x] == y.s.st[x] || (OnCpu(u.s.st[x]) && (OnCpu(y.s.st[x]) || x == q))
    ensures Above(y, u, rank, rank[q])
  {
  }

  lemma ServedEscapes(y: System, q: Pid, pid: int, p: Pid, rank: seq<nat>) returns (es: seq<Event>, z: System)
    requires Calm(y, rank) && y.s.st[p] == Vfork && q != p && q != 0 && rank[p] < rank[q] && Movable(y.s.st[q])
    requires y.waits[q] == For(pid) && Served(y.s, q, pid)
    ensures Escaped(y, es, z, p, q, rank)
  {
    assert |rank| == MAXPROC;
    hide Above, Served, NprocCounts, OnlyCurrentRuns, Ranked, Calls, FrozenRun, WaitStep;
    var fs, u := Woken(y, q, p, rank);
    ServedStill(y, u, q, pid);
    AboveWoken(y, u, rank, q);
    ServedWait(u, q, pid, p, rank);
    z := Step(u, Wait(pid, false));
    AboveTrans(y, u, z, rank, rank[q], rank[q]);
    OneEvent(u, Wait(pid, false), p);
    es := fs + [Wait(pid, false)];
    RunThen(y, fs, u, [Wait(pid, false)], z, p);
  }

  /** What the exit of r leaves to its parent q, which waits for it. */
  predicate LeftTo(y: System, z: System, q: Pid, r: Pid)
    requires Shaped(y.s) && |y.waits| == MAXPROC && Shaped(z.s) && |z.waits| == MAXPROC
  {
    && z.waits == y.waits && z.s.ppid[q] == y.s.ppid[q] && IsChild(z.s, q, r) && z.s.st[r] == Zombie
    && Movable(z.s.st[q])
    && (y.s.st[q] == Vfork ==> z.s.cur == q)
  }

  lemma RankedDeparted(y: System, z: System, x: Pid, rank: seq<nat>)
    requires Shaped(y.s) && |y.waits| == MAXPROC && Shaped(z.s) && |z.waits| == MAXPROC && Departed(y, z, x)
    requires Ranked(y.s, rank) && y.s.st[0] != Free && y.s.st[0] != Zombie && x != 0 && y.s.st[x] != Free
    ensures Ranked(z.s, rank)
  {
    assert forall q: Pid :: q != x ==> (z.s.st[q] != Free <==> y.s.st[q] != Free) && (Alive(y.s, q) ==> Alive(z.s, q));
  }

  lemma AboveDeparted(y: System, z: System, x: Pid, rank: seq<nat>)
    requires Shaped(y.s) && |y.waits| == MAXPROC && Shaped(z.s) && |z.waits| == MAXPROC && Departed(y, z, x)
    requires Ranked(y.s, rank) && x != 0 && y.s.st[x] != Free && y.s.st[0] != Free && y.s.ppid[0] == 0
    ensures Above(y, z, rank, rank[y.s.ppid[x]])
  {
    assert forall r: Pid :: y.s.ppid[r] == x && y.s.st[r] != Free ==> rank[x] < rank[r];
  }

  lemma LeftByExit(y: System, z: System, q: Pid, r: Pid)
    requires Shaped(y.s) && |y.waits| == MAXPROC && Shaped(z.s) && |z.waits| == MAXPROC && Departed(y, z, r)
    requires y.s.ppid[r] == q && q != r && y.s.ppid[q] != r && y.s.ppid[r] != r
    requires y.s.st[q] == Vfork ==> z.s.cur == q && z.s.st[q] == Running
    requires y.s.st[q] == Vfork || OnCpu(y.s.st[q]) || y.s.st[q] == Sleeping
    ensures LeftTo(y, z, q, r)
  {
  }

  lemma ChildExits(y: System, q: Pid, r: Pid, p: Pid, rank: seq<nat>)
    requires Calm(y, rank) && y.s.st[p] == Vfork && Out(y, r) && r != 0 && r != p && y.s.ppid[r] == q && q != p
    requires rank[p] < rank[q] < rank[r] && (y.s.st[q] == Vfork || y.waits[q].For?)
    ensures Enabled(y, Exit(0))
    ensures var z := Step(y, Exit(0));
            Calm(z, rank) && z.s.st[p] == Vfork && Above(y, z, rank, rank[q]) && LeftTo(y, z, q, r)
  {
    hide Departed, NprocCounts, OnlyCurrentRuns, ExitStep, LeftTo, Above;
    var z := Step(y, Exit(0));
    StepKeeps(y, Exit(0));
    CallsKept(y, Exit(0));
    ExitDeparts(y, 0);
    RankedDeparted(y, z, r, rank);
    AboveDeparted(y, z, r, rank);
    AboveVfork(y, z, rank, rank[q], p);
    if y.s.st[q] == Vfork {
      ExitResumes(y, 0);
    }
    LeftByExit(y, z, q, r);
  }

  lemma AboveVfork(y: System, z: System, rank: seq<nat>, m: nat, p: Pid)
    requires Shaped(y.s) && |y.waits| == MAXPROC && Shaped(z.s) && |z.waits| == MAXPROC && |rank| == MAXPROC
    requires Above(y, z, rank, m) && rank[p] < m && y.s.st[p] == Vfork
    ensures z.s.st[p] == Vfork
  {
  }

  /** A process that waits for nothing gets out. */
  lemma FreeEscapes(y: System, q: Pid, p: Pid, rank: seq<nat>) returns (es: seq<Event>, z: System)
    requires Calm(y, rank) && y.s.st[p] == Vfork && q != p && rank[p] < rank[q] && Movable(y.s.st[q])
      && y.waits[q] == No
    ensures Escaped(y, es, z, p, q, rank)
  {
    es, z := Woken(y, q, p, rank);
    AboveWoken(y, z, rank, q);
  }

  /** When its child r is out, so is q, which waits for it. */
  lemma ParentEscapes(y: System, q: Pid, r: Pid, p: Pid, rank: seq<nat>, fs: seq<Event>, u: System)
    returns (es: seq<Event>, z: System)
    requires Escaped(y, fs, u, p, r, rank) && y.s.ppid[r] == q && q != p && q != 0 && r != 0 && r != p
    requires rank[p] < rank[q] < rank[r]
    requires y.s.st[q] == Vfork || (y.waits[q].For? && Matches(y.waits[q].pid, r))
    ensures Escaped(y, es, z, p, q, rank)
  {
    assert u.waits[q] == y.waits[q] && u.s.ppid[q] == y.s.ppid[q] && (u.s.st[q] == Vfork <==> y.s.st[q] == Vfork);
    ChildExits(u, q, r, p, rank);
    var x := Step(u, Exit(0));
    OneEvent(u, Exit(0), p);
    RunThen(y, fs, u, [Exit(0)], x, p);
    AboveTrans(y, u, x, rank, rank[r], rank[q]);
    if y.s.st[q] == Vfork {
      es, z := fs + [Exit(0)], x;
    } else {
      assert Served(x.s, q, x.waits[q].pid);
      var gs;
      gs, z := ServedEscapes(x, q, x.waits[q].pid, p, rank);
      es := fs + [Exit(0)] + gs;
      RunThen(y, fs + [Exit(0)], x, gs, z, p);
      AboveTrans(y, x, z, rank, rank[q], rank[q]);
    }
  }

  /** Whatever is loose gets out. */
  lemma {:induction false} LooseEscapes(y: System, q: Pid, k: nat, p: Pid, rank: seq<nat>)
    returns (es: seq<Event>, z: System)
    requires Calm(y, rank) && y.s.st[p] == Vfork && rank[p] < rank[q] && Loose(y, p, q, k)
    ensures Escaped(y, es, z, p, q, rank)
    decreases k
  {
    if y.s.st[q] != Vfork && y.waits[q] == No {
      es, z := FreeEscapes(y, q, p, rank);
    } else if y.s.st[q] != Vfork && Served(y.s, q, y.waits[q].pid) {
      es, z := ServedEscapes(y, q, y.waits[q].pid, p, rank);
    } else {
      var r: Pid :| y.s.ppid[r] == q && Loose(y, p, r, k - 1) && (y.s.st[q] != Vfork ==> Matches(y.waits[q].pid, r));
      var fs, u := LooseEscapes(y, r, k - 1, p, rank);
      es, z := ParentEscapes(y, q, r, p, rank, fs, u);
    }
  }

  // ----- the answer

  /** In some run p is resumed, and its vfork() returns another pid than b. */
  ghost predicate WrongReturn(y: System, p: Pid, b: Pid) {
    exists es, z :: FrozenRun(y, es, z, p) && Shaped(z.s) && z.s.st[p] != Vfork && z.s.vret[p] != b
  }

  /** Another child of p gets as far as its exit. */
  ghost predicate Rival(y: System, p: Pid)
    requires Shaped(y.s) && |y.waits| == MAXPROC
  {
    exists q: Pid :: y.s.ppid[q] == p && GetsOut(y, p, q)
  }

  /** vfork() by p with new child c: nothing else changes. */
  predicate Forked(y: System, z: System, p: Pid, c: Pid)
    requires Shaped(y.s) && |y.waits| == MAXPROC && Shaped(z.s) && |z.waits| == MAXPROC
  {
    && y.s.st[c] == Free && z.s.ppid[c] == p && z.s.st[p] == Vfork && z.s.cur == c && c != p && c != 0
    && z.waits == y.waits
    && forall x: Pid :: x != c ==> z.s.ppid[x] == y.s.ppid[x] && (x != p ==> z.s.st[x] == y.s.st[x])
  }

  lemma VforkForks(y: System)
    requires Sound(y) && Enabled(y, DoVfork) && VforkStep(y.s).1 != NOPID
    ensures Forked(y, Step(y, DoVfork), y.s.cur, VforkStep(y.s).1)
  {
  }

  lemma ServedSame(y: System, z: System, p: Pid, c: Pid, q: Pid, pid: int)
    requires Shaped(y.s) && |y.waits| == MAXPROC && Shaped(z.s) && |z.waits| == MAXPROC && Forked(y, z, p, c)
    requires q != c && q != p && Alive(y.s, p)
    ensures Served(y.s, q, pid) <==> Served(z.s, q, pid)
  {
    assert forall x: Pid :: IsChild(y.s, q, x) <==> IsChild(z.s, q, x);
  }

  /** vfork() changes nothing about what gets out. */
  lemma {:induction false} LooseSame(y: System, z: System, p: Pid, c: Pid, q: Pid, k: nat)
    requires Shaped(y.s) && |y.waits| == MAXPROC && Shaped(z.s) && |z.waits| == MAXPROC && Forked(y, z, p, c)
    requires q != c && q != p && Alive(y.s, p)
    ensures Loose(y, p, q, k) <==> Loose(z, p, q, k)
    decreases k
  {
    hide Served;
    if y.waits[q].For? {
      ServedSame(y, z, p, c, q, y.waits[q].pid);
    }
    if k > 0 {
      var j := k - 1;
      forall r: Pid | r != c && r != p
        ensures Loose(y, p, r, j) <==> Loose(z, p, r, j)
      {
        LooseSame(y, z, p, c, r, j);
      }
    }
  }

  /** The rank of the new child is one more than its parent's. */
  lemma RankedBirth(s: State, t: State, c: Pid, rank: seq<nat>)
    requires Shaped(s) && Shaped(t) && Ranked(s, rank) && s.st[c] == Free && c != 0 && Alive(s, s.cur)
      && Alive(t, s.cur)
    requires t.ppid == s.ppid[c := s.cur] && forall q: Pid :: q != c && q != s.cur ==> t.st[q] == s.st[q]
    ensures Ranked(t, rank[c := rank[s.cur] + 1])
  {
    assert forall q: Pid :: q != 0 && q != c && t.st[q] != Free ==> s.ppid[q] != c;
  }

  lemma CalmVfork(y: System, rank: seq<nat>) returns (rank': seq<nat>)
    requires Calm(y, rank) && Enabled(y, DoVfork) && VforkStep(y.s).1 != NOPID
    ensures Calm(Step(y, DoVfork), rank') && rank'[y.s.cur] < rank'[VforkStep(y.s).1]
    ensures forall q: Pid :: q != VforkStep(y.s).1 ==> rank'[q] == rank[q]
  {
    StepKeeps(y, DoVfork);
    CallsKept(y, DoVfork);
    rank' := rank[VforkStep(y.s).1 := rank[y.s.cur] + 1];
    RankedBirth(y.s, Step(y, DoVfork).s, VforkStep(y.s).1, rank);
  }

  /** Once q is out, its exit resumes p. */
  lemma OutReturns(y: System, es: seq<Event>, z: System, p: Pid, q: Pid, b: Pid, rank: seq<nat>)
    requires Escaped(y, es, z, p, q, rank) && y.s.ppid[q] == p && q != 0 && q != p && q != b
    ensures WrongReturn(y, p, b)
  {
    hide Above;
    ExitResumes(z, 0);
    OneEvent(z, Exit(0), p);
    RunThen(y, es, z, [Exit(0)], Step(z, Exit(0)), p);
  }

  /** A rival in the state before the call gives a run with the wrong result. */
  lemma RivalReturns(y: System, rank: seq<nat>, q: Pid, k: nat)
    requires Calm(y, rank) && y.s.cur != 0 && Enabled(y, DoVfork) && VforkStep(y.s).1 != NOPID
    requires y.s.ppid[q] == y.s.cur && Loose(y, y.s.cur, q, k)
    ensures WrongReturn(Step(y, DoVfork), y.s.cur, VforkStep(y.s).1)
  {
    hide VforkStep, NprocCounts, OnlyCurrentRuns;
    var p, c, y1 := y.s.cur, VforkStep(y.s).1, Step(y, DoVfork);
    VforkForks(y);
    var rank' := CalmVfork(y, rank);
    LooseSame(y, y1, p, c, q, k);
    var es, z := LooseEscapes(y1, q, k, p, rank');
    OutReturns(y1, es, z, p, q, c, rank');
  }

  lemma NoRivalHeld(y: System, K: set<Pid>)
    requires Sound(y) && Calls(y) && y.s.cur != 0 && Enabled(y, DoVfork) && VforkStep(y.s).1 != NOPID
      && !Rival(y, y.s.cur)
    requires var z, p := Step(y, DoVfork), y.s.cur;
             forall q: Pid :: q in K <==> Alive(z.s, q) && q != p && q != 0 && !GetsOut(z, p, q)
    ensures Held(Step(y, DoVfork), y.s.cur, VforkStep(y.s).1, K)
  {
    hide VforkStep, NprocCounts, OnlyCurrentRuns;
    var z, p, c := Step(y, DoVfork), y.s.cur, VforkStep(y.s).1;
    StepKeeps(y, DoVfork);
    CallsKept(y, DoVfork);
    VforkForks(y);
    NotLooseStuck(z, p, K);
    forall q: Pid | Alive(z.s, q) && z.s.ppid[q] == p
      ensures q == c || q in K
    {
      if q != c {
        if k: nat :| Loose(z, p, q, k) {
          LooseSame(y, z, p, c, q, k);
        }
      }
    }
  }

  /** In every state that calls lead to, vfork() by a process other than 0 returns the pid of its own child in all runs
      exactly when no other child of the caller gets as far as its exit. */
  lemma OwnChildReturned(y: System, rank: seq<nat>)
    requires Calm(y, rank) && y.s.cur != 0 && Enabled(y, DoVfork) && VforkStep(y.s).1 != NOPID
    ensures WrongReturn(Step(y, DoVfork), y.s.cur, VforkStep(y.s).1) <==> Rival(y, y.s.cur)
  {
    var z, p, c := Step(y, DoVfork), y.s.cur, VforkStep(y.s).1;
    if Rival(y, p) {
      var q: Pid :| y.s.ppid[q] == p && GetsOut(y, p, q);
      var k: nat :| Loose(y, p, q, k);
      RivalReturns(y, rank, q, k);
    } else {
      var K := set q: Pid | 0 <= q < 16 && Alive(z.s, q) && q != p && q != 0 && !GetsOut(z, p, q);
      NoRivalHeld(y, K);
      if es, u :| FrozenRun(z, es, u, p) && Shaped(u.s) && u.s.st[p] != Vfork && u.s.vret[p] != c {
        OnlyOwnResumes(z, es, u, p, c, K);
      }
    }
  }

  /** Without living children there is no rival; a child that waits for nothing is one. */
  lemma RivalWhen(y: System)
    requires Sound(y) && y.s.cur != 0
    ensures (forall q: Pid :: Alive(y.s, q) ==> y.s.ppid[q] != y.s.cur) ==> !Rival(y, y.s.cur)
    ensures (exists q: Pid :: Movable(y.s.st[q]) && y.s.ppid[q] == y.s.cur && y.waits[q] == No) ==> Rival(y, y.s.cur)
  {
    if q: Pid :| Movable(y.s.st[q]) && y.s.ppid[q] == y.s.cur && y.waits[q] == No {
      assert Loose(y, y.s.cur, q, 0);
      assert GetsOut(y, y.s.cur, q);
    }
  }

  // ----- the states that calls lead to

  /** Nobody is born, and who lives goes on living. */
  lemma RankedSame(s: State, t: State, rank: seq<nat>)
    requires Shaped(s) && Shaped(t) && Ranked(s, rank) && t.ppid == s.ppid
    requires forall q: Pid :: (Alive(s, q) ==> Alive(t, q)) && (s.st[q] == Free ==> t.st[q] == Free)
    ensures Ranked(t, rank)
  {
  }

  lemma RankedSchedule(s: State, rank: seq<nat>)
    requires Shaped(s) && Ranked(s, rank)
    ensures Ranked(ScheduleStep(s), rank)
  {
    ScheduleFrame(s);
    RankedSame(s, ScheduleStep(s), rank);
  }

  lemma RankedPause(s: State, to: ProcState, rank: seq<nat>)
    requires Shaped(s) && Ranked(s, rank) && Alive(s, s.cur) && to != Free && to != Zombie
    ensures Ranked(PauseStep(s, to), rank)
  {
    RankedSame(s, s.(st := s.st[s.cur := to]), rank);
    RankedSchedule(s.(st := s.st[s.cur := to]), rank);
  }

  lemma RankedExit(y: System, code: int, rank: seq<nat>)
    requires Calm(y, rank) && Enabled(y, Exit(code))
    ensures Ranked(Step(y, Exit(code)).s, rank)
  {
    ExitDeparts(y, code);
    RankedDeparted(y, Step(y, Exit(code)), y.s.cur, rank);
  }

  lemma RankedWait(s: State, pid: int, nohang: bool, rank: seq<nat>)
    requires Shaped(s) && Ranked(s, rank) && Alive(s, s.cur)
    ensures Ranked(WaitStep(s, pid, nohang).0, rank)
  {
    hide PauseStep, Ranked;
    if FindZombie(s, pid, 0) < MAXPROC {
      RankedSame(s, WaitStep(s, pid, nohang).0, rank);
    } else {
      RankedPause(s, Sleeping, rank);
    }
  }

  lemma RankedSpawn(s: State, ok: bool, rank: seq<nat>) returns (rank': seq<nat>)
    requires Shaped(s) && Ranked(s, rank) && Alive(s, s.cur)
    ensures Ranked(SpawnStep(s, ok).0, rank')
  {
    var (c, next) := AllocPid(s.st, s.nextPid, MAXPROC);
    rank' := rank;
    if c != NOPID {
      rank' := rank[c := rank[s.cur] + 1];
      RankedBirth(s, SpawnStep(s, ok).0, c, rank);
    }
  }

  lemma RankedStep(y: System, e: Event, rank: seq<nat>) returns (rank': seq<nat>)
    requires Calm(y, rank) && Enabled(y, e)
    ensures Ranked(Step(y, e).s, rank')
  {
    hide Ranked, WaitStep, SpawnStep, PauseStep, ScheduleStep, ExitStep, VforkStep;
    rank' := rank;
    var s := y.s;
    match e
    case Schedule => RankedSchedule(s, rank);
    case Wake(q) => RankedSame(s, WakeStep(s, q), rank);
    case Kill(q, cont) => RankedSame(s, KillStep(s, q, cont), rank);
    case Pause(stop) => RankedPause(s, if stop then Stopped else Sleeping, rank);
    case DoVfork => rank' := RankedVfork(y, rank);
    case Spawn(ok) => rank' := RankedSpawn(s, ok, rank);
    case Exec => RankedSame(s, ExecStep(s), rank);
    case Exit(code) => RankedExit(y, code, rank);
    case Wait(pid, nohang) => RankedWait(s, pid, nohang, rank);
  }

  lemma RankedVfork(y: System, rank: seq<nat>) returns (rank': seq<nat>)
    requires Calm(y, rank) && Enabled(y, DoVfork)
    ensures Ranked(Step(y, DoVfork).s, rank')
  {
    rank' := rank;
    if VforkStep(y.s).1 != NOPID {
      rank' := CalmVfork(y, rank);
    }
  }

  /** Every run leads from a calm state to a calm one, */
  lemma {:induction false} AlwaysCalm(y: System, es: seq<Event>, z: System, rank: seq<nat>) returns (rank': seq<nat>)
    requires Calm(y, rank) && Run(y, es, z)
    ensures Calm(z, rank')
    decreases |es|
  {
    if es == [] { return rank; }
    hide Step, Enabled, Ranked, Calls;
    StepKeeps(y, es[0]);
    CallsKept(y, es[0]);
    rank' := RankedStep(y, es[0], rank);
    rank' := AlwaysCalm(Step(y, es[0]), es[1..], z, rank');
  }

  /** and the table starts in one. */
  lemma FreshCalm(s: State)
    requires Inv(s) && s.cur == 0 && s.st[0] == Running && forall p: Pid :: p != 0 ==> s.st[p] == Free
    ensures Calm(System(s, seq(MAXPROC, _ => No)), seq(MAXPROC, _ => 0))
  {
  }
}
