/** When vfork() of kernel/proc.c returns the pid of its own child. Any child that exits or execs resumes a frozen
  parent, so the answer depends on the other children: on whether one of them can get as far as its exit. A child
  asleep in waitpid() or frozen in a vfork() of its own may need a child of its own for that, and so on (`Loose`).
  Process 0 is left out: the children of every process that exits become its children. */
module VforkRuns {
  import opened Scheduler

  // ----- states that the calls lead to

  /** Parents live, and come before their children. */
  predicate Ranked(s: State, rank: seq<nat>)
    requires Shaped(s)
  {
    && |rank| == MAXPROC && rank[0] == 0
    && forall q: Pid :: q != 0 && s.st[q] != Free ==> Alive(s, s.ppid[q]) && rank[s.ppid[q]] < rank[q]
  }

  /** A frozen process is not in waitpid() and not current, and a process in waitpid() is not stopped. */
  predicate Calls(y: System)
    requires Shaped(y.s) && |y.waits| == MAXPROC
  {
    && (forall q: Pid :: y.s.st[q] == Vfork ==> y.waits[q] == No && q != y.s.cur)
    && (forall q: Pid :: y.waits[q].For? ==> y.s.st[q] == Ready || y.s.st[q] == Running || y.s.st[q] == Sleeping)
  }

  ghost predicate Calm(y: System, rank: seq<nat>) {
    Sound(y) && Ranked(y.s, rank) && Calls(y)
  }

  lemma CallsSchedule(y: System)
    requires Shaped(y.s) && |y.waits| == MAXPROC && Calls(y)
    ensures Calls(System(ScheduleStep(y.s), y.waits))
  {
    ScheduleFrame(y.s);
  }

  /** A process that is neither frozen nor in waitpid() changes its state, or a sleeping one is woken. */
  lemma CallsSet(y: System, q: Pid, to: ProcState)
    requires Shaped(y.s) && |y.waits| == MAXPROC && Calls(y) && to != Vfork && (to == Ready || y.waits[q] == No)
    ensures Calls(System(y.s.(st := y.s.st[q := to]), y.waits))
  {
  }

  lemma CallsDied(y: System, code: int)
    requires Shaped(y.s) && |y.waits| == MAXPROC && Calls(y) && y.waits[y.s.cur] == No
    ensures Calls(System(Died(y.s, code), y.waits))
  {
    CallsSet(y, y.s.cur, Zombie);
  }

  lemma CallsThaw(y: System, parent: Pid)
    requires Shaped(y.s) && |y.waits| == MAXPROC && Calls(y)
    ensures Calls(System(Thaw(y.s, parent), y.waits))
  {
  }

  lemma CallsExit(y: System, code: int)
    requires Shaped(y.s) && |y.waits| == MAXPROC && Calls(y) && y.waits[y.s.cur] == No
    ensures Calls(System(ExitStep(y.s, code), y.waits))
  {
    hide Calls, ScheduleStep, Died, Thaw;
    var t := System(Died(y.s, code), y.waits);
    var parent := t.s.ppid[y.s.cur];
    CallsDied(y, code);
    CallsSet(t, parent, Ready);
    CallsThaw(t, parent);
    CallsSchedule(t);
    CallsSchedule(System(t.s.(st := t.s.st[parent := Ready]), y.waits));
  }

  lemma CallsWait(y: System, pid: int, nohang: bool)
    requires Sound(y) && Calls(y) && Enabled(y, Wait(pid, nohang))
    ensures Calls(Step(y, Wait(pid, nohang)))
  {
    var s := y.s;
    if FindZombie(s, pid, 0) == MAXPROC && HasChild(s, s.cur) && !nohang {
      CallsSet(y, s.cur, Ready);
      var asleep := System(s.(st := s.st[s.cur := Sleeping]), y.waits[s.cur := For(pid)]);
      assert Calls(asleep);
      CallsSchedule(asleep);
    }
  }

  lemma CallsVfork(y: System)
    requires Sound(y) && Calls(y) && Enabled(y, DoVfork)
    ensures Calls(Step(y, DoVfork))
  {
    var (c, next) := AllocPid(y.s.st, y.s.nextPid, MAXPROC);
    assert c != NOPID ==> y.waits[c] == No;
  }

  lemma CallsSpawn(y: System, ok: bool)
    requires Sound(y) && Calls(y) && Enabled(y, Spawn(ok))
    ensures Calls(Step(y, Spawn(ok)))
  {
  }

  lemma CallsExec(y: System)
    requires Sound(y) && Calls(y) && Enabled(y, Exec)
    ensures Calls(Step(y, Exec))
  {
  }

  lemma CallsKept(y: System, e: Event)
    requires Sound(y) && Calls(y) && Enabled(y, e)
    ensures Calls(Step(y, e))
  {
    hide Calls, ScheduleStep, WaitStep, VforkStep, ExitStep, SpawnStep, ExecStep, NprocCounts, OnlyCurrentRuns, Rooted;
    match e
    case Schedule => CallsSchedule(y);
    case Wake(q) => CallsSet(y, q, Ready);
    case Kill(q, cont) => CallsSet(y, q, Ready);
    case Pause(stop) =>
      var to := if stop then Stopped else Sleeping;
      CallsSet(y, y.s.cur, to);
      CallsSchedule(System(y.s.(st := y.s.st[y.s.cur := to]), y.waits));
    case DoVfork => CallsVfork(y);
    case Spawn(ok) => CallsSpawn(y, ok);
    case Exec => CallsExec(y);
    case Exit(code) => CallsExit(y, code);
    case Wait(pid, nohang) => CallsWait(y, pid, nohang);
  }

  // ----- the children that matter

  /** A waitpid(pid) by q returns at once. */
  predicate Served(s: State, q: Pid, pid: int)
    requires Shaped(s)
  {
    !HasChild(s, q) || exists r: Pid :: IsChild(s, q, r) && Matches(pid, r) && s.st[r] == Zombie
  }

  /** Process q can get as far as its exit without p: it is in no call that waits for a child, or the child it waits for
      is there, or some such child can get as far. */
  ghost predicate Loose(y: System, p: Pid, q: Pid, k: nat)
    requires Shaped(y.s) && |y.waits| == MAXPROC
    decreases k
  {
    && Alive(y.s, q) && q != p && q != 0
    && if y.s.st[q] == Vfork then k > 0 && exists r: Pid :: y.s.ppid[r] == q && Loose(y, p, r, k - 1)
       else match y.waits[q]
         case No => true
         case For(pid) =>
           || Served(y.s, q, pid)
           || (k > 0 && exists r: Pid :: y.s.ppid[r] == q && Matches(pid, r) && Loose(y, p, r, k - 1))
  }

  /** The processes of K wait for children that are also in K, or for p. */
  predicate Stuck(y: System, p: Pid, K: set<Pid>)
    requires Shaped(y.s) && |y.waits| == MAXPROC
  {
    forall q: Pid :: q in K ==>
      && Alive(y.s, q) && q != p && q != 0 && (y.s.st[q] == Vfork || y.waits[q].For?)
      && (y.s.st[q] != Vfork ==> !Served(y.s, q, y.waits[q].pid))
      && forall r: Pid :: Alive(y.s, r) && y.s.ppid[r] == q && (y.s.st[q] != Vfork ==> Matches(y.waits[q].pid, r)) ==>
        r in K || r == p
  }

  ghost predicate GetsOut(y: System, p: Pid, q: Pid)
    requires Shaped(y.s) && |y.waits| == MAXPROC
  {
    exists k: nat :: Loose(y, p, q, k)
  }

  /** What cannot get as far is stuck. */
  lemma NotLooseStuck(y: System, p: Pid, K: set<Pid>)
    requires Shaped(y.s) && |y.waits| == MAXPROC && y.s.ppid[0] == 0
    requires forall q: Pid :: q in K <==> Alive(y.s, q) && q != p && q != 0 && !GetsOut(y, p, q)
    ensures Stuck(y, p, K)
  {
    forall q: Pid | q in K
      ensures y.s.st[q] == Vfork || (y.waits[q].For? && !Served(y.s, q, y.waits[q].pid))
    {
      assert !Loose(y, p, q, 0);
    }
    forall q: Pid, r: Pid | q in K && Alive(y.s, r) && y.s.ppid[r] == q
      && (y.s.st[q] != Vfork ==> Matches(y.waits[q].pid, r))
      ensures r in K || r == p
    {
      if k: nat :| Loose(y, p, r, k) {
        assert Loose(y, p, q, k + 1);
      }
    }
  }

  // ----- stuck processes stay stuck

  /** From y to z nothing happened that the processes of K wait for: they are in the same calls, have the same children,
      and no child became a zombie except one that its parent does not wait for. */
  predicate Mild(y: System, z: System, K: set<Pid>)
    requires Shaped(y.s) && |y.waits| == MAXPROC && Shaped(z.s) && |z.waits| == MAXPROC
  {
    && (forall q: Pid :: q in K ==>
          z.waits[q] == y.waits[q] && Alive(z.s, q) && (z.s.st[q] == Vfork <==> y.s.st[q] == Vfork))
    && (forall q: Pid, r: Pid :: q in K ==> (IsChild(z.s, q, r) <==> IsChild(y.s, q, r)))
    && (forall q: Pid, r: Pid :: q in K && IsChild(y.s, q, r) ==>
          || (z.s.st[r] == Zombie <==> y.s.st[r] == Zombie)
          || (y.s.st[q] != Vfork && y.waits[q].For? && !Matches(y.waits[q].pid, r)))
  }

  lemma StuckStays(y: System, z: System, p: Pid, K: set<Pid>)
    requires Shaped(y.s) && |y.waits| == MAXPROC && Shaped(z.s) && |z.waits| == MAXPROC
    requires Stuck(y, p, K) && Mild(y, z, K)
    ensures Stuck(z, p, K)
  {
    forall q: Pid | q in K && z.s.st[q] != Vfork
      ensures !Served(z.s, q, z.waits[q].pid)
    {
      var c: Pid :| IsChild(y.s, q, c);
      assert IsChild(z.s, q, c);
    }
    forall q: Pid, r: Pid | q in K && Alive(z.s, r) && z.s.ppid[r] == q
      && (z.s.st[q] != Vfork ==> Matches(z.waits[q].pid, r))
      ensures r in K || r == p
    {
      assert IsChild(z.s, q, r);
      assert IsChild(y.s, q, r);
    }
  }

  /** The living children of p are b and stuck ones. */
  predicate Kids(s: State, p: Pid, b: Pid, K: set<Pid>)
    requires Shaped(s)
  {
    forall q: Pid :: Alive(s, q) && s.ppid[q] == p ==> q == b || q in K
  }

  /** A step up to the one that resumes p: p stays frozen, or b resumes it. */
  predicate StaysOr(y: System, z: System, p: Pid, b: Pid, K: set<Pid>)
    requires Shaped(y.s) && |y.waits| == MAXPROC && Shaped(z.s) && |z.waits| == MAXPROC
  {
    if z.s.st[p] == Vfork then Mild(y, z, K) && Kids(z.s, p, b, K) else z.s.vret[p] == b
  }

  /** States change, but nobody is born, dies, or leaves vfork(). */
  predicate Bland(y: System, z: System, K: set<Pid>)
    requires Shaped(y.s) && |y.waits| == MAXPROC && Shaped(z.s) && |z.waits| == MAXPROC
  {
    && z.s.ppid == y.s.ppid
    && (forall q: Pid :: z.s.st[q] == y.s.st[q] || (Movable(z.s.st[q]) && Movable(y.s.st[q])))
    && (forall q: Pid :: q in K ==> z.waits[q] == y.waits[q])
  }

  predicate Movable(st: ProcState) {
    st == Ready || st == Running || st == Sleeping || st == Stopped
  }

  predicate OnCpu(st: ProcState) {
    st == Ready || st == Running
  }

  lemma BlandStays(y: System, z: System, p: Pid, b: Pid, K: set<Pid>)
    requires Shaped(y.s) && |y.waits| == MAXPROC && Shaped(z.s) && |z.waits| == MAXPROC
    requires Stuck(y, p, K) && Kids(y.s, p, b, K) && Bland(y, z, K) && y.s.st[p] == Vfork
    ensures StaysOr(y, z, p, b, K)
  {
    assert forall r: Pid :: (Alive(z.s, r) <==> Alive(y.s, r)) && (z.s.st[r] == Zombie <==> y.s.st[r] == Zombie);
    assert forall q: Pid, r: Pid :: IsChild(z.s, q, r) <==> IsChild(y.s, q, r);
  }

  lemma BlandSchedule(y: System, K: set<Pid>)
    requires Shaped(y.s) && |y.waits| == MAXPROC
    ensures Bland(y, System(ScheduleStep(y.s), y.waits), K)
  {
    ScheduleFrame(y.s);
  }

  lemma BlandTrans(x: System, y: System, z: System, K: set<Pid>)
    requires Shaped(x.s) && |x.waits| == MAXPROC && Shaped(y.s) && |y.waits| == MAXPROC && Shaped(z.s)
      && |z.waits| == MAXPROC
    requires Bland(x, y, K) && Bland(y, z, K)
    ensures Bland(x, z, K)
  {
  }

  /** What the lemmas below start from. */
  ghost predicate Held(y: System, p: Pid, b: Pid, K: set<Pid>) {
    && Sound(y) && Calls(y) && p != 0 && p != b && y.s.st[p] == Vfork && Stuck(y, p, K) && Kids(y.s, p, b, K)
  }

  lemma PauseHeld(y: System, stop: bool, p: Pid, b: Pid, K: set<Pid>)
    requires Held(y, p, b, K) && Enabled(y, Pause(stop)) && Movable(y.s.st[y.s.cur])
    ensures StaysOr(y, Step(y, Pause(stop)), p, b, K)
  {
    var u := System(y.s.(st := y.s.st[y.s.cur := if stop then Stopped else Sleeping]), y.waits);
    assert Bland(y, u, K);
    BlandSchedule(u, K);
    BlandTrans(y, u, Step(y, Pause(stop)), K);
    BlandStays(y, Step(y, Pause(stop)), p, b, K);
  }

  /** The current process reaps its child q. */
  lemma ReapHeld(y: System, z: System, q: Pid, p: Pid, b: Pid, K: set<Pid>)
    requires Held(y, p, b, K) && y.s.cur !in K && IsChild(y.s, y.s.cur, q) && y.s.st[q] == Zombie
    requires Shaped(z.s) && z.s.st == y.s.st[q := Free] && z.s.ppid == y.s.ppid && z.waits == y.waits[y.s.cur := No]
    ensures StaysOr(y, z, p, b, K)
  {
    assert forall r: Pid :: Alive(z.s, r) <==> Alive(y.s, r);
    assert forall r: Pid, c: Pid :: r in K ==> (IsChild(z.s, r, c) <==> IsChild(y.s, r, c));
  }

  lemma AsleepHeld(y: System, z: System, pid: int, p: Pid, b: Pid, K: set<Pid>)
    requires Held(y, p, b, K) && Movable(y.s.st[y.s.cur]) && (y.s.cur in K ==> y.waits[y.s.cur] == For(pid))
    requires z == System(PauseStep(y.s, Sleeping), y.waits[y.s.cur := For(pid)])
    ensures StaysOr(y, z, p, b, K)
  {
    var u := System(y.s.(st := y.s.st[y.s.cur := Sleeping]), z.waits);
    assert Bland(y, u, K);
    BlandSchedule(u, K);
    BlandTrans(y, u, z, K);
    BlandStays(y, z, p, b, K);
  }

  lemma WaitHeld(y: System, pid: int, nohang: bool, p: Pid, b: Pid, K: set<Pid>)
    requires Held(y, p, b, K) && Enabled(y, Wait(pid, nohang)) && Movable(y.s.st[y.s.cur])
    ensures StaysOr(y, Step(y, Wait(pid, nohang)), p, b, K)
  {
    hide PauseStep, StaysOr, Kids, Bland, NprocCounts, OnlyCurrentRuns;
    var x, z := y.s.cur, Step(y, Wait(pid, nohang));
    var q := FindZombie(y.s, pid, 0);
    assert x in K ==> y.waits[x] == For(pid) && !nohang && !Served(y.s, x, pid);
    if q < MAXPROC {
      assert Served(y.s, x, pid);
      ReapHeld(y, z, q, p, b, K);
    } else if !HasChild(y.s, x) || nohang {
      assert Served(y.s, x, pid) || nohang;
      StandsHeld(y, z, p, b, K);
    } else {
      AsleepHeld(y, z, pid, p, b, K);
    }
  }

  /** The current process goes on, and nothing else happens. */
  lemma StandsHeld(y: System, z: System, p: Pid, b: Pid, K: set<Pid>)
    requires Held(y, p, b, K) && y.s.cur !in K && z == System(y.s, y.waits[y.s.cur := No])
    ensures StaysOr(y, z, p, b, K)
  {
    BlandStays(y, z, p, b, K);
  }

  lemma BirthHeld(y: System, z: System, c: Pid, p: Pid, b: Pid, K: set<Pid>)
    requires Held(y, p, b, K) && y.s.cur !in K && y.s.cur != p
    requires Shaped(z.s) && z.waits == y.waits && y.s.st[c] == Free && z.s.ppid == y.s.ppid[c := y.s.cur]
    requires forall q: Pid :: q != c && q != y.s.cur ==> z.s.st[q] == y.s.st[q]
    requires z.s.st[c] != Zombie && Alive(z.s, y.s.cur) && Alive(y.s, y.s.cur)
    ensures StaysOr(y, z, p, b, K)
  {
    assert c !in K && c != p;
  }

  lemma ExecHeld(y: System, p: Pid, b: Pid, K: set<Pid>)
    requires Held(y, p, b, K) && Enabled(y, Exec) && y.s.cur !in K && Alive(y.s, y.s.cur)
    ensures StaysOr(y, Step(y, Exec), p, b, K)
  {
    var x, z := y.s.cur, Step(y, Exec);
    var parent := y.s.ppid[x];
    if y.s.st[parent] == Vfork && parent != p {
      assert parent !in K;
      assert forall r: Pid :: (Alive(z.s, r) <==> Alive(y.s, r)) && (z.s.st[r] == Zombie <==> y.s.st[r] == Zombie);
    }
  }

  /** What an exit of x that does not resume p changes. */
  predicate Departed(y: System, z: System, x: Pid)
    requires Shaped(y.s) && |y.waits| == MAXPROC && Shaped(z.s) && |z.waits| == MAXPROC
  {
    && z.waits == y.waits && z.s.st[x] == Zombie
    && (forall r: Pid :: r != x ==>
          || z.s.st[r] == y.s.st[r] || (OnCpu(z.s.st[r]) && OnCpu(y.s.st[r]))
          || (r == y.s.ppid[x] && y.s.st[r] == Sleeping && OnCpu(z.s.st[r]))
          || (r == y.s.ppid[x] && y.s.st[r] == Vfork && z.s.st[r] == Running))
    && forall r: Pid :: z.s.ppid[r] == if y.s.ppid[r] == x && y.s.st[r] != Free then 0 else y.s.ppid[r]
  }

  lemma DepartedHeld(y: System, z: System, p: Pid, b: Pid, K: set<Pid>)
    requires Held(y, p, b, K) && Shaped(z.s) && |z.waits| == MAXPROC && Departed(y, z, y.s.cur)
    requires Alive(y.s, y.s.cur) && y.s.cur !in K && y.s.cur != p && y.s.cur != 0 && y.s.ppid[y.s.cur] != p
    ensures StaysOr(y, z, p, b, K)
  {
    var x := y.s.cur;
    assert forall r: Pid :: r != x ==>
      (z.s.st[r] == Zombie <==> y.s.st[r] == Zombie) && (Alive(z.s, r) <==> Alive(y.s, r));
    assert forall q: Pid :: q in K && y.s.ppid[x] == q ==> y.s.st[q] != Vfork && !Matches(y.waits[q].pid, x);
    assert forall q: Pid, r: Pid :: q in K ==> (IsChild(z.s, q, r) <==> IsChild(y.s, q, r));
  }

  lemma ExitDeparts(y: System, code: int)
    requires Sound(y) && Enabled(y, Exit(code))
    ensures Departed(y, Step(y, Exit(code)), y.s.cur)
  {
    hide ExitStep, ScheduleStep, NprocCounts;
    ExitFrame(y.s, code);
    ExitCurrent(y.s, code);
  }

  /** The exit of a child resumes its frozen parent. */
  lemma ExitResumes(y: System, code: int)
    requires Sound(y) && Enabled(y, Exit(code)) && y.s.st[y.s.ppid[y.s.cur]] == Vfork && Alive(y.s, y.s.cur)
    requires y.s.cur != y.s.ppid[y.s.cur]
    ensures var t, parent := Step(y, Exit(code)).s, y.s.ppid[y.s.cur];
            t.cur == parent && t.st[parent] == Running && t.vret[parent] == y.s.cur
  {
    assert Died(y.s, code).ppid[y.s.cur] == y.s.ppid[y.s.cur];
  }

  lemma ExitHeld(y: System, code: int, p: Pid, b: Pid, K: set<Pid>)
    requires Held(y, p, b, K) && Enabled(y, Exit(code)) && y.s.cur !in K && Alive(y.s, y.s.cur)
    ensures StaysOr(y, Step(y, Exit(code)), p, b, K)
  {
    hide ExitStep, Stuck, Mild, Departed;
    ExitDeparts(y, code);
    if y.s.ppid[y.s.cur] == p {
      assert y.s.cur == b;
      ExitResumes(y, code);
    } else {
      DepartedHeld(y, Step(y, Exit(code)), p, b, K);
    }
  }

  lemma HeldStep(y: System, e: Event, p: Pid, b: Pid, K: set<Pid>)
    requires Held(y, p, b, K) && Enabled(y, e)
    ensures StaysOr(y, Step(y, e), p, b, K)
  {
    var s := y.s;
    assert ByCurrent(e) ==> Movable(s.st[s.cur]);
    assert ByCurrent(e) && s.cur in K ==> e.Wait?;
    match e
    case Schedule =>
      BlandSchedule(y, K);
      BlandStays(y, Step(y, e), p, b, K);
    case Wake(q) => BlandStays(y, Step(y, e), p, b, K);
    case Kill(q, cont) => BlandStays(y, Step(y, e), p, b, K);
    case Pause(stop) => PauseHeld(y, stop, p, b, K);
    case DoVfork =>
      var (c, next) := AllocPid(s.st, s.nextPid, MAXPROC);
      if c == NOPID { BlandStays(y, Step(y, e), p, b, K); } else { BirthHeld(y, Step(y, e), c, p, b, K); }
    case Spawn(ok) =>
      var (c, next) := AllocPid(s.st, s.nextPid, MAXPROC);
      if c == NOPID { BlandStays(y, Step(y, e), p, b, K); } else { BirthHeld(y, Step(y, e), c, p, b, K); }
    case Exec => ExecHeld(y, p, b, K);
    case Exit(code) => ExitHeld(y, code, p, b, K);
    case Wait(pid, nohang) => WaitHeld(y, pid, nohang, p, b, K);
  }

  /** A run in which p is frozen in all states before the last. */
  ghost predicate FrozenRun(y: System, es: seq<Event>, z: System, p: Pid)
    decreases |es|
  {
    if es == [] then y == z
    else
      && Shaped(y.s) && |y.waits| == MAXPROC && y.s.st[p] == Vfork && Enabled(y, es[0])
      && FrozenRun(Step(y, es[0]), es[1..], z, p)
  }

  /** With no other child that gets out, only b resumes p. */
  lemma {:induction false} OnlyOwnResumes(y: System, es: seq<Event>, z: System, p: Pid, b: Pid, K: set<Pid>)
    requires Held(y, p, b, K) && FrozenRun(y, es, z, p) && Shaped(z.s) && z.s.st[p] != Vfork
    ensures z.s.vret[p] == b
    decreases |es|
  {
    if es == [] { return; }
    var u := Step(y, es[0]);
    HeldStep(y, es[0], p, b, K);
    if u.s.st[p] == Vfork {
      StepKeeps(y, es[0]);
      CallsKept(y, es[0]);
      StuckStays(y, u, p, K);
      OnlyOwnResumes(u, es[1..], z, p, b, K);
    }
  }
}
