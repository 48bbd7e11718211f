/** The state diagram of a process in kernel/proc.c: which changes of state and of parent there are, what causes them,
  and what each call does to the processes. */
module ProcessStates {
  import opened Scheduler

  /** The parent of the current process once it has handed its own children to process 0. */
  function ParentAtExit(s: State): Pid
    requires Shaped(s)
  {
    if s.ppid[s.cur] == s.cur then 0 else s.ppid[s.cur]
  }

  /** A step by which process q may go from one state to another. */
  predicate May(s: State, e: Event, q: Pid, to: ProcState, cur: Pid)
    requires Shaped(s)
  {
    match to
    case Free => s.st[q] == Zombie && e.Wait? && s.ppid[q] == s.cur && Matches(e.pid, q)
    case Zombie => e.Exit? && q == s.cur
    case Vfork => e.DoVfork? && q == s.cur
    case Sleeping => q == s.cur && (e == Pause(false) || e.Wait?)
    case Stopped => q == s.cur && e == Pause(true)
    case Running =>
      && q == cur
      && (match s.st[q]
          case Ready => true
          case Free => e.DoVfork?
          case Vfork => (e.Exec? && s.ppid[s.cur] == q) || (e.Exit? && ParentAtExit(s) == q)
          case Sleeping => e.Exit? && ParentAtExit(s) == q
          case _ => false)
    case Ready =>
      match s.st[q]
      case Running => q == s.cur
      case Free => e == Spawn(true)
      case Sleeping =>
        e == Wake(q) || (e.Kill? && e.p == q) || (e.Exit? && ParentAtExit(s) == q) || (e.Exec? && q == s.cur)
      case Stopped => e == Kill(q, true) || (e.Exec? && q == s.cur)
      case Vfork => e.Exec? && q == s.cur
      case _ => false
  }

  /** Every step leaves the state of a process or changes it in one of these ways. */
  lemma StateDiagram(y: System, e: Event, q: Pid)
    requires Sound(y) && Enabled(y, e)
    ensures var t := StateStep(y.s, e); t.st[q] != y.s.st[q] ==> May(y.s, e, q, t.st[q], t.cur)
  {
    hide VforkStep, ExecStep, ExitStep, WaitStep, ScheduleStep, PauseStep, NprocCounts, SpawnStep;
    var s := y.s;
    match e
    case Schedule => ScheduleFrame(s);
    case Wake(p) =>
    case Kill(p, cont) =>
    case Pause(stop) => PauseMoves(s, if stop then Stopped else Sleeping);
    case DoVfork => VforkMoves(s);
    case Spawn(ok) => SpawnMoves(s, ok);
    case Exec => ExecMoves(s);
    case Exit(code) => ExitMoves(s, code, q);
    case Wait(pid, nohang) => WaitMoves(s, pid, nohang);
  }

  lemma PauseMoves(s: State, to: ProcState)
    requires Shaped(s) && (to == Sleeping || to == Stopped)
    ensures var t := PauseStep(s, to);
            forall q: Pid :: t.st[q] == s.st[q] || (q == s.cur && t.st[q] == to)
                             || (s.st[q] == Ready && t.st[q] == Running && q == t.cur)
  {
    ScheduleFrame(s.(st := s.st[s.cur := to]));
  }

  lemma VforkMoves(s: State)
    requires Shaped(s)
    ensures var (t, c) := VforkStep(s);
            forall q: Pid :: t.st[q] == s.st[q] || (s.st[q] == Free && t.st[q] == Running && q == t.cur)
                             || (q == s.cur && t.st[q] == Vfork)
  {
  }

  lemma SpawnMoves(s: State, ok: bool)
    requires Shaped(s)
    ensures var (t, c) := SpawnStep(s, ok);
            forall q: Pid :: t.st[q] == s.st[q] || (ok && s.st[q] == Free && t.st[q] == Ready)
  {
  }

  lemma ExecMoves(s: State)
    requires Inv(s) && s.st[s.cur] != Zombie
    ensures var t := ExecStep(s);
            forall q: Pid :: t.st[q] == s.st[q] || (q == s.cur && t.st[q] == Ready)
                             || (s.st[q] == Vfork && t.st[q] == Running && q == t.cur == s.ppid[s.cur])
  {
  }

  lemma ExitMoves(s: State, code: int, q: Pid)
    requires Inv(s) && s.cur != 0
    ensures var t := ExitStep(s, code);
            t.st[q] != s.st[q] ==> May(s, Exit(code), q, t.st[q], t.cur)
  {
    hide ScheduleStep, NprocCounts, ExitStep;
    ExitKeeps(s, code);
    ExitFrame(s, code);
    ExitCurrent(s, code);
    assert Died(s, code).ppid[s.cur] == ParentAtExit(s);
    hide Died, ParentAtExit;
    assert q == s.cur ==> ExitStep(s, code).st[q] == Zombie;
  }

  lemma WaitMoves(s: State, pid: int, nohang: bool)
    requires Shaped(s)
    ensures var t := WaitStep(s, pid, nohang).0;
            forall q: Pid :: t.st[q] == s.st[q]
                             || (s.st[q] == Zombie && t.st[q] == Free && s.ppid[q] == s.cur && Matches(pid, q))
                             || (q == s.cur && t.st[q] == Sleeping)
                             || (s.st[q] == Ready && t.st[q] == Running && q == t.cur)
  {
    hide PauseStep;
    PauseMoves(s, Sleeping);
  }

  /** A process gets another parent only when it is made, by the process that makes it, or when its parent exits, by
      which it becomes a child of process 0. */
  lemma ParentChanges(y: System, e: Event, q: Pid)
    requires Sound(y) && Enabled(y, e)
    ensures var s, t := y.s, StateStep(y.s, e);
            t.ppid[q] != s.ppid[q] ==>
              || (s.st[q] == Free && (e.Spawn? || e.DoVfork?) && t.ppid[q] == s.cur)
              || (s.st[q] != Free && e.Exit? && s.ppid[q] == s.cur && t.ppid[q] == 0)
  {
    hide ScheduleStep, NprocCounts;
    var s := y.s;
    match e
    case Schedule => ScheduleFrame(s);
    case Wake(p) =>
    case Kill(p, cont) =>
    case Pause(stop) => ScheduleFrame(s.(st := s.st[s.cur := if stop then Stopped else Sleeping]));
    case DoVfork =>
    case Spawn(ok) =>
    case Exec =>
    case Exit(code) => ExitFrame(s, code);
    case Wait(pid, nohang) => ScheduleFrame(s.(st := s.st[s.cur := Sleeping]));
  }

  // ----- what the calls do

  /** waitpid() names every child by a pid that is not positive, and one by a pid whose last byte it is. */
  lemma WaitNames(pid: int, q: Pid)
    ensures Matches(pid, q) <==> pid <= 0 || exists k: nat :: pid == 256 * k + q
  {
    if pid > 0 {
      assert pid % 256 == q ==> pid == 256 * (pid / 256) + q;
    }
  }

  /** A wake-up makes a sleeping process ready and no other; so does a signal, and SIGCONT a stopped one. */
  lemma WakesUp(s: State, p: Pid, cont: bool)
    requires Shaped(s)
    ensures WakeStep(s, p) == s.(st := s.st[p := if s.st[p] == Sleeping then Ready else s.st[p]])
    ensures KillStep(s, p, cont) ==
            s.(st := s.st[p := if s.st[p] == Sleeping || (cont && s.st[p] == Stopped) then Ready else s.st[p]])
  {
    assert s.st[p := s.st[p]] == s.st;
  }

  /** spawn() makes a ready child, and fails exactly when no process but 0 is free or its program cannot be loaded;
      then no process changes. */
  lemma SpawnMakes(s: State, ok: bool)
    requires Shaped(s)
    ensures var (t, c) := SpawnStep(s, ok);
            && (c == NOPID <==> !ok || forall q: Pid :: q != 0 ==> s.st[q] != Free)
            && t.cur == s.cur && t.vret == s.vret
            && (c == NOPID ==> t.st == s.st && t.nproc == s.nproc && forall q: Pid :: s.st[q] != Free ==>
                  t.ppid[q] == s.ppid[q] && t.exitcode[q] == s.exitcode[q])
            && (c != NOPID ==>
                  && 0 < c < MAXPROC && s.st[c] == Free && t.st == s.st[c := Ready] && t.ppid == s.ppid[c := s.cur]
                  && t.exitcode == s.exitcode[c := 0] && t.nproc == s.nproc + 1)
  {
    AllocFails(s);
  }

  /** vfork() makes a running child and freezes the parent. */
  lemma VforkMakes(s: State)
    requires Shaped(s) && s.st[s.cur] != Free
    ensures var (t, c) := VforkStep(s);
            && (c == NOPID <==> forall q: Pid :: q != 0 ==> s.st[q] != Free)
            && t.vret == s.vret
            && (c == NOPID ==> t.st == s.st && t.ppid == s.ppid && t.cur == s.cur && t.nproc == s.nproc)
            && (c != NOPID ==>
                  && 0 < c < MAXPROC && s.st[c] == Free && t.st == s.st[c := Running][s.cur := Vfork] && t.cur == c
                  && t.ppid == s.ppid[c := s.cur] && t.exitcode == s.exitcode[c := 0] && t.nproc == s.nproc + 1)
  {
    AllocFails(s);
  }

  /** exit() leaves a zombie with its code, and hands the children to process 0. */
  lemma ExitLeaves(s: State, code: int)
    requires Inv(s) && s.cur != 0
    ensures var t := ExitStep(s, code);
            && t.st[s.cur] == Zombie && t.exitcode == s.exitcode[s.cur := code] && t.nproc == s.nproc
            && (forall q: Pid :: t.ppid[q] == if s.st[q] != Free && s.ppid[q] == s.cur then 0 else s.ppid[q])
  {
    hide NprocCounts;
    ExitFrame(s, code);
    ExitCurrent(s, code);
    var t := Died(s, code);
    var parent := t.ppid[s.cur];
    if t.st[parent] != Vfork {
      ScheduleOnly(if t.st[parent] == Sleeping then t.(st := t.st[parent := Ready]) else t);
    }
    hide ScheduleStep;
  }

  /** The parent goes on if it is frozen, with the pid of the child, and is awake if it was asleep. */
  lemma ExitResumes(s: State, code: int)
    requires Inv(s) && s.cur != 0
    ensures var t, p := ExitStep(s, code), s.ppid[s.cur];
            && (s.st[p] == Vfork ==> t.st[p] == Running && t.cur == p && t.vret == s.vret[p := s.cur])
            && (s.st[p] == Sleeping ==> t.st[p] == Ready || (t.st[p] == Running && t.cur == p))
            && (s.st[p] != Vfork ==> t.vret == s.vret)
  {
    hide NprocCounts;
    var t := Died(s, code);
    var parent := t.ppid[s.cur];
    assert parent == s.ppid[s.cur];
    if t.st[parent] != Vfork {
      var u := if t.st[parent] == Sleeping then t.(st := t.st[parent := Ready]) else t;
      ScheduleFrame(u);
      ScheduleOnly(u);
    }
    hide ScheduleStep;
  }

  lemma ScheduleOnly(s: State)
    requires Shaped(s)
    ensures ScheduleStep(s).vret == s.vret && ScheduleStep(s).nproc == s.nproc
  {
  }
}
