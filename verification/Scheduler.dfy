/** The process states of kernel/proc.c: scheduling, exit and wait, vfork, spawn and kill, as functions of the
  process table, and what holds over every run of them. */
module Scheduler {

  const MAXPROC: int := 16
  const NOPID: int := 255

  type Pid = x: int | 0 <= x < 16

  datatype ProcState = Free | Ready | Running | Sleeping | Stopped | Vfork | Zombie

  /** The process table; `vret` is what vfork_restore() last handed to each process, the result of its vfork(). */
  datatype State = State(st: seq<ProcState>, ppid: seq<Pid>, exitcode: seq<int>, vret: seq<Pid>, cur: Pid, nextPid: Pid,
                         nproc: int)

  predicate Shaped(s: State) {
    |s.st| == |s.ppid| == |s.exitcode| == |s.vret| == MAXPROC && s.nextPid != 0
  }

  // ----- schedule()

  /** The k-th process after p around the table. */
  function Next(p: Pid, k: nat): (q: Pid)
    requires k <= MAXPROC
  {
    if p + k < MAXPROC then p + k else p + k - MAXPROC
  }

  /** How far q is after p around the table. */
  function Distance(p: Pid, q: Pid): (d: nat)
    ensures d < MAXPROC && Next(p, d) == q && (d == 0 <==> p == q)
  {
    if q >= p then q - p else q - p + MAXPROC
  }

  /** The first ready process among the k-th, (k+1)-th, ... after the current one; MAXPROC when there is none. */
  function NextReady(s: State, k: nat): (r: nat)
    requires Shaped(s) && k <= MAXPROC
    ensures k <= r <= MAXPROC && (r < MAXPROC ==> s.st[Next(s.cur, r)] == Ready)
    decreases MAXPROC - k
  {
    if k == MAXPROC || s.st[Next(s.cur, k)] == Ready then k else NextReady(s, k + 1)
  }

  function SwitchTo(s: State, q: Pid): (t: State)
    requires Shaped(s)
    ensures Shaped(t)
  {
    var st := if s.st[s.cur] == Running then s.st[s.cur := Ready] else s.st;
    s.(st := st[q := Running], cur := q)
  }

  function ScheduleStep(s: State): (t: State)
    requires Shaped(s)
    ensures Shaped(t)
  {
    var k := NextReady(s, 1);
    if k == MAXPROC then s else SwitchTo(s, Next(s.cur, k))
  }

  // ----- sleeping, stopping, waking

  /** The current process gives up the processor in this state. */
  function PauseStep(s: State, to: ProcState): (t: State)
    requires Shaped(s)
    ensures Shaped(t)
  {
    ScheduleStep(s.(st := s.st[s.cur := to]))
  }

  function WakeStep(s: State, p: Pid): State
    requires Shaped(s)
  {
    if s.st[p] == Sleeping then s.(st := s.st[p := Ready]) else s
  }

  /** The state changes of kill(): SIGCONT wakes a stopped process, every signal a sleeping one. */
  function KillStep(s: State, p: Pid, cont: bool): State
    requires Shaped(s)
  {
    if (cont && s.st[p] == Stopped) || s.st[p] == Sleeping then s.(st := s.st[p := Ready]) else s
  }

  // ----- new processes

  /** The pid after p among 1..15. */
  function Succ(p: Pid): (q: Pid)
    ensures q != 0
  {
    if (p + 1) % MAXPROC == 0 then 1 else (p + 1) % MAXPROC
  }

  /** alloc_pid() with `tries` turns of its loop to go: the pid or NOPID, and the new next_pid. */
  function AllocPid(st: seq<ProcState>, next: Pid, tries: nat): (r: (int, Pid))
    requires |st| == MAXPROC && next != 0
    ensures r.1 != 0 && (r.0 == NOPID || (0 < r.0 < MAXPROC && st[r.0] == Free))
    decreases tries
  {
    if tries == 0 then (NOPID, next)
    else if st[next] == Free then (next, Succ(next))
    else AllocPid(st, Succ(next), tries - 1)
  }

  function Born(s: State, c: Pid, to: ProcState): (t: State)
    requires Shaped(s)
    ensures Shaped(t)
  {
    s.(st := s.st[c := to], ppid := s.ppid[c := s.cur], exitcode := s.exitcode[c := 0], nproc := s.nproc + 1)
  }

  /** do_vfork(): the child runs at once and the parent is frozen. The pid is the child's, or NOPID. */
  function VforkStep(s: State): (t: (State, int))
    requires Shaped(s)
    ensures Shaped(t.0)
  {
    var (c, next) := AllocPid(s.st, s.nextPid, MAXPROC);
    var s1 := s.(nextPid := next);
    if c == NOPID then (s1, NOPID)
    else
      var s2 := Born(s1, c, Running);
      (s2.(st := s2.st[s.cur := Vfork], cur := c), c)
  }

  /** do_spawn(): the child is ready, unless its program could not be loaded; then its entry is free again. */
  function SpawnStep(s: State, ok: bool): (t: (State, int))
    requires Shaped(s)
    ensures Shaped(t.0)
  {
    var (c, next) := AllocPid(s.st, s.nextPid, MAXPROC);
    var s1 := s.(nextPid := next);
    if c == NOPID then (s1, NOPID)
    else if !ok then (s1.(ppid := s.ppid[c := s.cur], exitcode := s.exitcode[c := 0]), NOPID)
    else (Born(s1, c, Ready), c)
  }

  /** A frozen parent goes on, and its vfork() returns the pid of the current process. */
  function Thaw(s: State, parent: Pid): (t: State)
    requires Shaped(s)
    ensures Shaped(t)
  {
    s.(st := s.st[parent := Running], vret := s.vret[parent := s.cur], cur := parent)
  }

  /** The end of do_exec(): with a frozen parent the current process becomes ready and the parent goes on. */
  function ExecStep(s: State): (t: State)
    requires Shaped(s)
    ensures Shaped(t)
  {
    var parent := s.ppid[s.cur];
    if s.st[parent] == Vfork then Thaw(s.(st := s.st[s.cur := Ready]), parent) else s
  }

  // ----- exit and wait

  /** The children of the current process become children of process 0. */
  function Orphaned(s: State): (r: seq<Pid>)
    requires Shaped(s)
    ensures |r| == MAXPROC
    ensures forall q: Pid :: r[q] == if s.st[q] != Free && s.ppid[q] == s.cur then 0 else s.ppid[q]
  {
    seq(MAXPROC, q requires 0 <= q < MAXPROC => if s.st[q] != Free && s.ppid[q] == s.cur then 0 else s.ppid[q])
  }

  /** What do_exit() does before it looks at the parent. */
  function Died(s: State, code: int): (t: State)
    requires Shaped(s)
    ensures Shaped(t)
  {
    var s1 := s.(exitcode := s.exitcode[s.cur := code], st := s.st[s.cur := Zombie]);
    s1.(ppid := Orphaned(s1))
  }

  function ExitStep(s: State, code: int): (t: State)
    requires Shaped(s)
    ensures Shaped(t)
  {
    var t := Died(s, code);
    var parent := t.ppid[s.cur];
    if t.st[parent] == Vfork then Thaw(t, parent)
    else ScheduleStep(if t.st[parent] == Sleeping then t.(st := t.st[parent := Ready]) else t)
  }

  /** pid > 0 names one child, -1 (and 0) any. */
  predicate Matches(pid: int, q: Pid) {
    pid > 0 ==> q == pid % 256
  }

  predicate IsChild(s: State, p: Pid, q: Pid)
    requires Shaped(s)
  {
    s.st[q] != Free && s.ppid[q] == p
  }

  /** The first zombie child from `i` on that the pid names, or MAXPROC. */
  function FindZombie(s: State, pid: int, i: nat): (q: int)
    requires Shaped(s) && i <= MAXPROC
    ensures i <= q <= MAXPROC
    ensures q < MAXPROC ==> IsChild(s, s.cur, q) && Matches(pid, q) && s.st[q] == Zombie
    decreases MAXPROC - i
  {
    if i == MAXPROC || (IsChild(s, s.cur, i) && Matches(pid, i) && s.st[i] == Zombie) then i
    else FindZombie(s, pid, i + 1)
  }

  predicate HasChild(s: State, p: Pid)
    requires Shaped(s)
  {
    exists q: Pid :: IsChild(s, p, q)
  }

  datatype Waited = Reaped(pid: Pid, status: int) | NoChild | NotYet | Asleep

  /** One turn of the loop of do_waitpid(). */
  function WaitStep(s: State, pid: int, nohang: bool): (t: (State, Waited))
    requires Shaped(s)
    ensures Shaped(t.0)
  {
    var q := FindZombie(s, pid, 0);
    if q < MAXPROC then (s.(st := s.st[q := Free], nproc := s.nproc - 1), Reaped(q, s.exitcode[q] % 256 * 256))
    else if !HasChild(s, s.cur) then (s, NoChild)
    else if nohang then (s, NotYet)
    else (PauseStep(s, Sleeping), Asleep)
  }

  // ----- invariants

  /** At most the current process is running. */
  predicate OnlyCurrentRuns(s: State)
    requires Shaped(s)
  {
    forall p: Pid :: s.st[p] == Running ==> p == s.cur
  }

  /** nproc counts the entries in use. */
  ghost predicate NprocCounts(s: State)
    requires Shaped(s)
  {
    s.nproc == MAXPROC - multiset(s.st)[Free]
  }

  /** The current process exists; process 0 lives and is the only one that is its own parent. */
  predicate Rooted(s: State)
    requires Shaped(s)
  {
    && s.st[s.cur] != Free && s.st[0] != Free && s.st[0] != Zombie && s.ppid[0] == 0
    && forall p: Pid :: p != 0 && s.st[p] != Free ==> s.ppid[p] != p
  }

  ghost predicate Inv(s: State) {
    Shaped(s) && OnlyCurrentRuns(s) && NprocCounts(s) && Rooted(s)
  }

  lemma CountUpdate(st: seq<ProcState>, k: int, x: ProcState)
    requires 0 <= k < |st|
    ensures multiset(st[k := x])[Free] ==
            multiset(st)[Free] - (if st[k] == Free then 1 else 0) + (if x == Free then 1 else 0)
  {
    assert st == st[..k] + [st[k]] + st[k + 1..];
    assert st[k := x] == st[..k] + [x] + st[k + 1..];
  }

  lemma SwitchCounts(s: State, q: Pid)
    requires Shaped(s) && s.st[q] != Free
    ensures multiset(SwitchTo(s, q).st)[Free] == multiset(s.st)[Free]
  {
    var st := if s.st[s.cur] == Running then s.st[s.cur := Ready] else s.st;
    CountUpdate(s.st, s.cur, Ready);
    CountUpdate(st, q, Running);
  }

  lemma SwitchKeeps(s: State, q: Pid)
    requires Inv(s) && s.st[q] == Ready
    ensures Inv(SwitchTo(s, q))
  {
    SwitchCounts(s, q);
  }

  lemma ScheduleKeeps(s: State)
    requires Inv(s)
    ensures Inv(ScheduleStep(s))
  {
    var k := NextReady(s, 1);
    if k < MAXPROC {
      SwitchKeeps(s, Next(s.cur, k));
    }
  }

  lemma SetKeeps(s: State, p: Pid, to: ProcState)
    requires Inv(s) && s.st[p] != Free && to != Free && to != Running && (p == 0 ==> to != Zombie)
    ensures Inv(s.(st := s.st[p := to]))
  {
    CountUpdate(s.st, p, to);
  }

  lemma PauseKeeps(s: State, to: ProcState)
    requires Inv(s) && to != Free && to != Running && to != Zombie
    ensures Inv(PauseStep(s, to))
  {
    SetKeeps(s, s.cur, to);
    ScheduleKeeps(s.(st := s.st[s.cur := to]));
  }

  lemma BornKeeps(s: State, c: Pid)
    requires Inv(s) && c != 0 && s.st[c] == Free
    ensures Inv(Born(s, c, Ready))
  {
    CountUpdate(s.st, c, Ready);
  }

  lemma VforkKeeps(s: State)
    requires Inv(s)
    ensures Inv(VforkStep(s).0)
  {
    var (c, next) := AllocPid(s.st, s.nextPid, MAXPROC);
    if c == NOPID { return; }
    CountUpdate(s.st, c, Running);
    CountUpdate(s.st[c := Running], s.cur, Vfork);
  }

  lemma ThawKeeps(s: State, parent: Pid)
    requires Inv(s) && s.st[parent] != Free && s.st[s.cur] != Running
    ensures Inv(Thaw(s, parent))
  {
    CountUpdate(s.st, parent, Running);
  }

  lemma ExecKeeps(s: State)
    requires Inv(s)
    ensures Inv(ExecStep(s))
  {
    var parent := s.ppid[s.cur];
    if s.st[parent] != Vfork { return; }
    SetKeeps(s, s.cur, Ready);
    ThawKeeps(s.(st := s.st[s.cur := Ready]), parent);
  }

  lemma DiedKeeps(s: State, code: int)
    requires Inv(s) && s.cur != 0
    ensures Inv(Died(s, code))
  {
    CountUpdate(s.st, s.cur, Zombie);
  }

  lemma ExitKeeps(s: State, code: int)
    requires Inv(s) && s.cur != 0
    ensures Inv(ExitStep(s, code))
  {
    DiedKeeps(s, code);
    var t := Died(s, code);
    var parent := t.ppid[s.cur];
    if t.st[parent] == Vfork {
      ThawKeeps(t, parent);
    } else if t.st[parent] == Sleeping {
      SetKeeps(t, parent, Ready);
      ScheduleKeeps(t.(st := t.st[parent := Ready]));
    } else {
      ScheduleKeeps(t);
    }
  }

  lemma WaitKeeps(s: State, pid: int, nohang: bool)
    requires Inv(s) && s.st[s.cur] != Zombie
    ensures Inv(WaitStep(s, pid, nohang).0)
  {
    var q := FindZombie(s, pid, 0);
    if q < MAXPROC {
      CountUpdate(s.st, q, Free);
    } else {
      PauseKeeps(s, Sleeping);
    }
  }

  /** How far q is after p among 1..15. */
  function Turns(p: Pid, q: Pid): (d: nat)
    requires p != 0 && q != 0
    ensures d < MAXPROC - 1 && (d == 0 <==> p == q)
  {
    if q >= p then q - p else q - p + MAXPROC - 1
  }

  lemma TurnsFall(p: Pid, q: Pid)
    requires p != 0 && q != 0 && p != q
    ensures Turns(Succ(p), q) == Turns(p, q) - 1
  {
  }

  lemma {:induction false} AllocFinds(st: seq<ProcState>, next: Pid, tries: nat, q: Pid)
    requires |st| == MAXPROC && next != 0 && q != 0 && st[q] == Free && Turns(next, q) < tries
    ensures AllocPid(st, next, tries).0 != NOPID
    decreases tries
  {
    if st[next] != Free {
      TurnsFall(next, q);
      AllocFinds(st, Succ(next), tries - 1, q);
    }
  }

  /** alloc_pid() fails exactly when all processes but process 0 are in use. */
  lemma AllocFails(s: State)
    requires Shaped(s)
    ensures AllocPid(s.st, s.nextPid, MAXPROC).0 == NOPID <==> forall q: Pid :: q != 0 ==> s.st[q] != Free
  {
    if q: Pid :| q != 0 && s.st[q] == Free {
      AllocFinds(s.st, s.nextPid, MAXPROC, q);
    }
  }

  // ----- runs

  datatype Waiting = No | For(pid: int)

  /** The table, and for each process whether it is in the loop of waitpid(). */
  datatype System = System(s: State, waits: seq<Waiting>)

  /** Steps up to the next schedule(). `Schedule` is the timer or a loop around schedule(); `Wake` an interrupt or a
      pipe; `Pause` a call that sleeps or stops elsewhere; `Exec` the end of an exec(). */
  datatype Event =
    | Schedule | Wake(p: Pid) | Kill(p: Pid, cont: bool) | Pause(stop: bool) | DoVfork | Spawn(ok: bool) | Exec
    | Exit(code: int) | Wait(pid: int, nohang: bool)

  predicate ByCurrent(e: Event) {
    !e.Schedule? && !e.Wake? && !e.Kill?
  }

  /** A zombie does nothing more, a process in waitpid() goes on with it, and process 0 does not exit. */
  predicate Enabled(y: System, e: Event)
    requires Shaped(y.s) && |y.waits| == MAXPROC
  {
    && (ByCurrent(e) ==> y.s.st[y.s.cur] != Zombie)
    && (ByCurrent(e) && y.waits[y.s.cur].For? ==> e == Wait(y.waits[y.s.cur].pid, false))
    && (e.Exit? ==> y.s.cur != 0)
  }

  function StateStep(s: State, e: Event): (t: State)
    requires Shaped(s)
    ensures Shaped(t)
  {
    match e
    case Schedule => ScheduleStep(s)
    case Wake(p) => WakeStep(s, p)
    case Kill(p, cont) => KillStep(s, p, cont)
    case Pause(stop) => PauseStep(s, if stop then Stopped else Sleeping)
    case DoVfork => VforkStep(s).0
    case Spawn(ok) => SpawnStep(s, ok).0
    case Exec => ExecStep(s)
    case Exit(code) => ExitStep(s, code)
    case Wait(pid, nohang) => WaitStep(s, pid, nohang).0
  }

  function WaitsStep(y: System, e: Event): (r: seq<Waiting>)
    requires Shaped(y.s) && |y.waits| == MAXPROC
    ensures |r| == MAXPROC
  {
    match e
    case Wait(pid, nohang) => y.waits[y.s.cur := if WaitStep(y.s, pid, nohang).1.Asleep? then For(pid) else No]
    case _ => y.waits
  }

  function Step(y: System, e: Event): (z: System)
    requires Shaped(y.s) && |y.waits| == MAXPROC
    ensures Shaped(z.s) && |z.waits| == MAXPROC
  {
    System(StateStep(y.s, e), WaitsStep(y, e))
  }

  /** A process that is free or a zombie is not in waitpid(). */
  ghost predicate Sound(y: System) {
    && Inv(y.s) && |y.waits| == MAXPROC
    && forall p: Pid :: Gone(y.s.st, p) ==> y.waits[p] == No
  }

  lemma SpawnKeeps(s: State, ok: bool)
    requires Inv(s)
    ensures Inv(SpawnStep(s, ok).0)
  {
    var (c, next) := AllocPid(s.st, s.nextPid, MAXPROC);
    if c != NOPID && ok { BornKeeps(s.(nextPid := next), c); }
  }

  lemma StateStepKeeps(s: State, e: Event)
    requires Inv(s) && (ByCurrent(e) ==> s.st[s.cur] != Zombie) && (e.Exit? ==> s.cur != 0)
    ensures Inv(StateStep(s, e))
  {
    hide ScheduleStep, WaitStep, VforkStep, ExecStep, ExitStep, PauseStep, SpawnStep;
    hide NprocCounts, Rooted, OnlyCurrentRuns;
    match e
    case Schedule => ScheduleKeeps(s);
    case Wake(p) => if s.st[p] == Sleeping { SetKeeps(s, p, Ready); }
    case Kill(p, cont) => if (cont && s.st[p] == Stopped) || s.st[p] == Sleeping { SetKeeps(s, p, Ready); }
    case Pause(stop) => PauseKeeps(s, if stop then Stopped else Sleeping);
    case DoVfork => VforkKeeps(s);
    case Spawn(ok) => SpawnKeeps(s, ok);
    case Exec => ExecKeeps(s);
    case Exit(code) => ExitKeeps(s, code);
    case Wait(pid, nohang) => WaitKeeps(s, pid, nohang);
  }

  /** schedule() only exchanges ready and running. */
  lemma ScheduleFrame(s: State)
    requires Shaped(s)
    ensures var t := ScheduleStep(s);
            && t.ppid == s.ppid && t.exitcode == s.exitcode
            && (forall p: Pid :: t.st[p] == s.st[p] || (s.st[p] == Ready && t.st[p] == Running && p == t.cur)
                                 || (s.st[p] == Running && t.st[p] == Ready && p == s.cur))
            && (t.cur == s.cur || s.st[t.cur] == Ready)
  {
  }

  predicate Gone(st: seq<ProcState>, p: Pid)
    requires |st| == MAXPROC
  {
    st[p] == Free || st[p] == Zombie
  }

  /** What exit does to the other processes: it wakes or thaws the parent, and schedule() may pick one. */
  lemma ExitFrame(s: State, code: int)
    requires Shaped(s)
    ensures var t := ExitStep(s, code);
            && t.ppid == Died(s, code).ppid && t.exitcode == s.exitcode[s.cur := code]
            && forall p: Pid :: p != s.cur ==>
                 || t.st[p] == s.st[p] || (s.st[p] == Ready && t.st[p] == Running && p == t.cur)
                 || (p == t.ppid[s.cur] && s.st[p] == Vfork && t.st[p] == Running && p == t.cur)
                 || (p == t.ppid[s.cur] && s.st[p] == Sleeping && (t.st[p] == Ready || t.st[p] == Running))
  {
    var t := Died(s, code);
    var parent := t.ppid[s.cur];
    if t.st[parent] != Vfork {
      ScheduleFrame(if t.st[parent] == Sleeping then t.(st := t.st[parent := Ready]) else t);
    }
  }

  lemma ExitEnds(s: State, code: int)
    requires Shaped(s)
    ensures forall p: Pid :: Gone(StateStep(s, Exit(code)).st, p) ==> Gone(s.st, p) || p == s.cur
  {
    hide ExitStep, Died;
    ExitFrame(s, code);
    assert StateStep(s, Exit(code)) == ExitStep(s, code);
  }

  lemma PauseEnds(s: State, to: ProcState)
    requires Shaped(s) && to != Free && to != Zombie
    ensures forall p: Pid :: Gone(PauseStep(s, to).st, p) ==> Gone(s.st, p)
  {
    ScheduleFrame(s.(st := s.st[s.cur := to]));
  }

  lemma WaitEnds(s: State, pid: int, nohang: bool)
    requires Shaped(s)
    ensures forall p: Pid :: Gone(WaitStep(s, pid, nohang).0.st, p) ==> Gone(s.st, p)
  {
    PauseEnds(s, Sleeping);
  }

  lemma VforkEnds(s: State)
    requires Shaped(s)
    ensures forall p: Pid :: Gone(VforkStep(s).0.st, p) ==> Gone(s.st, p)
  {
  }

  /** Which processes can be free or zombies after a step: those that were, and one that exits. */
  lemma Ended(s: State, e: Event)
    requires Shaped(s) && (ByCurrent(e) ==> s.st[s.cur] != Zombie)
    ensures forall p: Pid :: Gone(StateStep(s, e).st, p) ==> Gone(s.st, p) || (e.Exit? && p == s.cur)
  {
    match e
    case Schedule => ScheduleFrame(s);
    case Wake(q) =>
    case Kill(q, cont) =>
    case Pause(stop) => PauseEnds(s, if stop then Stopped else Sleeping);
    case DoVfork => VforkEnds(s);
    case Spawn(ok) =>
    case Exec =>
    case Exit(code) => ExitEnds(s, code);
    case Wait(pid, nohang) => WaitEnds(s, pid, nohang);
  }

  lemma StepKeeps(y: System, e: Event)
    requires Sound(y) && Enabled(y, e)
    ensures Sound(Step(y, e))
  {
    StateStepKeeps(y.s, e);
    Ended(y.s, e);
    assert forall p: Pid :: Gone(y.s.st, p) ==> y.waits[p] == No;
    assert forall p: Pid :: Gone(Step(y, e).s.st, p) ==> Step(y, e).waits[p] == No;
  }

  ghost predicate Run(y: System, es: seq<Event>, z: System)
    decreases |es|
  {
    if es == [] then y == z
    else Shaped(y.s) && |y.waits| == MAXPROC && Enabled(y, es[0]) && Run(Step(y, es[0]), es[1..], z)
  }

  /** Over every run at most the current process is in the running state, and nproc counts the processes. */
  lemma {:induction false} AlwaysSound(y: System, es: seq<Event>, z: System)
    requires Sound(y) && Run(y, es, z)
    ensures Sound(z)
    decreases |es|
  {
    if es != [] {
      StepKeeps(y, es[0]);
      AlwaysSound(Step(y, es[0]), es[1..], z);
    }
  }

  // ----- round robin

  lemma {:induction false} NextReadyBound(s: State, k: nat, d: nat)
    requires Shaped(s) && k <= d < MAXPROC && s.st[Next(s.cur, d)] == Ready
    ensures NextReady(s, k) <= d
    decreases d - k
  {
    if s.st[Next(s.cur, k)] != Ready {
      NextReadyBound(s, k + 1, d);
    }
  }

  lemma Closer(cur: Pid, p: Pid, k: nat)
    requires p != cur && 0 < k < Distance(cur, p)
    ensures Next(cur, k) != cur && Next(cur, k) != p && Distance(Next(cur, k), p) == Distance(cur, p) - k
  {
  }

  /** schedule() with a ready process p: p runs, or another process that p is closer to. */
  lemma ScheduleCloser(s: State, p: Pid)
    requires Shaped(s) && p != s.cur && s.st[p] == Ready
    ensures var t := ScheduleStep(s);
            if t.cur == p then t.st[p] == Running
            else t.cur != s.cur && t.st[p] == Ready && Distance(t.cur, p) < Distance(s.cur, p)
  {
    NextReadyBound(s, 1, Distance(s.cur, p));
    var k := NextReady(s, 1);
    if k < Distance(s.cur, p) {
      Closer(s.cur, p, k);
    }
  }

  /** The step changes the current process by schedule() or not at all. */
  predicate BySchedule(s: State, e: Event)
    requires Shaped(s)
  {
    match e
    case DoVfork => AllocPid(s.st, s.nextPid, MAXPROC).0 == NOPID
    case Exec => s.st[s.ppid[s.cur]] != Vfork
    case Exit(code) => Died(s, code).st[Died(s, code).ppid[s.cur]] != Vfork
    case _ => true
  }

  lemma ExitCloser(s: State, code: int, p: Pid)
    requires Inv(s) && p != s.cur && s.st[p] == Ready && BySchedule(s, Exit(code))
    ensures var t := ExitStep(s, code);
            if t.cur == p then t.st[p] == Running
            else t.st[p] == Ready && (t.cur == s.cur || Distance(t.cur, p) < Distance(s.cur, p))
  {
    hide ScheduleStep, Distance, NprocCounts;
    var t := Died(s, code);
    var parent := t.ppid[s.cur];
    ScheduleCloser(if t.st[parent] == Sleeping then t.(st := t.st[parent := Ready]) else t, p);
  }

  lemma StepCloser(s: State, e: Event, p: Pid)
    requires Inv(s) && p != s.cur && s.st[p] == Ready && BySchedule(s, e)
    ensures var t := StateStep(s, e);
            if t.cur == p then t.st[p] == Running
            else t.st[p] == Ready && (t.cur == s.cur || Distance(t.cur, p) < Distance(s.cur, p))
  {
    hide ScheduleStep, Distance, NprocCounts, ExitStep, Rooted, OnlyCurrentRuns;
    match e
    case Schedule => ScheduleCloser(s, p);
    case Wake(q) =>
    case Kill(q, cont) =>
    case Pause(stop) => ScheduleCloser(s.(st := s.st[s.cur := if stop then Stopped else Sleeping]), p);
    case DoVfork =>
    case Spawn(ok) =>
    case Exec =>
    case Exit(code) => ExitCloser(s, code, p);
    case Wait(pid, nohang) =>
      if WaitStep(s, pid, nohang).1.Asleep? { ScheduleCloser(s.(st := s.st[s.cur := Sleeping]), p); }
  }

  /** The current process changes only by schedule(), and p is never the one that runs. */
  ghost predicate PassedOver(y: System, es: seq<Event>, p: Pid)
    requires Sound(y)
    decreases |es|
  {
    && p != y.s.cur
    && (es != [] ==>
          && Enabled(y, es[0]) && BySchedule(y.s, es[0]) && Sound(Step(y, es[0]))
          && PassedOver(Step(y, es[0]), es[1..], p))
  }

  /** The number of times the current process changes. */
  ghost function Switches(y: System, es: seq<Event>): nat
    decreases |es|
  {
    if es == [] || !Shaped(y.s) || |y.waits| != MAXPROC then 0
    else (if Step(y, es[0]).s.cur != y.s.cur then 1 else 0) + Switches(Step(y, es[0]), es[1..])
  }

  /** A ready process is passed over fewer times than it is processes away: it runs after at most 15 switches. */
  lemma {:induction false} RunsInTurn(y: System, es: seq<Event>, p: Pid)
    requires Sound(y) && y.s.st[p] == Ready && PassedOver(y, es, p)
    ensures Switches(y, es) < Distance(y.s.cur, p) <= 15
    decreases |es|
  {
    if es != [] {
      StepCloser(y.s, es[0], p);
      RunsInTurn(Step(y, es[0]), es[1..], p);
    }
  }

  // ----- vfork

  predicate Alive(s: State, p: Pid)
    requires Shaped(s)
  {
    s.st[p] != Free && s.st[p] != Zombie
  }

  /** Process p is frozen in vfork() and b is its only living child. */
  predicate Frozen(s: State, p: Pid, b: Pid)
    requires Shaped(s)
  {
    && s.st[p] == Vfork && p != 0 && p != b && s.cur != p && Alive(s, b) && s.ppid[b] == p
    && forall q: Pid :: Alive(s, q) && s.ppid[q] == p ==> q == b
  }

  /** After a vfork() by a process other than 0, its new child is its only living one exactly when it had none. */
  lemma VforkFreezes(s: State)
    requires Inv(s) && s.cur != 0 && VforkStep(s).1 != NOPID
    ensures var (t, c) := VforkStep(s);
            Frozen(t, s.cur, c) <==> forall q: Pid :: Alive(s, q) ==> s.ppid[q] != s.cur
  {
    var (t, c) := VforkStep(s);
    assert forall q: Pid :: q != c ==> t.ppid[q] == s.ppid[q] && (Alive(t, q) <==> Alive(s, q) || q == s.cur);
  }

  lemma FrozenExit(s: State, code: int, p: Pid, b: Pid)
    requires Inv(s) && Frozen(s, p, b) && Alive(s, s.cur) && s.cur != 0
    ensures var t := ExitStep(s, code);
            if s.cur == b then t.cur == p && t.st[p] == Running && t.vret[p] == b else Frozen(t, p, b)
  {
    if s.cur != b {
      ExitFrame(s, code);
      var t := ExitStep(s, code);
      var d := Died(s, code);
      ExitCurrent(s, code);
      assert d.ppid[s.cur] != p;
      assert forall q: Pid :: Alive(t, q) ==> q != s.cur && (t.ppid[q] == p ==> s.ppid[q] == p);
      assert forall q: Pid :: Alive(t, q) ==> Alive(s, q);
    }
  }

  lemma ExitCurrent(s: State, code: int)
    requires Inv(s) && s.cur != 0
    ensures ExitStep(s, code).st[s.cur] == Zombie
  {
    var t := Died(s, code);
    var parent := t.ppid[s.cur];
    if t.st[parent] != Vfork {
      ScheduleFrame(if t.st[parent] == Sleeping then t.(st := t.st[parent := Ready]) else t);
    }
  }

  lemma FrozenSchedule(s: State, p: Pid, b: Pid)
    requires Shaped(s) && Frozen(s, p, b)
    ensures Frozen(ScheduleStep(s), p, b)
  {
    ScheduleFrame(s);
    assert forall q: Pid :: Alive(ScheduleStep(s), q) <==> Alive(s, q);
  }

  /** A living process other than p changes its own state. */
  lemma FrozenSet(s: State, p: Pid, b: Pid, q: Pid, to: ProcState)
    requires Shaped(s) && Frozen(s, p, b) && Alive(s, q) && q != p && to != Free && to != Zombie
    ensures Frozen(s.(st := s.st[q := to]), p, b)
  {
    assert forall r: Pid :: Alive(s.(st := s.st[q := to]), r) <==> Alive(s, r);
  }

  lemma FrozenBorn(s: State, p: Pid, b: Pid, c: Pid, to: ProcState)
    requires Shaped(s) && Frozen(s, p, b) && s.st[c] == Free && to != Free && to != Zombie
    ensures Frozen(Born(s, c, to), p, b)
  {
    assert forall r: Pid :: Alive(Born(s, c, to), r) <==> Alive(s, r) || r == c;
  }

  lemma FrozenExec(s: State, p: Pid, b: Pid)
    requires Inv(s) && Frozen(s, p, b) && Alive(s, s.cur)
    ensures var t := ExecStep(s);
            if s.cur == b then t.cur == p && t.st[p] == Running && t.vret[p] == b else Frozen(t, p, b)
  {
    var r := s.ppid[s.cur];
    if s.cur != b && s.st[r] == Vfork {
      FrozenSet(s, p, b, s.cur, Ready);
      FrozenSet(s.(st := s.st[s.cur := Ready]), p, b, r, Running);
    }
  }

  lemma FrozenVfork(s: State, p: Pid, b: Pid)
    requires Inv(s) && Frozen(s, p, b) && Alive(s, s.cur)
    ensures Frozen(VforkStep(s).0, p, b)
  {
    var (c, next) := AllocPid(s.st, s.nextPid, MAXPROC);
    var s1 := s.(nextPid := next);
    assert Frozen(s1, p, b);
    if c != NOPID {
      FrozenBorn(s1, p, b, c, Running);
      FrozenSet(Born(s1, c, Running), p, b, s.cur, Vfork);
    }
  }

  lemma FrozenWait(s: State, pid: int, nohang: bool, p: Pid, b: Pid)
    requires Inv(s) && Frozen(s, p, b) && Alive(s, s.cur)
    ensures Frozen(WaitStep(s, pid, nohang).0, p, b)
  {
    var q := FindZombie(s, pid, 0);
    if q < MAXPROC {
      assert forall r: Pid :: Alive(WaitStep(s, pid, nohang).0, r) <==> Alive(s, r);
    } else {
      FrozenSet(s, p, b, s.cur, Sleeping);
      FrozenSchedule(s.(st := s.st[s.cur := Sleeping]), p, b);
    }
  }

  /** The step by which b lets its parent go on. */
  predicate Releases(y: System, e: Event, b: Pid) {
    y.s.cur == b && (e.Exit? || e.Exec?)
  }

  lemma FrozenStep(y: System, e: Event, p: Pid, b: Pid)
    requires Sound(y) && Enabled(y, e) && Frozen(y.s, p, b)
    ensures var t := StateStep(y.s, e);
            if Releases(y, e, b) then t.cur == p && t.st[p] == Running && t.vret[p] == b else Frozen(t, p, b)
  {
    var s := y.s;
    match e
    case Schedule => FrozenSchedule(s, p, b);
    case Wake(q) => if s.st[q] == Sleeping { FrozenSet(s, p, b, q, Ready); }
    case Kill(q, cont) => if (cont && s.st[q] == Stopped) || s.st[q] == Sleeping { FrozenSet(s, p, b, q, Ready); }
    case Pause(stop) =>
      FrozenSet(s, p, b, s.cur, if stop then Stopped else Sleeping);
      FrozenSchedule(s.(st := s.st[s.cur := if stop then Stopped else Sleeping]), p, b);
    case DoVfork => FrozenVfork(s, p, b);
    case Spawn(ok) =>
      var (c, next) := AllocPid(s.st, s.nextPid, MAXPROC);
      assert Frozen(s.(nextPid := next), p, b);
      if c != NOPID && ok { FrozenBorn(s.(nextPid := next), p, b, c, Ready); }
    case Exec => FrozenExec(s, p, b);
    case Exit(code) => FrozenExit(s, code, p, b);
    case Wait(pid, nohang) => FrozenWait(s, pid, nohang, p, b);
  }

  /** In the run, p stays frozen until b exits or completes its exec(), and is then the current process. */
  ghost predicate ReleasedOnlyBy(y: System, es: seq<Event>, p: Pid, b: Pid)
    requires Sound(y)
    decreases |es|
  {
    && y.s.st[p] == Vfork
    && (es != [] && Enabled(y, es[0]) && Sound(Step(y, es[0])) ==>
          if Releases(y, es[0], b) then
            Step(y, es[0]).s.cur == p && Step(y, es[0]).s.st[p] == Running && Step(y, es[0]).s.vret[p] == b
          else ReleasedOnlyBy(Step(y, es[0]), es[1..], p, b))
  }

  /** vfork() returns the pid of its own child, in every run, for a process other than 0 without other living
      children: nothing but that child's exit or exec() lets the parent go on. */
  lemma {:induction false} VforkReturnsOwnChild(y: System, es: seq<Event>, p: Pid, b: Pid)
    requires Sound(y) && Frozen(y.s, p, b)
    ensures ReleasedOnlyBy(y, es, p, b)
    decreases |es|
  {
    if es != [] && Enabled(y, es[0]) {
      FrozenStep(y, es[0], p, b);
      StepKeeps(y, es[0]);
      if !Releases(y, es[0], b) {
        VforkReturnsOwnChild(Step(y, es[0]), es[1..], p, b);
      }
    }
  }

  /** Whichever child of a frozen process exits or completes an exec() first lets it go on, and vfork() returns that
      child's pid. */
  lemma AnyChildReleases(s: State, p: Pid, b: Pid, code: int)
    requires Inv(s) && s.st[p] == Vfork && s.ppid[s.cur] == p && s.cur != p && s.cur != 0 && Alive(s, s.cur)
      && Alive(s, b)
    requires b != p
    ensures var t := ExitStep(s, code);
            t.cur == p && t.st[p] == Running && t.vret[p] == s.cur && (Alive(t, b) <==> s.cur != b)
    ensures var t := ExecStep(s); t.cur == p && t.st[p] == Running && t.vret[p] == s.cur
  {
  }

  lemma {:induction false} NextReadyIs(s: State, k: nat, d: nat)
    requires Shaped(s) && k <= d < MAXPROC && s.st[Next(s.cur, d)] == Ready
    requires forall i :: k <= i < d ==> s.st[Next(s.cur, i)] != Ready
    ensures NextReady(s, k) == d
    decreases d - k
  {
    if k < d {
      NextReadyIs(s, k + 1, d);
    }
  }

  /** Process 0 of a fresh table has spawned 1 and vforked 2. */
  predicate SpawnedAndForked(s: State)
    requires Shaped(s)
  {
    && s.cur == 2 && s.st[0] == Vfork && s.st[1] == Ready && s.st[2] == Running && s.ppid[1] == s.ppid[2] == 0
    && forall p: Pid :: p > 2 ==> s.st[p] == Free
  }

  lemma SpawnAndFork(s: State)
    requires Inv(s) && s.cur == 0 && s.nextPid == 1 && s.st[0] == Running && forall p: Pid :: p != 0 ==> s.st[p] == Free
    ensures var s1 := StateStep(s, Spawn(true)); Shaped(s1) && s1.st[0] == Running && s1.cur == 0
    ensures var s2 := StateStep(StateStep(s, Spawn(true)), DoVfork); Shaped(s2) && SpawnedAndForked(s2)
  {
    assert AllocPid(s.st, 1, MAXPROC) == (1, 2);
    var s1 := StateStep(s, Spawn(true));
    assert AllocPid(s1.st, 2, MAXPROC) == (2, 3);
  }

  lemma ScheduleAndExit(s: State)
    requires Shaped(s) && SpawnedAndForked(s)
    ensures var s3 := StateStep(s, Schedule); Shaped(s3) && s3.cur == 1 && s3.st[1] == Running
    ensures var s4 := StateStep(StateStep(s, Schedule), Exit(0));
            && s4.cur == 0 && s4.st[0] == Running && s4.vret[0] == 1 && s4.st[1] == Zombie && s4.st[2] == Ready
            && s4.ppid[2] == 0
  {
    NextReadyIs(s, 1, 15);
  }

  /** Such a state is reached from a fresh table: process 0 spawns 1 and vforks 2, the timer switches to 1, and
      its exit lets 0 go on while 2 still has to run. */
  lemma StaleChildReleases(s: State) returns (z: System)
    requires Inv(s) && s.cur == 0 && s.nextPid == 1 && s.st[0] == Running && forall p: Pid :: p != 0 ==> s.st[p] == Free
    ensures Run(System(s, seq(MAXPROC, _ => No)), [Spawn(true), DoVfork, Schedule, Exit(0)], z)
    ensures Shaped(z.s) && z.s.cur == 0 && z.s.st[0] == Running && z.s.vret[0] == 1
    ensures z.s.st[1] == Zombie && z.s.st[2] == Ready && z.s.ppid[2] == 0
  {
    var none := seq(MAXPROC, _ => No);
    SpawnAndFork(s);
    var s1 := StateStep(s, Spawn(true));
    var s2 := StateStep(s1, DoVfork);
    ScheduleAndExit(s2);
    var s3 := StateStep(s2, Schedule);
    z := System(StateStep(s3, Exit(0)), none);
    RunsOn(System(s3, none), [Exit(0)], z);
    RunsOn(System(s2, none), [Schedule, Exit(0)], z);
    RunsOn(System(s1, none), [DoVfork, Schedule, Exit(0)], z);
    RunsOn(System(s, none), [Spawn(true), DoVfork, Schedule, Exit(0)], z);
  }

  lemma RunsOn(y: System, es: seq<Event>, z: System)
    requires es != [] && Shaped(y.s) && |y.waits| == MAXPROC && Enabled(y, es[0])
    requires if |es| == 1 then Step(y, es[0]) == z else Run(Step(y, es[0]), es[1..], z)
    ensures Run(y, es, z)
  {
    if |es| == 1 {
      assert es[1..] == [];
    }
  }

  // ----- waiting for children

  /** A process asleep in waitpid() has no zombie child that it waits for. */
  predicate NothingMissed(y: System, p: Pid)
    requires Shaped(y.s) && |y.waits| == MAXPROC
  {
    y.waits[p].For? && y.s.st[p] == Sleeping ==>
      forall q: Pid :: IsChild(y.s, p, q) && Matches(y.waits[p].pid, q) ==> y.s.st[q] != Zombie
  }

  lemma {:induction false} NoZombie(s: State, pid: int, i: nat, q: Pid)
    requires Shaped(s) && i <= q && IsChild(s, s.cur, q) && Matches(pid, q) && s.st[q] == Zombie
    ensures FindZombie(s, pid, i) < MAXPROC
    decreases MAXPROC - i
  {
    if i < q {
      NoZombie(s, pid, i + 1, q);
    }
  }

  /** waitpid() reaps a matching zombie child exactly when there is one, and fails exactly when there is no child
      at all; process 0, its own parent, always has one. */
  lemma WaitReaps(s: State, pid: int, nohang: bool)
    requires Inv(s)
    ensures var o := WaitStep(s, pid, nohang).1;
            && (o.Reaped? <==> exists q: Pid :: IsChild(s, s.cur, q) && Matches(pid, q) && s.st[q] == Zombie)
            && (o.Reaped? ==> IsChild(s, s.cur, o.pid) && Matches(pid, o.pid) && s.st[o.pid] == Zombie
                              && WaitStep(s, pid, nohang).0.st[o.pid] == Free
                              && o.status == s.exitcode[o.pid] % 256 * 256)
            && (o.NoChild? <==> forall q: Pid :: !IsChild(s, s.cur, q)) && (s.cur == 0 ==> !o.NoChild?)
  {
    if q: Pid :| IsChild(s, s.cur, q) && Matches(pid, q) && s.st[q] == Zombie {
      NoZombie(s, pid, 0, q);
    }
    assert IsChild(s, 0, 0);
  }

  // ----- the status that a child leaves

  /** What waitpid() makes of an exit code. */
  function Status(code: int): int {
    code % 256 * 256
  }

  /** The status that process c has left and that nobody has asked for yet. */
  function Left(s: State, c: Pid): seq<int>
    requires Shaped(s)
  {
    if s.st[c] == Zombie then [Status(s.exitcode[c])] else []
  }

  /** The status of c if the step is its exit. */
  function LeftBy(s: State, e: Event, c: Pid): seq<int> {
    if e.Exit? && s.cur == c then [Status(e.code)] else []
  }

  /** The status of c if the step is a waitpid() that returns c. */
  function TakenBy(s: State, e: Event, c: Pid): seq<int>
    requires Shaped(s)
  {
    if !e.Wait? then []
    else
      match WaitStep(s, e.pid, e.nohang).1
      case Reaped(q, status) => if q == c then [status] else []
      case _ => []
  }

  lemma LeftExit(s: State, code: int, c: Pid)
    requires Shaped(s) && s.st[s.cur] != Zombie
    ensures Left(s, c) + LeftBy(s, Exit(code), c) == Left(ExitStep(s, code), c)
  {
    var t := Died(s, code);
    var parent := t.ppid[s.cur];
    if t.st[parent] != Vfork {
      ScheduleFrame(if t.st[parent] == Sleeping then t.(st := t.st[parent := Ready]) else t);
    }
  }

  lemma LeftPause(s: State, to: ProcState, c: Pid)
    requires Shaped(s) && s.st[s.cur] != Zombie && to != Zombie
    ensures Left(PauseStep(s, to), c) == Left(s, c)
  {
    ScheduleFrame(s.(st := s.st[s.cur := to]));
  }

  lemma LeftWait(s: State, pid: int, nohang: bool, c: Pid)
    requires Shaped(s) && s.st[s.cur] != Zombie
    ensures Left(s, c) == TakenBy(s, Wait(pid, nohang), c) + Left(WaitStep(s, pid, nohang).0, c)
  {
    hide PauseStep;
    LeftPause(s, Sleeping, c);
  }

  lemma LeftVfork(s: State, c: Pid)
    requires Shaped(s) && s.st[s.cur] != Zombie
    ensures Left(VforkStep(s).0, c) == Left(s, c)
  {
  }

  lemma LeftExec(s: State, c: Pid)
    requires Shaped(s) && s.st[s.cur] != Zombie
    ensures Left(ExecStep(s), c) == Left(s, c)
  {
  }

  lemma LeftStep(y: System, e: Event, c: Pid)
    requires Sound(y) && Enabled(y, e)
    ensures Left(y.s, c) + LeftBy(y.s, e, c) == TakenBy(y.s, e, c) + Left(Step(y, e).s, c)
  {
    hide VforkStep, ExecStep, ExitStep, WaitStep, ScheduleStep, PauseStep, NprocCounts, Rooted;
    match e
    case Schedule => ScheduleFrame(y.s);
    case Wake(q) =>
    case Kill(q, cont) =>
    case Pause(stop) => LeftPause(y.s, if stop then Stopped else Sleeping, c);
    case DoVfork => LeftVfork(y.s, c);
    case Spawn(ok) =>
    case Exec => LeftExec(y.s, c);
    case Exit(code) => LeftExit(y.s, code, c);
    case Wait(pid, nohang) => LeftWait(y.s, pid, nohang, c);
  }

  /** The statuses with which c exits in a run, in order. */
  function Exits(y: System, es: seq<Event>, c: Pid): seq<int>
    requires Shaped(y.s) && |y.waits| == MAXPROC
    decreases |es|
  {
    if es == [] then [] else LeftBy(y.s, es[0], c) + Exits(Step(y, es[0]), es[1..], c)
  }

  /** The statuses with which waitpid() returns c in a run, in order. */
  function Reaps(y: System, es: seq<Event>, c: Pid): seq<int>
    requires Shaped(y.s) && |y.waits| == MAXPROC
    decreases |es|
  {
    if es == [] then [] else TakenBy(y.s, es[0], c) + Reaps(Step(y, es[0]), es[1..], c)
  }

  /** Over every run, the statuses that waitpid() hands out for a process are those it exited with, in order, each
      once; at most the last one is still to come, while the process is a zombie. */
  lemma {:induction false} EachStatusOnce(y: System, es: seq<Event>, z: System, c: Pid)
    requires Sound(y) && Run(y, es, z)
    ensures Shaped(z.s) && Left(y.s, c) + Exits(y, es, c) == Reaps(y, es, c) + Left(z.s, c)
    decreases |es|
  {
    if es == [] { return; }
    StepKeeps(y, es[0]);
    LeftStep(y, es[0], c);
    EachStatusOnce(Step(y, es[0]), es[1..], z, c);
    hide Left, LeftBy, TakenBy, Step, Sound, Inv, Shaped;
    var u := Step(y, es[0]);
    Regroup(Left(y.s, c), LeftBy(y.s, es[0], c), Exits(u, es[1..], c), TakenBy(y.s, es[0], c), Left(u.s, c),
            Reaps(u, es[1..], c), Left(z.s, c));
  }

  lemma Regroup(left: seq<int>, a: seq<int>, exits: seq<int>, b: seq<int>, mid: seq<int>, reaps: seq<int>,
                end: seq<int>)
    requires left + a == b + mid && mid + exits == reaps + end
    ensures left + (a + exits) == (b + reaps) + end
  {
    assert left + (a + exits) == (left + a) + exits;
    assert b + (reaps + end) == (b + reaps) + end;
    assert (b + mid) + exits == b + (mid + exits);
  }

  /** No zombie is new, and p did not go to sleep. */
  predicate NoNewZombies(s: State, t: State, p: Pid)
    requires Shaped(s) && Shaped(t)
  {
    && (forall q: Pid :: t.st[q] == Zombie ==> s.st[q] == Zombie && t.ppid[q] == s.ppid[q])
    && (t.st[p] == Sleeping ==> s.st[p] == Sleeping)
  }

  lemma StillNothing(y: System, z: System, p: Pid)
    requires Shaped(y.s) && Shaped(z.s) && |y.waits| == |z.waits| == MAXPROC
    requires NothingMissed(y, p) && y.waits[p] == z.waits[p] && NoNewZombies(y.s, z.s, p)
    ensures NothingMissed(z, p)
  {
  }

  lemma PauseZombies(s: State, to: ProcState, p: Pid)
    requires Shaped(s) && to != Zombie && p != s.cur
    ensures NoNewZombies(s, PauseStep(s, to), p)
  {
    ScheduleFrame(s.(st := s.st[s.cur := to]));
  }

  /** A process that goes to sleep in waitpid() has no zombie child that it waits for. */
  lemma AsleepMissesNothing(y: System, pid: int, nohang: bool)
    requires Sound(y) && WaitStep(y.s, pid, nohang).1.Asleep?
    ensures NothingMissed(Step(y, Wait(pid, nohang)), y.s.cur)
  {
    hide ScheduleStep, NprocCounts, FindZombie;
    var s := y.s;
    WaitReaps(s, pid, nohang);
    ScheduleFrame(s.(st := s.st[s.cur := Sleeping]));
  }

  lemma WaitZombies(s: State, pid: int, nohang: bool, p: Pid)
    requires Shaped(s) && p != s.cur
    ensures NoNewZombies(s, WaitStep(s, pid, nohang).0, p)
  {
    if WaitStep(s, pid, nohang).1.Asleep? { PauseZombies(s, Sleeping, p); }
  }

  lemma MissedWait(y: System, pid: int, nohang: bool, p: Pid)
    requires Sound(y) && NothingMissed(y, p) && Enabled(y, Wait(pid, nohang))
    ensures NothingMissed(Step(y, Wait(pid, nohang)), p)
  {
    if p == y.s.cur {
      if WaitStep(y.s, pid, nohang).1.Asleep? { AsleepMissesNothing(y, pid, nohang); }
      return;
    }
    WaitZombies(y.s, pid, nohang, p);
    StillNothing(y, Step(y, Wait(pid, nohang)), p);
  }

  /** An exit by which process 0 misses a zombie: it sleeps in waitpid(), is not woken as the parent, and inherits a
      zombie that it waits for. */
  predicate Misses(y: System, e: Event)
    requires Shaped(y.s) && |y.waits| == MAXPROC
  {
    && e.Exit? && y.waits[0].For? && y.s.st[0] == Sleeping && y.s.ppid[y.s.cur] != 0
    && Inherits(y.s, y.waits[0].pid)
  }

  /** After an exit, process p has missed nothing, unless p is process 0 and this is such an exit. */
  lemma MissedExit(y: System, code: int, p: Pid)
    requires Sound(y) && NothingMissed(y, p) && Enabled(y, Exit(code))
    ensures NothingMissed(Step(y, Exit(code)), p) <==> p != 0 || !Misses(y, Exit(code))
  {
    hide ExitStep, NprocCounts, OnlyCurrentRuns;
    var s, t := y.s, ExitStep(y.s, code);
    ExitFrame(s, code);
    ExitCurrent(s, code);
    ExitZombies(s, code);
    if p == 0 && Misses(y, Exit(code)) {
      var q: Pid :| IsChild(s, s.cur, q) && Matches(y.waits[p].pid, q) && s.st[q] == Zombie;
      StillAsleep(s, code);
      assert IsChild(t, p, q);
    } else if y.waits[p].For? && t.st[p] == Sleeping {
      ExitWakes(s, code, p);
    }
  }

  /** Process 0 sleeps on when the process that exits is not its child. */
  lemma StillAsleep(s: State, code: int)
    requires Inv(s) && s.cur != 0 && s.st[0] == Sleeping && s.ppid[s.cur] != 0
    ensures ExitStep(s, code).st[0] == Sleeping
  {
    hide ScheduleStep;
    var t := Died(s, code);
    var parent := t.ppid[s.cur];
    if t.st[parent] != Vfork {
      ScheduleFrame(if t.st[parent] == Sleeping then t.(st := t.st[parent := Ready]) else t);
    }
  }

  /** A process that sleeps after an exit slept before, and its child did not exit. */
  lemma ExitWakes(s: State, code: int, p: Pid)
    requires Inv(s) && s.cur != 0 && ExitStep(s, code).st[p] == Sleeping
    ensures s.st[p] == Sleeping && s.ppid[s.cur] != p
  {
    hide ScheduleStep;
    var t := Died(s, code);
    var parent := t.ppid[s.cur];
    if t.st[parent] != Vfork {
      ScheduleFrame(if t.st[parent] == Sleeping then t.(st := t.st[parent := Ready]) else t);
    }
  }

  /** Exit makes one zombie. */
  lemma ExitZombies(s: State, code: int)
    requires Inv(s) && s.cur != 0 && s.st[s.cur] != Zombie
    ensures var t := ExitStep(s, code); forall q: Pid :: t.st[q] == Zombie <==> q == s.cur || s.st[q] == Zombie
  {
    hide ExitStep;
    ExitFrame(s, code);
    ExitCurrent(s, code);
  }

  /** The current process has a zombie child that a waitpid() with this pid looks for. */
  predicate Inherits(s: State, pid: int)
    requires Shaped(s)
  {
    exists q: Pid :: IsChild(s, s.cur, q) && Matches(pid, q) && s.st[q] == Zombie
  }

  lemma VforkZombies(s: State, p: Pid)
    requires Shaped(s) && p != s.cur
    ensures NoNewZombies(s, VforkStep(s).0, p)
  {
  }

  lemma ExecZombies(s: State, p: Pid)
    requires Shaped(s) && p != s.cur
    ensures NoNewZombies(s, ExecStep(s), p)
  {
  }

  lemma OtherZombies(s: State, e: Event, p: Pid)
    requires Inv(s) && !e.Exit? && !e.Wait? && (ByCurrent(e) ==> p != s.cur)
    ensures NoNewZombies(s, StateStep(s, e), p)
  {
    hide VforkStep, ExecStep, ScheduleStep, PauseStep, NprocCounts, Rooted, OnlyCurrentRuns;
    match e
    case Schedule => ScheduleFrame(s);
    case Wake(q) =>
    case Kill(q, cont) =>
    case Pause(stop) => PauseZombies(s, if stop then Stopped else Sleeping, p);
    case DoVfork => VforkZombies(s, p);
    case Spawn(ok) =>
    case Exec => ExecZombies(s, p);
  }

  lemma MissedOther(y: System, e: Event, p: Pid)
    requires Sound(y) && NothingMissed(y, p) && Enabled(y, e) && !e.Exit? && !e.Wait?
    ensures NothingMissed(Step(y, e), p)
  {
    if ByCurrent(e) && p == y.s.cur { return; }
    OtherZombies(y.s, e, p);
    StillNothing(y, Step(y, e), p);
  }

  lemma MissedStep(y: System, e: Event, p: Pid)
    requires Sound(y) && NothingMissed(y, p) && Enabled(y, e)
    ensures NothingMissed(Step(y, e), p) <==> p != 0 || !Misses(y, e)
  {
    match e {
      case Wait(pid, nohang) => MissedWait(y, pid, nohang, p);
      case Exit(code) => MissedExit(y, code, p);
      case _ => MissedOther(y, e, p);
    }
  }

  /** Over every run no process other than 0 sleeps in waitpid() while a child that it waits for is a zombie. */
  lemma {:induction false} NeverMissed(y: System, es: seq<Event>, z: System, p: Pid)
    requires Sound(y) && NothingMissed(y, p) && Run(y, es, z) && p != 0
    ensures Sound(z) && NothingMissed(z, p)
    decreases |es|
  {
    if es == [] { return; }
    StepKeeps(y, es[0]);
    MissedStep(y, es[0], p);
    NeverMissed(Step(y, es[0]), es[1..], z, p);
  }

  /** In no state of the run does process 0 sleep in waitpid() while a child that it waits for is a zombie. */
  ghost predicate RootNeverMisses(y: System, es: seq<Event>)
    requires Shaped(y.s) && |y.waits| == MAXPROC
    decreases |es|
  {
    NothingMissed(y, 0) && (es != [] ==> RootNeverMisses(Step(y, es[0]), es[1..]))
  }

  /** No step of the run is an exit by which process 0 misses a zombie. */
  ghost predicate NoneMisses(y: System, es: seq<Event>)
    requires Shaped(y.s) && |y.waits| == MAXPROC
    decreases |es|
  {
    es != [] ==> !Misses(y, es[0]) && NoneMisses(Step(y, es[0]), es[1..])
  }

  /** For process 0 this holds throughout a run exactly when no step of it is such an exit. */
  lemma {:induction false} RootMissesWhen(y: System, es: seq<Event>, z: System)
    requires Sound(y) && NothingMissed(y, 0) && Run(y, es, z)
    ensures RootNeverMisses(y, es) <==> NoneMisses(y, es)
    ensures NoneMisses(y, es) ==> Sound(z) && NothingMissed(z, 0)
    decreases |es|
  {
    if es == [] { return; }
    hide Step, Misses, NothingMissed, Inv;
    StepKeeps(y, es[0]);
    MissedStep(y, es[0], 0);
    if !Misses(y, es[0]) {
      RootMissesWhen(Step(y, es[0]), es[1..], z);
    } else {
      assert !RootNeverMisses(Step(y, es[0]), es[1..]);
    }
  }

  // ----- the code

  lemma {:induction false} AllFree(st: seq<ProcState>)
    requires forall i :: 0 <= i < |st| ==> st[i] == Free
    ensures multiset(st)[Free] == |st|
  {
    if st != [] {
      var n := |st| - 1;
      assert st == st[..n] + [st[n]];
      AllFree(st[..n]);
    }
  }

  lemma OneProcess(st: seq<ProcState>)
    requires |st| > 0 && st[0] == Running && forall i :: 0 < i < |st| ==> st[i] == Free
    ensures multiset(st)[Free] == |st| - 1
  {
    var none := st[0 := Free];
    AllFree(none);
    CountUpdate(none, 0, Running);
    assert none[0 := Running] == st;
  }

  lemma FindTurn(s: State, pid: int, i: nat)
    requires Shaped(s) && i < MAXPROC
    ensures FindZombie(s, pid, i) ==
            if IsChild(s, s.cur, i) && Matches(pid, i) && s.st[i] == Zombie then i else FindZombie(s, pid, i + 1)
  {
  }

  class ProcTable {
    var st: seq<ProcState>
    var ppid: seq<Pid>
    var exitcode: seq<int>
    var cur: Pid
    var nextPid: Pid
    var vret: seq<Pid>
    var nproc: int

    ghost function V(): State
      reads this
    {
      State(st, ppid, exitcode, vret, cur, nextPid, nproc)
    }

    /** proc_init() */
    constructor ()
      ensures Inv(V()) && cur == 0 && nextPid == 1 && st[0] == Running && forall p: Pid :: p != 0 ==> st[p] == Free
    {
      st := seq(MAXPROC, p => if p == 0 then Running else Free);
      ppid := seq(MAXPROC, _ => 0);
      exitcode := seq(MAXPROC, _ => 0);
      vret := seq(MAXPROC, _ => 0);
      cur, nextPid, nproc := 0, 1, 1;
      new;
      OneProcess(st);
    }

    method Schedule()
      requires Shaped(V())
      modifies this`st, this`cur
      ensures V() == ScheduleStep(old(V()))
    {
      var i := 1;
      while i < MAXPROC && st[Next(cur, i)] != Ready
        invariant 1 <= i <= MAXPROC && NextReady(V(), 1) == NextReady(V(), i)
      {
        i := i + 1;
      }
      if i == MAXPROC {
        return;
      }
      var next := Next(cur, i);
      if st[cur] == Running {
        st := st[cur := Ready];
      }
      st := st[next := Running];
      cur := next;
    }

    method AllocPidLoop() returns (c: int)
      requires Shaped(V())
      modifies this`nextPid
      ensures (c, nextPid) == AllocPid(st, old(nextPid), MAXPROC)
    {
      var i := 0;
      while i < MAXPROC
        invariant 0 <= i <= MAXPROC && nextPid != 0
        invariant AllocPid(st, old(nextPid), MAXPROC) == AllocPid(st, nextPid, MAXPROC - i)
      {
        var p := nextPid;
        var n := (nextPid + 1) % MAXPROC;
        nextPid := if n == 0 then 1 else n;
        if st[p] == Free {
          return p;
        }
        i := i + 1;
      }
      c := NOPID;
    }

    /** do_vfork(), up to the return in the child. */
    method DoVfork() returns (c: int)
      requires Shaped(V())
      modifies this
      ensures (V(), c) == VforkStep(old(V()))
    {
      c := AllocPidLoop();
      if c == NOPID {
        return;
      }
      var parent := cur;
      ppid := ppid[c := parent];
      st := st[c := Running];
      exitcode := exitcode[c := 0];
      nproc := nproc + 1;
      st := st[parent := Vfork];
      cur := c;
    }

    /** The process-table part of do_spawn(). */
    method DoSpawn(ok: bool) returns (c: int)
      requires Shaped(V())
      modifies this
      ensures (V(), c) == SpawnStep(old(V()), ok)
    {
      c := AllocPidLoop();
      if c == NOPID {
        return;
      }
      ppid := ppid[c := cur];
      exitcode := exitcode[c := 0];
      nproc := nproc + 1;
      if !ok {
        nproc := nproc - 1;
        return NOPID;
      }
      st := st[c := Ready];
    }

    /** The end of do_exec() of a child made by vfork(). */
    method ExecReturn()
      requires Shaped(V())
      modifies this`st, this`vret, this`cur
      ensures V() == ExecStep(old(V()))
    {
      var parent := ppid[cur];
      if st[parent] == Vfork {
        st := st[cur := Ready];
        st := st[parent := Running];
        vret := vret[parent := cur];
        cur := parent;
      }
    }

    method Reparent()
      requires Shaped(V())
      modifies this`ppid
      ensures ppid == Orphaned(old(V()))
    {
      for i := 0 to MAXPROC
        invariant |ppid| == MAXPROC
        invariant forall q: Pid :: ppid[q] == if q < i then Orphaned(old(V()))[q] else old(ppid[q])
      {
        if st[i] != Free && ppid[i] == cur {
          ppid := ppid[i := 0];
        }
      }
    }

    /** do_exit(), without the descriptors and the memory. */
    method DoExit(code: int)
      requires Shaped(V())
      modifies this`st, this`ppid, this`exitcode, this`vret, this`cur
      ensures V() == ExitStep(old(V()), code)
    {
      exitcode := exitcode[cur := code];
      st := st[cur := Zombie];
      Reparent();
      assert V() == Died(old(V()), code);
      var parent := ppid[cur];
      if st[parent] == Vfork {
        st := st[parent := Running];
        vret := vret[parent := cur];
        cur := parent;
        return;
      }
      if st[parent] == Sleeping {
        st := st[parent := Ready];
      }
      Schedule();
    }

    /** One turn of the loop of do_waitpid(). */
    method DoWaitpid(pid: int, nohang: bool) returns (o: Waited)
      requires Shaped(V())
      modifies this`st, this`nproc, this`cur
      ensures (V(), o) == WaitStep(old(V()), pid, nohang)
    {
      hide ScheduleStep, FindZombie;
      var hasChild := false;
      var i := 0;
      while i < MAXPROC
        invariant 0 <= i <= MAXPROC && V() == old(V())
        invariant hasChild <==> exists q: Pid :: q < i && IsChild(V(), cur, q)
        invariant FindZombie(V(), pid, 0) == FindZombie(V(), pid, i)
      {
        FindTurn(V(), pid, i);
        if st[i] != Free && ppid[i] == cur {
          assert IsChild(V(), cur, i);
          hasChild := true;
          if !(pid > 0 && i != pid % 256) && st[i] == Zombie {
            o := Reaped(i, exitcode[i] % 256 * 256);
            st := st[i := Free];
            nproc := nproc - 1;
            return;
          }
        }
        i := i + 1;
      }
      if !hasChild {
        return NoChild;
      }
      if nohang {
        return NotYet;
      }
      st := st[cur := Sleeping];
      Schedule();
      o := Asleep;
    }

    /** The state changes of SYS_KILL. */
    method Kill(p: Pid, cont: bool)
      requires Shaped(V())
      modifies this`st
      ensures V() == KillStep(old(V()), p, cont)
    {
      if cont && st[p] == Stopped {
        st := st[p := Ready];
      }
      if st[p] == Sleeping {
        st := st[p := Ready];
      }
    }
  }
}
