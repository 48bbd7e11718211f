/** Runs of the process table of kernel/proc.c from its start, in which process 0 gets less than it waits for. */
module SchedulerRuns {
  import opened Scheduler

  /** Processes 0 to 3 are in these states, the others do not exist. */
  predicate Four(s: State, a: ProcState, b: ProcState, c: ProcState, d: ProcState, cur: Pid, next: Pid) {
    && Shaped(s) && s.st[0] == a && s.st[1] == b && s.st[2] == c && s.st[3] == d && s.cur == cur && s.nextPid == next
    && s.ppid[0] == 0 && forall p: Pid :: p > 3 ==> s.st[p] == Free
  }

  lemma FourNext(s: State, cur: Pid, up: Pid)
    requires Shaped(s) && s.cur == cur && cur <= 3 && up <= 3 && up != cur && s.st[up] == Ready
    requires forall p: Pid :: p > 3 ==> s.st[p] == Free
    requires forall q: Pid :: q <= 3 && s.st[q] == Ready ==> q == cur || Distance(cur, up) <= Distance(cur, q)
    ensures NextReady(s, 1) == Distance(cur, up)
  {
    var d := Distance(cur, up);
    forall i | 1 <= i < d
      ensures s.st[Next(cur, i)] != Ready
    {
      FirstAround(cur, i, d);
    }
    NextReadyIs(s, 1, d);
  }

  lemma FourSchedule(s: State, a: ProcState, b: ProcState, c: ProcState, d: ProcState, cur: Pid, next: Pid, up: Pid)
    requires Four(s, a, b, c, d, cur, next) && cur <= 3 && up <= 3 && up != cur && s.st[up] == Ready
    requires forall q: Pid :: q <= 3 && s.st[q] == Ready ==> q == cur || Distance(cur, up) <= Distance(cur, q)
    ensures var t := ScheduleStep(s);
            && t.cur == up && t.st[up] == Running && t.ppid == s.ppid && t.nextPid == next && t.vret == s.vret
            && t.st[cur] == (if s.st[cur] == Running then Ready else s.st[cur])
            && forall q: Pid :: q != cur && q != up ==> t.st[q] == s.st[q]
  {
    hide NextReady, Next, Distance;
    FourNext(s, cur, up);
  }

  lemma FirstAround(cur: Pid, i: nat, d: nat)
    requires 1 <= i < d < MAXPROC
    ensures Next(cur, i) != cur && Distance(cur, Next(cur, i)) == i
  {
  }

  lemma Spawns(s: State)
    requires Shaped(s) && s.st[s.nextPid] == Free && s.cur != s.nextPid
    ensures var t, c := StateStep(s, Spawn(true)), s.nextPid;
            && t.st == s.st[c := Ready] && t.ppid == s.ppid[c := s.cur] && t.cur == s.cur && t.nextPid == Succ(c)
            && t.vret == s.vret
  {
  }

  /** One step of a run. */
  predicate Goes(y: System, e: Event, z: System) {
    Shaped(y.s) && |y.waits| == MAXPROC && Enabled(y, e) && Step(y, e) == z
  }

  lemma Follows(y: System, e: Event, u: System, es: seq<Event>, z: System)
    requires Goes(y, e, u) && Run(u, es, z)
    ensures Run(y, [e] + es, z)
  {
    assert ([e] + es)[1..] == es;
  }

  lemma ThreeSteps(y: System, e: Event, u: System, f: Event, v: System, g: Event, z: System)
    requires Goes(y, e, u) && Goes(u, f, v) && Goes(v, g, z)
    ensures Run(y, [e, f, g], z)
  {
    hide Goes;
    assert Run(z, [], z);
    Follows(v, g, z, [], z);
    Follows(u, f, v, [g], z);
    Follows(y, e, u, [f, g], z);
    assert [g] + [] == [g];
    assert [f] + [g] == [f, g];
    assert [e] + [f, g] == [e, f, g];
  }

  /** Nobody is in waitpid(). */
  function None(): (r: seq<Waiting>)
    ensures |r| == MAXPROC && forall p: Pid :: r[p] == No
  {
    seq(MAXPROC, _ => No)
  }

  lemma {:induction false} RunsTogether(y: System, es: seq<Event>, u: System, fs: seq<Event>, z: System)
    requires Run(y, es, u) && Run(u, fs, z)
    ensures Run(y, es + fs, z)
    decreases |es|
  {
    hide Step, Enabled;
    if es == [] {
      assert es + fs == fs;
    } else {
      RunsTogether(Step(y, es[0]), es[1..], u, fs, z);
      assert (es + fs)[1..] == es[1..] + fs;
    }
  }

  /** Process 0 has spawned 1, which has spawned 2, which has spawned 3, which runs. */
  predicate Line(s: State) {
    Four(s, Ready, Ready, Ready, Running, 3, 4) && s.ppid[1] == 0 && s.ppid[2] == 1 && s.ppid[3] == 2
  }

  /** Process 0 has spawned 1, which runs and spawns 2. */
  lemma LineBegins(s: State) returns (s3: State)
    requires Four(s, Running, Free, Free, Free, 0, 1)
    ensures Run(System(s, None()), [Spawn(true), Schedule, Spawn(true)], System(s3, None()))
    ensures Four(s3, Ready, Running, Ready, Free, 1, 3) && s3.ppid[1] == 0 && s3.ppid[2] == 1
  {
    hide ScheduleStep, SpawnStep, Run;
    Spawns(s);
    var s1 := StateStep(s, Spawn(true));
    FourSchedule(s1, Running, Ready, Free, Free, 0, 2, 1);
    var s2 := StateStep(s1, Schedule);
    Spawns(s2);
    s3 := StateStep(s2, Spawn(true));
    ThreeSteps(System(s, None()), Spawn(true), System(s1, None()), Schedule, System(s2, None()), Spawn(true),
               System(s3, None()));
  }

  lemma LineEnds(s3: State) returns (t: State)
    requires Four(s3, Ready, Running, Ready, Free, 1, 3) && s3.ppid[1] == 0 && s3.ppid[2] == 1
    ensures Run(System(s3, None()), [Schedule, Spawn(true), Schedule], System(t, None()))
    ensures Line(t)
  {
    hide ScheduleStep, SpawnStep, Run;
    FourSchedule(s3, Ready, Running, Ready, Free, 1, 3, 2);
    var s4 := StateStep(s3, Schedule);
    Spawns(s4);
    var s5 := StateStep(s4, Spawn(true));
    FourSchedule(s5, Ready, Ready, Running, Ready, 2, 4, 3);
    t := StateStep(s5, Schedule);
    ThreeSteps(System(s3, None()), Schedule, System(s4, None()), Spawn(true), System(s5, None()), Schedule,
               System(t, None()));
  }

  lemma LineUp(s: State) returns (t: State)
    requires Four(s, Running, Free, Free, Free, 0, 1)
    ensures Run(System(s, None()), [Spawn(true), Schedule, Spawn(true), Schedule, Spawn(true), Schedule],
                System(t, None()))
    ensures Line(t)
  {
    hide Run;
    var u := LineBegins(s);
    t := LineEnds(u);
    var es, fs := [Spawn(true), Schedule, Spawn(true)], [Schedule, Spawn(true), Schedule];
    RunsTogether(System(s, None()), es, System(u, None()), fs, System(t, None()));
    assert es + fs == [Spawn(true), Schedule, Spawn(true), Schedule, Spawn(true), Schedule];
  }

  /** Process 3 exits; 0 is next. */
  lemma ThirdExits(s: State)
    requires Line(s)
    ensures var t := StateStep(s, Exit(0));
            && Four(t, Running, Ready, Ready, Zombie, 0, 4) && t.ppid[1] == 0 && t.ppid[2] == 1 && t.ppid[3] == 2
  {
    hide ScheduleStep;
    FourSchedule(Died(s, 0), Ready, Ready, Ready, Zombie, 3, 4, 0);
  }

  /** Process 0, which has only the child 1, waits for any child; 1 is next. */
  lemma ZeroWaits(s: State)
    requires Four(s, Running, Ready, Ready, Zombie, 0, 4) && s.ppid[1] == 0 && s.ppid[2] == 1 && s.ppid[3] == 2
    ensures var t := StateStep(s, Wait(-1, false));
            && Four(t, Sleeping, Running, Ready, Zombie, 1, 4) && t.ppid[1] == 0 && t.ppid[2] == 1 && t.ppid[3] == 2
    ensures WaitStep(s, -1, false).1 == Asleep
  {
    hide ScheduleStep;
    assert IsChild(s, 0, 1);
    FourSchedule(s.(st := s.st[0 := Sleeping]), Sleeping, Ready, Ready, Zombie, 0, 4, 1);
  }

  /** Process 3 exits, process 0 waits and sleeps, and the timer gives 2 its turn. */
  lemma ThreeExits(s: State) returns (t: State)
    requires Line(s)
    ensures Run(System(s, None()), [Exit(0), Wait(-1, false), Schedule], System(t, None()[0 := For(-1)]))
    ensures Four(t, Sleeping, Ready, Running, Zombie, 2, 4) && t.ppid[1] == 0 && t.ppid[2] == 1 && t.ppid[3] == 2
  {
    hide Run, ScheduleStep, ExitStep, WaitStep;
    ThirdExits(s);
    var s1 := StateStep(s, Exit(0));
    ZeroWaits(s1);
    var s2 := StateStep(s1, Wait(-1, false));
    FourSchedule(s2, Sleeping, Running, Ready, Zombie, 1, 4, 2);
    t := StateStep(s2, Schedule);
    var w := None()[0 := For(-1)];
    ThreeSteps(System(s, None()), Exit(0), System(s1, None()), Wait(-1, false), System(s2, w), Schedule, System(t, w));
  }

  /** Process 2, the parent of the zombie 3, exits: only its own parent, 1, would be woken. */
  lemma SecondExits(s: State)
    requires Four(s, Sleeping, Ready, Running, Zombie, 2, 4) && s.ppid[1] == 0 && s.ppid[2] == 1 && s.ppid[3] == 2
    ensures var t := StateStep(s, Exit(0));
            t.st[0] == Sleeping && t.st[3] == Zombie && t.ppid[3] == 0
  {
    hide ScheduleStep;
    FourSchedule(Died(s, 0), Sleeping, Ready, Zombie, Zombie, 2, 4, 1);
  }

  /** Process 0 sleeps beside a zombie: 3, a child of 2, has exited; 0 waits for any child and sleeps; 2 exits, 3
      becomes a child of 0, and only 1, the parent of 2, would have been woken. */
  lemma ZombieMissed(s: State) returns (z: System)
    requires Four(s, Running, Free, Free, Free, 0, 1)
    ensures Run(System(s, None()), [Spawn(true), Schedule, Spawn(true), Schedule, Spawn(true), Schedule,
                                    Exit(0), Wait(-1, false), Schedule, Exit(0)], z)
    ensures Shaped(z.s) && |z.waits| == MAXPROC && z.s.st[0] == Sleeping && z.waits[0] == For(-1)
    ensures IsChild(z.s, 0, 3) && z.s.st[3] == Zombie && !NothingMissed(z, 0)
  {
    hide Run, ExitStep;
    var u := LineUp(s);
    var t := ThreeExits(u);
    SecondExits(t);
    var w := None()[0 := For(-1)];
    z := System(StateStep(t, Exit(0)), w);
    var es := [Spawn(true), Schedule, Spawn(true), Schedule, Spawn(true), Schedule];
    var fs := [Exit(0), Wait(-1, false), Schedule];
    OneStep(System(t, w), Exit(0), z);
    RunsTogether(System(u, None()), fs, System(t, w), [Exit(0)], z);
    RunsTogether(System(s, None()), es, System(u, None()), fs + [Exit(0)], z);
    assert es + (fs + [Exit(0)]) == [Spawn(true), Schedule, Spawn(true), Schedule, Spawn(true), Schedule,
                                     Exit(0), Wait(-1, false), Schedule, Exit(0)];
    assert IsChild(z.s, 0, 3) && Matches(-1, 3);
  }

  lemma OneStep(y: System, e: Event, z: System)
    requires Goes(y, e, z)
    ensures Run(y, [e], z)
  {
    assert Run(z, [], z);
    Follows(y, e, z, [], z);
    assert [e] + [] == [e];
  }

  // ----- vfork() by process 1

  /** 1, a child of 0, has spawned 2 and vforks 3. */
  lemma SecondForks(s: State)
    requires Four(s, Ready, Running, Ready, Free, 1, 3) && s.ppid[1] == 0 && s.ppid[2] == 1
    ensures var t := StateStep(s, DoVfork);
            && Four(t, Ready, Vfork, Ready, Running, 3, 4) && t.ppid[2] == 1 && t.ppid[3] == 1
            && Shaped(s) && VforkStep(s).1 == 3
  {
    assert AllocPid(s.st, 3, MAXPROC) == (3, 4);
  }

  /** The timer gives 0 and then 2 its turn. */
  lemma SecondTurns(s: State) returns (t: State)
    requires Four(s, Ready, Running, Ready, Free, 1, 3) && s.ppid[1] == 0 && s.ppid[2] == 1
    ensures Run(System(s, None()), [DoVfork, Schedule, Schedule], System(t, None()))
    ensures Four(t, Ready, Vfork, Running, Ready, 2, 4) && t.ppid[2] == 1 && t.ppid[3] == 1
    ensures Shaped(s) && VforkStep(s).1 == 3
  {
    hide Run, ScheduleStep, VforkStep;
    SecondForks(s);
    var s1 := StateStep(s, DoVfork);
    FourSchedule(s1, Ready, Vfork, Ready, Running, 3, 4, 0);
    var s2 := StateStep(s1, Schedule);
    FourSchedule(s2, Running, Vfork, Ready, Ready, 0, 4, 2);
    t := StateStep(s2, Schedule);
    ThreeSteps(System(s, None()), DoVfork, System(s1, None()), Schedule, System(s2, None()), Schedule,
               System(t, None()));
  }

  lemma OtherExits(s: State)
    requires Four(s, Ready, Vfork, Running, Ready, 2, 4) && s.ppid[2] == 1 && s.ppid[3] == 1
    ensures var t := StateStep(s, Exit(0));
            Shaped(t) && t.cur == 1 && t.st[1] == Running && t.vret[1] == 2 && t.st[3] == Ready
  {
  }

  /** Process 1 gets the pid of a child that it spawned before: 0 spawns 1, which spawns 2 and vforks 3; the timer
      switches to 0 and to 2, and the exit of 2 resumes 1 while 3 still has to run. */
  lemma OtherChildReturns(s: State) returns (y: State, z: System)
    requires Four(s, Running, Free, Free, Free, 0, 1)
    ensures Run(System(s, None()), [Spawn(true), Schedule, Spawn(true)], System(y, None()))
    ensures Shaped(y) && y.cur == 1 && VforkStep(y).1 == 3
    ensures Run(System(y, None()), [DoVfork, Schedule, Schedule, Exit(0)], z)
    ensures Shaped(z.s) && z.s.cur == 1 && z.s.st[1] == Running && z.s.vret[1] == 2 && z.s.st[3] == Ready
  {
    hide Run, VforkStep, ExitStep;
    y := LineBegins(s);
    var t := SecondTurns(y);
    OtherExits(t);
    z := System(StateStep(t, Exit(0)), None());
    OneStep(System(t, None()), Exit(0), z);
    RunsTogether(System(y, None()), [DoVfork, Schedule, Schedule], System(t, None()), [Exit(0)], z);
    assert [DoVfork, Schedule, Schedule] + [Exit(0)] == [DoVfork, Schedule, Schedule, Exit(0)];
  }

  // ----- vfork() by process 0

  lemma FirstForks(s: State)
    requires Four(s, Running, Free, Free, Free, 0, 1)
    ensures var t := StateStep(s, DoVfork);
            Four(t, Vfork, Running, Free, Free, 1, 2) && t.ppid[1] == 0 && Shaped(s) && VforkStep(s).1 == 1
  {
    assert AllocPid(s.st, 1, MAXPROC) == (1, 2);
  }

  /** 0 vforks 1, which spawns 2 and is preempted. */
  lemma OrphanBegins(s: State) returns (t: State)
    requires Four(s, Running, Free, Free, Free, 0, 1)
    ensures Run(System(s, None()), [DoVfork, Spawn(true), Schedule], System(t, None()))
    ensures Four(t, Vfork, Ready, Running, Free, 2, 3) && t.ppid[1] == 0 && t.ppid[2] == 1
  {
    hide Run, ScheduleStep, SpawnStep, VforkStep;
    FirstForks(s);
    var s1 := StateStep(s, DoVfork);
    Spawns(s1);
    var s2 := StateStep(s1, Spawn(true));
    FourSchedule(s2, Vfork, Running, Ready, Free, 1, 3, 2);
    t := StateStep(s2, Schedule);
    ThreeSteps(System(s, None()), DoVfork, System(s1, None()), Spawn(true), System(s2, None()), Schedule,
               System(t, None()));
  }

  /** 2, the parent of 3, exits. */
  lemma OrphanMade(s: State)
    requires Four(s, Vfork, Ready, Running, Ready, 2, 4) && s.ppid[1] == 0 && s.ppid[2] == 1 && s.ppid[3] == 2
    ensures var t := StateStep(s, Exit(0));
            Four(t, Vfork, Ready, Zombie, Running, 3, 4) && t.ppid[1] == 0 && t.ppid[2] == 1 && t.ppid[3] == 0
  {
    hide ScheduleStep;
    FourSchedule(Died(s, 0), Vfork, Ready, Zombie, Ready, 2, 4, 3);
  }

  /** 3, now a child of 0, exits. */
  lemma OrphanExits(s: State)
    requires Four(s, Vfork, Ready, Zombie, Running, 3, 4) && s.ppid[1] == 0 && s.ppid[2] == 1 && s.ppid[3] == 0
    ensures var t := StateStep(s, Exit(0));
            Shaped(t) && t.cur == 0 && t.st[0] == Running && t.vret[0] == 3 && t.st[1] == Ready
  {
  }

  lemma OrphanEnds(s: State) returns (t: State)
    requires Four(s, Vfork, Ready, Running, Free, 2, 3) && s.ppid[1] == 0 && s.ppid[2] == 1
    ensures Run(System(s, None()), [Spawn(true), Exit(0), Exit(0)], System(t, None()))
    ensures Shaped(t) && t.cur == 0 && t.st[0] == Running && t.vret[0] == 3 && t.st[1] == Ready
  {
    hide Run, SpawnStep, ExitStep;
    Spawns(s);
    var s1 := StateStep(s, Spawn(true));
    OrphanMade(s1);
    var s2 := StateStep(s1, Exit(0));
    OrphanExits(s2);
    t := StateStep(s2, Exit(0));
    ThreeSteps(System(s, None()), Spawn(true), System(s1, None()), Exit(0), System(s2, None()), Exit(0),
               System(t, None()));
  }

  /** Process 0 gets another pid than its child's although it had no other child: it vforks 1, which spawns 2, which
      spawns 3; 2 exits, 3 becomes a child of 0, and its exit resumes 0 while 1 still has to run. */
  lemma OrphanReturns(s: State) returns (z: System)
    requires Four(s, Running, Free, Free, Free, 0, 1)
    ensures VforkStep(s).1 == 1
    ensures Run(System(s, None()), [DoVfork, Spawn(true), Schedule, Spawn(true), Exit(0), Exit(0)], z)
    ensures Shaped(z.s) && z.s.cur == 0 && z.s.st[0] == Running && z.s.vret[0] == 3 && z.s.st[1] == Ready
  {
    hide Run, VforkStep;
    FirstForks(s);
    var u := OrphanBegins(s);
    var t := OrphanEnds(u);
    z := System(t, None());
    RunsTogether(System(s, None()), [DoVfork, Spawn(true), Schedule], System(u, None()),
                 [Spawn(true), Exit(0), Exit(0)], z);
    assert [DoVfork, Spawn(true), Schedule] + [Spawn(true), Exit(0), Exit(0)]
           == [DoVfork, Spawn(true), Schedule, Spawn(true), Exit(0), Exit(0)];
  }
}
