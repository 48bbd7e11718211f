/** Signal delivery of kernel/proc.c: which pending signal is acted on, the frame built on the user stack for a
  handler, the return from it, and why nested handlers do not disturb each other. */
module Signals {
  import opened Words

  const NSIG: int := 21
  const SIGKILL: int := 9
  const SIGCHLD: int := 17
  const SIGCONT: int := 18
  const SIGSTOP: int := 19
  const SIGTSTP: int := 20
  const SIG_DFL: int := 0
  const SIG_IGN: int := 1

  const FRAME_SIZE: int := 84    // SIG_FRAME_SIZE
  const SAVED: int := 12         // SIG_FRAME_SAVED
  const KFRAME: int := 70        // KFRAME_SIZE: USP, 15 registers, SR, PC
  const PC_AT: int := 66

  // ----- the frame on the user stack

  function Usp(frame: seq<byte>): u32
    requires |frame| == KFRAME
  {
    Val(Get(frame, 0))
  }

  /** (usp - SIG_FRAME_SIZE) & ~1 */
  function FrameBase(usp: u32): (b: int)
    requires usp >= FRAME_SIZE
    ensures 0 <= b <= usp - FRAME_SIZE
  {
    (usp - FRAME_SIZE) / 2 * 2
  }

  /** `n` bytes of `src` copied to address `a`. */
  function Blit(mem: seq<byte>, a: int, src: seq<byte>): (r: seq<byte>)
    requires 0 <= a && a + |src| <= |mem|
    ensures |r| == |mem| && forall x :: 0 <= x < |mem| ==> r[x] == if a <= x < a + |src| then src[x - a] else mem[x]
  {
    mem[..a] + src + mem[a + |src|..]
  }

  function TrampolineCode(): seq<byte> {
    [0x70, 0x77, 0x4E, 0x40]     // moveq #119,%d0; trap #0
  }

  /** The user memory after the frame is built at `b`. */
  ghost function Built(mem: seq<byte>, b: int, sig: u32, frame: seq<byte>): (r: seq<byte>)
    requires 0 <= b && b + SAVED + KFRAME <= |mem| && |frame| == KFRAME && b + 8 < T32
    ensures |r| == |mem|
  {
    Blit(Head(mem, b, sig), b + SAVED, frame)
  }

  /** The return address, the argument of the handler, and the trampoline. */
  ghost function Head(mem: seq<byte>, b: int, sig: u32): (r: seq<byte>)
    requires 0 <= b && b + SAVED <= |mem| && b + 8 < T32
    ensures |r| == |mem|
  {
    Blit(Put(Put(mem, b, Bytes(b + 8)), b + 4, Bytes(sig)), b + 8, TrampolineCode())
  }

  /** The saved part of the frame at `b`. */
  function SavedAt(mem: seq<byte>, b: int): (r: seq<byte>)
    requires 0 <= b && b + SAVED + KFRAME <= |mem|
    ensures |r| == KFRAME
  {
    mem[b + SAVED..b + SAVED + KFRAME]
  }

  /** The kernel frame that starts the handler. */
  ghost function Redirected(frame: seq<byte>, b: u32, handler: u32): (r: seq<byte>)
    requires |frame| == KFRAME
    ensures |r| == KFRAME && Usp(r) == b
  {
    Put(Put(frame, 0, Bytes(b)), PC_AT, Bytes(handler))
  }

  /** The frame saves the kernel frame whole, and touches nothing outside itself. */
  lemma BuiltSaves(mem: seq<byte>, b: int, sig: u32, frame: seq<byte>)
    requires 0 <= b && b + SAVED + KFRAME <= |mem| && |frame| == KFRAME && b + 8 < T32
    ensures var m := Built(mem, b, sig, frame);
            && SavedAt(m, b) == frame
            && (forall x :: 0 <= x < |mem| && !(b <= x < b + SAVED + KFRAME) ==> m[x] == mem[x])
            && Get(m, b) == Bytes(b + 8) && Get(m, b + 4) == Bytes(sig) && m[b + 8..b + 12] == TrampolineCode()
  {
  }

  // ----- nested handlers

  /** A handler in progress: where its frame is, and the kernel frame that was saved in it. */
  datatype Level = Level(base: int, saved: seq<byte>)

  /** User memory, the kernel frame of the process, and the handlers in progress, the innermost last. */
  datatype Machine = Machine(mem: seq<byte>, frame: seq<byte>, levels: seq<Level>)

  /** The address that the innermost handler stays below. */
  function Limit(m: Machine): int {
    if m.levels == [] then |m.mem| else m.levels[|m.levels| - 1].base + SAVED
  }

  datatype Event =
    | Deliver(sig: u32, handler: u32)                      // a handler is started
    | User(mem: seq<byte>, frame: seq<byte>)               // the process runs up to its next trap
    | Return                                               // sigreturn

  /** A handler starts with its stack in memory; while it runs it writes only below its saved frame and keeps the
      stack pointer there; it returns with the stack pointer where its own return address was popped. */
  predicate Enabled(m: Machine, e: Event)
    requires |m.frame| == KFRAME
  {
    match e
    case Deliver(_, _) => FRAME_SIZE <= Usp(m.frame) <= Limit(m) && Usp(m.frame) <= |m.mem| <= T32
    case User(mem, frame) =>
      && |mem| == |m.mem| && |frame| == KFRAME && (m.levels != [] ==> Usp(frame) <= Limit(m))
      && forall x :: Limit(m) <= x < |mem| ==> mem[x] == m.mem[x]
    case Return => m.levels != [] && Usp(m.frame) == m.levels[|m.levels| - 1].base + 4
  }

  ghost predicate Valid(m: Machine) {
    && |m.frame| == KFRAME
    && (forall i :: 0 <= i < |m.levels| ==> Intact(m.mem, m.levels[i]))
    && (forall i, j :: 0 <= i < j < |m.levels| ==> m.levels[j].base + SAVED + KFRAME <= m.levels[i].base + SAVED)
  }

  /** The frame of the level still holds what was saved. */
  predicate Intact(mem: seq<byte>, l: Level) {
    0 <= l.base && l.base + SAVED + KFRAME <= |mem| && l.saved == SavedAt(mem, l.base)
  }

  ghost function Step(m: Machine, e: Event): Machine
    requires Valid(m) && Enabled(m, e)
  {
    match e
    case Deliver(sig, handler) =>
      var b := FrameBase(Usp(m.frame));
      Machine(Built(m.mem, b, sig, m.frame), Redirected(m.frame, b, handler), m.levels + [Level(b, m.frame)])
    case User(mem, frame) => Machine(mem, frame, m.levels)
    case Return =>
      var b := Usp(m.frame) - 4;
      Machine(m.mem, SavedAt(m.mem, b), m.levels[..|m.levels| - 1])
  }

  /** Memory changes below the limit only. */
  lemma StaysIntact(m: Machine, mem: seq<byte>, i: nat)
    requires Valid(m) && i < |m.levels| && |mem| == |m.mem| && forall x :: Limit(m) <= x < |mem| ==> mem[x] == m.mem[x]
    ensures Intact(mem, m.levels[i])
  {
    var l, n := m.levels[i], |m.levels| - 1;
    assert i < n ==> m.levels[n].base + SAVED + KFRAME <= l.base + SAVED;
    assert Intact(m.mem, l);
    assert SavedAt(mem, l.base) == SavedAt(m.mem, l.base);
  }

  /** The new frame lies below all saved ones. */
  lemma DeliverBelow(m: Machine, i: nat)
    requires Valid(m) && FRAME_SIZE <= Usp(m.frame) <= Limit(m) && Usp(m.frame) <= |m.mem| <= T32 && i < |m.levels|
    ensures FrameBase(Usp(m.frame)) + SAVED + KFRAME <= m.levels[i].base + SAVED
  {
    var n := |m.levels| - 1;
    assert i < n ==> m.levels[n].base + SAVED + KFRAME <= m.levels[i].base + SAVED;
  }

  lemma DeliverIntact(m: Machine, sig: u32, handler: u32, i: nat)
    requires Valid(m) && Enabled(m, Deliver(sig, handler)) && i <= |m.levels|
    ensures var t := Step(m, Deliver(sig, handler)); Intact(t.mem, t.levels[i])
  {
    hide Built, SavedAt, Redirected;
    var b := FrameBase(Usp(m.frame));
    BuiltSaves(m.mem, b, sig, m.frame);
    if i < |m.levels| {
      StaysIntact(m, Built(m.mem, b, sig, m.frame), i);
    }
  }

  lemma DeliverKeeps(m: Machine, sig: u32, handler: u32)
    requires Valid(m) && Enabled(m, Deliver(sig, handler))
    ensures Valid(Step(m, Deliver(sig, handler)))
  {
    hide Built, SavedAt, Redirected, Intact, FrameBase;
    var t := Step(m, Deliver(sig, handler));
    forall i | 0 <= i < |t.levels|
      ensures Intact(t.mem, t.levels[i])
    {
      DeliverIntact(m, sig, handler, i);
    }
    forall i | 0 <= i < |m.levels|
      ensures t.levels[|m.levels|].base + SAVED + KFRAME <= t.levels[i].base + SAVED
    {
      DeliverBelow(m, i);
    }
  }

  lemma StepKeeps(m: Machine, e: Event)
    requires Valid(m) && Enabled(m, e)
    ensures Valid(Step(m, e))
  {
    match e
    case Deliver(sig, handler) => DeliverKeeps(m, sig, handler);
    case User(mem, frame) =>
      forall i | 0 <= i < |m.levels|
        ensures Intact(mem, m.levels[i])
      {
        StaysIntact(m, mem, i);
      }
    case Return =>
  }

  /** The run from m to z, in which more than `depth` handlers are in progress all the time. */
  ghost predicate Run(m: Machine, es: seq<Event>, z: Machine, depth: nat)
    decreases |es|
  {
    && |m.levels| > depth
    && if es == [] then m == z else Valid(m) && Enabled(m, es[0]) && Run(Step(m, es[0]), es[1..], z, depth)
  }

  /** The outermost `depth` + 1 handlers are the same all the time. */
  lemma {:induction false} RunKeeps(m: Machine, es: seq<Event>, z: Machine, depth: nat)
    requires Valid(m) && Run(m, es, z, depth)
    ensures Valid(z) && |z.levels| > depth && z.levels[..depth + 1] == m.levels[..depth + 1]
    decreases |es|
  {
    if es != [] {
      StepKeeps(m, es[0]);
      RunKeeps(Step(m, es[0]), es[1..], z, depth);
    }
  }

  /** However deep handlers are nested and whatever they do in the meantime, the return from a handler restores
      exactly the kernel frame (stack pointer, registers, status, program counter) that was there when it was started,
      and leaves the handlers around it intact. */
  lemma HandlerReturns(m: Machine, sig: u32, handler: u32, es: seq<Event>, z: Machine) returns (w: Machine)
    requires Valid(m) && Enabled(m, Deliver(sig, handler))
    requires Run(Step(m, Deliver(sig, handler)), es, z, |m.levels|)
    requires |z.frame| == KFRAME && |z.levels| == |m.levels| + 1 && Enabled(z, Return)
    ensures Valid(z) && w == Step(z, Return) && w.frame == m.frame && w.levels == m.levels && Valid(w)
  {
    DeliverKeeps(m, sig, handler);
    DeliverLevels(m, sig, handler);
    w := ReturnsTo(m.levels, Level(FrameBase(Usp(m.frame)), m.frame), Step(m, Deliver(sig, handler)), es, z);
  }

  lemma ReturnsTo(ls: seq<Level>, l: Level, d: Machine, es: seq<Event>, z: Machine) returns (w: Machine)
    requires Valid(d) && d.levels == ls + [l] && Run(d, es, z, |ls|)
    requires |z.frame| == KFRAME && |z.levels| == |ls| + 1 && Enabled(z, Return)
    ensures Valid(z) && w == Step(z, Return) && w.frame == l.saved && w.levels == ls && Valid(w)
  {
    RunKeeps(d, es, z, |ls|);
    TopLevel(ls, l, z.levels);
    StepKeeps(z, Return);
    ReturnFrame(z);
    w := Step(z, Return);
  }

  lemma DeliverLevels(m: Machine, sig: u32, handler: u32)
    requires Valid(m) && Enabled(m, Deliver(sig, handler))
    ensures Step(m, Deliver(sig, handler)).levels == m.levels + [Level(FrameBase(Usp(m.frame)), m.frame)]
  {
  }

  lemma ReturnFrame(z: Machine)
    requires Valid(z) && Enabled(z, Return)
    ensures var n := |z.levels| - 1;
            Step(z, Return).frame == z.levels[n].saved && Step(z, Return).levels == z.levels[..n]
  {
    var l := z.levels[|z.levels| - 1];
    assert Intact(z.mem, l);
  }

  lemma TopLevel(ls: seq<Level>, l: Level, zs: seq<Level>)
    requires |zs| == |ls| + 1 && zs[..|ls| + 1] == (ls + [l])[..|ls| + 1]
    ensures zs == ls + [l] && zs[..|ls|] == ls && zs[|ls|] == l
  {
    assert zs[..|ls| + 1] == zs && (ls + [l])[..|ls| + 1] == ls + [l];
  }

  // ----- which signal

  /** The pending signals and the handlers of a process. */
  datatype Signals = Signals(pending: seq<bool>, handlers: seq<u32>)

  datatype Action = Nothing | Killed(code: int) | Handled(sig: u32, handler: u32)

  predicate Shaped(s: Signals) {
    |s.pending| == |s.handlers| == NSIG
  }

  /** What one pending signal leads to: the end of the process, a stop, a handler, or nothing. */
  datatype Effect = Ends | Stops | Calls(handler: u32) | Passes

  function EffectOf(sig: int, handler: u32): Effect {
    if sig == SIGKILL then Ends
    else if sig == SIGSTOP then Stops
    else if handler == SIG_IGN then Passes
    else if handler != SIG_DFL then Calls(handler)
    else if sig == SIGCHLD || sig == SIGCONT then Passes
    else if sig == SIGTSTP then Stops
    else Ends
  }

  /** The loop of sig_deliver() from `sig` on: the new state, what is done, and how often the process stops. */
  function Scan(s: Signals, sig: nat): (r: (Signals, Action, nat))
    requires Shaped(s) && 1 <= sig <= NSIG
    ensures Shaped(r.0)
    decreases NSIG - sig
  {
    if sig == NSIG then (s, Nothing, 0)
    else if !s.pending[sig] then Scan(s, sig + 1)
    else
      var t := s.(pending := s.pending[sig := false]);
      match EffectOf(sig, s.handlers[sig])
      case Ends => (t, Killed(128 + sig), 0)
      case Calls(h) => (t.(handlers := t.handlers[sig := SIG_DFL]), Handled(sig, h), 0)
      case Stops => var (u, a, n) := Scan(t, sig + 1); (u, a, n + 1)
      case Passes => Scan(t, sig + 1)
  }

  lemma ScanEnd(s: Signals)
    requires Shaped(s)
    ensures Scan(s, NSIG) == (s, Nothing, 0)
  {
  }

  function AfterStops(r: (Signals, Action, nat), n: nat): (Signals, Action, nat) {
    (r.0, r.1, r.2 + n)
  }

  /** A signal that ends the process: SIGKILL, or one with the default handler whose default is neither to do nothing
      nor to stop. */
  predicate Ending(s: Signals, k: nat)
    requires Shaped(s) && k < NSIG
  {
    k == SIGKILL || (s.handlers[k] == SIG_DFL && k != SIGSTOP && k != SIGCHLD && k != SIGCONT && k != SIGTSTP)
  }

  /** A signal that has a handler and can be caught. */
  predicate Caught(s: Signals, k: nat)
    requires Shaped(s) && k < NSIG
  {
    s.handlers[k] != SIG_DFL && s.handlers[k] != SIG_IGN && k != SIGKILL && k != SIGSTOP
  }

  /** A signal that stops the process: SIGSTOP, or SIGTSTP with the default handler. */
  predicate Stopping(s: Signals, k: nat)
    requires Shaped(s) && k < NSIG
  {
    k == SIGSTOP || (k == SIGTSTP && s.handlers[k] == SIG_DFL)
  }

  /** Signal k is pending from `sig` on and ends the process or is caught. */
  predicate Acts(s: Signals, sig: nat, k: nat)
    requires Shaped(s)
  {
    sig <= k < NSIG && s.pending[k] && (Ending(s, k) || Caught(s, k))
  }

  predicate LowestActs(s: Signals, sig: nat, k: int)
    requires Shaped(s)
  {
    0 <= k && Acts(s, sig, k) && forall j: nat :: sig <= j < k ==> !Acts(s, sig, j)
  }

  /** The pending stops from `sig` up to `k`. */
  function StopsBelow(s: Signals, sig: nat, k: int): set<nat>
    requires Shaped(s)
  {
    set j: nat | sig <= j < NSIG && j < k && s.pending[j] && Stopping(s, j)
  }

  /** The pending signals from `sig` to `k` are used up, all others stay pending. */
  predicate UsedUp(s: Signals, sig: nat, k: int, t: Signals)
    requires Shaped(s) && Shaped(t)
  {
    forall j: nat :: j < NSIG ==> t.pending[j] == (s.pending[j] && !(sig <= j <= k))
  }

  /** What sig_deliver() makes of the lowest signal that acts, or of none. */
  ghost predicate Delivered(s: Signals, sig: nat, t: Signals, a: Action, stops: nat)
    requires Shaped(s) && Shaped(t)
  {
    && (forall k: nat :: LowestActs(s, sig, k) ==>
          && (if Ending(s, k) then a == Killed(128 + k) && t.handlers == s.handlers
              else a == Handled(k, s.handlers[k]) && t.handlers == s.handlers[k := SIG_DFL])
          && UsedUp(s, sig, k, t) && stops == |StopsBelow(s, sig, k)|)
    && ((forall k: nat :: !Acts(s, sig, k)) ==>
          a == Nothing && t.handlers == s.handlers && UsedUp(s, sig, NSIG, t) && stops == |StopsBelow(s, sig, NSIG)|)
  }

  /** A signal that does not act is passed over; it counts if it stops the process. */
  lemma PassedOver(s: Signals, u: Signals, sig: nat, next: nat, t: Signals, a: Action, stops: nat, n: nat)
    requires Shaped(s) && Shaped(t) && Shaped(u) && next == sig + 1 <= NSIG && !Acts(s, sig, sig)
    requires u == s.(pending := s.pending[sig := false])
    requires Delivered(u, next, t, a, n) && stops == n + if s.pending[sig] && Stopping(s, sig) then 1 else 0
    ensures Delivered(s, sig, t, a, stops)
  {
    hide StopsBelow, Stopping, UsedUp, Ending, Caught;
    forall j: nat
      ensures Acts(u, next, j) <==> Acts(s, sig, j)
    {
      assert j < NSIG && j != sig ==> u.pending[j] == s.pending[j];
      SameHandlers(s, u, j);
    }
    forall k: nat | LowestActs(s, sig, k)
      ensures LowestActs(u, next, k) && (Ending(u, k) <==> Ending(s, k))
      ensures UsedUp(u, next, k, t) ==> UsedUp(s, sig, k, t)
      ensures |StopsBelow(s, sig, k)| ==
              |StopsBelow(u, next, k)| + if s.pending[sig] && Stopping(s, sig) then 1 else 0
    {
      assert Acts(s, sig, k) && k != sig;
      assert forall j: nat :: next <= j < k ==> !Acts(u, next, j);
      OneStop(s, u, sig, k);
      OneUsed(s, u, sig, k, t);
      SameHandlers(s, u, k);
    }
    OneStop(s, u, sig, NSIG);
    OneUsed(s, u, sig, NSIG, t);
  }

  lemma SameHandlers(s: Signals, u: Signals, j: nat)
    requires Shaped(s) && Shaped(u) && u.handlers == s.handlers
    ensures j < NSIG ==>
      (Stopping(u, j) <==> Stopping(s, j)) && (Ending(u, j) <==> Ending(s, j)) && (Caught(u, j) <==> Caught(s, j))
  {
  }

  lemma OneUsed(s: Signals, u: Signals, sig: nat, k: nat, t: Signals)
    requires Shaped(s) && Shaped(u) && Shaped(t) && sig < NSIG && u == s.(pending := s.pending[sig := false]) && sig < k
    ensures UsedUp(u, sig + 1, k, t) ==> UsedUp(s, sig, k, t)
  {
  }

  lemma OneStop(s: Signals, u: Signals, sig: nat, k: nat)
    requires Shaped(s) && Shaped(u) && sig < NSIG && u == s.(pending := s.pending[sig := false]) && sig < k
    ensures |StopsBelow(s, sig, k)| == |StopsBelow(u, sig + 1, k)| + if s.pending[sig] && Stopping(s, sig) then 1 else 0
  {
    hide Stopping;
    var all, rest := StopsBelow(s, sig, k), StopsBelow(u, sig + 1, k);
    forall j: nat
      ensures j in all <==> j in rest || (j == sig && s.pending[sig] && Stopping(s, sig))
    {
      assert j < NSIG && j != sig ==> u.pending[j] == s.pending[j] && (Stopping(u, j) <==> Stopping(s, j)) by {
        SameHandlers(s, u, j);
      }
    }
    assert sig !in rest;
    assert all == if s.pending[sig] && Stopping(s, sig) then rest + {sig} else rest;
  }

  lemma {:induction false} ScanDelivers(s: Signals, sig: nat)
    requires Shaped(s) && 1 <= sig <= NSIG
    ensures var (t, a, stops) := Scan(s, sig); Delivered(s, sig, t, a, stops)
    decreases NSIG - sig
  {
    if sig == NSIG {
      assert StopsBelow(s, sig, NSIG) == {};
      return;
    }
    var u := s.(pending := s.pending[sig := false]);
    if s.pending[sig] && Acts(s, sig, sig) {
      assert StopsBelow(s, sig, sig) == {};
      return;
    }
    if !s.pending[sig] {
      assert u == s by { assert s.pending[sig := false] == s.pending; }
    }
    ScanDelivers(u, sig + 1);
    var (t, a, n) := Scan(u, sig + 1);
    PassedOver(s, u, sig, sig + 1, t, a, if s.pending[sig] && Stopping(s, sig) then n + 1 else n, n);
  }

  lemma LowestExists(s: Signals, sig: nat, k: nat) returns (j: nat)
    requires Shaped(s) && Acts(s, sig, k)
    ensures LowestActs(s, sig, j)
  {
    j := sig;
    while !Acts(s, sig, j)
      invariant sig <= j <= k && forall i: nat :: sig <= i < j ==> !Acts(s, sig, i)
      decreases k - j
    {
      j := j + 1;
    }
  }

  /** In terms of signal numbers and handlers: the process ends by signal k, or starts the handler h of it, exactly when
      k is the lowest pending signal that ends the process or is caught, and ends it, or is caught by that handler. */
  lemma ScanActs(s: Signals, k: nat, h: u32)
    requires Shaped(s) && k < NSIG
    ensures var (t, a, stops) := Scan(s, 1);
            && (a == Killed(128 + k) <==> LowestActs(s, 1, k) && Ending(s, k))
            && (a == Handled(k, h) <==> LowestActs(s, 1, k) && Caught(s, k) && h == s.handlers[k])
            && (a == Nothing <==> forall j: nat :: !Acts(s, 1, j))
            && Delivered(s, 1, t, a, stops)
  {
    ScanDelivers(s, 1);
    if j: nat :| Acts(s, 1, j) {
      var least := LowestExists(s, 1, j);
      assert least != k ==> !LowestActs(s, 1, k);
    }
  }

  // ----- the code

  class Process {
    const mem: array<byte>       // user memory
    const frame: array<byte>     // the frame on the kernel stack
    var pending: seq<bool>
    var handlers: seq<u32>

    ghost function S(): Signals
      reads this
    {
      Signals(pending, handlers)
    }

    ghost predicate Shape()
      reads this
    {
      mem != frame && frame.Length == KFRAME && Shaped(S()) && mem.Length <= T32
    }

    /** The stack has room for a signal frame. */
    ghost predicate Room()
      reads this, frame
      requires frame.Length == KFRAME
    {
      FRAME_SIZE <= Usp(frame[..]) <= mem.Length
    }

    constructor (mem: array<byte>, frame: array<byte>)
      requires mem != frame && frame.Length == KFRAME && mem.Length <= T32
      ensures Shape() && this.mem == mem && this.frame == frame && forall k :: 0 <= k < NSIG ==>
        !pending[k] && handlers[k] == SIG_DFL
    {
      this.mem := mem;
      this.frame := frame;
      pending := seq(NSIG, _ => false);
      handlers := seq(NSIG, _ => Default());
    }

    static function Default(): u32 {
      SIG_DFL
    }

    method ReadUsp() returns (v: u32)
      requires frame.Length == KFRAME
      ensures v == Usp(frame[..])
    {
      v := Val(Quad(frame[0], frame[1], frame[2], frame[3]));
    }

    /** The part of sig_deliver() for a user handler. */
    method StartHandler(sig: u32, handler: u32)
      requires Shape() && Room()
      modifies mem, frame
      ensures Started(old(mem[..]), old(frame[..]), mem[..], frame[..], sig, handler)
    {
      var usp := ReadUsp();
      var sf := FrameBase(usp);
      BuildFrame(mem, sf, sig, frame[..]);
      Store(frame, 0, sf);
      Store(frame, PC_AT, handler);
    }

    /** sig_deliver(): what was done, and how often the process was stopped on the way. */
    method Deliver() returns (a: Action, stops: nat)
      requires Shape() && Room()
      modifies this`pending, this`handlers, mem, frame
      ensures Shape() && (S(), a, stops) == Scan(old(S()), 1) && Delivered(old(S()), 1, S(), a, stops)
      ensures if a.Handled? then Started(old(mem[..]), old(frame[..]), mem[..], frame[..], a.sig, a.handler)
              else mem[..] == old(mem[..]) && frame[..] == old(frame[..])
    {
      ScanDelivers(S(), 1);
      hide Delivered;
      var sig: u32;
      var h;
      a, sig, h, stops := ScanLoop();
      if a.Handled? {
        StartHandler(sig, h);
      }
    }

    /** The loop, up to the start of a handler. */
    method ScanLoop() returns (a: Action, sig: u32, h: u32, stops: nat)
      requires Shaped(S())
      modifies this`pending, this`handlers
      ensures Shaped(S()) && (S(), a, stops) == Scan(old(S()), 1) && (a.Handled? ==> a == Handled(sig, h))
    {
      hide Scan, EffectOf;
      sig, h, stops := 1, 0, 0;
      while sig < NSIG
        invariant 1 <= sig <= NSIG && Shaped(S())
        invariant Scan(old(S()), 1) == AfterStops(Scan(S(), sig), stops)
        decreases NSIG - sig
      {
        var found, stop;
        found, a, h, stop := ScanOne(sig);
        if found {
          return;
        }
        stops := stops + stop;
        sig := sig + 1;
      }
      ScanEnd(S());
      a := Nothing;
    }

    /** One turn of the loop: whether it ends it, or else how often the process stops in it. */
    method ScanOne(sig: u32) returns (found: bool, a: Action, h: u32, stop: nat)
      requires Shaped(S()) && 1 <= sig < NSIG
      modifies this`pending, this`handlers
      ensures Shaped(S()) && (found && a.Handled? ==> a == Handled(sig, h))
      ensures Scan(old(S()), sig) == if found then (S(), a, 0) else AfterStops(Scan(S(), sig + 1), stop)
    {
      found, a, h, stop := false, Nothing, 0, 0;
      if !pending[sig] {
        return;
      }
      pending := pending[sig := false];
      h := handlers[sig];
      if sig == SIGKILL {
        found, a := true, Killed(128 + sig);
        return;
      }
      if sig == SIGSTOP {
        stop := 1;
        return;
      }
      if h == SIG_IGN {
        return;
      }
      if h == SIG_DFL {
        if sig == SIGTSTP {
          stop := 1;
        } else if sig != SIGCHLD && sig != SIGCONT {
          found, a := true, Killed(128 + sig);
        }
      } else {
        handlers := handlers[sig := Default()];
        found, a := true, Handled(sig, h);
      }
    }

    /** sys_sigreturn() */
    method SigReturn()
      requires Shape() && 4 <= Usp(frame[..]) && Usp(frame[..]) - 4 + SAVED + KFRAME <= mem.Length
      modifies frame
      ensures frame[..] == SavedAt(mem[..], Usp(old(frame[..])) - 4)
    {
      var usp := ReadUsp();
      CopyIn(frame, 0, mem[usp - 4 + SAVED..usp - 4 + SAVED + KFRAME]);
    }
  }

  /** A handler is started: the frame is built, and the kernel frame redirected. */
  ghost predicate Started(mem: seq<byte>, frame: seq<byte>, mem': seq<byte>, frame': seq<byte>, sig: u32, handler: u32)
    requires |frame| == KFRAME && FRAME_SIZE <= Usp(frame) <= |mem| <= T32
  {
    var b := FrameBase(Usp(frame));
    mem' == Built(mem, b, sig, frame) && frame' == Redirected(frame, b, handler)
  }

  /** In numbers: the stack pointer goes down by 84 or 85 to an even address. There the user stack holds the address of
      the trampoline, the signal, the trampoline and the 70 bytes of the kernel frame; of that only the first word, the
      stack pointer, and bytes 66 to 69, the program counter, are new. */
  lemma StartedIs(mem: seq<byte>, frame: seq<byte>, mem': seq<byte>, frame': seq<byte>, sig: u32, handler: u32)
    requires |frame| == 70 && 84 <= Val(Get(frame, 0)) <= |mem| <= T32
    requires Started(mem, frame, mem', frame', sig, handler)
    ensures |mem'| == |mem| && |frame'| == 70
    ensures var usp, b := Val(Get(frame, 0)), Val(Get(frame', 0));
            && b % 2 == 0 && usp - 86 < b <= usp - 84 && Val(Get(frame', 66)) == handler
            && (forall x :: 4 <= x < 66 ==> frame'[x] == frame[x])
            && Val(Get(mem', b)) == b + 8 && Val(Get(mem', b + 4)) == sig
            && mem'[b + 8..b + 12] == [0x70, 0x77, 0x4E, 0x40] && mem'[b + 12..b + 82] == frame
            && forall x :: 0 <= x < |mem| && !(b <= x < b + 82) ==> mem'[x] == mem[x]
  {
    BuiltSaves(mem, FrameBase(Usp(frame)), sig, frame);
    hide Built;
  }

  method BuildFrame(mem: array<byte>, sf: int, sig: u32, frame: seq<byte>)
    requires 0 <= sf && sf + SAVED + KFRAME <= mem.Length <= T32 && |frame| == KFRAME
    modifies mem
    ensures mem[..] == Built(old(mem[..]), sf, sig, frame)
  {
    BuildHead(mem, sf, sig);
    CopyIn(mem, sf + SAVED, frame);
  }

  method BuildHead(mem: array<byte>, sf: int, sig: u32)
    requires 0 <= sf && sf + SAVED <= mem.Length <= T32 && sf + 8 < T32
    modifies mem
    ensures mem[..] == Head(old(mem[..]), sf, sig)
  {
    Store(mem, sf, sf + 8);
    Store(mem, sf + 4, sig);
    CopyIn(mem, sf + 8, TrampolineCode());
  }

  method Store(a: array<byte>, at: int, v: u32)
    requires 0 <= at && at + 4 <= a.Length
    modifies a
    ensures a[..] == Put(old(a[..]), at, Bytes(v))
  {
    SplitVal(v);
    ValInjective(Split(v), Bytes(v));
    StoreQuad(a, at, Split(v));
  }

  method StoreQuad(a: array<byte>, at: int, w: Quad)
    requires 0 <= at && at + 4 <= a.Length
    modifies a
    ensures a[..] == Put(old(a[..]), at, w)
  {
    a[at], a[at + 1], a[at + 2], a[at + 3] := w.a, w.b, w.c, w.d;
  }

  /** memcpy() */
  method CopyIn(a: array<byte>, at: int, src: seq<byte>)
    requires 0 <= at && at + |src| <= a.Length
    modifies a
    ensures a[..] == Blit(old(a[..]), at, src)
  {
    ghost var m := a[..];
    for k := 0 to |src|
      invariant forall x :: at <= x < at + k ==> a[x] == src[x - at]
      invariant forall x :: 0 <= x < at || at + k <= x < a.Length ==> a[x] == m[x]
    {
      a[at + k] := src[k];
    }
  }
}
