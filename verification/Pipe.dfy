/** The pipes of kernel/proc.c: one call of pipe_read() or pipe_write() up to the next schedule(), as a
  function of the state, and what holds over every interleaving of such steps. */
module Pipe {

  const PIPE_SIZE: int := 512
  const MAXPROC: int := 16

  type byte = x: int | 0 <= x < 256
  type Pid = x: int | 0 <= x < 16

  datatype ProcState = Ready | Running | Sleeping | Other

  /** struct pipe, with the states and pending SIGPIPE signals of the processes. */
  datatype State = State(ring: seq<byte>, readPos: int, writePos: int, count: int, readers: nat, writers: nat,
                         readWaiting: nat, writeWaiting: nat, procs: seq<ProcState>, sigpipe: set<Pid>)

  datatype Outcome = Blocked | Moved(n: nat) | Broken

  predicate Valid(s: State) {
    && |s.ring| == PIPE_SIZE && |s.procs| == MAXPROC
    && 0 <= s.readPos < PIPE_SIZE && 0 <= s.count <= PIPE_SIZE
    && s.writePos == (s.readPos + s.count) % PIPE_SIZE
  }

  /** The place in the ring `k` bytes after `pos`. */
  function Slot(pos: int, k: int): (j: int)
    requires 0 <= pos < PIPE_SIZE && 0 <= k <= PIPE_SIZE
    ensures 0 <= j < PIPE_SIZE
  {
    (pos + k) % PIPE_SIZE
  }

  /** The bytes in the pipe, oldest first. */
  function Contents(s: State): (c: seq<byte>)
    requires Valid(s)
    ensures |c| == s.count && forall i :: 0 <= i < s.count ==> c[i] == s.ring[Slot(s.readPos, i)]
  {
    seq(s.count, i requires 0 <= i < s.count => s.ring[Slot(s.readPos, i)])
  }

  // ----- the pieces of a step

  /** if (waiting && waiting <= MAXPROC): a sleeping process is made ready. */
  function Woken(procs: seq<ProcState>, waiting: nat): (r: seq<ProcState>)
    requires |procs| == MAXPROC
    ensures |r| == MAXPROC
    ensures forall p: Pid :: r[p] == if p + 1 == waiting && procs[p] == Sleeping then Ready else procs[p]
  {
    if 0 < waiting <= MAXPROC && procs[waiting - 1] == Sleeping then procs[waiting - 1 := Ready] else procs
  }

  function WakeWriter(s: State): State
    requires |s.procs| == MAXPROC
  {
    s.(procs := Woken(s.procs, s.writeWaiting), writeWaiting := if s.writeWaiting <= MAXPROC then 0 else s.writeWaiting)
  }

  function WakeReader(s: State): State
    requires |s.procs| == MAXPROC
  {
    s.(procs := Woken(s.procs, s.readWaiting), readWaiting := if s.readWaiting <= MAXPROC then 0 else s.readWaiting)
  }

  function Min(a: int, b: int): int {
    if a < b then a else b
  }

  /** `n` bytes leave at the read position. */
  function Drained(s: State, n: nat): State {
    s.(readPos := (s.readPos + n) % PIPE_SIZE, count := s.count - n)
  }

  /** How far `j` is after `pos` around the ring. */
  function After(pos: int, j: int): (d: int)
    requires 0 <= pos < PIPE_SIZE && 0 <= j < PIPE_SIZE
    ensures 0 <= d < PIPE_SIZE && Slot(pos, d) == j
  {
    if j >= pos then j - pos else j - pos + PIPE_SIZE
  }

  /** The bytes of `data` enter at the write position. */
  function Filled(s: State, data: seq<byte>): (r: State)
    requires Valid(s)
    ensures |r.ring| == PIPE_SIZE
    ensures forall j :: 0 <= j < PIPE_SIZE ==>
      r.ring[j] == if After(s.writePos, j) < |data| then data[After(s.writePos, j)] else s.ring[j]
  {
    s.(ring := seq(PIPE_SIZE, j requires 0 <= j < PIPE_SIZE =>
         if After(s.writePos, j) < |data| then data[After(s.writePos, j)] else s.ring[j]),
       writePos := (s.writePos + |data|) % PIPE_SIZE, count := s.count + |data|)
  }

  // ----- the steps

  /** pipe_read() by `me` from its start, or from the return of schedule() if `resumed`, to its return or the
      next schedule(). The bytes it returns are the first of Contents(s). */
  function ReadStep(s: State, me: Pid, len: int, resumed: bool): (State, Outcome)
    requires Valid(s)
  {
    var s1 := if resumed then s.(readWaiting := 0) else s;
    if s1.count == 0 && s1.writers > 0 then
      var s2 := WakeWriter(s1);
      (s2.(readWaiting := me + 1, procs := s2.procs[me := Sleeping]), Blocked)
    else
      var n := if len > 0 then Min(len, s1.count) else 0;
      (WakeWriter(Drained(s1, n)), Moved(n))
  }

  function Signalled(s: State, me: Pid): State {
    s.(sigpipe := s.sigpipe + {me})
  }

  /** pipe_write() by `me` in the same way. The bytes it accepts are the first of `data`. */
  function WriteStep(s: State, me: Pid, data: seq<byte>, resumed: bool): (State, Outcome)
    requires Valid(s)
  {
    var s1 := if resumed then s.(writeWaiting := 0) else s;
    if !resumed && s1.readers == 0 then (Signalled(s1, me), Broken)
    else if s1.count >= PIPE_SIZE && s1.readers > 0 then
      var s2 := WakeReader(s1);
      (s2.(writeWaiting := me + 1, procs := s2.procs[me := Sleeping]), Blocked)
    else if s1.count < PIPE_SIZE && |data| > 0 && s1.readers == 0 then (Signalled(s1, me), Broken)
    else
      var n := Min(|data|, PIPE_SIZE - s1.count);
      (WakeReader(Filled(s1, data[..n])), if n > 0 then Moved(n) else Broken)
  }

  /** pipe_close_read() */
  function CloseReadStep(s: State): State
    requires Valid(s)
  {
    var s1 := if s.readers > 0 then s.(readers := s.readers - 1) else s;
    if s1.readers == 0 then WakeWriter(s1) else s1
  }

  /** pipe_close_write() */
  function CloseWriteStep(s: State): State
    requires Valid(s)
  {
    var s1 := if s.writers > 0 then s.(writers := s.writers - 1) else s;
    if s1.writers == 0 then WakeReader(s1) else s1
  }

  // ----- the ring is a queue

  lemma Shift(pos: int, n: int, i: int)
    requires 0 <= pos < PIPE_SIZE && 0 <= n <= PIPE_SIZE && 0 <= i <= PIPE_SIZE
    ensures (Slot(pos, n) + i) % PIPE_SIZE == (pos + (n + i)) % PIPE_SIZE
  {
    var k := pos + n;
    assert Slot(pos, n) == if k < PIPE_SIZE then k else if k < 2 * PIPE_SIZE then k - PIPE_SIZE else 0;
  }

  lemma DrainedContents(s: State, n: nat)
    requires Valid(s) && n <= s.count
    ensures Valid(Drained(s, n)) && Contents(Drained(s, n)) == Contents(s)[n..]
  {
    var t := Drained(s, n);
    Shift(s.readPos, n, s.count - n);
    forall i | 0 <= i < t.count
      ensures Contents(t)[i] == Contents(s)[n..][i]
    {
      Shift(s.readPos, n, i);
    }
  }

  /** Where the i-th byte of the pipe is, seen from the write position. */
  lemma Seen(s: State, i: int)
    requires Valid(s) && 0 <= i < PIPE_SIZE
    ensures After(s.writePos, Slot(s.readPos, i)) == if i >= s.count then i - s.count else i - s.count + PIPE_SIZE
  {
  }

  lemma FilledValid(s: State, n: nat)
    requires Valid(s) && n <= PIPE_SIZE - s.count
    ensures (s.writePos + n) % PIPE_SIZE == (s.readPos + (s.count + n)) % PIPE_SIZE
  {
    Shift(s.readPos, s.count, n);
  }

  lemma FilledContents(s: State, data: seq<byte>)
    requires Valid(s) && |data| <= PIPE_SIZE - s.count
    ensures Valid(Filled(s, data)) && Contents(Filled(s, data)) == Contents(s) + data
  {
    var t := Filled(s, data);
    FilledValid(s, |data|);
    forall i | 0 <= i < t.count
      ensures Contents(t)[i] == (Contents(s) + data)[i]
    {
      Seen(s, i);
    }
  }

  /** What a read does to the contents: it takes bytes from the front, or changes nothing and blocks, and it
      blocks exactly when the pipe is empty and has a writer. */
  lemma ReadTakes(s: State, me: Pid, len: int, resumed: bool)
    requires Valid(s)
    ensures var (t, o) := ReadStep(s, me, len, resumed);
            && Valid(t) && !o.Broken?
            && (o.Blocked? <==> s.count == 0 && s.writers > 0)
            && (o.Blocked? ==> Contents(t) == Contents(s))
            && (o.Moved? ==> o.n == (if len <= 0 then 0 else if len < s.count then len else s.count)
                             && Contents(s)[o.n..] == Contents(t))
  {
    var s1 := if resumed then s.(readWaiting := 0) else s;
    var n := if len > 0 then Min(len, s1.count) else 0;
    DrainedContents(s1, n);
  }

  /** What a write does to the contents: it puts bytes at the end, or changes nothing. It blocks exactly when
      the pipe is full and has a reader. */
  lemma WritePuts(s: State, me: Pid, data: seq<byte>, resumed: bool)
    requires Valid(s)
    ensures var (t, o) := WriteStep(s, me, data, resumed);
            && Valid(t) && (o.Blocked? <==> s.count == PIPE_SIZE && s.readers > 0)
            && (o.Moved? <==> s.count < PIPE_SIZE && s.readers > 0 && data != [])
            && (o.Moved? ==> o.n == (if |data| < PIPE_SIZE - s.count then |data| else PIPE_SIZE - s.count)
                             && Contents(t) == Contents(s) + data[..o.n])
            && (!o.Moved? ==> Contents(t) == Contents(s))
  {
    var s1 := if resumed then s.(writeWaiting := 0) else s;
    var n := Min(|data|, PIPE_SIZE - s1.count);
    FilledContents(s1, data[..n]);
  }

  lemma ReadValid(s: State, me: Pid, len: int, resumed: bool)
    requires Valid(s)
    ensures Valid(ReadStep(s, me, len, resumed).0)
  {
    hide Contents;
    ReadTakes(s, me, len, resumed);
  }

  lemma WriteValid(s: State, me: Pid, data: seq<byte>, resumed: bool)
    requires Valid(s)
    ensures Valid(WriteStep(s, me, data, resumed).0)
  {
    hide Contents;
    WritePuts(s, me, data, resumed);
  }

  const NOBODY: int := -1

  /** The process that the pipe remembers as waiting, if it sleeps, is ready, and the others are as before; nothing is
      said about `me`. */
  predicate Rouses(procs: seq<ProcState>, procs': seq<ProcState>, waiting: nat, me: int)
    requires |procs| == |procs'| == MAXPROC
  {
    forall p: Pid :: p != me ==>
      procs'[p] == if p + 1 == waiting && procs[p] == Sleeping then Ready else procs[p]
  }

  /** What a read does otherwise: it wakes the waiting writer, and if it blocks, the process sleeps as the reader that
      waits; a process that comes back from such a sleep waits no more. */
  lemma ReadWakes(s: State, me: Pid, len: int, resumed: bool)
    requires Valid(s) && s.writeWaiting <= MAXPROC
    ensures var (t, o) := ReadStep(s, me, len, resumed);
            && t.readers == s.readers && t.writers == s.writers && t.sigpipe == s.sigpipe && t.writeWaiting == 0
            && t.readWaiting == (if o.Blocked? then me + 1 else if resumed then 0 else s.readWaiting)
            && |t.procs| == MAXPROC && Rouses(s.procs, t.procs, s.writeWaiting, if o.Blocked? then me else NOBODY)
            && (o.Blocked? ==> t.procs[me] == Sleeping)
  {
  }

  /** And a write: it wakes the waiting reader, unless there is no reader at all. */
  lemma WriteWakes(s: State, me: Pid, data: seq<byte>, resumed: bool)
    requires Valid(s) && s.readWaiting <= MAXPROC
    ensures var (t, o) := WriteStep(s, me, data, resumed);
            && t.readers == s.readers && t.writers == s.writers && (s.readers > 0 ==> t.sigpipe == s.sigpipe)
            && t.writeWaiting == (if o.Blocked? then me + 1 else if resumed then 0 else s.writeWaiting)
            && |t.procs| == MAXPROC && (o.Blocked? ==> t.procs[me] == Sleeping)
            && (s.readers > 0 ==>
                  t.readWaiting == 0 && Rouses(s.procs, t.procs, s.readWaiting, if o.Blocked? then me else NOBODY))
  {
  }

  /** The last reader that closes wakes the waiting writer, and the last writer the waiting reader; the bytes in the
      pipe stay. */
  lemma ClosesWake(s: State)
    requires Valid(s) && s.readWaiting <= MAXPROC && s.writeWaiting <= MAXPROC
    ensures var t := CloseReadStep(s);
            && Valid(t) && Contents(t) == Contents(s) && t.writers == s.writers && t.readWaiting == s.readWaiting
            && t.readers == (if s.readers > 0 then s.readers - 1 else 0) && t.sigpipe == s.sigpipe
            && (s.readers > 1 ==> t.procs == s.procs && t.writeWaiting == s.writeWaiting)
            && (s.readers <= 1 ==> Rouses(s.procs, t.procs, s.writeWaiting, NOBODY) && t.writeWaiting == 0)
    ensures var t := CloseWriteStep(s);
            && Valid(t) && Contents(t) == Contents(s) && t.readers == s.readers && t.writeWaiting == s.writeWaiting
            && t.writers == (if s.writers > 0 then s.writers - 1 else 0) && t.sigpipe == s.sigpipe
            && (s.writers > 1 ==> t.procs == s.procs && t.readWaiting == s.readWaiting)
            && (s.writers <= 1 ==> Rouses(s.procs, t.procs, s.readWaiting, NOBODY) && t.readWaiting == 0)
  {
  }

  /** A broken pipe raises SIGPIPE, except when the writer had been asleep on a full pipe (it then gets only the
      error), and except for empty writes after a sleep. */
  lemma SigpipeRaised(s: State, me: Pid, data: seq<byte>, resumed: bool)
    requires Valid(s) && s.readers == 0 && me !in s.sigpipe
    ensures var (t, o) := WriteStep(s, me, data, resumed);
            o == Broken && (me in t.sigpipe <==> !resumed || (s.count < PIPE_SIZE && |data| > 0))
  {
    var s1 := if resumed then s.(writeWaiting := 0) else s;
    FilledContents(s1, []);
  }

  /** An empty write never moves anything: it waits while the pipe is full and has a reader, and otherwise fails, even
      with a reader and room. */
  lemma EmptyWriteFails(s: State, me: Pid, resumed: bool)
    requires Valid(s)
    ensures WriteStep(s, me, [], resumed).1 == Broken <==> s.readers == 0 || s.count < PIPE_SIZE
  {
    WritePuts(s, me, [], resumed);
  }

  /** When schedule() finds nothing else to run it returns at once; going round the loop again then leaves the
      state as it was. */
  lemma SpinChangesNothing(s: State, me: Pid, len: int, data: seq<byte>, resumed: bool)
    requires Valid(s)
    ensures var (t, o) := ReadStep(s, me, len, resumed);
            o.Blocked? && s.writeWaiting <= MAXPROC ==> Valid(t) && ReadStep(t, me, len, true) == (t, Blocked)
    ensures var (t, o) := WriteStep(s, me, data, resumed);
            o.Blocked? && s.readWaiting <= MAXPROC ==> Valid(t) && WriteStep(t, me, data, true) == (t, Blocked)
  {
    var (t, o) := ReadStep(s, me, len, resumed);
    if o.Blocked? && s.writeWaiting <= MAXPROC {
      assert WakeWriter(t.(readWaiting := 0)) == t.(readWaiting := 0);
      assert t.procs[me := Sleeping] == t.procs;
    }
    var (u, w) := WriteStep(s, me, data, resumed);
    if w.Blocked? && s.readWaiting <= MAXPROC {
      assert WakeReader(u.(writeWaiting := 0)) == u.(writeWaiting := 0);
      assert u.procs[me := Sleeping] == u.procs;
    }
  }

  // ----- every interleaving

  /** Whether a process is inside a pipe call, asleep or ready to go on after its schedule(). */
  datatype Position = Outside | Reading(len: int) | Writing(data: seq<byte>)

  /** The pipe, where each process is, and all bytes that writes accepted and reads returned so far. */
  datatype System = System(pipe: State, at: seq<Position>, accepted: seq<byte>, returned: seq<byte>)

  /** One step of one process, up to its next schedule(); `Wake` is a wake-up that does not come from the pipe
      (a signal, an exiting child), `Elsewhere` anything else that changes the state of a process outside the
      pipe calls. */
  datatype Event =
    | Read(p: Pid, len: int) | Write(p: Pid, data: seq<byte>) | Resume(p: Pid) | Wake(p: Pid)
    | Elsewhere(p: Pid, st: ProcState) | CloseRead | CloseWrite

  predicate Enabled(y: System, e: Event)
    requires |y.at| == MAXPROC && |y.pipe.procs| == MAXPROC
  {
    match e
    case Read(p, _) => y.at[p] == Outside
    case Write(p, _) => y.at[p] == Outside
    case Resume(p) => y.at[p] != Outside && y.pipe.procs[p] == Ready
    case Wake(_) => true
    case Elsewhere(p, _) => y.at[p] == Outside
    case CloseRead => true
    case CloseWrite => true
  }

  predicate Shaped(y: System) {
    Valid(y.pipe) && |y.at| == MAXPROC
  }

  function SetState(s: State, p: Pid, st: ProcState): State
    requires |s.procs| == MAXPROC
  {
    s.(procs := s.procs[p := st])
  }

  function StepRead(y: System, p: Pid, len: int, resumed: bool): System
    requires Shaped(y)
  {
    var (t, o) := ReadStep(SetState(y.pipe, p, Running), p, len, resumed);
    y.(pipe := t, at := y.at[p := if o.Blocked? then Reading(len) else Outside],
       returned := if o.Moved? then y.returned + Contents(y.pipe)[..Min(o.n, y.pipe.count)] else y.returned)
  }

  function StepWrite(y: System, p: Pid, data: seq<byte>, resumed: bool): System
    requires Shaped(y)
  {
    var (t, o) := WriteStep(SetState(y.pipe, p, Running), p, data, resumed);
    y.(pipe := t, at := y.at[p := if o.Blocked? then Writing(data) else Outside],
       accepted := if o.Moved? then y.accepted + data[..Min(o.n, |data|)] else y.accepted)
  }

  function Step(y: System, e: Event): System
    requires Shaped(y) && Enabled(y, e)
  {
    match e
    case Read(p, len) => StepRead(y, p, len, false)
    case Write(p, data) => StepWrite(y, p, data, false)
    case Resume(p) => if y.at[p].Reading? then StepRead(y, p, y.at[p].len, true)
      else StepWrite(y, p, y.at[p].data, true)
    case Wake(p) => if y.pipe.procs[p] == Sleeping then y.(pipe := SetState(y.pipe, p, Ready)) else y
    case Elsewhere(p, st) => y.(pipe := SetState(y.pipe, p, st))
    case CloseRead => y.(pipe := CloseReadStep(y.pipe))
    case CloseWrite => y.(pipe := CloseWriteStep(y.pipe))
  }

  /** First in, first out: what was read, followed by what is in the ring, is what was written. */
  ghost predicate Fifo(y: System) {
    Shaped(y) && y.accepted == y.returned + Contents(y.pipe)
  }

  /** The pipe remembers as waiting only a process that is in the call. */
  predicate Slots(y: System) {
    && Shaped(y)
    && (forall p: Pid :: y.pipe.readWaiting == p + 1 ==> y.at[p].Reading?)
    && (forall p: Pid :: y.pipe.writeWaiting == p + 1 ==> y.at[p].Writing?)
  }

  predicate ReaderAsleep(y: System, r: Pid)
    requires Shaped(y)
  {
    y.at[r].Reading? && y.pipe.procs[r] == Sleeping
  }

  predicate WriterAsleep(y: System, w: Pid)
    requires Shaped(y)
  {
    y.at[w].Writing? && y.pipe.procs[w] == Sleeping
  }

  /** While `r` sleeps in pipe_read(), it is the one the pipe will wake, the pipe is empty, and there is a writer. */
  predicate ReaderWaits(y: System, r: Pid)
    requires Shaped(y)
  {
    ReaderAsleep(y, r) ==> y.pipe.readWaiting == r + 1 && y.pipe.count == 0 && y.pipe.writers > 0
  }

  /** While `w` sleeps in pipe_write(), it is the one the pipe will wake, the pipe is full, and there is a reader. */
  predicate WriterWaits(y: System, w: Pid)
    requires Shaped(y)
  {
    WriterAsleep(y, w) ==> y.pipe.writeWaiting == w + 1 && y.pipe.count == PIPE_SIZE && y.pipe.readers > 0
  }

  /** Another process goes into the loop of pipe_read() while `r` sleeps there. */
  predicate HidesReader(y: System, e: Event, r: Pid)
    requires Shaped(y)
  {
    ReaderAsleep(y, r) && ((e.Read? && e.p != r) || (e.Resume? && e.p != r && y.at[e.p].Reading?))
  }

  /** Another process goes into the loop of pipe_write() while `w` sleeps there. */
  predicate HidesWriter(y: System, e: Event, w: Pid)
    requires Shaped(y)
  {
    WriterAsleep(y, w) && ((e.Write? && e.p != w) || (e.Resume? && e.p != w && y.at[e.p].Writing?))
  }

  lemma SameContents(s: State, t: State)
    requires Valid(s) && Valid(t) && s.ring == t.ring && s.readPos == t.readPos && s.count == t.count
    ensures Contents(s) == Contents(t)
  {
  }

  lemma MoveFront(a: seq<byte>, c: seq<byte>, n: nat)
    requires n <= |c|
    ensures (a + c[..n]) + c[n..] == a + c
  {
  }

  lemma StepReadFifo(y: System, p: Pid, len: int, resumed: bool)
    requires Fifo(y)
    ensures Fifo(StepRead(y, p, len, resumed))
  {
    var s := SetState(y.pipe, p, Running);
    SameContents(y.pipe, s);
    ReadTakes(s, p, len, resumed);
    var o := ReadStep(s, p, len, resumed).1;
    if o.Moved? {
      MoveFront(y.returned, Contents(y.pipe), o.n);
    }
  }

  lemma StepWriteFifo(y: System, p: Pid, data: seq<byte>, resumed: bool)
    requires Fifo(y)
    ensures Fifo(StepWrite(y, p, data, resumed))
  {
    var s := SetState(y.pipe, p, Running);
    SameContents(y.pipe, s);
    WritePuts(s, p, data, resumed);
    hide WriteStep, Contents;
    var o := WriteStep(s, p, data, resumed).1;
    if o.Moved? {
      assert y.returned + (Contents(s) + data[..o.n]) == (y.returned + Contents(s)) + data[..o.n];
    }
  }

  lemma StepFifo(y: System, e: Event)
    requires Fifo(y) && Enabled(y, e)
    ensures Fifo(Step(y, e))
  {
    match e
    case Read(p, len) => StepReadFifo(y, p, len, false);
    case Write(p, data) => StepWriteFifo(y, p, data, false);
    case Resume(p) =>
      if y.at[p].Reading? {
        StepReadFifo(y, p, y.at[p].len, true);
      } else {
        StepWriteFifo(y, p, y.at[p].data, true);
      }
    case Wake(p) => SameContents(y.pipe, Step(y, e).pipe);
    case Elsewhere(p, st) => SameContents(y.pipe, Step(y, e).pipe);
    case CloseRead => SameContents(y.pipe, Step(y, e).pipe);
    case CloseWrite => SameContents(y.pipe, Step(y, e).pipe);
  }

  lemma SlotsRead(y: System, p: Pid, len: int, resumed: bool)
    requires Slots(y) && y.at[p] == (if resumed then Reading(len) else Outside) && Shaped(StepRead(y, p, len, resumed))
    ensures Slots(StepRead(y, p, len, resumed))
  {
  }

  lemma SlotsWrite(y: System, p: Pid, data: seq<byte>, resumed: bool)
    requires Slots(y) && y.at[p] == (if resumed then Writing(data) else Outside)
      && Shaped(StepWrite(y, p, data, resumed))
    ensures Slots(StepWrite(y, p, data, resumed))
  {
  }

  lemma StepSlots(y: System, e: Event)
    requires Slots(y) && Enabled(y, e) && Shaped(Step(y, e))
    ensures Slots(Step(y, e))
  {
    hide StepRead, StepWrite;
    match e
    case Read(p, len) => SlotsRead(y, p, len, false);
    case Write(p, data) => SlotsWrite(y, p, data, false);
    case Resume(p) =>
      if y.at[p].Reading? {
        SlotsRead(y, p, y.at[p].len, true);
      } else {
        SlotsWrite(y, p, y.at[p].data, true);
      }
    case Wake(p) =>
    case Elsewhere(p, st) =>
    case CloseRead =>
    case CloseWrite =>
  }

  /** A reader that sleeps where the pipe will wake it is hidden by every other process that starts to wait there, */
  lemma ReadReader(y: System, p: Pid, len: int, resumed: bool, r: Pid)
    requires Slots(y) && ReaderWaits(y, r) && Shaped(StepRead(y, p, len, resumed)) && (p == r ==> !ReaderAsleep(y, r))
    ensures ReaderWaits(StepRead(y, p, len, resumed), r) <==> !(ReaderAsleep(y, r) && p != r)
  {
  }

  /** and by no writer. */
  lemma WriteReader(y: System, p: Pid, data: seq<byte>, resumed: bool, r: Pid)
    requires Slots(y) && ReaderWaits(y, r) && !y.at[p].Reading? && Shaped(StepWrite(y, p, data, resumed))
    ensures ReaderWaits(StepWrite(y, p, data, resumed), r)
  {
  }

  lemma WriteWriter(y: System, p: Pid, data: seq<byte>, resumed: bool, w: Pid)
    requires Slots(y) && WriterWaits(y, w) && Shaped(StepWrite(y, p, data, resumed)) && (p == w ==> !WriterAsleep(y, w))
    ensures WriterWaits(StepWrite(y, p, data, resumed), w) <==> !(WriterAsleep(y, w) && p != w)
  {
  }

  lemma ReadWriter(y: System, p: Pid, len: int, resumed: bool, w: Pid)
    requires Slots(y) && WriterWaits(y, w) && !y.at[p].Writing? && Shaped(StepRead(y, p, len, resumed))
    ensures WriterWaits(StepRead(y, p, len, resumed), w)
  {
  }

  /** A step keeps a sleeping reader where the pipe will wake it exactly when no other process goes into the loop of
      pipe_read(). */
  lemma StepReader(y: System, e: Event, r: Pid)
    requires Slots(y) && ReaderWaits(y, r) && Enabled(y, e) && Shaped(Step(y, e))
    ensures ReaderWaits(Step(y, e), r) <==> !HidesReader(y, e, r)
  {
    hide StepRead, StepWrite;
    match e
    case Read(p, len) => ReadReader(y, p, len, false, r);
    case Write(p, data) => WriteReader(y, p, data, false, r);
    case Resume(p) =>
      if y.at[p].Reading? {
        ReadReader(y, p, y.at[p].len, true, r);
      } else {
        WriteReader(y, p, y.at[p].data, true, r);
      }
    case Wake(p) =>
    case Elsewhere(p, st) =>
    case CloseRead =>
    case CloseWrite =>
  }

  /** A step keeps a sleeping writer where the pipe will wake it exactly when no other process goes into the loop of
      pipe_write(). */
  lemma StepWriter(y: System, e: Event, w: Pid)
    requires Slots(y) && WriterWaits(y, w) && Enabled(y, e) && Shaped(Step(y, e))
    ensures WriterWaits(Step(y, e), w) <==> !HidesWriter(y, e, w)
  {
    hide StepRead, StepWrite;
    match e
    case Read(p, len) => ReadWriter(y, p, len, false, w);
    case Write(p, data) => WriteWriter(y, p, data, false, w);
    case Resume(p) =>
      if y.at[p].Reading? {
        ReadWriter(y, p, y.at[p].len, true, w);
      } else {
        WriteWriter(y, p, y.at[p].data, true, w);
      }
    case Wake(p) =>
    case Elsewhere(p, st) =>
    case CloseRead =>
    case CloseWrite =>
  }

  // ----- runs

  /** The states reached from `y` by the events, when each is enabled in its turn. */
  ghost predicate Run(y: System, es: seq<Event>, z: System)
    decreases |es|
  {
    if es == [] then y == z
    else Shaped(y) && Enabled(y, es[0]) && Run(Step(y, es[0]), es[1..], z)
  }

  /** Over every run of any number of readers and writers, the pipe delivers the bytes written, in order, each once. */
  lemma {:induction false} FifoAlways(y: System, es: seq<Event>, z: System)
    requires Fifo(y) && Run(y, es, z)
    ensures Fifo(z)
    decreases |es|
  {
    if es != [] {
      StepFifo(y, es[0]);
      FifoAlways(Step(y, es[0]), es[1..], z);
    }
  }

  lemma StepSound(y: System, e: Event)
    requires Fifo(y) && Slots(y) && Enabled(y, e)
    ensures Fifo(Step(y, e)) && Slots(Step(y, e))
  {
    StepFifo(y, e);
    StepSlots(y, e);
  }

  /** In every state of the run, r is awake or the one that the empty pipe will wake. */
  ghost predicate ReaderKept(y: System, es: seq<Event>, r: Pid)
    requires Shaped(y)
    decreases |es|
  {
    && ReaderWaits(y, r)
    && (es != [] && Enabled(y, es[0]) && Shaped(Step(y, es[0])) ==> ReaderKept(Step(y, es[0]), es[1..], r))
  }

  /** In the run, no other process goes into the loop of pipe_read() while r sleeps there. */
  ghost predicate ReaderAlone(y: System, es: seq<Event>, r: Pid)
    requires Shaped(y)
    decreases |es|
  {
    es != [] && Enabled(y, es[0]) && Shaped(Step(y, es[0])) ==>
      !HidesReader(y, es[0], r) && ReaderAlone(Step(y, es[0]), es[1..], r)
  }

  ghost predicate WriterKept(y: System, es: seq<Event>, w: Pid)
    requires Shaped(y)
    decreases |es|
  {
    && WriterWaits(y, w)
    && (es != [] && Enabled(y, es[0]) && Shaped(Step(y, es[0])) ==> WriterKept(Step(y, es[0]), es[1..], w))
  }

  ghost predicate WriterAlone(y: System, es: seq<Event>, w: Pid)
    requires Shaped(y)
    decreases |es|
  {
    es != [] && Enabled(y, es[0]) && Shaped(Step(y, es[0])) ==>
      !HidesWriter(y, es[0], w) && WriterAlone(Step(y, es[0]), es[1..], w)
  }

  /** Over every run of any number of readers and writers, r sleeps only on an empty pipe that has a writer and will
      wake it, exactly when no other process goes into the loop of pipe_read() while r sleeps there. */
  lemma {:induction false} ReaderAlways(y: System, es: seq<Event>, z: System, r: Pid)
    requires Fifo(y) && Slots(y) && ReaderWaits(y, r) && Run(y, es, z)
    ensures ReaderKept(y, es, r) <==> ReaderAlone(y, es, r)
    ensures Shaped(z) && (ReaderAlone(y, es, r) ==> ReaderWaits(z, r))
    decreases |es|
  {
    if es == [] { return; }
    hide Step, Fifo, Slots, ReaderWaits;
    StepSound(y, es[0]);
    StepReader(y, es[0], r);
    if !HidesReader(y, es[0], r) {
      ReaderAlways(Step(y, es[0]), es[1..], z, r);
    } else {
      FifoAlways(Step(y, es[0]), es[1..], z);
    }
  }

  /** The same for a writer and the full pipe. */
  lemma {:induction false} WriterAlways(y: System, es: seq<Event>, z: System, w: Pid)
    requires Fifo(y) && Slots(y) && WriterWaits(y, w) && Run(y, es, z)
    ensures WriterKept(y, es, w) <==> WriterAlone(y, es, w)
    ensures Shaped(z) && (WriterAlone(y, es, w) ==> WriterWaits(z, w))
    decreases |es|
  {
    if es == [] { return; }
    hide Step, Fifo, Slots, WriterWaits;
    StepSound(y, es[0]);
    StepWriter(y, es[0], w);
    if !HidesWriter(y, es[0], w) {
      WriterAlways(Step(y, es[0]), es[1..], z, w);
    } else {
      FifoAlways(Step(y, es[0]), es[1..], z);
    }
  }

  /** Only r reads. */
  predicate OnlyReader(y: System, es: seq<Event>, r: Pid)
    requires Shaped(y)
  {
    && (forall p: Pid :: y.at[p].Reading? ==> p == r)
    && (forall i :: 0 <= i < |es| && es[i].Read? ==> es[i].p == r)
  }

  /** A single reader is never hidden. */
  lemma {:induction false} OneReaderAlone(y: System, es: seq<Event>, z: System, r: Pid)
    requires Fifo(y) && Run(y, es, z) && OnlyReader(y, es, r)
    ensures ReaderAlone(y, es, r)
    decreases |es|
  {
    if es == [] { return; }
    StepFifo(y, es[0]);
    assert OnlyReader(Step(y, es[0]), es[1..], r);
    OneReaderAlone(Step(y, es[0]), es[1..], z, r);
  }

  predicate OnlyWriter(y: System, es: seq<Event>, w: Pid)
    requires Shaped(y)
  {
    && (forall p: Pid :: y.at[p].Writing? ==> p == w)
    && (forall i :: 0 <= i < |es| && es[i].Write? ==> es[i].p == w)
  }

  lemma {:induction false} OneWriterAlone(y: System, es: seq<Event>, z: System, w: Pid)
    requires Fifo(y) && Run(y, es, z) && OnlyWriter(y, es, w)
    ensures WriterAlone(y, es, w)
    decreases |es|
  {
    if es == [] { return; }
    StepFifo(y, es[0]);
    assert OnlyWriter(Step(y, es[0]), es[1..], w);
    OneWriterAlone(Step(y, es[0]), es[1..], z, w);
  }

  /** A reader and a writer that nobody hides are never both asleep on the pipe. */
  lemma NeverBothAsleep(y: System, es: seq<Event>, z: System, r: Pid, w: Pid)
    requires Fifo(y) && Slots(y) && ReaderWaits(y, r) && WriterWaits(y, w) && Run(y, es, z)
    requires ReaderAlone(y, es, r) && WriterAlone(y, es, w)
    ensures Shaped(z) && !(ReaderAsleep(z, r) && WriterAsleep(z, w))
  {
    ReaderAlways(y, es, z, r);
    WriterAlways(y, es, z, w);
  }

  // ----- two readers

  /** One slot remembers who waits. When a second reader goes to sleep the first is forgotten: after the next
      write it sleeps although the pipe holds data, and no further write wakes it. */
  lemma SecondReaderHidesFirst(y: System, a: Pid, b: Pid, w: Pid, x: byte) returns (z: System)
    requires Shaped(y) && a != b && a != w && b != w && y.at[a] == y.at[b] == y.at[w] == Outside
    requires y.pipe.count == 0 && y.pipe.writers > 0 && y.pipe.readers > 0 && y.pipe.readWaiting == 0
      && y.pipe.writeWaiting == 0
    ensures Run(y, [Read(a, 1), Read(b, 1), Write(w, [x])], z)
    ensures Shaped(z) && z.at[a].Reading? && z.pipe.procs[a] == Sleeping && z.pipe.count == 1
    ensures forall q: Pid, data ::
      q != a && Enabled(z, Write(q, data)) ==> Step(z, Write(q, data)).pipe.procs[a] == Sleeping
  {
    var y1 := Step(y, Read(a, 1));
    var y2 := Step(y1, Read(b, 1));
    z := Step(y2, Write(w, [x]));
    WritePuts(SetState(y2.pipe, w, Running), w, [x], false);
    ThreeSteps(y, Read(a, 1), y1, Read(b, 1), y2, Write(w, [x]), z);
  }

  // ----- a break without a signal

  /** A writer fills the pipe and sleeps in its next call; the last reader closes; the call then fails, since it returns
      and its byte is not accepted, and no SIGPIPE is pending. */
  lemma BrokenUnsignalled(y: System, w: Pid, data: seq<byte>, x: byte) returns (z: System)
    requires Shaped(y) && y.at[w] == Outside && y.pipe.count == 0 && y.pipe.readers == 1
    requires y.pipe.writeWaiting == 0 && y.pipe.readWaiting == 0 && |data| == PIPE_SIZE && w !in y.pipe.sigpipe
    ensures Run(y, [Write(w, data), Write(w, [x]), CloseRead, Resume(w)], z)
    ensures Shaped(z) && z.at[w] == Outside && z.accepted == y.accepted + data && w !in z.pipe.sigpipe
  {
    var y1 := Step(y, Write(w, data));
    FillsPipe(y, w, data);
    var y2 := Step(y1, Write(w, [x]));
    var y3 := Step(y2, CloseRead);
    z := Step(y3, Resume(w));
    ThreeSteps(y1, Write(w, [x]), y2, CloseRead, y3, Resume(w), z);
    WritePuts(SetState(y3.pipe, w, Running), w, [x], true);
    assert [Write(w, data), Write(w, [x]), CloseRead, Resume(w)][1..] == [Write(w, [x]), CloseRead, Resume(w)];
  }

  lemma FillsPipe(y: System, w: Pid, data: seq<byte>)
    requires Shaped(y) && y.at[w] == Outside && y.pipe.count == 0 && y.pipe.readers == 1 && y.pipe.readWaiting == 0
    requires |data| == PIPE_SIZE
    ensures var z := Step(y, Write(w, data));
            && Shaped(z) && z.pipe.count == PIPE_SIZE && z.at == y.at && z.accepted == y.accepted + data
            && z.pipe.readers == 1 && z.pipe.sigpipe == y.pipe.sigpipe && z.pipe.writeWaiting == y.pipe.writeWaiting
            && z.pipe.readWaiting == 0
  {
    WritePuts(SetState(y.pipe, w, Running), w, data, false);
    assert data[..PIPE_SIZE] == data && y.at[w := Outside] == y.at;
  }

  lemma ThreeSteps(y: System, e: Event, y1: System, f: Event, y2: System, g: Event, z: System)
    requires Shaped(y) && Enabled(y, e) && Step(y, e) == y1
    requires Shaped(y1) && Enabled(y1, f) && Step(y1, f) == y2
    requires Shaped(y2) && Enabled(y2, g) && Step(y2, g) == z
    ensures Run(y, [e, f, g], z)
  {
    hide Step, Enabled;
    assert Run(z, [], z);
    assert [g][1..] == [];
    assert Run(y2, [g], z);
    assert [f, g][1..] == [g];
    assert Run(y1, [f, g], z);
    assert [e, f, g][1..] == [f, g];
  }

  /** A pipe just made by do_pipe(): empty, one reader, one writer, nobody waiting. */
  lemma FreshPipe(s: State, r: Pid, w: Pid)
    requires Valid(s) && s.count == 0 && s.readWaiting == s.writeWaiting == 0
    ensures var y := System(s, seq(MAXPROC, _ => Outside), [], []);
            Fifo(y) && Slots(y) && ReaderWaits(y, r) && WriterWaits(y, w)
  {
  }

  // ----- the code

  method CopyBytes(dst: array<byte>, d: nat, src: array<byte>, o: nat, n: nat)
    requires dst != src && d + n <= dst.Length && o + n <= src.Length
    modifies dst
    ensures forall k :: 0 <= k < dst.Length ==> dst[k] == if d <= k < d + n then src[o + (k - d)] else old(dst[k])
  {
    for i := 0 to n
      invariant forall k :: 0 <= k < dst.Length ==> dst[k] == if d <= k < d + i then src[o + (k - d)] else old(dst[k])
    {
      dst[d + i] := src[o + i];
    }
  }

  class PipeDevice {
    const buf: array<byte>
    const procs: array<ProcState>
    var readPos: int
    var writePos: int
    var count: int
    var readers: nat
    var writers: nat
    var readWaiting: nat
    var writeWaiting: nat
    var sigpipe: set<Pid>

    ghost function V(): State
      reads this, buf, procs
    {
      State(buf[..], readPos, writePos, count, readers, writers, readWaiting, writeWaiting, procs[..], sigpipe)
    }

    /** A free entry of pipe_table, as do_pipe() initializes it. */
    constructor (procs: array<ProcState>)
      requires procs.Length == MAXPROC
      ensures Valid(V()) && Contents(V()) == [] && readers == writers == 1 && readWaiting == writeWaiting == 0
      ensures fresh(buf) && this.procs == procs
    {
      this.buf := new byte[PIPE_SIZE];
      this.procs := procs;
      readPos, writePos, count, readers, writers := 0, 0, 0, 1, 1;
      readWaiting, writeWaiting, sigpipe := 0, 0, {};
    }

    method WakeBlockedWriter()
      requires procs.Length == MAXPROC
      modifies this`writeWaiting, procs
      ensures V() == WakeWriter(old(V()))
    {
      if writeWaiting != 0 && writeWaiting <= MAXPROC {
        if procs[writeWaiting - 1] == Sleeping {
          procs[writeWaiting - 1] := Ready;
        }
        writeWaiting := 0;
      }
    }

    method WakeBlockedReader()
      requires procs.Length == MAXPROC
      modifies this`readWaiting, procs
      ensures V() == WakeReader(old(V()))
    {
      if readWaiting != 0 && readWaiting <= MAXPROC {
        if procs[readWaiting - 1] == Sleeping {
          procs[readWaiting - 1] := Ready;
        }
        readWaiting := 0;
      }
    }

    /** The chunk loop of pipe_read(). */
    method DrainLoop(dst: array<byte>, len: int) returns (n: nat)
      requires Valid(V()) && dst != buf && len <= dst.Length
      modifies this`readPos, this`count, dst
      ensures n == (if len > 0 then Min(len, old(count)) else 0) && n <= old(count) && n <= dst.Length
      ensures readPos == Slot(old(readPos), n) && count == old(count) - n
      ensures forall k :: 0 <= k < n ==> dst[k] == buf[Slot(old(readPos), k)]
      ensures forall k :: n <= k < dst.Length ==> dst[k] == old(dst[k])
    {
      hide Contents, Drained, After;
      n := 0;
      ghost var r, c := readPos, count;
      while n < len && count > 0
        invariant 0 <= n <= c && (n > 0 ==> n <= len) && n <= dst.Length && count == c - n && readPos == Slot(r, n)
        invariant forall k :: 0 <= k < n ==> dst[k] == buf[Slot(r, k)]
        invariant forall k :: n <= k < dst.Length ==> dst[k] == old(dst[k])
        decreases count
      {
        var avail, want, contig := count, len - n, PIPE_SIZE - readPos;
        var chunk := if avail < want then avail else want;
        if chunk > contig {
          chunk := contig;
        }
        CopyBytes(dst, n, buf, readPos, chunk);
        Around(r, n, readPos, chunk);
        n := n + chunk;
        readPos := (readPos + chunk) % PIPE_SIZE;
        count := count - chunk;
      }
    }

    method Drain(dst: array<byte>, len: int) returns (n: nat)
      requires Valid(V()) && dst != buf && len <= dst.Length
      modifies this`readPos, this`count, dst
      ensures n == (if len > 0 then Min(len, old(count)) else 0) && V() == Drained(old(V()), n)
      ensures n <= |old(Contents(V()))| && dst[..n] == old(Contents(V()))[..n]
      ensures forall k :: n <= k < dst.Length ==> dst[k] == old(dst[k])
    {
      n := DrainLoop(dst, len);
    }

    /** The chunk loop of pipe_write(), when the pipe has a reader. */
    method FillLoop(src: array<byte>, len: int) returns (n: nat)
      requires Valid(V()) && src != buf && len <= src.Length
      modifies this`writePos, this`count, buf
      ensures n == (if len > 0 then Min(len, PIPE_SIZE - old(count)) else 0) && n <= src.Length
      ensures count == old(count) + n && writePos == (old(writePos) + n) % PIPE_SIZE
      ensures forall j :: 0 <= j < PIPE_SIZE ==>
        buf[j] == if After(old(writePos), j) < n then src[After(old(writePos), j)] else old(buf[j])
    {
      hide Contents, Filled, After;
      n := 0;
      ghost var w := writePos;
      while n < len && count < PIPE_SIZE
        invariant 0 <= n <= src.Length && (n > 0 ==> n <= len) && old(count) + n <= PIPE_SIZE
        invariant count == old(count) + n && writePos == Slot(w, n)
        invariant forall j :: 0 <= j < PIPE_SIZE ==> buf[j] == if After(w, j) < n then src[After(w, j)] else old(buf[j])
        decreases PIPE_SIZE - count
      {
        var space, want, contig := PIPE_SIZE - count, len - n, PIPE_SIZE - writePos;
        var chunk := if space < want then space else want;
        if chunk > contig {
          chunk := contig;
        }
        CopyBytes(buf, writePos, src, n, chunk);
        Around(w, n, writePos, chunk);
        AfterAround(w, n, writePos, chunk);
        n := n + chunk;
        writePos := (writePos + chunk) % PIPE_SIZE;
        count := count + chunk;
      }
    }

    method Fill(src: array<byte>, len: int) returns (n: nat)
      requires Valid(V()) && src != buf && len <= src.Length
      modifies this`writePos, this`count, buf
      ensures n == (if len > 0 then Min(len, PIPE_SIZE - old(count)) else 0) && n <= src.Length
      ensures V() == Filled(old(V()), src[..n])
    {
      n := FillLoop(src, len);
      assert buf[..] == Filled(old(V()), src[..n]).ring;
    }

    /** pipe_read() up to its return or its next schedule(). */
    method PipeRead(me: Pid, dst: array<byte>, len: int, resumed: bool) returns (o: Outcome)
      requires Valid(V()) && dst != buf && len <= dst.Length
      modifies this, procs, dst
      ensures (V(), o) == ReadStep(old(V()), me, len, resumed) && Valid(V())
      ensures o.Moved? ==> o.n <= dst.Length && o.n <= old(count) && dst[..o.n] == old(Contents(V()))[..o.n]
      ensures forall k :: 0 <= k < dst.Length && (o.Moved? ==> o.n <= k) ==> dst[k] == old(dst[k])
    {
      ReadValid(V(), me, len, resumed);
      if resumed {
        readWaiting := 0;
      }
      if count == 0 && writers > 0 {
        WakeBlockedWriter();
        readWaiting := me + 1;
        procs[me] := Sleeping;
        return Blocked;
      }
      SameContents(old(V()), V());
      var n := Drain(dst, len);
      WakeBlockedWriter();
      o := Moved(n);
    }

    /** pipe_write() up to its return or its next schedule(). */
    method PipeWrite(me: Pid, src: array<byte>, len: int, resumed: bool) returns (o: Outcome)
      requires Valid(V()) && src != buf && len <= src.Length
      modifies this, procs, buf
      ensures (V(), o) == WriteStep(old(V()), me, if len > 0 then src[..len] else [], resumed) && Valid(V())
    {
      ghost var data := if len > 0 then src[..len] else [];
      WriteValid(V(), me, data, resumed);
      if resumed {
        writeWaiting := 0;
      } else if readers == 0 {
        sigpipe := sigpipe + {me};
        return Broken;
      }
      if count >= PIPE_SIZE && readers > 0 {
        WakeBlockedReader();
        writeWaiting := me + 1;
        procs[me] := Sleeping;
        return Blocked;
      }
      if 0 < len && count < PIPE_SIZE && readers == 0 {
        sigpipe := sigpipe + {me};
        return Broken;
      }
      var n := Fill(src, len);
      assert data[..n] == src[..n];
      WakeBlockedReader();
      o := if n > 0 then Moved(n) else Broken;
    }

    method PipeCloseRead()
      requires Valid(V())
      modifies this, procs
      ensures V() == CloseReadStep(old(V())) && Valid(V()) && Contents(V()) == old(Contents(V()))
    {
      if readers > 0 {
        readers := readers - 1;
      }
      if readers == 0 {
        WakeBlockedWriter();
      }
      SameContents(old(V()), V());
    }

    method PipeCloseWrite()
      requires Valid(V())
      modifies this, procs
      ensures V() == CloseWriteStep(old(V())) && Valid(V()) && Contents(V()) == old(Contents(V()))
    {
      if writers > 0 {
        writers := writers - 1;
      }
      if writers == 0 {
        WakeBlockedReader();
      }
      SameContents(old(V()), V());
    }
  }

  /** Positions inside a chunk that does not wrap. */
  lemma Around(start: int, n: nat, pos: int, chunk: nat)
    requires 0 <= start < PIPE_SIZE && 0 <= n && n + chunk <= PIPE_SIZE
    requires pos == Slot(start, n) && pos + chunk <= PIPE_SIZE
    ensures (pos + chunk) % PIPE_SIZE == (start + (n + chunk)) % PIPE_SIZE
    ensures forall k :: n <= k < n + chunk ==> Slot(start, k) == pos + (k - n)
  {
  }

  lemma AfterAround(start: int, n: nat, pos: int, chunk: nat)
    requires 0 <= start < PIPE_SIZE && 0 <= n && n + chunk <= PIPE_SIZE
    requires pos == Slot(start, n) && pos + chunk <= PIPE_SIZE
    ensures forall j :: pos <= j < pos + chunk ==> After(start, j) == n + (j - pos)
    ensures forall j :: 0 <= j < PIPE_SIZE && !(pos <= j < pos + chunk) ==> !(n <= After(start, j) < n + chunk)
  {
    Around(start, n, pos, chunk);
    forall j | pos <= j < pos + chunk
      ensures After(start, j) == n + (j - pos)
    {
      assert Slot(start, n + (j - pos)) == j;
    }
  }
}
