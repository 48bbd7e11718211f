/** The open files, file descriptors and pipe ends of kernel/proc.c: the state, the effect of each call on it, and the
  accounting that every call keeps.

  The descriptors of all processes are one sequence, so that the reference count of an open file is how often it
  occurs there. `Inv` says this, and that a pipe has a reader or writer exactly while a live open file is that end.
  For each call there is a step function, a lemma that it keeps `Inv`, and one about the descriptors it gives or takes
  away; by `DescriptorsDetermine` these determine all the counts. */
module Descriptors {

  const MAXPROC: int := 16
  const MAXFD: int := 16
  const MAXOPEN: int := 64
  const MAXPIPE: int := 4
  const SLOTS: int := 256

  const EBADF: int := 9
  const EINVAL: int := 22
  const ENFILE: int := 23
  const EMFILE: int := 24

  /** NULL in a descriptor table. */
  const NONE: int := -1

  type Pid = x: int | 0 <= x < 16
  type PipeNo = x: int | 0 <= x < 4

  /** What an open file is: the flags and the inode field of struct ofile. */
  datatype Kind = File | ReadEnd(pipe: PipeNo) | WriteEnd(pipe: PipeNo)

  /** `slots` is the fd arrays of all processes, one after the other; `live` says that a process is neither free
      nor a zombie. */
  datatype State = State(slots: seq<int>, refs: seq<int>, kinds: seq<Kind>, readers: seq<nat>, writers: seq<nat>,
                         live: seq<bool>, cur: Pid)

  function Slot(p: Pid, fd: int): (k: int)
    requires 0 <= fd < MAXFD
    ensures 0 <= k < SLOTS
  {
    p * MAXFD + fd
  }

  predicate Shaped(s: State) {
    && |s.slots| == SLOTS && |s.refs| == |s.kinds| == MAXOPEN && |s.readers| == |s.writers| == MAXPIPE
    && |s.live| == MAXPROC && forall k :: 0 <= k < SLOTS ==> NONE <= s.slots[k] < MAXOPEN
  }

  // ----- the accounting

  /** Every reference count is the number of descriptors, of all processes, that refer to the file. */
  ghost predicate Counted(s: State)
    requires Shaped(s)
  {
    forall o :: 0 <= o < MAXOPEN ==> s.refs[o] == multiset(s.slots)[o]
  }

  predicate IsLive(s: State, o: int)
    requires Shaped(s)
  {
    0 <= o < MAXOPEN && s.refs[o] > 0
  }

  /** A pipe has one reader while a live open file is its read end and none otherwise, and the same for writers. */
  ghost predicate EndsCounted(s: State)
    requires Shaped(s)
  {
    && (forall k: PipeNo :: s.readers[k] <= 1 && s.writers[k] <= 1)
    && (forall k: PipeNo :: s.readers[k] == 1 <==> exists o :: IsLive(s, o) && s.kinds[o] == ReadEnd(k))
    && (forall k: PipeNo :: s.writers[k] == 1 <==> exists o :: IsLive(s, o) && s.kinds[o] == WriteEnd(k))
    && (forall a, b :: IsLive(s, a) && IsLive(s, b) && s.kinds[a] == s.kinds[b] && !s.kinds[a].File? ==> a == b)
  }

  /** Free processes and zombies hold no descriptors. */
  ghost predicate Cleared(s: State)
    requires Shaped(s)
  {
    forall p: Pid, fd :: !s.live[p] && 0 <= fd < MAXFD ==> s.slots[Slot(p, fd)] == NONE
  }

  ghost predicate Inv(s: State) {
    Shaped(s) && Counted(s) && EndsCounted(s) && Cleared(s)
  }

  // ----- single references

  /** One descriptor more for an open file. */
  function Link(s: State, k: int, o: int): State
    requires Shaped(s) && 0 <= k < SLOTS && 0 <= o < MAXOPEN
  {
    s.(slots := s.slots[k := o], refs := s.refs[o := s.refs[o] + 1])
  }

  function DropReader(s: State, k: PipeNo): State
    requires Shaped(s)
  {
    if s.readers[k] > 0 then s.(readers := s.readers[k := s.readers[k] - 1]) else s
  }

  function DropWriter(s: State, k: PipeNo): State
    requires Shaped(s)
  {
    if s.writers[k] > 0 then s.(writers := s.writers[k := s.writers[k] - 1]) else s
  }

  /** refcount--, and with the last reference the end of the pipe goes. */
  function Release(s: State, o: int): State
    requires Shaped(s) && 0 <= o < MAXOPEN
  {
    var s1 := s.(refs := s.refs[o := s.refs[o] - 1]);
    if s1.refs[o] != 0 then s1
    else match s.kinds[o]
      case File => s1
      case ReadEnd(k) => DropReader(s1, k)
      case WriteEnd(k) => DropWriter(s1, k)
  }

  /** A descriptor is given up. */
  function Unlink(s: State, k: int): State
    requires Shaped(s) && 0 <= k < SLOTS && s.slots[k] != NONE
  {
    Release(s.(slots := s.slots[k := NONE]), s.slots[k])
  }

  lemma CountUpdate(slots: seq<int>, k: int, x: int, o: int)
    requires 0 <= k < |slots|
    ensures multiset(slots[k := x])[o] ==
            multiset(slots)[o] - (if slots[k] == o then 1 else 0) + (if x == o then 1 else 0)
  {
    assert slots == slots[..k] + [slots[k]] + slots[k + 1..];
    assert slots[k := x] == slots[..k] + [x] + slots[k + 1..];
  }

  lemma Holder(s: State, o: int) returns (k: int)
    requires Shaped(s) && Counted(s) && IsLive(s, o)
    ensures 0 <= k < SLOTS && s.slots[k] == o
  {
    assert o in multiset(s.slots);
    assert o in s.slots;
    k :| 0 <= k < SLOTS && s.slots[k] == o;
  }

  lemma Held(s: State, k: int)
    requires Shaped(s) && Counted(s) && 0 <= k < SLOTS && s.slots[k] != NONE
    ensures IsLive(s, s.slots[k])
  {
    assert s.slots[k] in multiset(s.slots);
  }

  /** A new descriptor for a file that is already referred to. */
  lemma LinkKeeps(s: State, p: Pid, fd: int, o: int)
    requires Inv(s) && s.live[p] && 0 <= fd < MAXFD && s.slots[Slot(p, fd)] == NONE && IsLive(s, o)
    ensures Inv(Link(s, Slot(p, fd), o))
  {
    var k := Slot(p, fd);
    var t := Link(s, k, o);
    forall x | 0 <= x < MAXOPEN
      ensures t.refs[x] == multiset(t.slots)[x]
    {
      CountUpdate(s.slots, k, o, x);
    }
    assert forall x :: IsLive(t, x) <==> IsLive(s, x);
  }

  /** Which fields a release touches. */
  lemma ReleaseFrame(s: State, o: int)
    requires Shaped(s) && 0 <= o < MAXOPEN
    ensures var t := Release(s, o);
            && Shaped(t) && t.slots == s.slots && t.refs == s.refs[o := s.refs[o] - 1]
            && t.kinds == s.kinds && t.live == s.live && t.cur == s.cur
  {
  }

  lemma UnlinkCounts(s: State, k: int)
    requires Shaped(s) && Counted(s) && 0 <= k < SLOTS && s.slots[k] != NONE
    ensures Shaped(Unlink(s, k)) && Counted(Unlink(s, k))
  {
    ReleaseFrame(s.(slots := s.slots[k := NONE]), s.slots[k]);
    var refs := s.refs[s.slots[k] := s.refs[s.slots[k]] - 1];
    forall x | 0 <= x < MAXOPEN
      ensures refs[x] == multiset(s.slots[k := NONE])[x]
    {
      CountUpdate(s.slots, k, NONE, x);
    }
  }

  lemma UnlinkEnds(s: State, k: int)
    requires Inv(s) && 0 <= k < SLOTS && s.slots[k] != NONE && Shaped(Unlink(s, k))
    ensures EndsCounted(Unlink(s, k))
  {
    var t := Unlink(s, k);
    var o := s.slots[k];
    Held(s, k);
    assert forall x :: IsLive(t, x) <==> IsLive(s, x) && (x == o ==> s.refs[o] > 1);
  }

  lemma UnlinkKeeps(s: State, k: int)
    requires Inv(s) && 0 <= k < SLOTS && s.slots[k] != NONE
    ensures Inv(Unlink(s, k))
  {
    UnlinkCounts(s, k);
    UnlinkEnds(s, k);
  }

  // ----- allocation

  /** ofile_alloc(): the first entry without references, or MAXOPEN. */
  function FreeFile(refs: seq<int>, i: nat): (o: int)
    requires i <= |refs|
    ensures i <= o <= |refs| && (o < |refs| ==> refs[o] == 0)
    decreases |refs| - i
  {
    if i == |refs| || refs[i] == 0 then i else FreeFile(refs, i + 1)
  }

  /** fd_alloc_from(): the lowest unused descriptor from `i` on, or MAXFD. */
  function FreeFd(slots: seq<int>, p: Pid, i: nat): (fd: int)
    requires |slots| == SLOTS && i <= MAXFD
    ensures i <= fd <= MAXFD && (fd < MAXFD ==> slots[Slot(p, fd)] == NONE)
    decreases MAXFD - i
  {
    if i == MAXFD || slots[Slot(p, i)] == NONE then i else FreeFd(slots, p, i + 1)
  }

  /** The first entry of pipe_table without reader and writer, or MAXPIPE. */
  function FreePipe(readers: seq<nat>, writers: seq<nat>, i: nat): (k: int)
    requires |readers| == |writers| == MAXPIPE && i <= MAXPIPE
    ensures i <= k <= MAXPIPE && (k < MAXPIPE ==> readers[k] == writers[k] == 0)
    decreases MAXPIPE - i
  {
    if i == MAXPIPE || (readers[i] == 0 && writers[i] == 0) then i else FreePipe(readers, writers, i + 1)
  }

  lemma {:induction false} FirstFree(refs: seq<int>, i: nat)
    requires i <= |refs|
    ensures forall x :: i <= x < FreeFile(refs, i) ==> refs[x] != 0
    decreases |refs| - i
  {
    if i < |refs| && refs[i] != 0 {
      FirstFree(refs, i + 1);
    }
  }

  /** POSIX asks for the lowest unused descriptor. */
  lemma {:induction false} LowestFd(slots: seq<int>, p: Pid, i: nat)
    requires |slots| == SLOTS && i <= MAXFD
    ensures forall x :: i <= x < FreeFd(slots, p, i) ==> slots[Slot(p, x)] != NONE
    decreases MAXFD - i
  {
    if i < MAXFD && slots[Slot(p, i)] != NONE {
      LowestFd(slots, p, i + 1);
    }
  }

  /** An unused open file becomes one of this kind, with one descriptor. */
  function New(s: State, k: int, o: int, kind: Kind): State
    requires Shaped(s) && 0 <= k < SLOTS && 0 <= o < MAXOPEN
  {
    var t := s.(slots := s.slots[k := o], refs := s.refs[o := 1], kinds := s.kinds[o := kind]);
    match kind
    case File => t
    case ReadEnd(q) => t.(readers := s.readers[q := 1])
    case WriteEnd(q) => t.(writers := s.writers[q := 1])
  }

  lemma NewCounts(s: State, k: int, o: int, kind: Kind)
    requires Shaped(s) && Counted(s) && 0 <= k < SLOTS && s.slots[k] == NONE && 0 <= o < MAXOPEN && s.refs[o] == 0
    ensures Counted(New(s, k, o, kind))
  {
    var t := New(s, k, o, kind);
    forall x | 0 <= x < MAXOPEN
      ensures t.refs[x] == multiset(t.slots)[x]
    {
      CountUpdate(s.slots, k, o, x);
    }
  }

  lemma NewEnds(s: State, k: int, o: int, kind: Kind)
    requires Inv(s) && 0 <= k < SLOTS && 0 <= o < MAXOPEN && s.refs[o] == 0
    requires (kind.ReadEnd? ==> s.readers[kind.pipe] == 0) && (kind.WriteEnd? ==> s.writers[kind.pipe] == 0)
    ensures EndsCounted(New(s, k, o, kind))
  {
    var t := New(s, k, o, kind);
    assert IsLive(t, o) && t.kinds[o] == kind;
    assert forall x :: IsLive(t, x) <==> IsLive(s, x) || x == o;
    assert forall x :: IsLive(s, x) ==> t.kinds[x] == s.kinds[x];
  }

  lemma NewKeeps(s: State, p: Pid, fd: int, o: int, kind: Kind)
    requires Inv(s) && s.live[p] && 0 <= fd < MAXFD && s.slots[Slot(p, fd)] == NONE && 0 <= o < MAXOPEN
      && s.refs[o] == 0
    requires (kind.ReadEnd? ==> s.readers[kind.pipe] == 0) && (kind.WriteEnd? ==> s.writers[kind.pipe] == 0)
    ensures Inv(New(s, Slot(p, fd), o, kind))
  {
    NewCounts(s, Slot(p, fd), o, kind);
    NewEnds(s, Slot(p, fd), o, kind);
  }

  /** The kind of an open file without references does not matter. */
  lemma DeadKindKeeps(s: State, o: int, kind: Kind)
    requires Inv(s) && 0 <= o < MAXOPEN && s.refs[o] == 0
    ensures Inv(s.(kinds := s.kinds[o := kind]))
  {
    var t := s.(kinds := s.kinds[o := kind]);
    assert forall x :: IsLive(t, x) <==> IsLive(s, x);
    assert forall x :: IsLive(s, x) ==> t.kinds[x] == s.kinds[x];
  }

  // ----- the calls of the current process

  predicate IsFd(s: State, fd: int)
    requires Shaped(s)
  {
    0 <= fd < MAXFD && s.slots[Slot(s.cur, fd)] != NONE
  }

  /** The end of sys_open(), once the file is found. */
  function OpenStep(s: State): (State, int)
    requires Shaped(s)
  {
    var o := FreeFile(s.refs, 0);
    if o == MAXOPEN then (s, -ENFILE) else
    var fd := FreeFd(s.slots, s.cur, 0);
    if fd == MAXFD then (s.(kinds := s.kinds[o := File]), -EMFILE)
    else (New(s, Slot(s.cur, fd), o, File), fd)
  }

  /** do_pipe() from the allocation of the read end on, with pipe k; on success both descriptors. */
  function PipeEnds(s: State, k: PipeNo): (State, int, int)
    requires Shaped(s)
  {
    var o := FreeFile(s.refs, 0);
    if o == MAXOPEN then (s, -ENFILE, NONE) else
    var rfd := FreeFd(s.slots, s.cur, 0);
    var marked := s.(kinds := s.kinds[o := ReadEnd(k)]);
    if rfd == MAXFD then (marked, -EMFILE, NONE) else
    var s1 := New(s, Slot(s.cur, rfd), o, ReadEnd(k));
    var o2 := FreeFile(s1.refs, 0);
    if o2 == MAXOPEN then (marked, -ENFILE, NONE) else
    var wfd := FreeFd(s1.slots, s.cur, 0);
    if wfd == MAXFD then (marked.(kinds := marked.kinds[o2 := WriteEnd(k)]), -EMFILE, NONE)
    else (New(s1, Slot(s.cur, wfd), o2, WriteEnd(k)), rfd, wfd)
  }

  function PipeStep(s: State): (State, int, int)
    requires Shaped(s)
  {
    var k := FreePipe(s.readers, s.writers, 0);
    if k == MAXPIPE then (s, -ENFILE, NONE) else PipeEnds(s, k)
  }

  function CloseStep(s: State, fd: int): (State, int)
    requires Shaped(s)
  {
    if IsFd(s, fd) then (Unlink(s, Slot(s.cur, fd)), 0) else (s, -EBADF)
  }

  /** sys_dup(): the count goes up before the descriptor is looked for, and stays up when there is none. */
  function DupStep(s: State, fd: int): (State, int)
    requires Shaped(s)
  {
    if !IsFd(s, fd) then (s, -EBADF) else
    var o := s.slots[Slot(s.cur, fd)];
    var to := FreeFd(s.slots, s.cur, 0);
    if to == MAXFD then (s.(refs := s.refs[o := s.refs[o] + 1]), -EMFILE) else (Link(s, Slot(s.cur, to), o), to)
  }

  /** F_DUPFD */
  function DupFromStep(s: State, fd: int, least: nat): (State, int)
    requires Shaped(s)
  {
    if !IsFd(s, fd) then (s, -EBADF)
    else if least >= MAXFD then (s, -EINVAL) else
    var to := FreeFd(s.slots, s.cur, least);
    if to == MAXFD then (s, -EMFILE) else (Link(s, Slot(s.cur, to), s.slots[Slot(s.cur, fd)]), to)
  }

  /** A descriptor is pointed at an open file, after what it was is given up. */
  function Redirect(s: State, k: int, o: int): State
    requires Shaped(s) && 0 <= k < SLOTS && 0 <= o < MAXOPEN
  {
    if s.slots[k] == NONE then Link(s, k, o)
    else
      ReleaseFrame(s.(slots := s.slots[k := NONE]), s.slots[k]);
      Link(Unlink(s, k), k, o)
  }

  /** sys_dup2(); the last result says that it counts up through a null pointer, which happens when the two
      descriptors are equal: the code closes the descriptor and then reads through it. */
  function Dup2Step(s: State, from: int, to: int): (State, int, bool)
    requires Shaped(s)
  {
    if !IsFd(s, from) || !(0 <= to < MAXFD) then (s, -EBADF, false)
    else if from == to then (Unlink(s, Slot(s.cur, to)), to, true)
    else (Redirect(s, Slot(s.cur, to), s.slots[Slot(s.cur, from)]), to, false)
  }

  lemma RedirectKeeps(s: State, p: Pid, fd: int, from: int)
    requires Inv(s) && s.live[p] && 0 <= fd < MAXFD && 0 <= from < SLOTS && s.slots[from] != NONE && from != Slot(p, fd)
    ensures Inv(Redirect(s, Slot(p, fd), s.slots[from]))
  {
    var k := Slot(p, fd);
    if s.slots[k] == NONE {
      Held(s, from);
      LinkKeeps(s, p, fd, s.slots[from]);
    } else {
      UnlinkKeeps(s, k);
      ReleaseFrame(s.(slots := s.slots[k := NONE]), s.slots[k]);
      Held(Unlink(s, k), from);
      LinkKeeps(Unlink(s, k), p, fd, s.slots[from]);
    }
  }

  lemma OpenKeeps(s: State)
    requires Inv(s) && s.live[s.cur]
    ensures Inv(OpenStep(s).0)
  {
    var o := FreeFile(s.refs, 0);
    if o == MAXOPEN { return; }
    var fd := FreeFd(s.slots, s.cur, 0);
    if fd == MAXFD {
      DeadKindKeeps(s, o, File);
    } else {
      NewKeeps(s, s.cur, fd, o, File);
    }
  }

  lemma NewShaped(s: State, p: Pid, fd: int, o: int, kind: Kind)
    requires Shaped(s) && 0 <= fd < MAXFD && 0 <= o < MAXOPEN
    ensures var t := New(s, Slot(p, fd), o, kind);
            && Shaped(t) && t.live == s.live && t.cur == s.cur && t.slots == s.slots[Slot(p, fd) := o]
            && t.refs == s.refs[o := 1] && t.kinds == s.kinds[o := kind]
            && (!kind.WriteEnd? ==> t.writers == s.writers) && (!kind.ReadEnd? ==> t.readers == s.readers)
  {
  }

  lemma PipeEndsKeeps(s: State, k: PipeNo)
    requires Inv(s) && s.live[s.cur] && s.readers[k] == s.writers[k] == 0
    ensures Inv(PipeEnds(s, k).0)
  {
    var o := FreeFile(s.refs, 0);
    if o == MAXOPEN { return; }
    DeadKindKeeps(s, o, ReadEnd(k));
    var marked := s.(kinds := s.kinds[o := ReadEnd(k)]);
    var rfd := FreeFd(s.slots, s.cur, 0);
    if rfd == MAXFD { return; }
    NewKeeps(s, s.cur, rfd, o, ReadEnd(k));
    NewShaped(s, s.cur, rfd, o, ReadEnd(k));
    var s1 := New(s, Slot(s.cur, rfd), o, ReadEnd(k));
    var o2 := FreeFile(s1.refs, 0);
    if o2 == MAXOPEN { return; }
    var wfd := FreeFd(s1.slots, s.cur, 0);
    if wfd == MAXFD {
      DeadKindKeeps(marked, o2, WriteEnd(k));
    } else {
      NewKeeps(s1, s.cur, wfd, o2, WriteEnd(k));
    }
  }

  /** do_pipe() keeps the accounting, never takes a pipe that some descriptor still refers to, and when it fails
      changes neither descriptors nor counts. */
  lemma PipeKeeps(s: State)
    requires Inv(s) && s.live[s.cur]
    ensures var (t, rfd, wfd) := PipeStep(s);
            && Inv(t)
            && (wfd == NONE ==>
                  t.slots == s.slots && t.refs == s.refs && t.readers == s.readers && t.writers == s.writers)
            && (wfd != NONE ==> NewPipe(s, t, rfd, wfd))
  {
    var k := FreePipe(s.readers, s.writers, 0);
    if k == MAXPIPE { return; }
    PipeEndsKeeps(s, k);
    PipeIsNew(s, k);
  }

  /** Two unused descriptors of the current process now are the two ends of a pipe that no descriptor was an
      end of, with one reader and one writer. */
  ghost predicate NewPipe(s: State, t: State, rfd: int, wfd: int)
    requires Shaped(s) && Shaped(t)
  {
    && IsFd(t, rfd) && IsFd(t, wfd) && rfd != wfd && !IsFd(s, rfd) && !IsFd(s, wfd) && t.cur == s.cur
    && var r, w := t.kinds[t.slots[Slot(t.cur, rfd)]], t.kinds[t.slots[Slot(t.cur, wfd)]];
       && r.ReadEnd? && w == WriteEnd(r.pipe) && t.readers[r.pipe] == t.writers[r.pipe] == 1
       && (forall k :: 0 <= k < SLOTS && s.slots[k] != NONE ==>
             t.slots[k] == s.slots[k] && s.kinds[s.slots[k]] != r && s.kinds[s.slots[k]] != w)
  }

  lemma Unreferred(s: State, k: PipeNo)
    requires Inv(s) && s.readers[k] == s.writers[k] == 0
    ensures forall x :: 0 <= x < SLOTS && s.slots[x] != NONE ==>
      s.refs[s.slots[x]] > 0 && s.kinds[s.slots[x]] != ReadEnd(k) && s.kinds[s.slots[x]] != WriteEnd(k)
  {
    forall x | 0 <= x < SLOTS && s.slots[x] != NONE
      ensures IsLive(s, s.slots[x])
    {
      Held(s, x);
    }
  }

  lemma PipeIsNew(s: State, k: PipeNo)
    requires Inv(s) && s.readers[k] == s.writers[k] == 0 && Shaped(PipeEnds(s, k).0)
    ensures var (t, rfd, wfd) := PipeEnds(s, k);
            if wfd != NONE then NewPipe(s, t, rfd, wfd)
            else t.slots == s.slots && t.refs == s.refs && t.readers == s.readers && t.writers == s.writers
  {
    hide Counted, EndsCounted, Cleared, FreeFile, FreeFd;
    var (t, rfd, wfd) := PipeEnds(s, k);
    if wfd == NONE { return; }
    Unreferred(s, k);
    var o := FreeFile(s.refs, 0);
    NewShaped(s, s.cur, rfd, o, ReadEnd(k));
    var s1 := New(s, Slot(s.cur, rfd), o, ReadEnd(k));
    NewShaped(s1, s.cur, wfd, FreeFile(s1.refs, 0), WriteEnd(k));
  }

  lemma CloseKeeps(s: State, fd: int)
    requires Inv(s)
    ensures Inv(CloseStep(s, fd).0)
  {
    if IsFd(s, fd) {
      UnlinkKeeps(s, Slot(s.cur, fd));
    }
  }

  lemma DupFromKeeps(s: State, fd: int, least: nat)
    requires Inv(s) && s.live[s.cur]
    ensures Inv(DupFromStep(s, fd, least).0)
  {
    if !IsFd(s, fd) || least >= MAXFD { return; }
    var to := FreeFd(s.slots, s.cur, least);
    if to == MAXFD { return; }
    Held(s, Slot(s.cur, fd));
    LinkKeeps(s, s.cur, to, s.slots[Slot(s.cur, fd)]);
  }

  /** sys_dup() keeps the accounting exactly when the descriptor is bad or another one is free: on a full table
      it leaves a reference that no descriptor holds. */
  lemma DupKeeps(s: State, fd: int)
    requires Inv(s) && s.live[s.cur]
    ensures Shaped(DupStep(s, fd).0)
    ensures Inv(DupStep(s, fd).0) <==> !IsFd(s, fd) || FreeFd(s.slots, s.cur, 0) < MAXFD
  {
    if !IsFd(s, fd) { return; }
    var o := s.slots[Slot(s.cur, fd)];
    var to := FreeFd(s.slots, s.cur, 0);
    if to == MAXFD {
      assert DupStep(s, fd).0.refs[o] == multiset(s.slots)[o] + 1;
    } else {
      Held(s, Slot(s.cur, fd));
      LinkKeeps(s, s.cur, to, o);
    }
  }

  /** sys_dup2() keeps the accounting; the descriptor it returns is open, on the file of the first one, exactly
      when the two were different. */
  lemma Dup2Keeps(s: State, from: int, to: int)
    requires Inv(s) && s.live[s.cur]
    ensures var (t, r, stray) := Dup2Step(s, from, to);
            && Inv(t) && (stray <==> from == to && IsFd(s, from))
            && (r >= 0 ==> r == to && t.cur == s.cur && (IsFd(t, to) <==> from != to))
            && (r >= 0 && from != to ==>
                  t.slots[Slot(s.cur, to)] == t.slots[Slot(s.cur, from)] == s.slots[Slot(s.cur, from)])
  {
    if !IsFd(s, from) || !(0 <= to < MAXFD) { return; }
    if from == to {
      UnlinkKeeps(s, Slot(s.cur, to));
      ReleaseFrame(s.(slots := s.slots[Slot(s.cur, to) := NONE]), s.slots[Slot(s.cur, to)]);
    } else {
      RedirectKeeps(s, s.cur, to, Slot(s.cur, from));
      RedirectSlots(s, Slot(s.cur, to), s.slots[Slot(s.cur, from)]);
    }
  }

  lemma RedirectSlots(s: State, k: int, o: int)
    requires Shaped(s) && 0 <= k < SLOTS && 0 <= o < MAXOPEN
    ensures var t := Redirect(s, k, o);
            t.slots == s.slots[k := o] && t.live == s.live && t.cur == s.cur && t.kinds == s.kinds
  {
    if s.slots[k] != NONE {
      ReleaseFrame(s.(slots := s.slots[k := NONE]), s.slots[k]);
    }
  }

  // ----- processes

  /** The descriptors of a process. */
  function Fds(s: State, p: Pid): (r: seq<int>)
    requires Shaped(s)
    ensures |r| == MAXFD && forall fd :: 0 <= fd < MAXFD ==> r[fd] == s.slots[Slot(p, fd)]
  {
    s.slots[p * MAXFD..p * MAXFD + MAXFD]
  }

  function Replaced(slots: seq<int>, p: Pid, fds: seq<int>): (r: seq<int>)
    requires |slots| == SLOTS && |fds| == MAXFD
    ensures |r| == SLOTS && forall fd :: 0 <= fd < MAXFD ==> r[Slot(p, fd)] == fds[fd]
    ensures forall k :: 0 <= k < SLOTS && !(Slot(p, 0) <= k < Slot(p, 0) + MAXFD) ==> r[k] == slots[k]
  {
    slots[..p * MAXFD] + fds + slots[p * MAXFD + MAXFD..]
  }

  /** Every descriptor counts once more. */
  function Recount(refs: seq<int>, fds: seq<int>): (r: seq<int>)
    requires |refs| == MAXOPEN
    ensures |r| == MAXOPEN && forall o :: 0 <= o < MAXOPEN ==> r[o] == refs[o] + multiset(fds)[o]
  {
    seq(MAXOPEN, o requires 0 <= o < MAXOPEN => refs[o] + multiset(fds)[o])
  }

  /** Process `c` gets a reference of its own for every descriptor of the current process (spawn and vfork). */
  function ShareStep(s: State, c: Pid): State
    requires Shaped(s)
  {
    var fds := Fds(s, s.cur);
    s.(slots := Replaced(s.slots, c, fds),
       refs := Recount(s.refs, fds), live := s.live[c := true])
  }

  lemma ReplacedCounts(slots: seq<int>, p: Pid, fds: seq<int>, o: int)
    requires |slots| == SLOTS && |fds| == MAXFD && 0 <= o
    requires forall fd :: 0 <= fd < MAXFD ==> slots[Slot(p, fd)] == NONE
    ensures multiset(Replaced(slots, p, fds))[o] == multiset(slots)[o] + multiset(fds)[o]
  {
    var a, b, c := slots[..p * MAXFD], slots[p * MAXFD..p * MAXFD + MAXFD], slots[p * MAXFD + MAXFD..];
    assert slots == a + b + c;
    forall i | 0 <= i < |b|
      ensures b[i] == NONE
    {
      assert b[i] == slots[Slot(p, i)];
    }
    assert o !in b;
  }

  lemma ShareShaped(s: State, c: Pid)
    requires Shaped(s)
    ensures Shaped(ShareStep(s, c))
  {
    var t := ShareStep(s, c);
    forall k | 0 <= k < SLOTS
      ensures NONE <= t.slots[k] < MAXOPEN
    {
      if Slot(c, 0) <= k < Slot(c, 0) + MAXFD {
        assert t.slots[k] == Fds(s, s.cur)[k - Slot(c, 0)];
      }
    }
  }

  /** A file is referred to after sharing exactly when it was before. */
  lemma ShareLive(s: State, c: Pid, o: int)
    requires Shaped(s) && Counted(s) && 0 <= o < MAXOPEN
    ensures s.refs[o] + multiset(Fds(s, s.cur))[o] > 0 <==> s.refs[o] > 0
  {
    if o in Fds(s, s.cur) {
      var fd :| 0 <= fd < MAXFD && Fds(s, s.cur)[fd] == o;
      Held(s, Slot(s.cur, fd));
    }
  }

  lemma ShareCounts(s: State, c: Pid)
    requires Shaped(s) && Counted(s) && Cleared(s) && !s.live[c]
    ensures var t := ShareStep(s, c); Shaped(t) && Counted(t)
  {
    ShareShaped(s, c);
    forall o | 0 <= o < MAXOPEN
      ensures multiset(Replaced(s.slots, c, Fds(s, s.cur)))[o] == multiset(s.slots)[o] + multiset(Fds(s, s.cur))[o]
    {
      ReplacedCounts(s.slots, c, Fds(s, s.cur), o);
    }
  }

  lemma SameEnds(s: State, t: State)
    requires Shaped(s) && EndsCounted(s) && Shaped(t) && t.kinds == s.kinds && t.readers == s.readers
      && t.writers == s.writers
    requires forall o :: 0 <= o < MAXOPEN ==> (t.refs[o] > 0 <==> s.refs[o] > 0)
    ensures EndsCounted(t)
  {
    assert forall o :: IsLive(t, o) <==> IsLive(s, o);
  }

  lemma ShareKeeps(s: State, c: Pid)
    requires Inv(s) && s.live[s.cur] && !s.live[c]
    ensures Inv(ShareStep(s, c))
  {
    ShareCounts(s, c);
    forall o | 0 <= o < MAXOPEN
      ensures s.refs[o] + multiset(Fds(s, s.cur))[o] > 0 <==> s.refs[o] > 0
    {
      ShareLive(s, c, o);
    }
    SameEnds(s, ShareStep(s, c));
    ShareCleared(s, c);
  }

  lemma ShareCleared(s: State, c: Pid)
    requires Shaped(s) && Cleared(s) && Shaped(ShareStep(s, c))
    ensures Cleared(ShareStep(s, c))
  {
    var t := ShareStep(s, c);
    forall p: Pid, fd | !t.live[p] && 0 <= fd < MAXFD
      ensures t.slots[Slot(p, fd)] == NONE
    {
      assert !(Slot(c, 0) <= Slot(p, fd) < Slot(c, 0) + MAXFD);
    }
  }

  /** One replacement of do_spawn_fd(): descriptor `fd` of the child becomes descriptor `from` of the parent. */
  function HandStep(s: State, c: Pid, fd: int, from: int): State
    requires Shaped(s) && 0 <= fd < MAXFD
  {
    if IsFd(s, from) then Redirect(s, Slot(c, fd), s.slots[Slot(s.cur, from)]) else s
  }

  lemma HandKeeps(s: State, c: Pid, fd: int, from: int)
    requires Inv(s) && s.live[c] && c != s.cur && 0 <= fd < MAXFD
    ensures var t := HandStep(s, c, fd, from); Inv(t) && t.live == s.live && t.cur == s.cur
  {
    if IsFd(s, from) {
      RedirectKeeps(s, c, fd, Slot(s.cur, from));
    }
  }

  /** The close loop of do_exit() from descriptor `fd` on. */
  function ExitFrom(s: State, fd: nat): State
    requires Shaped(s) && fd <= MAXFD
    decreases MAXFD - fd
  {
    if fd == MAXFD then s.(live := s.live[s.cur := false])
    else if IsFd(s, fd) then
      ReleaseFrame(s.(slots := s.slots[Slot(s.cur, fd) := NONE]), s.slots[Slot(s.cur, fd)]);
      ExitFrom(Unlink(s, Slot(s.cur, fd)), fd + 1)
    else ExitFrom(s, fd + 1)
  }

  /** The descriptors below `fd` of the current process are closed. */
  predicate ClosedBelow(s: State, fd: nat)
    requires Shaped(s) && fd <= MAXFD
  {
    forall x :: 0 <= x < fd ==> s.slots[Slot(s.cur, x)] == NONE
  }

  lemma UnlinkCloses(s: State, fd: nat)
    requires Shaped(s) && fd < MAXFD && ClosedBelow(s, fd) && IsFd(s, fd)
    ensures var t := Unlink(s, Slot(s.cur, fd)); Shaped(t) && ClosedBelow(t, fd + 1)
  {
    ReleaseFrame(s.(slots := s.slots[Slot(s.cur, fd) := NONE]), s.slots[Slot(s.cur, fd)]);
  }

  lemma BuryKeeps(s: State)
    requires Inv(s) && ClosedBelow(s, MAXFD)
    ensures Inv(s.(live := s.live[s.cur := false]))
  {
    SameEnds(s, s.(live := s.live[s.cur := false]));
  }

  lemma {:induction false} ExitKeeps(s: State, fd: nat)
    requires Inv(s) && fd <= MAXFD && ClosedBelow(s, fd)
    ensures Inv(ExitFrom(s, fd))
    decreases MAXFD - fd
  {
    if fd == MAXFD {
      BuryKeeps(s);
    } else if IsFd(s, fd) {
      UnlinkKeeps(s, Slot(s.cur, fd));
      UnlinkCloses(s, fd);
      ExitKeeps(Unlink(s, Slot(s.cur, fd)), fd + 1);
    } else {
      ExitKeeps(s, fd + 1);
    }
  }

  // ----- what the accounting gives

  /** End of file: a pipe has no writer exactly when no descriptor of any process is its write end. */
  lemma WritersGone(s: State, k: PipeNo)
    requires Inv(s)
    ensures s.writers[k] == 0 <==> forall x :: 0 <= x < SLOTS && s.slots[x] != NONE ==>
      s.kinds[s.slots[x]] != WriteEnd(k)
  {
    if s.writers[k] == 0 {
      forall x | 0 <= x < SLOTS && s.slots[x] != NONE
        ensures s.kinds[s.slots[x]] != WriteEnd(k)
      {
        Held(s, x);
      }
    } else {
      var o :| IsLive(s, o) && s.kinds[o] == WriteEnd(k);
      var x := Holder(s, o);
    }
  }

  /** Broken pipe: a pipe has no reader exactly when no descriptor of any process is its read end. */
  lemma ReadersGone(s: State, k: PipeNo)
    requires Inv(s)
    ensures s.readers[k] == 0 <==> forall x :: 0 <= x < SLOTS && s.slots[x] != NONE ==>
      s.kinds[s.slots[x]] != ReadEnd(k)
  {
    if s.readers[k] == 0 {
      forall x | 0 <= x < SLOTS && s.slots[x] != NONE
        ensures s.kinds[s.slots[x]] != ReadEnd(k)
      {
        Held(s, x);
      }
    } else {
      var o :| IsLive(s, o) && s.kinds[o] == ReadEnd(k);
      var x := Holder(s, o);
    }
  }

  /** The descriptors determine the rest: two sound states in which every descriptor refers to the same file, of the
      same kind, have the same reference counts, readers and writers. */
  lemma DescriptorsDetermine(s: State, t: State)
    requires Inv(s) && Inv(t) && s.slots == t.slots
    requires forall k :: 0 <= k < SLOTS && s.slots[k] != NONE ==> s.kinds[s.slots[k]] == t.kinds[s.slots[k]]
    ensures s.refs == t.refs && s.readers == t.readers && s.writers == t.writers
  {
    forall k: PipeNo
      ensures s.readers[k] == t.readers[k] && s.writers[k] == t.writers[k]
    {
      ReadersGone(s, k);
      ReadersGone(t, k);
      WritersGone(s, k);
      WritersGone(t, k);
    }
  }

  /** Which descriptor close() takes away; the others stay. */
  lemma CloseSlots(s: State, fd: int)
    requires Shaped(s)
    ensures var (t, r) := CloseStep(s, fd);
            if IsFd(s, fd) then r == 0 && t.slots == s.slots[Slot(s.cur, fd) := NONE] && t.kinds == s.kinds
              && t.cur == s.cur
            else r == -EBADF && t == s
  {
    if IsFd(s, fd) {
      ReleaseFrame(s.(slots := s.slots[Slot(s.cur, fd) := NONE]), s.slots[Slot(s.cur, fd)]);
    }
  }

  /** The close of a write end leaves the pipe at end of file exactly when no other descriptor of any process is a
      write end of it. */
  lemma LastWriterCloses(s: State, fd: int, k: PipeNo)
    requires Inv(s) && IsFd(s, fd) && s.kinds[s.slots[Slot(s.cur, fd)]] == WriteEnd(k)
    ensures Inv(CloseStep(s, fd).0)
    ensures CloseStep(s, fd).0.writers[k] == 0 <==>
            forall x :: 0 <= x < SLOTS && x != Slot(s.cur, fd) && s.slots[x] != NONE ==>
              s.kinds[s.slots[x]] != WriteEnd(k)
  {
    CloseKeeps(s, fd);
    CloseSlots(s, fd);
    WritersGone(CloseStep(s, fd).0, k);
    assert forall x :: 0 <= x < SLOTS && x != Slot(s.cur, fd) ==> CloseStep(s, fd).0.slots[x] == s.slots[x];
  }

  /** The close of a read end breaks the pipe exactly when no other descriptor of any process is a read end of it. */
  lemma LastReaderCloses(s: State, fd: int, k: PipeNo)
    requires Inv(s) && IsFd(s, fd) && s.kinds[s.slots[Slot(s.cur, fd)]] == ReadEnd(k)
    ensures Inv(CloseStep(s, fd).0)
    ensures CloseStep(s, fd).0.readers[k] == 0 <==>
            forall x :: 0 <= x < SLOTS && x != Slot(s.cur, fd) && s.slots[x] != NONE ==>
              s.kinds[s.slots[x]] != ReadEnd(k)
  {
    CloseKeeps(s, fd);
    CloseSlots(s, fd);
    ReadersGone(CloseStep(s, fd).0, k);
    assert forall x :: 0 <= x < SLOTS && x != Slot(s.cur, fd) ==> CloseStep(s, fd).0.slots[x] == s.slots[x];
  }

  /** r is the lowest descriptor from `least` on that the process has not in use. */
  predicate LowestFree(s: State, least: nat, r: int)
    requires Shaped(s)
  {
    least <= r < MAXFD && !IsFd(s, r) && forall x :: least <= x < r ==> IsFd(s, x)
  }

  /** open() takes the lowest descriptor, for a file that nothing referred to, and fails exactly when the descriptors
      of the process or the open files are used up. */
  lemma OpenGives(s: State)
    requires Inv(s)
    ensures var (t, r) := OpenStep(s);
            && (r < 0 <==>
                  (forall x :: 0 <= x < MAXFD ==> IsFd(s, x)) || forall o :: 0 <= o < MAXOPEN ==> s.refs[o] > 0)
            && (r < 0 ==> t.slots == s.slots && t.refs == s.refs)
            && (r >= 0 ==> LowestFree(s, 0, r) && Shaped(t)
                           && t.slots == s.slots[Slot(s.cur, r) := t.slots[Slot(s.cur, r)]]
                           && t.slots[Slot(s.cur, r)] !in s.slots && t.kinds[t.slots[Slot(s.cur, r)]] == File)
  {
    FirstFree(s.refs, 0);
    LowestFd(s.slots, s.cur, 0);
    var o, fd := FreeFile(s.refs, 0), FreeFd(s.slots, s.cur, 0);
    if o < MAXOPEN {
      assert s.refs[o] == multiset(s.slots)[o];
      if fd < MAXFD {
        assert !IsFd(s, fd);
      }
    }
  }

  /** F_DUPFD takes the lowest descriptor from `least` on and points it at the same open file; it fails exactly when
      the descriptor is bad, `least` is too large, or none is left, and then changes nothing. */
  lemma DupFromGives(s: State, fd: int, least: nat)
    requires Inv(s)
    ensures var (t, r) := DupFromStep(s, fd, least);
            && (r < 0 <==> !IsFd(s, fd) || forall x :: least <= x < MAXFD ==> IsFd(s, x))
            && (r < 0 ==> t == s && r == if !IsFd(s, fd) then -EBADF else if least >= 16 then -EINVAL else -EMFILE)
            && (r >= 0 ==> LowestFree(s, least, r) && t.slots == s.slots[Slot(s.cur, r) := s.slots[Slot(s.cur, fd)]])
  {
    if IsFd(s, fd) && least < MAXFD {
      LowestFd(s.slots, s.cur, least);
      var to := FreeFd(s.slots, s.cur, least);
      if to < MAXFD {
        assert !IsFd(s, to);
      }
    }
  }

  /** dup() takes the lowest descriptor and points it at the open file of the one named. It fails exactly when that is
      bad or none is left, and then changes no descriptor. */
  lemma DupGives(s: State, fd: int)
    requires Shaped(s)
    ensures var (t, r) := DupStep(s, fd);
            && (r < 0 <==> !IsFd(s, fd) || forall x :: 0 <= x < MAXFD ==> IsFd(s, x))
            && (r < 0 ==> r == (if IsFd(s, fd) then -EMFILE else -EBADF) && t.slots == s.slots)
            && (r >= 0 ==> LowestFree(s, 0, r) && t.slots == s.slots[Slot(s.cur, r) := s.slots[Slot(s.cur, fd)]])
            && t == s.(slots := t.slots, refs := t.refs)
  {
    LowestFd(s.slots, s.cur, 0);
    var to := FreeFd(s.slots, s.cur, 0);
    if to < MAXFD {
      assert !IsFd(s, to);
    }
  }

  /** dup2() points the second descriptor at the open file of the first and changes no other one; it fails exactly when
      the first is bad or the second out of range, and then changes nothing. */
  lemma Dup2Gives(s: State, from: int, to: int)
    requires Shaped(s)
    ensures var (t, r, _) := Dup2Step(s, from, to);
            && (r < 0 <==> !IsFd(s, from) || !(0 <= to < MAXFD)) && (r < 0 ==> r == -EBADF && t == s)
            && (r >= 0 ==> r == to && t.kinds == s.kinds && t.live == s.live && t.cur == s.cur)
            && (r >= 0 && from != to ==> t.slots == s.slots[Slot(s.cur, to) := s.slots[Slot(s.cur, from)]])
            && (r >= 0 && from == to ==> t.slots == s.slots[Slot(s.cur, to) := NONE])
  {
    if IsFd(s, from) && 0 <= to < MAXFD {
      RedirectSlots(s, Slot(s.cur, to), s.slots[Slot(s.cur, from)]);
      if from == to {
        ReleaseFrame(s.(slots := s.slots[Slot(s.cur, to) := NONE]), s.slots[Slot(s.cur, to)]);
      }
    }
  }

  /** A pipe without reader and writer, two descriptors of the process that are not in use, and two open files without
      references. */
  ghost predicate RoomForPipe(s: State)
    requires Shaped(s)
  {
    && (exists k: PipeNo :: s.readers[k] == s.writers[k] == 0)
    && (exists x, y :: 0 <= x < y < MAXFD && !IsFd(s, x) && !IsFd(s, y))
    && exists a, b :: 0 <= a < b < MAXOPEN && s.refs[a] == s.refs[b] == 0
  }

  /** What pipe() gives: the two lowest descriptors, for the read end and the write end of a pipe that had neither,
      which now has one of each. */
  ghost predicate PipeMade(s: State, t: State, rfd: int, wfd: int, k: PipeNo)
    requires Shaped(s)
  {
    && LowestFree(s, 0, rfd) && LowestFree(s, rfd + 1, wfd) && s.readers[k] == s.writers[k] == 0 && |t.slots| == SLOTS
    && var a, b := t.slots[Slot(s.cur, rfd)], t.slots[Slot(s.cur, wfd)];
       && 0 <= a < MAXOPEN && 0 <= b < MAXOPEN && a != b && s.refs[a] == s.refs[b] == 0
       && t == s.(slots := s.slots[Slot(s.cur, rfd) := a][Slot(s.cur, wfd) := b], refs := s.refs[a := 1][b := 1],
                  kinds := s.kinds[a := ReadEnd(k)][b := WriteEnd(k)],
                  readers := s.readers[k := 1], writers := s.writers[k := 1])
  }

  lemma {:induction false} LowestPipe(readers: seq<nat>, writers: seq<nat>, i: nat)
    requires |readers| == |writers| == MAXPIPE && i <= MAXPIPE
    ensures forall x :: i <= x < FreePipe(readers, writers, i) ==> readers[x] != 0 || writers[x] != 0
    decreases MAXPIPE - i
  {
    if i < MAXPIPE && !(readers[i] == 0 && writers[i] == 0) {
      LowestPipe(readers, writers, i + 1);
    }
  }

  lemma LowestFrom(s: State, i: nat)
    requires Shaped(s) && i <= MAXFD
    ensures var fd := FreeFd(s.slots, s.cur, i);
            if fd == MAXFD then forall x :: i <= x < MAXFD ==> IsFd(s, x) else LowestFree(s, i, fd)
  {
    LowestFd(s.slots, s.cur, i);
  }

  lemma {:induction false} FreeFdFrom(slots: seq<int>, p: Pid, i: nat, j: nat)
    requires |slots| == SLOTS && i <= j <= MAXFD && forall x :: i <= x < j ==> slots[Slot(p, x)] != NONE
    ensures FreeFd(slots, p, i) == FreeFd(slots, p, j)
    decreases j - i
  {
    if i < j {
      FreeFdFrom(slots, p, i + 1, j);
    }
  }

  /** The second descriptor of pipe() is the lowest one behind the first. */
  lemma SecondFd(s: State, o: int, kind: Kind)
    requires Shaped(s) && 0 <= o < MAXOPEN && FreeFd(s.slots, s.cur, 0) < MAXFD
    ensures var fd := FreeFd(s.slots, s.cur, 0);
            FreeFd(New(s, Slot(s.cur, fd), o, kind).slots, s.cur, 0) == FreeFd(s.slots, s.cur, fd + 1)
  {
    var fd := FreeFd(s.slots, s.cur, 0);
    var slots := New(s, Slot(s.cur, fd), o, kind).slots;
    LowestFd(s.slots, s.cur, 0);
    FreeFdFrom(slots, s.cur, 0, fd + 1);
    FreeFdSame(s.slots, slots, s.cur, fd + 1);
  }

  lemma {:induction false} FreeFdSame(slots: seq<int>, slots': seq<int>, p: Pid, i: nat)
    requires |slots| == |slots'| == SLOTS && i <= MAXFD
    requires forall x :: i <= x < MAXFD ==> slots'[Slot(p, x)] == slots[Slot(p, x)]
    ensures FreeFd(slots', p, i) == FreeFd(slots, p, i)
    decreases MAXFD - i
  {
    if i < MAXFD {
      FreeFdSame(slots, slots', p, i + 1);
    }
  }

  /** pipe() works exactly when there is room for it. */
  lemma PipeGives(s: State)
    requires Shaped(s)
    ensures var (t, rfd, wfd) := PipeStep(s);
            && (wfd == NONE <==> !RoomForPipe(s))
            && (wfd == NONE ==> rfd < 0 && t.slots == s.slots && t.refs == s.refs && t.readers == s.readers
                                && t.writers == s.writers && t.live == s.live && t.cur == s.cur)
            && (wfd != NONE ==> exists k: PipeNo :: PipeMade(s, t, rfd, wfd, k))
  {
    LowestPipe(s.readers, s.writers, 0);
    var k := FreePipe(s.readers, s.writers, 0);
    if k < MAXPIPE {
      EndsGive(s, k);
    }
  }

  lemma EndsGive(s: State, k: PipeNo)
    requires Shaped(s) && s.readers[k] == s.writers[k] == 0
    ensures var (t, rfd, wfd) := PipeEnds(s, k);
            && (wfd == NONE <==> !RoomForPipe(s))
            && (wfd == NONE ==> rfd < 0 && t.slots == s.slots && t.refs == s.refs && t.readers == s.readers
                                && t.writers == s.writers && t.live == s.live && t.cur == s.cur)
            && (wfd != NONE ==> PipeMade(s, t, rfd, wfd, k))
  {
    hide FreeFd, FreeFile;
    FirstFree(s.refs, 0);
    LowestFrom(s, 0);
    var o, rfd := FreeFile(s.refs, 0), FreeFd(s.slots, s.cur, 0);
    if o == MAXOPEN || rfd == MAXFD { return; }
    var s1 := New(s, Slot(s.cur, rfd), o, ReadEnd(k));
    NewShaped(s, s.cur, rfd, o, ReadEnd(k));
    FirstFree(s1.refs, 0);
    SecondFd(s, o, ReadEnd(k));
    LowestFrom(s, rfd + 1);
    var o2, wfd := FreeFile(s1.refs, 0), FreeFd(s.slots, s.cur, rfd + 1);
    assert forall x :: 0 <= x < MAXOPEN && x != o ==> s1.refs[x] == s.refs[x];
    if o2 < MAXOPEN && wfd < MAXFD {
      assert o < o2 && !IsFd(s, rfd) && !IsFd(s, wfd);
    }
  }

  /** After exit the process has no descriptors, and the other processes have theirs. */
  lemma {:induction false} ExitCloses(s: State, fd: nat)
    requires Shaped(s) && fd <= MAXFD && ClosedBelow(s, fd)
    ensures var t := ExitFrom(s, fd);
            && t.live == s.live[s.cur := false] && t.kinds == s.kinds && t.cur == s.cur
            && |t.slots| == SLOTS && (forall x :: 0 <= x < MAXFD ==> t.slots[Slot(s.cur, x)] == NONE)
            && (forall p: Pid, x :: p != s.cur && 0 <= x < MAXFD ==> t.slots[Slot(p, x)] == s.slots[Slot(p, x)])
    decreases MAXFD - fd
  {
    if fd < MAXFD {
      if IsFd(s, fd) {
        UnlinkCloses(s, fd);
        ReleaseFrame(s.(slots := s.slots[Slot(s.cur, fd) := NONE]), s.slots[Slot(s.cur, fd)]);
        ExitCloses(Unlink(s, Slot(s.cur, fd)), fd + 1);
      } else {
        ExitCloses(s, fd + 1);
      }
    }
  }

  /** A child of spawn() or vfork() has the descriptors of its parent, and the other processes keep theirs. */
  lemma ChildInherits(s: State, c: Pid)
    requires Shaped(s)
    ensures var t := ShareStep(s, c);
            && Shaped(t) && Fds(t, c) == Fds(s, s.cur)
            && forall p: Pid :: p != c ==> Fds(t, p) == Fds(s, p)
  {
    ShareShaped(s, c);
    var t := ShareStep(s, c);
    assert Fds(t, c) == Fds(s, s.cur);
    forall p: Pid | p != c
      ensures Fds(t, p) == Fds(s, p)
    {
      forall x | 0 <= x < MAXFD
        ensures t.slots[Slot(p, x)] == s.slots[Slot(p, x)]
      {
        assert !(Slot(c, 0) <= Slot(p, x) < Slot(c, 0) + MAXFD);
      }
    }
  }

  lemma HandSlots(s: State, c: Pid, fd: int, from: int)
    requires Shaped(s) && 0 <= fd < MAXFD
    ensures var t := HandStep(s, c, fd, from);
            t.slots == if IsFd(s, from) then s.slots[Slot(c, fd) := s.slots[Slot(s.cur, from)]] else s.slots
  {
    if IsFd(s, from) {
      RedirectSlots(s, Slot(c, fd), s.slots[Slot(s.cur, from)]);
    }
  }

  /** Descriptors `fd` to 2 of the child are what the caller has on the descriptors it names, where these are open;
      all other descriptors are as before. */
  predicate Handed(s: State, t: State, c: Pid, fds: seq<int>, fd: nat)
    requires Shaped(s) && Shaped(t) && |fds| == 3 && fd <= 3
  {
    && (forall k :: 0 <= k < SLOTS && !(Slot(c, 0) + fd <= k < Slot(c, 0) + 3) ==> t.slots[k] == s.slots[k])
    && forall x :: fd <= x < 3 ==>
         t.slots[Slot(c, x)] == if IsFd(s, fds[x]) then s.slots[Slot(s.cur, fds[x])] else s.slots[Slot(c, x)]
  }

  lemma HandedStep(s: State, u: State, t: State, c: Pid, fds: seq<int>, fd: nat)
    requires Shaped(s) && Shaped(u) && Shaped(t) && |fds| == 3 && fd < 3 && c != s.cur && u.cur == s.cur
    requires u.slots == if IsFd(s, fds[fd]) then s.slots[Slot(c, fd) := s.slots[Slot(s.cur, fds[fd])]] else s.slots
    requires Handed(u, t, c, fds, fd + 1)
    ensures Handed(s, t, c, fds, fd)
  {
    forall y | 0 <= y < MAXFD
      ensures u.slots[Slot(s.cur, y)] == s.slots[Slot(s.cur, y)]
    {
    }
    forall x | fd <= x < 3
      ensures t.slots[Slot(c, x)] == if IsFd(s, fds[x]) then s.slots[Slot(s.cur, fds[x])] else s.slots[Slot(c, x)]
    {
      assert IsFd(u, fds[x]) <==> IsFd(s, fds[x]);
    }
  }

  /** spawn_fd() replaces the three descriptors of the child by what the caller named, and leaves all others, those of
      the caller included. */
  lemma {:induction false} HandAllGives(s: State, c: Pid, fds: seq<int>, fd: nat)
    requires Inv(s) && s.live[c] && c != s.cur && |fds| == 3 && fd <= 3
    ensures var t := HandAll(s, c, fds, fd); Shaped(t) && Handed(s, t, c, fds, fd)
    decreases 3 - fd
  {
    if fd < 3 {
      var u := HandStep(s, c, fd, fds[fd]);
      HandKeeps(s, c, fd, fds[fd]);
      HandSlots(s, c, fd, fds[fd]);
      HandAllGives(u, c, fds, fd + 1);
      HandedStep(s, u, HandAll(u, c, fds, fd + 1), c, fds, fd);
    }
  }

  lemma {:induction false} CountBound(slots: seq<int>, o: int)
    ensures multiset(slots)[o] <= |slots|
    ensures multiset(slots)[o] == |slots| <==> forall k :: 0 <= k < |slots| ==> slots[k] == o
  {
    if slots != [] {
      var n := |slots| - 1;
      CountBound(slots[..n], o);
      assert slots == slots[..n] + [slots[n]];
      assert forall k :: 0 <= k < n ==> slots[..n][k] == slots[k];
    }
  }

  /** The 8-bit counter of an open file holds its count, unless all 256 descriptors refer to it. */
  lemma CounterFits(s: State, o: int)
    requires Inv(s) && 0 <= o < MAXOPEN
    ensures 0 <= s.refs[o] < 256 <==> exists k :: 0 <= k < SLOTS && s.slots[k] != o
  {
    CountBound(s.slots, o);
  }

  // ----- runs

  /** The calls that work on descriptors, by the current process; `Switch` stands for schedule(). */
  datatype Event =
    | Open | Close(fd: int) | Dup(fd: int) | Dup2(from: int, to: int) | DupFrom(fd: int, least: nat) | MakePipe
    | Spawn(c: Pid) | SpawnFailed(c: Pid) | SpawnFd(c: Pid, fds: seq<int>) | Vfork(c: Pid) | Exit | Switch(p: Pid)

  /** The three replacements of do_spawn_fd() from `fd` on. */
  function HandAll(s: State, c: Pid, fds: seq<int>, fd: nat): State
    requires Shaped(s) && |fds| == 3 && fd <= 3
    decreases 3 - fd
  {
    if fd == 3 then s
    else
      var t := HandStep(s, c, fd, fds[fd]);
      if Shaped(t) then HandAll(t, c, fds, fd + 1) else t
  }

  lemma {:induction false} HandAllKeeps(s: State, c: Pid, fds: seq<int>, fd: nat)
    requires Inv(s) && s.live[c] && c != s.cur && |fds| == 3 && fd <= 3
    ensures var t := HandAll(s, c, fds, fd); Inv(t) && t.live == s.live && t.cur == s.cur
    decreases 3 - fd
  {
    if fd < 3 {
      HandKeeps(s, c, fd, fds[fd]);
      HandAllKeeps(HandStep(s, c, fd, fds[fd]), c, fds, fd + 1);
    }
  }

  /** What the kernel makes sure of: a child gets a process slot that is free, and a switch goes to a live process. */
  predicate Allowed(s: State, e: Event)
    requires Shaped(s)
  {
    match e
    case Spawn(c) => s.live[s.cur] && !s.live[c]
    case SpawnFailed(c) => s.live[s.cur] && !s.live[c]
    case SpawnFd(c, fds) => s.live[s.cur] && !s.live[c] && |fds| == 3
    case Vfork(c) => s.live[s.cur] && !s.live[c]
    case Switch(p) => s.live[p]
    case _ => s.live[s.cur]
  }

  function Step(s: State, e: Event): State
    requires Shaped(s) && Allowed(s, e)
  {
    match e
    case Open => OpenStep(s).0
    case Close(fd) => CloseStep(s, fd).0
    case Dup(fd) => DupStep(s, fd).0
    case Dup2(from, to) => Dup2Step(s, from, to).0
    case DupFrom(fd, least) => DupFromStep(s, fd, least).0
    case MakePipe => PipeStep(s).0
    case Spawn(c) => ShareStep(s, c)
    case SpawnFailed(c) => s
    case SpawnFd(c, fds) => ShareShaped(s, c); HandAll(ShareStep(s, c), c, fds, 0)
    case Vfork(c) => ShareStep(s, c).(cur := c)
    case Exit => ExitFrom(s, 0)
    case Switch(p) => s.(cur := p)
  }

  /** After vfork() the child is current, after a switch the process switched to, and otherwise the same one. */
  lemma CurrentAfter(s: State, e: Event)
    requires Inv(s) && Allowed(s, e)
    ensures Step(s, e).cur == (match e case Vfork(c) => c case Switch(p) => p case _ => s.cur)
  {
    hide FreeFd, FreeFile, FreePipe, Counted, EndsCounted, Cleared;
    match e
    case Dup2(from, to) => Dup2Gives(s, from, to);
    case MakePipe => PipeGives(s);
    case SpawnFd(c, fds) =>
      ShareKeeps(s, c);
      HandAllKeeps(ShareStep(s, c), c, fds, 0);
    case Exit => ExitCloses(s, 0);
    case Close(fd) => CloseSlots(s, fd);
    case _ =>
  }

  lemma SameBut(s: State, p: Pid)
    requires Inv(s)
    ensures Inv(s.(cur := p))
  {
    SameEnds(s, s.(cur := p));
  }

  /** A dup() of an open descriptor on a full table. */
  predicate Leaks(s: State, e: Event)
    requires Shaped(s)
  {
    e.Dup? && IsFd(s, e.fd) && FreeFd(s.slots, s.cur, 0) == MAXFD
  }

  /** Every call keeps the accounting, except exactly a dup() on a full table. */
  lemma StepKeeps(s: State, e: Event)
    requires Inv(s) && Allowed(s, e)
    ensures Shaped(Step(s, e)) && (Inv(Step(s, e)) <==> !Leaks(s, e))
  {
    match e
    case Open => OpenKeeps(s);
    case Close(fd) => CloseKeeps(s, fd);
    case Dup(fd) => DupKeeps(s, fd);
    case Dup2(from, to) => Dup2Keeps(s, from, to);
    case DupFrom(fd, least) => DupFromKeeps(s, fd, least);
    case MakePipe => PipeKeeps(s);
    case Spawn(c) => ShareKeeps(s, c);
    case SpawnFailed(c) =>
    case SpawnFd(c, fds) =>
      ShareKeeps(s, c);
      HandAllKeeps(ShareStep(s, c), c, fds, 0);
    case Vfork(c) =>
      ShareKeeps(s, c);
      SameBut(ShareStep(s, c), c);
    case Exit => ExitKeeps(s, 0);
    case Switch(p) => SameBut(s, p);
  }

  ghost predicate Run(s: State, es: seq<Event>, t: State)
    decreases |es|
  {
    if es == [] then s == t else Shaped(s) && Allowed(s, es[0]) && Run(Step(s, es[0]), es[1..], t)
  }

  /** The accounting holds in every state of the run. */
  ghost predicate Accounted(s: State, es: seq<Event>)
    decreases |es|
  {
    Inv(s) && (es != [] && Allowed(s, es[0]) ==> Accounted(Step(s, es[0]), es[1..]))
  }

  /** No call of the run leaks. */
  ghost predicate Leakless(s: State, es: seq<Event>)
    decreases |es|
  {
    es != [] && Shaped(s) && Allowed(s, es[0]) ==> !Leaks(s, es[0]) && Leakless(Step(s, es[0]), es[1..])
  }

  /** The accounting holds throughout a run exactly when no call of it is a dup() on a full table. */
  lemma {:induction false} AlwaysCounted(s: State, es: seq<Event>, t: State)
    requires Inv(s) && Run(s, es, t)
    ensures Accounted(s, es) <==> Leakless(s, es)
    ensures Leakless(s, es) ==> Inv(t)
    decreases |es|
  {
    if es != [] {
      hide Inv, Step, Allowed, Leaks;
      assert Shaped(s);
      StepKeeps(s, es[0]);
      if !Leaks(s, es[0]) {
        AlwaysCounted(Step(s, es[0]), es[1..], t);
      }
    }
  }

  lemma Occupied(slots: seq<int>, p: Pid, o: int)
    requires |slots| == SLOTS && FreeFd(slots, p, 0) < MAXFD && o != NONE
    ensures var to := FreeFd(slots, p, 0); FreeFd(slots[Slot(p, to) := o], p, 0) > to
  {
    hide FreeFd;
    var to := FreeFd(slots, p, 0);
    var f := FreeFd(slots[Slot(p, to) := o], p, 0);
    LowestFd(slots, p, 0);
    forall x | 0 <= x <= to
      ensures slots[Slot(p, to) := o][Slot(p, x)] != NONE
    {
      assert x < to ==> slots[Slot(p, x)] != NONE;
    }
  }

  /** A full table is always near: every process that lives and has a descriptor gets there by dup(), and then the
      next one leaks. */
  lemma {:induction false} FillsUp(s: State, fd: int) returns (es: seq<Event>, t: State)
    requires Inv(s) && s.live[s.cur] && IsFd(s, fd)
    ensures Run(s, es, t) && Leakless(s, es) && forall i :: 0 <= i < |es| ==> es[i] == Dup(fd)
    ensures Inv(t) && Allowed(t, Dup(fd)) && Leaks(t, Dup(fd)) && !Inv(Step(t, Dup(fd)))
    ensures |es| <= MAXFD - FreeFd(s.slots, s.cur, 0)
    decreases MAXFD - FreeFd(s.slots, s.cur, 0)
  {
    hide Counted, EndsCounted, Cleared, FreeFd;
    var to := FreeFd(s.slots, s.cur, 0);
    StepKeeps(s, Dup(fd));
    if to == MAXFD {
      return [], s;
    }
    var u := Step(s, Dup(fd));
    Occupied(s.slots, s.cur, s.slots[Slot(s.cur, fd)]);
    var fs;
    fs, t := FillsUp(u, fd);
    es := [Dup(fd)] + fs;
    assert es[1..] == fs;
  }
}
