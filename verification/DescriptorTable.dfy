/** The descriptor calls of kernel/proc.c over the kernel's tables, each with the effect stated in Descriptors. */
module DescriptorTable {
  import opened Descriptors

  class Tables {
    var fd: seq<int>         // the fd arrays of proctab, one after the other
    var refcount: seq<int>   // ofile_table
    var kind: seq<Kind>
    var readers: seq<nat>    // pipe_table
    var writers: seq<nat>
    var live: seq<bool>
    var cur: Pid

    ghost function V(): State
      reads this
    {
      State(fd, refcount, kind, readers, writers, live, cur)
    }

    ghost predicate Valid()
      reads this
    {
      Shaped(V())
    }

    /** proc_init(): process 0 with three descriptors on the console. */
    constructor ()
      ensures Valid() && Inv(V()) && Booted(V())
      ensures forall i :: 0 <= i < 3 ==> IsFd(V(), i) && kind[fd[i]] == File
    {
      fd := seq(SLOTS, k => if k < 3 then k else NONE);
      refcount := seq(MAXOPEN, o => if o < 3 then 1 else 0);
      kind := seq(MAXOPEN, _ => File);
      readers := AllZero();
      writers := AllZero();
      live := seq(MAXPROC, p => p == 0);
      cur := 0;
      new;
      FirstDescriptors(V());
    }

    method OfileAlloc() returns (o: int)
      requires Valid()
      modifies this`refcount
      ensures o == FreeFile(old(refcount), 0)
      ensures refcount == if o == MAXOPEN then old(refcount) else old(refcount)[o := 1]
    {
      o := 0;
      while o < MAXOPEN
        invariant 0 <= o <= MAXOPEN && FreeFile(refcount, 0) == FreeFile(refcount, o)
      {
        if refcount[o] == 0 {
          refcount := refcount[o := 1];
          return;
        }
        o := o + 1;
      }
    }

    method FdAllocFrom(of: int, least: nat) returns (r: int)
      requires Valid() && 0 <= of < MAXOPEN && least <= MAXFD
      modifies this`fd
      ensures var to := FreeFd(old(fd), cur, least);
              if to == MAXFD then r == -EMFILE && fd == old(fd)
              else r == to && fd == old(fd)[Slot(cur, to) := of]
    {
      var i := least;
      while i < MAXFD
        invariant least <= i <= MAXFD && FreeFd(fd, cur, least) == FreeFd(fd, cur, i)
      {
        if fd[Slot(cur, i)] == NONE {
          fd := fd[Slot(cur, i) := of];
          return i;
        }
        i := i + 1;
      }
      r := -EMFILE;
    }

    /** refcount--, and what follows when it reaches zero. */
    method Drop(of: int)
      requires Valid() && 0 <= of < MAXOPEN
      modifies this`refcount, this`readers, this`writers
      ensures V() == Release(old(V()), of) && Valid()
    {
      refcount := refcount[of := refcount[of] - 1];
      if refcount[of] == 0 {
        match kind[of] {
          case File =>
          case ReadEnd(k) =>
            if readers[k] > 0 {
              readers := readers[k := readers[k] - 1];
            }
          case WriteEnd(k) =>
            if writers[k] > 0 {
              writers := writers[k := writers[k] - 1];
            }
        }
      }
    }

    /** ofile_alloc(), the fields of the new entry, and fd_alloc(), as sys_open() and, twice, do_pipe() do it. */
    method OpenAs(k: Kind) returns (o: int, n: int)
      requires Valid()
      modifies this`fd, this`refcount, this`kind
      ensures Valid() && o == FreeFile(old(refcount), 0)
      ensures var to := FreeFd(old(fd), cur, 0);
              if o == MAXOPEN then n == -ENFILE && V() == old(V())
              else if to == MAXFD then n == -EMFILE && V() == old(V()).(kinds := old(kind)[o := k])
              else n == to && V() == New(old(V()), Slot(cur, to), o, k).(readers := readers, writers := writers)
    {
      hide FreeFile, FreeFd, Slot;
      ghost var s := V();
      o := OfileAlloc();
      if o == MAXOPEN {
        return o, -ENFILE;
      }
      kind := kind[o := k];
      n := FdAllocFrom(o, 0);
      if n < 0 {
        Undone(s.refs, o, 1);
        refcount := refcount[o := 0];
        return;
      }
      assert V() == New(s, Slot(cur, n), o, k).(readers := readers, writers := writers);
    }

    method Open() returns (r: int)
      requires Valid()
      modifies this`fd, this`refcount, this`kind
      ensures (V(), r) == OpenStep(old(V())) && Valid()
    {
      var o;
      o, r := OpenAs(File);
    }

    method FindPipe() returns (k: int)
      requires Valid()
      ensures k == FreePipe(readers, writers, 0)
    {
      k := 0;
      while k < MAXPIPE && !(readers[k] == 0 && writers[k] == 0)
        invariant 0 <= k <= MAXPIPE && FreePipe(readers, writers, 0) == FreePipe(readers, writers, k)
      {
        k := k + 1;
      }
    }

    method NoEnds(k: PipeNo)
      requires Valid()
      modifies this`readers, this`writers
      ensures Valid() && readers == old(readers)[k := 0] && writers == old(writers)[k := 0]
    {
      readers := readers[k := 0];
      writers := writers[k := 0];
    }

    /** do_pipe() with the pipe chosen: an error, or the two descriptors. */
    method MakeEnds(k: PipeNo) returns (rfd: int, wfd: int)
      requires Valid() && readers[k] == writers[k] == 0
      modifies this`fd, this`refcount, this`kind, this`readers, this`writers
      ensures Valid() && (V(), rfd, wfd) == PipeEnds(old(V()), k)
    {
      ghost var s := V();
      readers := readers[k := 1];
      writers := writers[k := 1];
      NoEnd(s.readers, k);
      NoEnd(s.writers, k);
      var o;
      o, rfd := OpenAs(ReadEnd(k));
      if rfd < 0 {
        NoEnds(k);
        return rfd, NONE;
      }
      ghost var s1 := New(s, Slot(cur, rfd), o, ReadEnd(k));
      assert V() == s1.(writers := writers);
      wfd := SecondEnd(s, k, o, rfd);
      if wfd < 0 {
        return wfd, NONE;
      }
    }

    /** The second half of do_pipe(), where `s` is the state before the first. */
    method SecondEnd(ghost s: State, k: PipeNo, o: int, rfd: int) returns (wfd: int)
      requires Shaped(s) && Valid() && s.readers[k] == s.writers[k] == 0
      requires o == FreeFile(s.refs, 0) < MAXOPEN && rfd == FreeFd(s.slots, cur, 0) < MAXFD
      requires V() == New(s, Slot(cur, rfd), o, ReadEnd(k)).(writers := s.writers[k := 1])
      modifies this`fd, this`refcount, this`kind, this`readers, this`writers
      ensures Valid()
      ensures (V(), if wfd < 0 then wfd else rfd, if wfd < 0 then NONE else wfd) == PipeEnds(s, k)
    {
      hide FreeFile, FreeFd, Slot;
      ghost var s1 := New(s, Slot(cur, rfd), o, ReadEnd(k));
      var o2;
      o2, wfd := OpenAs(WriteEnd(k));
      if wfd < 0 {
        Undone(s.refs, o, 1);
        Undone(s.slots, Slot(cur, rfd), o);
        NoEnd(s.readers, k);
        NoEnd(s.writers, k);
        fd := fd[Slot(cur, rfd) := NONE];
        refcount := refcount[o := 0];
        NoEnds(k);
        return;
      }
      assert V() == New(s1, Slot(cur, wfd), o2, WriteEnd(k));
    }

    /** do_pipe() */
    method DoPipe() returns (r: int, rfd: int, wfd: int)
      requires Valid()
      modifies this`fd, this`refcount, this`kind, this`readers, this`writers
      ensures Valid() && V() == PipeStep(old(V())).0
      ensures var (_, a, b) := PipeStep(old(V())); if b == NONE then r == a else r == 0 && (rfd, wfd) == (a, b)
    {
      var k := FindPipe();
      if k == MAXPIPE {
        return -ENFILE, 0, 0;
      }
      rfd, wfd := MakeEnds(k);
      r := if wfd == NONE then rfd else 0;
    }

    method SysClose(n: int) returns (r: int)
      requires Valid()
      modifies this`fd, this`refcount, this`readers, this`writers
      ensures (V(), r) == CloseStep(old(V()), n) && Valid()
    {
      if n < 0 || n >= MAXFD || fd[Slot(cur, n)] == NONE {
        return -EBADF;
      }
      var of := fd[Slot(cur, n)];
      fd := fd[Slot(cur, n) := NONE];
      Drop(of);
      r := 0;
    }

    method SysDup(n: int) returns (r: int)
      requires Valid()
      modifies this`fd, this`refcount
      ensures (V(), r) == DupStep(old(V()), n) && Valid()
    {
      if n < 0 || n >= MAXFD || fd[Slot(cur, n)] == NONE {
        return -EBADF;
      }
      var of := fd[Slot(cur, n)];
      refcount := refcount[of := refcount[of] + 1];
      r := FdAllocFrom(of, 0);
    }

    method FcntlDupFd(n: int, least: nat) returns (r: int)
      requires Valid()
      modifies this`fd, this`refcount
      ensures (V(), r) == DupFromStep(old(V()), n, least) && Valid()
    {
      if n < 0 || n >= MAXFD || fd[Slot(cur, n)] == NONE {
        return -EBADF;
      }
      var of := fd[Slot(cur, n)];
      if least >= MAXFD {
        return -EINVAL;
      }
      refcount := refcount[of := refcount[of] + 1];
      r := FdAllocFrom(of, least);
      if r < 0 {
        refcount := refcount[of := refcount[of] - 1];
        assert refcount == old(refcount);
      }
    }

    /** `stray`: the count behind a null pointer is incremented. */
    method SysDup2(from: int, to: int) returns (r: int, stray: bool)
      requires Valid()
      modifies this`fd, this`refcount, this`readers, this`writers
      ensures (V(), r, stray) == Dup2Step(old(V()), from, to) && Valid()
    {
      stray := false;
      if from < 0 || from >= MAXFD || fd[Slot(cur, from)] == NONE || to < 0 || to >= MAXFD {
        return -EBADF, false;
      }
      ghost var s := V();
      if fd[Slot(cur, to)] != NONE {
        ReleaseFrame(s.(slots := s.slots[Slot(cur, to) := NONE]), s.slots[Slot(cur, to)]);
        var _ := SysClose(to);
      }
      var of := fd[Slot(cur, from)];
      if of == NONE {
        stray := true;
      } else {
        refcount := refcount[of := refcount[of] + 1];
      }
      fd := fd[Slot(cur, to) := of];
      r := to;
      if stray {
        assert V().slots == Unlink(s, Slot(cur, to)).slots;
      }
    }

    /** One turn of the loop of do_spawn() that copies and counts the descriptors. */
    method InheritOne(c: Pid, i: nat, ghost s: State, ghost fds: seq<int>)
      requires Shaped(s) && c != cur && i < MAXFD && fds == Fds(s, cur)
      requires |fd| == SLOTS && |refcount| == MAXOPEN && Copied(s.slots, fd, c, fds, i)
        && Recounted(s.refs, refcount, fds, i)
      modifies this`fd, this`refcount
      ensures |fd| == SLOTS && |refcount| == MAXOPEN && Copied(s.slots, fd, c, fds, i + 1)
        && Recounted(s.refs, refcount, fds, i + 1)
    {
      CopyStep(s.slots, fd, cur, c, fds, i);
      RecountStep(s.refs, refcount, fds, i);
      fd := fd[Slot(c, i) := fd[Slot(cur, i)]];
      var of := fd[Slot(c, i)];
      if of != NONE {
        refcount := refcount[of := refcount[of] + 1];
      }
    }

    method InheritLoop(c: Pid)
      requires Valid() && c != cur
      modifies this`fd, this`refcount
      ensures fd == Replaced(old(fd), c, old(Fds(V(), cur))) && refcount == Recount(old(refcount), old(Fds(V(), cur)))
    {
      ghost var s := V();
      ghost var fds := Fds(s, cur);
      CopyStart(s.slots, c, fds);
      RecountStart(s.refs, fds);
      for i := 0 to MAXFD
        invariant |fd| == SLOTS && |refcount| == MAXOPEN
        invariant Copied(s.slots, fd, c, fds, i) && Recounted(s.refs, refcount, fds, i)
      {
        InheritOne(c, i, s, fds);
      }
      SlotsReplaced(s.slots, fd, c, fds);
      RefsRecounted(s.refs, refcount, fds);
    }

    /** The descriptors of a child in do_spawn(). */
    method Inherit(c: Pid)
      requires Valid() && c != cur
      modifies this`fd, this`refcount, this`live
      ensures V() == ShareStep(old(V()), c) && Valid()
    {
      ShareShaped(V(), c);
      InheritLoop(c);
      live := live[c := true];
    }

    /** One turn of the clean-up loop. */
    method DisownOne(c: Pid, i: nat, ghost t: State, ghost fds: seq<int>)
      requires Shaped(t) && i < MAXFD && fds == Fds(t, c)
      requires |fd| == SLOTS && |refcount| == MAXOPEN && Copied(t.slots, fd, c, Nulls(), i)
        && Recounted(refcount, t.refs, fds, i)
      modifies this`fd, this`refcount
      ensures |fd| == SLOTS && |refcount| == MAXOPEN && Copied(t.slots, fd, c, Nulls(), i + 1)
        && Recounted(refcount, t.refs, fds, i + 1)
    {
      assert fd[Slot(c, i)] == fds[i];
      NullStep(t.slots, fd, c, i);
      DiscountStep(t.refs, refcount, fds, i);
      if fd[Slot(c, i)] != NONE {
        refcount := refcount[fd[Slot(c, i)] := refcount[fd[Slot(c, i)]] - 1];
        fd := fd[Slot(c, i) := NONE];
      }
    }

    method DisownLoop(c: Pid)
      requires Valid()
      modifies this`fd, this`refcount
      ensures fd == Replaced(old(fd), c, Nulls()) && |refcount| == MAXOPEN
        && old(refcount) == Recount(refcount, old(Fds(V(), c)))
    {
      ghost var t := V();
      ghost var fds := Fds(t, c);
      CopyStart(t.slots, c, Nulls());
      RecountStart(t.refs, fds);
      for i := 0 to MAXFD
        invariant |fd| == SLOTS && |refcount| == MAXOPEN
        invariant Copied(t.slots, fd, c, Nulls(), i) && Recounted(refcount, t.refs, fds, i)
      {
        DisownOne(c, i, t, fds);
      }
      SlotsReplaced(t.slots, fd, c, Nulls());
      RefsRecounted(refcount, t.refs, fds);
    }

    /** The end of a do_spawn() whose program could not be loaded: every table is again as it was before the
        child inherited anything. */
    method Disown(c: Pid, ghost s: State)
      requires Shaped(s) && Cleared(s) && !s.live[c] && s.cur != c && V() == ShareStep(s, c)
      modifies this`fd, this`refcount, this`live
      ensures V() == s
    {
      ShareShaped(s, c);
      ShareUndone(s, c);
      ghost var fds := Fds(V(), c);
      DisownLoop(c);
      RecountInjective(s.refs, refcount, fds);
      live := live[c := false];
    }

    /** The loop of do_vfork(). */
    method CountAgain(c: Pid)
      requires Valid()
      modifies this`refcount
      ensures refcount == Recount(old(refcount), Fds(old(V()), c))
    {
      hide Recount, Recounted;
      ghost var refs := refcount;
      ghost var fds := Fds(V(), c);
      RecountStart(refs, fds);
      for i := 0 to MAXFD
        invariant |refcount| == MAXOPEN && Recounted(refs, refcount, fds, i)
      {
        assert fd[Slot(c, i)] == fds[i];
        RecountStep(refs, refcount, fds, i);
        if fd[Slot(c, i)] != NONE {
          refcount := refcount[fd[Slot(c, i)] := refcount[fd[Slot(c, i)]] + 1];
        }
      }
      RefsRecounted(refs, refcount, fds);
    }

    /** do_vfork(): the whole process entry is copied, then the counts follow. */
    method Vfork(c: Pid)
      requires Valid() && c != cur
      modifies this
      ensures V() == ShareStep(old(V()), c).(cur := c) && Valid()
    {
      ghost var s := V();
      ShareShaped(s, c);
      fd := Replaced(fd, c, fd[Slot(cur, 0)..Slot(cur, 0) + MAXFD]);
      live := live[c := true];
      assert fd == ShareStep(s, c).slots && Fds(V(), c) == Fds(s, s.cur);
      CountAgain(c);
      cur := c;
    }

    /** One replacement of do_spawn_fd(). */
    method Hand(c: Pid, n: int, from: int)
      requires Valid() && 0 <= n < MAXFD
      modifies this`fd, this`refcount, this`readers, this`writers
      ensures V() == HandStep(old(V()), c, n, from) && (c != cur ==> Valid())
    {
      if from < 0 || from >= MAXFD || fd[Slot(cur, from)] == NONE {
        return;
      }
      ghost var s := V();
      var of := fd[Slot(cur, from)];
      var was := fd[Slot(c, n)];
      if was != NONE {
        ReleaseFrame(s.(slots := s.slots[Slot(c, n) := NONE]), was);
        fd := fd[Slot(c, n) := NONE];
        Drop(was);
      }
      fd := fd[Slot(c, n) := of];
      refcount := refcount[of := refcount[of] + 1];
      assert s.slots[Slot(c, n) := NONE][Slot(c, n) := of] == s.slots[Slot(c, n) := of];
    }

    /** The descriptor part of do_exit(). */
    method Exit()
      requires Valid()
      modifies this`fd, this`refcount, this`readers, this`writers, this`live
      ensures V() == ExitFrom(old(V()), 0)
    {
      for i := 0 to MAXFD
        invariant Valid() && ExitFrom(V(), i) == ExitFrom(old(V()), 0)
      {
        if fd[Slot(cur, i)] != NONE {
          var _ := SysClose(i);
        }
      }
      live := live[cur := false];
    }
  }

  /** The descriptors of a process that has none. */
  function Nulls(): (r: seq<int>)
    ensures |r| == MAXFD && forall i :: 0 <= i < MAXFD ==> r[i] == NONE
  {
    seq(MAXFD, _ => NONE)
  }

  lemma NullStep(slots: seq<int>, fd: seq<int>, c: Pid, i: nat)
    requires |slots| == |fd| == SLOTS && i < MAXFD && Copied(slots, fd, c, Nulls(), i)
    ensures Copied(slots, fd[Slot(c, i) := NONE], c, Nulls(), i + 1)
  {
  }

  lemma DiscountStep(refs: seq<int>, refcount: seq<int>, fds: seq<int>, i: nat)
    requires |refs| == |refcount| == MAXOPEN && i < |fds| && NONE <= fds[i] < MAXOPEN
      && Recounted(refcount, refs, fds, i)
    ensures Recounted(if fds[i] == NONE then refcount else refcount[fds[i] := refcount[fds[i]] - 1], refs, fds, i + 1)
  {
    assert fds[..i + 1] == fds[..i] + [fds[i]];
  }

  lemma RecountInjective(a: seq<int>, b: seq<int>, fds: seq<int>)
    requires |a| == |b| == MAXOPEN && Recount(a, fds) == Recount(b, fds)
    ensures a == b
  {
    forall o | 0 <= o < MAXOPEN
      ensures a[o] == b[o]
    {
      assert Recount(a, fds)[o] == Recount(b, fds)[o];
    }
  }

  lemma ReplacedTwice(slots: seq<int>, c: Pid, a: seq<int>, b: seq<int>)
    requires |slots| == SLOTS && |a| == |b| == MAXFD
    ensures Replaced(Replaced(slots, c, a), c, b) == Replaced(slots, c, b)
  {
    SplicedTwice(slots, c * MAXFD, a, b);
  }

  lemma SplicedTwice(s: seq<int>, n: nat, a: seq<int>, b: seq<int>)
    requires n + |a| <= |s| && |a| == |b|
    ensures var t := s[..n] + a + s[n + |a|..]; t[..n] + b + t[n + |b|..] == s[..n] + b + s[n + |b|..]
  {
    var t := s[..n] + a + s[n + |a|..];
    assert t[..n] == s[..n];
    assert t[n + |b|..] == s[n + |b|..];
  }

  lemma FdsReplaced(s: State, c: Pid, fds: seq<int>)
    requires Shaped(s) && |fds| == MAXFD && s.slots == Replaced(s.slots, c, fds)
    ensures Fds(s, c) == fds
  {
    forall i | 0 <= i < MAXFD
      ensures Fds(s, c)[i] == fds[i]
    {
      assert s.slots[Slot(c, i)] == fds[i];
    }
  }

  /** What a child inherited is what its parent has, and without it the slots are as before. */
  lemma ShareUndone(s: State, c: Pid)
    requires Shaped(s) && Cleared(s) && !s.live[c] && s.cur != c
    ensures var t := ShareStep(s, c);
            && Shaped(t) && Fds(t, c) == Fds(s, s.cur) && Replaced(t.slots, c, Nulls()) == s.slots
            && t.live[c := false] == s.live && t.refs == Recount(s.refs, Fds(t, c))
  {
    hide Replaced, Recount, Fds, Slot;
    ShareShaped(s, c);
    var fds := Fds(s, s.cur);
    ReplacedTwice(s.slots, c, fds, fds);
    FdsReplaced(ShareStep(s, c), c, fds);
    ReplacedTwice(s.slots, c, fds, Nulls());
    forall i | 0 <= i < MAXFD
      ensures s.slots[Slot(c, i)] == NONE
    {
    }
    NullsAre(s.slots, c);
    assert s.live[c := true][c := false] == s.live;
  }

  lemma NullsAre(slots: seq<int>, c: Pid)
    requires |slots| == SLOTS && forall i :: 0 <= i < MAXFD ==> slots[Slot(c, i)] == NONE
    ensures Replaced(slots, c, Nulls()) == slots
  {
    assert forall k :: c * MAXFD <= k < c * MAXFD + MAXFD ==> slots[k] == slots[Slot(c, k - c * MAXFD)];
  }

  /** The first `i` descriptors of process `c` are copied. */
  predicate Copied(slots: seq<int>, fd: seq<int>, c: Pid, fds: seq<int>, i: nat)
    requires |slots| == SLOTS && |fds| == MAXFD && i <= MAXFD
  {
    fd == slots[..c * MAXFD] + fds[..i] + slots[c * MAXFD + i..]
  }

  ghost predicate Recounted(refs: seq<int>, refcount: seq<int>, fds: seq<int>, i: nat)
    requires |refs| == |refcount| == MAXOPEN && i <= |fds|
  {
    forall o :: 0 <= o < MAXOPEN ==> refcount[o] == refs[o] + multiset(fds[..i])[o]
  }

  lemma CopyStart(slots: seq<int>, c: Pid, fds: seq<int>)
    requires |slots| == SLOTS && |fds| == MAXFD
    ensures Copied(slots, slots, c, fds, 0)
  {
  }

  lemma RecountStart(refs: seq<int>, fds: seq<int>)
    requires |refs| == MAXOPEN
    ensures Recounted(refs, refs, fds, 0)
  {
  }

  lemma CopyStep(slots: seq<int>, fd: seq<int>, p: Pid, c: Pid, fds: seq<int>, i: nat)
    requires |slots| == |fd| == SLOTS && |fds| == MAXFD && i < MAXFD && p != c && Copied(slots, fd, c, fds, i)
    requires slots[Slot(p, i)] == fds[i]
    ensures fd[Slot(p, i)] == fds[i] && Copied(slots, fd[Slot(c, i) := fds[i]], c, fds, i + 1)
  {
    assert Slot(p, i) < c * MAXFD || Slot(p, i) >= c * MAXFD + MAXFD;
  }

  lemma RecountStep(refs: seq<int>, refcount: seq<int>, fds: seq<int>, i: nat)
    requires |refs| == |refcount| == MAXOPEN && i < |fds| && NONE <= fds[i] < MAXOPEN
      && Recounted(refs, refcount, fds, i)
    ensures Recounted(refs, if fds[i] == NONE then refcount else refcount[fds[i] := refcount[fds[i]] + 1], fds, i + 1)
  {
    assert fds[..i + 1] == fds[..i] + [fds[i]];
  }

  lemma RefsRecounted(refs: seq<int>, refcount: seq<int>, fds: seq<int>)
    requires |refs| == |refcount| == MAXOPEN && |fds| == MAXFD && Recounted(refs, refcount, fds, MAXFD)
    ensures refcount == Recount(refs, fds)
  {
    assert fds[..MAXFD] == fds;
  }

  lemma SlotsReplaced(slots: seq<int>, fd: seq<int>, c: Pid, fds: seq<int>)
    requires |slots| == SLOTS && |fds| == MAXFD && Copied(slots, fd, c, fds, MAXFD)
    ensures fd == Replaced(slots, c, fds)
  {
    assert fds[..MAXFD] == fds;
  }

  function AllZero(): (r: seq<nat>)
    ensures |r| == MAXPIPE && forall k :: 0 <= k < MAXPIPE ==> r[k] == 0
  {
    [0, 0, 0, 0]
  }

  lemma Undone(refs: seq<int>, o: int, x: int)
    requires 0 <= o < |refs|
    ensures refs[o := x][o := refs[o]] == refs
  {
  }

  lemma NoEnd(ends: seq<nat>, k: int)
    requires 0 <= k < |ends| && ends[k] == 0
    ensures ends[k := 1][k := 0] == ends
  {
  }

  lemma EmptyTables(s: State)
    requires Shaped(s) && s.cur == 0 && s.live[0]
    requires (forall k :: 0 <= k < SLOTS ==> s.slots[k] == NONE) && (forall o :: 0 <= o < MAXOPEN ==> s.refs[o] == 0)
    requires forall k: PipeNo :: s.readers[k] == s.writers[k] == 0
    ensures Inv(s)
  {
    forall o | 0 <= o < MAXOPEN
      ensures multiset(s.slots)[o] == 0
    {
      assert o !in s.slots;
    }
  }

  /** File `i` on descriptor `i` of process 0, one after the other. */
  lemma NextDescriptor(s: State, i: int) returns (t: State)
    requires Inv(s) && 0 <= i < 3 && s.live[0] && s.slots[Slot(0, i)] == NONE && s.refs[i] == 0
    ensures Inv(t) && t == s.(slots := s.slots[i := i], refs := s.refs[i := 1], kinds := s.kinds[i := File])
  {
    NewKeeps(s, 0, i, i, File);
    t := New(s, Slot(0, i), i, File);
  }

  /** The tables as proc_init() leaves them: process 0 has descriptors 0 to 2, for files 0 to 2. */
  predicate Booted(s: State) {
    && Shaped(s) && s.cur == 0 && s.live[0]
    && (forall k :: 0 <= k < SLOTS ==> s.slots[k] == if k < 3 then k else NONE)
    && (forall o :: 0 <= o < MAXOPEN ==> s.kinds[o] == File && s.refs[o] == if o < 3 then 1 else 0)
    && (forall k: PipeNo :: s.readers[k] == s.writers[k] == 0)
  }

  lemma FirstDescriptors(s: State)
    requires Booted(s)
    ensures Inv(s)
  {
    hide Counted, EndsCounted, Cleared;
    var none := s.(slots := seq(SLOTS, _ => NONE), refs := seq(MAXOPEN, _ => 0));
    EmptyTables(none);
    var a := NextDescriptor(none, 0);
    var b := NextDescriptor(a, 1);
    var c := NextDescriptor(b, 2);
    SameTables(c, s);
  }

  lemma SameTables(c: State, s: State)
    requires Booted(s) && Shaped(c) && (forall k :: 0 <= k < SLOTS ==> c.slots[k] == s.slots[k])
    requires forall o :: 0 <= o < MAXOPEN ==> c.refs[o] == s.refs[o] && c.kinds[o] == s.kinds[o]
    requires c.readers == s.readers && c.writers == s.writers && c.live == s.live && c.cur == s.cur
    ensures c == s
  {
    assert c.slots == s.slots;
    assert c.refs == s.refs;
    assert c.kinds == s.kinds;
  }

  /** From there, dup2(1, 1) returns 1 and closes it. */
  lemma Dup2OfSame(s: State)
    requires Booted(s)
    ensures var (t, r, stray) := Dup2Step(s, 1, 1);
            Inv(s) && IsFd(s, 1) && Inv(t) && r == 1 && stray && !IsFd(t, 1)
  {
    FirstDescriptors(s);
    assert s.slots[Slot(0, 1)] == 1;
    hide Inv, Dup2Step;
    Dup2Keeps(s, 1, 1);
    Dup2Returns(s, 1);
  }

  lemma Dup2Returns(s: State, fd: int)
    requires Shaped(s) && IsFd(s, fd)
    ensures Dup2Step(s, fd, fd).1 == fd && Dup2Step(s, fd, fd).2
  {
  }

  /** From there, dup() calls of process 0 alone end in a count that no descriptor accounts for. */
  lemma BootLeaks(s: State) returns (es: seq<Event>, t: State)
    requires Booted(s)
    ensures Run(s, es, t) && Leakless(s, es) && |es| <= 13 && forall i :: 0 <= i < |es| ==> es[i] == Dup(0)
    ensures Inv(t) && Allowed(t, Dup(0)) && Leaks(t, Dup(0)) && !Inv(Step(t, Dup(0)))
  {
    FirstDescriptors(s);
    assert forall x :: 0 <= x < 3 ==> s.slots[Slot(0, x)] != NONE;
    hide Inv, Run, Leakless, Step;
    es, t := FillsUp(s, 0);
  }
}
