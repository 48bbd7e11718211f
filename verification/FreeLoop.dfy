/** The loop of fs_iput() in kernel/fs.c over the entries of an indirect block, with the buffer of that block kept
  across the reads of bfree(): which blocks it frees, in every cache of the kernel. */
module FreeLoop {
  import opened BufferCache
  import opened KernelCache

  /** The words of the superblock but the head of the free list, which is word 5. */
  datatype Superblock = Superblock(before: seq<u16>, behind: seq<u16>)

  const FREE_LIST := 5
  const SUPER_WORDS := 10

  predicate Laid(sb: Superblock) {
    |sb.before| == FREE_LIST && |sb.behind| == SUPER_WORDS - FREE_LIST - 1
  }

  function Words(sb: Superblock, head: u16): seq<u16> {
    sb.before + [head] + sb.behind
  }

  /** Block 0 with the superblock copied over its first 20 bytes. */
  function SuperData(sb: Superblock, head: u16, base: Data): (r: Data)
    requires Laid(sb)
    ensures |r| >= 2 * SUPER_WORDS
  {
    var w := Words(sb, head);
    seq(2 * SUPER_WORDS, k requires 0 <= k < 2 * SUPER_WORDS => if k % 2 == 0 then w[k / 2] / 256 else w[k / 2] % 256)
    + Behind(base)
  }

  function Behind(base: Data): Data {
    if |base| > 2 * SUPER_WORDS then base[2 * SUPER_WORDS..] else []
  }

  /** Its words: those of the superblock, and behind them what was there. */
  lemma SuperEntry(sb: Superblock, head: u16, base: Data, k: nat)
    requires Laid(sb)
    ensures Entry(SuperData(sb, head, base), k) == if k < SUPER_WORDS then Words(sb, head)[k] else Entry(base, k)
  {
    var d, w := SuperData(sb, head, base), Words(sb, head);
    if k < SUPER_WORDS {
      assert d[2 * k] == w[k] / 256 && d[2 * k + 1] == w[k] % 256;
    } else if |base| > 2 * SUPER_WORDS {
      assert |d| == |base| && forall x :: 2 * SUPER_WORDS <= x < |base| ==> d[x] == base[x];
    }
  }

  lemma SuperAgain(sb: Superblock, head: u16, head': u16, base: Data)
    requires Laid(sb)
    ensures SuperData(sb, head', SuperData(sb, head, base)) == SuperData(sb, head', base)
  {
    assert Behind(SuperData(sb, head, base)) == Behind(base);
  }

  /** What bfree() writes to a block: the number of the next free block, and zeros. */
  function LinkTo(next: u16): Data {
    seq(BLOCK_SIZE, k => if k == 0 then next / 256 else if k == 1 then next % 256 else 0)
  }

  /** bfree(): the block is linked and cleared, and named in the superblock as the first free one. */
  function Bfree(s: State, b: u16, head: u16, sb: Superblock): (t: State)
    requires s.bufs != [] && Laid(sb)
    ensures |t.bufs| == |s.bufs|
  {
    var u := WriteThrough(s, Key(0, b), LinkTo(head));
    WriteThrough(u, SUPER, SuperData(sb, b, Contents(u, SUPER)))
  }

  /** The cache, the first free block, and the blocks freed so far. */
  datatype Loop = Loop(s: State, head: u16, freed: seq<u16>)

  /** One turn: the entry is read from slot `i`, whatever that holds by now. */
  function Turn(l: Loop, i: nat, j: nat, sb: Superblock): (r: Loop)
    requires i < |l.s.bufs| && Laid(sb)
    ensures |r.s.bufs| == |l.s.bufs|
  {
    var e := Entry(l.s.bufs[i].data, j);
    if e == 0 then l else Loop(Bfree(l.s, e, l.head, sb), e, l.freed + [e])
  }

  /** The turns from `j` up to `n`. */
  function Turns(l: Loop, i: nat, j: nat, n: nat, sb: Superblock): (r: Loop)
    requires i < |l.s.bufs| && j <= n && Laid(sb)
    ensures |r.s.bufs| == |l.s.bufs|
    decreases n - j
  {
    if j == n then l else Turns(Turn(l, i, j, sb), i, j + 1, n, sb)
  }

  /** The entries from `j` on that are not empty, in order. */
  function Listed(data: Data, j: nat, n: nat): seq<u16>
    requires j <= n
    decreases n - j
  {
    if j == n then []
    else (if Entry(data, j) == 0 then [] else [Entry(data, j)]) + Listed(data, j + 1, n)
  }

  /** The words of the superblock from `k` on that are not zero, in order, where each one read becomes the head of the
      free list; behind the superblock those of the block `base`. */
  function Misread(sb: Superblock, head: u16, base: Data, k: nat, n: nat): seq<u16>
    requires k <= n && Laid(sb)
    decreases n - k
  {
    if k == n then []
    else
      var e := if k < SUPER_WORDS then Words(sb, head)[k] else Entry(base, k);
      if e == 0 then Misread(sb, head, base, k + 1, n) else [e] + Misread(sb, e, base, k + 1, n)
  }

  // ----- one bfree()

  /** The link is the first word of the block, and all others are zero. */
  lemma LinkIs(next: u16, j: nat)
    ensures |LinkTo(next)| == 1024 && Entry(LinkTo(next), j) == if j == 0 then next else 0
  {
  }

  /** What bfree() does to the contents of the disk: the block is linked to the old head of the free list, and named as
      the new one in the superblock. */
  lemma BfreeWrites(s: State, b: u16, head: u16, sb: Superblock)
    requires Booted(s) && b != 0 && Laid(sb)
    ensures var t := Bfree(s, b, head, sb);
            && Contents(t, Key(0, b)) == LinkTo(head) && Contents(t, SUPER) == SuperData(sb, b, Contents(s, SUPER))
            && forall k :: k != Key(0, b) && k != SUPER ==> Contents(t, k) == Contents(s, k)
  {
    hide WriteThrough, Contents, SuperData, Find;
    var u := WriteThrough(s, Key(0, b), LinkTo(head));
    AccessKeeps(s, Key(0, b), LinkTo(head));
    PutIs(s, Key(0, b), LinkTo(head));
    PutIs(u, SUPER, SuperData(sb, b, Contents(u, SUPER)));
  }

  lemma BfreeIs(s: State, b: u16, head: u16, sb: Superblock)
    requires Booted(s) && b != 0 && Laid(sb)
    ensures var t := Bfree(s, b, head, sb);
            && Booted(t) && t.bufs[0] == Buf(SUPER, false, true, SuperData(sb, b, Contents(s, SUPER)))
            && Contents(t, SUPER) == SuperData(sb, b, Contents(s, SUPER))
            && forall i :: 0 < i < |s.bufs| && s.bufs[i].valid && s.bufs[i].key != Key(0, b) ==> t.bufs[i] == s.bufs[i]
  {
    hide WriteThrough, Contents, SuperData, Find;
    var u := WriteThrough(s, Key(0, b), LinkTo(head));
    AccessKeeps(s, Key(0, b), LinkTo(head));
    PutIs(s, Key(0, b), LinkTo(head));
    OtherwiseFirst(s, Key(0, b));
    AccessKeeps(u, SUPER, SuperData(sb, b, Contents(u, SUPER)));
    hide Booted, SlotOf;
    PutSuper(u, SuperData(sb, b, Contents(u, SUPER)));
  }

  // ----- the loop

  /** The indirect block is in slot `i`, and no entry of it is the block itself. */
  ghost predicate Begun(l: Loop, i: nat, ib: Key, data: Data) {
    && Booted(l.s) && i < |l.s.bufs| && l.s.bufs[i].valid && l.s.bufs[i].key == ib != SUPER
    && l.s.bufs[i].data == data && forall j :: Entry(data, j) != 0 ==> Key(0, Entry(data, j)) != ib
  }

  /** In another slot than the first, the pointer is good throughout. */
  lemma {:induction false} OtherSlot(l: Loop, i: nat, ib: Key, data: Data, j: nat, n: nat, sb: Superblock)
    requires Begun(l, i, ib, data) && i != 0 && j <= n && Laid(sb)
    ensures var r := Turns(l, i, j, n, sb); Begun(r, i, ib, data) && r.freed == l.freed + Listed(data, j, n)
    decreases n - j
  {
    hide Bfree, Entry, Booted;
    if j < n {
      if Entry(data, j) != 0 {
        BfreeIs(l.s, Entry(data, j), l.head, sb);
      }
      OtherSlot(Turn(l, i, j, sb), i, ib, data, j + 1, n, sb);
    }
  }

  /** The first slot holds the superblock with this head of the free list. */
  ghost predicate Misled(l: Loop, base: Data, sb: Superblock) {
    && Booted(l.s) && l.s.bufs != [] && Laid(sb) && l.s.bufs[0].data == SuperData(sb, l.head, base)
    && Contents(l.s, SUPER) == SuperData(sb, l.head, base)
  }

  /** With the superblock in the first slot, the turns read its words. */
  lemma {:induction false} SuperblockRead(l: Loop, base: Data, j: nat, n: nat, sb: Superblock)
    requires Misled(l, base, sb) && j <= n
    ensures Turns(l, 0, j, n, sb).freed == l.freed + Misread(sb, l.head, base, j, n)
    decreases n - j
  {
    hide Bfree, Entry, Booted, Contents, SuperData, Laid;
    if j < n {
      SuperEntry(sb, l.head, base, j);
      var e := Entry(l.s.bufs[0].data, j);
      if e != 0 {
        BfreeIs(l.s, e, l.head, sb);
        SuperAgain(sb, l.head, e, base);
      }
      SuperblockRead(Turn(l, 0, j, sb), base, j + 1, n, sb);
    }
  }

  /** Empty entries change nothing. */
  lemma {:induction false} SkipEmpty(l: Loop, i: nat, data: Data, j: nat, k: nat, n: nat, sb: Superblock)
    requires i < |l.s.bufs| && l.s.bufs[i].data == data && Laid(sb) && j <= k <= n
    requires forall x :: j <= x < k ==> Entry(data, x) == 0
    ensures Turns(l, i, j, n, sb) == Turns(l, i, k, n, sb) && Listed(data, j, n) == Listed(data, k, n)
    decreases k - j
  {
    hide Entry, Bfree;
    if j < k {
      SkipEmpty(l, i, data, j + 1, k, n, sb);
    }
  }

  /** The indirect block is in the first slot, and `j` is its first entry in use: the block of that entry is freed, and
      then the loop reads the superblock. */
  lemma FirstSlot(l: Loop, ib: Key, data: Data, j: nat, n: nat, sb: Superblock)
    requires Begun(l, 0, ib, data) && Laid(sb)
    requires j < n && Entry(data, j) != 0 && forall x :: 0 <= x < j ==> Entry(data, x) == 0
    ensures Turns(l, 0, 0, n, sb).freed ==
            l.freed + [Entry(data, j)] + Misread(sb, Entry(data, j), Contents(l.s, SUPER), j + 1, n)
  {
    hide Bfree, Contents, SuperData, Laid;
    var e, base := Entry(data, j), Contents(l.s, SUPER);
    SkipEmpty(l, 0, data, 0, j, n, sb);
    BfreeIs(l.s, e, l.head, sb);
    SuperblockRead(Turn(l, 0, j, sb), base, j + 1, n, sb);
  }

  /** The first entry in use from `j` on, or `n`. */
  function FirstUsed(data: Data, j: nat, n: nat): (k: nat)
    requires j <= n
    ensures j <= k <= n && (k < n ==> Entry(data, k) != 0) && forall x :: j <= x < k ==> Entry(data, x) == 0
    decreases n - j
  {
    if j == n || Entry(data, j) != 0 then j else FirstUsed(data, j + 1, n)
  }

  /** No entry is in use, or behind the first one the superblock reads as the indirect block does. */
  predicate ReadsAlike(sb: Superblock, base: Data, data: Data, n: nat)
    requires Laid(sb)
  {
    var j := FirstUsed(data, 0, n);
    j == n || Misread(sb, Entry(data, j), base, j + 1, n) == Listed(data, j + 1, n)
  }

  lemma FreesFrom(l: Loop, i: nat, ib: Key, data: Data, n: nat, sb: Superblock)
    requires Begun(l, i, ib, data) && Laid(sb)
    ensures Turns(l, i, 0, n, sb).freed == l.freed + Listed(data, 0, n) <==>
            i != 0 || ReadsAlike(sb, Contents(l.s, SUPER), data, n)
  {
    hide Entry, Begun, Laid, Contents;
    if i != 0 {
      OtherSlot(l, i, ib, data, 0, n, sb);
      return;
    }
    InRange(l, i, ib, data);
    var j := FirstUsed(data, 0, n);
    SkipEmpty(l, 0, data, 0, j, n, sb);
    if j < n {
      FirstSlot(l, ib, data, j, n, sb);
      var rest := Misread(sb, Entry(data, j), Contents(l.s, SUPER), j + 1, n);
      hide Turns, Misread, FirstUsed;
      assert Listed(data, 0, n) == [Entry(data, j)] + Listed(data, j + 1, n);
      SamePrefix(l.freed + [Entry(data, j)], rest, Listed(data, j + 1, n));
      Reassociate(l.freed, [Entry(data, j)], Listed(data, j + 1, n));
    }
  }

  lemma InRange(l: Loop, i: nat, ib: Key, data: Data)
    requires Begun(l, i, ib, data)
    ensures i < |l.s.bufs| && l.s.bufs[i].data == data
  {
  }

  lemma SamePrefix(a: seq<u16>, b: seq<u16>, c: seq<u16>)
    ensures a + b == a + c <==> b == c
  {
    assert (a + b)[|a|..] == b && (a + c)[|a|..] == c;
  }

  lemma Reassociate(a: seq<u16>, b: seq<u16>, c: seq<u16>)
    ensures a + (b + c) == (a + b) + c
  {
  }

  /** The state in which the loop starts: the indirect block has been read. */
  function Begin(s: State, ib: Key, head: u16): (l: Loop)
    requires s.bufs != []
    ensures |l.s.bufs| == |s.bufs|
  {
    Loop(Fetch(s, ib), head, [])
  }

  /** The block numbers of the indirect block, which are not its own, in every cache of the kernel: the loop frees
      exactly these, in order, if and only if before it some slot was empty, the block was in another slot than the
      first, or the superblock happens to read like the rest of the block. */
  lemma FreesAllWhen(s: State, ib: Key, head: u16, n: nat, sb: Superblock)
    requires Booted(s) && ib != SUPER && Laid(sb)
    requires forall j :: Entry(Contents(s, ib), j) != 0 ==> Key(0, Entry(Contents(s, ib), j)) != ib
    ensures SlotOf(s, ib) < |s.bufs|
    ensures Turns(Begin(s, ib, head), SlotOf(s, ib), 0, n, sb).freed == Listed(Contents(s, ib), 0, n) <==>
            || !Full(s) || (exists i :: 0 < i < |s.bufs| && Holds(s.bufs[i], ib))
            || ReadsAlike(sb, Contents(s, SUPER), Contents(s, ib), n)
  {
    BegunBy(s, ib, head);
    FetchIs(s, ib);
    OtherwiseFirst(s, ib);
    hide Turns, Listed, ReadsAlike, Begin, Booted, Begun, Contents, Entry;
    FreesFrom(Begin(s, ib, head), SlotOf(s, ib), ib, Contents(s, ib), n, sb);
    assert Begin(s, ib, head).freed + Listed(Contents(s, ib), 0, n) == Listed(Contents(s, ib), 0, n);
  }

  lemma BegunBy(s: State, ib: Key, head: u16)
    requires Booted(s) && ib != SUPER
    requires forall j :: Entry(Contents(s, ib), j) != 0 ==> Key(0, Entry(Contents(s, ib), j)) != ib
    ensures Begun(Begin(s, ib, head), SlotOf(s, ib), ib, Contents(s, ib))
    ensures Begin(s, ib, head).freed == [] && Begin(s, ib, head).s == Fetch(s, ib)
  {
    AccessKeeps(s, ib, []);
    LookIs(s, ib);
    FetchIs(s, ib);
  }

  /** It never does so when no block is listed twice and the first entry in use comes before the word of the superblock
      that holds the head of the free list: that word is the block freed last, which is freed again. */
  lemma EarlyEntry(sb: Superblock, base: Data, data: Data, n: nat)
    requires Laid(sb) && FirstUsed(data, 0, n) < FREE_LIST < n
    requires forall x, y :: 0 <= x < y < n && Entry(data, x) != 0 ==> Entry(data, x) != Entry(data, y)
    ensures !ReadsAlike(sb, base, data, n)
  {
    hide Entry;
    var j := FirstUsed(data, 0, n);
    var p := FreedAgain(sb, Entry(data, j), base, j + 1, n);
    var all := [Entry(data, j)] + Misread(sb, Entry(data, j), base, j + 1, n);
    if ReadsAlike(sb, base, data, n) {
      assert all == Listed(data, j, n);
      ListedOnce(data, j, n, p, p + 1);
    }
  }

  lemma {:induction false} FreedAgain(sb: Superblock, head: u16, base: Data, k: nat, n: nat) returns (p: nat)
    requires Laid(sb) && head != 0 && k <= FREE_LIST < n
    ensures var all := [head] + Misread(sb, head, base, k, n); p + 1 < |all| && all[p] == all[p + 1]
    decreases n - k
  {
    var e := Words(sb, head)[k];
    if k == FREE_LIST {
      p := 0;
    } else if e == 0 {
      p := FreedAgain(sb, head, base, k + 1, n);
    } else {
      p := FreedAgain(sb, e, base, k + 1, n);
      p := p + 1;
    }
  }

  lemma {:induction false} ListedOnce(data: Data, j: nat, n: nat, p: nat, q: nat)
    requires j <= n && p < q < |Listed(data, j, n)|
    requires forall x, y :: j <= x < y < n && Entry(data, x) != 0 ==> Entry(data, x) != Entry(data, y)
    ensures Listed(data, j, n)[p] != Listed(data, j, n)[q]
    decreases n - j
  {
    hide Entry;
    if Entry(data, j) == 0 {
      ListedOnce(data, j + 1, n, p, q);
    } else if p > 0 {
      ListedOnce(data, j + 1, n, p - 1, q - 1);
    } else {
      var x := ListedAt(data, j + 1, n, q - 1);
    }
  }

  lemma {:induction false} ListedAt(data: Data, j: nat, n: nat, q: nat) returns (x: nat)
    requires j <= n && q < |Listed(data, j, n)|
    ensures j <= x < n && Entry(data, x) != 0 && Listed(data, j, n)[q] == Entry(data, x)
    decreases n - j
  {
    hide Entry;
    if Entry(data, j) == 0 {
      x := ListedAt(data, j + 1, n, q);
    } else if q == 0 {
      x := j;
    } else {
      x := ListedAt(data, j + 1, n, q - 1);
    }
  }

  // ----- a run in which it goes wrong

  const PTRS_PER_BLK := 512

  /** An indirect block that lists blocks 99 and 98; what is behind reads as zeros. */
  const ENTRIES: Data := [0, 99, 0, 98]

  /** The superblock of a volume with 400 blocks and 64 inodes, of which 60 are free. */
  const SB := Superblock([0x4D49, 0x4E49, 1024, 400, 64], [60, 0, 0, 0])

  /** The disk with that indirect block as block n. */
  function Disk(n: nat): map<Key, Data> {
    map[SUPER := [], Key(0, n) := ENTRIES]
  }

  lemma {:induction false} ListedNone(data: Data, j: nat, n: nat)
    requires j <= n && forall x :: j <= x < n ==> Entry(data, x) == 0
    ensures Listed(data, j, n) == []
    decreases n - j
  {
    if j < n {
      ListedNone(data, j + 1, n);
    }
  }

  lemma ExampleEntries(n: nat)
    requires n >= 2
    ensures Entry(ENTRIES, 0) == 99 && Entry(ENTRIES, 1) == 98 && forall j :: j >= 2 ==> Entry(ENTRIES, j) == 0
    ensures Listed(ENTRIES, 0, n) == [99, 98]
  {
    ListedNone(ENTRIES, 2, n);
    hide Entry;
    assert Listed(ENTRIES, 1, n) == [98] + Listed(ENTRIES, 2, n);
  }

  lemma {:induction false} MisreadNone(head: u16, k: nat)
    requires 7 <= k <= PTRS_PER_BLK
    ensures Misread(SB, head, [], k, PTRS_PER_BLK) == []
    decreases PTRS_PER_BLK - k
  {
    if k < PTRS_PER_BLK {
      MisreadNone(head, k + 1);
    }
  }

  /** The words behind the upper half of the magic number. */
  lemma ExampleMisread()
    ensures Misread(SB, 99, [], 1, PTRS_PER_BLK) == [0x4E49, 1024, 400, 64, 64, 60]
  {
    MisreadNone(60, 7);
    assert Misread(SB, 64, [], 5, PTRS_PER_BLK) == [64] + Misread(SB, 64, [], 6, PTRS_PER_BLK) == [64, 60];
    assert Misread(SB, 1024, [], 3, PTRS_PER_BLK) == [400] + Misread(SB, 400, [], 4, PTRS_PER_BLK);
    assert Misread(SB, 99, [], 1, PTRS_PER_BLK) == [0x4E49] + Misread(SB, 0x4E49, [], 2, PTRS_PER_BLK);
  }

  /** A run from the start: the superblock is read, and then blocks 1 to n in a cache of n slots. Of the entries 99 and
      98 of block n the first is freed, and then the words of the superblock, its free list among them. */
  lemma SuperblockFreed(n: nat, head: u16)
    requires 0 < n < 98
    ensures var s, ib := Accesses(Start(n, Disk(n)), Looks(n)), Key(0, n);
            && Booted(s) && SlotOf(s, ib) == 0 && Contents(s, ib) == ENTRIES
            && Listed(ENTRIES, 0, PTRS_PER_BLK) == [99, 98]
            && Turns(Begin(s, ib, head), 0, 0, PTRS_PER_BLK, SB).freed == [99, 0x4E49, 1024, 400, 64, 64, 60]
  {
    hide Start, Looks, Accesses, Entry, Turns, Misread, Listed, Disk, Booted, SlotOf, Contents, Fetch;
    ExampleCache(n);
    ExampleEntries(PTRS_PER_BLK);
    ExampleMisread();
    NotItself(n);
    FreedThen(Accesses(Start(n, Disk(n)), Looks(n)), Key(0, n), head, PTRS_PER_BLK, SB);
    assert [99] + [0x4E49, 1024, 400, 64, 64, 60] == [99, 0x4E49, 1024, 400, 64, 64, 60];
  }

  lemma NotItself(n: nat)
    requires n < 98
    ensures forall j :: Entry(ENTRIES, j) != 0 ==> Key(0, Entry(ENTRIES, j)) != Key(0, n)
  {
    ExampleEntries(2);
  }

  lemma FreedThen(s: State, ib: Key, head: u16, n: nat, sb: Superblock)
    requires Booted(s) && ib != SUPER && Laid(sb) && SlotOf(s, ib) == 0 && n > 0 && Entry(Contents(s, ib), 0) != 0
    requires forall j :: Entry(Contents(s, ib), j) != 0 ==> Key(0, Entry(Contents(s, ib), j)) != ib
    ensures var e := Entry(Contents(s, ib), 0);
            Turns(Begin(s, ib, head), 0, 0, n, sb).freed == [e] + Misread(sb, e, Contents(s, SUPER), 1, n)
  {
    hide Begin, Begun, Booted, Contents, Entry, Turns, Misread, Fetch, SlotOf;
    BegunBy(s, ib, head);
    FetchIs(s, ib);
    FirstSlot(Begin(s, ib, head), ib, Contents(s, ib), 0, n, sb);
    assert Begin(s, ib, head).freed + [Entry(Contents(s, ib), 0)] == [Entry(Contents(s, ib), 0)];
  }

  lemma ExampleCache(n: nat)
    requires 0 < n < 98
    ensures var s, ib := Accesses(Start(n, Disk(n)), Looks(n)), Key(0, n);
            Booted(s) && SlotOf(s, ib) == 0 && Contents(s, ib) == ENTRIES && Contents(s, SUPER) == []
  {
    var s, ib := Accesses(Start(n, Disk(n)), Looks(n)), Key(0, n);
    Overflows(n, Disk(n));
    hide Start, Looks, Accesses;
    FindIs(s, 0, ib);
    assert Find(s.bufs, SUPER) == n;
  }

  // ----- the code

  /** The second half of bfree(): the superblock is copied over the first bytes of block 0. */
  method WriteSuper(c: Cache, sb: Superblock, head: u16)
    requires Inv(c.S()) && Laid(sb)
    modifies c, c.bufs
    ensures c.S() == WriteThrough(old(c.S()), SUPER, SuperData(sb, head, Contents(old(c.S()), SUPER))) && Inv(c.S())
  {
    ghost var u := Fetch(c.S(), SUPER);
    ghost var data := SuperData(sb, head, Contents(c.S(), SUPER));
    ChangeWritten(c.S(), SUPER, data);
    var r := c.Bread(SUPER);
    hide Fetch, Inv, WriteThrough, SuperData;
    c.bufs[r] := c.bufs[r].(data := SuperData(sb, head, c.bufs[r].data), dirty := true);
    assert c.S() == Change(u, r, data);
    c.Bwrite(r);
  }

  method FreeBlock(c: Cache, b: u16, head: u16, sb: Superblock)
    requires Inv(c.S()) && Laid(sb)
    modifies c, c.bufs
    ensures c.S() == Bfree(old(c.S()), b, head, sb) && Inv(c.S())
  {
    hide WriteThrough, Inv, SuperData, Contents;
    PutBlock(c, Key(0, b), LinkTo(head));
    WriteSuper(c, sb, b);
  }

  /** The indirect block is read once, and its entries through the same buffer in every turn. */
  method FreeEntries(c: Cache, ib: Key, n: nat, head0: u16, sb: Superblock) returns (freed: seq<u16>, head: u16)
    requires Inv(c.S()) && Laid(sb)
    modifies c, c.bufs
    ensures Inv(c.S())
    ensures var s := old(c.S());
            Loop(c.S(), head, freed) == Turns(Begin(s, ib, head0), SlotOf(s, ib), 0, n, sb)
  {
    hide Bfree, Inv;
    ghost var s := c.S();
    var i := c.Bread(ib);
    ReadSlot(s, ib);
    ghost var l := Begin(s, ib, head0);
    freed, head := [], head0;
    for j := 0 to n
      invariant Inv(c.S())
      invariant Turns(Loop(c.S(), head, freed), i, j, n, sb) == Turns(l, i, 0, n, sb)
    {
      var e := Entry(c.bufs[i].data, j);
      if e != 0 {
        FreeBlock(c, e, head, sb);
        freed, head := freed + [e], e;
      }
    }
  }
}
