/** The buffer cache of kernel/buf.c as kernel/fs.c uses it: the superblock is read first, and every change is written
  at once. In all caches that this leads to, a pointer to a buffer is good for as long as it is not to the first slot,
  which is where the superblock goes. */
module KernelCache {
  import opened BufferCache

  /** Block 0. */
  const SUPER := Key(0, 0)

  /** bread(), a change of the block, bwrite() and brelse(). */
  function WriteThrough(s: State, k: Key, data: Data): (t: State)
    requires s.bufs != []
    ensures |t.bufs| == |s.bufs|
  {
    Step(Step(s, Modify(k, data)), Write(k))
  }

  /** What the file system does with the cache: it reads a block, or reads, changes and writes it. */
  datatype Access = Look(k: Key) | Put(k: Key, data: Data)

  function AccessStep(s: State, a: Access): (t: State)
    requires s.bufs != []
    ensures |t.bufs| == |s.bufs|
  {
    match a
    case Look(k) => Fetch(s, k)
    case Put(k, data) => WriteThrough(s, k, data)
  }

  function Accesses(s: State, aa: seq<Access>): (t: State)
    requires s.bufs != []
    ensures |t.bufs| == |s.bufs|
    decreases |aa|
  {
    if aa == [] then s else Accesses(AccessStep(s, aa[0]), aa[1..])
  }

  // ----- one access to a clean cache

  ghost predicate Clean(s: State) {
    Inv(s) && AllClean(s)
  }

  /** The slot of a block once it has been read. */
  function SlotOf(s: State, k: Key): (i: nat)
    requires s.bufs != []
    ensures i < |s.bufs|
  {
    if Find(s.bufs, k) < |s.bufs| then Find(s.bufs, k) else Victim(s.bufs)
  }

  /** What the read of a block puts in its slot. */
  function Loaded(s: State, k: Key): Buf
    requires s.bufs != []
  {
    if Find(s.bufs, k) < |s.bufs| then s.bufs[Find(s.bufs, k)] else Buf(k, false, true, DiskAt(s.disk, k))
  }

  lemma LookIs(s: State, k: Key)
    requires Clean(s)
    ensures var t := Fetch(s, k);
            Clean(t) && t.bufs == s.bufs[SlotOf(s, k) := Loaded(s, k)] && t.disk == s.disk
    ensures Find(Fetch(s, k).bufs, k) == SlotOf(s, k)
  {
    FetchKeeps(s, k);
    FindIs(Fetch(s, k), SlotOf(s, k), k);
  }

  lemma PutIs(s: State, k: Key, data: Data)
    requires Clean(s)
    ensures var t := WriteThrough(s, k, data);
            Clean(t) && t.bufs == s.bufs[SlotOf(s, k) := Buf(k, false, true, data)]
    ensures forall m :: Contents(WriteThrough(s, k, data), m) == if m == k then data else Contents(s, m)
  {
    hide Find, Fetch, SlotOf, Loaded;
    LookIs(s, k);
    FetchKeeps(s, k);
    WriteThroughKeepsClean(s, k, data);
    var u := Fetch(s, k);
    var f := SlotOf(s, k);
    var c := Change(u, f, data);
    ChangeKeeps(u, k, data);
    FindIs(c, f, k);
    HitStays(c, k);
    FlushKeeps(c, f);
    assert s.bufs[f := u.bufs[f]] == u.bufs;
  }

  lemma HitStays(s: State, k: Key)
    requires s.bufs != [] && Find(s.bufs, k) < |s.bufs|
    ensures Fetch(s, k) == s
  {
  }

  // ----- the caches of the kernel

  predicate Full(s: State) {
    forall i :: 0 <= i < |s.bufs| ==> s.bufs[i].valid
  }

  /** The superblock is in no slot but the first, and is there as long as some slot is empty. */
  ghost predicate Booted(s: State) {
    && Clean(s)
    && (forall i :: 0 < i < |s.bufs| ==> !Holds(s.bufs[i], SUPER))
    && (Holds(s.bufs[0], SUPER) || Full(s))
  }

  /** buf_init() and then fs_init() */
  lemma BootIs(s: State)
    requires s.bufs != [] && Empty(s)
    ensures Booted(Fetch(s, SUPER))
  {
    assert Clean(s) && FirstInvalid(s.bufs) == 0;
    LookIs(s, SUPER);
  }

  /** The superblock goes to the first slot. */
  lemma SuperFirst(s: State)
    requires Booted(s)
    ensures SlotOf(s, SUPER) == 0
  {
    if Holds(s.bufs[0], SUPER) {
      FindIs(s, 0, SUPER);
    }
  }

  /** Another block goes there exactly when it is in no other slot and no slot is empty; and it takes no other slot from
      a block. */
  lemma OtherwiseFirst(s: State, k: Key)
    requires Booted(s) && k != SUPER
    ensures SlotOf(s, k) == 0 <==> Full(s) && forall i :: 0 < i < |s.bufs| ==> !Holds(s.bufs[i], k)
    ensures forall i :: 0 < i < |s.bufs| && s.bufs[i].valid && s.bufs[i].key != k ==> SlotOf(s, k) != i
  {
    var i := SlotOf(s, k);
    if Find(s.bufs, k) < |s.bufs| {
      if i == 0 {
        assert !Holds(s.bufs[0], SUPER);
      }
    }
  }

  lemma AccessKeeps(s: State, k: Key, data: Data)
    requires Booted(s)
    ensures Booted(Fetch(s, k)) && Booted(WriteThrough(s, k, data))
  {
    hide Fetch, WriteThrough, SlotOf;
    LookIs(s, k);
    PutIs(s, k, data);
    if k == SUPER {
      SuperFirst(s);
    } else {
      OtherwiseFirst(s, k);
    }
  }

  /** Every access keeps it, so all caches of the kernel are such. */
  lemma {:induction false} AlwaysBooted(s: State, aa: seq<Access>)
    requires Booted(s)
    ensures Booted(Accesses(s, aa))
    decreases |aa|
  {
    if aa == [] { return; }
    AccessKeeps(s, aa[0].k, if aa[0].Put? then aa[0].data else []);
    AlwaysBooted(AccessStep(s, aa[0]), aa[1..]);
  }

  // ----- a pointer to a buffer kept across balloc()

  /** balloc() reads the free block and changes the superblock. */
  function Balloc(s: State, b: Key, super: Data): (t: State)
    requires s.bufs != []
    ensures |t.bufs| == |s.bufs|
  {
    WriteThrough(Fetch(s, b), SUPER, super)
  }

  /** The pointer to another block than the superblock is good after it exactly when it is not to the first slot; that
      one holds the superblock then. */
  lemma KeptAcrossBalloc(s: State, i: nat, b: Key, super: Data)
    requires Booted(s) && i < |s.bufs| && s.bufs[i].valid && s.bufs[i].key != SUPER && b != SUPER
    ensures var t := Balloc(s, b, super);
            && Booted(t) && (Holds(t.bufs[i], s.bufs[i].key) <==> i != 0)
            && t.bufs[i] == if i != 0 then s.bufs[i] else Buf(SUPER, false, true, super)
    ensures forall m :: Contents(Balloc(s, b, super), m) == if m == SUPER then super else Contents(s, m)
  {
    var u := Fetch(s, b);
    AccessKeeps(s, b, []);
    AccessKeeps(u, SUPER, super);
    hide Fetch, WriteThrough, SlotOf, Loaded, Booted, Find;
    KeptAcrossRead(s, i, b);
    SuperFirst(u);
    FetchIs(s, b);
    PutSuper(u, super);
  }

  lemma KeptAcrossRead(s: State, i: nat, k: Key)
    requires Booted(s) && i < |s.bufs| && s.bufs[i].valid && k != SUPER
    ensures i != 0 ==> Fetch(s, k).bufs[i] == s.bufs[i]
  {
    LookIs(s, k);
    OtherwiseFirst(s, k);
    if i == SlotOf(s, k) && i != 0 {
      FindIs(s, i, k);
    }
  }

  lemma FetchIs(s: State, k: Key)
    requires Booted(s)
    ensures forall m :: Contents(Fetch(s, k), m) == Contents(s, m)
  {
    FetchKeeps(s, k);
  }

  lemma PutSuper(s: State, super: Data)
    requires Booted(s)
    ensures WriteThrough(s, SUPER, super).bufs == s.bufs[0 := Buf(SUPER, false, true, super)]
    ensures forall m :: Contents(WriteThrough(s, SUPER, super), m) == if m == SUPER then super else Contents(s, m)
  {
    SuperFirst(s);
    PutIs(s, SUPER, super);
  }

  // ----- a run that fills the cache

  const UNUSED := Buf(Key(0xFF, 0xFFFF), false, false, [])

  /** The cache of `n` slots after buf_init() and fs_init(). */
  function Start(n: nat, disk: map<Key, Data>): (s: State)
    requires n > 0
    ensures |s.bufs| == n
  {
    Fetch(State(seq(n, _ => UNUSED), disk), SUPER)
  }

  /** Reads of blocks 1 to m. */
  function Looks(m: nat): seq<Access> {
    if m == 0 then [] else Looks(m - 1) + [Look(Key(0, m))]
  }

  lemma {:induction false} LookMore(s: State, aa: seq<Access>, a: Access)
    requires s.bufs != []
    ensures Accesses(s, aa + [a]) == AccessStep(Accesses(s, aa), a)
    decreases |aa|
  {
    if aa == [] {
      assert aa + [a] == [a];
      assert [a][1..] == [];
    } else {
      assert (aa + [a])[1..] == aa[1..] + [a];
      LookMore(AccessStep(s, aa[0]), aa[1..], a);
    }
  }

  /** Blocks 0 to m in the first slots, and the others empty. */
  function Filled(n: nat, m: nat, disk: map<Key, Data>): State {
    State(seq(n, (i: nat) => if i <= m then Buf(Key(0, i), false, true, DiskAt(disk, Key(0, i))) else UNUSED), disk)
  }

  lemma FilledBooted(n: nat, m: nat, disk: map<Key, Data>)
    requires m < n
    ensures Booted(Filled(n, m, disk)) && Full(Filled(n, n - 1, disk))
    ensures forall k: nat :: k > m ==> SlotOf(Filled(n, m, disk), Key(0, k)) == if m + 1 < n then m + 1 else 0
  {
    var s := Filled(n, m, disk);
    assert Holds(s.bufs[0], SUPER);
    forall k: nat | k > m
      ensures SlotOf(s, Key(0, k)) == if m + 1 < n then m + 1 else 0
    {
      NotFilled(n, m, disk, k);
    }
  }

  lemma NotFilled(n: nat, m: nat, disk: map<Key, Data>, k: nat)
    requires m < n && k > m
    ensures var s := Filled(n, m, disk);
            Find(s.bufs, Key(0, k)) == n && Victim(s.bufs) == if m + 1 < n then m + 1 else 0
  {
    var s := Filled(n, m, disk);
    assert m + 1 < n ==> !s.bufs[m + 1].valid;
    assert FirstInvalid(s.bufs) == if m + 1 < n then m + 1 else n;
    assert !s.bufs[0].dirty;
  }

  lemma {:induction false} FillsUp(n: nat, m: nat, disk: map<Key, Data>)
    requires m < n
    ensures Accesses(Start(n, disk), Looks(m)) == Filled(n, m, disk)
    decreases m
  {
    hide Fetch, SlotOf, Filled;
    if m == 0 {
      StartIs(n, disk);
    } else {
      FillsUp(n, m - 1, disk);
      LookMore(Start(n, disk), Looks(m - 1), Look(Key(0, m)));
      FillsOne(n, m, disk);
    }
  }

  lemma StartIs(n: nat, disk: map<Key, Data>)
    requires n > 0
    ensures Start(n, disk) == Filled(n, 0, disk)
  {
    var s := State(seq(n, _ => UNUSED), disk);
    assert Clean(s) && FirstInvalid(s.bufs) == 0 && Find(s.bufs, SUPER) == n;
    assert Start(n, disk).bufs == Filled(n, 0, disk).bufs;
  }

  lemma FillsOne(n: nat, m: nat, disk: map<Key, Data>)
    requires 0 < m < n
    ensures Fetch(Filled(n, m - 1, disk), Key(0, m)) == Filled(n, m, disk)
  {
    var s := Filled(n, m - 1, disk);
    FilledBooted(n, m - 1, disk);
    NotFilled(n, m - 1, disk, m);
    LookIs(s, Key(0, m));
    assert Fetch(s, Key(0, m)).bufs == Filled(n, m, disk).bufs;
  }

  /** A run from the start after which block n, read last, is in the first slot. */
  lemma Overflows(n: nat, disk: map<Key, Data>)
    requires n > 0
    ensures var s := Accesses(Start(n, disk), Looks(n));
            && Booted(s) && Full(s) && s.disk == disk
            && s.bufs == Filled(n, n - 1, disk).bufs[0 := Buf(Key(0, n), false, true, DiskAt(disk, Key(0, n)))]
  {
    FillsUp(n, n - 1, disk);
    LookMore(Start(n, disk), Looks(n - 1), Look(Key(0, n)));
    var f := Filled(n, n - 1, disk);
    FilledBooted(n, n - 1, disk);
    NotFilled(n, n - 1, disk, n);
    LookIs(f, Key(0, n));
    AccessKeeps(f, Key(0, n), []);
  }

  /** After it, a pointer to that block is a pointer to the superblock once balloc() has taken a block. */
  lemma RetainedPointerGoesStale(n: nat, disk: map<Key, Data>, b: nat, super: Data)
    requires n > 0 && b > n
    ensures var s := Accesses(Start(n, disk), Looks(n));
            Booted(s) && Holds(s.bufs[0], Key(0, n)) && Holds(Balloc(s, Key(0, b), super).bufs[0], SUPER)
  {
    Overflows(n, disk);
    hide Start, Looks, Balloc;
    KeptAcrossBalloc(Accesses(Start(n, disk), Looks(n)), 0, Key(0, b), super);
  }

  // ----- entries of an indirect block

  const BLOCK_SIZE := 1024

  type u16 = x: int | 0 <= x < 0x1_0000

  /** Entry number j, two bytes each. */
  function Entry(data: Data, j: nat): u16 {
    if 2 * j + 1 >= |data| then 0
    else
      var high: int := data[2 * j];
      high * 256 + data[2 * j + 1]
  }

  function SetEntry(data: Data, j: nat, b: u16): Data
    requires 2 * j + 1 < |data|
  {
    data[2 * j := b / 256][2 * j + 1 := b % 256]
  }

  /** A change through a pointer to a slot, and bwrite(). */
  function Store(s: State, i: nat, data: Data): State
    requires i < |s.bufs|
  {
    Flush(Change(s, i, data), i)
  }

  /** It is a change of the block that is in the slot. */
  lemma StoreIs(s: State, i: nat, data: Data)
    requires Clean(s) && i < |s.bufs| && s.bufs[i].valid
    ensures Store(s, i, data) == WriteThrough(s, s.bufs[i].key, data)
  {
    var k := s.bufs[i].key;
    FindIs(s, i, k);
    HitStays(s, k);
    ChangeKeeps(s, k, data);
    FindIs(Change(s, i, data), i, k);
    HitStays(Change(s, i, data), k);
  }

  /** The last part of bmap(): with the indirect block in slot `i`, balloc() takes block `b`, and its number is stored
      through the pointer. */
  function AllocEntry(s: State, i: nat, j: nat, b: u16, super: Data): State
    requires i < |s.bufs| && 2 * j + 1 < |Balloc(s, Key(0, b), super).bufs[i].data|
  {
    var t := Balloc(s, Key(0, b), super);
    Store(t, i, SetEntry(t.bufs[i].data, j, b))
  }

  /** The number is recorded in the indirect block exactly when that is not in the first slot. If it is, the block does
      not change and the number goes into the superblock. */
  lemma EntryRecorded(s: State, i: nat, j: nat, b: u16, super: Data)
    requires Booted(s) && i < |s.bufs| && s.bufs[i].valid && s.bufs[i].key != SUPER
    requires 2 * j + 1 < |s.bufs[i].data| && 2 * j + 1 < |super|
    requires 0 < b && Entry(s.bufs[i].data, j) == 0
    ensures 2 * j + 1 < |Balloc(s, Key(0, b), super).bufs[i].data|
    ensures var w, ib := AllocEntry(s, i, j, b, super), s.bufs[i].key;
            && Booted(w) && (Entry(Contents(w, ib), j) == b <==> i != 0)
            && Contents(w, ib) == (if i != 0 then SetEntry(s.bufs[i].data, j, b) else s.bufs[i].data)
            && Contents(w, SUPER) == (if i != 0 then super else SetEntry(super, j, b))
            && forall m :: m != ib && m != SUPER ==> Contents(w, m) == Contents(s, m)
  {
    var t, ib := Balloc(s, Key(0, b), super), s.bufs[i].key;
    KeptAcrossBalloc(s, i, Key(0, b), super);
    var data := SetEntry(t.bufs[i].data, j, b);
    FindIs(s, i, ib);
    assert Contents(s, ib) == s.bufs[i].data;
    hide Find, Balloc, WriteThrough;
    StoreIs(t, i, data);
    AccessKeeps(t, t.bufs[i].key, data);
    PutIs(t, t.bufs[i].key, data);
    hide Booted, Contents, SlotOf;
    EntrySet(s.bufs[i].data, j, b);
  }

  lemma EntrySet(data: Data, j: nat, b: u16)
    requires 2 * j + 1 < |data|
    ensures Entry(SetEntry(data, j, b), j) == b
  {
  }

  lemma InSlot(s: State, k: Key)
    requires Booted(s)
    ensures var t := Fetch(s, k);
            && Booted(t) && |t.bufs| == |s.bufs| && Find(t.bufs, k) == SlotOf(s, k)
            && Holds(t.bufs[SlotOf(s, k)], k) && t.bufs[SlotOf(s, k)].data == Contents(s, k)
  {
    AccessKeeps(s, k, []);
    LookIs(s, k);
    FetchIs(s, k);
  }

  /** From before the indirect block is read: the block number is recorded in it exactly when some slot is empty or the
      indirect block is in another slot than the first. */
  lemma RecordedWhen(s: State, ib: Key, j: nat, b: u16, super: Data)
    requires Booted(s) && ib != SUPER && b != 0
    requires 2 * j + 1 < |Contents(s, ib)| && 2 * j + 1 < |super| && Entry(Contents(s, ib), j) == 0
    ensures var u, i := Fetch(s, ib), SlotOf(s, ib);
            && i < |u.bufs| && 2 * j + 1 < |Balloc(u, Key(0, b), super).bufs[i].data|
            && (Entry(Contents(AllocEntry(u, i, j, b, super), ib), j) == b <==>
                !Full(s) || exists x :: 0 < x < |s.bufs| && Holds(s.bufs[x], ib))
  {
    hide Fetch, Contents, SlotOf, Booted, Entry, Find;
    InSlot(s, ib);
    OtherwiseFirst(s, ib);
    EntryRecorded(Fetch(s, ib), SlotOf(s, ib), j, b, super);
  }

  // ----- the code

  /** A change of a block that has been read, and bwrite(). */
  lemma ChangeWritten(s: State, k: Key, data: Data)
    requires Inv(s)
    ensures var u := Fetch(s, k);
            var i := Find(u.bufs, k);
            i < |u.bufs| && Inv(Change(u, i, data)) && Flush(Change(u, i, data), i) == WriteThrough(s, k, data)
            && Inv(WriteThrough(s, k, data))
  {
    var u := Fetch(s, k);
    FetchKeeps(s, k);
    var i := Find(u.bufs, k);
    var c := Change(u, i, data);
    ChangeKeeps(u, k, data);
    FindIs(c, i, k);
    HitStays(c, k);
    FlushKeeps(c, i);
  }

  /** bread(), a change of the whole block, bwrite() and brelse(). */
  method PutBlock(c: Cache, k: Key, data: Data)
    requires Inv(c.S())
    modifies c, c.bufs
    ensures c.S() == WriteThrough(old(c.S()), k, data) && Inv(c.S())
  {
    ghost var u := Fetch(c.S(), k);
    ChangeWritten(c.S(), k, data);
    var r := c.Bread(k);
    hide Fetch, Inv, WriteThrough;
    c.bufs[r] := c.bufs[r].(data := data, dirty := true);
    assert c.S() == Change(u, r, data);
    c.Bwrite(r);
  }

  lemma ReadSlot(s: State, k: Key)
    requires Inv(s)
    ensures Find(Fetch(s, k).bufs, k) == SlotOf(s, k)
  {
    FetchKeeps(s, k);
    FindIs(Fetch(s, k), SlotOf(s, k), k);
  }

  /** The part of bmap() that fills an empty entry: the pointer to the buffer of the indirect block is kept while
      balloc() takes block `b`. */
  method FillEntry(c: Cache, ib: Key, j: nat, b: u16, super: Data)
    requires Booted(c.S()) && ib != SUPER && b != 0
    requires 2 * j + 1 < |Contents(c.S(), ib)| && 2 * j + 1 < |super|
    modifies c, c.bufs
    ensures var s, i := Fetch(old(c.S()), ib), SlotOf(old(c.S()), ib);
            && i < |s.bufs| && 2 * j + 1 < |Balloc(s, Key(0, b), super).bufs[i].data|
            && c.S() == AllocEntry(s, i, j, b, super)
  {
    ghost var s := c.S();
    InSlot(s, ib);
    KeptAcrossBalloc(Fetch(s, ib), SlotOf(s, ib), Key(0, b), super);
    hide Booted, Fetch, SlotOf, WriteThrough, Find, Contents;
    var i := c.Bread(ib);
    var r := c.Bread(Key(0, b));
    PutBlock(c, SUPER, super);
    assert c.S() == Balloc(Fetch(s, ib), Key(0, b), super);
    var data := SetEntry(c.bufs[i].data, j, b);
    ghost var t := c.S();
    c.bufs[i] := c.bufs[i].(data := data, dirty := true);
    assert c.S() == Change(t, i, data);
    c.Bwrite(i);
  }
}
