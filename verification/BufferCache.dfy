/** The block buffer cache (kernel/buf.c) refines a plain map from block keys to contents. */
module BufferCache {

  type byte = x: int | 0 <= x < 256

  type Data = seq<byte>

  /** A device and a block number. */
  datatype Key = Key(dev: nat, blockno: nat)

  datatype Buf = Buf(key: Key, dirty: bool, valid: bool, data: Data)

  /** The slots, of which there can be any number but none, and the contents of the devices. */
  datatype State = State(bufs: seq<Buf>, disk: map<Key, Data>)

  predicate Holds(b: Buf, k: Key) {
    b.valid && b.key == k
  }

  function DiskAt(disk: map<Key, Data>, k: Key): Data {
    if k in disk then disk[k] else []
  }

  /** The first slot that holds `k`, or the number of slots. */
  function Find(bufs: seq<Buf>, k: Key): (i: nat)
    ensures i <= |bufs| && (i < |bufs| ==> Holds(bufs[i], k)) && forall j :: 0 <= j < i ==> !Holds(bufs[j], k)
  {
    if bufs == [] || Holds(bufs[0], k) then 0 else 1 + Find(bufs[1..], k)
  }

  function FirstInvalid(bufs: seq<Buf>): (i: nat)
    ensures i <= |bufs| && (i < |bufs| ==> !bufs[i].valid) && forall j :: 0 <= j < i ==> bufs[j].valid
  {
    if bufs == [] || !bufs[0].valid then 0 else 1 + FirstInvalid(bufs[1..])
  }

  function FirstClean(bufs: seq<Buf>): (i: nat)
    ensures i <= |bufs| && (i < |bufs| ==> !bufs[i].dirty) && forall j :: 0 <= j < i ==> bufs[j].dirty
  {
    if bufs == [] || !bufs[0].dirty then 0 else 1 + FirstClean(bufs[1..])
  }

  /** The slot a miss goes to: the first empty one, else the first clean one, else slot 0. */
  function Victim(bufs: seq<Buf>): (i: nat)
    requires bufs != []
    ensures i < |bufs|
  {
    if FirstInvalid(bufs) < |bufs| then FirstInvalid(bufs)
    else if FirstClean(bufs) < |bufs| then FirstClean(bufs)
    else 0
  }

  /** A miss evicts nothing while there is an empty slot, and writes nothing out while there is a clean one; it takes
      the lowest such slot, and slot 0 if all are in use and dirty. */
  lemma VictimIs(bufs: seq<Buf>, i: nat)
    requires i < |bufs|
    ensures Victim(bufs) == i <==>
            if exists j :: 0 <= j < |bufs| && !bufs[j].valid
            then !bufs[i].valid && forall j :: 0 <= j < i ==> bufs[j].valid
            else if exists j :: 0 <= j < |bufs| && !bufs[j].dirty
            then !bufs[i].dirty && forall j :: 0 <= j < i ==> bufs[j].dirty
            else i == 0
  {
    var v, c := FirstInvalid(bufs), FirstClean(bufs);
    assert v < |bufs| ==> !bufs[v].valid;
    assert c < |bufs| ==> !bufs[c].dirty;
  }

  /** bwrite() */
  function Flush(s: State, i: nat): State
    requires i < |s.bufs|
  {
    var b := s.bufs[i];
    if b.dirty then State(s.bufs[i := b.(dirty := false)], s.disk[b.key := b.data]) else s
  }

  /** bread(): the state it leaves; the block is then in slot Find(.., k). */
  function Fetch(s: State, k: Key): State
    requires s.bufs != []
  {
    if Find(s.bufs, k) < |s.bufs| then s
    else
      var v := Victim(s.bufs);
      var t := if s.bufs[v].valid then Flush(s, v) else s;
      t.(bufs := t.bufs[v := Buf(k, false, true, DiskAt(t.disk, k))])
  }

  /** A caller changes the bytes of a buffer and marks it dirty. */
  function Change(s: State, i: nat, data: Data): State
    requires i < |s.bufs|
  {
    s.(bufs := s.bufs[i := s.bufs[i].(data := data, dirty := true)])
  }

  /** What a reader of block `k` sees. */
  function Contents(s: State, k: Key): Data {
    var i := Find(s.bufs, k);
    if i < |s.bufs| then s.bufs[i].data else DiskAt(s.disk, k)
  }

  /** At most one slot for each block, and a clean slot equals the disk. */
  ghost predicate Inv(s: State) {
    && s.bufs != []
    && (forall i, j :: 0 <= i < j < |s.bufs| && s.bufs[i].valid && s.bufs[j].valid ==> s.bufs[i].key != s.bufs[j].key)
    && (forall i :: 0 <= i < |s.bufs| && s.bufs[i].valid && !s.bufs[i].dirty ==>
        s.bufs[i].data == DiskAt(s.disk, s.bufs[i].key))
    && (forall i :: 0 <= i < |s.bufs| && s.bufs[i].dirty ==> s.bufs[i].valid)
  }

  lemma FindIs(s: State, i: nat, k: Key)
    requires Inv(s) && i < |s.bufs| && Holds(s.bufs[i], k)
    ensures Find(s.bufs, k) == i
  {
  }

  lemma FlushInv(s: State, i: nat)
    requires Inv(s) && i < |s.bufs|
    ensures Inv(Flush(s, i))
  {
  }

  lemma FlushKeeps(s: State, i: nat)
    requires Inv(s) && i < |s.bufs|
    ensures Inv(Flush(s, i)) && forall k :: Contents(Flush(s, i), k) == Contents(s, k)
  {
    hide Find;
    FlushInv(s, i);
    var t := Flush(s, i);
    forall k
      ensures Contents(t, k) == Contents(s, k)
    {
      var j := Find(s.bufs, k);
      if j < |s.bufs| {
        FindIs(t, j, k);
      }
      var j' := Find(t.bufs, k);
      if j' < |s.bufs| {
        FindIs(s, j', k);
      }
    }
  }

  /** Loading an uncached block over a slot that is empty or clean. */
  lemma LoadKeeps(t: State, v: nat, k: Key)
    requires Inv(t) && v < |t.bufs| && Find(t.bufs, k) == |t.bufs| && !t.bufs[v].dirty
    ensures var w := t.(bufs := t.bufs[v := Buf(k, false, true, DiskAt(t.disk, k))]);
            Inv(w) && Find(w.bufs, k) == v && forall m :: Contents(w, m) == Contents(t, m)
  {
    var w := t.(bufs := t.bufs[v := Buf(k, false, true, DiskAt(t.disk, k))]);
    hide Find;
    assert forall j :: 0 <= j < |t.bufs| ==> !Holds(t.bufs[j], k);
    assert Inv(w);
    FindIs(w, v, k);
    forall m | m != k
      ensures Contents(w, m) == Contents(t, m)
    {
      var j, j' := Find(t.bufs, m), Find(w.bufs, m);
      if j < |t.bufs| && j != v {
        FindIs(w, j, m);
      }
      if j' < |t.bufs| {
        FindIs(t, j', m);
      }
    }
  }

  /** A read, whatever it evicts, changes no block's contents, and the block is then cached. */
  lemma FetchKeeps(s: State, k: Key)
    requires Inv(s)
    ensures Inv(Fetch(s, k)) && Find(Fetch(s, k).bufs, k) < |s.bufs|
    ensures forall m :: Contents(Fetch(s, k), m) == Contents(s, m)
  {
    if Find(s.bufs, k) < |s.bufs| { return; }
    var v := Victim(s.bufs);
    var t := if s.bufs[v].valid then Flush(s, v) else s;
    FlushKeeps(s, v);
    assert forall j :: 0 <= j < |s.bufs| ==> !Holds(t.bufs[j], k);
    LoadKeeps(t, v, k);
  }

  lemma ChangeKeeps(s: State, k: Key, data: Data)
    requires Inv(s) && Find(s.bufs, k) < |s.bufs|
    ensures Inv(Change(s, Find(s.bufs, k), data))
    ensures forall m :: Contents(Change(s, Find(s.bufs, k), data), m) == if m == k then data else Contents(s, m)
  {
    hide Find;
    var i := Find(s.bufs, k);
    var t := Change(s, i, data);
    assert Inv(t);
    forall m
      ensures Contents(t, m) == if m == k then data else Contents(s, m)
    {
      var j, j' := Find(s.bufs, m), Find(t.bufs, m);
      if j < |s.bufs| {
        FindIs(t, j, m);
      }
      if j' < |s.bufs| {
        FindIs(s, j', m);
      }
    }
  }

  // ----- runs

  /** What callers do: read a block, change a block they have read, and write or release it. */
  datatype Op = Read(k: Key) | Modify(k: Key, data: Data) | Write(k: Key)

  function Step(s: State, op: Op): State
    requires s.bufs != []
    ensures |Step(s, op).bufs| == |s.bufs|
  {
    var t := Fetch(s, op.k);
    var i := Find(t.bufs, op.k);
    if i >= |t.bufs| then t
    else
      match op
      case Read(_) => t
      case Modify(_, data) => Change(t, i, data)
      case Write(_) => Flush(t, i)
  }

  function Run(s: State, ops: seq<Op>): State
    requires s.bufs != []
    ensures |Run(s, ops).bufs| == |s.bufs|
    decreases |ops|
  {
    if ops == [] then s else Run(Step(s, ops[0]), ops[1..])
  }

  /** The same calls on a plain block map. */
  function Plain(m: map<Key, Data>, ops: seq<Op>): map<Key, Data>
    decreases |ops|
  {
    if ops == [] then m else Plain(PlainStep(m, ops[0]), ops[1..])
  }

  function PlainStep(m: map<Key, Data>, op: Op): map<Key, Data> {
    if op.Modify? then m[op.k := op.data] else m
  }

  ghost predicate Refines(s: State, m: map<Key, Data>) {
    Inv(s) && forall k :: Contents(s, k) == DiskAt(m, k)
  }

  lemma StepRefines(s: State, m: map<Key, Data>, op: Op)
    requires Refines(s, m)
    ensures Refines(Step(s, op), PlainStep(m, op))
  {
    hide Find;
    var t := Fetch(s, op.k);
    FetchKeeps(s, op.k);
    match op
    case Read(_) =>
    case Modify(k, data) => ChangeKeeps(t, k, data);
    case Write(k) => FlushKeeps(t, Find(t.bufs, k));
  }

  /** Refinement: after any run, every block reads as it would in a plain block map. */
  lemma {:induction false} RunRefines(s: State, m: map<Key, Data>, ops: seq<Op>)
    requires Refines(s, m)
    ensures Refines(Run(s, ops), Plain(m, ops))
    decreases |ops|
  {
    if ops == [] { return; }
    StepRefines(s, m, ops[0]);
    RunRefines(Step(s, ops[0]), PlainStep(m, ops[0]), ops[1..]);
  }

  ghost predicate AllClean(s: State) {
    forall i :: 0 <= i < |s.bufs| ==> !s.bufs[i].dirty
  }

  /** With nothing dirty, the disk is the block map. */
  lemma CleanIsDisk(s: State)
    requires Inv(s) && AllClean(s)
    ensures forall k :: Contents(s, k) == DiskAt(s.disk, k)
  {
  }

  /** kernel/fs.c follows every change with bwrite(): after such a call nothing is dirty, so no write
      can be lost. */
  lemma WriteThroughKeepsClean(s: State, k: Key, data: Data)
    requires Inv(s) && AllClean(s)
    ensures var t := Step(Step(s, Modify(k, data)), Write(k));
            Inv(t) && AllClean(t) && t.disk == s.disk[k := data]
  {
    hide Find;
    FetchKeeps(s, k);
    var u := Fetch(s, k);
    ChangeKeeps(u, k, data);
    FindIs(Step(s, Modify(k, data)), Find(u.bufs, k), k);
    FlushKeeps(Step(s, Modify(k, data)), Find(u.bufs, k));
  }

  // ----- a pointer to a buffer kept across another read

  /** A read of `k` leaves slot `i` alone: it is a hit or evicts some other slot. */
  predicate Spares(bufs: seq<Buf>, i: nat, k: Key)
    requires bufs != []
  {
    Find(bufs, k) < |bufs| || i != Victim(bufs)
  }

  /** The buffer in slot `i` is still the caller's after a read of `k` exactly when the read spares it. */
  lemma RetainedAcrossRead(s: State, i: nat, k: Key)
    requires Inv(s) && i < |s.bufs| && s.bufs[i].valid
    ensures Holds(Fetch(s, k).bufs[i], s.bufs[i].key) <==> Spares(s.bufs, i, k)
  {
  }

  /** bmap() keeps a pointer to the indirect block's buffer while balloc() reads the free block `b` and the superblock
      `sb`: the pointer is good exactly when neither read evicts that buffer; otherwise it points at one of those
      blocks. */
  lemma RetainedAcrossBalloc(s: State, i: nat, b: Key, sb: Key)
    requires Inv(s) && i < |s.bufs| && s.bufs[i].valid && s.bufs[i].key != sb
    ensures var u := Fetch(s, b);
            var t := Fetch(u, sb);
            && (Holds(t.bufs[i], s.bufs[i].key) <==> Spares(s.bufs, i, b) && Spares(u.bufs, i, sb))
            && (!Holds(t.bufs[i], s.bufs[i].key) ==> t.bufs[i].key == b || t.bufs[i].key == sb)
  {
    FetchKeeps(s, b);
    RetainedAcrossRead(s, i, b);
    RetainedAcrossRead(Fetch(s, b), i, sb);
  }

  /** A cache in use: no empty slot, and nothing dirty because every change is written through. */
  ghost predicate Steady(s: State) {
    Inv(s) && AllClean(s) && forall i :: 0 <= i < |s.bufs| ==> s.bufs[i].valid
  }

  lemma SteadyReads(s: State, k: Key)
    requires Steady(s)
    ensures Steady(Fetch(s, k)) && Victim(s.bufs) == 0
    ensures Fetch(s, k).bufs == if Find(s.bufs, k) < |s.bufs| then s.bufs else s.bufs[0 := Fetch(s, k).bufs[0]]
  {
    FetchKeeps(s, k);
  }

  /** In a cache in use every miss goes to slot 0, so the pointer is good exactly when it is not to slot 0 or both reads
      hit. */
  lemma SteadyAcrossBalloc(s: State, i: nat, b: Key, sb: Key)
    requires Steady(s) && i < |s.bufs| && b != sb && s.bufs[i].key != sb
    ensures Holds(Fetch(Fetch(s, b), sb).bufs[i], s.bufs[i].key) <==>
              i != 0 || (Find(s.bufs, b) < |s.bufs| && Find(s.bufs, sb) < |s.bufs|)
  {
    SteadyReads(s, b);
    SteadyReads(Fetch(s, b), sb);
    RetainedAcrossBalloc(s, i, b, sb);
  }

  /** The cache that buf_init() leaves. */
  predicate Empty(s: State) {
    forall i :: 0 <= i < |s.bufs| ==> !s.bufs[i].valid && !s.bufs[i].dirty
  }

  // ----- the cache itself

  class Cache {
    const bufs: array<Buf>
    var disk: map<Key, Data>

    ghost function S(): State
      reads this, bufs
    {
      State(bufs[..], disk)
    }

    /** buf_init() */
    constructor (disk: map<Key, Data>, nbufs: nat)
      requires nbufs > 0
      ensures Inv(S()) && fresh(bufs) && bufs.Length == nbufs && S().disk == disk
      ensures Empty(S()) && forall k :: Contents(S(), k) == DiskAt(disk, k)
    {
      bufs := new Buf[nbufs](i => Buf(Key(0xFF, 0xFFFF), false, false, []));
      this.disk := disk;
    }

    /** The first loop of bread(): the slot of the block, or the number of slots. */
    method Lookup(k: Key) returns (r: nat)
      requires Inv(S())
      ensures r == Find(bufs[..], k)
    {
      r := 0;
      while r < bufs.Length && !(bufs[r].valid && bufs[r].key == k)
        invariant r <= bufs.Length && forall j :: 0 <= j < r ==> !Holds(bufs[j], k)
      {
        r := r + 1;
      }
      if r < bufs.Length {
        FindIs(S(), r, k);
      }
    }

    /** The first empty slot, else the first clean one, or the number of slots. */
    method Unneeded() returns (r: nat)
      requires Inv(S())
      ensures r == if FirstInvalid(bufs[..]) < bufs.Length then FirstInvalid(bufs[..]) else FirstClean(bufs[..])
    {
      r := 0;
      while r < bufs.Length && bufs[r].valid
        invariant r <= bufs.Length && forall j :: 0 <= j < r ==> bufs[j].valid
      {
        r := r + 1;
      }
      if r < bufs.Length {
        return;
      }
      r := 0;
      while r < bufs.Length && bufs[r].dirty
        invariant r <= bufs.Length && forall j :: 0 <= j < r ==> bufs[j].dirty
      {
        r := r + 1;
      }
    }

    method Bread(k: Key) returns (r: nat)
      requires Inv(S())
      modifies this, bufs
      ensures S() == Fetch(old(S()), k) && r == Find(bufs[..], k) && r < bufs.Length
      ensures Inv(S()) && bufs[r].data == Contents(old(S()), k)
      ensures forall m :: Contents(S(), m) == Contents(old(S()), m)
    {
      FetchKeeps(S(), k);
      r := Lookup(k);
      if r < bufs.Length {
        return;
      }
      r := Unneeded();
      if r == bufs.Length {
        r := 0;
        Bwrite(0);
      }
      bufs[r] := Buf(k, false, true, DiskAt(disk, k));
      FindIs(S(), r, k);
    }

    method Bwrite(i: nat)
      requires i < bufs.Length
      modifies this, bufs
      ensures S() == Flush(old(S()), i)
    {
      if bufs[i].dirty {
        disk := disk[bufs[i].key := bufs[i].data];
        bufs[i] := bufs[i].(dirty := false);
      }
    }

    method Brelse(i: nat)
      requires i < bufs.Length && Inv(S())
      modifies this, bufs
      ensures S() == Flush(old(S()), i) && Inv(S())
      ensures forall k :: Contents(S(), k) == Contents(old(S()), k)
    {
      FlushKeeps(S(), i);
      if bufs[i].dirty {
        Bwrite(i);
      }
    }
  }
}
