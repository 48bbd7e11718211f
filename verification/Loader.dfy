/** The loops that relocate program images: apply_relocations(), apply_relocations_xip() and the last part of
  load_binary_xip() in kernel/exec.c, and process_binary() in tools/romfix.c. */
module Loader {
  import opened Relocation
  import opened Words

  method ReadWord(mem: array<byte>, a: int) returns (v: u32)
    requires 0 <= a && a + 4 <= mem.Length
    ensures v == Val(Get(mem[..], a))
  {
    v := Val(Quad(mem[a], mem[a + 1], mem[a + 2], mem[a + 3]));
  }

  method WriteWord(mem: array<byte>, a: int, v: u32)
    requires 0 <= a && a + 4 <= mem.Length
    modifies mem
    ensures mem[..] == Put(old(mem[..]), a, Bytes(v))
  {
    SplitVal(v);
    ValInjective(Split(v), Bytes(v));
    WriteBytes(mem, a, Split(v));
  }

  method WriteBytes(mem: array<byte>, a: int, w: Quad)
    requires 0 <= a && a + 4 <= mem.Length
    modifies mem
    ensures mem[..] == Put(old(mem[..]), a, w)
  {
    mem[a], mem[a + 1], mem[a + 2], mem[a + 3] := w.a, w.b, w.c, w.d;
  }

  /** The choice of the base by the value, shared by all loops with a split; `ptr` is the address of the word. */
  method PatchWord(mem: array<byte>, ptr: int, textSize: u32, textBase: u32, dataBase: u32, ghost p: Plan,
                   ghost off: u32)
    requires 0 <= ptr == Where(p, off) && ptr + 4 <= mem.Length
    requires p.textSize == textSize && p.textBase == textBase && p.dataBase == dataBase
    modifies mem
    ensures mem[..] == Patch(old(mem[..]), p, off)
  {
    var val := ReadWord(mem, ptr);
    if val < textSize {
      val := Sum(val, textBase);
    } else {
      val := Sum(val - textSize, dataBase);
    }
    WriteWord(mem, ptr, val);
  }

  /** apply_relocations() */
  method ApplyRelocations(mem: array<byte>, base: int, loadAddr: u32, textSize: u32, loadSize: u32, relocs: seq<u32>)
    requires Fits(SplitPlan(base, loadAddr, textSize, loadSize), relocs, mem.Length)
    modifies mem
    ensures mem[..] == Apply(old(mem[..]), SplitPlan(base, loadAddr, textSize, loadSize), relocs, |relocs|)
  {
    if textSize == 0 {
      ApplyWhole(mem, base, loadAddr, loadSize, relocs);
      ContiguousSame(old(mem[..]), base, loadAddr, 0, loadSize, relocs, |relocs|);
    } else {
      ApplyRelocationsXip(mem, base, loadAddr, base + textSize, Sum(loadAddr, textSize), textSize, loadSize, relocs);
    }
  }

  /** Its branch without a split. */
  method ApplyWhole(mem: array<byte>, base: int, loadAddr: u32, loadSize: u32, relocs: seq<u32>)
    requires Fits(WholePlan(base, loadAddr, loadSize), relocs, mem.Length)
    modifies mem
    ensures mem[..] == Apply(old(mem[..]), WholePlan(base, loadAddr, loadSize), relocs, |relocs|)
  {
    ghost var m := mem[..];
    ghost var p := WholePlan(base, loadAddr, loadSize);
    for i := 0 to |relocs|
      invariant mem[..] == Apply(m, p, relocs, i)
    {
      var off := relocs[i];
      if off % 2 != 0 || Sum(off, 4) > loadSize {
        continue;
      }
      assert Selected(p, off) && Where(p, off) == base + off;
      AddWord(mem, base + off, loadAddr, p, off);
    }
  }

  method AddWord(mem: array<byte>, ptr: int, loadAddr: u32, ghost p: Plan, ghost off: u32)
    requires 0 <= ptr == Where(p, off) && ptr + 4 <= mem.Length && p.textSize == 0 && p.dataBase == loadAddr
    modifies mem
    ensures mem[..] == Patch(old(mem[..]), p, off)
  {
    var v := ReadWord(mem, ptr);
    WriteWord(mem, ptr, Sum(v, loadAddr));
  }

  /** apply_relocations_xip() */
  method ApplyRelocationsXip(mem: array<byte>, text: int, textBase: u32, data: int, dataBase: u32,
                             textSize: u32, loadSize: u32, relocs: seq<u32>)
    requires Fits(Plan(text, data, textBase, dataBase, textSize, loadSize, true, true), relocs, mem.Length)
    modifies mem
    ensures mem[..] == Apply(old(mem[..]), Plan(text, data, textBase, dataBase, textSize, loadSize, true, true),
                             relocs, |relocs|)
  {
    ghost var m := mem[..];
    ghost var p := Plan(text, data, textBase, dataBase, textSize, loadSize, true, true);
    for i := 0 to |relocs|
      invariant mem[..] == Apply(m, p, relocs, i)
    {
      var off := relocs[i];
      if off % 2 != 0 || Sum(off, 4) > loadSize {
        continue;
      }
      assert Selected(p, off);
      PatchWord(mem, if off < textSize then text + off else data + (off - textSize), textSize, textBase, dataBase, p,
                off);
    }
  }

  /** load_binary_xip() after validation: the data is copied to RAM and, for a program with a GOT, relocated. */
  method LoadXip(mem: array<byte>, g: Image, got: bool, relocs: seq<u32>)
    requires InMemory(g, mem.Length) && (got ==> Fits(LoadPlan(g), relocs, mem.Length))
    modifies mem
    ensures var m := CopyData(old(mem[..]), g); mem[..] == if got then Apply(m, LoadPlan(g), relocs, |relocs|) else m
  {
    CopyBytes(mem, g);
    if got {
      LoadLoop(mem, g, relocs);
    }
  }

  method LoadLoop(mem: array<byte>, g: Image, relocs: seq<u32>)
    requires Fits(LoadPlan(g), relocs, mem.Length)
    modifies mem
    ensures mem[..] == Apply(old(mem[..]), LoadPlan(g), relocs, |relocs|)
  {
    ghost var m := mem[..];
    ghost var p := LoadPlan(g);
    for i := 0 to |relocs|
      invariant mem[..] == Apply(m, p, relocs, i)
    {
      LoadOne(mem, g, relocs[i], p);
    }
  }

  /** One turn of the loop. */
  method LoadOne(mem: array<byte>, g: Image, off: u32, ghost p: Plan)
    requires p == LoadPlan(g) && (Selected(p, off) ==> 0 <= Where(p, off) && Where(p, off) + 4 <= mem.Length)
    modifies mem
    ensures mem[..] == if Selected(p, off) then Patch(old(mem[..]), p, off) else old(mem[..])
  {
    if off < g.textSize {
      return;
    }
    if off % 2 != 0 || Sum(off, 4) > g.loadSize {
      return;
    }
    assert Selected(p, off) && Where(p, off) == g.ram + (off - g.textSize);
    PatchWord(mem, g.ram + (off - g.textSize), g.textSize, Base(g.rom), Base(g.ram), p, off);
  }

  method CopyBytes(mem: array<byte>, g: Image)
    requires InMemory(g, mem.Length)
    modifies mem
    ensures mem[..] == CopyData(old(mem[..]), g)
  {
    CopyRange(mem, g.rom + g.textSize, g.ram, DataSize(g));
  }

  method CopyRange(mem: array<byte>, from: int, to: int, n: nat)
    requires 0 <= from && from + n <= mem.Length && 0 <= to && to + n <= mem.Length
      && (from + n <= to || to + n <= from)
    modifies mem
    ensures mem[..] == Copy(old(mem[..]), from, to, n)
  {
    ghost var m := mem[..];
    NothingCopied(m, from, to);
    for k := 0 to n
      invariant mem[..] == Copy(m, from, to, k)
    {
      OneMoreCopied(m, from, to, k);
      mem[to + k] := mem[from + k];
    }
  }

  lemma NothingCopied(m: seq<byte>, from: int, to: int)
    requires 0 <= from <= |m| && 0 <= to <= |m|
    ensures Copy(m, from, to, 0) == m
  {
  }

  lemma OneMoreCopied(m: seq<byte>, from: int, to: int, k: nat)
    requires 0 <= from && from + k < |m| && 0 <= to && to + k < |m| && (from + k < to || to + k <= from + k)
    ensures Copy(m, from, to, k)[from + k] == m[from + k]
    ensures Copy(m, from, to, k + 1) == Copy(m, from, to, k)[to + k := m[from + k]]
  {
  }

  // ----- romfix

  /** Word number i of a table of offsets. */
  function Table(mem: seq<byte>, at: int, n: nat): (r: seq<u32>)
    requires 0 <= at && at + 4 * n <= |mem|
    ensures |r| == n && forall i :: 0 <= i < n ==> r[i] == Val(Get(mem, at + 4 * i))
  {
    seq(n, i requires 0 <= i < n => Val(Get(mem, at + 4 * i)))
  }

  /** The loop of process_binary() over the table behind the image in the ROM, which it does not overwrite. */
  method BuildLoop(rom: array<byte>, g: Image, userBase: u32, got: bool, n: nat)
    requires g.textSize <= g.loadSize && 0 <= g.rom && g.rom + g.loadSize + 4 * n <= rom.Length
    requires NoWrap(Table(rom[..], g.rom + g.loadSize, n))
    modifies rom
    ensures var relocs := Table(old(rom[..]), g.rom + g.loadSize, n);
            Fits(BuildPlan(g, userBase, got), relocs, rom.Length)
            && rom[..] == Apply(old(rom[..]), BuildPlan(g, userBase, got), relocs, n)
  {
    ghost var m := rom[..];
    ghost var relocs := Table(m, g.rom + g.loadSize, n);
    ghost var p := BuildPlan(g, userBase, got);
    InRange(g, p, relocs, rom.Length);
    for i := 0 to n
      invariant rom[..] == Apply(m, p, relocs, i)
      invariant TableIs(rom[..], g.rom + g.loadSize, relocs)
    {
      BuildKeepsTable(rom[..], g, p, relocs, i);
      BuildOne(rom, g, userBase, got, i, relocs[i], p);
    }
  }

  /** One turn of the loop. */
  method BuildOne(rom: array<byte>, g: Image, userBase: u32, got: bool, i: nat, ghost off0: u32, ghost p: Plan)
    requires p == BuildPlan(g, userBase, got) && 0 <= g.rom && g.rom + g.loadSize + 4 * i + 4 <= rom.Length
    requires off0 == Val(Get(rom[..], g.rom + g.loadSize + 4 * i)) && off0 + 4 < T32
    modifies rom
    ensures Selected(p, off0) ==> 0 <= Where(p, off0) && Where(p, off0) + 4 <= g.rom + g.loadSize
    ensures rom[..] == if Selected(p, off0) then Patch(old(rom[..]), p, off0) else old(rom[..])
  {
    AcceptedIn(p, off0);
    var off := ReadWord(rom, g.rom + g.loadSize + 4 * i);
    if off % 2 != 0 || Sum(off, 4) > g.loadSize {
      return;
    }
    if got && off >= g.textSize {
      return;
    }
    assert Selected(p, off) && Where(p, off) == g.rom + off;
    PatchWord(rom, g.rom + off, g.textSize, Base(g.rom), userBase, p, off);
  }

  lemma AcceptedIn(p: Plan, off: u32)
    requires off + 4 < T32
    ensures Sum(off, 4) == off + 4
  {
  }

  /** A patch of the image leaves the table behind it. */
  lemma TableKept(m: seq<byte>, p: Plan, off: u32, from: int, a: int)
    requires 0 <= Where(p, off) && Where(p, off) + 4 <= from <= a && a + 4 <= |m|
    ensures Get(Patch(m, p, off), a) == Get(m, a)
  {
  }

  predicate TableIs(rom: seq<byte>, at: int, relocs: seq<u32>) {
    0 <= at && at + 4 * |relocs| <= |rom| && forall i :: 0 <= i < |relocs| ==> Val(Get(rom, at + 4 * i)) == relocs[i]
  }

  lemma BuildKeepsTable(rom: seq<byte>, g: Image, p: Plan, relocs: seq<u32>, i: nat)
    requires i < |relocs| && NoWrap(relocs) && TableIs(rom, g.rom + g.loadSize, relocs) && 0 <= g.rom
    requires p.text == g.rom && p.data == g.rom + g.textSize && p.textSize == g.textSize <= g.loadSize == p.loadSize
    ensures Selected(p, relocs[i]) ==> 0 <= Where(p, relocs[i]) && Where(p, relocs[i]) + 4 <= g.rom + g.loadSize
    ensures Selected(p, relocs[i]) ==> TableIs(Patch(rom, p, relocs[i]), g.rom + g.loadSize, relocs)
  {
    if Selected(p, relocs[i]) {
      AcceptedIn(p, relocs[i]);
      forall j | 0 <= j < |relocs|
        ensures Val(Get(Patch(rom, p, relocs[i]), g.rom + g.loadSize + 4 * j)) == relocs[j]
      {
        TableKept(rom, p, relocs[i], g.rom + g.loadSize, g.rom + g.loadSize + 4 * j);
      }
    }
  }

  lemma InRange(g: Image, p: Plan, relocs: seq<u32>, size: int)
    requires p.text == g.rom && p.data == g.rom + g.textSize && p.textSize == g.textSize <= g.loadSize == p.loadSize
    requires 0 <= g.rom && g.rom + g.loadSize <= size && NoWrap(relocs)
    ensures Fits(p, relocs, size)
  {
  }

  const MAGIC: int := 0x4745_4E58
  const HDR_SIZE: int := 32

  /** Header words of the file at `at` in the ROM. */
  function Field(rom: seq<byte>, at: int, k: int): u32
    requires 0 <= at && at + HDR_SIZE <= |rom| && 0 <= k < 8
  {
    Val(Get(rom, at + 4 * k))
  }

  function ImageAt(rom: seq<byte>, at: int): Image
    requires 0 <= at && at + HDR_SIZE <= |rom|
  {
    Image(at + HDR_SIZE, 0, Field(rom, at, 6), Field(rom, at, 1))
  }

  /** The upper half of the stack word holds the offset of the GOT plus one. */
  function HasGot(rom: seq<byte>, at: int): bool
    requires 0 <= at && at + HDR_SIZE <= |rom|
  {
    Field(rom, at, 4) / 0x1_0000 != 0
  }

  /** A program that romfix has not seen yet, with a split into text and data. */
  predicate Fixable(rom: seq<byte>, at: int)
    requires 0 <= at && at + HDR_SIZE <= |rom|
  {
    Field(rom, at, 0) == MAGIC && Field(rom, at, 5) % 2 == 0 && 0 < Field(rom, at, 6) <= Field(rom, at, 1)
  }

  /** flags | GENIX_FLAG_XIP */
  function Marked(flags: u32): u32 {
    if flags % 2 == 0 then flags + 1 else flags
  }

  /** In bytes of the file: the image begins behind 32 bytes of header, of which bytes 4 to 7 are the size of the image
      and bytes 24 to 27 that of the text. A GOT is marked in bytes 16 and 17. The magic number is "GENX", and byte 23
      holds the flag of a program that has been processed. */
  lemma HeaderIs(rom: seq<byte>, at: int)
    requires 0 <= at && at + HDR_SIZE <= |rom|
    ensures ImageAt(rom, at) == Image(at + 32, 0, Val(Get(rom, at + 24)), Val(Get(rom, at + 4)))
    ensures HasGot(rom, at) <==> rom[at + 16] != 0 || rom[at + 17] != 0
    ensures Fixable(rom, at) <==>
            && rom[at..at + 4] == [0x47, 0x45, 0x4E, 0x58] && rom[at + 23] % 2 == 0
            && 0 < Val(Get(rom, at + 24)) <= Val(Get(rom, at + 4))
  {
    var w, x, y := Get(rom, at), Get(rom, at + 16), Get(rom, at + 20);
    if Val(w) == MAGIC {
      ValInjective(w, Quad(0x47, 0x45, 0x4E, 0x58));
    }
    assert Val(y) % 2 == y.d % 2;
  }

  /** A program that has been processed is not processed again. */
  lemma NotTwice(rom: seq<byte>, at: int)
    requires 0 <= at && at + HDR_SIZE <= |rom|
    ensures !Fixable(Put(rom, at + 20, Bytes(Marked(Field(rom, at, 5)))), at)
  {
    var v := Marked(Field(rom, at, 5));
    MarkedOdd(Field(rom, at, 5));
    hide Marked, Put, Bytes;
    var out := Put(rom, at + 20, Bytes(v));
    assert Field(out, at, 5) == v;
  }

  lemma MarkedOdd(flags: u32)
    ensures Marked(flags) % 2 == 1
  {
  }

  /** process_binary() on a contiguous file at `at`: whether it was processed, and only then the image is relocated
      and the XIP flag set. */
  method ProcessBinary(rom: array<byte>, at: int, userBase: u32) returns (done: bool)
    requires 0 <= at && at + HDR_SIZE <= rom.Length
    requires var r := rom[..]; Fixable(r, at) ==>
             && at + HDR_SIZE + Field(r, at, 1) + 4 * Field(r, at, 7) <= rom.Length
             && NoWrap(Table(r, at + HDR_SIZE + Field(r, at, 1), Field(r, at, 7)))
    modifies rom
    ensures done == Fixable(old(rom[..]), at) && (!done ==> rom[..] == old(rom[..]))
    ensures var r := old(rom[..]);
            done ==>
              var g := ImageAt(r, at);
              var relocs := Table(r, at + HDR_SIZE + Field(r, at, 1), Field(r, at, 7));
              var p := BuildPlan(g, userBase, HasGot(r, at));
              && Fits(p, relocs, rom.Length)
              && rom[..] == Put(Apply(r, p, relocs, |relocs|), at + 20, Bytes(Marked(Field(r, at, 5))))
  {
    hide Apply, Put, Bytes, BuildPlan, NoWrap, Fits;
    ghost var r := rom[..];
    var magic := ReadWord(rom, at);
    if magic != MAGIC {
      return false;
    }
    var loadSize := ReadWord(rom, at + 4);
    var stackField := ReadWord(rom, at + 16);
    var flags := ReadWord(rom, at + 20);
    var textSize := ReadWord(rom, at + 24);
    var relocCount := ReadWord(rom, at + 28);
    var gotOffset := stackField / 0x1_0000;
    if flags % 2 != 0 {
      return false;
    }
    if textSize == 0 || textSize > loadSize {
      return false;
    }
    Process(rom, at, Image(at + HDR_SIZE, 0, textSize, loadSize), userBase, gotOffset > 0, relocCount, flags);
    done := true;
  }

  /** What romfix does to a program that it has found fit. */
  method Process(rom: array<byte>, at: int, g: Image, userBase: u32, got: bool, n: nat, flags: u32)
    requires 0 <= at && at + HDR_SIZE <= rom.Length && g.textSize <= g.loadSize && g.rom == at + HDR_SIZE
    requires g.rom + g.loadSize + 4 * n <= rom.Length && NoWrap(Table(rom[..], g.rom + g.loadSize, n))
    modifies rom
    ensures var r := old(rom[..]);
            var relocs, p := Table(r, g.rom + g.loadSize, n), BuildPlan(g, userBase, got);
            Fits(p, relocs, rom.Length) && rom[..] == Put(Apply(r, p, relocs, n), at + 20, Bytes(Marked(flags)))
  {
    if n > 0 {
      BuildLoop(rom, g, userBase, got, n);
    }
    WriteWord(rom, at + 20, Marked(flags));
  }

  // ----- where a file is in the ROM

  const BLOCK: int := 1024
  const NDIRECT: int := 12

  /** Block number k of a file, from its inode and its indirect block. */
  function BlockOf(direct: seq<nat>, indirect: seq<nat>, k: nat): nat
    requires |direct| == NDIRECT && k < NDIRECT + |indirect|
  {
    if k < NDIRECT then direct[k] else indirect[k - NDIRECT]
  }

  function BlockCount(size: nat): nat {
    (size + BLOCK - 1) / BLOCK
  }

  /** As many blocks as the bytes need. */
  lemma BlocksCover(size: nat)
    ensures BlockCount(size) * BLOCK >= size && (size > 0 ==> (BlockCount(size) - 1) * BLOCK < size)
    ensures BlockCount(0) == 0
  {
  }

  /** Byte x of the file is at this offset from the start of the file system. */
  function ByteAt(direct: seq<nat>, indirect: seq<nat>, x: nat): nat
    requires |direct| == NDIRECT && x / BLOCK < NDIRECT + |indirect|
  {
    BlockOf(direct, indirect, x / BLOCK) * BLOCK + x % BLOCK
  }

  predicate Contiguous(direct: seq<nat>, indirect: seq<nat>, n: nat)
    requires |direct| == NDIRECT && n <= NDIRECT + |indirect|
  {
    forall k :: 0 <= k < n ==> BlockOf(direct, indirect, k) == direct[0] + k
  }

  /** In a contiguous file, byte x is x bytes behind the first one. */
  lemma ContiguousBytes(direct: seq<nat>, indirect: seq<nat>, size: nat, x: nat)
    requires |direct| == NDIRECT && BlockCount(size) <= NDIRECT + |indirect|
      && Contiguous(direct, indirect, BlockCount(size))
    requires x < size
    ensures x / BLOCK < NDIRECT + |indirect| && ByteAt(direct, indirect, x) == direct[0] * BLOCK + x
  {
    assert x / BLOCK < BlockCount(size);
    assert BlockOf(direct, indirect, x / BLOCK) == direct[0] + x / BLOCK;
  }

  /** file_rom_addr(): the address of the first byte, exactly when the file is not empty and all its blocks are
      contiguous. `hasIndirect` says that the inode has an indirect block inside the ROM, which is `indirect`. */
  method FileRomAddr(size: nat, direct: seq<nat>, hasIndirect: bool, indirect: seq<nat>, romdiskOff: nat)
    returns (r: nat)
    requires |direct| == NDIRECT && BlockCount(size) <= NDIRECT + |indirect|
    ensures r != 0 ==> r == romdiskOff + direct[0] * BLOCK
    ensures r != 0 <==> size != 0 && direct[0] != 0 && (BlockCount(size) > NDIRECT ==> hasIndirect)
                        && Contiguous(direct, indirect, BlockCount(size))
  {
    if size == 0 || direct[0] == 0 {
      return 0;
    }
    var nblocks := BlockCount(size);
    var first := direct[0];
    var check := if nblocks < 12 then nblocks else 12;
    var i := 1;
    while i < check
      invariant 1 <= i && (i <= check || check == 0)
      invariant forall k :: 0 <= k < i ==> BlockOf(direct, indirect, k) == first + k
    {
      if direct[i] != first + i {
        assert BlockOf(direct, indirect, i) != first + i;
        return 0;
      }
      i := i + 1;
    }
    if nblocks > 12 {
      if !hasIndirect {
        return 0;
      }
      i := 12;
      while i < nblocks
        invariant 12 <= i <= nblocks
        invariant forall k :: 0 <= k < i ==> BlockOf(direct, indirect, k) == first + k
      {
        if indirect[i - 12] != first + i {
          assert BlockOf(direct, indirect, i) != first + i;
          return 0;
        }
        i := i + 1;
      }
    }
    r := romdiskOff + first * BLOCK;
  }
}
