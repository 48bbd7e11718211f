/** Relocation of program images in kernel/exec.c and tools/romfix.c: what each loop patches, as a plan, and what
  becomes of every word and every other byte of the image.

  A plan says where text and data are, to which addresses words are resolved, and which segments are patched. The
  loops of the kernel and of romfix differ in their plans only. With offsets that do not overlap, the order of the
  patches does not matter, and the results of two loops can be compared word by word. */
module Relocation {
  import opened Words

  // ----- the transformation

  /** Where the two segments are in memory (`text`, `data`), the addresses added to references to them, the size of
      the text and of the whole image, and which segments are patched. */
  datatype Plan = Plan(text: int, data: int, textBase: u32, dataBase: u32, textSize: u32, loadSize: u32,
                       inText: bool, inData: bool)

  /** A zero-based reference to text or data becomes an address. */
  function Resolved(p: Plan, v: u32): u32 {
    if v < p.textSize then Sum(v, p.textBase) else Sum(v - p.textSize, p.dataBase)
  }

  ghost function Resolve(p: Plan, w: Quad): Quad {
    Bytes(Resolved(p, Val(w)))
  }

  /** The test that the loops make on an offset, in 32 bits. */
  predicate Accepted(p: Plan, off: u32) {
    off % 2 == 0 && Sum(off, 4) <= p.loadSize
  }

  /** It keeps words inside the image exactly when the sum does not wrap around. */
  lemma AcceptedInside(p: Plan, off: u32)
    requires Accepted(p, off)
    ensures off + 4 <= p.loadSize <==> off + 4 < T32
  {
  }

  predicate Selected(p: Plan, off: u32) {
    Accepted(p, off) && if off < p.textSize then p.inText else p.inData
  }

  /** The address of the word at an offset. */
  function Where(p: Plan, off: u32): int {
    if off < p.textSize then p.text + off else p.data + (off - p.textSize)
  }

  ghost function Patch(mem: seq<byte>, p: Plan, off: u32): (r: seq<byte>)
    requires 0 <= Where(p, off) && Where(p, off) + 4 <= |mem|
    ensures |r| == |mem|
  {
    Put(mem, Where(p, off), Resolve(p, Get(mem, Where(p, off))))
  }

  /** The words that the plan patches are in memory. */
  predicate Fits(p: Plan, relocs: seq<u32>, size: int) {
    forall i :: 0 <= i < |relocs| && Selected(p, relocs[i]) ==>
      0 <= Where(p, relocs[i]) && Where(p, relocs[i]) + 4 <= size
  }

  /** The first `n` relocations, one after the other. */
  ghost function Apply(mem: seq<byte>, p: Plan, relocs: seq<u32>, n: nat): (r: seq<byte>)
    requires n <= |relocs| && Fits(p, relocs, |mem|)
    ensures |r| == |mem|
  {
    if n == 0 then mem
    else
      var m := Apply(mem, p, relocs, n - 1);
      if Selected(p, relocs[n - 1]) then Patch(m, p, relocs[n - 1]) else m
  }

  /** apply_relocations() without a split: everything is data, at the start of the image. */
  function WholePlan(base: int, load: u32, loadSize: u32): Plan {
    Plan(base, base, load, load, 0, loadSize, true, true)
  }

  /** apply_relocations() on a contiguous image with a split. */
  function SplitPlan(base: int, load: u32, textSize: u32, loadSize: u32): Plan {
    Plan(base, base + textSize, load, Sum(load, textSize), textSize, loadSize, true, true)
  }

  /** The contiguous layout with a split: both segments move by the same distance, so the split does not matter. */
  lemma ContiguousResolved(base: int, load: u32, textSize: u32, loadSize: u32, v: u32)
    ensures Resolved(WholePlan(base, load, loadSize), v) == Resolved(SplitPlan(base, load, textSize, loadSize), v)
      == Sum(v, load)
  {
  }

  /** On a contiguous image, the branch of apply_relocations() without a split and the one with it give the same as
      apply_relocations_xip(), whatever the offsets, overlapping or not. */
  lemma {:induction false} ContiguousSame(mem: seq<byte>, base: int, load: u32, textSize: u32, loadSize: u32,
                                          relocs: seq<u32>, n: nat)
    requires n <= |relocs|
    requires Fits(WholePlan(base, load, loadSize), relocs, |mem|)
    requires Fits(SplitPlan(base, load, textSize, loadSize), relocs, |mem|)
    ensures Apply(mem, WholePlan(base, load, loadSize), relocs, n)
      == Apply(mem, SplitPlan(base, load, textSize, loadSize), relocs, n)
    decreases n
  {
    if n > 0 {
      var p := WholePlan(base, load, loadSize);
      ContiguousSame(mem, base, load, textSize, loadSize, relocs, n - 1);
      if Selected(p, relocs[n - 1]) {
        var w := Get(Apply(mem, p, relocs, n - 1), Where(p, relocs[n - 1]));
        ContiguousResolved(base, load, textSize, loadSize, Val(w));
      }
    }
  }

  // ----- each word once

  predicate IsWord(loadSize: u32, off: u32) {
    off % 2 == 0 && off + 4 <= loadSize
  }

  /** No offset is so large that adding 4 wraps around. */
  predicate NoWrap(relocs: seq<u32>) {
    forall i :: 0 <= i < |relocs| ==> relocs[i] + 4 < T32
  }

  /** Offsets do not wrap around, and words do not overlap. */
  predicate Apart(loadSize: u32, relocs: seq<u32>) {
    && NoWrap(relocs)
    && (forall i, j :: 0 <= i < j < |relocs| && IsWord(loadSize, relocs[i]) && IsWord(loadSize, relocs[j]) ==>
          relocs[i] + 4 <= relocs[j] || relocs[j] + 4 <= relocs[i])
  }

  /** The whole image lies in memory behind the text, and the data either in its place there or clear of it. */
  predicate Placed(p: Plan, size: int) {
    && p.textSize <= p.loadSize && 0 <= p.text && p.text + p.loadSize <= size
    && 0 <= p.data && p.data + (p.loadSize - p.textSize) <= size
    && (p.data == p.text + p.textSize || p.text + p.loadSize <= p.data
        || p.data + (p.loadSize - p.textSize) <= p.text)
  }

  lemma WordsFit(p: Plan, relocs: seq<u32>, size: int)
    requires NoWrap(relocs) && Placed(p, size)
    ensures Fits(p, relocs, size)
    ensures forall i :: 0 <= i < |relocs| ==> (Accepted(p, relocs[i]) <==> IsWord(p.loadSize, relocs[i]))
  {
  }

  /** The words of two relocations do not overlap in memory either. */
  lemma WordsApart(p: Plan, relocs: seq<u32>, size: int, i: nat, j: nat)
    requires Apart(p.loadSize, relocs) && Placed(p, size) && i < |relocs| && j < |relocs| && i != j
    requires Selected(p, relocs[i]) && Selected(p, relocs[j])
    ensures Where(p, relocs[i]) + 4 <= Where(p, relocs[j]) || Where(p, relocs[j]) + 4 <= Where(p, relocs[i])
  {
    WordsFit(p, relocs, size);
  }

  /** Address x is in a word patched by one of the first n relocations. */
  ghost predicate Covered(p: Plan, relocs: seq<u32>, n: nat, x: int)
    requires n <= |relocs|
  {
    exists i :: 0 <= i < n && Selected(p, relocs[i]) && Where(p, relocs[i]) <= x < Where(p, relocs[i]) + 4
  }

  /** Bytes outside the patched words stay. */
  lemma {:induction false} Untouched(mem: seq<byte>, p: Plan, relocs: seq<u32>, n: nat, x: int)
    requires n <= |relocs| && Fits(p, relocs, |mem|) && 0 <= x < |mem| && !Covered(p, relocs, n, x)
    ensures Apply(mem, p, relocs, n)[x] == mem[x]
    decreases n
  {
    if n > 0 {
      Untouched(mem, p, relocs, n - 1, x);
    }
  }

  /** Where words do not overlap, each becomes its resolved original value. */
  lemma {:induction false} EachOnce(mem: seq<byte>, p: Plan, relocs: seq<u32>, n: nat, i: nat)
    requires i < |relocs| && n <= |relocs| && Apart(p.loadSize, relocs) && Placed(p, |mem|) && Selected(p, relocs[i])
    requires Fits(p, relocs, |mem|)
    ensures var a := Where(p, relocs[i]);
            && 0 <= a && a + 4 <= |mem|
            && Get(Apply(mem, p, relocs, n), a) == if i < n then Resolve(p, Get(mem, a)) else Get(mem, a)
    decreases n
  {
    var a := Where(p, relocs[i]);
    assert 0 <= a && a + 4 <= |mem|;
    if n > 0 {
      EachOnce(mem, p, relocs, n - 1, i);
      var m := Apply(mem, p, relocs, n - 1);
      if Selected(p, relocs[n - 1]) {
        if n - 1 != i {
          WordsApart(p, relocs, |mem|, i, n - 1);
        }
      }
    }
  }

  /** In `out` each selected word has its resolved value from `mem`, and every other byte is as in `mem`. */
  ghost predicate Written(mem: seq<byte>, p: Plan, relocs: seq<u32>, out: seq<byte>) {
    && |out| == |mem| && Fits(p, relocs, |mem|)
    && (forall i :: 0 <= i < |relocs| && Selected(p, relocs[i]) ==> Holds(mem, p, relocs[i], out))
    && (forall x :: 0 <= x < |mem| && !Covered(p, relocs, |relocs|, x) ==> out[x] == mem[x])
  }

  ghost predicate Holds(mem: seq<byte>, p: Plan, off: u32, out: seq<byte>)
    requires |mem| == |out|
  {
    var a := Where(p, off);
    0 <= a && a + 4 <= |mem| && Get(out, a) == Resolve(p, Get(mem, a))
  }

  /** The loops patch exactly the selected words, each once. */
  lemma ApplyWrites(mem: seq<byte>, p: Plan, relocs: seq<u32>)
    requires Apart(p.loadSize, relocs) && Placed(p, |mem|)
    ensures Fits(p, relocs, |mem|) && Written(mem, p, relocs, Apply(mem, p, relocs, |relocs|))
  {
    WordsFit(p, relocs, |mem|);
    var out := Apply(mem, p, relocs, |relocs|);
    forall i | 0 <= i < |relocs| && Selected(p, relocs[i])
      ensures Holds(mem, p, relocs[i], out)
    {
      EachOnce(mem, p, relocs, |relocs|, i);
    }
    forall x | 0 <= x < |mem| && !Covered(p, relocs, |relocs|, x)
      ensures out[x] == mem[x]
    {
      Untouched(mem, p, relocs, |relocs|, x);
    }
  }

  // ----- split between build time and run time

  /** `n` bytes from `from` on copied to `to`. */
  function Copy(mem: seq<byte>, from: int, to: int, n: nat): (r: seq<byte>)
    requires 0 <= from && from + n <= |mem| && 0 <= to && to + n <= |mem|
    ensures |r| == |mem|
    ensures forall x :: 0 <= x < |mem| ==> r[x] == if to <= x < to + n then mem[from + (x - to)] else mem[x]
  {
    mem[..to] + mem[from..from + n] + mem[to + n..]
  }

  /** A program in ROM at `rom` (text, then data), whose data is to be used at `ram`. */
  datatype Image = Image(rom: int, ram: int, textSize: u32, loadSize: u32)

  function DataSize(g: Image): int {
    g.loadSize - g.textSize
  }

  /** The image in ROM and the place for the data lie in memory, have addresses of 32 bits, and do not meet. */
  predicate InMemory(g: Image, size: int) {
    && g.textSize <= g.loadSize && 0 <= g.rom && g.rom + g.loadSize <= size <= T32
    && 0 <= g.ram && g.ram + DataSize(g) <= size
    && (g.rom + g.loadSize <= g.ram || g.ram + DataSize(g) <= g.rom)
  }

  /** An address as a number of 32 bits; only an empty segment can be at 2^32. */
  function Base(a: int): u32 {
    if 0 <= a < T32 then a else 0
  }

  /** What romfix patches in the ROM: text words, and also data words unless the program has a GOT. */
  function BuildPlan(g: Image, userBase: u32, got: bool): Plan {
    Plan(g.rom, g.rom + g.textSize, Base(g.rom), userBase, g.textSize, g.loadSize, true, !got)
  }

  /** What load_binary_xip() patches after it has copied the data, for a program with a GOT. */
  function LoadPlan(g: Image): Plan {
    Plan(g.rom, g.ram, Base(g.rom), Base(g.ram), g.textSize, g.loadSize, false, true)
  }

  /** What apply_relocations_xip() patches. */
  function DirectPlan(g: Image): Plan {
    Plan(g.rom, g.ram, Base(g.rom), Base(g.ram), g.textSize, g.loadSize, true, true)
  }

  function CopyData(mem: seq<byte>, g: Image): (r: seq<byte>)
    requires InMemory(g, |mem|)
    ensures |r| == |mem|
  {
    Copy(mem, g.rom + g.textSize, g.ram, DataSize(g))
  }

  lemma PlansFit(g: Image, userBase: u32, got: bool, relocs: seq<u32>, size: int)
    requires NoWrap(relocs) && InMemory(g, size)
    ensures Placed(BuildPlan(g, userBase, got), size) && Placed(LoadPlan(g), size) && Placed(DirectPlan(g), size)
    ensures Fits(BuildPlan(g, userBase, got), relocs, size) && Fits(LoadPlan(g), relocs, size)
      && Fits(DirectPlan(g), relocs, size)
  {
    WordsFit(BuildPlan(g, userBase, got), relocs, size);
    WordsFit(LoadPlan(g), relocs, size);
    WordsFit(DirectPlan(g), relocs, size);
  }

  /** romfix, */
  ghost function Built(mem: seq<byte>, g: Image, userBase: u32, got: bool, relocs: seq<u32>): (r: seq<byte>)
    requires NoWrap(relocs) && InMemory(g, |mem|)
    ensures |r| == |mem|
  {
    PlansFit(g, userBase, got, relocs, |mem|);
    Apply(mem, BuildPlan(g, userBase, got), relocs, |relocs|)
  }

  /** then load_binary_xip(). */
  ghost function TwoPass(mem: seq<byte>, g: Image, userBase: u32, got: bool, relocs: seq<u32>): (r: seq<byte>)
    requires NoWrap(relocs) && InMemory(g, |mem|)
    ensures |r| == |mem|
  {
    PlansFit(g, userBase, got, relocs, |mem|);
    var m := CopyData(Built(mem, g, userBase, got, relocs), g);
    if got then Apply(m, LoadPlan(g), relocs, |relocs|) else m
  }

  /** The data copied, and all words patched at once. */
  ghost function OnePass(mem: seq<byte>, g: Image, relocs: seq<u32>): (r: seq<byte>)
    requires NoWrap(relocs) && InMemory(g, |mem|)
    ensures |r| == |mem|
  {
    PlansFit(g, 0, true, relocs, |mem|);
    Apply(CopyData(mem, g), DirectPlan(g), relocs, |relocs|)
  }

  /** The address of byte k of the running program: the text in ROM, the data in RAM. */
  function Home(g: Image, k: int): int {
    if k < g.textSize then g.rom + k else g.ram + (k - g.textSize)
  }

  /** The same text in ROM and the same data in RAM. */
  predicate SameProgram(m: seq<byte>, n: seq<byte>, g: Image)
    requires |m| == |n| && InMemory(g, |m|)
  {
    forall k :: 0 <= k < g.loadSize ==> m[Home(g, k)] == n[Home(g, k)]
  }

  /** The original word of a relocation. */
  function Original(mem: seq<byte>, g: Image, off: u32): Quad
    requires InMemory(g, |mem|) && IsWord(g.loadSize, off)
  {
    Get(mem, g.rom + off)
  }

  lemma CopiedByte(mem: seq<byte>, g: Image, k: int)
    requires InMemory(g, |mem|) && 0 <= k < g.loadSize
    ensures CopyData(mem, g)[Home(g, k)] == mem[g.rom + k]
    ensures CopyData(mem, g)[g.rom + k] == mem[g.rom + k]
  {
  }

  /** The loops read the original word, from the text in ROM or from the copied data. */
  lemma CopiedWord(mem: seq<byte>, g: Image, off: u32)
    requires InMemory(g, |mem|) && IsWord(g.loadSize, off)
    ensures var a := Where(DirectPlan(g), off);
            0 <= a && a + 4 <= |mem| && Get(CopyData(mem, g), a) == Original(mem, g, off)
  {
  }

  /** The word lies across the end of the text. */
  predicate Straddles(g: Image, off: u32) {
    off < g.textSize < off + 4
  }

  /** The word is resolved at build time. */
  predicate AtBuild(g: Image, got: bool, off: u32) {
    off < g.textSize || !got
  }

  /** Byte k of the program is in no word of the table. */
  predicate InNoWord(g: Image, relocs: seq<u32>, k: int) {
    forall i :: 0 <= i < |relocs| && IsWord(g.loadSize, relocs[i]) ==> !(relocs[i] <= k < relocs[i] + 4)
  }

  predicate InWord(g: Image, relocs: seq<u32>, i: nat, k: int)
    requires i < |relocs|
  {
    IsWord(g.loadSize, relocs[i]) && relocs[i] <= k < relocs[i] + 4
  }

  /** A byte in a patched word is the byte of its resolved value. */
  lemma ByteWritten(mem: seq<byte>, p: Plan, relocs: seq<u32>, out: seq<byte>, i: nat, w: Quad, x: int)
    requires Written(mem, p, relocs, out) && i < |relocs| && Selected(p, relocs[i])
    requires var a := Where(p, relocs[i]);
             a <= x < a + 4 && 0 <= a && a + 4 <= |mem| && w == Get(mem, a)
    ensures 0 <= x < |out| && out[x] == ByteOf(Resolve(p, w), x - Where(p, relocs[i]))
  {
    hide Resolve, Covered;
    assert Holds(mem, p, relocs[i], out);
  }

  /** A byte of the program that is in no selected word is left alone. In a layout whose data is elsewhere, a word
      across the end of the text does not reach into the data. */
  lemma NotCovered(g: Image, p: Plan, relocs: seq<u32>, k: int, x: int, size: int)
    requires NoWrap(relocs) && InMemory(g, size) && Placed(p, size)
      && p.text == g.rom && p.textSize == g.textSize && p.loadSize == g.loadSize
    requires 0 <= k < g.loadSize && x == if k < g.textSize then g.rom + k else p.data + (k - g.textSize)
    requires p.data == g.rom + g.textSize || p.data == g.ram
    requires forall i :: 0 <= i < |relocs| && InWord(g, relocs, i, k) && Selected(p, relocs[i]) ==>
      p.data == g.ram && relocs[i] < g.textSize <= k
    ensures !Covered(p, relocs, |relocs|, x)
  {
    WordsFit(p, relocs, size);
    forall i | 0 <= i < |relocs| && Selected(p, relocs[i])
      ensures !(Where(p, relocs[i]) <= x < Where(p, relocs[i]) + 4)
    {
      assert IsWord(g.loadSize, relocs[i]);
      if InWord(g, relocs, i, k) {
        assert relocs[i] < g.textSize <= k;
      }
    }
  }

  /** The only word around a byte. */
  lemma OnlyWord(g: Image, relocs: seq<u32>, i: nat, k: int)
    requires Apart(g.loadSize, relocs) && i < |relocs| && InWord(g, relocs, i, k)
    ensures forall j :: 0 <= j < |relocs| && InWord(g, relocs, j, k) ==> j == i
  {
  }

  /** What romfix leaves in a word: its value, if it is resolved at build time. */
  ghost function BuiltWord(mem: seq<byte>, g: Image, userBase: u32, got: bool, off: u32): Quad
    requires InMemory(g, |mem|) && IsWord(g.loadSize, off)
  {
    var w := Original(mem, g, off);
    if AtBuild(g, got, off) then Resolve(BuildPlan(g, userBase, got), w) else w
  }

  lemma BuiltByte(mem: seq<byte>, g: Image, userBase: u32, got: bool, relocs: seq<u32>, i: nat, k: int)
    requires Apart(g.loadSize, relocs) && InMemory(g, |mem|) && i < |relocs| && InWord(g, relocs, i, k)
    ensures Built(mem, g, userBase, got, relocs)[g.rom + k]
      == ByteOf(BuiltWord(mem, g, userBase, got, relocs[i]), k - relocs[i])
  {
    hide Apply, Resolve, Covered;
    var b := BuildPlan(g, userBase, got);
    PlansFit(g, userBase, got, relocs, |mem|);
    ApplyWrites(mem, b, relocs);
    AcceptedInside(b, relocs[i]);
    if AtBuild(g, got, relocs[i]) {
      ByteWritten(mem, b, relocs, Built(mem, g, userBase, got, relocs), i, Original(mem, g, relocs[i]), g.rom + k);
    } else {
      OnlyWord(g, relocs, i, k);
      NotCovered(g, b, relocs, k, g.rom + k, |mem|);
    }
  }

  lemma BuiltFree(mem: seq<byte>, g: Image, userBase: u32, got: bool, relocs: seq<u32>, k: int)
    requires Apart(g.loadSize, relocs) && InMemory(g, |mem|) && 0 <= k < g.loadSize && InNoWord(g, relocs, k)
    ensures Built(mem, g, userBase, got, relocs)[g.rom + k] == mem[g.rom + k]
  {
    var b := BuildPlan(g, userBase, got);
    PlansFit(g, userBase, got, relocs, |mem|);
    ApplyWrites(mem, b, relocs);
    NotCovered(g, b, relocs, k, g.rom + k, |mem|);
  }

  /** The whole word after romfix. */
  lemma BuiltIs(mem: seq<byte>, g: Image, userBase: u32, got: bool, relocs: seq<u32>, i: nat)
    requires Apart(g.loadSize, relocs) && InMemory(g, |mem|) && i < |relocs| && IsWord(g.loadSize, relocs[i])
    ensures Original(Built(mem, g, userBase, got, relocs), g, relocs[i])
      == BuiltWord(mem, g, userBase, got, relocs[i])
  {
    var o: int := relocs[i];
    BuiltByte(mem, g, userBase, got, relocs, i, o);
    BuiltByte(mem, g, userBase, got, relocs, i, o + 1);
    BuiltByte(mem, g, userBase, got, relocs, i, o + 2);
    BuiltByte(mem, g, userBase, got, relocs, i, o + 3);
  }

  /** What the two passes leave in a word: with a GOT the data words are resolved at run time. */
  ghost function TwoPassWord(mem: seq<byte>, g: Image, userBase: u32, got: bool, off: u32): Quad
    requires InMemory(g, |mem|) && IsWord(g.loadSize, off)
  {
    Resolve(if AtBuild(g, got, off) then BuildPlan(g, userBase, got) else LoadPlan(g), Original(mem, g, off))
  }

  lemma TwoPassByte(mem: seq<byte>, g: Image, userBase: u32, got: bool, relocs: seq<u32>, i: nat, k: int)
    requires Apart(g.loadSize, relocs) && InMemory(g, |mem|) && i < |relocs| && InWord(g, relocs, i, k)
    ensures TwoPass(mem, g, userBase, got, relocs)[Home(g, k)]
      == ByteOf(TwoPassWord(mem, g, userBase, got, relocs[i]), k - relocs[i])
  {
    hide Apply, Resolve, Covered, Copy, Built;
    var l := LoadPlan(g);
    var built := Built(mem, g, userBase, got, relocs);
    var m := CopyData(built, g);
    BuiltByte(mem, g, userBase, got, relocs, i, k);
    CopiedByte(built, g, k);
    if got {
      PlansFit(g, userBase, got, relocs, |mem|);
      ApplyWrites(m, l, relocs);
      AcceptedInside(l, relocs[i]);
      if relocs[i] < g.textSize {
        OnlyWord(g, relocs, i, k);
        NotCovered(g, l, relocs, k, Home(g, k), |mem|);
      } else {
        BuiltIs(mem, g, userBase, got, relocs, i);
        CopiedWord(built, g, relocs[i]);
        ByteWritten(m, l, relocs, TwoPass(mem, g, userBase, got, relocs), i, Original(mem, g, relocs[i]), Home(g, k));
      }
    }
  }

  lemma TwoPassFree(mem: seq<byte>, g: Image, userBase: u32, got: bool, relocs: seq<u32>, k: int)
    requires Apart(g.loadSize, relocs) && InMemory(g, |mem|) && 0 <= k < g.loadSize && InNoWord(g, relocs, k)
    ensures TwoPass(mem, g, userBase, got, relocs)[Home(g, k)] == mem[g.rom + k]
  {
    var built := Built(mem, g, userBase, got, relocs);
    BuiltFree(mem, g, userBase, got, relocs, k);
    CopiedByte(built, g, k);
    if got {
      PlansFit(g, userBase, got, relocs, |mem|);
      ApplyWrites(CopyData(built, g), LoadPlan(g), relocs);
      NotCovered(g, LoadPlan(g), relocs, k, Home(g, k), |mem|);
    }
  }

  /** What one pass leaves: of a word across the end of the text it patches the copy behind the text, which the
      program does not use, so the part in the data stays. */
  ghost function OnePassWord(mem: seq<byte>, g: Image, off: u32, k: int): Quad
    requires InMemory(g, |mem|) && IsWord(g.loadSize, off)
  {
    if off < g.textSize <= k then Original(mem, g, off) else Resolve(DirectPlan(g), Original(mem, g, off))
  }

  lemma OnePassByte(mem: seq<byte>, g: Image, relocs: seq<u32>, i: nat, k: int)
    requires Apart(g.loadSize, relocs) && InMemory(g, |mem|) && i < |relocs| && InWord(g, relocs, i, k)
    ensures OnePass(mem, g, relocs)[Home(g, k)] == ByteOf(OnePassWord(mem, g, relocs[i], k), k - relocs[i])
  {
    hide Apply, Resolve, Covered, Copy;
    var d := DirectPlan(g);
    var m := CopyData(mem, g);
    PlansFit(g, 0, true, relocs, |mem|);
    ApplyWrites(m, d, relocs);
    AcceptedInside(d, relocs[i]);
    if relocs[i] < g.textSize <= k {
      OnlyWord(g, relocs, i, k);
      NotCovered(g, d, relocs, k, Home(g, k), |mem|);
      CopiedByte(mem, g, k);
    } else {
      CopiedWord(mem, g, relocs[i]);
      ByteWritten(m, d, relocs, OnePass(mem, g, relocs), i, Original(mem, g, relocs[i]), Home(g, k));
    }
  }

  lemma OnePassFree(mem: seq<byte>, g: Image, relocs: seq<u32>, k: int)
    requires Apart(g.loadSize, relocs) && InMemory(g, |mem|) && 0 <= k < g.loadSize && InNoWord(g, relocs, k)
    ensures OnePass(mem, g, relocs)[Home(g, k)] == mem[g.rom + k]
  {
    PlansFit(g, 0, true, relocs, |mem|);
    ApplyWrites(CopyData(mem, g), DirectPlan(g), relocs);
    NotCovered(g, DirectPlan(g), relocs, k, Home(g, k), |mem|);
    CopiedByte(mem, g, k);
  }

  /** Byte j of the word at `off` comes out alike. */
  ghost predicate SameByte(mem: seq<byte>, g: Image, userBase: u32, got: bool, off: u32, j: int)
    requires InMemory(g, |mem|) && IsWord(g.loadSize, off) && 0 <= j < 4
  {
    ByteOf(TwoPassWord(mem, g, userBase, got, off), j) == ByteOf(OnePassWord(mem, g, off, off + j), j)
  }

  ghost predicate SameWord(mem: seq<byte>, g: Image, userBase: u32, got: bool, off: u32)
    requires InMemory(g, |mem|) && IsWord(g.loadSize, off)
  {
    forall j :: 0 <= j < 4 ==> SameByte(mem, g, userBase, got, off, j)
  }

  /** A byte of the program in a word, and one in no word. */
  lemma ByteCompare(mem: seq<byte>, g: Image, userBase: u32, got: bool, relocs: seq<u32>, i: nat, j: int)
    requires Apart(g.loadSize, relocs) && InMemory(g, |mem|) && i < |relocs| && IsWord(g.loadSize, relocs[i])
      && 0 <= j < 4
    ensures var x := Home(g, relocs[i] + j);
            TwoPass(mem, g, userBase, got, relocs)[x] == OnePass(mem, g, relocs)[x] <==>
            SameByte(mem, g, userBase, got, relocs[i], j)
  {
    hide TwoPass, OnePass, TwoPassWord, OnePassWord, Apart;
    TwoPassByte(mem, g, userBase, got, relocs, i, relocs[i] + j);
    OnePassByte(mem, g, relocs, i, relocs[i] + j);
  }

  lemma FreeSame(mem: seq<byte>, g: Image, userBase: u32, got: bool, relocs: seq<u32>, k: int)
    requires Apart(g.loadSize, relocs) && InMemory(g, |mem|) && 0 <= k < g.loadSize && InNoWord(g, relocs, k)
    ensures TwoPass(mem, g, userBase, got, relocs)[Home(g, k)] == OnePass(mem, g, relocs)[Home(g, k)]
  {
    TwoPassFree(mem, g, userBase, got, relocs, k);
    OnePassFree(mem, g, relocs, k);
  }

  /** The two ways give the same program exactly when they give the same words. */
  lemma WordsDecide(mem: seq<byte>, g: Image, userBase: u32, got: bool, relocs: seq<u32>)
    requires Apart(g.loadSize, relocs) && InMemory(g, |mem|)
    ensures SameProgram(TwoPass(mem, g, userBase, got, relocs), OnePass(mem, g, relocs), g) <==>
      forall i :: 0 <= i < |relocs| && IsWord(g.loadSize, relocs[i]) ==>
        SameWord(mem, g, userBase, got, relocs[i])
  {
    var two, one := TwoPass(mem, g, userBase, got, relocs), OnePass(mem, g, relocs);
    hide TwoPass, OnePass, SameByte, SameWord, Apart, InNoWord, SameProgram, Home;
    forall i, j | 0 <= i < |relocs| && IsWord(g.loadSize, relocs[i]) && 0 <= j < 4
      ensures two[Home(g, relocs[i] + j)] == one[Home(g, relocs[i] + j)] <==>
        SameByte(mem, g, userBase, got, relocs[i], j)
    {
      ByteCompare(mem, g, userBase, got, relocs, i, j);
    }
    forall k | 0 <= k < g.loadSize && InNoWord(g, relocs, k)
      ensures two[Home(g, k)] == one[Home(g, k)]
    {
      FreeSame(mem, g, userBase, got, relocs, k);
    }
    BytesDecide(mem, g, userBase, got, relocs, two, one);
  }

  lemma BytesDecide(mem: seq<byte>, g: Image, userBase: u32, got: bool, relocs: seq<u32>, two: seq<byte>,
                    one: seq<byte>)
    requires InMemory(g, |mem|) && |two| == |one| == |mem|
    requires forall i, j :: 0 <= i < |relocs| && IsWord(g.loadSize, relocs[i]) && 0 <= j < 4 ==>
      (two[Home(g, relocs[i] + j)] == one[Home(g, relocs[i] + j)] <==> SameByte(mem, g, userBase, got, relocs[i], j))
    requires forall k :: 0 <= k < g.loadSize && InNoWord(g, relocs, k) ==> two[Home(g, k)] == one[Home(g, k)]
    ensures SameProgram(two, one, g) <==>
      forall i :: 0 <= i < |relocs| && IsWord(g.loadSize, relocs[i]) ==>
        SameWord(mem, g, userBase, got, relocs[i])
  {
    hide SameByte;
    if forall i :: 0 <= i < |relocs| && IsWord(g.loadSize, relocs[i]) ==> SameWord(mem, g, userBase, got, relocs[i]) {
      forall k | 0 <= k < g.loadSize
        ensures two[Home(g, k)] == one[Home(g, k)]
      {
        if !InNoWord(g, relocs, k) {
          var i :| 0 <= i < |relocs| && IsWord(g.loadSize, relocs[i]) && relocs[i] <= k < relocs[i] + 4;
          assert SameByte(mem, g, userBase, got, relocs[i], k - relocs[i]);
        }
      }
    } else {
      var i :| 0 <= i < |relocs| && IsWord(g.loadSize, relocs[i]) && !SameWord(mem, g, userBase, got, relocs[i]);
      var j :| 0 <= j < 4 && !SameByte(mem, g, userBase, got, relocs[i], j);
      assert two[Home(g, relocs[i] + j)] != one[Home(g, relocs[i] + j)];
    }
  }

  /** The relocated word refers to the data and is resolved at build time. */
  predicate Early(mem: seq<byte>, g: Image, got: bool, off: u32)
    requires InMemory(g, |mem|)
  {
    IsWord(g.loadSize, off) && AtBuild(g, got, off) && Val(Original(mem, g, off)) >= g.textSize
  }

  /** A word is resolved the same way exactly when it refers to text or the data is at the same address. */
  lemma ResolvedSame(g: Image, userBase: u32, got: bool, w: Quad)
    requires 0 <= g.ram <= T32
    ensures Resolve(BuildPlan(g, userBase, got), w) == Resolve(DirectPlan(g), w) <==>
      Val(w) < g.textSize || userBase == Base(g.ram)
  {
  }

  lemma LoadDirect(g: Image, w: Quad)
    ensures Resolve(LoadPlan(g), w) == Resolve(DirectPlan(g), w)
  {
  }

  lemma QuadSame(v: Quad, w: Quad)
    ensures v == w <==> forall j :: 0 <= j < 4 ==> ByteOf(v, j) == ByteOf(w, j)
  {
    if forall j :: 0 <= j < 4 ==> ByteOf(v, j) == ByteOf(w, j) {
      assert ByteOf(v, 0) == ByteOf(w, 0) && ByteOf(v, 1) == ByteOf(w, 1)
        && ByteOf(v, 2) == ByteOf(w, 2) && ByteOf(v, 3) == ByteOf(w, 3);
    }
  }

  /** A word inside the text or the data comes out alike exactly when it is resolved alike. */
  lemma WholeWord(mem: seq<byte>, g: Image, userBase: u32, got: bool, off: u32)
    requires InMemory(g, |mem|) && IsWord(g.loadSize, off) && !Straddles(g, off)
    ensures SameWord(mem, g, userBase, got, off) <==> userBase == Base(g.ram) || !Early(mem, g, got, off)
  {
    var w := Original(mem, g, off);
    ResolvedSame(g, userBase, got, w);
    LoadDirect(g, w);
    var b, d := TwoPassWord(mem, g, userBase, got, off), Resolve(DirectPlan(g), w);
    QuadSame(b, d);
    forall j | 0 <= j < 4
      ensures SameByte(mem, g, userBase, got, off, j) <==> ByteOf(b, j) == ByteOf(d, j)
    {
      assert OnePassWord(mem, g, off, off + j) == d;
    }
  }

  /** A word across the end of the text comes out alike: at build time its bytes in the text get the values that they
      have at run time, and its bytes in the data, which one pass leaves alone, do not change. */
  ghost predicate Joins(mem: seq<byte>, g: Image, userBase: u32, got: bool, off: u32)
    requires InMemory(g, |mem|) && IsWord(g.loadSize, off)
  {
    var w := Original(mem, g, off);
    var b, d := Resolve(BuildPlan(g, userBase, got), w), Resolve(DirectPlan(g), w);
    forall j :: 0 <= j < 4 ==> ByteOf(b, j) == ByteOf(if off + j < g.textSize then d else w, j)
  }

  /** What a word must be like for both ways to give it the same bytes. */
  ghost predicate Composes(mem: seq<byte>, g: Image, userBase: u32, got: bool, off: u32)
    requires InMemory(g, |mem|) && IsWord(g.loadSize, off)
  {
    if Straddles(g, off) then Joins(mem, g, userBase, got, off)
    else userBase == Base(g.ram) || !Early(mem, g, got, off)
  }

  lemma JoinsIs(mem: seq<byte>, g: Image, userBase: u32, got: bool, off: u32)
    requires InMemory(g, |mem|) && IsWord(g.loadSize, off) && Straddles(g, off)
    ensures SameWord(mem, g, userBase, got, off) <==> Joins(mem, g, userBase, got, off)
  {
    var w := Original(mem, g, off);
    var b, d := Resolve(BuildPlan(g, userBase, got), w), Resolve(DirectPlan(g), w);
    forall j | 0 <= j < 4
      ensures SameByte(mem, g, userBase, got, off, j) <==>
        ByteOf(b, j) == ByteOf(if off + j < g.textSize then d else w, j)
    {
    }
  }

  /** Relocation in two passes gives the program that relocation in one pass gives exactly when this holds of every
      word of the table: one inside the text or the data refers to text or is resolved at run time, or the data is
      loaded at the address that romfix was told; one across the end of the text joins. */
  lemma TwoPassesCompose(mem: seq<byte>, g: Image, userBase: u32, got: bool, relocs: seq<u32>)
    requires Apart(g.loadSize, relocs) && InMemory(g, |mem|)
    ensures SameProgram(TwoPass(mem, g, userBase, got, relocs), OnePass(mem, g, relocs), g) <==>
      forall i :: 0 <= i < |relocs| && IsWord(g.loadSize, relocs[i]) ==> Composes(mem, g, userBase, got, relocs[i])
  {
    WordsDecide(mem, g, userBase, got, relocs);
    hide TwoPass, OnePass, SameWord, Joins, SameProgram, Apart;
    forall i | 0 <= i < |relocs| && IsWord(g.loadSize, relocs[i])
      ensures SameWord(mem, g, userBase, got, relocs[i]) <==> Composes(mem, g, userBase, got, relocs[i])
    {
      if Straddles(g, relocs[i]) {
        JoinsIs(mem, g, userBase, got, relocs[i]);
      } else {
        WholeWord(mem, g, userBase, got, relocs[i]);
      }
    }
  }

  // ----- with the data where romfix was told, also for words that overlap

  /** The address of byte k of the program in this plan. */
  function At(p: Plan, k: int): int {
    if k < p.textSize then p.text + k else p.data + (k - p.textSize)
  }

  /** The program as one run of bytes: its text, and its data from where this plan has it. */
  function Flat(mem: seq<byte>, p: Plan): (r: seq<byte>)
    requires Placed(p, |mem|)
    ensures |r| == p.loadSize
    ensures forall k :: 0 <= k < p.loadSize ==> r[k] == mem[At(p, k)]
  {
    mem[p.text..p.text + p.textSize] + mem[p.data..p.data + (p.loadSize - p.textSize)]
  }

  /** No accepted word lies across the end of the text. */
  predicate Whole(textSize: u32, loadSize: u32, relocs: seq<u32>) {
    forall i :: 0 <= i < |relocs| && IsWord(loadSize, relocs[i]) && relocs[i] < textSize ==> relocs[i] + 4 <= textSize
  }

  /** The relocations on the flat program. */
  ghost function Flatly(v: seq<byte>, p: Plan, relocs: seq<u32>, n: nat): (r: seq<byte>)
    requires n <= |relocs| && NoWrap(relocs) && |v| == p.loadSize
    ensures |r| == |v|
  {
    if n == 0 then v
    else
      var u := Flatly(v, p, relocs, n - 1);
      if Selected(p, relocs[n - 1]) then
        AcceptedInside(p, relocs[n - 1]);
        Put(u, relocs[n - 1], Resolve(p, Get(u, relocs[n - 1])))
      else u
  }

  /** One word in memory is one word of the flat program. */
  lemma FlatPatch(mem: seq<byte>, p: Plan, off: u32)
    requires Placed(p, |mem|) && IsWord(p.loadSize, off) && (off < p.textSize ==> off + 4 <= p.textSize)
    ensures 0 <= Where(p, off) && Where(p, off) + 4 <= |mem| && Get(mem, Where(p, off)) == Get(Flat(mem, p), off)
    ensures Flat(Patch(mem, p, off), p) == Put(Flat(mem, p), off, Resolve(p, Get(Flat(mem, p), off)))
  {
    var a := Where(p, off);
    hide Flat, Resolve;
    assert At(p, off) == a && At(p, off + 1) == a + 1 && At(p, off + 2) == a + 2 && At(p, off + 3) == a + 3;
    FlatPut(mem, p, off, Resolve(p, Get(mem, a)));
  }

  lemma FlatPut(mem: seq<byte>, p: Plan, off: u32, w: Quad)
    requires Placed(p, |mem|) && IsWord(p.loadSize, off) && (off < p.textSize ==> off + 4 <= p.textSize)
    ensures 0 <= Where(p, off) && Where(p, off) + 4 <= |mem|
    ensures Flat(Put(mem, Where(p, off), w), p) == Put(Flat(mem, p), off, w)
  {
    hide Flat;
    var m := Put(mem, Where(p, off), w);
    forall k | 0 <= k < p.loadSize
      ensures Flat(m, p)[k] == Put(Flat(mem, p), off, w)[k]
    {
      assert Where(p, off) <= At(p, k) < Where(p, off) + 4 <==> off <= k < off + 4;
    }
  }

  lemma {:induction false} FlatApply(mem: seq<byte>, p: Plan, relocs: seq<u32>, n: nat)
    requires n <= |relocs| && Placed(p, |mem|) && NoWrap(relocs) && Whole(p.textSize, p.loadSize, relocs)
    requires Fits(p, relocs, |mem|)
    ensures Flat(Apply(mem, p, relocs, n), p) == Flatly(Flat(mem, p), p, relocs, n)
    decreases n
  {
    if n > 0 {
      FlatApply(mem, p, relocs, n - 1);
      if Selected(p, relocs[n - 1]) {
        AcceptedInside(p, relocs[n - 1]);
        FlatPatch(Apply(mem, p, relocs, n - 1), p, relocs[n - 1]);
      }
    }
  }

  /** Plans that differ only in where text and data are do the same to the flat program. */
  lemma {:induction false} FlatlySame(v: seq<byte>, p: Plan, q: Plan, relocs: seq<u32>, n: nat)
    requires n <= |relocs| && NoWrap(relocs) && |v| == p.loadSize
    requires q == p.(text := q.text, data := q.data)
    ensures Flatly(v, p, relocs, n) == Flatly(v, q, relocs, n)
    decreases n
  {
    if n > 0 {
      FlatlySame(v, p, q, relocs, n - 1);
    }
  }

  /** Patches of the text do not touch the data, and the other way round. */
  lemma {:induction false} FlatlyKeeps(v: seq<byte>, p: Plan, relocs: seq<u32>, n: nat)
    requires n <= |relocs| && NoWrap(relocs) && |v| == p.loadSize >= p.textSize
    requires Whole(p.textSize, p.loadSize, relocs)
    ensures !p.inText ==> forall k :: 0 <= k < p.textSize ==> Flatly(v, p, relocs, n)[k] == v[k]
    ensures !p.inData ==> forall k :: p.textSize <= k < p.loadSize ==> Flatly(v, p, relocs, n)[k] == v[k]
    decreases n
  {
    if n > 0 {
      FlatlyKeeps(v, p, relocs, n - 1);
      if Selected(p, relocs[n - 1]) {
        AcceptedInside(p, relocs[n - 1]);
      }
    }
  }

  /** What becomes of the text depends on the text alone, and of the data on the data alone. */
  lemma {:induction false} FlatlyApart(v: seq<byte>, u: seq<byte>, p: Plan, q: Plan, relocs: seq<u32>, n: nat)
    requires n <= |relocs| && NoWrap(relocs) && |v| == |u| == p.loadSize >= p.textSize
    requires Whole(p.textSize, p.loadSize, relocs) && p.inText && p.inData
    requires q == p.(text := q.text, data := q.data, inText := q.inText, inData := q.inData)
    ensures q.inText && (forall k :: 0 <= k < p.textSize ==> v[k] == u[k]) ==>
      forall k :: 0 <= k < p.textSize ==> Flatly(v, p, relocs, n)[k] == Flatly(u, q, relocs, n)[k]
    ensures q.inData && (forall k :: p.textSize <= k < p.loadSize ==> v[k] == u[k]) ==>
      forall k :: p.textSize <= k < p.loadSize ==> Flatly(v, p, relocs, n)[k] == Flatly(u, q, relocs, n)[k]
    decreases n
  {
    if n > 0 {
      FlatlyApart(v, u, p, q, relocs, n - 1);
      if Selected(p, relocs[n - 1]) {
        AcceptedInside(p, relocs[n - 1]);
      }
    }
  }

  /** Copying the data is the same flat program in another place. */
  lemma FlatCopy(mem: seq<byte>, g: Image, p: Plan, q: Plan)
    requires InMemory(g, |mem|) && Placed(p, |mem|) && Placed(q, |mem|)
    requires p.text == q.text == g.rom && p.data == g.rom + g.textSize && q.data == g.ram
    requires p.textSize == q.textSize == g.textSize && p.loadSize == q.loadSize == g.loadSize
    ensures Flat(CopyData(mem, g), q) == Flat(mem, p)
  {
    hide Flat;
    forall k | 0 <= k < g.loadSize
      ensures Flat(CopyData(mem, g), q)[k] == Flat(mem, p)[k]
    {
      CopiedByte(mem, g, k);
      assert At(q, k) == Home(g, k) && At(p, k) == g.rom + k;
    }
  }

  lemma FlatProgram(m: seq<byte>, n: seq<byte>, g: Image)
    requires |m| == |n| && InMemory(g, |m|) && Placed(DirectPlan(g), |m|)
    ensures SameProgram(m, n, g) <==> Flat(m, DirectPlan(g)) == Flat(n, DirectPlan(g))
  {
    hide Flat;
    var d := DirectPlan(g);
    assert forall k :: 0 <= k < g.loadSize ==> At(d, k) == Home(g, k);
    if Flat(m, d) == Flat(n, d) {
      forall k | 0 <= k < g.loadSize
        ensures m[Home(g, k)] == n[Home(g, k)]
      {
        assert Flat(m, d)[k] == m[Home(g, k)] && Flat(n, d)[k] == n[Home(g, k)];
      }
    }
  }

  lemma FlatSame(mem: seq<byte>, p: Plan, q: Plan)
    requires Placed(p, |mem|) && Placed(q, |mem|)
    requires p.text == q.text && p.data == q.data && p.textSize == q.textSize && p.loadSize == q.loadSize
    ensures Flat(mem, p) == Flat(mem, q)
  {
  }

  /** What the two passes do to the flat program with the first n relocations. */
  ghost function TwoFlat(v: seq<byte>, b: Plan, l: Plan, got: bool, relocs: seq<u32>, n: nat): (r: seq<byte>)
    requires n <= |relocs| && NoWrap(relocs) && |v| == b.loadSize == l.loadSize
    ensures |r| == |v|
  {
    if got then Flatly(Flatly(v, b, relocs, n), l, relocs, n) else Flatly(v, b, relocs, n)
  }

  /** Two plans of a split relocation: at build time `b`, at run time `l`; and the plan `d` of one pass. */
  ghost predicate SplitOf(b: Plan, l: Plan, d: Plan, got: bool) {
    && d.textSize <= d.loadSize && d.inText && d.inData && l == d.(inText := false)
    && b == d.(text := b.text, data := b.data, dataBase := b.dataBase, inData := !got)
  }

  /** Text first and data later, or both at once. */
  lemma SplitFlatly(v: seq<byte>, b: Plan, l: Plan, d: Plan, got: bool, relocs: seq<u32>, n: nat)
    requires n <= |relocs| && NoWrap(relocs) && |v| == d.loadSize && Whole(d.textSize, d.loadSize, relocs)
    requires SplitOf(b, l, d, got) && b.dataBase == d.dataBase
    ensures TwoFlat(v, b, l, got, relocs, n) == Flatly(v, d, relocs, n)
  {
    if got {
      var u := Flatly(v, b, relocs, n);
      FlatlyApart(v, v, d, b, relocs, n);
      FlatlyKeeps(v, b, relocs, n);
      FlatlyApart(v, u, d, l, relocs, n);
      FlatlyKeeps(u, l, relocs, n);
    } else {
      FlatlySame(v, b, d, relocs, n);
    }
  }

  /** Each of the first n words that the plan selects refers to text when its turn comes. */
  ghost predicate TextTurns(v: seq<byte>, p: Plan, relocs: seq<u32>, n: nat)
    requires n <= |relocs| && NoWrap(relocs) && |v| == p.loadSize
  {
    forall i :: 0 <= i < n && Selected(p, relocs[i]) ==> TextTurn(v, p, relocs, i)
  }

  ghost predicate TextTurn(v: seq<byte>, p: Plan, relocs: seq<u32>, i: nat)
    requires i < |relocs| && NoWrap(relocs) && |v| == p.loadSize && Selected(p, relocs[i])
  {
    AcceptedInside(p, relocs[i]);
    Val(Get(Flatly(v, p, relocs, i), relocs[i])) < p.textSize
  }

  /** Then it does not matter where the data is. */
  lemma {:induction false} TextOnly(v: seq<byte>, p: Plan, dataBase: u32, relocs: seq<u32>, n: nat)
    requires n <= |relocs| && NoWrap(relocs) && |v| == p.loadSize && TextTurns(v, p, relocs, n)
    ensures Flatly(v, p, relocs, n) == Flatly(v, p.(dataBase := dataBase), relocs, n)
    decreases n
  {
    if n > 0 {
      TextOnly(v, p, dataBase, relocs, n - 1);
      assert Selected(p, relocs[n - 1]) ==> TextTurn(v, p, relocs, n - 1);
    }
  }

  lemma TurnsCompose(v: seq<byte>, b: Plan, l: Plan, d: Plan, got: bool, relocs: seq<u32>, n: nat)
    requires n <= |relocs| && NoWrap(relocs) && |v| == d.loadSize && Whole(d.textSize, d.loadSize, relocs)
    requires SplitOf(b, l, d, got) && (b.dataBase == d.dataBase || TextTurns(v, b, relocs, n))
    ensures TwoFlat(v, b, l, got, relocs, n) == Flatly(v, d, relocs, n)
  {
    if b.dataBase != d.dataBase {
      TextOnly(v, b, d.dataBase, relocs, n);
    }
    SplitFlatly(v, b.(dataBase := d.dataBase), l, d, got, relocs, n);
  }

  /** A word that refers to data at its turn makes the difference. */
  lemma TurnDiffers(v: seq<byte>, b: Plan, l: Plan, d: Plan, got: bool, relocs: seq<u32>, i: nat)
    requires i < |relocs| && NoWrap(relocs) && |v| == d.loadSize && Whole(d.textSize, d.loadSize, relocs)
    requires SplitOf(b, l, d, got) && b.dataBase != d.dataBase && Selected(b, relocs[i]) && !TextTurn(v, b, relocs, i)
    requires TwoFlat(v, b, l, got, relocs, i) == Flatly(v, d, relocs, i)
    ensures TwoFlat(v, b, l, got, relocs, i + 1) != Flatly(v, d, relocs, i + 1)
  {
    var off := relocs[i];
    AcceptedInside(b, off);
    BuiltPart(v, b, l, d, got, relocs, i, off);
    BuiltPart(v, b, l, d, got, relocs, i + 1, off);
    var w := Get(Flatly(v, d, relocs, i), off);
    assert Get(Flatly(v, b, relocs, i + 1), off) == Resolve(b, w);
    assert Get(Flatly(v, d, relocs, i + 1), off) == Resolve(d, w);
    assert Val(Resolve(b, w)) != Val(Resolve(d, w));
  }

  /** A word that is due at build time is not touched at run time. */
  lemma BuiltPart(v: seq<byte>, b: Plan, l: Plan, d: Plan, got: bool, relocs: seq<u32>, n: nat, off: u32)
    requires n <= |relocs| && NoWrap(relocs) && |v| == d.loadSize && Whole(d.textSize, d.loadSize, relocs)
    requires SplitOf(b, l, d, got) && IsWord(d.loadSize, off) && (got ==> off + 4 <= d.textSize)
    ensures Get(TwoFlat(v, b, l, got, relocs, n), off) == Get(Flatly(v, b, relocs, n), off)
  {
    FlatlyKeeps(Flatly(v, b, relocs, n), l, relocs, n);
  }

  /** The two ways on the flat program. */
  lemma FlatResults(mem: seq<byte>, g: Image, userBase: u32, got: bool, relocs: seq<u32>)
    requires NoWrap(relocs) && InMemory(g, |mem|) && Whole(g.textSize, g.loadSize, relocs)
    ensures Placed(BuildPlan(g, userBase, got), |mem|)
    ensures SplitOf(BuildPlan(g, userBase, got), LoadPlan(g), DirectPlan(g), got)
    ensures var b, l, d := BuildPlan(g, userBase, got), LoadPlan(g), DirectPlan(g);
            var v := Flat(mem, b);
            SameProgram(TwoPass(mem, g, userBase, got, relocs), OnePass(mem, g, relocs), g) <==>
            TwoFlat(v, b, l, got, relocs, |relocs|) == Flatly(v, d, relocs, |relocs|)
  {
    hide Apply, Flat, Flatly, Copy, Placed, Fits, SameProgram;
    var b, l, d := BuildPlan(g, userBase, got), LoadPlan(g), DirectPlan(g);
    PlansFit(g, userBase, got, relocs, |mem|);
    var built := Built(mem, g, userBase, got, relocs);
    FlatApply(mem, b, relocs, |relocs|);
    FlatCopy(built, g, b, d);
    FlatCopy(mem, g, b, d);
    FlatApply(CopyData(mem, g), d, relocs, |relocs|);
    if got {
      FlatSame(CopyData(built, g), l, d);
      FlatApply(CopyData(built, g), l, relocs, |relocs|);
      FlatSame(TwoPass(mem, g, userBase, got, relocs), l, d);
    }
    FlatProgram(TwoPass(mem, g, userBase, got, relocs), OnePass(mem, g, relocs), g);
  }

  /** With the data where romfix was told, two passes give the program of one pass also for words that overlap, as
      long as none lies across the end of the text. */
  lemma SameBaseComposes(mem: seq<byte>, g: Image, userBase: u32, got: bool, relocs: seq<u32>)
    requires NoWrap(relocs) && InMemory(g, |mem|) && Whole(g.textSize, g.loadSize, relocs)
    requires userBase == Base(g.ram)
    ensures SameProgram(TwoPass(mem, g, userBase, got, relocs), OnePass(mem, g, relocs), g)
  {
    hide TwoPass, OnePass, SameProgram, TwoFlat, Flatly, Flat;
    FlatResults(mem, g, userBase, got, relocs);
    var b := BuildPlan(g, userBase, got);
    SplitFlatly(Flat(mem, b), b, LoadPlan(g), DirectPlan(g), got, relocs, |relocs|);
  }

  lemma {:induction false} FlatlyPrefix(v: seq<byte>, p: Plan, relocs: seq<u32>, m: nat, n: nat)
    requires n <= m <= |relocs| && NoWrap(relocs) && |v| == p.loadSize
    ensures NoWrap(relocs[..m]) && Flatly(v, p, relocs[..m], n) == Flatly(v, p, relocs, n)
    decreases n
  {
    if n > 0 {
      FlatlyPrefix(v, p, relocs, m, n - 1);
    }
  }

  /** After the first n relocations of the table the two ways give the same program. */
  ghost predicate SameAfter(mem: seq<byte>, g: Image, userBase: u32, got: bool, relocs: seq<u32>, n: nat)
    requires NoWrap(relocs) && InMemory(g, |mem|) && n <= |relocs|
  {
    SameProgram(TwoPass(mem, g, userBase, got, relocs[..n]), OnePass(mem, g, relocs[..n]), g)
  }

  lemma SameAfterIs(mem: seq<byte>, g: Image, userBase: u32, got: bool, relocs: seq<u32>, n: nat)
    requires NoWrap(relocs) && InMemory(g, |mem|) && Whole(g.textSize, g.loadSize, relocs) && n <= |relocs|
    ensures Placed(BuildPlan(g, userBase, got), |mem|)
    ensures SplitOf(BuildPlan(g, userBase, got), LoadPlan(g), DirectPlan(g), got)
    ensures var b, l, d := BuildPlan(g, userBase, got), LoadPlan(g), DirectPlan(g);
            var v := Flat(mem, b);
            SameAfter(mem, g, userBase, got, relocs, n) <==>
            TwoFlat(v, b, l, got, relocs, n) == Flatly(v, d, relocs, n)
  {
    hide TwoPass, OnePass, SameProgram, Flatly, Flat;
    FlatResults(mem, g, userBase, got, relocs[..n]);
    var b, l, d := BuildPlan(g, userBase, got), LoadPlan(g), DirectPlan(g);
    var v := Flat(mem, b);
    FlatlyPrefix(v, b, relocs, n, n);
    FlatlyPrefix(v, d, relocs, n, n);
    FlatlyPrefix(Flatly(v, b, relocs, n), l, relocs, n, n);
  }

  /** For words that overlap, with none across the end of the text: the two ways agree after each relocation of the
      table exactly when the data is where romfix was told, or each word due at build time refers to text when its turn
      comes. */
  lemma OverlapComposes(mem: seq<byte>, g: Image, userBase: u32, got: bool, relocs: seq<u32>)
    requires NoWrap(relocs) && InMemory(g, |mem|) && Whole(g.textSize, g.loadSize, relocs)
    ensures Placed(BuildPlan(g, userBase, got), |mem|)
    ensures (forall n :: 0 <= n <= |relocs| ==> SameAfter(mem, g, userBase, got, relocs, n)) <==>
            var b := BuildPlan(g, userBase, got);
            userBase == Base(g.ram) || TextTurns(Flat(mem, b), b, relocs, |relocs|)
  {
    hide SameAfter, TwoFlat, Flatly, Flat, TextTurn;
    SameAfterIs(mem, g, userBase, got, relocs, 0);
    var b, l, d := BuildPlan(g, userBase, got), LoadPlan(g), DirectPlan(g);
    var v := Flat(mem, b);
    if userBase == Base(g.ram) || TextTurns(v, b, relocs, |relocs|) {
      forall n | 0 <= n <= |relocs|
        ensures SameAfter(mem, g, userBase, got, relocs, n)
      {
        SameAfterIs(mem, g, userBase, got, relocs, n);
        TurnsCompose(v, b, l, d, got, relocs, n);
      }
    } else {
      var i :| 0 <= i < |relocs| && Selected(b, relocs[i]) && !TextTurn(v, b, relocs, i);
      SameAfterIs(mem, g, userBase, got, relocs, i);
      SameAfterIs(mem, g, userBase, got, relocs, i + 1);
      if SameAfter(mem, g, userBase, got, relocs, i) {
        TurnDiffers(v, b, l, d, got, relocs, i);
      }
    }
  }

  // ----- where pointers lead

  /** Four bytes of the program that lie next to each other in memory are a word there. */
  lemma WordAt(out: seq<byte>, g: Image, off: u32, w: Quad)
    requires InMemory(g, |out|) && IsWord(g.loadSize, off) && !Straddles(g, off)
    requires forall j :: 0 <= j < 4 ==> out[Home(g, off + j)] == ByteOf(w, j)
    ensures 0 <= Home(g, off) && Home(g, off) + 4 <= |out| && Get(out, Home(g, off)) == w
  {
    assert ByteOf(w, 0) == w.a && ByteOf(w, 1) == w.b && ByteOf(w, 2) == w.c && ByteOf(w, 3) == w.d;
    assert out[Home(g, off)] == w.a && out[Home(g, off + 1)] == w.b;
    assert out[Home(g, off + 2)] == w.c && out[Home(g, off + 3)] == w.d;
  }

  /** Home, as addresses of 32 bits. */
  lemma ResolvedHome(p: Plan, g: Image, v: u32)
    requires p.textSize == g.textSize && p.textBase == Base(g.rom) && p.dataBase == Base(g.ram)
    requires g.textSize <= g.loadSize && 0 <= g.rom <= T32 && 0 <= g.ram <= T32
    ensures Resolved(p, v) == Home(g, v) % T32
  {
  }

  /** One pass makes each word of the table that referred to byte v of the image the address at which byte v is in the
      running program, also for v behind its end. */
  lemma PointersFollow(mem: seq<byte>, g: Image, relocs: seq<u32>, i: nat)
    requires Apart(g.loadSize, relocs) && InMemory(g, |mem|) && i < |relocs|
    requires IsWord(g.loadSize, relocs[i]) && !Straddles(g, relocs[i])
    ensures var a, out := Home(g, relocs[i]), OnePass(mem, g, relocs);
            && 0 <= a && a + 4 <= |out|
            && Val(Get(out, a)) == Home(g, Val(Original(mem, g, relocs[i]))) % T32
  {
    hide OnePass, Resolve;
    var off := relocs[i];
    var w := Resolve(DirectPlan(g), Original(mem, g, off));
    forall j | 0 <= j < 4
      ensures OnePass(mem, g, relocs)[Home(g, off + j)] == ByteOf(w, j)
    {
      OnePassByte(mem, g, relocs, i, off + j);
    }
    WordAt(OnePass(mem, g, relocs), g, off, w);
    PointersOf(mem, g, DirectPlan(g), off);
  }

  lemma PointersOf(mem: seq<byte>, g: Image, p: Plan, off: u32)
    requires InMemory(g, |mem|) && IsWord(g.loadSize, off)
    requires p.textSize == g.textSize && p.textBase == Base(g.rom) && p.dataBase == Base(g.ram)
    ensures Val(Resolve(p, Original(mem, g, off))) == Home(g, Val(Original(mem, g, off))) % T32
  {
    ResolvedHome(p, g, Val(Original(mem, g, off)));
  }

  /** Two passes do the same, but for a word resolved at build time that refers to the data: it leads to where romfix
      was told. */
  lemma PointersBuilt(mem: seq<byte>, g: Image, userBase: u32, got: bool, relocs: seq<u32>, i: nat)
    requires Apart(g.loadSize, relocs) && InMemory(g, |mem|) && i < |relocs|
    requires IsWord(g.loadSize, relocs[i]) && !Straddles(g, relocs[i])
    ensures var a, out, v := Home(g, relocs[i]), TwoPass(mem, g, userBase, got, relocs),
                             Val(Original(mem, g, relocs[i]));
            && 0 <= a && a + 4 <= |out|
            && Val(Get(out, a)) == if (relocs[i] < g.textSize || !got) && v >= g.textSize
                                   then (userBase + (v - g.textSize)) % T32 else Home(g, v) % T32
  {
    hide TwoPass, Resolve;
    var off := relocs[i];
    var w := TwoPassWord(mem, g, userBase, got, off);
    forall j | 0 <= j < 4
      ensures TwoPass(mem, g, userBase, got, relocs)[Home(g, off + j)] == ByteOf(w, j)
    {
      TwoPassByte(mem, g, userBase, got, relocs, i, off + j);
    }
    WordAt(TwoPass(mem, g, userBase, got, relocs), g, off, w);
    BuiltPointers(mem, g, userBase, got, off);
  }

  lemma BuiltPointers(mem: seq<byte>, g: Image, userBase: u32, got: bool, off: u32)
    requires InMemory(g, |mem|) && IsWord(g.loadSize, off)
    ensures var v := Val(Original(mem, g, off));
            Val(TwoPassWord(mem, g, userBase, got, off)) ==
            if (off < g.textSize || !got) && v >= g.textSize then (userBase + (v - g.textSize)) % T32
            else Home(g, v) % T32
  {
    var v := Val(Original(mem, g, off));
    ResolvedHome(LoadPlan(g), g, v);
    BuildResolved(g, userBase, got, v);
    hide InMemory, Home, Resolved, Original, Val;
  }

  /** What romfix makes of a reference. */
  lemma BuildResolved(g: Image, userBase: u32, got: bool, v: u32)
    ensures Resolved(BuildPlan(g, userBase, got), v) ==
            if v >= g.textSize then (userBase + (v - g.textSize)) % T32 else Resolved(LoadPlan(g), v)
  {
    if v >= g.textSize { SumMod(v - g.textSize, userBase); }
  }

  /** On a contiguous image every word of the table moves by the load address. */
  lemma PointersShift(mem: seq<byte>, p: Plan, base: int, load: u32, loadSize: u32, relocs: seq<u32>, i: nat)
    requires p == WholePlan(base, load, loadSize) && Apart(loadSize, relocs) && Placed(p, |mem|)
      && Fits(p, relocs, |mem|)
    requires i < |relocs| && IsWord(loadSize, relocs[i])
    ensures var a, out := base + relocs[i], Apply(mem, p, relocs, |relocs|);
            && 0 <= a && a + 4 <= |mem| && Val(Get(out, a)) == (Val(Get(mem, a)) + load) % T32
  {
    Chosen(base, load, loadSize, relocs[i]);
    assert p.loadSize == loadSize;
    hide Apart, Apply, Fits, Placed, Selected, Where, WholePlan, IsWord, Resolve, Get, Val;
    var a, off := base + relocs[i], relocs[i];
    EachOnce(mem, p, relocs, |relocs|, i);
    assert Where(p, off) == a;
  }

  lemma Chosen(base: int, load: u32, loadSize: u32, off: u32)
    requires IsWord(loadSize, off)
    ensures var p := WholePlan(base, load, loadSize);
            && Selected(p, off) && Where(p, off) == base + off
            && forall w: Quad :: Val(Resolve(p, w)) == (Val(w) + load) % T32
  {
    var p := WholePlan(base, load, loadSize);
    forall w: Quad
      ensures Val(Resolve(p, w)) == (Val(w) + load) % T32
    {
      SumMod(Val(w), load);
    }
  }

  lemma SumMod(a: u32, b: u32)
    ensures Sum(a, b) == (a + b) % T32
  {
  }

  // ----- images for which they differ

  /** A word with a small value, as in these images. */
  lemma SmallResolved(p: Plan, w: Quad, n: byte)
    requires w.a == w.b == w.c == 0
    requires n as int == if w.d < p.textSize then w.d + p.textBase else w.d - p.textSize + p.dataBase
    ensures ByteOf(Resolve(p, w), 3) == n
  {
    assert Val(w) == w.d && Resolved(p, w.d) == n;
    ValInjective(Resolve(p, w), Quad(0, 0, 0, n));
  }

  lemma Differs(m: seq<byte>, n: seq<byte>, g: Image, k: int)
    requires |m| == |n| && InMemory(g, |m|) && 0 <= k < g.loadSize && m[Home(g, k)] != n[Home(g, k)]
    ensures !SameProgram(m, n, g)
  {
  }

  /** Four bytes of text at 4, a reference to the start of the data, and two bytes of data, which go to 10. */
  predicate Referring(mem: seq<byte>, g: Image) {
    |mem| == 12 && g == Image(4, 10, 4, 6) && Get(mem, 4) == Quad(0, 0, 0, 4)
  }

  /** With the data at 10 where romfix was told 20, the reference becomes 20 in two passes and 10 in one. */
  lemma EarlyWordDiffers(mem: seq<byte>, g: Image)
    requires Referring(mem, g)
    ensures Apart(g.loadSize, [0]) && InMemory(g, |mem|) && !Straddles(g, 0) && Early(mem, g, true, 0)
    ensures TwoPass(mem, g, 20, true, [0])[7] == 20 && OnePass(mem, g, [0])[7] == 10
    ensures !SameProgram(TwoPass(mem, g, 20, true, [0]), OnePass(mem, g, [0]), g)
  {
    hide TwoPass, OnePass, SameProgram, Resolve;
    var w := Original(mem, g, 0);
    assert w == Quad(0, 0, 0, 4);
    SmallResolved(BuildPlan(g, 20, true), w, 20);
    SmallResolved(DirectPlan(g), w, 10);
    TwoPassByte(mem, g, 20, true, [0], 0, 3);
    OnePassByte(mem, g, [0], 0, 3);
    Differs(TwoPass(mem, g, 20, true, [0]), OnePass(mem, g, [0]), g, 3);
  }

  /** A word with two bytes in the text that refers to text comes out alike if the text is at a multiple of 64K. */
  lemma AlignedJoins(mem: seq<byte>, g: Image, userBase: u32, got: bool, off: u32, page: nat)
    requires InMemory(g, |mem|) && IsWord(g.loadSize, off) && Val(Original(mem, g, off)) < g.textSize
    requires g.textSize == off + 2 && g.rom == 0x1_0000 * page
    ensures Straddles(g, off) && Composes(mem, g, userBase, got, off)
  {
    var w := Original(mem, g, off);
    var b, d := Resolve(BuildPlan(g, userBase, got), w), Resolve(DirectPlan(g), w);
    assert Val(b) == Val(w) + 0x1_0000 * page && b == d;
    LowHalf(b, w, page);
  }

  lemma LowHalf(v: Quad, w: Quad, page: nat)
    requires Val(v) == Val(w) + 0x1_0000 * page
    ensures v.c == w.c && v.d == w.d
  {
    var hi: int := v.a * 0x100 + v.b - w.a * 0x100 - w.b - page;
    assert hi * 0x1_0000 == w.c * 0x100 + w.d - v.c * 0x100 - v.d;
    assert hi == 0;
  }

  /** Two bytes of text and two of data, all zero, at 4; the data goes to 8. */
  predicate Small(mem: seq<byte>, g: Image) {
    |mem| == 10 && (forall x :: 0 <= x < 10 ==> mem[x] == 0) && g == Image(4, 8, 2, 4)
  }

  /** A word across the end of the text can break it, even with the data where romfix was told: romfix patches its
      end in the copy of the data that is loaded later, and one pass patches it behind the text only. */
  lemma StraddlingWord(mem: seq<byte>, g: Image)
    requires Small(mem, g)
    ensures Apart(g.loadSize, [0]) && InMemory(g, |mem|) && Straddles(g, 0) && Base(g.ram) == 8
    ensures TwoPass(mem, g, 8, true, [0])[9] == 4 && OnePass(mem, g, [0])[9] == 0
    ensures !SameProgram(TwoPass(mem, g, 8, true, [0]), OnePass(mem, g, [0]), g)
  {
    hide TwoPass, OnePass, SameProgram, Resolve;
    var w := Original(mem, g, 0);
    assert w == Quad(0, 0, 0, 0);
    SmallResolved(BuildPlan(g, 8, true), w, 4);
    TwoPassByte(mem, g, 8, true, [0], 0, 3);
    OnePassByte(mem, g, [0], 0, 3);
    Differs(TwoPass(mem, g, 8, true, [0]), OnePass(mem, g, [0]), g, 3);
  }
}
