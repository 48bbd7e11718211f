# Genix in Dafny

Models of the parts of Genix whose behaviour is hardest to see from one function, and proofs about them: the minifs
file system and its buffer cache, pipes, descriptors, the scheduler, signals, both memory allocators, program
relocation, the arithmetic evaluator and the parse-tree copy of dash, the regular-expression and glob matchers, 64-bit
decimal conversion, and the line editor.

`dafny verify dfyconfig.toml` checks everything.

Code that changes things step by step is a class or a method with loops. Each method is proved against a function or
predicate on values (a `State`, `Vol`, `Tree`, ...) that says what the new state is, and what the system promises is
proved about that function: as invariants of every step and of every run, as a refinement, or as a round trip.

| files | models | main results |
|---|---|---|
| `Volume`, `VolumeFiles`, `Space`, `MiniFs` | `kernel/fs.c` | every data block is free or belongs to exactly one place, in every operation, and the set of all these blocks never changes; how many bytes a write takes, from the volume before it, and when they can be read back; a reclaim frees exactly the blocks of the file |
| `BufferCache`, `KernelCache`, `FreeLoop` | `kernel/buf.c`, the retained buffers of `kernel/fs.c` | the cache refines a plain map from blocks to bytes; which caches the kernel can have, and in these exactly when a buffer pointer survives; which blocks a reclaim frees through one |
| `ArithSyntax`, `ArithEval`, `ArithYacc`, `ArithLaws` | `apps/dash/arith_yacc.c` | the one-pass evaluator gives, on every token sequence, the value of the one tree that the tokens spell; precedence climbing is the layered grammar, which is unambiguous and groups as C does; each operator obeys its laws |
| `RegexSyntax`, `RegexText`, `Regex` | `libc/regex.c` | the backtracking search is sound and complete, stars are greedy, matches are leftmost; patterns are read as what they were written for; when the engine follows its own syntax |
| `Glob`, `GlobText` | `pmatch` of `apps/dash/expand.c`, `glob_match` of `apps/find.c` | both decide the standard meaning of patterns; when they agree |
| `Decimal`, `Strtol`, `Numerals`, `Sprintf` | `libc/strtol.c`, `libc/sprintf.c` | the limb arithmetic is exact; reading undoes printing for every 64-bit number, and numerals of every base are read as their numbers |
| `Pipe` | pipes of `kernel/proc.c` | first in, first out over every interleaving; exactly when a sleeping reader or writer stays the one that is woken |
| `Descriptors`, `DescriptorTable` | open files and descriptors of `kernel/proc.c` | reference counts equal descriptors over every run, and exactly when; end of file comes with the last write descriptor anywhere |
| `Scheduler`, `ProcessStates`, `VforkRuns`, `VforkEscape`, `SchedulerRuns` | process states of `kernel/proc.c`, the end of `do_exec` | one running process; a ready process runs within 15 switches; each exit status is handed out once; exactly when vfork() returns its own child in all runs; waitpid() misses no zombie, and for process 0 exactly when |
| `UserMemory`, `UserPool` | `umem_*` and `sbrk_proc` of `kernel/mem.c` | regions never overlap, and exactly when; an allocation succeeds exactly when it is at most the `largest` reported |
| `Heap`, `KernelHeap` | `kmalloc`, `kfree` of `kernel/mem.c` | blocks tile the heap and free ones never border on each other, so what is in use determines the heap; freeing everything restores the initial one |
| `Words`, `Relocation`, `Loader` | `kernel/exec.c`, `tools/romfix.c` | pointers lead to the bytes they led to; build-time and run-time relocation compose to the one-pass relocation, and exactly when, word by word |
| `LineEdit`, `LineKeys`, `LineEditor` | `libc/lineedit.c` | after every sequence of keys the terminal shows the line; what each key does and undoes; UPs and DOWNs lead back |
| `Nodes`, `NodeCopy` | `apps/dash/nodes.c` | the copy fills exactly the block that was measured, without overlap, and is the same tree |
| `Signals` | `sig_deliver`, `sys_sigreturn` of `kernel/proc.c` | which signal is acted on and how, by numbers and handlers; at any depth of nesting sigreturn restores the state that was interrupted |

## Where the code does less than expected

Each of these is stated with the exact condition under which the code does what one expects, and by a run or an input
for which it does not.

- A write for which the volume has room for some bytes beyond the end of the file, but not for all, counts bytes that a
  read cannot return, because the size is left alone (`MiniFs.ReadAfterWrite`, `MiniFs.WritesWhatFits`; a volume and a
  write: `MiniFs.ShortWriteLost`).
- `fs_iget` puts a free inode record in the cache when it is asked for one (`MiniFs.FileSystem.Iget`; a volume:
  `MiniFs.FreeRecordOpened`).
- `bmap` keeps a buffer pointer across `balloc`, and `fs_iput` one across `bfree`. The superblock is read first and
  every change is written at once, so in every state the superblock is in the first slot of the cache or in none
  (`KernelCache.AlwaysBooted`). The pointer is good exactly when it is not to the first slot, where a block is read to
  exactly when no slot is empty and it is in no other one; otherwise it becomes one to the superblock. So `bmap` then
  stores the number of the new block in the superblock (`KernelCache.EntryRecorded`, `KernelCache.RecordedWhen`; a run:
  `KernelCache.RetainedPointerGoesStale`). `fs_iput` frees the block of the first entry in use and then the blocks
  whose numbers are the words of the superblock (`FreeLoop.FreesAllWhen`, `FreeLoop.FirstSlot`, `FreeLoop.EarlyEntry`;
  a run: `FreeLoop.SuperblockFreed`).
- `sys_dup` on a full descriptor table leaks a reference (`Descriptors.DupKeeps`, `Descriptors.AlwaysCounted`; a run:
  `Descriptors.FillsUp`, `DescriptorTable.BootLeaks`); `sys_dup2` with equal descriptors closes the descriptor and
  counts through a null pointer (`Descriptors.Dup2Keeps`; a call: `DescriptorTable.Dup2OfSame`).
- A writer asleep on a full pipe gets no SIGPIPE when the last reader goes (`Pipe.SigpipeRaised`; a run:
  `Pipe.BrokenUnsignalled`); an empty write fails like one to a broken pipe (`Pipe.EmptyWriteFails`). A pipe remembers
  one waiting reader and one waiting writer, so a second one that goes to sleep hides the first from every wake-up
  (`Pipe.StepReader`, `Pipe.StepWriter`, `Pipe.ReaderAlways`, `Pipe.WriterAlways`; a run:
  `Pipe.SecondReaderHidesFirst`).
- Any child that exits or completes an exec resumes a parent frozen in vfork. So vfork() by a process other than 0 can
  return another pid than its new child's exactly when, before the call, another child of the caller can get as far as
  its exit: one that is in no call which waits for a child, or waits for a zombie it has, or for a child that can get
  as far itself (`VforkEscape.OwnChildReturned`; a run: `SchedulerRuns.OtherChildReturns`). Process 0 is different
  because the children of every process that exits become its children, also after the call
  (`SchedulerRuns.OrphanReturns`).
- Process 0 can sleep beside a zombie it inherited, exactly when some process that is not its child exits with a zombie
  child that process 0 waits for (`Scheduler.MissedExit`, `Scheduler.RootMissesWhen`; a run:
  `SchedulerRuns.ZombieMissed`).
- Sizes close to 2^32 wrap around in both allocators. kmalloc() then breaks the heap or returns a block that is too
  small (`Heap.AllocKeeps`, `Heap.RunKeeps`, `Heap.AllocCovers`, `KernelHeap.Allocator.Kmalloc`; a heap:
  `Heap.WrappedRequest`), and umem_alloc() finds a place for a region that does not fit there (`UserMemory.StepKeeps`,
  `UserMemory.NeverOverlap`, `UserMemory.WrappedRequest`). A process records its unrounded size, so the next region may
  be unaligned (`UserMemory.AlignedPlaces`; pools: `UserMemory.UnalignedNext`). In a region with 2^31 bytes below its
  stack, `sbrk` can wrap around (`UserMemory.SbrkExact`, `UserMemory.SbrkWraps`).
- Build-time and run-time relocation give the same program exactly when every word of the table composes
  (`Relocation.TwoPassesCompose`). One inside the text or the data does unless it refers to the data, is resolved at
  build time, and the data is not where romfix was told (an image: `Relocation.EarlyWordDiffers`; for words that
  overlap: `Relocation.OverlapComposes`). One across the end of the text does if its bytes in the text come out alike
  and its bytes in the data do not change (an image in which one does not: `Relocation.StraddlingWord`; words that do:
  `Relocation.AlignedJoins`).
- The regex engine reads an escaped dot under a star as any character, and a class that starts with a bracket as empty,
  against its own comments (`RegexSyntax.ReadsAsDocumented`; texts: `Regex.StarredEscapedDot`, `Regex.BracketFirst`).
  The condition is on how a pattern is read: one that is read differently can still match the same texts, such as an
  escaped dot under a star in front of a dot under a star.
- `strtoull` in base 0 does not move its end pointer over "0" (`Strtol.BaseZeroRoundTrip`).
- For bases above 2^16 the steps of `strtoull` lose carries (`Decimal.ExactBases`); the code promises bases up to 36.
- An edit to a history entry is lost by moving on (`LineEdit.UpsThenDowns`; keys: `LineEdit.EditLost`).

## Model

| member | source | states |
|---|---|---|
| `ArithSyntax.ParseIff` | apps/dash/arith_yacc.c:138-304 | the grammar read level by level accepts a token sequence as a tree if and only if the tokens spell that tree and the tree obeys precedence and left associativity |
| `ArithSyntax.ParseDecides` | apps/dash/arith_yacc.c:293-304 | parsing fails exactly when the tokens spell no well-shaped tree; when it succeeds it has read everything |
| `ArithSyntax.Unambiguous` | apps/dash/arith_yacc.c:57-74 | no token sequence spells two different trees of the `prec` table |
| `ArithLaws.Grouping` | apps/dash/arith_yacc.c:57-74 | of `a p b m c`, for every two binary operators by name and all operands: the one of the tighter level of C takes its operands first, and of two of one level the left one does |
| `ArithLaws.LogicGrouping` | apps/dash/arith_yacc.c:216-269 | binary operators bind tighter than `&&`, that tighter than the logical or, and that tighter than `?:` |
| `ArithLaws.RightGrouping` | apps/dash/arith_yacc.c:216-290 | `&&`, the logical or, `?:` and assignment group to the right, and assignment binds most loosely |
| `ArithLaws.OperatorCodes` | apps/dash/arith_yacc.h:35-80 | which codes are assignments, binary and unary operators, by name |
| `ArithLaws.ProductFirst` | apps/dash/arith_yacc.c:57-74 | 2 + 3 * 4 is 14 |
| `ArithLaws.LeftFirst` | apps/dash/arith_yacc.c:175-202 | 10 - 4 - 3 is 3 |
| `ArithLaws.RingLaws` | apps/dash/arith_yacc.c:95-133 | +, -, * and the signs are those of the integers modulo 2^64 |
| `ArithLaws.CancelLaws` | apps/dash/arith_yacc.c:95-133 | subtraction undoes addition, and a number and its negative cancel |
| `ArithLaws.DivisionLaws` | apps/dash/arith_yacc.c:95-133 | quotient times divisor plus remainder is the dividend, the remainder is smaller than the divisor and has the sign of the dividend; only the least number divided by -1 is out of range |
| `ArithLaws.OrderLaws` | apps/dash/arith_yacc.c:95-133 | of less, equal and greater exactly one gives 1; the other comparisons and `!` are made of these |
| `ArithLaws.BitLaws` | apps/dash/arith_yacc.c:95-133 | each of the 64 bits of a conjunction, disjunction, exclusive or and complement is that of the bits of the operands |
| `ArithLaws.ShiftLaws` | apps/dash/arith_yacc.c:95-133 | shifts move the bits by the count modulo 64, with zeros from the right and the sign from the left |
| `ArithLaws.LogicLaws` | apps/dash/arith_yacc.c:216-247 | `a && b` is `a ? !!b : 0`, and the logical or is `a ? 1 : !!b`, with the same effects and the same end |
| `ArithLaws.DeMorgan` | apps/dash/arith_yacc.c:216-247 | the negation of `a && b` is the logical or of the negations, effects included |
| `ArithLaws.CondLaws` | apps/dash/arith_yacc.c:250-269 | a negated condition swaps the branches; a constant condition leaves one of them alone |
| `ArithLaws.OrderOfEvaluation` | apps/dash/arith_yacc.c:175-202 | the right operand sees what the left one assigned; a division by zero stops everything |
| `ArithLaws.VariableLaws` | apps/dash/arith_yacc.c:138-172 | a variable has the value assigned last, and 0 if it has none |
| `ArithLaws.Unassigned` | apps/dash/arith_yacc.c:272-290 | only assignments to a variable change it |
| `ArithLaws.AssignmentLaws` | apps/dash/arith_yacc.c:272-290 | `x = u` gives x the value of u, and each of the ten `x op= u` is `x = x op u` if u does not assign x |
| `ArithSyntax.LevelIsClimb` | apps/dash/arith_yacc.c:175-213 | precedence climbing from one primary builds the tree of the eight-level left-associative grammar, for every level and position |
| `ArithSyntax.ClimbStep` | apps/dash/arith_yacc.c:175-202 | climbing to one level more is climbing, then one flat left-associative chain of that level |
| `ArithSyntax.LevelStops` | apps/dash/arith_yacc.c:175-202 | no operator of a tighter level is left behind when a level is read |
| `ArithSyntax.LevelSound` | apps/dash/arith_yacc.c:175-213 | what a level parser returns spells exactly the tokens it consumed, and its rank is within the level |
| `ArithSyntax.LevelComplete` | apps/dash/arith_yacc.c:175-213 | a tree of a level that is written in the tokens is the one the level parser returns, if nothing behind it binds as tightly |
| `ArithSyntax.AssignComplete` | apps/dash/arith_yacc.c:272-290 | the same for the whole grammar down to assignments |
| `ArithSyntax.CondNodeComplete` | apps/dash/arith_yacc.c:250-269 | a conditional written in the tokens is parsed as that conditional, right associatively |
| `ArithYacc.ClimbStops` | apps/dash/arith_yacc.c:175-202 | when the left operand ends in a division by zero, so does every tree that climbing extends it to, with the same variables |
| `ArithYacc.Evaluator.Yylex` | apps/dash/arith_yacc.c:138-172 | the lexer as primary() calls it: the next token of the source is consumed, its code is handed out and its value is left in `yylval`; at the end of the text nothing is consumed |
| `ArithYacc.Evaluator.Primary` | apps/dash/arith_yacc.c:138-172 | agrees with the parsed primary: same tokens consumed whatever `noeval` is; with `noeval` no variable changes and nothing divides; otherwise value and variables are those of the tree |
| `ArithYacc.Evaluator.PrimaryProper` | apps/dash/arith_yacc.c:138-172 | the same behind any unary plus |
| `ArithYacc.Evaluator.RightOperand` | apps/dash/arith_yacc.c:180-197 | the right operand of an operator takes every tighter operator to its right, and agrees with the tree of that level |
| `ArithYacc.Evaluator.Binop2` | apps/dash/arith_yacc.c:175-202 | the one-pass climb evaluates the left-associative tree that climbing builds, in the variables left by its left operand |
| `ArithYacc.Evaluator.Binop` | apps/dash/arith_yacc.c:205-213 | agrees with the tree of all binary operators |
| `ArithYacc.Evaluator.And` | apps/dash/arith_yacc.c:216-230 | agrees with the tree of `&&`, whose right operand is neither evaluated nor assigned in when the left one is zero |
| `ArithYacc.Evaluator.Or` | apps/dash/arith_yacc.c:233-247 | agrees with the tree of the logical or, with the same short circuit for a non-zero left operand |
| `ArithYacc.Evaluator.Cond` | apps/dash/arith_yacc.c:250-269 | agrees with the tree of `?:`, of which only the chosen branch has effects |
| `ArithYacc.Evaluator.Branches` | apps/dash/arith_yacc.c:255-268 | the same from behind the question mark on |
| `ArithYacc.Evaluator.Assignment` | apps/dash/arith_yacc.c:272-290 | agrees with the tree of an assignment, plain or with an operator |
| `ArithYacc.Evaluator.Arith` | apps/dash/arith_yacc.c:293-304 | for every token sequence: the value, the variables, or the division by zero of the one tree it spells, evaluated by the meaning of trees alone; an error when it spells none |
| `Volume.PopKeeps` | kernel/fs.c:167-187 | taking the head off the free chain keeps block ownership; exactly one place, the end of the chain, gives up its block |
| `Volume.PushKeeps` | kernel/fs.c:191-207 | a block that nobody owns joins the free chain and ownership is kept; no other place changes |
| `Volume.ChainAcyclic` | kernel/fs.c:167-187 | the block behind the head of the free chain is never the head |
| `Volume.AttachDirect` | kernel/fs.c:233-273 | a block owned by nobody is attached to an empty direct pointer; ownership stays exclusive and only that place changes |
| `Volume.AttachIndirect` | kernel/fs.c:233-273 | a zeroed block becomes an indirect block that maps nothing yet; ownership stays exclusive |
| `Volume.AttachEntry` | kernel/fs.c:233-273 | a block is attached to an empty entry of the indirect block; ownership stays exclusive |
| `Volume.DataWriteKeeps` | kernel/fs.c:308-345 | overwriting a data block changes one block of one file: no pointer, no free-chain link and no other file |
| `Volume.BmapKeeps` | kernel/fs.c:233-273 | bmap() keeps ownership and loses no block, maps at most the block asked for, preserves the bytes of every mapped block, and fails only with the volume full or the file too large |
| `Volume.BmapKeepsDirect` | kernel/fs.c:233-273 | the same for the direct blocks, with no assumption about buffers |
| `Volume.BmapKeepsIndirect` | kernel/fs.c:233-273 | the same for blocks behind the indirect block, read by value |
| `VolumeFiles.ChunkWritten` | kernel/fs.c:308-345 | the bytes of one chunk land in the file at their offset, and every other mapped byte of every file is as before |
| `VolumeFiles.WriteGrows` | kernel/fs.c:308-345 | chunks written one after the other are one contiguous write, and ownership and the inode cache stay consistent |
| `VolumeFiles.RecordKeeps` | kernel/fs.c:141-163 | changing an open inode without its block pointers keeps ownership and every mapping |
| `VolumeFiles.UpdateKeeps` | kernel/fs.c:141-163 | writing an inode back keeps ownership, the cache and every mapping |
| `VolumeFiles.FetchKeeps` | kernel/fs.c:58-102 | reading an inode into an unused slot keeps ownership, the cache and every mapping |
| `VolumeFiles.RefcountKeeps` | kernel/fs.c:58-102 | taking or dropping a reference of an inode that stays open changes no mapping |
| `VolumeFiles.CloseKeeps` | kernel/fs.c:106-137 | closing a clean inode with a name changes no mapping |
| `VolumeFiles.ClaimKeeps` | kernel/fs.c:211-229 | claiming a free record for a new inode without blocks changes no mapping |
| `VolumeFiles.ReleaseDirects` | kernel/fs.c:106-137 | freeing direct pointers gives back exactly the blocks they held |
| `VolumeFiles.PushAllKeeps` | kernel/fs.c:106-137 | freeing every entry of an indirect block returns exactly the listed blocks, each once |
| `VolumeFiles.ReleaseIndirect` | kernel/fs.c:106-137 | freeing an indirect block and its entries gives back exactly these blocks |
| `VolumeFiles.ReclaimReleases` | kernel/fs.c:106-137 | the reclaim frees exactly the blocks of the file, leaves it none, and touches no other file |
| `VolumeFiles.PutKeeps` | kernel/fs.c:106-137 | fs_iput() leaves every inode with the record it had and changes nothing about files unless it drops the last reference to an inode without names: after the last reference the record is on disk as it was in the cache; without names exactly the blocks of the inode become free, its record becomes free with size 0, and the set of all accounted blocks is the same |
| `VolumeFiles.ReclaimTidy` | kernel/fs.c:106-137 | every block number the reclaim frees is a data block, also after the direct blocks are gone |
| `VolumeFiles.ReadUnique` | kernel/fs.c:277-304 | what a read returns is determined by the volume |
| `VolumeFiles.ReadBack` | kernel/fs.c:277-304 | bytes a file contains are what a read of that range returns if and only if the range is empty or within the size of the file |
| `VolumeFiles.FileLayout` | kernel/fs.c:233-273 | byte o of a file is byte o mod 1024 of the block whose number is direct pointer o / 1024, or behind the twelve of these a big-endian word of the indirect block |
| `VolumeFiles.NewVolumeValid` | tools/mkfs.c:386-403 | a volume whose data blocks are all on the free list, in order, satisfies the ownership invariant |
| `MiniFs.FileSystem.constructor` | kernel/fs.c:35-54 | mounting a consistent volume gives a valid file system, and fixes the set of blocks that are free or owned |
| `MiniFs.FileSystem.Balloc` | kernel/fs.c:167-187 | returns the head of the free chain and takes it off, with the superblock copy kept equal; with an empty chain nothing changes |
| `MiniFs.FileSystem.Bfree` | kernel/fs.c:191-207 | the block becomes the head of the chain |
| `MiniFs.FileSystem.BmapDirect` | kernel/fs.c:233-273 | the direct case of bmap(), including allocation |
| `MiniFs.FileSystem.BmapIndirect` | kernel/fs.c:233-273 | the indirect case: the indirect block is made first, then the entry |
| `MiniFs.FileSystem.Bmap` | kernel/fs.c:233-273 | returns the block of the file at an offset, allocated on request, under the guarantees of Volume.BmapKeeps; free and owned blocks together stay the same set |
| `Space.BmapCounts` | kernel/fs.c:167-273 | bmap() succeeds if and only if the blocks missing for the block asked for (none, one, or two when the indirect block is missing too) are on the free chain, and takes exactly these |
| `Space.RoomForLess` | kernel/fs.c:308-345 | where there is room for some bytes there is room for fewer |
| `Space.NeededPaid` | kernel/fs.c:308-345 | what a range of blocks still needs falls by exactly what the free chain paid |
| `Space.SpentRoom` | kernel/fs.c:308-345 | bytes that were written had room in the volume before the write |
| `Space.NoRoom` | kernel/fs.c:308-345 | where bmap() fails there was room for not one byte more before the write |
| `MiniFs.FileSystem.BmapAlloc` | kernel/fs.c:233-273 | bmap() with allocation, as fs_write() calls it: it fails if and only if the file would be too large or the free chain has fewer blocks than are missing |
| `MiniFs.FileSystem.BmapLookup` | kernel/fs.c:277-304 | a lookup without allocation returns the block of the file or 0 and changes nothing |
| `MiniFs.FileSystem.Iupdate` | kernel/fs.c:141-163 | the cached record goes to its disk record and is clean |
| `MiniFs.FileSystem.FreeEntries` | kernel/fs.c:106-137 | all non-zero entries of the indirect block, read once before the loop, are freed in order |
| `MiniFs.FileSystem.Reclaim` | kernel/fs.c:106-137 | the direct blocks, the entries and the indirect block are freed and the pointers cleared |
| `MiniFs.FileSystem.ReclaimDirects` | kernel/fs.c:106-137 | the loop over the direct blocks |
| `MiniFs.FileSystem.PutBlocks` | kernel/fs.c:106-137 | dropping a reference, with the write-back and the reclaim when it was the last one |
| `MiniFs.FileSystem.Iput` | kernel/fs.c:106-137 | the reference goes; the file system stays valid and VolumeFiles.PutKeeps says what becomes of the blocks |
| `MiniFs.FileSystem.FindOpen` | kernel/fs.c:58-102 | the slot of the inode if it is open |
| `MiniFs.FileSystem.FindUnused` | kernel/fs.c:58-102 | the first slot without references |
| `MiniFs.FileSystem.Iget` | kernel/fs.c:58-102 | the slot of the inode, with one more reference and the record it had; nothing for a number out of range or when every slot is referenced; the cache stays consistent if and only if the record is not a free one |
| `MiniFs.FreeRecordOpened` | kernel/fs.c:58-102 | a new volume with one inode record, which is free: after it is fetched, an inode is open whose record is not in use |
| `MiniFs.FileSystem.Ialloc` | kernel/fs.c:211-229 | claims the first free record, with one name and no blocks; 0 exactly when none is free |
| `MiniFs.FileSystem.DropName` | kernel/fs.c:551-553 | one name fewer in 8 bits; nothing else changes |
| `MiniFs.FileSystem.Truncate` | kernel/proc.c:901-905 | the size becomes 0 and is written back; the blocks stay with the file |
| `MiniFs.FileSystem.SetMeta` | kernel/fs.c:308-345 | fields other than block pointers are set and written back; mappings stay |
| `MiniFs.FileSystem.Read` | kernel/fs.c:277-304 | returns the bytes of the file from the offset, up to the count, the size or the first hole |
| `MiniFs.FileSystem.WriteBlock` | kernel/fs.c:308-345 | one block-sized piece is in the file afterwards and all other mapped bytes are as before; it fails if and only if the file would be too large or the free chain has fewer blocks than are missing |
| `MiniFs.FileSystem.WriteChunk` | kernel/fs.c:308-345 | the next piece is taken so that it stays in one block; 0 only when there was no room for one byte more before the write |
| `MiniFs.FileSystem.WriteBlocks` | kernel/fs.c:308-345 | returns how many bytes went in; these are in the file, everything else is as before, and they are as many as the volume had room for before the call |
| `MiniFs.FileSystem.Write` | kernel/fs.c:308-345 | the bytes counted are in the file, all other mapped bytes of all files are as before, and the count is the largest that the volume had room for before the call; a full write sets size and time and writes the inode back, a short one changes only block pointers |
| `MiniFs.WritesWhatFits` | kernel/fs.c:308-345 | at least k bytes are written if and only if the file stays below the largest size and the blocks missing in the range, indirect block included, are on the free chain before the call; so a write is full, or fails, exactly by this condition |
| `MiniFs.ClippedIs` | kernel/fs.c:308-312 | the part of the data that is written ends at or before the last 32-bit offset, and is cut only there |
| `MiniFs.ReadAfterWrite` | kernel/fs.c:277-345 | a read of the range written gives the data counted if and only if the volume before the write had room for all of it, or for nothing beyond the end of the file |
| `MiniFs.ReadAfterReopen` | kernel/fs.c:106-137 | the same for a file that is written, closed and opened again |
| `MiniFs.ShortWriteLost` | kernel/fs.c:308-345 | a sound volume with one free block and an empty file: of 1025 bytes 1024 are counted, and the read returns none |
| `BufferCache.FindIs` | kernel/buf.c:19-54 | a block is in at most one valid slot, and the search finds it |
| `BufferCache.VictimIs` | kernel/buf.c:26-46 | a miss takes the lowest empty slot, else the lowest clean one, else slot 0 |
| `BufferCache.FlushKeeps` | kernel/buf.c:57-69 | writing a buffer out changes the contents of no block |
| `BufferCache.LoadKeeps` | kernel/buf.c:19-54 | loading a block over an empty or clean slot changes the contents of no block |
| `BufferCache.FetchKeeps` | kernel/buf.c:19-54 | bread(), whatever it evicts, changes the contents of no block, and the block is then cached |
| `BufferCache.ChangeKeeps` | kernel/buf.c:57-62 | a change in a buffer changes the contents of that block only |
| `BufferCache.StepRefines` | kernel/buf.c:19-69 | one operation on the cache is the same operation on a plain map from blocks to bytes |
| `BufferCache.RunRefines` | kernel/buf.c:19-69 | after any run of reads, changes and writes every block reads as in the plain map |
| `BufferCache.CleanIsDisk` | kernel/buf.c:57-62 | with no dirty buffer the disk equals the map |
| `BufferCache.WriteThroughKeepsClean` | kernel/fs.c:191-207 | a change followed by bwrite() leaves nothing dirty and the disk with exactly that block changed |
| `BufferCache.RetainedAcrossRead` | kernel/buf.c:19-54 | a buffer pointer survives a read if and only if the read was a hit or evicted another slot |
| `BufferCache.SteadyReads` | kernel/buf.c:19-54 | in a full clean cache every miss goes to slot 0 and the cache stays full and clean |
| `BufferCache.RetainedAcrossBalloc` | kernel/fs.c:258-267 | in every cache the pointer bmap() keeps across balloc() is good if and only if neither read evicts its slot; otherwise it points at one of the two blocks read |
| `BufferCache.SteadyAcrossBalloc` | kernel/fs.c:258-267 | in any full clean cache, whatever it holds: if and only if it is not slot 0 or both reads hit |
| `KernelCache.LookIs` | kernel/buf.c:18-54 | a read changes at most one slot, which then holds the block, and no clean cache becomes dirty |
| `KernelCache.PutIs` | kernel/fs.c:190-207 | a read, a change and bwrite() change one slot and the contents of one block, and leave nothing dirty |
| `KernelCache.StoreIs` | kernel/fs.c:262-267 | a change through a pointer to a slot, and bwrite(), is a change of whatever block is in that slot |
| `KernelCache.BootIs` | kernel/fs.c:34-38 | after buf_init() and fs_init() the superblock is in the first slot |
| `KernelCache.SuperFirst` | kernel/buf.c:26-46 | the superblock, whenever it is read, goes to the first slot or is there |
| `KernelCache.OtherwiseFirst` | kernel/buf.c:26-46 | another block goes to the first slot exactly when no slot is empty and it is in no other one, and it takes no other slot from a block |
| `KernelCache.AccessKeeps` | kernel/buf.c:18-69 | reads and written changes of any block keep this: nothing is dirty, and the superblock is in no slot but the first, where it is as long as some slot is empty |
| `KernelCache.AlwaysBooted` | kernel/main.c:99-101 | so it holds in every state of every run from the start |
| `KernelCache.KeptAcrossBalloc` | kernel/fs.c:166-187 | a pointer kept across balloc() is good exactly when it is not to the first slot, which holds the superblock then; only the superblock changes |
| `KernelCache.EntryRecorded` | kernel/fs.c:258-269 | the last part of bmap() records the number of the new block in the indirect block exactly when that is not in the first slot; if it is, the indirect block stays as it is and the number goes into the superblock; no other block changes |
| `KernelCache.RecordedWhen` | kernel/fs.c:258-269 | from before the indirect block is read: the number is recorded exactly when some slot is empty or the indirect block is in another slot than the first |
| `KernelCache.Overflows` | kernel/buf.c:18-54 | from the start, reads of blocks 1 to n in a cache of n slots leave block n in the first slot, for every n |
| `KernelCache.RetainedPointerGoesStale` | kernel/fs.c:258-267 | after that run, a pointer to block n is one to the superblock once balloc() has taken a block |
| `KernelCache.PutBlock` | kernel/fs.c:192-198 | bread(), the change, bwrite() and brelse() are that step on the cache |
| `KernelCache.FillEntry` | kernel/fs.c:258-268 | the code of bmap() around balloc() is the specified step, from every cache of the kernel |
| `FreeLoop.SuperEntry` | kernel/kernel.h:226-235 | the 16-bit words of block 0 are those of the superblock, and behind it those that were there |
| `FreeLoop.BfreeIs` | kernel/fs.c:190-207 | bfree() leaves the superblock, with the freed block as the head of the free list, in the first slot, and every other slot with its block unless that is the one freed |
| `FreeLoop.BfreeWrites` | kernel/fs.c:190-207 | on disk the freed block is linked to the old head of the free list and named as the new one, and no other block changes |
| `FreeLoop.LinkIs` | kernel/fs.c:192-195 | the link is the first word of the block, and all others are zero |
| `FreeLoop.OtherSlot` | kernel/fs.c:121-128 | with the indirect block in another slot than the first, the loop reads its entries throughout and frees them all, in order |
| `FreeLoop.FirstSlot` | kernel/fs.c:121-128 | with the indirect block in the first slot, the loop frees the block of the first entry in use, and then the words of the superblock from the next index on |
| `FreeLoop.FreesAllWhen` | kernel/fs.c:121-128 | in every cache the kernel can have, from before the read of the indirect block: the loop frees exactly its entries, in order, if and only if some slot was empty, or the block was in another slot than the first, or the superblock happens to read as the rest of the entries |
| `FreeLoop.EarlyEntry` | kernel/fs.c:121-128 | the superblock never reads so when no block is listed twice and an entry before the word of the free list is in use: some block is freed twice in a row |
| `FreeLoop.SuperblockFreed` | kernel/fs.c:121-128 | a run from the start, for every number of slots below 98: of the entries 99 and 98 of an indirect block, 99 is freed and then six words of the superblock, 64 twice |
| `FreeLoop.WriteSuper` | kernel/fs.c:202-206 | the superblock is copied over the first 20 bytes of block 0, whatever slot that is in |
| `FreeLoop.SuperblockRead` | kernel/fs.c:124-127 | once the superblock is in the slot the loop reads, it frees the blocks whose numbers are the words of the superblock, in which the head of the free list is always the block freed last |
| `FreeLoop.FreeBlock` | kernel/fs.c:190-207 | bfree() on the cache is the specified step |
| `FreeLoop.FreeEntries` | kernel/fs.c:121-128 | the loop over a buffer read once is the specified sequence of turns, from any cache and with any number of slots |
| `BufferCache.Cache.constructor` | kernel/buf.c:9-16 | an empty cache shows the disk |
| `BufferCache.Cache.Lookup` | kernel/buf.c:19-27 | the slot that holds the block, or none |
| `BufferCache.Cache.Unneeded` | kernel/buf.c:28-40 | the first empty slot, else the first clean one, or none |
| `BufferCache.Cache.Bread` | kernel/buf.c:19-54 | returns a slot with the abstract contents of the block, and leaves all contents as they were |
| `BufferCache.Cache.Bwrite` | kernel/buf.c:57-62 | a dirty buffer goes to the disk and is clean |
| `BufferCache.Cache.Brelse` | kernel/buf.c:65-69 | releasing a buffer writes it if dirty and changes no contents |
| `RegexSyntax.GreedySound` | libc/regex.c:87-128 | a match the search finds is in the language of the pattern |
| `RegexSyntax.GreedyComplete` | libc/regex.c:87-128 | if any prefix of the text matches, the search succeeds |
| `RegexSyntax.StarIsLongest` | libc/regex.c:132-156 | a star takes the longest run after which the rest of the pattern still matches |
| `RegexSyntax.BacktrackIs` | libc/regex.c:149-155 | backtracking from the longest run stops at the last position where the rest matches |
| `RegexSyntax.BacktrackFinds` | libc/regex.c:149-155 | if the rest matches after any shorter run, backtracking succeeds |
| `RegexSyntax.BacktrackStop` | libc/regex.c:149-155 | where backtracking stops nothing longer would have matched |
| `RegexSyntax.ReadsAsDocumented` | libc/regex.c:87-128 | the matcher reads an accepted pattern as the documented syntax says if and only if it has no starred escaped dot and no class that starts with a bracket |
| `Regex.MatchClass` | libc/regex.c:21-53 | whether the character is in the negated or plain set of characters and ranges, and where the class ends |
| `Regex.PatNext` | libc/regex.c:57-67 | the position behind one pattern element |
| `Regex.MatchOne` | libc/regex.c:71-82 | whether the element accepts the character; never the end of the text |
| `Regex.MatchHere` | libc/regex.c:87-128 | the end of the greedy match at this position, if there is one, for every pattern and text; recursion ends on the remaining pattern |
| `Regex.GreedyStar` | libc/regex.c:112-118 | the meaning of a pattern that starts with a starred element: backtracking from its longest run |
| `Regex.MatchStar` | libc/regex.c:132-156 | the match after the longest run that lets the rest match |
| `Regex.ScansDocumented` | libc/regex.c:160-202 | the syntax scan accepts exactly the patterns of the documented syntax |
| `Regex.RegexT.ClassEnd` | libc/regex.c:160-202 | the part of the scan inside a class stops at the bracket that closes it, where one that comes first does not |
| `Regex.RegexT.Regcomp` | libc/regex.c:160-202 | succeeds if and only if the pattern is short enough and well formed, and then holds the pattern |
| `Regex.RegexT.Regexec` | libc/regex.c:204-237 | returns the leftmost match with its greedy end, anchored or not; -1 only when nothing matches anywhere allowed |
| `Regex.FirstMatch` | libc/regex.c:227-234 | trying one position succeeds if and only if some text from there matches |
| `Regex.CompiledAsDocumented` | libc/regex.c:160-237 | for a compiled pattern, behind an anchor too: what is searched for is what the syntax says if and only if the pattern is plain |
| `Regex.StarredEscapedDot` | libc/regex.c:112-118 | the engine matches any text with an escaped dot under a star, where the syntax says dots only |
| `Regex.BracketFirst` | libc/regex.c:32-45 | the engine reads a class that starts with a bracket as an empty one, so it matches nothing |
| `RegexText.EngineReads` | libc/regex.c:18-128 | for every list of elements, stars and end marks there is a text that the engine reads as just this list, but for a starred literal dot |
| `RegexText.SyntaxReads` | libc/regex.c:4-8 | the documented syntax reads this text as that list without exception |
| `RegexText.ProgramReads` | libc/regex.c:159-237 | so it does when the pattern is compiled, behind an anchor or not |
| `RegexText.MatchesBoth` | libc/regex.c:87-156 | a text matches two patterns one after the other exactly when it can be cut into texts that match them |
| `RegexText.MatchesPart` | libc/regex.c:87-156 | one element matches one character it accepts, a starred one any number of these, and the end mark the end |
| `RegexText.AcceptsWhat` | libc/regex.c:18-82 | a dot accepts every character, another character itself, a class what it lists or spans, a negated one the rest |
| `RegexText.ClassTexts` | libc/regex.c:18-51 | the texts of these classes: `[abc]`, `[^abc]`, `[a-z]` |
| `RegexText.WordMatches` | libc/regex.c:87-128 | a pattern of ordinary characters matches that text and no other |
| `Glob.StarIs` | apps/dash/expand.c:1571-1586 | a star matches if and only if the rest matches at some later position |
| `Glob.StarStar` | apps/dash/expand.c:1571-1574 | consecutive stars are one star |
| `Glob.StarStep` | apps/dash/expand.c:1582-1586 | a star gives up nothing or one character |
| `Glob.Pmatch` | apps/dash/expand.c:1551-1646 | decides the standard meaning of stars, question marks, escapes and literals, for every pattern without brackets |
| `Glob.AfterStar` | apps/dash/expand.c:1571-1586 | the skip ahead after a star loses no match |
| `Glob.EndMatchesAll` | apps/find.c:21-30 | pieces that match the empty rest match any rest, so a star need not try the end of the name |
| `Glob.GlobMatch` | apps/find.c:18-45 | decides the meaning of stars, question marks and literals, for every pattern |
| `Glob.SyntaxesAgree` | apps/dash/expand.c:1551-1646 | both matchers read a pattern as the same pieces if and only if it has no escape, so on those they agree on every name |
| `GlobText.TextRead` | apps/dash/expand.c:1551-1646 | for every list of stars, question marks and characters there is a text that pmatch() reads as just this list |
| `GlobText.PlainRead` | apps/find.c:18-45 | so does glob_match(), if nothing is escaped |
| `GlobText.MatchesBoth` | apps/dash/expand.c:1551-1646 | a name matches two lists one after the other exactly when it can be cut into names that match them |
| `GlobText.MatchesPart` | apps/dash/expand.c:1551-1646 | a star matches every name, a question mark one character, another piece that character |
| `GlobText.WordMatches` | apps/find.c:18-45 | in both matchers a pattern of ordinary characters matches that name only |
| `GlobText.SuffixReads` | apps/find.c:18-45 | a star and such a word are read as these by both |
| `GlobText.SuffixMatches` | apps/find.c:18-45 | and match the names that end with the word |
| `Decimal.MulAddIs` | libc/strtol.c:143-155 | the 16-bit limb step computes (value * base + digit) mod 2^64, for every base to 2^16 |
| `Decimal.ExactBases` | libc/strtol.c:139-155 | these are all the bases for which every step is exact |
| `Decimal.LowProduct` | libc/strtol.c:144-152 | the two partial products are the exact 64-bit product of the low word |
| `Decimal.AddDigit` | libc/strtol.c:153-155 | the carry of the digit is not lost |
| `Decimal.DivTen` | libc/sprintf.c:224-233 | the limb division gives quotient and remainder of hi:lo by ten |
| `Decimal.NumeralValue` | libc/sprintf.c:218-236 | the digits stand for the number, with no leading zero except for 0 |
| `Decimal.NumeralLength` | libc/sprintf.c:209-210 | a number below 10^k has at most k digits |
| `Strtol.TimesPlus` | libc/strtol.c:143-155 | one turn of the digit loop is the limb step |
| `Strtol.ScanSpaces` | libc/strtol.c:113-114 | leading spaces are skipped, no more |
| `Strtol.ScanPrefix` | libc/strtol.c:116-134 | sign, base and prefix are taken as the function of the text says |
| `Strtol.ScanDigits` | libc/strtol.c:136-158 | digits are accumulated modulo 2^64, for bases to 2^16, up to the first character that is none, for all bases |
| `Strtol.EndSame` | libc/strtol.c:136-158 | where the digits end does not depend on their value |
| `Strtol.Strtoull` | libc/strtol.c:104-163 | the end pointer is that of the specification for every text and base, and so is the value for every base to 2^16 |
| `Strtol.Strtoll` | libc/strtol.c:166-189 | the same for the signed value, with the minus sign and the reset of the end pointer |
| `Strtol.DigitsRead` | libc/strtol.c:136-158 | reading decimal digits that fit gives the number they stand for |
| `Strtol.FieldParts` | libc/sprintf.c:244-254 | every printed field is spaces, sign, digits with value n, spaces |
| `Strtol.UnsignedRoundTrip` | libc/sprintf.c:257-296 | strtoull() in base 10 undoes `%llu` for every 64-bit number, width and padding, and stops behind its digits |
| `Strtol.SignedRoundTrip` | libc/sprintf.c:205-256 | strtoll() in base 10 undoes `%lld` for every 64-bit signed number, the least one included |
| `Strtol.BaseZeroRoundTrip` | libc/strtol.c:119-130 | with base 0 the value of a numeral is right, and the end pointer is right if and only if the number is not 0 |
| `Numerals.NumeralRead` | libc/strtol.c:136-158 | the digits of a numeral, of every base 2 to 36 and in either case, are read as its number |
| `Numerals.ReadInBase` | libc/strtol.c:103-163 | strtoull() reads the numerals of every base behind blanks of all kinds and a plus sign, and stops behind them |
| `Numerals.ReadHex` | libc/strtol.c:119-134 | behind 0x, in base 16 if the base is 16 or 0 |
| `Numerals.ReadOctal` | libc/strtol.c:119-130 | behind 0, in base 8 if the base is 0 |
| `Numerals.ReadDecimal` | libc/strtol.c:119-130 | and in base 10 without a leading zero |
| `Numerals.NothingRead` | libc/strtol.c:160-162 | where no digit follows, the value is 0 and the end pointer is the start of the text |
| `Numerals.NothingReadSigned` | libc/strtol.c:165-189 | so it is with strtoll(), behind a sign or none |
| `Numerals.ReadSigned` | libc/strtol.c:165-189 | strtoll() reads a numeral behind blanks and a minus or plus sign or none as the number with that sign |
| `Numerals.FieldShape` | libc/sprintf.c:244-254 | a field is as long as its width, or as sign and numeral if these are longer; the rest of it is blanks on the right or left, or zeros behind the sign |
| `Sprintf.EmitChar` | libc/sprintf.c:11-16 | the text grows by the character; the buffer holds as much of it as the limit allows |
| `Sprintf.EmitPad` | libc/sprintf.c:246-254 | padding is emitted as often as asked |
| `Sprintf.EmitDigits` | libc/sprintf.c:251-252 | the reversed digits are emitted in the right order |
| `Sprintf.Convert` | libc/sprintf.c:209-236 | `tmp` holds the numeral of hi:lo backwards in at most 20 of its 22 bytes |
| `Sprintf.ConvertLong` | libc/sprintf.c:222-236 | the division loop for a non-zero high word produces exactly the decimal digits |
| `Sprintf.EmitField` | libc/sprintf.c:244-255 | spaces, sign, zeros, digits and spaces in the order of the flags |
| `Sprintf.PrintUnsigned` | libc/sprintf.c:257-296 | the field of an unsigned value is appended |
| `Sprintf.PrintSigned` | libc/sprintf.c:205-256 | the field of a signed value is appended, also for the least value, whose negation is itself |
| `Sprintf.Terminate` | libc/sprintf.c:357-359 | the text, cut to the limit, is closed with a zero byte inside the limit |
| `Sprintf.SnprintfSigned` | libc/sprintf.c:138-360 | one `%lld` to a bounded buffer: what is printed, the length returned, and no byte beyond the limit |
| `Sprintf.SnprintfUnsigned` | libc/sprintf.c:138-360 | the same for one `%llu` |
| `Sprintf.BufferRoundTrip` | libc/sprintf.c:138-360 | when the text fits, the bytes in the buffer read back with strtoll() are the number |
| `Pipe.DrainedContents` | kernel/proc.c:112-124 | taking n bytes from the ring takes the n oldest, also around the end of the ring |
| `Pipe.FilledContents` | kernel/proc.c:165-182 | putting bytes in the ring appends them |
| `Pipe.ReadTakes` | kernel/proc.c:91-135 | a read takes the oldest bytes, as many as it asks for or as there are, or blocks, and blocks if and only if the pipe is empty with a writer |
| `Pipe.WritePuts` | kernel/proc.c:137-193 | a write appends the beginning of its data, as much as there is room for; it blocks if and only if the pipe is full with a reader, and otherwise moves something if and only if there is room, a reader and data |
| `Pipe.ReadWakes` | kernel/proc.c:91-135 | a read wakes the waiting writer and no other process; if it blocks, it sleeps as the waiting reader, and waits no more when it comes back |
| `Pipe.WriteWakes` | kernel/proc.c:137-193 | the same for a write, if there is a reader |
| `Pipe.ClosesWake` | kernel/proc.c:195-219 | a close counts down one end; the last one wakes the process that waits at the other, and the bytes in the pipe stay |
| `Pipe.SigpipeRaised` | kernel/proc.c:142-171 | a write to a pipe without readers raises SIGPIPE if and only if it had not slept, or the ring has room and the data is not empty |
| `Pipe.BrokenUnsignalled` | kernel/proc.c:142-171 | a run in which a writer fills the ring and sleeps, the last reader closes, and the resumed call is broken with no SIGPIPE pending |
| `Pipe.EmptyWriteFails` | kernel/proc.c:192 | an empty write fails like one to a broken pipe if and only if it does not block, even with a reader and room |
| `Pipe.SpinChangesNothing` | kernel/proc.c:98-110 | a blocked call that schedule() returns to at once finds the state it left |
| `Pipe.StepFifo` | kernel/proc.c:91-219 | every step of every process keeps: bytes read, then the ring, are the bytes written |
| `Pipe.FifoAlways` | kernel/proc.c:91-219 | over every run of any number of readers and writers the pipe delivers the bytes written, in order, each once |
| `Pipe.StepSlots` | kernel/proc.c:98-163 | the pipe remembers as waiting only a process that is in the call |
| `Pipe.StepReader` | kernel/proc.c:98-110 | a step keeps a sleeping reader as the one the empty pipe will wake, or wakes it, if and only if no other process goes into the loop of pipe_read() |
| `Pipe.StepWriter` | kernel/proc.c:151-163 | the same for a sleeping writer, the full pipe and pipe_write() |
| `Pipe.ReaderAlways` | kernel/proc.c:98-110 | over every run of any readers and writers, a reader sleeps only on an empty pipe that has a writer and will wake it, if and only if no other process goes into the loop of pipe_read() while it sleeps there |
| `Pipe.WriterAlways` | kernel/proc.c:151-163 | the same for a writer, the full pipe and pipe_write() |
| `Pipe.OneReaderAlone` | kernel/proc.c:98-110 | with one reading process this holds over every run |
| `Pipe.OneWriterAlone` | kernel/proc.c:151-163 | with one writing process too |
| `Pipe.NeverBothAsleep` | kernel/proc.c:91-219 | a reader and a writer that no other process hides so never both sleep on the pipe, in any run |
| `Pipe.SecondReaderHidesFirst` | kernel/proc.c:106-109 | a run in which a second reader does: after it the first sleeps although the pipe holds data, and no write wakes it |
| `Pipe.FreshPipe` | kernel/proc.c:235-242 | a new pipe satisfies the invariants |
| `Pipe.PipeDevice.constructor` | kernel/proc.c:235-242 | an empty ring with one reader, one writer and nobody waiting |
| `Pipe.PipeDevice.WakeBlockedWriter` | kernel/proc.c:99-105 | the waiting writer is made ready if it sleeps, and forgotten |
| `Pipe.PipeDevice.WakeBlockedReader` | kernel/proc.c:152-158 | the waiting reader is made ready if it sleeps, and forgotten |
| `Pipe.PipeDevice.DrainLoop` | kernel/proc.c:112-124 | the chunk loop copies the bytes at the read position and on, around the end of the ring |
| `Pipe.PipeDevice.Drain` | kernel/proc.c:112-124 | these are the oldest bytes, in order, and the rest of the destination is left alone |
| `Pipe.PipeDevice.FillLoop` | kernel/proc.c:165-182 | the chunk loop stores at the write position and on, around the end of the ring |
| `Pipe.PipeDevice.Fill` | kernel/proc.c:165-182 | as many bytes as fit are put in the ring, in order |
| `Pipe.PipeDevice.PipeRead` | kernel/proc.c:91-135 | a step of a read is the specified step, and the destination holds the oldest bytes |
| `Pipe.PipeDevice.PipeWrite` | kernel/proc.c:137-193 | a step of a write is the specified step, for every length; a negative one writes nothing |
| `Pipe.PipeDevice.PipeCloseRead` | kernel/proc.c:195-206 | closing the read end counts down and wakes the writer with the last reader; the contents stay |
| `Pipe.PipeDevice.PipeCloseWrite` | kernel/proc.c:208-219 | closing the write end counts down and wakes the reader with the last writer; the contents stay |
| `Descriptors.LinkKeeps` | kernel/proc.c:1496-1503 | one descriptor more for a referenced file keeps the accounting |
| `Descriptors.UnlinkKeeps` | kernel/proc.c:927-952 | one descriptor less keeps it, pipe ends included |
| `Descriptors.NewKeeps` | kernel/proc.c:222-289 | a new open file with one descriptor keeps it |
| `Descriptors.FirstFree` | kernel/proc.c:54-62 | the entry found is the first one without references |
| `Descriptors.LowestFd` | kernel/proc.c:66-74 | the descriptor found is the lowest unused one |
| `Descriptors.OpenKeeps` | kernel/proc.c:907-923 | open() keeps the accounting, also when it fails |
| `Descriptors.OpenGives` | kernel/proc.c:907-923 | open() gives the lowest descriptor for a file nothing referred to, and fails if and only if descriptors or open files are used up |
| `Descriptors.PipeKeeps` | kernel/proc.c:222-289 | do_pipe() keeps the accounting, never takes a pipe some descriptor refers to, and on failure changes neither descriptors nor counts |
| `Descriptors.PipeIsNew` | kernel/proc.c:244-288 | the two descriptors are the ends of one pipe that no descriptor was an end of |
| `Descriptors.PipeGives` | kernel/proc.c:222-289 | do_pipe() works if and only if a pipe, two open files and two descriptors are unused; then it gives the two lowest descriptors, the read end first, and changes nothing else |
| `Descriptors.CloseKeeps` | kernel/proc.c:927-952 | close() keeps the accounting |
| `Descriptors.CloseSlots` | kernel/proc.c:927-952 | close() takes away that descriptor and no other, or fails and changes nothing |
| `Descriptors.LastWriterCloses` | kernel/proc.c:927-952 | closing a write end leaves the pipe without writers if and only if no other descriptor of any process is a write end of it |
| `Descriptors.LastReaderCloses` | kernel/proc.c:927-952 | the same for read ends |
| `Descriptors.DupFromKeeps` | kernel/proc.c:1496-1503 | F_DUPFD keeps the accounting |
| `Descriptors.DupFromGives` | kernel/proc.c:1496-1503 | F_DUPFD takes the lowest descriptor from the bound on, for the same open file; it fails if and only if the descriptor is bad or none is left, and then changes nothing |
| `Descriptors.DupKeeps` | kernel/proc.c:1053-1059 | dup() keeps the accounting if and only if the descriptor is bad or another one is free; on a full table a reference leaks |
| `Descriptors.DupGives` | kernel/proc.c:1052-1059 | dup() gives the lowest unused descriptor, for the open file of the one named; it fails if and only if that is bad or none is left, and then changes no descriptor |
| `Descriptors.Dup2Keeps` | kernel/proc.c:1062-1073 | dup2() keeps the accounting; the descriptor it returns is open on the same file if and only if the two were different, and with equal ones it counts through a null pointer |
| `Descriptors.Dup2Gives` | kernel/proc.c:1061-1073 | dup2() points the second descriptor at the open file of the first and changes no other; it fails if and only if the first is bad or the second out of range, and then changes nothing |
| `Descriptors.RedirectKeeps` | kernel/proc.c:740-760 | pointing a descriptor elsewhere, with the release of what it was, keeps the accounting |
| `Descriptors.ShareKeeps` | kernel/proc.c:564-567 | a child that counts all descriptors of its parent once more keeps the accounting |
| `Descriptors.ChildInherits` | kernel/proc.c:655-660 | the child has the descriptors of its parent; all others keep theirs |
| `Descriptors.HandKeeps` | kernel/proc.c:740-804 | one replacement of spawn_fd keeps the accounting |
| `Descriptors.HandAllKeeps` | kernel/proc.c:740-804 | all three together keep it |
| `Descriptors.HandAllGives` | kernel/proc.c:740-804 | spawn_fd replaces the three descriptors of the child by the ones named, where open, and leaves all others, the caller's included |
| `Descriptors.ExitKeeps` | kernel/proc.c:386-408 | the close loop of exit keeps the accounting |
| `Descriptors.ExitCloses` | kernel/proc.c:386-408 | after exit the process has no descriptors and the others have theirs |
| `Descriptors.WritersGone` | kernel/proc.c:98 | end of file comes exactly when no descriptor of any process is a write end |
| `Descriptors.ReadersGone` | kernel/proc.c:142-147 | a broken pipe comes exactly when no descriptor of any process is a read end |
| `Descriptors.DescriptorsDetermine` | kernel/proc.c:222-300 | the descriptors of all processes determine every reference count and every reader and writer count |
| `Descriptors.CounterFits` | kernel/proc.c:564-567 | the 8-bit counter holds the count unless all 256 descriptors refer to one file |
| `Descriptors.StepKeeps` | kernel/proc.c:927-952 | every call keeps the accounting, except exactly a dup() of an open descriptor on a full table |
| `Descriptors.CurrentAfter` | kernel/proc.c:533-592 | vfork() makes the child the current process; no other call changes which one it is |
| `Descriptors.AlwaysCounted` | kernel/proc.c:222-300 | counts equal descriptors, and a pipe has a reader or writer exactly while a live end exists, in every state of a run if and only if no call of it is a dup() on a full table |
| `Descriptors.FillsUp` | kernel/proc.c:1053-1059 | from every state with sound accounts, dup() calls of one descriptor lead to a full table, and the next one leaks |
| `DescriptorTable.Tables.constructor` | kernel/proc.c:10-50 | process 0 starts with descriptors 0 to 2 and sound accounts |
| `DescriptorTable.BootLeaks` | kernel/proc.c:1053-1059 | from the start of the system, at most 13 dup() calls of process 0 lead to a full table, and the next one leaks |
| `DescriptorTable.Dup2OfSame` | kernel/proc.c:1061-1073 | from the start of the system, dup2(1, 1) returns 1 with descriptor 1 closed, after a count through a null pointer |
| `DescriptorTable.Tables.OfileAlloc` | kernel/proc.c:54-62 | the first unreferenced entry, with one reference |
| `DescriptorTable.Tables.FdAllocFrom` | kernel/proc.c:66-80 | the lowest unused descriptor from the bound on, or EMFILE |
| `DescriptorTable.Tables.Drop` | kernel/proc.c:933-950 | the reference goes, and with the last one the end of the pipe |
| `DescriptorTable.Tables.Open` | kernel/proc.c:907-923 | the end of open() is the specified step |
| `DescriptorTable.Tables.FindPipe` | kernel/proc.c:224-233 | the first pipe with neither reader nor writer |
| `DescriptorTable.Tables.NoEnds` | kernel/proc.c:246-249 | both counts of the pipe are reset |
| `DescriptorTable.Tables.MakeEnds` | kernel/proc.c:235-288 | both ends of the pipe, or every undo of a failure in between |
| `DescriptorTable.Tables.DoPipe` | kernel/proc.c:222-289 | do_pipe() is the specified step, with its error codes |
| `DescriptorTable.Tables.SysClose` | kernel/proc.c:927-952 | close() is the specified step |
| `DescriptorTable.Tables.SysDup` | kernel/proc.c:1053-1059 | dup() is the specified step, leak included |
| `DescriptorTable.Tables.FcntlDupFd` | kernel/proc.c:1496-1503 | F_DUPFD is the specified step |
| `DescriptorTable.Tables.SysDup2` | kernel/proc.c:1062-1073 | dup2() is the specified step, and says when it writes through a null pointer |
| `DescriptorTable.Tables.InheritLoop` | kernel/proc.c:655-660 | the loop copies the whole row and counts each descriptor once more |
| `DescriptorTable.Tables.Inherit` | kernel/proc.c:639-661 | the child shares the descriptors as specified |
| `DescriptorTable.Tables.DisownLoop` | kernel/proc.c:699-705 | the loop clears the row and takes back each count |
| `DescriptorTable.Tables.Disown` | kernel/proc.c:697-711 | a failed spawn leaves every table as before the child inherited |
| `DescriptorTable.Tables.CountAgain` | kernel/proc.c:563-567 | the loop of vfork counts each descriptor once more |
| `DescriptorTable.Tables.Vfork` | kernel/proc.c:554-575 | the copied entry with counted descriptors is the specified sharing, and the child is current |
| `DescriptorTable.Tables.Hand` | kernel/proc.c:740-760 | one replacement of spawn_fd is the specified step |
| `DescriptorTable.Tables.Exit` | kernel/proc.c:386-408 | the close loop of exit is the specified step |
| `Scheduler.AllocFails` | kernel/proc.c:509-520 | no pid is found if and only if all of 1 to 15 are in use |
| `Scheduler.AllocFinds` | kernel/proc.c:509-520 | a free pid within reach of the loop is found |
| `Scheduler.ScheduleKeeps` | kernel/proc.c:825-858 | schedule() keeps: only the current process is running, and nproc counts the processes |
| `Scheduler.VforkKeeps` | kernel/proc.c:533-578 | vfork() keeps it |
| `Scheduler.ExecKeeps` | kernel/exec.c:642-654 | the end of exec() of a vfork child keeps it |
| `Scheduler.ExitKeeps` | kernel/proc.c:410-448 | exit keeps it |
| `Scheduler.WaitKeeps` | kernel/proc.c:462-502 | waitpid() keeps it |
| `Scheduler.StateStepKeeps` | kernel/proc.c:372-502 | every step of the process table keeps it |
| `Scheduler.StepKeeps` | kernel/proc.c:372-502 | and with who waits for whom |
| `Scheduler.AlwaysSound` | kernel/proc.c:825-858 | over every run at most the current process is in the running state |
| `Scheduler.ScheduleCloser` | kernel/proc.c:825-858 | with p ready, schedule() runs p or a process that p is strictly closer to around the table |
| `Scheduler.StepCloser` | kernel/proc.c:825-858 | no step that switches by schedule() alone moves p further away |
| `Scheduler.RunsInTurn` | kernel/proc.c:825-858 | a process that stays ready is passed over by fewer switches than its distance, so it runs within 15 |
| `Scheduler.VforkFreezes` | kernel/proc.c:533-578 | the new child is the only living one of the frozen parent if and only if the parent had none |
| `Scheduler.FrozenStep` | kernel/proc.c:425-436 | a parent frozen for its only child stays frozen in every step but the exit or exec of that child, which makes it current and running |
| `Scheduler.VforkReturnsOwnChild` | kernel/proc.c:533-578 | over every run vfork() by a process other than 0 without other living children resumes only by its own child, whose pid it returns |
| `Scheduler.AnyChildReleases` | kernel/proc.c:425-436 | in general any child that exits or execs resumes a frozen parent, and its own pid is what vfork() then returns |
| `Scheduler.StaleChildReleases` | kernel/proc.c:425-436 | a run from a fresh table in which another child resumes the parent, whose vfork() returns that child, while the vforked one still has to run |
| `SchedulerRuns.OtherChildReturns` | kernel/proc.c:425-436 | the same in a process other than 0: a run from a fresh table in which process 1 spawns a child and vforks another, and gets the pid of the first while the second still has to run |
| `VforkEscape.OwnChildReturned` | kernel/proc.c:372-578 | for every state that calls lead to: in some run after its vfork() a process other than 0 is resumed with another pid than its new child's, if and only if before the call another child of it can get as far as its exit |
| `VforkEscape.RivalWhen` | kernel/proc.c:372-578 | no other child can when there is no living one; one that waits for nothing can |
| `VforkEscape.LooseEscapes` | kernel/proc.c:372-502 | a child that waits for nothing, or for a child that itself gets as far, can be run up to its exit while the parent stays frozen, for every depth of such waiting |
| `VforkRuns.OnlyOwnResumes` | kernel/proc.c:372-578 | when all other children wait for each other or for the frozen parent, over every run only the new child resumes it |
| `VforkRuns.StuckStays` | kernel/proc.c:372-578 | children that wait so stay so |
| `VforkEscape.AlwaysCalm` | kernel/proc.c:372-578 | the states that calls lead to: parents live and come before their children, frozen processes are in no other call |
| `VforkEscape.FreshCalm` | kernel/proc.c:10-50 | a fresh table is one of them |
| `SchedulerRuns.OrphanReturns` | kernel/proc.c:414-436 | why process 0 is different: a run from a fresh table in which an orphan that became its child resumes it, although its new child was its only one |
| `Scheduler.WaitReaps` | kernel/proc.c:462-502 | waitpid() reaps a matching zombie child if and only if there is one, with its status, and fails if and only if there is no child at all, which process 0 never sees |
| `Scheduler.LeftStep` | kernel/proc.c:414-502 | every step keeps: the status a process left that nobody has asked for, and the one of its exit, are the one waitpid() hands out and what is then left |
| `Scheduler.EachStatusOnce` | kernel/proc.c:414-502 | over every run the statuses that waitpid() hands out for a process are those it exited with, in order, each once, of which at most the last is still to come |
| `ProcessStates.StateDiagram` | kernel/proc.c:372-502 | every step leaves the state of a process or changes it in one of the ways of the state diagram, for its reason |
| `ProcessStates.ParentChanges` | kernel/proc.c:414-423 | a process gets another parent only when it is made, or when its parent exits, and then process 0 |
| `ProcessStates.WakesUp` | kernel/proc.c:1462-1490 | a wake-up makes a sleeping process ready, a signal too, and SIGCONT a stopped one; no other process changes |
| `ProcessStates.WaitNames` | kernel/proc.c:474-477 | waitpid() names every child by a pid that is not positive, and one by a pid whose last byte it is |
| `ProcessStates.SpawnMakes` | kernel/proc.c:595-720 | spawn() makes a ready child of the caller in a free entry, and fails if and only if there is none or its program cannot be loaded; then no process changes |
| `ProcessStates.VforkMakes` | kernel/proc.c:533-577 | vfork() makes a running child of the caller and freezes the caller, or fails if and only if no entry is free |
| `ProcessStates.ExitLeaves` | kernel/proc.c:372-423 | exit leaves a zombie with its code, and hands the children to process 0 |
| `ProcessStates.ExitResumes` | kernel/proc.c:425-442 | a frozen parent goes on with the pid of the child, and a sleeping one is awake |
| `Scheduler.MissedWait` | kernel/proc.c:462-502 | a waitpid() step leaves no sleeper with a zombie it waits for |
| `Scheduler.MissedExit` | kernel/proc.c:417-442 | an exit leaves none either, except that process 0 misses a zombie if and only if it sleeps in waitpid(), is not the parent, and inherits a zombie that it waits for |
| `SchedulerRuns.ZombieMissed` | kernel/proc.c:414-442 | a run from a fresh table after which process 0 sleeps in waitpid() beside a zombie that it inherited and waits for |
| `Scheduler.NeverMissed` | kernel/proc.c:372-502 | over every run no process other than 0 sleeps in waitpid() while a child it waits for is a zombie |
| `Scheduler.MissedStep` | kernel/proc.c:372-502 | the same for every step of any process |
| `Scheduler.RootMissesWhen` | kernel/proc.c:372-502 | process 0 does so in no state of a run if and only if no step of the run is an exit by which it misses a zombie |
| `Scheduler.ProcTable.constructor` | kernel/proc.c:10-50 | process 0 runs, all other entries are free |
| `Scheduler.ProcTable.Schedule` | kernel/proc.c:825-858 | the loop picks the first ready process after the current one |
| `Scheduler.ProcTable.AllocPidLoop` | kernel/proc.c:509-520 | the loop returns the pid and the next start of the specification |
| `Scheduler.ProcTable.DoVfork` | kernel/proc.c:533-578 | vfork() up to the return in the child is the specified step |
| `Scheduler.ProcTable.DoSpawn` | kernel/proc.c:627-721 | spawn is the specified step, loaded or not |
| `Scheduler.ProcTable.ExecReturn` | kernel/exec.c:639-654 | the end of exec() is the specified step |
| `Scheduler.ProcTable.Reparent` | kernel/proc.c:417-423 | all children go to process 0 |
| `Scheduler.ProcTable.DoExit` | kernel/proc.c:410-448 | exit is the specified step: the zombie, the orphans, the parent, and the switch |
| `Scheduler.ProcTable.DoWaitpid` | kernel/proc.c:464-501 | one turn of the loop is the specified step |
| `Scheduler.ProcTable.Kill` | kernel/proc.c:1480-1488 | the state changes of a signal sent: stopped processes continue, sleeping ones wake |
| `UserMemory.RoundedCovers` | kernel/mem.c:170 | the rounded request covers the request if and only if rounding does not wrap around |
| `UserMemory.AllocSucceeds` | kernel/mem.c:168-267 | an allocation succeeds if and only if the rounded request is at most the `largest` that umem_stats() reports |
| `UserMemory.OrderedApart` | kernel/mem.c:183-194 | in address order each region ends before the next one starts |
| `UserMemory.GapFits` | kernel/mem.c:196-210 | what fits between two neighbours is free |
| `UserMemory.GapSkipped` | kernel/mem.c:196-210 | what fits somewhere but not in a gap fits behind that gap |
| `UserMemory.PlaceKeeps` | kernel/proc.c:646-647 | a region at an address that was free keeps all regions disjoint |
| `UserMemory.DropKeeps` | kernel/proc.c:410-412 | dropping a region keeps them disjoint |
| `UserMemory.OneRegion` | kernel/proc.c:634-694 | placing and dropping a region changes that of one process only |
| `UserMemory.SbrkInside` | kernel/mem.c:88-116 | a break that sbrk() sets is in the region and below its top 4096 bytes if and only if the region does not end in the first 4096 bytes of memory |
| `UserMemory.SbrkNone` | kernel/mem.c:88-105 | without a region sbrk() fails and changes nothing |
| `UserMemory.SbrkExact` | kernel/mem.c:88-116 | for every increment sbrk() moves a break inside by it if that leaves it inside, and fails otherwise, in every region with less than 2^31 bytes below its stack |
| `UserMemory.SbrkWraps` | kernel/mem.c:88-116 | in a larger one a break at the start goes up by 2^31 when asked to go down by 2^31 |
| `UserMemory.StepKeeps` | kernel/proc.c:631-711 | spawn, exec, exit, vfork, waitpid and sbrk keep the layout, except exactly a request that rounds to nothing when what it records is not free at the start of the pool |
| `UserMemory.NeverOverlap` | kernel/proc.c:631-711 | in every state of a run no two live regions overlap and none leaves the pool, if and only if no request of it is such |
| `UserMemory.GrantedAsked` | kernel/mem.c:168-170 | in a pool below the last four bytes of the address space the other requests are those of at least one byte that do not wrap around when rounded |
| `UserMemory.WrappedRequest` | kernel/mem.c:170 | a request that wraps around asks for no bytes and gets a place although it fits nowhere |
| `UserMemory.FirstFitWhere` | kernel/mem.c:196-210 | the lowest place is the start of the pool or the end of a region |
| `UserMemory.AlignedPlaces` | kernel/proc.c:634-647 | the next region starts aligned if and only if the recorded request is a multiple of four, since the rounded size is not what is recorded |
| `UserMemory.UnalignedNext` | kernel/exec.c:30-39 | in an empty pool, for every two requests there is room for: the second region starts at the start of the pool and the first request, so it is unaligned exactly when that is |
| `UserPool.Insert` | kernel/mem.c:184-194 | one turn of the insertion sort puts one element in its place and keeps the others in order, in both arrays alike |
| `UserPool.Pool.constructor` | kernel/mem.c:151-157 | an empty pool |
| `UserPool.Pool.Collect` | kernel/mem.c:172-181 | the arrays list the live regions, each once |
| `UserPool.Pool.Sorted` | kernel/mem.c:183-194 | the arrays list the live regions in address order |
| `UserPool.Pool.FirstGap` | kernel/mem.c:196-210 | the scan returns the lowest address where the request fits, or 0 when it fits nowhere |
| `UserPool.Pool.UmemAlloc` | kernel/mem.c:168-210 | returns the lowest address where the rounded request fits, or 0 if and only if it fits nowhere |
| `UserPool.Pool.GapStats` | kernel/mem.c:253-267 | gaps and regions make up the pool, and the largest gap is found |
| `UserPool.Pool.UmemStats` | kernel/mem.c:224-267 | free and live bytes make up the pool, and a request fits if and only if it is at most `largest` |
| `UserPool.Pool.SbrkProc` | kernel/mem.c:88-116 | sbrk() works on the own region, or for a vfork child without one on its parent's |
| `UserPool.Pool.Take` | kernel/proc.c:633-647 | one attempt: the lowest place for the rounded request, recorded with the request itself, or nothing; the layout is kept if and only if what is recorded was free |
| `UserPool.Pool.Load` | kernel/proc.c:631-711 | the two attempts are the steps of UserMemory.NeverOverlap; the program has a region exactly as large as it asked for, or there was no place for one of the requests; the layout is kept if and only if what the last attempt recorded was free |
| `UserPool.Pool.Retry` | kernel/proc.c:679-692 | the second attempt, when the region of the first has been given back |
| `Heap.InitialInv` | kernel/mem.c:17-25 | the heap starts as one free block |
| `Heap.EveryByteOnce` | kernel/mem.c:17-52 | every byte of the heap belongs to exactly one block |
| `Heap.NoFreeNeighbours` | kernel/mem.c:54-85 | no free block borders on another one |
| `Heap.AllFree` | kernel/mem.c:54-85 | with nothing in use the heap is one free block of the initial size |
| `Heap.MergeKeeps` | kernel/mem.c:68-84 | merging a block with the next keeps the tiling |
| `Heap.SplitKeeps` | kernel/mem.c:35-41 | splitting a block keeps the tiling |
| `Heap.TotalCovers` | kernel/mem.c:29 | the block size covers request and header if and only if the sum does not wrap around |
| `Heap.FirstFitFirst` | kernel/mem.c:31-50 | all free blocks before the one chosen are too small |
| `Heap.AllocKeeps` | kernel/mem.c:27-52 | kmalloc() keeps the invariant if and only if the size does not wrap around to less than a header before a first free block that is long enough to split; then it returns a block that was free and is as large as the rounded sum, touches no block in use, and fails if and only if no free block is large enough |
| `Heap.AllocChooses` | kernel/mem.c:31-50 | the block is the first one in the list that is long enough, cut to the rounded sum if at least 24 bytes are left |
| `Heap.AllocCovers` | kernel/mem.c:27-52 | in 32-bit addresses the block has room for the request and its header if and only if the size does not wrap around |
| `Heap.WrappedRequest` | kernel/mem.c:27-52 | a heap and a size that wraps around: the call succeeds with a block of no bytes, and the invariant is gone |
| `Heap.InsertAlmost` | kernel/mem.c:60-66 | inserting in address order leaves only the two new borders to join |
| `Heap.CoalesceKeeps` | kernel/mem.c:68-84 | joining at one border keeps tiling and blocks in use |
| `Heap.JoinKeeps` | kernel/mem.c:68-84 | joining with the next and then the previous block restores the invariant |
| `Heap.FreeKeeps` | kernel/mem.c:54-85 | kfree() keeps the invariant and takes exactly that block out of use |
| `Heap.UsedDetermine` | kernel/mem.c:27-85 | the blocks in use determine the whole heap, the free list included; so kmalloc() and kfree() are determined by what they do to the blocks in use |
| `Heap.RunKeeps` | kernel/mem.c:27-85 | the invariant holds in every state of a run if and only if no request of it breaks the heap so; then freeing everything in any order restores the initial heap |
| `Heap.SmallUnbroken` | kernel/mem.c:29 | requests that do not wrap around break nothing |
| `KernelHeap.Allocator.constructor` | kernel/mem.c:17-25 | the linked list holds the one free block |
| `KernelHeap.Allocator.Find` | kernel/mem.c:31-50 | the walk stops at the first block that is large enough |
| `KernelHeap.Allocator.Kmalloc` | kernel/mem.c:27-52 | the linked list and headers after kmalloc() are those of the specified heap; a request that breaks the heap by taking no bytes gets the first free block, which stays in the list as the only one, without bytes |
| `KernelHeap.Allocator.SplitOff` | kernel/mem.c:35-41 | the split replaces the block by its rest in the linked list |
| `KernelHeap.Allocator.Place` | kernel/mem.c:60-63 | the walk stops at the place in address order |
| `KernelHeap.Allocator.JoinNext` | kernel/mem.c:68-72 | the block takes in its next one exactly when they border |
| `KernelHeap.Allocator.Before` | kernel/mem.c:75-79 | the second walk finds the block before |
| `KernelHeap.Allocator.Enlist` | kernel/mem.c:60-66 | the block is linked in at its place |
| `KernelHeap.Allocator.Join` | kernel/mem.c:68-84 | both joins together |
| `KernelHeap.Allocator.Kfree` | kernel/mem.c:54-85 | the linked list and headers after kfree() are those of the specified heap; a null pointer changes nothing |
| `KernelHeap.Allocator.KmemStats` | kernel/mem.c:120-133 | the size of the heap, the bytes in free blocks, and a largest such that some free block has n bytes if and only if n is at most it |
| `KernelHeap.FreeBytesCount` | kernel/mem.c:120-133 | the sum it makes is the number of bytes of the heap that are in free blocks |
| `Relocation.AcceptedInside` | kernel/exec.c:147-151 | an accepted offset has its word inside the image if and only if the sum does not wrap around |
| `Relocation.ContiguousResolved` | kernel/exec.c:128-137 | on a contiguous layout the split resolves a word to value plus load address, as without a split |
| `Relocation.ContiguousSame` | kernel/exec.c:139-222 | both branches of apply_relocations() and apply_relocations_xip() give the same contiguous image, for all offsets, overlapping or not |
| `Relocation.EachOnce` | kernel/exec.c:195-222 | where words do not overlap, each becomes its original value, resolved, once, also across the end of the text |
| `Relocation.Untouched` | kernel/exec.c:195-222 | bytes outside the patched words stay |
| `Relocation.ApplyWrites` | kernel/exec.c:195-222 | the loop patches exactly the selected words, each with its resolved value |
| `Relocation.BuiltByte` | tools/romfix.c:244-281 | what romfix leaves in each byte of a word: of its resolved value if it is due at build time |
| `Relocation.TwoPassByte` | kernel/exec.c:470-501 | what romfix and the loader leave in each byte of a word of the running program |
| `Relocation.OnePassByte` | kernel/exec.c:195-222 | what one pass leaves there; of a word across the end of the text the part in the data stays |
| `Relocation.TwoPassFree` | kernel/exec.c:470-501 | bytes of the program in no word stay in two passes |
| `Relocation.OnePassFree` | kernel/exec.c:195-222 | and in one |
| `Relocation.WordsDecide` | tools/romfix.c:225-281 | the two ways give the same program if and only if they give the same bytes to every word of the table |
| `Relocation.ResolvedSame` | tools/romfix.c:274-277 | a word is resolved alike at build time and at run time if and only if it refers to text or the data is where romfix was told |
| `Relocation.WholeWord` | tools/romfix.c:252-281 | a word inside the text or the data comes out alike if and only if it does not refer to the data, is resolved at run time, or the data is where romfix was told |
| `Relocation.JoinsIs` | tools/romfix.c:252-281 | a word across the end of the text comes out alike if and only if romfix gives its bytes in the text the values of run time and leaves its bytes in the data unchanged |
| `Relocation.TwoPassesCompose` | tools/romfix.c:225-281 | romfix followed by load_binary_xip() gives the program of the one-pass relocation if and only if that holds of every word of the table, for every table without overlapping words |
| `Relocation.FlatApply` | kernel/exec.c:195-222 | with text and data at separate addresses the loop does to the program what it does to one run of bytes |
| `Relocation.SplitFlatly` | kernel/exec.c:470-501 | patching the text and then the data is patching all words in order, overlapping or not |
| `Relocation.SameBaseComposes` | kernel/exec.c:470-501 | with the data where romfix was told, two passes give the program of one pass, also for words that overlap, if none lies across the end of the text |
| `Relocation.PointersFollow` | kernel/exec.c:195-222 | one pass makes each word that referred to byte v of the image the address at which byte v is in the running program, also for v behind its end |
| `Relocation.PointersBuilt` | kernel/exec.c:470-501 | two passes do the same, but for a word resolved at build time that refers to the data, which leads to where romfix was told |
| `Relocation.PointersShift` | kernel/exec.c:139-193 | on a contiguous image every word of the table moves by the load address |
| `Relocation.FlatResults` | kernel/exec.c:470-501 | two passes and one pass over memory give the same program exactly when they do over the program as one run of bytes |
| `Relocation.TurnsCompose` | tools/romfix.c:252-281 | if the data is where romfix was told or each word due at build time refers to text at its turn, patching in two passes is patching all words in order |
| `Relocation.TurnDiffers` | tools/romfix.c:252-281 | the first word due at build time that refers to data at its turn makes them differ, if the data is elsewhere |
| `Relocation.OverlapComposes` | tools/romfix.c:225-281 | for words that overlap, with none across the end of the text: two passes and one pass agree after each relocation of the table if and only if the data is where romfix was told or each word due at build time refers to text when its turn comes |
| `Relocation.EarlyWordDiffers` | tools/romfix.c:225-281 | an image of six bytes with a word that refers to data elsewhere: it becomes 20 in two passes and 10 in one |
| `Relocation.AlignedJoins` | tools/romfix.c:225-281 | a word with two bytes in the text that refers to text composes if the text is at a multiple of 64K |
| `Relocation.StraddlingWord` | kernel/exec.c:470-501 | an image in which a word across the end of the text does not, with the data where romfix was told |
| `Loader.ReadWord` | tools/romfix.c:45-49 | four bytes as a big-endian word |
| `Loader.WriteWord` | tools/romfix.c:51-57 | the four bytes of the word, and no others |
| `Loader.PatchWord` | kernel/exec.c:216-220 | the word is resolved by the segment its value is in |
| `Loader.ApplyRelocations` | kernel/exec.c:155-173 | the loop with a split applies every accepted relocation in order |
| `Loader.ApplyWhole` | kernel/exec.c:143-154 | and the one without |
| `Loader.ApplyRelocationsXip` | kernel/exec.c:195-222 | the loop for text and data at separate addresses applies every accepted relocation in order |
| `Loader.LoadXip` | kernel/exec.c:453-501 | the data is copied to RAM and, with a GOT, its words are relocated there |
| `Loader.LoadLoop` | kernel/exec.c:484-499 | the loop applies the relocations of data words only |
| `Loader.CopyRange` | kernel/exec.c:459-468 | the bytes are copied and nothing else changes |
| `Loader.BuildLoop` | tools/romfix.c:244-281 | the loop of romfix over the table in the ROM, which it does not overwrite, applies the relocations due at build time |
| `Loader.Process` | tools/romfix.c:225-297 | a program found fit is relocated by its table and marked; no other byte of the ROM changes |
| `Loader.ProcessBinary` | tools/romfix.c:165-297 | exactly an unprocessed split program is processed; then its image is relocated, the XIP flag set, and no other byte of the ROM changes |
| `Loader.HeaderIs` | kernel/kernel.h:135-144 | where in the 32 bytes of the header the sizes, the mark of a GOT, the flag and the magic number are |
| `Loader.NotTwice` | tools/romfix.c:198-202 | a program that has been processed is not processed again |
| `Loader.ContiguousBytes` | tools/romfix.c:117-158 | in a contiguous file byte x is x bytes behind the first |
| `Loader.FileRomAddr` | tools/romfix.c:117-146 | the address of the first byte, if and only if the file is not empty and all its blocks are contiguous |
| `Loader.BlocksCover` | tools/romfix.c:117-146 | a file has as many blocks as its bytes need |
| `LineEdit.ReplayConcat` | libc/lineedit.c:302-329 | replaying output in two parts is replaying it at once |
| `LineEdit.ReplayBacks` | libc/lineedit.c:310-312 | backspaces move the cursor and change no cell |
| `LineEdit.ReplayText` | libc/lineedit.c:314-316 | text overwrites cells and moves the cursor |
| `LineEdit.PatchShows` | libc/lineedit.c:339-393 | back, text and back again shows the new line if the text agrees with it |
| `LineEdit.InsertShows` | libc/lineedit.c:444-451 | after an insertion, at the end or inside, the screen shows the line |
| `LineEdit.BackspaceShows` | libc/lineedit.c:453-456 | after a backspace it does, with the last cell blanked |
| `LineEdit.DeleteShows` | libc/lineedit.c:458-463 | after a delete it does |
| `LineEdit.RefreshShows` | libc/lineedit.c:302-329 | after a refresh it shows any new line, whatever was there before |
| `LineEdit.LeftShows` | libc/lineedit.c:465-484 | after moves to the left |
| `LineEdit.RightShows` | libc/lineedit.c:470-491 | after moves to the right, which write what is already there |
| `LineEdit.EditShows` | libc/lineedit.c:439-463 | each key that changes the text leaves a valid editor and a screen that shows its line |
| `LineEdit.MoveShows` | libc/lineedit.c:465-491 | so does each key that moves the cursor |
| `LineEdit.ReplaceShows` | libc/lineedit.c:493-515 | and each that puts another line in its place |
| `LineEdit.KeyShows` | libc/lineedit.c:439-554 | every key leaves a valid editor and a screen that shows its line |
| `LineEdit.ScreenShowsLine` | libc/lineedit.c:439-554 | after every sequence of keys the cells show the line and then blanks, with the cursor in place |
| `LineEdit.FreshShows` | libc/lineedit.c:429-437 | a new line starts so |
| `LineKeys.KeyOnLine` | libc/lineedit.c:69-148 | what each editing key does to the texts before and behind the cursor, of at most 255 characters together; only ^D on an empty line finishes it |
| `LineKeys.OtherKeys` | libc/lineedit.c:493-554 | UP and DOWN go through the history, Enter finishes the line and adds it to the history, cut to 127 characters, unless it is empty |
| `LineKeys.MoveUndone` | libc/lineedit.c:106-120 | a move to the left is undone by one to the right, and the other way round |
| `LineKeys.CharUndone` | libc/lineedit.c:69-104 | a character is undone by a backspace, and by a move to the left and a delete |
| `LineKeys.HomeAndEnd` | libc/lineedit.c:122-136 | Home and End go to the ends of the line wherever the cursor was |
| `LineKeys.TextTyped` | libc/lineedit.c:444-451 | a text typed in comes behind what is before the cursor, as much of it as fits |
| `LineKeys.LineTyped` | libc/lineedit.c:429-554 | a text of at most 255 characters typed on a new line and finished with Enter is the line, and the last entry of the history |
| `LineEdit.UpsShow` | libc/lineedit.c:186-204 | k UPs show the k-th entry back and save the line once |
| `LineEdit.DownsShow` | libc/lineedit.c:206-221 | k DOWNs show the k-th entry on |
| `LineEdit.DownsReach` | libc/lineedit.c:206-221 | the DOWN that reaches the line shows what was saved |
| `LineEdit.UpsThenDowns` | libc/lineedit.c:186-221 | k successful UPs and k DOWNs lead back to the same place, with the same line if and only if that was the line itself or an entry not edited |
| `LineEdit.EditLost` | libc/lineedit.c:186-221 | UP, a character, DOWN and UP on a new line show the entry of the history without the character |
| `LineEdit.UpsStop` | libc/lineedit.c:186-192 | UP succeeds min(16, entries) times |
| `LineEditor.Editor.constructor` | libc/lineedit.c:429-437 | an empty line and an empty history |
| `LineEditor.Editor.ShiftRight` | libc/lineedit.c:69-81 | the loop moves the tail one to the right |
| `LineEditor.Editor.Insert` | libc/lineedit.c:69-81 | the character is in the line at the cursor, or the line was full |
| `LineEditor.Editor.ShiftLeft` | libc/lineedit.c:83-93 | the loop closes the gap |
| `LineEditor.Editor.DeleteBack` | libc/lineedit.c:83-93 | the character before the cursor is gone, or there was none |
| `LineEditor.Editor.DeleteFwd` | libc/lineedit.c:95-104 | the character under the cursor is gone, or there was none |
| `LineEditor.Editor.RefreshOut` | libc/lineedit.c:302-329 | the bytes of a refresh |
| `LineEditor.Editor.OutputInsert` | libc/lineedit.c:339-352 | the bytes after an insertion |
| `LineEditor.Editor.OutputBackspace` | libc/lineedit.c:355-372 | the bytes after a backspace |
| `LineEditor.Editor.OutputDelete` | libc/lineedit.c:375-393 | the bytes after a delete |
| `LineEditor.Editor.HistAdd` | libc/lineedit.c:152-162 | the ring holds the last 16 entries, the new one cut to 127 characters |
| `LineEditor.Editor.HistLoad` | libc/lineedit.c:174-184 | the line is the entry, with the cursor at its end |
| `LineEditor.Editor.HistUp` | libc/lineedit.c:186-204 | an UP is the specified step on ring, browse position and saved line |
| `LineEditor.Editor.HistDown` | libc/lineedit.c:206-221 | a DOWN is the specified step |
| `LineEditor.Editor.Begin` | libc/lineedit.c:429-437 | the state a new line starts with |
| `LineEditor.Editor.OnChar` | libc/lineedit.c:444-451 | the line and the bytes after a character |
| `LineEditor.Editor.OnBackspace` | libc/lineedit.c:453-456 | the line and the bytes after a backspace |
| `LineEditor.Editor.OnDelete` | libc/lineedit.c:458-463 | the line and the bytes after a delete |
| `LineEditor.Editor.OnMove` | libc/lineedit.c:465-499 | the line and the bytes after a move or a kill, whatever the history is |
| `LineEditor.Editor.OnHistory` | libc/lineedit.c:501-515 | the line and the bytes after UP and DOWN |
| `LineEditor.Editor.HandleKey` | libc/lineedit.c:439-554 | the switch of the key loop is the specified step on line, history and output |
| `LineEditor.Editor.Result` | libc/lineedit.c:540-549 | the line with a newline, cut to the buffer of the caller |
| `Nodes.HoldsStays` | apps/dash/nodes.c:218-313 | a tree held in one area of memory stays when nothing in the area changes |
| `Nodes.HoldsUnique` | apps/dash/nodes.c:218-313 | memory holds at most one tree at an address |
| `Nodes.StringUnique` | apps/dash/nodes.c:338-346 | and at most one string |
| `Nodes.TileMore` | apps/dash/nodes.c:226-227 | bumping the pointer adds a piece right behind the last one |
| `Nodes.TileApart` | apps/dash/nodes.c:226-227 | pieces made so do not overlap and stay between the first and the last address |
| `Nodes.NodeRoom` | apps/dash/nodes.c:60-87 | a node has room for its type and its fields, and less than 8 bytes more |
| `Nodes.NodeSizes` | apps/dash/nodes.h:38-144 | the sizes of the structures of all node types |
| `NodeCopy.Arena.CalcSize` | apps/dash/nodes.c:121-201 | both counters grow by the bytes of the nodes and of the strings of the tree |
| `NodeCopy.Arena.CalcFields` | apps/dash/nodes.c:128-200 | the same for the fields of a node |
| `NodeCopy.Arena.SizeNodeList` | apps/dash/nodes.c:205-214 | the same for a list of nodes |
| `NodeCopy.Arena.Bump` | apps/dash/nodes.c:226-227 | the next structure starts where the last one ended |
| `NodeCopy.Arena.StpCpy` | apps/dash/nodes.c:344 | the string with its zero byte is in memory, and its end is returned |
| `NodeCopy.Arena.NodeSaveStr` | apps/dash/nodes.c:338-346 | the string is saved where the last one ended and consumes its length and one |
| `NodeCopy.Arena.CopyNode` | apps/dash/nodes.c:218-313 | consumes exactly the bytes calcsize() counted, writes nowhere else, and memory then holds the tree |
| `NodeCopy.Arena.CopyFields` | apps/dash/nodes.c:228-310 | the same for the fields in the order of the code |
| `NodeCopy.Arena.CopyValue` | apps/dash/nodes.c:228-310 | the same for one field |
| `NodeCopy.Arena.CopyNodeList` | apps/dash/nodes.c:316-334 | the same for a list, linked front to back |
| `NodeCopy.Arena.LinkElement` | apps/dash/nodes.c:325-330 | the new element hangs on the one before it |
| `NodeCopy.Arena.CopyElement` | apps/dash/nodes.c:324-331 | one turn of the list loop |
| `NodeCopy.Arena.CopyFunc` | apps/dash/nodes.c:101-117 | the copy of every parse tree fills the two parts of its block exactly, without overlap, and is the same tree |
| `NodeCopy.ChainedSnoc` | apps/dash/nodes.c:324-331 | hanging an element on the last one extends the list by one tree |
| `NodeCopy.ChainedHolds` | apps/dash/nodes.c:332-333 | a list built so, closed with a null, is the list of the trees |
| `Signals.BuiltSaves` | kernel/proc.c:1162-1185 | the frame on the user stack saves the kernel frame whole, holds return address, signal and trampoline, and touches nothing else |
| `Signals.StartedIs` | kernel/proc.c:1162-1198 | in bytes: the stack pointer goes down by 84 or 85 to an even address, where the return address, the signal, the trampoline and the 70 bytes of the kernel frame are; of that only the stack pointer and the program counter are new |
| `Signals.DeliverKeeps` | kernel/proc.c:1161-1198 | starting a handler leaves every outer saved frame intact |
| `Signals.StepKeeps` | kernel/proc.c:1118-1223 | every step of a process whose handlers stay below their saved frames keeps all saved frames |
| `Signals.RunKeeps` | kernel/proc.c:1118-1223 | over every run the handlers below the current depth are the same |
| `Signals.HandlerReturns` | kernel/proc.c:1213-1223 | at any depth of nesting sigreturn restores exactly the kernel frame there was when the handler was started, and leaves the outer handlers |
| `Signals.ScanActs` | kernel/proc.c:1123-1199 | by signal numbers and handlers: the process ends by signal k with status 128 + k, or starts the handler of k, if and only if k is the lowest pending signal that ends the process or is caught, and does so; those below it are used up, each that stops the process has stopped it once, those above stay, and a started handler is reset |
| `Signals.ScanDelivers` | kernel/proc.c:1123-1199 | the same from any signal on, for every state of pending signals and handlers |
| `Signals.PassedOver` | kernel/proc.c:1123-1160 | a signal that does not act changes nothing else, and counts if it stops the process |
| `Signals.Process.constructor` | kernel/proc.c:650-652 | nothing is pending and all handlers are default |
| `Signals.Process.ReadUsp` | kernel/proc.c:1168 | the first word of the kernel frame |
| `Signals.Process.StartHandler` | kernel/proc.c:1161-1198 | memory and kernel frame after a handler is started |
| `Signals.Process.Deliver` | kernel/proc.c:1118-1200 | sig_deliver() does what the scan says, and touches memory only for a handler |
| `Signals.Process.ScanLoop` | kernel/proc.c:1123-1199 | the loop is the scan |
| `Signals.Process.SigReturn` | kernel/proc.c:1213-1223 | the kernel frame is the one saved 12 bytes into the signal frame |
| `Signals.BuildFrame` | kernel/proc.c:1168-1185 | the stores of the signal frame |
| `Signals.BuildHead` | kernel/proc.c:1172-1182 | the stores in front of the saved frame |
| `Signals.CopyIn` | kernel/proc.c:1184-1185 | the bytes are copied and nothing else changes |

## Left out

File system
- Volume: the byte layout of the superblock and of inode records, device numbers, and the copy of an inode record in a buffer; records are values.
- MiniFs.FileSystem.BmapIndirect: reads and writes the indirect block by number; the buffer the code keeps across `balloc` is the subject of KernelCache.RecordedWhen.
- MiniFs.FileSystem.FreeEntries: reads the indirect block once, by value; the buffer the code keeps across `bfree` is the subject of FreeLoop.FreesAllWhen.
- MiniFs.FileSystem.Iget: reference counts are naturals, not 8 bits wide.
- MiniFs.FileSystem.Write: does not say what the bytes of a new block beside the data are; they are what the block held before.
- Directories, paths, `fs_rename`, `fs_mkdir` and `fs_rmdir`; names enter only as the link count.
- The check that a file system is mounted at all.

Buffer cache
- FreeLoop.FreesAllWhen: an indirect block that lists itself is left out; the disk is a map, so block numbers beyond the volume can be read and written. The words of the superblock beside its free list are a parameter.
- KernelCache.EntryRecorded: the new superblock is a parameter, and so is the number of the block; the disk is the same map.
- BufferCache.Step: a change of a buffer and the dirty flag are one step, as the callers make them.

Arithmetic
- ArithYacc.Evaluator.Yylex: the lexer is not modelled; tokens are a sequence.
- ArithYacc.Evaluator.Arith: operators wrap around in 64 bits and shift counts are taken modulo 64, where C leaves both open; variables are a map to numbers and unset ones are 0, so the errors of variable lookup do not occur; all errors of syntax are one.

Matchers
- Glob.Pmatch: patterns with bracket expressions and character classes.
- Regex.RegexT.Regexec: texts and patterns are zero-terminated strings of characters up to 255; null arguments are not modelled.

Printing and reading numbers
- Sprintf.SnprintfSigned: one conversion and nothing around it; the other conversions and the parsing of the format are left out.
- Strtol.Strtoull: the value for bases above 2^16, where Decimal.ExactBases says that the steps are not exact; the end pointer is always asked for.
- Strtol.Strtoll: the same.
- Numerals.ReadInBase: numbers of 64 bits; longer digits wrap around as Strtol.Digits says.

Pipes
- Pipe.Step: a step of a process ends at its next `schedule()`; what other processes do in between are the other steps. A wake-up at a sleep that is not in a pipe is a step that changes the state of a process outside the pipe calls.
- Pipe.PipeDevice.PipeRead: transfers of more than the length of the buffer passed do not occur.

Descriptors
- Descriptors.AlwaysCounted: counts are integers; Descriptors.CounterFits says when 8 bits hold them.
- DescriptorTable.Tables.Open: the search for the file and the release of inodes and devices; open flags that carry the two pipe bits.
- Close-on-exec in `do_exec`, where a pipe end is passed to `fs_iput`.

Scheduler
- Scheduler.Step: a context switch is a change of the current process; kernel stacks, their canary and `swtch` are left out, and so are the calls of process 0 that run a program synchronously.
- VforkEscape.OwnChildReturned: the caller is not process 0, whose children come from every process that exits; signals that end a process are exits, and a program that does not wait for a child can always exit; so a process that is blocked for good elsewhere, such as the reader of an empty pipe whose only writer it is itself, counts as able to exit.
- Scheduler.ProcTable.DoSpawn: the loading of the program is a parameter that says whether it worked.

Memory
- UserPool.Pool.Load: the need is a parameter, so `exec_mem_need` and the header checks are left out, and so is the first break.
- UserMemory.SbrkExact: regions with less than 2^31 bytes below their stack; UserMemory.SbrkWraps is for the others.
- KernelHeap.Allocator.Kmalloc: a request that breaks the heap by taking four bytes. The size word of the rest then lies on the link word of the block handed out, so the rest is linked to its own size and has no bytes in the list of the code, where Heap.AllocStep gives it its size. What calls after a broken heap do is left out.
- KernelHeap.Allocator.constructor: heaps that hold a header and end at least 24 bytes before 2^32, so that no comparison of sizes wraps around.
- KernelHeap.Allocator.Kfree: pointers that `kmalloc` returned and that are in use, as the code expects.

Relocation
- Relocation.TwoPassesCompose: offsets that do not wrap around and words that do not overlap; Relocation.OverlapComposes is for words that do. The ROM starts at address 0, so an offset into it is an address.
- Relocation.PointersFollow: words that do not overlap, and none across the end of the text.
- Relocation.OverlapComposes: no word across the end of the text, and agreement after every relocation of the table; whether two programs that differed in between can end up the same is left open.
- Loader.ProcessBinary: a file whose image and table lie inside the ROM, which the file system guarantees; messages are left out.
- Loader.LoadXip: reads of the program succeed, and the table of offsets is a sequence; clearing the BSS, where the code keeps the table, and setting up the stack are left out.
- Loader.FileRomAddr: the block numbers of the inode are parameters.
- `load_binary` beyond its relocation, and the ELF side of the tool chain.

Line editor
- LineEditor.Editor.HandleKey: keys are decoded already; terminal settings and reading are left out.
- LineEdit.ScreenShowsLine: a terminal line that does not wrap, without a prompt; output is a sequence, without the fixed size of the temporary buffers.

Parse trees
- NodeCopy.Arena.CopyFunc: `expfname` of redirections is neither copied by the code nor compared; the memory for the block is given, and the reference count of the function is left out.

Signals
- Signals.Process.Deliver: the stop of a process is counted, not carried out; signals that arrive while it is stopped are not seen by the rest of the same scan.
- Signals.HandlerReturns: handlers that keep their stack pointer at or below their saved frame and write only below it.

Elsewhere
- Hardware, assembly and the emulator, device drivers, the graphics and terminal libraries, the rest of dash (jobs, redirection, prompts), and the small utilities: input and output, or easy members.
