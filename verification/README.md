# A verified model of an xv6 kernel variant

This project models the parts of the kernel and its user programs where correctness depends on more
than one function: the crash-safe storage stack, the file layer, the lock-free stack of pending
signals, the two memory allocators, the rings with wrapping counters, and the shell's parser and
grep's matcher. It proves what they are for: a crash leaves each operation done or not done, no block
belongs to two files, no page has two roles, nothing sent is lost.

`dafny verify dfyconfig.toml` checks all of it (Dafny 4.11).

## How to read it

Where the source changes things in place, the model is a class with the same operations and loops;
its ghost fields hold what the source leaves implicit (which block is for what, which buffer was
released when), and `Valid()` ties them to the real ones. Concurrent code is a state machine: a state,
an `Enabled` and a `Next` for every section that runs under a lock or, for the signal stack, for every
single load, store and compare-and-swap; a run is any sequence of enabled steps. A panic of the source
is a result of its own (`Panic`, `NoBlocks`, `Remap`, `Misrequested`, `OutOfInodes`, ...), not a
precondition. Results that come from the outside (the answer of sbrk, a signal to the process) are
parameters.

| files | part |
|---|---|
| Common | constants, 32-bit numbers and C strings that several parts share |
| LogFormat, Log | the on-disk log, commit and recovery, as sequential code |
| Storage, StorageProof, StorageSpace, LogOverflow, StorageProgress | buffer cache, log and operations interleaved; crashes anywhere; space in the log; what can get done |
| BufferList, Bcache | the buffer cache's list, recycling and release order |
| SignalStack, SignalStackProof, SignalStackTheorems, SignalPayload, SignalRuns | the pending-signal stack |
| Pids | process numbers |
| FsLayout, FsState, FsAlloc, FsBytes, FsLogBound, FsWrite, FsTrunc, Fs, File | blocks, inodes, file contents, filewrite |
| Directory, DirFile, Paths, Inodes, Names | directories as maps over file contents, inode references, path walking through directory files |
| HeapList, HeapSteps, Heap | malloc and free |
| Pages, AddressSpace, VmSteps, VmLoad, VmCopy, Vm, VmTheorems | physical pages and page tables |
| Rings | pipes and console input |
| ShellLex, ShellParse, ShellWords, ShellGrammar, ShellDerive, ShellPrint | the shell's parser, the grammar it implements, printing and parsing again |
| Regex | grep's matcher |

## What the code does not promise

Each of these is stated with the exact condition under which the code does meet the property.

- Crash safety and reads of the latest blocks hold in every run in which each sector that log_write
  records has its place (`StorageProof.CrashSafety`, `ReadsAreLatest`). log_write makes its check
  without the lock, so operations that all pass it can record a sector without a place, with no panic.
  For operations of at most b log_write calls, or of at most b different blocks, some run does so
  exactly when b > 0 and the region has between 2 and min(10 + 2b, LOGSIZE) sectors
  (`LogOverflow.OverrunCondition`). With more than LOGSIZE sectors none does, whatever the operations
  do (`StorageSpace.LargeLogFits`).
- log_write's panic is reached in some run exactly when b > 0 and min(LOGSIZE, size - 1) is below
  10 + 2b, counting calls, or below 11 + 2b, counting different blocks: its check comes before it
  finds that a block is already logged (`LogOverflow.PanicCondition`). mkfs makes the region
  LOGSIZE = 30 sectors, so on its image both are out of reach for nine blocks and within reach for the
  ten that begin_op reserves, and for any larger number (`ImageBudget`).
- NBUF is no larger than LOGSIZE, so a commit can find every buffer pinned, where bget panics: with nobody
  else holding a buffer, exactly when operations may log MAXOPBLOCKS blocks each and the region has more
  than LOGSIZE sectors (`LogOverflow.StarveCondition`; for buffers that others hold,
  `StorageSpace.BgetPanics`). A running commit can still come to its end exactly while that is not so
  (`StorageProgress.CommitCanEnd`).
- mkfs leaves the bits of the log region clear, so on its image balloc hands out a block of the log,
  exactly when every bit below the region is set and one in it is clear (`Fs.Fs.Balloc`).
- A piece of filewrite logs exactly the blocks it spans, the bitmap block if its last block is new,
  the indirect block if that is listed there, and the inode's block if the file grows, where one block
  holds the bitmap (`FsLogBound.CountIs`). So filewrite keeps to the blocks that begin_op reserves
  exactly when it is one piece below the largest size and that number is at most MAXOPBLOCKS
  (`File.WriteBudget`); appending at a block boundary, up to eight blocks, or seven in the indirect
  part (`AppendBudget`). No write of a largest piece does.
- A pending signal can be delivered with the sender and value of another one, because fix_tf releases
  the frame before it reads it (`SignalRuns.EarlyReleaseMixesMessages`). Each field is read right
  exactly when the frame is unused, or its next sender has not got to that field or stores the same, or
  it is back on the list with an equal field (`SignalPayload.PayloadStable`, `DeliveredRight`).
- A signal popped while the handler is the default one is dropped and its frame never released: the
  frames lost are exactly the signals dropped, and some push can still succeed exactly while fewer than
  all frames are lost (`SignalRuns.LeaksAreDrops`, `LeaksExhaust`, `LeaksHappen`). A push that runs
  alone succeeds exactly when some frame is free (`PushAlone`).
- allocuvm reports success with the last page missing exactly when one page too few is free and the
  last page is the one that needs a new table. It loses a page exactly when the last free page went to
  a user page whose table was missing (`VmLoad.AllocOutcome`, the contract of `Vm.Kernel.Allocuvm`).
- setupkvm fails exactly when fewer than 65 pages are free, and then loses all of them. copyuvm fails
  exactly when fewer are free than it needs up to the first missing page; beyond the 65 it loses one
  page exactly when the rest is 1 modulo 1025, and none otherwise (`Vm.Kernel.Setupkvm`, `Copyuvm`).
- deallocuvm skips present pages exactly when its starting page has no table, does not begin one, and
  the first table behind it has a present page below the starting offset
  (`VmTheorems.ScanExactness`, `SkipLeavesPages`). Spaces contiguous from 0 are safe.
- namex can free inodes on its way: exactly those that it locks and leaves for another one, or leaves
  because it fails there, that have no link and to which nobody else has a reference
  (`Names.Walked`, the contract of `Names.Namex`); none where directories name only inodes with links.
- malloc's unit count holds the request exactly up to 2^32 - 8 bytes, and sbrk is asked for a positive
  number of bytes exactly up to 2^31 - 16 (`Heap.UnitsCover`, `Heap.RequestFits`).
- dirlink of an inode number that is 0 modulo 2^16 adds nothing (`DirFile.Dirlink`).

## Model

| member | source | states |
|---|---|---|
| LogFormat.CommitIsAtomic | log.c:189-199 | after a crash between any two sector writes of commit, recovery yields the old home blocks or the new ones, and the new ones exactly when the first header write reached the disk |
| LogFormat.RecoveryRestarts | log.c:114-121 | recovery from any disk that an interrupted recovery leaves ends with the whole disk that uninterrupted recovery makes |
| LogFormat.CrashesDuringRecovery | log.c:114-121 | any number of crashes inside recovery ends with that same disk |
| LogFormat.InstallsImage | log.c:68-81 | installing a log that holds an image makes the home blocks those of the image |
| LogFormat.InstallForgets | log.c:68-81 | installing again over a partly installed disk gives the fully installed one |
| LogFormat.HeaderSectorsOfWritten | log.c:83-112 | the header read back is the header written |
| Log.Log.LogWrite | log.c:210-230 | panics exactly when the log is full or no operation is outstanding; otherwise the sector is listed once and the block pinned |
| Log.Log.WriteHead | log.c:100-112 | one sector write that turns the header into the list of logged sectors |
| Log.Log.ReadHead | log.c:84-95 | whatever the header block holds, the in-memory list becomes what it lists, unless the count runs past the array |
| Log.CopiedIsInstalled | log.c:68-81 | copying any list of sectors is installing, for a list that the log can hold |
| Log.Log.WriteLog | log.c:174-187 | the log blocks become the cached versions, one sector write after the other as listed |
| Log.Log.InstallTrans | log.c:68-81 | every listed sector receives its log block, with the disks passed through; stuck exactly at a sector off the disk or one that is its own log block |
| Log.Log.Commit | log.c:189-199 | the disks passed through are exactly CommitTrace, and at the end the home blocks are the cached view and the header is empty |
| Log.Log.RecoverFromLog | log.c:114-121 | from any header block: which of the ends it comes to, and the disk and the writes of a clean end; for a well-formed header Recovered and exactly RecoveryTrace |
| StorageProof.StepKeepsInv | log.c:124-230 | every step of any thread, crashes with interrupted recovery included, keeps the invariant of cache, log, operations and disk, if a recorded sector has its place |
| StorageProof.CrashSafety | log.c:124-230 | in every interleaving in which recorded sectors have their place, however many log_write calls operations make, after a crash at any point and any number of crashes in recovery, the home blocks are those of the committed operations, each operation wholly there or wholly absent, and all of them once nothing is under way |
| StorageProof.ReadsAreLatest | bio.c:58-140 | in every such interleaving a held valid buffer of a home block shows the latest version, across eviction, pinning, commit and installation |
| StorageSpace.NoPanic | log.c:210-230 | operations that keep to a number of calls or of different blocks, with a log of that capacity, never meet log_write's panics, although the check is made without the lock, nor end_op's panic on log.committing |
| StorageSpace.RunFits | log.c:124-140 | in a region larger than the operations can log together every recorded sector has its place |
| StorageSpace.LargeLogFits | log.c:210-230 | in a region of more than LOGSIZE sectors that holds for every run, because the cache has no more buffers to pin than the log has places |
| StorageSpace.BgetPanics | bio.c:82-95 | bget finds no buffer for a sector that is not cached if and only if the sectors logged and not yet installed and the other buffers held are as many as the buffers |
| StorageSpace.CommitFinds | log.c:174-199 | with no other buffer held, the commit finds a buffer for the log if and only if not all are pinned |
| StorageProgress.CommitCanEnd | log.c:140-199 | in every run in which recorded sectors have their place, a commit that is running can come to its end without a crash if and only if fewer sectors are logged and not installed than there are buffers |
| StorageProgress.CommitFinishes | log.c:140-199 | from every such state, whatever phase the commit is in and whoever holds buffers, some steps lead to a state with the commit ended, the log empty, all of the history durable and begin_op enabled |
| StorageProgress.StuckForever | bio.c:82-95 | with every buffer pinned no step but a crash ends the commit, in any interleaving |
| StorageProgress.Fetch | bio.c:58-110 | with nobody holding a buffer and one not pinned, whoever may read a sector gets a valid buffer of it, and no other buffer changes |
| StorageProgress.OperationRuns | log.c:124-230 | with nothing under way, an operation of any updates, up to what header, region and cache bound, runs to the end of its commit: its begin, its updates in order and its end are the new history, and durable |
| StorageProgress.SerialRun | log.c:124-230 | from boot any list of such operations runs one after the other, each committed before the next begins, and the home blocks on disk are what the updates in order make of them |
| StorageProof.OperationsAreWhole | log.c:124-171 | no operation is split over two commits |
| LogOverflow.PanicCondition | log.c:215-218 | for every bound on calls or on different blocks: some run within it reaches the panic if and only if something is logged and the log's capacity is below the bound's reach |
| LogOverflow.OverrunCondition | log.c:215-229 | for every such bound: some run records a sector without a place if and only if something is logged and the region has 2 to LOGSIZE sectors and no more than the operations can log together |
| LogOverflow.SmallLogPanics | log.c:124-140 | a run into the panic, constructed for every bound and every log that small |
| LogOverflow.SmallLogOverruns | log.c:215-229 | a run in which two operations pass the check together and the log gets as many sectors as the region has, header included |
| LogOverflow.StarveCondition | log.c:174-187 | operations within a bound can leave the commit without a buffer, with every sector in its place and nobody else holding one, if and only if the bound is at least MAXOPBLOCKS and the region has more than LOGSIZE sectors |
| LogOverflow.AllPinned | log.c:174-187 | such a run, constructed |
| LogOverflow.ImageBudget | mkfs.c:17 | with the region mkfs makes, panic and overrun are out of reach exactly for bounds below MAXOPBLOCKS |
| BufferList.MoveKeeps | bio.c:129-134 | brelse's six assignments keep the list a doubly linked circle of all buffers and move the released one to the front |
| Bcache.Cache.constructor | bio.c:38-56 | the first list: every buffer once, none holding a sector |
| Bcache.Cache.Lookup | bio.c:68-80 | finds the buffer of a sector exactly when there is one |
| Bcache.Cache.Victim | bio.c:82-93 | the clean, free buffer released longest ago, if there is any |
| Bcache.Cache.Bget | bio.c:61-95 | hit, wait, recycle or panic as the state says; no sector is ever in two buffers; the list is untouched |
| Bcache.Cache.Update | log.c:228 | whatever the holder does to its buffer's flags, it stays held and no buffer becomes or stops being one that may be recycled |
| Bcache.Cache.Brelse | bio.c:121-140 | the buffer becomes free and the most recently released; the others keep their order |
| SignalStackProof.StepKeepsInv | proc.c:665-717 | every load, store and compare-and-swap of any sender or the consumer keeps the invariant: each frame has one role |
| SignalStackTheorems.Linearizable | proc.c:665-717 | in every interleaving the operations are those of a stack, and the list from the head is without repetition and holds exactly the messages pushed and not popped |
| SignalStackTheorems.HeadMovesOnce | proc.c:684-707 | a step that moves the head is exactly one push or one pop |
| SignalStackTheorems.ExactlyOnce | proc.c:580-602 | the messages for which push returned 1 are those popped plus those pending, each as often as it was sent |
| SignalPayload.PayloadStable | proc.c:732-774 | in every run a popped frame holds its message until it is released; the value and the sender read later are the popped ones if and only if the frame is unused, its next sender has not stored that field or stores an equal one, or it is on the list again with an equal field |
| SignalPayload.DeliveredRight | proc.c:755-774 | the whole delivery is right if and only if the value was kept until it was read and the sender until it was read, with any steps of senders in between |
| SignalRuns.EarlyReleaseMixesMessages | proc.c:755-774 | a run in which a message is delivered with another's sender and value, for any two messages |
| SignalRuns.LeaksAreDrops | proc.c:734-735 | in every run the frames lost for good are as many as the signals dropped |
| SignalRuns.PushAlone | proc.c:666-691 | a push that runs alone from any reachable state returns 1 if and only if some frame is free |
| SignalRuns.PushAloneEnds | proc.c:666-691 | and it does return |
| SignalRuns.LeaksExhaust | proc.c:734-735 | after any run some continuation accepts another message if and only if fewer than all frames were dropped |
| SignalRuns.LeaksHappen | proc.c:734-735 | a run from the start that drops them all, constructed |
| Pids.StepKeepsInv | proc.c:29-39 | every load and compare-and-swap of any caller of allocpid keeps the numbers in step with the swaps made |
| Pids.PidsRepeatOnlyByWrapping | proc.c:29-39 | in every interleaving two callers get the same number exactly when a multiple of 2^32 were handed out between them |
| Pids.SwapSucceeds | proc.c:29-39 | whatever the others do between a caller's load and its swap, it returns with the next number exactly when a multiple of 2^32 of them returned meanwhile, in particular when none did, and otherwise tries again |
| FsState.NewFsOk | mkfs.c:233-247 | a file system without files meets the invariant once the log region's bits are set too |
| Fs.Fs.Balloc | fs.c:53-77 | the first free block, marked and zeroed, or none when all bits are set; the blocks it logs; a block of the log region exactly when every bit below that is set and one in it is clear |
| Fs.Fs.Bfree | fs.c:80-96 | clears the bit, and panics exactly when it is clear already |
| Fs.Fs.Bmap | fs.c:359-387 | the block of the file's index, allocated zeroed and unowned if it had none, with every other block's owner and contents kept; a panic only past MAXFILE or when fewer blocks are free than it takes |
| Fs.Fs.BmapIndirect | fs.c:370-384 | the same through the indirect block, allocating that first if needed |
| Fs.Fs.Iupdate | fs.c:202-218 | an inode that was the only one to differ from its on-disk copy no longer does, and no other copy is touched |
| Fs.Fs.SetInode | sysfile.c:219-226 | a new type and link count reach the disk and change no file's contents and no block's owner |
| Fs.Fs.Writei | fs.c:465-495 | the file becomes the old one with src in place from off on, extended at the end; every other file is unchanged; the on-disk inodes agree and no file has blocks past its end; errors exactly as checked; a panic exactly when fewer blocks are free than it takes, and only if the file is to grow; exactly which blocks are logged, and how many |
| Fs.Fs.Readi | fs.c:437-461 | the slice asked for, clipped to the size; nothing changes, because no block is missing |
| Fs.Fs.Itrunc | fs.c:394-422 | the file becomes empty and exactly its own blocks become free; every other file and owner stays |
| FsTrunc.UsedBlock | fs.c:80-96 | freeing a block in use keeps bitmap and ownership in step |
| FsAlloc.AttachDirect | fs.c:365-369 | giving a free block to a direct slot keeps the file system invariant |
| FsAlloc.AttachEntry | fs.c:376-383 | giving a free block to an indirect slot keeps it |
| FsAlloc.AttachIndex | fs.c:374-375 | giving a free block as indirect block keeps it |
| FsBytes.RoundBytes | fs.c:482-488 | one round of writei changes exactly the bytes it covers, in this file and no other |
| FsLogBound.NextLogged | fs.c:482-488 | what one round of writei adds to the blocks logged |
| FsLogBound.NewSplit | fs.c:482-488 | a write in two parts takes as many free blocks as the whole |
| FsLogBound.MissingIs | fs.c:482-488 | the data blocks that a write takes are those from the end of the file on |
| FsWrite.RunsOut | fs.c:482-488 | a round that finds no block means too few for the whole write, and that the file was to grow |
| FsLogBound.TouchedSize | fs.c:482-493 | the exact number of blocks that a writei logs, for any bitmap layout |
| FsLogBound.TouchedBounds | fs.c:482-493 | at least the blocks spanned, at most twice those and three more |
| FsLogBound.CountIs | fs.c:482-493 | with one bitmap block the offset, the length and the file's size decide that number |
| FsLogBound.PieceFits | file.c:126-132 | a piece of the largest size logs at most LOGSIZE blocks, 17 with one bitmap block |
| FsLogBound.PieceBudget | file.c:126-139 | no piece of more than ten blocks keeps to MAXOPBLOCKS, every piece of at most six does |
| FsLogBound.AppendBudget | file.c:126-139 | appending at a block boundary keeps to MAXOPBLOCKS if and only if it is at most eight blocks, or seven in the indirect part |
| File.WriteBudget | file.c:126-139 | the pieces of a write all keep to MAXOPBLOCKS if and only if it is one piece below the largest and its count does |
| File.SpliceTwice | file.c:134-151 | two adjacent writes are one |
| File.OpenFile.WritePiece | file.c:139-144 | one transaction: one writei, and the offset moved by what it wrote; a panic exactly when fewer blocks are free than it takes |
| File.OpenFile.FileWrite | file.c:116-153 | the pieces compose to one contiguous write of exactly the accepted bytes; result, offset and other files as promised; a panic exactly when fewer blocks are free than the accepted bytes take; the blocks that each transaction logs, exactly for one bitmap block and at most LOGSIZE for any |
| Directory.FieldRoundTrip | fs.c:556 | a name stored and read back is its first DIRSIZ characters |
| Directory.Namecmp | fs.c:500-504 | equal exactly when the first DIRSIZ characters are |
| Directory.CopyName | fs.c:556 | the name field padded with NUL |
| Directory.AddEntry | fs.c:549-558 | an entry for an absent name keeps names unique and adds just that pair to the map |
| Directory.RemoveEntry | sysfile.c:216-218 | zeroing an entry removes just its name from the map |
| DirFile.DecodeEncode | fs.c:556-558 | an entry written as 16 bytes is read back as it was |
| DirFile.EntriesSplice | fs.c:558-559 | writing 16 bytes at an entry's offset, or at the end, is an update of the entries |
| DirFile.ReadEntry | fs.c:517-519 | reading 16 bytes through readi yields the entry at that offset |
| DirFile.FreeSlot | fs.c:549-554 | the first entry not in use, or the end |
| DirFile.WriteEntry | fs.c:558-559 | writing through writei updates that entry and no other file; it fails exactly when it is to extend a directory of the largest size or on a disk with too few free blocks |
| DirFile.Dirlookup | fs.c:508-532 | the inode number the map has under the name, and the place of its entry; nothing when the map has none |
| DirFile.Dirlink | fs.c:535-562 | adds the name only if absent, with the number cut to 16 bits; names stay unique and every other file is unchanged; a panic exactly when every entry is in use and the directory cannot be extended |
| DirFile.Isdirempty | sysfile.c:167-179 | true exactly when no entry after the first two is in use |
| DirFile.EmptyMeans | sysfile.c:165-179 | which is to have no names but "." and ".." where those come first |
| DirFile.Unlink | sysfile.c:201-227 | takes just that name out of the map and one link from its inode, and one from the directory if it was a directory; refuses ".", "..", absent names and directories that are not empty, each exactly then; its write never fails; every other file and inode is unchanged |
| Paths.ComponentsJoin | fs.c:564-602 | for all a and b, the components of a/b are those of a and then those of b |
| Paths.ComponentsOfWord | fs.c:564-602 | a name without slashes is its own one component, cut to DIRSIZ, and the empty path has none; with ComponentsJoin this decides the components of every path |
| Paths.Skipelem | fs.c:579-602 | the first of the components that those two laws decide, and a rest that has exactly the others and is empty exactly when there are none; no component exactly when the path has none |
| Paths.ResolveStep | fs.c:618-635 | following the first name and then the rest is following them all |
| Inodes.Icache.Iget | fs.c:223-254 | one more reference to that inode and no other, in the one slot it has or in a recycled one that is not read in; a panic only when every slot is in use |
| Inodes.Icache.Idup | fs.c:258-265 | one more reference |
| Inodes.Icache.Ilock | fs.c:269-300 | the inode is read in; a panic exactly when that finds no type |
| Inodes.Icache.Iput | fs.c:320-339 | one reference less; if it was the last, the inode has been read in and has no links, exactly its blocks are given back and its type is 0, and no other file changes; otherwise no file changes |
| Paths.LinkedBehind | fs.c:618-635 | where directories name only inodes with links, everything a walk leaves behind but its start has one |
| Names.Advance | fs.c:618-635 | one turn of the loop through a directory file: on to the child, the early stop, a failure or a panic, with references and freed inodes accounted for |
| Names.Namex | fs.c:611-641 | over directory files: the inode that following the components (as ComponentsJoin and ComponentsOfWord decide them) reaches, or the directory before the last; on every return the reference counts differ by the one returned reference; exactly the inodes left behind without link and other reference are freed, and all other files are unchanged |
| HeapSteps.FreeKeeps | umalloc.c:33-43 | putting a block back, joined to neighbours it touches, keeps the list one circle in address order, coalesced, with live and free blocks partitioning the memory |
| HeapSteps.SplitKeeps | umalloc.c:79-81 | cutting a block's tail off keeps all that |
| HeapSteps.TakeKeeps | umalloc.c:76-77 | unlinking a block whole keeps all that |
| HeapSteps.GrowKeeps | umalloc.c:54-58 | a new region joins as a block of its own |
| Heap.UnitsCover | umalloc.c:69 | the units computed hold the bytes asked for exactly when the request is at most 2^32 - 8, and one unit less would not |
| Heap.RequestFits | umalloc.c:52-54 | sbrk is asked for a positive amount, the right one, exactly when the request is at most 2^31 - 16 |
| Heap.LiveBlocksApart | umalloc.c:63-90 | blocks in use overlap no other block and lie in memory obtained |
| Heap.UnitsConserved | umalloc.c:24-90 | free units plus live units are the units obtained from sbrk |
| Heap.Heap.FindPlace | umalloc.c:30-32 | the circular scan ends, at the last free block below the one freed |
| Heap.Heap.Free | umalloc.c:24-44 | the block is no longer live and lies inside a free block; other live blocks and the memory owned are unchanged |
| Heap.Heap.Morecore | umalloc.c:46-61 | null exactly when a positive amount is asked for and sbrk refuses; otherwise the region sbrk answers, of at least CHUNK units and those asked for, is all that is added and is freed, and the roving pointer or its successor has room |
| Heap.Heap.Search | umalloc.c:74-89 | the loop ends, asking for memory at most once; with room it takes the end of the first block large enough after the roving pointer; without, null exactly when sbrk is asked and refuses, and a block of the units asked for when it grants |
| Heap.Heap.Malloc | umalloc.c:63-90 | a fresh block of exactly the units computed, or nothing changed; existing room is always used; otherwise sbrk's answer decides: null exactly when it refuses a positive request, and one region added, the block taken, when it grants one |
| Pages.TakePage | kalloc.c:82-95 | taking the first free page keeps every page in one role |
| Pages.GivePage | kalloc.c:59-77 | freeing a held page keeps it |
| Pages.NewTable | vm.c:54-62 | linking in a fresh page table keeps it |
| Pages.MapFrame | vm.c:82 | filling an empty user entry makes its page that entry's frame |
| Pages.UnmapFrame | vm.c:264-271 | freeing a frame and clearing its entry keeps every page in one role |
| Pages.Dissolve | vm.c:285-291 | a directory without frames can be taken apart |
| AddressSpace.ImageWithEntry | vm.c:82 | one table entry written changes the image of one virtual page of one directory |
| AddressSpace.ImageWithTable | vm.c:54-62 | a new table changes no image |
| Vm.Kernel.constructor | kalloc.c:45-52 | all managed pages free |
| Vm.Kernel.Freerange | kalloc.c:45-52 | exactly the pages of the range become free |
| Vm.Kernel.Kalloc | kalloc.c:82-95 | the first page of the list, or none when it is empty |
| Vm.Kernel.Kfree | kalloc.c:59-77 | every page stays in one role, the page is the next that kalloc gives, and no other page is touched |
| Vm.Kernel.Walk | vm.c:45-65 | the table of a slot, made if asked for and if a page is free; images unchanged |
| Vm.Kernel.MapPage | vm.c:79-82 | one virtual page mapped; failure leaves everything as it was, a remap exactly when the page was present, no table exactly when one was needed and no page free |
| Vm.Kernel.Mappages | vm.c:70-90 | the range mapped in order, or a prefix of it up to the failure; the free pages used are the tables needed |
| Vm.Kernel.Setupkvm | vm.c:127-144 | a new directory with the kernel's image and no user page, for exactly 65 pages; fails if and only if fewer are free, and then every free page is lost; pages in use unchanged |
| VmCopy.RowsAreKernelSlots | vm.c:120-125 | the tables that the rows of kmap need, whatever the size of the kernel's code |
| Vm.Kernel.LoadPage | vm.c:230-240 | a page taken, filled and mapped; or none free; or taken and lost because its table could not be made |
| Vm.Kernel.Allocuvm | vm.c:220-243 | all pages present and zero if enough pages are free; the space as it was if not, with all pages given back but the tables made, except for the one case in which the last page is missing; a page is lost if and only if the last free page went to one whose table was missing |
| Vm.Kernel.Scan | vm.c:256-273 | exactly the present pages from the scan's start to the end are unmapped and freed, each once |
| Vm.Kernel.Deallocuvm | vm.c:249-275 | the same, with the size returned |
| Vm.Kernel.Freevm | vm.c:277-292 | everything the directory is made of is freed once, and nothing else touched |
| Vm.Kernel.CopyPage | vm.c:317-327 | one page copied, or absent in the source, or without a page or a table for it |
| Vm.Kernel.Copyuvm | vm.c:309-337 | equal flags and bytes on frames that were free before, the kernel's image, the source unchanged; which of success, failure and the panic at the first missing page comes is decided by the free pages; a failure changes no page's role but for the pages lost, whose number the free pages decide |
| VmCopy.UserNeed | vm.c:315-327 | the pages that copying takes: each page, and a table for every 1024th |
| VmCopy.CopyUndone | vm.c:331-333 | giving an unfinished copy up frees all it took but the pages lost |
| VmCopy.RowsAreKernel | vm.c:120-125 | the four rows of kmap give each kernel page its physical page and permission |
| VmLoad.LoadUndone | vm.c:236 | undoing a partial allocation restores every image |
| VmLoad.LastNeeds | vm.c:240 | when the last page is the one that needs a table |
| VmLoad.FreedCount | vm.c:236 | undoing a partial allocation gives back as many pages as were loaded |
| VmTheorems.NoSharedFrames | vm.c:45-90 | no two virtual user pages of any directories share a frame, and none is on the free list |
| VmTheorems.ScanExactness | vm.c:256-262 | deallocuvm's scan misses no present page if and only if its 4 MB skip is harmless |
| VmTheorems.ContiguousIsExact | vm.c:249-275 | in a space contiguous from 0 exactly the pages from the new size on are freed |
| VmTheorems.SkipLeavesPages | vm.c:260-261 | setupkvm, allocuvm of page 1024 and deallocuvm to one page leave that page present, from any state with enough free pages |
| Rings.WrapDistance | pipe.c:85 | 32-bit counters tell their distance and equality |
| Rings.WrapPlace | pipe.c:93 | and their place in a ring whose size divides 2^32 |
| Rings.Pipe.constructor | pipe.c:33-36 | an empty pipe |
| Rings.Pipe.Write | pipe.c:78-98 | all bytes are written exactly when they fit in the places free; otherwise exactly as many as there were places, and it fails exactly for a killed writer or a closed reading end, and sleeps in no other case |
| Rings.Pipe.Read | pipe.c:100-121 | the next bytes of the stream, as many as asked for and there |
| Rings.Input.constructor | console.c:177-183 | an empty line |
| Rings.Input.Key | console.c:193-223 | erasing never touches committed text, kill-line erases all the rest, other characters are added while there is room and commit at a line's end |
| Rings.Input.KillLine | console.c:198-204 | the loop ends at the committed text |
| Rings.Input.Add | console.c:211-221 | appended and committed exactly as the character and the room say |
| Rings.Input.Read | console.c:227-263 | committed text in order, up to and including a newline; ^D ends it and is kept for the next call unless nothing was read; where it would sleep, -1 exactly for a killed process |
| ShellLex.NextToken | sh.c:266-309 | the token function, computed by the loops |
| ShellLex.PeekAt | sh.c:311-321 | the next character that is not white space |
| ShellParse.RunRedirs | sh.c:375-398 | the loop reads the redirections of the grammar in order |
| ShellParse.RunArgs | sh.c:430-446 | the loop reads arguments and redirections, at most nine arguments |
| ShellParse.RunExec | sh.c:416-447 | the simple command or block of the grammar |
| ShellParse.RunBlock | sh.c:400-414 | the block of the grammar |
| ShellParse.RunPipe | sh.c:362-373 | computes ParsePipe, which ShellGrammar.PipesRead and ShellDerive.PipesDerive show to be the right-nested pipeline of the grammar |
| ShellParse.RunBacks | sh.c:351-354 | one background command per ampersand |
| ShellParse.RunLine | sh.c:345-360 | computes ParseLine, which ShellGrammar.LineRead and ShellDerive.LineDerive show to be the line of the grammar, with & on the whole pipeline before it and ; last |
| ShellParse.RunCmd | sh.c:328-343 | all input consumed, or an error |
| ShellGrammar.PipesRead | sh.c:362-373 | wherever the tokens of a derived pipeline stand before &, ; or ) or the end, the parser finds its meaning there and leaves what follows |
| ShellGrammar.LineRead | sh.c:345-360 | the same for a derived line, before ) or the end |
| ShellGrammar.GroupRead | sh.c:400-414 | the same for a line in parentheses with the redirections behind it |
| ShellGrammar.ItemsRead | sh.c:375-447 | the same for a plain command, whose arguments and redirections come in any order: both are read in theirs |
| ShellDerive.LineDerive | sh.c:345-447 | whatever parses has a derivation for exactly the tokens consumed, with that meaning |
| ShellDerive.PipesDerive | sh.c:362-373 | the same for pipelines |
| ShellDerive.ParsesExactly | sh.c:328-447 | for every line and command: the line parses to the command if and only if the grammar, defined over tokens without the parser, derives the line with that meaning |
| ShellPrint.LexExactly | sh.c:263-309 | the tokens of a line are l exactly when the line is l with white space around them, some wherever two tokens would otherwise run together |
| ShellPrint.RoundTrip | sh.c:328-447 | parsing the printing of any legal command returns that command, with pipelines nested to the right, redirections next to their words, and output written as > or as >> |
| ShellPrint.SpacedRoundTrip | sh.c:263-447 | the same with any white space before, between and behind the tokens |
| ShellPrint.FewestParentheses | sh.c:400-414 | no line that parses to a command opens fewer parentheses than its printing |
| ShellWords.AllWordsParsed | sh.c:328-447 | the words of a parsed command are exactly the words of the line |
| ShellWords.Nulterminate | sh.c:449-494 | NUL at the end of each word of the command and nowhere else |
| ShellWords.WordsSurvive | sh.c:449-494 | each argument and file name is then a string spelled as in the line |
| ShellWords.Parsecmd | sh.c:328-343 | the command or the error; on success every word is a string in the buffer, on failure the buffer is unchanged |
| ShellDerive.ParsedIsLegal | sh.c:437-446 | whatever parses has legal words and no argument vector filled past its end |
| ShellPrint.LegalIsParsed | sh.c:328-447 | the commands that lines can mean are exactly the legal ones |
| Regex.Match | grep.c:71-81 | true exactly when some part of the text, tied by ^ and $, belongs to the pattern's language |
| Regex.RunHere | grep.c:84-95 | computes MatchHere, and ends |
| Regex.RunStar | grep.c:98-105 | computes MatchStar, and ends |
| Regex.HereIsPrefix | grep.c:84-105 | matchhere is true exactly when a prefix of the text belongs to the language |

## Left out

- Storage.Next: a buffer's modification and the log_write or bwrite that follows are steps of their holder, and a holder is taken to log what it changed before releasing it; an operation that breaks this is not modelled.
- Storage.Enabled: bget may recycle any clean free buffer; which one it takes is Bcache's subject. What the kernel does after it has recorded a sector without a place is not claimed.
- LogOverflow.PanicCondition: the runs are built on a disk with at least NBUF sectors before the log region.
- Bcache.Cache.Bget: ends where the source would sleep; waking up and trying again is a new call.
- Fs.Fs.Writei: buffer reads see the latest version of a block, which StorageProof.ReadsAreLatest shows; the on-disk inode table is a sequence of inodes, not bytes of blocks; character devices are a result of their own.
- Fs.Fs.constructor: has no files and marks the log region's bits, which mkfs does not; that no block has two uses rests on it.
- FsState.NoHoles: an image of mkfs whose root directory fills whole blocks does not meet it, because mkfs rounds that size up to one block more than it has allocated.
- File.OpenFile.FileWrite: pipes and unwritable files.
- DirFile.Dirlookup: the reference that iget adds is taken in Names; names are strings of bytes, and directories have no name twice, which dirlink keeps.
- DirFile.Unlink: entries other than "." and ".." that name the directory itself, which the source would lock twice, and entries that name inodes past the last one; the references that it gives up are Inodes' subject.
- Names.Namex: inode locks are not modelled, there is one device, and directories name inodes that exist; after a panic nothing is claimed about the files.
- SignalStack.Next: the sleeping and waking of processes around sigsend, and putting the handler's frame on the user stack.
- Heap.Heap.Malloc: addresses are counted in 8-byte units from one origin, so memory that the program itself obtains from sbrk in other amounts is not covered; after Misrequested nothing is claimed.
- Vm.Kernel.Mappages: addresses are page numbers, and physical addresses are page-aligned.
- Vm.Kernel.Copyuvm: after the panic at a missing page nothing is claimed about the copy.
- copyout, loaduvm, inituvm and clearpteu: single passes over the walk that is modelled.
- ShellParse.RunCmd: memory for the command tree is always there, and recursion is not bounded.
- The scheduler, sleep and wakeup, exit and wait, kill and sigpause: their intended invariants do not hold at the granularity of the code.
- create and link with their link counts, exec, system call arguments, traps, devices, boot code, and the other user programs.
