# Verification of the xv6 lab kernels

A Dafny model of the kernel and user code that the xv6 lab trees share, and of
two parts the labs added: the three-level scheduler (`OS-lab-xv6-scheduling`)
and the reentrant spin lock (`OS-lab-xv6-lock`). `log.c`, `bio.c`, `fs.c`,
`vm.c`, `pipe.c`, `umalloc.c`, `sh.c` and `grep.c` are the same in every tree;
the model follows the copies under `OS-lab-xv6-lock`.

Run `dafny verify dfyconfig.toml` in this directory to check everything.

## How the model is laid out

| file | models |
|---|---|
| `Disk.dfy`, `Log.dfy`, `LogProtocol.dfy` | the redo log: its disk images and crashes at every block write, the in-memory log, and group commit as a state machine of interleaved operations |
| `Bitmap.dfy`, `FileSystem.dfy`, `FileWrite.dfy` | block allocation, block maps, reading, writing and truncating files, and the log budget of a write |
| `WorstWrite.dfy`, `TruncateBudget.dfy` | the disks on which a write costs the most, and the log budget of a truncation |
| `Directory.dfy`, `Path.dfy`, `Namei.dfy` | directories as finite maps, path elements, path resolution |
| `Mkfs.dfy`, `FsRuns.dfy` | the file system that mkfs makes, and whole runs of calls from it |
| `InodeTable.dfy`, `OnDisk.dfy`, `Calls.dfy` | inode and bitmap blocks in bytes, the file system that a crash leaves on the disk, and calls between begin_op and end_op |
| `InodeCache.dfy` | inode references and links: iget, ilock and iput of any number of processes |
| `BufferCache.dfy` | the LRU ring of buffers, the coherence of what they hold, and bread over whole runs |
| `Umalloc.dfy` | the user-level heap |
| `Vm.dfy` | physical pages, page tables, address spaces |
| `Shell.dfy`, `Grep.dfy` | the command parser and the pattern matcher |
| `SleepLock.dfy`, `SpinLock.dfy`, `ExitWait.dfy`, `KillMarks.dfy` | locks, sleep and wakeup, and the life of processes, step by step; where the mark of a kill goes |
| `Scheduler.dfy` | one round of lottery, highest response ratio, smallest priority |
| `Pipe.dfy`, `PipeWaits.dfy` | the pipe's ring buffer between wrapping counters, and who sleeps on it |
| `Wrappers.dfy` | optional results |

Code that changes state in place is a class whose methods have the C code's
loops and branches and are proved against specification functions; protocols
between processes are machines whose steps are single reads, writes and lock
operations, or critical sections. A C function that is long for the verifier is
cut into several methods at loop boundaries.

Results that the code's comments do not lead one to expect:

- `log_write` has two guards before it looks for an entry to absorb the block
  into. The reservation of `begin_op` protects a write from them exactly when
  the log area has at least LOGSIZE + 1 blocks; `mkfs` makes it LOGSIZE, so a
  full set of reserved operations can panic (`LogProtocol.GuardsExactly`). With
  LOGSIZE blocks listed, even a write that would be absorbed panics
  (`LogProtocol.GuardsPrecedeAbsorption`).
- The comment in `filewrite` sets aside two blocks of slop. With them the budget
  of a chunk is never exceeded (`FileWrite.WriteBudget`), and it is used up: there
  is a disk with all that calls keep on which one chunk logs all ten blocks
  (`WorstWrite.BudgetReached`). It holds only because files have no holes: with
  one hole in the file the same chunk logs eleven (`WorstWrite.HoleBreaksBudget`).
- A truncation fits the budget of a call exactly when the data blocks have their
  bits in at most nine bitmap blocks, as on the disk of 1000 blocks that mkfs
  makes; on a larger disk a small file can overrun it
  (`TruncateBudget.TruncationsExactly`).
- Over all draws the first lottery process wins once more, and the last once
  less, than it has tickets (`Scheduler.LotteryShares`). The smallest-priority
  level also runs after a lottery process has run, and the `continue` that would
  keep `ptable.lock` cannot be reached (`Scheduler.Cpu.Round`).
- `kill` stops at the first slot with the pid, in use or not: that is a process
  exactly when one has the pid (`ExitWait.KillFindsProcess`), but an unused slot
  has pid 0, or keeps its pid after a fork that failed (`ExitWait.StalePid`). The
  mark stays with the slot until it is reaped (`KillMarks.KilledExactly`), so
  `kill(0)` kills the next child (`KillMarks.StrayKill`). A mark reaches another
  process exactly when the slot was unused at the kill, or its process was still
  being made and that fork failed (`KillMarks.MarkGoesAstray`).
- A killed writer that fills a pipe returns without waking the readers, so a
  reader can sleep with 512 bytes to read (`PipeWaits.ReaderLeftAsleep`). That is
  the only way to overlook one (`PipeWaits.ReadersWakeExactly`).
- `..` of a directory that was removed is a name no link count stands for. When the
  directory it leads to is removed too, following it panics in `ilock`
  (`InodeCache.DotDotPanics`); otherwise no inode is freed while anybody has it
  (`InodeCache.NobodyLetDown`). Two puts of an unlinked inode that overlap can
  leave it allocated for good (`InodeCache.OverlapLoses`, `InodeCache.NothingLost`).

Assumptions: single-block disk writes are atomic, as in `memide.c`; the
requested size plus a header fits in a `uint`, and the static header `base` lies
below the heap; `ticks * 12345678 + 87654321` fits in a `long`; ratios and
priorities are reals. Where a step of the log machine would panic it is not
enabled: the machine can then only crash, which the results cover.

## Model

| member | source | states |
|---|---|---|
| Disk.WordRoundTrip | OS-lab-xv6-lock/log.c:34-37 | a 32-bit word stored in a block reads back as itself and disturbs no other word |
| Log.HeadRoundTrip | OS-lab-xv6-lock/log.c:85-113 | the list of block numbers write_head stores is the list read_head reads back |
| Log.InstallAt | OS-lab-xv6-lock/log.c:69-82 | copying the log out puts log block i at the i-th listed home block and leaves every unlisted block alone, for distinct home blocks outside the log |
| Log.InstallIdempotent | OS-lab-xv6-lock/log.c:69-82 | having installed any part of the log already does not change what recovery makes of the home blocks |
| Log.RecoveryStep | OS-lab-xv6-lock/log.c:115-122 | every image recovery passes through recovers to the same contents; the last has them in place with an empty log |
| Log.CommitPoint | OS-lab-xv6-lock/log.c:192-198 | the image the header write leaves recovers to the cached contents |
| Log.CommitStep | OS-lab-xv6-lock/log.c:177-202 | after k of a commit's block writes the disk recovers to the old contents if k is at most the number of logged blocks, else to the new ones |
| Log.RecoveryConverges | OS-lab-xv6-lock/log.c:69-122 | recovery crashed any number of times at any of its writes ends with the same home blocks and an empty log |
| Log.CrashAtomicity | OS-lab-xv6-lock/log.c:69-202 | crash a commit after any block write and its recovery any number of times: every home block ends old, or every one new, the switch being the first header write |
| Log.LogState.WriteHead | OS-lab-xv6-lock/log.c:101-113 | one block write that puts the list in the header block, filled in by the loop, and nothing else |
| Log.LogState.ReadHead | OS-lab-xv6-lock/log.c:85-96 | the in-memory list becomes the one on disk |
| Log.LogState.WriteLog | OS-lab-xv6-lock/log.c:177-190 | the disk passes through exactly the images of copying each listed block into the log, in order |
| Log.LogState.InstallTrans | OS-lab-xv6-lock/log.c:69-82 | the disk passes through exactly the images of copying each log block home; cache and disk then agree |
| Log.LogState.RecoverFromLog | OS-lab-xv6-lock/log.c:115-122 | its writes are exactly the recovery images; the recovered contents are in place and the log is empty |
| Log.LogState.Commit | OS-lab-xv6-lock/log.c:192-202 | its writes are exactly the commit images of the crash theorem; home blocks then hold the cached contents, the log is empty, the cache clean; an empty transaction writes nothing |
| Log.LogState.LogWrite | OS-lab-xv6-lock/log.c:213-233 | panics exactly when a guard fails; otherwise the block is listed once, absorbed if already listed, and the listed blocks stay distinct |
| Log.LogState.TryBeginOp | OS-lab-xv6-lock/log.c:125-141 | an operation is admitted exactly when no commit runs and the log has room for the full budget of all operations |
| Log.LogState.EndOp | OS-lab-xv6-lock/log.c:145-174 | the last operation to end commits everything logged, by exactly the disk writes of the crash theorem; any other leaves log and disk as they were |
| LogProtocol.StepInv | OS-lab-xv6-lock/log.c:125-202 | every step of any operation, of commit, of recovery, and a crash keeps the invariant tying disk, cache, log and reservations to the history of updates |
| LogProtocol.RunCrashSafety | OS-lab-xv6-lock/log.c:125-202 | at every point of every interleaving a crash, with recovery itself crashed any number of times, ends with exactly the committed updates on disk |
| LogProtocol.WholeOperations | OS-lab-xv6-lock/log.c:125-174 | each operation's updates are committed together or not at all, and none in progress has any committed |
| LogProtocol.EndedIsDurable | OS-lab-xv6-lock/log.c:145-174 | in every run, whenever all operations have ended and no commit is under way, everything they wrote is committed: recovery would yield what the cache has |
| LogProtocol.CommitIsHeaderWrite | OS-lab-xv6-lock/log.c:192-198 | what recovery yields changes in no step but the commit's header write, at which no operation is in progress and everything logged is taken |
| LogProtocol.CommitFreezesLog | OS-lab-xv6-lock/log.c:125-174 | while committing or recovering nothing is outstanding, no operation can begin, log or end, and the list is frozen |
| LogProtocol.CommitEnds | OS-lab-xv6-lock/log.c:115-202 | a commit or a recovery can always go on, by one step only unless the machine crashes, and is over after 2n + 3 or n + 1 steps for n blocks |
| LogProtocol.SlotReserved | OS-lab-xv6-lock/log.c:125-141 | an operation within its ten blocks that logs a new block always finds fewer than LOGSIZE listed |
| LogProtocol.GuardsExactly | OS-lab-xv6-lock/log.c:217-220 | the guards never stop such a write in any run if and only if the log area has LOGSIZE + 1 blocks or more |
| LogProtocol.GuardsPrecedeAbsorption | OS-lab-xv6-lock/log.c:217-228 | a reachable state in which a guard stops a write that needs no slot, whatever the size of the log area, with one block at least besides the header |
| Bitmap.OneBitChanges | OS-lab-xv6-lock/fs.c:64-67 | setting or clearing a block's bit changes that block's bit and no other |
| FileSystem.BlockOwnership | OS-lab-xv6-lock/fs.c:56-95 | the blocks marked in use are exactly the metadata blocks and the blocks of all inodes, indirect blocks included, no block belonging to two slots |
| FileSystem.WhereBytesAre | OS-lab-xv6-lock/fs.c:371-400 | byte k of a file is byte k % 512 of the block that entry k / 512 of the inode names, or past twelve blocks of the one named by a word, low byte first, of the indirect block |
| FileSystem.EnterDirectGood | OS-lab-xv6-lock/fs.c:377-386 | a fresh block entered in a direct slot, or as the indirect block, keeps bitmap, ownership and the absence of holes, and changes no other slot |
| FileSystem.EnterIndirectGood | OS-lab-xv6-lock/fs.c:388-397 | the same for a fresh block entered in the indirect block |
| FileSystem.OthersUnchanged | OS-lab-xv6-lock/fs.c:372-400 | inodes whose maps and blocks are kept keep their byte contents |
| FileSystem.AllocLogComposes | OS-lab-xv6-lock/fs.c:372-400 | what successive allocations log is what the whole extension logs |
| FileSystem.StoreKeeps | OS-lab-xv6-lock/fs.c:497-502 | storing in a block of one inode keeps every file's blocks and every other file's bytes |
| FileSystem.WriteDoneLogs | OS-lab-xv6-lock/fs.c:481-511 | the data, bitmap and inode blocks that a write changes are among those it logs, and those are home blocks of the layout |
| FileSystem.WriteStep | OS-lab-xv6-lock/fs.c:495-504 | a pass of writei's loop, from any offset into any block, extends what has been written by exactly its bytes |
| FileSystem.TruncatedGood | OS-lab-xv6-lock/fs.c:407-435 | with the inode's blocks freed the bitmap still matches ownership, and exactly that inode's blocks became free |
| FileSystem.FreedNext | OS-lab-xv6-lock/fs.c:413-430 | each block itrunc frees is in use at that moment, so freeing a free block cannot happen |
| FileSystem.FileSystem.Balloc | OS-lab-xv6-lock/fs.c:56-78 | the lowest free block, now marked, zeroed and not zero itself; None, where the code panics, only when every block is in use |
| FileSystem.FileSystem.Bmap | OS-lab-xv6-lock/fs.c:372-400 | the block of slot bn, allocated zeroed (with the indirect block) if absent; a mapped slot changes nothing; other slots, blocks and files are kept, and exactly the allocations are logged |
| FileSystem.FileSystem.ReadI | OS-lab-xv6-lock/fs.c:452-476 | exactly the requested bytes clipped to the size, across direct and indirect blocks, allocating nothing; -1 exactly past the end or on 32-bit wrap |
| FileSystem.FileSystem.WriteLoop | OS-lab-xv6-lock/fs.c:495-504 | exactly the given bytes are stored at the offset, new blocks appear only in the touched slots, and the log gets them, the touched data blocks and the allocations |
| FileSystem.FileSystem.WriteAt | OS-lab-xv6-lock/fs.c:495-510 | on files with or without holes: the blocks touched hold the bytes, a missing block reads as zeros around them, nothing in a map has moved, and exactly the footprint is logged and changed; the panic only on a full disk |
| FileSystem.WritesGood | OS-lab-xv6-lock/fs.c:481-511 | where no file has a hole a write makes none, and that outcome is the one writei promises |
| FileSystem.FileSystem.WriteI | OS-lab-xv6-lock/fs.c:481-511 | the file becomes its old contents overwritten or extended at off, every other file is untouched, the logged blocks are the footprint; refused exactly past the end, on wrap or past MAXFILE blocks; the panic only on a full disk, for a block that the file lacks |
| FileSystem.FileSystem.Bfree | OS-lab-xv6-lock/fs.c:81-95 | clears the bit; the panic is exactly on a free block |
| FileSystem.FileSystem.Itrunc | OS-lab-xv6-lock/fs.c:407-435 | the file is empty, exactly its blocks and indirect block are free, other files are untouched, no panic is reached, and exactly the bitmap blocks of what was freed and the inode's block are logged |
| FileWrite.WriteBudget | OS-lab-xv6-lock/file.c:127-152 | writei of a chunk of at most 1536 bytes, at any offset, logs at most 10 distinct blocks even if every allocation is in another bitmap block |
| FileWrite.FewNewSlots | OS-lab-xv6-lock/file.c:127-152 | of four blocks touched by a chunk the first already exists, so at most three data blocks and the indirect block are new |
| FileWrite.FootprintExactly | OS-lab-xv6-lock/fs.c:481-511 | how many blocks a write logs when its new blocks lie in different bitmap blocks |
| WorstWrite.NewBlock | OS-lab-xv6-lock/fs.c:56-78 | on the nearly full disks, whatever block a write takes is the last one of some bitmap block |
| WorstWrite.BudgetReached | OS-lab-xv6-lock/file.c:127-133 | there is a file system with all that calls keep, a root and files from inode 2 on, on which a write of one chunk takes place and logs 10 blocks, and there every write of 1536 bytes at that offset logs 10 |
| WorstWrite.HoleBreaksBudget | OS-lab-xv6-lock/file.c:127-133 | the same on one consistent but for one hole, with 11, for every outcome the write can have there |
| TruncateBudget.TruncationsExactly | OS-lab-xv6-lock/fs.c:407-435 | every truncation of a file other than the root, in every file system of a given layout that has all that calls keep, logs at most 10 blocks if and only if the data blocks have their bits in at most nine bitmap blocks |
| TruncateBudget.TruncateLogged | OS-lab-xv6-lock/fs.c:407-435 | what itrunc logs is the set that result is about |
| FileWrite.OpenFile.WriteChunk | OS-lab-xv6-lock/file.c:140-146 | one transaction: the chunk is written at the offset, which moves by it, and at most 10 blocks are logged |
| FileWrite.OpenFile.FileWrite | OS-lab-xv6-lock/file.c:117-156 | the bytes written are all of the buffer, or whole chunks of it up to the first that writei refuses; every transaction fits the log's share |
| Directory.NameCmp | OS-lab-xv6-lock/fs.c:516-520 | equal exactly when the name cut off at 14 bytes is the string in the entry |
| Directory.PaddedReadsBack | OS-lab-xv6-lock/fs.c:572 | the name strncpy stores reads back as the name cut off at 14 bytes |
| Directory.StrNCpy | OS-lab-xv6-lock/string.c:69-79 | the name's bytes, then NULs to 14 |
| Directory.DirMapHolds | OS-lab-xv6-lock/fs.c:524-548 | with unique names, the map of a directory holds exactly its entries in use |
| Directory.DirLookup | OS-lab-xv6-lock/fs.c:524-548 | the inode number the map has for the truncated name and the entry's position, or absent exactly when it has none; nothing changes |
| Directory.FreeSlot | OS-lab-xv6-lock/fs.c:564-570 | the first entry not in use, or the end of the directory exactly when there is none |
| Directory.EntryBytes | OS-lab-xv6-lock/fs.h:53-56 | the number of an entry is its first two bytes, low byte first, and its name the other fourteen |
| Directory.LinkEntry | OS-lab-xv6-lock/fs.c:551-578 | entering an absent name in a free or new entry adds exactly that name to the map and keeps names unique |
| Directory.DirLink | OS-lab-xv6-lock/fs.c:551-578 | insert if absent: refused exactly when the truncated name is present; otherwise number and padded name replace the first entry not in use, or are appended when there is none, the map gains the name, names stay unique, no other file changes and every block changed is logged; the panic only with no entry to spare |
| Directory.UnlinkEntry | OS-lab-xv6-lock/sysfile.c:218-220 | writing a cleared entry over one in use removes exactly that name from the map and keeps names unique |
| Path.SkipElem | OS-lab-xv6-lock/fs.c:595-618 | the first component, cut off at 14 bytes, in the buffer, and the rest of the path without leading slashes; none exactly when only slashes are left |
| Path.PathComponents | OS-lab-xv6-lock/fs.c:595-618 | repeated skipelem delivers exactly the non-empty pieces of the path split at every slash |
| Namei.TargetStep | OS-lab-xv6-lock/fs.c:633-652 | following one component leaves what is still to be found unchanged, with and without nameiparent |
| Namei.FollowOne | OS-lab-xv6-lock/fs.c:633-652 | a pass of namex's loop returns the path's target or moves to an inode from which the rest of the path leads to it |
| Namei.NameX | OS-lab-xv6-lock/fs.c:624-657 | the inode that following the path's components through the directory maps leads to, or, for nameiparent, the directory of the last component, with that component in name; 0 exactly when there is none |
| Mkfs.BlankGood | OS-lab-xv6-lock/mkfs.c:92-115 | a disk with nothing but metadata, free inodes and no block in use, is consistent |
| Mkfs.RootGood | OS-lab-xv6-lock/mkfs.c:117-165 | with the root directory in the first data block it still is |
| Mkfs.RootTree | OS-lab-xv6-lock/mkfs.c:117-165 | the root is a directory with the names `.` and `..`, both leading to itself, and the whole is a tree of directories |
| FsRuns.StepInv | OS-lab-xv6-lock/fs.c:193-511 | every write, truncation, link and unlink, and every inode taken, changed or given back keeps blocks, maps, contents and directories consistent, and stored inodes equal to cached ones |
| FsRuns.ReachableStates | OS-lab-xv6-lock/fs.c:56-511 | in every state any sequence of calls leads to from mkfs's disk, blocks in use are metadata and blocks of inodes, no block has two owners, no byte of a file lacks a block, and directories have no name twice |
| FsRuns.OpLogs | OS-lab-xv6-lock/fs.c:193-578 | every operation of those runs logs every data, bitmap and inode block that it changes, and only blocks of the layout |
| FsRuns.DoesLogs | OS-lab-xv6-lock/fs.c:193-578 | whatever operations a transaction consists of, every data, bitmap and inode block that it changes is among those it logs |
| InodeTable.RecordRoundTrip | OS-lab-xv6-lock/fs.h:29-36 | the 64 bytes of an inode record read back as its six fields |
| InodeTable.PutRecordAt | OS-lab-xv6-lock/fs.c:220-236 | a record stored in an inode block reads back, and the seven others in the block are kept |
| InodeTable.Buffer.Iupdate | OS-lab-xv6-lock/fs.c:220-236 | the stores field by field and of the block map put exactly the inode's record in its place |
| InodeTable.Buffer.Ilock | OS-lab-xv6-lock/fs.c:298-307 | the fields read one by one undo iupdate: the result is the inode last stored in that place, and storing it again changes no byte |
| InodeTable.StoredBytes | OS-lab-xv6-lock/fs.c:220-236 | the bytes that iupdate stores: type 0, 1 or 2 as in stat.h, no device, and nlink, size and block numbers low byte first; the bytes of other records are kept |
| InodeTable.IupdateTable | OS-lab-xv6-lock/fs.c:220-307 | after iupdate of an inode ilock reads back that inode, and every other inode, in its block or not, reads as before |
| OnDisk.IupdateHolds | OS-lab-xv6-lock/fs.c:220-236 | iupdate turns a disk that holds a file system into one that holds it with that inode in the table, the log area untouched |
| OnDisk.BitStored | OS-lab-xv6-lock/fs.c:63-68 | storing one byte of a bitmap block is storing that byte of the free map |
| OnDisk.HeldInode | OS-lab-xv6-lock/fs.h:38-42 | inode i of a file system that a disk holds is in the 64 bytes from 64 * (i % 8) of block inodestart + i / 8 |
| OnDisk.HeldBit | OS-lab-xv6-lock/fs.h:44-48 | whether block b is in use is bit b % 8 of byte b % 4096 / 8 of block bmapstart + b / 4096 |
| OnDisk.DiskHolds | OS-lab-xv6-lock/mkfs.c:92-165 | every file system whose numbers fit their fields, mkfs's among them, is held in bytes by a disk with an empty log |
| OnDisk.HeldOnce | OS-lab-xv6-lock/fs.c:56-307 | a disk holds no more than one file system: bitmap, inodes, data and owners are determined by its bytes |
| OnDisk.CommittedKeeps | OS-lab-xv6-lock/log.c:115-202 | what the calls between quiet moments keep of the home blocks, the committed contents have at every point of every run |
| OnDisk.CrashedFileSystem | OS-lab-xv6-lock/log.c:115-202 | from mkfs's disk, when the calls between quiet moments come to whole file-system operations, a crash anywhere and a recovery crashed any number of times leave a disk that holds a consistent file system to which whole operations lead |
| Calls.ChangesHeld | OS-lab-xv6-lock/log.c:205-233 | when each logged block has its new bytes and every other block its old ones, the disk holds the file system with the changes |
| Calls.SerialCalls | OS-lab-xv6-lock/log.c:125-233 | in every run in which calls come one at a time, each logging its transaction's blocks with their new bytes, the calls between quiet moments come to whole file-system operations |
| Calls.CrashedCalls | OS-lab-xv6-lock/log.c:115-233 | so in every such run from mkfs's disk a crash anywhere and a recovery crashed any number of times leave a disk that holds a consistent file system to which whole operations lead |
| Calls.OneCall | OS-lab-xv6-lock/log.c:125-233 | every transaction within the budget of ten blocks can be carried out on the disk: begin_op, a log_write of each block it logs, end_op and the commit end with the disk holding its result |
| Calls.TransactionsRun | OS-lab-xv6-lock/log.c:125-233 | every sequence of such transactions from mkfs's file system has such a run, which ends with the last file system on the disk |
| InodeCache.Icache.IGet | OS-lab-xv6-lock/fs.c:241-271 | the entry that has the inode, with one more reference, else the first unused one taken for it; the panic exactly when there is neither |
| InodeCache.StepInv | OS-lab-xv6-lock/fs.c:194-364 | every step of ialloc, iget, idup, ilock, iput, link and unlink keeps one entry per inode, the counts, the locks, and cached equal to stored links |
| InodeCache.OneEntryEach | OS-lab-xv6-lock/fs.c:241-271 | in every run each inode has at most one entry in use, whose count is the number of references |
| InodeCache.ReferencesMove | OS-lab-xv6-lock/fs.c:241-364 | a process gains a reference exactly by a lookup, an allocation or a duplicate, and loses one exactly by the last step of a put |
| InodeCache.LinksMove | OS-lab-xv6-lock/fs.c:194-354 | how each step moves the links and names of each inode, and which steps allocate or free it |
| InodeCache.BadExactly | OS-lab-xv6-lock/fs.c:331-354 | a step first leaves somebody with an inode that is free or about to be freed by another exactly when it follows `..` of a removed directory to such an inode, or frees one whose allocation is not over |
| InodeCache.NobodyLetDownExactly | OS-lab-xv6-lock/fs.c:331-354 | the same over runs: nobody is let down exactly when no step is of those two kinds |
| InodeCache.NobodyLetDown | OS-lab-xv6-lock/fs.c:331-354 | in every run that does not follow `..` of removed directories, no inode is free, or being freed by another, while a process has a reference to it |
| InodeCache.NoPanic | OS-lab-xv6-lock/fs.c:287-312 | then ilock never finds a free inode |
| InodeCache.DotDotPanics | OS-lab-xv6-lock/sysfile.c:184-235 | a run in which, after two directories, one inside the other, are removed, `..` of the inner one leads ilock to its panic |
| InodeCache.NothingLost | OS-lab-xv6-lock/fs.c:331-354 | when no two puts of an inode overlap and each has had its inode read, the last reference to go gives back an inode without links |
| InodeCache.OverlapLoses | OS-lab-xv6-lock/fs.c:331-354 | a run in which two puts overlap and an inode with no link, no name and no reference stays allocated |
| BufferCache.Unlink | OS-lab-xv6-lock/bio.c:131-132 | two assignments take a buffer out of the ring |
| BufferCache.PushFront | OS-lab-xv6-lock/bio.c:50-54 | four assignments put a buffer behind the head |
| BufferCache.RecycleKeeps | OS-lab-xv6-lock/bio.c:80-90 | reusing a clean unreferenced buffer loses no block's latest contents and keeps one buffer per block |
| BufferCache.FrontRecency | OS-lab-xv6-lock/bio.c:131-136 | the ring stays complete and in order of release |
| BufferCache.Cache.Binit | OS-lab-xv6-lock/bio.c:38-56 | the ring contains every buffer once, in order |
| BufferCache.Cache.FindCached | OS-lab-xv6-lock/bio.c:68-75 | the buffer of the block, or none exactly when no buffer has it |
| BufferCache.Cache.FindIdle | OS-lab-xv6-lock/bio.c:80-90 | of the clean unreferenced buffers the one released longest ago, none exactly when there is none |
| BufferCache.Cache.BGet | OS-lab-xv6-lock/bio.c:61-93 | the one buffer of the block, else the least recently released idle one emptied for it; a referenced or dirty buffer is never touched; fails exactly when all are taken |
| BufferCache.Cache.Iderw | OS-lab-xv6-lock/memide.c:38-60 | a dirty buffer goes to its block of the disk, another one is read from it |
| BufferCache.StepInv | OS-lab-xv6-lock/bio.c:61-140 | every critical section of every process keeps one buffer per block, the reference counts and coherence |
| BufferCache.OthersKeep | OS-lab-xv6-lock/bio.c:61-140 | no step of another process takes a referenced buffer from its block, or changes a locked one or its block's latest contents |
| BufferCache.BreadReadsLatest | OS-lab-xv6-lock/bio.c:96-106 | in every interleaving, whatever others do while bread waits, it returns the buffer of the block asked for with what was last put into that block, and this stays so until its caller acts |
| BufferCache.Cache.Fill | OS-lab-xv6-lock/bio.c:96-106 | the last step of bread, as that result has it: a buffer that is not valid is read, and then holds the latest contents of its block |
| BufferCache.Cache.BWrite | OS-lab-xv6-lock/bio.c:109-116 | the buffer's data is on the disk and is the latest contents |
| BufferCache.Cache.Pin | OS-lab-xv6-lock/log.c:231 | the mark of log_write keeps the buffer's block cached |
| BufferCache.Cache.Unlock | OS-lab-xv6-lock/bio.c:120-125 | the invariant is kept when every change has been logged or written |
| BufferCache.Cache.Unref | OS-lab-xv6-lock/bio.c:127-140 | the last reference moves the buffer to the front of the ring, any other leaves the order |
| Umalloc.SearchStops | OS-lab-xv6-lock/umalloc.c:30-32 | the two tests of free's search hold exactly at the one place where the block belongs |
| Umalloc.SpliceOrdered | OS-lab-xv6-lock/umalloc.c:33-42 | replacing a stretch of the list keeps it sorted with gaps between blocks |
| Umalloc.NewMemoryServes | OS-lab-xv6-lock/umalloc.c:73-86 | after sbrk the request is served from the upper end of the new memory, and the next search starts at the free block before it |
| Umalloc.NextBelow | OS-lab-xv6-lock/umalloc.c:73-86 | a second request of n units takes the n units just below the first when the block chosen had twice as many |
| Umalloc.EnterApart | OS-lab-xv6-lock/umalloc.c:33-42 | a block linked in by itself, with or without taking in the one above, makes exactly its own units free |
| Umalloc.EnterBelow | OS-lab-xv6-lock/umalloc.c:38-40 | the same for a block added to the one below |
| Umalloc.CarveWhole | OS-lab-xv6-lock/umalloc.c:76-77 | unlinking an exact fit hands out exactly its units |
| Umalloc.CarveTail | OS-lab-xv6-lock/umalloc.c:78-82 | cutting off the upper end hands out exactly its units |
| Umalloc.Heap.FindSlot | OS-lab-xv6-lock/umalloc.c:30-32 | the search ends, at the last free block below |
| Umalloc.Heap.Release | OS-lab-xv6-lock/umalloc.c:24-44 | the block joins the list, coalesced with exactly the neighbours it touches; free and live units still partition what sbrk gave; freep is the last block below |
| Umalloc.Heap.Free | OS-lab-xv6-lock/umalloc.c:24-44 | exactly that block leaves the live ones; list circular, sorted, coalesced; nothing overlaps |
| Umalloc.Heap.MoreCore | OS-lab-xv6-lock/umalloc.c:46-61 | at least 4096 units past the break become free, as the last block of the list or joined to it, and freep is the last block before; 0 and no change when sbrk fails |
| Umalloc.Heap.Search | OS-lab-xv6-lock/umalloc.c:73-86 | a pass of malloc's loop stops at the first block large enough going round from freep, or back at freep with every block seen to be too small |
| Umalloc.Heap.Malloc | OS-lab-xv6-lock/umalloc.c:63-90 | the search ends after at most one call of sbrk, made exactly when no free block fits; the upper end of the first fit going round from freep is cut off and freep is left at the block before it, or else the upper end of the new memory; a new block disjoint from all live ones; 0 exactly when sbrk failed too |
| Vm.SetEntry | OS-lab-xv6-lock/vm.c:73 | writing one page table entry changes the mapping of one page |
| Vm.AddTable | OS-lab-xv6-lock/vm.c:43-52 | a cleared page taken as a page table maps nothing and is nobody else's |
| Vm.Unmap | OS-lab-xv6-lock/vm.c:268-277 | unmapping a user page returns exactly its frame |
| Vm.PageMapped | OS-lab-xv6-lock/vm.c:232-247 | a page taken, filled and mapped, or left loose when mappages failed, with every other frame still accounted for |
| Vm.SameSpace | OS-lab-xv6-lock/vm.c:315-345 | a space is untouched by writes to frames it does not own |
| Vm.KernelPages | OS-lab-xv6-lock/vm.c:105-118 | what the processor allows in a space set up by setupkvm: physical memory from page 0x80000 on and the devices from page 0xFE000 on, for the kernel only, writable but for the kernel text |
| Vm.GrownPages | OS-lab-xv6-lock/vm.c:221-249 | user code may read and write every page that allocuvm has added |
| Vm.ShrunkBack | OS-lab-xv6-lock/vm.c:234-245 | deallocuvm after a failed growth restores the mapping there was |
| Vm.Memory.Kfree | OS-lab-xv6-lock/kalloc.c:59-77 | the page is filled with junk and becomes the head of the free list |
| Vm.Memory.Kalloc | OS-lab-xv6-lock/kalloc.c:82-95 | the head of the free list, or 0 exactly when it is empty |
| Vm.Memory.FreeRange | OS-lab-xv6-lock/kalloc.c:46-53 | exactly the whole pages in the range become free, filled with junk, and no other page is written |
| Vm.Memory.WalkPgdir | OS-lab-xv6-lock/vm.c:35-55 | the page table of the address, a cleared one taken if missing and wanted; no mapping changes; 0 exactly when missing and not to be had |
| Vm.Memory.MapPages | OS-lab-xv6-lock/vm.c:60-80 | exactly the pages of the range are mapped to consecutive frames with the permissions; it fails exactly when fewer frames are free than page tables are missing, and then exactly those before some page are |
| Vm.Memory.DeallocUvm | OS-lab-xv6-lock/vm.c:255-279 | exactly the present pages of [PGROUNDUP(newsz), oldsz) are unmapped, skipping absent page tables, no frame is lost or freed twice, and every other page keeps its contents |
| Vm.Memory.FreeVm | OS-lab-xv6-lock/vm.c:283-298 | exactly the frames of the space, user pages, page tables and directory, join the free list, each once |
| Vm.Memory.MapKernel | OS-lab-xv6-lock/vm.c:130-134 | the kernel's table is mapped in an empty directory; it fails exactly when fewer than the 64 frames its page tables take are free |
| Vm.Memory.SetupKvm | OS-lab-xv6-lock/vm.c:105-136 | every kernel page is mapped as the table says, no user page is; it fails exactly when fewer than 65 frames are free, and then every frame is back |
| Vm.Memory.CopyPage | OS-lab-xv6-lock/vm.c:323-339 | a pass of copyuvm's loop: the copy gains that page with its contents and flags, or a frame is missing and the page is given back |
| Vm.Memory.AllocUvm | OS-lab-xv6-lock/vm.c:221-249 | exactly the new pages are mapped, cleared and writable by the user, and the pages there were keep their contents; below KERNBASE it fails exactly when there are fewer free frames than new pages and missing page tables, and then the mapping is as before and no frame is lost |
| Vm.Memory.CopyUvm | OS-lab-xv6-lock/vm.c:315-345 | equal contents and flags on pages that were free, the parent untouched; it fails exactly when fewer frames are free than the directory, 64 kernel tables, the pages and one table per 1024 of them, and then every frame is back |
| Shell.ParsesExactly | OS-lab-xv6-lock/sh.c:327-446 | tokens parse to a command if and only if they are a line that means it, where lines, pipelines, blocks and simple commands are told by splitting the tokens: so a missing parenthesis, file or a leftover is always an error |
| Shell.ExecRoundTrip | OS-lab-xv6-lock/sh.c:374-446 | a simple command or parenthesised line with redirections, followed by anything that may follow, parses to what was printed |
| Shell.LineRoundTrip | OS-lab-xv6-lock/sh.c:344-372 | a line parses to what was printed |
| Shell.ParsesAsPrinted | OS-lab-xv6-lock/sh.c:327-342 | any text whose tokens are those of a command, whatever its spacing, parses to the command |
| Shell.LexShow | OS-lab-xv6-lock/sh.c:265-308 | spelling tokens out and reading them gives them back |
| Shell.BlankSkipped | OS-lab-xv6-lock/sh.c:262-308 | each of the five blank characters ends a word and is skipped between tokens |
| Shell.RoundTrip | OS-lab-xv6-lock/sh.c:327-446 | printing any command tree of good words and at most nine arguments each, and parsing it, gives the tree |
| Shell.GetToken | OS-lab-xv6-lock/sh.c:265-308 | the next token with its exact extent, moving past it and the blanks around it |
| Shell.Peek | OS-lab-xv6-lock/sh.c:310-320 | whether the next token starts with one of the characters |
| Shell.ParseRedirs | OS-lab-xv6-lock/sh.c:374-397 | agrees with the grammar over tokens: same verdict, same command, same rest, every string a whole token |
| Shell.ParseArgs | OS-lab-xv6-lock/sh.c:415-446 | the same, with the tenth argument refused |
| Shell.ParseExec | OS-lab-xv6-lock/sh.c:415-446 | the same |
| Shell.ParseBlock | OS-lab-xv6-lock/sh.c:399-413 | the same |
| Shell.ParsePipe | OS-lab-xv6-lock/sh.c:361-372 | the same |
| Shell.ParseLine | OS-lab-xv6-lock/sh.c:344-359 | the same; the recursion ends on every input |
| Shell.TerminatedStrings | OS-lab-xv6-lock/sh.c:449-493 | after all terminators are written each string reads as exactly its token, none cut short by another's terminator |
| Shell.NulTerminate | OS-lab-xv6-lock/sh.c:449-493 | a NUL at the end of every string of the command and no other change |
| Shell.ParseCmd | OS-lab-xv6-lock/sh.c:327-342 | the command the grammar gives for the buffer's string, its words C strings in the buffer; on an error the buffer is unchanged and the error is the grammar's |
| SleepLock.StepInv | OS-lab-xv6-lock/proc.c:418-475 | every step of acquiresleep, sleep, releasesleep, wakeup, kill and holdingsleep keeps the invariant |
| SleepLock.MutualExclusion | OS-lab-xv6-lock/sleeplock.c:22-42 | in every interleaving at most one process owns the lock, and one does exactly while locked is set |
| SleepLock.NoLostWakeup | OS-lab-xv6-lock/proc.c:418-475 | locked clear with a process asleep on the lock means a releaser, holding the spin lock, has yet to reach its slot |
| SleepLock.HoldingExact | OS-lab-xv6-lock/sleeplock.c:44-53 | holdingsleep answers exactly whether its caller owns the lock |
| ExitWait.StepInv | OS-lab-xv6-lock/proc.c:181-313 | every operation on the process table keeps the invariant |
| ExitWait.ExitKeeps | OS-lab-xv6-lock/proc.c:250-266 | exit leaves every child, zombies included, with a live parent that will not sleep through it |
| ExitWait.ReapKeeps | OS-lab-xv6-lock/proc.c:285-299 | reaping orphans nobody |
| ExitWait.NoZombieOverlooked | OS-lab-xv6-lock/proc.c:250-311 | no process is ever asleep in wait with a zombie child |
| ExitWait.LiveParents | OS-lab-xv6-lock/proc.c:181-266 | every process but init, zombies included, has a live parent |
| ExitWait.ReapedOnce | OS-lab-xv6-lock/proc.c:285-299 | a process is reaped at most once, by its parent at that moment |
| ExitWait.Life | OS-lab-xv6-lock/proc.c:74-498 | which operation takes a slot from which state to which, and none else: a sleeper wakes exactly by a wakeup on its channel, a kill, or an exit it waits for |
| ExitWait.Ptable.Wakeup1 | OS-lab-xv6-lock/proc.c:458-466 | exactly the processes asleep on the channel become runnable |
| ExitWait.Ptable.AllocProc | OS-lab-xv6-lock/proc.c:74-93 | takes the first unused slot with a new pid, fails exactly when there is none |
| ExitWait.Ptable.Exit | OS-lab-xv6-lock/proc.c:250-266 | the loops over the table perform the exit step |
| ExitWait.Ptable.Wait | OS-lab-xv6-lock/proc.c:273-313 | a pass reaps the first zombie child exactly when there is one, killed or not; else it returns -1 exactly when the caller is killed or childless, and else sleeps |
| ExitWait.KillFindsProcess | OS-lab-xv6-lock/proc.c:480-498 | in every reachable table the slot kill stops at is in use exactly when some process has the pid, it is then that one's, and pid 0 is nobody's |
| ExitWait.StalePid | OS-lab-xv6-lock/proc.c:194-198 | a run to a table in which kill of a pid other than 0 finds an unused slot |
| ExitWait.Ptable.Kill | OS-lab-xv6-lock/proc.c:480-498 | marks and wakes the first slot with the pid, fails exactly when none has it |
| KillMarks.KilledExactly | OS-lab-xv6-lock/proc.c:480-498 | in every run a slot is marked exactly when a kill stopped at it, or its process faulted, after it was last reaped |
| KillMarks.KilledWakes | OS-lab-xv6-lock/proc.c:480-498 | in every run, after a kill the process in that slot is not asleep until it goes to sleep again |
| KillMarks.MarkGoesAstray | OS-lab-xv6-lock/proc.c:74-93 | while the mark of a kill is there, the process in the slot is another than the one the pid was of exactly when the slot was unused at the kill, or held a process in the making whose fork then failed |
| KillMarks.StrayKill | OS-lab-xv6-lock/proc.c:480-498 | a run in which kill(0) marks an unused slot and the next child is born killed |
| KillMarks.StrayKillOfEmbryo | OS-lab-xv6-lock/proc.c:194-198 | a run in which the mark of a process whose fork failed passes to the next child |
| Scheduler.GenerateRandom | OS-lab-xv6-scheduling/proc.c:24-32 | 1 for a ceiling of 0, else a draw below the ceiling |
| Scheduler.DrawMoves | OS-lab-xv6-scheduling/proc.c:24-32 | with each tick the draw moves on by 12345678 round the tickets, from 87654321 at tick 0 |
| Scheduler.TotalCounts | OS-lab-xv6-scheduling/proc.c:34-46 | the total counts the tickets of every lottery slot, running or asleep, and of no other |
| Scheduler.WinsExactly | OS-lab-xv6-scheduling/proc.c:409-428 | the draws a slot wins are an interval of its prefix sums |
| Scheduler.LotteryShares | OS-lab-xv6-scheduling/proc.c:409-428 | over all draws each runnable slot wins exactly its tickets, the first one more and the last one less |
| Scheduler.SomeoneWins | OS-lab-xv6-scheduling/proc.c:34-46 | when only runnable slots have tickets every draw has a winner |
| Scheduler.HighestWaitsLongest | OS-lab-xv6-scheduling/proc.c:389-444 | the process chosen has, times the cycles of any other waiting one, waited no less: with as many cycles it came in no later, and of those that came in with it it has no more cycles |
| Scheduler.Cpu.GetTotal | OS-lab-xv6-scheduling/proc.c:34-46 | the tickets of all lottery slots in whatever state |
| Scheduler.Cpu.Lottery | OS-lab-xv6-scheduling/proc.c:409-428 | the least runnable lottery slot whose prefix sum reaches the draw runs, or none does and none reaches it |
| Scheduler.Cpu.Highest | OS-lab-xv6-scheduling/proc.c:434-444 | the first of the waiting processes that none has waited longer than for each of its cycles |
| Scheduler.Cpu.Smallest | OS-lab-xv6-scheduling/proc.c:460-470 | the first of the waiting processes with the smallest priority |
| Scheduler.Cpu.Round | OS-lab-xv6-scheduling/proc.c:402-492 | who runs in a round at each level, exactly when, and in what table, for any changes made while they run |
| Pipe.PutKeeps | OS-lab-xv6-lock/pipe.c:93 | storing a byte in a pipe that is not full appends it, also across counter wrap |
| Pipe.GetKeeps | OS-lab-xv6-lock/pipe.c:116 | taking a byte from a pipe that is not empty delivers the next stored one |
| Pipe.Fifo | OS-lab-xv6-lock/pipe.c:77-121 | over any interleaving the bytes taken are a prefix of the bytes stored, at most 512 behind, and the wrapped difference of the counters is their number |
| Pipe.PipeState.Write | OS-lab-xv6-lock/pipe.c:77-98 | a stretch of pipewrite appends as many of its bytes as there is room for; it is done exactly when that is all, else fails exactly with no reader or when killed, else sleeps; it wakes the readers unless it fails |
| Pipe.PipeState.Read | OS-lab-xv6-lock/pipe.c:100-121 | a stretch of piperead delivers the next min(n, available) bytes and wakes the writers, or waits, or fails when killed, exactly while the pipe is empty and open for writing |
| Pipe.PipeState.Close | OS-lab-xv6-lock/pipe.c:59-75 | an end is closed, and the pipe is freed exactly by the second to close |
| PipeWaits.StepInv | OS-lab-xv6-lock/pipe.c:59-121 | every stretch of every process, kill and close keeps writers from being overlooked, and leaves a reader so exactly when a killed writer gives up on a pipe that it has filled |
| PipeWaits.WritersWake | OS-lab-xv6-lock/pipe.c:77-121 | in every run no writer sleeps while there is room or the read end is closed |
| PipeWaits.KilledAwake | OS-lab-xv6-lock/pipe.c:77-121 | no killed process stays or goes asleep on the pipe |
| PipeWaits.ReadersWakeExactly | OS-lab-xv6-lock/pipe.c:77-121 | no reader sleeps in a run while there are bytes or the write end is closed if and only if no killed writer in it gives up so with a reader asleep |
| PipeWaits.NotBothAsleep | OS-lab-xv6-lock/pipe.c:77-121 | but for such a writer, readers and writers never sleep at the same time |
| PipeWaits.ReaderLeftAsleep | OS-lab-xv6-lock/pipe.c:83-86 | a run in which a reader sleeps with the pipe full and nobody else in it |
| Grep.HereFirst | OS-lab-xv6-lock/grep.c:84-96 | a prefix of the text is in the pattern's language exactly when it splits into one for the first item and one for the rest |
| Grep.HereOne | OS-lab-xv6-lock/grep.c:93-94 | one character of pattern takes one matching character of text |
| Grep.HereStar | OS-lab-xv6-lock/grep.c:88-89 | a starred character takes any number of matching characters |
| Grep.MatchHere | OS-lab-xv6-lock/grep.c:84-96 | true exactly when a prefix of the text is in the language of the pattern, the whole text under a final dollar |
| Grep.MatchStar | OS-lab-xv6-lock/grep.c:98-106 | true exactly when after some run of matching characters the rest matches |
| Grep.Match | OS-lab-xv6-lock/grep.c:72-82 | true exactly when some suffix, or the whole text after a leading caret, starts with a string of the pattern |
| SpinLock.PushPop | OS-lab-xv6-lock/spinlock.c:132-153 | as many popclis as pushclis never panic and restore depth and interrupt flag |
| SpinLock.LockStep | OS-lab-xv6-lock/spinlock.c:31-96 | every step of any CPU keeps the lock's invariant |
| SpinLock.MutualExclusion | OS-lab-xv6-lock/spinlock.c:31-96 | at most one CPU owns the lock, which is then set |
| SpinLock.HoldingExact | OS-lab-xv6-lock/spinlock.c:117-126 | holding() answers exactly whether the CPU owns the lock wherever it is called |
| SpinLock.PopsAreSafe | OS-lab-xv6-lock/spinlock.c:145-153 | in every run, wherever popcli is called interrupts are off and a pushcli is there to undo, so neither of its panics is reached |
| SpinLock.PanicsOnlyUnregistered | OS-lab-xv6-lock/spinlock.c:36-45 | of the panics of acquire, release and popcli, a step reaches one exactly when a CPU acquires a lock it holds for a process that is not the registered one |
| SpinLock.ReleaseRestores | OS-lab-xv6-lock/spinlock.c:31-96 | whenever a CPU is outside, its depth and interrupt flag are as at the start, however often it acquired |
| SpinLock.NestedAcquires | OS-lab-xv6-lock/proc.c:537-557 | any number of nested acquires and one release leave the lock free, with depth and flag as before |

## Left out

- FileSystem.FileSystem.Balloc: the panic on a full disk is the result None, and the panics of callers are results too; on such a path the file system is shown to stay consistent, but the machine's halt is not modelled.
- FileSystem.FileSystem.WriteI: inode and bitmap blocks are kept decoded, as InodeTable and OnDisk decode them from bytes; the cache and the log under them are modelled separately.
- FileSystem.FileSystem.ReadI: device inodes (`devsw`) are not modelled, here or in `writei`.
- FileSystem.FileSystem.Itrunc: an inode that is read or written is taken to be locked by its caller, with a reference, as the machine of InodeCache has it.
- FsRuns.StepInv: that an inode is freed only when no other directory names it is a condition of that step, which link counts meet but for `..` of removed directories (InodeCache); that a link names an inode in use is one as well; `ialloc` may take any free inode.
- InodeCache.StepInv: that a name is entered only with a link count raised for it, and a count lowered only after its name is gone, is what the steps of callers are; contents of directories are numbers of names.
- OnDisk.CrashedFileSystem: that calls which overlap between two quiet moments come to whole operations one after the other, which inode locks are for, is its hypothesis; Calls proves it for calls that do not overlap.
- Calls.SerialCalls: that a call passes to log_write the blocks its operations log, with the bytes they then have, is the hypothesis that ties the two machines; Calls.OneCall shows that it can be met.
- InodeTable.IupdateTable: device numbers are in the record but device files are not in the model of the file system.
- Namei.NameX: without reference counts, dropping the last reference to an unlinked directory on the way does not free it, and `..` is an entry like any other.
- FileWrite.OpenFile.FileWrite: one process writes at a time; the file table and its reference counts are left out.
- LogProtocol.StepInv: an operation is admitted in one step when there is room; the sleep and wakeup by which begin_op waits are those of the sleep-lock machine and are not repeated.
- BufferCache.Cache.Unlock: that a modified buffer is logged or written before release is what callers owe, and is a precondition.
- Umalloc.Heap.MoreCore: other users of sbrk may move the break up between calls; shrinking it is left out, as is overflow of a size that does not fit in a `uint`.
- Vm.Memory.Kfree: the free list is a sequence; the link stored in the first word of each free page is not written into it.
- Vm.Memory.MapPages: the panic on an already mapped page is a precondition, as is the presence of the parent's pages in `copyuvm`.
- Shell.ParseArgs: the shared `execcmd` that C code reaches through a chain of redirections is a list of arguments set into the chain at the end; memory for the tree is always there.
- SleepLock.StepInv: the switch to the scheduler and back is a hand-over of ptable.lock; which process runs next is left open.
- ExitWait.StepInv: stacks, page tables, open files and the working directory of a process are left out; sleeping on other channels is one step.
- Scheduler.Cpu.Round: floating-point rounding, and the retry loop of allocproc while the draw is 0, are left out; whatever runs in a switch may change the table freely.
- Scheduler.GenerateRandom: overflow of the product is left out.
- PipeWaits.StepInv: the lock and the scheduler are those of the sleep-lock machine; a process that was woken takes its next stretch at any later time, and a killed process may still start a call.
- SpinLock.NestedAcquires: memory ordering between CPUs and the recorded call stack are left out.
- Boot, device drivers, traps, assembly and the context switch itself: hardware.
- The barrier of `OS-lab-xv6-lock/proc.c:559-587`: it lets go of countLock before sleeping, so the last arrival's wakeup can come first; it has no specification it meets.
- The reading loop of `OS-lab-xv6-lock/grep.c:17-35`: input, and it drops a chunk without a newline.
- Entries made in directories already unlinked; in InodeCache link counts are upper bounds of the numbers of names.
- The size that `mkfs` gives the root directory: it can leave a hole; files start from an inode as ialloc makes it.
- The warm-up console editor, the system-call lab's additions, user utilities and printing: input and output, or easy.
