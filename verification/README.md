# The Solaros kernel's storage stack, heap and scheduler in Dafny

Solaros is a hobby kernel written in Rust. This project models the parts of it whose correctness is
hard to see from the code and proves what they promise.

- **The ext4 journal** (`Disk`, `JournalFormat`, `Journal`, `JournalCrash`, `JournalRun`, `JournalExact`,
  `JournalGuards`, `WrapGuard`, `BacklogGuard`, `BacklogExact`, `PayloadGuard`, `RingPosition`, `JournalDevice`).
  Every block write goes through a redo log in a ring of 1023 blocks. A disk is a sequence of blocks; raw writes
  happen in order; a power failure leaves any prefix of them, with the next one torn at a sector boundary; recovery
  is the replay that runs at mount, and it can itself be cut short. Runs of writes, commits, failures and
  recoveries refine a specification with two maps: what reads return, and what is durable. Where the ring position
  goes after a commit and after a recovery is stated, and where the code breaks its promise, the exact condition
  under which it keeps it.
- **The ext4 file system on it** (`Volume`, `Bitmap`, `FreeSpace`, `InodeAlloc`, `Extents`, `Inodes`, `Files`,
  `FileSystem`, `FileWrite`, `Directory`, `DirectoryOps`, `DirCatalog`, `DirSteps`, `NamedFiles`, `Answers`).
  Bitmaps against counters and checksums, extents against block sequences, directory blocks against a map, files
  against their contents, and at the top the commands of a directory against a catalog of named contents. The
  answer of each command is known from the disk before it, and it is success exactly if what the command needs is
  there.
- **mkfs, mkdir and rmdir** (`Mkfs`, `Format`, `MakeDir`, `RootDir`, `RemoveDir`): mkfs leads to the state
  everything above starts from; rmdir undoes mkdir. `Fragmented` and `LostInode` are two runs of real commands from
  there that lose a block and an inode.
- **Both together** (`FileCrash`, `CommandCrash`, `FirstMount`, `StaleRing`, `MountCheck`, `StuckMount`,
  `CommandLife`): a whole command, committed once, survives power failure at every raw write as the catalog from
  before it or from after it; mounting what mkfs left gives the system this starts from; and over whole lifetimes
  of commands, power failures and mounts a directory shows the outcome of the surviving commands in order.
- **FAT32** (`FatChains`, `Fat`, `FatVolume`, `FatFiles`, `FatDirs`, `FatLeak`): chains as a forest in the table,
  files over chains, directory entries that each lead to a chain of their own, and what a full disk costs.
- **The heap** (`Heap`): a first-fit free list whose headers live in the memory it hands out.
- **The scheduler** (`Sched`): a ready queue with duplicates, sleepers, and the running task.
- **Smaller pieces**: CRC32C (`Crc`), the scancode ring at the level of single atomic operations
  (`ScancodeRing`), and the user table and its file (`Passwd`, `PasswdLoad`).

Code that changes things in place is a class (`JournalDevice`, `Volume.Device`, `HeapAllocator`, `Scheduler`,
`FatVolume.Volume`, `RawRing`) or a method with loops, proved to compute functions on values; the theorems are
about those functions and about whole runs of them. `dafny verify dfyconfig.toml` checks the whole project.

## Findings

The kernel says that each command is crash-atomic (`kernel/src/fs.rs:252-253`), and that a crash before the
commit block is ignored at replay (`kernel/src/ext4.rs:61-64`). The code keeps that only under conditions. Each
failure below has a run or a disk that shows it.

- **A wrap that is not recorded.** When an empty transaction begins at slot 1022 or later, the ring position
  wraps in memory only, and replay does not find the transaction sealed after it. For every slot and every number
  of blocks, commands are atomic exactly if the blocks fit from there, and from these two slots none does
  (`WrapGuard.StartIsExact`, `JournalExact.LostTransaction`).
- **Commands that are too large.** A command is split over transactions exactly if its distinct blocks exceed
  what fits, and then it is not atomic (`JournalExact.SplitsIffTooBig`, `JournalGuards.CapacityIsExact`). Begun
  at slot 1, it also makes the journal log one block behind its ring: whatever lives there is overwritten
  (`JournalGuards.OverrunIsReached`). What a command can write is bounded before it runs
  (`CommandCrash.FitsBefore`).
- **Replay does not advance the superblock.** Until the next commit a replayed transaction is needed again after
  a crash, but its slots may already be written over. On every good disk, commands of so many blocks are atomic
  exactly if they stay clear of those slots (`BacklogExact.ClearIsExact`); such a disk, and a command that loses
  its transaction, are in `BacklogGuard.BacklogLost`.
- **The superblock is checked before the journal is replayed.** A power failure that splits the superblock between
  its two sectors would be repaired by the replay, but mount refuses the volume before it gets there, now and ever
  after. After a failure anywhere in a command the next mount is refused exactly if the failure split the superblock
  and its old checksum does not fit the mixture (`MountCheck.CutMounts`, `CommandLife.PassesIff`). Every `write_file`
  that changes how many blocks a file has can fail so (`StuckMount.WriteCanStick`).
- **mkfs does not clear the ring.** It leaves every slot behind the journal superblock as it was. All disks with a
  given ring mount with their home blocks unchanged exactly if no transaction that replay meets in it names a
  block outside it (`StaleRing.HarmlessExact`, `FreshRingExact`). `FormatOverOldLife` is a whole mkfs whose first
  mount puts the old contents back over block 0.
- **Payloads are not escaped.** A file whose contents look like a commit block can complete a left-over
  descriptor, and a command is then half applied. Commands that carry a given block are atomic on all good disks
  exactly if it does not begin like a commit block (`PayloadGuard.PayloadGuardIsExact`): whatever its checksum,
  some block logged before it has that checksum.
- **A fifth extent loses a block.** When the lowest free blocks make five runs, `write_file` is refused, the
  file is left empty, and the block it had just allocated stays in use with no owner, exactly then
  (`FileWrite.WriteData`); `Fragmented.LosesABlock` gets there with files that grow in turn. The same holds for a
  directory that grows.
- **A failed create loses an inode.** When touch, mkdir or a write to a new name is refused for lack of room, the
  inode it took stays in use, exactly if one was free; mkdir also keeps its block (`NamedFiles.TouchFile`,
  `WriteFile`, `RootDir.MakeDirectory`, and the run `LostInode.LosesAnInode`).
- **rmdir of the directory one is in.** rmdir of the one dot in an empty directory is not refused: the directory is
  freed while its parent still names it (`RemoveDir.RemoveItself`). The directory that held the name survives rmdir
  exactly if the name led to another one (`RemoveDir.Release`).
- **Geometry.** mkfs accepts up to 1024 groups but writes one block of group descriptors, into which those of later
  groups wrap, while the rest of the driver looks for them in further blocks. The driver finds the descriptor
  of every group exactly on volumes of at most 64 groups (`Mkfs.DescriptorsExact`); with 65, those of group 0 and
  of group 64 are both wrong (`Mkfs.TooManyGroups`). The superblock free count is right exactly if the last group
  can hold its own metadata (`Mkfs.SuperCountExact`), but phase 1 fails before that on all others
  (`Mkfs.ZeroMeta`).
- **Heap alignment.** Payloads are 16-aligned whatever the layout asks for: for every larger alignment there is
  a heap that answers with a payload that lacks it (`Heap.AlignmentIsExact`).
- **Passwords.** A table survives saving and loading exactly if no password has a colon, a newline, a zero or
  a character above 255, and the table has a root user or no room for one (`PasswdLoad.SaveLoadExact`,
  `ColonIsLost`).
- **FAT on a full disk.** `write_file` runs out of space exactly if fewer clusters are free than the data needs, or
  a new entry finds neither a free slot nor a cluster behind the data's for the directory to grow. Then everything it
  took stays allocated, which was all that was free (`FatDirs.Replace`, `Create`): clusters are lost exactly if any
  were free. Two volumes on which this happens are in `FatLeak`.

## Model

| member | source | states |
|---|---|---|
| `JournalRun.LifetimeRefines` | kernel/src/ext4.rs:142-191 | every lifetime of block reads, writes, rewrites, forced and explicit commits, power failures and interrupted recoveries is a run of the two-map specification (what reads return, what is durable): reads return the last value written, and what is durable only ever moves to what reads returned, at a commit |
| `JournalRun.EventRefines` | kernel/src/ext4.rs:142-191 | one event, power failure included, is one step of that specification and leaves a good system |
| `JournalRun.StepKeeps` | kernel/src/ext4.rs:155-191 | a write or commit keeps the invariant; reads see exactly that write; home blocks change exactly when the operation commits, and then to what reads returned |
| `JournalRun.StepCrash` | kernel/src/ext4.rs:1084-1138 | power failing after any number of raw writes of an operation, and inside one at a sector boundary, recovers either the home contents before it or, only if it commits, everything that was pending |
| `JournalRun.CrashInLog` | kernel/src/ext4.rs:155-191 | a failure while a block is being logged recovers the old home contents |
| `JournalRun.LogStep` | kernel/src/ext4.rs:155-191 | logging changes what reads of that block return, no home block, and keeps the ring layout and the backlog readable |
| `JournalRun.ForcedWrite` | kernel/src/ext4.rs:171-181 | a write that forces a commit is that commit followed by an unforced write from slot 1 |
| `JournalRun.RecoveryIsRestartable` | kernel/src/ext4.rs:1150-1201 | however often recovery is cut short, at any write, the mount that succeeds finds the home contents one uninterrupted recovery would |
| `JournalRun.MountRestarts` | kernel/src/ext4.rs:1150-1201 | after a failure inside recovery the next mount replays the same transactions and ends in the same ring position |
| `JournalRun.QuietMount` | kernel/src/ext4.rs:1205-1241 | a mount whose ring holds no commit block numbered like the superblock or later changes no home block and gives a good system |
| `JournalExact.CommandAtomic` | kernel/src/fs.rs:252-259 | a command whose distinct blocks fit one transaction, clear of any replayed backlog, is crash-atomic: wherever power fails, recovery finds all home blocks as before it or as after it, and the latter only inside its commit |
| `JournalExact.CommandDurable` | kernel/src/fs.rs:252-259 | once its commit has run, the home blocks hold all writes of the command |
| `JournalExact.SplitsIffTooBig` | kernel/src/ext4.rs:164-181 | a command is split across transactions if and only if its distinct blocks exceed what fits from its first ring position |
| `JournalExact.OversizedCommandSplits` | kernel/src/ext4.rs:164-181 | a command that does not fit, begun at any slot: power failing at its first forced commit recovers to exactly the writes made so far, which filled the transaction |
| `JournalExact.WrapGuardIsExact` | kernel/src/ext4.rs:171-174 | one-block commands begun at a ring position are atomic on every good disk if and only if the position does not need the wrap that is kept in memory only |
| `JournalExact.LostTransaction` | kernel/src/ext4.rs:171-174 | a concrete disk on which a transaction sealed after the unrecorded wrap is not found and a home block is left half rewritten |
| `JournalExact.OverrunGuardIsExact` | kernel/src/ext4.rs:175-181 | a fresh block is logged inside the ring if and only if the transaction did not begin at slot 1 and reach 1020 blocks |
| `JournalExact.OverrunClobbers` | kernel/src/ext4.rs:175-187 | in that corner the block behind the journal is overwritten with the new contents |
| `JournalExact.ChangedDataRejected` | kernel/src/ext4.rs:1174-1184 | one changed byte in any logged data block makes recovery reject the transaction |
| `JournalExact.ChangedDescRejected` | kernel/src/ext4.rs:1174-1184 | one changed byte anywhere in the descriptor, the block count included, makes recovery reject the transaction, as long as the ring has no second commit block with its number |
| `JournalCrash.CrashInCommit` | kernel/src/ext4.rs:1084-1138 | until the first sector of the commit block is written a commit recovers the old home contents, from then on the new ones, whichever of its later writes were made |
| `JournalCrash.CrashInDescriptor` | kernel/src/ext4.rs:1112-1115 | a torn descriptor never passes for a sealed transaction |
| `JournalCrash.CrashInSeal` | kernel/src/ext4.rs:1116-1119 | once any sector of the commit block is down the transaction is complete |
| `JournalCrash.CrashInHomes` | kernel/src/ext4.rs:1120-1129 | half-done home writes are completed by recovery |
| `JournalCrash.CommitDone` | kernel/src/ext4.rs:1130-1137 | a finished commit leaves nothing pending, an empty backlog and every read unchanged |
| `JournalCrash.CommitShape` | kernel/src/ext4.rs:1111-1137 | the raw writes of a commit are descriptor, commit block, logged contents to their home blocks, journal superblock, in this order |
| `JournalCrash.RecoverUnsealed` | kernel/src/ext4.rs:1150-1172 | with only slots of the open transaction touched, recovery finds the home blocks as they were |
| `JournalCrash.RecoverSealed` | kernel/src/ext4.rs:1185-1198 | after the seal recovery completes the transaction wherever the home writes had got to |
| `JournalCrash.SealedTxn` | kernel/src/ext4.rs:1152-1184 | recovery accepts exactly what commit laid out: every check of replay passes for the open transaction once sealed |
| `JournalCrash.ReplayChain` | kernel/src/ext4.rs:1150-1201 | replay applies a chain of sealed transactions in sequence order, stops at its end, and leaves their contents in the home blocks |
| `JournalCrash.RecoveredInv` | kernel/src/ext4.rs:1205-1241 | a recovered system may run on, although replay did not write the journal superblock: the replayed chain stays its backlog |
| `JournalCrash.RestRecovers` | kernel/src/ext4.rs:1205-1241 | a system with nothing pending recovers to its own home contents |
| `Journal.ReplayProgress` | kernel/src/ext4.rs:1150-1201 | each round of replay uses up its sequence number, so the loop ends on every disk, whatever its ring holds |
| `Journal.CopiesFromRing` | kernel/src/ext4.rs:1185-1193 | copying ring slots to their targets never brings contents into the ring that were not there |
| `JournalFormat.DescRoundTrip` | kernel/src/ext4.rs:1088-1097 | a descriptor block reads back as the sequence number and the block list it was made from |
| `JournalFormat.CommitRoundTrip` | kernel/src/ext4.rs:1105-1110 | a commit block reads back as its sequence number and checksum |
| `JournalFormat.SuperRoundTrip` | kernel/src/ext4.rs:1069-1080 | the journal superblock reads back the sequence and start written, and nothing else in it changes |
| `JournalFormat.TornSuper` | kernel/src/ext4.rs:1069-1080 | the journal superblock cannot tear: a partly written one reads as all old or all new |
| `JournalFormat.ChangedDescByte` | kernel/src/ext4.rs:1098-1105 | one changed byte of the descriptor changes the transaction checksum |
| `JournalFormat.ChangedDataByte` | kernel/src/ext4.rs:1098-1105 | one changed byte of any data block changes the transaction checksum |
| `Disk.CrashConcat` | kernel/src/ext4.rs:125-136 | a failure during two lists of raw writes is a failure in the first, or in the second after all of the first |
| `Disk.ApplyIdempotent` | kernel/src/ext4.rs:1185-1193 | repeating a list of raw writes changes nothing more, so redo may run twice |
| `Disk.ApplyHit` | kernel/src/ext4.rs:1185-1193 | a block ends up with what the last write naming it wrote |
| `JournalDevice.JournalDevice.constructor` | kernel/src/ext4.rs:1205-1241 | mounting: without the journal magic the device stays plain; otherwise it is armed exactly if replay meets no target outside the device, with the writes and the state of the specification |
| `JournalDevice.JournalDevice.ReadBlock` | kernel/src/ext4.rs:142-153 | a read returns the newest pending copy of the block, else its home block |
| `JournalDevice.JournalDevice.WriteBlock` | kernel/src/ext4.rs:155-191 | a block write makes exactly the raw writes, and the change of journal state, of the specification |
| `JournalDevice.JournalDevice.LogFresh` | kernel/src/ext4.rs:164-189 | a block not pending yet is logged after room was made, and remembered with its slot |
| `JournalDevice.JournalDevice.MakeRoom` | kernel/src/ext4.rs:171-181 | before that, an empty transaction wraps in memory or a full one is committed |
| `JournalDevice.JournalDevice.FindPending` | kernel/src/ext4.rs:145-149 | the search returns the first pending entry of the block, or none |
| `JournalDevice.JournalDevice.CommitLocked` | kernel/src/ext4.rs:1084-1139 | a commit makes the raw writes of the specification in its order; afterwards memory and journal superblock hold the next number and the position start + 2 + n, or slot 1 where that is beyond the ring, and nothing is pending |
| `JournalDevice.JournalDevice.LogChecksum` | kernel/src/ext4.rs:1098-1105 | the checksum covers descriptor and logged copies, read slot by slot |
| `JournalDevice.JournalDevice.CopyHomes` | kernel/src/ext4.rs:1120-1129 | every logged copy reaches its home block, slot by slot |
| `JournalDevice.JournalDevice.WriteSuper` | kernel/src/ext4.rs:1069-1080 | two fields of the journal superblock are replaced |
| `JournalDevice.JournalDevice.ReplayLog` | kernel/src/ext4.rs:1150-1203 | the replay loop copies out what the specification replays and ends in its state; where the position then is, is RingPosition.ReplayMoves and MountEndsBehind |
| `JournalDevice.JournalDevice.FindSealed` | kernel/src/ext4.rs:1151-1184 | the checks of one replay round accept exactly the sealed transactions of the specification |
| `JournalDevice.JournalDevice.ReplayHomes` | kernel/src/ext4.rs:1185-1193 | a found transaction is copied out up to the first target outside the device |
| `JournalDevice.ReplaySomething` | kernel/src/ext4.rs:1150-1201 | one round of replay is the first transaction of the specification followed by the rest of it, with a smaller measure |
| `Crc.ComputeCrc32c` | kernel/src/crc.rs:8-17 | the byte and bit loops compute the recursive specification |
| `Crc.Chains` | kernel/src/crc.rs:8-17 | feeding two buffers in turn is feeding their concatenation |
| `Crc.Linear` | kernel/src/crc.rs:8-17 | the register is xor-linear in initial value and data |
| `Crc.BitStepsBijective` | kernel/src/crc.rs:10-14 | shift-and-xor steps can be undone and redone: a bijection on 32-bit states |
| `Crc.ByteStepBijective` | kernel/src/crc.rs:9-15 | feeding a fixed byte is a bijection on 32-bit states |
| `Crc.StaysDifferent` | kernel/src/crc.rs:8-17 | two different registers never become equal by feeding both the same data |
| `Crc.OneByteChangeDetected` | kernel/src/crc.rs:8-17 | changing exactly one byte, anywhere, changes the checksum |
| `Extents.ExtentAppend` | kernel/src/ext4.rs:509-553 | appending succeeds exactly when the longer block sequence still has at most four maximal runs; the area then stands for it, and on failure nothing changed |
| `Extents.ExtentMap` | kernel/src/ext4.rs:469-506 | mapping logical block i gives exactly the i-th appended block, and nothing beyond the last |
| `Extents.RunsUnique` | kernel/src/ext4.rs:527-551 | a block sequence has only one list of maximal runs cut at 0x7FFF |
| `Extents.RunsOf` | kernel/src/ext4.rs:527-551 | the entries kept are those maximal runs |
| `Extents.HoldsOne` | kernel/src/ext4.rs:469-506 | an extent area stands for at most one block sequence |
| `Extents.PutStartReads` | kernel/src/ext4.rs:485-487 | the overlapping 16- and 32-bit start fields decode to exactly the block number stored |
| `Extents.RunAt` | kernel/src/ext4.rs:480-491 | every logical block lies in one of the entries |
| `Volume.Device.AllocBlock` | kernel/src/ext4.rs:588-625 | the lowest free block is marked and both counters follow, or no block is free; the superblock, the descriptor and both bitmaps carry their checksums afterwards, so the volume still mounts |
| `Volume.Device.FreeBlock` | kernel/src/ext4.rs:627-650 | the bit is cleared and both counters follow; all checksums are right again |
| `Volume.Device.FindFree` | kernel/src/ext4.rs:590-600 | the group and bit loops find the lowest clear bit of the volume, or prove there is none |
| `Volume.ToggleKeepsAccounting` | kernel/src/ext4.rs:579-650 | marking or freeing keeps every group counter and the superblock counter right, and every checksum: of the superblock, of the descriptors, of the bitmaps |
| `Volume.ToggledUsed` | kernel/src/ext4.rs:601-650 | marking or freeing changes the bit of that block and of no other |
| `Volume.ToggleFrame` | kernel/src/ext4.rs:601-650 | only blocks 0 and 1 and one bitmap block are written |
| `Volume.DataWriteKeeps` | kernel/src/ext4.rs:1449-1456 | writing any other block leaves the accounting and every bit alone |
| `Bitmap.PutBitAt` | kernel/src/ext4.rs:601-602 | setting or clearing a bit changes that bit and no other |
| `Bitmap.ZeroBitsPut` | kernel/src/ext4.rs:609-614 | turning over a bit changes the number of clear bits by exactly one |
| `Mkfs.WriteTables` | kernel/src/ext4.rs:1576-1710 | after phases 2 to 4 the bitmaps have exactly the metadata blocks and the ten reserved inodes in use; with at most 64 groups every counter and every checksum is right, no group counts a directory, and the superblock passes the check of mount |
| `Mkfs.BuildBitmap` | kernel/src/ext4.rs:1576-1594 | a fresh bitmap has exactly the metadata and the bits behind the group set |
| `Mkfs.SuperCountExact` | kernel/src/ext4.rs:1708-1710 | the superblock free count equals the sum of the group counts if and only if the last group can hold its own metadata |
| `Mkfs.ReserveJournal` | kernel/src/ext4.rs:1728-1745 | the 1024 allocations of the journal are consecutive from the first one, exactly they became used, the first gets the journal superblock and the other 1023 keep what they held |
| `Mkfs.JournalExtent` | kernel/src/ext4.rs:1746-1757 | the one extent recorded for inode 8 stands for exactly the reserved blocks |
| `Format.MakeFs` | kernel/src/ext4.rs:1576-1757 | after phases 2 to 6 of mkfs the volume is a sound file system whose only file is the journal, owning those blocks; the used blocks are exactly the metadata and the journal, the used inodes exactly the ten reserved ones; the ring behind the fresh journal superblock is as before |
| `Inodes.Load` | kernel/src/ext4.rs:359-385 | an inode is returned exactly when its checksum fits, else an I/O error |
| `Inodes.Save` | kernel/src/ext4.rs:387-414 | the record is stamped and stored, nothing else is written |
| `Inodes.StampedIsOk` | kernel/src/ext4.rs:400-408 | a stamped record is accepted by load and differs in the four checksum bytes at most |
| `Inodes.SavedReads` | kernel/src/ext4.rs:387-414 | saving one inode changes no other inode |
| `Files.FreeExtents` | kernel/src/ext4.rs:556-575 | exactly the blocks of the file are freed, each once, and no data block is written |
| `FileSystem.ReadFileData` | kernel/src/ext4.rs:1037-1065 | reading returns the file contents cut to the buffer, leaves the rest of the buffer, and refuses what is not a regular file |
| `FileSystem.SameContents` | kernel/src/ext4.rs:1414-1479 | a file whose inode and blocks were not touched keeps its contents |
| `FileSystem.FsReplaced` | kernel/src/ext4.rs:1414-1479 | giving one file other blocks keeps all files disjoint, used and readable |
| `FileWrite.WriteData` | kernel/src/ext4.rs:1427-1479 | the answer is known from the disk before: rewriting succeeds exactly if the lowest blocks free once the old ones are released are enough and make at most four runs; then the file holds exactly the data; otherwise it is empty, exactly its old blocks were freed, and with a fifth run one more block is lost; its inode has one name and counts eight sectors a block; every other file keeps inode and blocks; only accounting, the inode and new blocks were written, no more than the data needs plus one |
| `FileWrite.WriteChunks` | kernel/src/ext4.rs:1450-1460 | the loop takes the free blocks in ascending order, appending and filling one after the other, and ends with the answer computed from that list |
| `FileWrite.AppendChunk` | kernel/src/ext4.rs:1450-1459 | one turn of that loop |
| `FileWrite.GiveUp` | kernel/src/ext4.rs:1461-1473 | the abort path frees what was appended, leaves a valid empty file, and writes only accounting and the inode |
| `FileCrash.RewriteIsAtomic` | kernel/src/ext4.rs:1414-1479 | the block writes of a rewrite, logged and committed once on an idle journal, survive power failure at any raw write, torn or not, as the disk from before or the disk from after, whenever groups plus three plus the new blocks fit one transaction |
| `Directory.FillInserts` | kernel/src/ext4.rs:957-983 | filling a free slot inserts the entry into the block at that place and keeps the block tiled, split or not, blank block or not |
| `Directory.ClearRemoves` | kernel/src/ext4.rs:1018-1026 | clearing the inode number of a record takes exactly its entry out and keeps the block tiled |
| `Directory.PutEntryReads` | kernel/src/ext4.rs:985-991 | a record reads back as the entry written |
| `Directory.InsertEntry` | kernel/src/ext4.rs:957-983 | an entry with a new name changes the map of a directory at that name only |
| `Directory.RemoveEntry` | kernel/src/ext4.rs:997-1035 | taking out an entry removes its name from the map and nothing else |
| `DirectoryOps.Lookup` | kernel/src/ext4.rs:734-797 | lookup agrees with the map of the directory over all its blocks |
| `DirectoryOps.DirDel` | kernel/src/ext4.rs:997-1035 | deletion removes exactly the name, reports a missing one, and leaves every other file alone; no room is lost, and the bytes of the entry are room for another one |
| `DirectoryOps.DirAdd` | kernel/src/ext4.rs:900-983 | insertion adds exactly the name, in a free slot or in a new block; its answer is known from the disk before; the entry uses up no more than its own bytes: whatever fitted beside it before still fits, and a new block has all the rest; links and sector count of the directory follow |
| `DirectoryOps.Grow` | kernel/src/ext4.rs:941-955 | growing adds a blank block and no entry, and answers as the lowest free block decides; without space nothing happened; with a fifth extent that block is lost |
| `DirectoryOps.FindInBlock` | kernel/src/ext4.rs:757-779 | the walk of a block stops at the first record in use with the name |
| `DirectoryOps.SlotInBlock` | kernel/src/ext4.rs:914-936 | a slot is found exactly if the block has an unused record that is long enough, or was never written |
| `DirectoryOps.FindSlot` | kernel/src/ext4.rs:900-938 | the search over all blocks finds a slot exactly if some block has room |
| `Heap.HeapAllocator.Init` | kernel/src/heap.rs:52-66 | the heap begins as one free block of the aligned region |
| `Heap.HeapAllocator.Alloc` | kernel/src/heap.rs:120-163 | first fit: null exactly when no free block is large enough, otherwise the front of the first that is, its end split off when at least 32 bytes remain; the block handed out is less than 48 bytes larger than asked for; tiling, list and payloads are as the split or the unlinking says |
| `Heap.HeapAllocator.Dealloc` | kernel/src/heap.rs:79-96 | the block found from pointer and layout goes to the front of the list; payloads of all other blocks are kept |
| `Heap.HeapAllocator.Realloc` | kernel/src/heap.rs:98-112 | null if and only if every free block is smaller than the new size needs, and then nothing changes; otherwise the first that fits holds the common prefix, the old block is the first of the free list, and list and tiling are otherwise those of the allocation; all other payloads are kept |
| `Heap.HeapAllocator.Store` | kernel/src/heap.rs:98-112 | writing a payload byte hits no header |
| `Heap.PayloadsDisjoint` | kernel/src/heap.rs:120-163 | payloads of different live blocks share no byte with each other or with any header |
| `Heap.SizesConserved` | kernel/src/heap.rs:120-163 | the block sizes always add up to the region |
| `Heap.BlocksDisjoint` | kernel/src/heap.rs:120-163 | different blocks of the tiling do not overlap |
| `Heap.AlignedIff` | kernel/src/heap.rs:123-156 | with an alignment up to 16 a payload has it; with more it lies as its block does |
| `Heap.TakeShape` | kernel/src/heap.rs:145-152 | unlinking a whole free block keeps list, tiling and ownership |
| `Heap.SplitShape` | kernel/src/heap.rs:131-144 | splitting a free block keeps list, tiling and ownership |
| `Heap.FreeShape` | kernel/src/heap.rs:85-92 | returning a block keeps list, tiling and ownership |
| `Heap.FitIs` | kernel/src/heap.rs:128-162 | the loop stops at the first block that is large enough |
| `Sched.ReachableInv` | kernel/src/sched.rs:56-250 | in every run from boot every ready task other than the running one is queued, despite duplicates and dropped entries, and every sleeping one is in the sleeper list |
| `Sched.DispatchKeeps` | kernel/src/sched.rs:151-160 | dispatching drops only entries nobody waits behind |
| `Sched.WakeExactly` | kernel/src/sched.rs:137-149 | the swap_remove loop wakes exactly the tasks whose target has come and removes exactly the due entries |
| `Sched.ScheduleWakesExactly` | kernel/src/sched.rs:129-149 | after a tick a task is awake if and only if its target is not after now: none early, none late |
| `Sched.ScheduleSwitchesIff` | kernel/src/sched.rs:151-187 | a tick switches tasks if and only if some other task is ready after the wake-ups |
| `Sched.TerminateKeeps` | kernel/src/sched.rs:210-250 | the task that exits is dead and no other task changes state; a task to run is found if and only if another one is ready |
| `Sched.BoundedWait` | kernel/src/sched.rs:129-187 | a task queued at index k runs within k + 1 calls that pop the queue |
| `Sched.EveryReadyTaskRuns` | kernel/src/sched.rs:129-187 | every ready task has such an index, so it runs |
| `Sched.KernelAlwaysReady` | kernel/src/sched.rs:56-250 | if task 0 neither sleeps nor exits it is always ready, so every exit finds a task |
| `Sched.Scheduler.WakeSleepers` | kernel/src/sched.rs:137-149 | the in-place loop does what the specification says |
| `Sched.Scheduler.PopNext` | kernel/src/sched.rs:154-162 | popping stops at the first eligible entry |
| `Sched.Scheduler.Tick` | kernel/src/sched.rs:129-187 | a tick is the wake-up followed by the dispatch of the specification |
| `Sched.Scheduler.SpawnTask` | kernel/src/sched.rs:76-101 | a new task is ready and queued last, or refused when the table is full |
| `Sched.Scheduler.Sleep` | kernel/src/sched.rs:192-208 | the running task sleeps and is listed with its target |
| `Sched.Scheduler.Exit` | kernel/src/sched.rs:210-250 | the running task becomes dead, all others keep their state, and the next eligible one runs |
| `Fat.EntrySetReads` | kernel/src/fat.rs:124-140 | writing an entry changes that entry of the table only, keeps all copies equal and touches no sector outside them |
| `FatVolume.Volume.WriteFat` | kernel/src/fat.rs:124-140 | the loop over the copies does this |
| `FatVolume.Volume.ReadFat` | kernel/src/fat.rs:113-122 | reading gives the entry of the table |
| `FatVolume.Volume.AllocCluster` | kernel/src/fat.rs:142-152 | the lowest free cluster becomes the end of a chain, or none is free |
| `FatVolume.Volume.FreeChain` | kernel/src/fat.rs:154-166 | exactly the first two million clusters of the chain become free |
| `FatChains.ChainFreed` | kernel/src/fat.rs:154-166 | freeing a chain leaves every other chain and frees exactly its clusters |
| `FatChains.NewChain` | kernel/src/fat.rs:142-152 | allocation starts a chain of one beside a forest of disjoint chains |
| `FatChains.Linked` | kernel/src/fat.rs:811-820 | linking a chain of one behind another keeps the forest |
| `FatChains.FreeOnNoChain` | kernel/src/fat.rs:142-152 | a free entry lies on no chain |
| `FatChains.ChainShort` | kernel/src/fat.rs:775-795 | a chain is no longer than the table, so following it ends |
| `FatFiles.WriteFile` | kernel/src/fat.rs:799-878 | the answer is known from the table before: no space exactly if fewer entries are zero than the data needs clusters; then nothing is freed, no cluster is written, and all free clusters stay allocated as a chain no file has; otherwise the new chain is made of the lowest free clusters and holds the data, the old one is freed, no other chain and no other cluster changes |
| `FatFiles.BuildChain` | kernel/src/fat.rs:811-823 | the allocation loop takes the lowest free clusters in order and builds one chain of the needed length, or takes every free cluster and stops |
| `FatFiles.WriteChain` | kernel/src/fat.rs:858-877 | the data loops fill the clusters of the chain and no other |
| `FatFiles.ReadFile` | kernel/src/fat.rs:756-797 | reading through the chain returns the data cut to the buffer; the guard never cuts it short |
| `FatFiles.OtherFilesKept` | kernel/src/fat.rs:799-878 | every other file keeps its contents |
| `FatFiles.ChainArrayFits` | kernel/src/fat.rs:810-811 | 128 slots are enough for every file that is accepted |
| `FatFiles.FindFreeSlot` | kernel/src/fat.rs:463-498 | an error exactly if the directory has no free slot and no cluster is free; with a free slot nothing changes, without one the directory grows by the lowest free cluster, cleared; every other chain stays |
| `Fat.ClustersApart` | kernel/src/fat.rs:104-107 | different clusters share no sector |
| `ScancodeRing.RingIsFifo` | kernel/src/keyboard.rs:122-142 | with producer and consumer interleaved at every atomic operation, the popped bytes are the first accepted ones in order and at most 511 are queued |
| `ScancodeRing.StoreIsSafe` | kernel/src/keyboard.rs:129-129 | the store never hits an unread byte, even when the consumer moved since the check |
| `ScancodeRing.DropsOnlyWhenFull` | kernel/src/keyboard.rs:122-142 | a byte is dropped exactly when 511 are queued at the check, and a pop is empty exactly when none is |
| `ScancodeRing.AcceptedInTheEnd` | kernel/src/keyboard.rs:122-132 | a byte offered while there is room is the next one accepted, whatever the consumer does meanwhile |
| `ScancodeRing.StepKeeps` | kernel/src/keyboard.rs:122-142 | every atomic step of either side keeps the ring invariant |
| `ScancodeRing.RawRing.PushByte` | kernel/src/keyboard.rs:122-132 | run alone, a push appends or drops on 511 |
| `ScancodeRing.RawRing.PopByte` | kernel/src/keyboard.rs:134-142 | run alone, a pop takes the oldest byte |
| `PasswdLoad.SaveLoadExact` | kernel/src/users.rs:206-350 | saving and loading gives the table back if and only if every character is a code point from 1 to 255 other than colon and newline and the table has a root user or no room for one |
| `PasswdLoad.SaveThenLoad` | kernel/src/users.rs:206-350 | the same for the driver's loops run one after the other |
| `PasswdLoad.ColonIsLost` | kernel/src/users.rs:206-350 | a concrete table with a colon in a password that does not survive |
| `PasswdLoad.LineRoundTrip` | kernel/src/users.rs:214-227 | a good user's line parses to that user |
| `PasswdLoad.LoadedIsGood` | kernel/src/users.rs:261-350 | whatever file is loaded, the table has only such characters, and a root user or sixteen users |
| `PasswdLoad.Load` | kernel/src/users.rs:261-350 | the line, field and rebuild loops compute the specification on every file |
| `PasswdLoad.SplitFields` | kernel/src/users.rs:285-295 | the field loop gives the first four pieces between colons |
| `PasswdLoad.ParseU32` | kernel/src/users.rs:233-245 | parsing gives the value of a digit string, and nothing on overflow or other bytes |
| `PasswdLoad.BytesToChars` | kernel/src/users.rs:247-259 | bytes are accepted exactly without zero and colon and within the capacity |
| `PasswdLoad.NextUid` | kernel/src/users.rs:88-101 | the least uid from 1000 on that nobody has, after at most one try a user |
| `Passwd.NumberRoundTrip` | kernel/src/users.rs:189-245 | every 32-bit number survives printing and parsing |
| `Passwd.NeverTruncated` | kernel/src/users.rs:206-231 | every table prints to at most 1152 bytes, so the 2048-byte buffer never cuts |
| `Passwd.PushNumber` | kernel/src/users.rs:189-204 | the reversed digit buffer pushes the decimal digits in order |
| `Passwd.Save` | kernel/src/users.rs:206-231 | the loops produce the printed table, whole |
| `JournalExact.SealedDescRejected` | kernel/src/ext4.rs:1174-1184 | recovery rejects a transaction this journal sealed if any one byte of its descriptor is changed |
| `JournalGuards.CapacityIsExact` | kernel/src/fs.rs:252-259 | commands to given blocks, begun at a given ring position, are atomic on all good disks and with all payloads if and only if their distinct blocks fit one transaction |
| `JournalGuards.OverrunIsReached` | kernel/src/ext4.rs:175-187 | a command begun at slot 1, as on a fresh file system, that does not fit reaches the overrun, and the block behind the journal gets the contents of one of its blocks |
| `JournalGuards.FittingIsAtomic` | kernel/src/fs.rs:252-259 | a command that fits is atomic at every point where power can fail |
| `BacklogGuard.BacklogGuardIsExact` | kernel/src/ext4.rs:1150-1201 | after a replayed transaction that filled the ring to its end, with the superblock still pointing at its slot, commands of a given size are atomic on all such systems if and only if they stay below that slot |
| `BacklogGuard.BacklogLost` | kernel/src/ext4.rs:1150-1201 | a concrete system on which a command runs over the replayed transaction, recovery then stops at that slot, and a home block is left half rewritten |
| `BacklogGuard.ClearIff` | kernel/src/ext4.rs:164-187 | which commands stay clear of such a backlog |
| `FreeSpace.NextInLine` | kernel/src/ext4.rs:588-625 | once the first blocks of the ascending free list are taken, the next one is what allocation returns |
| `FreeSpace.FreeCount` | kernel/src/ext4.rs:588-625 | the free list has exactly the blocks that are not used |
| `FreeSpace.OutcomeFifth` | kernel/src/ext4.rs:1450-1460 | a fifth run among the first blocks of the list decides the answer of the whole write |
| `FileWrite.WritableIff` | kernel/src/ext4.rs:1450-1460 | a file can be written exactly if there are enough free blocks and the lowest ones make at most four runs |
| `FileCrash.CommandSurvives` | kernel/src/fs.rs:252-259 | any command whose blocks stay out of the journal and fit one transaction leaves the disk from before it or from after it, wherever power fails |
| `FileCrash.RewriteSafely` | kernel/src/ext4.rs:1414-1479 | write_file from its first block write to its commit on an idle journal: the new contents, or the empty file with its known answer, and the crash guarantee for every failure point of the writes it really made |
| `Fragmented.LosesABlock` | kernel/src/ext4.rs:1450-1473 | a run of real commands from mkfs on: two touched files written longer in turn until the free blocks between them make five runs, and then a write that is refused; the file is empty and a block no file has stays in use |
| `InodeAlloc.AllocInode` | kernel/src/ext4.rs:652-686 | the lowest free inode is marked and both inode counters follow; an error means every inode is used and nothing changed |
| `InodeAlloc.FreeInode` | kernel/src/ext4.rs:688-714 | freeing a used inode clears its bit and moves both counters |
| `InodeAlloc.FindInode` | kernel/src/ext4.rs:654-663 | the loops find the lowest clear bit of the inode bitmaps, or prove there is none |
| `InodeAlloc.RemarkKeepsAccounting` | kernel/src/ext4.rs:652-714 | marking or freeing an inode keeps all block and inode counters and all checksums right |
| `InodeAlloc.RemarkedMarks` | kernel/src/ext4.rs:652-714 | marking changes the bit of that inode and of no other |
| `InodeAlloc.RemarkFrame` | kernel/src/ext4.rs:652-714 | only blocks 0 and 1 and one inode bitmap are written |
| `DirCatalog.StoredShown` | kernel/src/ext4.rs:1414-1479 | storing a file changes the catalog of a directory (contents by name, other entries) at that name only |
| `DirCatalog.DroppedShown` | kernel/src/ext4.rs:1481-1493 | dropping a file takes its name out of the catalog and leaves the rest |
| `DirCatalog.RenamedShown` | kernel/src/ext4.rs:1528-1541 | renaming an entry moves it in the catalog and leaves the rest |
| `DirCatalog.FsWithout` | kernel/src/ext4.rs:1481-1493 | a file system stays sound without one of its files once that file's blocks are free |
| `DirSteps.Discard` | kernel/src/ext4.rs:1489-1491 | free_extents and free_inode release exactly the file's blocks and its inode, with every other file kept |
| `DirSteps.Rewrite` | kernel/src/ext4.rs:1427-1479 | write_file from the known inode, seen from the directory: its names stay, the file has its new contents in the lowest free blocks, no block of another file is written, no inode is marked |
| `NamedFiles.WriteFile` | kernel/src/ext4.rs:1414-1479 | writing by name does to the catalog what the specification says, with the answer and the result known from the disk before; blocks of inodes no name leads to are not written; when a new name is refused for lack of room and some inode was free, exactly one inode is lost |
| `NamedFiles.ReadFile` | kernel/src/ext4.rs:1352-1361 | reading by name returns the contents of the catalog cut to the buffer, or the right error |
| `NamedFiles.TouchFile` | kernel/src/ext4.rs:1363-1374 | touch adds an empty file under a new name and does nothing to a known one; when it fails, nothing changed if no inode was free, else exactly one inode is lost |
| `NamedFiles.RemoveFile` | kernel/src/ext4.rs:1481-1493 | rm takes the file out of the catalog, exactly its blocks and its inode are free again; on error nothing changed |
| `NamedFiles.MoveFile` | kernel/src/ext4.rs:1528-1541 | mv within a directory renames the entry, whatever it leads to; a taken name is refused |
| `NamedFiles.AnswerAllowed` | kernel/src/ext4.rs:1352-1541 | the answers computed from the disk are ones the specification of the commands allows |
| `NamedFiles.UnnamedKept` | kernel/src/ext4.rs:1352-1541 | in every run of commands, files that no command names keep their contents |
| `NamedFiles.LastWriteHolds` | kernel/src/ext4.rs:1352-1541 | after every run a file holds what the last successful write to its name wrote, if no later command named it |
| `CommandCrash.Execute` | kernel/src/fs.rs:252-259 | each command, by its driver, refines the catalog specification with its known answer and writes no more than its cost in blocks beside those of the accounting |
| `CommandCrash.RunOnJournal` | kernel/src/fs.rs:252-259 | a whole command on an idle journal: if its blocks fit one transaction clear of the backlog, which follows from a bound known before the call, power failing anywhere leaves the disk of the old catalog or of the new one, and once the commit is done the new one is durable; the journal area is never written by the command |
| `MakeDir.PackEntries` | kernel/src/ext4.rs:1790-1799 | the record loop writes the entries one behind the other, the last one up to the end of the block |
| `MakeDir.PackedLive` | kernel/src/ext4.rs:1790-1799 | such a block is tiled and stands for exactly those entries |
| `MakeDir.NewDirectory` | kernel/src/ext4.rs:1384-1404 | a new directory is one block and one inode of a sound file system; it fails exactly if no block is free |
| `MakeDir.BumpedFs` | kernel/src/ext4.rs:716-730 | the counter of directories is moved without touching any other field, file or bit |
| `RootDir.MakeDirectory` | kernel/src/ext4.rs:1376-1412 | mkdir adds a name that leads to an empty directory with two links, gives its parent one link more and counts it in its group; its answer is known from the disk before; exactly one inode, one block and what the parent grew by are taken; when it is refused and some inode was free, one inode that no file has, and the lowest free block if there was one, stay in use |
| `RootDir.MakeRoot` | kernel/src/ext4.rs:1759-1814 | phases 7 and 8 of mkfs: they succeed exactly if the first group has room for seven more blocks, and then the root directory shows exactly the six names, which lead to inodes 11 to 16, six empty directories; group 0 counts seven directories |
| `RootDir.FormatVolume` | kernel/src/ext4.rs:1545-1814 | a whole mkfs, its answer known from the size: no space exactly below 8192 blocks and unsupported exactly above 1024 groups, both with nothing written; an I/O error exactly if the last group is shorter than its metadata; otherwise the root directory represents the catalog of six empty directories, all links, sector counts and directory counts are right, exactly the lowest inodes and blocks are in use, every checksum is right, no name leads to the journal inode, and the ring slots are as before: the start of every run of commands |
| `Heap.AlignmentIsExact` | kernel/src/heap.rs:120-163 | for every size and every power of two, requests are answered with an aligned payload on every heap if and only if the alignment is at most 16 |
| `FatDirs.EntriesApart` | kernel/src/fat.rs:236-283 | in a rooted directory every entry's chain starts at its cluster field, is finite and ended, and shares no cluster with any other entry's |
| `FatDirs.RootedMoved` | kernel/src/fat.rs:434-461 | changing or wiping one entry keeps that, if the new cluster is a new chain or none |
| `FatDirs.EntryPutReads` | kernel/src/fat.rs:434-449 | an entry written reads back with its name, attributes, both cluster halves and size, and no other slot changes |
| `FatDirs.Replace` | kernel/src/fat.rs:799-878 | write_file over an entry, with the answer known from the table before: it leads to the lowest free clusters with exactly the data, the old chain is free, all other entries and their chains are as before; the entry keeps its name and attributes, every other slot all its bytes |
| `FatDirs.Create` | kernel/src/fat.rs:799-878 | write_file of a new entry, with its answer known: no space exactly if the data lacks clusters, or the directory has no free slot and no cluster is left for it to grow; the entry has the name, the archive attribute, the cluster and the size; no other slot changes but for the blank ones of a new cluster |
| `FatDirs.Remove` | kernel/src/fat.rs:695-708 | rm frees exactly the chain of the entry and wipes the first byte of its slot; every other byte of every slot of the directory and every other chain is as before |
| `FatFiles.TakeChain` | kernel/src/fat.rs:807-833 | the chain for the data is the lowest free clusters and the old chain is freed, or, exactly if there are too few, all free clusters are taken and the old chain stays |
| `FatChains.FirstFree` | kernel/src/fat.rs:142-152 | taking the first free entry takes the head off the ascending list of free entries |
| `FatLeak.LostForGood` | kernel/src/fat.rs:811-823 | each cluster so taken is in use in the table and lies on the chain of no file |
| `FatLeak.TooFewClusters` | kernel/src/fat.rs:811-823 | a concrete volume on which write_file of more than one cluster finds one free cluster, is refused, and loses it |
| `FatLeak.NoRoomForEntry` | kernel/src/fat.rs:463-498 | a concrete volume on which the data gets its cluster but the full directory cannot grow: the write is refused and a complete chain is lost |
| `Mkfs.BuildTable` | kernel/src/ext4.rs:1613-1645 | the table loop, whose offset wraps after 64 entries, leaves each place of the block to the last group that was put there |
| `Mkfs.DescriptorsExact` | kernel/src/ext4.rs:258-264 | on the volume those loops leave, desc_read finds the bitmap of every group if and only if there are at most 64 groups |
| `Mkfs.FirstOverwritten` | kernel/src/ext4.rs:258-264 | with more groups, group 0 is read as the last group whose number is a multiple of 64 |
| `Mkfs.LateDescriptor` | kernel/src/ext4.rs:258-264 | and the descriptor of group 64 is read out of the block bitmap of group 0: all ones |
| `Mkfs.TooManyGroups` | kernel/src/ext4.rs:258-264 | the loops of mkfs followed by two descriptor reads, on any volume of 65 to 1024 groups, the one of 65 included: both are wrong |
| `Mkfs.ZeroMeta` | kernel/src/ext4.rs:1557-1574 | phase 1 clears the metadata blocks of every group and fails exactly if the last group ends before its metadata |
| `Mkfs.JournalSuperReads` | kernel/src/ext4.rs:1731-1743 | the journal superblock mkfs writes has the magic, sequence number 1, and is read as start 1 |
| `StaleRing.HarmlessExact` | kernel/src/ext4.rs:1205-1241 | for every ring: all disks with it mount with their home blocks unchanged if and only if no transaction that replay meets in it names a block outside it |
| `StaleRing.FreshRingExact` | kernel/src/ext4.rs:1728-1745 | behind a fresh journal superblock, and with home targets only, that is: if and only if no sealed transaction with number 1 lies at slot 1 |
| `StaleRing.SameReplay` | kernel/src/ext4.rs:1150-1201 | what replay writes depends on the ring alone |
| `StaleRing.FormatOverOldLife` | kernel/src/ext4.rs:1545-1814 | a whole mkfs over a ring with such a transaction: the new file system is complete, and its first mount puts the old contents over block 0 |
| `FirstMount.FirstMounted` | kernel/src/ext4.rs:1205-1295 | mounting what mkfs left, with a quiet ring, passes the superblock check with the geometry of the device and gives an idle journal at slot 1 with number 1 whose home blocks are that file system |
| `FirstMount.HomeShown` | kernel/src/ext4.rs:1205-1241 | masking out the journal blocks, which only inode 8 owns, leaves the catalog of a directory as it is |
| `FirstMount.FirstCommand` | kernel/src/fs.rs:252-259 | mkfs, mount and a first command: if groups plus two plus the command's own blocks are at most 1020 and no payload looks like a commit block, power failing anywhere leaves the six empty directories or what the command made of them |
| `CommandLife.TurnEnds` | kernel/src/fs.rs:252-259 | a command, whole or with power failing at any raw write of it and in some of the mounts after it, ends in a good system with nothing pending: the home blocks are those after it if it was whole, those before it if power failed before its commit, else one of the two |
| `CommandLife.TakeTurn` | kernel/src/fs.rs:252-259 | the same for the driver's commands and the catalog of a directory; a whole one gives the answer known from the disk before, and a turn whose mount is refused is told apart |
| `CommandLife.Live` | kernel/src/fs.rs:252-259 | whole lifetimes: commands one after another, power failing in any of them, remounts in between; the directory always shows the outcome of the surviving commands in order, and the lifetime goes on as long as each command has room in the journal, no payload looks like a commit block and no mount is refused |
| `CommandLife.LiveFromMkfs` | kernel/src/ext4.rs:1545-1814 | the same for every lifetime that begins with mkfs over a quiet ring and the first mount |
| `CommandLife.UnnamedSurvives` | kernel/src/fs.rs:252-259 | in every such lifetime a file that no command names any more stays as it is, whatever fails |
| `CommandLife.LastWriteSurvives` | kernel/src/fs.rs:252-259 | a write that ran to the end of its commit outlives every later power failure, until a command names the file again |
| `CommandCrash.FitsBefore` | kernel/src/fs.rs:252-259 | a command fits one transaction if groups plus two plus its cost do, a bound known from the size of the volume and the command alone |
| `CommandCrash.SpentFew` | kernel/src/fs.rs:252-259 | the distinct blocks of a command are at most those |
| `WrapGuard.StartIsExact` | kernel/src/ext4.rs:171-174 | commands of n blocks begun at a ring position are atomic on all good disks if and only if n is at most what fits from there, for every position and every n: nothing fits at the two positions that need the unrecorded wrap |
| `WrapGuard.WrapIsNot` | kernel/src/ext4.rs:171-174 | at those positions a concrete command of every size is not atomic, large ones included, whose first transaction is already lost |
| `WrapGuard.WrapsAtOnce` | kernel/src/ext4.rs:171-174 | beginning there is beginning at slot 1 with the superblock left behind |
| `BacklogExact.ClearIsExact` | kernel/src/ext4.rs:1150-1201 | on every good disk whose backlog has not run into itself, whatever the number and size of its transactions: all commands of n blocks are atomic if and only if a transaction of n blocks stays clear of the slots the superblock still points at |
| `BacklogExact.ReachedIsTorn` | kernel/src/ext4.rs:1150-1201 | any command that reaches the slot the superblock points at, on any disk it differs from, is half applied when power fails after its seal and half of its first home block |
| `BacklogExact.LogsAll` | kernel/src/ext4.rs:155-189 | block writes of distinct blocks are logged slot by slot behind the descriptor, whatever the ring held |
| `PayloadGuard.PayloadGuardIsExact` | kernel/src/ext4.rs:1150-1184 | commands that carry a given block as payload are atomic on all good disks if and only if the block does not begin like a commit block |
| `PayloadGuard.ForgedPayloadBreaks` | kernel/src/ext4.rs:1150-1184 | for every commit block, whatever its checksum, there is a good disk with a left-over descriptor, and a command of two blocks carrying it, that is half applied: recovery takes the payload for a seal |
| `PayloadGuard.MatchingBlock` | kernel/src/ext4.rs:1098-1105 | for every checksum there is a plain block that, logged behind such a descriptor, has it |
| `Crc.FourBytesReach` | kernel/src/crc.rs:8-17 | from every register four bytes lead to every other one |
| `Crc.FedAtOnce` | kernel/src/crc.rs:8-17 | up to four bytes can be fed one by one or xored in at once |
| `Fragmented.GrowInTurn` | kernel/src/ext4.rs:1414-1479 | the run up to there: both files have four runs |
| `LostInode.LosesAnInode` | kernel/src/ext4.rs:1376-1412 | a run from mkfs on the smallest volume: a file with all free blocks, then a mkdir that is refused; one more inode is in use, and no file and no name has it |
| `NamedFiles.Loses` | kernel/src/ext4.rs:1363-1374 | an inode marked and never taken back by a command that then fails is in use, in no file map and under no name |
| `DirSteps.IsPlaced` | kernel/src/ext4.rs:1450-1473 | which blocks the file then has, and which one is lost, from the free list before |
| `RingPosition.CommitMoves` | kernel/src/ext4.rs:1131-1137 | a finished commit leaves the position behind the transaction, at start + 2 + n, or at slot 1 where that is beyond the ring, with the next number, in memory and in the journal superblock alike; no backlog is left, so that commands of every size are clear of it |
| `RingPosition.SealedMoves` | kernel/src/ext4.rs:1194-1197 | wherever the home writes had got to, the mount of a sealed transaction continues behind it and has it as the last of the backlog |
| `RingPosition.ReplayMoves` | kernel/src/ext4.rs:1194-1197 | power failing anywhere after the first sector of the seal: the mounted position is start + 2 + n, or 1 where that is beyond the ring, with the next number; the backlog is the old one and this transaction exactly if the superblock write had not begun |
| `RingPosition.ClearAfterReplay` | kernel/src/ext4.rs:1150-1201 | after that mount, commands of n blocks are clear of the backlog if and only if the position did not go back to slot 1, or they end below the slot the superblock points at |
| `RingPosition.AtomicAfterReplay` | kernel/src/ext4.rs:1150-1201 | so commands of up to m blocks, with start + n + 3 + m at most 1023, are atomic right after such a recovery |
| `RingPosition.MountEndsBehind` | kernel/src/ext4.rs:1150-1201 | mounting any chain of sealed transactions that ends inside the ring: the position is behind the last of them, the number counts them, and commands of every size are clear |
| `RingPosition.ChainEnds` | kernel/src/ext4.rs:1150-1201 | a chain of sealed transactions takes exactly the slots from its start on, two more than its blocks for each |
| `CommandLife.WholeMoves` | kernel/src/ext4.rs:1131-1137 | after a whole command the position is behind its blocks, and the next command may begin if and only if its bound fits what is left of the ring from there |
| `Volume.MountsIff` | kernel/src/ext4.rs:1245-1295 | mount_at accepts a superblock exactly if its fields are in order and, with checksums, the field at 628 is CRC32C from all ones over the 1024 bytes with that field zero |
| `Volume.SealedMounts` | kernel/src/ext4.rs:227-244 | changing counters and sealing leaves the volume mountable |
| `Mkfs.FreshSuperMounts` | kernel/src/ext4.rs:1646-1710 | the superblock mkfs writes is accepted by mount, with the geometry of the device |
| `FirstMount.StillMounts` | kernel/src/ext4.rs:1245-1295 | so is block 0 of what mkfs leaves behind |
| `MountCheck.TornMounts` | kernel/src/ext4.rs:1263-1270 | a superblock torn between two versions is refused with an I/O error if and only if it is torn between its two sectors, there are checksums, and the old checksum does not fit the mixture |
| `MountCheck.OneCounter` | kernel/src/ext4.rs:1263-1270 | if exactly one of the three counter fields changed, it does not fit |
| `MountCheck.CutBlockZero` | kernel/src/ext4.rs:1108-1139 | at every failure point of a command block 0 is the old one, the new one, or torn in its own home write |
| `MountCheck.CutMounts` | kernel/src/ext4.rs:1245-1295 | after power failing anywhere in a command, mount goes on to the journal if and only if the failure did not split the superblock or its old checksum fits the mixture: the superblock is checked before the journal, which would repair it, is replayed |
| `CommandLife.PassesIff` | kernel/src/ext4.rs:1245-1295 | in a lifetime of commands and failures, the first mount after a failure is refused if and only if that happened |
| `StuckMount.FreeIsRest` | kernel/src/ext4.rs:252-256 | the superblock counts exactly the blocks that are not in use |
| `StuckMount.SameInodeCount` | kernel/src/ext4.rs:652-714 | if no inode was marked or unmarked, its count of free inodes is the same |
| `StuckMount.CanStick` | kernel/src/ext4.rs:1263-1270 | every command that changes how many blocks are in use but no inode has a failure point after which mount answers an I/O error |
| `StuckMount.WriteCanStick` | kernel/src/ext4.rs:1414-1479 | write_file by name, on every volume with checksums: if the number of blocks of the file changes and the command fits the journal, there is a failure point after which the volume does not mount |
| `Crc.BurstDetected` | kernel/src/crc.rs:8-17 | two data differing within four neighbouring bytes have different checksums |
| `Crc.PolyIsCastagnoli` | kernel/src/crc.rs:1-6 | the constant is the Castagnoli polynomial of section 12.1 of RFC 3720, reflected |
| `Inodes.OneByteRejected` | kernel/src/ext4.rs:359-385 | with one byte other than the size of the extra fields changed, a record that carries its checksum is refused if and only if the byte is covered by the checksum or part of it |
| `Answers.AnswerExact` | kernel/src/ext4.rs:1363-1540 | a command succeeds if and only if what it needs is there, said without the order in which it looks: a free inode, a place for the record in a directory block or in one block more, enough free blocks of which the lowest make at most four runs |
| `Answers.DataExact` | kernel/src/ext4.rs:1450-1473 | writing a number of blocks is refused as unsupported if and only if a fifth run comes before the blocks run out, and for lack of space otherwise |
| `Answers.AddExact` | kernel/src/ext4.rs:941-971 | adding a name succeeds if and only if some block has room or the lowest free block can be appended; it answers no space exactly if there is no room and every block is in use |
| `Answers.MkdirExact` | kernel/src/ext4.rs:1376-1412 | mkdir succeeds if and only if the name is new, an inode and a block are free, and without that block there is still a place for the name |
| `MakeDir.DotsLead` | kernel/src/ext4.rs:1389-1393 | a new directory leads to itself by one dot, to its parent by two, and nowhere else |
| `RootDir.SixTargets` | kernel/src/ext4.rs:1759-1761 | the names lead to these inodes in the order of the list |
| `RootDir.SixNames` | kernel/src/ext4.rs:1759-1761 | and there is no other name |
| `RemoveDir.HasOthers` | kernel/src/ext4.rs:1503-1513 | the walk of rmdir finds an entry beside the two dots exactly if the directory has one |
| `RemoveDir.Release` | kernel/src/ext4.rs:1495-1519 | rmdir up to the release of the inode: refused exactly if the name is missing, is no directory, or the directory has other entries; else exactly its blocks and its inode are free; the directory that held the name is still in use if and only if the name led to another one |
| `RemoveDir.RemoveItself` | kernel/src/ext4.rs:1495-1519 | mkdir, then rmdir of the one dot inside it: never refused, and the name in the parent leads to a free inode |
| `RemoveDir.RemoveDirectory` | kernel/src/ext4.rs:1495-1526 | rmdir of a name that leads elsewhere: the name, the directory, its blocks and its inode are gone, every other name, file and inode stays, the parent has one link less and the group one directory less, neither below zero |
| `RemoveDir.MakeThenRemove` | kernel/src/ext4.rs:1376-1526 | mkdir then rmdir of the same name: catalog, files, inodes, directory counts and links are as before, but for a link count that was at its limit, and so are the used blocks but for those the parent grew by |
| `DirSteps.FreeFile` | kernel/src/ext4.rs:1517-1519 | free_extents and free_inode release exactly the blocks of a file and its inode; every other file and inode is as before |
| `Sched.DeadStaysDead` | kernel/src/sched.rs:56-250 | in every run a dead task that is not running stays dead and never runs again |
| `Sched.ExitIsForGood` | kernel/src/sched.rs:210-250 | so a task that exits while another is ready is gone for good |
| `Sched.SpawnAdds` | kernel/src/sched.rs:76-101 | a new task is ready and waits behind everyone queued before it; nothing else changes |
| `Sched.SpawnedRuns` | kernel/src/sched.rs:76-101 | it runs once the queue has been popped one time more than it had entries |
| `Sched.SleepLasts` | kernel/src/sched.rs:192-208 | a sleeping task sleeps through every run before its tick |
| `Sched.SleepEnds` | kernel/src/sched.rs:129-149 | and is ready with the first tick that has come to its target, not before |
| `PasswdLoad.RootIsAdded` | kernel/src/users.rs:336-343 | loading adds nothing, or at the end a root user with uid 0, gid 0 and no password, exactly if no line gave one and there is room |
| `PasswdLoad.CollectIsFirst` | kernel/src/users.rs:261-335 | the table gets the first sixteen users that lines give |
| `PasswdLoad.UnreadNumbers` | kernel/src/users.rs:296-330 | a number that cannot be read counts as uid 0, or as the uid in place of a gid |

## Left out

Conditions under which the results hold, and where a contract is weaker than one could wish:

- JournalRun.LifetimeRefines: holds for lifetimes that avoid the wrap, the overrun, a backlog and payloads with the header of a commit block. The conditions are exact for one command on all good disks (`WrapGuard`, `JournalGuards`, `BacklogExact`, `PayloadGuard`), not for a single disk: there a wrap or a forged payload may happen to do no harm.
- BacklogExact.ClearIsExact: the backlog has not run into itself, and the device has room for the command outside the journal.
- PayloadGuard.PayloadGuardIsExact: the number field of the block is at most 2^32 - 3, as the numbers of transactions are.
- StaleRing.FreshRingExact: the first transaction names home blocks only; `HarmlessExact` has no such condition.
- JournalExact.ChangedDescRejected: assumes that no second block of the ring is a commit block with the transaction's number; `SealedDescRejected` derives this for transactions the journal sealed itself.
- JournalDevice.JournalDevice.CommitLocked: sequence numbers stay below 2^32; at that point the kernel's addition overflows.
- JournalDevice.JournalDevice.constructor: raw reads and writes inside the device succeed; only a power failure ends an operation early. A disk is at least 1026 blocks longer than the journal's first block.
- Disk.CrashConcat: a block is torn as a prefix of its eight 512-byte sectors; raw writes are not reordered.
- Crc.ComputeCrc32c: the 32-bit register is modelled by its bits, least significant first.
- Volume.Device.AllocBlock: geometry of at most 64 groups whose last one can hold its metadata, as the findings require.
- FileWrite.WriteData: file sizes stay below 4 GiB, and a grown directory's block count is taken modulo 2^32, as the 32-bit fields are.
- NamedFiles.WriteFile: commands on one directory at a time, names already split from paths; no two names of the directory share an inode, which the commands preserve. `mv` within one directory only.
- RootDir.MakeDirectory: the parent's link count is a 16-bit field and wraps like it.
- RemoveDir.RemoveDirectory: the name leads to another directory, whose entries are in order and which is no regular file of the parent; what rmdir does after freeing the directory it is in is left out (`Release` ends there).
- Inodes.OneByteRejected: a change of the field that says how many extra bytes there are is not covered: with zero there, every record is accepted (`NoExtraNoCheck`).
- RootDir.FormatVolume: what becomes of volumes of 65 to 1024 groups after the tables is left out, since the driver then reads block bitmaps as descriptors; so are the backup superblocks of phase 5 and a base sector other than 0. The mount at its end is `FirstMount.FirstMounted`.
- Format.MakeFs: phases 2 to 6 on volumes of at most 64 groups, for the same reason.
- CommandLife.Live: a lifetime ends where a command has no room in the journal, a payload looks like a commit block or a mount is refused, the cases of the findings. `PassesIff` says when the first mount after a failure is refused; that a later one in the same turn passes is part of the turn. `mkdir` and `rmdir` are not among its commands.
- CommandCrash.RunOnJournal: says what recovery makes of the disk once mount gets to it; whether it does is `MountCheck.CutMounts`. The same holds for FileCrash and for the journal modules.
- RingPosition.AtomicAfterReplay: the backlog lies in front of the position without a wrap, as an empty one does.
- FirstMount.FirstMounted: mount looks up inode 8 to find the journal; here its place is the one mkfs recorded.
- Heap.HeapAllocator.Dealloc: the pointer and layout come from an earlier allocation, as the allocator interface demands; free blocks are never merged, and the `used` statistic, which mixes request and block sizes, is not stated.
- FatFiles.WriteFile: the layout is well formed: the table has an entry for every cluster, and the chains form a forest; the sizing loop of the FAT mkfs, which does not guarantee this, is left out.
- FatVolume.Volume.FreeChain: frees at most two million clusters, the limit in the code.
- FatDirs.Replace: entries are found by slot; 8.3 names, name lookup, mkdir, rmdir and mv on FAT are left out.
- Sched.ReachableInv: the tick counter is a parameter; context switch, stacks and page tables are left out.
- PasswdLoad.SaveLoadExact: the file is a list of bytes, cut to 2048 when loaded; where it is stored and what passwords are checked for is left out.

Not modelled:

- ext4: extent trees of depth above 0, timestamps, user and group ids, path resolution, `ls`, `cat`, `mv` between directories.
- Locks and interrupt masking: operations run one at a time, except in the scancode ring, where every atomic operation is a step.
- Disk controllers, port I/O, partition tables, the page tables and the ELF loader: hardware and memory owned by other code.
- The keyboard layout tables, the serial ring (two producers share it), the terminal, the framebuffer and the shell commands: user interface.
