# Verified models of the motion controller firmware

The firmware boots an FPGA motion controller from a FAT formatted card, runs a small kernel, drives an SPI
controller, talks to its user over a serial terminal and feeds motion commands to a stepper core.  This project
models the parts of it that are hard to get right and proves what they are for.  `dafny verify dfyconfig.toml`
checks everything.

## What is modelled

**FatFs** (`FatTable`, `FatBits`, `FatGeometry`, `FatBoot`, `FatVolume`, `FatChains`, `FatAlloc`, `FatFailures`,
`FatFileState`, `FatFile`, `FatRuns`, with `Arithmetic` and `SectorBytes` below).  Four layers, each shown to be a fast form
of something simple.  The one-sector window over the drive is a drive.  The packed FAT seen through it is a sequence of
numbers, each a stretch of the bits of the table.  The
clusters in use are a set of disjoint chains.  A file, with its position, its own dirty sector and its direct
transfers, is a byte string and a position.  The last is stated for whole runs in `FatRuns.CallAll`: how much a
write takes and where a seek ends are functions of the content, the position and one number fixed for the run,
the bytes that the file's own and the free clusters hold.

Which transfers of the drive fail is arbitrary in the lower layers (`FatVolume`, `FatAlloc`, and `FatRuns.AccessAll`
over them): there each call has the exact condition, on the state before it, under which it fails.  `FatFailures`
holds the two volumes on which a failure does silent harm.  It is arbitrary as well for files without write access,
their link maps and the boot loader: a byte that is returned is the right one whatever fails (`FatRuns.ReadsAreRight`).
For files with write access it is arbitrary which transfers of the file's own sectors fail.

`LinkMap` is the table of the fast-seek configuration, `FatDir` walking a directory, `Lfn` long names in entries,
and `BootElf` the segment loop of the boot loader as a client of `f_lseek` and `f_read`.

**Kernel IPC** (`KernelSemaphore`, `MessageQueue`, `KernelMutex`).  System calls are steps; a call that blocks is
two steps, before and after `process_block`.  Theorems are about every sequence of enabled steps.  Each class
carries out the steps on the fields of the kernel object, and its contracts tie it to the step function.  For each of the
three, the callers can keep an account from the answers to their calls alone; the kernel object agrees with it after
every run, so that a process that was told to sleep is where it can be woken.

**SPI** (`SpiTransfer`).  A device with transmit and receive FIFOs of any depth and a slave that answers each byte
depending on all bytes so far.  The polled transfer and the interrupt-driven one are proved against the sequence of
answers.  Interrupts are served at arbitrary times, and the device goes on by itself between the moment the handler
clears the interrupt and the moment it holds the transmitter back.

**Line editor** (`Terminal`, `LineModel`, `Cmdline`).  `Terminal` is the current line of a VT100.  `LineModel` is
the line as its user knows it: the text on both sides of the cursor and the lines entered last.  `Cmdline` is the
editor with its buffer, edit position and history rows.

**Motion** (`Segments`, `Steppers`, `MotionDevice`, `MotionSystem`, `MotionError`).  `Steppers` is the state machine that
hands targets to the device through its start bit, `Segments` the cubic segments it computes, over exact reals.
`MotionDevice` is the motion core clock by clock, in registers of 32 and 64 bits.  `MotionSystem` runs the two against
each other: the core's loading a command is the firmware's command being taken, and the position of the core over a whole
run is a closed form of the commands and their times.  Accepted targets are not only never lost, they are issued and
taken over within so many turns and clocks (`MotionSystem.System.Drain`).  `MotionError` compares the core with the plan.

## Configuration

The repository builds FatFs read-only, without fast seek and long names (`sdloader/src/ffconf.h:22`, `:45`,
`:84`).  Reading, seeking, the FAT reads, mounting and the boot loader are about that build: a file without write
access never writes, and the window is never dirty.  Everything that writes, `LinkMap` and `Lfn` are about the code
in the same file that these switches enable.  Throughout, `_FS_TINY` is 0 and sectors have 512 bytes
(`sdloader/src/ffconf.h:17`, `:118`).

## Assumptions

- A write of the drive that fails changes nothing on it; a read that fails may leave anything in the buffer.  Files
  with write access are about runs in which no transfer of the FAT fails, and directories about runs in which none does.
- `process_unblock` takes one waiter off the queue and makes it ready, which one is arbitrary; a timeout only
  reaches a process that is still queued; up to 127 processes fit in a wait queue.
- The SPI device keeps a byte in the transmit FIFO until its exchange is complete, and raises transmit-empty when
  the last one is.
- The main loop runs a waiting command before it reads the next key (`sdloader/src/main.c:241-249`).  Whole sessions
  are about commands whose output leaves the terminal settled for the prompt, as all of `sdloader/src/main.c` do.
- Software fills the registers of the motion core before it sets the start bit, and writes none while that is set; the
  core does not look at them meanwhile (`MotionSystem.IgnoresBank`).
- The reset register of the motion device works like its reset input, which clears the start bit
  (`pcores/motion_v1_00_a/hdl/verilog/user_logic.v:212-214`).

## Where the code does not do what one expects

- `chk_mounted` computes the sizes in 32 bits.  Accepted records serve exactly when nothing wraps
  (`FatGeometry.MountServesIff`); one that wraps is given.
- `put_fat` sets the dirty flag on its error path as well.  When the window shows no sector, as after mounting, a
  first transfer that fails leaves it dirty on sector 0 (`FatVolume.Volume.PutFat`, `FatFailures.FirstStoreFails`).
- `create_chain` takes a disk error from its first FAT read for the end of the chain and may cut the chain there
  (`FatAlloc.SuccessorFound`, `FatAlloc.ChainCut`, `FatFailures.DiskErrorCutsChain`).
- `move_window` ignores the result of writing the other FAT copy, so that a flush may report success and leave the
  copies different (`FatVolume.FlushedCopies`).
- `remove_chain` keeps the chains intact exactly when nothing links to its start.
- Building a link map fails on a chain that ends in the last cluster of the volume with an end mark equal to
  `n_fatent`, because the mark looks like the next cluster (`LinkMap.Overruns`).
- Long names of 254 and 255 characters are written but cannot be read back.
- A timed-out waiter counts against the semaphore until it runs.  A wait in between can block although a unit is
  left, and stay blocked (`KernelSemaphore.StrandedWaiter`).
- `IPC_NOWAIT` is 3 and shares a bit with `MSG_NOERROR`.  `sys_msgsnd` does not wait if either of its bits is set,
  `sys_msgrcv` only if it is the whole flag word (`MessageQueue.FlagsOverlap`).  `sys_msgrcv` loses the slot of a
  message it drops as too big.
- An SPI transfer in interrupt mode is sure to take place in full exactly when no transmit-empty interrupt is pending
  from before (`SpiTransfer.InterruptIff`).  A polled transfer leaves one pending, and an interrupt-driven one of any
  length behind it may be reported early (`SpiTransfer.Spi.PolledThenInterrupt`).  A transfer refused for want of a
  slave enables the interrupts even of a polled driver (`SpiTransfer.Spi.Transfer`).
- Deleting from a recalled line does not mark it as a new one, so that it replaces the entry it came from.  The
  header calls the history one command deep; it is ten.
- `steppersQueue` returns no defined value when it accepts a target.
- A stop after a move whose target is to be passed at speed makes the planned velocity jump to zero.
- The motion core adds up what the firmware plans as a continuous motion.  A move ends where it should only if it is
  one at constant velocity (`MotionError.ExactMoveMisses`).  A move that another one waits behind loses its last
  velocity step, and nothing makes up for it (`MotionDevice.LossesAdd`).  A stopped device keeps its velocity
  (`MotionDevice.StoppedGoesOn`) until the firmware has noticed and given it a stop (`MotionSystem.NextLeg`);
  `start 1000 0 1000` ends at 24 positions a second (`MotionError.ThousandMisses`).

## Model

| member | source | states |
|---|---|---|
| FatRuns.CallAll | sdloader/src/ff.c:2341-2987 | every run of f_read, f_write and f_lseek on one open file is a run of a byte string with a position that can grow to a fixed number of bytes; the trace of byte strings is exhibited step by step. On a file without write access any transfer may fail, on others any of the sectors of the file: a call fails only when a transfer does, and every call after it is refused |
| FatRuns.Call | sdloader/src/ff.c:2341-2987 | one call refines one step of the byte file: a read returns the slice at the position, a write changes exactly the bytes written and reports exactly how many fitted, a seek ends at the offset or at the bound and leaves the old bytes alone; a call that fails has returned or written only right bytes and keeps all others |
| FatRuns.ReadsAreRight | sdloader/src/ff.c:2341-2453 | over every run on a file without write access, whatever transfers fail: each byte a read has returned, also one that failed, is the byte of the file at that position, the bytes of the file never change, and behind a failure everything is refused |
| FatRuns.RoomKept | sdloader/src/ff.c:2480-2506 | what a file can grow to, its clusters and the free ones, is the same at every moment of a run |
| FatRuns.ReadsBackWritten | sdloader/src/ff.c:2341-2987 | bytes written, sought back to and read are the bytes that were written |
| FatRuns.AccessAll | sdloader/src/ff.c:592-779 | any sequence of get_fat, put_fat and move_window, whatever transfers fail: each access is one to a map, or says that it failed and changed at most its own entry; the cache survives except for a store that fails at its first transfer while the window shows no sector that may be rewritten, and never breaks from a window that does; without failures the run is a run of the map, and ends with agreeing FAT copies when it ends with a flush |
| FatRuns.Access | sdloader/src/ff.c:592-779 | one access, with the exact condition under which it fails, under which the cache survives, and under which a flush that reports success leaves the FAT copies equal |
| FatFile.File.constructor | sdloader/src/ff.c:2320-2333 | the object f_open leaves satisfies the file invariant with the file position at 0 |
| FatFileState.ContentAt | sdloader/src/ff.c:2365-2388 | byte p of a file is byte p % 512 of the sector that belongs to it by its place in the chain, in the buffer if that is newer |
| FatFile.File.Write | sdloader/src/ff.c:2459-2591 | whatever transfers of its sectors fail, the content becomes the old one overwritten at the file position with the first bw bytes; bw falls short only when the chain is full to its end and no cluster is free, the size would pass 4 GB, or a transfer fails, which marks the file and leaves its size; an aborted or read-only file is left alone |
| FatFile.File.WriteLoop | sdloader/src/ff.c:2480-2586 | the loop writes all data, or stops at the end of a full chain on a full disk, or where a transfer fails |
| FatFile.File.WriteStep | sdloader/src/ff.c:2482-2584 | one turn writes a non-empty first part of the data at the file position, by direct transfer or through the buffer, and keeps the rest of the file, or finds the disk full and changes nothing, or fails with a transfer and keeps every byte |
| FatFile.File.WriteAligned | sdloader/src/ff.c:2482-2569 | at a sector boundary: the disk is full, a transfer has failed, whole sectors have been written, or the buffer is ready for the sector of the file position |
| FatFile.File.NextClusterForWrite | sdloader/src/ff.c:2484-2506 | at a cluster boundary the current cluster becomes the one the file position lies in, new if the chain had ended; it fails only with no cluster free |
| FatFile.File.SectorForWrite | sdloader/src/ff.c:2482-2523 | at a sector boundary the dirty buffer is written back and the sector of the file position is found; if the write fails every byte of the file is kept |
| FatFile.File.WriteThrough | sdloader/src/ff.c:2524-2554 | whole sectors go straight to the drive within the cluster, and the buffer stays what the drive holds; or the transfer fails and nothing changes |
| FatFile.File.FillForWrite | sdloader/src/ff.c:2562-2569 | the buffer holds the sector of the file position unless it lies beyond the file; if it cannot be read every byte of the file is kept |
| FatFile.File.Patch | sdloader/src/ff.c:2571-2583 | copying into the buffer overwrites exactly those bytes of the file |
| FatFile.File.Flush | sdloader/src/ff.c:2512-2518 | writing the dirty buffer back changes no byte of the file, also when it fails; then the buffer stays dirty |
| FatFile.File.Stretch | sdloader/src/ff.c:2497-2505 | create_chain on a cluster of the file gives the next one, appending exactly one fresh cluster at the end of the chain |
| FatFile.File.StretchFirst | sdloader/src/ff.c:2485-2488 | an empty file gets a chain of one cluster |
| FatFile.File.Read | sdloader/src/ff.c:2341-2453 | whatever transfers fail, what it returns is the content from the file position on, and the content does not change; min(btr, fsize - fptr) bytes on success, fewer when a transfer fails, which marks the file |
| FatFile.File.ReadLoop | sdloader/src/ff.c:2360-2451 | the loop returns all bytes wanted, or those up to the first turn that fails |
| FatFile.File.FromBuffer | sdloader/src/ff.c:2438-2449 | the rest of a sector comes out of the buffer |
| FatFile.File.Load | sdloader/src/ff.c:2432-2436 | a sector that cannot be read spoils the buffer, but no byte of the file |
| FatFile.File.ReadStep | sdloader/src/ff.c:2364-2450 | one turn reads a non-empty first part of the bytes wanted, by direct transfer or through the buffer, or fails with a transfer and keeps every byte of the file |
| FatFile.File.SectorForRead | sdloader/src/ff.c:2364-2388 | finds the sector of the file position by following the chain, unless the FAT cannot be read |
| FatFile.File.ReadThrough | sdloader/src/ff.c:2389-2419 | sectors read directly, the dirty one replaced by the buffer, are the bytes of the file |
| FatFile.File.FetchRun | sdloader/src/ff.c:2393-2413 | the sectors read, with the dirty one taken from the buffer, are those of the file |
| FatFile.File.FillForRead | sdloader/src/ff.c:2420-2436 | the buffer comes to hold the sector of the file position, after a dirty one is written back; if either transfer fails every byte of the file is kept |
| FatFile.File.Lseek | sdloader/src/ff.c:2900-2987 | without write access ends at min(ofs, fsize) and keeps the content; with it ends at ofs, or at the end of a full disk, growing the size, and keeps the old bytes; or a transfer fails, which marks the file, and all bytes and the size are kept |
| FatFile.File.SeekTo | sdloader/src/ff.c:2909-2980 | both ways of seeking, forward from the current cluster and again from the head, end with the cluster and sector that belong to the file position |
| FatFile.File.SeekOn | sdloader/src/ff.c:2932-2980 | from a cluster of the chain the walk and the landing end at the goal, at the end of a full disk, or with a transfer that fails |
| FatFile.File.SizeUp | sdloader/src/ff.c:2981-2986 | the size follows a position behind it, and the old bytes stay |
| FatFile.File.SeekStart | sdloader/src/ff.c:2912-2931 | the walk starts at a cluster of the chain that does not lie behind the goal |
| FatFile.File.SeekFromHead | sdloader/src/ff.c:2917-2931 | starts at the head of the chain, which is created if there is none |
| FatFile.File.SeekWalk | sdloader/src/ff.c:2932-2953 | stops in the cluster of the goal, in the last cluster of a full disk, or where the FAT cannot be read |
| FatFile.File.Follow | sdloader/src/ff.c:2942-2946 | get_fat gives the next cluster of the chain unless a transfer fails |
| FatFile.File.SeekLand | sdloader/src/ff.c:2954-2980 | moves into the cluster and brings a partly used sector into the buffer; a failure keeps every byte of the file |
| FatFile.SeekForward | sdloader/src/ff.c:2913-2916 | masking the file position gives the start of the current cluster, which is not past the goal |
| FatAlloc.CreateChain | sdloader/src/ff.c:844-896 | whatever fails and whatever the table holds: returns the successor of the cluster, 1 for a bad one, 0 on a full table, 1 at a reserved value met before a free cluster, or the first free cluster, linked and marked as an end; a failed first read is taken for the end of the chain; a later failure returns 0xFFFFFFFF and leaves at most two entries changed; a known free count stays right |
| FatAlloc.FindFree | sdloader/src/ff.c:866-881 | the wrapping search ends from any start point, at the first cluster that is free or holds 1, at a read that fails, or with 0 exactly when there is neither |
| FatAlloc.Append | sdloader/src/ff.c:866-895 | the part of create_chain behind the first read |
| FatAlloc.LinkCluster | sdloader/src/ff.c:882-885 | both stores, or after a failure at most the two entries changed |
| FatAlloc.SuccessorFound | sdloader/src/ff.c:858-864 | on a cluster that has a successor create_chain returns it and leaves the table alone exactly when reading the entry does not fail; otherwise a cluster it returns has taken the place of the successor |
| FatAlloc.ChainCut | sdloader/src/ff.c:859-885 | the rest of the chain is then a chain that nothing links to |
| FatAlloc.UsableCreate | sdloader/src/ff.c:844-896 | when nothing fails and no entry holds 1: the first free cluster behind the start point, or 0 exactly when there is none |
| FatAlloc.NearestFree | sdloader/src/ff.c:844-896 | the new cluster is the nearest free one counting up from the last of the chain, or from the hint, with wrap-around; it holds 0xFFF, 0xFFFF or 0x0FFFFFFF, the last one links to it, and no other entry changes; 0 exactly on a full table |
| FatFailures.DiskErrorCutsChain | sdloader/src/ff.c:858-896 | a volume with a chain of two clusters and one failing read on which create_chain returns a new cluster, no error, and has cut the second one off |
| FatAlloc.RemoveChain | sdloader/src/ff.c:787-836 | on any table, cyclic ones included, zeroes exactly what Removed says, and fails with an internal error exactly when it meets the value 1; a failing transfer leaves only visited clusters changed; a known free count stays right |
| FatAlloc.CreateKeepsWellFormed | sdloader/src/ff.c:882-885 | allocation keeps the clusters in use a set of disjoint chains |
| FatAlloc.GrownCounts | sdloader/src/ff.c:886-891 | an allocation takes exactly one from the number of free clusters |
| FatAlloc.FreedCounts | sdloader/src/ff.c:814-820 | a cluster zeroed adds exactly one to the number of free clusters |
| FatAlloc.AllocAll | sdloader/src/ff.c:787-896 | any sequence of create_chain and remove_chain keeps a known free count right and, as long as chains are removed from their heads, the clusters in use a set of disjoint chains |
| FatAlloc.AllocOne | sdloader/src/ff.c:787-896 | so does each call |
| FatChains.Allocate | sdloader/src/ff.c:882 | a free cluster marked as an end is a new chain of its own beside all the others |
| FatChains.Extend | sdloader/src/ff.c:882-885 | linking the end of a chain to a free cluster appends that cluster to this chain and touches no other |
| FatChains.Release | sdloader/src/ff.c:801-833 | zeroing a chain removes that chain and keeps all others |
| FatChains.RemovedClearsVisited | sdloader/src/ff.c:801-833 | on every table remove_chain zeroes exactly the clusters that can be reached from its start |
| FatChains.MeetsReservedIff | sdloader/src/ff.c:803-809 | remove_chain meets the value 1 exactly when its start or a cluster linked to by a visited one holds it |
| FatChains.RemovedChain | sdloader/src/ff.c:801-833 | called on the head of a chain it clears that chain |
| FatChains.RemoveKeepsWellFormed | sdloader/src/ff.c:787-836 | called on a cluster in use it keeps the table well formed exactly when no cluster links to it |
| FatChains.NoLinkToFree | sdloader/src/ff.c:859-863 | in a well-formed table no link leads into a free cluster |
| FatChains.LinksAreInjective | sdloader/src/ff.c:859-863 | in a well-formed table no two links lead into one cluster |
| FatChains.NoCycles | sdloader/src/ff.c:802-833 | in a well-formed table every cluster in use reaches the end of a chain |
| FatChains.CountsAddUp | sdloader/src/ff.c:817-820 | free clusters, the clusters of one chain and those of all others make up the volume |
| FatVolume.Volume.constructor | sdloader/src/ff.c:2099-2130 | the state after mounting: no sector in the window, nothing dirty, hint and free count as FSInfo gives them or unknown |
| FatVolume.Volume.MoveWindow | sdloader/src/ff.c:592-622 | the drive seen through the window does not change, whatever fails; it fails exactly when a dirty window cannot be written to its sector or the new one not read; after a flush the FAT copies agree exactly if they did outside the window and the write of its copy, whose result the code ignores, did not fail to change it |
| FatVolume.Volume.WriteBack | sdloader/src/ff.c:601-613 | writes the window to its sector and the other FAT copy; only a failure of the first write keeps it dirty |
| FatVolume.FlushedCopies | sdloader/src/ff.c:602-613 | when the FAT copies agree after the window is written back |
| FatVolume.Volume.GetFat | sdloader/src/ff.c:679-716 | returns the entry, 1 out of range, or 0xFFFFFFFF exactly when a transfer it needs fails; the table does not change. Bit k of the result is bit 12 c + k, 16 c + k or 32 c + k of the first FAT as a string of bits, the lowest of each byte first |
| FatBits.EntryBits | sdloader/src/ff.c:691-713 | an entry is the stretch of 12, 16 or 28 bits that begins 12, 16 or 32 bits behind the one before |
| FatVolume.EntryReadsBits | sdloader/src/ff.c:691-713 | the same in the sectors of the drive |
| FatVolume.Volume.GetFat12 | sdloader/src/ff.c:691-701 | a 12-bit entry is read right also when it straddles two sectors |
| FatVolume.Volume.GetFat16 | sdloader/src/ff.c:702-708 | a 16-bit entry is read from its sector |
| FatVolume.Volume.GetFat32 | sdloader/src/ff.c:709-713 | a 28-bit entry is read from its sector |
| FatVolume.Volume.PutFat | sdloader/src/ff.c:722-779 | fails exactly when a transfer it needs fails; otherwise changes exactly one entry, to the value cut to the width: exactly those bits of the first FAT become the bits of the value, and the four above a FAT32 value are or-ed in; the cache survives exactly if the window showed a sector that may be rewritten or the first transfer succeeds, and then a failed store leaves every other entry alone |
| FatBits.PutBits | sdloader/src/ff.c:733-775 | every bit of the table after a store |
| FatVolume.PutStoresBits | sdloader/src/ff.c:733-775 | the same in the sectors of the drive |
| FatVolume.Volume.StoreEntry | sdloader/src/ff.c:733-775 | the stores of the three kinds of table under one contract |
| FatFailures.FirstStoreFails | sdloader/src/ff.c:722-779 | on every freshly mounted volume whose first transfer fails the store leaves the window dirty on sector 0 |
| FatVolume.Volume.PutFat12 | sdloader/src/ff.c:734-753 | stores both bytes, or after a failure in between only the first |
| FatVolume.Volume.PutFat16 | sdloader/src/ff.c:754-762 | stores the entry in its sector |
| FatVolume.Volume.PutFat32 | sdloader/src/ff.c:763-772 | stores the entry in its sector, the reserved bits kept |
| FatVolume.PutUpdatesEntries | sdloader/src/ff.c:733-775 | seen as numbers, the table changes in one place |
| FatTable.PutReadsBack | sdloader/src/ff.c:733-775 | a stored value reads back, cut to 12, 16 or 28 bits |
| FatTable.PutKeepsOthers | sdloader/src/ff.c:733-775 | every other entry keeps its value, also one that shares a byte |
| FatTable.HalfPutKeepsOthers | sdloader/src/ff.c:740-747 | a 12-bit store cut short after one byte still leaves every other entry alone |
| FatTable.PutKeepsReservedBits | sdloader/src/ff.c:769-771 | the top four bits of a FAT32 entry survive a store, or-ed with those of the value |
| FatGeometry.MountServesIff | sdloader/src/ff.c:2043-2097 | an accepted boot record describes a volume that serves, with regions that follow on each other, room in the FAT for every entry, a mark that ends chains and every sector of every cluster where 32-bit arithmetic finds it, exactly when neither the end of the system area, nor the end of the last cluster, nor the number of entries wraps around |
| FatBoot.ChkMounted | sdloader/src/ff.c:2043-2097 | exactly the boot sectors with plausible bytes are accepted, and every field of the geometry is the number that its bytes make up; the volume serves exactly when nothing wraps around |
| FatBoot.AcceptedIff | sdloader/src/ff.c:2043-2097 | which boot sectors are accepted, in terms of bytes 11 to 47, the counts 4086 and 65526 and 32-bit sums |
| FatBoot.AcceptedDescribes | sdloader/src/ff.c:2048-2092 | the geometry of an accepted one, in the same terms |
| FatBoot.MountsCard | sdloader/src/ff.c:2043-2097 | the boot sector of an ordinary card and its geometry |
| FatGeometry.MountLayout | sdloader/src/ff.c:2043-2097 | such a record gives the layout the other modules start from exactly when the volume ends below sector 2^32 and the entry numbers below those that mark bad clusters |
| FatGeometry.SystemFits | sdloader/src/ff.c:2061-2086 | regions that follow on each other show that nothing in the system area wrapped around |
| FatGeometry.LastSectorServes | sdloader/src/ff.c:665-674 | a last cluster that is found right shows that the data area ends below 2^32 |
| FatGeometry.WrappingRecordIsAccepted | sdloader/src/ff.c:2052-2069 | a record whose FAT area wraps to nothing is accepted although the volume does not serve |
| FatGeometry.TableFits | sdloader/src/ff.c:2087-2097 | the size test leaves room in the first FAT for every byte of the last entry |
| FatGeometry.ClusterSectors | sdloader/src/ff.c:665-674 | every sector of every cluster lies in the data area and belongs to that cluster only |
| FatGeometry.MarkEndsChain | sdloader/src/ff.c:688-713 | the mark 0x0FFFFFFF reads back as no next cluster on all three kinds |
| Arithmetic.ClearLowestBit | sdloader/src/ff.c:2053-2055 | the test with b and b - 1 accepts powers of two and nothing else |
| Arithmetic.AndMask | sdloader/src/ff.c:2365 | masking with a power of two less one is the remainder |
| BootElf.SeekAndRead | sdloader/src/main.c:120-141 | f_lseek then f_read on a file open for reading returns the slice at min(ofs, fsize), wherever the file position was, unless a transfer fails |
| BootElf.LoadChunks | sdloader/src/main.c:111-141 | the chunks of 32 KiB copy exactly the part of the file image the file has, unless a transfer fails; nothing but the image of the segment is touched |
| BootElf.LoadSegments | sdloader/src/main.c:104-150 | memory becomes what loading the segments one after the other, image then zeros, makes of it; if a transfer fails the loader stops, and memory outside the segments is as it was |
| BootElf.ImageLoaded | sdloader/src/main.c:110-149 | a byte of a segment that no later one covers is the byte of the file, or zero behind the image; where the file is too short it keeps its value |
| BootElf.OutsideKept | sdloader/src/main.c:104-150 | memory outside all segments is left alone |
| LinkMap.CreateLinkMap | sdloader/src/ff.c:2826-2862 | on any open file, whatever transfers fail: reports exactly the size needed, succeeds exactly when the table has it, and then holds the run-length encoding; short of a failing transfer it fails exactly on a chain whose end mark is one more than its last cluster; every failure, and nothing else, marks the file |
| LinkMap.BuildMap | sdloader/src/ff.c:2828-2862 | the same of the loop over any chain |
| LinkMap.OverrunsIff | sdloader/src/ff.c:2840-2850 | the failing chains are those that end in the last cluster of the volume with the number of entries as their end mark |
| LinkMap.OverrunExists | sdloader/src/ff.c:2840-2850 | a table and a chain for which that is so |
| LinkMap.MarkedChainsBuild | sdloader/src/ff.c:882 | a chain ended by the mark of create_chain is not among them |
| LinkMap.GetFragment | sdloader/src/ff.c:2835-2850 | finds the longest run of consecutive clusters, unless the mark looks like the next cluster or a transfer fails |
| LinkMap.StoreFragment | sdloader/src/ff.c:2851-2854 | a fragment goes behind those already stored |
| LinkMap.Finish | sdloader/src/ff.c:2857-2862 | notes the size needed and ends the table exactly when it was large enough |
| LinkMap.ClmtClust | sdloader/src/ff.c:905-924 | looks an offset up in the encoded fragments |
| LinkMap.LookupWalks | sdloader/src/ff.c:905-924 | looking up in the fragments of a chain is walking that many links |
| LinkMap.MapOfThree | sdloader/src/ff.c:2831-2860 | the words of the table of a chain of two fragments |
| FatDir.StepTo | sdloader/src/ff.c:931-1036 | k calls of dir_next from dir_sdi(0) reach the cluster, sector and entry that dir_sdi(k) reaches, and succeed together with it |
| FatDir.Dir.Seek | sdloader/src/ff.c:931-965 | succeeds exactly when the table has the entry, and finds it, in static and in chained tables |
| FatDir.Dir.FollowChain | sdloader/src/ff.c:951-959 | follows as many links as whole clusters lie before the entry |
| FatDir.Dir.Next | sdloader/src/ff.c:970-1036 | goes to the following entry, and ends exactly at the end of the table or at index 65535 |
| FatDir.EntryAfter | sdloader/src/ff.c:982-1034 | the following entry lies in the same sector, the next one, or at the start of the next cluster |
| FatDir.EntryIsBytes | sdloader/src/ff.c:931-965 | a directory in clusters is a string of 32-byte entries as long as the clusters, each entry where its bytes lie; the root directory of FAT32 is such a one |
| FatDir.RootIsBytes | sdloader/src/ff.c:944-950 | the root directory of FAT12 and FAT16 lies in its own sectors |
| FatDir.EntriesBefore | sdloader/src/ff.c:943-961 | a table that has an entry has all entries before it |
| Lfn.LoadName | sdloader/src/ff.c:1095-1124 | reading the entries of a name back, last part first, restores the terminated name exactly when it has at most 253 characters |
| Lfn.MatchName | sdloader/src/ff.c:1068-1093 | every entry stored for a name matches that name exactly when it has at most 254 characters |
| Lfn.StoreName | sdloader/src/ff.c:1404-1440 | a name is stored in one entry for every thirteen characters, the last part first |
| Lfn.OneLastEntry | sdloader/src/ff.c:1148-1150 | exactly one of them carries the flag of the last part |
| Lfn.FitLfn | sdloader/src/ff.c:1127-1151 | an entry holds its part of the name, the terminator and filler |
| Lfn.BootElfEntry | sdloader/src/ff.c:1127-1151 | the 32 bytes of the entry of one name |
| Lfn.PickLfn | sdloader/src/ff.c:1095-1124 | collects the characters of an entry and touches nothing else; fails exactly when they, or the extra terminator, do not fit |
| Lfn.CmpLfn | sdloader/src/ff.c:1068-1093 | matches exactly when the characters agree in upper case and a name that fills its last entry ends there |
| KernelSemaphore.ValueIsBalance | bsp/xilkernel_v4_00_a/src/src/ipc/semaphore.c:332-482 | in every run with timed waits the value is the initial one, plus posts, less units granted, sleepers and timed-out processes not resumed, all counted from the answers to the calls, as long as a signed char holds that |
| KernelSemaphore.RunAsTold | bsp/xilkernel_v4_00_a/src/src/ipc/semaphore.c:332-482 | over every run, the processes on the queue are those told to sleep and neither woken nor timed out, those late are the timed-out ones that have not run, and posts and units granted are those that were answered so |
| KernelSemaphore.StepAsTold | bsp/xilkernel_v4_00_a/src/src/ipc/semaphore.c:332-482 | each call leaves the semaphore as its answer says |
| KernelSemaphore.OthersKeepOrder | bsp/xilkernel_v4_00_a/src/src/ipc/semaphore.c:332-482 | the waiters that stay keep their order |
| KernelSemaphore.RunConserves | bsp/xilkernel_v4_00_a/src/src/ipc/semaphore.c:332-482 | over every run this account holds modulo 256 |
| KernelSemaphore.StepConserves | bsp/xilkernel_v4_00_a/src/src/ipc/semaphore.c:340-482 | every step keeps the account modulo 256 |
| KernelSemaphore.RunBalanced | bsp/xilkernel_v4_00_a/src/src/ipc/semaphore.c:332-482 | without timeouts the queue is as long as the value is negative, and initial value + posts = grants + available |
| KernelSemaphore.StepBalanced | bsp/xilkernel_v4_00_a/src/src/ipc/semaphore.c:340-482 | a step keeps that balance exactly when it does not count beyond a signed char |
| KernelSemaphore.StepFair | bsp/xilkernel_v4_00_a/src/src/ipc/semaphore.c:387-402 | with timeouts, a step keeps "nobody waits while a unit is left" exactly when it is not a wait that blocks because a timed-out waiter is still counted |
| KernelSemaphore.RunFair | bsp/xilkernel_v4_00_a/src/src/ipc/semaphore.c:332-482 | every run without such a wait stays fair |
| KernelSemaphore.PostWakes | bsp/xilkernel_v4_00_a/src/src/ipc/semaphore.c:475-477 | on a fair semaphore a post wakes a waiter if there is one |
| KernelSemaphore.StrandedWaiter | bsp/xilkernel_v4_00_a/src/src/ipc/semaphore.c:387-402 | a run of two waits, a timeout and two posts that leaves a process waiting on a positive value |
| KernelSemaphore.Semaphore.constructor | bsp/xilkernel_v4_00_a/src/src/ipc/semaphore.c:127-149 | a new semaphore with its value cut to a signed char and nobody waiting |
| KernelSemaphore.Semaphore.Wait | bsp/xilkernel_v4_00_a/src/src/ipc/semaphore.c:332-414 | the wait step up to process_block; blocks exactly when the value becomes negative |
| KernelSemaphore.Semaphore.TryWait | bsp/xilkernel_v4_00_a/src/src/ipc/semaphore.c:432-447 | takes a unit exactly when the value is positive |
| KernelSemaphore.Semaphore.Post | bsp/xilkernel_v4_00_a/src/src/ipc/semaphore.c:467-482 | the post step: counts up and wakes one waiter while the value is not positive |
| KernelSemaphore.Semaphore.Timeout | bsp/xilkernel_v4_00_a/src/src/ipc/semaphore.c:388-391 | a timed waiter leaves the queue but stays counted in the value |
| KernelSemaphore.Semaphore.ResumeLate | bsp/xilkernel_v4_00_a/src/src/ipc/semaphore.c:394-398 | the timed-out process restores the value when it runs |
| KernelSemaphore.Semaphore.ForceDestroy | bsp/xilkernel_v4_00_a/src/src/ipc/semaphore.c:531-547 | wakes waiters, whichever process_unblock picks, in exactly as many rounds as the value and the queue allow, and empties the queue on every fair semaphore |
| MessageQueue.QueueIsBounded | bsp/xilkernel_v4_00_a/src/src/ipc/msg.c:249-368 | over every interleaving: stored messages + woken senders + free slots + messages dropped as too big = length of the queue, and what was received is the first part of what was sent |
| MessageQueue.CallsAreWhereTold | bsp/xilkernel_v4_00_a/src/src/ipc/msg.c:249-368 | over every interleaving a call told to sleep and not finished is on the wait queue or woken, and no other is; the queue holds the messages of the accepted sends, in order, less those handed out, in order; each message handed out as too big costs a slot |
| MessageQueue.CallsAreOnce | bsp/xilkernel_v4_00_a/src/src/ipc/msg.c:249-368 | each call is exactly one of refused, asleep and finished |
| MessageQueue.StepAsTold | bsp/xilkernel_v4_00_a/src/src/ipc/msg.c:249-368 | each step leaves the queue as its answer says |
| MessageQueue.StepKeepsInv | bsp/xilkernel_v4_00_a/src/src/ipc/msg.c:249-368 | every step keeps that account; a message is stored only where there is room and taken only where there is one |
| MessageQueue.RunKeepsInv | bsp/xilkernel_v4_00_a/src/src/ipc/msg.c:249-368 | so does every run |
| MessageQueue.SlotsLostForGood | bsp/xilkernel_v4_00_a/src/src/ipc/msg.c:351-357 | slots of messages dropped as too big never come back: once all are lost no message is stored in any later run |
| MessageQueue.FlagsOverlap | bsp/xilkernel_v4_00_a/src/include/sys/ipc.h:36 | IPC_NOWAIT shares its bits with MSG_NOERROR: a send with either of the two lowest bits does not wait, and a receive that does not wait cuts messages instead of dropping them |
| MessageQueue.Queue.constructor | bsp/xilkernel_v4_00_a/src/src/ipc/msg.c:140-152 | a new queue with all slots free |
| MessageQueue.Queue.Send | bsp/xilkernel_v4_00_a/src/src/ipc/msg.c:266-291 | the send step up to blocking; refuses, and changes nothing, exactly when the flag word has a bit of IPC_NOWAIT and no slot is free; without that bit it joins the wait queue then |
| MessageQueue.Queue.SendResume | bsp/xilkernel_v4_00_a/src/src/ipc/msg.c:279-291 | a woken sender stores its message |
| MessageQueue.Queue.Store | bsp/xilkernel_v4_00_a/src/src/ipc/msg.c:286-290 | the message goes to the end of the queue and a receiver is signalled |
| MessageQueue.Queue.Receive | bsp/xilkernel_v4_00_a/src/src/ipc/msg.c:336-367 | the receive step up to blocking; delivers the oldest message; when there is none it refuses, and changes nothing, exactly when IPC_NOWAIT is the whole flag word, and joins the wait queue otherwise |
| MessageQueue.Queue.ReceiveResume | bsp/xilkernel_v4_00_a/src/src/ipc/msg.c:345-367 | a woken receiver is given the oldest message |
| MessageQueue.Queue.Take | bsp/xilkernel_v4_00_a/src/src/ipc/msg.c:351-367 | a message too big is dropped with an error and its slot is not given back; otherwise as much as fits is delivered and a sender is signalled |
| KernelMutex.MutexRuns | bsp/xilkernel_v4_00_a/src/src/ipc/mutex.c:180-303 | every run from initialisation: the processes told to sleep and not let through are those queued or woken, and while there are any the mutex is held or a woken one is still to try; the locks held are those granted and not released; a recursive mutex counts its one owner; a default one is exclusive if only holders unlock |
| KernelMutex.RunAsTold | bsp/xilkernel_v4_00_a/src/src/ipc/mutex.c:180-303 | the same account over any run |
| KernelMutex.StepAsTold | bsp/xilkernel_v4_00_a/src/src/ipc/mutex.c:180-303 | each call leaves the mutex as its answer says |
| KernelMutex.StepKeepsWakeups | bsp/xilkernel_v4_00_a/src/src/ipc/mutex.c:194-303 | a step keeps "somebody waits only if the mutex is locked or a woken process is still to try" |
| KernelMutex.RunKeepsWakeups | bsp/xilkernel_v4_00_a/src/src/ipc/mutex.c:194-303 | so does every run, whoever takes the mutex in between |
| KernelMutex.StepKeepsCounts | bsp/xilkernel_v4_00_a/src/src/ipc/mutex.c:210-215 | a step of a recursive mutex keeps locked = locks minus unlocks of the owner, and 0 exactly without owner |
| KernelMutex.RunKeepsCounts | bsp/xilkernel_v4_00_a/src/src/ipc/mutex.c:194-303 | so does every run |
| KernelMutex.StepKeepsExclusion | bsp/xilkernel_v4_00_a/src/src/ipc/mutex.c:288-300 | a step of a default mutex keeps exclusion exactly when it does not unlock what another process holds |
| KernelMutex.RunKeepsExclusion | bsp/xilkernel_v4_00_a/src/src/ipc/mutex.c:194-303 | every run in which only holders unlock keeps exclusion |
| KernelMutex.Mutex.constructor | bsp/xilkernel_v4_00_a/src/src/ipc/mutex.c:107-114 | a new mutex is free |
| KernelMutex.Mutex.LockBasic | bsp/xilkernel_v4_00_a/src/src/ipc/mutex.c:194-217 | locks, reports busy and changes nothing, or joins the wait queue, exactly as the type and the owner demand |
| KernelMutex.Mutex.Retry | bsp/xilkernel_v4_00_a/src/src/ipc/mutex.c:198-216 | a woken process tests again, and joins the wait queue again or has the lock |
| KernelMutex.Mutex.Unlock | bsp/xilkernel_v4_00_a/src/src/ipc/mutex.c:284-303 | unlocks; a recursive mutex refuses anybody but its owner |
| KernelMutex.Mutex.WakeOne | bsp/xilkernel_v4_00_a/src/src/ipc/mutex.c:296-300 | a mutex that has become free wakes the waiter that was chosen, and only that |
| SpiTransfer.Spi.TransferPolled | drivers/spi_v2_00_a/src/xspi.c:597-776 | for every FIFO depth and count the answer of the slave to byte k is in the receive buffer at k, the receive FIFO is never overrun, and the buffers may be one; nothing behind the transfer is touched; a transmit-empty interrupt is left pending |
| SpiTransfer.Spi.TransferInterrupt | drivers/spi_v2_00_a/src/xspi.c:517-595 | for every schedule of interrupts and device exactly one report, and as many answers as Delivered counts, all in their places; with no interrupt pending before, all of them, and none pending afterwards |
| SpiTransfer.InterruptIff | drivers/spi_v2_00_a/src/xspi.c:1040-1214 | all answers have arrived under every schedule exactly when no interrupt was pending before the transfer, for every FIFO depth and count |
| SpiTransfer.FreshDelivers | drivers/spi_v2_00_a/src/xspi.c:1044-1214 | as long as an interrupt is pending only over an empty FIFO no byte is missed |
| SpiTransfer.StaleLoses | drivers/spi_v2_00_a/src/xspi.c:1040-1084 | an interrupt pending over a filled FIFO: a device that runs empty between the clearing of the interrupt and the holding back makes it pending again, until the last batch is reported before it is sent |
| SpiTransfer.OneBatchEnds | drivers/spi_v2_00_a/src/xspi.c:1040-1214 | a transfer that fits into the FIFO ends exactly where the interrupt from before is served |
| SpiTransfer.SecondByteLost | drivers/spi_v2_00_a/src/xspi.c:1040-1214 | two bytes over a FIFO of one of which one is received |
| SpiTransfer.Spi.PolledThenInterrupt | drivers/spi_v2_00_a/src/xspi.c:597-776 | any number of bytes sent polled and then interrupt-driven: on some schedule the second transfer is reported before all its bytes are sent |
| SpiTransfer.Spi.Poll | drivers/spi_v2_00_a/src/xspi.c:609-756 | one batch in polled mode |
| SpiTransfer.Spi.Transfer | drivers/spi_v2_00_a/src/xspi.c:447-779 | which call is refused and which mode it runs in; a refusal for want of a slave enables the interrupts of a polled driver |
| SpiTransfer.Spi.Serve | drivers/spi_v2_00_a/src/xspi.c:1040-1222 | whenever interrupts are served and however far the device gets inside the handler, a started transfer comes to its one report with exactly the answers Delivered counts; without an interrupt from before none is left |
| SpiTransfer.Spi.Handler | drivers/spi_v2_00_a/src/xspi.c:1040-1222 | one interrupt, during which the device goes on until it is held back: takes all answers, refills the FIFO or reports the end, and is pending again exactly if the device ran empty meanwhile |
| SpiTransfer.Spi.Exchange | drivers/spi_v2_00_a/src/xspi.c:1041-1084 | the device exchanges bytes until it is held back or runs empty |
| SpiTransfer.Spi.Service | drivers/spi_v2_00_a/src/xspi.c:620-756 | the common part: hold back, drain, refill, release |
| SpiTransfer.Spi.Fill | drivers/spi_v2_00_a/src/xspi.c:535-567 | fills the transmit FIFO until it is full or everything is sent |
| SpiTransfer.Spi.Drain | drivers/spi_v2_00_a/src/xspi.c:633-684 | moves every answer to its place in the buffer |
| SpiTransfer.Spi.TakeOne | drivers/spi_v2_00_a/src/xspi.c:633-684 | one answer goes to its place in the buffer |
| SpiTransfer.Spi.Setup | drivers/spi_v2_00_a/src/xspi.c:517-526 | takes over the buffers with nothing sent yet |
| SpiTransfer.Spi.Begin | drivers/spi_v2_00_a/src/xspi.c:517-577 | fills the FIFO and releases the transmitter; an interrupt from before stays pending |
| SpiTransfer.Spi.WaitTxEmpty | drivers/spi_v2_00_a/src/xspi.c:609-611 | waiting for the FIFO to run empty ends, and leaves the interrupt pending |
| SpiTransfer.ShiftKeepsFlight | drivers/spi_v2_00_a/src/xspi.c:609-611 | a byte exchanged with the slave stays within the transfer: its answer finds room |
| Cmdline.Editor.Session | sdloader/src/cmdline.c:119-458 | after every key of every input, the terminal shows the prompt and the text with the cursor at the edit position, and buffer, history and flags are those of the model |
| Cmdline.Editor.Input | sdloader/src/cmdline.c:119-328 | one character acts on the line as on a text before and a text behind the cursor, and the terminal follows, or a command waits and the terminal is on a new line |
| Cmdline.Editor.constructor | sdloader/src/cmdline.c:89-107 | an empty line with the first prompt shown |
| Cmdline.Editor.Insert | sdloader/src/cmdline.c:204-250 | a printable character is put in at the cursor if the line has fewer than 48 |
| Cmdline.Editor.Place | sdloader/src/cmdline.c:214-236 | storing it changes the text before the cursor only |
| Cmdline.Editor.OpenGap | sdloader/src/cmdline.c:230-233 | the shifting loop moves the tail up by one |
| Cmdline.Editor.Delete | sdloader/src/cmdline.c:273-319 | the delete key takes away the character before the cursor, and the terminal shows no leftover |
| Cmdline.Editor.Remove | sdloader/src/cmdline.c:285-299 | removing it changes the text before the cursor only |
| Cmdline.Editor.CloseGap | sdloader/src/cmdline.c:297-299 | the shifting loop moves the tail down by one |
| Cmdline.Editor.MoveRight | sdloader/src/cmdline.c:138-157 | the right arrow moves one character across the cursor, or rings at the end |
| Cmdline.Editor.MoveLeft | sdloader/src/cmdline.c:158-175 | the left arrow does so the other way |
| Cmdline.Editor.Arrows | sdloader/src/cmdline.c:127-183 | the last character of an arrow key acts on the line |
| Cmdline.Editor.Other | sdloader/src/cmdline.c:204-327 | any other character acts on the line |
| Cmdline.Editor.Repaint | sdloader/src/cmdline.c:330-349 | whatever the line showed, it shows prompt and text afterwards |
| Cmdline.Editor.Recall | sdloader/src/cmdline.c:375-396 | the up and down keys put the neighbouring entry of the history into the line |
| Cmdline.Editor.Browse | sdloader/src/cmdline.c:375-384 | the index moves by one within the entries there are |
| Cmdline.Editor.Load | sdloader/src/cmdline.c:386-395 | the entry becomes the text, the cursor behind it |
| Cmdline.Editor.Save | sdloader/src/cmdline.c:354-374 | the history becomes the new line in front of the others, or the recalled entry moved to the front |
| Cmdline.Editor.PushRow | sdloader/src/cmdline.c:368-372 | the copying loop moves rows down and puts the line in front |
| Cmdline.Editor.Process | sdloader/src/cmdline.c:400-441 | the first command that begins with the entered word is to be run; an unknown one is reported; a prompt appears unless a command is to be run |
| Cmdline.Editor.WordLength | sdloader/src/cmdline.c:408-411 | finds the end of the first word |
| Cmdline.Editor.PrintError | sdloader/src/cmdline.c:469-493 | sends the message with the offending word |
| Cmdline.Editor.Submit | sdloader/src/cmdline.c:400-441 | processing a line leaves it empty and the history saved |
| Cmdline.Editor.Enter | sdloader/src/cmdline.c:252-271 | ENTER ends the line, saves it, looks the command up and starts an empty line |
| Cmdline.Editor.MainLoop | sdloader/src/cmdline.c:443-458 | a waiting command is run, and the prompt behind any output is shown as it should be exactly if the terminal is settled for it |
| LineModel.PressedSound | sdloader/src/cmdline.c:119-398 | every key keeps at most 48 characters and 10 entries, and the history index in range |
| LineModel.EnterRemembers | sdloader/src/cmdline.c:252-271 | a newly typed line is put in front and the ten newest are kept; a recalled line moves to the front, and the entries stay the same ones exactly if it is entered as recalled |
| LineModel.UpsReach | sdloader/src/cmdline.c:377-396 | n presses of UP show the n-th line entered before, or the oldest kept |
| LineModel.EnteredComesBack | sdloader/src/cmdline.c:252-398 | a line typed and entered is what UP brings back |
| LineModel.EditsInPlace | sdloader/src/cmdline.c:138-317 | after any text, LEFT and RIGHT, a character typed goes in at the cursor and the delete key takes out the one in front of it |
| LineModel.CursorMoves | sdloader/src/cmdline.c:138-175 | LEFT and RIGHT move the cursor within the line and change nothing else |
| LineModel.TypingEnds | sdloader/src/cmdline.c:196-250 | a line takes 48 characters |
| LineModel.DownsReach | sdloader/src/cmdline.c:375-397 | DOWN after UP goes back towards the newest line |
| LineModel.CommandChosen | sdloader/src/cmdline.c:400-440 | ENTER runs the first command that begins with the first word, or none |
| LineModel.Match | sdloader/src/cmdline.c:422-433 | the first command of which the word is a beginning |
| LineModel.Word | sdloader/src/cmdline.c:408-411 | the characters in front of the first blank |
| Cmdline.ErrorLineFresh | sdloader/src/cmdline.c:469-493 | the message leaves the terminal at the start of an empty line |
| Terminal.Prints | sdloader/src/cmdline.c:344-348 | printing behind a beginning of the line shows it followed by what is printed |
| Terminal.Erases | sdloader/src/cmdline.c:336-342 | return, prompt and erase to the end leave the prompt alone on the line |
| Terminal.SettledShows | sdloader/src/cmdline.c:460-467 | printing a text shows it alone exactly on such a line |
| Terminal.RubsOut | sdloader/src/cmdline.c:279-283 | backspace, blank, backspace takes the last character away |
| Segments.FitReaches | sdloader/src/steppers.c:46-53 | exactly the computed coefficients end at the position and velocity of the target |
| Segments.FitEnds | sdloader/src/steppers.c:46-53 | the computed coefficients do |
| Segments.PlanFollows | sdloader/src/steppers.c:57-61 | the rates that are scaled to the units of the device describe the same cubic at every time |
| Segments.PlanEnds | sdloader/src/steppers.c:46-61 | so that the plan ends at the target |
| MotionDevice.CommandEnds | pcores/motion_v1_00_a/hdl/verilog/acc_profile_gen.v:60-101 | a command of N steps of D clocks, whatever is written meanwhile: position, velocity and acceleration in closed form when it ends alone, and when another one waits, which is loaded instead of the last step |
| MotionDevice.SetBits | pcores/motion_v1_00_a/hdl/verilog/acc_profile_gen.v:60-98 | each bit of a command that is taken over sets its value, and all of them together leave nothing of what was before |
| MotionDevice.Steps | pcores/motion_v1_00_a/hdl/verilog/acc_profile_gen.v:60-101 | the closed form after every earlier step |
| MotionDevice.StoppedGoesOn | pcores/motion_v1_00_a/hdl/verilog/acc_profile_gen.v:99-101 | a device that has stopped goes on at the velocity it had |
| MotionDevice.VelocityClosed | pcores/motion_v1_00_a/hdl/verilog/acc_profile_gen.v:71-72 | the velocity after k steps: v + k a + k (k - 1) / 2 j |
| MotionDevice.SumClosed | pcores/motion_v1_00_a/hdl/verilog/acc_profile_gen.v:81 | the sum of the velocities of k steps: k v + k (k - 1) / 2 a + k (k - 1) (k - 2) / 6 j |
| MotionDevice.RowEnds | pcores/motion_v1_00_a/hdl/verilog/user_logic.v:487 | moves in a row, each waiting when the one before it ends |
| MotionDevice.LossesAdd | pcores/motion_v1_00_a/hdl/verilog/acc_profile_gen.v:60-73 | behind a row of moves the velocity is the planned one less the losses of all of them, since no move sets it |
| MotionError.MoveMisses | pcores/motion_v1_00_a/hdl/verilog/acc_step_gen.v:80-88 | whatever was cut off the registers: the exact condition under which a move ends at the position and at the velocity of its target, alone and in front of another one |
| MotionError.Missing | sdloader/src/steppers.c:52-67 | how much position and velocity are missing |
| MotionError.ExactMoveMisses | sdloader/src/steppers.c:52-67 | a move of which nothing is cut off ends at its target exactly if its acceleration and jerk are zero, alone and in front of another one |
| MotionError.ThousandEncoded | sdloader/src/steppers.c:46-66 | what a move from rest to position 1000 in a second writes to the registers |
| MotionError.ThousandMisses | pcores/motion_v1_00_a/hdl/verilog/acc_profile_gen.v:60-101 | with these the device passes position 1011.9 and does not come to rest |
| MotionError.ShortMove | pcores/motion_v1_00_a/hdl/verilog/acc_step_gen.v:84 | a move is written as 0 steps exactly when it is to take less than 4 ms; the device then comes to a stop only after 2^32 times 400000 clocks |
| Steppers.PathContinuous | sdloader/src/steppers.c:34-80 | along the planned path since a reset the position is continuous, and the velocity as well exactly where no stop cuts off a move that was to pass its target at speed |
| Steppers.Motion.Run | sdloader/src/steppers.c:34-152 | in every run against a device that takes commands at arbitrary times no start is written over a pending one, and the moves given since the last reset are the first of the accepted targets, in order |
| Steppers.Motion.Drain | sdloader/src/steppers.c:82-134 | turns of the main loop, the device taking each command, issue every accepted target in order, and then a stop, and end in the idle state |
| Steppers.Motion.FirstMove | sdloader/src/steppers.c:84-101 | from power-on the first target is under way after two turns, with 400000 clocks a step |
| Steppers.Motion.MainLoop | sdloader/src/steppers.c:82-134 | one turn issues a move exactly when one is due, a stop exactly when the queue is empty and the device stopped; it leaves the state off as soon as there is a target, and the stopping state exactly when the stop has been taken and the device has stopped |
| Steppers.Motion.UnqueueMove | sdloader/src/steppers.c:34-70 | hands over the first target, with the coefficients from the current place cut to the register widths, and the target becomes the current place |
| Steppers.Motion.DropFirst | sdloader/src/steppers.c:42-45 | the shifting loop takes the first target out |
| Steppers.Motion.UnqueueStop | sdloader/src/steppers.c:72-80 | stops where it is |
| Steppers.Motion.Queue | sdloader/src/steppers.c:136-143 | a full queue refuses and changes nothing; otherwise the target is accepted last |
| Steppers.Motion.Reset | sdloader/src/steppers.c:146-152 | forgets targets and commands and drops a pending start |
| Steppers.Motion.Take | pcores/motion_v1_00_a/hdl/verilog/user_logic.v:412-413 | the device taking a command clears the start bit and disturbs nothing |
| Steppers.Motion.constructor | sdloader/src/steppers.c:23-32 | off, at the origin, with an empty queue |
| MotionSystem.System.Run | sdloader/src/steppers.c:82-152 | in every run of clocks, turns of the main loop, requests and resets the core takes over exactly the commands the firmware issues, in order and none twice, and is at every moment where the closed forms put it |
| MotionSystem.System.Drain | sdloader/src/steppers.c:82-134 | turns with enough clocks between them issue every accepted target, the core takes all of them over, and then the motor stands |
| MotionSystem.System.Pass | pcores/motion_v1_00_a/hdl/verilog/acc_step_gen.v:55-90 | enough clocks take over a command that waits and bring it to its end |
| MotionSystem.System.Clock | pcores/motion_v1_00_a/hdl/verilog/user_logic.v:412-413 | one clock of the core is the event that takes a command over exactly when one waits and the one before it is in its last clock or has ended; the registers and the times of all commands determine its state |
| MotionSystem.System.Turn | sdloader/src/steppers.c:82-134 | a turn of the main loop on the start and stopped bits of the core keeps that; a stop is only given to a core that has come to its end |
| MotionSystem.System.Request | sdloader/src/steppers.c:136-143 | so does a request |
| MotionSystem.System.Clear | sdloader/src/steppers.c:146-152 | a reset puts the core and the firmware back to the start |
| MotionSystem.System.constructor | sdloader/src/steppers.c:23-32 | at the start nothing is issued and nothing taken over |
| MotionSystem.System.IdleStands | sdloader/src/steppers.c:72-80 | while the firmware is off or idle the velocity of the core is zero |
| MotionSystem.NextClock | pcores/motion_v1_00_a/hdl/verilog/user_logic.v:487 | at any age of a command: when the core takes over another one, and the closed form of one clock more otherwise |
| MotionSystem.AtIs | pcores/motion_v1_00_a/hdl/verilog/acc_step_gen.v:55-90 | position, velocity and acceleration in closed form any number of clocks after a command was taken over, during it and behind it |
| MotionSystem.NextLeg | pcores/motion_v1_00_a/hdl/verilog/acc_profile_gen.v:60-101 | a command taken over at the end of another one replaces its last step; one taken over later starts where the core has gone on to meanwhile |
| MotionSystem.IgnoresBank | pcores/motion_v1_00_a/hdl/verilog/user_logic.v:487 | without a load the core does not depend on the registers |
| MotionSystem.StopStands | sdloader/src/steppers.c:72-80 | behind a stop the velocity is zero |

## Left out

- FatFile.File.Write: a failing transfer of the FAT during a write is not modelled at this level; bytes outside the range written need not survive one, because create_chain may cut the chain (FatAlloc.SuccessorFound, FatAlloc.ChainCut).
- FatFile.File.Lseek: with write access likewise.
- FatDir.Dir.Next: stretching the table with a new cluster is not modelled, because the window does not hold the sector it names while the cluster is cleared.
- LinkMap.ClmtClust: reading and writing through a link map is not modelled, only building it and looking up in it.
- KernelMutex.Mutex.LockBasic: the lock count is unbounded, and the checks of the handle and static initialisation are not modelled.
- MessageQueue.Queue.Send: running out of message memory, bad identifiers and a queue removed while a call is blocked are not modelled.
- SpiTransfer.Spi.TransferPolled: the 16 and 32 bit widths are not modelled.
- SpiTransfer.Spi.Handler: faults and underruns reported by the handler are not modelled; an overrun cannot occur in the transfers proved here.
- Cmdline.Editor.Session: lines that the motion part prints on the same terminal, and a line narrower than 54 columns, are not modelled.
- Steppers.Motion.UnqueueMove: the coefficients are computed over reals, not doubles; for a target of no duration, or of coefficients beyond the registers, the conversions are undefined and the register values arbitrary.
- MotionError.MoveMisses: moves during which a velocity or position register overflows are not covered; MotionDevice.CommandEnds covers them.
- The step pulses of the motion core, and the single register writes of the firmware.
- BootElf.LoadSegments: the ELF header, destinations that overlap the loader and segments of 2 GB and more are not modelled.
- Finding the volume on the drive, the FSInfo sector, opening, creating, deleting, renaming and truncating files, formatting and the string functions of FatFs.
- Named and unlinked semaphores, removal of message queues, destruction of mutexes, shared memory and the scheduler.
- Card and bus access, and argument retrieval of the command line.
