# xv6-riscv, modelled and verified in Dafny

This project models the parts of xv6 (the RISC-V teaching kernel, with the alarm of the traps
lab) in which the hard promises live, and proves what the code does there: for every input,
every run and every interleaving. `dafny verify dfyconfig.toml` checks all of it.

| area | modules | form |
|---|---|---|
| write-ahead log | `LogProtocol`, `RedoLog` | a state machine over atomic disk writes and crashes; a class whose methods record the run they make |
| buffer cache | `LruList`, `BufferCache` | a class over `next`, `prev` and buffer arrays |
| the log over the cache | `LogCache` | a state machine over both, which refines the log's |
| disk driver | `VirtQueue`, `Virtio` | a class over descriptor table and rings, with an arbitrary device acting in between |
| files | `DiskBlocks`, `FileSpace`, `FileLayer` | a class over blocks of bytes and inodes |
| files over the log | `FileCrash` | lemmas that join the runs of the log with the operations of filewrite |
| link counts | `LinkCounts`, `Links` | a class over inodes and directory slots |
| page tables and allocator | `PageTree`, `Vm` | a class over physical memory |
| scheduling, sleep, wakeup | `Sleep` | a state machine over the steps of any number of processes and CPUs |
| fork, exit, wait | `ProcessTree` | a state machine over the steps of any number of processes |
| user allocator | `FreeList`, `Umalloc` | a class over headers in memory |
| shell parser | `ShellGrammar`, `ShellMeaning`, `ShellParser` | a class over the line buffer, a grammar, and what a line means without either |
| grep | `Grep` | methods and a class over the line buffer |
| alarm | `Alarm` | a class, and runs of its events |

Where a row has several modules, the last holds the code and the others hold values, invariants
and lemmas. A class keeps its history in ghost fields; `Now()` is its state as a value, and each
method proves that one named change of that value keeps the invariant. Code that sleeps or
that other threads may interrupt is cut there into several methods: any interleaving is then a
sequence of calls, and what every method keeps holds throughout.

Panics are preconditions where a lemma shows that the callers meet them, and results where the
code can reach them.

## Where the code does not keep a promise

Each of these comes with a concrete case and with the exact condition under which the promise
holds.

- The reservation of `begin_op` covers LOGSIZE blocks, but the log area made by mkfs holds one
  less beside its header: `LogProtocol.AppendSafeIff`. The guard also rejects rewrites of blocks
  already logged: `LogProtocol.AbsorbedWriteCanPanic`.
- `sigreturn` does not restore `a0`: `Alarm.SigreturnRestores`, `Alarm.A0IsLost`.
- Creating or linking in a directory that has been removed breaks the link counts:
  `LinkCounts.CreateKeepsCountsIff`, `LinkCounts.LinkKeepsCountsIff`, with the cases
  `LinkCounts.CreateCanBreak` and `LinkCounts.LinkCanBreak` after the run of `LinkCounts.DirRemoved`.
- grep stops at the first line that does not fit its buffer or holds a NUL: `Grep.ExactSelection`,
  `Grep.GrepCanMiss`.

## Model

| member | source | states |
|---|---|---|
| `LogProtocol.HeaderRoundTrip` | kernel/log.c:86-114 | What write_head stores in the header block is what read_head lists, for every set of distinct home blocks that fits. |
| `LogProtocol.ReplayAt` | kernel/log.c:68-83 | Copying the log blocks home puts log block i at the home of entry i and changes no other block. |
| `LogProtocol.EvictKeeps` | kernel/log.c:214-235 | Recycling any buffer that the log has not pinned changes nothing that bread can see, in every reachable state. |
| `LogProtocol.StepKeeps` | kernel/log.c:68-235 | Every atomic step of operations, commit, recovery, eviction and crash keeps the invariant that ties disk, cache, header, reservations and history together. |
| `LogProtocol.RunInv` | kernel/log.c:68-235 | The invariant holds at every point of every run from power-on with any well-formed header. |
| `LogProtocol.CrashAtomicity` | kernel/log.c:68-123 | Crash atomicity: at every point of every run, after any number of crashes, also inside recovery, recovering the disk as it stands yields exactly the durable prefix of the history, and that prefix consists of whole operations. |
| `LogProtocol.AtRest` | kernel/log.c:146-175 | When no commit is running, the home blocks on disk are the durable history and bread sees every write made so far. |
| `LogProtocol.Durability` | kernel/log.c:193-203 | The durable prefix never shrinks, and only the header write of a commit extends it. |
| `LogProtocol.CommitPoint` | kernel/log.c:193-203 | The header write makes everything written so far durable, and no operation is outstanding at that moment. |
| `LogProtocol.GroupCommit` | kernel/log.c:126-175 | In every reachable state the logged blocks are distinct, they and all unspent reservations fit in LOGSIZE, and the log is written and installed only with no operation outstanding. |
| `LogProtocol.RoomFor` | kernel/log.c:126-142 | An operation that has not used up its reservation finds the in-memory header not full. |
| `LogProtocol.Appends` | kernel/log.c:214-235 | An operation is charged for a block at most once: its charge never exceeds the number of different blocks it has given to log_write. |
| `LogProtocol.ReservationSuffices` | kernel/log.c:126-142 | An operation that gives log_write at most MAXOPBLOCKS different blocks never exhausts its reservation, in any run with any other operations. |
| `LogProtocol.AppendSafeIff` | kernel/log.c:214-235 | No append within the reservation ever panics if and only if the log area has more than LOGSIZE blocks; mkfs makes it one too small. |
| `LogProtocol.AbsorbedWriteCanPanic` | kernel/log.c:214-235 | A concrete run after which rewriting a block that is already logged panics, because the guard runs before absorption, however large the log area. |
| `LogProtocol.Reinstall` | kernel/log.c:68-83 | During a commit the home buffer already holds what install_trans copies into it, in every run. |
| `LogProtocol.Installed` | kernel/log.c:68-83 | After the last install of a commit, disk and cache agree on every block. |
| `RedoLog.Log.constructor` | kernel/log.c:54-65 | Power-on over any disk with a well-formed header starts a run of the protocol. |
| `RedoLog.Log.Crash` | kernel/log.c:116-123 | A crash keeps the disk and nothing else, and is a step of the protocol. |
| `RedoLog.Log.BeginOp` | kernel/log.c:126-142 | One turn of begin_op: it admits the operation exactly when no commit runs and the reservations of all operations fit. |
| `RedoLog.Log.LogWrite` | kernel/log.c:214-235 | log_write: panics exactly when its guard fails, never for an append with a large enough log area; a block is listed once, and the write joins the history. |
| `RedoLog.Log.FillHeader` | kernel/log.c:102-114 | The loop of write_head builds the header with count and block numbers and leaves the rest of the block as it was. |
| `RedoLog.Log.WriteLogBlocks` | kernel/log.c:178-191 | write_log: log block i gets the cached contents of logged block i; no other block of disk or cache changes. |
| `RedoLog.Log.InstallTrans` | kernel/log.c:68-83 | install_trans: in recovery the disk becomes the replay of the log; in a commit disk and cache end equal. |
| `RedoLog.Log.ReadHeader` | kernel/log.c:86-97 | read_head: the in-memory header becomes the blocks that the header on disk lists. |
| `RedoLog.Log.CommitHead` | kernel/log.c:193-203 | The header write of commit is the one step that makes the history durable. |
| `RedoLog.Log.Commit` | kernel/log.c:193-203 | commit: the log is empty afterwards, the whole history is durable, and disk and cache agree if anything was logged. |
| `RedoLog.Log.LeaveOp` | kernel/log.c:146-163 | The last operation out, and only it, starts the commit. |
| `RedoLog.Log.EndOp` | kernel/log.c:146-175 | end_op: when the last operation leaves, everything written by any operation is durable and the log is empty; otherwise disk and header stay. |
| `RedoLog.Log.RecoverFromLog` | kernel/log.c:116-123 | recover_from_log: the home blocks become what recovery of the disk means, the header is empty, and the durable history is untouched. |
| `LruList.Unlink` | kernel/bio.c:128-129 | The two stores that take a buffer out leave one circular doubly linked list through all the others, in order. |
| `LruList.PushFront` | kernel/bio.c:130-133 | The four stores that put a buffer after the head leave one circular doubly linked list with it in front. |
| `BufferCache.KeysUnique` | kernel/bio.c:58-89 | No two buffers share a block of a device other than 0, and of two buffers with one key at least one is as binit left it. |
| `BufferCache.SoleBuffer` | kernel/bio.c:58-89 | A buffer in use is the only one with contents for its block. |
| `BufferCache.UpToDate` | kernel/bio.c:92-103 | A buffer that has no contents yet may be filled from disk: the disk holds what the clients last made of the block. |
| `BufferCache.RecycleKeeps` | kernel/bio.c:75-87 | Giving an unused buffer to another block loses nothing: changed blocks are never in unused buffers. |
| `BufferCache.ToFrontKeeps` | kernel/bio.c:126-134 | Moving a released buffer to the front keeps the rule that a buffer in use stands before its namesakes. |
| `BufferCache.Bcache.constructor` | kernel/bio.c:36-53 | binit: one list through all buffers, the last one first, nothing cached. |
| `BufferCache.Bcache.Find` | kernel/bio.c:66-73 | The forward scan returns the first buffer in list order with the key, or shows that none has it. |
| `BufferCache.Bcache.FindUnused` | kernel/bio.c:77-87 | The backward scan returns an unused buffer behind which all are in use, or shows that all are in use. |
| `BufferCache.Bcache.Bget` | kernel/bio.c:58-89 | bget: the block's own buffer if cached; otherwise the least recently released unused one; a panic exactly when there is neither. Buffers in use keep block and contents. |
| `BufferCache.Bcache.Enter` | kernel/bio.c:92-103 | bread returns, under the buffer's lock, what the clients last made of the block. |
| `BufferCache.Bcache.Change` | kernel/bio.c:92-103 | Contents change only under the lock, and this is what bread returns from then on. |
| `BufferCache.Bcache.Bwrite` | kernel/bio.c:106-112 | bwrite brings the disk up to date with the buffer; requires the lock, as the code checks. |
| `BufferCache.Bcache.Bpin` | kernel/bio.c:139-144 | bpin keeps the buffer from being recycled until the matching bunpin. |
| `BufferCache.Bcache.Bunpin` | kernel/bio.c:146-151 | bunpin gives up one pin; the last pin of a changed buffer is given up only under its lock. |
| `BufferCache.Bcache.Unlock` | kernel/bio.c:116-122 | The first half of brelse: the lock is free, the buffer still counted as in use. |
| `BufferCache.Bcache.Relink` | kernel/bio.c:126-134 | The six pointer stores of brelse move exactly this buffer to the front of the list. |
| `BufferCache.Bcache.Drop` | kernel/bio.c:124-137 | The second half of brelse: one user less; the buffer moves to the front exactly when it was the last. |
| `LogCache.LockedData` | kernel/bio.c:92-103 | Whoever has locked a buffer of a block that no client is changing sees in it what the log protocol calls the cached block. |
| `LogCache.RecycledIsUnpinned` | kernel/log.c:214-235 | bget never recycles a buffer whose block the log still needs or a client is changing: the pins of log_write make every recycling a step that the log protocol allows. |
| `LogCache.ReleaseAllowed` | kernel/log.c:206-235 | After log_write a buffer may be released: if it differs from the disk it is pinned. |
| `LogCache.UnpinAllowed` | kernel/log.c:68-83 | install_trans always finds the one pin that it gives up. |
| `LogCache.StepKeeps` | kernel/log.c:68-235 | Every use of the buffers by clients and every step of log_write, write_log, write_head, install_trans, recovery and crash keeps disk, buffers, pins and log in agreement. |
| `LogCache.JointRefines` | kernel/log.c:68-235 | Every run of the log over real, recycled buffers is a run of the log protocol with what bread returns as its cache: the protocol's steps are those of the run that it sees, in order, and its states are the run's states after them. |
| `LogCache.StateSeen` | kernel/log.c:68-235 | At every earlier point of the run, the log's part of the state is the state of that protocol run after as many steps as the protocol has seen by then. |
| `LogCache.BuffersCrashAtomic` | kernel/log.c:68-123 | Crash atomicity over the buffer cache: at every point of every such run the disk recovers to a prefix of whole operations. |
| `LogCache.BuffersDurable` | kernel/log.c:193-203 | Between any two points of a run over the buffers the durable prefix never shrinks, and without a commit's header write in between it stays the same. |
| `LogCache.BuffersCommit` | kernel/log.c:193-203 | The header write through a buffer makes every write durable, when no operation is outstanding and no client holds a change that log_write does not know. |
| `LogCache.BreadSeesHistory` | kernel/log.c:146-175 | While no commit runs, bread returns for every home block that no client is changing the last write given to log_write, through recycling and crashes. |
| `VirtQueue.RingEmpty` | kernel/virtio_disk.c:300-312 | The 16-bit indices of a ring differ exactly when it holds an entry, despite wrap-around. |
| `VirtQueue.RingWrite` | kernel/virtio_disk.c:259-260 | Writing the next slot of a ring disturbs no entry that has not been consumed. |
| `VirtQueue.RingPop` | kernel/virtio_disk.c:300-312 | The slot at the consumer's 16-bit index holds the oldest entry. |
| `VirtQueue.Fits` | kernel/virtio_disk.c:259-265 | A queue of distinct descriptors never exceeds the ring. |
| `VirtQueue.RoomToPost` | kernel/virtio_disk.c:259-265 | There is always a free slot in the avail ring for a request not yet posted, so none is reused before it is consumed. |
| `VirtQueue.DecodesRequest` | kernel/virtio_disk.c:226-253 | Read as section 5.2 of virtio v1.1 lays out a block command, the three descriptors say exactly the request that was submitted. |
| `VirtQueue.ChainsPartition` | kernel/virtio_disk.c:143-201 | A descriptor is in use exactly when it is one of the three of a request in flight, and then of one request only. |
| `VirtQueue.UsedEntryIdentifies` | kernel/virtio_disk.c:300-312 | Every used entry not yet looked at names a finished request, and no two name the same. |
| `VirtQueue.NextFinished` | kernel/virtio_disk.c:300-312 | The entry that the interrupt handler looks at names a request that succeeded, whose flag is still set, and the record it indexes names that request's buffer. |
| `VirtQueue.FlagTells` | kernel/virtio_disk.c:272-277 | A thread finds b->disk clear exactly when its transfer has been made, once, since it submitted it. |
| `Virtio.Disk.constructor` | kernel/virtio_disk.c:76-141 | virtio_disk_init leaves every descriptor free and both rings empty. |
| `Virtio.Disk.Device` | kernel/virtio_disk.c:262-269 | Any number of steps of a device that follows section 2.6 of virtio v1.1 keep the invariant, lose no request and touch none that is not yet in the ring. |
| `Virtio.Disk.DeviceExecute` | kernel/virtio_disk.c:226-253 | What the device carries out, read from the descriptor table alone, is the submitted request, and it makes exactly one transfer. |
| `Virtio.Disk.AllocDesc` | kernel/virtio_disk.c:144-154 | alloc_desc: the lowest free descriptor, or -1 exactly when there is none. |
| `Virtio.Disk.FreeDesc` | kernel/virtio_disk.c:157-170 | free_desc: neither panic can happen; exactly this descriptor becomes free and is cleared. |
| `Virtio.Disk.FreeChain` | kernel/virtio_disk.c:173-185 | free_chain follows the chain to its end and frees exactly its descriptors. |
| `Virtio.Disk.Alloc3Desc` | kernel/virtio_disk.c:189-201 | alloc3_desc: three distinct descriptors, or, exactly when there are not three, none taken. |
| `Virtio.Disk.FormatChain` | kernel/virtio_disk.c:223-257 | The header, the three descriptors with their lengths, links and flags, and the handler's record say what the request says. |
| `Virtio.Disk.Fill` | kernel/virtio_disk.c:203-269 | The data of a buffer that is not with the disk may change at any time. |
| `Virtio.Disk.Post` | kernel/virtio_disk.c:259-265 | The head is in the ring before the index moves, whatever the device does in between; afterwards the index has moved by one and the head is the last entry posted. |
| `Virtio.Disk.Begin` | kernel/virtio_disk.c:203-269 | An attempt to submit fails only for want of three descriptors, and then no descriptor in use, header, record, ring, flag or buffer changes; otherwise exactly this request joins those in flight and no other is disturbed. |
| `Virtio.Disk.IntrOne` | kernel/virtio_disk.c:300-312 | One used entry: the status is not an error, the flag of exactly the buffer of one finished request is cleared, and the request is never seen again. |
| `Virtio.Disk.Intr` | kernel/virtio_disk.c:282-315 | virtio_disk_intr terminates, and every request that the device had finished before the call has its flag cleared, once. |
| `Virtio.Disk.Resume` | kernel/virtio_disk.c:271-280 | The waiting thread goes on exactly when its transfer is done; the buffer then holds what was transferred between submission and now, for a read the last data written to that sector before, and exactly its three descriptors are freed. |
| `DiskBlocks.WithBitIs` | kernel/fs.c:64-103 | Setting or clearing one bit of a bitmap block, as | and & ~ on a byte do, changes that bit and no other. |
| `DiskBlocks.PutWordIs` | kernel/fs.c:387-401 | A block number stored as four little-endian bytes reads back, and the other words of the block stay. |
| `FileSpace.AllocKeeps` | kernel/fs.c:64-86 | Marking a free block and zeroing it keeps bitmap and ownership in step and moves or changes no block of any file. |
| `FileSpace.OneBitChanges` | kernel/fs.c:89-103 | Writing one bit of a bitmap block changes what the bitmap says of that one block. |
| `FileSpace.FreeKeeps` | kernel/fs.c:89-103 | Clearing the bit of a block that nobody owns any more keeps bitmap and ownership in step and changes no file. |
| `FileSpace.AttachDirect` | kernel/fs.c:383-387 | A new block in an empty direct slot becomes that block of that file; every mapped byte of every file stays. |
| `FileSpace.AttachIndirect` | kernel/fs.c:390-393 | A zeroed block as indirect block maps nothing new, and every mapped byte of every file stays. |
| `FileSpace.AttachWord` | kernel/fs.c:394-401 | A new block in an empty indirect word becomes that block of that file; every mapped byte of every file stays. |
| `FileSpace.StoreKeeps` | kernel/fs.c:497-505 | Writing a data block changes that block of that file and no other block of any file. |
| `FileSpace.DetachDirect` | kernel/fs.c:414-419 | The block in a direct slot is owned by that slot alone. |
| `FileSpace.DetachIndirect` | kernel/fs.c:421-432 | Cutting off an indirect block takes out exactly the blocks that hang off it. |
| `FileLayer.StartsMapped` | kernel/fs.c:486-517 | A write that starts inside a block at or below the size starts in a block that exists. |
| `FileLayer.AvailCounts` | kernel/fs.c:64-86 | The blocks without owner are as many as the clear bits of the bitmap. |
| `FileLayer.ChunkFits` | kernel/file.c:149-174 | A write of at most three blocks' length, at any offset, has a budget of at most MAXOPBLOCKS logged blocks. |
| `FileLayer.BalanceIs` | kernel/fs.c:377-405 | The blocks left over, counted block by block as bmap takes them, are those that were free less the holes in the range and the indirect block if it is missing. |
| `FileLayer.BalanceKept` | kernel/fs.c:377-405 | Providing one block of a range, with the indirect block if it must, leaves what will be left over after the whole range as it was. |
| `FileLayer.ChunkAllowed` | kernel/file.c:154-174 | A chunk of filewrite is refused exactly when it is not among the bytes that can be written at that offset of a file of that size. |
| `FileLayer.SpliceMore` | kernel/file.c:154-174 | Writing two pieces one after the other is writing their concatenation. |
| `FileLayer.SpliceIs` | kernel/fs.c:486-517 | A file with bytes spliced in has the larger of the two ends as its size, the new bytes in their range and the old ones everywhere else. |
| `FileLayer.FittingIs` | kernel/file.c:154-174 | The bytes that filewrite writes are whole chunks that fit into the largest file, and the next chunk does not. |
| `FileLayer.Fs.constructor` | mkfs/mkfs.c:235-248 | The image that mkfs starts from, every block zero, no file, and the bits of exactly the metadata blocks set, satisfies the invariant. |
| `FileLayer.Fs.ScanBitmap` | kernel/fs.c:72-83 | The inner loop of balloc stops at the first clear bit of the bitmap block, or at its end. |
| `FileLayer.Fs.Balloc` | kernel/fs.c:64-86 | balloc: the lowest free block, marked, zeroed and owned by the caller; a panic exactly when none is free; no file changes. |
| `FileLayer.Fs.Bfree` | kernel/fs.c:89-103 | bfree panics exactly on a block that is free, and then changes nothing; otherwise that block is free, every other is as it was, and the changed bitmap block is logged. |
| `FileLayer.Fs.Bmap` | kernel/fs.c:377-405 | bmap: the block is mapped afterwards, new ones are zero and had no owner, mapped blocks stay where and what they are, only the stated blocks are logged, and every block that changed is among them. It panics if and only if fewer blocks are free than it needs, and else takes exactly those. |
| `FileLayer.Fs.Readi` | kernel/fs.c:455-477 | readi returns nothing beyond the size or on wrap-around; otherwise as many bytes as were asked for or are left, whichever is less, and byte by byte those of the file from that offset on; it changes nothing. |
| `FileLayer.Fs.CopyIn` | kernel/fs.c:496-508 | One turn of writei's loop stores exactly its bytes and keeps every other mapped byte of every file; it fails only when too few blocks are free for the write that it is part of. |
| `FileLayer.Fs.Writei` | kernel/fs.c:486-517 | writei returns -1 exactly for holes, wrap-around and more than 268 blocks; otherwise, byte by byte, exactly [off, off+n) of this file is replaced or appended, its size is the larger of the old size and off+n, and no other file changes. The blocks that this call logs are within the budget, and every block and the block of every inode that this call changes is among them. It panics if and only if it does not refuse and fewer blocks are free than the whole write needs; otherwise it takes exactly those. |
| `FileLayer.Fs.WriteThenRead` | user/usertests.c:532-571 | Reading back the range just written gives the bytes that were written. |
| `FileLayer.Fs.Itrunc` | kernel/fs.c:409-437 | itrunc gives the empty sequence, frees exactly the blocks that the inode owned, never a free one, changes no other file, and logs every block that it changes. |
| `FileLayer.Fs.Filewrite` | kernel/file.c:134-181 | filewrite is one operation for each 3072 bytes: each logs at most MAXOPBLOCKS blocks, counted from the start of that operation, among them every block it changes, and leaves the file with exactly one chunk more. The call writes exactly the chunks that fit into the largest file, byte by byte at their offsets, and fails exactly when one does not; it panics if and only if fewer blocks are free than all of them need, and otherwise takes exactly those. |
| `FileCrash.ImageKept` | kernel/log.c:206-235 | A block that an operation did not give to log_write is on disk as it was before the operation, inode blocks included. |
| `FileCrash.JournalApplies` | kernel/log.c:206-235 | Replaying what an operation gave to log_write takes the disk of the file system before it to the disk of the file system after it. |
| `FileCrash.DurableOps` | kernel/log.c:193-203 | What the log has made durable in the course of a call ends exactly where one of its operations ends. |
| `FileCrash.FilewriteCrash` | kernel/file.c:154-174 | At every moment of every run of the log in which a filewrite is under way, with crashes, recovery yields the home blocks of the file system after the first k chunks, where k counts the chunks that were durable. |
| `FileCrash.DiskTells` | kernel/fs.c:377-405 | Two file systems that agree with one disk outside the log have the same contents in every file. |
| `FileCrash.FilewriteAtomic` | kernel/file.c:154-174 | Crash atomicity of filewrite: however a disk is read after a crash at any moment of the call and recovery, the file is the old contents with the bytes of the first k whole chunks spliced in, and every other file is untouched. |
| `FileCrash.ChunkReserved` | kernel/file.c:149-174 | The chunks are small enough: an operation of filewrite that has a block to append has reservation left and finds the header not full, at every point of every run. |
| `LinkCounts.LinkKeepsCountsIff` | kernel/sysfile.c:119-166 | After link, every nlink is the number of entries other than "." in linked directories if and only if the parent directory is itself still linked. |
| `LinkCounts.LinkKeeps` | kernel/sysfile.c:119-166 | link under a linked directory keeps counts and directory tree. |
| `LinkCounts.CreateKeepsCountsIff` | kernel/sysfile.c:241-284 | After create, the counts are right if and only if the parent directory is itself still linked. |
| `LinkCounts.CreateKeeps` | kernel/sysfile.c:241-284 | create under a linked directory keeps counts and directory tree. |
| `LinkCounts.CreateCanBreak` | kernel/sysfile.c:241-284 | In the directory removed by the run of DirRemoved, creating a file leaves a count that no entry accounts for. |
| `LinkCounts.LinkCanBreak` | kernel/sysfile.c:119-166 | Linking an existing file there does so too. |
| `LinkCounts.DirRemoved` | kernel/sysfile.c:184-239 | From a new file system, mkdir, create and unlink lead to a directory that is removed but still in use, with all counts right. |
| `LinkCounts.EmptyDirectory` | kernel/sysfile.c:184-239 | An empty directory that has a name has link count 1, and its only entry is in the directory that its ".." names. |
| `LinkCounts.UnlinkFileKeeps` | kernel/sysfile.c:218-229 | unlink of a file keeps the counts; its count was at least 1. |
| `LinkCounts.UnlinkDirKeeps` | kernel/sysfile.c:213-229 | unlink of an empty directory keeps the counts of it, of its parent and of all others. |
| `LinkCounts.ReclaimKeeps` | kernel/fs.c:332-358 | Freeing an inode without links keeps the counts and the tree. |
| `LinkCounts.NoDanglingEntry` | kernel/fs.c:529-553 | No entry of a linked directory names a free inode. |
| `Links.Table.Dirlookup` | kernel/fs.c:529-553 | dirlookup: the first slot in use with the name, or -1 exactly when there is none. |
| `Links.Table.Dirlink` | kernel/fs.c:556-583 | dirlink: -1 exactly when the name is in use; a panic only in a full directory; otherwise the entry is in the first free slot or at the end. |
| `Links.Table.Isdirempty` | kernel/sysfile.c:169-182 | isdirempty tells exactly whether every slot after "." and ".." is empty. |
| `Links.Table.FindFree` | kernel/fs.c:195-215 | ialloc's scan finds the first free inode, or shows that there is none. |
| `Links.Table.SysLink` | kernel/sysfile.c:119-166 | sys_link refuses exactly directories and names in use, without a trace, and panics only in a full directory; otherwise looking up the name finds the inode, every other name is found as before, the count of the inode is one more, and the counts are right afterwards exactly when the parent is linked. |
| `Links.Table.SysUnlink` | kernel/sysfile.c:184-239 | sys_unlink refuses exactly ".", "..", unknown names and non-empty directories; otherwise the name is no longer found and every other name is found as before, only the counts it touched change, and all counts are right; its panic on a count below 1 cannot happen. No directory ever uses a name twice. |
| `Links.Table.Create` | kernel/sysfile.c:241-284 | create of a name in use opens it exactly when a file is asked for and a file or device is there, and changes nothing; it panics only for want of an inode or in a full directory; otherwise a free inode of that kind is found under the name, a directory with its own "." and "..", every other name is found as before, and the counts are right afterwards exactly when the parent is linked. |
| `Links.Table.Iput` | kernel/fs.c:332-358 | The last iput frees the inode exactly when it has no links, and keeps all counts. |
| `PageTree.SlotsDistinct` | kernel/vm.c:80-98 | Distinct virtual pages use distinct leaf slots. |
| `PageTree.IndicesAre` | kernel/riscv.h:355-357 | The indices that PX takes at the three levels are the base-512 digits of the page number. |
| `PageTree.MakePteFields` | kernel/vm.c:152-154 | An entry made from a page and permissions is valid and gives both back. |
| `PageTree.LookupIs` | kernel/vm.c:80-98 | The three-level walk through memory finds what the registered leaf table holds, and nothing where there is none. |
| `PageTree.LinkKeeps` | kernel/vm.c:86-96 | Entering a cleared page as a table keeps the tables a forest without sharing. |
| `PageTree.LinkLookup` | kernel/vm.c:86-96 | Entering a cleared page as a table changes no translation of any address space. |
| `PageTree.LeafLookup` | kernel/vm.c:152-154 | Storing a leaf entry changes the translation of that page of that address space and no other. |
| `Vm.Kernel.constructor` | kernel/kalloc.c:26-31 | At power-on no page is free and none is used. |
| `Vm.Kernel.Freerange` | kernel/kalloc.c:33-40 | freerange puts exactly the pages of the range on the free list. |
| `Vm.Kernel.Kalloc` | kernel/kalloc.c:68-82 | kalloc takes the first free page, or returns 0 exactly when there is none; no translation changes. |
| `Vm.Kernel.Kfree` | kernel/kalloc.c:46-63 | kfree puts a page that its caller holds on the free list; no translation and no other page changes. |
| `Vm.Kernel.Walk` | kernel/vm.c:80-98 | walk finds the leaf slot; with alloc it may add tables but leaves every translation of every address space unchanged; it fails only when memory runs out or, without alloc, where there is no table. |
| `Vm.Kernel.Mappages` | kernel/vm.c:137-160 | mappages changes the translation of exactly the named pages, to consecutive physical pages; on failure, of exactly a prefix of them. |
| `Vm.Kernel.Uvmunmap` | kernel/vm.c:165-187 | uvmunmap removes exactly the named translations and, if asked, frees exactly their pages, one for each. |
| `Vm.Kernel.Uvmcreate` | kernel/vm.c:191-200 | uvmcreate gives an address space that translates nothing, or 0 exactly when no page is free. |
| `Vm.Kernel.Uvmalloc` | kernel/vm.c:220-244 | uvmalloc maps, for exactly the new range, pages that were free, all zero, with the flags V, R, W, X and U. It fails only when memory runs out: then every translation is as before, every page but those turned into tables is back, and no more pages are free than were asked for. |
| `Vm.Kernel.Uvmdealloc` | kernel/vm.c:250-262 | uvmdealloc unmaps and frees exactly the pages above the new size. |
| `Vm.Kernel.Uvmcopy` | kernel/vm.c:300-328 | uvmcopy gives the child, for every page below sz, a page that was free, with word for word the parent's contents and with the flags of the parent's entry. It fails only when memory runs out: then every translation is as before, every page but those turned into tables is back, and no more pages are free than were to be copied. |
| `Vm.Kernel.Freewalk` | kernel/vm.c:266-282 | freewalk frees exactly the tables below and including its argument and leaves all other pages alone; its panic on a leaf cannot happen here. |
| `Vm.Kernel.Uvmfree` | kernel/vm.c:286-292 | uvmfree of a space that maps exactly [0, sz) frees every page the space owned and changes no other page and no other space. |
| `Vm.GrewThenRemoved` | kernel/vm.c:234-240 | Growing a space and unmapping the new pages restores every translation and gives back every page but tables. |
| `Sleep.StepKeeps` | kernel/proc.c:454-590 | Every step of schedulers, yield, sleep, wakeup, exit, fork, wait and kill on any CPU, with interrupts wherever the code has them on, keeps the locking and ownership invariant. |
| `Sleep.RunInv` | kernel/proc.c:454-590 | The invariant holds in every state of every interleaving. |
| `Sleep.SingleExecution` | kernel/proc.c:454-482 | At most one CPU has a process as its c->proc, and whenever p->lock is free, p is RUNNING exactly when one has. |
| `Sleep.SchedIsSafe` | kernel/proc.c:491-509 | sched is entered with p->lock and no other lock held and with the state changed, so none of its panics can happen. |
| `Sleep.NoSelfDeadlock` | kernel/spinlock.c:21-43 | No CPU waits for a process lock that it already holds, so acquire never panics on one. |
| `Sleep.NoLostWakeup` | kernel/proc.c:545-590 | Whoever had released its lock inside sleep(chan, lk) when wakeup(chan) began is out of that sleep when the call is over, in every interleaving. |
| `Sleep.HolderFindsSleepers` | kernel/proc.c:545-572 | Whoever holds lk finds every other caller of sleep(chan, lk) past its release of lk. |
| `Sleep.WakeupUnderLock` | kernel/proc.c:545-590 | wakeup(chan) by a holder of lk reaches every other process that has called sleep(chan, lk). |
| `Sleep.SleepReturnsLocked` | kernel/proc.c:545-572 | sleep(chan, lk) returns with lk, and no other lock, held by the CPU that then runs the process, and with p->chan cleared, however the process was woken, moved between CPUs and interrupted on its way out. |
| `Sleep.WokenByItsChannel` | kernel/proc.c:576-590 | A sleeping process becomes RUNNABLE only by kill, or by a wakeup in progress of the very channel that it called sleep with. |
| `Sleep.RoundRobin` | kernel/proc.c:454-482 | The scheduler of a CPU comes by the processes in table order, round and round: where it is, is how often it has moved on, modulo the size of the table. |
| `Sleep.SchedulerChooses` | kernel/proc.c:465-480 | A CPU executes the process that its scheduler comes by exactly if that is RUNNABLE, and otherwise leaves it as it is. |
| `ProcessTree.StepKeeps` | kernel/proc.c:289-445 | Every step of fork, exit, reparent and wait keeps tree, scans, pids and history consistent. |
| `ProcessTree.ReachesInit` | kernel/proc.c:340-351 | Following parents from any living or zombie process ends at init. |
| `ProcessTree.ProcessesFormATree` | kernel/proc.c:289-396 | In every reachable state every living or zombie process but init has a living parent, and init is its ancestor. |
| `ProcessTree.WaitersMissNothing` | kernel/proc.c:356-445 | While wait_lock is free, a process asleep in wait has a living child and no zombie. |
| `ProcessTree.WaitKnowsItsChildren` | kernel/proc.c:400-445 | wait gives up for want of children only when it is nobody's parent, and sleeps only when it is somebody's; giving up is -1. |
| `ProcessTree.ReapedOnce` | kernel/proc.c:400-445 | No zombie is reaped twice in any run. |
| `ProcessTree.WaitReportsExit` | kernel/proc.c:356-445 | wait reports the pid of a zombie child of the caller and the status that this very process gave to exit, and no process has that pid any more. |
| `ProcessTree.ForkMakesChild` | kernel/proc.c:289-336 | fork makes a living child of the caller under a pid that no process has and none has exited with; a fork that fails leaves no process behind. |
| `ProcessTree.ChildStays` | kernel/proc.c:338-351 | A process keeps its parent for as long as that parent does not exit. |
| `ProcessTree.ExitGivesChildrenToInit` | kernel/proc.c:338-396 | When a process becomes a zombie it is nobody's parent, and whoever was its child at any time before and is still there is init's child. |
| `FreeList.FreedKeeps` | user/umalloc.c:24-44 | free keeps the list address-ordered and fully coalesced and the units partitioned, and frees exactly the units of the block. |
| `FreeList.StartsOfRuns` | user/umalloc.c:24-44 | A block is on the list exactly where a run of free units starts. |
| `FreeList.Canonical` | user/umalloc.c:24-44 | Which units are free determines the whole free list. |
| `FreeList.GrownKeeps` | user/umalloc.c:46-61 | Memory from sbrk joins the heap as one live block, disjoint from all others. |
| `FreeList.TakenKeeps` | user/umalloc.c:75-77 | Taking a whole block off the list keeps the list ordered and coalesced. |
| `FreeList.SplitKeeps` | user/umalloc.c:78-82 | Taking the tail of a block keeps the list ordered and coalesced and the units partitioned. |
| `Umalloc.Heap.Free` | user/umalloc.c:24-44 | free of a live block keeps the invariant; exactly its units become free. |
| `Umalloc.Heap.FindPlace` | user/umalloc.c:30-32 | The loop of free terminates at the list element that the block belongs after. |
| `Umalloc.Heap.Morecore` | user/umalloc.c:46-61 | morecore calls sbrk once; it changes nothing exactly when that is refused, and otherwise adds new free units and a block that is large enough. |
| `Umalloc.Heap.Search` | user/umalloc.c:74-89 | The loop of malloc terminates; it calls morecore exactly when no block fits, once, and returns 0 exactly when that is refused. |
| `Umalloc.Heap.Malloc` | user/umalloc.c:63-90 | malloc calls sbrk exactly when no free block fits, and then once, for at least 4096 units; it returns 0 exactly when the kernel refuses; otherwise the end of the first block that is large enough, going round from freep, cut to the units that hold nbytes and a header, made of units that were free or are new, disjoint from every live block; the next search starts there. |
| `Umalloc.Heap.Scribble` | user/umalloc.c:63-90 | Whatever the program stores in its blocks, the allocator's structure is not affected. |
| `Umalloc.FreeUndoesMalloc` | user/umalloc.c:24-90 | Freeing what malloc returned restores the free list, block by block. |
| `ShellGrammar.LineSound` | user/sh.c:344-446 | A parse that succeeds is a tree of the grammar, and its tokens are those read. |
| `ShellGrammar.LineComplete` | user/sh.c:344-446 | The tokens of any tree of the grammar parse to that tree. |
| `ShellGrammar.AcceptsExactly` | user/sh.c:344-446 | The parser accepts exactly the sentences of the grammar, and the tree is the only one. |
| `ShellMeaning.OneTokenization` | user/sh.c:265-308 | A line has only one list of tokens: operators, ">>" before ">", maximal words, and blanks between them and nothing else. |
| `ShellMeaning.OneReading` | user/sh.c:344-446 | The parser's command is the one and only way to read a list of tokens by splitting it: at ';', before a last '&', at '|', at the parentheses of a block, at the last redirection, and into words. |
| `ShellMeaning.ReadingIs` | user/sh.c:374-397 | Every file of a redirection stands in the line behind an operator, with blanks between: '<' opens it for reading as 0, '>' writes, creates and truncates as 1, '>>' writes and creates as 1. |
| `ShellParser.Parser.GetToken` | user/sh.c:265-308 | gettoken returns the next token of the line with its bounds, or 0 at the end, and moves past it. |
| `ShellParser.Parser.Peek` | user/sh.c:310-320 | peek passes no token and tells whether the next one starts with a given character. |
| `ShellParser.Parser.ParseRedirs` | user/sh.c:374-397 | parseredirs takes exactly the redirections that follow, the last one outermost, and fails exactly when a file name is missing; what mode and descriptor they get is in ParseCmd. |
| `ShellParser.Parser.ParseArgs` | user/sh.c:429-445 | The loop of parseexec takes exactly the words and redirections of a command, fewer than MAXARGS words. |
| `ShellParser.Parser.ParseExec` | user/sh.c:415-446 | parseexec gives the command that the tokens denote, or panics where the grammar has none. |
| `ShellParser.Parser.ParseBlock` | user/sh.c:399-413 | parseblock gives the redirected command of the parenthesised line, or panics where the grammar has none. |
| `ShellParser.Parser.ParsePipe` | user/sh.c:361-372 | parsepipe gives the pipeline that the tokens denote. |
| `ShellParser.Parser.ParseLine` | user/sh.c:344-359 | parseline gives the list of background commands that the tokens denote; the mutual recursion terminates on every line. |
| `ShellParser.Parser.Nulterminate` | user/sh.c:449-493 | nulterminate stores a NUL at the end of every token that the command names and nowhere else. |
| `ShellParser.WordReads` | user/sh.c:449-493 | No token's end lies inside a word, so every word still reads as it was scanned. |
| `ShellParser.NamesWords` | user/sh.c:415-446 | Every argument and file name of a parsed command is a maximal word of the line. |
| `ShellParser.Parser.constructor` | user/sh.c:327-334 | The end of the line is where strlen finds it. |
| `ShellParser.Parser.ParseCmd` | user/sh.c:327-342 | parsecmd succeeds exactly on the lines whose characters form tokens that can be read as a command, and returns the only reading there is; every redirection opens its file with the mode and descriptor of the operator before it in the line; although the line is overwritten in place, every argument and file name reads as the token that was scanned. |
| `Grep.MatchHere` | user/grep.c:82-94 | matchhere is true exactly when the text from here on can be cut into pieces that the pattern's items stand for. |
| `Grep.MatchStar` | user/grep.c:96-104 | matchstar is true exactly when some run of the character, then the rest of the pattern, fits. |
| `Grep.Match` | user/grep.c:70-80 | match is true exactly when the declarative meaning of the pattern, with ^ . * $ and a star binding before $, accepts the text. |
| `Grep.StarFreeMeans` | user/grep.c:70-94 | A pattern without stars matches exactly the texts in which its characters stand, '.' for any, at the start under ^, at the end under $, and anywhere under neither. |
| `Grep.StarMeans` | user/grep.c:96-104 | c* stands for any run of c, of anything if c is '.', or for nothing, followed by a match of the rest. |
| `Grep.OutputIsSelection` | user/grep.c:10-34 | For every input the output is that of the newline-terminated lines before the first one that does not fit the buffer or holds a NUL. |
| `Grep.SelectionIff` | user/grep.c:10-34 | For one pattern it does so if and only if no matching line stands at or after the first line that does not fit or holds a NUL. |
| `Grep.ExactSelection` | user/grep.c:10-34 | grep prints exactly the matching newline-terminated lines for every pattern if and only if every line fits the buffer and holds no NUL. |
| `Grep.GrepCanMiss` | user/grep.c:10-34 | A line of 1023 characters, and a line with a NUL, are lost although the pattern matches them. |
| `Grep.Grepper.PrintLines` | user/grep.c:18-28 | One pass over the buffer prints the matching complete lines and keeps the unfinished one. |
| `Grep.Grepper.Grep` | user/grep.c:10-34 | grep prints the same whatever sizes read returns, for every input: the matching lines up to the first that has no newline, holds a NUL or does not fit the buffer. |
| `Alarm.Process.TimerTrap` | kernel/trap.c:68-84 | A timer trap counts only with an alarm set and no handler running; the one that completes the interval saves the frame and enters the handler. |
| `Alarm.Process.SysSigalarm` | kernel/sysproc.c:99-114 | sys_sigalarm, with the return through syscall, is the step of which the theorems about runs speak: interval and handler come from the arguments, the count restarts, a running handler is over. |
| `Alarm.Process.SysSigreturn` | kernel/sysproc.c:115-123 | sys_sigreturn, with the return through syscall: the saved frame comes back, except a0, and the handler is over. |
| `Alarm.NoNestedDelivery` | kernel/trap.c:68-84 | In every sequence of traps and calls there is a sigreturn or sigalarm between two deliveries. |
| `Alarm.TicksAreCounted` | kernel/trap.c:68-84 | ticks_since_alarm is the number of counted timer traps since the last delivery or sigalarm. |
| `Alarm.DeliverySpacing` | kernel/trap.c:68-84 | A trap delivers exactly when it is the alarm_interval-th counted one since the last delivery or sigalarm. |
| `Alarm.SigalarmTakesEffect` | kernel/sysproc.c:99-114 | Until the next sigalarm, every delivery enters the address that was in a1, with all registers as they were; the first comes at exactly the n-th counted trap, n the low 32 bits of a0 as a C int; and no other trap changes the frame. |
| `Alarm.CallsReturn` | kernel/trap.c:53-67 | A system call returns four bytes behind its ecall with the result in a0, 0 for sigalarm, and every other register as it was. |
| `Alarm.InHandlerIff` | kernel/trap.c:68-84 | The process is in the handler exactly while the latest delivery has seen neither a sigreturn nor a sigalarm. |
| `Alarm.SigreturnRestores` | kernel/syscall.c:136-150 | sigreturn restores epc and every register but a0 from the latest delivery, a0 becoming 0; the interruption is invisible if and only if a0 was 0. |
| `Alarm.A0IsLost` | kernel/syscall.c:136-150 | A concrete run in which sigreturn does not restore a0. |

## Left out

- RedoLog.Log.LogWrite: log_write's test that no operation is outstanding is a precondition, since the caller is inside one.
- FileLayer.Fs.Writei: states the contents for copies from user memory that succeed; a copy that fails part way leaves a changed block that is not logged.
- FileCrash.FilewriteAtomic: what the log's history holds of each chunk is a premise: for every block that the chunk gave to log_write, its contents when the chunk ends; and the call is the only client of the log while it runs.
- FileLayer.Fs.Readi: states the result for copies to user memory that succeed.
- Virtio.Disk.DeviceExecute: the device reports success; for an error status the driver panics.
- Grep.Grepper.Grep: read errors end the input as end of file does.
- The packing of an inode into its disk block: iupdate is one logged block, ilock reads the inode as it was written, and `FileCrash` holds for any packing that can be read back.
- iget, the inode table and its reference counts; Links.Table.Iput is the call of the last user.
- Path names: namex and skipelem; the inodes that paths lead to are parameters, and names are compared as whole strings.
- The loops of proc.c over its mutable tables: `Sleep` and `ProcessTree` model the interleaved steps that these loops make, on values.
- Link and unlink by several processes at once: each call is atomic here.
- copyin, copyout, copyinstr and walkaddr: byte copies page by page through the translation that LookupIs describes.
- kvmmake, uvminit, uvmclear and the kernel's own mappings; translation caches.
- The kernel's words in a trap frame, and the trap path in assembly.
- acquiresleep and releasesleep: one flag under a spin lock; what they need of sleep and wakeup is `Sleep.WakeupUnderLock`.
- Interrupt disabling (push_off, pop_off) as counters; the model has interrupts on outside spin locks, yield and acquire, which turn them off first, so also in sleep between the release of p->lock and acquire(lk).
- Memory ordering: every step is sequentially consistent.
- Overflow of process ids, reference counts and link counts, which are unbounded here.
- Out-of-memory paths of allocproc; fork's copy either succeeds or frees the process again.
- Pipes, console, uart, exec, printf, boot and the small user programs: easier than what is here, or hardware.
