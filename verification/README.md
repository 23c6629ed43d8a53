# A verified model of the kernel's file system, allocators, scheduler and shell parser

Dafny models of the parts of this teaching kernel that carry invariants, with proofs of what they are
for. `dafny verify dfyconfig.toml` checks everything.

The modules, from the disk upwards:

- `Bytes`, `LogDisk`, `Recency`, `BlockCache`, `LogStore`, `Commits`, `GroupCommit`, `Atomicity`: the
  block cache and its write-ahead log. `BlockCache` is the code for one thread, with the sequence of
  disk states it passes through and the history of its uses, by which its list is ordered. `LogStore`
  and `GroupCommit` are the same protocol as a state machine with one step for every atomic action, so
  that any number of operations interleave and a crash may fall between any two disk writes, also inside
  recovery. `Commits` shows that the code of a commit passes through exactly the disks of the protocol.
  `Atomicity` states the result in terms of a journal: every write of every operation in order, of which
  a crash leaves a prefix that splits no operation.
- `Bitmap`, `InodeLayout`, `Inodes`, `Files`: the block allocator, inodes with direct blocks and an
  indirect table, and `filewrite`. Every block in use has one role (inode and index), so maps are
  disjoint, and files are byte sequences.
- `RbShape`, `RbRotate`, `RbSplice`, `RbTree`: the red-black tree with parent pointers. The memory is a
  map from nodes to cells; a ghost tree and a context (a tree with a hole) say what the memory holds, and
  each rotation is a lemma about cells.
- `RingList`, `Semaphores`: circular lists, and the semaphore as code and as a protocol with any number of
  threads and wake-ups of any cause.
- `SchedQueues`, `Scheduler`: run queues of nested containers, the search through them, and the scheduler
  over any number of CPUs.
- `Pages`, `Heap`, `PageTable`, `VmCopy`: pages, the heap inside them, four-level page tables and copying
  an address space.
- `ShellParser`, `ShellGrammar`, `ShellPrint`, `Shell`: the shell's parser as functions and as code over a
  cursor, the grammar of the language it accepts, a printer with its round trip, and NUL termination in
  place.

`Basics` and `Bits` have what several of them use.

Code that updates things in place is a class or a method on an array, with a contract that ties its new
state to a function of the old one; protocols are state machines whose steps are these functions.

Where the code differs from what its comments or tests suggest, the model follows the code:

- `init_bcache` clears `LOG_MAX_SIZE` bytes, not entries, of the header's block numbers
  (src/fs/cache.c:165). Only the count matters for a recovery, and this is proved.
- `merge` returns before it marks the last block of a list as free (src/kernel/mem.c:57), so `kfree` of
  that block does not make it available again. `Heap.Memory.Kfree` states exactly when a block becomes
  free.
- `cache_free` subtracts the bit (src/fs/cache.c:300). It clears the mark if and only if the mark was set;
  `Bitmap.FreeingUnmarked` states what happens otherwise.
- A new page is used for any size without another look (src/kernel/mem.c:84-92). `Heap.Memory.Kalloc` states
  for which sizes the block leaves the page.
- `end_op` releases the lock before it goes to sleep (src/fs/cache.c:227-228), so an operation may miss the
  wake-up of its commit. `GroupCommit.CommitWakes` states who is woken and who is not.
- `parseexec` panics as soon as it has stored the tenth argument (src/user/sh/main.c:416-418), so nine is
  the most.
- A read whose offset plus count wraps around 64 bits fails an assertion, but only then or beyond the end
  of the file (src/fs/inode.c:241-246).

## Model

| member | source | states |
|---|---|---|
| `Atomicity.CrashIsAtomic` | src/fs/cache.c:147-262 | In every run of all interleavings, a crash before any disk write, followed by any number of recoveries that are themselves cut short and one that is not, leaves exactly the effect of a prefix of the journal of writes. The prefix splits no operation and has every write of every operation whose `end_op` has returned. |
| `Atomicity.ReturnedInstalled` | src/fs/cache.c:218-262 | In every run, when an uninterrupted `end_op` has returned, the commit that covers the operation had put all its writes at their home blocks and cleared the log. |
| `Atomicity.ReadsLastWrite` | src/fs/cache.c:68-136 | In every run, reading a block through the cache gives the last write to it, whatever has been evicted or committed meanwhile. |
| `Atomicity.NeverPanics` | src/fs/cache.c:170-232 | In every run, no step a well-behaved user may take reaches the log-full panic, the panic of `end_op` during a commit, or the failing assertion of the semaphore. |
| `Atomicity.RunKeeps` | src/fs/cache.c:147-262 | Every reachable state satisfies the store invariant, the operations' books and the agreement of journal and disk. |
| `Atomicity.JournalStep` | src/fs/cache.c:147-262 | One step keeps the journal in agreement with what users see, what a crash would recover to, and which commit covers which operation. |
| `Atomicity.ReturnedDurable` | src/fs/cache.c:218-262 | A write of an operation that has returned lies before the last point the log has made durable. |
| `Atomicity.WithinBudget` | src/fs/cache.c:192-215 | In every run, an open operation whose writes all lie in one set of at most ten blocks may write any of them next, and `cache_sync` does not panic. |
| `GroupCommit.StepKeeps` | src/fs/cache.c:170-262 | Begin, write, end, wait, wake-up, every single write of a commit, cache traffic and crashes all keep the invariant: log header and pinned blocks agree, the disk is where the phase of the commit says, and there is room for all admitted operations. |
| `GroupCommit.NoPanic` | src/fs/cache.c:192-232 | With `num_blocks` plus the sum over open operations of (10 - `rm`) at most `LOG_MAX_SIZE`, an operation that stays within ten distinct blocks never finds the log full. |
| `GroupCommit.BeginBooks` | src/fs/cache.c:170-189 | The admission test of `begin_op` restores the budget inequality for one more operation. |
| `GroupCommit.WriteBooks` | src/fs/cache.c:192-215 | A `sync` of a new or an already logged block keeps the budget inequality and the distinctness of the header. |
| `GroupCommit.LeaveBooks` | src/fs/cache.c:221-231 | An operation that is not the last to end gives its unused budget back and waits for the commit of its group. |
| `GroupCommit.LastBooks` | src/fs/cache.c:221-232 | The last operation to end becomes the only committer. |
| `GroupCommit.ResumeBooks` | src/fs/cache.c:228-230 | A sleeper that was woken by a post belongs to a commit that has ended; one that was interrupted leaves without a claim. |
| `GroupCommit.FinishBooks` | src/fs/cache.c:256-260 | `post_all_sem` at the end of a commit wakes only operations of that commit or earlier ones and leaves no token for later ones. |
| `GroupCommit.CommitWakes` | src/fs/cache.c:221-261 | The end of a commit wakes every operation that is asleep. One that has left the lock but is not asleep yet misses it: it goes to sleep although its commit has ended. |
| `GroupCommit.LastCommits` | src/fs/cache.c:221-234 | An operation that ends commits if and only if no other one is open. |
| `GroupCommit.CrashStep` | src/fs/cache.c:147-167 | A crash and its recoveries end in a state that satisfies the invariant, with the disk exactly as of the last commit. |
| `LogStore.CrashRecovers` | src/fs/cache.c:147-262 | At every moment of a run the disk recovers to the last committed view. |
| `LogStore.CrashKeeps` | src/fs/cache.c:147-167 | After a crash and any number of recoveries cut short, the disk holds exactly the last committed view and the log is empty. |
| `LogStore.AdvanceKeeps` | src/fs/cache.c:234-259 | Every single write of a commit, and the two header updates, keep transparency of the cache and recoverability of the disk. |
| `LogStore.WriteKeeps` | src/fs/cache.c:192-215 | A synced change is seen by all users, pins its block and leaves what a crash recovers to as it was. |
| `LogStore.EvictKeeps` | src/fs/cache.c:93-106 | Evicting a block that is not pinned changes no content and nothing a crash recovers to. |
| `LogStore.LoadKeeps` | src/fs/cache.c:107-126 | Loading a block changes no content and nothing a crash recovers to. |
| `LogDisk.RepeatedRecovery` | src/fs/cache.c:147-167 | For every disk that recovers to v, and every sequence of recoveries stopped after arbitrary numbers of writes, the disk still recovers to v, and one complete recovery installs exactly v. |
| `LogDisk.AttemptRecovers` | src/fs/cache.c:160-166 | `init_bcache` stopped after any number of block writes does not change what the disk recovers to; complete, it installs it and empties the log. |
| `LogDisk.CopyWrite` | src/fs/cache.c:234-238 | One copy into a log slot keeps the disk as it was for a recovery and extends the logged part. |
| `LogDisk.HeaderWrite` | src/fs/cache.c:241 | The header write turns the disk from the old view to the new one. |
| `LogDisk.PlaceWrite` | src/fs/cache.c:244-249 | One write to a home block keeps what the log recovers to. |
| `LogDisk.ClearWrite` | src/fs/cache.c:250-253 | The cleared header leaves the new view installed and the log empty. |
| `LogDisk.CommitRecovers` | src/fs/cache.c:234-253 | Before the header write a crash goes back to the old view, from then on forward to the new one. |
| `LogDisk.HeaderRoundTrip` | src/fs/defines.h:72-75 | Decoding an encoded log header gives the header back. |
| `LogDisk.HeaderFields` | src/fs/defines.h:72-75 | In any block, `num_blocks` is the first eight bytes and block number i the eight at 8 + 8i. |
| `LogDisk.EncodedHeader` | src/fs/defines.h:72-75 | An encoded header has its fields there. |
| `LogDisk.RecoveredFrom` | src/fs/cache.c:160-163 | If number i in the header block is b, a recovery takes b from the block i + 1 behind the header, and if none is, it leaves b alone. |
| `LogDisk.WipedRoundTrip` | src/fs/cache.c:164-166 | The header that `init_bcache` writes, with LOG_MAX_SIZE bytes rather than entries cleared, decodes to an empty log. |
| `BlockCache.Cache.Acquire` | src/fs/cache.c:68-127 | For a block nobody holds: the data returned is the block's logical content, no content changes, and the cache exceeds 20 blocks only if all others are held or pinned. On a hit the block moves to the front and the others keep their order; on a miss the survivors keep theirs, and every dropped block was last acquired before every idle block that stays. |
| `BlockCache.Cache.MoveToHead` | src/fs/cache.c:27-30 | The block comes first, the others keep their order, and the list stays ordered by last use. |
| `BlockCache.Cache.Evict` | src/fs/cache.c:93-106 | The list loses, from the back, exactly its idle blocks until fewer than 20 are left or all are busy; what goes was last used before every idle block that stays; no logical content changes. |
| `Recency.UseKeeps` | src/fs/cache.c:27-30 | Moving the block in use to the front keeps the list ordered by last use, for every list and every history of uses. |
| `Recency.LeastRecentFirst` | src/fs/cache.c:93-106 | Whatever the cut, a block dropped behind it was last used before every survivor that is not busy. |
| `BlockCache.Cache.Release` | src/fs/cache.c:130-136 | A released block that was synced keeps the cache coherent with the disk. |
| `BlockCache.Cache.CopyBlockData` | src/fs/cache.c:138-145 | One disk write; the target has the content of the source, no other content changes and the busy blocks stay the same. |
| `BlockCache.Cache.constructor` | src/fs/cache.c:147-167 | `init_bcache`: the disk after each of its writes is that of a recovery stopped there, and at the end every view the disk recovered to is installed. |
| `BlockCache.Cache.Replay` | src/fs/cache.c:161-163 | The replay loop passes through exactly the disks of partial recoveries. |
| `BlockCache.Cache.BeginOp` | src/fs/cache.c:170-189 | Admits an operation if and only if no commit is going on and the log has room for ten blocks of every open operation and this one. |
| `BlockCache.Cache.Sync` | src/fs/cache.c:192-215 | Panics if and only if the block is new to the log and either budget is used up; otherwise pins the block and keeps the header equal to the set of pinned blocks. |
| `BlockCache.Cache.IsLogged` | src/fs/cache.c:201-207 | The search says whether the header has the block. |
| `BlockCache.Cache.LogAll` | src/fs/cache.c:234-241 | The trace grows by the disks of the first n + 1 writes of a commit: the copies and the header. |
| `BlockCache.Cache.PlaceAndClear` | src/fs/cache.c:244-253 | The trace goes on with the disks of the other n + 1 writes: the blocks at home and the cleared header. |
| `BlockCache.Cache.Commit` | src/fs/cache.c:232-256 | The disk passes through exactly the 2n + 2 states of a commit of what users saw. Those before the header write recover to the old view, all others to the new one, which is installed at the end. |
| `Commits.CommitIsProtocol` | src/fs/cache.c:232-259 | The states that the code of a commit passes through are those of the protocol's steps, one for every step that writes, and the protocol ends quiet with its invariant; so the results about crashes are about this code. |
| `Commits.StoreInv` | src/fs/cache.c:147-262 | A cache between commits is a state of the protocol that satisfies its invariant. |
| `LogDisk.CommitTurns` | src/fs/cache.c:234-253 | For every commit and every number of its writes: up to the header write the disk recovers to the old view, after it to the new one, and the last disk has the new view installed. |
| `BlockCache.Cache.EndLastOp` | src/fs/cache.c:218-262 | `end_op` of the only open operation: panics if and only if a commit is going on, otherwise commits what users of the cache see, through the states of a commit. |
| `Bitmap.Volume.Alloc` | src/fs/cache.c:266-291 | The lowest unmarked data block, or a panic if and only if there is none; exactly that mark is set, the block is zeroed and no other block outside the bitmap changes. |
| `Bitmap.Volume.Free` | src/fs/cache.c:295-304 | The bit is subtracted. The block's mark goes, and no other mark changes, if and only if the block was in use. |
| `Bitmap.Volume.FirstClear` | src/fs/cache.c:269-288 | The three nested loops find the first unmarked block. |
| `Bitmap.Volume.ScanBlock` | src/fs/cache.c:271-286 | The first unmarked block of one bitmap block, if any. |
| `Bitmap.Volume.ScanByte` | src/fs/cache.c:273-285 | The first clear bit of a byte, below `num_blocks`. |
| `Bitmap.Marking` | src/fs/cache.c:275 | Or-ing in the bit of a clear block marks it and no other. |
| `Bitmap.Unmarking` | src/fs/cache.c:298-300 | Clearing by subtraction flips the block's mark, so it is clear afterwards if and only if it was set, and then no other mark changes. |
| `Bitmap.FreeingUnmarked` | src/fs/cache.c:298-300 | Freeing an unmarked block marks it and every block up to the next marked one of its byte, which loses its mark; nothing else changes. |
| `Bitmap.BitBorrowed` | src/fs/cache.c:300 | Subtraction of a clear bit sets all bits up to the next set one and clears that one. |
| `Bitmap.MarksRemovedOnly` | src/fs/cache.c:298-300 | The bitmap is right after a free if and only if the block was in use. |
| `Bitmap.BitSubtracted` | src/fs/cache.c:300 | Subtraction of a power of two in 8 bits flips that bit, and changes no other bit if it was set. |
| `Bitmap.MarkedOnDisk` | src/fs/cache.c:269-275 | A bitmap block is one number of 4096 bits, with bit b % 4096 of block `bitmap_start` + b / 4096 for block b. |
| `Inodes.FileSystem.Write` | src/fs/inode.c:264-294 | A device writes to the console. Otherwise it fails exactly when an assertion does, or the disk is full; or else the file is overwritten and extended as a plain byte sequence, every other file is the same and no file has a hole. In every case the number of synced blocks is bounded. |
| `Inodes.FileSystem.WriteFile` | src/fs/inode.c:278-293 | The same once the assertions hold: it fails only if the disk is full. |
| `Inodes.FileSystem.Read` | src/fs/inode.c:234-261 | A device delivers what is typed. Otherwise it panics if and only if the offset is beyond the end or offset plus count wraps around, or else returns that slice of the file; nothing changes. |
| `Inodes.FileSystem.Map` | src/fs/inode.c:198-227 | The block at that index of the file, allocated if there is none (direct, through a new table, or in the table); also when the disk is full, no file changes, no block gets two roles and the synced blocks are bounded. |
| `Inodes.FileSystem.Clear` | src/fs/inode.c:141-161 | Exactly the inode's direct blocks, table and blocks in the table lose their marks, each once; all other files are the same. |
| `Inodes.FileSystem.Sync` | src/fs/inode.c:90-106 | The entry's 64 bytes in its inode block are the entry's, field by field at the offsets of the struct, and all other bytes are the same. |
| `Inodes.FileSystem.constructor` | src/fs/inode.c:99-105 | Loading a consistent disk gives its entries and establishes the invariant. |
| `Inodes.EmptyVolume` | src/fs/inode.c:32-43 | For every layout there is a disk that satisfies the invariant: the one without files. |
| `Inodes.FileSystem.AddDirect` | src/fs/inode.c:203-211 | A missing direct block becomes a fresh one, and no file changes. |
| `Inodes.FileSystem.AddTable` | src/fs/inode.c:213-216 | A missing indirect table becomes a fresh, empty one, and no file changes. |
| `Inodes.FileSystem.AddInTable` | src/fs/inode.c:217-226 | A missing entry of the table becomes a fresh block, and no file changes. |
| `Inodes.FileSystem.WriteBlocks` | src/fs/inode.c:282-291 | The block-stepping loop lays the source over the old file, through direct and indirect blocks and unaligned ends. Whether or not the disk gets full, it syncs no more data blocks than the range spans. |
| `Inodes.FileSystem.ReadBlocks` | src/fs/inode.c:247-258 | The block-stepping loop collects exactly the slice of the file. |
| `Inodes.ReadBack` | src/fs/inode.c:234-294 | What was written at an offset is what is read there, and the bytes before and after are as they were. |
| `Inodes.OverwriteAt` | src/fs/inode.c:264-294 | Each byte of an overwritten sequence comes from the source inside the range and from the old file outside it. |
| `Inodes.ReadEnd` | src/fs/inode.c:241-246 | The 64-bit arithmetic and the three assertions of a read accept exactly the offsets within the file whose sum with the count does not wrap around. |
| `Inodes.MayWrite` | src/fs/inode.c:270-277 | The 64-bit arithmetic and the three assertions of a write accept exactly what starts within the file and ends within the largest size. |
| `InodeLayout.EntryRoundTrip` | src/fs/defines.h:50-59 | Decoding an encoded inode entry gives the entry back. |
| `InodeLayout.EncodedFields` | src/fs/defines.h:50-59 | The fields of an encoded entry are at bytes 0, 2, 4, 6, 8, 12 + 4k and 60, with two or four bytes each. |
| `InodeLayout.DecodedFields` | src/fs/defines.h:50-59 | The fields of any 64 bytes are read from the same places. |
| `InodeLayout.EntryOnDisk` | src/fs/inode.c:18-25 | Inode `ino` is the struct at byte 64 * (ino % 8) of block `inode_start` + ino / 8, each field a sum of bytes times powers of 256. |
| `InodeLayout.EntrySynced` | src/fs/inode.c:89-98 | After `inode_sync` the struct is there, field by field. |
| `InodeLayout.FileOnDisk` | src/fs/defines.h:50-64 | Length and bytes of every file in terms of the bytes of the disk alone: the twelve direct numbers in the entry, and 128 more in the indirect block. |
| `Bytes.LittleEndian` | src/fs/defines.h:50-75 | A number in memory is the sum of its bytes times powers of 256. |
| `Bytes.PackedWord` | src/fs/defines.h:50-75 | Word i of an array of k-byte words is at byte k * i. |
| `Bytes.UnpackedWord` | src/fs/defines.h:50-75 | The same for reading, from any bytes. |
| `InodeLayout.StoredBack` | src/fs/inode.c:18-25 | Storing an entry leaves all other entries of the block, and all other blocks, as they were. |
| `InodeLayout.DirectAdded` | src/fs/inode.c:203-211 | A new direct block keeps the whole file system consistent. |
| `InodeLayout.TableAdded` | src/fs/inode.c:213-216 | A new indirect table keeps the whole file system consistent. |
| `InodeLayout.InTableAdded` | src/fs/inode.c:219-223 | A new entry in the table keeps the whole file system consistent. |
| `Files.OpenFile.Write` | src/fs/file.c:106-135 | The chunks together overwrite the file as one sequence and move the offset; every other file is the same. Every operation it makes, also one that stops on a full disk, syncs only blocks behind the log, and at most ten of them when the bitmap spans at most four blocks. A write of n bytes that succeeds makes exactly ceil(n / 1536) operations. |
| `Files.ChunkNeverPanics` | src/fs/file.c:111-126 | With such a bitmap, in every interleaving with other operations, commits and crashes, whichever block of its chunk the operation syncs next, `cache_sync` does not panic. |
| `Files.OpenFile.WriteChunk` | src/fs/file.c:118-129 | One chunk at any offset, with any mix of fresh blocks and whether or not it succeeds, stays within ten synced blocks. |
| `Files.ChunkSpan` | src/fs/file.c:111-115 | A chunk of 1536 bytes at any offset lies in at most four blocks. |
| `Files.OverwriteTwice` | src/fs/file.c:116-130 | Two consecutive writes are one write of the concatenation. |
| `RbTree.Root.Insert` | src/common/rbtree.c:247-270 | -1 if and only if an equal node is present, and then the tree is unchanged; otherwise exactly the new node is added and all search, colour, black-height and parent-pointer rules hold. |
| `RbTree.Root.Erase` | src/common/rbtree.c:271-276 | Exactly the node is removed, and all search, colour, black-height and parent-pointer rules hold. |
| `RbTree.Root.InsertFix` | src/common/rbtree.c:40-109 | The fix-up loop terminates and restores all rules for a tree whose only fault is a red node below a red one. |
| `RbTree.Root.InsertDescent` | src/common/rbtree.c:248-267 | The descent meets an equal node if there is one, and otherwise hangs the node where the order wants it. |
| `RbTree.Root.InsertStep` | src/common/rbtree.c:50-107 | One turn of the loop, both sides and all three cases, makes of the tree at the grandparent what the case says, in memory. |
| `RbTree.Root.EraseFix` | src/common/rbtree.c:161-246 | The fix-up loop terminates and restores all rules for a tree with one hole that is a black node short. |
| `RbTree.Root.EraseStep` | src/common/rbtree.c:164-244 | One turn of the loop, both sides and all four cases, makes of the tree at the parent what the case says, in memory. |
| `RbTree.Root.EraseSkip` | src/common/rbtree.c:114-127 | A node with at most one child is cut out; the result says whether and where a black node is missing. |
| `RbTree.Root.EraseSplice` | src/common/rbtree.c:129-158 | A node with two children is replaced by its successor; the result says whether and where a black node is missing. |
| `RbTree.Root.FindSuccessor` | src/common/rbtree.c:129-139 | The loop finds the leftmost node of the right subtree and its parent. |
| `RbTree.Root.ChangeChild` | src/common/rbtree.c:25-33 | The link of the parent, or the root pointer, now leads to the new node, and nothing else changes. |
| `RbTree.Root.RotateSetParents` | src/common/rbtree.c:34-39 | The new node takes the place and colour of the old one, which becomes its child. |
| `RbTree.Root.Lookup` | src/common/rbtree.c:277-288 | Finds an equal node if and only if there is one, and visits at most 2 log2(n + 1) nodes. |
| `RbTree.Root.First` | src/common/rbtree.c:289-297 | The least node, or NULL for an empty tree, in at most 2 log2(n + 1) steps. |
| `RbTree.Root.constructor` | src/common/rbtree.h:10-12 | An empty tree is valid. |
| `RbTree.InsertedRb` | src/common/rbtree.c:50-107 | One turn of the insertion fix-up either moves the fault two levels up or removes it. |
| `RbTree.ErasedRb` | src/common/rbtree.c:173-203 | One turn of the deletion fix-up with a black sibling either moves the missing black node up or supplies it. |
| `RbTree.Case1Rb` | src/common/rbtree.c:166-172 | A red sibling is turned into a black one without changing what is missing. |
| `RbTree.HeightBound` | src/common/rbtree.c:277-297 | A red-black tree with n nodes has height at most 2 log2(n + 1). |
| `RbTree.ValidAgrees` | src/common/rbtree.c:40-276 | In a valid tree every node's links and those of its neighbours agree, keys are in order, no red node has a red child and the root is black. |
| `RbTree.EqualBlacks` | src/common/rbtree.c:40-276 | In a valid tree any two ways from the root to NULL meet the same number of black nodes. |
| `RbSplice.SplicedCells` | src/common/rbtree.c:128-158 | Replacing a node by its successor changes exactly the cells of six nodes and keeps the search order. |
| `RbRotate.RotateRight` | src/common/rbtree.c:72-78 | A single rotation changes exactly the cells around it and keeps the search order. |
| `RbRotate.RotateLeft` | src/common/rbtree.c:100-106 | The mirror image. |
| `RbRotate.DoubleRight` | src/common/rbtree.c:62-78 | A double rotation changes exactly the cells around it and keeps the search order. |
| `RbRotate.DoubleLeft` | src/common/rbtree.c:90-106 | The mirror image. |
| `Semaphores.SemaphoreSafety` | src/common/sem.c:13-105 | In every interleaving of wait, try, post, post-all, get-all and wake-ups of any cause, the sleep list has max(0, -val) entries, neither the panic nor the assertion is reached, and a post wakes the thread that has slept longest. |
| `Semaphores.MutualExclusion` | src/common/sem.c:13-105 | Used as a lock, a semaphore that starts at c never has more than c holders. |
| `Semaphores.StepSafe` | src/common/sem.c:13-105 | Every step keeps the balance of count and sleep list and the order of arrivals. |
| `Semaphores.StepAccounts` | src/common/sem.c:13-105 | Every step of a disciplined user accounts for each unit: free, held, or on its way to a woken thread. |
| `Semaphores.PostKeeps` | src/common/sem.c:91-105 | A post never finds the list empty and keeps the balance. |
| `Semaphores.ResumeKeeps` | src/common/sem.c:79-88 | A thread that comes back, woken or not, passes the assertion and keeps the balance. |
| `Semaphores.Semaphore.PostAll` | src/common/sem.c:42-51 | The loop wakes every sleeper, returns their number and leaves neither a sleeper nor a token. |
| `Semaphores.Semaphore.Post` | src/common/sem.c:91-105 | One more unit, or the oldest sleeper is woken. |
| `Semaphores.Semaphore.Wait` | src/common/sem.c:63-78 | Takes a unit, or enters the sleep list. |
| `Semaphores.Semaphore.Resume` | src/common/sem.c:79-88 | Returns whether a post was the cause, and leaves the list if not. |
| `Semaphores.Semaphore.Get` | src/common/sem.c:13-22 | Takes a unit if there is one. |
| `Semaphores.Semaphore.GetAll` | src/common/sem.c:29-40 | Takes all units there are. |
| `Semaphores.Semaphore.constructor` | src/common/sem.c:6-11 | The given value and no sleepers; balanced unless the value is negative. |
| `RingList.MergeList` | src/common/list.c:8-32 | Two disjoint rings become one, in which the second follows the first node of the first. |
| `RingList.InsertIntoList` | src/common/list.h:20 | The node comes right after the list's node, and the others keep their order. |
| `RingList.DetachFromList` | src/common/list.c:34-44 | For a node anywhere in its ring: it is a ring of its own, the rest stays a ring in order, and the result is the node before or NULL. |
| `RingList.ListNode.constructor` | src/common/list.c:3-6 | A node is a ring of its own. |
| `Scheduler.AlwaysSafe` | src/kernel/sched.c:92-231 | In every run over all CPUs: each CPU's process is running and on no other CPU, and a process that is not idle is queued, once and in its container's queue only, if and only if it is runnable or running. |
| `Scheduler.StepKeeps` | src/kernel/sched.c:92-231 | Every wake-up, new process, new container, activation of a group, kill, panic and switch keeps that. |
| `Scheduler.Assertions` | src/kernel/sched.c:208-222 | Both assertions of `simple_sched` hold in every reachable state. |
| `Scheduler.IdleChosen` | src/kernel/sched.c:143-191 | Without panic the idle process is chosen if and only if no process in the container tree is runnable. |
| `Scheduler.BoundedWaiting` | src/kernel/sched.c:124-162 | In every run with k + 1 picks from the queue of a runnable process that has k groups or runnable processes ahead of it, and with nothing new entering that queue, there is a step that chooses the process, after at most k such picks. |
| `Scheduler.WokenChosen` | src/kernel/sched.c:92-191 | In every run that starts by waking a process up, the very next pick from its queue chooses it, if nothing new comes into the queue before. |
| `Scheduler.WokenWaits` | src/kernel/sched.c:92-113 | Whoever is woken up is runnable with nobody ahead of it in its queue; if its container is in the tree, it is one of the processes the scheduler must not leave for idling. |
| `Scheduler.LifeCycle` | src/kernel/sched.c:92-231 | How a process changes its state in any step: woken from sleep, an alert leaving deep sleep alone; chosen by a CPU; or given up by its own CPU. Nothing wakes a zombie. |
| `Scheduler.Exited` | src/kernel/sched.c:208-231 | A switch to the zombie state always leaves the process, killed or not. |
| `Scheduler.SwitchEffect` | src/kernel/sched.c:208-231 | The whole effect of a switch on the processes and CPUs. |
| `Scheduler.WaitingPicks` | src/kernel/sched.c:124-162 | While the process waits, there are at most k picks from its queue. |
| `Scheduler.ChosenNext` | src/kernel/sched.c:92-231 | The only step that ends the waiting of a runnable process is a switch that makes it the running process of a CPU. |
| `Scheduler.StepCloser` | src/kernel/sched.c:124-162 | No step moves a waiting process back, and each pick from its queue moves it forward. |
| `Scheduler.StartInv` | src/kernel/sched.c:33-43 | The state after initialisation satisfies the invariant for any number of CPUs. |
| `Scheduler.ActivateKeeps` | src/kernel/sched.c:92-113 | A woken process enters its queue once. |
| `Scheduler.SwitchKeeps` | src/kernel/sched.c:208-231 | A switch keeps the invariant. |
| `SchedQueues.FindKeepsItems` | src/kernel/sched.c:143-162 | The search reorders queues and does nothing else. |
| `SchedQueues.NoneRunnable` | src/kernel/sched.c:143-162 | The search finds nothing only if nothing in the tree below is runnable. |
| `SchedQueues.FindPath` | src/kernel/sched.c:143-162 | What the search finds is queued in a container below. |
| `SchedQueues.FindThrough` | src/kernel/sched.c:143-162 | A container the search goes through has its queue changed as by a search of its own; other queues stay. |
| `SchedQueues.PickCloser` | src/kernel/sched.c:143-162 | A pick that is not the waiting process brings it nearer to the front. |
| `Scheduler.Kernel.constructor` | src/kernel/sched.c:33-43 | Each CPU runs its idle process. |
| `Scheduler.Kernel.ActivateProc` | src/kernel/sched.c:92-113 | True exactly for a sleeping or unused process, and for a deeply sleeping one without an alert. Then it is runnable and the first in its container's queue, and nothing else changes; otherwise nothing changes at all. |
| `Scheduler.Kernel.EnterGroup` | src/kernel/sched.c:115-122 | The group is the first in its parent's queue, and nothing else changes. |
| `Scheduler.Kernel.FindProc` | src/kernel/sched.c:143-162 | The recursive search with its rotations computes the search function. |
| `Scheduler.Kernel.PickNextProc` | src/kernel/sched.c:164-191 | The result of the search from the root, or the idle process. |
| `Scheduler.Kernel.UpdateThisState` | src/kernel/sched.c:124-140 | The process leaves its queue or goes to its end. |
| `Scheduler.Kernel.SimpleSched` | src/kernel/sched.c:208-231 | A killed process that is not exiting stays as it is. Otherwise the CPU's process goes into the new state, one that was runnable, or the same again, runs on the CPU, the idle process if there was a panic, and no other process or CPU changes. Both assertions are proved. |
| `Heap.BlocksAreSafe` | src/kernel/mem.c:54-110 | Blocks in use are 8-aligned, at least as large as asked for, inside one page, and disjoint from each other and from every header. |
| `Heap.Memory.Kalloc` | src/kernel/mem.c:73-103 | A block that was not in use, with the list invariant kept: the one that the search of `AfterKalloc` ends at, with the top page taken exactly if it ends at none; nothing only if there is no page left. It writes behind the end of a page if and only if more than 4080 bytes are asked for and a page is left. |
| `Heap.Memory.Kfree` | src/kernel/mem.c:105-110 | The block is no longer in use and all others stay; it is marked free if and only if it was not the last of its list. |
| `Heap.Memory.Merge` | src/kernel/mem.c:54-63 | Joined with a free neighbour of the same page, the block has the sum of both sizes and 16 bytes more, and the neighbour's successor, and the neighbour is gone; otherwise it is only marked free, and the last block of a list stays as it is. |
| `Heap.Memory.Search` | src/kernel/mem.c:76-83 | The first free block that is, or becomes by merging, large enough; NULL only if the whole list has none. |
| `Heap.Memory.Find` | src/kernel/mem.c:76-91 | A page is taken only if no block of the list is large enough; the block found is large enough if and only if at most 4080 bytes are asked for. |
| `Heap.Memory.AddPage` | src/kernel/mem.c:84-91 | A new page in front of the list, as one free block. |
| `Heap.Memory.Take` | src/kernel/mem.c:92-100 | If more than 16 bytes are left over, there is a new free header right behind the block, with exactly the rest less 16 bytes and the old successor, and the block points to it; else the block keeps its successor and shrinks. No other header changes. |
| `Heap.Memory.constructor` | src/kernel/mem.c:29-34 | Empty lists. |
| `Heap.MergedOk` | src/kernel/mem.c:54-63 | Merging keeps all blocks apart, inside their pages and singly linked, and touches no block in use. |
| `Heap.SplitOk` | src/kernel/mem.c:92-100 | Splitting keeps all that. |
| `Heap.PushedOk` | src/kernel/mem.c:84-91 | A new page keeps all that. |
| `Heap.LastBlockLost` | src/kernel/mem.c:54-110 | `kalloc` and `kfree` on an empty list: the page is one free block again if and only if it was split; otherwise no later search of that list finds anything. |
| `Heap.TwoInOnePage` | src/kernel/mem.c:73-103 | On an empty list, two requests that fit in a page with their headers take one page, and get the blocks at offsets 16 and 32 plus the rounded first size, whatever else the heap holds. |
| `Heap.FirstBlockFits` | src/kernel/mem.c:73-103 | A request that fits in the first block of a list, or in it and the free block behind it together, is served there and takes no page. |
| `Heap.SplitBack` | src/kernel/mem.c:54-100 | Splitting a block and merging it again gives back the block of before, whole. |
| `Pages.PageAllocator.Alloc` | src/kernel/mem.c:47-53 | A page nobody refers to, with one reference; free pages plus pages in use stay the same number. |
| `Pages.PageAllocator.Free` | src/kernel/mem.c:65-72 | One reference less; the page is free if and only if that was the last. |
| `Pages.PageAllocator.constructor` | src/kernel/mem.c:35-44 | All pages are free. |
| `PageTable.Pgdir.GetPte` | src/kernel/pt.c:16-45 | The slot of the page's entry, NULL if and only if there is no table for it and none is to be allocated; allocation takes free pages only and changes no page's entry. |
| `PageTable.SlotsDiffer` | src/kernel/pt.c:16-45 | Different pages have their entries in different slots. |
| `PageTable.EntryWritten` | src/kernel/pt.c:16-45 | Writing an entry changes the entry of that page only. |
| `PageTable.TableAdded` | src/kernel/pt.c:29-43 | A new table changes no page's entry. |
| `PageTable.SamePage` | src/aarch64/mmu.h:61-70 | Two 48-bit addresses have the same four indices if and only if they are in the same page. |
| `PageTable.PartsOfAddress` | src/kernel/pt.c:174 | The address put together from four indices has these indices. |
| `PageTable.EntryFields` | src/aarch64/mmu.h:62-63 | The page of an entry is the page it was made from, and the entry is valid. |
| `PageTable.Flags` | src/aarch64/mmu.h:15-37 | Entries made with `PTE_TABLE` have bits 0 and 1, and those made with `PTE_USER_DATA` have, of the lowest twelve, exactly bits 0, 1, 2, 6, 9 and 10: a valid page, normal memory, outer shareable, accessed, for the user and writable. |
| `PageTable.EntryBits` | src/kernel/pt.c:182 | The sum of a page's address and flags is their bitwise or. |
| `PageTable.PageOfBits` | src/aarch64/mmu.h:62 | `PTE_ADDRESS` is bits 12 to 47. |
| `PageTable.PartsBits` | src/aarch64/mmu.h:67-70 | Index i of a walk is the nine bits of the address from bit 39 - 9i on. |
| `PageTable.Pgdir.FreePgdir` | src/kernel/pt.c:63-76 | Every table page loses its one reference, exactly once, and no other page loses one. |
| `PageTable.Pgdir.FreeEntry` | src/kernel/pt.c:77-89 | The table and all tables below it lose their references, and nothing else does. |
| `PageTable.Machine.NewTable` | src/kernel/pt.c:10-14 | A page that was free, zeroed. |
| `VmCopy.Copy` | src/kernel/pt.c:151-188 | The copy has exactly the same valid pages, with equal contents, each in a frame of its own that was free before, and bit by bit an entry for read-write user memory; the original is untouched, and both can be copied again. It stops only without free pages or at a page that fails an assertion. |
| `VmCopy.CopyOfCopy` | src/kernel/pt.c:169-173 | No page of a copy fails an assertion: a copy of a copy stops only for lack of free pages. |
| `VmCopy.BothBacked` | src/kernel/pt.c:151-188 | After a copy, the pages of both address spaces are in use and have contents. |
| `VmCopy.CopyTable` | src/kernel/pt.c:157-186 | The nested loops copy every valid page below a table. |
| `VmCopy.CopyPage` | src/kernel/pt.c:169-183 | One page gets a new frame with its content and an entry in the copy. |
| `VmCopy.PageEntered` | src/kernel/pt.c:181-182 | Entering a page keeps the copies made so far and the original. |
| `VmCopy.TablesGrown` | src/kernel/pt.c:181 | New tables of the copy keep the copies made so far and the original. |
| `ShellPrint.RoundTrip` | src/user/sh/main.c:266-424 | Parsing the fully parenthesised printing of any command tree of plain words, with at most nine to a command, gives that tree and consumes all input. |
| `ShellPrint.NineArguments` | src/user/sh/main.c:395-424 | Plain words are accepted as a command if and only if there are at most nine. |
| `ShellPrint.ArgsOk` | src/user/sh/main.c:407-423 | The loop takes the words one by one up to the end of the command, or panics at the tenth. |
| `ShellPrint.LineOk` | src/user/sh/main.c:336-349 | The printing of a tree, anywhere in the input, is parsed as that tree up to its end. |
| `ShellGrammar.Accepts` | src/user/sh/main.c:321-424 | `parsecmd` accepts an input if and only if its tokens are a line of the grammar: units of words and redirections (`<`, `>`, `>>`) in any order with at most nine words, or lines in parentheses with redirections behind, joined by `|`, `&` and `;`. |
| `ShellGrammar.Understands` | src/user/sh/main.c:321-424 | And it builds the command of that line: every redirection is there, the first innermost, with its direction and file; pipes and lists lean to the right; each `&` puts the pipeline before it into the background. |
| `ShellGrammar.TokensCover` | src/user/sh/main.c:266-304 | The tokens of any input, written one after another, are the input without its white space. |
| `ShellGrammar.UnitSound` | src/user/sh/main.c:381-424 | Every simple command and block that is parsed is a unit of the grammar, with all of its tokens. |
| `ShellGrammar.UnitComplete` | src/user/sh/main.c:381-424 | Every unit of the grammar is parsed as its command, up to where it ends. |
| `ShellGrammar.LineSound` | src/user/sh/main.c:336-424 | Every line that is parsed is a line of the grammar, with all of its tokens. |
| `ShellGrammar.LineComplete` | src/user/sh/main.c:336-424 | Every line of the grammar is parsed as its command, up to where it ends. |
| `ShellGrammar.RedirsSound` | src/user/sh/main.c:362-379 | What `parseredirs` reads is a list of redirections, each with its operator and file. |
| `ShellGrammar.RedirsComplete` | src/user/sh/main.c:362-379 | It reads every list of redirections to its end. |
| `ShellGrammar.ArgsComplete` | src/user/sh/main.c:407-423 | The loop reads every sequence of words and redirections with at most nine words. |
| `ShellGrammar.WrapAround` | src/user/sh/main.c:362-379 | The redirections are around the command, the first innermost. |
| `Shell.WordsAreTokens` | src/user/sh/main.c:427-469 | For every accepted input, after `nulterminate` the C string of every argument and file name is exactly its token. |
| `Shell.LineOk` | src/user/sh/main.c:336-424 | Every argument and file name of a parsed command is a whole word of the input. |
| `Shell.NulTerminate` | src/user/sh/main.c:427-469 | A NUL at the end of each word of the command, and no other change to the buffer. |
| `Shell.NulTerminateArgs` | src/user/sh/main.c:439-443 | The loop over the arguments. |
| `Shell.ParseCommand` | src/user/sh/main.c:321-334 | Succeeds if and only if the tokens of the input are a line of the grammar, and then gives the command of that line, with its words cut. |
| `Shell.Parser.SkipSpaces` | src/user/sh/main.c:271-272 | The cursor stops at the first character that is no space. |
| `Shell.Parser.NextToken` | src/user/sh/main.c:266-304 | The token of the scanner, with the cursor behind it. |
| `Shell.Parser.Peek` | src/user/sh/main.c:306-314 | Whether the next character is one of those asked for, with the cursor on it. |
| `Shell.Parser.Redirs` | src/user/sh/main.c:362-379 | The loop collects the redirections, or panics without a file name. |
| `Shell.Parser.Args` | src/user/sh/main.c:407-423 | The loop collects words and redirections. |
| `Shell.Parser.Exec` | src/user/sh/main.c:395-424 | The tokens read are those of a unit of the grammar, words and redirections in any order or a line in parentheses, and the command is that unit's. |
| `Shell.Parser.Block` | src/user/sh/main.c:381-393 | A line in parentheses with its redirections, or a panic. |
| `Shell.Parser.PipeCmd` | src/user/sh/main.c:351-360 | Commands joined to the right by bars. |
| `Shell.Parser.Line` | src/user/sh/main.c:336-349 | Pipes put in the background and joined to the right by semicolons; the mutual recursion terminates. |
| `ShellParser.GetToken` | src/user/sh/main.c:266-304 | A word token is a maximal non-empty run of plain characters; every token but the end moves the cursor forward. |

## Left out

Assumptions about the surroundings:

- The log region has room for `LOG_MAX_SIZE` blocks besides its header. The code bounds the header by
  `LOG_MAX_SIZE` only, and `src/user/mkfs/main.c:44` makes the region one slot shorter.
- A block write is atomic. Users of the cache change a block only inside an operation, sync it before they
  release it, and do not touch the blocks of the log.
- `num_blocks` is below 2^31, so that the `int` loop counters of `cache_alloc` do not overflow.
- The comparator of the red-black tree is a strict order given by a key of each node.
- An idle process only yields, and a container is entered into its parent's queue once.

Weaker than the source:

- BlockCache.Cache.Acquire: an acquire of a block that another thread holds is not modelled; the wait on
  the block's lock and the gap during a miss (lines 84 and 120-124) are one step.
- BlockCache.Cache.EndLastOp: the waiting of `end_op` when other operations are open is in `GroupCommit`.
- Atomicity.ReturnedInstalled: safety only. `end_op` may miss its wake-up between lines 227 and 228 of
  src/fs/cache.c and then wait for a later commit, and an interrupted wait returns early.
- GroupCommit.BeginBooks: the tokens of `log.logsem` are left out; `begin_op` is a step that is enabled
  when its loop would end.
- BlockCache.Cache.BeginOp: the wait of its loop is the result `ok == false`.
- Inodes.FileSystem.Read: a read of the console that ends because the process has been killed.
- Inodes.FileSystem.constructor: all inodes are loaded at once, and the in-memory list of inodes with its
  reference counts is left out.
- Files.OpenFile.Write: pipes, inodes of devices and a negative `n` are left out.
- Heap.Memory.Kalloc: negative sizes are excluded, and what the code does when `kalloc_page` returns NULL, or
  to the memory behind a page, is not modelled beyond the results `NoPage` and `Overrun`.
- Pages.PageAllocator.Alloc: the lock-free stack of pages is sequential here, the shared zero page is left
  out, and so is that the code counts a page and a reference even when the stack is empty.
- VmCopy.Copy: the four nested loops are one recursive method over the levels; the allocation of the
  `struct pgdir` itself and its sections are left out.
- PageTable.Pgdir.GetPte: a failing `kalloc_page` is the result `NoMemory` instead of a fault.
- Scheduler.Kernel.SimpleSched: the switch of stacks, the timer and the page table register are left out.
- Shell.Parser.Redirs: `>>` is a redirection like `>`, as in the code, which opens both the same way.
- Shell.ParseCommand: the limit of 10000 bytes of `malloc1` is left out.

Not modelled:

- `copyout`, `vmmap` and `uvm_alloc`: they would add members like `VmCopy.CopyPage`.
- Directories, path lookup, `inode_alloc`, `inode_put`, `fileread`, and the table of open files.
- `ipc.c`, `pipe.c`, `console.c`, swapping in `paging.c`, processes and containers beyond their queues,
  `exec`, system calls, drivers, interrupts, boot code and `mkfs`.
- The queues of `list.c`, reference counts, string and format functions, the timers' use of the tree.
- Running commands in the shell.
