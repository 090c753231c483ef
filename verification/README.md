# Verification of the thread library, the storage layers and the hash library

This project models the hard parts of a small operating-system stack in Dafny 4.11 and proves
properties of the model: user-level threads with their synchronisation, a log-structured register
store, an inode file system, a chained hash table with in-place list sorts, and a write-back block
cache. `dafny verify dfyconfig.toml` checks everything.

## How the model is laid out

* `Base` holds the byte, block and option types.
* Storage: `Blocks` (one flat byte buffer), `LogStore` (the log as a state machine on values) and
  `LogRw` (the same code over arrays in the heap, proved equal to `LogStore`).
* Readers/writer lock: `Semaphores`, `RwLock` (the guarded sections and the unlock loop),
  `RwProtocol` (any number of threads, one atomic action at a time, with the invariant),
  `RwTheorems` (what holds over every run) and `RwGrants` (whom an unlock serves, and who gets a
  posted unit).
* Scheduler, mutexes, monitors: `Scheduler` (every call as a function on the thread lists),
  `ThreadTheorems` and `ThreadRuns` (what runs keep, and what each call means over a run),
  `LockOwnership` (who owns a mutex as coded) and `Threads` (the calls with their loops, as coded). `Queues` has the linked queues with their shared spare element.
* File system: `Bitmap` and `Codec` (bit and byte layout), `Disk` (plain blocks or the log),
  `Volume` (what the calls promise, on inodes that hold bytes or entries), `VolumeInv` and
  `VolumeSpace` (what every call keeps, and blocks gained and lost), `Paths` and `Names` (path
  strings and the tree of names), `Layout`, `FileContent`, `DirContent`, `Format` (how a volume
  lies on the disk), `FileSystem` (the calls themselves: class `Fs`, with the loops over disk
  blocks), `Runs` (theorems over sequences of calls), `Calls` (what each call shows
  its caller) and `Simulation` (plain blocks against log).
* Hash library: `MergeSort` and `ListSort` (the bottom-up sort on values and on linked elements),
  `HashTable` (the table on values), `HashLoad` (when it doubles, and how full it gets), `HashHandle` (its handles in the heap, with the pointers of the
  list and of the chains) and `HashAgain` (what becomes of the links when a handle is added twice).
* Block cache: `Cache` (the contract of its header) and `CacheCode` (the code with its pointers).

Each class states in the contract of its methods that its new state is a function of its old one;
the theorems are about those functions. All of them hold for every input, run and interleaving
that their `requires` clauses admit; these clauses say what the code demands of its callers.

These departures of the code from its documentation, or from what a caller would expect, are
modelled; other ones are under "Left out". For each of these a lemma gives an input or states the
failing case, and another one says exactly when the promise is kept:

* `logrw_init` passes the arguments of `block_new` in the order of `include/block.h`, while the
  definition takes the number of blocks first (`LogStore.GuardIsNotEnough`,
  `LogStore.InitAsCodedServesIff`).
* A register that was never written reads as the first block written to the log
  (`LogStore.AgreesWithPlainArrayIff`).
* A unit posted for a waiting reader can be taken by a later reader (`RwTheorems.GrantCanBeStolen`,
  `RwGrants.KeepsUnitIff`, `RwGrants.CanLoseIff`).
* `sthread_user_join` puts its target in the place of every zombie
  (`ThreadTheorems.JoinAsCodedIff`), does not find a target blocked on a synchronisation object
  (`ThreadTheorems.JoinSuspendsIff`) and reads the exit value from the wrong thread
  (`ThreadTheorems.JoinDeliversIff`, `ThreadTheorems.ExitValueIsLost`).
* `sthread_user_mutex_lock` leaves a blocked thread executable, so that two threads get in
  (`ThreadTheorems.CodedLockLetsTwoIn`, `ThreadTheorems.LockAsCodedIff`,
  `LockOwnership.CodedLockOwnsIff`).
* A write that runs out of blocks keeps the contents of all files but loses the blocks it took
  (`VolumeSpace.FailedWriteIsAtomicIff`).
* `fs_create` looks for the name it is given and stores it without its first character
  (`Names.CreateTwice`, `Names.TwoFilesOneName`, `Names.MakeKeepsNamesIff`).
* The block cache keeps the pointers its callers pass, copies nothing on a hit, and stops at a null
  pointer on every write and on every read of a block that it finds (`CacheCode.NewCacheFails`,
  `CacheCode.ServesIff`, `CacheCode.ServesIffMisses`). Once all frames are in use a read adds a
  frame to the hash that is still in it: the first such read returns (`HashAgain.AdditionReturns`),
  and already the second one may not (`HashAgain.SecondHangs`, `HashAgain.TenFramesHang`). The
  theorems of `Cache` are about the contract in the header alone.

## Model

| member | source | states |
|---|---|---|
| Blocks.BlockStore.constructor | logrw/block.c:43-54 | A new store shows zero blocks, as many and as long as asked. |
| Blocks.BlockStore.Read | logrw/block.c:75-92 | Block `no` of the buffer, or an error exactly for a number out of range. |
| Blocks.BlockStore.Write | logrw/block.c:95-113 | Replaces block `no` and no other byte; out of range it reports failure and changes nothing. |
| LogStore.CopyFromMoves | logrw/logrw.c:165-172 | With room for them the copy loop moves the remaining registers to consecutive slots with the blocks they had. |
| LogStore.FlipMoves | logrw/logrw.c:163-202 | Either flip keeps what every register reads and the invariant, gives all registers different slots and leaves a slot free for the requested write. |
| LogStore.ReadGivesRegister | logrw/logrw.c:119-142 | Under the invariant a read succeeds and returns the block the register index leads to. |
| LogStore.WriteRefines | logrw/logrw.c:152-250 | A write succeeds, flip or not, and changes what is read of its register; once something was written, of no other. |
| LogStore.WrittenAreApart | logrw/logrw.c:152-250 | In every run, through flips in both directions, no two written registers share a slot. |
| LogStore.RunRefines | logrw/logrw.c:119-250 | After any run of writes a register reads as the last block written to it; before the first write of all as zeros, and unwritten afterwards as the first block of all. |
| LogStore.AgreesWithPlainArrayIff | logrw/logrw.c:63-66 | The log and a zero-filled array agree on a register exactly if it was written, nothing was, or the first block was zeros. |
| LogStore.NeverFailsIff | logrw/logrw.c:52-55 | No run of writes ever fails if and only if there are fewer registers than blocks in an array. |
| LogStore.GuardIsNotEnough | logrw/logrw.c:52-70 | With the arguments as passed, the guard admits a store whose third write fails. |
| LogStore.InitAsCodedServesIff | logrw/logrw.c:48-74 | The return codes as coded: no write of a whole block fails exactly if there are fewer registers than bytes asked for a block. The blocks written are those of the store made, `array_dim` bytes long; a caller that passes `bloco_dim` bytes has `memcpy` read beyond them. |
| LogStore.FlipsCounted | logrw/logrw.c:163-249 | The number of flips, and the slots in use after them, as functions of the number of writes alone. |
| LogStore.CompactionCost | logrw/logrw.c:163-249 | W writes to R registers with N-block arrays cause 0 flips up to N and then 1 + (W-N-1) div (N-R), and W + R*F calls of `block_write`, counted call by call in the copy loop. |
| LogRw.LogRw.constructor | include/block.h:31-36 | With the arguments in the order of the header a new store is the opened log. |
| LogRw.LogRw.AsCoded | logrw/logrw.c:48-74 | With the arguments in the order in which `logrw_init` passes them, where its guard admits them, the new store is the one `LogStore.InitAsCodedServesIff` is about. |
| LogRw.LogRw.Read | logrw/logrw.c:119-142 | The read over the two buffers returns what the log holds for the register. |
| LogRw.LogRw.CopyRegisters | logrw/logrw.c:165-172 | The copy loop over the buffers computes the copy of all registers, failures of single blocks included. |
| LogRw.LogRw.MakeRoom | logrw/logrw.c:163-202 | Flips in the right direction exactly if the active array is full. |
| LogRw.LogRw.Write | logrw/logrw.c:152-250 | The write over the two buffers ends in the state and with the code of the log's write, all branches included. |
| Semaphores.PassInOrder | sthread_lib/sthread_user.c:542-577 | Over any run of waits and posts the threads pass in the order in which they came, exactly as many as there were units; the rest wait in that order, and units are counted only while nobody does. |
| RwLock.RwlockObject.UnlockSection | sthread_lib/sthread_user.c:662-692 | The unlock with its loop: who leaves, whom it wakes in which order, and the counters it sets for them; `RwGrants.UnlockServes` and `RwGrants.UnlockWakes` say who that is. |
| RwProtocol.NextKeepsInv | sthread_lib/sthread_user.c:629-692 | Every atomic step of every thread keeps the ledger: counters are the threads inside plus the grants not yet used, at most one writer, and nobody waits without a reason. |
| RwTheorems.ExecKeepsInv | sthread_lib/sthread_user.c:629-692 | The ledger holds after every run of any number of threads. |
| RwTheorems.WriterExcludesAll | sthread_lib/sthread_user.c:629-692 | In no run does a thread read or write while another one writes, though counters change before the woken thread moves. |
| RwTheorems.GrantsHaveTakers | sthread_lib/sthread_user.c:564-577 | Every unit left in a semaphore has a thread of its own on the way to it. |
| RwTheorems.NeverStuck | sthread_lib/sthread_user.c:662-692 | As long as a thread is inside or on the way, some thread that is can take a step: no wake-up is lost. |
| RwTheorems.BatchAdmitsEveryReader | sthread_lib/sthread_user.c:669-674 | The step that ends the loop of a writer's unlock: no reader sleeps, and the units left are as many as the readers at the gate. |
| RwGrants.UnlockServes | sthread_lib/sthread_user.c:665-692 | A writer's unlock starts a batch of readers exactly if a reader waits, at the gate or asleep, and serves a writer exactly if only writers wait; a reader's unlock serves a writer exactly if one waits and no other reader is inside or let in. |
| RwGrants.UnlockWakes | sthread_lib/sthread_user.c:665-692 | A whole unlock wakes all sleeping readers in the order in which they fell asleep, or the writer asleep longest, or nobody, in these cases. |
| RwGrants.WriterUnlockAdmits | sthread_lib/sthread_user.c:669-674 | The first unlock that a writer calls after a reader was counted starts a batch, and in every run in which that unlock returns the reader is awake, or at the gate with a unit for each reader there, when the batch ends. |
| RwGrants.ReaderBypassIsBounded | sthread_lib/sthread_user.c:629-692 | While a reader waits, and until a batch has been let in, at most one writer gets the lock, by a grant or without waiting; none if a writer has it or a batch is under way. |
| RwGrants.OneWriterPerSleeper | sthread_lib/sthread_user.c:669-674 | In no run do two writers get the lock while a reader asleep at its start stays asleep. |
| RwTheorems.GrantCanBeStolen | sthread_lib/sthread_user.c:633-636 | The shortest input for the theorems below: three threads, and the unlocker comes back as a reader and takes the unit of one that was counted as waiting. |
| RwGrants.AsleepReadersGetIn | sthread_lib/sthread_user.c:669-674 | Over every run a reader asleep while the batch of a writer's unlock starts or goes on is awake when it ends, and some event of the run woke it. |
| RwGrants.KeepsUnitIff | sthread_lib/sthread_user.c:633-674 | Over every run: a reader on its way to `sem_wait` gets a unit exactly if fewer other readers came by since than there were units, counting those posted meanwhile and less the readers that were asleep; otherwise it falls asleep. |
| RwGrants.BatchEndsSettled | sthread_lib/sthread_user.c:669-674 | At the end of a batch there is a unit for each reader on its way. |
| RwGrants.CanLoseIff | sthread_lib/sthread_user.c:633-674 | From there on others can make such a reader lose its unit exactly if a writer waits and one other thread is no waiting writer, or two other threads are none. |
| RwTheorems.ReadersOnlyDrain | sthread_lib/sthread_user.c:632-692 | While a writer waits and none is inside, `nleitores` falls by one with each reader that leaves and never rises; at zero the grant is under way. |
| RwTheorems.WriterBypassIsBounded | sthread_lib/sthread_user.c:662-692 | A writer asleep behind j others is woken by grant j+1; until then at most one batch of readers gets in for each grant, and no other reader. |
| RwTheorems.UnlockIsRun | sthread_lib/sthread_user.c:662-692 | The steps of one thread alone lead to the lock that the unlock section computes and wake exactly the threads that it lists; no other thread moves. |
| Queues.Pool.CreateQueue | sthread_lib/queue.c:10-17 | A new empty queue; there is no spare element any more, and no other queue changes. |
| Queues.Pool.Insert | sthread_lib/queue.c:31-52 | Appends to the queue; the new last element is the spare one, or a fresh one exactly if there was none; no other queue changes. |
| Queues.Pool.IsEmpty | sthread_lib/queue.c:55-58 | True exactly for the empty queue. |
| Queues.Pool.First | sthread_lib/queue.c:61-65 | The thread that waited longest. |
| Queues.Pool.Remove | sthread_lib/queue.c:68-82 | Takes the first thread; its element becomes the spare one exactly if there was none, and is in no queue. |
| Scheduler.InitConserves | sthread_lib/sthread_user.c:81-112 | At the start the main thread is active and in no other place. |
| Scheduler.StepConserves | sthread_lib/sthread_user.c:114-191 | Every call, as meant, leaves each created thread in exactly one place: active, executable, asleep, joining, zombie, dead or one queue. |
| ThreadTheorems.RunConserves | sthread_lib/sthread_user.c:114-577 | The same in every state of every run. |
| ThreadTheorems.JoinAsCodedIff | sthread_lib/sthread_user.c:322-337 | As coded, `join` keeps every thread in one place exactly if no other thread is a zombie. |
| ThreadTheorems.LockAsCodedIff | sthread_lib/sthread_user.c:484-493 | As coded, `mutex_lock` keeps its caller in one place exactly if the mutex is free. |
| ThreadTheorems.CodedLockLetsTwoIn | sthread_lib/sthread_user.c:484-496 | An input for the failing half of the next theorem: a thread returns from `mutex_lock` while another one owns the mutex. |
| LockOwnership.CodedLockOwnsIff | sthread_lib/sthread_user.c:473-498 | As coded, whoever calls `mutex_lock` owns the mutex when it runs again, in every continuation, exactly if the mutex was free or its own; otherwise yields alone bring it back without the mutex. |
| ThreadTheorems.RunJoinsLiving | sthread_lib/sthread_user.c:344-398 | In every run each thread on the join list waits for one that has not exited. |
| ThreadTheorems.LeavesJoinIff | sthread_lib/sthread_user.c:151-167 | A thread leaves the join list exactly when its target exits, and can run then. |
| ThreadTheorems.JoinSuspendsIff | sthread_lib/sthread_user.c:344-382 | `join` suspends exactly if the target has not exited and is on no synchronisation queue; it returns 0 exactly for a zombie. |
| ThreadTheorems.ExitStoresWithJoiners | sthread_lib/sthread_user.c:151-167 | `exit` stores its value with the threads that wait for the caller and with no other. |
| ThreadTheorems.RetIsLastJoined | sthread_lib/sthread_user.c:151-167 | Over every run `join_ret` of a thread is the value of the last thread that it was waiting for when that exited. |
| ThreadTheorems.JoinDeliversIff | sthread_lib/sthread_user.c:322-393 | In any later state of any run what `join` reads of a thread that has exited, waiting before or finding a zombie, is the value of the last thread that this one had joined itself, or 0 if there was none; the caller gets the value of `exit` exactly if the two are equal. A zombie is joined with return code 0. |
| ThreadTheorems.ExitValueIsLost | sthread_lib/sthread_user.c:151-167 | An input: a joiner that waited reads 0 when its target exits with 7. |
| ThreadRuns.ExitedIsJoinedOnce | sthread_lib/sthread_user.c:322-341 | Over every run, for calls in their meant form: a thread that exited while nobody waited for it is joined with 0 by the first later `join` and with -1 by every further one; one that had a joiner when it exited is joined with -1 by all of them; nobody is suspended. |
| ThreadRuns.OutcomeIff | sthread_lib/sthread_user.c:176-183 | The program ends exactly if the last thread that could run exits with nobody waiting for it, or sleeps; the switch of a blocking call follows a null pointer exactly if nobody else can run. |
| ThreadTheorems.SleepsUntil | sthread_lib/sthread_user.c:404-433 | A thread sleeps through every run until the clock reaches its wake time, and for ever if that lies behind. |
| ThreadTheorems.WakesOnTime | sthread_lib/sthread_user.c:249-262 | The tick that reaches the wake time makes the thread executable. |
| ThreadTheorems.NegativeSleepIsForever | sthread_lib/sthread_user.c:408-417 | Whoever sleeps for a negative time of a tick or more never runs again. |
| ThreadRuns.SleepsForItsTime | sthread_lib/sthread_user.c:404-433 | `sleep` for a tick or more: over every run the thread is asleep through `time / CLOCK_TICK` ticks, and the last of them makes it executable. |
| ThreadRuns.ShortSleepReturns | sthread_lib/sthread_user.c:408-415 | `sleep` returns at once exactly for times of less than a tick, of either sign. |
| ThreadRuns.ComesLast | sthread_lib/sthread_user.c:384-420 | Who goes to sleep or waits in `join` comes behind all who did so before. |
| ThreadRuns.LetOnInOrder | sthread_lib/sthread_user.c:151-262 | Sleepers that one tick wakes, and joiners that one exit releases, can run in the order in which they came. |
| ThreadRuns.CreatedRunsInTurn | sthread_lib/sthread_user.c:138-142 | Over every run a new thread, which was in no place before, becomes active with the switch that follows one for each thread executable before it. |
| ThreadRuns.SemaphoreInOrder | sthread_lib/sthread_user.c:542-577 | In every run of the scheduler a semaphore lets its callers pass in their order, as many as it had units: the rest is counted, or waits in order. |
| ThreadRuns.WaitBlocksIff | sthread_lib/sthread_user.c:542-562 | A caller of `sem_wait` goes on exactly if there is a unit; otherwise it is in the queue and cannot run. |
| ThreadRuns.LeavesSemaphoreIff | sthread_lib/sthread_user.c:564-577 | A thread leaves the queue exactly when it is the first there and `sem_post` is called, and can run then. |
| ThreadTheorems.FirstComeFirstServed | sthread_lib/sthread_user.c:473-521 | Over every run those who were handed a mutex, followed by those who wait, are those who came, in order, whether through `lock` or `signal`. |
| ThreadTheorems.BlocksOrOwns | sthread_lib/sthread_user.c:733-755 | Who calls `mutex_lock`, or `monitor_wait` as the owner, owns the mutex at once or waits for it. |
| ThreadTheorems.ReturnsAsOwner | sthread_lib/sthread_user.c:500-521 | Direct hand-off: whoever waited for a mutex, or for its monitor, owns it when it runs again, whatever happened meanwhile. |
| ThreadRuns.OwnerAfter | sthread_lib/sthread_user.c:473-521 | Who owns a mutex after any call: a free one whoever locks it, one given up by its owner the thread that waited longest, or nobody if none did, and otherwise who owned it before. |
| ThreadRuns.OnlyTheOwner | sthread_lib/sthread_user.c:500-505 | `unlock` and the monitor calls change nothing for a thread that does not own the mutex. |
| ThreadTheorems.MonitorStep | sthread_lib/sthread_user.c:757-791 | A waiter of a monitor stays there or is in the queue of its mutex: `signal` and `signalall` lose nobody. |
| ThreadTheorems.SignalledQueue | sthread_lib/sthread_user.c:775-791 | The signalled waiters come to the end of the queue of the mutex in their order. |
| ThreadRuns.MonitorInOrder | sthread_lib/sthread_user.c:733-791 | Over every run the waiters of a monitor are signalled in the order in which they began to wait. |
| ThreadTheorems.RunsInTurn | sthread_lib/sthread_user.c:267-289 | Over every run of calls in their meant form, whichever they are, the thread at place k of the executable list moves up one place with each switch and becomes active at switch k+1, at no earlier one. |
| Threads.Kernel.Exit | sthread_lib/sthread_user.c:146-191 | The loop over the join list splits it into those who waited for the caller and the others, in order; the caller is a zombie exactly if there were none, which `ThreadRuns.ExitedIsJoinedOnce` states for later calls of `join`. |
| Threads.Kernel.Join | sthread_lib/sthread_user.c:305-398 | The loops of `join` as coded: zombies replaced, the searches, the return codes and the switch. |
| Threads.Kernel.Tick | sthread_lib/sthread_user.c:249-262 | The loop over the sleeping threads moves exactly those whose time has come, in order. |
| Threads.Kernel.MonitorSignalAll | sthread_lib/sthread_user.c:775-791 | The loop moves all waiters to the queue of the mutex. |
| Bitmap.SetBitSets | sofs/fs.c:126-130 | `BMAP_SET` sets that bit and no other. |
| Bitmap.ClearBitClears | sofs/fs.c:126-130 | `BMAP_CLR` clears that bit and no other. |
| Bitmap.FindFree | sofs/fs.c:133-142 | The first clear bit below the size, if there is one. |
| Codec.TableBytesRoundTrip | sofs/fs.c:34-39 | The bytes of an inode table read back as the same inodes, field by field. |
| Codec.PutDentryPuts | sofs/fs.c:543-546 | An entry put into a page reads back, and the other entries of the page stay. |
| Disk.WriteIsKnown | include/fs.h:21-43 | On plain blocks and on the log alike a block that was written keeps its contents until it is written again. |
| VolumeInv.AllocateTakes | sofs/fs.c:421-435 | The allocation gives different blocks that were free; if it fails no block is free any more. |
| VolumeInv.WriteKeepsInv | sofs/fs.c:381-488 | Every write, successful or not, keeps the volume invariant, and every inode its name. |
| VolumeInv.MakeKeepsInv | sofs/fs.c:491-559 | `fs_create` and `fs_mkdir` keep it, and every inode has a name if all had one. |
| VolumeInv.TruncateKeepsInv | sofs/fs.c:671-691 | `fs_truncate` keeps both. |
| Volume.DirectoryHasRoom | sofs/fs.c:527-539 | No directory exceeds two blocks less two entries, so the unchecked slot always exists. |
| VolumeSpace.WriteSucceedsIff | sofs/fs.c:400-436 | A write succeeds exactly if its file exists and has the slots, and the disk the blocks, that it lacks. |
| VolumeSpace.FailedWriteIsAtomicIff | sofs/fs.c:420-435 | A failed write leaves all contents and sizes; it leaves the whole volume exactly if it did not find the disk full or had no block to take, and otherwise loses every free block. |
| VolumeSpace.WriteLosesNothing | sofs/fs.c:381-488 | A successful write takes exactly the blocks it lacks. |
| VolumeSpace.MakeLosesNothing | sofs/fs.c:527-539 | A new entry takes a block exactly when it is put to use. |
| VolumeSpace.TruncateLosesNothing | sofs/fs.c:682-689 | Truncation frees exactly the blocks of the file. |
| FileContent.ContentAfterWrite | sofs/fs.c:438-474 | After the block loops the file holds its old bytes with the data spliced in, whatever the new blocks and the buffer held. |
| FileContent.WriteHolds | sofs/fs.c:438-484 | The disk then holds the volume that the write leads to, every other file and directory as it was. |
| DirContent.EntryAppended | sofs/fs.c:541-548 | The page written back holds the old entries and the new one at the end, whatever stood behind them. |
| DirContent.EnteredIsHeld | sofs/fs.c:526-555 | The disk then holds the volume with the new entry and the new inode. |
| Format.FormattedKeepsInv | sofs/fs.c:220-250 | A formatted new volume satisfies the invariant. |
| Format.ReformattedIff | sofs/fs.c:220-250 | Formatting a volume in use keeps the invariant and frees nothing: every file reads as before by its number, no path leads to one, the blocks of the root are lost, and all inodes are named exactly if there was none but the root. |
| Format.LoadGivesSaved | sofs/fs.c:87-119 | Loading what was stored gives the same bitmaps and the same 64 inodes. |
| FileSystem.Fs.constructor | sofs/fs.c:209-218 | A new file system on either kind of disk loads empty bitmaps and unused inodes. |
| FileSystem.Fs.Format | sofs/fs.c:220-250 | A new disk then holds the formatted volume and a volume in use the one that `Format.ReformattedIff` is about, in memory and on the disk. |
| FileSystem.Fs.Store | sofs/fs.c:105-119 | The disk holds the metadata that memory shows, and nothing else changes. |
| FileSystem.Fs.Reload | sofs/fs.c:87-102 | Loading goes back to the volume that was stored last. |
| FileSystem.Fs.Read | sofs/fs.c:329-378 | The loop over blocks returns what the volume call returns, which is said byte by byte in `Calls.ReadReturns`. |
| FileSystem.Fs.WriteBlocks | sofs/fs.c:438-474 | The two loops write the data to the blocks of the file and touch no other block. |
| FileSystem.Fs.Write | sofs/fs.c:381-488 | The call ends in the volume and with the code that the specification gives, and on success the disk holds that volume. |
| FileSystem.Fs.DirSearch | sofs/fs.c:184-202 | The nested loops find the first entry of that name. |
| FileSystem.Fs.Create | sofs/fs.c:491-559 | The call does what the specification gives: searches the name, stores it without its first character. |
| FileSystem.Fs.Mkdir | sofs/fs.c:562-631 | The same for a directory, with one name for both; `Calls.MkdirMakesDirectory` says what is made. |
| FileSystem.Fs.Readdir | sofs/fs.c:634-669 | The nested loops over pages and entries return what the volume call returns; `Calls.ReaddirLists` says which entries these are. |
| FileSystem.Fs.Truncate | sofs/fs.c:671-691 | The file is empty and its blocks are free; nothing is stored on the disk. |
| FileSystem.Fs.Lookup | sofs/fs.c:280-326 | The walk along the tokens of the path, with the return codes and the inode number left behind by each outcome. |
| Paths.NextToken | sofs/fs.c:299-323 | `strtok`: the next piece between slashes and what follows it. |
| Names.TokensOfJoinIff | sofs/fs.c:299-323 | A list of names joined by slashes comes apart into the same list exactly if no name is empty or holds a slash. |
| Names.LookupIff | sofs/fs.c:302-325 | A path leads to an inode exactly if its tokens are the names from the root to it and no earlier entry of the same name hides one of them. |
| Names.LookupStaysInTree | sofs/fs.c:302-325 | A path leads to no inode outside the tree of the root. |
| Names.AllInTree | sofs/fs.c:541-548 | Unless a volume in use was formatted, every allocated inode is in that tree. |
| Names.EveryPathLeadsThere | sofs/fs.c:280-326 | With different names in each directory every inode a path can spell is found under its path and no other list of names. |
| Names.MakeSucceedsIff | sofs/fs.c:493-539 | Exactly when a file or directory can be made. |
| Names.MakeKeepsNamesIff | sofs/fs.c:514-545 | A new entry keeps the names of its directory different exactly if none has the name it stores. |
| Names.MkdirKeepsNames | sofs/fs.c:585-617 | `fs_mkdir` keeps them different. |
| Names.CreateTwice | sofs/fs.c:514-545 | A second `fs_create` of the same name succeeds exactly if there is an inode and a place, and leaves two entries of one name. |
| Names.TwoFilesOneName | sofs/fs.c:514-545 | On a new volume two calls with one name both succeed. |
| Names.MkdirTwice | sofs/fs.c:585-588 | A second `fs_mkdir` fails and hands out the first directory. |
| Runs.ReachableVolumes | sofs/fs.c:220-691 | After any run of calls: blocks in use are marked, not reserved and belong to one slot; inodes form a prefix; none has two entries, its directory comes before it, and without a second format all but two have one and are in the tree; sizes and entry counts are bounded. |
| Runs.NothingIsLost | sofs/fs.c:220-691 | After any run without a disk-full write, and without a format while the root has blocks, the marked blocks number exactly ten plus those in use, in memory and on the disk. |
| Runs.LossesAddUp | sofs/fs.c:220-435 | Without reloads the blocks lost are exactly those taken by disk-full writes and those of the roots that were formatted. |
| Runs.WriteSplices | sofs/fs.c:400-481 | A successful write puts the data at the offset, or at the end if that lies beyond, byte by byte, and leaves every other inode. |
| Runs.WrittenIsReadBack | sofs/fs.c:329-488 | What was written is what is read there after any calls that neither write nor truncate that file, reloads and formats included. |
| Runs.ReloadGoesBack | sofs/fs.c:87-119 | Loading the metadata goes back to the volume after the last call that stored it: each successful write, create or mkdir and each format, but no truncate. |
| Runs.RunKeepsNames | sofs/fs.c:491-631 | Over any run names stay different if every file made had a new name. |
| Runs.EveryPathIsFound | sofs/fs.c:280-326 | After such a run every inode a path can spell is found under its path. |
| Calls.ReadReturns | sofs/fs.c:329-378 | A read fails exactly if the inode is no file in use; otherwise it returns min(count, size - offset) bytes, none beyond the end, and byte j is byte offset + j of the file. |
| Calls.AnyRangeIsReadBack | sofs/fs.c:329-488 | After a write and any calls that leave the file alone a read of any range, whether or not the file ends within it, returns the bytes written where they were written and the old ones elsewhere. |
| Calls.MkdirMakesDirectory | sofs/fs.c:562-631 | After a `fs_mkdir` that returns 0 the id handed out was the first free one, is in use and holds an empty directory; its directory has one entry more, for it, and no other inode changed. Any other call returns -1 and changes nothing. |
| Calls.CreateMakesFile | sofs/fs.c:491-559 | The same for `fs_create`, with an empty file under the name without its first character. |
| Calls.BelowNewDirectory | sofs/fs.c:562-631 | In a directory just made a file or directory can be made exactly if its name has 1 to 13 characters and an inode and a block are free. |
| Calls.ReaddirLists | sofs/fs.c:634-669 | A listing fails exactly if the inode is no directory in use or the limit is negative; it has min(entries, limit) lines, and line e has the name of entry e and tells directory from file as its inode does. |
| Calls.ListingsAfter | sofs/fs.c:491-669 | A new entry comes to the end of its directory's listing, all other listings stay, and that of a new directory is empty. |
| Calls.CreateIsListed | sofs/fs.c:491-669 | After a successful `fs_create` the listing is the old one and the stored name, as a file, cut at the limit. |
| Calls.MkdirIsListed | sofs/fs.c:562-669 | After a successful `fs_mkdir` it is the old one and the name, as a directory. |
| Calls.LookupStops | sofs/fs.c:280-326 | `fs_lookup` follows the names of its path as far as they lead, to one place only: it returns 1 at the end of the names, 0 in a directory without the next one, -1 below a file and for a path that does not start with a slash, and has handed out the inode where it stopped. |
| Calls.MkdirIsFound | sofs/fs.c:280-631 | A directory just made is found below the path of the one it was made in. |
| Calls.CreateIsFoundIff | sofs/fs.c:280-559 | A file just made is found there under its stored name exactly if no entry of its directory had that name. |
| Calls.TruncateEmpties | sofs/fs.c:671-691 | It fails exactly for an inode that holds no file; otherwise the file is empty and every other inode holds what it held. |
| Simulation.Call | include/fs.h:21-43 | Each call on either disk returns and does what the call on the volume does. |
| Simulation.BothDisks | include/fs.h:21-43 | For every sequence of calls, formats and reloads among them, the file system over the log returns what it returns over plain blocks. |
| MergeSort.PassDoublesRuns | uthash/utlist.h:166-211 | A pass over sorted runs of k elements leaves sorted runs of 2k, with the same elements in a stable order. |
| MergeSort.SortIsStable | uthash/uthash.h:690-767 | The passes end with a sorted permutation in which equal elements keep their order. |
| MergeSort.StableSortIsUnique | uthash/uthash.h:686-767 | There is only one such permutation. |
| ListSort.MergeRuns | uthash/utlist.h:179-199 | One merge on linked elements: links, sizes and order, for lists that end in null or in their head. |
| ListSort.Sort | uthash/utlist.h:158-284 | `DL_SORT`, `CDL_SORT` and `HASH_SRT` relink the elements in the order of the stable sort, with the outer links of a list of their kind and the new head and tail. |
| HashTable.MaskIsRemainder | uthash/uthash.h:177-180 | The masked hash value is its remainder by the number of buckets. |
| HashTable.DoubledBkt | uthash/uthash.h:657-658 | With twice as many buckets an item of bucket j goes to j or to j + n. |
| HashTable.MovedIs | uthash/uthash.h:652-671 | What moving items does to each bucket: order of arrival, count, multiplier and the number of items beyond the ideal length. |
| HashTable.ExpandedIs | uthash/uthash.h:637-683 | Each new bucket has the items of one old bucket that belong there, in reverse, with agreeing counters; the doubling counts as ineffective if more than half of the items are beyond the ideal length, and after two in a row it is given up. |
| HashTable.ExpandKeeps | uthash/uthash.h:637-683 | Expansion loses and duplicates nothing and puts every item where it is looked for; `HashHandle.Hash.ExpandBuckets` has the links. |
| HashTable.AddKeeps | uthash/uthash.h:152-175 | Adding a new key appends it to the items and keeps chains and counts in agreement, expansion or not. |
| HashTable.DeleteKeeps | uthash/uthash.h:194-227 | Deleting takes the item out of the items and its chain and keeps them in agreement; with the last item the table goes. |
| HashTable.FindIff | uthash/uthash.h:84-95 | A key is found exactly if an item of the list has it, and that item is returned. |
| HashTable.RunFindIff | uthash/uthash.h:84-227 | After any run of additions and deletions the table is sound, its list is in the order of insertion, and a search finds what the list holds. |
| HashLoad.AddDoublesIff | uthash/uthash.h:582-593 | An addition doubles the table exactly if the chain reaches ten times one more than `expand_mult` and doubling is not given up; otherwise it changes one bucket only, the item first in its chain. |
| HashLoad.RunKeepsLoad | uthash/uthash.h:606-617 | The bound that the expansion is for: after any run of additions and deletions, unless doubling was given up, there are fewer than twenty items for each bucket and no chain is longer than its threshold; the raised thresholds sum up to no more than the number of buckets. |
| HashTable.ReorderKeeps | uthash/uthash.h:690-767 | On values the table stays sound when its items are put in another order; `HashHandle.Hash.SortItems` has the links. |
| HashHandle.Hash.FindItem | uthash/uthash.h:568-579 | Following `hh_next` along the chain finds the handle with the key, and null exactly if no item has it. |
| HashHandle.MoveChain | uthash/uthash.h:654-671 | The inner loop: every handle of a chain goes to the front of its new chain, `hh_next` and `hh_prev` set, the saved successor followed. |
| HashHandle.Hash.ExpandBuckets | uthash/uthash.h:637-683 | The two loops relink all handles into chains linked both ways, leave the list alone and compute the expanded table. |
| HashHandle.Hash.AddItem | uthash/uthash.h:152-175 | `tail`, `next`, `prev` and the chain are relinked so that the handle is last in the list and first in its chain; the table is made or expanded where the code does, and is what the addition on values gives. |
| HashHandle.Unlink | uthash/uthash.h:206-221 | The patches of head, tail, `next` and `prev` leave the list without the handle, linked both ways, wherever it stood. |
| HashHandle.Unchain | uthash/uthash.h:596-606 | `HASH_DEL_IN_BKT` leaves the chain without the handle, linked both ways, wherever it stood. |
| HashHandle.Hash.DeleteItem | uthash/uthash.h:194-227 | Both together, in all cases: list and chains stay linked, and the table is what the deletion on values gives. |
| HashHandle.Hash.SortItems | uthash/uthash.h:690-767 | `HASH_SRT` relinks the handles of the table in the order of the stable sort, sets head and tail, and leaves the chains alone. |
| HashHandle.Hash.Fsck | uthash/uthash.h:251-302 | The loops of `HASH_FSCK` over `hh_prev`, `prev` and the counts find nothing wrong in a table as the macros leave it. |
| Cache.ReadIsTransparent | include/cache.h:77-83 | A read returns what the cache shows and changes nothing it shows, hit, miss or eviction. |
| Cache.WriteIsTransparent | include/cache.h:86-92 | A write changes what the cache shows of its block only. |
| Cache.FlushIsTransparent | include/cache.h:95-98 | After a flush no frame is dirty and the disk holds what the cache shows. |
| Cache.CacheIsTransparent | include/cache.h:69-98 | Over any run the cache returns what the disk alone would return, and shows what it would hold. |
| Cache.BlockCache.ReadBlock | include/cache.h:77-83 | A cache with FIFOs and a hash that keeps the promise for a read. |
| Cache.BlockCache.WriteBlock | include/cache.h:86-92 | The same for a write. |
| Cache.BlockCache.FlushAll | include/cache.h:95-98 | The same for a flush, dirty frame by dirty frame. |
| CacheCode.HitCopiesNothing | sofs/cache.c:189-199 | As coded, in any state, a hit of `cache_read` copies nothing to its caller. |
| CacheCode.MissIsRead | sofs/cache.c:169-187 | As coded, a block that is not found goes into the next frame in turn, in use or not, and its reader gets what the disk holds, if `add_block` returns. |
| CacheCode.WriteStops | sofs/cache.c:77-78 | No write on a cache as coded, however the hash serves it, gets past the null head of the dirty list. |
| CacheCode.RunInRing | sofs/cache.c:123-263 | Every run from `cache_init`, call by call, given what each search finds and whether each addition to the hash returns: how far it goes, the FIFOs it leaves and what its readers were given. |
| CacheCode.ServesIffMisses | sofs/cache.c:123-263 | As coded, and however the hash serves the calls, a run serves its callers exactly if it writes nothing and each of its reads is a miss whose addition to the hash returns. |
| CacheCode.SearchIs | sofs/cache.c:102-111 | While no frame is hashed twice a search is a hit exactly if the block was read. |
| CacheCode.ServesIff | sofs/cache.c:123-263 | As coded, with at most one read more than there are frames, a run serves its callers exactly if it writes nothing and reads no block twice; the last of these reads reuses a frame that is still hashed. |
| CacheCode.NewCacheFails | sofs/cache.c:77-78 | Two inputs on a new cache: one write, and one block read twice. |
| HashAgain.ListIsCut | uthash/uthash.h:152-175 | After `HASH_ADD` of the head of the list with a new key the list from its head is that handle alone, and its tail leads back into the old list. |
| HashAgain.SearchAfter | uthash/uthash.h:568-593 | How every search ends after a handle was added again under a new key, if the buckets are not doubled: the new key is found, others as before unless they stand behind the handle in its old chain, and what is not found is missed, or searched for ever exactly if its bucket is that of the old key and of the new one. |
| HashAgain.AdditionReturns | uthash/uthash.h:637-671 | If that addition doubles the buckets both loops end, although the handle is in two chains or its chain leads back to it. |
| HashAgain.SecondHangs | uthash/uthash.h:637-671 | If a second handle, from another old chain, is added again under a key that stays with the first one in a doubled table, its search is a miss, and a doubling then never ends: the walks before the chain of the two end, and that chain leads round for ever. |
| HashAgain.TenFramesHang | uthash/uthash.h:582-671 | An input: ten frames in a table of 32 buckets, and two new blocks for the bucket that holds eight of them; the second addition reaches the threshold and never returns. |

## Left out

- Null arguments, stores without blocks or bytes (`block_new` returns null), `malloc` failure,
  freeing of memory and wrap-around of 32-bit sizes: offsets and counts are natural numbers whose
  sum is assumed not to wrap.
- The default `NUM_BLOCKS` of 16384 exceeds the 4096 bits of the block bitmap; the model takes 10
  to 4096 blocks. Over the log the code searches ten times as many bits as there are registers;
  the model uses the number of registers on both disks.
- The file system runs over the log with the arguments of `block_new` as its header has them.
- `fs_lookup` returns 1 for an object that it finds and 0 for one that is missing, where
  include/fs.h:124 has 0 for success; the model has the codes of the code.
- `logrw_write` takes its lock for reading and `logrw_read` for writing; each operation on the log
  is one atomic step here.
- `FORCE_FS_FORMAT_WITH_SOFS`, `fs_get_attrs` and the dumps.
- `fs_truncate` reads its inode before any check; the model takes inode numbers below 64.
- Words and inode numbers are stored lowest byte first.
- Saved contexts, assembly, signals and timers: a switch is a change of the active thread, and
  spinlocks and `splx` make a section atomic. Semaphore and mutex spinlock and the blocking switch
  are one step.
- The run-time, priority and niceness accounting of the dispatcher, and the switch it may make
  before it looks at the sleeping threads.
- The thread lists of the scheduler are sequences; their linked form is modelled on its own in
  `Queues`.
- `delete_queue` and the freeing of dead threads.
- The scheduler's fairness: that a waiting thread is ever scheduled.
- `LL_SORT`, which runs the loops of `DL_SORT` without back links, and the list operations that do
  not sort.
- The hash functions, the Bloom filter, `HASH_SELECT` and the two-table use of one element. A handle
  has the hash value of its key from the start, where `HASH_ADD` computes it, and is the element of
  the list that the sorts relink; the array of buckets is a sequence of heads.
- Keys are compared by value; the model leaves out key lengths.
- The cache over the log, `cache_free`, the statistics and the lock of the cache. Bytes that
  `malloc` leaves in a frame are arbitrary block numbers and addresses, and a flush makes at most one
  turn for each frame. What the searches of the cache as coded find after the first frame was hashed
  twice, and whether later additions return, depends on the hash function: the theorems then take
  both as given. `HashAgain` says what searches find after the first such addition unless it doubles
  the buckets, that this one returns, and when the second one does not; not all cases of the latter.
- FUSE glue, `sthread_pthread.c`, I/O delays, block and log files, statistics.
- LogStore.InitAsCodedServesIff: speaks of return codes. Callers of the code as written hand over
  `bloco_dim` bytes, of which `memcpy` copies `array_dim`; what lies behind them is not modelled.
- HashTable.ReorderKeeps: speaks of the table on values; the links that `HASH_SRT` sets are those of
  `HashHandle.Hash.SortItems`.
