# Verified models of the NNX kernel

A Dafny 4.11 model of four parts of the NNX operating system kernel, with proofs of what each part
keeps over every run. `dafny verify dfyconfig.toml` verifies the project.

Each part has a description on values (datatypes and functions), on which the properties are
proved, and classes that work in place as the kernel does, with loops, summary words, caches and
recursion. Every method of these classes is shown to do exactly what the description says, or to
meet a contract that says outright what it achieves.

| part | files |
|---|---|
| intrusive lists | `NtList.dfy` |
| thread scheduler | `BitWords.dfy`, `ReadyQueues.dfy`, `SchedulerModel.dfy`, `SchedulerInvariant.dfy`, `SchedulerSteps.dfy`, `SchedulerResults.dfy`, `SchedulerPreemption.dfy`, `SchedulerAffinity.dfy`, `SchedulerTicks.dfy`, `SchedulerOrder.dfy`, `SchedulerExamples.dfy`, `Scheduler.dfy` |
| waits and signals | `DispatcherModel.dfy`, `DispatcherLinks.dfy`, `DispatcherSignals.dfy`, `DispatcherWaits.dfy`, `DispatcherResults.dfy`, `DispatcherRuns.dfy`, `DispatcherFrames.dfy`, `Semaphore.dfy`, `Mutex.dfy`, `Queue.dfy`, `Dispatcher.dfy` |
| both together | `KernelRuns.dfy` |
| memory | `PhysicalAllocator.dfy`, `PfnDatabase.dfy`, `PageTables.dfy`, `Translation.dfy`, `RecursivePaging.dfy`, `Mmu.dfy`, `PageFile.dfy`, `Pager.dfy` |
| FAT volumes | `FatChains.dfy`, `FatVolume.dfy`, `FatFiles.dfy` |
| shared notions | `Common.dfy` |

**Intrusive lists.** The circular lists of `ntlist.h` as node objects; each operation rewires
`next` and `prev` and is proved to do the right thing to the sequence of entries. The other parts
use the sequences. Two ways in which the kernel uses the operations together are proved as well:
taking a block off the head of a wait list and unlinking it once more, and moving an entry from
one list to the end of another.

**Scheduler.** Any number of threads, and of cores up to the 64 an affinity mask can name. A step is
all that is done under one hold of the dispatcher lock: a tick, a tick cut short, a wait or an exit
together with the tick it forces, a wake-up, a creation, a change of the running thread's mask, a
core coming up. `Inv` holds at power-on and is kept by every step. A thread that waits in a queue is
never overtaken there by one that joined it later.

**Waits and signals.** Threads wait for objects through wait blocks. Releasing a block, ending a
wait and running down the rest of its blocks call each other; the recursion ends because a thread
leaves the waiting state first. Closed forms of all three are proved from the links between blocks
and wait lists, and from these the effect of every wait and every signal. The locks of the objects
are part of the model where one core meets a lock that it holds itself. Semaphores, mutexes and
queues are built on them.

**Both together.** A thread has one state, which dispatcher and scheduler both write: signals hand
threads to the ready queues, blocked waits and exits take cores away, ticks switch. Over every run
the two agree on every thread.

**Memory.** Frames on two lists; the four-level tables edited through slot 510, which leads back to
the top table; the search for free pages with its skip-ahead; paging out to and in from slots of a
file. Mapping a page through the recursive addresses and mapping it on physical addresses are both
shown to be the same function on the tree of tables, and that function to change one page of a flat
map, and with it the processor's translation of the addresses of that page alone.

**FAT volumes.** FAT16 and FAT32 chains followed through a one-sector cache that writes go past;
truncation, growth and resizing; reading and writing files whose bytes are split over sectors and
clusters.

## What the code does that its readers may not expect

Each of these is a lemma or a contract below.

- A core keeps to its own queues when they hold a thread of the highest priority *shared*; the
  comment at `NNXOSKRN/scheduler.c:1281-1282` says that they must hold one of higher priority than
  the shared queue has (`Scheduler.SummaryComparison`).
- A core with nothing to run but its idle thread queues that thread each time its quantum is used up,
  and runs on with a thread that counts as ready (`SchedulerTicks.IdleQueuesItself`).
- An idle thread can be queued behind its own core, and is then taken in its turn although other
  threads of priority zero are ready (`SchedulerExamples.IdleBeforeOthers`);
  `SchedulerResults.IdleSelectedExactlyWhen` says exactly when.
- A thread that restricts itself to another core goes on running where it is until its quantum is
  used up and another thread that may preempt it waits (`SchedulerAffinity.MovedExactly`); if none
  ever does, it never leaves (`SchedulerExamples.MaskIgnored`).
- A wait for any of several objects, one of which is signalled already, hangs the core: what ends
  the wait takes the locks of the other objects, which the wait still holds. So does a wait that
  names an object twice (`DispatcherResults.WaitHangs`, `DispatcherResults.WaitForEitherHangs`). A
  wait for no object returns success and leaves the thread waiting
  (`DispatcherResults.WaitForNothing`).
- A wait for all objects that cannot be satisfied still consumes those that are signalled, and
  giving it up does not return them (`DispatcherResults.WaitEnds`).
- A timeout of a thread that waits for a mutex makes that thread the owner
  (`Mutexes.TimeoutStealsMutex`; `Mutexes.TimeoutKeepsOwner` says exactly when it does not).
- A semaphore released beyond its limit is carried out; `Semaphores.LimitKeptExactly` says when the
  count stays within the limit all the same.
- A region of fewer than two frames is not checked against the four-gigabyte limit
  (`PhysicalAllocator.SingleBelow4GB`, `PhysicalAllocator.SingleAbove4GB`).
- The page file bitmap covers all slots only when the number of pages is a multiple of eight
  (`Pager.MapCoversSlots`), and its guard lets through the eight indices of the byte behind it
  (`Pager.PagingFile.PagingSetPageFileMapBit`); a page-out whose frame cannot be given back loses
  its slot (`PageFile.OutFails`, `PageFile.PinnedFails`).
- Growing an empty file by two clusters or more leaves it with one when the sector of the first
  free FAT entry is the cached one; the others are lost, and entry zero is overwritten
  (`FatVolume.FatResizeFile`, `FatVolume.GrowingEmptyFileFallsShort`).
- The number of clusters for a size near four gigabytes wraps to zero (`FatChains.ClustersExact`,
  `FatChains.LargestSizeWraps`).
- A write whose last byte is the first of its sector goes on to the end of that sector, and a write
  that comes to the end of the file's clusters counts in the sector that it could not write
  (`FatFiles.FatWriteFile`, `FatFiles.BytesBehindKept`).
- A read that goes on behind the file's last cluster takes the end mark for a cluster and fails only
  if the disk refuses a sector of that (`FatFiles.FatReadFile`).
- A file that has just grown looks as short as before to a read or write that follows its chain
  next, exactly when the table has the entries of all its old clusters in one sector; so an append
  that needs a new cluster fails (`FatVolume.ResizeThenFollow`).
- When no page is free the allocation of a page takes the all ones that the search returns for an
  address, and maps the last page there is (`Mmu.Space.PagingAllocatePageWithPhysicalAddress`).

## Model

| member | source | states |
|---|---|---|
| NtList.ListEntry.constructor | NNXOSKRN/include/ntlist.h:43-47 | a new head is an empty ring |
| NtList.EmptyTest | NNXOSKRN/include/ntlist.h:100-103 | comparing the head's link with the head tells an empty list from all others |
| NtList.ContentsUnique | NNXOSKRN/include/ntlist.h:43-103 | the links determine the contents: a head is the head of one sequence only |
| NtList.InsertTailList | NNXOSKRN/include/ntlist.h:49-59 | the entry comes last, the others keep their order, the links still form a ring |
| NtList.InsertHeadList | NNXOSKRN/include/ntlist.h:61-71 | the entry comes first, the others keep their order |
| NtList.RemoveHeadList | NNXOSKRN/include/ntlist.h:73-79 | takes the first entry off, or returns the head of an empty list; the entry keeps its stale links |
| NtList.RemoveTailList | NNXOSKRN/include/ntlist.h:81-87 | takes the last entry off, or returns the head of an empty list |
| NtList.RemoveEntryList | NNXOSKRN/include/ntlist.h:89-98 | takes an entry off wherever it is and says whether the list is empty now; harmless for an entry just popped from the head |
| NtList.PopAndUnlink | NNXOSKRN/dispatcher/dispatcher.c:182-195 | popping a wait block and then unlinking it, as a signal does, removes just the first entry |
| NtList.MoveToTail | NNXOSKRN/scheduler.c:1310-1316 | moving an entry takes it from one list and appends it to the other, and both stay well formed |
| BitWords.BitEffect | NNXOSKRN/scheduler.c:72-94 | setting or clearing a bit changes that bit and no other |
| BitWords.XorBits | NNXOSKRN/scheduler.c:1283-1285 | the exclusive or, bit by bit |
| BitWords.SingleBit | NNXOSKRN/scheduler.c:1310-1310 | the mask of one core has one bit |
| BitWords.ZeroWord | NNXOSKRN/scheduler.c:1276-1279 | a word is zero exactly when it has no bit |
| BitWords.HighestBitTest | NNXOSKRN/scheduler.c:1283-1285 | for non-zero s: c is greater than s xor c exactly when c has the highest bit of s |
| ReadyQueues.RemoveTakesOne | NNXOSKRN/scheduler.c:1305-1337 | dequeuing takes one occurrence of one thread out of the queues |
| ReadyQueues.AppendAddsOne | NNXOSKRN/scheduler.c:1229-1248 | enqueuing adds one occurrence of one thread |
| Scheduler.ClearSummaryBitIfNecessary | NNXOSKRN/scheduler.c:72-82 | after it, each summary bit is set exactly when its queue is not empty |
| Scheduler.SetSummaryBitIfNecessary | NNXOSKRN/scheduler.c:84-94 | after it, each summary bit is set exactly when its queue is not empty |
| Scheduler.SummaryZero | NNXOSKRN/scheduler.c:1274-1279 | the summary word is zero exactly when all queues are empty |
| Scheduler.SummaryComparison | NNXOSKRN/scheduler.c:1281-1288 | the comparison of the summary words holds exactly when the core has a thread of the highest priority shared |
| Scheduler.Processors.InsertIntoSharedQueue | NNXOSKRN/scheduler.c:1229-1248 | appends to the queue of the thread's priority and keeps the summary right |
| Scheduler.Processors.ManageSharedReadyQueue | NNXOSKRN/scheduler.c:1257-1340 | the loops and summary tests move exactly the thread that the model moves, and report whether they did |
| Scheduler.Processors.SelectNextReadyThread | NNXOSKRN/scheduler.c:167-202 | the search by summary bits chooses what the model chooses and leaves the queues as it does |
| Scheduler.Processors.SwitchThread | NNXOSKRN/scheduler.c:643-674 | resets the quantum, refills the slot before queuing the old thread, and switches, as in the model; in which order the queues are left is `SchedulerOrder.SwitchInOrder` |
| Scheduler.Processors.PrepareCore | NNXOSKRN/scheduler.c:595-622 | fills an empty look-ahead slot and zeroes a given-up quantum |
| Scheduler.Processors.DecideCore | NNXOSKRN/scheduler.c:624-691 | resets, switches or counts down, as in the model |
| Scheduler.Processors.ScheduleThread | NNXOSKRN/scheduler.c:531-708 | a tick is the model's tick, or nothing when it is cut short; the invariant is kept |
| Scheduler.Processors.GiveUp | NNXOSKRN/scheduler.c:1345-1372 | an exit (and a wait) with its forced tick is one step of the model and keeps the invariant |
| Scheduler.Processors.ReadyThread | NNXOSKRN/dispatcher/wait.c:202-214 | waking a thread is one step of the model and keeps the invariant |
| Scheduler.Processors.CreateThread | NNXOSKRN/scheduler.c:975-1006 | creating and queuing a thread is one step of the model and keeps the invariant |
| Scheduler.Processors.InitializeCore | NNXOSKRN/scheduler.c:337-390 | bringing a core up, with empty queues and summary, is one step of the model and keeps the invariant |
| Scheduler.Processors.ChangeAffinity | NNXOSKRN/scheduler.c:1484-1513 | changing the mask and the tick it forces are two steps of the model and keep the invariant |
| SchedulerSteps.TickKeeps | NNXOSKRN/scheduler.c:531-708 | a tick on any core keeps the invariant |
| SchedulerSteps.SwitchKeeps | NNXOSKRN/scheduler.c:643-674 | a switch keeps it, even when a core switches from its idle thread to itself |
| SchedulerSteps.GivingUpKeeps | NNXOSKRN/scheduler.c:1359-1371 | so does a thread that waits or exits, with its tick |
| SchedulerSteps.WakeKeeps | NNXOSKRN/dispatcher/wait.c:202-214 | so does a wake-up |
| SchedulerSteps.CreateKeeps | NNXOSKRN/scheduler.c:1043-1127 | so does a creation |
| SchedulerSteps.ReboundKeeps | NNXOSKRN/scheduler.c:1484-1513 | so does a change of the running thread's mask |
| SchedulerSteps.StartedKeeps | NNXOSKRN/scheduler.c:275-390 | so does a core that comes up |
| SchedulerSteps.RunKeeps | NNXOSKRN/scheduler.c:531-708 | so does every run of steps |
| SchedulerResults.PowerOnInvariant | NNXOSKRN/scheduler.c:275-390 | over every run from power-on, cores coming up while others already run, the invariant holds |
| SchedulerResults.ReadyInExactlyOnePlace | NNXOSKRN/scheduler.c:595-691 | after every run a thread that is no idle thread is ready exactly when it is at one position of one queue or in one look-ahead slot, and in no second place |
| SchedulerResults.RunningOnExactlyOneCore | NNXOSKRN/scheduler.c:624-691 | after every run it is running exactly when it is current on a core, and on one only |
| SchedulerResults.IdleThreadAtHome | NNXOSKRN/scheduler.c:617-691 | after every run an idle thread is in at most one place, and current, queued or next on its own core only |
| SchedulerAffinity.HeldAdmitted | NNXOSKRN/scheduler.c:1309-1313 | after every run the threads in a core's queues and slot have masks that admit it |
| SchedulerAffinity.StepAdmits | NNXOSKRN/scheduler.c:624-691 | a step that makes a thread current on a core makes one current whose mask admits it; the current thread can leave its mask only by changing it itself |
| SchedulerAffinity.AffinityRespected | NNXOSKRN/scheduler.c:1484-1513 | over every run a core runs a thread outside its mask only if the thread took itself off the mask there and the core has not switched since; never if nobody does that |
| SchedulerAffinity.MovedExactly | NNXOSKRN/scheduler.c:655-691 | a tick, and so the one that a change of the mask forces, takes a running thread off its core exactly when its quantum is used up and another thread that may preempt it waits |
| SchedulerTicks.QuantumExactly | NNXOSKRN/scheduler.c:591-703 | a tick counts one quantum down while there is one, and otherwise the thread that has the core then has its QuantumReset times the cycles per quantum |
| SchedulerTicks.TickExactly | NNXOSKRN/scheduler.c:611-691 | in any state a tick refills the slot exactly when it names the idle thread or one that is not ready, and switches exactly when the current thread has no quantum left or has ended and the one in the slot may take its place; otherwise it changes no thread, queue or slot |
| SchedulerTicks.IdleQueuesItself | NNXOSKRN/scheduler.c:632-674 | a core with nothing but its idle thread puts it at the end of a shared queue, where it counts as ready while it runs on, exactly when its quantum is used up |
| SchedulerExamples.MaskIgnored | NNXOSKRN/scheduler.c:1484-1497 | a run from power-on after which a thread that asked for another core stays on the first one, however many ticks follow |
| SchedulerResults.SelectsFirstInLine | NNXOSKRN/scheduler.c:167-202 | a selection returns the first in line of the highest priority that has anyone, own queue before shared |
| SchedulerResults.SelectsHighestPriority | NNXOSKRN/scheduler.c:167-202 | nobody the core could run has a higher priority than the selected thread |
| SchedulerResults.IdleSelectedExactlyWhen | NNXOSKRN/scheduler.c:177-201 | the idle thread is selected exactly when nobody is in line, or it is itself first in line and no higher priority is |
| SchedulerExamples.IdleBeforeOthers | NNXOSKRN/scheduler.c:177-201 | a run from power-on after which the idle thread is selected although another thread is ready |
| SchedulerPreemption.OwnTick | NNXOSKRN/scheduler.c:611-691 | each tick of the core brings the thread in the slot one tick nearer, or makes it current |
| SchedulerPreemption.OtherStepPending | NNXOSKRN/scheduler.c:531-708 | steps elsewhere leave the pending thread and the countdown alone |
| SchedulerPreemption.BoundedPreemption | NNXOSKRN/scheduler.c:611-691 | a pending thread of sufficient priority becomes current after CyclesLeft / KiCyclesPerQuantum + 1 ticks of its core, whatever else happens between |
| SchedulerPreemption.BoundAfterReset | NNXOSKRN/scheduler.c:637-646 | counted from a reset of the quantum this is QuantumReset + 1 ticks |
| SchedulerOrder.MigrateInOrder | NNXOSKRN/scheduler.c:1288-1336 | migration takes the first thread that the core may run, of the highest priority that has one, to the end of its own queue, and leaves the others in their order; it takes none exactly when there is none or the core has one of the highest priority shared |
| SchedulerOrder.SelectInOrder | NNXOSKRN/scheduler.c:167-202 | after the migration the head of the highest own queue is taken, the others staying in their order, or the idle thread |
| SchedulerOrder.SwitchInOrder | NNXOSKRN/scheduler.c:660-674 | after a switch every shared queue is what the selection left, with the preempted thread behind all others of its priority |
| SchedulerOrder.LineOnlyShrinks | NNXOSKRN/scheduler.c:1229-1248 | over every run during which a thread stays in a queue, those ahead of it are some of those that were, in the same order |
| SchedulerOrder.NeverOvertaken | NNXOSKRN/scheduler.c:1229-1248 | round robin: no thread that joins the queue later, over any run, gets ahead of it |
| DispatcherLinks.ReleaseBlockKeeps | NNXOSKRN/dispatcher/dispatcher.c:134-150 | releasing a block keeps blocks and wait list entries matched one to one |
| DispatcherLinks.RundownEffect | NNXOSKRN/dispatcher/wait.c:140-173 | the rundown takes the thread off every wait list, consumes no signal and leaves no block |
| DispatcherLinks.UnwaitThreadEffect | NNXOSKRN/dispatcher/wait.c:193-226 | ending a wait: the thread is on no list, has its status, and is readied once unless it is the caller |
| DispatcherLinks.UnwaitBlockEffect | NNXOSKRN/dispatcher/dispatcher.c:112-167 | releasing a block: its object loses the entry, and the rest of the wait ends exactly when the block was the last or any is enough |
| DispatcherSignals.OneEntryEach | NNXOSKRN/dispatcher/wait.c:53-62 | a thread has at most one entry on a wait list |
| DispatcherSignals.ReleaseFirstEffect | NNXOSKRN/dispatcher/dispatcher.c:182-194 | the release of the first k entries in closed form, for the object, all other objects, all threads and the ready list |
| DispatcherSignals.SignalNeverSpins | NNXOSKRN/dispatcher/wait.c:150-168 | the rundown after a released block never comes to the lock of the signalled object, which the caller holds |
| DispatcherWaits.AddBlocksEffect | NNXOSKRN/dispatcher/wait.c:53-62 | one block is queued at the end of each object's list |
| DispatcherWaits.ScanAllEffect | NNXOSKRN/dispatcher/wait.c:71-78 | the scan of a wait for all objects neither hangs nor fails, and consumes every signalled object |
| DispatcherWaits.AnySpins | NNXOSKRN/dispatcher/wait.c:150-168 | ending a wait for any object during the scan comes to a held lock exactly when it is for more than one |
| DispatcherWaits.ScanAnyFirst | NNXOSKRN/dispatcher/wait.c:71-78 | the first signalled object ends a wait for any object: alone it is consumed, with others the core hangs |
| DispatcherResults.WaitHangs | NNXOSKRN/dispatcher/wait.c:35-85 | a wait hangs exactly when it names an object twice, or is for any of several objects and one of them is signalled; it never comes to the null reference behind |
| DispatcherResults.WaitForEitherHangs | smss/main.c:64-74 | a state in which a wait for either of two objects hangs although only the second is signalled |
| DispatcherResults.WaitEnds | NNXOSKRN/dispatcher/wait.c:26-119 | otherwise it is satisfied, timed out or blocked exactly when it should be, with the resulting state of every object and thread |
| DispatcherResults.StatusTells | NNXOSKRN/dispatcher/wait.c:88-118 | a thread whose wait has returned has status 0 exactly when it was satisfied and 0x102 exactly when it timed out |
| DispatcherResults.WaitForNothing | NNXOSKRN/dispatcher/wait.c:64-93 | a wait for no object reports success and leaves the thread waiting |
| DispatcherResults.SignalConserves | NNXOSKRN/dispatcher/dispatcher.c:169-195 | old state + increment = new state + released blocks; blocks go first come, first served; waiters remain only without signals |
| DispatcherResults.SignalReadies | NNXOSKRN/dispatcher/dispatcher.c:150-166 | exactly the threads whose wait is over are readied, in order; a thread waiting for all only with its last block |
| DispatcherResults.WaitKeeps | NNXOSKRN/dispatcher/wait.c:11-119 | a wait keeps the invariant |
| DispatcherResults.SignalKeeps | NNXOSKRN/dispatcher/dispatcher.c:169-195 | a signal keeps the invariant |
| DispatcherRuns.RunKeeps | NNXOSKRN/dispatcher/wait.c:11-226 | every run of waits, signals, timeouts, switches and exits keeps it |
| DispatcherRuns.CountersExact | NNXOSKRN/dispatcher/wait.c:64-67 | after every run NumberOfActiveWaitBlocks is the number of unreleased blocks and of entries on all lists, and zero for a thread that does not wait |
| DispatcherRuns.ExitLetsGo | NNXOSKRN/scheduler.c:1356-1364 | an exit leaves nobody waiting for the thread, exactly as long as fewer than two to the 32 waited, and readies those who waited for nothing else |
| DispatcherRuns.NeverSignalledAndWaitedFor | NNXOSKRN/dispatcher/dispatcher.c:182-194 | after every run no object is both signalled and waited for |
| DispatcherFrames.StepConserves | NNXOSKRN/dispatcher/dispatcher.c:134-137 | a step that does not signal an object conserves its signals left plus granted |
| DispatcherFrames.StepAvoids | NNXOSKRN/dispatcher/wait.c:140-173 | steps that keep clear of an object leave it and its sole waiters exactly as they are |
| DispatcherFrames.StepSpares | NNXOSKRN/dispatcher/wait.c:193-226 | what a wait has returned to a thread stays until the thread waits again or exits |
| Semaphores.SemaphoreStarts | NNXOSKRN/dispatcher/ntsemaphore.c:7-18 | a new semaphore keeps the invariant and starts within its limit |
| Semaphores.CountBounded | NNXOSKRN/dispatcher/ntsemaphore.c:7-59 | over every run of releases within the limit the count stays in 0..Limit, and left + granted = initial + released |
| Semaphores.LimitKeptExactly | NNXOSKRN/dispatcher/ntsemaphore.c:33-45 | after any release the count is within the limit exactly when what was too much is taken up by waiting threads |
| Mutexes.ReleaseFrees | NNXOSKRN/dispatcher/ntmutex.c:5-33 | with nobody waiting a release frees the mutex |
| Mutexes.ReleaseHandsOver | NNXOSKRN/dispatcher/ntmutex.c:5-43 | with waiters a release makes the longest waiting thread the owner, and readies it exactly when it waits for nothing more or for any object |
| Mutexes.AcquireMutex | NNXOSKRN/dispatcher/ntmutex.c:35-43 | an untimed wait owns a free mutex at once, or queues behind the others |
| Mutexes.OwnedWhenTaken | NNXOSKRN/dispatcher/ntmutex.c:5-43 | over every run, with any waits and timeouts, the mutex has an owner exactly when its signal state is 0 |
| Mutexes.OwnerStable | NNXOSKRN/dispatcher/ntmutex.c:35-43 | steps that keep clear of the mutex change neither owner nor queue |
| Mutexes.TimeoutKeepsOwner | NNXOSKRN/dispatcher/wait.c:150-168 | ending a wait from outside keeps the owner exactly when the thread was not queued for the mutex or owns it |
| Mutexes.TimeoutStealsMutex | NNXOSKRN/dispatcher/wait.c:150-168 | a run from nothing after which a timeout takes the mutex from its owner and gives it to the thread that timed out |
| Queues.QueueStarts | NNXOSKRN/dispatcher/ntqueue.c:7-23 | a new queue is empty, without signals, waiters or grants |
| Queues.InsertKeeps | NNXOSKRN/dispatcher/ntqueue.c:47-72 | an insertion keeps items = signals + grants not yet taken |
| Queues.InsertGrants | NNXOSKRN/dispatcher/ntqueue.c:66-68 | an insertion readies the longest waiting consumer with success, or raises the signal |
| Queues.RemoveKeeps | NNXOSKRN/dispatcher/ntqueue.c:25-45 | so does the wait of a removal |
| Queues.ExpireKeeps | NNXOSKRN/dispatcher/ntqueue.c:31-44 | so does the timeout of a removal |
| Queues.ExpiredTakesNothing | NNXOSKRN/dispatcher/ntqueue.c:31-44 | a removal that times out returns 0x102, takes no item and leaves items, signals and the other consumers as they were |
| Queues.InOrder | NNXOSKRN/dispatcher/ntqueue.c:37-68 | first in, first out: over every run of insertions at the tail, what was taken followed by what is left is what was there followed by what was inserted |
| Queues.HeadIsNext | NNXOSKRN/dispatcher/ntqueue.c:56-63 | an item inserted at the head is the next one taken, with the others behind it in their order |
| Queues.PopsSomething | NNXOSKRN/dispatcher/ntqueue.c:39-42 | over every run in which only removals wait for the queue a granted consumer never finds it empty |
| Dispatching.Kernel.KiUnwaitWaitBlock | NNXOSKRN/dispatcher/dispatcher.c:112-167 | the in-place, mutually recursive routine does what the model says and terminates, or hangs exactly when the model does |
| Dispatching.Kernel.KeUnwaitThreadNoLock | NNXOSKRN/dispatcher/wait.c:193-226 | state first, then the rundown: the model's end of a wait, unless the rundown comes to a held lock |
| Dispatching.Kernel.RundownWaitBlocks | NNXOSKRN/dispatcher/wait.c:140-173 | the loop over the blocks, taking and giving back the lock of each object, is the model's rundown; it hangs exactly when a block left is of an object whose lock is held |
| Dispatching.Kernel.KiSignal | NNXOSKRN/dispatcher/dispatcher.c:169-195 | the loop releases as many blocks as the model, terminates, and never hangs |
| Dispatching.Kernel.AcquireHeaderLocks | NNXOSKRN/dispatcher/wait.c:35-39 | takes the lock of each object, or hangs exactly when one is named twice |
| Dispatching.Kernel.ScanSignalled | NNXOSKRN/dispatcher/wait.c:71-78 | the scan is the model's scan, and hangs where it does |
| Dispatching.Kernel.KeWaitForMultipleObjects | NNXOSKRN/dispatcher/wait.c:11-119 | locking, queuing, scanning and deciding give the model's result, and its state unless the core hangs |
| Dispatching.Kernel.KeReleaseMutex | NNXOSKRN/dispatcher/ntmutex.c:5-33 | the model's release |
| Dispatching.Kernel.KeInitializeSemaphore | NNXOSKRN/dispatcher/ntsemaphore.c:7-18 | the model's new semaphore |
| Dispatching.Kernel.KeReleaseSemaphore | NNXOSKRN/dispatcher/ntsemaphore.c:20-59 | the model's release, within the limit or beyond it, returning the count before |
| Dispatching.Kernel.KeInitializeQueue | NNXOSKRN/dispatcher/ntqueue.c:7-23 | the model's new queue, which keeps its account |
| Dispatching.Kernel.KiInsertQueue | NNXOSKRN/dispatcher/ntqueue.c:47-72 | inserts at the right end, signals as in the model, returns the state before |
| Dispatching.Kernel.KeRemoveQueue | NNXOSKRN/dispatcher/ntqueue.c:25-45 | a removal satisfied at once takes the first item, which is there; otherwise it takes nothing |
| Dispatching.Kernel.FinishRemoveQueue | NNXOSKRN/dispatcher/ntqueue.c:30-44 | a removal that was blocked returns success exactly when it was granted a signal, and then takes the first item, which is there |
| KernelRuns.WakeAllEffect | NNXOSKRN/dispatcher/wait.c:202-214 | threads woken in order are ready, each behind those that were ready at its priority before, and nothing else changes |
| KernelRuns.SignalToQueues | NNXOSKRN/dispatcher/dispatcher.c:169-195 | a signal moves exactly the threads whose wait it ends to the shared ready queues, by priority and in the order in which they waited |
| KernelRuns.RunOk | NNXOSKRN/dispatcher/wait.c:11-226 | over every run of dispatcher and scheduler together both invariants hold and they agree on the state of every thread |
| KernelRuns.ExitedLetsGo | NNXOSKRN/scheduler.c:1356-1364 | nor is anybody left waiting for a thread that has exited |
| KernelRuns.NeverWaitingAndQueued | NNXOSKRN/dispatcher/wait.c:202-223 | over every run from power-on a thread is ready in exactly one place, or current on exactly one core, or neither, and neither while it is on any wait list |
| PhysicalAllocator.InitialValid | NNXOSKRN/HAL/X64/physical_allocator.c:39-59 | at first every frame is on one list, by its flags |
| PhysicalAllocator.AllocateValid | NNXOSKRN/HAL/X64/physical_allocator.c:69-97 | an allocation keeps every frame on exactly one list |
| PhysicalAllocator.FreeValid | NNXOSKRN/HAL/X64/physical_allocator.c:194-222 | so does giving a frame back, or refusing to |
| PhysicalAllocator.FreeExactly | NNXOSKRN/HAL/X64/physical_allocator.c:194-222 | a frame is taken back exactly when it is in use and not permanent, and then is the last on the free list |
| PhysicalAllocator.InitialState | NNXOSKRN/HAL/X64/physical_allocator.c:39-59 | at first both lists are ascending, and the frames given as used are permanent and never paged out |
| PhysicalAllocator.GrantsCanBeFreed | NNXOSKRN/HAL/X64/physical_allocator.c:69-222 | a frame handed out by either allocation can be given back |
| PhysicalAllocator.FramesInOrder | NNXOSKRN/HAL/X64/physical_allocator.c:69-222 | over every run of single allocations and frees, frames are handed out in the order in which they became free |
| PhysicalAllocator.RegionExact | NNXOSKRN/HAL/X64/physical_allocator.c:133-192 | a region is found exactly when n neighbours of the free list are ascending consecutive frames, below 4GB if asked and n is two or more, and the first such neighbours are taken; just those move, in order |
| PhysicalAllocator.RegionBelow4GB | NNXOSKRN/HAL/X64/physical_allocator.c:163-166 | a region of two frames or more asked for below 4GB lies there entirely |
| PhysicalAllocator.SingleBelow4GB | NNXOSKRN/HAL/X64/physical_allocator.c:163-174 | for fewer frames the limit makes no difference: the first free frame is taken |
| PhysicalAllocator.SingleAbove4GB | NNXOSKRN/HAL/X64/physical_allocator.c:163-174 | a state in which one frame asked for below 4GB lies above |
| PhysicalAllocator.NotTwice | NNXOSKRN/HAL/X64/physical_allocator.c:69-222 | over every run a frame in use is not handed out again before it has been freed |
| PfnDatabase.Database.MmReinitPhysAllocator | NNXOSKRN/HAL/X64/physical_allocator.c:25-64 | the loop builds both lists in order; the counters start as the code starts them |
| PfnDatabase.Database.MmAllocatePfn | NNXOSKRN/HAL/X64/physical_allocator.c:69-97 | hands out the first free frame, with lists, flags and counters in step |
| PfnDatabase.Database.MiLockedAllocRange | NNXOSKRN/HAL/X64/physical_allocator.c:99-120 | moves a range of the free list frame by frame |
| PfnDatabase.Database.MmAllocatePfnRegion | NNXOSKRN/HAL/X64/physical_allocator.c:133-192 | the running prefix finds the first run, or there is none |
| PfnDatabase.Database.MmFreePfn | NNXOSKRN/HAL/X64/physical_allocator.c:194-222 | takes a frame back exactly when it is neither free nor permanent; no counter goes below zero |
| PageTables.MapPageLookup | NNXOSKRN/HAL/X64/paging.c:220-325 | mapping changes the lookup of that page alone, and no lookup at all when it fails for lack of frames |
| PageTables.MapFromSucceeds | NNXOSKRN/HAL/X64/paging.c:239-276 | with three free frames a mapping never fails |
| PageTables.MapFromExact | NNXOSKRN/HAL/X64/paging.c:239-276 | a mapping succeeds exactly when there is a frame for each missing table, and takes just those |
| PageTables.NewTable | NNXOSKRN/HAL/X64/paging.c:239-250 | a new table is empty, and its entry is its frame, present, writable and open to user mode |
| PageTables.RunLookup | NNXOSKRN/HAL/X64/paging.c:220-325 | after any sequence of mappings every page shows what was last stored for it |
| PageTables.TablesDistinct | NNXOSKRN/HAL/X64/paging.c:239-276 | two different paths never lead to the same table frame |
| PageTables.EmptySpace | NNXOSKRN/HAL/X64/paging.c:482-488 | an empty top table is a well-formed space that maps nothing |
| PageTables.Remap | NNXOSKRN/HAL/X64/paging.c:278-278 | remapping a page needs no frame and changes no frame that is not a table |
| RecursivePaging.BaseValues | NNXOSKRN/HAL/X64/paging.c:28-40 | the four recursive bases as addresses |
| RecursivePaging.CanonicalPage | NNXOSKRN/include/paging.h:40-48 | the address made of a page number is the one address that is canonical, the first of a page, and of that page |
| Translation.TranslateLookup | NNXOSKRN/HAL/X64/paging.c:296-325 | the processor translates an address by the entry that a lookup of its page finds |
| Translation.MappingTranslates | NNXOSKRN/HAL/X64/paging.c:220-281 | after a mapping every address of the page is translated to the mapped frame, and every other address as before |
| RecursivePaging.RecursiveCells | NNXOSKRN/HAL/X64/paging.c:28-40 | for every page and level the processor's walk of the recursive address ends at the entry of the direct walk |
| RecursivePaging.WalkAnywhere | NNXOSKRN/HAL/X64/paging.c:55-75 | for every page, those of the tables themselves included, the walk reaches the entry that the lookup reads |
| Mmu.RangeMaps | NNXOSKRN/HAL/X64/paging.c:440-469 | a range mapped to its end shows every frame of the range at its page |
| Mmu.RangeSucceeds | NNXOSKRN/HAL/X64/paging.c:440-469 | a range is mapped to its end when there are three free frames for each stretch of 512 pages it touches whose last table may be missing |
| Mmu.RangeKeeps | NNXOSKRN/HAL/X64/paging.c:440-469 | pages that the range does not reach stay as they are, even when it fails half-way |
| Mmu.Space.EnsureTable | NNXOSKRN/HAL/X64/paging.c:239-250 | an entry written through its recursive address leads to a table, cleared through the address where it then appears |
| Mmu.Space.PagingMapPage | NNXOSKRN/HAL/X64/paging.c:220-290 | the edit through the recursive addresses is the map function |
| Mmu.Space.PagingMapPageBeforeInit | NNXOSKRN/HAL/X64/paging.c:369-438 | the edit on physical addresses is the same function |
| Mmu.Space.PagingMapRangeBeforeInit | NNXOSKRN/HAL/X64/paging.c:440-469 | maps a range page by page until one fails |
| Mmu.Space.PagingGetTableMapping | NNXOSKRN/HAL/X64/paging.c:292-325 | reading through the tables gives the lookup |
| Mmu.Space.PagingCheckIsPageIndexFree | NNXOSKRN/HAL/X64/paging.c:55-75 | free exactly when the lookup is zero |
| Mmu.Space.PagingFindFreePages | NNXOSKRN/HAL/X64/paging.c:115-160 | the canonical address of the first page of the lowest run of free pages with start + count below the end, none exactly when there is none, a bug check exactly when the high halves differ |
| Mmu.Space.PagingAllocatePageWithPhysicalAddress | NNXOSKRN/HAL/X64/paging.c:162-170 | maps the address at the first free page between two addresses; without a free one it maps the last page of all |
| PageFile.OutKeeps | NNXOSKRN/HAL/X64/pagefile.c:170-215 | a page-out keeps pages that are out in different, taken, non-zero slots |
| PageFile.InKeeps | NNXOSKRN/HAL/X64/pagefile.c:217-272 | so does a page-in |
| PageFile.OutResult | NNXOSKRN/HAL/X64/pagefile.c:170-215 | contents in the slot, flags in the entry, other pages, slots and data frames untouched |
| PageFile.InResult | NNXOSKRN/HAL/X64/pagefile.c:217-272 | a new frame with the contents of the slot, or nothing for lack of frames |
| PageFile.InRefused | NNXOSKRN/HAL/X64/pagefile.c:241-246 | a page-in is refused, and changes nothing, exactly when the entry names slot zero, no slot of the file or a free one |
| PageFile.RoundTrip | NNXOSKRN/HAL/X64/pagefile.c:170-272 | whatever other pages go out and in meanwhile, a page comes back with its contents and flags, PRESENT set, and just its slot is freed |
| PageFile.OutFails | NNXOSKRN/HAL/X64/pagefile.c:196-206 | a page-out fails exactly when the frame is free or permanent, and then loses its slot |
| PageFile.PinnedFails | NNXOSKRN/HAL/X64/pagefile.c:196-206 | a state in which that happens |
| Pager.MapCoversSlots | NNXOSKRN/HAL/X64/pagefile.c:52-60 | the bitmap has room for every slot exactly when the pages are a multiple of eight, or at most one |
| Pager.NinePages | NNXOSKRN/HAL/X64/pagefile.c:52-60 | with nine pages slot eight is not covered |
| Pager.SlotUpdate | NNXOSKRN/HAL/X64/pagefile.c:105-108 | setting or clearing a bit of the bitmap changes one slot |
| Pager.PagingFile.PagingGetPageFileMapBit | NNXOSKRN/HAL/X64/pagefile.c:113-132 | the bit of a slot, in the map or in the one byte behind it, false beyond |
| Pager.PagingFile.PagingSetPageFileMapBit | NNXOSKRN/HAL/X64/pagefile.c:86-111 | changes one bit, in the map or in the one byte behind it, or refuses |
| Pager.PagingFile.PagingSelectPageFilePageIndex | NNXOSKRN/HAL/X64/pagefile.c:64-84 | takes the lowest free slot but slot zero, even where the map does not cover it |
| Pager.PagingFile.PagingPageOutPage | NNXOSKRN/HAL/X64/pagefile.c:170-215 | the routine over bitmap, file, frames and tables is the model's page-out |
| Pager.PagingFile.PagingPageInPage | NNXOSKRN/HAL/X64/pagefile.c:217-272 | and the model's page-in, refusing a page whose entry names no taken slot |
| FatChains.ChainDistinct | NNXOSKRN/drivers/builtin/fs/fat.c:1528-1550 | a chain that ends has no cycle |
| FatChains.TruncatedChain | NNXOSKRN/drivers/builtin/fs/fat.c:1552-1571 | a truncated chain is the prefix, marked at its end, and the rest is free |
| FatChains.TruncatedOthers | NNXOSKRN/drivers/builtin/fs/fat.c:1552-1571 | truncation leaves every other file's chain alone |
| FatChains.AppendOne | NNXOSKRN/drivers/builtin/fs/fat.c:1583-1591 | appending a free cluster keeps an acyclic chain with the old one as prefix |
| FatChains.ExtendedOthers | NNXOSKRN/drivers/builtin/fs/fat.c:1573-1595 | growth leaves every other file's chain alone |
| FatChains.StrayedOthers | NNXOSKRN/drivers/builtin/fs/fat.c:1573-1595 | clusters linked to entry zero are lost, and every file's chain stays as it is |
| FatChains.ClustersExact | NNXOSKRN/drivers/builtin/fs/fat.c:1609-1611 | the computed cluster count is the ceiling exactly when the sum does not leave 32 bits |
| FatChains.LargestSizeWraps | NNXOSKRN/drivers/builtin/fs/fat.c:1609-1611 | for the largest size the computed count is zero |
| FatVolume.SectorIndexInjective | NNXOSKRN/drivers/builtin/fs/fat.c:303-327 | different sectors of clusters are different sectors of the disk |
| FatVolume.SectorLayout | NNXOSKRN/drivers/builtin/fs/fat.c:303-327 | the sectors of the clusters lie one behind the other, from the first sector of cluster two on |
| FatVolume.Fat16Or32ReadFatEntry | NNXOSKRN/drivers/builtin/fs/fat.c:199-220 | reads through a one-sector buffer: the buffer's entry on a hit, else the disk's, and then the whole sector is buffered |
| FatVolume.FatFollowClusterChain | NNXOSKRN/drivers/builtin/fs/fat.c:275-280 | returns what the cache shows; entries it shows rightly it still shows rightly |
| FatVolume.FatWriteFatEntry | NNXOSKRN/drivers/builtin/fs/fat.c:116-164 | changes one entry of the disk and leaves the cache stale for that entry only |
| FatVolume.FatFindFreeCluster | NNXOSKRN/drivers/builtin/fs/fat.c:633-650 | the first free entry from one on, or all ones |
| FatVolume.FatFollowClusterChainToAPoint | NNXOSKRN/drivers/builtin/fs/fat.c:1528-1538 | cluster number k of the chain, or its end mark; of a chain that the cache does not show as grown yet, the old end unless the way leads through another sector of the table |
| FatVolume.FatFollowClusterChainToEnd | NNXOSKRN/drivers/builtin/fs/fat.c:1540-1550 | the last cluster, or entry zero when the cache shows the first cluster as free |
| FatVolume.FatDecreaseClusterChainLengthTo | NNXOSKRN/drivers/builtin/fs/fat.c:1552-1571 | truncates exactly, although the cache goes stale: every entry is read before it is overwritten |
| FatVolume.FatIncreaseClusterChainLengthBy | NNXOSKRN/drivers/builtin/fs/fat.c:1573-1595 | appends n clusters that were free and clears just their sectors; with a stale start they hang on entry zero instead |
| FatVolume.ShrunkFile | NNXOSKRN/drivers/builtin/fs/fat.c:1636-1649 | what truncation means for the file, its lost clusters and all other files |
| FatVolume.GrownFile | NNXOSKRN/drivers/builtin/fs/fat.c:1619-1635 | what growth means for the file, its new clusters and all other files |
| FatVolume.ShortFile | NNXOSKRN/drivers/builtin/fs/fat.c:1621-1634 | what the stale cache does to a growing empty file: one cluster of its own, the others lost, all other files as they were |
| FatVolume.FatResizeFile | NNXOSKRN/drivers/builtin/fs/fat.c:1608-1651 | the file has exactly the clusters of its new size unless it was empty, needs two or more, and the first free entry's sector is cached; then it has one and the others are lost |
| FatVolume.GrowingEmptyFileFallsShort | NNXOSKRN/drivers/builtin/fs/fat.c:1621-1634 | on a fresh FAT16 or FAT32 volume of any size with clusters of one sector, that happens to a file of no clusters resized to two |
| FatVolume.ResizeThenFollow | NNXOSKRN/drivers/builtin/fs/fat.c:1201-1227 | a new cluster of a file that has just grown is found by following the chain, except exactly when the table has the entries of all old clusters in one sector; then the old end is taken for the end |
| FatFiles.ByteOnDisk | NNXOSKRN/drivers/builtin/fs/fat.c:303-327 | every byte of a file is at its place of its sector of its cluster on the disk |
| FatFiles.OneStretch | NNXOSKRN/drivers/builtin/fs/fat.c:303-327 | a file of consecutive clusters is one stretch of the disk |
| FatFiles.RoomForSize | NNXOSKRN/drivers/builtin/fs/fat.c:1608-1611 | with the clusters computed for a size a file has room for it and less than a cluster more, exactly when the sum stays in 32 bits |
| FatFiles.FatReadSectorFromFile | NNXOSKRN/drivers/builtin/fs/fat.c:653-693 | sector s of the file: the right sector of the right cluster, or what the disk has at the same place of the cluster that the end mark stands for |
| FatFiles.FatReadFile | NNXOSKRN/drivers/builtin/fs/fat.c:827-884 | exactly bytes offset to offset + size of the file, for every split over sectors and clusters; behind the chain it fails exactly when the disk refuses one of the sectors read there, and has then returned what was shown before |
| FatFiles.OneSectorWritten | NNXOSKRN/drivers/builtin/fs/fat.c:316-327 | writing one sector of a file changes no other sector of it or of any other cluster |
| FatFiles.FatWriteSectorsToFile | NNXOSKRN/drivers/builtin/fs/fat.c:695-763 | writes the sectors that the chain has room for, and reports success exactly when it has room for all |
| FatFiles.FatWriteFile | NNXOSKRN/drivers/builtin/fs/fat.c:765-825 | the file's bytes with as much of the input written over them as there is room for, and nothing else changed; success exactly when all of it fits, and the count given either way |
| FatFiles.BytesBehindKept | NNXOSKRN/drivers/builtin/fs/fat.c:784-801 | the bytes behind the range are kept exactly in that case, or by coincidence |
| FatFiles.OtherFileKept | NNXOSKRN/drivers/builtin/fs/fat.c:695-825 | a write leaves the bytes of files with other clusters alone |
| FatFiles.WriteThenRead | NNXOSKRN/drivers/builtin/fs/fat.c:695-884 | reading back what was written returns it; the bytes before the range, those behind it when the last is not the first of its sector, and the sectors of all other clusters are kept |

## Left out

- Locks other than those of objects, IRQLs and interrupts: each step is everything done under one hold of the dispatcher (or allocator, paging, page file) lock. Two cores that wait for each other's locks are not modelled, although a rundown takes the locks of objects with the dispatcher lock held and all other routines take them before it; nor is an interrupt that comes to a lock which the code it interrupted holds.
- The gap between setting the waiting state and the forced tick (`NNXOSKRN/dispatcher/wait.c:109-117`): both are one step, so a wake-up in between is not modelled.
- Thread priority and quantum changes: both are fixed when a thread is created; total priority is below 32 and the cycles per quantum are positive.
- Creating a thread and inserting it into the shared queue are one step.
- Scheduler.Processors.InitializeCore: cores are numbered in the order in which they come up.
- SchedulerAffinity.AffinityRespected: an idle thread is only given the mask it has, by the set-up of its core, which changes nothing and is no step; the saved mask to which a thread reverts is any mask.
- Address space switches, stacks, thread cleanup after an exit, DPC and APC delivery.
- Timeout lists and the clock: a timeout is a step that may happen to any waiting thread, and a poll is a wait with timeout zero.
- The counter of threads waiting for a queue, which the code only decrements.
- Mutexes.OwnedWhenTaken: the kernel has no routine that initialises a mutex; it is taken to start with an owner exactly when it is not signalled.
- Queues.PopsSomething: the thread between its grant and its item does nothing else, as the code of a removal says.
- `MmMarkPfnAsUsed` and `MiFlagPfnsForRemap`, which break the partition and the permanent flags.
- PfnDatabase.Database.MmFreePfn: a frame number beyond the database, which the code does not check.
- TLB flushes, accessed and dirty bits, and rights: the walk uses the present bit, the frame number and the large-page bit of upper entries.
- Mmu.Space.PagingMapPage: pages of slot 510 as targets of mappings, which rewrite the tables themselves, and other address spaces sharing the kernel's slot.
- Mmu.Space.PagingMapPageBeforeInit: table addresses are taken to be identity mapped and entries to carry no bits above the frame number; no pages of slot 510.
- Mmu.Space.PagingMapRangeBeforeInit: no range that touches slot 510 or ends near the top of 64 bits.
- Mmu.Space.PagingFindFreePages: counts so large that start + count leaves 64 bits.
- Pager.PagingFile.PagingPageOutPage: a call without a free slot, for an unaligned address, or for a page that is not in memory or whose frame is a table; the code checks none of these.
- Pager.PagingFile.PagingPageInPage: a call for a present page whose frame number happens to be a taken slot, or for an entry whose bit lies behind the map; the code goes on with both.
- The files behind the page file: slots are read and written whole and without errors.
- FAT12, the copies of the table, directory entries, names, and the disk-full path of the search for a free cluster.
- Sector numbers from the parameter block: the table and the data sectors are separate arrays, and disk errors occur only behind the end of a chain.
- FatVolume.FatResizeFile: the recorded size agrees with the length of the chain, entry one is in use, entry zero holds a mark, and enough clusters are free.
- FatVolume.ResizeThenFollow: the directory lookups of an append, which fill the cache anew when they follow the chain of a directory of several clusters.
- FatFiles.FatReadSectorFromFile: a call without a file, which reads the root directory (on FAT32 that is the chain of the root cluster), and files without clusters, whose cluster zero the code takes for one in front of the data sectors.
- FatFiles.FatReadFile: ranges that leave four gigabytes, and files without clusters.
- FatFiles.FatWriteSectorsToFile: a call without a file, files without clusters, and a count of zero, with which nothing in the kernel calls it.
- FatFiles.FatWriteFile: ranges that leave four gigabytes, files without clusters, and writes of no bytes, whose last sector the code computes as one before the first.
- The assertions of a debug build: it stops when a semaphore is released beyond its limit (`NNXOSKRN/dispatcher/ntsemaphore.c:40`), and at the end of a wait with timeout zero, which comes to an assertion about the thread lock after giving that lock back (`NNXOSKRN/dispatcher/wait.c:79`, `NNXOSKRN/dispatcher/wait.c:216`).
- Object names, handles, section views, loaders, drivers, graphics and input.
