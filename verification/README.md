# Verified model of the OS simulator

The simulator runs processes on several CPUs, fed by a loader, in lockstep with a shared clock;
each process has paged virtual memory in a RAM shared by all.  This project models both halves
in Dafny and proves what they guarantee.  `dafny verify dfyconfig.toml` checks all of it.

## The scheduler as a concurrent protocol

| module | models |
|---|---|
| `Barrier`, `BarrierTheorems`, `BarrierLiveness` | `timer_routine`, `next_slot`, `attach_event`, `detach_event`, `stop_timer` |
| `ProcQueue`, `Scheduler`, `SelectionOrder` | the bounded queues and the cyclic scan over 140 of them |
| `Simulator`, `SimulatorInv`, `SimulatorClock`, `SimulatorTheorems`, `SimulatorSlots`, `SimulatorSlices`, `SimulatorStopping`, `SimulatorLiveness`, `SimulatorDeadline` | `cpu_routine` and `ld_routine` on top of both |

`timer.c` and `os.c` are several threads at once, so they are transition systems: a program
counter per thread and one step for each lock, unlock, unlocked access, signal and wait of the
clock, and for each critical section under the queue lock and each read or write of the shared
`done` outside it.  A run is any sequence of enabled steps.  Every theorem named `...Theorems` is
about all runs, any number of devices or CPUs, and any configuration.  The queue code changes
arrays in place and is written as classes and loops, each tied to a function on sequences; the
steps of the simulator use these functions.

The result that links all files is `NoStrandedProcess`.  A CPU tests the queue and then `done`
without a common lock.  That is safe only because the loader passes a whole `next_slot` between
its last `add_proc` and `done = 1`, and the clock cannot tick while the CPU is between its two
tests.

Progress is proved as well.  Inside one slot the threads together take a bounded number of steps
(`SlotIsBounded`), some thread can always move until all have ended (`NeverStuck`), and each slot
gets something done as long as some process is not over (`GoingTick`); so every process has
finished by a slot that can be computed from the configuration (`EveryProcessMeetsDeadline`).

## Paging

| module | models |
|---|---|
| `Bits`, `PageEntry` | the bit macros, page-table entries and addresses |
| `Lists`, `MemPhy` | linked lists, the byte store and the free-frame list of a device |
| `Paging`, `Residency`, `Frames` | what mapping and faults do to a table, its FIFO and the frames, and over runs |
| `Faults`, `SwapSpace` | exactly when a page fault, as coded, does no harm, and who holds which swap frame |
| `AddressSpace`, `FlatMemory` | the heap structures themselves, and byte access as one flat map per process |
| `Regions`, `RegionRuns`, `RegionList` | the free-region lists and the symbol table |
| `Variables` | `__read` and `__write`, where regions and byte access meet |

Page table, FIFO, free lists and symbol table are real arrays and linked nodes, edited by methods
in the order the code edits them; each method equates the new structure with a function of the
old one, and the theorems are about these functions.

## Properties that turn out false, and exactly when they hold

- Frames are exclusive if and only if the device has at most 8192 frames (`Frames.NeverSharedIff`).
- A page access keeps the FIFO right if and only if the page is present, nothing is resident or the
  swap has a free frame (`Paging.AccessKeepsFifoIff`, `Paging.FullSwapExample`).
- A page fault keeps frames unshared if and only if no page but the victim sits in the frame numbered
  like the victim, and keeps every frame accounted for if and only if the victim itself sits there
  (`Faults.FaultSharesIff`, `Faults.FaultConservesIff`, `Faults.SharedFrameExample`).
- An allocation takes exactly the asked bytes if and only if one piece of that size fits in all
  (`Regions.TakesExactlySizeIff`).
- `enqueue` keeps a process if and only if its level holds fewer than ten (`ProcQueue.EnqueueKeepsIff`,
  `SelectionOrder.AddsKeptIff`).
- `get_mlq_proc` finds a ready process if and only if one lies at or after the scan position
  (`Scheduler.ScanServesIff`); every reachable position is 0.
- CPUs need not stop: once every process is over and `done` is set, a CPU stops, with its second own
  step at the latest, if and only if it is not idle at the head of its loop
  (`SimulatorStopping.CpuStopsIff`, `SimulatorStopping.NeverEndingRun`).
- Requests for area 1 are never served from its free list (`RegionRuns.HeapNeverServed`).

## Where code and comments disagree

- The comment above `get_mlq_proc` (sched.c:42-48) announces a slot budget per level that persists
  between calls.  The code recomputes it in every call, so the policy is strict priority.
- `pte_set_swap` leaves the present bit set (mm.c:58), although a swapped page is not in RAM.
- `pg_getpage` uses the victim's page number where the frame number is meant (mm-vm.c:217, 224).
- `get_free_vmrg_area` announces a search for a fit (mm-vm.c:568) but goes on after a hit.

## Model

| member | source | states |
|---|---|---|
| Barrier.InitialInv | ossim_source_code/src/timer.c:95-118 | n freshly attached devices and a timer about to start satisfy the protocol invariant |
| Barrier.MoverOk | ossim_source_code/src/timer.c:61-93 | each single operation of `next_slot` and `detach_event` keeps the moving device's flags, locks and call count consistent with where the timer stands |
| Barrier.MoverFsh | ossim_source_code/src/timer.c:88-93 | a device the timer has already counted in this round cannot become finished before it is released |
| Barrier.TouchedOk | ossim_source_code/src/timer.c:29-53 | each single operation of the two timer passes keeps the attended device consistent |
| Barrier.CountFshFull | ossim_source_code/src/timer.c:37-54 | the counter of finished devices reaches the number of devices exactly when all are finished |
| Barrier.TimerTallyOk | ossim_source_code/src/timer.c:22-57 | the counters `fsh` and `event` always describe the devices already passed, and an exit is possible only with every device finished |
| Barrier.StepInv | ossim_source_code/src/timer.c:21-93 | the whole invariant is kept by every step of every thread, by signals, by wake-ups without a signal and by the stop request |
| BarrierTheorems.RunInv | ossim_source_code/src/timer.c:21-132 | the invariant holds in every state of every run, for any number of devices |
| BarrierTheorems.Lockstep | ossim_source_code/src/timer.c:26-53 | every unfinished device was released `_time` times, or one time less exactly while the release pass still owes it one; a device at work has made `_time` calls |
| BarrierTheorems.StepKeepsTimeOfBusyDevice | ossim_source_code/src/timer.c:44-53 | no step of any thread moves the clock while some device is between two `next_slot` calls |
| BarrierTheorems.TimeStableWhileBusy | ossim_source_code/src/timer.c:61-81 | the clock reads the same at both ends of any stretch during which one device stays between two `next_slot` calls |
| BarrierTheorems.NoLostWakeup | ossim_source_code/src/timer.c:29-53 | a sleeping device has `done` set and a sleeping timer sees both flags clear, unless the signal to it is the next operation of the other side |
| BarrierTheorems.SomeoneCanMove | ossim_source_code/src/timer.c:29-76 | in every state of the invariant some thread that is needed can move without waiting |
| BarrierTheorems.NoDeadlock | ossim_source_code/src/timer.c:29-93 | in every state of every run the timer or the device it attends to can move, and after the timer's exit every device not yet gone can |
| BarrierTheorems.RaceFree | ossim_source_code/src/timer.c:44-80 | `done` (set under one mutex, cleared under another), `fsh` and the unlocked `_time` are never open to two conflicting accesses at once |
| BarrierTheorems.CountedStaysUntilRelease | ossim_source_code/src/timer.c:29-53 | a device counted as done neither finishes nor returns to work before its release |
| BarrierTheorems.ExitVerdict | ossim_source_code/src/timer.c:37-56 | at the end of a collecting pass the counters agree if and only if every device has finished |
| BarrierTheorems.LeavesIff | ossim_source_code/src/timer.c:37-57 | when the release pass after a tick is over the timer has left if and only if every device was finished at the tick, and otherwise starts another round |
| BarrierTheorems.StoppedStep | ossim_source_code/src/timer.c:22 | after a stop request the next step of a timer at the head of its loop is to leave |
| BarrierTheorems.StopEndsTheClock | ossim_source_code/src/timer.c:22 | after a stop request a timer at the head of its loop never ticks again |
| BarrierTheorems.SlotStep | ossim_source_code/src/timer.c:61-77 | only a call of `next_slot` moves a device on to another slot |
| BarrierTheorems.NextSlotTakesOneSlot | ossim_source_code/src/timer.c:61-77 | a device that calls `next_slot` is back at work exactly one slot later |
| BarrierLiveness.EveryStepCounts | ossim_source_code/src/timer.c:21-93 | every step inside the barrier leaves less to do for the devices, or as much for them and less for the timer |
| BarrierLiveness.ComesToRest | ossim_source_code/src/timer.c:21-93 | without new calls and unsignalled wake-ups the threads take at most a stated number of steps inside the barrier |
| BarrierLiveness.RestMeansWaiting | ossim_source_code/src/timer.c:29-76 | when none can be taken the timer has ended or sleeps on a device whose thread is busy, and every other thread is busy, gone or asleep with its call pending |
| BarrierLiveness.RunComesToRest | ossim_source_code/src/timer.c:21-93 | both in every state of every run |
| BarrierTheorems.SafeExit | ossim_source_code/src/timer.c:54-58 | once the timer has left, then and ever after, every device is finished and none is in `next_slot` |
| ProcQueue.StableMax | ossim_source_code/src/queue.c:26-31 | the selected index holds the largest `priority` and nothing before it is as large |
| ProcQueue.StableMaxUnique | ossim_source_code/src/queue.c:26-31 | that rule determines the index |
| ProcQueue.DequeuedIsRemoval | ossim_source_code/src/queue.c:18-40 | the earliest of the largest is handed out and the others stay, in order, none duplicated or lost |
| ProcQueue.EnqueueKeepsIff | ossim_source_code/src/queue.c:10-16 | the process is kept exactly when fewer than ten are queued; otherwise the queue is unchanged |
| ProcQueue.Queue.constructor | ossim_source_code/src/sched.c:31-34 | a new queue is empty |
| ProcQueue.Queue.Empty | ossim_source_code/src/queue.c:5-8 | true exactly when nothing is queued |
| ProcQueue.Queue.Enqueue | ossim_source_code/src/queue.c:10-16 | the array then holds the queue with the process behind it, or as before when full |
| ProcQueue.Queue.HighestIndex | ossim_source_code/src/queue.c:26-31 | the search loop finds the stable maximum |
| ProcQueue.Queue.CloseGap | ossim_source_code/src/queue.c:35-38 | the shift loop removes one index and keeps every other element in order |
| ProcQueue.Queue.Dequeue | ossim_source_code/src/queue.c:18-40 | result and remaining contents are those of the stable-maximum removal, or nothing on an empty queue |
| Scheduler.FirstHit | ossim_source_code/src/sched.c:60-63 | the cyclic scan stops at the first attempt whose level is not empty |
| Scheduler.ScanIsStrictPriority | ossim_source_code/src/sched.c:50-80 | from scan position 0 the lowest-numbered non-empty level is served, nothing comes back only if all 140 are empty, and the position stays 0 |
| Scheduler.ScanServesIff | ossim_source_code/src/sched.c:57-76 | from any position a process comes back exactly when some level at or after the position holds one; otherwise no queue changes and the position moves past the first non-empty level |
| Scheduler.ReadyQueues.constructor | ossim_source_code/src/sched.c:27-40 | 140 separate empty queues and position 0 |
| Scheduler.ReadyQueues.PutMlqProc | ossim_source_code/src/sched.c:82-92 | only the queue of the process's own level changes, by `enqueue` |
| Scheduler.ReadyQueues.GetMlqProc | ossim_source_code/src/sched.c:50-80 | the loop over the real arrays returns and leaves what the scan specification says |
| SelectionOrder.Best | ossim_source_code/src/sched.c:60-67 | the best of a pool has the lowest `prio`, then the highest `priority`, then the earliest arrival |
| SelectionOrder.BestInItsLevel | ossim_source_code/src/sched.c:60-67 | the pool's best process lies in the lowest non-empty level, at that level's stable maximum |
| SelectionOrder.TakeRefines | ossim_source_code/src/sched.c:50-80 | `get_proc` hands out the best process of the arrival-ordered pool and removes only that one |
| SelectionOrder.AddRefines | ossim_source_code/src/sched.c:82-92 | `put_proc` and `add_proc` append to the pool, or drop the process when its level is full |
| SelectionOrder.QueuesRefineArrivalOrder | ossim_source_code/src/sched.c:50-92 | over every run of additions and removals the queues hand out what one arrival-ordered list would, and hold the same processes |
| SelectionOrder.AddsKeptIff | ossim_source_code/src/queue.c:10-16 | a run of additions is kept entirely, in order, if and only if no level is given more than ten |
| SimulatorInv.StepInv | ossim_source_code/src/os.c:49-146 | every step of every thread keeps: each process in one place, on its own level, its instructions run in order and its slices aligned |
| SimulatorClock.ClockFrame | ossim_source_code/src/timer.c:21-81 | a step inside the clock leaves every thread's slot as it is and does not move time past a busy thread |
| SimulatorClock.StopsInv | ossim_source_code/src/os.c:80-84 | a CPU that reads `done` had failed to get a process after the last `add_proc`, so stopping strands nothing |
| SimulatorClock.AddsInv | ossim_source_code/src/os.c:134-139 | the last addition still meets a CPU that has not given up, and lands in its computed slot |
| SimulatorClock.StepInv | ossim_source_code/src/os.c:49-146 | every step of every thread keeps the loader on schedule and the invariant: loading over and a queue not empty means some CPU serves or will ask |
| SimulatorTheorems.RunInv | ossim_source_code/src/os.c:49-146 | both invariants hold in every state of every run of any configuration |
| SimulatorTheorems.ClockFollowsBarrier | ossim_source_code/src/os.c:62-101 | each step of the simulator is a step of the barrier protocol or leaves the clock alone |
| SimulatorTheorems.Exclusive | ossim_source_code/src/os.c:57-78 | a process sits in at most one queue slot, on its own level, or on at most one CPU, never both; finished, lost and unloaded ones sit nowhere |
| SimulatorTheorems.Conserved | ossim_source_code/src/os.c:57-139 | a process was added if and only if it is queued, held by a CPU, finished or dropped |
| SimulatorTheorems.RoomForOneMore | ossim_source_code/src/queue.c:10-16 | with at most ten configured processes per level a process outside the queues always finds a free slot |
| SimulatorTheorems.NothingLost | ossim_source_code/src/os.c:74-136 | with at most ten configured processes per level nothing is ever dropped |
| SimulatorTheorems.NoStrandedProcess | ossim_source_code/src/os.c:55-143 | if every CPU has left its loop then loading is over, all queues are empty and every process has run to its end or was dropped |
| SimulatorTheorems.EveryProcessFinishes | ossim_source_code/src/os.c:55-143 | with levels that fit: then every configured process has run each of its instructions once, in order |
| SimulatorTheorems.ExactlyOnce | ossim_source_code/src/cpu.c:48-55 | in every state each process has run instructions 0 to pc-1 once each, in order, over all CPUs; no completed process is queued |
| SimulatorTheorems.SliceLength | ossim_source_code/src/os.c:65-99 | dispatch n starts at instruction (n-1)*time_slot and, when the CPU gives the process up, has run exactly min(time_slot, remaining) instructions |
| SimulatorTheorems.DispatchCount | ossim_source_code/src/os.c:65-99 | a finished process was dispatched ceil(size / time_slot) times, once if it has no code |
| SimulatorSlots.EventSlot | ossim_source_code/src/os.c:60-99 | a thread moves on to the next slot by its own slot-ending step and by no other step of any thread, and the clock never runs back |
| SimulatorSlots.FewStepsPerSlot | ossim_source_code/src/os.c:55-100 | inside a slot each step of a CPU brings it nearer to one that ends the slot or stops the CPU |
| SimulatorSlots.LoaderGoesOn | ossim_source_code/src/os.c:116-146 | a loader step that does not end its slot leads to the addition or to the end |
| SimulatorSlots.LaterSlot | ossim_source_code/src/os.c:60-99 | after running an instruction, failing to get a process at the head of the loop, or finding nothing on the recheck, a CPU takes its next step in a later slot |
| SimulatorSlots.OneInstructionPerSlot | ossim_source_code/src/os.c:97-99 | a CPU runs at most one instruction per slot |
| SimulatorSlots.NextStepOfCpu | ossim_source_code/src/os.c:55-100 | between two successive steps of a CPU exactly one slot passes if the first ends its slot, and none otherwise |
| SimulatorSlots.NextStepOfLoader | ossim_source_code/src/os.c:121-139 | the loader lets exactly one slot pass after an addition and each time it has to wait, and none otherwise |
| SimulatorSlots.InstructionsInLaterSlots | ossim_source_code/src/os.c:97-99 | successive instructions of a process, on whatever CPUs, run in strictly later slots |
| SimulatorSlices.InSliceStep | ossim_source_code/src/os.c:65-94 | a process in its slice stays in it, without another dispatch, until it is put back or over |
| SimulatorSlices.SlicesStartFromQueue | ossim_source_code/src/os.c:72-94 | between two dispatches of a process, on whatever CPUs, it was back in the ready queue |
| SimulatorLiveness.EveryStepCounts | ossim_source_code/src/os.c:49-146 | every step of any thread but the tick leaves less to do in the slot |
| SimulatorLiveness.SlotIsBounded | ossim_source_code/src/os.c:49-146 | while the clock shows the same slot all threads together take at most a stated number of steps, so the clock goes on until every thread has ended |
| SimulatorDeadline.TodoShrinks | ossim_source_code/src/os.c:49-146 | no step of any thread gives any process more to do |
| SimulatorDeadline.CpuGoesOn | ossim_source_code/src/os.c:55-100 | in a slot in which nothing got done so far some CPU still serves, after every CPU step by which nothing gets done |
| SimulatorDeadline.NobodyServesAtTick | ossim_source_code/src/timer.c:29-45 | at the tick no CPU is still to serve in the slot that ends |
| SimulatorDeadline.GoingTick | ossim_source_code/src/os.c:55-100 | each slot that ends before all is over has got something done: an instruction, a first dispatch or an end |
| SimulatorDeadline.WorkGetsDone | ossim_source_code/src/os.c:55-100 | after loading, what is left to do shrinks by at least one with every slot until all is over |
| SimulatorDeadline.LoadedByThen | ossim_source_code/src/os.c:116-140 | past the slot of the last addition, loading is over |
| SimulatorDeadline.EveryProcessMeetsDeadline | ossim_source_code/src/os.c:49-146 | with at least one CPU, in every run: once the clock is past the slot of the last addition plus one slot per instruction and two per process, every process has finished or was lost to a full level; with levels that fit, every one has finished |
| SimulatorTheorems.AlwaysStrictPriority | ossim_source_code/src/sched.c:50-80 | in every reachable state the scan position is 0, so `get_proc` serves the lowest non-empty level by stable maximum and fails only when all are empty |
| SimulatorTheorems.LoaderTiming | ossim_source_code/src/os.c:116-140 | process k is added in slot a(k), a(0) its start time and a(k) the later of its start time and a(k-1)+1, in every interleaving |
| SimulatorTheorems.BusyThreadMoves | ossim_source_code/src/os.c:55-140 | a thread outside `next_slot` always has a next step |
| SimulatorTheorems.NeverStuck | ossim_source_code/src/os.c:49-146 | until the timer, the loader and all CPUs have ended some thread can take a step of its own |
| SimulatorStopping.NothingToGet | ossim_source_code/src/os.c:57-78 | once every process is over no CPU holds one and `get_proc` finds none |
| SimulatorStopping.IdleStep | ossim_source_code/src/os.c:57-64 | then no step of any thread takes an idle CPU out of the head of its loop |
| SimulatorStopping.EndingStep | ossim_source_code/src/os.c:80-84 | then, with `done` set, each own step of a CPU past the head of its loop brings it one step nearer to its end, and no other step changes that |
| SimulatorStopping.EndingPlay | ossim_source_code/src/os.c:69-101 | over every continuation the own steps such a CPU took and those it still needs add up to the number it needed at first, and until it has stopped it can move |
| SimulatorStopping.OwnWayOut | ossim_source_code/src/os.c:69-101 | its own steps alone take it out of the loop |
| SimulatorStopping.CpuStopsIff | ossim_source_code/src/os.c:57-101 | with every process over and `done` set, a CPU can stop if and only if it is not idle at the head of its loop, and then it stops in every continuation, with its second own step at the latest |
| SimulatorStopping.NeverEndingRun | ossim_source_code/src/os.c:60-64 | a run that meets the hypotheses: with no process configured `done` is set in one step and CPU 0 never stops |
| Bits.GenMaskValue | ossim_source_code/include/bitops.h:27-28 | GENMASK(h,l) is 2^(h+1) - 2^l for all l <= h < 32 |
| Bits.AndMask | ossim_source_code/include/mm.h:78 | masking with GENMASK(h,l) keeps exactly bits l to h |
| Bits.AndNotMask | ossim_source_code/include/mm.h:77 | masking with the complement clears exactly bits l to h |
| Bits.GetValMeaning | ossim_source_code/include/mm.h:78 | GETVAL is the number in bits l to h |
| Bits.SetValMeaning | ossim_source_code/include/mm.h:77 | SETVAL replaces bits l to h by the value modulo the field width |
| Bits.ReplacedParts | ossim_source_code/include/mm.h:77-78 | replacing a field leaves the bits above and below it as they were, and the field reads back |
| Bits.OtherField | ossim_source_code/include/mm.h:77-78 | a field beside the replaced one reads as before |
| Bits.SetBitMeaning | ossim_source_code/include/mm.h:74 | SETBIT with BIT(k) sets bit k and nothing else |
| Bits.ClrBitMeaning | ossim_source_code/include/mm.h:75 | CLRBIT with BIT(k) clears bit k and nothing else |
| Bits.NBitsLog2 | ossim_source_code/include/bitops.h:30-35 | NBITS(n) is floor(log2 n) for every 32-bit n > 0 |
| PageEntry.MaskValues | ossim_source_code/include/mm.h:21-22 | the two flag masks are BIT(31) and BIT(30) |
| PageEntry.OffsetBits | ossim_source_code/include/mm.h:57-66 | the page number and the frame number start at bit NBITS(256) = 8 |
| PageEntry.BitMeaning | ossim_source_code/include/mm.h:21-30 | testing against BIT(k) is testing bit k |
| PageEntry.SetValField | ossim_source_code/include/mm.h:77-78 | GETVAL after SETVAL is the value modulo the width, and any disjoint field is unchanged |
| PageEntry.SetFpnMeaning | ossim_source_code/src/mm.c:72-80 | the entry is present and not swapped whatever it was, holds the frame modulo 2^13 — the frame itself if and only if below 8192 — and keeps bits 13 to 29 |
| PageEntry.SetSwapMeaning | ossim_source_code/src/mm.c:56-65 | the entry is present and swapped, holds type modulo 2^5 and offset modulo 2^21, and keeps bits 26 to 29 |
| PageEntry.OffstMeaning | ossim_source_code/include/mm.h:88 | the offset is the address modulo 256 |
| PageEntry.PgnMeaning | ossim_source_code/include/mm.h:90 | the page number is the address divided by 256, modulo 16384 |
| PageEntry.AddressSplit | ossim_source_code/include/mm.h:57-90 | page number * 256 + offset is the address modulo 2^22 |
| PageEntry.PhyAddrMeaning | ossim_source_code/src/mm-vm.c:257 | the physical address is frame * 256 + offset |
| MemPhy.Device.constructor | ossim_source_code/src/mm-memphy.c:218-231 | a new device has its bytes and the frames 0 to size/256-1 free, in order |
| MemPhy.Device.Format | ossim_source_code/src/mm-memphy.c:113-139 | the list built by linking holds every frame number once, in order; too small a device is refused unchanged |
| MemPhy.Device.GetFreeFp | ossim_source_code/src/mm-memphy.c:141-165 | the first free frame is taken off, or the call fails and changes nothing |
| MemPhy.Device.PutFreeFp | ossim_source_code/src/mm-memphy.c:201-212 | the frame becomes the first free one |
| MemPhy.Device.Read | ossim_source_code/src/mm-memphy.c:56-67 | the stored byte |
| MemPhy.Device.Write | ossim_source_code/src/mm-memphy.c:96-107 | one byte changes |
| MemPhy.SwapCpPage | ossim_source_code/src/mm.c:237-257 | byte by byte, the destination page becomes the source page as it was at entry and no other byte changes, also on one and the same device; negative frames are refused |
| MemPhy.WithFrameAt | ossim_source_code/src/mm.c:246-254 | byte by byte, what overwriting a frame with a frame of another device gives |
| Paging.MappedEntry | ossim_source_code/src/mm.c:175 | the entry written when a page is mapped is online with the frame modulo 2^13 |
| Paging.AllocEntries | ossim_source_code/src/mm.c:142-187 | entry by entry: the n-th page not present takes the n-th free frame, as far as they reach, and every other entry is as before |
| Paging.AllocOkIff | ossim_source_code/src/mm.c:142-187 | success exactly when the free frames suffice for the pages not present; a failed call has used them all up |
| Paging.AllocPresentIff | ossim_source_code/src/mm.c:142-187 | success exactly when afterwards every page asked for is present |
| Paging.FramesTaken | ossim_source_code/src/mm.c:164-172 | the frames taken, latest first, and those still free are the frames that were free |
| Paging.EmptyFifoOk | ossim_source_code/src/mm.c:280-289 | a new process has no resident page and an empty FIFO |
| Paging.AllocFifoOk | ossim_source_code/src/mm.c:142-187 | mapping keeps the FIFO equal, without duplicates, to the set of online pages, also when it fails part-way |
| Paging.FaultFifoOk | ossim_source_code/src/mm-vm.c:197-237 | so does every page access that succeeds |
| Paging.AccessKeepsFifoIff | ossim_source_code/src/mm-vm.c:197-237 | an access keeps that invariant if and only if the page is present, or nothing is resident, or the swap has a free frame |
| Paging.FullSwapExample | ossim_source_code/src/mm-vm.c:205-214 | one resident page, another one touched with the swap full: the victim is off the list but still online |
| Residency.AllocPushes | ossim_source_code/src/mm.c:142-187 | the pages mapped by a call stand in front of the FIFO, latest first |
| Residency.FirstInFirstOut | ossim_source_code/src/mm-vm.c:197-237 | over every run of mapping calls and successful accesses the victims so far are the oldest arrivals, in arrival order, and the residents are the rest |
| Frames.FormattedOk | ossim_source_code/src/mm-memphy.c:113-139 | after formatting every frame is free exactly once |
| Frames.GivenOk | ossim_source_code/src/mm.c:153-182 | handing one frame to one page of one process loses and shares no frame |
| Frames.AllocLoopOk | ossim_source_code/src/mm.c:142-187 | the whole mapping loop, also one that fails part-way, keeps the free frames distinct and unused and loses none |
| Frames.FramesConserved | ossim_source_code/src/mm.c:142-187 | after any calls by any number of processes, failed ones included, free and mapped frames together are exactly 0 to numfp-1 and none is used twice |
| Frames.LargerDeviceShares | ossim_source_code/src/mm.c:72-80 | with more than 8192 frames one call makes two pages share frame 0 |
| Frames.NeverSharedIff | ossim_source_code/src/mm.c:142-187 | no run of calls makes two pages share a frame if and only if the device has at most 8192 frames |
| Faults.FaultBacks | ossim_source_code/src/mm-vm.c:219-225 | after a fault the victim is offline, the new page sits in the frame numbered like the victim modulo 2^13, and every other page where it was |
| Faults.AccessEntries | ossim_source_code/src/mm-vm.c:197-233 | entry by entry: a fault writes the first free swap frame and type 0 into the victim's entry and the victim's page number into the new one, and no access changes any other entry |
| Faults.AccessOutcome | ossim_source_code/src/mm-vm.c:201-233 | an access succeeds exactly when the page is present or there are a victim and a swap frame, and takes the first free swap frame exactly when it evicts |
| Faults.FaultSharesIff | ossim_source_code/src/mm-vm.c:217-225 | a fault keeps frames unshared if and only if no page but the victim sits in the frame numbered like the victim |
| Faults.FaultUsableIff | ossim_source_code/src/mm-vm.c:197-237 | a fault leaves distinct in-range frames, none of them listed free, if and only if the frame numbered like the victim exists, is not listed free and backs no other page |
| Faults.FaultConservesIff | ossim_source_code/src/mm-vm.c:197-237 | with no frame lost before, a fault loses and shares none if and only if the victim sits in the frame numbered like itself |
| Faults.SharedFrameExample | ossim_source_code/src/mm-vm.c:217-225 | two processes with one page each: the first fault of the second one makes it share frame 0 with the first |
| SwapSpace.MapSwapped | ossim_source_code/src/mm.c:147-182 | mapping changes no swapped entry |
| SwapSpace.TouchSwapped | ossim_source_code/src/mm-vm.c:204-225 | a fault swaps out the victim to the first free swap frame and takes no page back |
| SwapSpace.SwapConserved | ossim_source_code/src/mm-vm.c:197-237 | over every run of mappings and accesses, failed ones included, of any number of processes on a swap device of at most 2^21 frames: swapped pages name distinct frames, none of them free, and free and named frames are exactly 0 to n-1 |
| SwapSpace.NeverSwappedIn | ossim_source_code/src/mm-vm.c:199-201 | a page once swapped out names the same swap frame in every later state |
| AddressSpace.MemoryMap.constructor | ossim_source_code/src/mm.c:264-289 | zeroed page table and empty FIFO |
| AddressSpace.MemoryMap.EnlistPgnNode | ossim_source_code/src/mm.c:342-351 | the page goes in front of the FIFO |
| AddressSpace.MemoryMap.MapOne | ossim_source_code/src/mm.c:153-182 | one page takes the first free frame, or the call fails with nothing changed |
| AddressSpace.MemoryMap.AllocPagesRange | ossim_source_code/src/mm.c:142-187 | page table, FIFO, free list and frame list after the loop are those of its specification, on failure as well |
| AddressSpace.MemoryMap.FindVictimPage | ossim_source_code/src/mm-vm.c:516-548 | the walk unlinks the last page of the list and reports it; an empty list is refused |
| AddressSpace.MemoryMap.Exchange | ossim_source_code/src/mm-vm.c:219-225 | the two entries of a fault are rewritten and no other |
| AddressSpace.MemoryMap.Evict | ossim_source_code/src/mm-vm.c:204-215 | the victim leaves the FIFO even when no swap frame is left |
| AddressSpace.MemoryMap.Replace | ossim_source_code/src/mm-vm.c:217-230 | the RAM frame numbered like the victim page is copied out, both entries change and the new page is first in the FIFO |
| AddressSpace.MemoryMap.FaultIn | ossim_source_code/src/mm-vm.c:201-231 | the fault as a whole: table, FIFO, swap frames and swap bytes, on success and on failure |
| AddressSpace.MemoryMap.PgGetPage | ossim_source_code/src/mm-vm.c:197-237 | the frame number in the page's entry, after a fault if the page was not present |
| AddressSpace.MemoryMap.PgGetVal | ossim_source_code/src/mm-vm.c:245-267 | the RAM byte at the translated address |
| AddressSpace.MemoryMap.PgSetVal | ossim_source_code/src/mm-vm.c:275-298 | the RAM byte at the translated address changes and no other |
| FlatMemory.CellMeaning | ossim_source_code/include/mm.h:88-90 | two addresses that agree in their 22 low bits have the same page and offset, and those name the cell |
| FlatMemory.PlaceInjective | ossim_source_code/src/mm-vm.c:245-257 | online addresses of any processes share a RAM byte if and only if they are the same cell of the same process |
| FlatMemory.PlaceInRam | ossim_source_code/src/mm-vm.c:257-259 | an online address translates to a byte inside RAM |
| FlatMemory.WriteThenRead | ossim_source_code/src/mm-vm.c:245-298 | after a write every online address reads as before, except the aliases of the written cell in that process, which read the byte |
| FlatMemory.AllocKeepsPresent | ossim_source_code/src/mm.c:148-151 | mapping more pages leaves entries already present alone |
| FlatMemory.MapKeepsPlaces | ossim_source_code/src/mm.c:142-187 | a mapping call by any process moves no online byte of any process |
| Faults.AllocFifoSound | ossim_source_code/src/mm.c:142-187 | mapping keeps every page of the FIFO online and listed once |
| Faults.TouchFifoSound | ossim_source_code/src/mm-vm.c:197-237 | so does every access, failed ones included |
| FlatMemory.TouchKeepsPlaces | ossim_source_code/src/mm-vm.c:197-237 | an access by any process moves no online byte of any process, apart from the victim's page, which goes offline |
| FlatMemory.HarmfulFaultAliases | ossim_source_code/src/mm-vm.c:217-225 | a fault that takes a frame in use makes each byte of the new page an alias of the other page's byte |
| FlatMemory.RunInv | ossim_source_code/src/mm-vm.c:245-298 | over every run of mapping calls, accesses whose faults are harmless, and writes the RAM agrees with one flat byte map per process |
| FlatMemory.ReadsLastWrite | ossim_source_code/src/mm-vm.c:245-298 | in every state of every such run an address written since its page came in reads the last byte written to its cell by its process |
| FlatMemory.StoredByteStays | ossim_source_code/src/mm-vm.c:245-298 | a byte once written is read back in every later state until its cell is written again or its page is evicted, whatever all processes do in between |
| Regions.AfterHit | ossim_source_code/src/mm-vm.c:571-602 | each hit takes exactly the asked bytes off the list, whichever of the three edits is made |
| Regions.HitChangesNothing | ossim_source_code/src/mm-vm.c:571-602 | a hit changes neither what is left over in the end nor which piece is returned in the end |
| Regions.SearchMeaning | ossim_source_code/src/mm-vm.c:569-607 | on a list of one area the loop, which does not stop at a hit, leaves each region its last (length mod size) bytes and returns the last piece of the last region that fits |
| Regions.SearchFailsIff | ossim_source_code/src/mm-vm.c:569-612 | the search fails if and only if no region fits, and then leaves the list as it was |
| Regions.FoundInside | ossim_source_code/src/mm-vm.c:573-574 | a region found has the asked size and lies inside one region of the list |
| Regions.SearchBytes | ossim_source_code/src/mm-vm.c:569-607 | the list loses every whole piece of every region, while the caller gets one |
| Regions.TakesExactlySizeIff | ossim_source_code/src/mm-vm.c:569-607 | the free total drops by exactly the asked size if and only if the list had room for exactly one such piece |
| Regions.FirstFitBytes | ossim_source_code/src/mm-vm.c:569-607 | with the loop ending at the first hit it would always drop by exactly the asked size |
| Regions.LostBytesExample | ossim_source_code/src/mm-vm.c:569-607 | thirty free bytes and one request for ten: none are left |
| Regions.ForeignExample | ossim_source_code/src/mm-vm.c:584-595 | a node used up keeps its own area when it takes over the bounds of a next node of another area |
| RegionRuns.SearchCover | ossim_source_code/src/mm-vm.c:569-607 | what a search leaves and the piece it returns cover no byte more often than the list did, whatever areas its nodes belong to |
| RegionRuns.AllocCover | ossim_source_code/src/mm-vm.c:80-101 | an allocation covers no byte by more regions, free and symbol together, than before |
| RegionRuns.ReleaseCover | ossim_source_code/src/mm-vm.c:125-151 | a release covers every byte as often as before |
| RegionRuns.RunCover | ossim_source_code/src/mm-vm.c:80-151 | no run covers a byte more often than at the start, so bytes handed out come from the initial free list |
| RegionRuns.RunDisjoint | ossim_source_code/src/mm-vm.c:80-151 | the free regions of both areas and all symbol regions, pairwise disjoint at the start, stay so over every run of allocations and releases in both areas |
| RegionRuns.HeapNeverServed | ossim_source_code/src/mm.c:308-309 | the region `init_mm` puts in area 1's list is marked as area 0's, so over every run no request for area 1 is served from the list |
| RegionRuns.AllocServedIff | ossim_source_code/src/mm-vm.c:94-101 | a request in area 0 is served exactly when some listed region is large enough; the symbol then holds that many bytes of one listed region, and nothing else changes in the table |
| RegionRuns.AllocMarks | ossim_source_code/src/mm-vm.c:86-100 | in either area a served request marks its symbol with the area and the asked size |
| RegionRuns.ReleaseMoves | ossim_source_code/src/mm-vm.c:125-151 | a release puts the region, area and bounds unchanged, in front of area 0's list, unless it is empty, and marks the symbol |
| RegionRuns.InitDataOnly | ossim_source_code/src/mm.c:298-309 | the initial state has area 0's regions only, pairwise disjoint |
| RegionRuns.RunDataOnly | ossim_source_code/src/mm-vm.c:80-151 | over every run from such a state area 0's list and the symbols stay area 0's |
| RegionRuns.ReleaseThenAlloc | ossim_source_code/src/mm-vm.c:80-151 | round trip: after any run a variable of n bytes can be given back, and a request for n bytes is then served at once with n bytes inside one listed region |
| RegionRuns.GivenBackMeaning | ossim_source_code/src/mm-vm.c:125-151 | over every run a symbol is marked gone exactly when the last effective operation on it was a release |
| RegionRuns.ReleaseRefusedIff | ossim_source_code/src/mm-vm.c:125-137 | over every run a release is refused, with nothing changed, if and only if the id is no symbol or was already given back |
| RegionList.FreeList.constructor | ossim_source_code/src/mm.c:298-299 | one empty free region of area 0 |
| RegionList.RegionMap.constructor | ossim_source_code/src/mm.c:298-309 | both areas with one empty free region each and a table of empty symbols, pairwise disjoint |
| RegionList.FreeList.Cut | ossim_source_code/src/mm-vm.c:577-580 | the node keeps the rest of its region |
| RegionList.FreeList.Unlink | ossim_source_code/src/mm-vm.c:592-594 | exactly the next node leaves the list |
| RegionList.FreeList.CloneNext | ossim_source_code/src/mm-vm.c:584-595 | a used-up node takes over the next node's bounds and the next node leaves the list |
| RegionList.FreeList.Empty | ossim_source_code/src/mm-vm.c:596-600 | the last node used up stays as an empty region |
| RegionList.FreeList.Hit | ossim_source_code/src/mm-vm.c:571-602 | the in-place edits together do to the list what the specification of a hit says |
| RegionList.FreeList.GetFreeVmrgArea | ossim_source_code/src/mm-vm.c:556-613 | the loop over the linked list terminates with the list and the result of the search specification |
| RegionList.RegionMap.SearchArea | ossim_source_code/src/mm-vm.c:38-57 | the search changes the asked area's list only |
| RegionList.RegionMap.AllocFromFree | ossim_source_code/src/mm-vm.c:80-101 | symbol table, free list and address after a request the free list can serve; refused sizes and failed searches change nothing in the table |
| RegionList.FreeList.Enlist | ossim_source_code/src/mm-vm.c:17-31 | a non-empty region goes in front of the list, an empty one nowhere |
| RegionList.RegionMap.Free | ossim_source_code/src/mm-vm.c:125-151 | symbol table, free list and result of a release, also when it is refused |
| Variables.AddressesFollow | ossim_source_code/src/mm-vm.c:308-366 | offset 0 of a variable just allocated is the address its symbol holds, offset k the k-th byte behind it, and exactly the offsets below its size lie inside |
| Variables.DistinctCells | ossim_source_code/src/mm-vm.c:308-366 | byte offsets inside two variables of a process name the same cell if and only if variable and offset are the same |
| Variables.VariablesDoNotInterfere | ossim_source_code/src/mm-vm.c:308-366 | after any runs of allocations and releases, a byte written inside a variable reads back there and changes no byte inside any other variable of the same or any other process |

## Left out

- SimulatorTheorems.NothingLost: the condition of ten per level is sufficient; with late enough arrivals more can share a level without ever queueing at once. The exact condition is given per call and for runs of additions only.
- SimulatorTheorems.NoStrandedProcess: speaks of states in which every CPU has stopped; that all CPUs stop is false; SimulatorStopping.CpuStopsIff says which do. That all processes end is SimulatorDeadline.EveryProcessMeetsDeadline.
- FlatMemory.ReadsLastWrite: a fault in a run must be harmless in the sense of Faults.FaultUsableIff, which is exact; the cells of an evicted page are forgotten, since the code never reads back from swap. Writes go to online pages: the frame bits of a swapped entry hold swap data.
- FlatMemory.RunInv: the same runs.
- SimulatorLiveness.SlotIsBounded: wake-ups without a signal are not counted as steps; a run may contain any number of them elsewhere.
- SwapSpace.SwapConserved: at most 2^21 swap frames, since an entry has 21 bits for the offset.
- Residency.FirstInFirstOut: runs contain successful accesses only; after one that fails on a full swap the invariant is broken, as Paging.AccessKeepsFifoIff says.
- RegionList.RegionMap.AllocFromFree: a failed search ends the call; `__alloc` would then enlarge the area, through `inc_vma_limit`, which dereferences the null pointer it is passed.
- RegionList.FreeList.Enlist: the new node is a heap copy of the region; the code links the address of a parameter, which is gone after the call.
- AddressSpace.MemoryMap.Replace: requires the frames it touches to lie inside the devices; the code indexes the storage unchecked, so outside them it has no defined behaviour to model.
- AddressSpace.MemoryMap.FaultIn: requires the frames it touches to lie inside the devices; the code indexes the storage unchecked, so outside them it has no defined behaviour to model.
- AddressSpace.MemoryMap.PgGetPage: requires the frames it touches to lie inside the devices; the code indexes the storage unchecked, so outside them it has no defined behaviour to model.
- AddressSpace.MemoryMap.PgGetVal: requires the frames it touches to lie inside the devices; the code indexes the storage unchecked, so outside them it has no defined behaviour to model.
- AddressSpace.MemoryMap.PgSetVal: requires the frames it touches to lie inside the devices; the code indexes the storage unchecked, so outside them it has no defined behaviour to model.
- MemPhy.Device.constructor: the flag for random access is always set, as the simulator's start-up sets it (os.c:236-247), and the cursor of sequential mode is not part of this model.
- MemPhy.Device.Write: random-access mode and addresses inside the device, as for reading.
- MemPhy.Device.Read: random-access mode and addresses inside the device; sequential mode always refuses when reached from here, and MEMPHY_mv_csr is not part of this model.
- Parsing of configuration and programs, printing and dumps: input and output only.
- The effect of instructions other than stepping the program counter: the scheduling half needs no more of `run`.
- `mem.c` and `paging.c`: marked obsolete.
- `vm_map_ram` and `vmap_page_range`: at a start page other than 0 they map frames a second time.
- Variables.VariablesDoNotInterfere: the offset lies inside the variable and the page is online; `__read` and `__write` check neither bounds nor the result of the byte access.
- The growth of areas (`inc_vma_limit` and what it calls): see the expansion path above.
- Swap-in and the freeing of a process's frames: the first does not exist, the second tests the present bit the wrong way round.
- Several threads inside the paging code: its locks are static in a header, one copy per file, so it is modelled as sequential.
- Region bounds near 2^64: addresses are unbounded numbers here.
- Uninitialised fields (the tail of a one-frame free list, the symbol table, the FIFO head, the list head of area 0): taken as empty.
- Failing `malloc`, and freeing of memory: unlinked nodes are simply no longer in their list.
- A `prio` outside 0 to 139 in the configuration: the code indexes out of range.
- Building the device list in `attach_event` and dismantling it in `stop_timer`: the model starts with all devices attached and keeps the list fixed.
- `queue_empty` and the branches without multi-level scheduling: unused or compiled out.
- PAGING_PAGE_ALIGNSZ and the 64-bit bit macros: only used by the parts left out.
