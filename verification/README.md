# A model of the Simplos kernel

Simplos is a small preemptive multitasking kernel for the ATmega2560. This
project models its three stateful parts and proves what they keep:

* the **context switch**, instruction by instruction: 32 registers, SREG, a
  3-byte program counter, SP and 64 KiB of byte-addressed data memory, with the
  macros of `hal/context_switch_macros.hpp` as AVR programs;
* the **kernel**: task slots, run queue, priorities, pids, the scheduler's loop
  and the checks that halt the machine;
* the **log**: NUL-terminated strings packed into a buffer.

The first two are joined into one machine (`System`), whose events are user
steps, priority changes, timer and yield switches, spawns, kills, the start of
the scheduler, scheduler passes, and timer strikes inside a switch and inside the
scheduler's masking. The central result is a refinement over all
runs from boot: that machine, with one shared memory, stack frames inside the
tasks' blocks, four global words and a precomputed queue, behaves like
`PrivateContexts`, in which every task owns a context that nobody else can touch
and the next task is the best one that has not run this round. The theorems
about single tasks, the scheduler, waiting, pids and progress follow from it.

## Layout of the project

| file | contents |
|---|---|
| `Wrappers`, `Layout` | results; the SRAM map and the stack-pointer checks |
| `Avr`, `ContextSwitch`, `Switch`, `ReturnPoint` | the instruction set, the macros as programs, the whole switch and its frame, the planted return address |
| `Strikes` | the timer inside a switch: at which instruction boundaries it can strike, what overlapping frames leave behind |
| `FrameLayout` | the switch and the planted frame in plain addresses and bytes |
| `Processor` | the processor as an object updated in place, executing those programs |
| `Priority`, `KernelModel`, `KernelInvariant` | the queue order, the kernel operations as functions, what they keep |
| `KernelObject` | the kernel as an object with the source's loops, each method proved to compute its function |
| `System`, `PrivateContexts` | the whole machine; the machine it is meant to be |
| `Refinement`, `Squares`, `SchedulerSquare`, `Runs` | the mapping between the two, one commuting square per event, whole runs |
| `Contexts`, `Handshake`, `Windows`, `Fairness`, `Pids`, `Progress` | consequences over runs |
| `Launches` | what start-up, spawn_task and start_scheduler leave, in numbers |
| `Witnesses` | runs from boot that reach user code and every failure |
| `Log` | the log |

A failed `ASSERT` or `FATAL_ERROR` is the absorbing mode `Halted`, with its
reason. `dafny verify dfyconfig.toml` checks everything.
`FrameLayout`, `Launches` and the clauses of `KernelObject`, `Log` and `Layout` that
are written in numbers and fields say what each operation does without the functions
that the refinement is built on.

## What the proofs show about the code

Most of what the code is meant to do holds as meant. Where it does not, the
model keeps the code's behaviour, a lemma says exactly when it fails, and `Witnesses`
has a run from boot on which it does.

* A resumed task gets back its registers, PC, SP and live stack, but not all of
  SREG: the `ori` that re-enables the timer runs after SREG was restored and
  overwrites S, V, N and Z (`Contexts.TaskFindsItsContext` gives the exact
  condition under which nothing is lost).
* The return-address check copies SREG, r0 and the most significant PC byte. Its
  mask test is right; its test for zero turns down good contexts whose SREG, r0
  and top PC byte are all 0 (`SchedulerSquare.ReturnCheckExact`), and the next pass
  after such a task was switched out halts (`Handshake.ReturnAddressHalts`,
  `Handshake.GoodTaskTurnedDown`).
* Once the scheduler has started there are three places where a timer strike does
  harm, and no others (`Windows.ArmedBoundaries`, `Windows.UserSwitchAtomic`, `Windows.ReentryAtomic`, `Windows.PassAtomic`):
  * in the first switch into the scheduler. `start_scheduler` saves its frame with
    interrupts on, so `CONTEXT_SWTICH` has them on again when it unmasks the timer,
    before it has returned (`Windows.FirstEntryOnly`). The scheduler then resumes
    with its registers shifted by three or four bytes and the task's SP is lost
    (`Windows.TimerInsideSwitch`);
  * between the scheduler's resume point and the PUSH of its masking: the
    interrupted task's context is lost and the next pass halts unless that task had
    ended (`Handshake.TimerAtSchedulerEntry`);
  * behind that PUSH: registers, SREG and program counter come back shifted by one
    byte, and the processor goes on at a meaningless address
    (`Windows.TimerInsideMasking`).
  After the first and the third the machine counts as derailed, and nothing is
  claimed about what follows.
* `task_status` can be trusted for the first 65536 creations and no longer: from
  then on every spawn makes an old pid alive again (`Pids.StatusExact`,
  `Pids.StatusRevives`, `Pids.PidsWrap`).
* A stack overflow at a switch is noticed by the next pass before any other task
  runs, unless it has hit the scheduler's own frame in the block below
  (`Handshake.OverflowHalts`, `Handshake.OverflowReaches`).
* `contains_entry_starting_with` never finds prefixes of 50 or more characters
  (`Log.LongPrefixIsMissed`), and `contains_entry("")` depends on a stale byte.
* Some comments disagree with the code, and the model follows the code: in
  `SET_RETURN_POINT` the byte marked as most significant is the least
  significant; `RESET_TIMER` stores to data addresses 0x65 and 0x64, since
  `sts` takes the register's data address and `CLEAR_IO_REG` subtracts 0x20; the
  queue is announced in decreasing order of priority but written ascending and
  consumed from its end; the OS stack is documented up to 0x34F but tested up to
  0x3FF, so stack pointers 0x350 to 0x3FF of block 0 are refused.

## Model

| member | source | states |
|---|---|---|
| Layout.BoundsAgree | simplos/src/memory.cpp:41-58 | for every block number b the two range functions give 848+649b and 1496+649b, and are fatal exactly from 5 on |
| Layout.BlocksTileTaskRam | simplos/src/memory_layout.hpp:14-32 | for all 16-bit layouts with at least one task every block is non-empty, contiguous with the next and inside task RAM, and 1 to n bytes stay unused |
| Layout.BlocksDisjoint | simplos/src/memory_layout.hpp:14-32 | no two blocks share a byte |
| Layout.RegionExact | simplos/src/memory.cpp:108-125 | memory_region for every address and every heap start, by its interval |
| Layout.PointerIntegrityExact | simplos/src/memory.cpp:60-125 | the integrity check accepts SP for block b iff the bytes 0x200 to 0x204 are all 0x66 and max(848+649b+36, 0x400) <= SP <= 1496+649b |
| Layout.FrameStaysInBlock | simplos/src/memory.cpp:60-98 | from an accepted SP a whole switch frame and the scratch byte below it lie in that block and in no other |
| Avr.SregRoundTrip | simplos/src/hal/context_switch_macros.hpp:74-75 | IN and OUT of SREG lose no flag |
| Avr.SregLayout | simplos/src/hal/context_switch_macros.hpp:74-75 | the number SREG reads as, with C in bit 0 up to I in bit 7 |
| Avr.RunAppend | simplos/src/hal/context_switch_macros.hpp:207-214 | macros placed one after another run one after another |
| ContextSwitch.SelectEffect | simplos/src/hal/context_switch_macros.hpp:123-148 | the scheduled task's SP is chosen if it is non-zero and the scheduler's otherwise; task_sp holds it and next_task_sp is cleared |
| ContextSwitch.RestoreEffect | simplos/src/hal/context_switch_macros.hpp:162-205 | after RESTORE_CONTEXT all registers, SREG and SP are those of the frame at task_sp |
| Switch.SaveThenRestoreIsIdentity | simplos/src/hal/context_switch_macros.hpp:71-205 | SAVE_CONTEXT then RESTORE_CONTEXT is the identity on r0-r31, SREG, SP and all memory but the 33 frame bytes and task_sp, for every SP from 33 on whose frame misses the word task_sp |
| Switch.FrameRoundTrip | simplos/src/simplos.hpp:41-46 | the 36 bytes of a frame read back to the context that was pushed: registers, SREG, PC and SP |
| Switch.SwitchEffect | simplos/src/hal/context_switch_macros.hpp:207-214 | CONTEXT_SWTICH for every SP from 0x226 to 0x20F9 and every chosen frame there, unless the SP it saves falls inside that frame: the old context becomes a frame, the chosen frame takes over, and every other byte but the listed ones is unchanged |
| Switch.SwitchedEffect | simplos/src/simplos.cpp:55-65 | the same, with room for 36 bytes, for k_yield with its call and return and for the timer interrupt with its hardware PC push, when no further interrupt comes in between; Strikes.AtomicExact says when none can |
| Strikes.SwitchIsAtomicExact | simplos/src/hal/context_switch_macros.hpp:51-214 | CONTEXT_SWTICH begun with interrupts off has an instruction boundary at which the timer can strike iff the frame it resumes has interrupts on |
| Strikes.AtomicExact | simplos/src/simplos.cpp:55-65 | the same for a whole switch by yield or timer, in terms of the resumed context |
| Strikes.WindowEffect | simplos/src/hal/context_switch_macros.hpp:51-59 | the machine at the last two boundaries, and that they are armed iff the resumed context has interrupts on |
| Strikes.EarlyUnarmed | simplos/src/hal/context_switch_macros.hpp:51-214 | whatever frame is resumed, no earlier boundary of CONTEXT_SWTICH is armed |
| Strikes.ArmedExact | simplos/src/hal/context_switch_macros.hpp:51-214 | the armed boundaries of a switch: exactly the last two if the resumed context has interrupts on, otherwise none |
| Strikes.OverlaidFrame | simplos/src/hal/context_switch_macros.hpp:71-214 | a strike d bytes short of a frame that is resumed again brings back the first d bytes of that frame followed by the new frame, and sets prev_task_sp d bytes below it |
| ReturnPoint.CarryPropagates | simplos/src/hal/context_switch_macros.hpp:22-26 | the byte-wise ADD/ADC chain is addition of 12 modulo 2^24 for every address |
| ReturnPoint.SumFlagsExact | simplos/src/hal/context_switch_macros.hpp:22-26 | the flags behind the chain in terms of the 24-bit sum: Z iff it is below 0x10000, N iff bit 23 is set, C, V and S of the whole sum, H the carry out of bit 19 |
| ReturnPoint.SetReturnPointEffect | simplos/src/hal/context_switch_macros.hpp:16-37 | the macro leaves A+12 on the stack, least significant byte highest, which is the word address of its own JMP, and the flags of that sum; normal order goes on behind it |
| ReturnPoint.SavedWithReturnPointEffect | simplos/src/simplos.cpp:109-112 | SET_RETURN_POINT and SAVE_CONTEXT leave a frame whose context resumes at that JMP with the flags of the sum |
| FrameLayout.SwitchInBytes | simplos/src/hal/context_switch_macros.hpp:71-214 | every switch between frames that lie apart, in addresses and bytes: which byte holds which register, SREG and PC byte of the old and the new context, whose frame is chosen from 0x20FC and 0x20FE, the words at 0x20FA and 0x2100, the cleared bytes 0x64 and 0x65, the mask at 0x6F, and that no other byte changes |
| FrameLayout.ReturnPointInBytes | simplos/src/simplos.cpp:107-111 | the frame of the planted return address in bytes: pc + 13 modulo 2^24, that address in r18:r17:r16, r19 clear, all other registers, and the flags of the sum |
| Processor.Atmega2560.Perform | simplos/src/hal/context_switch_macros.hpp:16-214 | executing a macro in place changes registers and memory as the program semantics says |
| Processor.Atmega2560.Yield | simplos/src/simplos.cpp:55-65 | k_yield on the object leaves the context as a frame and lets the chosen frame take over; for frames that lie apart, byte by byte |
| Processor.Atmega2560.TimerInterrupt | simplos/src/hal/atmega2560_hal.cpp:67-70 | so does the timer interrupt, in the same terms |
| Processor.Atmega2560.SaveAndRestore | simplos/src/hal/context_switch_macros.hpp:71-205 | saving and restoring in place leaves registers, SREG, SP and everything above SP but task_sp as they were, for the same stack pointers |
| Priority.PrioritizedExact | simplos/src/scheduler.cpp:34-46 | the queue holds a slot iff it is READY with priority at most 254, each once, ascending by priority, stable by slot; its length is their number |
| Priority.OrderedUnique | simplos/src/scheduler.cpp:34-46 | there is only one such queue |
| KernelInvariant.BestExact | simplos/src/scheduler.cpp:59-73 | the policy's choice is the candidate with the highest priority, ties to the highest slot |
| KernelInvariant.SelectExact | simplos/src/scheduler.cpp:20-73 | the precomputed queue selects what the policy selects among the slots not yet run this round, and fails iff there is no candidate |
| KernelInvariant.SetPriorityKeeps | simplos/src/os.cpp:56-60 | set_priority leaves the unconsumed queue right |
| KernelInvariant.SpawnExact | simplos/src/simplos.cpp:86-114 | spawn takes the lowest EMPTY slot, runs it, suspends the caller and alters no other slot; it fails iff no slot is EMPTY |
| KernelInvariant.PassKeeps | simplos/src/scheduler.cpp:99-115 | a pass hands the invariant over to user code with the policy's slot RUNNING; the fatal branches for an EMPTY or SCHEDULER next task are unreachable |
| KernelInvariant.NoTasksExact | simplos/src/scheduler.cpp:20-27 | once the previous task passed its checks, a pass finds no task iff every live task but the scheduler has priority exactly 255 |
| KernelObject.Kernel.PrioritizeTasks | simplos/src/scheduler.cpp:34-46 | the nested loops write exactly the READY slots of priority at most 254, ascending by priority and then by slot, return their number and leave later entries untouched; no index leaves the array |
| KernelObject.Kernel.Reschedule | simplos/src/scheduler.cpp:20-32 | the queue holds the READY slots of priority at most 254 up to the position set, or the machine halts iff there is none |
| KernelObject.Kernel.SelectNextTask | simplos/src/scheduler.cpp:59-73 | the position moves down by one on an unchanged queue or the queue is refilled; the word at 0x20FC is the stack pointer of the slot at the position |
| KernelObject.Kernel.HandlePreviousTask | simplos/src/scheduler.cpp:119-139 | a SCHEDULER task's stack pointer is taken from 0x20FE, a RUNNING one's from 0x20FA and it becomes READY, any other task stays; then it is checked, with the reason for a halt |
| KernelObject.Kernel.CheckReturnAddress | simplos/src/scheduler.cpp:140-161 | with a frame above SP the check passes iff its saved PC is below 2^17 and SREG, r0 and the top PC byte are not all 0, on the context and on the bytes SP+32 to SP+34 |
| KernelObject.Kernel.PrepareNextTask | simplos/src/scheduler.cpp:163-178 | the next task becomes RUNNING, or the machine halts with the reason; an EMPTY or SCHEDULER task never passes |
| KernelObject.Kernel.SchedulerPass | simplos/src/scheduler.cpp:88-116 | one turn of the loop up to its yield computes the pass function that the system model runs |
| KernelObject.Kernel.CheckPointer | simplos/src/memory.cpp:60-92 | the check on the object accepts exactly the pointers with room for a frame, in the same numbers |
| KernelObject.Kernel.VerifyCanaries | simplos/src/memory.cpp:99-106 | the loop passes iff each of the bytes 0x200 to 0x204 is 0x66 |
| KernelObject.Kernel.WriteCanaries | simplos/src/simplos.cpp:189-204 | the loop of init_memory writes 0x66 to 0x200 to 0x204 and to no other byte |
| KernelObject.Kernel.InitSchedule | simplos/src/simplos.cpp:17-53 | every slot is EMPTY with its own block and the top of its stack |
| KernelObject.Kernel.AddToTaskList | simplos/src/simplos.cpp:30-46 | the lowest EMPTY slot gets the priority, READY, pid 0xFFFF and the top of its stack, all others stay; the machine halts iff no slot is EMPTY |
| KernelObject.Kernel.CreateSimplosTask | simplos/src/simplos.cpp:141-152 | that slot RUNNING under the old pid counter, which goes up by one and wraps from 0xFFFF to 0 |
| KernelObject.Kernel.SpawnTask | simplos/src/simplos.cpp:86-119 | the kernel data of a spawn, in the order the source updates them: the new slot's fields, the caller READY with its saved stack pointer, all others as before |
| KernelObject.Kernel.KillCurrentTask | simplos/src/simplos.cpp:154-167 | the active slot is EMPTY with a reset stack pointer and the queue is invalid |
| KernelObject.Kernel.GetTask | simplos/src/simplos.cpp:169-179 | the least slot with the pid, EMPTY or not, and None iff no slot has it |
| KernelObject.Kernel.TaskStatus | simplos/src/simplos.cpp:181-187 | the status field of the least slot with the pid, EMPTY if no slot has it |
| KernelObject.Kernel.SetPriority | simplos/src/os.cpp:56-60 | only the active task's priority changes |
| KernelObject.Kernel.Pid | simplos/src/os.cpp:33-38 | the pid of the running task, under which get_task finds a slot |
| KernelObject.Kernel.Boot | simplos/src/main.cpp:40-49 | start-up makes slot 0 the running idle task with pid 0 |
| Refinement.UserCodeEntersScheduler | simplos/src/hal/context_switch_macros.hpp:123-148 | handshake: next_task_sp is 0 while user code runs, so its switch enters the scheduler and puts its context into its own block only |
| Refinement.UserStepRefines | simplos/src/main.cpp:51-58 | a user step inside its own block changes no other context |
| Refinement.ChangePriorityRefines | simplos/src/os.cpp:56-60 | set_priority is the abstract priority change |
| Squares.UserSwitchRefines | simplos/src/simplos.cpp:55-65 | a switch of user code suspends exactly the running context |
| Squares.KillRefines | simplos/src/simplos.cpp:154-167 | kill frees the slot and discards its context only |
| Squares.SpawnRefines | simplos/src/simplos.cpp:86-122 | spawn suspends the caller at its return point and starts the new task on an empty stack |
| Squares.StartRefines | simplos/src/scheduler.cpp:82-89 | start_scheduler leaves a resumable frame of the scheduler at scheduler_task_sp |
| Squares.TimerSquare | simplos/src/hal/atmega2560_hal.cpp:67-70 | the timer between the scheduler's resume point and its masking resumes the scheduler and loses the interrupted task's context |
| Squares.AdvanceRefines | simplos/src/scheduler.cpp:91-96 | the instructions before the masking change only the program counter |
| Squares.StrikeRefines | simplos/src/hal/atmega2560_hal.cpp:67-70 | a strike inside a switch or inside the masking derails both machines, and inside a switch it can happen only while the scheduler's context has interrupts on |
| SchedulerSquare.ReturnCheckExact | simplos/src/scheduler.cpp:140-161 | for every frame: the mask assertion passes iff the saved PC is below 2^17; the whole check iff also not SREG, r0 and the top PC byte are all 0 |
| Handshake.ReturnAddressHalts | simplos/src/scheduler.cpp:140-161 | after a user task was switched out the next pass halts on its return address iff its SP is acceptable and that check refuses its context |
| Handshake.GoodTaskTurnedDown | simplos/src/scheduler.cpp:144-160 | so it halts on every task below 64 Kwords with r0 and all flags but I clear |
| Handshake.PlantedIsAccepted | simplos/src/scheduler.cpp:140-161 | the return-address check accepts the context that SET_RETURN_POINT leaves iff its address is below 2^17 |
| Handshake.FirstPassAccepts | simplos/src/scheduler.cpp:82-117 | so the first pass never halts on start_scheduler's own return address |
| SchedulerSquare.SchedulerEntersTask | simplos/src/scheduler.cpp:70-115 | a selected stack pointer is never 0, so the scheduler's yield enters the selected task |
| SchedulerSquare.PassRefines | simplos/src/scheduler.cpp:88-116 | a pass checks, chooses and resumes as the abstract machine does, or both stop for the same reason |
| Runs.StepRefines | simplos/src/scheduler.cpp:82-117 | every event, timer strikes inside switches and masking included, keeps the invariant and is one abstract step |
| Runs.RunRefines | simplos/src/scheduler.cpp:82-117 | refinement over all runs |
| Runs.BootInv | simplos/src/main.cpp:20-58 | the invariant holds after boot whatever memory held before |
| Launches.BootInNumbers | simplos/src/main.cpp:33-55 | start-up field by field and byte by byte: SP 1496, the idle task, the EMPTY slots, canaries, next_task_sp 0, no other byte written |
| Launches.SpawnInNumbers | simplos/src/simplos.cpp:86-122 | spawn_task in numbers: the new slot and the caller's, SP at the top of the new stack, interrupts and timer mask on, the caller's frame in bytes |
| Launches.StartInNumbers | simplos/src/scheduler.cpp:82-92 | start_scheduler in numbers: SCHEDULER slot, scheduler_task_sp at 0x20FE, and the scheduler's frame in bytes |
| Runs.BootRefines | simplos/src/main.cpp:20-61 | every run from boot is a run of the machine with private contexts |
| Runs.UserCodeInvariant | simplos/src/scheduler.cpp:59-178 | in every reachable user state the active task alone is RUNNING, one slot is the scheduler's, none is SLEEPING, slot i owns block i, and the unconsumed queue holds distinct READY slots |
| Runs.EmptySlotsAreReset | simplos/src/simplos.cpp:17-28 | in every run from boot an EMPTY slot's stack pointer is the top of its own block, whether start-up, creation or kill left it there |
| Contexts.NextKeepsContext | simplos/src/hal/context_switch_macros.hpp:71-214 | a suspended context stays as it is until its task resumes from it or the machine loses it and halts |
| Contexts.TaskFindsItsContext | simplos/src/hal/context_switch_macros.hpp:51-214 | over any run, a resumed task finds its registers, PC, SP and live stack; SREG differs at most in S, V, N, Z, and is exact iff at the switch I is on, V and Z are off, and N and S equal bit 7 of TIMSK1 |
| Contexts.MaskIsConstant | simplos/src/hal/context_switch_macros.hpp:51-69 | once multitasking is on TIMSK1 is the same at every event until a halt |
| Contexts.SpawnerReturns | simplos/src/simplos.cpp:107-138 | a task that spawned goes on at the JMP of the macro with its stack and all registers but r16-r19 |
| Handshake.StepHandshake | simplos/src/hal/context_switch_macros.hpp:207-214 | which mode every event leads to, the only reasons for a halt, and next_task_sp 0 between events |
| Handshake.StrictAlternation | simplos/src/scheduler.cpp:88-116 | along every run entries into the scheduler and passes alternate strictly |
| Handshake.ResumePointSurvives | simplos/src/scheduler.cpp:88-90 | scheduler_task_sp, saved once, has room for a frame in the scheduler's block in every later state |
| Handshake.SchedulerFindsItsContext | simplos/src/scheduler.cpp:88-116 | the first pass leaves start_scheduler's frame intact, later yields land exactly at scheduler_task_sp: the scheduler resumes where it yielded |
| Handshake.TimerAtSchedulerEntry | simplos/src/hal/context_switch_macros.hpp:213-214 | timer strikes on the scheduler before the PUSH of its masking, any number of them, halt the next pass iff the previous task had not ended |
| Handshake.OverflowHalts | simplos/src/scheduler.cpp:119-139 | a task switched out with fewer than 36 free bytes makes the next pass halt on its stack pointer, if the overflow missed the scheduler's frame |
| Handshake.OverflowReaches | simplos/src/memory_layout.hpp:14-32 | it misses that frame unless the scheduler's block lies below and the saved SP falls into the frame |
| Windows.TimerInsideMasking | simplos/src/hal/context_switch_macros.hpp:61-69 | a strike behind that PUSH: the whole resumed context, in which registers, SREG and program counter are shifted by one byte, and the wrong prev_task_sp |
| Windows.BootSavedOff | simplos/src/hal/context_switch_macros.hpp:71-108 | in every run from boot all saved task contexts have interrupts off |
| Windows.SchedulerContextFlag | simplos/src/scheduler.cpp:82-117 | the scheduler's saved context has interrupts on iff start_scheduler saved it so and no second pass has happened |
| Windows.FirstEntryOnly | simplos/src/scheduler.cpp:82-117 | a strike inside a switch is possible iff start_scheduler saved its frame with interrupts on and user code enters the scheduler for the first time |
| Windows.UserSwitchAtomic | simplos/src/simplos.cpp:55-65 | a switch of user code is atomic iff the scheduler's context has interrupts off |
| Windows.ArmedBoundaries | simplos/src/simplos.cpp:55-65 | of all boundaries of such a switch exactly the last two are armed, and only while the scheduler's context has interrupts on |
| Windows.ReentryAtomic | simplos/src/hal/atmega2560_hal.cpp:67-70 | the switch that resumes the struck scheduler is atomic |
| Windows.PassAtomic | simplos/src/scheduler.cpp:115 | the scheduler's yield into a task is atomic in every state whose saved contexts have interrupts off |
| Windows.EveryPassAtomic | simplos/src/scheduler.cpp:115 | it is atomic in every run from boot |
| Windows.TimerInsideSwitch | simplos/src/hal/atmega2560_hal.cpp:67-70 | a strike inside the first switch into the scheduler: PC and SP are the scheduler's, all registers and SREG are shifted as stated, and prev_task_sp points below its frame |
| Fairness.SelectBringsCloser | simplos/src/scheduler.cpp:20-73 | every selection serves a schedulable slot or lowers its delay |
| Fairness.BoundedWaiting | simplos/src/scheduler.cpp:20-73 | without spawn and kill, from any reachable state, a waiting task of priority 0 to 254 runs within its delay: at most queue_position passes and one for each slot that the next reschedule can queue |
| Fairness.DelayAtMostSeven | simplos/src/scheduler.cpp:59-73 | that is at most 3 + 4 passes |
| Pids.SlotConservation | simplos/src/simplos.cpp:30-46 | in every run from boot the live slots are creations minus kills, at most five |
| Pids.StatusExact | simplos/src/simplos.cpp:169-187 | in the first 65536 creations task_status of an assigned pid is EMPTY iff its task was killed, across slot reuse and never-used slots |
| Pids.LiveIsFound | simplos/src/simplos.cpp:169-179 | in the first 65536 creations get_task finds every live task in its own slot |
| Pids.StatusInUserCode | simplos/src/simplos.cpp:181-187 | in every run from boot, within 65536 creations, user code reads RUNNING for its own pid, SCHEDULER for the scheduler's, READY for every other live pid and EMPTY for a killed one |
| Pids.EmptyForGood | simplos/src/simplos.cpp:181-187 | once EMPTY it stays EMPTY |
| Pids.WaitReturnsAfterTheEnd | simplos/src/os.cpp:62-66 | wait_for_task_finnish returns only after the task ended, even if others run between the look-up and the read |
| Pids.PidsWrap | simplos/src/simplos.cpp:146 | from creation 65537 on every spawn makes the status of an old pid non-EMPTY: creation n reuses pid (n-1) mod 65536 |
| Pids.StatusRevives | simplos/src/simplos.cpp:141-187 | for every state, event and pid: the status goes from EMPTY to alive iff a task is created with that pid, or in the one EMPTY slot that hid another live task with it |
| Pids.NothingShadowed | simplos/src/simplos.cpp:169-187 | in the first 65536 creations no live task is hidden |
| Progress.AlwaysATask | simplos/src/scheduler.cpp:20-27 | unless the idle task is ended or given priority 255, no run from boot halts for want of a task |
| Witnesses.UserCodeIsReached | simplos/src/main.cpp:40-58 | two events lead from every boot to user code under the scheduler |
| Witnesses.SwitchStrikeIsReached | simplos/src/hal/atmega2560_hal.cpp:67-70 | there the strike inside the first switch can happen, at both boundaries and any address |
| Witnesses.SchedulerStrikesAreReached | simplos/src/hal/atmega2560_hal.cpp:67-70 | one yield later both strikes on the scheduler can happen, and the pass after the first halts |
| Witnesses.LostFlagIsReached | simplos/src/hal/context_switch_macros.hpp:51-59 | a run from every boot in which a preempted task finds its Z flag cleared |
| Witnesses.TurnedDownIsReached | simplos/src/scheduler.cpp:144-160 | a run from every boot in which a good task is turned down |
| Witnesses.Cycles | simplos/src/simplos.cpp:86-167 | runs from every boot with any number of tasks spawned and ended |
| Witnesses.PidReuseIsReached | simplos/src/simplos.cpp:146 | a run from every boot in which the status of a killed task's pid turns from EMPTY to alive |
| Log.ParsePack | simplos/src/hal/log.cpp:28-44 | the packed bytes parse back to the entries |
| Log.PackUnique | simplos/src/hal/log.cpp:28-44 | and to no others |
| Log.Log.AddEntry | simplos/src/hal/log.cpp:10-44 | an entry is appended iff it has at most 99 characters and it and its terminator fit into the bytes remaining, which go down by as much; its bytes and NUL are stored at the old index and no other byte changes |
| Log.Log.Clear | simplos/src/hal/log.cpp:127-130 | no entries, index 0, the whole buffer unused |
| Log.Log.NumUnusedEntries | simplos/src/hal/log.cpp:123-125 | used plus unused bytes are the buffer |
| Log.Log.ContainsEntry | simplos/src/hal/log.cpp:46-80 | for a non-empty query: true iff it is an entry, whatever stale bytes follow; the empty query's special case |
| Log.Log.ContainsEntryStartingWith | simplos/src/hal/log.cpp:82-121 | true iff the query has 1 to 49 characters and some entry starts with it, whatever stale bytes follow |
| Log.Replay | simplos/src/hal/log.cpp:10-130 | under any calls the log holds the accepted messages since the last clear, and its bytes are the packed form of these alone |
| Log.LongPrefixIsMissed | simplos/src/hal/log.cpp:82-97 | an entry of 50 to 99 characters is found by contains_entry but not as a prefix of itself |

## Left out

- Assumptions about user code: a user step writes only inside its task's block, and a task that switches, spawns or ends has 36 free bytes below its stack pointer.
- Assumptions about compiled code: the scheduler's loop body and the C++ between the macros are arbitrary in registers, flags and PC but stack-balanced; the loop body writes only below its stack pointer and above the frame of start_scheduler in its own block. A spawn event starts from the machine as it is at the macro.
- What the code does after a derailing strike: its registers or its program counter are not its own, so the run ends there.
- Spawns, kills and yields before the scheduler has started: the idle function starts it first, and before that scheduler_task_sp is 0. `terminate`, which stops everything.
- Real time: the timer is an event that can happen at every instruction boundary of user code, of a switch and of the scheduler at which interrupts and its mask bit are on. As on the AVR, one more instruction follows SEI or RETI before an interrupt. A pass is atomic once the scheduler has masked the timer.
- start_scheduler is atomic with the spawn of its task, and the interrupt masking at the start of spawn, kill and start_scheduler is folded into them, since they end by setting the same bit again. A strike between the spawn and the masking would find scheduler_task_sp still 0.
- The masking around the loop of `get_task`: a user step never writes TIMSK1.
- What RESET_TIMER does to the hardware: the I/O registers are plain memory cells, and the model only says which bytes are written.
- The kernel's data structure and `main`'s stack are outside the modelled byte memory; kernel data are ordinary values, with task_RAM_ranges read as the constants they are initialised to.
- Heap location, its assertion and `malloc`, which always returns a null pointer.
- Task names, time counters, printing, UART, timer set-up, the `Option`, `Array` and `sstd` helpers.
- The test HAL, in which FATAL_ERROR returns and `reschedule` goes on without tasks.
- Memory wrap-around of `memcpy` in the return-address check beyond 0xFFFF, which no accepted stack pointer reaches.
- Log: the copy of a program-memory string into a local array is taken for the string itself; lengths and pointers stay within the 16-bit address space; the searches read past the last entry, so a NUL must follow the byte after it.
- Liveness of wait_for_task_finnish: that a killed task's waiter is scheduled again follows from bounded waiting only while nobody spawns or ends.
