/**
 What start-up, spawn_task and start_scheduler leave behind, field by field and
 byte by byte.
 */
module Launches {
  import opened Layout
  import opened Avr
  import opened ContextSwitch
  import opened Switch
  import opened ReturnPoint
  import opened FrameLayout
  import opened Priority
  import opened KernelModel
  import opened KernelInvariant
  import opened System
  import opened Refinement
  import opened Squares
  import opened Runs

  /** main up to the idle function, whatever the machine held before. */
  lemma BootInNumbers(m: Machine, heapStart: Word)
    requires m.Valid()
    ensures var s := Boot(m, heapStart);
            && s.m.sp == 1496 && s.mode.Starting?
            && s.k.tasks[0] == Task(1496, 0, 0, 0, Running)
            && (forall i :: 1 <= i < 5 ==> s.k.tasks[i] == Task(1496 + 649 * i, 0, i, 0, Empty))
            && s.k.active == 0 && s.k.position == 0 && s.k.queue[0] == 0
            && s.k.pidCnt == 1 && s.k.heapStart == heapStart
            && (forall a :: 0x200 <= a <= 0x204 ==> s.m.mem[a] == 0x66)
            && s.m.mem[0x20FC] == 0 && s.m.mem[0x20FD] == 0 && WordAt(s.m.mem, 0x2100, 1496)
            && forall a :: && 0 <= a < 0x10000 && !(0x200 <= a <= 0x204) && !(0x20FC <= a <= 0x20FD)
                           && !(0x2100 <= a <= 0x2101) ==>
                 s.m.mem[a] == m.mem[a]
  {
    hide Run, Lo, Hi, CanariesIntact, WordAt, Word16, ReadWord;
    var mem := WriteWord(BootMemory(m.mem), TASK_SP, High(0));
    BootMemoryOk(m.mem);
    SetSpEffect(SET_SP, m.(mem := mem));
    ZeroWord(mem, 0x20FC);
    WordInBytes(mem, 0x2100, 1496);
  }

  // The lowest EMPTY slot.
  predicate FirstFree(tasks: seq<Task>, i: nat) {
    i < |tasks| && tasks[i].status == Empty && forall j :: 0 <= j < i ==> tasks[j].status != Empty
  }

  lemma FirstFreeIs(tasks: seq<Task>, i: nat)
    requires FirstFree(tasks, i)
    ensures FirstEmpty(tasks, 0) == i
  {
  }

  /**
   spawn_task with slot i the lowest EMPTY one: the new task runs at the top of its
   own stack with interrupts and the timer mask on, the caller is READY with its
   frame saved, and its frame is the one of the planted return address.
   */
  lemma SpawnInNumbers(s: Sys, e: Event, i: nat)
    requires Inv(s) && Enabled(s, e) && e.Spawn? && FirstFree(s.k.tasks, i)
    ensures var s' := System.Step(s, e);
            var c := PlantedCore(SavedCore(s.m));
            && i < 5 && i != s.k.active && s'.mode == s.mode
            && s'.k.active == i && s'.k.position == 0 && s'.k.queue == s.k.queue
            && s'.k.tasks[i] == Task(1496 + 649 * i, s.k.pidCnt, i, e.priority, Running)
            && s'.k.tasks[s.k.active] == s.k.tasks[s.k.active].(status := Ready, sp := s.m.sp - 36)
            && (forall j :: 0 <= j < 5 && j != i && j != s.k.active ==> s'.k.tasks[j] == s.k.tasks[j])
            && s'.m.sp == 1496 + 649 * i && s'.m.r == e.start.r && s'.m.pc == e.start.pc
            && s'.m.flags == e.start.flags.(i := true)
            && Unmasked(s.m.mem[0x6F], s'.m.mem[0x6F])
            && FrameAt(s'.m.mem, s.m.sp - 36, c.r, c.flags, c.pc)
  {
    hide FrameAt, FrameCore, PlantedCore, CanariesIntact, MtEnabled, ReadWord, SpawnTask, Untouched, DoSpawn;
    hide FirstEmpty, Round;
    FirstFreeIs(s.k.tasks, i);
    ActiveRuns(s);
    SpawnEffect(s, e.priority, e.start);
    var s' := DoSpawn(s, e.priority, e.start);
    SpawnedTasks(s, s', e.priority, e.start, i);
    SpawnExact(s.k, e.priority, s.m.sp - FRAME_BYTES);
    FrameInBytes(s'.m.mem, s.m.sp - 36);
  }

  /**
   start_scheduler in the lowest EMPTY slot i: the slot is the scheduler's, and its
   frame lies below its stack pointer, where scheduler_task_sp points.
   */
  lemma StartInNumbers(s: Sys, e: Event, i: nat)
    requires Inv(s) && Enabled(s, e) && e.StartScheduler? && FirstFree(s.k.tasks, i)
    ensures var s' := System.Step(s, e);
            var c := PlantedCore(Core(e.code.r, e.code.flags, e.code.pc, e.sp));
            && 1 <= i < 5 && s'.mode == FirstPass && s'.sb == i
            && s'.k.active == i && s'.k.position == 0
            && s'.k.tasks[i] == Task(1496 + 649 * i, s.k.pidCnt, i, e.priority, Scheduler)
            && s'.k.tasks[0] == s.k.tasks[0].(status := Ready, sp := s.m.sp - 36)
            && (forall j :: 1 <= j < 5 && j != i ==> s'.k.tasks[j] == s.k.tasks[j])
            && s'.m.sp == e.sp - 36 && WordAt(s'.m.mem, 0x20FE, e.sp - 36)
            && Unmasked(s.m.mem[0x6F], s'.m.mem[0x6F])
            && FrameAt(s'.m.mem, e.sp - 36, c.r, c.flags, c.pc)
  {
    hide FrameAt, FrameCore, PlantedCore, CanariesIntact, MtEnabled, ReadWord, SpawnTask, Untouched, DoSpawn;
    hide FirstEmpty, Round, EnterScheduler, WordAt;
    FirstFreeIs(s.k.tasks, i);
    ActiveRuns(s);
    SpawnEffect(s, e.priority, e.code);
    var s1 := DoSpawn(s, e.priority, e.code);
    var s' := System.Step(s, e);
    SpawnedActive(s, s1, e.priority, e.code, i);
    EnterEffect(s1, i, e.code, e.sp, e.block);
    StartedTasks(s, s1, s', e, i);
    FrameInBytes(s'.m.mem, e.sp - 36);
    WordInBytes(s'.m.mem, 0x20FE, e.sp - 36);
  }
}
