/**
 One commuting square for every event in which the processor changes hands, and
 from them the refinement of whole runs.
 */
module Squares {
  import opened Wrappers
  import opened Layout
  import opened Avr
  import opened ContextSwitch
  import opened Switch
  import opened ReturnPoint
  import opened Strikes
  import opened Priority
  import opened KernelModel
  import opened KernelInvariant
  import opened System
  import opened Refinement
  import P = PrivateContexts

  // ----- leaving user code -----

  // The state after user code switched away, read back as contexts.
  lemma LeftUserCodeAlpha(s: Sys, s': Sys)
    requires Inv(s) && s.mode.User? && RoomForFrame(s) && Inv(s') && LeftUserCode(s, s'.m)
    requires s'.sb == s.sb && s'.mode.InScheduler? && s'.k.active == s.k.active && s'.k.pidCnt == s.k.pidCnt
    requires forall i :: 0 <= i < TASKS_MAX && i != s.k.active ==> s'.k.tasks[i] == s.k.tasks[i]
    requires PrevSp(s') != SchedulerSp(s')
    ensures var mask := WithMt(s.m.mem[TIMSK1]);
            Alpha(s') == P.Live(Erased(s'.k.tasks), s.k.active, s.k.pidCnt, s.sb, InScheduler, s'.h.ran, mask,
              Saved(s)[s.k.active :=
                if s'.k.Current().status == Running then Some(P.Suspended(RunningContext(s))) else None],
              P.Context(ResumedCore(FrameCore(s.m.mem, SchedulerSp(s)), mask), []), None)
  {
    hide KInv, CanariesIntact, ReadWord, MtEnabled, ResumedCore, FrameCore, Untouched;
    forall i: nat | i < TASKS_MAX
      ensures Saved(s')[i] ==
        if i != s.k.active then Saved(s)[i]
        else if s'.k.Current().status == Running then Some(P.Suspended(RunningContext(s)))
        else None
    {
      LeftUserCodeSaved(s, s', i);
    }
    hide Saved, Inv, Stacks, ReadyFrames;
    assert Saved(s') == Saved(s)[s.k.active :=
      if s'.k.Current().status == Running then Some(P.Suspended(RunningContext(s))) else None];
  }

  lemma UserSwitchRefines(s: Sys, e: Event)
    requires Inv(s) && Enabled(s, e) && e.SwitchTask? && s.mode.User?
    ensures Square(s, e)
  {
    UserCodeEntersScheduler(s, e.entry);
    ActiveRuns(s);
    AlphaApplies(s, e);
    var s' := System.Step(s, e);
    assert KInv(s.k, s.sb, InScheduler, s.h.ran);
    LeftUserCodeInv(s, s');
    LeftUserCodeAlpha(s, s');
  }

  lemma KillRefines(s: Sys, e: Event)
    requires Inv(s) && Enabled(s, e) && e.Kill?
    ensures Square(s, e)
  {
    hide KInv, Switched, ReadWord, WithMt, CanariesIntact, ResumedCore, FrameCore, ReadyFrames, Stacks, Saved;
    UserCodeEntersScheduler(s, ByYield);
    ActiveRuns(s);
    AlphaApplies(s, e);
    KillKeeps(s.k, s.sb, s.h.ran);
    var s' := System.Step(s, e);
    LeftUserCodeInv(s, s');
    LeftUserCodeAlpha(s, s');
    hide Inv;
    assert Erased(s'.k.tasks) == Erased(s.k.tasks)[s.k.active := Erased(s.k.tasks)[s.k.active].(status := Empty)];
  }

  // ----- the timer strikes the scheduler at its entry -----

  // The scheduler is its own successor: its frame lands where it was resumed from.
  ghost predicate Reentered(s: Sys, m': Machine)
    requires Ok(s) && m'.Valid() && FrameIn(SchedulerSp(s), s.sb)
  {
    && CoreOf(m') == ResumedCore(SavedCore(s.m), m'.mem[TIMSK1])
    && (forall c :: 0 <= c < TASKS_MAX && c != s.sb ==> Untouched(s.m.mem, m'.mem, c))
    && (CanariesIntact(s.m.mem) ==> CanariesIntact(m'.mem))
    && ReadWord(m'.mem, SCHEDULER_TASK_SP) == SchedulerSp(s)
    && ReadWord(m'.mem, PREV_TASK_SP) == SchedulerSp(s)
    && ReadWord(m'.mem, NEXT_TASK_SP) == 0
    && m'.mem[TIMSK1] == WithMt(s.m.mem[TIMSK1]) && MtEnabled(m'.mem)
  }

  lemma TimerReenters(s: Sys, entry: Entry)
    requires Inv(s) && s.mode.InScheduler?
    ensures SwitchMode(s.m.mem) == InScheduler
    ensures Reentered(s, Switched(s.m, entry))
  {
    hide FrameBytes, FrameCore, ResumedCore, Switched, MtEnabled, CanariesIntact, Lo, Hi, ReadyFrames, WithMt;
    var t := SchedulerSp(s);
    assert Chosen(s.m.mem) == t;
    SwitchedEffect(s.m, entry, t);
    var m' := Switched(s.m, entry);
    FrameRoundTrip(s.m.mem, SavedCore(s.m));
    SwitchKeeps(s.m, m', t);
    KeptCanaries(s.m.mem, m'.mem, t, s.m.sp, t + 33);
    MaskEnables(m'.mem, s.m.mem[TIMSK1]);
  }

  lemma ReenteredInv(s: Sys, s': Sys)
    requires Inv(s) && s.mode.InScheduler? && Ok(s') && Reentered(s, s'.m) && s' == s.(m := s'.m)
    ensures Inv(s')
  {
    hide KInv, CanariesIntact, ReadWord, MtEnabled, WithMt, Untouched;
  }

  lemma ReenteredSaved(s: Sys, s': Sys)
    requires Inv(s) && s.mode.InScheduler? && Inv(s') && Reentered(s, s'.m) && s' == s.(m := s'.m)
    ensures Saved(s') == Saved(s)[s.k.active := None]
  {
    hide FrameCore, ResumedCore, CanariesIntact, ReadWord, MtEnabled, Untouched;
    forall i: nat | i < TASKS_MAX
      ensures SavedOf(s', i) == if i == s.k.active then None else SavedOf(s, i)
    {
      if i == s.sb {
        SchedulerHasNoFrame(s);
        SchedulerHasNoFrame(s');
      } else if i != s.k.active {
        SavedSame(s, s', i);
      }
    }
  }

  lemma TimerSquare(s: Sys, e: Event)
    requires Inv(s) && Enabled(s, e) && e.SwitchTask? && s.mode.InScheduler?
    ensures Square(s, e)
  {
    TimerReenters(s, e.entry);
    AlphaApplies(s, e);
    var s' := System.Step(s, e);
    ReenteredInv(s, s');
    ReenteredSaved(s, s');
    hide Switched, FrameCore, ResumedCore, CanariesIntact, ReadWord, KInv, MtEnabled, Saved, Inv, Stacks, ReadyFrames;
  }

  // ----- spawning -----

  lemma LaunchedEffect(m: Machine, sp: Word)
    requires m.Valid() && TIMSK1 < sp < STACK_TOP
    ensures var m' := Launched(m, sp);
            && m'.sp == sp
            && m'.mem[TIMSK1] == WithMt(m.mem[TIMSK1])
            && forall x :: 0 <= x < 0x10000 && x != TASK_SP && x != TASK_SP + 1 && x != TIMSK1 && x != sp
                 ==> m'.mem[x] == m.mem[x]
  {
    hide Run, WithMt, LogicFlags, Lo, Hi;
    var m1 := m.(mem := WriteWord(m.mem, TASK_SP, sp));
    ReadWritten(m.mem, TASK_SP, sp);
    SetSpEffect(SET_SP, m1);
    EnableMtEffect(ENABLE_MT, Run(SET_SP, 0, m1));
  }

  /** The spawning task's context is in a frame on its own stack, resuming inside the macro. */
  ghost predicate Parked(m: Machine, m': Machine, sp: Word)
    requires m.Valid() && m'.Valid() && FRAME_BYTES <= m.sp
  {
    && m'.sp == sp
    && FrameCore(m'.mem, m.sp - FRAME_BYTES) == PlantedCore(SavedCore(m))
    && (forall x :: 0 <= x < 0x10000 && !(m.sp - FRAME_BYTES < x <= m.sp) && !SwitchGlobal(x) && x != sp
          ==> m'.mem[x] == m.mem[x])
    && ReadWord(m'.mem, NEXT_TASK_SP) == ReadWord(m.mem, NEXT_TASK_SP)
    && ReadWord(m'.mem, PREV_TASK_SP) == ReadWord(m.mem, PREV_TASK_SP)
    && m'.mem[TIMSK1] == WithMt(m.mem[TIMSK1])
  }

  lemma ParkedEffect(m: Machine, sp: Word)
    requires m.Valid() && STACK_LOW + FRAME_BYTES <= m.sp < STACK_TOP
    requires STACK_LOW < sp < STACK_TOP && !(m.sp - FRAME_BYTES < sp <= m.sp)
    ensures Parked(m, Launched(SavedWithReturnPoint(m.(flags := m.flags.(i := false))), sp), sp)
  {
    hide FrameBytes, FrameCore, PlantedCore, SavedWithReturnPoint, Launched, WithMt, Lo, Hi;
    var off := m.(flags := m.flags.(i := false));
    SavedWithReturnPointEffect(off);
    LaunchedEffect(SavedWithReturnPoint(off), sp);
    var c := PlantedCore(SavedCore(m));
    var saved := Stacked(m.mem, m.sp, FrameBytes(c));
    FrameRoundTrip(m.mem, c);
    FrameSame(saved, Launched(SavedWithReturnPoint(off), sp).mem, m.sp - FRAME_BYTES);
  }

  // Slot i was EMPTY and now runs; the spawning task is suspended in its own block.
  ghost predicate Spawned(s: Sys, s': Sys, priority: Byte, start: Cpu, i: nat)
    requires Ok(s) && Ok(s') && RoomForFrame(s) && i < TASKS_MAX
  {
    && SpawnTask(s.k, priority, s.m.sp - FRAME_BYTES) == Success(s'.k) && i == FirstEmpty(s.k.tasks, 0)
    && FrameCore(s'.m.mem, s.m.sp - FRAME_BYTES) == PlantedCore(SavedCore(s.m))
    && CoreOf(s'.m) == Core(start.r, start.flags.(i := true), start.pc, High(i))
    && (forall c :: 0 <= c < TASKS_MAX && c != s.k.active && c != i ==> Untouched(s.m.mem, s'.m.mem, c))
    && (forall x :: s.m.sp < x <= High(s.k.active) ==> s'.m.mem[x] == s.m.mem[x])
    && (CanariesIntact(s.m.mem) ==> CanariesIntact(s'.m.mem))
    && ReadWord(s'.m.mem, NEXT_TASK_SP) == ReadWord(s.m.mem, NEXT_TASK_SP)
    && SchedulerSp(s') == SchedulerSp(s)
    && s'.m.mem[TIMSK1] == WithMt(s.m.mem[TIMSK1]) && MtEnabled(s'.m.mem)
    && s' == s.(k := s'.k, m := s'.m, h := s.h.(created := s.h.created + 1, ran := ALL_SLOTS))
  }

  lemma CallerSp(m: Machine)
    requires m.Valid() && FRAME_BYTES <= m.sp
    ensures ReadWord(SavedWithReturnPoint(m.(flags := m.flags.(i := false))).mem, TASK_SP) == m.sp - FRAME_BYTES
  {
    hide Lo, Hi, FrameBytes, PlantedCore, Word16, ReadWord, SavedWithReturnPoint, Stacked;
    var off := m.(flags := m.flags.(i := false));
    SavedWithReturnPointEffect(off);
    ReadWritten(Stacked(m.mem, m.sp, FrameBytes(PlantedCore(CoreOf(off)))), TASK_SP, m.sp - FRAME_BYTES);
  }

  lemma ParkedBlocks(m: Machine, m': Machine, a: nat, i: nat)
    requires m.Valid() && m'.Valid() && a < TASKS_MAX && i < TASKS_MAX && a != i
    requires Low(a) + FRAME_BYTES <= m.sp <= High(a) && Parked(m, m', High(i))
    ensures forall c :: 0 <= c < TASKS_MAX && c != a && c != i ==> Untouched(m.mem, m'.mem, c)
    ensures forall x :: m.sp < x <= High(a) ==> m'.mem[x] == m.mem[x]
    ensures CanariesIntact(m.mem) ==> CanariesIntact(m'.mem)
    ensures ReadWord(m'.mem, SCHEDULER_TASK_SP) == ReadWord(m.mem, SCHEDULER_TASK_SP)
  {
    hide FrameCore, PlantedCore, WithMt;
  }

  lemma SpawnEffect(s: Sys, priority: Byte, start: Cpu)
    requires Ok(s) && RoomForFrame(s) && start.Valid() && s.k.Current().status != Empty
    ensures var i := FirstEmpty(s.k.tasks, 0);
            var s' := DoSpawn(s, priority, start);
            if i == TASKS_MAX then s' == s.(mode := Halted(QueueFull))
            else Spawned(s, s', priority, start, i)
  {
    hide FrameCore, PlantedCore, SavedWithReturnPoint, Launched, WithMt, CanariesIntact, Untouched, SpawnTask, ReadWord;
    CallerSp(s.m);
    SpawnExact(s.k, priority, s.m.sp - FRAME_BYTES);
    var i := FirstEmpty(s.k.tasks, 0);
    if i < TASKS_MAX {
      var s' := DoSpawn(s, priority, start);
      var m' := Launched(SavedWithReturnPoint(s.m.(flags := s.m.flags.(i := false))), High(i));
      ParkedEffect(s.m, High(i));
      ParkedBlocks(s.m, m', s.k.active, i);
      EnablingSetsTheBit(s.m.mem[TIMSK1]);
      assert s'.m.mem == m'.mem;
    }
  }

  // Who a spawn leaves RUNNING and READY.
  lemma SpawnedTasks(s: Sys, s': Sys, priority: Byte, start: Cpu, i: nat)
    requires Ok(s) && Ok(s') && RoomForFrame(s) && i < TASKS_MAX && s.k.Current().status == Running
    requires Spawned(s, s', priority, start, i)
    ensures s.k.tasks[i].status == Empty && i != s.k.active
    ensures s'.k.active == i && s'.k.position == 0 && s'.k.pidCnt == (s.k.pidCnt + 1) % 0x10000
    ensures s'.k.tasks[i] == Task(High(i), s.k.pidCnt, i, priority, Running)
    ensures s'.k.tasks[s.k.active] == s.k.Current().(status := Ready, sp := s.m.sp - FRAME_BYTES)
    ensures forall j :: 0 <= j < TASKS_MAX && j != i && j != s.k.active ==> s'.k.tasks[j] == s.k.tasks[j]
  {
    hide FrameCore, PlantedCore, CanariesIntact, Untouched, MtEnabled, WithMt, ReadWord;
    SpawnExact(s.k, priority, s.m.sp - FRAME_BYTES);
  }

  lemma SpawnedInv(s: Sys, s': Sys, priority: Byte, start: Cpu, i: nat)
    requires Inv(s) && s.mode.User? && Ok(s') && RoomForFrame(s) && i < TASKS_MAX
    requires Spawned(s, s', priority, start, i)
    ensures Inv(s')
  {
    hide FrameCore, PlantedCore, CanariesIntact, Untouched, MtEnabled, WithMt, ReadWord, SpawnTask, Round, FirstEmpty;
    ActiveRuns(s);
    SpawnedTasks(s, s', priority, start, i);
    SpawnKeeps(s.k, s.sb, s.h.ran, priority, s.m.sp - FRAME_BYTES);
    hide KInv;
  }

  lemma SpawnedSaved(s: Sys, s': Sys, priority: Byte, start: Cpu, i: nat)
    requires Inv(s) && s.mode.User? && Inv(s') && RoomForFrame(s) && i < TASKS_MAX
    requires Spawned(s, s', priority, start, i)
    ensures var caller := P.Suspended(RunningContext(s));
            Saved(s') == Saved(s)[s.k.active := Some(caller.(core := PlantedCore(caller.core)))]
  {
    hide FrameCore, PlantedCore, CanariesIntact, MtEnabled, WithMt, ReadWord, SpawnTask, Untouched, KInv;
    ActiveRuns(s);
    SpawnedTasks(s, s', priority, start, i);
    forall j: nat | j < TASKS_MAX && j != s.k.active
      ensures SavedOf(s', j) == SavedOf(s, j)
    {
      SavedSame(s, s', j);
    }
    assert StackAbove(s'.m.mem, s.m.sp, s.k.active) == StackAbove(s.m.mem, s.m.sp, s.k.active);
  }

  lemma SpawnedErased(s: Sys, s': Sys, priority: Byte, start: Cpu, i: nat)
    requires Ok(s) && Ok(s') && RoomForFrame(s) && i < TASKS_MAX && s.k.Current().status == Running
    requires Spawned(s, s', priority, start, i)
    ensures Erased(s'.k.tasks) == Erased(s.k.tasks)[i := Task(0, s.k.pidCnt, i, priority, Running)]
                                    [s.k.active := Erased(s.k.tasks)[s.k.active].(status := Ready)]
    ensures s'.k.active == i && s'.k.pidCnt == (s.k.pidCnt + 1) % 0x10000 && s.k.tasks[i].status == Empty
    ensures FirstEmpty(Erased(s.k.tasks), 0) == i
    ensures P.Context(CoreOf(s'.m), StackAbove(s'.m.mem, s'.m.sp, i))
         == P.Context(Core(start.r, start.flags.(i := true), start.pc, High(i)), [])
  {
    SpawnedTasks(s, s', priority, start, i);
    SameFirstEmpty(s.k.tasks);
    hide FrameCore, PlantedCore, CanariesIntact, MtEnabled, WithMt, ReadWord, SpawnTask, Untouched;
  }

  lemma SpawnedAlpha(s: Sys, s': Sys, priority: Byte, start: Cpu, i: nat)
    requires Inv(s) && s.mode.User? && Inv(s') && RoomForFrame(s) && i < TASKS_MAX
    requires Spawned(s, s', priority, start, i) && P.Wf(Alpha(s))
    ensures Alpha(s') == P.Create(Alpha(s), priority, start)
  {
    hide FrameCore, PlantedCore, CanariesIntact, MtEnabled, WithMt, ReadWord, SpawnTask, Stacks, ReadyFrames, Saved;
    hide KInv, Untouched, P.Wf, FirstEmpty;
    ActiveRuns(s);
    SpawnedErased(s, s', priority, start, i);
    SpawnedSaved(s, s', priority, start, i);
    SchedulerFrameKept(s, s', i);
  }

  lemma SpawnRefines(s: Sys, e: Event)
    requires Inv(s) && Enabled(s, e) && e.Spawn?
    ensures Square(s, e)
  {
    hide KInv, FrameCore, PlantedCore, CanariesIntact, MtEnabled, ReadWord, SpawnTask, Saved, Untouched, Spawned;
    hide P.Wf, P.Create;
    ActiveRuns(s);
    SpawnEffect(s, e.priority, e.start);
    AlphaApplies(s, e);
    var s' := System.Step(s, e);
    var i := FirstEmpty(s.k.tasks, 0);
    if i < TASKS_MAX {
      SpawnedInv(s, s', e.priority, e.start, i);
      SpawnedAlpha(s, s', e.priority, e.start, i);
    } else {
      FullFails(s, e.priority, e.start);
    }
  }

  lemma FullFails(s: Sys, priority: Byte, start: Cpu)
    requires Inv(s) && !s.mode.Halted? && P.Wf(Alpha(s)) && (s.mode.User? || s.mode.Starting?)
    requires FirstEmpty(s.k.tasks, 0) == TASKS_MAX
    ensures P.Create(Alpha(s), priority, start) == P.Stopped(QueueFull)
  {
    hide Inv, Saved, RunningContext, SchedulerCore, P.Wf;
    SameFirstEmpty(s.k.tasks);
  }

  lemma SameFirstEmpty(tasks: seq<Task>)
    ensures FirstEmpty(Erased(tasks), 0) == FirstEmpty(tasks, 0)
  {
  }

  lemma SchedulerFrameKept(s: Sys, s': Sys, i: nat)
    requires Inv(s) && s.mode.User? && Ok(s') && i < TASKS_MAX && i != s.sb
    requires forall c :: 0 <= c < TASKS_MAX && c != s.k.active && c != i ==> Untouched(s.m.mem, s'.m.mem, c)
    requires SchedulerSp(s') == SchedulerSp(s)
    ensures FrameCore(s'.m.mem, SchedulerSp(s')) == FrameCore(s.m.mem, SchedulerSp(s))
  {
    ActiveRuns(s);
    hide FrameCore, CanariesIntact, MtEnabled, KInv, ReadWord;
    assert Untouched(s.m.mem, s'.m.mem, s.sb);
    FrameSame(s.m.mem, s'.m.mem, SchedulerSp(s));
  }

  // ----- starting the scheduler -----

  // The scheduler's first frame is in place and scheduler_task_sp points below it.
  ghost predicate Entered(s: Sys, s': Sys, b: nat, c: Core)
    requires Ok(s) && Ok(s') && b < TASKS_MAX && Low(b) + FRAME_BYTES <= c.sp <= High(b) && |c.r| == 32
    requires 0 <= c.pc < PC_SPACE
  {
    && s'.m.sp == c.sp - FRAME_BYTES == SchedulerSp(s')
    && FrameCore(s'.m.mem, c.sp - FRAME_BYTES) == PlantedCore(c)
    && (forall d :: 0 <= d < TASKS_MAX && d != b ==> Untouched(s.m.mem, s'.m.mem, d))
    && (CanariesIntact(s.m.mem) ==> CanariesIntact(s'.m.mem))
    && ReadWord(s'.m.mem, NEXT_TASK_SP) == ReadWord(s.m.mem, NEXT_TASK_SP)
    && s'.m.mem[TIMSK1] == s.m.mem[TIMSK1]
    && s' == s.(k := s.k.(tasks := s.k.tasks[b := s.k.tasks[b].(status := Scheduler)]),
                m := s'.m, mode := FirstPass, sb := b)
  }

  lemma EnteredMemory(mem: seq<Byte>, mem': seq<Byte>, b: nat, block: seq<Byte>, sp: int, bytes: seq<Byte>)
    requires |mem| == 0x10000 && b < TASKS_MAX && |block| == TASK_MEMORY_SIZE && |bytes| == FRAME_BYTES
    requires Low(b) + FRAME_BYTES <= sp <= High(b)
    requires mem' == WriteWord(WriteWord(Stacked(WriteBlock(mem, b, block), sp, bytes), TASK_SP, sp - FRAME_BYTES),
                               SCHEDULER_TASK_SP, sp - FRAME_BYTES)
    ensures forall d :: 0 <= d < TASKS_MAX && d != b ==> Untouched(mem, mem', d)
    ensures CanariesIntact(mem) ==> CanariesIntact(mem')
    ensures ReadWord(mem', NEXT_TASK_SP) == ReadWord(mem, NEXT_TASK_SP) && mem'[TIMSK1] == mem[TIMSK1]
    ensures FrameCore(mem', sp - FRAME_BYTES)
         == FrameCore(Stacked(WriteBlock(mem, b, block), sp, bytes), sp - FRAME_BYTES)
  {
    hide FrameCore, Lo, Hi, WriteBlock;
    FrameSame(Stacked(WriteBlock(mem, b, block), sp, bytes), mem', sp - FRAME_BYTES);
  }

  lemma EnterEffect(s: Sys, b: nat, code: Cpu, sp: int, block: seq<Byte>)
    requires Ok(s) && code.Valid() && |block| == TASK_MEMORY_SIZE && b < TASKS_MAX
    requires Low(b) + FRAME_BYTES <= sp <= High(b)
    ensures Entered(s, EnterScheduler(s, b, code, sp, block), b, Core(code.r, code.flags, code.pc, sp))
  {
    hide Run, FrameBytes, FrameCore, PlantedCore, SavedWithReturnPoint, Lo, Hi, CanariesIntact, Untouched, WriteBlock;
    hide Word16, Closed;
    StartersOk();
    var m := Machine(code.r, code.flags, code.pc, sp, WriteBlock(s.m.mem, b, block));
    SavedWithReturnPointEffect(m);
    var m1 := SavedWithReturnPoint(m);
    SaveSpEffect(SaveSpToAdr(SCHEDULER_TASK_SP), SCHEDULER_TASK_SP, m1);
    var c := PlantedCore(CoreOf(m));
    FrameRoundTrip(m.mem, c);
    var m2 := Run(SaveSpToAdr(SCHEDULER_TASK_SP), 0, m1);
    ReadWritten(m1.mem, SCHEDULER_TASK_SP, sp - FRAME_BYTES);
    EnteredMemory(s.m.mem, m2.mem, b, block, sp, FrameBytes(c));
  }

  // The state after start_scheduler, slot by slot.
  lemma StartedTasks(s: Sys, s1: Sys, s': Sys, e: Event, i: nat)
    requires Inv(s) && Enabled(s, e) && e.StartScheduler? && i == FirstEmpty(s.k.tasks, 0) && Ok(s1) && Ok(s')
    requires Spawned(s, s1, e.priority, e.code, i)
    requires Entered(s1, s', i, Core(e.code.r, e.code.flags, e.code.pc, e.sp))
    ensures s.k.active == 0 && i != 0 && s'.k.active == i && s'.k.position == 0 && s'.h.ran == ALL_SLOTS
    ensures s'.mode.FirstPass? && s'.sb == i
    ensures s'.k.tasks[i] == Task(High(i), s.k.pidCnt, i, e.priority, Scheduler)
    ensures s'.k.tasks[0] == s.k.tasks[0].(status := Ready, sp := s.m.sp - FRAME_BYTES)
    ensures forall j :: 0 < j < TASKS_MAX && j != i ==> s'.k.tasks[j] == s.k.tasks[j] && s.k.tasks[j].status == Empty
    ensures s'.k.pidCnt == (s.k.pidCnt + 1) % 0x10000
  {
    hide FrameCore, PlantedCore, CanariesIntact, MtEnabled, WithMt, ReadWord, SpawnTask, Untouched, Round, FirstEmpty;
    ActiveRuns(s);
    SpawnedTasks(s, s1, e.priority, e.code, i);
  }

  lemma StartedInv(s: Sys, s1: Sys, s': Sys, e: Event, i: nat)
    requires Inv(s) && Enabled(s, e) && e.StartScheduler? && i == FirstEmpty(s.k.tasks, 0) && Ok(s1) && Ok(s')
    requires Spawned(s, s1, e.priority, e.code, i)
    requires Entered(s1, s', i, Core(e.code.r, e.code.flags, e.code.pc, e.sp))
    ensures Inv(s')
  {
    hide Spawned, FrameCore, PlantedCore, CanariesIntact, MtEnabled, WithMt, ReadWord, SpawnTask, Untouched;
    StartedTasks(s, s1, s', e, i);
    NewRound(s'.k);
    StartedMemory(s, s1, s', e, i);
  }

  lemma StartedMemory(s: Sys, s1: Sys, s': Sys, e: Event, i: nat)
    requires Inv(s) && Enabled(s, e) && e.StartScheduler? && i == FirstEmpty(s.k.tasks, 0) && Ok(s1) && Ok(s')
    requires Spawned(s, s1, e.priority, e.code, i)
    requires Entered(s1, s', i, Core(e.code.r, e.code.flags, e.code.pc, e.sp))
    ensures CanariesIntact(s'.m.mem) && ReadWord(s'.m.mem, NEXT_TASK_SP) == 0
    ensures s'.m.mem[TIMSK1] == WithMt(s.m.mem[TIMSK1])
    ensures s.k.active == 0 && Decode(s'.m.mem, s.m.sp - FRAME_BYTES, 0) ==
            P.Context(PlantedCore(SavedCore(s.m)), StackAbove(s.m.mem, s.m.sp, 0))
  {
    hide FrameCore, PlantedCore, CanariesIntact, MtEnabled, WithMt, ReadWord, SpawnTask, FirstEmpty;
    StartedTasks(s, s1, s', e, i);
    assert Untouched(s1.m.mem, s'.m.mem, 0);
    DecodeUntouched(s1.m.mem, s'.m.mem, s.m.sp - FRAME_BYTES, 0);
    assert StackAbove(s1.m.mem, s.m.sp, 0) == StackAbove(s.m.mem, s.m.sp, 0);
  }

  lemma StartedSaved(s: Sys, s1: Sys, s': Sys, e: Event, i: nat)
    requires Inv(s) && Enabled(s, e) && e.StartScheduler? && i == FirstEmpty(s.k.tasks, 0) && Ok(s1) && Inv(s')
    requires Spawned(s, s1, e.priority, e.code, i)
    requires Entered(s1, s', i, Core(e.code.r, e.code.flags, e.code.pc, e.sp))
    ensures var caller := P.Suspended(RunningContext(s));
            Saved(s') == Saved(s)[s.k.active := Some(caller.(core := PlantedCore(caller.core)))]
  {
    hide Spawned, Entered, FrameCore, PlantedCore, CanariesIntact, MtEnabled, ReadWord, Untouched, KInv, FirstEmpty;
    hide Decode;
    ActiveRuns(s);
    StartedTasks(s, s1, s', e, i);
    StartedMemory(s, s1, s', e, i);
    forall j: nat | j < TASKS_MAX && j != 0
      ensures FrameOf(s, j) == None && FrameOf(s', j) == None
    {
    }
  }

  lemma StartedErased(s: Sys, s1: Sys, s': Sys, e: Event, i: nat)
    requires Inv(s) && Enabled(s, e) && e.StartScheduler? && i == FirstEmpty(s.k.tasks, 0) && Ok(s1) && Ok(s')
    requires Spawned(s, s1, e.priority, e.code, i)
    requires Entered(s1, s', i, Core(e.code.r, e.code.flags, e.code.pc, e.sp))
    ensures Erased(s'.k.tasks) == Erased(s.k.tasks)[i := Task(0, s.k.pidCnt, i, e.priority, Scheduler)]
                                    [s.k.active := Erased(s.k.tasks)[s.k.active].(status := Ready)]
    ensures FirstEmpty(Erased(s.k.tasks), 0) == i && s.k.active != i
  {
    hide Spawned, Entered, KInv, FirstEmpty, CanariesIntact, ReadWord, Inv;
    StartedTasks(s, s1, s', e, i);
    SameFirstEmpty(s.k.tasks);
  }

  lemma StartedAlpha(s: Sys, s1: Sys, s': Sys, e: Event, i: nat)
    requires Inv(s) && Enabled(s, e) && e.StartScheduler? && i == FirstEmpty(s.k.tasks, 0) && Ok(s1) && Inv(s')
    requires Spawned(s, s1, e.priority, e.code, i) && P.Wf(Alpha(s))
    requires Entered(s1, s', i, Core(e.code.r, e.code.flags, e.code.pc, e.sp))
    ensures Alpha(s') == P.Start(Alpha(s), e.priority, e.code, e.sp)
  {
    hide Spawned, FrameCore, PlantedCore, CanariesIntact, MtEnabled, WithMt, ReadWord, Stacks, ReadyFrames, Saved;
    hide KInv, Untouched, P.Wf, FirstEmpty;
    StartedTasks(s, s1, s', e, i);
    StartedErased(s, s1, s', e, i);
    StartedSaved(s, s1, s', e, i);
    StartedMemory(s, s1, s', e, i);
  }

  lemma StartRefines(s: Sys, e: Event)
    requires Inv(s) && Enabled(s, e) && e.StartScheduler?
    ensures Square(s, e)
  {
    hide KInv, FrameCore, PlantedCore, CanariesIntact, MtEnabled, ReadWord, SpawnTask, Saved, Untouched, Spawned;
    hide P.Wf, P.Create, Entered, FirstEmpty;
    ActiveRuns(s);
    SpawnEffect(s, e.priority, e.code);
    AlphaApplies(s, e);
    var s1 := DoSpawn(s, e.priority, e.code);
    var s' := System.Step(s, e);
    var i := FirstEmpty(s.k.tasks, 0);
    SpawnedActive(s, s1, e.priority, e.code, i);
    EnterEffect(s1, i, e.code, e.sp, e.block);
    StartedInv(s, s1, s', e, i);
    StartedAlpha(s, s1, s', e, i);
  }

  lemma SpawnedActive(s: Sys, s1: Sys, priority: Byte, start: Cpu, i: nat)
    requires Inv(s) && (s.mode.User? || s.mode.Starting?) && Ok(s1) && RoomForFrame(s) && i < TASKS_MAX
    requires Spawned(s, s1, priority, start, i)
    ensures s1.k.active == i && s1.mode == s.mode
  {
    ActiveRuns(s);
    SpawnedTasks(s, s1, priority, start, i);
  }

  // ----- the way to the scheduler's mask, and strikes that it does not survive -----

  lemma AdvanceRefines(s: Sys, e: Event)
    requires Inv(s) && Enabled(s, e) && e.Advance?
    ensures Square(s, e)
  {
    hide KInv, CanariesIntact, ReadWord, MtEnabled, FrameCore;
    AlphaApplies(s, e);
    var s' := System.Step(s, e);
    assert Inv(s');
    forall i: nat | i < TASKS_MAX
      ensures SavedOf(s', i) == SavedOf(s, i)
    {
    }
    assert Saved(s') == Saved(s);
  }

  lemma StrikeRefines(s: Sys, e: Event)
    requires Inv(s) && Enabled(s, e) && (e.StrikeInSwitch? || e.StrikeInMasking?)
    ensures Square(s, e)
  {
    hide KInv, Switched, Unreturned, Armed, CanariesIntact, ReadWord, MtEnabled, FrameCore, Masking, Stacks;
    hide ReadyFrames;
    AlphaApplies(s, e);
  }
}
