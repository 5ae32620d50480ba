/**
 The whole machine: kernel data, processor and memory. A step is one event; the
 code of user tasks and the compiled C++ between the macros are arbitrary within
 the bounds the events state.
 */
module System {
  import opened Layout
  import opened Avr
  import opened ContextSwitch
  import opened Switch
  import opened ReturnPoint
  import opened Strikes
  import opened Priority
  import opened KernelModel
  import opened KernelInvariant

  // What has happened so far; no step depends on it.
  datatype History = History(created: nat, kills: nat, killed: set<int>, ran: set<nat>)

  // sb is the slot of the scheduler task, from the time it exists.
  datatype Sys = Sys(k: Kernel, m: Machine, mode: Mode, sb: nat, h: History)

  // Registers, flags and program counter that code outside the model leaves behind.
  datatype Cpu = Cpu(r: seq<Byte>, flags: Flags, pc: int)
  {
    ghost predicate Valid() {
      |r| == 32 && 0 <= pc < PC_SPACE
    }
  }

  datatype Event =
    | UserStep(cpu: Cpu, sp: int, block: seq<Byte>)
    | ChangePriority(priority: Byte)
    | SwitchTask(entry: Entry)
    | Kill
    | Spawn(priority: Byte, start: Cpu)
    | StartScheduler(priority: Byte, code: Cpu, sp: int, block: seq<Byte>)
    | Pass(code: Cpu, block: seq<Byte>)
    | Advance(pc: int)
    | StrikeInSwitch(entry: Entry, popped: bool, pc: int)
    | StrikeInMasking(code: Cpu)

  // ----- memory -----

  predicate InBlock(a: int, b: nat) {
    Low(b) <= a <= High(b)
  }

  /** A whole frame above p, inside block b. */
  predicate FrameIn(p: int, b: nat) {
    Low(b) <= p && p + FRAME_BYTES <= High(b)
  }

  // Block b replaced by the given bytes.
  function WriteBlock(mem: seq<Byte>, b: nat, block: seq<Byte>): (mem': seq<Byte>)
    requires |mem| == 0x10000 && b < TASKS_MAX && |block| == TASK_MEMORY_SIZE
    ensures |mem'| == 0x10000
    ensures forall a :: 0 <= a < 0x10000 ==> mem'[a] == if InBlock(a, b) then block[a - Low(b)] else mem[a]
  {
    assert TASK_MEMORY_SIZE == 649;
    seq(0x10000, a requires 0 <= a < 0x10000 => if InBlock(a, b) then block[a - Low(b)] else mem[a])
  }

  // The part of its block the scheduler's loop body may write: below its stack pointer, and
  // above the frame at s0 where its local variables are.
  function Scribble(mem: seq<Byte>, b: nat, sp: int, s0: int, block: seq<Byte>): (mem': seq<Byte>)
    requires |mem| == 0x10000 && b < TASKS_MAX && |block| == TASK_MEMORY_SIZE
    ensures |mem'| == 0x10000
    ensures forall a :: 0 <= a < 0x10000 ==>
              mem'[a] == if InBlock(a, b) && (a <= sp || s0 + FRAME_BYTES < a) then block[a - Low(b)] else mem[a]
  {
    assert TASK_MEMORY_SIZE == 649;
    seq(0x10000, a requires 0 <= a < 0x10000 =>
      if InBlock(a, b) && (a <= sp || s0 + FRAME_BYTES < a) then block[a - Low(b)] else mem[a])
  }

  // init_memory writes the canaries; next_task_sp is zero-initialised.
  function BootMemory(mem: seq<Byte>): (mem': seq<Byte>)
    requires |mem| == 0x10000
    ensures |mem'| == 0x10000 && ReadWord(mem', NEXT_TASK_SP) == 0
    ensures forall a :: 0 <= a < 0x10000 && a != NEXT_TASK_SP && a != NEXT_TASK_SP + 1 ==>
              mem'[a] == if CANARY_END <= a <= CANARY_START then CANARY_VALUE else mem[a]
  {
    seq(0x10000, a requires 0 <= a < 0x10000 =>
      if CANARY_END <= a <= CANARY_START then CANARY_VALUE
      else if a == NEXT_TASK_SP || a == NEXT_TASK_SP + 1 then 0
      else mem[a])
  }

  // ----- steps -----

  ghost predicate Ok(s: Sys) {
    s.k.Shape() && s.m.Valid() && s.sb < TASKS_MAX
  }

  function SchedulerSp(s: Sys): Word
    requires Ok(s)
  {
    ReadWord(s.m.mem, SCHEDULER_TASK_SP)
  }

  // A switch point has room for a frame in the running task's block.
  predicate RoomForFrame(s: Sys)
    requires Ok(s)
  {
    Low(s.k.active) + FRAME_BYTES <= s.m.sp <= High(s.k.active)
  }

  /**
   When an event can happen. The timer needs interrupts and its own mask bit. It can
   strike user code and the scheduler until that has masked it (SwitchTask by timer
   before the PUSH of SCILENT_DISABLE_MT, StrikeInMasking behind it), and a switch
   of user code that has come to an armed boundary (StrikeInSwitch, also for the
   switch that ends a kill). Advance is the way from the scheduler's resume point to
   that PUSH.
   */
  ghost predicate Enabled(s: Sys, e: Event) {
    && Ok(s)
    && match e
       case UserStep(cpu, sp, block) =>
         (s.mode.User? || s.mode.Starting?) && cpu.Valid() && |block| == TASK_MEMORY_SIZE && InBlock(sp, s.k.active)
       case ChangePriority(_) => s.mode.User? || s.mode.Starting?
       case SwitchTask(entry) =>
         && ((s.mode.User? && RoomForFrame(s)) || (s.mode.InScheduler? && entry.ByTimer?))
         && (entry.ByTimer? ==> s.m.flags.i && MtEnabled(s.m.mem))
       case Kill => s.mode.User? && RoomForFrame(s)
       case Spawn(_, start) => s.mode.User? && RoomForFrame(s) && start.Valid()
       case StartScheduler(_, code, sp, block) =>
         && s.mode.Starting? && RoomForFrame(s) && code.Valid() && |block| == TASK_MEMORY_SIZE
         && FirstEmpty(s.k.tasks, 0) < TASKS_MAX
         && Low(FirstEmpty(s.k.tasks, 0)) + FRAME_BYTES <= sp <= High(FirstEmpty(s.k.tasks, 0))
       case Pass(code, block) =>
         (s.mode.FirstPass? || s.mode.InScheduler?) && code.Valid() && |block| == TASK_MEMORY_SIZE
       case Advance(pc) => s.mode.InScheduler? && 0 <= pc < PC_SPACE
       case StrikeInSwitch(entry, popped, pc) =>
         && s.mode.User? && RoomForFrame(s) && (entry.ByTimer? ==> Armed(s.m)) && 0 <= pc < PC_SPACE
         && Armed(Unreturned(s.m, popped, pc))
       case StrikeInMasking(code) => s.mode.InScheduler? && code.Valid() && code.flags.i && MtEnabled(s.m.mem)
  }

  /** main up to the idle function: whatever the machine held before. */
  function Boot(m: Machine, heapStart: Word): (s: Sys)
    requires m.Valid()
    ensures Ok(s)
  {
    StartersOk();
    var k := BootKernel(heapStart);
    var mem := WriteWord(BootMemory(m.mem), TASK_SP, k.Current().sp);
    Sys(k, Run(SET_SP, 0, m.(mem := mem)), Starting, 0, History(1, 0, {}, ALL_SLOTS))
  }

  // CONTEXT_SWTICH itself decides who runs next: a scheduled task, or the scheduler.
  function SwitchMode(mem: seq<Byte>): Mode
    requires |mem| == 0x10000
  {
    if ReadWord(mem, NEXT_TASK_SP) == 0 then InScheduler else User
  }

  function DoSwitch(s: Sys, entry: Entry): (s': Sys)
    requires Ok(s)
    ensures Ok(s')
  {
    s.(m := Switched(s.m, entry), mode := SwitchMode(s.m.mem))
  }

  function DoKill(s: Sys): (s': Sys)
    requires Ok(s)
    ensures Ok(s')
  {
    var h := s.h.(kills := s.h.kills + 1, killed := s.h.killed + {s.k.Current().pid}, ran := ALL_SLOTS);
    DoSwitch(s.(k := KillCurrentTask(s.k), h := h), ByYield)
  }

  // task_sp set to the new task's stack pointer, SET_SP and SCILENT_ENABLE_MT.
  function Launched(m: Machine, sp: Word): (m': Machine)
    requires m.Valid()
    ensures m'.Valid()
  {
    StartersOk();
    Run(ENABLE_MT, 0, Run(SET_SP, 0, m.(mem := WriteWord(m.mem, TASK_SP, sp))))
  }

  // spawn_task up to the call of the new task's function, whose machine state is start's.
  function DoSpawn(s: Sys, priority: Byte, start: Cpu): (s': Sys)
    requires Ok(s) && start.Valid()
    ensures Ok(s')
  {
    var m1 := SavedWithReturnPoint(s.m.(flags := s.m.flags.(i := false)));
    match SpawnTask(s.k, priority, ReadWord(m1.mem, TASK_SP))
    case Failure(e) => s.(mode := Halted(e))
    case Success(k) =>
      s.(k := k, m := Launched(m1, NextSp(k)).(r := start.r, flags := start.flags.(i := true), pc := start.pc),
         h := s.h.(created := s.h.created + 1, ran := ALL_SLOTS))
  }

  lemma StartersOk()
    ensures ProgramOk(SET_SP) && ProgramOk(ENABLE_MT) && ProgramOk(SaveSpToAdr(SCHEDULER_TASK_SP))
  {
  }

  // start_scheduler up to its loop, run by the task just spawned in slot b.
  function EnterScheduler(s: Sys, b: nat, code: Cpu, sp: int, block: seq<Byte>): (s': Sys)
    requires Ok(s) && code.Valid() && |block| == TASK_MEMORY_SIZE && b < TASKS_MAX && 0 <= sp < 0x10000
    ensures Ok(s')
  {
    StartersOk();
    var m := Machine(code.r, code.flags, code.pc, sp, WriteBlock(s.m.mem, b, block));
    var m1 := Run(SaveSpToAdr(SCHEDULER_TASK_SP), 0, SavedWithReturnPoint(m));
    var k := s.k.(tasks := s.k.tasks[b := s.k.tasks[b].(status := Scheduler)]);
    s.(k := k, m := m1, mode := FirstPass, sb := b)
  }

  function DoStart(s: Sys, priority: Byte, code: Cpu, sp: int, block: seq<Byte>): (s': Sys)
    requires Ok(s) && code.Valid() && |block| == TASK_MEMORY_SIZE && 0 <= sp < 0x10000
    ensures Ok(s')
  {
    var s1 := DoSpawn(s, priority, code);
    if s1.mode.Halted? then s1 else EnterScheduler(s1, s1.k.active, code, sp, block)
  }

  // The memory the checks of a pass work on.
  function PassMemory(s: Sys, block: seq<Byte>): (mem: seq<Byte>)
    requires Ok(s) && |block| == TASK_MEMORY_SIZE
    ensures |mem| == 0x10000
  {
    Scribble(s.m.mem, s.sb, s.m.sp, SchedulerSp(s), block)
  }

  // One turn of the scheduler's loop; its own yield ends it.
  function DoPass(s: Sys, code: Cpu, block: seq<Byte>): (s': Sys)
    requires Ok(s) && code.Valid() && |block| == TASK_MEMORY_SIZE
    ensures Ok(s')
  {
    var mem := PassMemory(s, block);
    match SchedulerPass(s.k, mem)
    case Failure(e) => s.(mode := Halted(e))
    case Success(k) =>
      var m := Machine(code.r, code.flags, code.pc, s.m.sp, WriteWord(mem, NEXT_TASK_SP, NextSp(k)));
      var h := s.h.(ran := if s.k.position == 0 then {k.active} else s.h.ran + {k.active});
      DoSwitch(s.(k := k, m := m, h := h), ByYield)
  }

  // The scheduler behind the PUSH of SCILENT_DISABLE_MT, at any point before its STS.
  function Masking(s: Sys, code: Cpu): (m: Machine)
    requires Ok(s) && code.Valid()
    ensures m.Valid()
  {
    PushByte(Machine(code.r, code.flags, code.pc, s.m.sp, s.m.mem), s.m.r[16])
  }

  // The handler runs from the struck machine m.
  function DoDerail(s: Sys, m: Machine): (s': Sys)
    requires Ok(s) && m.Valid()
    ensures Ok(s')
  {
    s.(m := Switched(m, ByTimer), mode := Halted(Derailed))
  }

  function Step(s: Sys, e: Event): (s': Sys)
    requires Enabled(s, e)
    ensures Ok(s')
  {
    match e
    case UserStep(cpu, sp, block) =>
      s.(m := Machine(cpu.r, cpu.flags, cpu.pc, sp, WriteBlock(s.m.mem, s.k.active, block)))
    case ChangePriority(priority) => s.(k := SetPriority(s.k, priority))
    case SwitchTask(entry) => DoSwitch(s, entry)
    case Kill => DoKill(s)
    case Spawn(priority, start) => DoSpawn(s, priority, start)
    case StartScheduler(priority, code, sp, block) => DoStart(s, priority, code, sp, block)
    case Pass(code, block) => DoPass(s, code, block)
    case Advance(pc) => s.(m := s.m.(pc := pc))
    case StrikeInSwitch(_, popped, pc) => DoDerail(s, Unreturned(s.m, popped, pc))
    case StrikeInMasking(code) => DoDerail(s, Masking(s, code))
  }

  /** A finite run: every event is enabled when its turn comes. */
  ghost predicate Reaches(s: Sys, es: seq<Event>, s': Sys)
    decreases |es|
  {
    if es == [] then s == s'
    else Enabled(s, es[0]) && Reaches(Step(s, es[0]), es[1..], s')
  }
}
