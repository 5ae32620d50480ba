/**
 The machine the kernel is meant to be: every task owns a private context that
 only it can change, and the next task is chosen by the simple policy. There is
 no shared memory, no frame, no stack pointer variable and no queue in it.
 */
module PrivateContexts {
  import opened Wrappers
  import opened Layout
  import opened Avr
  import opened ContextSwitch
  import opened Switch
  import opened ReturnPoint
  import opened Priority
  import opened KernelModel
  import opened KernelInvariant
  import opened System

  /** A context: the processor state and the live stack bytes, lowest address first. */
  datatype Context = Context(core: Core, stack: seq<Byte>)

  // tasks leaves every stack pointer field 0; saved has the contexts of the suspended tasks,
  // cur that of the running code and sched that of the scheduler while it is suspended.
  datatype State =
    | Live(tasks: seq<Task>, active: nat, pidCnt: Word, sb: nat, mode: Mode, ran: set<nat>, timsk: Byte,
           saved: seq<Option<Context>>, cur: Context, sched: Option<Core>)
    | Stopped(reason: Fatal)

  ghost predicate Wf(a: State) {
    && a.Live? && |a.tasks| == TASKS_MAX && |a.saved| == TASKS_MAX && a.active < TASKS_MAX && a.sb < TASKS_MAX
    && (a.mode.User? || a.mode.FirstPass? ==> a.sched.Some?)
    && (a.mode.User? || a.mode.Starting? ==> |a.cur.core.r| == 32 && 0 <= a.cur.core.pc < PC_SPACE)
    && (a.sched.Some? ==> |a.sched.value.r| == 32)
    && forall i :: 0 <= i < TASKS_MAX && a.saved[i].Some? ==> |a.saved[i].value.core.r| == 32
  }

  // ----- the checks, in terms of contexts -----

  /** The return-address check: it also turns down some good contexts. */
  predicate ReturnAccepted(c: Core)
    requires |c.r| == 32
  {
    c.pc < 0x20000 && !(SregByte(c.flags) == 0 && c.r[0] == 0 && c.pc < 0x10000)
  }

  /** The integrity check on the stack pointer a frame of this context leaves. */
  predicate StackAccepted(c: Core, b: nat)
    requires b < TASKS_MAX
  {
    Acceptable(c.sp - FRAME_BYTES, b)
  }

  // ----- steps -----

  function Suspended(c: Context): Context {
    c.(core := c.core.(flags := c.core.flags.(i := false)))
  }

  /** The running task is suspended and the scheduler goes on where it yielded. */
  function ToScheduler(a: State): State
    requires Wf(a) && a.sched.Some?
  {
    var mask := WithMt(a.timsk);
    a.(saved := a.saved[a.active := Some(Suspended(a.cur))],
       cur := Context(ResumedCore(a.sched.value, mask), []), sched := None, mode := InScheduler, timsk := mask)
  }

  /** The timer strikes the scheduler at its entry: the interrupted task's context is lost. */
  function TimerInScheduler(a: State): State
    requires Wf(a)
  {
    var mask := WithMt(a.timsk);
    a.(saved := a.saved[a.active := None],
       cur := Context(ResumedCore(Suspended(a.cur).core, mask), []), timsk := mask)
  }

  function End(a: State): State
    requires Wf(a) && a.sched.Some?
  {
    var t := a.tasks[a.active].(status := Empty);
    var a' := ToScheduler(a.(tasks := a.tasks[a.active := t], ran := ALL_SLOTS));
    a'.(saved := a'.saved[a.active := None])
  }

  /** A new task in the lowest EMPTY slot starts at once; the caller is suspended at its return point. */
  function Create(a: State, priority: Byte, start: Cpu): (b: State)
    requires Wf(a) && (a.mode.User? || a.mode.Starting?)
    ensures b.Live? ==> |b.tasks| == TASKS_MAX && b.active < TASKS_MAX
  {
    var i := FirstEmpty(a.tasks, 0);
    if i == TASKS_MAX then Stopped(QueueFull)
    else
      var caller := Suspended(a.cur);
      a.(tasks := a.tasks[i := Task(0, a.pidCnt, i, priority, Running)]
                    [a.active := a.tasks[a.active].(status := Ready)],
         active := i, pidCnt := (a.pidCnt + 1) % 0x10000, ran := ALL_SLOTS,
         saved := a.saved[a.active := Some(caller.(core := PlantedCore(caller.core)))],
         cur := Context(Core(start.r, start.flags.(i := true), start.pc, High(i)), []),
         timsk := WithMt(a.timsk))
  }

  // Between start_scheduler and its first pass only the stack pointer matters.
  function Resting(sp: int): Context {
    Context(Core([], Flags(false, false, false, false, false, false, false, false), 0, sp), [])
  }

  function Start(a: State, priority: Byte, code: Cpu, sp: int): State
    requires Wf(a) && a.mode.Starting? && code.Valid()
  {
    var b := Create(a, priority, code);
    if b.Stopped? then b
    else
      var i := b.active;
      b.(tasks := b.tasks[i := b.tasks[i].(status := Scheduler)],
         sched := Some(PlantedCore(Core(code.r, code.flags, code.pc, sp))),
         cur := Resting(sp - FRAME_BYTES), mode := FirstPass, sb := i)
  }

  // What the pass checks about the task that ran before it.
  function PreviousFault(a: State): Option<Fatal>
    requires Wf(a) && (a.mode.FirstPass? || a.mode.InScheduler?)
  {
    if a.tasks[a.active].status == Empty then None
    else
      var c := if a.mode.FirstPass? then a.sched
               else if a.saved[a.active].Some? then Some(a.saved[a.active].value.core) else None;
      if c.None? || !StackAccepted(c.value, a.active) then Some(PrevIntegrity)
      else if !ReturnAccepted(c.value) then Some(PrevReturnAddress)
      else None
  }

  // The scheduler yields to slot i; its own context is what its next turn starts from.
  function HandOver(a: State, tasks: seq<Task>, i: nat, code: Cpu): State
    requires Wf(a) && (a.mode.FirstPass? || a.mode.InScheduler?) && |tasks| == TASKS_MAX && i < TASKS_MAX
    requires a.saved[i].Some?
  {
    var mask := WithMt(a.timsk);
    var next := a.saved[i].value;
    a.(tasks := tasks[i := tasks[i].(status := Running)], active := i, mode := User,
       ran := RanAfter(tasks, a.ran, i), timsk := mask,
       saved := a.saved[i := None], cur := next.(core := ResumedCore(next.core, mask)),
       sched := if a.mode.FirstPass? then a.sched
                else Some(Core(code.r, code.flags.(i := false), code.pc, a.cur.core.sp)))
  }

  // The choice among the tasks as they are once the previous one is accounted for.
  function Elect(a: State, tasks: seq<Task>, code: Cpu): State
    requires Wf(a) && (a.mode.FirstPass? || a.mode.InScheduler?) && |tasks| == TASKS_MAX
  {
    match Best(tasks, Candidates(tasks, a.ran), TASKS_MAX)
    case None => Stopped(NoTasks)
    case Some(i) =>
      if a.saved[i].None? || !StackAccepted(a.saved[i].value.core, i) then Stopped(NextIntegrity)
      else HandOver(a, tasks, i, code)
  }

  function Schedule(a: State, code: Cpu): State
    requires Wf(a) && (a.mode.FirstPass? || a.mode.InScheduler?)
  {
    var fault := PreviousFault(a);
    if fault.Some? then Stopped(fault.value)
    else
      var prev := a.tasks[a.active];
      Elect(a, a.tasks[a.active := if prev.status == Running then prev.(status := Ready) else prev], code)
  }

  ghost predicate Applies(a: State, e: Event) {
    && Wf(a)
    && match e
       case UserStep(cpu, sp, block) =>
         (a.mode.User? || a.mode.Starting?) && |block| == TASK_MEMORY_SIZE && InBlock(sp, a.active)
       case ChangePriority(_) => true
       case SwitchTask(entry) => a.mode.User? || a.mode.InScheduler?
       case Kill => a.mode.User?
       case Spawn(_, start) => a.mode.User? && start.Valid()
       case StartScheduler(_, code, _, _) => a.mode.Starting? && code.Valid()
       case Pass(code, _) => (a.mode.FirstPass? || a.mode.InScheduler?) && code.Valid()
       case Advance(_) => a.mode.InScheduler?
       case StrikeInSwitch(_, _, _) => a.mode.User? && a.sched.Some? && a.sched.value.flags.i
       case StrikeInMasking(_) => a.mode.InScheduler?
  }

  /** One event on private contexts. */
  function Next(a: State, e: Event): State
    requires Applies(a, e)
  {
    match e
    case UserStep(cpu, sp, block) =>
      assert TASK_MEMORY_SIZE == 649;
      a.(cur := Context(Core(cpu.r, cpu.flags, cpu.pc, sp), block[sp + 1 - Low(a.active)..]))
    case ChangePriority(priority) =>
      a.(tasks := a.tasks[a.active := a.tasks[a.active].(priority := priority)])
    case SwitchTask(entry) => if a.mode.User? then ToScheduler(a) else TimerInScheduler(a)
    case Kill => End(a)
    case Spawn(priority, start) => Create(a, priority, start)
    case StartScheduler(priority, code, sp, _) => Start(a, priority, code, sp)
    case Pass(code, _) => Schedule(a, code)
    case Advance(pc) => a.(cur := a.cur.(core := a.cur.core.(pc := pc)))
    case StrikeInSwitch(_, _, _) => Stopped(Derailed)
    case StrikeInMasking(_) => Stopped(Derailed)
  }

  ghost predicate Reaches(a: State, es: seq<Event>, a': State)
    decreases |es|
  {
    if es == [] then a == a'
    else Applies(a, es[0]) && Reaches(Next(a, es[0]), es[1..], a')
  }
}
