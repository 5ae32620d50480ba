/**
 The kernel data and the operations of scheduler.cpp, simplos.cpp and os.cpp on
 it, as functions of the old state. A failed ASSERT or FATAL_ERROR halts the
 machine for good; the operations return its reason.
 */
module KernelModel {
  import opened Wrappers
  import opened Layout
  import opened Avr
  import opened ContextSwitch
  import opened Priority

  datatype Kernel = Kernel(tasks: seq<Task>, queue: seq<nat>, position: nat, active: nat, pidCnt: Word, heapStart: Word)
  {
    // What holds from init_schedule on: sizes, index ranges, and one memory block per slot.
    ghost predicate Shape() {
      && |tasks| == TASKS_MAX && |queue| == QUEUE_LENGTH
      && position < QUEUE_LENGTH && active < TASKS_MAX
      && (forall i :: 0 <= i < TASKS_MAX ==> tasks[i].block == i)
      && InRange(queue, TASKS_MAX)
    }

    function Current(): Task
      requires Shape()
    {
      tasks[active]
    }
  }

  // The reasons for a halt. Derailed stands for no check of the source: the timer struck where the
  // scheduler does not survive it, and nothing is claimed about what its code does next.
  datatype Fatal =
    | QueueFull | NoTasks | PrevIntegrity | PrevReturnAddress | NextIntegrity | NextEmpty | NextScheduler
    | Derailed

  // ----- start-up (simplos.cpp, main.cpp) -----

  /** One slot after init_task_list. The pid and priority of the zeroed kernel data are kept. */
  function InitialTask(i: nat): Task
    requires i < TASKS_MAX
  {
    Task(High(i), 0, i, 0, Empty)
  }

  function InitialKernel(): (k: Kernel)
    ensures k.Shape()
  {
    Kernel([InitialTask(0), InitialTask(1), InitialTask(2), InitialTask(3), InitialTask(4)],
           [0, 0, 0, 0, 0, 0], 0, 0, 0, 0)
  }

  // The kernel data when main hands over to the idle task.
  function BootKernel(heapStart: Word): (k: Kernel)
    ensures k.Shape()
  {
    match CreateSimplosTask(InitialKernel(), 0)
    case Failure(_) => InitialKernel()
    case Success(created) =>
      created.0.(queue := created.0.queue[0 := created.1], position := 0, heapStart := heapStart)
  }

  // ----- creating and ending tasks (simplos.cpp) -----

  // The lowest EMPTY slot from i on, |tasks| if there is none.
  function FirstEmpty(tasks: seq<Task>, i: nat): (r: nat)
    requires i <= |tasks|
    ensures i <= r <= |tasks| && (r < |tasks| ==> tasks[r].status == Empty)
    ensures forall j :: i <= j < r ==> tasks[j].status != Empty
    decreases |tasks| - i
  {
    if i == |tasks| || tasks[i].status == Empty then i else FirstEmpty(tasks, i + 1)
  }

  function AddToTaskList(k: Kernel, priority: Byte): (r: Result<(Kernel, nat), Fatal>)
    requires k.Shape()
    ensures r.Success? ==> r.value.0.Shape() && r.value.1 < TASKS_MAX
  {
    var i := FirstEmpty(k.tasks, 0);
    if i == TASKS_MAX then Failure(QueueFull)
    else
      var t := k.tasks[i].(priority := priority, status := Ready, sp := High(k.tasks[i].block), pid := 0xFFFF);
      Success((k.(tasks := k.tasks[i := t]), i))
  }

  function CreateSimplosTask(k: Kernel, priority: Byte): (r: Result<(Kernel, nat), Fatal>)
    requires k.Shape()
    ensures r.Success? ==> r.value.0.Shape() && r.value.1 < TASKS_MAX
  {
    match AddToTaskList(k, priority)
    case Failure(e) => Failure(e)
    case Success(created) =>
      var (k1, i) := created;
      var t := k1.tasks[i].(status := Running, pid := k1.pidCnt);
      Success((k1.(tasks := k1.tasks[i := t], pidCnt := (k1.pidCnt + 1) % 0x10000), i))
  }

  /** spawn_task on the kernel data; callerSp is the stack pointer SAVE_CONTEXT left in task_sp. */
  function SpawnTask(k: Kernel, priority: Byte, callerSp: Word): (r: Result<Kernel, Fatal>)
    requires k.Shape()
    ensures r.Success? ==> r.value.Shape()
  {
    match CreateSimplosTask(k, priority)
    case Failure(e) => Failure(e)
    case Success(created) =>
      var (k1, i) := created;
      var caller := k1.active;
      var t := k1.tasks[caller].(status := Ready, sp := callerSp);
      Success(InvalidateQueue(k1.(tasks := k1.tasks[caller := t], active := i)))
  }

  function InvalidateQueue(k: Kernel): (k': Kernel)
    requires k.Shape()
    ensures k'.Shape()
  {
    k.(position := 0)
  }

  /** kill_current_task up to its k_yield. */
  function KillCurrentTask(k: Kernel): (k': Kernel)
    requires k.Shape()
    ensures k'.Shape()
  {
    InvalidateQueue(k.(tasks := k.tasks[k.active := k.Current().(status := Empty, sp := High(k.active))]))
  }

  // ----- user-level calls (os.cpp, simplos.cpp) -----

  function SetPriority(k: Kernel, priority: Byte): (k': Kernel)
    requires k.Shape()
    ensures k'.Shape()
  {
    k.(tasks := k.tasks[k.active := k.Current().(priority := priority)])
  }

  // The first slot from i on with this pid, |tasks| if there is none.
  function FindPid(tasks: seq<Task>, pid: Word, i: nat): (r: nat)
    requires i <= |tasks|
    ensures i <= r <= |tasks| && (r < |tasks| ==> tasks[r].pid == pid)
    ensures forall j :: i <= j < r ==> tasks[j].pid != pid
    decreases |tasks| - i
  {
    if i == |tasks| || tasks[i].pid == pid then i else FindPid(tasks, pid, i + 1)
  }

  function GetTask(k: Kernel, pid: Word): (r: Option<nat>)
    requires k.Shape()
    ensures r.Some? ==> r.value < TASKS_MAX
  {
    var i := FindPid(k.tasks, pid, 0);
    if i == TASKS_MAX then None else Some(i)
  }

  // task_status reads the slot that get_task found earlier, with other tasks possibly running in between.
  function StatusOfFound(k: Kernel, found: Option<nat>): Status
    requires k.Shape() && (found.Some? ==> found.value < TASKS_MAX)
  {
    match found
    case None => Empty
    case Some(i) => k.tasks[i].status
  }

  function TaskStatus(k: Kernel, pid: Word): Status
    requires k.Shape()
  {
    StatusOfFound(k, GetTask(k, pid))
  }

  // ----- the scheduler (scheduler.cpp) -----

  function Reschedule(k: Kernel): (r: Result<Kernel, Fatal>)
    requires k.Shape()
    ensures r.Success? ==> r.value.Shape()
  {
    PrioritizedExact(k.tasks);
    var q := Prioritized(k.tasks);
    if q == [] then Failure(NoTasks)
    else Success(k.(queue := q + k.queue[|q|..], position := |q| - 1))
  }

  /** select_next_task; the selected slot is the queue entry at the new position. */
  function SelectNextTask(k: Kernel): (r: Result<Kernel, Fatal>)
    requires k.Shape()
    ensures r.Success? ==> r.value.Shape()
  {
    if k.position == 0 then Reschedule(k) else Success(k.(position := k.position - 1))
  }

  function Selected(k: Kernel): (i: nat)
    requires k.Shape()
    ensures i < TASKS_MAX
  {
    k.queue[k.position]
  }

  // The three bytes that assert_stack_pointer_points_to_valid_return_address copies.
  function CheckedPc(mem: seq<Byte>, sp: Word): int
    requires |mem| == 0x10000
  {
    var a := sp + (FRAME_BYTES - 3 - 1);
    PcOf(mem[a % 0x10000], mem[(a + 1) % 0x10000], mem[(a + 2) % 0x10000])
  }

  // Its two assertions: bits 17 to 23 are clear, and the value is not zero.
  predicate ReturnAddressOk(mem: seq<Byte>, sp: Word)
    requires |mem| == 0x10000
  {
    CheckedPc(mem, sp) / 0x20000 % 0x80 == 0 && CheckedPc(mem, sp) != 0
  }

  // The same in terms of the bytes: saved SREG, r0 and the most significant byte of the PC.
  lemma ReturnBytes(mem: seq<Byte>, sp: Word)
    requires |mem| == 0x10000 && sp + 36 < 0x10000
    ensures ReturnAddressOk(mem, sp)
      <==> mem[sp + 34] <= 1 && !(mem[sp + 32] == 0 && mem[sp + 33] == 0 && mem[sp + 34] == 0)
  {
    hide PcOf;
    Within(sp + 32);
    Within(sp + 33);
    Within(sp + 34);
    LowBits(mem[sp + 32], mem[sp + 33], mem[sp + 34]);
  }

  lemma Within(a: nat)
    requires a < 0x10000
    ensures a % 0x10000 == a
  {
  }

  lemma LowBits(lo: int, mid: int, hi: int)
    requires 0 <= lo < 256 && 0 <= mid < 256 && 0 <= hi < 256
    ensures PcOf(lo, mid, hi) / 0x20000 % 0x80 == 0 && PcOf(lo, mid, hi) != 0
      <==> hi <= 1 && !(lo == 0 && mid == 0 && hi == 0)
  {
    var w := PcOf(lo, mid, hi);
    assert w / 0x20000 == hi / 2;
  }

  // The stack pointer handle_previous_task stores, and the status it sets.
  function Recorded(t: Task, mem: seq<Byte>): Task
    requires |mem| == 0x10000
  {
    match t.status
    case Scheduler => t.(sp := ReadWord(mem, SCHEDULER_TASK_SP))
    case Running => t.(sp := ReadWord(mem, PREV_TASK_SP), status := Ready)
    case _ => t
  }

  function HandlePreviousTask(k: Kernel, mem: seq<Byte>): (r: Result<Kernel, Fatal>)
    requires k.Shape() && |mem| == 0x10000
    ensures r.Success? ==> r.value.Shape()
  {
    if k.Current().status == Empty then Success(k)
    else
      var t := Recorded(k.Current(), mem);
      if !PointerIntegrity(mem, t.sp, t.block, k.heapStart) then Failure(PrevIntegrity)
      else if !ReturnAddressOk(mem, t.sp) then Failure(PrevReturnAddress)
      else Success(k.(tasks := k.tasks[k.active := t]))
  }

  function PrepareNextTask(k: Kernel, mem: seq<Byte>): (r: Result<Kernel, Fatal>)
    requires k.Shape()
    ensures r.Success? ==> r.value.Shape()
  {
    var t := k.Current();
    if !PointerIntegrity(mem, t.sp, t.block, k.heapStart) then Failure(NextIntegrity)
    else if t.status == Empty then Failure(NextEmpty)
    else if t.status == Scheduler then Failure(NextScheduler)
    else Success(k.(tasks := k.tasks[k.active := t.(status := Running)]))
  }

  /** One turn of the loop in start_scheduler, up to its k_yield. */
  function SchedulerPass(k: Kernel, mem: seq<Byte>): (r: Result<Kernel, Fatal>)
    requires k.Shape() && |mem| == 0x10000
    ensures r.Success? ==> r.value.Shape()
  {
    match HandlePreviousTask(k, mem)
    case Failure(e) => Failure(e)
    case Success(k1) =>
      match SelectNextTask(k1)
      case Failure(e) => Failure(e)
      case Success(k2) => PrepareNextTask(k2.(active := Selected(k2)), mem)
  }

  /** What the pass leaves in next_task_sp. */
  function NextSp(k: Kernel): Word
    requires k.Shape()
  {
    k.Current().sp
  }
}
