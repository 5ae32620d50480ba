/**
 The kernel as an object: scheduler.cpp, simplos.cpp, memory.cpp and os.cpp with
 their loops and their updates in place. Every method computes the function of
 KernelModel that describes it. A method that returns a reason has halted.
 */
module KernelObject {
  import opened Wrappers
  import opened Layout
  import opened Avr
  import opened ContextSwitch
  import opened Switch
  import opened Priority
  import M = KernelModel
  import P = PrivateContexts
  import S = SchedulerSquare

  class Kernel {
    const tasks: array<Task>
    const queue: array<nat>
    const mem: array<Byte>
    var position: nat
    var active: nat
    var pidCnt: Word
    var heapStart: Word

    ghost predicate Sized()
      reads this
    {
      tasks.Length == TASKS_MAX && queue.Length == QUEUE_LENGTH && mem.Length == 0x10000
    }

    ghost function View(): M.Kernel
      reads this, tasks, queue
    {
      M.Kernel(tasks[..], queue[..], position, active, pidCnt, heapStart)
    }

    ghost predicate Valid()
      reads this, tasks, queue
    {
      Sized() && View().Shape()
    }

    // ----- memory.cpp and simplos.cpp: canaries and stack pointers -----

    /** The loop of init_memory. */
    method WriteCanaries()
      requires Sized()
      modifies mem
      ensures CanariesIntact(mem[..])
      ensures forall a :: 0 <= a < 0x10000 ==> mem[a] == if 0x200 <= a <= 0x204 then 0x66 else old(mem[a])
    {
      var a := CANARY_START;
      while a >= CANARY_END
        invariant CANARY_END - 1 <= a <= CANARY_START
        invariant forall b :: a < b <= CANARY_START ==> mem[b] == CANARY_VALUE
        invariant forall b :: 0 <= b < 0x10000 && !(a < b <= CANARY_START) ==> mem[b] == old(mem[b])
      {
        mem[a] := CANARY_VALUE;
        a := a - 1;
      }
    }

    method VerifyCanaries() returns (ok: bool)
      requires Sized()
      ensures ok <==> CanariesIntact(mem[..])
      ensures ok <==> mem[0x200] == mem[0x201] == mem[0x202] == mem[0x203] == mem[0x204] == 0x66
    {
      var a := CANARY_START;
      while a >= CANARY_END
        invariant CANARY_END - 1 <= a <= CANARY_START
        invariant forall b :: a < b <= CANARY_START ==> mem[..][b] == CANARY_VALUE
      {
        if mem[a] != CANARY_VALUE {
          assert mem[..][a] != CANARY_VALUE;
          return false;
        }
        a := a - 1;
      }
      return true;
    }

    /** assert_task_pointer_integrity passes exactly on the stack pointers with room for a frame in their block. */
    method CheckPointer(t: Task) returns (ok: bool)
      requires Sized() && t.block < TASKS_MAX
      ensures ok <==>
                && mem[0x200] == mem[0x201] == mem[0x202] == mem[0x203] == mem[0x204] == 0x66
                && 848 + 649 * t.block + 36 <= t.sp <= 1496 + 649 * t.block && 0x400 <= t.sp
      ensures ok <==> PointerIntegrity(mem[..], t.sp, t.block, heapStart)
    {
      PointerIntegrityExact(mem[..], t.sp, t.block, heapStart);
      if MemoryRegion(t.sp, heapStart) != TaskRam || !BelongsToTask(t.sp, t.block) {
        return false;
      }
      if !BelongsToTask((t.sp - FRAME_BYTES) % 0x10000, t.block) {
        return false;
      }
      var intact := VerifyCanaries();
      ok := intact && !(t.sp < Low(t.block) || t.sp > High(t.block));
    }

    // ----- simplos.cpp: tasks -----

    /** init_task_list and init_schedule. */
    method InitSchedule()
      requires Sized()
      modifies this`active, tasks
      ensures forall i :: 0 <= i < TASKS_MAX ==>
                tasks[i] == old(tasks[i]).(block := i, sp := 1496 + 649 * i, status := Empty)
      ensures active == 0
    {
      var i := 0;
      while i < TASKS_MAX
        invariant 0 <= i <= TASKS_MAX
        invariant forall j :: 0 <= j < i ==> tasks[j] == old(tasks[j]).(block := j, sp := High(j), status := Empty)
        invariant forall j :: i <= j < TASKS_MAX ==> tasks[j] == old(tasks[j])
      {
        tasks[i] := tasks[i].(block := i, sp := High(i), status := Empty);
        i := i + 1;
      }
      active := 0;
    }

    method AddToTaskList(priority: Byte) returns (r: Result<nat, M.Fatal>)
      requires Valid()
      modifies tasks
      ensures Valid()
      ensures match M.AddToTaskList(old(View()), priority)
              case Failure(e) => r == Failure(e)
              case Success(created) => r == Success(created.1) && View() == created.0
      ensures r.Success? || r == Failure(M.QueueFull)
      ensures r.Success? <==> exists i :: 0 <= i < 5 && old(tasks[i]).status == Empty
      ensures r.Success? ==>
                var i := r.value;
                && i < 5 && old(tasks[i]).status == Empty && (forall j :: 0 <= j < i ==> old(tasks[j]).status != Empty)
                && tasks[i] == Task(1496 + 649 * i, 0xFFFF, i, priority, Ready)
                && forall j :: 0 <= j < 5 && j != i ==> tasks[j] == old(tasks[j])
    {
      ghost var empty := M.FirstEmpty(tasks[..], 0);
      assert empty < 5 ==> tasks[empty].status == Empty;
      assert forall j :: 0 <= j < empty ==> tasks[..][j].status != Empty;
      var i := 0;
      while i < TASKS_MAX
        invariant 0 <= i <= TASKS_MAX && View() == old(View())
        invariant M.FirstEmpty(tasks[..], 0) == M.FirstEmpty(tasks[..], i)
      {
        if tasks[i].status == Empty {
          tasks[i] := tasks[i].(priority := priority, status := Ready, sp := High(tasks[i].block), pid := 0xFFFF);
          return Success(i);
        }
        i := i + 1;
      }
      return Failure(M.QueueFull);
    }

    method CreateSimplosTask(priority: Byte) returns (r: Result<nat, M.Fatal>)
      requires Valid()
      modifies this`pidCnt, tasks
      ensures Valid()
      ensures match M.CreateSimplosTask(old(View()), priority)
              case Failure(e) => r == Failure(e)
              case Success(created) => r == Success(created.1) && View() == created.0
      ensures r.Success? || r == Failure(M.QueueFull)
      ensures r.Success? <==> exists i :: 0 <= i < 5 && old(tasks[i]).status == Empty
      ensures r.Success? ==>
                var i := r.value;
                && i < 5 && old(tasks[i]).status == Empty && (forall j :: 0 <= j < i ==> old(tasks[j]).status != Empty)
                && tasks[i] == Task(1496 + 649 * i, old(pidCnt), i, priority, Running)
                && pidCnt == (if old(pidCnt) == 0xFFFF then 0 else old(pidCnt) + 1)
                && forall j :: 0 <= j < 5 && j != i ==> tasks[j] == old(tasks[j])
    {
      r := AddToTaskList(priority);
      if r.Success? {
        var i := r.value;
        tasks[i] := tasks[i].(status := Running, pid := pidCnt);
        pidCnt := (pidCnt + 1) % 0x10000;
      }
    }

    /** main's part of the start-up, on zeroed kernel data. */
    method Boot(heap: Word)
      requires Sized() && pidCnt == 0
      requires forall i :: 0 <= i < TASKS_MAX ==> tasks[i].pid == 0 && tasks[i].priority == 0
      requires forall i :: 0 <= i < QUEUE_LENGTH ==> queue[i] == 0
      modifies this, tasks, queue
      ensures Valid() && View() == M.BootKernel(heap)
      ensures tasks[0] == Task(1496, 0, 0, 0, Running)
      ensures forall i :: 1 <= i < 5 ==> tasks[i] == Task(1496 + 649 * i, 0, i, 0, Empty)
      ensures active == 0 && position == 0 && queue[0] == 0 && pidCnt == 1 && heapStart == heap
    {
      InvalidateQueue();
      InitSchedule();
      assert View() == M.InitialKernel().(heapStart := heapStart);
      var r := CreateSimplosTask(0);
      queue[0] := r.value;
      position := 0;
      heapStart := heap;
    }

    method InvalidateQueue()
      modifies this`position
      ensures View() == old(View()).(position := 0)
    {
      position := 0;
    }

    /** spawn_task on the kernel data; callerSp is task_sp after SAVE_CONTEXT. */
    method SpawnTask(priority: Byte, callerSp: Word) returns (fault: Option<M.Fatal>)
      requires Valid()
      modifies this`pidCnt, this`active, this`position, tasks
      ensures Valid()
      ensures match M.SpawnTask(old(View()), priority, callerSp)
              case Failure(e) => fault == Some(e)
              case Success(k) => fault == None && View() == k
      ensures fault == None || fault == Some(M.QueueFull)
      ensures fault == None <==> exists i :: 0 <= i < 5 && old(tasks[i]).status == Empty
      ensures fault == None && old(tasks[active]).status != Empty ==>
                && active < 5 && position == 0 && queue[..] == old(queue[..])
                && old(tasks[..])[active].status == Empty
                && (forall j :: 0 <= j < active ==> old(tasks[j]).status != Empty)
                && tasks[active] == Task(1496 + 649 * active, old(pidCnt), active, priority, Running)
                && tasks[old(active)] == old(tasks[active]).(status := Ready, sp := callerSp)
                && forall j :: 0 <= j < 5 && j != active && j != old(active) ==> tasks[j] == old(tasks[j])
    {
      var r := CreateSimplosTask(priority);
      if r.Failure? {
        return Some(r.error);
      }
      var i := r.value;
      var caller := active;
      tasks[i] := tasks[i].(status := Running);
      tasks[caller] := tasks[caller].(status := Ready);
      active := i;
      tasks[caller] := tasks[caller].(sp := callerSp);
      InvalidateQueue();
      fault := None;
    }

    /** kill_current_task up to its k_yield. */
    method KillCurrentTask()
      requires Valid()
      modifies this`position, tasks
      ensures Valid() && View() == M.KillCurrentTask(old(View()))
      ensures tasks[active] == old(tasks[active]).(status := Empty, sp := 1496 + 649 * active) && position == 0
      ensures forall j :: 0 <= j < 5 && j != active ==> tasks[j] == old(tasks[j])
    {
      tasks[active] := tasks[active].(status := Empty, sp := High(active));
      InvalidateQueue();
    }

    method GetTask(pid: Word) returns (r: Option<nat>)
      requires Valid()
      ensures r == M.GetTask(View(), pid)
      ensures r == None <==> forall j :: 0 <= j < 5 ==> tasks[j].pid != pid
      ensures forall i: nat :: r == Some(i) ==>
                i < 5 && tasks[i].pid == pid && forall j :: 0 <= j < i ==> tasks[j].pid != pid
    {
      ghost var found := M.FindPid(tasks[..], pid, 0);
      assert found < 5 ==> tasks[found].pid == pid;
      assert forall j :: 0 <= j < found ==> tasks[..][j].pid != pid;
      var i := 0;
      while i < TASKS_MAX
        invariant 0 <= i <= TASKS_MAX
        invariant M.FindPid(tasks[..], pid, 0) == M.FindPid(tasks[..], pid, i)
      {
        if tasks[i].pid == pid {
          return Some(i);
        }
        i := i + 1;
      }
      return None;
    }

    method TaskStatus(pid: Word) returns (s: Status)
      requires Valid()
      ensures s == M.TaskStatus(View(), pid)
      ensures forall i :: 0 <= i < 5 && tasks[i].pid == pid && (forall j :: 0 <= j < i ==> tasks[j].pid != pid) ==>
                s == tasks[i].status
      ensures (forall i :: 0 <= i < 5 ==> tasks[i].pid != pid) ==> s == Empty
    {
      var r := GetTask(pid);
      s := if r.None? then Empty else tasks[r.value].status;
    }

    // ----- os.cpp -----

    method SetPriority(priority: Byte)
      requires Valid()
      modifies tasks
      ensures Valid() && View() == M.SetPriority(old(View()), priority)
      ensures tasks[active] == old(tasks[active]).(priority := priority)
      ensures forall j :: 0 <= j < 5 && j != active ==> tasks[j] == old(tasks[j])
    {
      tasks[active] := tasks[active].(priority := priority);
    }

    /** pid() names the running task: task_status finds a task with that pid. */
    method Pid() returns (p: Word)
      requires Valid()
      ensures p == tasks[active].pid && M.GetTask(View(), p).Some?
    {
      p := tasks[active].pid;
      ghost var i := M.FindPid(tasks[..], p, 0);
      assert tasks[..][active].pid == p;
    }

    // ----- scheduler.cpp -----

    /** prioritize_tasks: the nested loops write the queue of the policy and nothing behind it. */
    method PrioritizeTasks() returns (num: nat)
      requires Valid()
      modifies queue
      ensures Valid() && num == |Prioritized(tasks[..])| <= TASKS_MAX
      ensures queue[..] == Prioritized(tasks[..]) + old(queue[..])[num..]
      ensures forall i :: i in queue[..num] <==> 0 <= i < 5 && tasks[i].status == Ready && tasks[i].priority <= 254
      ensures forall j, k :: 0 <= j < k < num ==>
                && queue[j] < 5 && queue[k] < 5
                && (tasks[queue[j]].priority < tasks[queue[k]].priority
                   || (tasks[queue[j]].priority == tasks[queue[k]].priority && queue[j] < queue[k]))
    {
      hide Levels, Level, Prioritized, UpTo, Filled, Ordered, Distinct;
      num := 0;
      var priority := 0;
      ghost var ts, rest := tasks[..], queue[..];
      NothingYet(ts, rest);
      while priority < UINT8_MAX
        invariant 0 <= priority <= UINT8_MAX
        invariant num == |UpTo(ts, priority, 0)| <= TASKS_MAX
        invariant queue[..] == Filled(UpTo(ts, priority, 0), rest)
      {
        var i := 0;
        while i < TASKS_MAX
          invariant 0 <= i <= TASKS_MAX
          invariant num == |UpTo(ts, priority, i)| <= TASKS_MAX
          invariant queue[..] == Filled(UpTo(ts, priority, i), rest)
        {
          UpToStep(ts, priority, i);
          FilledStep(UpTo(ts, priority, i), rest, i);
          if tasks[i].status == Ready && tasks[i].priority == priority {
            queue[num] := i;
            num := num + 1;
          }
          i := i + 1;
        }
        NextLevel(ts, priority);
        priority := priority + 1;
      }
      PrioritizedExact(ts);
      Finished(ts, rest);
      assert queue[..num] == Prioritized(ts);
      assert forall j :: 0 <= j < num ==> queue[j] == Prioritized(ts)[j];
    }

    method Reschedule() returns (fault: Option<M.Fatal>)
      requires Valid()
      modifies this`position, queue
      ensures Valid()
      ensures match M.Reschedule(old(View()))
              case Failure(e) => fault == Some(e)
              case Success(k) => fault == None && View() == k
      ensures fault == None || fault == Some(M.NoTasks)
      ensures fault == None <==> exists i :: 0 <= i < 5 && tasks[i].status == Ready && tasks[i].priority <= 254
      ensures fault == None ==> forall i :: i in queue[..position + 1] <==>
                0 <= i < 5 && tasks[i].status == Ready && tasks[i].priority <= 254
    {
      var num := PrioritizeTasks();
      assert num > 0 ==> queue[0] in queue[..num];
      if num == 0 {
        return Some(M.NoTasks);
      }
      position := num - 1;
      fault := None;
    }

    /** select_next_task; it also puts the selected stack pointer into next_task_sp. */
    method SelectNextTask() returns (fault: Option<M.Fatal>, selected: nat)
      requires Valid()
      modifies this`position, queue, mem
      ensures Valid() && selected < TASKS_MAX
      ensures match M.SelectNextTask(old(View()))
              case Failure(e) => fault == Some(e) && mem[..] == old(mem[..])
              case Success(k) =>
                && fault == None && View() == k && selected == M.Selected(k)
                && mem[..] == WriteWord(old(mem[..]), NEXT_TASK_SP, k.tasks[selected].sp)
      ensures fault == None ==> selected == queue[position] && ReadWord(mem[..], 0x20FC) == tasks[selected].sp
      ensures old(position) > 0 ==> fault == None && position == old(position) - 1 && queue[..] == old(queue[..])
    {
      selected := 0;
      fault := None;
      if position == 0 {
        fault := Reschedule();
        if fault.Some? {
          return;
        }
      } else {
        position := position - 1;
      }
      selected := queue[position];
      assert View().Shape() && selected == M.Selected(View());
      mem[NEXT_TASK_SP] := Lo(tasks[selected].sp);
      mem[NEXT_TASK_SP + 1] := Hi(tasks[selected].sp);
      ReadWritten(old(mem[..]), NEXT_TASK_SP, tasks[selected].sp);
    }

    method LoadWord(a: nat) returns (w: Word)
      requires Sized() && a < 0xFFFF
      ensures w == ReadWord(mem[..], a)
    {
      w := Word16(mem[a], mem[a + 1]);
    }

    /**
     For a stack pointer with a frame above it: passes iff the saved PC is below 2^17
     and SREG, r0 and the most significant PC byte are not all 0.
     */
    method CheckReturnAddress(sp: Word) returns (ok: bool)
      requires Sized()
      ensures ok <==> M.ReturnAddressOk(mem[..], sp)
      ensures sp + FRAME_BYTES < 0x10000 ==> (ok <==> P.ReturnAccepted(FrameCore(mem[..], sp)))
      ensures sp + 36 < 0x10000 ==>
                (ok <==> mem[sp + 34] <= 1 && !(mem[sp + 32] == 0 && mem[sp + 33] == 0 && mem[sp + 34] == 0))
    {
      var a := sp + (FRAME_BYTES - 3 - 1);
      var pc := PcOf(mem[a % 0x10000], mem[(a + 1) % 0x10000], mem[(a + 2) % 0x10000]);
      ok := pc / 0x20000 % 0x80 == 0 && pc != 0;
      if sp + FRAME_BYTES < 0x10000 {
        hide M.ReturnAddressOk, FrameCore, P.ReturnAccepted, PcOf;
        S.ReturnCheckExact(mem[..], sp);
        M.ReturnBytes(mem[..], sp);
      }
    }

    method HandlePreviousTask() returns (fault: Option<M.Fatal>)
      requires Valid()
      modifies tasks
      ensures Valid()
      ensures match M.HandlePreviousTask(old(View()), mem[..])
              case Failure(e) => fault == Some(e)
              case Success(k) => fault == None && View() == k
      ensures var t := old(tasks[active]);
              fault == None ==> tasks[..] == old(tasks[..])[active :=
                match t.status
                case Scheduler => t.(sp := ReadWord(mem[..], 0x20FE))
                case Running => t.(sp := ReadWord(mem[..], 0x20FA), status := Ready)
                case _ => t]
      ensures var t := old(tasks[active]);
              var sp: int := match t.status
                             case Scheduler => ReadWord(mem[..], 0x20FE)
                             case Running => ReadWord(mem[..], 0x20FA)
                             case _ => t.sp;
              var sound := && mem[0x200] == mem[0x201] == mem[0x202] == mem[0x203] == mem[0x204] == 0x66
                           && 848 + 649 * active + 36 <= sp <= 1496 + 649 * active && 0x400 <= sp;
              && (fault == Some(M.PrevIntegrity) <==> t.status != Empty && !sound)
              && (fault == Some(M.PrevReturnAddress) <==>
                    && t.status != Empty && sound
                    && (mem[sp + 34] > 1 || (mem[sp + 32] == 0 && mem[sp + 33] == 0 && mem[sp + 34] == 0)))
    {
      hide FrameCore, P.ReturnAccepted, M.ReturnAddressOk, PointerIntegrity;
      var status := tasks[active].status;
      if status == Empty {
        return None;
      }
      if status == Scheduler {
        var sp := LoadWord(SCHEDULER_TASK_SP);
        tasks[active] := tasks[active].(sp := sp, status := Scheduler);
      } else if status == Running {
        var sp := LoadWord(PREV_TASK_SP);
        tasks[active] := tasks[active].(sp := sp, status := Ready);
      }
      assert tasks[active] == M.Recorded(old(tasks[active]), mem[..]);
      var ok := CheckPointer(tasks[active]);
      if !ok {
        return Some(M.PrevIntegrity);
      }
      ok := CheckReturnAddress(tasks[active].sp);
      fault := if ok then None else Some(M.PrevReturnAddress);
    }

    method PrepareNextTask() returns (fault: Option<M.Fatal>)
      requires Valid()
      modifies tasks
      ensures Valid()
      ensures match M.PrepareNextTask(old(View()), mem[..])
              case Failure(e) => fault == Some(e)
              case Success(k) => fault == None && View() == k
      ensures fault == None ==>
                && old(tasks[active]).status != Empty && old(tasks[active]).status != Scheduler
                && tasks[..] == old(tasks[..])[active := old(tasks[active]).(status := Running)]
      ensures var t := old(tasks[active]);
              var sound := && mem[0x200] == mem[0x201] == mem[0x202] == mem[0x203] == mem[0x204] == 0x66
                           && 848 + 649 * active + 36 <= t.sp <= 1496 + 649 * active && 0x400 <= t.sp;
              && (fault == Some(M.NextIntegrity) <==> !sound)
              && (fault == Some(M.NextEmpty) <==> sound && t.status == Empty)
              && (fault == Some(M.NextScheduler) <==> sound && t.status == Scheduler)
    {
      var ok := CheckPointer(tasks[active]);
      if !ok {
        return Some(M.NextIntegrity);
      }
      if tasks[active].status == Empty {
        return Some(M.NextEmpty);
      } else if tasks[active].status == Scheduler {
        return Some(M.NextScheduler);
      }
      tasks[active] := tasks[active].(status := Running);
      fault := None;
    }

    /** One turn of the scheduler's loop, up to its k_yield. */
    method SchedulerPass() returns (fault: Option<M.Fatal>)
      requires Valid()
      modifies this`position, this`active, tasks, queue, mem
      ensures Valid()
      ensures match M.SchedulerPass(old(View()), old(mem[..]))
              case Failure(e) => fault == Some(e)
              case Success(k) =>
                fault == None && View() == k && mem[..] == WriteWord(old(mem[..]), NEXT_TASK_SP, M.NextSp(k))
    {
      fault := HandlePreviousTask();
      if fault.Some? {
        return;
      }
      ghost var k1 := View();
      var selected: nat;
      fault, selected := SelectNextTask();
      if fault.Some? {
        return;
      }
      active := selected;
      SameIntegrity(old(mem[..]), mem[..], View());
      fault := PrepareNextTask();
    }
  }

  // The queue once the slots below i of priority p have been looked at.
  function UpTo(tasks: seq<Task>, p: nat, i: nat): (q: seq<nat>)
    requires i <= |tasks|
  {
    Levels(tasks, p) + Level(tasks, p, i)
  }

  // The queue array once its first entries are q.
  function Filled(q: seq<nat>, rest: seq<nat>): (r: seq<nat>)
    requires |q| <= |rest|
    ensures |r| == |rest|
  {
    q + rest[|q|..]
  }

  lemma FilledStep(q: seq<nat>, rest: seq<nat>, i: nat)
    requires |q| < |rest|
    ensures Filled(q, rest)[|q| := i] == Filled(q + [i], rest)
  {
  }

  lemma NothingYet(tasks: seq<Task>, rest: seq<nat>)
    ensures UpTo(tasks, 0, 0) == [] && Filled([], rest) == rest
  {
  }

  lemma NextLevel(tasks: seq<Task>, p: nat)
    ensures UpTo(tasks, p + 1, 0) == UpTo(tasks, p, |tasks|)
  {
  }

  lemma Finished(tasks: seq<Task>, rest: seq<nat>)
    requires |tasks| == TASKS_MAX && |rest| == QUEUE_LENGTH && InRange(rest, TASKS_MAX)
    requires |Prioritized(tasks)| <= TASKS_MAX
    ensures UpTo(tasks, UINT8_MAX, 0) == Prioritized(tasks)
    ensures Filled(Prioritized(tasks), rest) == Prioritized(tasks) + rest[|Prioritized(tasks)|..]
    ensures InRange(Filled(Prioritized(tasks), rest), TASKS_MAX)
  {
    PrioritizedExact(tasks);
  }

  lemma UpToStep(tasks: seq<Task>, p: nat, i: nat)
    requires i < |tasks|
    ensures UpTo(tasks, p, i + 1) == if ReadyAt(tasks, i, p) then UpTo(tasks, p, i) + [i] else UpTo(tasks, p, i)
    ensures |UpTo(tasks, p, i + 1)| <= |tasks|
  {
    hide Before;
    LevelsExact(tasks, p);
    LevelExact(tasks, p, i + 1);
    OrderedAppend(tasks, Levels(tasks, p), Level(tasks, p, i + 1), p);
    OrderedIsDistinct(tasks, UpTo(tasks, p, i + 1));
    DistinctBound(UpTo(tasks, p, i + 1), |tasks|);
  }

  lemma OrderedIsDistinct(tasks: seq<Task>, q: seq<nat>)
    requires Ordered(tasks, q)
    ensures Distinct(q)
  {
    assert forall j, k :: 0 <= j < k < |q| ==> Before(tasks, q[j], q[k]);
  }

  // next_task_sp is not among the bytes the checks look at.
  lemma SameIntegrity(mem: seq<Byte>, mem': seq<Byte>, k: M.Kernel)
    requires |mem| == 0x10000 && k.Shape() && mem' == WriteWord(mem, NEXT_TASK_SP, k.Current().sp)
    ensures M.PrepareNextTask(k, mem') == M.PrepareNextTask(k, mem)
  {
    hide Lo, Hi, PointerIntegrity;
    assert forall a :: CANARY_END <= a <= CANARY_START ==> mem'[a] == mem[a];
    assert CanariesIntact(mem') <==> CanariesIntact(mem);
    PointerIntegrityExact(mem, k.Current().sp, k.Current().block, k.heapStart);
    PointerIntegrityExact(mem', k.Current().sp, k.Current().block, k.heapStart);
  }
}
