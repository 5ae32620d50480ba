/**
 What every kernel operation keeps: who is RUNNING, what the unconsumed part of
 the run queue stands for, and which slot runs next.
 */
module KernelInvariant {
  import opened Wrappers
  import opened Layout
  import opened Priority
  import opened KernelModel

  datatype Mode = Starting | FirstPass | User | InScheduler | Halted(reason: Fatal)

  const ALL_SLOTS: set<nat> := {0, 1, 2, 3, 4}

  // ----- the simple policy -----

  /** The schedulable slots that have not run in this round. */
  function Waiting(tasks: seq<Task>, ran: set<nat>): set<nat> {
    SchedulableSlots(tasks) - ran
  }

  // The candidates of the next pass: a new round starts when nobody is left.
  function Candidates(tasks: seq<Task>, ran: set<nat>): set<nat> {
    if Waiting(tasks, ran) == {} then SchedulableSlots(tasks) else Waiting(tasks, ran)
  }

  // Who has run once the slot next is chosen.
  function RanAfter(tasks: seq<Task>, ran: set<nat>, next: nat): set<nat> {
    if Waiting(tasks, ran) == {} then {next} else ran + {next}
  }

  /** The best candidate below n: highest priority, ties to the highest slot. */
  function Best(tasks: seq<Task>, c: set<nat>, n: nat): (r: Option<nat>)
    requires n <= |tasks|
    ensures r.Some? ==> r.value < n && r.value in c
  {
    if n == 0 then None
    else
      var r := Best(tasks, c, n - 1);
      if n - 1 in c && (r.None? || tasks[r.value].priority <= tasks[n - 1].priority) then Some(n - 1) else r
  }

  lemma {:induction false} BestExact(tasks: seq<Task>, c: set<nat>, n: nat)
    requires n <= |tasks|
    ensures Best(tasks, c, n).None? <==> forall i :: i in c ==> i >= n
    ensures Best(tasks, c, n).Some? ==>
              forall i :: i in c && i < n && i != Best(tasks, c, n).value ==> Before(tasks, i, Best(tasks, c, n).value)
  {
    if n > 0 {
      BestExact(tasks, c, n - 1);
    }
  }

  /** The last element of an ordered queue is the best of its members. */
  lemma LastIsBest(tasks: seq<Task>, q: seq<nat>)
    requires Ordered(tasks, q) && q != []
    ensures Best(tasks, Members(q), |tasks|) == Some(q[|q| - 1])
  {
    DropLast(tasks, q);
    BestExact(tasks, Members(q), |tasks|);
  }

  // ----- the invariant -----

  /** The unconsumed part of the queue is the ordered list of the slots that wait in this round. */
  ghost predicate Round(k: Kernel, ran: set<nat>)
    requires k.Shape()
  {
    var q := k.queue[..k.position];
    Ordered(k.tasks, q) && Members(q) == Waiting(k.tasks, ran)
  }

  ghost predicate Statuses(k: Kernel, sb: nat, mode: Mode)
    requires k.Shape()
  {
    match mode
    case Starting =>
      && k.active == 0 && k.tasks[0].status == Running
      && forall i :: 0 < i < TASKS_MAX ==> k.tasks[i].status == Empty
    case FirstPass =>
      && k.active == sb && sb < TASKS_MAX && k.tasks[sb].status == Scheduler
      && forall i :: 0 <= i < TASKS_MAX && i != sb ==> k.tasks[i].status == Ready || k.tasks[i].status == Empty
    case User =>
      && k.active != sb && sb < TASKS_MAX && k.tasks[sb].status == Scheduler && k.tasks[k.active].status == Running
      && forall i :: 0 <= i < TASKS_MAX && i != sb && i != k.active ==>
           k.tasks[i].status == Ready || k.tasks[i].status == Empty
    case InScheduler =>
      && k.active != sb && sb < TASKS_MAX && k.tasks[sb].status == Scheduler
      && (k.tasks[k.active].status == Running || k.tasks[k.active].status == Empty)
      && forall i :: 0 <= i < TASKS_MAX && i != sb && i != k.active ==>
           k.tasks[i].status == Ready || k.tasks[i].status == Empty
    case Halted(_) => true
  }

  ghost predicate KInv(k: Kernel, sb: nat, mode: Mode, ran: set<nat>) {
    && k.Shape() && Statuses(k, sb, mode) && Round(k, ran)
    && (k.active in ran || mode.FirstPass?)
  }

  // ----- what keeps it -----

  lemma NewRound(k: Kernel)
    requires k.Shape() && k.position == 0
    ensures Round(k, ALL_SLOTS)
  {
    assert k.queue[..0] == [];
  }

  // Two task lists on which the members of a queue look the same.
  lemma SameRound(k: Kernel, k': Kernel, ran: set<nat>)
    requires k.Shape() && k'.Shape() && Round(k, ran)
    requires k'.queue == k.queue && k'.position == k.position
    requires forall i :: 0 <= i < TASKS_MAX && i !in ran ==>
               && k'.tasks[i].status == k.tasks[i].status
               && (k.tasks[i].status == Ready ==> k'.tasks[i].priority == k.tasks[i].priority)
    ensures Round(k', ran)
  {
    var q := k.queue[..k.position];
    assert Waiting(k'.tasks, ran) == Waiting(k.tasks, ran);
    forall j | 0 <= j < |q|
      ensures q[j] !in ran && Schedulable(k.tasks, q[j])
    {
      assert q[j] in Members(q);
    }
  }

  /** set_priority changes only the active task, which is never in the unconsumed queue. */
  lemma SetPriorityKeeps(k: Kernel, sb: nat, ran: set<nat>, mode: Mode, priority: Byte)
    requires KInv(k, sb, mode, ran) && (mode.User? || mode.Starting?)
    ensures KInv(SetPriority(k, priority), sb, mode, ran)
  {
    SameRound(k, SetPriority(k, priority), ran);
  }

  lemma KillKeeps(k: Kernel, sb: nat, ran: set<nat>)
    requires KInv(k, sb, User, ran)
    ensures KInv(KillCurrentTask(k), sb, InScheduler, ALL_SLOTS)
  {
    NewRound(KillCurrentTask(k));
  }

  /** spawn_task takes the lowest EMPTY slot, runs it at once, and touches no other slot but the caller's. */
  lemma SpawnExact(k: Kernel, priority: Byte, callerSp: Word)
    requires k.Shape() && k.Current().status != Empty
    ensures var i := FirstEmpty(k.tasks, 0);
            if i == TASKS_MAX then
              SpawnTask(k, priority, callerSp) == Failure(QueueFull)
            else
              var r := SpawnTask(k, priority, callerSp);
              && r.Success? && i != k.active
              && var k' := r.value;
                 && k'.active == i && k'.position == 0 && k'.queue == k.queue && k'.heapStart == k.heapStart
                 && k'.pidCnt == (k.pidCnt + 1) % 0x10000
                 && k'.tasks[i] == Task(High(i), k.pidCnt, i, priority, Running)
                 && k'.tasks[k.active] == k.Current().(status := Ready, sp := callerSp)
                 && forall j :: 0 <= j < TASKS_MAX && j != i && j != k.active ==> k'.tasks[j] == k.tasks[j]
  {
  }

  lemma SpawnKeeps(k: Kernel, sb: nat, ran: set<nat>, priority: Byte, callerSp: Word)
    requires KInv(k, sb, User, ran)
    ensures var r := SpawnTask(k, priority, callerSp);
            r.Success? ==> KInv(r.value, sb, User, ALL_SLOTS)
  {
    SpawnExact(k, priority, callerSp);
    var r := SpawnTask(k, priority, callerSp);
    if r.Success? {
      NewRound(r.value);
    }
  }

  // ----- the scheduler pass -----

  lemma EmptyQueue(q: seq<nat>)
    ensures Members(q) == {} <==> q == []
  {
    if q != [] {
      assert q[0] in Members(q);
    }
  }

  // Consuming the last element of an ordered queue.
  lemma Consume(tasks: seq<Task>, q: seq<nat>)
    requires Ordered(tasks, q) && q != []
    ensures Ordered(tasks, q[..|q| - 1]) && Members(q[..|q| - 1]) == Members(q) - {q[|q| - 1]}
    ensures Best(tasks, Members(q), |tasks|) == Some(q[|q| - 1])
  {
    DropLast(tasks, q);
    LastIsBest(tasks, q);
  }

  /**
   The precomputed queue selects what the policy selects: the best schedulable
   slot that has not run in this round, or of all of them when a round ends.
   */
  lemma SelectExact(k: Kernel, ran: set<nat>)
    requires k.Shape() && Round(k, ran)
    ensures var c := Candidates(k.tasks, ran);
            match SelectNextTask(k)
            case Failure(e) => e == NoTasks && c == {} && Best(k.tasks, c, TASKS_MAX) == None
            case Success(k') =>
              && k' == k.(queue := k'.queue, position := k'.position)
              && Best(k.tasks, c, TASKS_MAX) == Some(Selected(k'))
              && Ordered(k.tasks, k'.queue[..k'.position])
              && Members(k'.queue[..k'.position]) == c - {Selected(k')}
  {
    var q := k.queue[..k.position];
    EmptyQueue(q);
    if k.position == 0 {
      PrioritizedExact(k.tasks);
      var p := Prioritized(k.tasks);
      EmptyQueue(p);
      assert Members(p) == SchedulableSlots(k.tasks);
      BestExact(k.tasks, Candidates(k.tasks, ran), TASKS_MAX);
      if p != [] {
        Consume(k.tasks, p);
        var k' := SelectNextTask(k).value;
        assert k'.queue[..k'.position] == p[..|p| - 1];
      }
    } else {
      Consume(k.tasks, q);
      assert k.queue[..k.position - 1] == q[..|q| - 1];
    }
  }

  // The kernel once the previous task is accounted for, with its checks passed.
  lemma HandleKeepsRound(k: Kernel, sb: nat, mode: Mode, ran: set<nat>, mem: seq<Byte>)
    requires KInv(k, sb, mode, ran) && (mode.FirstPass? || mode.InScheduler?) && |mem| == 0x10000
    ensures var r := HandlePreviousTask(k, mem);
            r.Success? ==>
              && Round(r.value, ran)
              && r.value == k.(tasks := k.tasks[k.active :=
                   if k.Current().status == Empty then k.Current() else Recorded(k.Current(), mem)])
              && forall i :: 0 <= i < TASKS_MAX && i != sb ==>
                   r.value.tasks[i].status == Ready || r.value.tasks[i].status == Empty
  {
    var r := HandlePreviousTask(k, mem);
    if r.Success? {
      assert k.Current().status == Empty ==> k == k.(tasks := k.tasks[k.active := k.Current()]);
      SameRound(k, r.value, ran);
    }
  }

  // Marking the selected slot RUNNING takes it out of the schedulable ones and no other.
  lemma RunningLeaves(tasks: seq<Task>, tasks': seq<Task>, ran: set<nat>, i: nat)
    requires i < |tasks| == |tasks'| && tasks' == tasks[i := tasks[i].(status := Running)]
    requires i in Candidates(tasks, ran)
    ensures Waiting(tasks', RanAfter(tasks, ran, i)) == Candidates(tasks, ran) - {i}
  {
  }

  lemma OrderedElsewhere(tasks: seq<Task>, tasks': seq<Task>, q: seq<nat>, i: nat)
    requires i < |tasks| == |tasks'| && tasks' == tasks[i := tasks[i].(status := Running)]
    requires Ordered(tasks, q)
    ensures Ordered(tasks', q)
  {
  }

  /**
   Every pass that does not halt hands over from the invariant of the scheduler to
   that of user code, to the slot the policy chooses; and of its fatal branches
   those for an EMPTY or SCHEDULER next task are never taken.
   */
  lemma PassKeeps(k: Kernel, sb: nat, mode: Mode, ran: set<nat>, mem: seq<Byte>)
    requires KInv(k, sb, mode, ran) && (mode.FirstPass? || mode.InScheduler?) && |mem| == 0x10000
    ensures match HandlePreviousTask(k, mem)
            case Failure(e) => SchedulerPass(k, mem) == Failure(e) && (e == PrevIntegrity || e == PrevReturnAddress)
            case Success(k1) =>
              var c := Candidates(k1.tasks, ran);
              match Best(k1.tasks, c, TASKS_MAX)
              case None => SchedulerPass(k, mem) == Failure(NoTasks) && c == {}
              case Some(i) =>
                match SchedulerPass(k, mem)
                case Failure(e) => e == NextIntegrity && !PointerIntegrity(mem, k1.tasks[i].sp, i, k.heapStart)
                case Success(k') =>
                  && PointerIntegrity(mem, k1.tasks[i].sp, i, k.heapStart)
                  && k1.tasks[i].status == Ready && i != sb
                  && k'.active == i && k'.tasks == k1.tasks[i := k1.tasks[i].(status := Running)]
                  && k'.pidCnt == k.pidCnt && k'.heapStart == k.heapStart
                  && KInv(k', sb, User, RanAfter(k1.tasks, ran, i))
  {
    hide PointerIntegrity, ReturnAddressOk, Best, Before;
    var r1 := HandlePreviousTask(k, mem);
    if r1.Success? {
      var k1 := r1.value;
      HandleKeepsRound(k, sb, mode, ran, mem);
      SelectExact(k1, ran);
      var r2 := SelectNextTask(k1);
      if r2.Success? {
        var i := Selected(r2.value);
        assert i in Candidates(k1.tasks, ran) && Schedulable(k1.tasks, i);
        var r := SchedulerPass(k, mem);
        if r.Success? {
          RunningLeaves(k1.tasks, r.value.tasks, ran, i);
          OrderedElsewhere(k1.tasks, r.value.tasks, r.value.queue[..r.value.position], i);
        }
      }
    }
  }

  /** When no task can be scheduled: exactly when no live task but the scheduler has a priority below 255. */
  lemma NoTasksExact(k: Kernel, sb: nat, mode: Mode, ran: set<nat>, mem: seq<Byte>)
    requires KInv(k, sb, mode, ran) && (mode.FirstPass? || mode.InScheduler?) && |mem| == 0x10000
    requires HandlePreviousTask(k, mem).Success?
    ensures SchedulerPass(k, mem) == Failure(NoTasks)
      <==> forall i :: 0 <= i < TASKS_MAX && i != sb && k.tasks[i].status != Empty ==> k.tasks[i].priority == 255
  {
    hide PointerIntegrity, ReturnAddressOk, Best, RanAfter, Before, SchedulerPass, Round, Ordered;
    PassKeeps(k, sb, mode, ran, mem);
    HandleKeepsRound(k, sb, mode, ran, mem);
    var k1 := HandlePreviousTask(k, mem).value;
    BestExact(k1.tasks, Candidates(k1.tasks, ran), TASKS_MAX);
    if i :| 0 <= i < TASKS_MAX && i != sb && k.tasks[i].status != Empty && k.tasks[i].priority != 255 {
      assert Schedulable(k1.tasks, i) && i in SchedulableSlots(k1.tasks);
    } else {
      assert SchedulableSlots(k1.tasks) == {};
    }
  }
}
