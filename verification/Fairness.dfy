/**
 Bounded waiting: while nobody spawns or ends, every READY task of priority 0 to
 254 runs within a number of passes that can be read off the queue.
 */
module Fairness {
  import opened Layout
  import opened Avr
  import opened Switch
  import opened Priority
  import opened KernelModel
  import opened KernelInvariant
  import opened System
  import opened Refinement
  import opened Runs
  import opened Contexts
  import opened Handshake

  // The first position of i in q, |q| if there is none.
  function IndexOf(q: seq<nat>, i: nat): (j: nat)
    ensures j <= |q| && (j < |q| ==> q[j] == i)
    ensures j == |q| <==> i !in q
  {
    if q == [] then 0 else if q[0] == i then 0 else 1 + IndexOf(q[1..], i)
  }

  lemma {:induction false} IndexOfPrefix(q: seq<nat>, n: nat, i: nat)
    requires n <= |q|
    ensures IndexOf(q[..n], i) == if IndexOf(q, i) < n then IndexOf(q, i) else n
  {
    if q != [] && n > 0 {
      assert q[..n][1..] == q[1..][..n - 1];
      IndexOfPrefix(q[1..], n - 1, i);
    }
  }

  /**
   The slots that the next reschedule can queue: the schedulable ones and the one
   whose task runs now. All of them are queued unless that task then has priority 255.
   */
  function Contenders(tasks: seq<Task>): set<nat> {
    set i: nat | 0 <= i < |tasks| && (tasks[i].status == Running || Schedulable(tasks, i))
  }

  /**
   The number of passes within which slot i runs: its distance from the end of the
   unconsumed queue, or the whole queue and a further round of all contenders.
   */
  function Delay(k: Kernel, i: nat): nat
    requires k.Shape()
  {
    var q := k.queue[..k.position];
    if IndexOf(q, i) < |q| then |q| - IndexOf(q, i) else k.position + |Contenders(k.tasks)|
  }

  // Slot i waits for the processor.
  ghost predicate Waits(k: Kernel, i: nat, mode: Mode)
    requires k.Shape()
  {
    && i < TASKS_MAX && k.tasks[i].priority < UINT8_MAX
    && (k.tasks[i].status == Ready || (mode.InScheduler? && k.active == i && k.tasks[i].status == Running))
  }

  lemma QueuedContend(tasks: seq<Task>)
    ensures SchedulableSlots(tasks) <= Contenders(tasks) && |SchedulableSlots(tasks)| <= |Contenders(tasks)|
  {
    SubsetSize(SchedulableSlots(tasks), Contenders(tasks));
  }

  lemma DelayPositive(k: Kernel, i: nat, mode: Mode)
    requires k.Shape() && Waits(k, i, mode)
    ensures Delay(k, i) >= 1
  {
    assert i in Contenders(k.tasks);
  }

  lemma {:induction false} SubsetSize(a: set<nat>, b: set<nat>)
    requires a <= b
    ensures |a| <= |b|
  {
    if x :| x in a {
      SubsetSize(a - {x}, b - {x});
    }
  }

  /** Each selection serves slot i or brings it closer to the processor. */
  lemma SelectBringsCloser(k: Kernel, i: nat)
    requires k.Shape() && Schedulable(k.tasks, i)
    ensures match SelectNextTask(k)
            case Failure(_) => false
            case Success(k') => Selected(k') == i || Delay(k', i) < Delay(k, i)
  {
    if k.position == 0 {
      RoundBringsCloser(k, i);
    } else {
      hide IndexOf, Contenders;
      IndexOfPrefix(k.queue[..k.position], k.position - 1, i);
      assert k.queue[..k.position - 1] == k.queue[..k.position][..k.position - 1];
    }
  }

  lemma RoundBringsCloser(k: Kernel, i: nat)
    requires k.Shape() && Schedulable(k.tasks, i) && k.position == 0
    ensures match Reschedule(k)
            case Failure(_) => false
            case Success(k') => Selected(k') == i || Delay(k', i) < Delay(k, i)
  {
    hide IndexOf, Prioritized, Ordered, Distinct, SchedulableSlots, Contenders;
    PrioritizedExact(k.tasks);
    QueuedContend(k.tasks);
    var q := Prioritized(k.tasks);
    assert i in q;
    IndexOfPrefix(q, |q| - 1, i);
    var k' := Reschedule(k).value;
    assert k'.queue[..k'.position] == q[..|q| - 1];
  }

  lemma PassBringsCloser(k: Kernel, sb: nat, mode: Mode, ran: set<nat>, mem: seq<Byte>, i: nat)
    requires KInv(k, sb, mode, ran) && (mode.FirstPass? || mode.InScheduler?) && |mem| == 0x10000
    requires Waits(k, i, mode) && SchedulerPass(k, mem).Success?
    ensures var k' := SchedulerPass(k, mem).value;
            k'.active == i || (Waits(k', i, User) && Delay(k', i) < Delay(k, i))
  {
    hide PointerIntegrity, ReturnAddressOk, IndexOf, Round, SelectNextTask, Recorded, Contenders;
    HandleKeepsRound(k, sb, mode, ran, mem);
    HandledStatus(k, sb, mode, ran, mem, i);
    var k1 := HandlePreviousTask(k, mem).value;
    SelectBringsCloser(k1, i);
    SelectLeavesTasks(k1);
    var k2 := SelectNextTask(k1).value;
    SelectedContends(k1);
    RunningContends(k2.tasks, SchedulerPass(k, mem).value.tasks, Selected(k2));
    SubsetSize(Contenders(k1.tasks), Contenders(k.tasks));
  }

  lemma SelectedContends(k: Kernel)
    requires k.Shape() && SelectNextTask(k).Success?
    requires forall j :: 0 <= j < k.position ==> Schedulable(k.tasks, k.queue[j])
    ensures Schedulable(k.tasks, Selected(SelectNextTask(k).value))
  {
    PrioritizedExact(k.tasks);
    var q := Prioritized(k.tasks);
    if k.position == 0 {
      assert SelectNextTask(k).value.queue[|q| - 1] == q[|q| - 1] && q[|q| - 1] in q;
    }
  }

  lemma RunningContends(tasks: seq<Task>, tasks': seq<Task>, i: nat)
    requires i < |tasks| && Schedulable(tasks, i) && tasks' == tasks[i := tasks[i].(status := Running)]
    ensures Contenders(tasks') == Contenders(tasks)
  {
  }

  lemma SelectLeavesTasks(k: Kernel)
    requires k.Shape()
    ensures SelectNextTask(k).Success? ==> SelectNextTask(k).value.tasks == k.tasks
  {
  }

  // Once the previous task is accounted for, a waiting slot is schedulable and nobody new contends.
  lemma HandledStatus(k: Kernel, sb: nat, mode: Mode, ran: set<nat>, mem: seq<Byte>, i: nat)
    requires KInv(k, sb, mode, ran) && (mode.FirstPass? || mode.InScheduler?) && |mem| == 0x10000
    requires Waits(k, i, mode) && HandlePreviousTask(k, mem).Success?
    ensures var k1 := HandlePreviousTask(k, mem).value;
            && Schedulable(k1.tasks, i) && Contenders(k1.tasks) <= Contenders(k.tasks)
            && k1.tasks[i].priority == k.tasks[i].priority && k1.queue == k.queue && k1.position == k.position
            && forall j :: 0 <= j < k1.position ==> Schedulable(k1.tasks, k1.queue[j])
  {
    hide PointerIntegrity, ReturnAddressOk, Ordered;
    HandleKeepsRound(k, sb, mode, ran, mem);
    var k1 := HandlePreviousTask(k, mem).value;
    var q := k1.queue[..k1.position];
    forall j | 0 <= j < k1.position
      ensures Schedulable(k1.tasks, k1.queue[j])
    {
      assert q[j] in Members(q);
    }
  }

  // Events that neither create nor end a task.
  predicate Steady(e: Event) {
    !e.Spawn? && !e.Kill? && !e.StartScheduler?
  }

  lemma StepBringsCloser(s: Sys, e: Event, i: nat)
    requires Inv(s) && Enabled(s, e) && Steady(e) && Waits(s.k, i, s.mode) && !System.Step(s, e).mode.Halted?
    ensures var s' := System.Step(s, e);
            && Inv(s')
            && if s'.mode.User? && s'.k.active == i then Delay(s.k, i) >= 1
               else Waits(s'.k, i, s'.mode) && Delay(s'.k, i) + (if e.Pass? then 1 else 0) <= Delay(s.k, i)
  {
    StepHandshake(s, e);
    DelayPositive(s.k, i, s.mode);
    if e.Pass? {
      InvParts(s);
      hide KInv, Inv, Waits, Delay, Switched, SchedulerPass, PassMemory, CanariesIntact, ReadWord;
      PassBringsCloser(s.k, s.sb, s.mode, s.h.ran, PassMemory(s, e.block), i);
      WaitsAnywhere(System.Step(s, e).k, i, System.Step(s, e).mode);
    } else {
      hide Inv, Delay, System.Step;
      OthersKeepDelay(s, e, i);
    }
  }

  lemma OthersKeepDelay(s: Sys, e: Event, i: nat)
    requires Inv(s) && Enabled(s, e) && Steady(e) && !e.Pass? && Waits(s.k, i, s.mode)
    requires !System.Step(s, e).mode.Halted?
    ensures var s' := System.Step(s, e);
            s'.k.Shape() && Waits(s'.k, i, s'.mode) && Delay(s'.k, i) == Delay(s.k, i)
  {
    if s.mode.User? || s.mode.Starting? {
      ActiveRuns(s);
    }
    hide KInv, Switched, WriteBlock, CanariesIntact, ReadWord, Stacks, ReadyFrames, IndexOf, MtEnabled, RoomForFrame;
    assert Contenders(System.Step(s, e).k.tasks) == Contenders(s.k.tasks);
  }

  lemma WaitsAnywhere(k: Kernel, i: nat, mode: Mode)
    requires k.Shape()
    ensures Waits(k, i, User) ==> Waits(k, i, mode)
  {
  }

  /**
   Bounded waiting from any reachable state: as long as slot i has not run, fewer
   passes have happened than its delay, which never exceeds 7 once user code runs.
   */
  lemma {:induction false} BoundedWaiting(s: Sys, es: seq<Event>, s': Sys, i: nat)
    requires Inv(s) && Waits(s.k, i, s.mode) && AwayUntil(s, es, s', i) && !s'.mode.Halted?
    requires forall j :: 0 <= j < |es| ==> Steady(es[j])
    ensures Inv(s')
    ensures Passes(es) <= Delay(s.k, i)
    ensures (s'.mode.User? && s'.k.active == i)
         || (Waits(s'.k, i, s'.mode) && Passes(es) + Delay(s'.k, i) <= Delay(s.k, i))
    decreases |es|
  {
    hide Inv, System.Step, Enabled, Waits, Delay;
    if es != [] {
      var s1 := System.Step(s, es[0]);
      if s1.mode.Halted? {
        AwayHalted(s1, es[1..], s', i);
      }
      StepBringsCloser(s, es[0], i);
      if s1.mode.User? && s1.k.active == i {
        assert es[1..] == [];
      } else {
        BoundedWaiting(s1, es[1..], s', i);
      }
    }
  }

  lemma AwayHalted(s: Sys, es: seq<Event>, s': Sys, i: nat)
    requires s.mode.Halted? && AwayUntil(s, es, s', i)
    ensures s' == s
  {
  }

  /** At most three slots are queued and at most four contend. */
  lemma DelayAtMostSeven(k: Kernel, sb: nat, mode: Mode, ran: set<nat>, i: nat)
    requires KInv(k, sb, mode, ran) && (mode.User? || mode.InScheduler?)
    ensures Delay(k, i) <= k.position + |Contenders(k.tasks)| <= 7
  {
    hide IndexOf, Contenders;
    QueuedAtMostThree(k, sb, mode, ran);
    ContendersAtMostFour(k.tasks, sb);
  }

  lemma ContendersAtMostFour(tasks: seq<Task>, sb: nat)
    requires |tasks| == TASKS_MAX && sb < TASKS_MAX && tasks[sb].status == Scheduler
    ensures |Contenders(tasks)| <= 4
  {
    var others := ALL_SLOTS - {sb};
    assert Contenders(tasks) <= others;
    SubsetSize(Contenders(tasks), others);
  }

  lemma QueuedAtMostThree(k: Kernel, sb: nat, mode: Mode, ran: set<nat>)
    requires KInv(k, sb, mode, ran) && (mode.User? || mode.InScheduler?)
    ensures k.position <= 3
  {
    hide KInv, Distinct, InRange, Members;
    QueueMembers(k, sb, mode, ran);
    var q := k.queue[..k.position];
    var others := ALL_SLOTS - {sb} - {k.active};
    DistinctBound(q, TASKS_MAX);
    SubsetSize(Members(q), others);
    assert |others| == 3;
  }

  lemma QueueMembers(k: Kernel, sb: nat, mode: Mode, ran: set<nat>)
    requires KInv(k, sb, mode, ran) && (mode.User? || mode.InScheduler?)
    ensures var q := k.queue[..k.position];
            Distinct(q) && InRange(q, TASKS_MAX) && Members(q) <= ALL_SLOTS - {sb} - {k.active}
    ensures k.active != sb && sb < TASKS_MAX && k.active < TASKS_MAX && k.Shape()
  {
    var q := k.queue[..k.position];
    assert forall i, j :: 0 <= i < j < |q| ==> Before(k.tasks, q[i], q[j]);
  }
}
