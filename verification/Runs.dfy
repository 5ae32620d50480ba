/**
 Whole runs: from boot, through any sequence of events, the kernel refines the
 machine of private contexts.
 */
module Runs {
  import opened Layout
  import opened Avr
  import opened ContextSwitch
  import opened Switch
  import opened ReturnPoint
  import opened Priority
  import opened KernelModel
  import opened KernelInvariant
  import opened System
  import opened Refinement
  import opened Squares
  import opened SchedulerSquare
  import P = PrivateContexts

  /** Every event is one step of the private-context machine. */
  lemma StepRefines(s: Sys, e: Event)
    requires Inv(s) && Enabled(s, e)
    ensures Square(s, e)
  {
    hide Inv, Square, RoomForFrame, MtEnabled;
    match e
    case UserStep(_, _, _) => UserStepRefines(s, e);
    case ChangePriority(_) => ChangePriorityRefines(s, e);
    case SwitchTask(_) => if s.mode.User? { UserSwitchRefines(s, e); } else { TimerSquare(s, e); }
    case Kill => KillRefines(s, e);
    case Spawn(_, _) => SpawnRefines(s, e);
    case StartScheduler(_, _, _, _) => StartRefines(s, e);
    case Pass(_, _) => PassRefines(s, e);
    case Advance(_) => AdvanceRefines(s, e);
    case StrikeInSwitch(_, _, _) => StrikeRefines(s, e);
    case StrikeInMasking(_) => StrikeRefines(s, e);
  }

  lemma SquareParts(s: Sys, e: Event)
    requires Inv(s) && Enabled(s, e) && Square(s, e)
    ensures var s' := System.Step(s, e);
            Inv(s') && P.Applies(Alpha(s), e) && Alpha(s') == P.Next(Alpha(s), e)
  {
  }

  lemma InvParts(s: Sys)
    requires Inv(s) && !s.mode.Halted?
    ensures KInv(s.k, s.sb, s.mode, s.h.ran)
  {
  }

  lemma EnabledIsLive(s: Sys, e: Event)
    requires Enabled(s, e)
    ensures !s.mode.Halted?
  {
  }

  /** Refinement over all runs. */
  lemma {:induction false} RunRefines(s: Sys, es: seq<Event>, s': Sys)
    requires Inv(s) && System.Reaches(s, es, s')
    ensures Inv(s') && P.Reaches(Alpha(s), es, Alpha(s'))
    decreases |es|
  {
    if es != [] {
      StepRefines(s, es[0]);
      hide Inv, Alpha, Enabled, P.Next, P.Applies;
      RunRefines(System.Step(s, es[0]), es[1..], s');
    }
  }

  lemma BootMemoryOk(mem: seq<Byte>)
    requires |mem| == 0x10000
    ensures var mem' := WriteWord(BootMemory(mem), TASK_SP, High(0));
            CanariesIntact(mem') && ReadWord(mem', NEXT_TASK_SP) == 0 && ReadWord(mem', TASK_SP) == High(0)
  {
    ReadWritten(BootMemory(mem), TASK_SP, High(0));
  }

  /** The invariant holds when main hands over to the idle task. */
  lemma BootInv(m: Machine, heapStart: Word)
    requires m.Valid()
    ensures Inv(Boot(m, heapStart))
  {
    hide Run, Lo, Hi, BootMemory, CanariesIntact;
    var s := Boot(m, heapStart);
    BootMemoryOk(m.mem);
    SetSpEffect(SET_SP, m.(mem := WriteWord(BootMemory(m.mem), TASK_SP, High(0))));
    NewRound(s.k);
  }

  /** From boot on, any run is a run of the private-context machine. */
  lemma BootRefines(m: Machine, heapStart: Word, es: seq<Event>, s': Sys)
    requires m.Valid() && System.Reaches(Boot(m, heapStart), es, s')
    ensures Inv(Boot(m, heapStart)) && Inv(s') && P.Reaches(Alpha(Boot(m, heapStart)), es, Alpha(s'))
  {
    BootInv(m, heapStart);
    hide Inv, Alpha;
    RunRefines(Boot(m, heapStart), es, s');
  }

  /**
   The global invariant of user code: the active task and no other is RUNNING, one
   slot is the scheduler's, no slot is SLEEPING, and the unconsumed queue holds
   distinct READY slots.
   */
  ghost predicate UserInvariant(s: Sys)
    requires s.k.Shape()
  {
    var q := s.k.queue[..s.k.position];
    && (forall i :: 0 <= i < TASKS_MAX ==> (s.k.tasks[i].status == Running <==> i == s.k.active))
    && (forall i :: 0 <= i < TASKS_MAX ==> (s.k.tasks[i].status == Scheduler <==> i == s.sb))
    && (forall i :: 0 <= i < TASKS_MAX ==> s.k.tasks[i].status != Sleeping && s.k.tasks[i].block == i)
    && (forall j, k :: 0 <= j < k < |q| ==> q[j] != q[k])
    && (forall j :: 0 <= j < |q| ==> q[j] < TASKS_MAX && q[j] != s.k.active && s.k.tasks[q[j]].status == Ready)
  }

  /** It holds in every state of every run from boot in which user code runs under the scheduler. */
  lemma UserCodeInvariant(m: Machine, heapStart: Word, es: seq<Event>, s': Sys)
    requires m.Valid() && System.Reaches(Boot(m, heapStart), es, s') && s'.mode.User?
    ensures s'.k.Shape() && UserInvariant(s')
  {
    BootRefines(m, heapStart, es, s');
    QueueIsReady(s');
  }

  lemma QueueIsReady(s: Sys)
    requires Inv(s) && s.mode.User?
    ensures UserInvariant(s)
  {
    var q := s.k.queue[..s.k.position];
    forall j | 0 <= j < |q|
      ensures q[j] in Waiting(s.k.tasks, s.h.ran)
    {
      assert q[j] in Members(q);
    }
    assert forall j, k :: 0 <= j < k < |q| ==> Before(s.k.tasks, q[j], q[k]);
  }

  // ----- EMPTY slots -----

  // The stack pointer of an EMPTY slot is reset to the top of its own block.
  ghost predicate SlotsReset(k: Kernel)
    requires k.Shape()
  {
    forall i :: 0 <= i < TASKS_MAX && k.tasks[i].status == Empty ==> k.tasks[i].sp == High(k.tasks[i].block)
  }

  lemma PassKeepsSlots(k: Kernel, sb: nat, mode: Mode, ran: set<nat>, mem: seq<Byte>)
    requires KInv(k, sb, mode, ran) && (mode.FirstPass? || mode.InScheduler?) && |mem| == 0x10000 && SlotsReset(k)
    ensures SchedulerPass(k, mem).Success? ==> SlotsReset(SchedulerPass(k, mem).value)
  {
    hide PointerIntegrity, ReturnAddressOk, Round, Candidates, Best, RanAfter, SelectNextTask, PrepareNextTask;
    PassKeeps(k, sb, mode, ran, mem);
    HandleKeepsRound(k, sb, mode, ran, mem);
  }

  lemma PassSlotsReset(s: Sys, e: Event)
    requires Inv(s) && Enabled(s, e) && e.Pass? && SlotsReset(s.k)
    ensures SlotsReset(System.Step(s, e).k)
  {
    hide Switched, PassMemory, SchedulerPass, CanariesIntact, ReadWord, Stacks, ReadyFrames, KInv;
    PassKeepsSlots(s.k, s.sb, s.mode, s.h.ran, PassMemory(s, e.block));
  }

  lemma SpawnSlotsReset(k: Kernel, priority: Byte, callerSp: Word)
    requires k.Shape() && SlotsReset(k) && k.Current().status != Empty
    ensures SpawnTask(k, priority, callerSp).Success? ==> SlotsReset(SpawnTask(k, priority, callerSp).value)
  {
    hide SpawnTask;
    SpawnExact(k, priority, callerSp);
  }

  lemma OtherSlotsReset(s: Sys, e: Event)
    requires Enabled(s, e) && SlotsReset(s.k) && !e.Pass?
    requires s.mode.User? || s.mode.Starting? ==> s.k.Current().status == Running
    ensures SlotsReset(System.Step(s, e).k)
  {
    hide Switched, Run, SpawnTask, WriteBlock, SavedWithReturnPoint, Launched, ReadWord, TaskSpRangeHigh;
    hide RoomForFrame, MtEnabled;
    var callerSp := ReadWord(SavedWithReturnPoint(s.m.(flags := s.m.flags.(i := false))).mem, TASK_SP);
    match e
    case Spawn(priority, _) => SpawnSlotsReset(s.k, priority, callerSp);
    case StartScheduler(priority, _, _, _) => SpawnSlotsReset(s.k, priority, callerSp);
    case _ =>
  }

  lemma StepSlotsReset(s: Sys, e: Event)
    requires Inv(s) && Enabled(s, e) && SlotsReset(s.k)
    ensures Inv(System.Step(s, e)) && SlotsReset(System.Step(s, e).k)
  {
    hide *;
    StepRefines(s, e);
    SquareParts(s, e);
    if s.mode.User? || s.mode.Starting? {
      ActiveRuns(s);
    }
    if e.Pass? {
      PassSlotsReset(s, e);
    } else {
      OtherSlotsReset(s, e);
    }
  }

  lemma {:induction false} RunSlotsReset(s: Sys, es: seq<Event>, s': Sys)
    requires Inv(s) && SlotsReset(s.k) && System.Reaches(s, es, s')
    ensures Inv(s') && SlotsReset(s'.k)
    decreases |es|
  {
    hide Inv, Enabled, System.Step, SlotsReset;
    if es != [] {
      StepSlotsReset(s, es[0]);
      RunSlotsReset(System.Step(s, es[0]), es[1..], s');
    }
  }

  /** In every run from boot, kill and start-up agree on what an EMPTY slot's stack pointer is. */
  lemma EmptySlotsAreReset(m: Machine, heapStart: Word, es: seq<Event>, s': Sys)
    requires m.Valid() && System.Reaches(Boot(m, heapStart), es, s')
    ensures s'.k.Shape() && SlotsReset(s'.k)
  {
    BootInv(m, heapStart);
    BootSlots(m, heapStart);
    hide Inv, Boot, SlotsReset;
    RunSlotsReset(Boot(m, heapStart), es, s');
    InvShape(s');
  }

  lemma BootSlots(m: Machine, heapStart: Word)
    requires m.Valid()
    ensures SlotsReset(Boot(m, heapStart).k)
  {
    hide Run, BootMemory;
    assert Boot(m, heapStart).k == BootKernel(heapStart);
  }

  lemma InvShape(s: Sys)
    requires Inv(s)
    ensures s.k.Shape()
  {
  }
}
