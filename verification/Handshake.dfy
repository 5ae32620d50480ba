/**
 The protocol between user code and the scheduler, over whole runs: who is
 entered by a switch, where the scheduler resumes, and when the machine halts.
 */
module Handshake {
  import opened Wrappers
  import opened Layout
  import opened Avr
  import opened ContextSwitch
  import opened Switch
  import opened ReturnPoint
  import opened Priority
  import opened KernelModel
  import opened KernelInvariant
  import opened System
  import opened Refinement
  import opened Runs
  import P = PrivateContexts

  // ----- modes -----

  // Where an event leads when the machine does not halt.
  function ModeAfter(mode: Mode, e: Event): Mode {
    match e
    case UserStep(_, _, _) => mode
    case ChangePriority(_) => mode
    case SwitchTask(_) => InScheduler
    case Kill => InScheduler
    case Spawn(_, _) => User
    case StartScheduler(_, _, _, _) => FirstPass
    case Pass(_, _) => User
    case Advance(_) => InScheduler
    case StrikeInSwitch(_, _, _) => InScheduler
    case StrikeInMasking(_) => InScheduler
  }

  // The fatal errors an event can end in.
  predicate Faults(e: Event, reason: Fatal) {
    match e
    case Spawn(_, _) => reason.QueueFull?
    case Pass(_, _) => reason.PrevIntegrity? || reason.PrevReturnAddress? || reason.NoTasks? || reason.NextIntegrity?
    case StrikeInSwitch(_, _, _) => reason.Derailed?
    case StrikeInMasking(_) => reason.Derailed?
    case _ => false
  }

  lemma NextMode(a: P.State, e: Event)
    requires P.Applies(a, e) && (a.mode.Starting? ==> FirstEmpty(a.tasks, 0) < TASKS_MAX) && (e.Spawn? ==> a.mode.User?)
    ensures match P.Next(a, e)
            case Live(_, _, _, _, mode, _, _, _, _, _) => mode == ModeAfter(a.mode, e)
            case Stopped(reason) => Faults(e, reason)
  {
    hide ResumedCore, PlantedCore, P.StackAccepted, P.ReturnAccepted, Candidates, Best, RanAfter, WithMt;
  }

  lemma RoomToStart(s: Sys)
    requires Inv(s) && s.mode.Starting?
    ensures FirstEmpty(Erased(s.k.tasks), 0) < TASKS_MAX
  {
  }

  /**
   Every switch of user code enters the scheduler, every pass of the scheduler
   enters a task or halts, next_task_sp is 0 whenever neither is under way, and
   the fatal branches for an EMPTY or SCHEDULER next task are never taken.
   */
  lemma StepHandshake(s: Sys, e: Event)
    requires Inv(s) && Enabled(s, e)
    ensures var s' := System.Step(s, e);
            && Inv(s')
            && (if s'.mode.Halted? then Faults(e, s'.mode.reason)
                else s'.mode == ModeAfter(s.mode, e) && ReadWord(s'.m.mem, NEXT_TASK_SP) == 0)
  {
    StepRefines(s, e);
    if s.mode.Starting? {
      RoomToStart(s);
    }
    hide P.Next, P.Applies, System.Step, Saved, RunningContext, SchedulerCore, Erased, FirstEmpty, ModeAfter, Faults;
    hide KInv, CanariesIntact, Stacks, ReadyFrames, RoomForFrame, MtEnabled;
    NextMode(Alpha(s), e);
  }

  // Nothing happens after a halt.
  lemma HaltedForGood(s: Sys, es: seq<Event>, s': Sys)
    requires s.mode.Halted? && System.Reaches(s, es, s')
    ensures es == [] && s' == s
  {
  }

  predicate EntersScheduler(s: Sys, e: Event) {
    s.mode.User? && (e.SwitchTask? || e.Kill?)
  }

  // Switches from user code into the scheduler, and passes of the scheduler, along a run.
  ghost function Entries(s: Sys, es: seq<Event>, s': Sys): nat
    requires System.Reaches(s, es, s')
    decreases |es|
  {
    if es == [] then 0
    else (if EntersScheduler(s, es[0]) then 1 else 0) + Entries(System.Step(s, es[0]), es[1..], s')
  }

  function Passes(es: seq<Event>): nat {
    if es == [] then 0 else (if es[0].Pass? then 1 else 0) + Passes(es[1..])
  }

  // 1 while the scheduler has the processor.
  function Turn(mode: Mode): int {
    if mode.InScheduler? || mode.FirstPass? then 1 else 0
  }

  lemma StepTurn(s: Sys, e: Event)
    requires Inv(s) && Enabled(s, e) && !s.mode.Starting?
    ensures var s' := System.Step(s, e);
            && Inv(s') && !s'.mode.Starting?
            && (!s'.mode.Halted? ==>
                  (if EntersScheduler(s, e) then 1 else 0) - (if e.Pass? then 1 else 0) == Turn(s'.mode) - Turn(s.mode))
  {
    StepHandshake(s, e);
    hide Inv, System.Step, RoomForFrame, MtEnabled, Faults, ReadWord, FirstEmpty;
  }

  /** User tasks and the scheduler alternate strictly along every run. */
  lemma {:induction false} StrictAlternation(s: Sys, es: seq<Event>, s': Sys)
    requires Inv(s) && System.Reaches(s, es, s') && !s.mode.Starting? && !s'.mode.Halted?
    ensures Inv(s') && Entries(s, es, s') - Passes(es) == Turn(s'.mode) - Turn(s.mode)
    decreases |es|
  {
    hide Inv, System.Step, Enabled, Turn, EntersScheduler;
    if es != [] {
      var s1 := System.Step(s, es[0]);
      StepTurn(s, es[0]);
      if s1.mode.Halted? {
        HaltedForGood(s1, es[1..], s');
      }
      StrictAlternation(s1, es[1..], s');
    }
  }

  // ----- where the scheduler resumes -----

  function ResumePoint(a: P.State): int
    requires a.Live?
  {
    if a.sched.Some? then a.sched.value.sp else a.cur.core.sp
  }

  lemma NextResumePoint(a: P.State, e: Event)
    requires P.Applies(a, e) && !a.mode.Starting? && !a.mode.Halted?
    requires a.mode.InScheduler? ==> a.sched.None?
    requires (e.ChangePriority? || e.UserStep? ==> a.mode.User?) && P.Next(a, e).Live?
    ensures ResumePoint(P.Next(a, e)) == ResumePoint(a) && P.Next(a, e).sb == a.sb
  {
    hide P.StackAccepted, P.ReturnAccepted, Candidates, Best, RanAfter, WithMt, LogicFlags;
  }

  lemma ResumePointExact(s: Sys)
    requires Inv(s) && !s.mode.Halted? && !s.mode.Starting?
    ensures ResumePoint(Alpha(s)) == SchedulerSp(s) + FRAME_BYTES && FrameIn(SchedulerSp(s), s.sb)
  {
    hide KInv, CanariesIntact, ReadWord, Saved;
  }

  lemma AlphaMode(s: Sys)
    requires Inv(s) && !s.mode.Halted?
    ensures var a := Alpha(s);
            a.Live? && a.mode == s.mode && a.sb == s.sb && (s.mode.InScheduler? ==> a.sched.None?)
  {
  }

  lemma UserEvents(s: Sys, e: Event)
    requires Enabled(s, e) && (e.ChangePriority? || e.UserStep?)
    ensures s.mode.Starting? || s.mode.User?
  {
  }

  lemma StepResumePoint(s: Sys, e: Event)
    requires Inv(s) && Enabled(s, e) && !s.mode.Starting? && !System.Step(s, e).mode.Halted?
    ensures Inv(System.Step(s, e)) && SchedulerSp(System.Step(s, e)) == SchedulerSp(s) && System.Step(s, e).sb == s.sb
    ensures FrameIn(SchedulerSp(s), s.sb)
  {
    hide *;
    EnabledIsLive(s, e);
    StepTurn(s, e);
    StepRefines(s, e);
    SquareParts(s, e);
    ResumePointExact(s);
    ResumePointExact(System.Step(s, e));
    AlphaMode(s);
    AlphaMode(System.Step(s, e));
    if e.ChangePriority? || e.UserStep? {
      UserEvents(s, e);
    }
    NextResumePoint(Alpha(s), e);
  }

  /** scheduler_task_sp, saved once, addresses room for a frame in the scheduler's block for ever. */
  lemma {:induction false} ResumePointSurvives(s: Sys, es: seq<Event>, s': Sys)
    requires Inv(s) && System.Reaches(s, es, s') && !s.mode.Starting? && !s'.mode.Halted?
    ensures Inv(s') && SchedulerSp(s') == SchedulerSp(s) && s'.sb == s.sb && FrameIn(SchedulerSp(s), s.sb)
    decreases |es|
  {
    hide Inv, System.Step, Enabled, SchedulerSp;
    if es == [] {
      ResumePointExact(s);
    } else {
      var s1 := System.Step(s, es[0]);
      if s1.mode.Halted? {
        HaltedForGood(s1, es[1..], s');
      }
      StepTurn(s, es[0]);
      StepResumePoint(s, es[0]);
      ResumePointSurvives(s1, es[1..], s');
    }
  }

  // A run in which only user code runs.
  ghost predicate UserRun(s: Sys, es: seq<Event>, s': Sys)
    decreases |es|
  {
    s.mode.User? && if es == [] then s == s' else Enabled(s, es[0]) && UserRun(System.Step(s, es[0]), es[1..], s')
  }

  lemma {:induction false} UserRunKeepsScheduler(s: Sys, es: seq<Event>, s': Sys)
    requires Inv(s) && UserRun(s, es, s')
    ensures Inv(s') && s'.mode.User? && SchedulerCore(s') == SchedulerCore(s)
    decreases |es|
  {
    if es != [] {
      UserEventKeepsScheduler(s, es[0]);
      hide Inv, System.Step, SchedulerCore, RoomForFrame, MtEnabled;
      UserRunKeepsScheduler(System.Step(s, es[0]), es[1..], s');
    }
  }

  lemma UserEventKeepsScheduler(s: Sys, e: Event)
    requires Inv(s) && Enabled(s, e) && s.mode.User? && System.Step(s, e).mode.User?
    ensures Inv(System.Step(s, e)) && SchedulerCore(System.Step(s, e)) == SchedulerCore(s)
  {
    hide Inv, System.Step, Saved, RunningContext, SchedulerCore, RoomForFrame, MtEnabled, Faults, Erased, FirstEmpty;
    StepHandshake(s, e);
    StepRefines(s, e);
  }

  // The context in which the scheduler will resume after a pass: that of its own yield, or,
  // while scheduler_task_sp addresses the frame of start_scheduler, that frame.
  ghost function YieldedCore(s: Sys, code: Cpu): Core
    requires Inv(s) && (s.mode.FirstPass? || s.mode.InScheduler?)
  {
    if s.mode.FirstPass? then FrameCore(s.m.mem, SchedulerSp(s))
    else Core(code.r, code.flags.(i := false), code.pc, s.m.sp)
  }

  /**
   The scheduler finds its own context too: the first pass leaves the frame of
   start_scheduler intact, and from the second pass on the frame of k_yield lands
   exactly where scheduler_task_sp points.
   */
  lemma SchedulerFindsItsContext(s: Sys, e: Event, es: seq<Event>, s1: Sys, e1: Event)
    requires Inv(s) && Enabled(s, e) && e.Pass? && UserRun(System.Step(s, e), es, s1)
    requires Enabled(s1, e1) && (e1.SwitchTask? || e1.Kill?)
    ensures var s2 := System.Step(s1, e1);
            s2.mode.InScheduler? && CoreOf(s2.m) == ResumedCore(YieldedCore(s, e.code), s2.m.mem[TIMSK1])
  {
    PassLeavesScheduler(s, e);
    UserRunKeepsScheduler(System.Step(s, e), es, s1);
    SchedulerResumes(s1, e1);
  }

  lemma PassLeavesScheduler(s: Sys, e: Event)
    requires Inv(s) && Enabled(s, e) && e.Pass? && System.Step(s, e).mode.User?
    ensures Inv(System.Step(s, e)) && SchedulerCore(System.Step(s, e)) == Some(YieldedCore(s, e.code))
  {
    hide *;
    EnabledIsLive(s, e);
    StepRefines(s, e);
    SquareParts(s, e);
    PassModes(s, e);
    AlphaScheduler(s, e.code);
    UserSched(System.Step(s, e));
    ScheduleYields(Alpha(s), e.code, YieldedCore(s, e.code));
  }

  // The scheduler's context after a pass, on private contexts.
  lemma ScheduleYields(a: P.State, code: Cpu, c: Core)
    requires P.Wf(a) && (a.mode.FirstPass? || a.mode.InScheduler?) && P.Schedule(a, code).Live?
    requires if a.mode.FirstPass? then a.sched == Some(c)
             else c == Core(code.r, code.flags.(i := false), code.pc, a.cur.core.sp)
    ensures P.Schedule(a, code).sched == Some(c)
  {
    hide P.StackAccepted, P.ReturnAccepted, Candidates, Best, RanAfter, WithMt, ResumedCore;
  }

  lemma PassModes(s: Sys, e: Event)
    requires Inv(s) && Enabled(s, e) && e.Pass?
    ensures (s.mode.FirstPass? || s.mode.InScheduler?) && P.Wf(Alpha(s))
    ensures P.Applies(Alpha(s), e) && P.Next(Alpha(s), e) == P.Schedule(Alpha(s), e.code)
  {
    AlphaWf(s);
  }

  lemma AlphaScheduler(s: Sys, code: Cpu)
    requires Inv(s) && (s.mode.FirstPass? || s.mode.InScheduler?)
    ensures var a := Alpha(s);
            && a.Live? && a.mode == s.mode
            && if s.mode.FirstPass? then a.sched == Some(YieldedCore(s, code))
               else YieldedCore(s, code) == Core(code.r, code.flags.(i := false), code.pc, a.cur.core.sp)
  {
  }

  lemma UserSched(s: Sys)
    requires Inv(s) && s.mode.User?
    ensures Alpha(s).Live? && Alpha(s).sched == SchedulerCore(s)
  {
  }

  lemma SchedulerResumes(s: Sys, e: Event)
    requires Inv(s) && Enabled(s, e) && s.mode.User? && (e.SwitchTask? || e.Kill?)
    ensures var s' := System.Step(s, e);
            Inv(s') && s'.mode.InScheduler? && CoreOf(s'.m) == ResumedCore(SchedulerCore(s).value, s'.m.mem[TIMSK1])
  {
    StepHandshake(s, e);
    StepRefines(s, e);
    hide Inv, System.Step, Saved, FrameCore, MtEnabled, RoomForFrame, ResumedCore, Faults;
  }

  // ----- the timer at the scheduler's entry -----

  lemma TimerLoses(s: Sys, e: Event)
    requires Inv(s) && s.mode.InScheduler? && Enabled(s, e) && e.SwitchTask?
    ensures var s' := System.Step(s, e);
            && Inv(s') && s'.mode.InScheduler? && s'.k.active == s.k.active
            && s'.k.Current().status == s.k.Current().status && Saved(s')[s.k.active] == None
  {
    StepRefines(s, e);
    hide Inv, System.Step, FrameCore, MtEnabled, ResumedCore, Saved;
  }

  lemma PassWithoutContext(s: Sys, e: Event)
    requires Inv(s) && s.mode.InScheduler? && Enabled(s, e) && e.Pass? && Saved(s)[s.k.active] == None
    ensures System.Step(s, e).mode == Halted(PrevIntegrity) <==> s.k.Current().status != Empty
  {
    StepRefines(s, e);
    hide Inv, System.Step, FrameCore, ResumedCore, Candidates, Best, RanAfter, P.StackAccepted, P.ReturnAccepted, Saved;
  }

  // What can happen between the scheduler's resume point and the PUSH of its masking.
  predicate BeforeMasking(e: Event) {
    e.SwitchTask? || e.Advance?
  }

  // The scheduler has the processor, and slot b's task, of this status, has no context any more.
  ghost predicate ContextLost(s: Sys, b: nat, status: Status) {
    && Inv(s) && s.mode.InScheduler? && s.k.active == b && s.k.Current().status == status && Saved(s)[b] == None
  }

  lemma LostStaysLost(s: Sys, e: Event, b: nat, status: Status)
    requires ContextLost(s, b, status) && Enabled(s, e) && BeforeMasking(e)
    ensures ContextLost(System.Step(s, e), b, status)
  {
    if e.SwitchTask? {
      TimerLoses(s, e);
    } else {
      StepRefines(s, e);
      hide Inv, System.Step, Saved, RunningContext;
      AlphaMode(s);
    }
  }

  lemma {:induction false} RunLost(s: Sys, es: seq<Event>, s': Sys, b: nat, status: Status)
    requires ContextLost(s, b, status) && System.Reaches(s, es, s')
    requires forall j :: 0 <= j < |es| ==> BeforeMasking(es[j])
    ensures ContextLost(s', b, status)
    decreases |es|
  {
    hide ContextLost, Enabled, System.Step;
    if es != [] {
      LostStaysLost(s, es[0], b, status);
      RunLost(System.Step(s, es[0]), es[1..], s', b, status);
    }
  }

  /**
   A strike that the scheduler survives and the interrupted task does not: when the
   timer strikes between the scheduler's resume point and the PUSH of its masking,
   any number of times, the next pass halts, unless the previous task has ended.
   */
  lemma TimerAtSchedulerEntry(s: Sys, e: Event, es: seq<Event>, s1: Sys, e1: Event)
    requires Inv(s) && s.mode.InScheduler? && Enabled(s, e) && e.SwitchTask?
    requires System.Reaches(System.Step(s, e), es, s1) && forall j :: 0 <= j < |es| ==> BeforeMasking(es[j])
    requires Enabled(s1, e1) && e1.Pass?
    ensures System.Step(s1, e1).mode == Halted(PrevIntegrity) <==> s.k.Current().status != Empty
  {
    var b, status := s.k.active, s.k.Current().status;
    TimerLoses(s, e);
    assert ContextLost(System.Step(s, e), b, status);
    RunLost(System.Step(s, e), es, s1, b, status);
    hide Inv, System.Step, Enabled;
    PassWithoutContext(s1, e1);
  }

  // ----- the return-address check -----

  lemma SuspendedByTimer(s: Sys, e: Event)
    requires Inv(s) && s.mode.User? && Enabled(s, e) && e.SwitchTask?
    ensures var s' := System.Step(s, e);
            && Inv(s') && s'.mode.InScheduler? && s'.k.active == s.k.active && s'.k.Current().status == Running
            && Saved(s')[s.k.active] == Some(P.Suspended(RunningContext(s))) && RunningContext(s).core == CoreOf(s.m)
  {
    StepHandshake(s, e);
    StepRefines(s, e);
    ActiveRuns(s);
    hide Inv, System.Step, FrameCore, MtEnabled, RoomForFrame, ResumedCore, Faults, Saved, StackAbove;
  }

  // The same pass on private contexts.
  lemma ScheduleJudges(a: P.State, code: Cpu, c: P.Context)
    requires P.Wf(a) && a.mode.InScheduler? && a.tasks[a.active].status == Running && a.saved[a.active] == Some(c)
    ensures P.Schedule(a, code) == P.Stopped(PrevReturnAddress)
      <==> P.StackAccepted(c.core, a.active) && !P.ReturnAccepted(c.core)
  {
    hide P.StackAccepted, P.ReturnAccepted, Candidates, Best, RanAfter, WithMt, ResumedCore;
  }

  lemma PassJudges(s: Sys, e: Event, c: P.Context)
    requires Inv(s) && s.mode.InScheduler? && s.k.Current().status == Running && Saved(s)[s.k.active] == Some(c)
    requires Enabled(s, e) && e.Pass? && |c.core.r| == 32
    ensures System.Step(s, e).mode == Halted(PrevReturnAddress)
      <==> P.StackAccepted(c.core, s.k.active) && !P.ReturnAccepted(c.core)
  {
    hide Inv, System.Step, Saved, P.Schedule, P.StackAccepted, P.ReturnAccepted, RunningContext, SchedulerCore, P.Wf;
    StepRefines(s, e);
    AlphaWf(s);
    ScheduleJudges(Alpha(s), e.code, c);
  }

  /** When a task that was switched out makes the next pass halt on its return address, for every user state. */
  lemma ReturnAddressHalts(s: Sys, e: Event, e': Event)
    requires Inv(s) && s.mode.User? && Enabled(s, e) && e.SwitchTask? && Enabled(System.Step(s, e), e') && e'.Pass?
    ensures System.Step(System.Step(s, e), e').mode == Halted(PrevReturnAddress)
      <==> Acceptable(s.m.sp - FRAME_BYTES, s.k.active) && !P.ReturnAccepted(SavedCore(s.m))
  {
    SuspendedByTimer(s, e);
    hide Inv, System.Step, Enabled, Saved, P.ReturnAccepted, RunningContext;
    PassJudges(System.Step(s, e), e', P.Suspended(RunningContext(s)));
  }

  /** A task in the first 64 Kwords of the program with r0 and SREG clear but for I is such a task: a good one. */
  lemma GoodTaskTurnedDown(s: Sys, e: Event, e': Event)
    requires Inv(s) && s.mode.User? && Enabled(s, e) && e.SwitchTask? && Enabled(System.Step(s, e), e') && e'.Pass?
    requires s.m.r[0] == 0 && s.m.pc < 0x10000 && Acceptable(s.m.sp - FRAME_BYTES, s.k.active)
    requires s.m.flags == Flags(s.m.flags.i, false, false, false, false, false, false, false)
    ensures System.Step(System.Step(s, e), e').mode == Halted(PrevReturnAddress)
  {
    hide Inv, System.Step, Enabled, SregByte;
    ReturnAddressHalts(s, e, e');
    ClearSreg(SavedCore(s.m).flags);
  }

  lemma ClearSreg(f: Flags)
    requires f == Flags(false, false, false, false, false, false, false, false)
    ensures SregByte(f) == 0
  {
    assert FromBits([false, false, false, false]) == 0;
  }

  /**
   The context that SET_RETURN_POINT leaves passes the return-address check iff its
   address is below 2^17: below 64 Kwords the macro's last ADC has set Z, so SREG is
   not 0.
   */
  lemma PlantedIsAccepted(c: Core)
    requires |c.r| == 32 && 0 <= c.pc < PC_SPACE
    ensures P.ReturnAccepted(PlantedCore(c)) <==> PlantedAddress(c.pc) < 0x20000
  {
    hide CarryFlags, Lo, Hi, SregByte;
    SumFlagsExact(c.flags, CallAddress(c.pc));
    SregLayout(PlantedCore(c).flags);
  }

  lemma FirstPassJudges(a: P.State, code: Cpu)
    requires P.Wf(a) && a.mode.FirstPass? && a.tasks[a.active].status == Scheduler
    ensures P.Schedule(a, code) == P.Stopped(PrevReturnAddress)
      <==> P.StackAccepted(a.sched.value, a.active) && !P.ReturnAccepted(a.sched.value)
  {
    hide P.StackAccepted, P.ReturnAccepted, Candidates, Best, RanAfter, WithMt, ResumedCore;
  }

  // The scheduler is about to make its first pass, with the context that start_scheduler saved.
  ghost predicate Begun(a: P.State, code: Cpu, sp: int) {
    && code.Valid() && P.Wf(a) && a.mode.FirstPass? && a.tasks[a.active].status == Scheduler
    && a.sched == Some(PlantedCore(Core(code.r, code.flags, code.pc, sp)))
  }

  lemma StartBegins(a: P.State, e: Event)
    requires P.Applies(a, e) && e.StartScheduler? && P.Next(a, e).Live? && P.Wf(P.Next(a, e))
    ensures Begun(P.Next(a, e), e.code, e.sp)
  {
    hide PlantedCore, FirstEmpty, WithMt;
  }

  lemma StartedScheduler(s: Sys, e: Event)
    requires Inv(s) && Enabled(s, e) && e.StartScheduler?
    ensures Inv(System.Step(s, e)) && Begun(Alpha(System.Step(s, e)), e.code, e.sp)
  {
    hide *;
    StepRefines(s, e);
    SquareParts(s, e);
    StartGoesOn(s, e);
    AlphaMode(System.Step(s, e));
    AlphaWf(System.Step(s, e));
    StartBegins(Alpha(s), e);
  }

  lemma StartGoesOn(s: Sys, e: Event)
    requires Inv(s) && Enabled(s, e) && e.StartScheduler?
    ensures !System.Step(s, e).mode.Halted?
  {
    StepHandshake(s, e);
  }

  lemma BegunAccepts(a: P.State, code: Cpu, sp: int, code': Cpu)
    requires Begun(a, code, sp) && PlantedAddress(code.pc) < 0x20000
    ensures P.Schedule(a, code') != P.Stopped(PrevReturnAddress)
  {
    hide PlantedCore, PlantedAddress, P.Schedule, P.StackAccepted, P.ReturnAccepted;
    PlantedIsAccepted(Core(code.r, code.flags, code.pc, sp));
    FirstPassJudges(a, code');
  }

  /** The first pass never halts on start_scheduler's own return address, anywhere in the 17-bit program space. */
  lemma FirstPassAccepts(s: Sys, e: Event, e': Event)
    requires Inv(s) && Enabled(s, e) && e.StartScheduler? && Enabled(System.Step(s, e), e') && e'.Pass?
    requires e.code.Valid() && PlantedAddress(e.code.pc) < 0x20000
    ensures System.Step(System.Step(s, e), e').mode != Halted(PrevReturnAddress)
  {
    hide *;
    var s1 := System.Step(s, e);
    StartedScheduler(s, e);
    StepRefines(s1, e');
    SquareParts(s1, e');
    PassModes(s1, e');
    BegunAccepts(Alpha(s1), e.code, e.sp, e'.code);
    if System.Step(s1, e').mode.Halted? {
      HaltedAlpha(System.Step(s1, e'));
    }
  }

  lemma HaltedAlpha(s: Sys)
    requires Inv(s) && s.mode.Halted?
    ensures Alpha(s) == P.Stopped(s.mode.reason)
  {
  }

  // ----- stack overflow -----

  /** A frame that overflows its block misses the scheduler's frame unless the scheduler's block is the one below. */
  lemma OverflowReaches(s: Sys)
    requires Inv(s) && s.mode.User? && !RoomForFrame(s)
    ensures SwitchReady(s.m, SchedulerSp(s))
      <==> !(s.k.active == s.sb + 1 && s.m.sp - FRAME_BYTES <= SchedulerSp(s) + FRAME_BYTES)
  {
    hide KInv, CanariesIntact, ReadyFrames, MtEnabled;
    ActiveRuns(s);
  }

  /**
   A task that is switched out with fewer than 36 free bytes in its block does not
   go unnoticed: the next pass halts before any other task runs, provided that the
   overflow has missed the scheduler's own frame.
   */
  lemma OverflowHalts(s: Sys, entry: Entry, code: Cpu, block: seq<Byte>)
    requires Inv(s) && s.mode.User? && !RoomForFrame(s) && SwitchReady(s.m, SchedulerSp(s))
    requires code.Valid() && |block| == TASK_MEMORY_SIZE
    ensures DoSwitch(s, entry).mode == InScheduler
    ensures DoPass(DoSwitch(s, entry), code, block).mode == Halted(PrevIntegrity)
  {
    hide KInv, CanariesIntact, ReadyFrames, MtEnabled, Switched, FrameBytes, FrameCore, ResumedCore, PointerIntegrity;
    ActiveRuns(s);
    SwitchedEffect(s.m, entry, SchedulerSp(s));
    var s1 := DoSwitch(s, entry);
    var mem := PassMemory(s1, block);
    assert ReadWord(mem, PREV_TASK_SP) == s.m.sp - FRAME_BYTES;
    PointerIntegrityExact(mem, s.m.sp - FRAME_BYTES, s.k.active, s.k.heapStart);
  }
}
