/**
 What the refinement means to a task: however long it is suspended and whatever
 the other tasks and the scheduler do meanwhile, it goes on as it was left.
 */
module Contexts {
  import opened Wrappers
  import opened Layout
  import opened Avr
  import opened ContextSwitch
  import opened Switch
  import opened ReturnPoint
  import opened Priority
  import opened KernelModel
  import opened KernelInvariant
  import opened System
  import opened Refinement
  import opened Squares
  import opened Runs
  import P = PrivateContexts

  // Slot b is suspended in context c; t is its task with the status READY.
  ghost predicate Holds(a: P.State, b: nat, c: P.Context, t: Task) {
    && P.Wf(a) && b < TASKS_MAX && a.saved[b] == Some(c) && a.tasks[b].(status := Ready) == t
    && (a.tasks[b].status == Ready || (a.mode.InScheduler? && a.active == b && a.tasks[b].status == Running))
  }

  // Its context is gone because the timer struck the scheduler right after it was interrupted.
  ghost predicate Lost(a: P.State, b: nat) {
    && P.Wf(a) && b < TASKS_MAX && a.mode.InScheduler? && a.active == b
    && a.tasks[b].status == Running && a.saved[b] == None
  }

  ghost predicate Resumed(a: P.State, b: nat, c: P.Context, t: Task) {
    && P.Wf(a) && b < TASKS_MAX && a.mode.User? && a.active == b && a.tasks[b] == t.(status := Running)
    && a.cur == c.(core := ResumedCore(c.core, a.timsk)) && exists mask: Byte :: a.timsk == WithMt(mask)
  }

  ghost predicate Pending(a: P.State, b: nat, c: P.Context, t: Task) {
    a.Stopped? || Holds(a, b, c, t) || Lost(a, b) || Resumed(a, b, c, t)
  }

  // Who runs and who is where, read off the invariant.
  ghost predicate Roles(a: P.State) {
    && P.Wf(a)
    && (a.mode.User? || a.mode.Starting? ==> a.tasks[a.active].status == Running)
    && (a.mode.FirstPass? ==> a.tasks[a.active].status == Scheduler)
    && (a.mode.InScheduler? ==> a.tasks[a.active].status == Running || a.tasks[a.active].status == Empty)
    && (a.mode.InScheduler? ==> forall i :: 0 <= i < TASKS_MAX && a.tasks[i].status == Running ==> i == a.active)
  }

  lemma AlphaRoles(s: Sys)
    requires Inv(s) && !s.mode.Halted?
    ensures Roles(Alpha(s))
  {
    AlphaWf(s);
  }

  /** A suspended context stays as it is until its task is resumed from it, or is lost for good. */
  lemma NextKeepsContext(a: P.State, e: Event, b: nat, c: P.Context, t: Task)
    requires Roles(a) && P.Applies(a, e) && (a.mode.User? || a.mode.Starting? || !e.ChangePriority?)
    requires Holds(a, b, c, t) || Lost(a, b)
    requires P.Next(a, e).Live? ==> P.Wf(P.Next(a, e))
    ensures Pending(P.Next(a, e), b, c, t)
  {
    hide ResumedCore, PlantedCore, P.StackAccepted, P.ReturnAccepted, Candidates, Best, RanAfter, WithMt;
  }

  // A run in which slot b's task does not run, except perhaps in its last state.
  ghost predicate AwayUntil(s: Sys, es: seq<Event>, s': Sys, b: nat)
    decreases |es|
  {
    if es == [] then s == s'
    else !(s.mode.User? && s.k.active == b) && Enabled(s, es[0]) && AwayUntil(System.Step(s, es[0]), es[1..], s', b)
  }

  lemma {:induction false} AwayReaches(s: Sys, es: seq<Event>, s': Sys, b: nat)
    requires AwayUntil(s, es, s', b)
    ensures System.Reaches(s, es, s')
    decreases |es|
  {
    hide Enabled, System.Step;
    if es != [] {
      AwayReaches(System.Step(s, es[0]), es[1..], s', b);
    }
  }

  lemma StepPending(s: Sys, e: Event, b: nat, c: P.Context, t: Task)
    requires Inv(s) && Enabled(s, e) && (Holds(Alpha(s), b, c, t) || Lost(Alpha(s), b))
    ensures Inv(System.Step(s, e)) && Pending(Alpha(System.Step(s, e)), b, c, t)
  {
    var s' := System.Step(s, e);
    StepRefines(s, e);
    if !s.mode.Halted? {
      AlphaRoles(s);
      if !s'.mode.Halted? {
        AlphaRoles(s');
      }
      hide Inv, Alpha, Holds, Lost, P.Next, P.Wf, Roles, Pending, System.Step;
      assert (s.mode.User? || s.mode.Starting? || !e.ChangePriority?) by { }
      NextKeepsContext(Alpha(s), e, b, c, t);
    }
  }

  lemma {:induction false} RunPending(s: Sys, es: seq<Event>, s': Sys, b: nat, c: P.Context, t: Task)
    requires Inv(s) && Pending(Alpha(s), b, c, t) && AwayUntil(s, es, s', b)
    ensures Inv(s') && Pending(Alpha(s'), b, c, t)
    decreases |es|
  {
    if es != [] {
      StepPending(s, es[0], b, c, t);
      hide Inv, Alpha, Holds, Lost, Enabled;
      RunPending(System.Step(s, es[0]), es[1..], s', b, c, t);
    }
  }

  // ----- the timer mask -----

  lemma NextMask(a: P.State, e: Event)
    requires P.Applies(a, e) && a.timsk / 2 % 2 == 1 && P.Next(a, e).Live?
    ensures P.Next(a, e).timsk == a.timsk
  {
    hide ResumedCore, PlantedCore, P.StackAccepted, P.ReturnAccepted, Candidates, Best, RanAfter, FirstEmpty;
  }

  lemma StepMask(s: Sys, e: Event)
    requires Inv(s) && Enabled(s, e) && MtEnabled(s.m.mem) && !System.Step(s, e).mode.Halted?
    ensures Inv(System.Step(s, e)) && System.Step(s, e).m.mem[TIMSK1] == s.m.mem[TIMSK1]
  {
    hide *;
    EnabledIsLive(s, e);
    StepRefines(s, e);
    SquareParts(s, e);
    AlphaMask(s);
    AlphaMask(System.Step(s, e));
    NextMask(Alpha(s), e);
  }

  lemma AlphaMask(s: Sys)
    requires Inv(s) && !s.mode.Halted?
    ensures Ok(s) && Alpha(s).Live? && Alpha(s).timsk == s.m.mem[TIMSK1]
    ensures MtEnabled(s.m.mem) ==> Alpha(s).timsk / 2 % 2 == 1
  {
  }

  /** Once multitasking is on, TIMSK1 is the same at every event until a halt. */
  lemma {:induction false} MaskIsConstant(s: Sys, es: seq<Event>, s': Sys)
    requires Inv(s) && !s.mode.Halted? && MtEnabled(s.m.mem) && System.Reaches(s, es, s') && !s'.mode.Halted?
    ensures Inv(s') && Ok(s') && s'.m.mem[TIMSK1] == s.m.mem[TIMSK1]
    decreases |es|
  {
    hide Inv, Enabled, System.Step, MtEnabled;
    AlphaMask(s);
    if es != [] {
      var s1 := System.Step(s, es[0]);
      if s1.mode.Halted? {
        NothingAfterHalt(s1, es[1..], s');
      }
      StepMask(s, es[0]);
      AlphaMask(s1);
      StillEnabled(s.m.mem, s1.m.mem);
      MaskIsConstant(s1, es[1..], s');
    }
  }

  lemma StillEnabled(mem: seq<Byte>, mem': seq<Byte>)
    requires |mem| == |mem'| == 0x10000 && mem'[TIMSK1] == mem[TIMSK1]
    ensures MtEnabled(mem') <==> MtEnabled(mem)
  {
  }

  lemma NothingAfterHalt(s: Sys, es: seq<Event>, s': Sys)
    requires s.mode.Halted? && System.Reaches(s, es, s')
    ensures s' == s
  {
  }

  /** m' continues m: same registers, program counter, stack pointer and live stack in block b. */
  ghost predicate Continues(m: Machine, m': Machine, b: nat)
    requires m.Valid() && m'.Valid()
  {
    && m'.r == m.r && m'.pc == m.pc && m'.sp == m.sp
    && (forall x :: m.sp < x <= High(b) && x < 0x10000 ==> m'.mem[x] == m.mem[x])
  }

  // What the switch out leaves pending.
  lemma SwitchedOut(s: Sys, e: Event)
    requires Inv(s) && Enabled(s, e) && s.mode.User? && e.SwitchTask?
    ensures Inv(System.Step(s, e))
    ensures Holds(Alpha(System.Step(s, e)), s.k.active, P.Suspended(RunningContext(s)),
                  s.k.Current().(sp := 0, status := Ready))
  {
    StepRefines(s, e);
    var s' := System.Step(s, e);
    UserCodeEntersScheduler(s, e.entry);
    hide Inv, Saved, RunningContext, SchedulerCore;
    AlphaRoles(s);
    AlphaRoles(s');
  }

  lemma ResumedMachine(s: Sys, s': Sys, b: nat, core: Core, t: Task)
    requires Inv(s) && (s.mode.User? || s.mode.Starting?) && b == s.k.active
    requires Inv(s') && s'.mode.User? && s'.k.active == b && core.sp == s.m.sp
    requires Resumed(Alpha(s'), b, P.Context(core, StackAbove(s.m.mem, s.m.sp, b)), t)
    ensures CoreOf(s'.m) == ResumedCore(core, s'.m.mem[TIMSK1])
    ensures forall x :: s.m.sp < x <= High(b) ==> s'.m.mem[x] == s.m.mem[x]
    ensures Erased(s'.k.tasks)[b] == t.(status := Running)
    ensures exists mask: Byte :: s'.m.mem[TIMSK1] == WithMt(mask)
  {
    hide Saved, SchedulerCore, KInv, CanariesIntact, ReadWord, LogicFlags;
    assert s'.m.sp == s.m.sp;
    forall x | s.m.sp < x <= High(b)
      ensures s'.m.mem[x] == s.m.mem[x]
    {
      assert StackAbove(s'.m.mem, s.m.sp, b)[x - s.m.sp - 1] == StackAbove(s.m.mem, s.m.sp, b)[x - s.m.sp - 1];
    }
  }

  lemma SuspendedContext(s: Sys)
    requires Inv(s) && (s.mode.User? || s.mode.Starting?)
    ensures P.Suspended(RunningContext(s)) == P.Context(SavedCore(s.m), StackAbove(s.m.mem, s.m.sp, s.k.active))
    ensures s.k.Current().status == Running
  {
    ActiveRuns(s);
  }

  // From the moment a task is suspended in a context until it runs again.
  lemma Returns(s: Sys, s1: Sys, es: seq<Event>, s': Sys, core: Core)
    requires Inv(s) && (s.mode.User? || s.mode.Starting?) && Inv(s1) && core.sp == s.m.sp
    requires Holds(Alpha(s1), s.k.active, P.Context(core, StackAbove(s.m.mem, s.m.sp, s.k.active)),
                   s.k.Current().(sp := 0, status := Ready))
    requires AwayUntil(s1, es, s', s.k.active) && s'.mode.User? && s'.k.active == s.k.active
    ensures Inv(s') && Ok(s') && CoreOf(s'.m) == ResumedCore(core, s'.m.mem[TIMSK1])
    ensures forall x :: s.m.sp < x <= High(s.k.active) && x < 0x10000 ==> s'.m.mem[x] == s.m.mem[x]
    ensures s'.k.Current().(sp := 0) == s.k.Current().(sp := 0)
    ensures exists mask: Byte :: s'.m.mem[TIMSK1] == WithMt(mask)
  {
    var b := s.k.active;
    var c := P.Context(core, StackAbove(s.m.mem, s.m.sp, b));
    var t := s.k.Current().(sp := 0, status := Ready);
    ActiveRuns(s);
    hide Inv, Alpha, AwayUntil, Holds, Resumed, StackAbove, ResumedCore;
    RunPending(s1, es, s', b, c, t);
    FinallyResumed(s', b, c, t);
    ResumedMachine(s, s', b, core, t);
  }

  /**
   Whatever happens between the switch that takes a task off the processor and
   the moment it runs again, it finds its registers, program counter, stack
   pointer and live stack as they were; of SREG, only S, V, N and Z can differ.
   */
  lemma TaskFindsItsContext(s: Sys, e: Event, es: seq<Event>, s': Sys)
    requires Inv(s) && Enabled(s, e) && s.mode.User? && e.SwitchTask?
    requires AwayUntil(System.Step(s, e), es, s', s.k.active) && s'.mode.User? && s'.k.active == s.k.active
    ensures Inv(s') && Continues(s.m, s'.m, s.k.active)
    ensures s'.m.flags == s.m.flags.(i := true, s := s'.m.flags.s, v := false, n := s'.m.flags.s, z := false)
    ensures s'.m.flags.s == (s.m.mem[TIMSK1] >= 128)
    ensures s'.m.flags == s.m.flags <==>
            s.m.flags.i && !s.m.flags.v && !s.m.flags.z && s.m.flags.n == s.m.flags.s == (s.m.mem[TIMSK1] >= 128)
    ensures s'.k.Current().(sp := 0) == s.k.Current().(sp := 0)
  {
    hide Inv, Alpha, Enabled, Holds, System.Step, AwayUntil, StackAbove;
    SwitchedOut(s, e);
    SuspendedContext(s);
    Returns(s, System.Step(s, e), es, s', SavedCore(s.m));
    MaskOverSwitch(s, e, es, s');
    var mask: Byte :| s'.m.mem[TIMSK1] == WithMt(mask);
    EnablingSetsTheBit(mask);
  }

  lemma MaskOverSwitch(s: Sys, e: Event, es: seq<Event>, s': Sys)
    requires Inv(s) && Enabled(s, e) && s.mode.User? && e.SwitchTask?
    requires AwayUntil(System.Step(s, e), es, s', s.k.active) && s'.mode.User?
    ensures Inv(s') && Ok(s') && s'.m.mem[TIMSK1] == s.m.mem[TIMSK1]
  {
    UserMask(s);
    SwitchedOut(s, e);
    hide Inv, Enabled, System.Step, Holds, Alpha, MtEnabled;
    var s1 := System.Step(s, e);
    HoldsIsLive(s1, s.k.active, P.Suspended(RunningContext(s)), s.k.Current().(sp := 0, status := Ready));
    StepMask(s, e);
    AlphaMask(s1);
    StillEnabled(s.m.mem, s1.m.mem);
    AwayReaches(s1, es, s', s.k.active);
    MaskIsConstant(s1, es, s');
  }

  lemma UserMask(s: Sys)
    requires Inv(s) && s.mode.User?
    ensures Ok(s) && MtEnabled(s.m.mem)
  {
  }

  lemma HoldsIsLive(s: Sys, b: nat, c: P.Context, t: Task)
    requires Inv(s) && Holds(Alpha(s), b, c, t)
    ensures !s.mode.Halted?
  {
  }

  lemma FinallyResumed(s': Sys, b: nat, c: P.Context, t: Task)
    requires Inv(s') && s'.mode.User? && s'.k.active == b && Pending(Alpha(s'), b, c, t)
    ensures Resumed(Alpha(s'), b, c, t)
  {
    AlphaRoles(s');
  }

  lemma NextParks(a: P.State, e: Event)
    requires Roles(a) && P.Applies(a, e) && (e.Spawn? || e.StartScheduler?)
    requires P.Next(a, e).Live? && P.Wf(P.Next(a, e))
    ensures var caller := P.Suspended(a.cur);
            Holds(P.Next(a, e), a.active, caller.(core := PlantedCore(caller.core)),
                  a.tasks[a.active].(status := Ready))
  {
    hide PlantedCore;
  }

  lemma EnabledModes(s: Sys, e: Event)
    requires Enabled(s, e) && (e.Spawn? || e.StartScheduler?)
    ensures Ok(s) && (s.mode.User? || s.mode.Starting?)
  {
  }

  lemma EmptySlotSuffices(s: Sys, e: Event)
    requires Inv(s) && Enabled(s, e) && (e.Spawn? || e.StartScheduler?)
    ensures FirstEmpty(s.k.tasks, 0) < TASKS_MAX ==> !System.Step(s, e).mode.Halted?
  {
    hide KInv, CanariesIntact, ReadWord, Stacks, ReadyFrames, SavedWithReturnPoint, Launched, SpawnTask, Run;
    hide WriteBlock;
    ActiveRuns(s);
    if e.Spawn? {
      SpawnEffect(s, e.priority, e.start);
    } else {
      SpawnEffect(s, e.priority, e.code);
    }
  }

  lemma SpawnedOut(s: Sys, e: Event)
    requires Inv(s) && Enabled(s, e) && (e.Spawn? || e.StartScheduler?) && !System.Step(s, e).mode.Halted?
    ensures var caller := P.Suspended(RunningContext(s));
            && Inv(System.Step(s, e))
            && Holds(Alpha(System.Step(s, e)), s.k.active, caller.(core := PlantedCore(caller.core)),
                     s.k.Current().(sp := 0, status := Ready))
  {
    StepRefines(s, e);
    AlphaRoles(s);
    AlphaRoles(System.Step(s, e));
    hide Inv, Saved, SchedulerCore, PlantedCore, StackAbove, System.Step, P.Next, Holds, RunningContext, P.Wf;
    NextParks(Alpha(s), e);
  }

  /**
   A task that spawned another (or the scheduler) goes on at the JMP inside
   SET_RETURN_POINT, on the same stack, with only r16 to r19 and SREG changed.
   */
  lemma SpawnerReturns(s: Sys, e: Event, es: seq<Event>, s': Sys)
    requires Inv(s) && Enabled(s, e) && (e.Spawn? || e.StartScheduler?) && FirstEmpty(s.k.tasks, 0) < TASKS_MAX
    requires AwayUntil(System.Step(s, e), es, s', s.k.active) && s'.mode.User? && s'.k.active == s.k.active
    ensures Inv(s') && s'.m.pc == PlantedAddress(s.m.pc) && s'.m.sp == s.m.sp
    ensures forall k :: 0 <= k < 32 && !(16 <= k <= 19) ==> s'.m.r[k] == s.m.r[k]
    ensures forall x :: s.m.sp < x <= High(s.k.active) && x < 0x10000 ==> s'.m.mem[x] == s.m.mem[x]
    ensures s'.k.Current().(sp := 0) == s.k.Current().(sp := 0)
  {
    EnabledModes(s, e);
    hide Inv, Alpha, Enabled, Holds, System.Step, AwayUntil, StackAbove, FirstEmpty, PlantedCore, ResumedCore;
    hide RunningContext;
    EmptySlotSuffices(s, e);
    SpawnedOut(s, e);
    SuspendedContext(s);
    Returns(s, System.Step(s, e), es, s', PlantedCore(SavedCore(s.m)));
    ResumedParts(s.m, PlantedCore(SavedCore(s.m)), s'.m.mem[TIMSK1]);
  }

  lemma ResumedParts(m: Machine, c: Core, mask: Byte)
    requires m.Valid() && c == PlantedCore(SavedCore(m))
    ensures var c' := ResumedCore(c, mask);
            && c'.pc == PlantedAddress(m.pc) && c'.sp == m.sp && |c'.r| == 32
            && forall k :: 0 <= k < 32 && !(16 <= k <= 19) ==> c'.r[k] == m.r[k]
  {
    hide Lo, Hi, CarryFlags;
  }
}
