/**
 Progress: as long as the idle task lives with a priority below 255, the
 scheduler always finds a task to run.
 */
module Progress {
  import opened Layout
  import opened Avr
  import opened ContextSwitch
  import opened Switch
  import opened ReturnPoint
  import opened Priority
  import opened KernelModel
  import opened KernelInvariant
  import opened System
  import opened Refinement
  import opened Runs
  import opened Contexts
  import opened Handshake
  import opened Pids
  import P = PrivateContexts

  // The idle task, in slot 0, is alive and can be queued.
  ghost predicate Idling(tasks: seq<Task>, sb: nat, mode: Mode) {
    |tasks| == TASKS_MAX && Alive(tasks[0]) && tasks[0].priority < UINT8_MAX && (mode.Starting? || sb != 0)
  }

  // The event does not end the idle task or take it out of the queue for good.
  predicate SparesIdle(active: nat, e: Event) {
    active == 0 ==> !e.Kill? && (e.ChangePriority? ==> e.priority < UINT8_MAX)
  }

  lemma PassKeepsIdle(a: P.State, code: Cpu)
    requires P.Wf(a) && (a.mode.FirstPass? || a.mode.InScheduler?) && P.Schedule(a, code).Live?
    requires Idling(a.tasks, a.sb, a.mode)
    ensures var b := P.Schedule(a, code); Idling(b.tasks, b.sb, b.mode)
  {
    hide ResumedCore, P.StackAccepted, Candidates, Best, RanAfter, WithMt;
  }

  lemma NextKeepsIdle(a: P.State, e: Event)
    requires Roles(a) && P.Applies(a, e) && Idling(a.tasks, a.sb, a.mode) && SparesIdle(a.active, e)
    requires P.Next(a, e).Live?
    ensures var b := P.Next(a, e); Idling(b.tasks, b.sb, b.mode)
  {
    hide ResumedCore, P.Schedule, WithMt, PlantedCore, FirstEmpty;
    if e.Pass? {
      PassKeepsIdle(a, e.code);
    }
  }

  lemma ErasedIdling(s: Sys)
    requires Inv(s) && !s.mode.Halted?
    ensures var a := Alpha(s);
            a.Live? && a.active == s.k.active && (Idling(a.tasks, a.sb, a.mode) <==> Idling(s.k.tasks, s.sb, s.mode))
  {
  }

  lemma PassFindsTask(s: Sys, e: Event)
    requires Inv(s) && Enabled(s, e) && e.Pass? && Idling(s.k.tasks, s.sb, s.mode)
    ensures System.Step(s, e).mode != Halted(NoTasks)
  {
    hide Inv, PassMemory, Switched, SchedulerPass, HandlePreviousTask, KInv, Stacks, ReadyFrames;
    var mem := PassMemory(s, e.block);
    assert KInv(s.k, s.sb, s.mode, s.h.ran) by { InvParts(s); }
    PassKeeps(s.k, s.sb, s.mode, s.h.ran, mem);
    if HandlePreviousTask(s.k, mem).Success? {
      NoTasksExact(s.k, s.sb, s.mode, s.h.ran, mem);
    }
  }

  lemma StepIdling(s: Sys, e: Event)
    requires Inv(s) && Enabled(s, e) && Idling(s.k.tasks, s.sb, s.mode) && SparesIdle(s.k.active, e)
    ensures var s' := System.Step(s, e);
            && Inv(s') && s'.mode != Halted(NoTasks)
            && (!s'.mode.Halted? ==> Idling(s'.k.tasks, s'.sb, s'.mode))
  {
    hide *;
    EnabledIsLive(s, e);
    var s' := System.Step(s, e);
    StepRefines(s, e);
    SquareParts(s, e);
    if e.Pass? {
      PassFindsTask(s, e);
    } else {
      OnlyPassesFindNoTask(s, e);
    }
    if !s'.mode.Halted? {
      AlphaRoles(s);
      ErasedIdling(s);
      ErasedIdling(s');
      NextKeepsIdle(Alpha(s), e);
    }
  }

  lemma OnlyPassesFindNoTask(s: Sys, e: Event)
    requires Inv(s) && Enabled(s, e) && !e.Pass?
    ensures System.Step(s, e).mode != Halted(NoTasks)
  {
    StepHandshake(s, e);
  }

  // A run that never ends the idle task or sets its priority to 255.
  ghost predicate IdleSpared(s: Sys, es: seq<Event>, s': Sys)
    decreases |es|
  {
    if es == [] then s == s'
    else Enabled(s, es[0]) && SparesIdle(s.k.active, es[0]) && IdleSpared(System.Step(s, es[0]), es[1..], s')
  }

  lemma {:induction false} RunIdling(s: Sys, es: seq<Event>, s': Sys)
    requires Inv(s) && s.mode != Halted(NoTasks) && IdleSpared(s, es, s')
    requires !s.mode.Halted? ==> Idling(s.k.tasks, s.sb, s.mode)
    ensures Inv(s') && s'.mode != Halted(NoTasks) && (!s'.mode.Halted? ==> Idling(s'.k.tasks, s'.sb, s'.mode))
    decreases |es|
  {
    hide Inv, System.Step, Enabled, Idling, SparesIdle;
    if es != [] {
      EnabledIsLive(s, es[0]);
      StepIdling(s, es[0]);
      RunIdling(System.Step(s, es[0]), es[1..], s');
    }
  }

  /** In such a run from boot no pass fails for want of a task, so num_active_tasks - 1 never underflows. */
  lemma AlwaysATask(m: Machine, heapStart: Word, es: seq<Event>, s': Sys)
    requires m.Valid() && IdleSpared(Boot(m, heapStart), es, s')
    ensures Inv(s') && s'.mode != Halted(NoTasks)
  {
    BootInv(m, heapStart);
    BootIdles(m, heapStart);
    hide Inv, Boot, Idling;
    RunIdling(Boot(m, heapStart), es, s');
  }

  lemma BootIdles(m: Machine, heapStart: Word)
    requires m.Valid()
    ensures var s := Boot(m, heapStart); s.mode.Starting? && Idling(s.k.tasks, s.sb, s.mode)
  {
    hide Run;
  }
}
