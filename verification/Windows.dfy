/**
 Where the timer can get between the instructions of the kernel: which saved
 contexts have interrupts off, which switches are therefore atomic, and what the
 strikes that are possible leave behind.
 */
module Windows {
  import opened Wrappers
  import opened Layout
  import opened Avr
  import opened ContextSwitch
  import opened Switch
  import opened ReturnPoint
  import opened Strikes
  import opened KernelModel
  import opened KernelInvariant
  import opened System
  import opened Refinement
  import opened SchedulerSquare
  import opened Runs
  import opened Handshake
  import P = PrivateContexts

  // ----- saved contexts have interrupts off -----

  ghost predicate SavedOff(a: P.State) {
    a.Live? ==> forall i :: 0 <= i < |a.saved| && a.saved[i].Some? ==> !a.saved[i].value.core.flags.i
  }

  // After n passes since start_scheduler, whose frame has the interrupt flag on.
  ghost predicate Opened(a: P.State, n: nat, on: bool) {
    a.Live? ==>
      && !a.mode.Starting? && (a.mode.FirstPass? <==> n == 0)
      && (a.mode.User? || a.mode.FirstPass? ==> a.sched.Some? && (a.sched.value.flags.i <==> on && n <= 1))
  }

  lemma NextSavedOff(a: P.State, e: Event)
    requires P.Applies(a, e) && SavedOff(a)
    ensures SavedOff(P.Next(a, e))
  {
    hide PlantedRegs, P.StackAccepted, P.ReturnAccepted, Candidates, Best, RanAfter, WithMt, FirstEmpty, LogicFlags;
  }

  lemma NextOpened(a: P.State, e: Event, n: nat, on: bool)
    requires P.Applies(a, e) && Opened(a, n, on) && !(e.ChangePriority? && a.mode.Halted?)
    ensures Opened(P.Next(a, e), n + (if e.Pass? then 1 else 0), on)
  {
    hide PlantedCore, P.StackAccepted, P.ReturnAccepted, Candidates, Best, RanAfter, WithMt, FirstEmpty, LogicFlags;
  }

  lemma StepSavedOff(s: Sys, e: Event)
    requires Inv(s) && Enabled(s, e) && SavedOff(Alpha(s))
    ensures Inv(System.Step(s, e)) && SavedOff(Alpha(System.Step(s, e)))
  {
    hide *;
    StepRefines(s, e);
    SquareParts(s, e);
    NextSavedOff(Alpha(s), e);
  }

  lemma StepOpened(s: Sys, e: Event, n: nat, on: bool)
    requires Inv(s) && Enabled(s, e) && Opened(Alpha(s), n, on)
    ensures Inv(System.Step(s, e)) && Opened(Alpha(System.Step(s, e)), n + (if e.Pass? then 1 else 0), on)
  {
    hide *;
    StepRefines(s, e);
    SquareParts(s, e);
    EnabledIsLive(s, e);
    AlphaMode(s);
    NextOpened(Alpha(s), e, n, on);
  }

  lemma {:induction false} RunSavedOff(s: Sys, es: seq<Event>, s': Sys)
    requires Inv(s) && SavedOff(Alpha(s)) && System.Reaches(s, es, s')
    ensures Inv(s') && SavedOff(Alpha(s'))
    decreases |es|
  {
    hide Inv, Enabled, System.Step, Alpha, SavedOff;
    if es != [] {
      StepSavedOff(s, es[0]);
      RunSavedOff(System.Step(s, es[0]), es[1..], s');
    }
  }

  /** In every run from boot the saved contexts of all tasks have interrupts off. */
  lemma BootSavedOff(m: Machine, heapStart: Word, es: seq<Event>, s': Sys)
    requires m.Valid() && System.Reaches(Boot(m, heapStart), es, s')
    ensures Inv(s') && SavedOff(Alpha(s'))
  {
    BootInv(m, heapStart);
    NothingSaved(m, heapStart);
    hide Inv, Boot, Alpha, SavedOff;
    RunSavedOff(Boot(m, heapStart), es, s');
  }

  lemma NothingSaved(m: Machine, heapStart: Word)
    requires m.Valid() && Inv(Boot(m, heapStart))
    ensures SavedOff(Alpha(Boot(m, heapStart)))
  {
    hide Run, BootMemory, CanariesIntact, ReadWord, KInv;
    var s := Boot(m, heapStart);
    assert forall i :: 0 <= i < TASKS_MAX ==> FrameOf(s, i) == None;
  }

  lemma {:induction false} RunOpened(s: Sys, es: seq<Event>, s': Sys, n: nat, on: bool)
    requires Inv(s) && Opened(Alpha(s), n, on) && System.Reaches(s, es, s')
    ensures Inv(s') && Opened(Alpha(s'), n + Passes(es), on)
    decreases |es|
  {
    hide Inv, Enabled, System.Step, Alpha, SavedOff, Opened;
    if es != [] {
      StepOpened(s, es[0], n, on);
      RunOpened(System.Step(s, es[0]), es[1..], s', n + (if es[0].Pass? then 1 else 0), on);
    }
  }

  lemma StartOpens(s: Sys, e: Event)
    requires Inv(s) && Enabled(s, e) && e.StartScheduler?
    ensures Inv(System.Step(s, e)) && Opened(Alpha(System.Step(s, e)), 0, e.code.flags.i)
  {
    StepRefines(s, e);
    hide Inv, Saved, System.Step, PlantedRegs, FirstEmpty, RoomForFrame;
  }

  /**
   The strike inside a switch can happen iff start_scheduler saved its frame with
   interrupts on, as it does, and user code enters the scheduler for the first time:
   from the second entry on the scheduler's context has them off.
   */
  lemma FirstEntryOnly(s: Sys, e: Event, es: seq<Event>, s': Sys, popped: bool, pc: int)
    requires Inv(s) && Enabled(s, e) && e.StartScheduler? && System.Reaches(System.Step(s, e), es, s')
    requires s'.mode.User? && Ok(s') && RoomForFrame(s') && 0 <= pc < PC_SPACE
    ensures Inv(s')
    ensures Enabled(s', StrikeInSwitch(ByYield, popped, pc)) <==> e.code.flags.i && Passes(es) == 1
  {
    hide Inv, Alpha, Enabled, System.Step, Opened, RoomForFrame, Armed, Unreturned;
    SchedulerContextFlag(s, e, es, s');
    StrikeNeedsFlag(s', popped, pc);
    StrikeEnabled(s', popped, pc);
  }

  /** The scheduler's own context has interrupts off from its second pass on, in every run. */
  lemma SchedulerContextFlag(s: Sys, e: Event, es: seq<Event>, s': Sys)
    requires Inv(s) && Enabled(s, e) && e.StartScheduler? && System.Reaches(System.Step(s, e), es, s')
    requires s'.mode.User?
    ensures Inv(s') && (SchedulerCore(s').value.flags.i <==> e.code.flags.i && Passes(es) == 1)
  {
    hide Inv, Alpha, Enabled, System.Step, Opened, SchedulerCore;
    StartOpens(s, e);
    RunOpened(System.Step(s, e), es, s', 0, e.code.flags.i);
    OpenedFlag(s', Passes(es), e.code.flags.i);
  }

  lemma OpenedFlag(s: Sys, n: nat, on: bool)
    requires Inv(s) && s.mode.User? && Opened(Alpha(s), n, on)
    ensures SchedulerCore(s).value.flags.i <==> on && n == 1
  {
    hide KInv, CanariesIntact, ReadWord, FrameCore, Saved;
  }

  lemma StrikeEnabled(s: Sys, popped: bool, pc: int)
    requires Ok(s) && s.mode.User? && RoomForFrame(s) && 0 <= pc < PC_SPACE
    ensures Enabled(s, StrikeInSwitch(ByYield, popped, pc)) <==> Armed(Unreturned(s.m, popped, pc))
  {
    hide Armed, Unreturned;
  }

  // ----- atomic switches -----

  /** A switch of user code, also the one that ends a kill, is atomic iff the scheduler's context has interrupts off. */
  lemma UserSwitchAtomic(s: Sys, pc: int)
    requires Inv(s) && s.mode.User? && RoomForFrame(s) && 0 <= pc < PC_SPACE
    ensures ProgramOk(CONTEXT_SWITCH)
    ensures NeverArmed(CONTEXT_SWITCH, 0, Off(s.m).(pc := pc)) <==> !SchedulerCore(s).value.flags.i
  {
    hide NeverArmed, Off, ProgramOk, FrameCore, FrameBytes, KInv, CanariesIntact, ReadyFrames, MtEnabled, ReadWord;
    ReadyToSwitch(s);
    SchedulerFrameResumes(s);
    AtomicExact(s.m, SchedulerSp(s), pc);
  }

  /** Which boundaries of a switch of user code are armed: of all of them, those of StrikeInSwitch or none. */
  lemma ArmedBoundaries(s: Sys, n: nat)
    requires Inv(s) && s.mode.User? && RoomForFrame(s) && n <= |CONTEXT_SWITCH|
    ensures ProgramOk(CONTEXT_SWITCH)
    ensures Armed(RunUpTo(CONTEXT_SWITCH, 0, n, Off(s.m)))
      <==> n + 1 >= |CONTEXT_SWITCH| && SchedulerCore(s).value.flags.i
  {
    hide Armed, RunUpTo, Off, ProgramOk, FrameCore, FrameBytes, KInv, CanariesIntact, ReadyFrames, MtEnabled, ReadWord;
    ReadyToSwitch(s);
    SchedulerFrameResumes(s);
    ArmedExact(s.m, SchedulerSp(s), n);
  }

  /** The switch that resumes the struck scheduler at its entry is atomic: its own frame has interrupts off. */
  lemma ReentryAtomic(s: Sys, pc: int)
    requires Inv(s) && s.mode.InScheduler? && 0 <= pc < PC_SPACE
    ensures ProgramOk(CONTEXT_SWITCH) && NeverArmed(CONTEXT_SWITCH, 0, Off(s.m).(pc := pc))
  {
    hide NeverArmed, Off, ProgramOk, FrameCore, FrameBytes, KInv, CanariesIntact, ReadyFrames, MtEnabled;
    FrameRoundTrip(s.m.mem, SavedCore(s.m));
    AtomicExact(s.m, SchedulerSp(s), pc);
  }

  // The machine at the end of a pass, about to yield.
  function Yielding(s: Sys, e: Event, k': Kernel): (m: Machine)
    requires Ok(s) && e.Pass? && e.code.Valid() && |e.block| == TASK_MEMORY_SIZE && k'.Shape()
    ensures m.Valid()
  {
    Machine(e.code.r, e.code.flags, e.code.pc, s.m.sp, WriteWord(PassMemory(s, e.block), NEXT_TASK_SP, NextSp(k')))
  }

  /** The scheduler's yield into a task is atomic: every task's context has interrupts off. */
  lemma PassAtomic(s: Sys, e: Event, k': Kernel, pc: int)
    requires Inv(s) && SavedOff(Alpha(s)) && Enabled(s, e) && e.Pass? && 0 <= pc < PC_SPACE && k'.Shape()
    requires SchedulerPass(s.k, PassMemory(s, e.block)) == Success(k')
    ensures ProgramOk(CONTEXT_SWITCH) && NeverArmed(CONTEXT_SWITCH, 0, Off(Yielding(s, e, k')).(pc := pc))
  {
    hide NeverArmed, Off, ProgramOk, FrameCore, FrameBytes, KInv, CanariesIntact, ReadyFrames, Stacks, MtEnabled;
    hide PassMemory;
    hide SchedulerPass, HandsOver, Saved, Chose, P.Schedule, P.Wf, Lo, Hi, ReadWord, Chosen, RunningContext;
    hide SchedulerCore;
    var mem := PassMemory(s, e.block);
    var t := NextSp(k');
    AlphaWf(s);
    ScheduleExact(s, e.block, e.code);
    FirstPassRoom(s, e.block);
    ChosenContext(s, mem, k', if s.k.position == 0 then {k'.active} else s.h.ran + {k'.active});
    var m := Yielding(s, e, k');
    WriteNext(mem, t);
    FrameSame(mem, m.mem, t);
    FrameMissesStack(m.mem, m.sp, FrameBytes(SavedCore(m)), t);
    AtomicExact(m, t, pc);
  }

  /** So it is in every run from boot. */
  lemma EveryPassAtomic(m: Machine, heapStart: Word, es: seq<Event>, s: Sys, e: Event, k': Kernel, pc: int)
    requires m.Valid() && System.Reaches(Boot(m, heapStart), es, s)
    requires Enabled(s, e) && e.Pass? && 0 <= pc < PC_SPACE && k'.Shape()
    requires SchedulerPass(s.k, PassMemory(s, e.block)) == Success(k')
    ensures ProgramOk(CONTEXT_SWITCH) && NeverArmed(CONTEXT_SWITCH, 0, Off(Yielding(s, e, k')).(pc := pc))
  {
    hide Inv, Alpha, SavedOff, Boot, NeverArmed, Off, ProgramOk, SchedulerPass, PassMemory, Yielding;
    BootSavedOff(m, heapStart, es, s);
    PassAtomic(s, e, k', pc);
  }

  lemma ChosenContext(s: Sys, mem: seq<Byte>, k': Kernel, ran: set<nat>)
    requires SchedulerRuns(s) && |mem| == 0x10000 && k'.Shape() && HandsOver(s, mem, k', ran) && SavedOff(Alpha(s))
    ensures FrameIn(NextSp(k'), k'.active) && k'.active != s.sb && !FrameCore(mem, NextSp(k')).flags.i
  {
    hide FrameCore, KInv, Saved, CanariesIntact, ReadWord;
    assert Alpha(s).saved == Saved(s);
  }

  // ----- what the strikes leave behind -----

  /**
   A strike behind the PUSH of SCILENT_DISABLE_MT: the frame lands one byte below
   scheduler_task_sp, and registers, SREG and program counter come back shifted by
   one byte, so the processor goes on at an address made of three unrelated bytes.
   */
  lemma TimerInsideMasking(s: Sys, e: Event)
    requires Inv(s) && Enabled(s, e) && e.StrikeInMasking?
    ensures var s' := System.Step(s, e);
            var m := Masking(s, e.code);
            && s'.mode == Halted(Derailed) && ShiftedByOne(m, s'.m) && m.sp + 1 == s.m.sp && m.mem[s.m.sp] == s.m.r[16]
            && ReadWord(s'.m.mem, PREV_TASK_SP) == SchedulerSp(s) - 1
  {
    hide Switched, ShiftedByOne, KInv, CanariesIntact, ReadyFrames, MtEnabled;
    MaskingReady(s, e.code);
    StruckOneShort(Masking(s, e.code), SchedulerSp(s));
    OneShortPrev(Masking(s, e.code), Switched(Masking(s, e.code), ByTimer));
  }

  lemma MaskingReady(s: Sys, code: Cpu)
    requires Inv(s) && s.mode.InScheduler? && code.Valid()
    ensures var m := Masking(s, code);
            && m.sp == s.m.sp - 1 == SchedulerSp(s) + FRAME_BYTES - 1 && m.mem[s.m.sp] == s.m.r[16]
            && SwitchReady(m, SchedulerSp(s))
  {
    hide KInv, CanariesIntact, ReadyFrames, MtEnabled;
    var m := Masking(s, code);
    assert m.mem == s.m.mem[s.m.sp := s.m.r[16]];
  }

  lemma OneShortPrev(m: Machine, m': Machine)
    requires m.Valid() && m'.Valid() && m.sp < 0xFFFF && ShiftedByOne(m, m')
    ensures ReadWord(m'.mem, PREV_TASK_SP) == m.sp - FRAME_BYTES
  {
  }

  /**
   A strike inside the first switch into the scheduler, at either armed boundary:
   the scheduler resumes at its PC and SP, but with the registers shifted by three
   or four bytes, SREG and the low registers made of the struck address, and
   prev_task_sp pointing below its own frame, so the task's SP is lost.
   */
  lemma TimerInsideSwitch(s: Sys, e: Event)
    requires Inv(s) && Enabled(s, e) && e.StrikeInSwitch?
    ensures var s' := System.Step(s, e);
            var n := Unreturned(s.m, e.popped, e.pc);
            && s'.mode == Halted(Derailed) && SchedulerCore(s).Some?
            && SwitchStruck(s.m, n, s'.m, SchedulerCore(s).value, SchedulerSp(s), e.popped)
  {
    hide Switched, Unreturned, Armed, InWindow, ShiftedInWindow, FrameCore, KInv, CanariesIntact, ReadyFrames;
    hide MtEnabled;
    ReadyToSwitch(s);
    SchedulerFrameResumes(s);
    StruckInWindow(s.m, SchedulerSp(s), e.popped, e.pc);
  }
}
