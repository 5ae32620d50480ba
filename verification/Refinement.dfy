/**
 The concrete kernel refines the machine of private contexts: an invariant of
 the bytes in memory, a mapping that reads every context back out of them, and
 one commuting square per event.
 */
module Refinement {
  import opened Wrappers
  import opened Layout
  import opened Avr
  import opened ContextSwitch
  import opened Switch
  import opened Strikes
  import opened Priority
  import opened KernelModel
  import opened KernelInvariant
  import opened System
  import P = PrivateContexts

  // ----- the invariant -----

  ghost predicate ReadyFrames(k: Kernel)
    requires k.Shape()
  {
    forall i :: 0 <= i < TASKS_MAX && k.tasks[i].status == Ready ==> FrameIn(k.tasks[i].sp, i)
  }

  function PrevSp(s: Sys): Word
    requires Ok(s)
  {
    ReadWord(s.m.mem, PREV_TASK_SP)
  }

  ghost predicate Stacks(s: Sys)
    requires Ok(s)
  {
    match s.mode
    case Starting => InBlock(s.m.sp, s.k.active)
    case FirstPass => FrameIn(SchedulerSp(s), s.sb) && s.m.sp == SchedulerSp(s)
    case User => FrameIn(SchedulerSp(s), s.sb) && InBlock(s.m.sp, s.k.active) && MtEnabled(s.m.mem)
    case InScheduler =>
      && FrameIn(SchedulerSp(s), s.sb) && s.m.sp == SchedulerSp(s) + FRAME_BYTES && MtEnabled(s.m.mem)
      && (s.k.Current().status == Running ==> PrevSp(s) == SchedulerSp(s) || FrameIn(PrevSp(s), s.k.active))
    case Halted(_) => true
  }

  /**
   What holds between any two events until the machine halts. In particular
   next_task_sp is 0: it is set and used inside a single scheduler pass.
   */
  ghost predicate Inv(s: Sys) {
    && Ok(s)
    && (!s.mode.Halted? ==>
          && KInv(s.k, s.sb, s.mode, s.h.ran)
          && ReadyFrames(s.k)
          && CanariesIntact(s.m.mem)
          && ReadWord(s.m.mem, NEXT_TASK_SP) == 0
          && Stacks(s))
  }

  // ----- reading the contexts out of memory -----

  function StackAbove(mem: seq<Byte>, sp: int, b: nat): seq<Byte>
    requires |mem| == 0x10000 && b < TASKS_MAX && 0 <= sp <= High(b)
  {
    seq(High(b) - sp, k requires 0 <= k < High(b) - sp => mem[sp + 1 + k])
  }

  function Decode(mem: seq<Byte>, p: int, b: nat): P.Context
    requires |mem| == 0x10000 && b < TASKS_MAX && FrameIn(p, b)
  {
    P.Context(FrameCore(mem, p), StackAbove(mem, p + FRAME_BYTES, b))
  }

  // The stack pointer below the frame that holds slot i's context, if there is one.
  function FrameOf(s: Sys, i: nat): Option<int>
    requires Ok(s) && i < TASKS_MAX
  {
    if s.k.tasks[i].status == Ready then Some(s.k.tasks[i].sp)
    else if s.mode.InScheduler? && i == s.k.active && s.k.tasks[i].status == Running
            && PrevSp(s) != SchedulerSp(s) then Some(PrevSp(s))
    else None
  }

  function SavedOf(s: Sys, i: nat): Option<P.Context>
    requires Ok(s) && i < TASKS_MAX && (FrameOf(s, i).Some? ==> FrameIn(FrameOf(s, i).value, i))
  {
    match FrameOf(s, i)
    case None => None
    case Some(p) => Some(Decode(s.m.mem, p, i))
  }

  function Erased(tasks: seq<Task>): (r: seq<Task>)
    ensures |r| == |tasks| && forall i :: 0 <= i < |tasks| ==> r[i] == tasks[i].(sp := 0)
  {
    seq(|tasks|, i requires 0 <= i < |tasks| => tasks[i].(sp := 0))
  }

  lemma FramesInBlocks(s: Sys, i: nat)
    requires Inv(s) && !s.mode.Halted? && i < TASKS_MAX && FrameOf(s, i).Some?
    ensures FrameIn(FrameOf(s, i).value, i)
  {
  }

  ghost function Saved(s: Sys): (r: seq<Option<P.Context>>)
    requires Inv(s) && !s.mode.Halted?
    ensures |r| == TASKS_MAX && forall i :: 0 <= i < TASKS_MAX ==>
              (FrameOf(s, i).Some? ==> FrameIn(FrameOf(s, i).value, i)) && r[i] == SavedOf(s, i)
  {
    forall i: nat | i < TASKS_MAX && FrameOf(s, i).Some?
      ensures FrameIn(FrameOf(s, i).value, i)
    {
      FramesInBlocks(s, i);
    }
    seq(TASKS_MAX, i requires 0 <= i < TASKS_MAX => SavedOf(s, i))
  }

  ghost function RunningContext(s: Sys): P.Context
    requires Inv(s) && !s.mode.Halted?
  {
    if s.mode.InScheduler? then P.Context(CoreOf(s.m), [])
    else if s.mode.FirstPass? then P.Resting(s.m.sp)
    else P.Context(CoreOf(s.m), StackAbove(s.m.mem, s.m.sp, s.k.active))
  }

  ghost function SchedulerCore(s: Sys): Option<Core>
    requires Inv(s) && !s.mode.Halted?
  {
    if s.mode.User? || s.mode.FirstPass? then Some(FrameCore(s.m.mem, SchedulerSp(s))) else None
  }

  /** The private-context machine that a concrete state stands for. */
  ghost function Alpha(s: Sys): P.State
    requires Inv(s)
  {
    if s.mode.Halted? then P.Stopped(s.mode.reason)
    else P.Live(Erased(s.k.tasks), s.k.active, s.k.pidCnt, s.sb, s.mode, s.h.ran, s.m.mem[TIMSK1],
                Saved(s), RunningContext(s), SchedulerCore(s))
  }

  lemma AlphaWf(s: Sys)
    requires Inv(s) && !s.mode.Halted?
    ensures P.Wf(Alpha(s))
  {
  }

  // ----- frames and what leaves them alone -----

  lemma DecodeSame(mem: seq<Byte>, mem': seq<Byte>, p: int, b: nat)
    requires |mem| == |mem'| == 0x10000 && b < TASKS_MAX && FrameIn(p, b)
    requires forall a :: p < a <= High(b) ==> mem'[a] == mem[a]
    ensures Decode(mem', p, b) == Decode(mem, p, b)
  {
    SameFrame(mem, mem', p);
  }

  // Writes confined to other blocks, the I/O registers and the switch globals.
  ghost predicate Untouched(mem: seq<Byte>, mem': seq<Byte>, b: nat) {
    |mem| == |mem'| == 0x10000 && forall a :: InBlock(a, b) && 0 <= a < 0x10000 ==> mem'[a] == mem[a]
  }

  lemma DecodeUntouched(mem: seq<Byte>, mem': seq<Byte>, p: int, b: nat)
    requires b < TASKS_MAX && FrameIn(p, b) && Untouched(mem, mem', b)
    ensures Decode(mem', p, b) == Decode(mem, p, b)
  {
    DecodeSame(mem, mem', p, b);
  }

  lemma FrameSame(mem: seq<Byte>, mem': seq<Byte>, p: int)
    requires |mem| == |mem'| == 0x10000 && 0 <= p && p + FRAME_BYTES < 0x10000
    requires forall a :: p < a <= p + FRAME_BYTES ==> mem'[a] == mem[a]
    ensures FrameCore(mem', p) == FrameCore(mem, p)
  {
    SameFrame(mem, mem', p);
  }

  // A slot whose frame is where it was, in a block nobody wrote to, keeps its context.
  lemma SavedSame(s: Sys, s': Sys, i: nat)
    requires Ok(s) && Ok(s') && i < TASKS_MAX && FrameOf(s', i) == FrameOf(s, i)
    requires FrameOf(s, i).Some? ==> FrameIn(FrameOf(s, i).value, i)
    requires FrameOf(s, i).Some? ==> Untouched(s.m.mem, s'.m.mem, i)
    ensures SavedOf(s', i) == SavedOf(s, i)
  {
    if FrameOf(s, i).Some? {
      DecodeUntouched(s.m.mem, s'.m.mem, FrameOf(s, i).value, i);
    }
  }

  // Everything but [lo, hi], one byte x0 and the switch globals is the same.
  ghost predicate KeptBut(mem: seq<Byte>, mem': seq<Byte>, lo: int, hi: int, x0: int) {
    && |mem| == |mem'| == 0x10000
    && forall x :: 0 <= x < 0x10000 && !SwitchGlobal(x) && x != x0 && !(lo <= x <= hi) ==> mem'[x] == mem[x]
  }

  lemma SwitchKeeps(m: Machine, m': Machine, t: int)
    requires m.Valid() && m'.Valid() && STACK_LOW + FRAME_BYTES <= m.sp < STACK_TOP
    requires STACK_LOW <= t < STACK_TOP - FRAME_BYTES && SwitchesTo(m, m', t)
    ensures KeptBut(m.mem, m'.mem, m.sp - FRAME_BYTES, m.sp, t + 33)
  {
    hide FrameBytes, FrameCore, ResumedCore;
    var saved := Stacked(m.mem, m.sp, FrameBytes(SavedCore(m)));
    forall x | 0 <= x < 0x10000 && !SwitchGlobal(x) && x != t + 33 && !(m.sp - FRAME_BYTES <= x <= m.sp)
      ensures m'.mem[x] == m.mem[x]
    {
      assert m'.mem[x] == saved[x];
    }
  }

  // The contexts on both sides of a switch.
  ghost predicate CoresSwapped(m: Machine, m': Machine, t: int)
    requires m.Valid() && m'.Valid() && FRAME_BYTES <= m.sp && 0 <= t < STACK_TOP - FRAME_BYTES
  {
    && CoreOf(m') == ResumedCore(FrameCore(m.mem, t), m'.mem[TIMSK1])
    && FrameCore(m'.mem, m.sp - FRAME_BYTES) == SavedCore(m)
  }

  lemma FrameMissesStack(mem: seq<Byte>, sp: int, bytes: seq<Byte>, t: int)
    requires |mem| == 0x10000 && 0 <= t && t + FRAME_BYTES < 0x10000
    requires t + FRAME_BYTES <= sp - |bytes| || sp <= t
    ensures FrameCore(Stacked(mem, sp, bytes), t) == FrameCore(mem, t)
  {
    hide FrameCore;
    FrameSame(mem, Stacked(mem, sp, bytes), t);
  }

  lemma SwitchCores(m: Machine, m': Machine, t: int)
    requires m.Valid() && m'.Valid() && STACK_LOW + FRAME_BYTES <= m.sp < STACK_TOP
    requires STACK_LOW <= t < STACK_TOP - FRAME_BYTES && SwitchesTo(m, m', t)
    requires t + FRAME_BYTES < m.sp - FRAME_BYTES || m.sp < t + 1
    ensures CoresSwapped(m, m', t)
  {
    hide FrameBytes, FrameCore, ResumedCore;
    FrameRoundTrip(m.mem, SavedCore(m));
    FrameMissesStack(m.mem, m.sp, FrameBytes(SavedCore(m)), t);
    FrameSame(Stacked(m.mem, m.sp, FrameBytes(SavedCore(m))), m'.mem, m.sp - FRAME_BYTES);
  }

  lemma KeptCanaries(mem: seq<Byte>, mem': seq<Byte>, lo: int, hi: int, x0: int)
    requires KeptBut(mem, mem', lo, hi, x0) && CANARY_START < lo && CANARY_START < x0 && hi < STACK_TOP
    requires x0 < STACK_TOP
    ensures CanariesIntact(mem) ==> CanariesIntact(mem')
    ensures ReadWord(mem', SCHEDULER_TASK_SP) == ReadWord(mem, SCHEDULER_TASK_SP)
  {
    assert mem'[SCHEDULER_TASK_SP] == mem[SCHEDULER_TASK_SP];
    assert mem'[SCHEDULER_TASK_SP + 1] == mem[SCHEDULER_TASK_SP + 1];
  }

  lemma KeptBlocks(mem: seq<Byte>, mem': seq<Byte>, lo: int, hi: int, x0: int, a: nat, b: nat)
    requires KeptBut(mem, mem', lo, hi, x0) && a < TASKS_MAX && b < TASKS_MAX && a != b
    requires Low(a) <= lo <= hi <= High(a) && InBlock(x0, b)
    ensures forall c :: 0 <= c < TASKS_MAX && c != a && c != b ==> Untouched(mem, mem', c)
    ensures forall x :: hi < x <= High(a) ==> mem'[x] == mem[x]
    ensures forall x :: x0 < x <= High(b) ==> mem'[x] == mem[x]
  {
  }

  /**
   A switch from block a to the frame above t in block b, block by block: a keeps
   its live stack and gains the frame, b loses one byte of the consumed frame, the
   other blocks, the canaries and scheduler_task_sp stay as they are.
   */
  ghost predicate BlocksSwitched(m: Machine, m': Machine, t: int, a: nat, b: nat)
    requires m.Valid() && m'.Valid() && a < TASKS_MAX && b < TASKS_MAX
    requires Low(a) + FRAME_BYTES <= m.sp <= High(a) && FrameIn(t, b)
  {
    && CoresSwapped(m, m', t)
    && (forall x :: m.sp < x <= High(a) ==> m'.mem[x] == m.mem[x])
    && (forall x :: t + 33 < x <= High(b) ==> m'.mem[x] == m.mem[x])
    && (forall c :: 0 <= c < TASKS_MAX && c != a && c != b ==> Untouched(m.mem, m'.mem, c))
    && (CanariesIntact(m.mem) ==> CanariesIntact(m'.mem))
    && ReadWord(m'.mem, SCHEDULER_TASK_SP) == ReadWord(m.mem, SCHEDULER_TASK_SP)
  }

  lemma SwitchBlocks(m: Machine, m': Machine, t: int, a: nat, b: nat)
    requires m.Valid() && m'.Valid() && a < TASKS_MAX && b < TASKS_MAX && a != b
    requires Low(a) + FRAME_BYTES <= m.sp <= High(a) && FrameIn(t, b) && SwitchesTo(m, m', t)
    ensures BlocksSwitched(m, m', t, a, b)
  {
    hide SwitchesTo, CoresSwapped, CanariesIntact, ReadWord, Untouched, KeptBut;
    SwitchCores(m, m', t);
    SwitchKeeps(m, m', t);
    KeptCanaries(m.mem, m'.mem, m.sp - FRAME_BYTES, m.sp, t + 33);
    KeptBlocks(m.mem, m'.mem, m.sp - FRAME_BYTES, m.sp, t + 33, a, b);
  }

  // ----- which events the abstract machine allows -----

  lemma ReadyToSwitch(s: Sys)
    requires Inv(s) && s.mode.User? && RoomForFrame(s)
    ensures SwitchReady(s.m, SchedulerSp(s)) && STACK_LOW + 4 <= SchedulerSp(s)
  {
    ActiveRuns(s);
    hide KInv, CanariesIntact, ReadyFrames, MtEnabled;
  }

  // The frame that a switch of user code resumes is the scheduler's, untouched by its own.
  lemma SchedulerFrameResumes(s: Sys)
    requires Inv(s) && s.mode.User? && RoomForFrame(s)
    ensures FrameCore(SavedMemory(s.m), SchedulerSp(s)) == SchedulerCore(s).value
  {
    hide FrameBytes, FrameCore, CanariesIntact, ReadyFrames, MtEnabled, ReadWord;
    ActiveRuns(s);
    FrameMissesStack(s.m.mem, s.m.sp, FrameBytes(SavedCore(s.m)), SchedulerSp(s));
  }

  /** A switch of user code has an armed boundary iff the scheduler's context has interrupts on. */
  lemma StrikeNeedsFlag(s: Sys, popped: bool, pc: int)
    requires Inv(s) && s.mode.User? && RoomForFrame(s) && 0 <= pc < PC_SPACE
    ensures Armed(Unreturned(s.m, popped, pc)) <==> SchedulerCore(s).value.flags.i
  {
    hide FrameBytes, FrameCore, Unreturned, Armed, InWindow, KInv, CanariesIntact, ReadyFrames, MtEnabled, ReadWord;
    ReadyToSwitch(s);
    SchedulerFrameResumes(s);
    WindowEffect(s.m, SchedulerSp(s), popped, pc);
  }

  lemma AlphaApplies(s: Sys, e: Event)
    requires Inv(s) && Enabled(s, e)
    ensures P.Applies(Alpha(s), e)
  {
    AlphaWf(s);
    if e.StrikeInSwitch? {
      StrikeNeedsFlag(s, e.popped, e.pc);
    }
    hide Armed, Unreturned, FrameCore, CanariesIntact, KInv, ReadWord, MtEnabled, Saved;
  }

  // ----- user steps -----

  // One commuting square: the invariant is kept and the abstract machine makes the same step.
  ghost predicate Square(s: Sys, e: Event)
    requires Inv(s) && Enabled(s, e)
  {
    var s' := System.Step(s, e);
    Inv(s') && P.Applies(Alpha(s), e) && Alpha(s') == P.Next(Alpha(s), e)
  }

  lemma WriteBlockKeeps(mem: seq<Byte>, b: nat, block: seq<Byte>)
    requires |mem| == 0x10000 && b < TASKS_MAX && |block| == TASK_MEMORY_SIZE
    ensures var mem' := WriteBlock(mem, b, block);
            && (CanariesIntact(mem) ==> CanariesIntact(mem')) && mem'[TIMSK1] == mem[TIMSK1]
            && ReadWord(mem', NEXT_TASK_SP) == ReadWord(mem, NEXT_TASK_SP)
            && ReadWord(mem', PREV_TASK_SP) == ReadWord(mem, PREV_TASK_SP)
            && ReadWord(mem', SCHEDULER_TASK_SP) == ReadWord(mem, SCHEDULER_TASK_SP)
            && forall c :: 0 <= c < TASKS_MAX && c != b ==> Untouched(mem, mem', c)
  {
  }

  lemma UserStepInv(s: Sys, e: Event)
    requires Inv(s) && Enabled(s, e) && e.UserStep?
    ensures Inv(System.Step(s, e))
  {
    WriteBlockKeeps(s.m.mem, s.k.active, e.block);
    hide KInv, WriteBlock, CanariesIntact, ReadWord, ReadyFrames, Untouched;
  }

  lemma UserStepSaved(s: Sys, e: Event)
    requires Inv(s) && Enabled(s, e) && e.UserStep? && Inv(System.Step(s, e))
    ensures Saved(System.Step(s, e)) == Saved(s) && SchedulerCore(System.Step(s, e)) == SchedulerCore(s)
  {
    var s' := System.Step(s, e);
    WriteBlockKeeps(s.m.mem, s.k.active, e.block);
    hide WriteBlock, CanariesIntact, ReadWord, KInv;
    forall i: nat | i < TASKS_MAX
      ensures SavedOf(s', i) == SavedOf(s, i)
    {
      assert s.k.tasks[s.k.active].status == Running by { ActiveRuns(s); }
      SavedSame(s, s', i);
    }
    if s.mode.User? {
      assert Untouched(s.m.mem, s'.m.mem, s.sb) by { ActiveRuns(s); }
      FrameSame(s.m.mem, s'.m.mem, SchedulerSp(s));
    }
  }

  lemma ActiveRuns(s: Sys)
    requires Inv(s) && (s.mode.User? || s.mode.Starting?)
    ensures s.k.Current().status == Running
    ensures s.mode.User? ==> s.k.active != s.sb && s.k.tasks[s.sb].status == Scheduler
  {
  }

  lemma UserStepRefines(s: Sys, e: Event)
    requires Inv(s) && Enabled(s, e) && e.UserStep?
    ensures Square(s, e)
  {
    hide KInv, CanariesIntact, ReadWord, Stacks, ReadyFrames, Saved, SchedulerCore, P.Wf;
    UserStepInv(s, e);
    UserStepSaved(s, e);
    AlphaApplies(s, e);
    var s' := System.Step(s, e);
    assert TASK_MEMORY_SIZE == 649;
    assert StackAbove(s'.m.mem, e.sp, s.k.active) == e.block[e.sp + 1 - Low(s.k.active)..];
  }

  lemma ChangePriorityRefines(s: Sys, e: Event)
    requires Inv(s) && Enabled(s, e) && e.ChangePriority?
    ensures Square(s, e)
  {
    hide CanariesIntact, ReadWord, MtEnabled, FrameCore, Round, Statuses, StackAbove;
    SetPriorityKeeps(s.k, s.sb, s.h.ran, s.mode, e.priority);
    ActiveRuns(s);
    AlphaApplies(s, e);
    var s' := System.Step(s, e);
    hide KInv;
    assert Inv(s');
    assert Saved(s') == Saved(s);
    var active := s.k.active;
    assert Erased(s'.k.tasks) == Erased(s.k.tasks)[active := Erased(s.k.tasks)[active].(priority := e.priority)];
  }

  // ----- from user code into the scheduler -----

  // What the processor and memory look like after user code switches away.
  ghost predicate LeftUserCode(s: Sys, m': Machine)
    requires Ok(s) && m'.Valid() && RoomForFrame(s) && FrameIn(SchedulerSp(s), s.sb)
  {
    && BlocksSwitched(s.m, m', SchedulerSp(s), s.k.active, s.sb)
    && ReadWord(m'.mem, PREV_TASK_SP) == s.m.sp - FRAME_BYTES
    && ReadWord(m'.mem, NEXT_TASK_SP) == 0
    && m'.mem[TIMSK1] == WithMt(s.m.mem[TIMSK1]) && MtEnabled(m'.mem)
  }

  lemma MaskEnables(mem: seq<Byte>, mask: Byte)
    requires |mem| == 0x10000 && mem[TIMSK1] == WithMt(mask)
    ensures MtEnabled(mem)
  {
    EnablingSetsTheBit(mask);
  }

  /** Handshake: next_task_sp is 0 while user code runs, so a switch away from it enters the scheduler. */
  lemma UserCodeEntersScheduler(s: Sys, entry: Entry)
    requires Inv(s) && s.mode.User? && RoomForFrame(s)
    ensures SwitchMode(s.m.mem) == InScheduler
    ensures LeftUserCode(s, Switched(s.m, entry))
  {
    ActiveRuns(s);
    var t := SchedulerSp(s);
    assert Chosen(s.m.mem) == t;
    SwitchedEffect(s.m, entry, t);
    var m' := Switched(s.m, entry);
    SwitchBlocks(s.m, m', t, s.k.active, s.sb);
    MaskEnables(m'.mem, s.m.mem[TIMSK1]);
    hide BlocksSwitched, KInv, CanariesIntact, Switched, CoresSwapped, MtEnabled;
  }

  // The invariant after leaving user code with kernel data k' in which only the active slot differs.
  lemma LeftUserCodeInv(s: Sys, s': Sys)
    requires Inv(s) && s.mode.User? && RoomForFrame(s) && Ok(s') && LeftUserCode(s, s'.m)
    requires s'.sb == s.sb && s'.mode.InScheduler? && s'.k.active == s.k.active
    requires forall i :: 0 <= i < TASKS_MAX && i != s.k.active ==> s'.k.tasks[i] == s.k.tasks[i]
    requires s'.k.Current().status == Running || s'.k.Current().status == Empty
    requires KInv(s'.k, s'.sb, s'.mode, s'.h.ran)
    ensures Inv(s') && PrevSp(s') != SchedulerSp(s')
  {
    ActiveRuns(s);
    hide KInv, CanariesIntact, ReadWord, MtEnabled, WithMt, ResumedCore, FrameCore, Untouched;
  }

  // The other slots keep their contexts, and so does the one just left if it is still alive.
  lemma LeftUserCodeSaved(s: Sys, s': Sys, i: nat)
    requires Inv(s) && s.mode.User? && RoomForFrame(s) && Inv(s') && LeftUserCode(s, s'.m)
    requires s'.sb == s.sb && s'.mode.InScheduler? && s'.k.active == s.k.active && i < TASKS_MAX
    requires forall i :: 0 <= i < TASKS_MAX && i != s.k.active ==> s'.k.tasks[i] == s.k.tasks[i]
    requires PrevSp(s') != SchedulerSp(s')
    ensures Saved(s')[i] ==
      if i != s.k.active then Saved(s)[i]
      else if s'.k.Current().status == Running then Some(P.Suspended(RunningContext(s)))
      else None
  {
    hide KInv, CanariesIntact, ReadWord, MtEnabled, WithMt, ResumedCore, FrameCore, Untouched;
    ActiveRuns(s);
    if i != s.k.active {
      assert i == s.sb ==> FrameOf(s, i) == None && FrameOf(s', i) == None by {
        SchedulerHasNoFrame(s);
        SchedulerHasNoFrame(s');
      }
      SavedSame(s, s', i);
    } else if s'.k.Current().status != Running {
      assert s'.k.Current().status == Empty by { PreviousRanOrEnded(s'); }
    } else {
      assert StackAbove(s'.m.mem, s.m.sp, i) == StackAbove(s.m.mem, s.m.sp, i);
    }
  }

  lemma PreviousRanOrEnded(s: Sys)
    requires Inv(s) && s.mode.InScheduler?
    ensures s.k.Current().status == Running || s.k.Current().status == Empty
  {
  }

  lemma SchedulerHasNoFrame(s: Sys)
    requires Inv(s) && (s.mode.User? || s.mode.InScheduler?)
    ensures FrameOf(s, s.sb) == None
  {
  }
}
