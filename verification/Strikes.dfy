/**
 The timer inside a context switch: at which instruction boundaries it can strike,
 and what a strike on top of a frame that is being consumed leaves behind.
 */
module Strikes {
  import opened Layout
  import opened Avr
  import opened ContextSwitch
  import opened Switch

  // ----- boundaries -----

  /** Interrupts are on and the timer is not masked, so it can strike before the next instruction. */
  predicate Armed(m: Machine)
    requires m.Valid()
  {
    m.flags.i && MtEnabled(m.mem)
  }

  /** No instruction boundary of p from its instruction i on, its end included, is armed. */
  predicate NeverArmed(p: seq<Instr>, i: nat, m: Machine)
    requires m.Valid() && ProgramOk(p) && i <= |p|
    decreases |p| - i
  {
    !Armed(m) && (i < |p| ==> NeverArmed(p, Step(p, i, m).0, Step(p, i, m).1))
  }

  // The machine when control first comes to instruction n or goes past it.
  function RunUpTo(p: seq<Instr>, i: nat, n: nat, m: Machine): (m': Machine)
    requires m.Valid() && ProgramOk(p) && i <= |p|
    ensures m'.Valid()
    decreases |p| - i
  {
    if i >= n || i == |p| then m else RunUpTo(p, Step(p, i, m).0, n, Step(p, i, m).1)
  }

  lemma {:induction false} NeverArmedShift(p: seq<Instr>, q: seq<Instr>, j: nat, m: Machine)
    requires m.Valid() && ProgramOk(p) && ProgramOk(q) && j <= |q|
    ensures ProgramOk(p + q) && (NeverArmed(p + q, |p| + j, m) <==> NeverArmed(q, j, m))
    decreases |q| - j
  {
    hide Step;
    if j < |q| {
      StepShift(p, q, j, m);
      NeverArmedShift(p, q, Step(q, j, m).0, Step(q, j, m).1);
    }
  }

  lemma {:induction false} NeverArmedAppend(p: seq<Instr>, q: seq<Instr>, i: nat, m: Machine)
    requires m.Valid() && ProgramOk(p) && ProgramOk(q) && Closed(p) && i <= |p|
    ensures ProgramOk(p + q)
    ensures NeverArmed(p + q, i, m) <==> NeverArmed(p, i, m) && NeverArmed(q, 0, Run(p, i, m))
    decreases |p| - i
  {
    hide Step, Armed;
    if i == |p| {
      NeverArmedShift(p, q, 0, m);
    } else {
      StepPrefix(p, q, i, m);
      var (j, n) := Step(p, i, m);
      NeverArmedAppend(p, q, j, n);
    }
  }

  lemma {:induction false} RunUpToShift(p: seq<Instr>, q: seq<Instr>, j: nat, n: nat, m: Machine)
    requires m.Valid() && ProgramOk(p) && ProgramOk(q) && j <= |q|
    ensures ProgramOk(p + q) && RunUpTo(p + q, |p| + j, |p| + n, m) == RunUpTo(q, j, n, m)
    decreases |q| - j
  {
    hide Step;
    if j < n && j < |q| {
      StepShift(p, q, j, m);
      RunUpToShift(p, q, Step(q, j, m).0, n, Step(q, j, m).1);
    }
  }

  lemma {:induction false} RunUpToAppend(p: seq<Instr>, q: seq<Instr>, i: nat, n: nat, m: Machine)
    requires m.Valid() && ProgramOk(p) && ProgramOk(q) && Closed(p) && i <= |p|
    ensures ProgramOk(p + q) && RunUpTo(p + q, i, |p| + n, m) == RunUpTo(q, 0, n, Run(p, i, m))
    decreases |p| - i
  {
    hide Step;
    if i == |p| {
      RunUpToShift(p, q, 0, n, m);
    } else {
      StepPrefix(p, q, i, m);
      var (j, w) := Step(p, i, m);
      assert RunUpTo(p + q, i, |p| + n, m) == RunUpTo(p + q, j, |p| + n, w);
      RunUpToAppend(p, q, j, n, w);
    }
  }

  // ----- code that leaves the flag or the memory alone -----

  predicate KeepsI(i: Instr) {
    !(i.Out? && i.io.SREG?) && !i.Cli? && !i.Sei? && !i.Reti?
  }

  predicate NoStore(i: Instr) {
    !i.Push? && !i.Sts? && !i.StXInc? && !i.StX? && !i.StXDec? && !i.StZInc? && !i.StZ? && !i.Rcall0?
  }

  predicate AllKeepI(p: seq<Instr>) {
    forall k :: 0 <= k < |p| ==> KeepsI(p[k])
  }

  predicate AllNoStore(p: seq<Instr>) {
    forall k :: 0 <= k < |p| ==> NoStore(p[k])
  }

  lemma StepKeepsI(p: seq<Instr>, i: nat, m: Machine)
    requires m.Valid() && ProgramOk(p) && i < |p| && KeepsI(p[i])
    ensures Step(p, i, m).1.flags.i == m.flags.i
  {
    hide SregByte, SregFlags, OrByte, AndByte, Sum8, Lo, Hi, SkipWords;
  }

  lemma StepKeepsMemory(p: seq<Instr>, i: nat, m: Machine)
    requires m.Valid() && ProgramOk(p) && i < |p| && NoStore(p[i])
    ensures Step(p, i, m).1.mem == m.mem
  {
    hide SregByte, SregFlags, OrByte, AndByte, Sum8, Lo, Hi, SkipWords;
  }

  lemma {:induction false} OffStaysOff(p: seq<Instr>, i: nat, m: Machine)
    requires m.Valid() && ProgramOk(p) && i <= |p| && AllKeepI(p) && !m.flags.i
    ensures NeverArmed(p, i, m)
    decreases |p| - i
  {
    hide Step;
    if i < |p| {
      StepKeepsI(p, i, m);
      OffStaysOff(p, Step(p, i, m).0, Step(p, i, m).1);
    }
  }

  lemma {:induction false} MaskedStaysMasked(p: seq<Instr>, i: nat, m: Machine)
    requires m.Valid() && ProgramOk(p) && i <= |p| && AllNoStore(p) && !MtEnabled(m.mem)
    ensures NeverArmed(p, i, m) && Run(p, i, m).mem == m.mem
    decreases |p| - i
  {
    hide Step, MtEnabled;
    if i < |p| {
      StepKeepsMemory(p, i, m);
      MaskedStaysMasked(p, Step(p, i, m).0, Step(p, i, m).1);
    }
  }

  // ----- the context switch -----

  // CONTEXT_SWITCH up to RESTORE_CONTEXT, and up to ENABLE_MT.
  const UNTIL_RESTORE: seq<Instr> :=
    SAVE_CONTEXT + (SaveSpToAdr(PREV_TASK_SP) + (DISABLE_MT + (SELECT_SCHEDULED_TASK_OR_SCHEDULER + RESET_TIMER)))
  const UNTIL_ENABLE: seq<Instr> := UNTIL_RESTORE + RESTORE_CONTEXT

  lemma Regroup(a: seq<Instr>, b: seq<Instr>, c: seq<Instr>, d: seq<Instr>, e: seq<Instr>, f: seq<Instr>, g: seq<Instr>)
    ensures a + (b + (c + (d + (e + (f + g))))) == ((a + (b + (c + (d + e)))) + f) + g
  {
  }

  lemma SwitchSplits()
    ensures CONTEXT_SWITCH == UNTIL_ENABLE + ENABLE_MT
  {
    Regroup(SAVE_CONTEXT, SaveSpToAdr(PREV_TASK_SP), DISABLE_MT, SELECT_SCHEDULED_TASK_OR_SCHEDULER, RESET_TIMER,
            RESTORE_CONTEXT, ENABLE_MT);
  }

  lemma AllKeepIAppend(p: seq<Instr>, q: seq<Instr>)
    requires AllKeepI(p) && AllKeepI(q)
    ensures AllKeepI(p + q)
  {
  }

  lemma AllNoStoreAppend(p: seq<Instr>, q: seq<Instr>)
    requires AllNoStore(p) && AllNoStore(q)
    ensures AllNoStore(p + q)
  {
  }

  lemma SmallPiecesKeepI()
    ensures AllKeepI(SaveSpToAdr(TASK_SP)) && AllKeepI(SaveSpToAdr(PREV_TASK_SP)) && AllKeepI(DISABLE_MT)
    ensures AllKeepI(SELECT_LOAD) && AllKeepI(SELECT_BRANCH) && AllKeepI(SELECT_STORE) && AllKeepI(RESET_TIMER)
  {
  }

  lemma SaveKeepsI(p: seq<Instr>)
    requires p == SAVE_REGISTERS
    ensures AllKeepI(p)
  {
    SaveRegistersShape(p);
    hide SaveShape;
  }

  lemma UntilRestoreKeepsI()
    ensures AllKeepI(UNTIL_RESTORE)
  {
    hide AllKeepI;
    SmallPiecesKeepI();
    SaveKeepsI(SAVE_REGISTERS);
    AllKeepIAppend(SAVE_REGISTERS, SaveSpToAdr(TASK_SP));
    AllKeepIAppend(SELECT_BRANCH, SELECT_STORE);
    AllKeepIAppend(SELECT_LOAD, SELECT_BRANCH + SELECT_STORE);
    AllKeepIAppend(SELECT_SCHEDULED_TASK_OR_SCHEDULER, RESET_TIMER);
    AllKeepIAppend(DISABLE_MT, SELECT_SCHEDULED_TASK_OR_SCHEDULER + RESET_TIMER);
    AllKeepIAppend(SaveSpToAdr(PREV_TASK_SP), DISABLE_MT + (SELECT_SCHEDULED_TASK_OR_SCHEDULER + RESET_TIMER));
    AllKeepIAppend(SAVE_CONTEXT,
                   SaveSpToAdr(PREV_TASK_SP) + (DISABLE_MT + (SELECT_SCHEDULED_TASK_OR_SCHEDULER + RESET_TIMER)));
  }

  lemma RestoreStoresNothing()
    ensures AllNoStore(RESTORE_CONTEXT)
  {
    PopsStoreNothing(RESTORE_REGISTERS);
    assert AllNoStore(RESTORE_SP) && AllNoStore(RESTORE_SREG);
    hide AllNoStore;
    AllNoStoreAppend(RESTORE_REGISTERS, RESTORE_SREG);
    AllNoStoreAppend(RESTORE_SP, RESTORE_REGISTERS + RESTORE_SREG);
  }

  lemma PopsStoreNothing(p: seq<Instr>)
    requires p == RESTORE_REGISTERS
    ensures AllNoStore(p)
  {
    RestoreRegistersShape(p);
  }

  // The pieces are well-formed code that control does not leave sideways.
  lemma PartsOk()
    ensures ProgramOk(UNTIL_RESTORE) && Closed(UNTIL_RESTORE)
    ensures ProgramOk(RESTORE_CONTEXT) && Closed(RESTORE_CONTEXT) && ProgramOk(ENABLE_MT) && Closed(ENABLE_MT)
    ensures ProgramOk(UNTIL_ENABLE) && Closed(UNTIL_ENABLE) && ProgramOk(CONTEXT_SWITCH)
    ensures ProgramOk(SAVE_CONTEXT) && Closed(SAVE_CONTEXT) && ProgramOk(DISABLE_MT) && ProgramOk(RESET_TIMER)
    ensures ProgramOk(SELECT_SCHEDULED_TASK_OR_SCHEDULER) && ProgramOk(SELECT_SCHEDULED_TASK_OR_SCHEDULER + RESET_TIMER)
  {
    hide ProgramOk, Closed;
    CodeOk();
    PiecesOk();
    SaveOk();
    RestoreOk();
    PiecesClosed();
    SelectOk();
    Both(SELECT_SCHEDULED_TASK_OR_SCHEDULER, RESET_TIMER);
    Both(DISABLE_MT, SELECT_SCHEDULED_TASK_OR_SCHEDULER + RESET_TIMER);
    Both(SaveSpToAdr(PREV_TASK_SP), DISABLE_MT + (SELECT_SCHEDULED_TASK_OR_SCHEDULER + RESET_TIMER));
    Both(SAVE_CONTEXT,
         SaveSpToAdr(PREV_TASK_SP) + (DISABLE_MT + (SELECT_SCHEDULED_TASK_OR_SCHEDULER + RESET_TIMER)));
    Both(UNTIL_RESTORE, RESTORE_CONTEXT);
  }

  lemma Both(p: seq<Instr>, q: seq<Instr>)
    requires ProgramOk(p) && ProgramOk(q) && Closed(p) && Closed(q)
    ensures ProgramOk(p + q) && Closed(p + q)
  {
    OkAppend(p, q);
    ClosedAppend(p, q);
  }

  lemma PiecesOk()
    ensures ProgramOk(SaveSpToAdr(PREV_TASK_SP)) && ProgramOk(DISABLE_MT) && ProgramOk(RESET_TIMER)
    ensures ProgramOk(ENABLE_MT) && ProgramOk(SaveSpToAdr(TASK_SP))
    ensures ProgramOk(SELECT_LOAD) && ProgramOk(SELECT_BRANCH) && ProgramOk(SELECT_STORE)
    ensures ProgramOk(RESTORE_SP) && ProgramOk(RESTORE_SREG)
  {
  }

  lemma SelectOk()
    ensures ProgramOk(SELECT_SCHEDULED_TASK_OR_SCHEDULER) && Closed(SELECT_SCHEDULED_TASK_OR_SCHEDULER)
  {
    hide ProgramOk, Closed;
    PiecesOk();
    PiecesClosed();
    Both(SELECT_BRANCH, SELECT_STORE);
    Both(SELECT_LOAD, SELECT_BRANCH + SELECT_STORE);
  }

  lemma SaveOk()
    ensures ProgramOk(SAVE_CONTEXT) && Closed(SAVE_CONTEXT)
  {
    hide Closed;
    SaveRegistersShape(SAVE_REGISTERS);
    StraightCodeIsClosed(SAVE_REGISTERS);
    hide ProgramOk;
    PiecesOk();
    PiecesClosed();
    Both(SAVE_REGISTERS, SaveSpToAdr(TASK_SP));
  }

  lemma RestoreOk()
    ensures ProgramOk(RESTORE_CONTEXT) && Closed(RESTORE_CONTEXT)
  {
    hide Closed;
    RestoreRegistersShape(RESTORE_REGISTERS);
    StraightCodeIsClosed(RESTORE_REGISTERS);
    hide ProgramOk;
    PiecesOk();
    PiecesClosed();
    Both(RESTORE_REGISTERS, RESTORE_SREG);
    Both(RESTORE_SP, RESTORE_REGISTERS + RESTORE_SREG);
  }

  lemma MaskedUntilRestore(m: Machine)
    requires m.Valid() && STACK_LOW + 33 <= m.sp < STACK_TOP
    ensures ProgramOk(UNTIL_RESTORE) && !MtEnabled(Run(UNTIL_RESTORE, 0, m).mem)
  {
    hide Run, Step, ProgramOk, Closed, Lo, Hi, RegisterBytes, Chosen, MtEnabled, WithoutMt, AfterSelect;
    PartsOk();
    var q := SELECT_SCHEDULED_TASK_OR_SCHEDULER + RESET_TIMER;
    var m1, _ := UpToSelect(q, m);
    SelectEffect(SELECT_SCHEDULED_TASK_OR_SCHEDULER, m1);
    var m2 := Run(SELECT_SCHEDULED_TASK_OR_SCHEDULER, 0, m1);
    SelectedWords(m1.mem);
    ResetTimerEffect(RESET_TIMER, m2);
    RunAppend(SELECT_SCHEDULED_TASK_OR_SCHEDULER, RESET_TIMER, 0, m1);
    ClearedIsMasked(Run(UNTIL_RESTORE, 0, m).mem, m.mem[TIMSK1]);
  }

  lemma ClearedIsMasked(mem: seq<Byte>, mask: Byte)
    requires |mem| == 0x10000 && mem[TIMSK1] == WithoutMt(mask)
    ensures !MtEnabled(mem)
  {
  }

  // One instruction that neither skips nor jumps.
  lemma NextBoundary(p: seq<Instr>, i: nat, ins: Instr, m: Machine) returns (m': Machine)
    requires m.Valid() && ProgramOk(p) && i < |p| && p[i] == ins && !ins.Cpse? && !ins.Rjmp? && !ins.Jmp?
    ensures RegsOk(ins) && m' == Exec1(ins, m)
    ensures NeverArmed(p, i, m) <==> !Armed(m) && NeverArmed(p, i + 1, m')
  {
    m' := Exec1(ins, m);
  }

  // SCILENT_ENABLE_MT arms the timer exactly when interrupts are on: at its last two boundaries.
  lemma EnableMtArms(p: seq<Instr>, m: Machine)
    requires m.Valid() && TIMSK1 < m.sp && !MtEnabled(m.mem) && |p| == 5 && ProgramOk(p)
    requires p[0] == Push(16) && p[1] == Lds(16, TIMSK1) && p[2] == Ori(16, OCIE1A_MASK)
    requires p[3] == Sts(TIMSK1, 16) && p[4] == Pop(16)
    ensures NeverArmed(p, 0, m) <==> !m.flags.i
  {
    hide Run, Step, NeverArmed, OrByte, WithMt, AdvancePc, MtEnabled;
    OriSetsTheBit(m.mem[TIMSK1]);
    var m1 := NextBoundary(p, 0, Push(16), m);
    var m2 := NextBoundary(p, 1, Lds(16, TIMSK1), m1);
    var m3 := NextBoundary(p, 2, Ori(16, OCIE1A_MASK), m2);
    var m4 := NextBoundary(p, 3, Sts(TIMSK1, 16), m3);
    var m5 := NextBoundary(p, 4, Pop(16), m4);
    SameMask(m.mem, m1.mem);
    SameMask(m.mem, m3.mem);
    EnabledMask(m4.mem, m.mem[TIMSK1]);
    EnabledMask(m5.mem, m.mem[TIMSK1]);
    LastBoundary(p, m5);
  }

  lemma SameMask(mem: seq<Byte>, mem': seq<Byte>)
    requires |mem| == |mem'| == 0x10000 && mem[TIMSK1] == mem'[TIMSK1]
    ensures MtEnabled(mem) <==> MtEnabled(mem')
  {
  }

  lemma EnabledMask(mem: seq<Byte>, mask: Byte)
    requires |mem| == 0x10000 && mem[TIMSK1] == WithMt(mask)
    ensures MtEnabled(mem)
  {
  }

  lemma LastBoundary(p: seq<Instr>, m: Machine)
    requires m.Valid() && ProgramOk(p)
    ensures NeverArmed(p, |p|, m) <==> !Armed(m)
  {
  }

  // Before ENABLE_MT: the code so far is never armed and leaves the timer masked.
  lemma QuietBefore(m: Machine)
    requires m.Valid() && STACK_LOW + 33 <= m.sp < STACK_TOP && !m.flags.i
    ensures ProgramOk(UNTIL_ENABLE) && NeverArmed(UNTIL_ENABLE, 0, m) && !MtEnabled(Run(UNTIL_ENABLE, 0, m).mem)
  {
    hide Run, Step, NeverArmed, ProgramOk, Closed, MtEnabled, AllKeepI, AllNoStore;
    PartsOk();
    UntilRestoreKeepsI();
    OffStaysOff(UNTIL_RESTORE, 0, m);
    MaskedUntilRestore(m);
    RestoreStoresNothing();
    MaskedStaysMasked(RESTORE_CONTEXT, 0, Run(UNTIL_RESTORE, 0, m));
    NeverArmedAppend(UNTIL_RESTORE, RESTORE_CONTEXT, 0, m);
    RunAppend(UNTIL_RESTORE, RESTORE_CONTEXT, 0, m);
  }

  /**
   A context switch that starts with interrupts off can be struck by the timer iff
   the frame it resumes has interrupts on.
   */
  lemma SwitchIsAtomicExact(m: Machine, t: int)
    requires m.Valid() && STACK_LOW + 33 <= m.sp < STACK_TOP && !m.flags.i
    requires t == Chosen(m.mem) && STACK_LOW <= t < STACK_TOP - 33 && !(t < m.sp - 33 <= t + 33)
    ensures ProgramOk(CONTEXT_SWITCH)
    ensures NeverArmed(CONTEXT_SWITCH, 0, m)
      <==> !FrameFlags(Stacked(m.mem, m.sp, RegisterBytes(m.r, m.flags)), t).i
  {
    hide Run, Step, NeverArmed, ProgramOk, Closed, RegisterBytes, SregFlags, MtEnabled, Chosen, WithMt, AllKeepI;
    hide AllNoStore;
    PartsOk();
    var v := Run(UNTIL_ENABLE, 0, m);
    QuietBefore(m);
    NeverArmedAppend(UNTIL_ENABLE, ENABLE_MT, 0, m);
    RunAppend(UNTIL_ENABLE, ENABLE_MT, 0, m);
    SwitchSplits();
    SwitchEffect(m, t);
    EnableMtFrom(v, Run(CONTEXT_SWITCH, 0, m), t);
  }

  // The machine v before ENABLE_MT, judged by the machine after it.
  lemma EnableMtFrom(v: Machine, m': Machine, t: int)
    requires v.Valid() && ProgramOk(ENABLE_MT) && m' == Run(ENABLE_MT, 0, v) && !MtEnabled(v.mem)
    requires m'.sp == t + 33 && STACK_LOW <= t < STACK_TOP - 33
    ensures NeverArmed(ENABLE_MT, 0, v) <==> !m'.flags.i
  {
    hide Run, Step, NeverArmed, MtEnabled, OrByte;
    EnableMtSp(ENABLE_MT, v);
    EnableMtArms(ENABLE_MT, v);
    EnableMtEffect(ENABLE_MT, v);
  }

  lemma EnableMtSp(p: seq<Instr>, m: Machine)
    requires m.Valid() && |p| == 5 && ProgramOk(p)
    requires p[0] == Push(16) && p[1] == Lds(16, TIMSK1) && p[2] == Ori(16, OCIE1A_MASK)
    requires p[3] == Sts(TIMSK1, 16) && p[4] == Pop(16)
    ensures Run(p, 0, m).sp == m.sp
  {
    hide Run, Step, OrByte, LogicFlags, AdvancePc;
    var m1 := Next(p, 0, Push(16), m);
    var m2 := Next(p, 1, Lds(16, TIMSK1), m1);
    var m3 := Next(p, 2, Ori(16, OCIE1A_MASK), m2);
    var m4 := Next(p, 3, Sts(TIMSK1, 16), m3);
    var m5 := Next(p, 4, Pop(16), m4);
    RunEnd(p, m5);
  }

  // ----- a strike in the window -----

  // k_yield or the interrupt up to CONTEXT_SWITCH: the program counter is pushed and interrupts are off.
  function Off(m: Machine): (m': Machine)
    requires m.Valid()
    ensures m'.Valid()
  {
    var n := PushPc(m, m.pc);
    n.(flags := n.flags.(i := false))
  }

  /**
   The machine at one of the last two boundaries of CONTEXT_SWITCH, before or after
   its last POP; pc is the address of the instruction that would come next.
   */
  function Unreturned(m: Machine, popped: bool, pc: int): (n: Machine)
    requires m.Valid() && 0 <= pc < PC_SPACE
    ensures n.Valid()
  {
    CodeOk();
    RunUpTo(CONTEXT_SWITCH, 0, |CONTEXT_SWITCH| - (if popped then 0 else 1), Off(m)).(pc := pc)
  }

  lemma {:induction false} RunUpToEnd(p: seq<Instr>, i: nat, m: Machine)
    requires m.Valid() && ProgramOk(p) && i <= |p|
    ensures RunUpTo(p, i, |p|, m) == Run(p, i, m)
    decreases |p| - i
  {
    hide Step;
    if i < |p| {
      RunUpToEnd(p, Step(p, i, m).0, Step(p, i, m).1);
    }
  }

  lemma NextUpTo(p: seq<Instr>, i: nat, n: nat, ins: Instr, m: Machine) returns (m': Machine)
    requires m.Valid() && ProgramOk(p) && i < |p| && i < n && p[i] == ins && !ins.Cpse? && !ins.Rjmp? && !ins.Jmp?
    ensures RegsOk(ins) && m' == Exec1(ins, m)
    ensures RunUpTo(p, i, n, m) == RunUpTo(p, i + 1, n, m') && Run(p, i, m) == Run(p, i + 1, m')
  {
    m' := Exec1(ins, m);
  }

  // Before the last POP everything but r16 and SP is as it will be after it.
  lemma BeforePop(p: seq<Instr>, m: Machine)
    requires m.Valid() && |p| == 5 && ProgramOk(p)
    requires p[0] == Push(16) && p[1] == Lds(16, TIMSK1) && p[2] == Ori(16, OCIE1A_MASK)
    requires p[3] == Sts(TIMSK1, 16) && p[4] == Pop(16)
    ensures var x := RunUpTo(p, 0, 4, m);
            SameButPc(Run(p, 0, m), x.(sp := Inc(x.sp), r := x.r[16 := x.mem[Inc(x.sp)]]))
  {
    hide Run, RunUpTo, Step, OrByte, LogicFlags, AdvancePc;
    var m1 := NextUpTo(p, 0, 4, Push(16), m);
    var m2 := NextUpTo(p, 1, 4, Lds(16, TIMSK1), m1);
    var m3 := NextUpTo(p, 2, 4, Ori(16, OCIE1A_MASK), m2);
    var m4 := NextUpTo(p, 3, 4, Sts(TIMSK1, 16), m3);
    UpToHere(p, 4, m4);
    var m5 := Next(p, 4, Pop(16), m4);
    RunEnd(p, m5);
  }

  lemma UpToHere(p: seq<Instr>, i: nat, m: Machine)
    requires m.Valid() && ProgramOk(p) && i <= |p|
    ensures RunUpTo(p, i, i, m) == m
  {
  }

  // The same for the whole switch.
  lemma BeforeLastPop(m: Machine)
    requires m.Valid()
    ensures ProgramOk(CONTEXT_SWITCH)
    ensures var x := RunUpTo(CONTEXT_SWITCH, 0, |CONTEXT_SWITCH| - 1, m);
            SameButPc(Run(CONTEXT_SWITCH, 0, m), x.(sp := Inc(x.sp), r := x.r[16 := x.mem[Inc(x.sp)]]))
  {
    hide Run, RunUpTo, Step, ProgramOk, Closed;
    PartsOk();
    SwitchSplits();
    LastPopIn(UNTIL_ENABLE, ENABLE_MT, m);
  }

  lemma LastPopIn(p: seq<Instr>, q: seq<Instr>, m: Machine)
    requires m.Valid() && ProgramOk(p) && Closed(p) && |q| == 5 && ProgramOk(q)
    requires q[0] == Push(16) && q[1] == Lds(16, TIMSK1) && q[2] == Ori(16, OCIE1A_MASK)
    requires q[3] == Sts(TIMSK1, 16) && q[4] == Pop(16)
    ensures ProgramOk(p + q)
    ensures var x := RunUpTo(p + q, 0, |p + q| - 1, m);
            SameButPc(Run(p + q, 0, m), x.(sp := Inc(x.sp), r := x.r[16 := x.mem[Inc(x.sp)]]))
  {
    hide Run, RunUpTo, Step, ProgramOk, Closed;
    RunUpToAppend(p, q, 0, 4, m);
    RunAppend(p, q, 0, m);
    BeforePop(q, Run(p, 0, m));
  }

  function SavedMemory(m: Machine): (mem: seq<Byte>)
    requires m.Valid()
    ensures |mem| == 0x10000
  {
    Stacked(m.mem, m.sp, FrameBytes(SavedCore(m)))
  }

  lemma OffFacts(m: Machine, t: int)
    requires m.Valid() && SwitchReady(m, t)
    ensures var off := Off(m);
            && !off.flags.i && off.sp == m.sp - 3 && Chosen(off.mem) == t && off.mem[TIMSK1] == m.mem[TIMSK1]
            && Stacked(off.mem, off.sp, RegisterBytes(off.r, off.flags)) == SavedMemory(m)
  {
    hide RegisterBytes, PcBytes, Lo, Hi, Chosen;
    PushPcEffect(m);
    ChosenOfStacked(m.mem, m.sp, PcBytes(m.pc));
    StackedAppend(m.mem, m.sp, PcBytes(m.pc), RegisterBytes(m.r, SavedCore(m).flags));
  }

  /** Every switch, by yield or by timer, is free of further strikes iff the context it resumes has interrupts off. */
  lemma AtomicExact(m: Machine, t: int, pc: int)
    requires m.Valid() && SwitchReady(m, t) && 0 <= pc < PC_SPACE
    ensures ProgramOk(CONTEXT_SWITCH)
    ensures NeverArmed(CONTEXT_SWITCH, 0, Off(m).(pc := pc)) <==> !FrameCore(SavedMemory(m), t).flags.i
  {
    hide Run, Step, NeverArmed, ProgramOk, Chosen, Off, RegisterBytes, FrameBytes, FrameFlags;
    OffFacts(m, t);
    SwitchIsAtomicExact(Off(m).(pc := pc), t);
  }

  // The machine in the window: the resumed registers, SREG as ENABLE_MT leaves it, the frame consumed but for its PC.
  ghost predicate InWindow(m: Machine, n: Machine, t: int, popped: bool)
    requires m.Valid() && n.Valid() && SwitchReady(m, t)
  {
    var c := FrameCore(SavedMemory(m), t);
    && n.sp == t + (if popped then 33 else 32)
    && (forall k :: 0 <= k < 32 && (k != 16 || popped) ==> n.r[k] == c.r[k])
    && n.flags == LogicFlags(c.flags, n.mem[TIMSK1])
    && n.mem[t + 33] == c.r[16]
    && (forall a :: 0 <= a < 0x10000 && !SwitchGlobal(a) && a != m.sp - FRAME_BYTES && a != t + 33
          ==> n.mem[a] == SavedMemory(m)[a])
    && ReadWord(n.mem, NEXT_TASK_SP) == 0
    && n.mem[TIMSK1] == WithMt(m.mem[TIMSK1]) && MtEnabled(n.mem)
  }

  lemma WindowEffect(m: Machine, t: int, popped: bool, pc: int)
    requires m.Valid() && SwitchReady(m, t) && 0 <= pc < PC_SPACE
    ensures InWindow(m, Unreturned(m, popped, pc), t, popped)
    ensures Armed(Unreturned(m, popped, pc)) <==> FrameCore(SavedMemory(m), t).flags.i
  {
    hide Run, RunUpTo, Step, ProgramOk, Chosen, Off, RegisterBytes, FrameBytes, SregFlags, WithMt, ReadWord;
    hide MtEnabled, Stacked;
    OffFacts(m, t);
    var off := Off(m);
    SwitchEffect(off, t);
    RunUpToEnd(CONTEXT_SWITCH, 0, off);
    BeforeLastPop(off);
    EnabledMask(Run(CONTEXT_SWITCH, 0, off).mem, m.mem[TIMSK1]);
  }

  // ----- no boundary before the last two -----

  lemma {:induction false} UnarmedUpTo(p: seq<Instr>, i: nat, n: nat, m: Machine)
    requires m.Valid() && ProgramOk(p) && i <= |p| && NeverArmed(p, i, m)
    ensures !Armed(RunUpTo(p, i, n, m))
    decreases |p| - i
  {
    hide Step, Armed;
    if i < n && i < |p| {
      UnarmedUpTo(p, Step(p, i, m).0, n, Step(p, i, m).1);
    }
  }

  lemma {:induction false} RunUpToPrefix(p: seq<Instr>, q: seq<Instr>, i: nat, n: nat, m: Machine)
    requires m.Valid() && ProgramOk(p) && ProgramOk(q) && Closed(p) && i <= |p| && n <= |p|
    ensures ProgramOk(p + q) && RunUpTo(p + q, i, n, m) == RunUpTo(p, i, n, m)
    decreases |p| - i
  {
    hide Step;
    if i < n {
      StepPrefix(p, q, i, m);
      RunUpToPrefix(p, q, Step(p, i, m).0, n, Step(p, i, m).1);
    }
  }

  // The boundaries of SCILENT_ENABLE_MT up to its STS.
  lemma StillMasked(p: seq<Instr>, n: nat, m: Machine)
    requires m.Valid() && TIMSK1 < m.sp && !MtEnabled(m.mem) && |p| == 5 && ProgramOk(p) && n <= 3
    requires p[0] == Push(16) && p[1] == Lds(16, TIMSK1) && p[2] == Ori(16, OCIE1A_MASK)
    ensures !Armed(RunUpTo(p, 0, n, m))
  {
    hide Run, RunUpTo, Step, OrByte, LogicFlags, AdvancePc, MtEnabled;
    if n == 0 {
      UpToHere(p, 0, m);
    } else {
      var m1 := NextUpTo(p, 0, n, Push(16), m);
      SameMask(m.mem, m1.mem);
      if n == 1 {
        UpToHere(p, 1, m1);
      } else {
        var m2 := NextUpTo(p, 1, n, Lds(16, TIMSK1), m1);
        if n == 2 {
          UpToHere(p, 2, m2);
        } else {
          var m3 := NextUpTo(p, 2, n, Ori(16, OCIE1A_MASK), m2);
          UpToHere(p, 3, m3);
        }
      }
    }
  }

  /** Whatever frame is resumed, no boundary of a switch but the last two is armed. */
  lemma EarlyUnarmed(m: Machine, t: int, n: nat)
    requires m.Valid() && STACK_LOW + 33 <= m.sp < STACK_TOP && !m.flags.i
    requires t == Chosen(m.mem) && STACK_LOW <= t < STACK_TOP - 33 && !(t < m.sp - 33 <= t + 33)
    requires n + 2 <= |CONTEXT_SWITCH|
    ensures ProgramOk(CONTEXT_SWITCH) && !Armed(RunUpTo(CONTEXT_SWITCH, 0, n, m))
  {
    hide Run, RunUpTo, Step, NeverArmed, ProgramOk, Closed, Armed, MtEnabled, Chosen, WithMt, RegisterBytes, SregFlags;
    PartsOk();
    SwitchSplits();
    QuietBefore(m);
    RunAppend(UNTIL_ENABLE, ENABLE_MT, 0, m);
    SwitchEffect(m, t);
    EnableMtSp(ENABLE_MT, Run(UNTIL_ENABLE, 0, m));
    EarlyIn(UNTIL_ENABLE, ENABLE_MT, n, m);
  }

  // Code p that is never armed, followed by the unmasking q.
  lemma EarlyIn(p: seq<Instr>, q: seq<Instr>, n: nat, m: Machine)
    requires m.Valid() && ProgramOk(p) && ProgramOk(q) && Closed(p) && NeverArmed(p, 0, m)
    requires |q| == 5 && q[0] == Push(16) && q[1] == Lds(16, TIMSK1) && q[2] == Ori(16, OCIE1A_MASK)
    requires !MtEnabled(Run(p, 0, m).mem) && TIMSK1 < Run(p, 0, m).sp && n + 2 <= |p| + |q|
    ensures ProgramOk(p + q) && !Armed(RunUpTo(p + q, 0, n, m))
  {
    hide Run, RunUpTo, Step, NeverArmed, ProgramOk, Closed, Armed, MtEnabled;
    if n <= |p| {
      RunUpToPrefix(p, q, 0, n, m);
      UnarmedUpTo(p, 0, n, m);
    } else {
      RunUpToAppend(p, q, 0, n - |p|, m);
      StillMasked(q, n - |p|, Run(p, 0, m));
    }
  }

  /**
   The armed boundaries of a switch, by yield or timer: its last two, and these iff
   the context it resumes has interrupts on.
   */
  lemma ArmedExact(m: Machine, t: int, n: nat)
    requires m.Valid() && SwitchReady(m, t) && n <= |CONTEXT_SWITCH|
    ensures ProgramOk(CONTEXT_SWITCH)
    ensures Armed(RunUpTo(CONTEXT_SWITCH, 0, n, Off(m)))
      <==> n + 1 >= |CONTEXT_SWITCH| && FrameCore(SavedMemory(m), t).flags.i
  {
    hide Run, RunUpTo, Step, ProgramOk, Chosen, Off, RegisterBytes, FrameBytes, FrameCore, SavedMemory;
    hide MtEnabled, InWindow;
    OffFacts(m, t);
    if n + 2 <= |CONTEXT_SWITCH| {
      EarlyUnarmed(Off(m), t, n);
    } else {
      CodeOk();
      WindowEffect(m, t, n == |CONTEXT_SWITCH|, 0);
    }
  }

  // ----- what a strike on top of the scheduler's frame leaves -----

  // The frame above t, first pushed byte first, and the context that such bytes stand for.
  function FrameList(mem: seq<Byte>, t: int): (b: seq<Byte>)
    requires 0 <= t && t + FRAME_BYTES < |mem|
    ensures |b| == FRAME_BYTES
  {
    seq(FRAME_BYTES, j requires 0 <= j < FRAME_BYTES => mem[t + FRAME_BYTES - j])
  }

  function BytesCore(b: seq<Byte>, sp: int): Core
    requires |b| == FRAME_BYTES
  {
    Core(seq(32, k requires 0 <= k < 32 => if k == 0 then b[3] else b[k + 4]),
         SregFlags(b[4]), PcOf(b[0], b[1], b[2]), sp)
  }

  lemma FrameIsItsBytes(mem: seq<Byte>, t: int)
    requires 0 <= t && t + FRAME_BYTES < |mem|
    ensures FrameCore(mem, t) == BytesCore(FrameList(mem, t), t + FRAME_BYTES)
  {
    hide SregFlags, PcOf;
  }

  /**
   A strike while the stack pointer is still d bytes short of the end of the frame
   at t that would be resumed again: the new frame overlaps the old one, and what
   comes back is the first d bytes of the old frame followed by the new frame.
   */
  lemma OverlaidFrame(m: Machine, t: int, d: nat)
    requires m.Valid() && SwitchReady(m, t) && 1 <= d <= FRAME_BYTES && m.sp == t + FRAME_BYTES - d
    ensures var m' := Switched(m, ByTimer);
            var b := FrameList(m.mem, t)[..d] + FrameBytes(SavedCore(m))[..FRAME_BYTES - d];
            && CoreOf(m') == ResumedCore(BytesCore(b, t + FRAME_BYTES), m'.mem[TIMSK1])
            && ReadWord(m'.mem, PREV_TASK_SP) == t - d
  {
    hide FrameBytes, FrameCore, BytesCore, Switched, ResumedCore, WithMt, Chosen;
    SwitchedEffect(m, ByTimer, t);
    var b := FrameList(m.mem, t)[..d] + FrameBytes(SavedCore(m))[..FRAME_BYTES - d];
    FrameIsItsBytes(SavedMemory(m), t);
    assert FrameList(SavedMemory(m), t) == b;
  }

  // The bytes of a frame, one by one.
  lemma FrameByte(c: Core, j: nat)
    requires |c.r| == 32 && j < FRAME_BYTES
    ensures FrameBytes(c)[j] ==
      if j == 0 then Lo(c.pc) else if j == 1 then Hi(c.pc) else if j == 2 then Lo(c.pc / 0x10000)
      else if j == 3 then c.r[0] else if j == 4 then SregByte(c.flags) else c.r[j - 4]
  {
    hide Lo, Hi, SregByte;
  }

  /** Struck one byte short: registers and SREG are shifted by one byte, and so is the program counter. */
  ghost predicate ShiftedByOne(m: Machine, m': Machine)
    requires m.Valid() && m'.Valid() && m.sp < 0xFFFF
  {
    && m'.sp == m.sp + 1 && m'.pc == PcOf(m.mem[m.sp + 1], Lo(m.pc), Hi(m.pc))
    && m'.r[0] == Lo(m.pc / 0x10000) && m'.r[1] == SregByte(SavedCore(m).flags)
    && (forall k :: 2 <= k < 32 ==> m'.r[k] == m.r[k - 1])
    && m'.flags == LogicFlags(SregFlags(m.r[0]), m'.mem[TIMSK1]).(i := true)
    && ReadWord(m'.mem, PREV_TASK_SP) == m.sp - FRAME_BYTES
  }

  lemma StruckOneShort(m: Machine, t: int)
    requires m.Valid() && SwitchReady(m, t) && m.sp == t + FRAME_BYTES - 1
    ensures ShiftedByOne(m, Switched(m, ByTimer))
  {
    hide FrameBytes, Switched, Lo, Hi, SregByte, SregFlags, PcOf, LogicFlags, ReadWord;
    OverlaidFrame(m, t, 1);
    forall j: nat | j < FRAME_BYTES
      ensures FrameBytes(SavedCore(m))[j] ==
        if j == 0 then Lo(m.pc) else if j == 1 then Hi(m.pc) else if j == 2 then Lo(m.pc / 0x10000)
        else if j == 3 then m.r[0] else if j == 4 then SregByte(SavedCore(m).flags) else m.r[j - 4]
    {
      FrameByte(SavedCore(m), j);
    }
  }

  /**
   Struck in the window of the switch that resumes context c: the program counter
   and SP are those of c, but the registers are shifted by three or four bytes, the
   low ones and SREG are bytes of the struck address, and prev_task_sp is wrong.
   */
  ghost predicate ShiftedInWindow(n: Machine, m': Machine, c: Core, t: int, popped: bool)
    requires n.Valid() && m'.Valid() && |c.r| == 32
  {
    var d := if popped then 3 else 4;
    && m'.sp == t + FRAME_BYTES && m'.pc == c.pc && ReadWord(m'.mem, PREV_TASK_SP) == t - d
    && (if popped then m'.r[0] == Lo(n.pc) && m'.r[1] == Lo(n.pc / 0x10000)
        else m'.r[0] == c.r[16] && m'.r[1] == Hi(n.pc) && m'.r[2] == Lo(n.pc / 0x10000))
    && m'.r[d - 1] == n.r[0] && m'.r[d] == SregByte(SavedCore(n).flags)
    && (forall k :: d < k < 32 ==> m'.r[k] == n.r[k - d])
    && m'.flags == LogicFlags(SregFlags(if popped then Hi(n.pc) else Lo(n.pc)), m'.mem[TIMSK1]).(i := true)
  }

  lemma StruckShort(n: Machine, c: Core, t: int, popped: bool)
    requires n.Valid() && SwitchReady(n, t) && n.sp == t + (if popped then 33 else 32)
    requires |c.r| == 32 && c.pc == FramePc(n.mem, t) && n.mem[t + 33] == c.r[16]
    ensures ShiftedInWindow(n, Switched(n, ByTimer), c, t, popped)
  {
    hide FrameBytes, Switched, Lo, Hi, SregByte, SregFlags, PcOf, LogicFlags, ReadWord;
    OverlaidFrame(n, t, if popped then 3 else 4);
    forall j: nat | j < FRAME_BYTES
      ensures FrameBytes(SavedCore(n))[j] ==
        if j == 0 then Lo(n.pc) else if j == 1 then Hi(n.pc) else if j == 2 then Lo(n.pc / 0x10000)
        else if j == 3 then n.r[0] else if j == 4 then SregByte(SavedCore(n).flags) else n.r[j - 4]
    {
      FrameByte(SavedCore(n), j);
    }
  }

  /** Machine m switched to the context c above t and was struck in the window, as n; m' is what came of it. */
  ghost predicate SwitchStruck(m: Machine, n: Machine, m': Machine, c: Core, t: int, popped: bool)
    requires m.Valid() && n.Valid() && m'.Valid()
  {
    && SwitchReady(m, t) && c == FrameCore(SavedMemory(m), t)
    && InWindow(m, n, t, popped) && ShiftedInWindow(n, m', c, t, popped)
  }

  /** The timer strikes a switch into the scheduler before it has returned. */
  lemma StruckInWindow(m: Machine, t: int, popped: bool, pc: int)
    requires m.Valid() && SwitchReady(m, t) && 0 <= pc < PC_SPACE
    requires ReadWord(m.mem, NEXT_TASK_SP) == 0 && STACK_LOW + 4 <= t
    ensures var n := Unreturned(m, popped, pc);
            SwitchStruck(m, n, Switched(n, ByTimer), FrameCore(SavedMemory(m), t), t, popped)
  {
    hide FrameBytes, Switched, SregFlags, LogicFlags, WithMt, MtEnabled, Unreturned, FrameRegs, FrameFlags, PcOf;
    var n := Unreturned(m, popped, pc);
    WindowEffect(m, t, popped, pc);
    StillScheduler(m, n, t, popped);
    StruckShort(n, FrameCore(SavedMemory(m), t), t, popped);
  }

  // In the window scheduler_task_sp and the PC bytes of the consumed frame are as they were.
  lemma StillScheduler(m: Machine, n: Machine, t: int, popped: bool)
    requires m.Valid() && n.Valid() && SwitchReady(m, t) && InWindow(m, n, t, popped)
    requires ReadWord(m.mem, NEXT_TASK_SP) == 0 && STACK_LOW + 4 <= t
    ensures SwitchReady(n, t) && FramePc(n.mem, t) == FramePc(SavedMemory(m), t)
  {
    hide FrameBytes, FrameCore, WithMt, MtEnabled;
    assert n.mem[SCHEDULER_TASK_SP] == m.mem[SCHEDULER_TASK_SP];
    assert n.mem[SCHEDULER_TASK_SP + 1] == m.mem[SCHEDULER_TASK_SP + 1];
  }
}
