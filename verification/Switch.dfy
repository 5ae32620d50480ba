/**
 What a whole context switch does: the 36-byte frame it leaves behind, the frame
 it picks up, and what survives the trip.
 */
module Switch {
  import opened Layout
  import opened Avr
  import opened ContextSwitch

  // Stacks live in SRAM between the OS stack and the words of the switch globals.
  const STACK_LOW := 0x205
  const STACK_TOP := PREV_TASK_SP

  // ----- the frame -----

  /** The saved registers are the registers: reading back the pushed bytes. */
  lemma SavedFrame(mem: seq<Byte>, sp: int, r: seq<Byte>, flags: Flags)
    requires |r| == 32 && 33 <= sp < |mem|
    ensures var mem' := Stacked(mem, sp, RegisterBytes(r, flags));
            && FrameRegs(mem', sp - 33) == r
            && FrameFlags(mem', sp - 33) == flags
            && mem'[sp - 1] == SregByte(flags)
  {
    var mem' := Stacked(mem, sp, RegisterBytes(r, flags));
    hide SregByte, SregFlags, FrameRegs;
    assert mem'[sp - 1] == RegisterBytes(r, flags)[1];
    SregRoundTrip(flags);
    SavedRegs(mem, sp, r, flags);
  }

  lemma SavedRegs(mem: seq<Byte>, sp: int, r: seq<Byte>, flags: Flags)
    requires |r| == 32 && 33 <= sp < |mem|
    ensures FrameRegs(Stacked(mem, sp, RegisterBytes(r, flags)), sp - 33) == r
  {
    hide RegisterBytes;
    forall k: nat | k < 32
      ensures FrameRegs(Stacked(mem, sp, RegisterBytes(r, flags)), sp - 33)[k] == r[k]
    {
      SavedReg(r, flags, k);
    }
  }

  // Where register k is among the pushed bytes.
  lemma SavedReg(r: seq<Byte>, flags: Flags, k: nat)
    requires |r| == 32 && k < 32
    ensures RegisterBytes(r, flags)[if k == 0 then 0 else k + 1] == r[k]
  {
    hide SregByte;
  }

  lemma SaveContextEffect(m: Machine)
    requires m.Valid() && 33 <= m.sp
    ensures ProgramOk(SAVE_CONTEXT) && Closed(SAVE_CONTEXT)
    ensures var m' := Run(SAVE_CONTEXT, 0, m);
            && m'.sp == m.sp - 33 && m'.r[1] == 0
            && m'.mem == WriteWord(Stacked(m.mem, m.sp, RegisterBytes(m.r, m.flags)), TASK_SP, m.sp - 33)
  {
    hide Run, Step, ProgramOk, Closed, WriteWord, RegisterBytes, SregByte;
    SaveRegistersEffect(SAVE_REGISTERS, m);
    var m1 := Run(SAVE_REGISTERS, 0, m);
    SaveSpEffect(SaveSpToAdr(TASK_SP), TASK_SP, m1);
    RunAppend(SAVE_REGISTERS, SaveSpToAdr(TASK_SP), 0, m);
    ClosedAppend(SAVE_REGISTERS, SaveSpToAdr(TASK_SP));
  }

  /**
   SAVE_CONTEXT followed by RESTORE_CONTEXT gives back all 32 registers, SREG and
   SP, and changes memory only in the 33 bytes of the frame and in task_sp,
   wherever the stack is, as long as its frame misses the word task_sp itself.
   */
  lemma SaveThenRestoreIsIdentity(m: Machine)
    requires m.Valid() && 33 <= m.sp && (m.sp < TASK_SP || TASK_SP + 1 <= m.sp - 33)
    ensures ProgramOk(SAVE_CONTEXT + RESTORE_CONTEXT)
    ensures var m' := Run(SAVE_CONTEXT + RESTORE_CONTEXT, 0, m);
            && m'.r == m.r && m'.flags == m.flags && m'.sp == m.sp
            && forall a :: 0 <= a < 0x10000 && !(m.sp - 33 < a <= m.sp) && a != TASK_SP && a != TASK_SP + 1
                 ==> m'.mem[a] == m.mem[a]
  {
    hide Run, Step, ProgramOk, Closed, RegisterBytes, SregFlags, SregByte, Lo, Hi;
    SaveContextEffect(m);
    var m1 := Run(SAVE_CONTEXT, 0, m);
    var saved := Stacked(m.mem, m.sp, RegisterBytes(m.r, m.flags));
    ReadWritten(saved, TASK_SP, m.sp - 33);
    RestoreEffect(RESTORE_CONTEXT, m1);
    RunAppend(SAVE_CONTEXT, RESTORE_CONTEXT, 0, m);
    SavedFrame(m.mem, m.sp, m.r, m.flags);
    SameFrame(saved, m1.mem, m.sp - 33);
  }

  lemma ReadWritten(mem: seq<Byte>, a: nat, w: Word)
    requires a + 1 < |mem|
    ensures ReadWord(WriteWord(mem, a, w), a) == w
  {
    WordBytes(w);
  }

  // Frames are read from the 33 bytes above p and from nowhere else.
  lemma SameFrame(mem: seq<Byte>, mem': seq<Byte>, p: int)
    requires 0 <= p && p + 33 < |mem| == |mem'|
    requires forall a :: p < a <= p + 33 ==> mem'[a] == mem[a]
    ensures FrameRegs(mem', p) == FrameRegs(mem, p) && FrameFlags(mem', p) == FrameFlags(mem, p)
  {
    hide SregFlags;
    assert forall k :: 0 <= k < 32 ==> FrameRegs(mem', p)[k] == FrameRegs(mem, p)[k];
  }

  // ----- the switch -----

  lemma UpToSelect(q: seq<Instr>, m: Machine) returns (m': Machine, scratch: Byte)
    requires m.Valid() && STACK_LOW + 33 <= m.sp && ProgramOk(q)
    ensures ProgramOk(SAVE_CONTEXT + (SaveSpToAdr(PREV_TASK_SP) + (DISABLE_MT + q)))
    ensures m'.Valid() && m'.r[1] == 0 && m'.sp == m.sp - 33
    ensures Run(SAVE_CONTEXT + (SaveSpToAdr(PREV_TASK_SP) + (DISABLE_MT + q)), 0, m) == Run(q, 0, m')
    ensures m'.mem == WriteWord(WriteWord(Stacked(m.mem, m.sp, RegisterBytes(m.r, m.flags)), TASK_SP, m'.sp),
                                PREV_TASK_SP, m'.sp)[m'.sp := scratch][TIMSK1 := WithoutMt(m.mem[TIMSK1])]
  {
    hide Run, Step, ProgramOk, Closed, WriteWord, RegisterBytes, WithoutMt, LogicFlags;
    SaveContextEffect(m);
    var m1 := Run(SAVE_CONTEXT, 0, m);
    SaveSpEffect(SaveSpToAdr(PREV_TASK_SP), PREV_TASK_SP, m1);
    var m2 := Run(SaveSpToAdr(PREV_TASK_SP), 0, m1);
    DisableMtEffect(DISABLE_MT, m2);
    m' := Run(DISABLE_MT, 0, m2);
    scratch := m2.r[16];
    UntouchedMask(m, m2.mem);
    RunAppend(DISABLE_MT, q, 0, m2);
    RunAppend(SaveSpToAdr(PREV_TASK_SP), DISABLE_MT + q, 0, m1);
    RunAppend(SAVE_CONTEXT, SaveSpToAdr(PREV_TASK_SP) + (DISABLE_MT + q), 0, m);
  }

  lemma UntouchedMask(m: Machine, mem: seq<Byte>)
    requires m.Valid() && STACK_LOW + 33 <= m.sp
    requires mem == WriteWord(WriteWord(Stacked(m.mem, m.sp, RegisterBytes(m.r, m.flags)), TASK_SP, m.sp - 33),
                              PREV_TASK_SP, m.sp - 33)
    ensures mem[TIMSK1] == m.mem[TIMSK1]
  {
    hide Lo, Hi, RegisterBytes;
  }

  // RESET_TIMER, RESTORE_CONTEXT and ENABLE_MT, from the machine SELECT leaves behind.
  lemma FromRestore(m: Machine) returns (scratch: Byte)
    requires m.Valid() && m.r[1] == 0 && STACK_LOW <= ReadWord(m.mem, TASK_SP) < STACK_TOP - 33
    ensures ProgramOk(RESET_TIMER + (RESTORE_CONTEXT + ENABLE_MT))
    ensures var m' := Run(RESET_TIMER + (RESTORE_CONTEXT + ENABLE_MT), 0, m);
            var t := ReadWord(m.mem, TASK_SP);
            var mask := WithMt(m.mem[TIMSK1]);
            && m'.r == FrameRegs(m.mem, t) && m'.sp == t + 33
            && m'.flags == LogicFlags(FrameFlags(m.mem, t), mask)
            && m'.mem == m.mem[0x65 := 0][0x64 := 0][t + 33 := scratch][TIMSK1 := mask]
  {
    hide Run, Step, ProgramOk, Closed, WithMt, LogicFlags, SregFlags;
    var t := ReadWord(m.mem, TASK_SP);
    ResetTimerEffect(RESET_TIMER, m);
    var m1 := Run(RESET_TIMER, 0, m);
    RestoreEffect(RESTORE_CONTEXT, m1);
    var m2 := Run(RESTORE_CONTEXT, 0, m1);
    SameFrame(m.mem, m1.mem, t);
    EnableMtEffect(ENABLE_MT, m2);
    scratch := m2.r[16];
    RunAppend(RESTORE_CONTEXT, ENABLE_MT, 0, m1);
    RunAppend(RESET_TIMER, RESTORE_CONTEXT + ENABLE_MT, 0, m);
  }

  /** The bytes other than stacks that a switch may write: two I/O registers, TIMSK1 and three of the globals. */
  predicate SwitchGlobal(a: int) {
    a == 0x64 || a == 0x65 || a == TIMSK1 || PREV_TASK_SP <= a < NEXT_TASK_SP + 2 || a == TASK_SP || a == TASK_SP + 1
  }

  predicate MtEnabled(mem: seq<Byte>)
    requires |mem| == 0x10000
  {
    mem[TIMSK1] / 2 % 2 == 1
  }

  lemma EnablingSetsTheBit(a: Byte)
    ensures WithMt(a) / 2 % 2 == 1 && WithMt(a) != 0
  {
  }

  lemma MtComesBack(a: Byte)
    ensures WithMt(WithoutMt(a)) == WithMt(a)
  {
  }

  /**
   CONTEXT_SWITCH with its stack in SRAM below the switch globals, unless the SP it
   saves falls inside the chosen frame: the running context is pushed as a frame at
   p, the frame at t takes over, and nothing else in memory changes but one scratch
   byte below the old and one inside the consumed frame.
   */
  lemma SwitchEffect(m: Machine, t: int)
    requires m.Valid() && STACK_LOW + 33 <= m.sp < STACK_TOP
    requires t == Chosen(m.mem) && STACK_LOW <= t < STACK_TOP - 33 && !(t < m.sp - 33 <= t + 33)
    ensures ProgramOk(CONTEXT_SWITCH)
    ensures var m' := Run(CONTEXT_SWITCH, 0, m);
            var p := m.sp - 33;
            var saved := Stacked(m.mem, m.sp, RegisterBytes(m.r, m.flags));
            && m'.sp == t + 33 && m'.r == FrameRegs(saved, t)
            && m'.flags == LogicFlags(FrameFlags(saved, t), m'.mem[TIMSK1])
            && (forall a :: 0 <= a < 0x10000 && !SwitchGlobal(a) && a != p && a != t + 33
                  ==> m'.mem[a] == saved[a])
            && ReadWord(m'.mem, PREV_TASK_SP) == p && ReadWord(m'.mem, TASK_SP) == t
            && ReadWord(m'.mem, NEXT_TASK_SP) == 0 && m'.mem[0x64] == 0 && m'.mem[0x65] == 0
            && m'.mem[TIMSK1] == WithMt(m.mem[TIMSK1])
  {
    hide Run, Step, ProgramOk, Closed, WithoutMt, WithMt, LogicFlags, SregFlags, RegisterBytes, WriteWord;
    hide AfterSelect, Chosen;
    var tail := RESET_TIMER + (RESTORE_CONTEXT + ENABLE_MT);
    TailOk();
    var m1, scratch := UpToSelect(SELECT_SCHEDULED_TASK_OR_SCHEDULER + tail, m);
    ChosenBeforeSelect(m, m1.mem, scratch, WithoutMt(m.mem[TIMSK1]));
    SelectEffect(SELECT_SCHEDULED_TASK_OR_SCHEDULER, m1);
    var m2 := Run(SELECT_SCHEDULED_TASK_OR_SCHEDULER, 0, m1);
    SelectedWords(m1.mem);
    RunAppend(SELECT_SCHEDULED_TASK_OR_SCHEDULER, tail, 0, m1);
    var scratch2 := FromRestore(m2);
    MtComesBack(m.mem[TIMSK1]);
    SwitchMemory(m, m1.mem, m2.mem, scratch, WithoutMt(m.mem[TIMSK1]), t, scratch2);
  }

  lemma TailOk()
    ensures ProgramOk(RESET_TIMER + (RESTORE_CONTEXT + ENABLE_MT))
    ensures ProgramOk(SELECT_SCHEDULED_TASK_OR_SCHEDULER + (RESET_TIMER + (RESTORE_CONTEXT + ENABLE_MT)))
  {
    RestoreRegistersShape(RESTORE_REGISTERS);
    OkAppend(RESTORE_REGISTERS, RESTORE_SREG);
    OkAppend(RESTORE_SP, RESTORE_REGISTERS + RESTORE_SREG);
    OkAppend(RESTORE_CONTEXT, ENABLE_MT);
    OkAppend(RESET_TIMER, RESTORE_CONTEXT + ENABLE_MT);
    OkAppend(SELECT_BRANCH, SELECT_STORE);
    OkAppend(SELECT_LOAD, SELECT_BRANCH + SELECT_STORE);
    OkAppend(SELECT_SCHEDULED_TASK_OR_SCHEDULER, RESET_TIMER + (RESTORE_CONTEXT + ENABLE_MT));
  }

  lemma OkAppend(p: seq<Instr>, q: seq<Instr>)
    requires ProgramOk(p) && ProgramOk(q)
    ensures ProgramOk(p + q)
  {
  }

  // Saving does not disturb the choice: the frame and the two saved words miss it.
  lemma ChosenBeforeSelect(m: Machine, mem: seq<Byte>, scratch: Byte, mask: Byte)
    requires m.Valid() && STACK_LOW + 33 <= m.sp < STACK_TOP
    requires mem == WriteWord(WriteWord(Stacked(m.mem, m.sp, RegisterBytes(m.r, m.flags)), TASK_SP, m.sp - 33),
                              PREV_TASK_SP, m.sp - 33)[m.sp - 33 := scratch][TIMSK1 := mask]
    ensures Chosen(mem) == Chosen(m.mem)
  {
    hide Lo, Hi, Word16, RegisterBytes;
  }

  lemma SelectedWords(mem: seq<Byte>)
    requires |mem| == 0x10000
    ensures ReadWord(AfterSelect(mem), TASK_SP) == Chosen(mem)
    ensures ReadWord(AfterSelect(mem), NEXT_TASK_SP) == 0
    ensures forall a :: && 0 <= a < 0x10000 && a != TASK_SP && a != TASK_SP + 1
                        && a != NEXT_TASK_SP && a != NEXT_TASK_SP + 1 ==>
              AfterSelect(mem)[a] == mem[a]
  {
    ReadWritten(mem, TASK_SP, Chosen(mem));
  }

  // Puts the pieces together, address by address.
  lemma SwitchMemory(m: Machine, mem1: seq<Byte>, mem2: seq<Byte>, scratch: Byte, mask: Byte, t: int, scratch2: Byte)
    requires m.Valid() && STACK_LOW + 33 <= m.sp < STACK_TOP
    requires STACK_LOW <= t < STACK_TOP - 33 && !(t < m.sp - 33 <= t + 33)
    requires mem1 == WriteWord(WriteWord(Stacked(m.mem, m.sp, RegisterBytes(m.r, m.flags)), TASK_SP, m.sp - 33),
                               PREV_TASK_SP, m.sp - 33)[m.sp - 33 := scratch][TIMSK1 := mask]
    requires mem2 == AfterSelect(mem1) && t == Chosen(mem1)
    ensures var saved := Stacked(m.mem, m.sp, RegisterBytes(m.r, m.flags));
            var mem' := mem2[0x65 := 0][0x64 := 0][t + 33 := scratch2][TIMSK1 := WithMt(mem2[TIMSK1])];
            && FrameRegs(mem2, t) == FrameRegs(saved, t) && FrameFlags(mem2, t) == FrameFlags(saved, t)
            && (forall a :: 0 <= a < 0x10000 && !SwitchGlobal(a) && a != m.sp - 33 && a != t + 33
                  ==> mem'[a] == saved[a])
            && ReadWord(mem', PREV_TASK_SP) == m.sp - 33 && ReadWord(mem', TASK_SP) == t
            && ReadWord(mem', NEXT_TASK_SP) == 0 && mem'[0x64] == 0 && mem'[0x65] == 0
            && mem2[TIMSK1] == mask
  {
    hide WithMt, Lo, Hi, RegisterBytes, AfterSelect, Chosen;
    var saved := Stacked(m.mem, m.sp, RegisterBytes(m.r, m.flags));
    SelectedWords(mem1);
    ReadWritten(WriteWord(saved, TASK_SP, m.sp - 33), PREV_TASK_SP, m.sp - 33);
    SameFrame(saved, mem2, t);
  }

  // ----- contexts with their program counter -----

  /** What a task needs to go on: registers, SREG, program counter and stack pointer. */
  datatype Core = Core(r: seq<Byte>, flags: Flags, pc: int, sp: int)

  function CoreOf(m: Machine): Core {
    Core(m.r, m.flags, m.pc, m.sp)
  }

  function PcBytes(pc: int): (b: seq<Byte>)
    ensures |b| == 3
  {
    [Lo(pc), Hi(pc), Lo(pc / 0x10000)]
  }

  // The 36 bytes of a frame, first pushed first.
  function FrameBytes(c: Core): (b: seq<Byte>)
    requires |c.r| == 32
    ensures |b| == FRAME_BYTES
  {
    PcBytes(c.pc) + RegisterBytes(c.r, c.flags)
  }

  function FramePc(mem: seq<Byte>, p: int): int
    requires 0 <= p && p + FRAME_BYTES < |mem|
  {
    PcOf(mem[p + 36], mem[p + 35], mem[p + 34])
  }

  /** The context that the frame just above p stands for. */
  function FrameCore(mem: seq<Byte>, p: int): (c: Core)
    requires 0 <= p && p + FRAME_BYTES < |mem|
    ensures |c.r| == 32 && c.sp == p + FRAME_BYTES
  {
    Core(FrameRegs(mem, p), FrameFlags(mem, p), FramePc(mem, p), p + FRAME_BYTES)
  }

  lemma PcRoundTrip(pc: int)
    requires 0 <= pc < PC_SPACE
    ensures PcOf(Lo(pc), Hi(pc), Lo(pc / 0x10000)) == pc
  {
    assert pc / 0x10000 == pc / 0x100 / 0x100;
  }

  lemma StackedAppend(mem: seq<Byte>, sp: int, a: seq<Byte>, b: seq<Byte>)
    requires |a| + |b| <= sp < |mem|
    ensures Stacked(Stacked(mem, sp, a), sp - |a|, b) == Stacked(mem, sp, a + b)
  {
  }

  lemma PushPcEffect(m: Machine)
    requires m.Valid() && 3 <= m.sp
    ensures PushPc(m, m.pc) == m.(mem := Stacked(m.mem, m.sp, PcBytes(m.pc)), sp := m.sp - 3)
  {
    hide Lo, Hi;
    var a, b, c := Lo(m.pc), Hi(m.pc), Lo(m.pc / 0x10000);
    StackedCons(m.mem[m.sp := a][m.sp - 1 := b], m.sp - 2, c, []);
    StackedCons(m.mem[m.sp := a], m.sp - 1, b, [c] + []);
    StackedCons(m.mem, m.sp, a, [b] + ([c] + []));
    assert [a] + ([b] + ([c] + [])) == PcBytes(m.pc);
    assert Stacked(m.mem[m.sp := a][m.sp - 1 := b][m.sp - 2 := c], m.sp - 3, [])
        == m.mem[m.sp := a][m.sp - 1 := b][m.sp - 2 := c];
  }

  /** Round trip of a whole frame: what is read back above p is the context that was pushed. */
  lemma FrameRoundTrip(mem: seq<Byte>, c: Core)
    requires |c.r| == 32 && 0 <= c.pc < PC_SPACE && FRAME_BYTES <= c.sp < |mem|
    ensures FrameCore(Stacked(mem, c.sp, FrameBytes(c)), c.sp - FRAME_BYTES) == c
  {
    hide SregFlags, SregByte, RegisterBytes, PcOf, Lo, Hi;
    var mem1 := Stacked(mem, c.sp, PcBytes(c.pc));
    StackedAppend(mem, c.sp, PcBytes(c.pc), RegisterBytes(c.r, c.flags));
    SavedFrame(mem1, c.sp - 3, c.r, c.flags);
    PcRoundTrip(c.pc);
  }

  // ----- the two ways into a switch -----

  /** Body of the naked function k_yield, entered by a call that pushes its return address. */
  const K_YIELD: seq<Instr> := [Cli] + (CONTEXT_SWITCH + [Sei, Ret])

  /** TIMER1_COMPA_vect: the hardware pushes the program counter and clears the I flag before it. */
  const TIMER_ISR: seq<Instr> := CONTEXT_SWITCH + [Reti]

  datatype Entry = ByYield | ByTimer

  function Switched(m: Machine, entry: Entry): (m': Machine)
    requires m.Valid()
    ensures m'.Valid()
  {
    CodeOk();
    match entry
    case ByYield => Run(K_YIELD, 0, PushPc(m, m.pc))
    case ByTimer => var n := PushPc(m, m.pc); Run(TIMER_ISR, 0, n.(flags := n.flags.(i := false)))
  }

  lemma CodeOk()
    ensures ProgramOk(CONTEXT_SWITCH) && ProgramOk(K_YIELD) && ProgramOk(TIMER_ISR)
  {
    TailOk();
    SaveRegistersShape(SAVE_REGISTERS);
    OkAppend(SAVE_REGISTERS, SaveSpToAdr(TASK_SP));
    var tail := SELECT_SCHEDULED_TASK_OR_SCHEDULER + (RESET_TIMER + (RESTORE_CONTEXT + ENABLE_MT));
    OkAppend(DISABLE_MT, tail);
    OkAppend(SaveSpToAdr(PREV_TASK_SP), DISABLE_MT + tail);
    OkAppend(SAVE_CONTEXT, SaveSpToAdr(PREV_TASK_SP) + (DISABLE_MT + tail));
    hide ProgramOk;
    assert ProgramOk([Sei, Ret]) && ProgramOk([Reti]) && ProgramOk([Cli]) by {
      EndsOk();
    }
    OkAppend(CONTEXT_SWITCH, [Sei, Ret]);
    OkAppend([Cli], CONTEXT_SWITCH + [Sei, Ret]);
    OkAppend(CONTEXT_SWITCH, [Reti]);
  }

  lemma EndsOk()
    ensures ProgramOk([Sei, Ret]) && ProgramOk([Reti]) && ProgramOk([Cli])
    ensures Closed([Sei, Ret]) && Closed([Reti]) && Closed([Cli])
  {
  }

  lemma CodeClosed()
    ensures Closed(CONTEXT_SWITCH)
  {
    SaveRegistersShape(SAVE_REGISTERS);
    StraightCodeIsClosed(SAVE_REGISTERS);
    RestoreRegistersShape(RESTORE_REGISTERS);
    StraightCodeIsClosed(RESTORE_REGISTERS);
    PiecesClosed();
    hide Closed;
    ClosedAppend(SAVE_REGISTERS, SaveSpToAdr(TASK_SP));
    ClosedAppend(SELECT_BRANCH, SELECT_STORE);
    ClosedAppend(SELECT_LOAD, SELECT_BRANCH + SELECT_STORE);
    ClosedAppend(RESTORE_REGISTERS, RESTORE_SREG);
    ClosedAppend(RESTORE_SP, RESTORE_REGISTERS + RESTORE_SREG);
    ClosedAppend(RESTORE_CONTEXT, ENABLE_MT);
    ClosedAppend(RESET_TIMER, RESTORE_CONTEXT + ENABLE_MT);
    ClosedAppend(SELECT_SCHEDULED_TASK_OR_SCHEDULER, RESET_TIMER + (RESTORE_CONTEXT + ENABLE_MT));
    var tail := SELECT_SCHEDULED_TASK_OR_SCHEDULER + (RESET_TIMER + (RESTORE_CONTEXT + ENABLE_MT));
    ClosedAppend(DISABLE_MT, tail);
    ClosedAppend(SaveSpToAdr(PREV_TASK_SP), DISABLE_MT + tail);
    ClosedAppend(SAVE_CONTEXT, SaveSpToAdr(PREV_TASK_SP) + (DISABLE_MT + tail));
  }

  lemma PiecesClosed()
    ensures Closed(SaveSpToAdr(TASK_SP)) && Closed(SaveSpToAdr(PREV_TASK_SP))
    ensures Closed(DISABLE_MT) && Closed(ENABLE_MT) && Closed(RESET_TIMER)
    ensures Closed(SELECT_LOAD) && Closed(SELECT_BRANCH) && Closed(SELECT_STORE)
    ensures Closed(RESTORE_SP) && Closed(RESTORE_SREG)
  {
  }

  // The context a switch saves: interrupts are off by then.
  function SavedCore(m: Machine): Core {
    CoreOf(m).(flags := m.flags.(i := false))
  }

  /**
   The context a switch resumes from a saved one: the ORI in ENABLE_MT has
   recomputed S, V, N and Z from the timer mask, and interrupts are on.
   */
  function ResumedCore(c: Core, mask: Byte): Core {
    c.(flags := LogicFlags(c.flags, mask).(i := true))
  }

  // A machine about to switch to the frame above t, which its own frame does not partly overlap.
  predicate SwitchReady(m: Machine, t: int)
    requires m.Valid()
  {
    && STACK_LOW + FRAME_BYTES <= m.sp < STACK_TOP
    && t == Chosen(m.mem) && STACK_LOW <= t < STACK_TOP - FRAME_BYTES
    && !(t < m.sp - FRAME_BYTES <= t + FRAME_BYTES)
  }

  // What the machine m turns into when the frame above t takes over.
  predicate SwitchesTo(m: Machine, m': Machine, t: int)
    requires m.Valid() && m'.Valid() && FRAME_BYTES <= m.sp && 0 <= t < STACK_TOP - FRAME_BYTES
  {
    var p := m.sp - FRAME_BYTES;
    var saved := Stacked(m.mem, m.sp, FrameBytes(SavedCore(m)));
    && CoreOf(m') == ResumedCore(FrameCore(saved, t), m'.mem[TIMSK1])
    && (forall a :: 0 <= a < 0x10000 && !SwitchGlobal(a) && a != p && a != t + 33 ==> m'.mem[a] == saved[a])
    && ReadWord(m'.mem, PREV_TASK_SP) == p && ReadWord(m'.mem, TASK_SP) == t
    && ReadWord(m'.mem, NEXT_TASK_SP) == 0 && m'.mem[0x64] == 0 && m'.mem[0x65] == 0
    && m'.mem[TIMSK1] == WithMt(m.mem[TIMSK1])
  }

  /**
   Both entries, under the same conditions: the context is saved as a frame at
   m.sp - 36 and the frame above the chosen t takes over.
   */
  lemma SwitchedEffect(m: Machine, entry: Entry, t: int)
    requires m.Valid() && STACK_LOW + FRAME_BYTES <= m.sp < STACK_TOP
    requires t == Chosen(m.mem) && STACK_LOW <= t < STACK_TOP - FRAME_BYTES
    requires !(t < m.sp - FRAME_BYTES <= t + FRAME_BYTES)
    ensures SwitchesTo(m, Switched(m, entry), t)
  {
    hide Run, Step, ProgramOk, Closed, RegisterBytes, LogicFlags, PcBytes, SwitchesTo;
    CodeOk();
    PushPcEffect(m);
    var n := PushPc(m, m.pc);
    match entry
    case ByYield =>
      var off := YieldRun(n);
      SwitchedContext(m, off, t);
    case ByTimer =>
      var off := n.(flags := n.flags.(i := false));
      TimerRun(off);
      SwitchedContext(m, off, t);
  }

  // The return that ends a switch.
  function Returned(m: Machine): (m': Machine)
    requires m.Valid()
    ensures m'.Valid()
  {
    PopPc(m).(flags := m.flags.(i := true))
  }

  lemma ReturnRun(p: seq<Instr>, w: Machine)
    requires w.Valid() && ProgramOk(p) && ((|p| == 2 && p[0] == Sei && p[1] == Ret) || (|p| == 1 && p[0] == Reti))
    ensures Run(p, 0, w) == Returned(w)
  {
    hide Run, Step;
    if |p| == 2 {
      var w1 := Next(p, 0, Sei, w);
      var w2 := Next(p, 1, Ret, w1);
      RunEnd(p, w2);
    } else {
      var w1 := Next(p, 0, Reti, w);
      RunEnd(p, w1);
    }
  }

  lemma CliFirst(n: Machine) returns (off: Machine)
    requires n.Valid()
    ensures off.Valid() && off == n.(flags := n.flags.(i := false), pc := off.pc)
    ensures ProgramOk([Cli]) && Run([Cli], 0, n) == off
  {
    hide Run, Step;
    off := Next([Cli], 0, Cli, n);
    RunEnd([Cli], off);
  }

  lemma YieldRun(n: Machine) returns (off: Machine)
    requires n.Valid() && ProgramOk(K_YIELD) && ProgramOk(CONTEXT_SWITCH)
    ensures off.Valid() && off == n.(flags := n.flags.(i := false), pc := off.pc)
    ensures Run(K_YIELD, 0, n) == Returned(Run(CONTEXT_SWITCH, 0, off))
  {
    hide Run, Step, ProgramOk, Closed, Returned, Exec, Exec1;
    EndsOk();
    CodeClosed();
    off := CliFirst(n);
    ReturnRun([Sei, Ret], Run(CONTEXT_SWITCH, 0, off));
    RunAppend(CONTEXT_SWITCH, [Sei, Ret], 0, off);
    RunAppend([Cli], CONTEXT_SWITCH + [Sei, Ret], 0, n);
  }

  lemma TimerRun(off: Machine)
    requires off.Valid() && ProgramOk(TIMER_ISR) && ProgramOk(CONTEXT_SWITCH)
    ensures Run(TIMER_ISR, 0, off) == Returned(Run(CONTEXT_SWITCH, 0, off))
  {
    hide Run, Step, ProgramOk, Closed, Returned, Exec, Exec1;
    EndsOk();
    CodeClosed();
    ReturnRun([Reti], Run(CONTEXT_SWITCH, 0, off));
    RunAppend(CONTEXT_SWITCH, [Reti], 0, off);
  }

  lemma ChosenOfStacked(mem: seq<Byte>, sp: int, bytes: seq<Byte>)
    requires |mem| == 0x10000 && sp < STACK_TOP
    ensures Chosen(Stacked(mem, sp, bytes)) == Chosen(mem)
  {
    hide Word16;
  }

  // The switch proper, with the program counter already on the stack and interrupts off.
  lemma SwitchedContext(m: Machine, off: Machine, t: int)
    requires m.Valid() && off.Valid() && STACK_LOW + FRAME_BYTES <= m.sp < STACK_TOP
    requires off == m.(mem := Stacked(m.mem, m.sp, PcBytes(m.pc)), sp := m.sp - 3,
                       flags := m.flags.(i := false), pc := off.pc)
    requires t == Chosen(m.mem) && STACK_LOW <= t < STACK_TOP - FRAME_BYTES
    requires !(t < m.sp - FRAME_BYTES <= t + FRAME_BYTES)
    ensures ProgramOk(CONTEXT_SWITCH)
    ensures SwitchesTo(m, Returned(Run(CONTEXT_SWITCH, 0, off)), t)
  {
    hide Run, Step, ProgramOk, RegisterBytes, LogicFlags, PcBytes, SregFlags, Lo, Hi, WithMt, Chosen, ReadWord;
    ChosenOfStacked(m.mem, m.sp, PcBytes(m.pc));
    StackedAppend(m.mem, m.sp, PcBytes(m.pc), RegisterBytes(m.r, off.flags));
    var saved := Stacked(m.mem, m.sp, FrameBytes(SavedCore(m)));
    assert Stacked(off.mem, off.sp, RegisterBytes(off.r, off.flags)) == saved;
    SwitchEffect(off, t);
    ReturnedContext(m, Run(CONTEXT_SWITCH, 0, off), saved, t);
  }

  lemma ReturnedContext(m: Machine, w: Machine, saved: seq<Byte>, t: int)
    requires m.Valid() && w.Valid() && FRAME_BYTES <= m.sp && |saved| == 0x10000
    requires STACK_LOW <= t < STACK_TOP - FRAME_BYTES && !(t + 33 < m.sp - FRAME_BYTES <= t + 36)
    requires saved == Stacked(m.mem, m.sp, FrameBytes(SavedCore(m)))
    requires w.sp == t + 33 && w.r == FrameRegs(saved, t)
    requires w.flags == LogicFlags(FrameFlags(saved, t), w.mem[TIMSK1])
    requires forall a :: 0 <= a < 0x10000 && !SwitchGlobal(a) && a != m.sp - FRAME_BYTES && a != t + 33
               ==> w.mem[a] == saved[a]
    requires ReadWord(w.mem, PREV_TASK_SP) == m.sp - FRAME_BYTES && ReadWord(w.mem, TASK_SP) == t
    requires ReadWord(w.mem, NEXT_TASK_SP) == 0 && w.mem[0x64] == 0 && w.mem[0x65] == 0
    requires w.mem[TIMSK1] == WithMt(m.mem[TIMSK1])
    ensures SwitchesTo(m, Returned(w), t)
  {
    hide Run, Step, RegisterBytes, LogicFlags, PcBytes, SregFlags, Lo, Hi, WithMt, ReadWord, FrameBytes, FrameRegs;
    var m' := Returned(w);
    assert m'.sp == t + 36 && m'.mem == w.mem && m'.r == w.r;
    assert w.mem[t + 34] == saved[t + 34] && w.mem[t + 35] == saved[t + 35] && w.mem[t + 36] == saved[t + 36];
    assert m'.pc == FramePc(saved, t);
  }
}
