/**
 The macros of hal/context_switch_macros.hpp as AVR programs, and what each of
 them does to the machine. The labelled C variables task_sp, scheduler_task_sp,
 next_task_sp and prev_task_sp are words in data memory at the addresses the
 Makefile gives them.
 */
module ContextSwitch {
  import opened Layout
  import opened Avr

  const TASK_SP := 0x2100
  const SCHEDULER_TASK_SP := 0x20FE
  const NEXT_TASK_SP := 0x20FC
  const PREV_TASK_SP := 0x20FA
  const TIMSK1 := 0x6F
  const OCIE1A_MASK: Byte := 2

  // ----- the programs -----

  const SET_RETURN_POINT: seq<Instr> := [
    Rcall0, Pop(16), Pop(17), Pop(18),
    Ldi(19, 12), Add(18, 19), Ldi(19, 0), Adc(17, 19), Adc(16, 19),
    Push(18), Push(17), Push(16),
    Cpse(1, 1), Jmp, Nop]

  const SAVE_REGISTERS: seq<Instr> := [
    Push(0), In(0, SREG), Push(0), Push(1), Clr(1),
    Push(2), Push(3), Push(4), Push(5), Push(6), Push(7), Push(8), Push(9), Push(10), Push(11),
    Push(12), Push(13), Push(14), Push(15), Push(16), Push(17), Push(18), Push(19), Push(20), Push(21),
    Push(22), Push(23), Push(24), Push(25), Push(26), Push(27), Push(28), Push(29), Push(30), Push(31)]

  function SaveSpToAdr(adr: Word): seq<Instr> {
    [Ldi(26, Lo(adr)), Ldi(27, Hi(adr)), In(16, SPL), StXInc(16), In(16, SPH), StXInc(16)]
  }

  const SAVE_CONTEXT: seq<Instr> := SAVE_REGISTERS + SaveSpToAdr(TASK_SP)

  const DISABLE_MT: seq<Instr> := [Push(16), Lds(16, TIMSK1), Andi(16, 255 - OCIE1A_MASK), Sts(TIMSK1, 16), Pop(16)]
  const ENABLE_MT: seq<Instr> := [Push(16), Lds(16, TIMSK1), Ori(16, OCIE1A_MASK), Sts(TIMSK1, 16), Pop(16)]

  const SELECT_LOAD: seq<Instr> := [
    Ldi(26, Lo(NEXT_TASK_SP)), Ldi(27, Hi(NEXT_TASK_SP)), LdXInc(16), LdX(17), Mov(18, 16), Or(18, 17)]

  const SELECT_BRANCH: seq<Instr> := [
    Cpse(18, 1), Rjmp(4),
    Ldi(30, Lo(SCHEDULER_TASK_SP)), Ldi(31, Hi(SCHEDULER_TASK_SP)), LdZInc(16), LdZ(17)]

  const SELECT_STORE: seq<Instr> := [
    Ldi(30, Lo(TASK_SP)), Ldi(31, Hi(TASK_SP)), StZInc(16), StZ(17), StX(1), StXDec(1)]

  const SELECT_SCHEDULED_TASK_OR_SCHEDULER: seq<Instr> := SELECT_LOAD + (SELECT_BRANCH + SELECT_STORE)

  // CLEAR_IO_REG stores to the register's data address less 0x20, here those of TCNT1H and TCNT1L.
  const RESET_TIMER: seq<Instr> := [Sts(0x85 - 0x20, 1), Sts(0x84 - 0x20, 1)]

  const SET_SP: seq<Instr> := [
    Ldi(26, Lo(TASK_SP)), Ldi(27, Hi(TASK_SP)), LdXInc(30), LdXInc(31), Out(SPL, 30), Out(SPH, 31)]

  const RESTORE_SP: seq<Instr> := [
    Ldi(26, Lo(TASK_SP)), Ldi(27, Hi(TASK_SP)), LdXInc(28), Out(SPL, 28), LdXInc(29), Out(SPH, 29)]

  const RESTORE_REGISTERS: seq<Instr> := [
    Pop(31), Pop(30), Pop(29), Pop(28), Pop(27), Pop(26), Pop(25), Pop(24), Pop(23), Pop(22),
    Pop(21), Pop(20), Pop(19), Pop(18), Pop(17), Pop(16), Pop(15), Pop(14), Pop(13), Pop(12),
    Pop(11), Pop(10), Pop(9), Pop(8), Pop(7), Pop(6), Pop(5), Pop(4), Pop(3), Pop(2), Pop(1)]

  const RESTORE_SREG: seq<Instr> := [Pop(0), Out(SREG, 0), Pop(0)]

  const RESTORE_CONTEXT: seq<Instr> := RESTORE_SP + (RESTORE_REGISTERS + RESTORE_SREG)

  const CONTEXT_SWITCH: seq<Instr> :=
    SAVE_CONTEXT + (SaveSpToAdr(PREV_TASK_SP) + (DISABLE_MT
    + (SELECT_SCHEDULED_TASK_OR_SCHEDULER + (RESET_TIMER + (RESTORE_CONTEXT + ENABLE_MT)))))

  // ----- single instructions -----

  lemma PushStep(p: seq<Instr>, i: nat, d: nat, m: Machine) returns (m': Machine)
    requires m.Valid() && ProgramOk(p) && i < |p| && p[i] == Push(d)
    ensures d < 32 && m'.Valid() && Run(p, i, m) == Run(p, i + 1, m')
    ensures m' == m.(mem := m.mem[m.sp := m.r[d]], sp := Dec(m.sp), pc := m'.pc)
  {
    hide Run, Step;
    m' := Next(p, i, Push(d), m);
  }

  lemma PopStep(p: seq<Instr>, i: nat, d: nat, m: Machine) returns (m': Machine)
    requires m.Valid() && ProgramOk(p) && i < |p| && p[i] == Pop(d)
    ensures d < 32 && m'.Valid() && Run(p, i, m) == Run(p, i + 1, m')
    ensures m' == m.(r := m.r[d := m.mem[Inc(m.sp)]], sp := Inc(m.sp), pc := m'.pc)
  {
    hide Run, Step;
    m' := Next(p, i, Pop(d), m);
  }

  lemma WriteSreg(p: seq<Instr>, i: nat, d: nat, m: Machine) returns (m': Machine)
    requires m.Valid() && ProgramOk(p) && i < |p| && p[i] == Out(SREG, d)
    ensures d < 32 && m'.Valid() && Run(p, i, m) == Run(p, i + 1, m')
    ensures m' == m.(flags := SregFlags(m.r[d]), pc := m'.pc)
  {
    hide Run, Step, SregFlags;
    m' := Next(p, i, Out(SREG, d), m);
  }

  lemma ReadSp(p: seq<Instr>, i: nat, d: nat, io: IoReg, m: Machine) returns (m': Machine)
    requires m.Valid() && ProgramOk(p) && i < |p| && p[i] == In(d, io) && !io.SREG?
    ensures d < 32 && m'.Valid() && Run(p, i, m) == Run(p, i + 1, m')
    ensures m' == m.(r := m.r[d := if io.SPL? then Lo(m.sp) else Hi(m.sp)], pc := m'.pc)
  {
    hide Run, Step, Lo, Hi;
    m' := Next(p, i, In(d, io), m);
  }

  lemma WriteSpLow(p: seq<Instr>, i: nat, d: nat, m: Machine) returns (m': Machine)
    requires m.Valid() && ProgramOk(p) && i < |p| && p[i] == Out(SPL, d)
    ensures d < 32 && m'.Valid() && Run(p, i, m) == Run(p, i + 1, m')
    ensures m' == m.(sp := Word16(m.r[d], Hi(m.sp)), pc := m'.pc)
  {
    hide Run, Step, Lo, Hi, Word16;
    m' := Next(p, i, Out(SPL, d), m);
  }

  lemma WriteSpHigh(p: seq<Instr>, i: nat, d: nat, m: Machine) returns (m': Machine)
    requires m.Valid() && ProgramOk(p) && i < |p| && p[i] == Out(SPH, d)
    ensures d < 32 && m'.Valid() && Run(p, i, m) == Run(p, i + 1, m')
    ensures m' == m.(sp := Word16(Lo(m.sp), m.r[d]), pc := m'.pc)
  {
    hide Run, Step, Lo, Hi, Word16;
    m' := Next(p, i, Out(SPH, d), m);
  }

  lemma LoadXHere(p: seq<Instr>, i: nat, d: nat, m: Machine) returns (m': Machine)
    requires m.Valid() && ProgramOk(p) && i < |p| && p[i] == LdX(d)
    ensures d < 32 && m'.Valid() && Run(p, i, m) == Run(p, i + 1, m')
    ensures m' == m.(r := m.r[d := m.mem[X(m)]], pc := m'.pc)
  {
    hide Run, Step;
    m' := Next(p, i, LdX(d), m);
  }

  // MOV d,a followed by OR d,b.
  lemma MoveOr(p: seq<Instr>, i: nat, d: nat, a: nat, b: nat, m: Machine) returns (m': Machine)
    requires m.Valid() && ProgramOk(p) && i + 1 < |p| && p[i] == Mov(d, a) && p[i + 1] == Or(d, b) && d != b
    ensures d < 32 && a < 32 && b < 32 && m'.Valid() && Run(p, i, m) == Run(p, i + 2, m')
    ensures m' == m.(r := m.r[d := m'.r[d]], flags := m'.flags, pc := m'.pc)
    ensures m'.r[d] == 0 <==> m.r[a] == 0 && m.r[b] == 0
  {
    hide Run, Step, OrByte, LogicFlags;
    var m1 := Next(p, i, Mov(d, a), m);
    m' := Next(p, i + 1, Or(d, b), m1);
    OrByteZero(m1.r[d], m1.r[b]);
  }

  // The word that two loads in a row bring in.
  lemma WordRead(mem: seq<Byte>, a: nat)
    requires a + 1 < |mem|
    ensures Word16(mem[a], mem[a + 1]) == ReadWord(mem, a)
  {
  }

  // ----- saving the registers -----

  // Memory after pushing the given bytes from stack pointer sp downwards.
  function Stacked(mem: seq<Byte>, sp: int, bytes: seq<Byte>): (mem': seq<Byte>)
    ensures |mem'| == |mem|
    ensures forall a :: 0 <= a < |mem| ==>
      mem'[a] == if sp - |bytes| < a <= sp then bytes[sp - a] else mem[a]
  {
    seq(|mem|, a requires 0 <= a < |mem| => if sp - |bytes| < a <= sp then bytes[sp - a] else mem[a])
  }

  lemma StackedCons(mem: seq<Byte>, sp: int, b: Byte, bytes: seq<Byte>)
    requires 0 <= sp < |mem|
    ensures Stacked(mem[sp := b], sp - 1, bytes) == Stacked(mem, sp, [b] + bytes)
  {
  }

  function Pushes(a: nat): seq<Instr>
    requires a <= 32
  {
    seq(32 - a, i requires 0 <= i < 32 - a => Push(a + i))
  }

  lemma {:induction false} PushesEffect(p: seq<Instr>, i: nat, a: nat, m: Machine)
    requires m.Valid() && ProgramOk(p) && a <= 32 && |p| == i + 32 - a && 32 - a <= m.sp
    requires forall k :: i <= k < |p| ==> p[k] == Push(a + k - i)
    ensures SameButPc(Run(p, i, m),
                      m.(mem := Stacked(m.mem, m.sp, m.r[a..]), sp := m.sp - (32 - a)))
    decreases 32 - a
  {
    if a == 32 {
      assert Stacked(m.mem, m.sp, m.r[a..]) == m.mem;
    } else {
      PushesEffect(p, i + 1, a + 1, Exec1(p[i], m));
      StackedCons(m.mem, m.sp, m.r[a], m.r[a + 1..]);
      assert [m.r[a]] + m.r[a + 1..] == m.r[a..];
    }
  }

  // The 33 bytes that SAVE_CONTEXT pushes, first pushed first.
  function RegisterBytes(r: seq<Byte>, flags: Flags): (b: seq<Byte>)
    requires |r| == 32
    ensures |b| == 33
  {
    [r[0], SregByte(flags), r[1]] + r[2..]
  }

  function AfterSave(m: Machine): Machine
    requires m.Valid()
  {
    m.(mem := Stacked(m.mem, m.sp, RegisterBytes(m.r, m.flags)), sp := m.sp - 33,
       r := m.r[0 := SregByte(m.flags)][1 := 0], flags := LogicFlags(m.flags, 0))
  }

  // PUSH r0, IN r0,SREG, PUSH r0, PUSH r1, CLR r1.
  lemma SaveFirst(p: seq<Instr>, m: Machine) returns (m5: Machine)
    requires m.Valid() && 33 <= m.sp && ProgramOk(p) && |p| == 35
    requires p[0] == Push(0) && p[1] == In(0, SREG) && p[2] == Push(0) && p[3] == Push(1) && p[4] == Clr(1)
    ensures m5.Valid() && Run(p, 0, m) == Run(p, 5, m5)
    ensures m5 == Machine(m.r[0 := SregByte(m.flags)][1 := 0], LogicFlags(m.flags, 0), m5.pc, m.sp - 3,
                          m.mem[m.sp := m.r[0]][m.sp - 1 := SregByte(m.flags)][m.sp - 2 := m.r[1]])
  {
    hide Run, Step, SregByte, LogicFlags;
    var m1 := PushStep(p, 0, 0, m);
    var m2 := Next(p, 1, In(0, SREG), m1);
    hide Exec, Exec1;
    var m3 := PushStep(p, 2, 0, m2);
    var m4 := PushStep(p, 3, 1, m3);
    m5 := ClearStep(p, 4, 1, m4);
  }

  lemma ClearStep(p: seq<Instr>, i: nat, d: nat, m: Machine) returns (m': Machine)
    requires m.Valid() && ProgramOk(p) && i < |p| && p[i] == Clr(d)
    ensures d < 32 && m'.Valid() && Run(p, i, m) == Run(p, i + 1, m')
    ensures m' == m.(r := m.r[d := 0], flags := LogicFlags(m.flags, 0), pc := m'.pc)
  {
    hide Run, Step, LogicFlags;
    m' := Next(p, i, Clr(d), m);
  }

  lemma SaveRegistersRun(p: seq<Instr>, m: Machine)
    requires m.Valid() && 33 <= m.sp && ProgramOk(p) && |p| == 35
    requires p[0] == Push(0) && p[1] == In(0, SREG) && p[2] == Push(0) && p[3] == Push(1) && p[4] == Clr(1)
    requires forall k :: 5 <= k < |p| ==> p[k] == Push(k - 3)
    ensures SameButPc(Run(p, 0, m), AfterSave(m))
  {
    hide Run, Step, SregByte, LogicFlags, Exec, Exec1, RegisterBytes, Stacked;
    var m5 := SaveFirst(p, m);
    PushesEffect(p, 5, 2, m5);
    SavedBytes(m.mem, m.sp, m.r, m.flags);
    assert m5.r[2..] == m.r[2..];
  }

  lemma SaveRegistersEffect(p: seq<Instr>, m: Machine)
    requires m.Valid() && 33 <= m.sp && p == SAVE_REGISTERS
    ensures ProgramOk(p) && Closed(p)
    ensures SameButPc(Run(p, 0, m), AfterSave(m))
  {
    hide Run, Step, AfterSave;
    SaveRegistersShape(p);
    StraightCodeIsClosed(p);
    SaveRegistersRun(p, m);
  }

  // Five instructions, then the pushes of r2 to r31.
  predicate SaveShape(p: seq<Instr>) {
    && |p| == 35 && p[5..] == Pushes(2)
    && p[0] == Push(0) && p[1] == In(0, SREG) && p[2] == Push(0) && p[3] == Push(1) && p[4] == Clr(1)
  }

  lemma SaveRegistersShape(p: seq<Instr>)
    requires p == SAVE_REGISTERS
    ensures ProgramOk(p) && |p| == 35
    ensures p[0] == Push(0) && p[1] == In(0, SREG) && p[2] == Push(0) && p[3] == Push(1) && p[4] == Clr(1)
    ensures forall k :: 5 <= k < |p| ==> p[k] == Push(k - 3)
  {
    hide SaveShape, ProgramOk;
    SaveRegistersPushes(p);
    ShapeOk(p);
  }

  lemma SaveRegistersPushes(p: seq<Instr>)
    requires p == SAVE_REGISTERS
    ensures SaveShape(p)
  {
  }

  lemma ShapeOk(p: seq<Instr>)
    requires SaveShape(p)
    ensures ProgramOk(p) && |p| == 35
    ensures p[0] == Push(0) && p[1] == In(0, SREG) && p[2] == Push(0) && p[3] == Push(1) && p[4] == Clr(1)
    ensures forall k :: 5 <= k < |p| ==> p[k] == Push(k - 3)
  {
    assert forall k :: 5 <= k < |p| ==> p[k] == p[5..][k - 5];
  }

  lemma SavedBytes(mem: seq<Byte>, sp: int, r: seq<Byte>, flags: Flags)
    requires |r| == 32 && 33 <= sp < |mem|
    ensures Stacked(mem[sp := r[0]][sp - 1 := SregByte(flags)][sp - 2 := r[1]], sp - 3, r[2..])
         == Stacked(mem, sp, RegisterBytes(r, flags))
  {
    var s := SregByte(flags);
    var mem1 := mem[sp := r[0]];
    StackedCons(mem1[sp - 1 := s], sp - 2, r[1], r[2..]);
    StackedCons(mem1, sp - 1, s, [r[1]] + r[2..]);
    StackedCons(mem, sp, r[0], [s] + ([r[1]] + r[2..]));
    assert [r[0]] + ([s] + ([r[1]] + r[2..])) == RegisterBytes(r, flags);
  }

  // ----- pointer registers -----

  lemma LoadX(p: seq<Instr>, i: nat, w: Word, m: Machine) returns (m': Machine)
    requires m.Valid() && ProgramOk(p) && i + 2 <= |p| && p[i] == Ldi(26, Lo(w)) && p[i + 1] == Ldi(27, Hi(w))
    ensures m'.Valid() && Run(p, i, m) == Run(p, i + 2, m') && X(m') == w
    ensures m' == m.(r := m.r[26 := m'.r[26]][27 := m'.r[27]], pc := m'.pc)
  {
    hide Run, Step, Lo, Hi;
    var m1 := Next(p, i, Ldi(26, Lo(w)), m);
    m' := Next(p, i + 1, Ldi(27, Hi(w)), m1);
    WordBytes(w);
  }

  lemma LoadXInc(p: seq<Instr>, i: nat, d: nat, x: Word, m: Machine) returns (m': Machine)
    requires m.Valid() && ProgramOk(p) && i < |p| && p[i] == LdXInc(d) && d != 26 && d != 27 && X(m) == x < 0xFFFF
    ensures m'.Valid() && Run(p, i, m) == Run(p, i + 1, m') && X(m') == x + 1 && d < 32
    ensures m' == m.(r := m.r[26 := m'.r[26]][27 := m'.r[27]][d := m.mem[x]], pc := m'.pc)
  {
    hide Run, Step, Lo, Hi;
    m' := Next(p, i, LdXInc(d), m);
    WordBytes(x + 1);
  }

  lemma StoreXInc(p: seq<Instr>, i: nat, d: nat, x: Word, m: Machine) returns (m': Machine)
    requires m.Valid() && ProgramOk(p) && i < |p| && p[i] == StXInc(d) && d < 26 && X(m) == x < 0xFFFF
    ensures m'.Valid() && Run(p, i, m) == Run(p, i + 1, m') && X(m') == x + 1
    ensures m' == m.(r := m.r[26 := m'.r[26]][27 := m'.r[27]], mem := m.mem[x := m.r[d]], pc := m'.pc)
  {
    hide Run, Step, Lo, Hi;
    m' := Next(p, i, StXInc(d), m);
    WordBytes(x + 1);
  }

  lemma LoadZ(p: seq<Instr>, i: nat, w: Word, m: Machine) returns (m': Machine)
    requires m.Valid() && ProgramOk(p) && i + 2 <= |p| && p[i] == Ldi(30, Lo(w)) && p[i + 1] == Ldi(31, Hi(w))
    ensures m'.Valid() && Run(p, i, m) == Run(p, i + 2, m') && Z(m') == w
    ensures m' == m.(r := m.r[30 := m'.r[30]][31 := m'.r[31]], pc := m'.pc)
  {
    hide Run, Step, Lo, Hi;
    var m1 := Next(p, i, Ldi(30, Lo(w)), m);
    m' := Next(p, i + 1, Ldi(31, Hi(w)), m1);
    WordBytes(w);
  }

  lemma LoadZInc(p: seq<Instr>, i: nat, d: nat, z: Word, m: Machine) returns (m': Machine)
    requires m.Valid() && ProgramOk(p) && i < |p| && p[i] == LdZInc(d) && d < 30 && Z(m) == z < 0xFFFF
    ensures m'.Valid() && Run(p, i, m) == Run(p, i + 1, m') && Z(m') == z + 1
    ensures m' == m.(r := m.r[30 := m'.r[30]][31 := m'.r[31]][d := m.mem[z]], pc := m'.pc)
  {
    hide Run, Step, Lo, Hi;
    m' := Next(p, i, LdZInc(d), m);
    WordBytes(z + 1);
  }

  lemma StoreZInc(p: seq<Instr>, i: nat, d: nat, z: Word, m: Machine) returns (m': Machine)
    requires m.Valid() && ProgramOk(p) && i < |p| && p[i] == StZInc(d) && d < 30 && Z(m) == z < 0xFFFF
    ensures m'.Valid() && Run(p, i, m) == Run(p, i + 1, m') && Z(m') == z + 1
    ensures m' == m.(r := m.r[30 := m'.r[30]][31 := m'.r[31]], mem := m.mem[z := m.r[d]], pc := m'.pc)
  {
    hide Run, Step, Lo, Hi;
    m' := Next(p, i, StZInc(d), m);
    WordBytes(z + 1);
  }

  // ST X, ST -X and ST Z.
  lemma StorePointer(p: seq<Instr>, i: nat, d: nat, a: Word, m: Machine) returns (m': Machine)
    requires m.Valid() && ProgramOk(p) && i < |p| && d < 26
    requires (p[i] == StX(d) && X(m) == a) || (p[i] == StXDec(d) && X(m) == a + 1) || (p[i] == StZ(d) && Z(m) == a)
    ensures m'.Valid() && Run(p, i, m) == Run(p, i + 1, m')
    ensures m' == m.(r := m.r[26 := m'.r[26]][27 := m'.r[27]], mem := m.mem[a := m.r[d]], pc := m'.pc)
    ensures !p[i].StXDec? ==> m'.r == m.r
  {
    hide Run, Step, Lo, Hi;
    m' := Next(p, i, p[i], m);
    assert p[i].StXDec? ==> Dec(X(m)) == a;
  }

  // ----- the other pieces of a switch -----

  // m' differs from m at most in scratch registers, flags and program counter, apart from mem and sp.
  predicate Moves(m: Machine, m': Machine, mem: seq<Byte>, sp: int)
    requires m.Valid() && m'.Valid()
  {
    m'.mem == mem && m'.sp == sp && m'.r[1] == m.r[1]
  }

  lemma SaveSpEffect(p: seq<Instr>, adr: Word, m: Machine)
    requires m.Valid() && adr < 0xFFFE && p == SaveSpToAdr(adr)
    ensures ProgramOk(p) && Closed(p)
    ensures Moves(m, Run(p, 0, m), WriteWord(m.mem, adr, m.sp), m.sp)
  {
    hide Run, Step, Lo, Hi, X;
    SaveSpRun(p, adr, m);
  }

  lemma SaveSpRun(p: seq<Instr>, adr: Word, m: Machine)
    requires m.Valid() && adr < 0xFFFE && |p| == 6 && ProgramOk(p)
    requires p[0] == Ldi(26, Lo(adr)) && p[1] == Ldi(27, Hi(adr)) && p[2] == In(16, SPL) && p[3] == StXInc(16)
    requires p[4] == In(16, SPH) && p[5] == StXInc(16)
    ensures Moves(m, Run(p, 0, m), WriteWord(m.mem, adr, m.sp), m.sp)
  {
    hide Run, Step, Lo, Hi, Exec, Exec1;
    var m2 := LoadX(p, 0, adr, m);
    var m3 := ReadSp(p, 2, 16, SPL, m2);
    var m4 := StoreXInc(p, 3, 16, adr, m3);
    var m5 := ReadSp(p, 4, 16, SPH, m4);
    var m6 := StoreXInc(p, 5, 16, adr + 1, m5);
    RunEnd(p, m6);
  }

  lemma RunEnd(p: seq<Instr>, m: Machine)
    requires m.Valid() && ProgramOk(p)
    ensures Run(p, |p|, m) == m
  {
  }

  // TIMSK1 with the multitasking bit set and cleared; the other bits stay.
  function WithMt(mask: Byte): Byte { if mask / 2 % 2 == 1 then mask else mask + 2 }
  function WithoutMt(mask: Byte): Byte { if mask / 2 % 2 == 1 then mask - 2 else mask }

  lemma {:induction false} OrWithZero(a: nat)
    ensures BitOr(a, 0) == a
    decreases a
  {
    if a > 0 {
      OrWithZero(a / 2);
    }
  }

  lemma {:induction false} AndWithOnes(a: nat, n: nat)
    requires a < Pow2(n)
    ensures BitAnd(a, Pow2(n) - 1) == a
    decreases n
  {
    if n > 0 {
      AndWithOnes(a / 2, n - 1);
      assert (Pow2(n) - 1) / 2 == Pow2(n - 1) - 1;
    }
  }

  lemma OriSetsTheBit(a: Byte)
    ensures OrByte(a, OCIE1A_MASK) == WithMt(a)
  {
    hide BitOr;
    OrWithZero(a / 2 / 2);
    BitOrStep(a, 2);
    BitOrStep(a / 2, 1);
    assert a == a % 2 + 2 * (a / 2 % 2) + 4 * (a / 2 / 2);
  }

  lemma AndiClearsTheBit(a: Byte)
    ensures AndByte(a, 255 - OCIE1A_MASK) == WithoutMt(a)
  {
    hide BitAnd;
    assert Pow2(6) == 64;
    AndWithOnes(a / 2 / 2, 6);
    BitAndStep(a, 253);
    BitAndStep(a / 2, 126);
    assert a == a % 2 + 2 * (a / 2 % 2) + 4 * (a / 2 / 2);
  }

  // SCILENT_DISABLE_MT and SCILENT_ENABLE_MT: one scratch byte below the stack, the timer mask, and flags.
  function AfterMt(m: Machine, mask: Byte): Machine
    requires m.Valid()
  {
    m.(mem := m.mem[m.sp := m.r[16]][TIMSK1 := mask], flags := LogicFlags(m.flags, mask))
  }

  lemma DisableMtRun(p: seq<Instr>, m: Machine)
    requires m.Valid() && TIMSK1 < m.sp && |p| == 5 && ProgramOk(p)
    requires p[0] == Push(16) && p[1] == Lds(16, TIMSK1) && p[2] == Andi(16, 255 - OCIE1A_MASK)
    requires p[3] == Sts(TIMSK1, 16) && p[4] == Pop(16)
    ensures SameButPc(Run(p, 0, m), AfterMt(m, WithoutMt(m.mem[TIMSK1])))
  {
    hide Run, Step, AndByte, WithoutMt, LogicFlags, AdvancePc;
    AndiClearsTheBit(m.mem[TIMSK1]);
    var m1 := Next(p, 0, Push(16), m);
    var m2 := Next(p, 1, Lds(16, TIMSK1), m1);
    var m3 := Next(p, 2, Andi(16, 255 - OCIE1A_MASK), m2);
    var m4 := Next(p, 3, Sts(TIMSK1, 16), m3);
    var m5 := Next(p, 4, Pop(16), m4);
    assert m5.r == m.r;
    RunEnd(p, m5);
  }

  lemma DisableMtEffect(p: seq<Instr>, m: Machine)
    requires m.Valid() && TIMSK1 < m.sp && p == DISABLE_MT
    ensures ProgramOk(p) && Closed(p)
    ensures SameButPc(Run(p, 0, m), AfterMt(m, WithoutMt(m.mem[TIMSK1])))
  {
    hide Run, Step, AfterMt, WithoutMt;
    DisableMtRun(p, m);
  }

  lemma EnableMtRun(p: seq<Instr>, m: Machine)
    requires m.Valid() && TIMSK1 < m.sp && |p| == 5 && ProgramOk(p)
    requires p[0] == Push(16) && p[1] == Lds(16, TIMSK1) && p[2] == Ori(16, OCIE1A_MASK)
    requires p[3] == Sts(TIMSK1, 16) && p[4] == Pop(16)
    ensures SameButPc(Run(p, 0, m), AfterMt(m, WithMt(m.mem[TIMSK1])))
  {
    hide Run, Step, OrByte, WithMt, LogicFlags, AdvancePc;
    OriSetsTheBit(m.mem[TIMSK1]);
    var m1 := Next(p, 0, Push(16), m);
    var m2 := Next(p, 1, Lds(16, TIMSK1), m1);
    var m3 := Next(p, 2, Ori(16, OCIE1A_MASK), m2);
    var m4 := Next(p, 3, Sts(TIMSK1, 16), m3);
    var m5 := Next(p, 4, Pop(16), m4);
    assert m5.r == m.r;
    RunEnd(p, m5);
  }

  lemma EnableMtEffect(p: seq<Instr>, m: Machine)
    requires m.Valid() && TIMSK1 < m.sp && p == ENABLE_MT
    ensures ProgramOk(p) && Closed(p)
    ensures SameButPc(Run(p, 0, m), AfterMt(m, WithMt(m.mem[TIMSK1])))
  {
    hide Run, Step, AfterMt, WithMt;
    EnableMtRun(p, m);
  }

  // The stack pointer that SELECT_SCHEDULED_TASK_OR_SCHEDULER chooses.
  function Chosen(mem: seq<Byte>): Word
    requires |mem| == 0x10000
  {
    if ReadWord(mem, NEXT_TASK_SP) != 0 then ReadWord(mem, NEXT_TASK_SP) else ReadWord(mem, SCHEDULER_TASK_SP)
  }

  function AfterSelect(mem: seq<Byte>): (mem': seq<Byte>)
    requires |mem| == 0x10000
    ensures |mem'| == 0x10000
  {
    WriteWord(WriteWord(mem, TASK_SP, Chosen(mem)), NEXT_TASK_SP, 0)
  }

  // Puts the word at next_task_sp in r17:r16 and its OR in r18.
  predicate Loaded(m: Machine, m': Machine)
    requires m.Valid() && m'.Valid()
  {
    && Moves(m, m', m.mem, m.sp) && X(m') == NEXT_TASK_SP + 1
    && Word16(m'.r[16], m'.r[17]) == ReadWord(m.mem, NEXT_TASK_SP)
    && (m'.r[18] == 0 <==> ReadWord(m.mem, NEXT_TASK_SP) == 0)
  }

  lemma SelectLoadRun(p: seq<Instr>, m: Machine)
    requires m.Valid() && |p| == 6 && ProgramOk(p)
    requires p[0] == Ldi(26, Lo(NEXT_TASK_SP)) && p[1] == Ldi(27, Hi(NEXT_TASK_SP)) && p[2] == LdXInc(16)
    requires p[3] == LdX(17) && p[4] == Mov(18, 16) && p[5] == Or(18, 17)
    ensures Loaded(m, Run(p, 0, m))
  {
    hide Run, Step, Lo, Hi, Exec, Exec1;
    var m2 := LoadX(p, 0, NEXT_TASK_SP, m);
    var m3 := LoadXInc(p, 2, 16, NEXT_TASK_SP, m2);
    var m4 := LoadXHere(p, 3, 17, m3);
    var m6 := MoveOr(p, 4, 18, 16, 17, m4);
    RunEnd(p, m6);
  }

  lemma SelectLoadEffect(p: seq<Instr>, m: Machine)
    requires m.Valid() && p == SELECT_LOAD
    ensures ProgramOk(p) && Closed(p) && Loaded(m, Run(p, 0, m))
  {
    hide Run, Step, Lo, Hi, Loaded;
    SelectLoadRun(p, m);
  }

  predicate BranchCode(p: seq<Instr>) {
    && |p| == 6 && ProgramOk(p)
    && p[0] == Cpse(18, 1) && p[1] == Rjmp(4)
    && p[2] == Ldi(30, Lo(SCHEDULER_TASK_SP)) && p[3] == Ldi(31, Hi(SCHEDULER_TASK_SP))
    && p[4] == LdZInc(16) && p[5] == LdZ(17)
  }

  // Replaces r17:r16 by the word at scheduler_task_sp unless a task is scheduled.
  lemma SelectBranchRun(p: seq<Instr>, m0: Machine, m: Machine)
    requires m0.Valid() && m.Valid() && Loaded(m0, m) && m.r[1] == 0 && BranchCode(p)
    ensures var m' := Run(p, 0, m);
            && Moves(m, m', m.mem, m.sp) && X(m') == X(m) && Word16(m'.r[16], m'.r[17]) == Chosen(m.mem)
  {
    hide Run, Step, Lo, Hi;
    if m.r[18] == 0 {
      TakeScheduler(p, m);
    } else {
      var m1 := NoSkip(p, 0, m);
      var m2 := Jump(p, 1, 4, m1);
      RunEnd(p, m2);
    }
  }

  lemma TakeScheduler(p: seq<Instr>, m: Machine)
    requires m.Valid() && m.r[1] == 0 == m.r[18] && BranchCode(p)
    ensures var m' := Run(p, 0, m);
            && Moves(m, m', m.mem, m.sp) && X(m') == X(m)
            && Word16(m'.r[16], m'.r[17]) == ReadWord(m.mem, SCHEDULER_TASK_SP)
  {
    hide Run, Step, Lo, Hi, Exec, Exec1, Z;
    var m1 := Skip(p, 0, m);
    var m2 := LoadZ(p, 2, SCHEDULER_TASK_SP, m1);
    var m3 := LoadZInc(p, 4, 16, SCHEDULER_TASK_SP, m2);
    var m4 := LoadHere(p, 5, 17, SCHEDULER_TASK_SP + 1, m3);
    RunEnd(p, m4);
  }

  lemma LoadHere(p: seq<Instr>, i: nat, d: nat, z: Word, m: Machine) returns (m': Machine)
    requires m.Valid() && ProgramOk(p) && i < |p| && p[i] == LdZ(d) && d < 32 && Z(m) == z
    ensures m'.Valid() && Run(p, i, m) == Run(p, i + 1, m') && m' == m.(r := m.r[d := m.mem[z]], pc := m'.pc)
  {
    hide Run, Step;
    m' := Next(p, i, LdZ(d), m);
  }

  lemma SelectBranchEffect(p: seq<Instr>, m0: Machine, m: Machine)
    requires m0.Valid() && m.Valid() && Loaded(m0, m) && m.r[1] == 0 && p == SELECT_BRANCH
    ensures ProgramOk(p) && Closed(p)
    ensures var m' := Run(p, 0, m);
            && Moves(m, m', m.mem, m.sp) && X(m') == X(m) && Word16(m'.r[16], m'.r[17]) == Chosen(m.mem)
  {
    hide Run, Step, Lo, Hi, Loaded, Chosen;
    SelectBranchRun(p, m0, m);
  }

  // Stores r17:r16 at task_sp and clears next_task_sp.
  lemma SelectStoreRun(p: seq<Instr>, m: Machine)
    requires m.Valid() && |p| == 6 && ProgramOk(p)
    requires p[0] == Ldi(30, Lo(TASK_SP)) && p[1] == Ldi(31, Hi(TASK_SP)) && p[2] == StZInc(16)
    requires p[3] == StZ(17) && p[4] == StX(1) && p[5] == StXDec(1)
    requires X(m) == NEXT_TASK_SP + 1 && m.r[1] == 0
    ensures Moves(m, Run(p, 0, m),
                  m.mem[TASK_SP := m.r[16]][TASK_SP + 1 := m.r[17]][NEXT_TASK_SP + 1 := 0][NEXT_TASK_SP := 0], m.sp)
  {
    hide Run, Step, Lo, Hi, Exec, Exec1;
    var m2 := LoadZ(p, 0, TASK_SP, m);
    var m3 := StoreZInc(p, 2, 16, TASK_SP, m2);
    var m4 := StorePointer(p, 3, 17, TASK_SP + 1, m3);
    var m5 := StorePointer(p, 4, 1, NEXT_TASK_SP + 1, m4);
    var m6 := StorePointer(p, 5, 1, NEXT_TASK_SP, m5);
    RunEnd(p, m6);
  }

  lemma SelectStoreEffect(p: seq<Instr>, m: Machine)
    requires m.Valid() && p == SELECT_STORE && X(m) == NEXT_TASK_SP + 1 && m.r[1] == 0
    ensures ProgramOk(p) && Closed(p)
    ensures Moves(m, Run(p, 0, m),
                  m.mem[TASK_SP := m.r[16]][TASK_SP + 1 := m.r[17]][NEXT_TASK_SP + 1 := 0][NEXT_TASK_SP := 0], m.sp)
  {
    hide Run, Step, Lo, Hi;
    SelectStoreRun(p, m);
  }

  lemma SelectedMemory(mem: seq<Byte>, lo: Byte, hi: Byte)
    requires |mem| == 0x10000 && Chosen(mem) == Word16(lo, hi)
    ensures mem[TASK_SP := lo][TASK_SP + 1 := hi][NEXT_TASK_SP + 1 := 0][NEXT_TASK_SP := 0] == AfterSelect(mem)
  {
    assert Lo(Word16(lo, hi)) == lo && Hi(Word16(lo, hi)) == hi;
  }

  /** The switch goes to the scheduled task if there is one and to the scheduler otherwise, and unschedules it. */
  lemma SelectEffect(p: seq<Instr>, m: Machine)
    requires m.Valid() && m.r[1] == 0 && p == SELECT_SCHEDULED_TASK_OR_SCHEDULER
    ensures ProgramOk(p) && Closed(p)
    ensures Moves(m, Run(p, 0, m), AfterSelect(m.mem), m.sp)
  {
    hide Run, Step, Lo, Hi, AfterSelect, Chosen, Word16, ReadWord, Closed, ProgramOk;
    SelectLoadEffect(SELECT_LOAD, m);
    var m1 := Run(SELECT_LOAD, 0, m);
    SelectBranchEffect(SELECT_BRANCH, m, m1);
    var m2 := Run(SELECT_BRANCH, 0, m1);
    SelectStoreEffect(SELECT_STORE, m2);
    RunAppend(SELECT_BRANCH, SELECT_STORE, 0, m1);
    RunAppend(SELECT_LOAD, SELECT_BRANCH + SELECT_STORE, 0, m);
    ClosedAppend(SELECT_BRANCH, SELECT_STORE);
    ClosedAppend(SELECT_LOAD, SELECT_BRANCH + SELECT_STORE);
    SelectedMemory(m.mem, m2.r[16], m2.r[17]);
  }

  lemma ResetTimerEffect(p: seq<Instr>, m: Machine)
    requires m.Valid() && m.r[1] == 0 && p == RESET_TIMER
    ensures ProgramOk(p) && Closed(p)
    ensures Moves(m, Run(p, 0, m), m.mem[0x65 := 0][0x64 := 0], m.sp)
  {
    hide Run, Step;
    var m1 := Next(p, 0, Sts(0x65, 1), m);
    var m2 := Next(p, 1, Sts(0x64, 1), m1);
    RunEnd(p, m2);
  }

  lemma SetSpEffect(p: seq<Instr>, m: Machine)
    requires m.Valid() && p == SET_SP
    ensures ProgramOk(p) && Closed(p)
    ensures Moves(m, Run(p, 0, m), m.mem, ReadWord(m.mem, TASK_SP))
  {
    hide Run, Step, Lo, Hi, ReadWord;
    SetSpRun(p, m);
  }

  lemma SetSpRun(p: seq<Instr>, m: Machine)
    requires m.Valid() && |p| == 6 && ProgramOk(p)
    requires p[0] == Ldi(26, Lo(TASK_SP)) && p[1] == Ldi(27, Hi(TASK_SP)) && p[2] == LdXInc(30)
    requires p[3] == LdXInc(31) && p[4] == Out(SPL, 30) && p[5] == Out(SPH, 31)
    ensures Moves(m, Run(p, 0, m), m.mem, ReadWord(m.mem, TASK_SP))
  {
    hide Run, Step, Lo, Hi, X, Z, Exec, Exec1, Word16, ReadWord;
    var m2 := LoadX(p, 0, TASK_SP, m);
    var m3 := LoadXInc(p, 2, 30, TASK_SP, m2);
    var m4 := LoadXInc(p, 3, 31, TASK_SP + 1, m3);
    var m5 := WriteSpLow(p, 4, 30, m4);
    var m6 := WriteSpHigh(p, 5, 31, m5);
    RunEnd(p, m6);
    WordRead(m.mem, TASK_SP);
    HighByteWins(m4.r[30], m4.r[31], m4.sp);
  }

  // Writing the low and then the high byte of a word replaces it, whatever it was.
  lemma HighByteWins(lo: Byte, hi: Byte, w: Word)
    ensures Word16(Lo(Word16(lo, Hi(w))), hi) == Word16(lo, hi)
  {
    LowByteOf(lo, Hi(w));
  }

  lemma LowByteOf(l: int, h: int)
    requires 0 <= l < 256
    ensures (l + 256 * h) % 256 == l
  {
    assert (l + 256 * h) / 256 == h;
  }

  // ----- restoring the registers -----

  // r0 to r31 and the status register as the frame below p keeps them.
  function FrameRegs(mem: seq<Byte>, p: int): (r: seq<Byte>)
    requires 0 <= p && p + 33 < |mem|
    ensures |r| == 32
  {
    seq(32, k requires 0 <= k < 32 => if k == 0 then mem[p + 33] else mem[p + 32 - k])
  }

  function FrameFlags(mem: seq<Byte>, p: int): Flags
    requires 0 <= p && p + 33 < |mem|
  {
    SregFlags(mem[p + 32])
  }

  lemma RestoreSpEffect(p: seq<Instr>, m: Machine)
    requires m.Valid() && p == RESTORE_SP
    ensures ProgramOk(p) && Closed(p)
    ensures var m' := Run(p, 0, m); m'.mem == m.mem && m'.sp == ReadWord(m.mem, TASK_SP)
  {
    hide Run, Step, Lo, Hi, ReadWord;
    RestoreSpRun(p, m);
  }

  lemma SameX(m: Machine, m': Machine)
    requires m.Valid() && m'.Valid() && m'.r == m.r
    ensures X(m') == X(m)
  {
  }

  lemma RestoreSpRun(p: seq<Instr>, m: Machine)
    requires m.Valid() && |p| == 6 && ProgramOk(p)
    requires p[0] == Ldi(26, Lo(TASK_SP)) && p[1] == Ldi(27, Hi(TASK_SP)) && p[2] == LdXInc(28)
    requires p[3] == Out(SPL, 28) && p[4] == LdXInc(29) && p[5] == Out(SPH, 29)
    ensures var m' := Run(p, 0, m); m'.mem == m.mem && m'.sp == ReadWord(m.mem, TASK_SP)
  {
    hide Run, Step, Lo, Hi, X, Z, Exec, Exec1, Word16, ReadWord;
    var m2 := LoadX(p, 0, TASK_SP, m);
    var m3 := LoadXInc(p, 2, 28, TASK_SP, m2);
    var m4 := WriteSpLow(p, 3, 28, m3);
    SameX(m3, m4);
    var m5 := LoadXInc(p, 4, 29, TASK_SP + 1, m4);
    var m6 := WriteSpHigh(p, 5, 29, m5);
    RunEnd(p, m6);
    WordRead(m.mem, TASK_SP);
    HighByteWins(m3.r[28], m5.r[29], m3.sp);
  }

  // k pops take r[k] down to r[1] off the stack.
  lemma {:induction false} PopsRun(p: seq<Instr>, i: nat, k: nat, m: Machine)
    requires m.Valid() && ProgramOk(p) && k < 32 && |p| == i + k && m.sp + k < 0x10000
    requires forall j :: i <= j < |p| ==> p[j] == Pop(k + i - j)
    ensures var m' := Run(p, i, m);
            && m' == m.(r := m'.r, sp := m.sp + k, pc := m'.pc)
            && (forall j :: 1 <= j <= k ==> m'.r[j] == m.mem[m.sp + 1 + k - j])
            && forall j :: k < j < 32 ==> m'.r[j] == m.r[j]
    decreases k
  {
    if k > 0 {
      hide Run, Exec, Exec1, Step;
      var m1 := PopStep(p, i, k, m);
      PopsRun(p, i + 1, k - 1, m1);
    }
  }

  lemma RestoreRegistersShape(p: seq<Instr>)
    requires p == RESTORE_REGISTERS
    ensures ProgramOk(p) && |p| == 31 && forall j :: 0 <= j < 31 ==> p[j] == Pop(31 - j)
  {
  }

  lemma RestoreSregEffect(p: seq<Instr>, m: Machine)
    requires m.Valid() && p == RESTORE_SREG && m.sp + 2 < 0x10000
    ensures ProgramOk(p) && Closed(p)
    ensures SameButPc(Run(p, 0, m), m.(r := m.r[0 := m.mem[m.sp + 2]], sp := m.sp + 2,
                                       flags := SregFlags(m.mem[m.sp + 1])))
  {
    hide Run, Step, SregFlags;
    RestoreSregRun(p, m);
  }

  lemma RestoreSregRun(p: seq<Instr>, m: Machine)
    requires m.Valid() && |p| == 3 && ProgramOk(p) && m.sp + 2 < 0x10000
    requires p[0] == Pop(0) && p[1] == Out(SREG, 0) && p[2] == Pop(0)
    ensures SameButPc(Run(p, 0, m), m.(r := m.r[0 := m.mem[m.sp + 2]], sp := m.sp + 2,
                                       flags := SregFlags(m.mem[m.sp + 1])))
  {
    hide Run, Step, Exec, Exec1, SregFlags;
    var m1 := PopStep(p, 0, 0, m);
    var m2 := WriteSreg(p, 1, 0, m1);
    var m3 := PopStep(p, 2, 0, m2);
    RunEnd(p, m3);
  }

  function Restored(m: Machine): (m': Machine)
    requires m.Valid() && ReadWord(m.mem, TASK_SP) + 33 < 0x10000
    ensures m'.Valid()
  {
    var t := ReadWord(m.mem, TASK_SP);
    m.(r := FrameRegs(m.mem, t), flags := FrameFlags(m.mem, t), sp := t + 33)
  }

  lemma RestoreRegistersEffect(p: seq<Instr>, m: Machine)
    requires m.Valid() && m.sp + 33 < 0x10000 && p == RESTORE_REGISTERS
    ensures ProgramOk(p) && Closed(p)
    ensures var m' := Run(p, 0, m);
            && m' == m.(r := m'.r, sp := m.sp + 31, pc := m'.pc)
            && m'.r[0 := m.mem[m.sp + 33]] == FrameRegs(m.mem, m.sp)
  {
    hide Run, Step;
    RestoreRegistersShape(p);
    StraightCodeIsClosed(p);
    PopsRun(p, 0, 31, m);
  }

  lemma RestorePops(m: Machine)
    requires m.Valid() && m.sp + 33 < 0x10000
    ensures var p := RESTORE_REGISTERS + RESTORE_SREG;
            && ProgramOk(p) && Closed(p)
            && SameButPc(Run(p, 0, m), m.(r := FrameRegs(m.mem, m.sp), sp := m.sp + 33,
                                         flags := FrameFlags(m.mem, m.sp)))
  {
    hide Run, Step, SregFlags, ProgramOk, Closed, FrameRegs;
    RestoreRegistersEffect(RESTORE_REGISTERS, m);
    RestoreSregEffect(RESTORE_SREG, Run(RESTORE_REGISTERS, 0, m));
    RunAppend(RESTORE_REGISTERS, RESTORE_SREG, 0, m);
    ClosedAppend(RESTORE_REGISTERS, RESTORE_SREG);
  }

  lemma RestoreEffect(p: seq<Instr>, m: Machine)
    requires m.Valid() && p == RESTORE_CONTEXT && ReadWord(m.mem, TASK_SP) + 33 < 0x10000
    ensures ProgramOk(p) && Closed(p)
    ensures SameButPc(Run(p, 0, m), Restored(m))
  {
    hide Run, Step, ReadWord, ProgramOk, Closed, FrameRegs, FrameFlags;
    RestoreSpEffect(RESTORE_SP, m);
    var m1 := Run(RESTORE_SP, 0, m);
    RestorePops(m1);
    RunAppend(RESTORE_SP, RESTORE_REGISTERS + RESTORE_SREG, 0, m);
    ClosedAppend(RESTORE_SP, RESTORE_REGISTERS + RESTORE_SREG);
  }
}
