/**
 SET_RETURN_POINT: plants a return address on the stack that leads to the JMP
 inside the macro itself.
 */
module ReturnPoint {
  import opened Layout
  import opened Avr
  import opened ContextSwitch
  import opened Switch

  // The address the RCALL pushes, and the one the macro replaces it by.
  function CallAddress(pc: int): int
    requires 0 <= pc < PC_SPACE
  {
    AdvancePc(pc, 1)
  }

  function PlantedAddress(pc: int): int
    requires 0 <= pc < PC_SPACE
  {
    AdvancePc(CallAddress(pc), 12)
  }

  // The flags after ADD low,12 and ADC of the carry into the other two bytes.
  function CarryFlags(f: Flags, a: int): (Flags, Flags, Flags) {
    var f1 := AddFlags(f, Lo(a), 12, 0);
    var f2 := AddFlags(f1, Hi(a), 0, Bit(f1.c));
    (f1, f2, AddFlags(f2, Lo(a / 0x10000), 0, Bit(f2.c)))
  }

  function PlantedRegs(r: seq<Byte>, planted: int): (r': seq<Byte>)
    requires |r| == 32
    ensures |r'| == 32
  {
    r[16 := Lo(planted / 0x10000)][17 := Hi(planted)][18 := Lo(planted)][19 := 0]
  }

  /** The machine after the macro, but for the program counter. */
  function Planted(m: Machine): (m': Machine)
    requires m.Valid() && 3 <= m.sp
    ensures m'.Valid()
  {
    m.(mem := Stacked(m.mem, m.sp, PcBytes(PlantedAddress(m.pc))), sp := m.sp - 3,
       r := PlantedRegs(m.r, PlantedAddress(m.pc)), flags := CarryFlags(m.flags, CallAddress(m.pc)).2)
  }

  lemma SplitPc(a: int) returns (lo: int, mid: int, hi: int)
    requires 0 <= a < PC_SPACE
    ensures lo == Lo(a) && mid == Hi(a) && hi == Lo(a / 0x10000)
    ensures a == lo + 0x100 * mid + 0x10000 * hi
  {
    lo, mid, hi := Lo(a), Hi(a), Lo(a / 0x10000);
    PcRoundTrip(a);
  }

  lemma JoinPc(lo: Byte, mid: Byte, hi: Byte)
    ensures var a := PcOf(lo, mid, hi); Lo(a) == lo && Hi(a) == mid && Lo(a / 0x10000) == hi
  {
    var a := PcOf(lo, mid, hi);
    assert a / 0x100 == mid + 0x100 * hi;
    assert a / 0x10000 == hi;
  }

  /** Byte-wise addition with carry is addition modulo 2^24, for every address. */
  lemma CarryPropagates(f: Flags, a: int)
    requires 0 <= a < PC_SPACE
    ensures var (f1, f2, _) := CarryFlags(f, a);
            var b := AdvancePc(a, 12);
            && Lo(b) == Sum8(Lo(a), 12, 0)
            && Hi(b) == Sum8(Hi(a), 0, Bit(f1.c))
            && Lo(b / 0x10000) == Sum8(Lo(a / 0x10000), 0, Bit(f2.c))
  {
    var lo, mid, hi := SplitPc(a);
    var (f1, f2, f3) := CarryFlags(f, a);
    assert f1.c == (lo + 12 >= 256) && f2.c == (mid + Bit(f1.c) >= 256);
    var lo', mid', hi' := Sum8(lo, 12, 0), Sum8(mid, 0, Bit(f1.c)), Sum8(hi, 0, Bit(f2.c));
    assert lo' == if f1.c then lo + 12 - 256 else lo + 12;
    assert mid' == if f2.c then 0 else mid + Bit(f1.c);
    assert hi' == if hi + Bit(f2.c) >= 256 then 0 else hi + Bit(f2.c);
    assert AdvancePc(a, 12) == PcOf(lo', mid', hi');
    JoinPc(lo', mid', hi');
  }

  /**
   The flags of the 24-bit addition of 12 to a, as ADC leaves them after the most
   significant byte: carry, sign and overflow are those of the whole sum, H is its
   carry out of bit 19, and Z looks at the most significant byte alone.
   */
  predicate SumFlags(f: Flags, f': Flags, a: int) {
    var b := (a + 12) % 0x1000000;
    && f'.i == f.i && f'.t == f.t
    && (f'.c <==> a + 12 >= 0x1000000) && (f'.z <==> b < 0x10000) && (f'.n <==> b >= 0x800000)
    && (f'.v <==> a < 0x800000 <= b) && (f'.s <==> f'.n != f'.v) && (f'.h <==> a % 0x100000 + 12 >= 0x100000)
  }

  lemma SumFlagsExact(f: Flags, a: int)
    requires 0 <= a < PC_SPACE
    ensures SumFlags(f, CarryFlags(f, a).2, a)
  {
    var lo, mid, hi := SplitPc(a);
    var (f1, f2, f3) := CarryFlags(f, a);
    var c1 := lo + 12 >= 256;
    var c2 := mid + (if c1 then 1 else 0) >= 256;
    assert f1.c == c1 && f2.c == c2;
    hide CarryFlags, Lo, Hi;
    SumCarries(a, lo, mid, hi);
    var carry := if c2 then 1 else 0;
    assert f3 == AddFlags(f2, hi, 0, carry) by { LastAdd(f, a); }
    LastFlags(f2, hi, carry);
  }

  // The carries of the sum, in terms of the whole address.
  lemma SumCarries(a: int, lo: int, mid: int, hi: int)
    requires 0 <= lo < 256 && 0 <= mid < 256 && 0 <= hi < 256 && a == lo + 0x100 * mid + 0x10000 * hi
    ensures var c2 := mid + (if lo + 12 >= 256 then 1 else 0) >= 256;
            var s := hi + (if c2 then 1 else 0);
            && (a + 12 >= 0x1000000 <==> s >= 256)
            && ((a + 12) % 0x1000000 < 0x10000 <==> s % 256 == 0)
            && ((a + 12) % 0x1000000 >= 0x800000 <==> s % 256 >= 128)
            && (a < 0x800000 <==> hi < 128)
            && (a % 0x100000 + 12 >= 0x100000 <==> hi % 16 + (if c2 then 1 else 0) >= 16)
  {
    var rest := lo + 0x100 * mid;
    assert a % 0x100000 == rest + 0x10000 * (hi % 16) by {
      assert hi == hi % 16 + 16 * (hi / 16);
      assert a == rest + 0x10000 * (hi % 16) + 0x100000 * (hi / 16);
    }
    if a + 12 >= 0x1000000 {
      assert (a + 12) % 0x1000000 == a + 12 - 0x1000000;
    }
  }

  lemma LastAdd(f: Flags, a: int)
    requires 0 <= a < PC_SPACE
    ensures var (_, f2, f3) := CarryFlags(f, a); f3 == AddFlags(f2, Lo(a / 0x10000), 0, if f2.c then 1 else 0)
  {
  }

  lemma LastFlags(f: Flags, hi: Byte, carry: Byte)
    requires carry <= 1
    ensures var f' := AddFlags(f, hi, 0, carry);
            var s := hi + carry;
            && f'.i == f.i && f'.t == f.t && (f'.c <==> s >= 256)
            && (f'.z <==> s % 256 == 0) && (f'.n <==> s % 256 >= 128)
            && (f'.v <==> hi < 128 <= s % 256) && (f'.s <==> f'.n != f'.v) && (f'.h <==> hi % 16 + carry >= 16)
  {
  }

  predicate MacroCode(p: seq<Instr>) {
    && |p| == 15
    && p[0] == Rcall0 && p[1] == Pop(16) && p[2] == Pop(17) && p[3] == Pop(18)
    && p[4] == Ldi(19, 12) && p[5] == Add(18, 19) && p[6] == Ldi(19, 0) && p[7] == Adc(17, 19) && p[8] == Adc(16, 19)
    && p[9] == Push(18) && p[10] == Push(17) && p[11] == Push(16)
    && p[12] == Cpse(1, 1) && p[13] == Jmp && p[14] == Nop
  }

  // RCALL .+0 and three pops: the pushed address in r18:r17:r16, least significant byte first.
  lemma CallAndPop(p: seq<Instr>, m: Machine) returns (m4: Machine)
    requires m.Valid() && 3 <= m.sp && ProgramOk(p) && |p| == 15
    requires p[0] == Rcall0 && p[1] == Pop(16) && p[2] == Pop(17) && p[3] == Pop(18)
    ensures var a := CallAddress(m.pc);
            && m4 == m.(r := m.r[16 := Lo(a / 0x10000)][17 := Hi(a)][18 := Lo(a)],
                        mem := Stacked(m.mem, m.sp, PcBytes(a)), pc := m4.pc)
            && m4.Valid() && Run(p, 0, m) == Run(p, 4, m4)
  {
    hide Run, Step, Lo, Hi, PushPc;
    var a := CallAddress(m.pc);
    PushPcEffect(m.(pc := a));
    var m1 := Next(p, 0, Rcall0, m);
    assert m1.mem == Stacked(m.mem, m.sp, PcBytes(a)) && m1.sp == m.sp - 3 && m1.r == m.r && m1.flags == m.flags;
    var m2 := Next(p, 1, Pop(16), m1);
    var m3 := Next(p, 2, Pop(17), m2);
    m4 := Next(p, 3, Pop(18), m3);
  }

  lemma AddTwelve(p: seq<Instr>, a: int, m: Machine) returns (m5: Machine)
    requires m.Valid() && ProgramOk(p) && |p| == 15 && 0 <= a < PC_SPACE
    requires p[4] == Ldi(19, 12) && p[5] == Add(18, 19) && p[6] == Ldi(19, 0)
    requires p[7] == Adc(17, 19) && p[8] == Adc(16, 19)
    requires m.r[16] == Lo(a / 0x10000) && m.r[17] == Hi(a) && m.r[18] == Lo(a)
    ensures m5 == m.(r := PlantedRegs(m.r, AdvancePc(a, 12)), flags := CarryFlags(m.flags, a).2, pc := m5.pc)
    ensures m5.Valid() && Run(p, 4, m) == Run(p, 9, m5)
  {
    hide Run, Step, Lo, Hi, AddFlags, Sum8, Exec, Exec1, PlantedRegs;
    PlantedSum(m.r, m.flags, a);
    var m1 := LdiStep(p, 4, 19, 12, m);
    var m2 := AddStep(p, 5, 18, 19, m1);
    var m3 := LdiStep(p, 6, 19, 0, m2);
    var m4 := AdcStep(p, 7, 17, 19, m3);
    m5 := AdcStep(p, 8, 16, 19, m4);
  }

  // What the five instructions write.
  lemma PlantedSum(r: seq<Byte>, f: Flags, a: int)
    requires |r| == 32 && 0 <= a < PC_SPACE && r[16] == Lo(a / 0x10000) && r[17] == Hi(a) && r[18] == Lo(a)
    ensures var (f1, f2, _) := CarryFlags(f, a);
            var r1 := r[19 := 12][18 := Sum8(r[18], 12, 0)];
            var r2 := r1[19 := 0][17 := Sum8(r[17], 0, Bit(f1.c))];
            r2[16 := Sum8(r[16], 0, Bit(f2.c))] == PlantedRegs(r, AdvancePc(a, 12))
  {
    CarryPropagates(f, a);
    hide CarryFlags, Lo, Hi, Sum8;
  }

  lemma LdiStep(p: seq<Instr>, i: nat, d: nat, k: Byte, m: Machine) returns (m': Machine)
    requires m.Valid() && ProgramOk(p) && i < |p| && p[i] == Ldi(d, k)
    ensures d < 32 && m'.Valid() && Run(p, i, m) == Run(p, i + 1, m') && m' == m.(r := m.r[d := k], pc := m'.pc)
  {
    hide Run, Step;
    m' := Next(p, i, Ldi(d, k), m);
  }

  lemma AddStep(p: seq<Instr>, i: nat, d: nat, s: nat, m: Machine) returns (m': Machine)
    requires m.Valid() && ProgramOk(p) && i < |p| && p[i] == Add(d, s)
    ensures d < 32 && s < 32 && m'.Valid() && Run(p, i, m) == Run(p, i + 1, m')
    ensures m' == m.(r := m.r[d := Sum8(m.r[d], m.r[s], 0)], flags := AddFlags(m.flags, m.r[d], m.r[s], 0), pc := m'.pc)
  {
    hide Run, Step, AddFlags, Sum8;
    m' := Next(p, i, Add(d, s), m);
  }

  lemma AdcStep(p: seq<Instr>, i: nat, d: nat, s: nat, m: Machine) returns (m': Machine)
    requires m.Valid() && ProgramOk(p) && i < |p| && p[i] == Adc(d, s)
    ensures d < 32 && s < 32 && m'.Valid() && Run(p, i, m) == Run(p, i + 1, m')
    ensures var c := Bit(m.flags.c);
            m' == m.(r := m.r[d := Sum8(m.r[d], m.r[s], c)], flags := AddFlags(m.flags, m.r[d], m.r[s], c), pc := m'.pc)
  {
    hide Run, Step, AddFlags, Sum8;
    m' := Next(p, i, Adc(d, s), m);
  }

  lemma PushPlanted(p: seq<Instr>, b: int, m: Machine) returns (m3: Machine)
    requires m.Valid() && 3 <= m.sp && ProgramOk(p) && |p| == 15
    requires p[9] == Push(18) && p[10] == Push(17) && p[11] == Push(16)
    requires m.r[16] == Lo(b / 0x10000) && m.r[17] == Hi(b) && m.r[18] == Lo(b)
    ensures m3 == m.(mem := Stacked(m.mem, m.sp, PcBytes(b)), sp := m.sp - 3, pc := m3.pc)
    ensures m3.Valid() && Run(p, 9, m) == Run(p, 12, m3)
  {
    hide Run, Step, Lo, Hi;
    var m1 := Next(p, 9, Push(18), m);
    var m2 := Next(p, 10, Push(17), m1);
    m3 := Next(p, 11, Push(16), m2);
    assert m3.mem == m.mem[m.sp := Lo(b)][m.sp - 1 := Hi(b)][m.sp - 2 := Lo(b / 0x10000)];
    assert m3.mem == Stacked(m.mem, m.sp, PcBytes(b));
  }

  /** The macro's listing; its JMP is 13 words from its start. */
  lemma MacroShape(p: seq<Instr>)
    requires p == SET_RETURN_POINT
    ensures ProgramOk(p) && MacroCode(p) && WordsOf(p[..13]) == 13
  {
    OneWordEach(p[..13]);
  }

  lemma {:induction false} OneWordEach(p: seq<Instr>)
    requires forall k :: 0 <= k < |p| ==> Words(p[k]) == 1
    ensures WordsOf(p) == |p|
  {
    if p != [] {
      OneWordEach(p[1..]);
    }
  }

  /**
   After the macro the stack holds the return address A + 12 (mod 2^24), where A
   is what the RCALL pushed. A + 12 is the address of the macro's JMP, and the
   normal order of execution goes on behind the macro.
   */
  lemma SetReturnPointEffect(p: seq<Instr>, m: Machine)
    requires m.Valid() && 3 <= m.sp && ProgramOk(p) && MacroCode(p) && WordsOf(p[..13]) == 13
    ensures SameButPc(Run(p, 0, m), Planted(m))
    ensures p[13] == Jmp && PlantedAddress(m.pc) == AdvancePc(m.pc, WordsOf(p[..13]))
    ensures SumFlags(m.flags, Run(p, 0, m).flags, CallAddress(m.pc))
  {
    hide Run, Step, Lo, Hi, CarryFlags, WordsOf, SumFlags;
    SumFlagsExact(m.flags, CallAddress(m.pc));
    var m4 := CallAndPop(p, m);
    var m9 := AddTwelve(p, CallAddress(m.pc), m4);
    var m12 := PushPlanted(p, PlantedAddress(m.pc), m9);
    var m14 := Skip(p, 12, m12);
    var m15 := Next(p, 14, Nop, m14);
    RunEnd(p, m15);
    PlantedMemory(m, m4.mem);
  }

  lemma PlantedMemory(m: Machine, mem: seq<Byte>)
    requires m.Valid() && 3 <= m.sp && mem == Stacked(m.mem, m.sp, PcBytes(CallAddress(m.pc)))
    ensures Stacked(mem, m.sp, PcBytes(PlantedAddress(m.pc))) == Planted(m).mem
  {
    hide Lo, Hi, CarryFlags;
  }

  /** The context that SET_RETURN_POINT and SAVE_CONTEXT save: it resumes at the macro's JMP. */
  function PlantedCore(c: Core): (c': Core)
    requires |c.r| == 32 && 0 <= c.pc < PC_SPACE
    ensures |c'.r| == 32 && 0 <= c'.pc < PC_SPACE && c'.sp == c.sp
  {
    Core(PlantedRegs(c.r, PlantedAddress(c.pc)), CarryFlags(c.flags, CallAddress(c.pc)).2, PlantedAddress(c.pc), c.sp)
  }

  lemma MacroOk()
    ensures ProgramOk(SET_RETURN_POINT) && ProgramOk(SAVE_CONTEXT)
  {
    hide ProgramOk, MacroCode, WordsOf;
    MacroShape(SET_RETURN_POINT);
    SaveRegistersShape(SAVE_REGISTERS);
    assert ProgramOk(SaveSpToAdr(TASK_SP)) by {
      SaveSpOk(SaveSpToAdr(TASK_SP), TASK_SP);
    }
    OkAppend(SAVE_REGISTERS, SaveSpToAdr(TASK_SP));
  }

  lemma SaveSpOk(p: seq<Instr>, adr: Word)
    requires p == SaveSpToAdr(adr)
    ensures ProgramOk(p)
  {
  }

  /** SET_RETURN_POINT followed by SAVE_CONTEXT, as spawn_task and start_scheduler use them. */
  function SavedWithReturnPoint(m: Machine): (m': Machine)
    requires m.Valid()
    ensures m'.Valid()
  {
    MacroOk();
    Run(SAVE_CONTEXT, 0, Run(SET_RETURN_POINT, 0, m))
  }

  lemma SavedWithReturnPointEffect(m: Machine)
    requires m.Valid() && FRAME_BYTES <= m.sp
    ensures SumFlags(m.flags, PlantedCore(CoreOf(m)).flags, CallAddress(m.pc))
    ensures var m' := SavedWithReturnPoint(m);
            && m'.sp == m.sp - FRAME_BYTES && m'.r[1] == 0
            && m'.mem == WriteWord(Stacked(m.mem, m.sp, FrameBytes(PlantedCore(CoreOf(m)))),
                                   TASK_SP, m.sp - FRAME_BYTES)
  {
    MacroOk();
    hide Run, Step, PlantedRegs, CarryFlags, PcBytes, RegisterBytes, WordsOf, Lo, Hi, MacroCode, SumFlags;
    SumFlagsExact(m.flags, CallAddress(m.pc));
    MacroShape(SET_RETURN_POINT);
    SetReturnPointEffect(SET_RETURN_POINT, m);
    var m1 := Run(SET_RETURN_POINT, 0, m);
    SaveContextEffect(m1);
    StackedAppend(m.mem, m.sp, PcBytes(PlantedAddress(m.pc)), RegisterBytes(m1.r, m1.flags));
  }
}
