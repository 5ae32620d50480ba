/**
 The part of an AVR core that the context-switch macros use: 32 registers, the
 status register, a stack pointer and byte-addressed data memory, with the
 instruction semantics of the AVR Instruction Set Manual (3-byte return
 addresses, as on the ATmega2560).
 */
module Avr {
  import opened Layout

  datatype Flags = Flags(i: bool, t: bool, h: bool, s: bool, v: bool, n: bool, z: bool, c: bool)

  datatype Machine = Machine(r: seq<Byte>, flags: Flags, pc: int, sp: int, mem: seq<Byte>)
  {
    ghost predicate Valid() {
      |r| == 32 && |mem| == 0x10000 && 0 <= sp < 0x10000 && 0 <= pc < PC_SPACE
    }
  }

  const PC_SPACE := 0x1000000

  datatype IoReg = SPL | SPH | SREG

  datatype Instr =
    | Push(d: nat) | Pop(d: nat)
    | In(d: nat, io: IoReg) | Out(io: IoReg, d: nat)
    | Clr(d: nat) | Ldi(d: nat, k: Byte) | Mov(d: nat, s: nat)
    | Add(d: nat, s: nat) | Adc(d: nat, s: nat)
    | Or(d: nat, s: nat) | Ori(d: nat, k: Byte) | Andi(d: nat, k: Byte)
    | Lds(d: nat, a: Word) | Sts(a: Word, d: nat)
    | LdXInc(d: nat) | LdX(d: nat) | StXInc(d: nat) | StX(d: nat) | StXDec(d: nat)
    | LdZInc(d: nat) | LdZ(d: nat) | StZInc(d: nat) | StZ(d: nat)
    | Cpse(d: nat, s: nat) | Rjmp(words: nat) | Jmp
    | Rcall0 | Nop | Cli | Sei | Ret | Reti

  predicate RegsOk(i: Instr) {
    match i
    case Mov(d, s) => d < 32 && s < 32
    case Add(d, s) => d < 32 && s < 32
    case Adc(d, s) => d < 32 && s < 32
    case Or(d, s) => d < 32 && s < 32
    case Cpse(d, s) => d < 32 && s < 32
    case Rjmp(k) => k < 0x800
    case Jmp => true
    case Rcall0 => true
    case Nop => true
    case Cli => true
    case Sei => true
    case Ret => true
    case Reti => true
    case _ => i.d < 32
  }

  // Size in 16-bit program words.
  function Words(i: Instr): nat {
    if i.Jmp? || i.Lds? || i.Sts? then 2 else 1
  }

  function WordsOf(p: seq<Instr>): nat {
    if p == [] then 0 else Words(p[0]) + WordsOf(p[1..])
  }

  // ----- bytes and words -----

  function Lo(w: int): Byte { w % 256 }
  function Hi(w: int): Byte { w / 256 % 256 }
  function Word16(lo: Byte, hi: Byte): Word { lo + 256 * hi }

  lemma WordBytes(w: Word)
    ensures Word16(Lo(w), Hi(w)) == w
  {
  }

  function ReadWord(mem: seq<Byte>, a: nat): Word
    requires a + 1 < |mem|
  {
    var lo: int, hi: int := mem[a], mem[a + 1];
    lo + 256 * hi
  }

  // A program counter from its three bytes.
  function PcOf(lo: int, mid: int, hi: int): int { lo + 0x100 * mid + 0x10000 * hi }

  function WriteWord(mem: seq<Byte>, a: nat, w: int): seq<Byte>
    requires a + 1 < |mem|
  {
    mem[a := Lo(w)][a + 1 := Hi(w)]
  }

  // Bitwise operations on numbers, bit by bit.
  function BitOr(a: nat, b: nat): (r: nat)
    decreases a + b
  {
    if a == 0 && b == 0 then 0
    else (if a % 2 == 1 || b % 2 == 1 then 1 else 0) + 2 * BitOr(a / 2, b / 2)
  }

  function BitAnd(a: nat, b: nat): (r: nat)
    decreases a + b
  {
    if a == 0 && b == 0 then 0
    else (if a % 2 == 1 && b % 2 == 1 then 1 else 0) + 2 * BitAnd(a / 2, b / 2)
  }

  lemma {:induction false} BitwiseBound(a: nat, b: nat, m: nat)
    requires a < Pow2(m) && b < Pow2(m)
    ensures BitOr(a, b) < Pow2(m) && BitAnd(a, b) < Pow2(m)
    decreases m
  {
    if m > 0 && (a > 0 || b > 0) {
      BitwiseBound(a / 2, b / 2, m - 1);
    }
  }

  function Pow2(m: nat): nat {
    if m == 0 then 1 else 2 * Pow2(m - 1)
  }

  lemma Pow2Of8()
    ensures Pow2(8) == 256
  {
    assert Pow2(4) == 16;
  }

  function OrByte(a: Byte, b: Byte): Byte {
    Pow2Of8();
    BitwiseBound(a, b, 8);
    BitOr(a, b)
  }

  function AndByte(a: Byte, b: Byte): Byte {
    Pow2Of8();
    BitwiseBound(a, b, 8);
    BitAnd(a, b)
  }

  lemma {:induction false} BitOrZero(a: nat, b: nat)
    ensures BitOr(a, b) == 0 <==> a == 0 && b == 0
    decreases a + b
  {
    if a != 0 || b != 0 {
      BitOrZero(a / 2, b / 2);
    }
  }

  lemma BitOrStep(a: nat, b: nat)
    ensures BitOr(a, b) / 2 == BitOr(a / 2, b / 2)
    ensures BitOr(a, b) % 2 == 1 <==> a % 2 == 1 || b % 2 == 1
  {
  }

  lemma BitAndStep(a: nat, b: nat)
    ensures BitAnd(a, b) / 2 == BitAnd(a / 2, b / 2)
    ensures BitAnd(a, b) % 2 == 1 <==> a % 2 == 1 && b % 2 == 1
  {
  }

  lemma OrByteZero(a: Byte, b: Byte)
    ensures OrByte(a, b) == 0 <==> a == 0 && b == 0
  {
    BitOrZero(a, b);
  }

  // ----- status register -----

  function Bit(b: bool): Byte { if b then 1 else 0 }

  // Least significant bit first.
  function FromBits(x: seq<bool>): (r: nat)
    ensures r < Pow2(|x|)
  {
    if x == [] then 0 else Bit(x[0]) + 2 * FromBits(x[1..])
  }

  function ToBits(b: nat, n: nat): (x: seq<bool>)
    ensures |x| == n
  {
    if n == 0 then [] else [b % 2 == 1] + ToBits(b / 2, n - 1)
  }

  lemma {:induction false} BitsRoundTrip(x: seq<bool>)
    ensures ToBits(FromBits(x), |x|) == x
  {
    if x != [] {
      BitsRoundTrip(x[1..]);
      assert FromBits(x) / 2 == FromBits(x[1..]);
    }
  }

  function SregByte(f: Flags): Byte {
    Pow2Of8();
    FromBits([f.c, f.z, f.n, f.v, f.s, f.h, f.t, f.i])
  }

  function SregFlags(b: Byte): Flags {
    var x := ToBits(b, 8);
    Flags(x[7], x[6], x[5], x[4], x[3], x[2], x[1], x[0])
  }

  lemma FromBitsCons(b: bool, x: seq<bool>)
    ensures FromBits([b] + x) == Bit(b) + 2 * FromBits(x)
  {
    assert ([b] + x)[1..] == x;
  }

  lemma FourBits(a: bool, b: bool, c: bool, d: bool, x: seq<bool>)
    ensures FromBits([a, b, c, d] + x) == Bit(a) + 2 * Bit(b) + 4 * Bit(c) + 8 * Bit(d) + 16 * FromBits(x)
  {
    hide FromBits;
    FromBitsCons(d, x);
    FromBitsCons(c, [d] + x);
    FromBitsCons(b, [c] + ([d] + x));
    FromBitsCons(a, [b] + ([c] + ([d] + x)));
    assert [a, b, c, d] + x == [a] + ([b] + ([c] + ([d] + x)));
  }

  lemma NoBits()
    ensures FromBits([]) == 0
  {
  }

  lemma EightBits(a: bool, b: bool, c: bool, d: bool, e: bool, f: bool, g: bool, h: bool)
    ensures FromBits([a, b, c, d, e, f, g, h]) == Bit(a) + 2 * Bit(b) + 4 * Bit(c) + 8 * Bit(d)
                                                + 16 * Bit(e) + 32 * Bit(f) + 64 * Bit(g) + 128 * Bit(h)
  {
    hide FromBits, Bit;
    FourBits(a, b, c, d, [e, f, g, h]);
    FourBits(e, f, g, h, []);
    NoBits();
    assert [e, f, g, h] + [] == [e, f, g, h];
    assert [a, b, c, d] + [e, f, g, h] == [a, b, c, d, e, f, g, h];
  }

  /** The bits of SREG, from C in bit 0 to I in bit 7. */
  lemma SregLayout(f: Flags)
    ensures SregByte(f) == Bit(f.c) + 2 * Bit(f.z) + 4 * Bit(f.n) + 8 * Bit(f.v)
                         + 16 * Bit(f.s) + 32 * Bit(f.h) + 64 * Bit(f.t) + 128 * Bit(f.i)
  {
    hide FromBits, Bit;
    EightBits(f.c, f.z, f.n, f.v, f.s, f.h, f.t, f.i);
  }

  lemma SregRoundTrip(f: Flags)
    ensures SregFlags(SregByte(f)) == f
  {
    BitsRoundTrip([f.c, f.z, f.n, f.v, f.s, f.h, f.t, f.i]);
  }

  lemma {:induction false} NumberRoundTrip(b: nat, n: nat)
    requires b < Pow2(n)
    ensures FromBits(ToBits(b, n)) == b
  {
    if n > 0 {
      NumberRoundTrip(b / 2, n - 1);
      assert ToBits(b, n)[1..] == ToBits(b / 2, n - 1);
    }
  }

  lemma ByteRoundTrip(b: Byte)
    ensures SregByte(SregFlags(b)) == b
  {
    Pow2Of8();
    NumberRoundTrip(b, 8);
    var x := ToBits(b, 8);
    assert [x[0], x[1], x[2], x[3], x[4], x[5], x[6], x[7]] == x;
  }

  // Flags of a logic result: S, V, N and Z only.
  function LogicFlags(f: Flags, res: Byte): Flags {
    f.(v := false, n := res >= 128, s := res >= 128, z := res == 0)
  }

  function Sum8(a: int, b: int, carry: int): Byte { (a + b + carry) % 256 }

  function AddFlags(f: Flags, a: Byte, b: Byte, carry: Byte): Flags {
    var res := Sum8(a, b, carry);
    var n := res >= 128;
    var v := (a >= 128) == (b >= 128) && n != (a >= 128);
    f.(h := a % 16 + b % 16 + carry >= 16, c := a + b + carry >= 256,
       n := n, v := v, s := n != v, z := res == 0)
  }

  // ----- execution -----

  // 16-bit and program-counter arithmetic wraps around.
  function Dec(sp: Word): Word { if sp == 0 then 0xFFFF else sp - 1 }
  function Inc(sp: Word): Word { if sp == 0xFFFF then 0 else sp + 1 }

  function AdvancePc(pc: int, k: nat): (r: int)
    requires 0 <= pc < PC_SPACE && k < PC_SPACE
    ensures 0 <= r < PC_SPACE
  {
    if pc + k < PC_SPACE then pc + k else pc + k - PC_SPACE
  }

  function X(m: Machine): Word requires m.Valid() { Word16(m.r[26], m.r[27]) }
  function Z(m: Machine): Word requires m.Valid() { Word16(m.r[30], m.r[31]) }

  function SetPair(m: Machine, d: nat, w: int): Machine
    requires m.Valid() && d < 31
  {
    m.(r := m.r[d := Lo(w)][d + 1 := Hi(w)])
  }

  function PushByte(m: Machine, b: Byte): (m': Machine)
    requires m.Valid()
    ensures m'.Valid()
  {
    m.(mem := m.mem[m.sp := b], sp := Dec(m.sp))
  }

  // CALL, RCALL and interrupt entry: least significant byte first.
  function PushPc(m: Machine, pc: int): (m': Machine)
    requires m.Valid()
    ensures m'.Valid()
  {
    PushByte(PushByte(PushByte(m, Lo(pc)), Hi(pc)), Lo(pc / 0x10000))
  }

  // RET and RETI.
  function PopPc(m: Machine): (m': Machine)
    requires m.Valid()
    ensures m'.Valid()
  {
    var a := Inc(m.sp);
    var b := Inc(a);
    var c := Inc(b);
    m.(sp := c, pc := PcOf(m.mem[c], m.mem[b], m.mem[a]))
  }

  /** One instruction other than a skip or jump; the program counter has already moved on. */
  function Exec(i: Instr, m: Machine): (m': Machine)
    requires m.Valid() && RegsOk(i)
    ensures m'.Valid()
  {
    match i
    case Push(d) => PushByte(m, m.r[d])
    case Pop(d) => m.(sp := Inc(m.sp), r := m.r[d := m.mem[Inc(m.sp)]])
    case In(d, io) =>
      m.(r := m.r[d := match io case SPL => Lo(m.sp) case SPH => Hi(m.sp) case SREG => SregByte(m.flags)])
    case Out(io, d) =>
      (match io
       case SPL => m.(sp := Word16(m.r[d], Hi(m.sp)))
       case SPH => m.(sp := Word16(Lo(m.sp), m.r[d]))
       case SREG => m.(flags := SregFlags(m.r[d])))
    case Clr(d) => m.(r := m.r[d := 0], flags := LogicFlags(m.flags, 0))
    case Ldi(d, k) => m.(r := m.r[d := k])
    case Mov(d, s) => m.(r := m.r[d := m.r[s]])
    case Add(d, s) =>
      m.(r := m.r[d := Sum8(m.r[d], m.r[s], 0)], flags := AddFlags(m.flags, m.r[d], m.r[s], 0))
    case Adc(d, s) =>
      var c := Bit(m.flags.c);
      m.(r := m.r[d := Sum8(m.r[d], m.r[s], c)], flags := AddFlags(m.flags, m.r[d], m.r[s], c))
    case Or(d, s) =>
      var v := OrByte(m.r[d], m.r[s]);
      m.(r := m.r[d := v], flags := LogicFlags(m.flags, v))
    case Ori(d, k) =>
      var v := OrByte(m.r[d], k);
      m.(r := m.r[d := v], flags := LogicFlags(m.flags, v))
    case Andi(d, k) =>
      var v := AndByte(m.r[d], k);
      m.(r := m.r[d := v], flags := LogicFlags(m.flags, v))
    case Lds(d, a) => m.(r := m.r[d := m.mem[a]])
    case Sts(a, d) => m.(mem := m.mem[a := m.r[d]])
    case LdXInc(d) => var x := X(m); SetPair(m, 26, x + 1).(r := SetPair(m, 26, x + 1).r[d := m.mem[x]])
    case LdX(d) => m.(r := m.r[d := m.mem[X(m)]])
    case StXInc(d) => var x := X(m); SetPair(m.(mem := m.mem[x := m.r[d]]), 26, x + 1)
    case StX(d) => m.(mem := m.mem[X(m) := m.r[d]])
    case StXDec(d) => var x := Dec(X(m)); SetPair(m.(mem := m.mem[x := m.r[d]]), 26, x)
    case LdZInc(d) => var z := Z(m); SetPair(m, 30, z + 1).(r := SetPair(m, 30, z + 1).r[d := m.mem[z]])
    case LdZ(d) => m.(r := m.r[d := m.mem[Z(m)]])
    case StZInc(d) => var z := Z(m); SetPair(m.(mem := m.mem[z := m.r[d]]), 30, z + 1)
    case StZ(d) => m.(mem := m.mem[Z(m) := m.r[d]])
    case Rcall0 => PushPc(m, m.pc)
    case Cli => m.(flags := m.flags.(i := false))
    case Sei => m.(flags := m.flags.(i := true))
    case Ret => PopPc(m)
    case Reti => PopPc(m.(flags := m.flags.(i := true)))
    case Cpse(_, _) => m
    case Rjmp(_) => m
    case Jmp => m
    case Nop => m
  }

  predicate ProgramOk(p: seq<Instr>) {
    forall k :: 0 <= k < |p| ==> RegsOk(p[k])
  }

  // The index reached from i by jumping over k program words.
  function SkipWords(p: seq<Instr>, i: nat, k: int): (j: nat)
    requires i <= |p|
    ensures i <= j <= |p|
    decreases |p| - i
  {
    if k <= 0 || i == |p| then i else SkipWords(p, i + 1, k - Words(p[i]))
  }

  function Fetch(i: Instr, m: Machine): (m': Machine)
    requires m.Valid()
    ensures m'.Valid()
  {
    m.(pc := AdvancePc(m.pc, Words(i)))
  }

  function Exec1(i: Instr, m: Machine): (m': Machine)
    requires m.Valid() && RegsOk(i)
    ensures m'.Valid()
  {
    Exec(i, Fetch(i, m))
  }

  /**
   Executes instruction i of a piece of code; the result names the next index.
   A taken JMP leaves the piece.
   */
  function Step(p: seq<Instr>, i: nat, m: Machine): (next: (nat, Machine))
    requires m.Valid() && ProgramOk(p) && i < |p|
    ensures next.1.Valid() && i < next.0 <= |p|
  {
    var n := Fetch(p[i], m);
    match p[i]
    case Cpse(d, s) =>
      if m.r[d] == m.r[s] && i + 1 < |p| then (i + 2, Fetch(p[i + 1], n)) else (i + 1, n)
    case Rjmp(k) => (SkipWords(p, i + 1, k), n.(pc := AdvancePc(n.pc, k)))
    case Jmp => (|p|, n)
    case _ => (i + 1, Exec(p[i], n))
  }

  /** Runs a piece of code from its instruction i until control leaves it. */
  function Run(p: seq<Instr>, i: nat, m: Machine): (m': Machine)
    requires m.Valid() && ProgramOk(p) && i <= |p|
    ensures m'.Valid()
    decreases |p| - i
  {
    if i == |p| then m else Run(p, Step(p, i, m).0, Step(p, i, m).1)
  }

  // Control stays inside p: a skip has something to skip, a jump lands on or before the end.
  predicate Closed(p: seq<Instr>) {
    forall k :: 0 <= k < |p| ==>
      && !p[k].Jmp?
      && (p[k].Cpse? ==> k + 1 < |p|)
      && (p[k].Rjmp? ==> k + 1 + p[k].words <= |p|
                         && forall j :: k < j <= k + p[k].words ==> Words(p[j]) == 1)
  }

  lemma {:induction false} SkipOneWordEach(p: seq<Instr>, i: nat, n: nat)
    requires i + n <= |p| && forall j :: i <= j < i + n ==> Words(p[j]) == 1
    ensures SkipWords(p, i, n) == i + n
    decreases n
  {
    if n > 0 {
      SkipOneWordEach(p, i + 1, n - 1);
    }
  }

  lemma {:induction false} RunShift(p: seq<Instr>, q: seq<Instr>, j: nat, m: Machine)
    requires m.Valid() && ProgramOk(p) && ProgramOk(q) && j <= |q|
    ensures ProgramOk(p + q)
    ensures Run(p + q, |p| + j, m) == Run(q, j, m)
    decreases |q| - j
  {
    if j < |q| {
      StepShift(p, q, j, m);
      RunShift(p, q, Step(q, j, m).0, Step(q, j, m).1);
    }
  }

  lemma StepShift(p: seq<Instr>, q: seq<Instr>, j: nat, m: Machine)
    requires m.Valid() && ProgramOk(p) && ProgramOk(q) && j < |q|
    ensures ProgramOk(p + q)
    ensures Step(p + q, |p| + j, m) == (|p| + Step(q, j, m).0, Step(q, j, m).1)
  {
    hide Exec, Fetch, SkipWords;
    assert (p + q)[|p| + j] == q[j];
    if j + 1 < |q| {
      assert (p + q)[|p| + j + 1] == q[j + 1];
    }
    if q[j].Rjmp? {
      SkipShift(p, q, j + 1, q[j].words);
    }
  }

  lemma {:induction false} SkipShift(p: seq<Instr>, q: seq<Instr>, j: nat, k: int)
    requires j <= |q|
    ensures SkipWords(p + q, |p| + j, k) == |p| + SkipWords(q, j, k)
    decreases |q| - j
  {
    if k > 0 && j < |q| {
      SkipShift(p, q, j + 1, k - Words(q[j]));
    }
  }

  lemma StepPrefix(p: seq<Instr>, q: seq<Instr>, i: nat, m: Machine)
    requires m.Valid() && ProgramOk(p) && ProgramOk(p + q) && i < |p| && Closed(p)
    ensures Step(p + q, i, m) == Step(p, i, m)
  {
    assert (p + q)[i] == p[i];
    if p[i].Rjmp? {
      SkipOneWordEach(p, i + 1, p[i].words);
      assert forall j :: i < j <= i + p[i].words ==> (p + q)[j] == p[j];
      SkipOneWordEach(p + q, i + 1, p[i].words);
    } else if p[i].Cpse? {
      assert (p + q)[i + 1] == p[i + 1];
    }
  }

  /** Code placed in front of other code runs first, then the other code runs. */
  lemma {:induction false} RunAppend(p: seq<Instr>, q: seq<Instr>, i: nat, m: Machine)
    requires m.Valid() && ProgramOk(p) && ProgramOk(q) && Closed(p) && i <= |p|
    ensures ProgramOk(p + q)
    ensures Run(p + q, i, m) == Run(q, 0, Run(p, i, m))
    decreases |p| - i
  {
    hide Step;
    if i == |p| {
      RunShift(p, q, 0, m);
    } else {
      StepPrefix(p, q, i, m);
      var (j, n) := Step(p, i, m);
      assert Run(p, i, m) == Run(p, j, n);
      assert Run(p + q, i, m) == Run(p + q, j, n);
      RunAppend(p, q, j, n);
    }
  }

  // The step of an instruction that neither skips nor jumps.
  lemma Next(p: seq<Instr>, i: nat, ins: Instr, m: Machine) returns (m': Machine)
    requires m.Valid() && ProgramOk(p) && i < |p| && p[i] == ins
    requires !ins.Cpse? && !ins.Rjmp? && !ins.Jmp?
    ensures RegsOk(ins) && m' == Exec1(ins, m) && Run(p, i, m) == Run(p, i + 1, m')
  {
    m' := Exec1(ins, m);
  }

  // The three outcomes of a skip or jump; only the program counter moves.
  lemma Skip(p: seq<Instr>, i: nat, m: Machine) returns (m': Machine)
    requires m.Valid() && ProgramOk(p) && i + 1 < |p| && p[i].Cpse? && p[i].d < 32 && p[i].s < 32
    requires m.r[p[i].d] == m.r[p[i].s]
    ensures m' == m.(pc := m'.pc) && m'.Valid() && Run(p, i, m) == Run(p, i + 2, m')
  {
    m' := Step(p, i, m).1;
  }

  lemma NoSkip(p: seq<Instr>, i: nat, m: Machine) returns (m': Machine)
    requires m.Valid() && ProgramOk(p) && i < |p| && p[i].Cpse? && p[i].d < 32 && p[i].s < 32
    requires m.r[p[i].d] != m.r[p[i].s]
    ensures m' == m.(pc := m'.pc) && m'.Valid() && Run(p, i, m) == Run(p, i + 1, m')
  {
    m' := Step(p, i, m).1;
  }

  lemma Jump(p: seq<Instr>, i: nat, k: nat, m: Machine) returns (m': Machine)
    requires m.Valid() && ProgramOk(p) && i + 1 + k <= |p| && p[i] == Rjmp(k)
    requires forall j :: i < j <= i + k ==> Words(p[j]) == 1
    ensures m' == m.(pc := m'.pc) && m'.Valid() && Run(p, i, m) == Run(p, i + 1 + k, m')
  {
    SkipOneWordEach(p, i + 1, k);
    m' := Step(p, i, m).1;
  }

  lemma ClosedAppend(p: seq<Instr>, q: seq<Instr>)
    requires Closed(p) && Closed(q)
    ensures Closed(p + q)
  {
    forall k | 0 <= k < |p + q| && (p + q)[k].Rjmp?
      ensures k + 1 + (p + q)[k].words <= |p + q|
      ensures forall j :: k < j <= k + (p + q)[k].words ==> Words((p + q)[j]) == 1
    {
      if k < |p| {
        assert forall j :: k < j <= k + p[k].words ==> (p + q)[j] == p[j];
      } else {
        assert forall j :: k < j <= k + (p + q)[k].words ==> (p + q)[j] == q[j - |p|];
      }
    }
  }

  // Code without skips and jumps is closed.
  lemma StraightCodeIsClosed(p: seq<Instr>)
    requires forall k :: 0 <= k < |p| ==> !p[k].Cpse? && !p[k].Rjmp? && !p[k].Jmp?
    ensures Closed(p)
  {
  }

  // The machines agree except for the program counter.
  predicate SameButPc(a: Machine, b: Machine) {
    a.(pc := 0) == b.(pc := 0)
  }
}
