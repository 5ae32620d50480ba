/**
 The processor as an object whose registers and memory are updated in place, and
 the macros as programs it executes.
 */
module Processor {
  import opened Layout
  import opened Avr
  import opened ContextSwitch
  import opened Switch
  import opened FrameLayout

  lemma HandsOver(m: Machine, entry: Entry)
    requires m.Valid()
    ensures SwitchReady(m, Chosen(m.mem)) ==> SwitchesTo(m, Switched(m, entry), Chosen(m.mem))
  {
    hide SwitchesTo, Switched;
    if SwitchReady(m, Chosen(m.mem)) {
      SwitchedEffect(m, entry, Chosen(m.mem));
    }
  }

  lemma HandsOverBytes(m: Machine, entry: Entry)
    requires m.Valid()
    ensures forall t :: Takes(m.mem, t) && Apart(m.sp - 36, t) ==>
              Exchanged(m, Switched(m, entry), t) && KeptElsewhere(m, Switched(m, entry), t)
  {
    hide Switched, Exchanged, KeptElsewhere, Takes;
    forall t | Takes(m.mem, t) && Apart(m.sp - 36, t)
      ensures Exchanged(m, Switched(m, entry), t) && KeptElsewhere(m, Switched(m, entry), t)
    {
      SwitchInBytes(m, entry, t);
    }
  }

  class Atmega2560 {
    const r: array<Byte>
    const mem: array<Byte>
    var flags: Flags
    var pc: int
    var sp: int

    ghost predicate Valid()
      reads this
    {
      r.Length == 32 && mem.Length == 0x10000 && r != mem && 0 <= sp < 0x10000 && 0 <= pc < PC_SPACE
    }

    ghost function State(): (m: Machine)
      reads this, r, mem
      requires Valid()
      ensures m.Valid()
    {
      Machine(r[..], flags, pc, sp, mem[..])
    }

    constructor ()
      ensures Valid() && fresh(r) && fresh(mem)
    {
      r := new Byte[32];
      mem := new Byte[0x10000];
      flags := Flags(false, false, false, false, false, false, false, false);
      pc, sp := 0, 0;
    }

    method SetReg(d: nat, v: Byte)
      requires Valid() && d < 32
      modifies r
      ensures State() == old(State()).(r := old(State()).r[d := v])
    {
      r[d] := v;
    }

    method SetPair(d: nat, w: int)
      requires Valid() && d < 31
      modifies r
      ensures State() == Avr.SetPair(old(State()), d, w)
    {
      r[d] := Lo(w);
      r[d + 1] := Hi(w);
    }

    method Store(a: Word, v: Byte)
      requires Valid()
      modifies mem
      ensures State() == old(State()).(mem := old(State()).mem[a := v])
    {
      mem[a] := v;
    }

    method PushByte(b: Byte)
      requires Valid()
      modifies this`sp, mem
      ensures Valid() && State() == Avr.PushByte(old(State()), b)
    {
      mem[sp] := b;
      sp := Dec(sp);
    }

    method PopByte() returns (b: Byte)
      requires Valid()
      modifies this`sp
      ensures Valid() && State() == old(State()).(sp := Inc(old(sp))) && b == State().mem[sp]
    {
      sp := Inc(sp);
      b := mem[sp];
    }

    method PushPc(w: int)
      requires Valid()
      modifies this`sp, mem
      ensures Valid() && State() == Avr.PushPc(old(State()), w)
    {
      PushByte(Lo(w));
      PushByte(Hi(w));
      PushByte(Lo(w / 0x10000));
    }

    method PopPc()
      requires Valid()
      modifies this`sp, this`pc
      ensures Valid() && State() == Avr.PopPc(old(State()))
    {
      var hi := PopByte();
      var mid := PopByte();
      var lo := PopByte();
      pc := PcOf(lo, mid, hi);
    }

    // Loads and stores through X and Z, with their pointer updates.
    method LoadX(i: Instr)
      requires Valid() && RegsOk(i) && (i.LdXInc? || i.LdX?)
      modifies r
      ensures Valid() && State() == Exec(i, old(State()))
    {
      hide Lo, Hi, LogicFlags, AddFlags, SregFlags, SregByte;
      var x: int := Word16(r[26], r[27]);
      var v := mem[x];
      if i.LdXInc? {
        SetPair(26, x + 1);
      }
      SetReg(i.d, v);
    }

    method StoreX(i: Instr)
      requires Valid() && RegsOk(i) && (i.StXInc? || i.StX? || i.StXDec?)
      modifies r, mem
      ensures Valid() && State() == Exec(i, old(State()))
    {
      hide Lo, Hi, LogicFlags, AddFlags, SregFlags, SregByte;
      var x: int := Word16(r[26], r[27]);
      if i.StXDec? {
        Store(Dec(x), r[i.d]);
        SetPair(26, Dec(x));
      } else {
        Store(x, r[i.d]);
        if i.StXInc? {
          SetPair(26, x + 1);
        }
      }
    }

    method LoadZ(i: Instr)
      requires Valid() && RegsOk(i) && (i.LdZInc? || i.LdZ?)
      modifies r
      ensures Valid() && State() == Exec(i, old(State()))
    {
      hide Lo, Hi, LogicFlags, AddFlags, SregFlags, SregByte;
      var z: int := Word16(r[30], r[31]);
      var v := mem[z];
      if i.LdZInc? {
        SetPair(30, z + 1);
      }
      SetReg(i.d, v);
    }

    method StoreZ(i: Instr)
      requires Valid() && RegsOk(i) && (i.StZInc? || i.StZ?)
      modifies r, mem
      ensures Valid() && State() == Exec(i, old(State()))
    {
      hide Lo, Hi, LogicFlags, AddFlags, SregFlags, SregByte;
      var z: int := Word16(r[30], r[31]);
      Store(z, r[i.d]);
      if i.StZInc? {
        SetPair(30, z + 1);
      }
    }

    method Arithmetic(i: Instr)
      requires Valid() && RegsOk(i)
      requires i.Clr? || i.Ldi? || i.Mov? || i.Add? || i.Adc? || i.Or? || i.Ori? || i.Andi?
      modifies r, this`flags
      ensures Valid() && State() == Exec(i, old(State()))
    {
      match i
      case Clr(d) => SetReg(d, 0); flags := LogicFlags(flags, 0);
      case Ldi(d, k) => SetReg(d, k);
      case Mov(d, s) => SetReg(d, r[s]);
      case Add(d, s) =>
        flags := AddFlags(flags, r[d], r[s], 0);
        SetReg(d, Sum8(r[d], r[s], 0));
      case Adc(d, s) =>
        var c := Bit(flags.c);
        flags := AddFlags(flags, r[d], r[s], c);
        SetReg(d, Sum8(r[d], r[s], c));
      case Or(d, s) => SetReg(d, OrByte(r[d], r[s])); flags := LogicFlags(flags, r[d]);
      case Ori(d, k) => SetReg(d, OrByte(r[d], k)); flags := LogicFlags(flags, r[d]);
      case Andi(d, k) => SetReg(d, AndByte(r[d], k)); flags := LogicFlags(flags, r[d]);
    }

    method InOut(i: Instr)
      requires Valid() && RegsOk(i) && (i.In? || i.Out?)
      modifies r, this`flags, this`sp
      ensures Valid() && State() == Exec(i, old(State()))
    {
      match i
      case In(d, SPL) => SetReg(d, Lo(sp));
      case In(d, SPH) => SetReg(d, Hi(sp));
      case In(d, SREG) => SetReg(d, SregByte(flags));
      case Out(SPL, d) => sp := Word16(r[d], Hi(sp));
      case Out(SPH, d) => sp := Word16(Lo(sp), r[d]);
      case Out(SREG, d) => flags := SregFlags(r[d]);
    }

    method ReturnFrom(i: Instr)
      requires Valid() && RegsOk(i) && (i.Ret? || i.Reti?)
      modifies this`flags, this`sp, this`pc
      ensures Valid() && State() == Exec(i, old(State()))
    {
      hide Lo, Hi, PcOf, Avr.PopPc, LogicFlags, AddFlags, SregFlags;
      if i.Reti? {
        flags := flags.(i := true);
      }
      PopPc();
    }

    // Calls and the interrupt flag; skips and jumps do nothing here.
    method Control(i: Instr)
      requires Valid() && RegsOk(i)
      requires i.Rcall0? || i.Cli? || i.Sei? || i.Cpse? || i.Rjmp? || i.Jmp? || i.Nop?
      modifies this`flags, this`sp, mem
      ensures Valid() && State() == Exec(i, old(State()))
    {
      hide Lo, Hi, PcOf, Avr.PushPc, LogicFlags, AddFlags, SregFlags;
      if i.Rcall0? {
        PushPc(pc);
      } else if i.Cli? || i.Sei? {
        flags := flags.(i := i.Sei?);
      }
    }

    /** One instruction other than a skip or jump. */
    method Execute(i: Instr)
      requires Valid() && RegsOk(i)
      modifies this, r, mem
      ensures Valid() && State() == Exec(i, old(State()))
    {
      if i.Clr? || i.Ldi? || i.Mov? || i.Add? || i.Adc? || i.Or? || i.Ori? || i.Andi? {
        Arithmetic(i);
      } else if i.LdXInc? || i.LdX? {
        LoadX(i);
      } else if i.StXInc? || i.StX? || i.StXDec? {
        StoreX(i);
      } else if i.LdZInc? || i.LdZ? {
        LoadZ(i);
      } else if i.StZInc? || i.StZ? {
        StoreZ(i);
      } else if i.In? || i.Out? {
        InOut(i);
      } else if i.Push? {
        PushByte(r[i.d]);
      } else if i.Pop? {
        var b := PopByte();
        SetReg(i.d, b);
      } else if i.Lds? {
        SetReg(i.d, mem[i.a]);
      } else if i.Sts? {
        Store(i.a, r[i.d]);
      } else if i.Ret? || i.Reti? {
        ReturnFrom(i);
      } else {
        Control(i);
      }
    }

    // One step of a piece of code from its instruction i, and the index of the next.
    method StepIn(p: seq<Instr>, i: nat) returns (j: nat)
      requires Valid() && ProgramOk(p) && i < |p|
      modifies this, r, mem
      ensures Valid() && (j, State()) == Avr.Step(p, i, old(State()))
    {
      var ins := p[i];
      pc := AdvancePc(pc, Words(ins));
      j := i + 1;
      if ins.Cpse? {
        if r[ins.d] == r[ins.s] && i + 1 < |p| {
          pc := AdvancePc(pc, Words(p[i + 1]));
          j := i + 2;
        }
      } else if ins.Rjmp? {
        pc := AdvancePc(pc, ins.words);
        j := SkipWords(p, i + 1, ins.words);
      } else if ins.Jmp? {
        j := |p|;
      } else {
        Execute(ins);
      }
    }

    /** Executes a macro: the registers and memory end up as Run says. */
    method Perform(p: seq<Instr>)
      requires Valid() && ProgramOk(p)
      modifies this, r, mem
      ensures Valid() && State() == Run(p, 0, old(State()))
    {
      var i := 0;
      while i < |p|
        invariant i <= |p| && Valid()
        invariant Run(p, i, State()) == Run(p, 0, old(State()))
        decreases |p| - i
      {
        i := StepIn(p, i);
      }
    }

    /**
     k_yield, called from the instruction before pc. When the stack has room for a
     frame, the context is left as a frame and that of the chosen one takes over.
     */
    method Yield()
      requires Valid()
      modifies this, r, mem
      ensures Valid() && State() == Switched(old(State()), ByYield)
      ensures var m := old(State());
              SwitchReady(m, Chosen(m.mem)) ==> SwitchesTo(m, State(), Chosen(m.mem))
      ensures var m := old(State());
              forall t :: Takes(m.mem, t) && Apart(m.sp - 36, t) ==>
                Exchanged(m, State(), t) && KeptElsewhere(m, State(), t)
    {
      CodeOk();
      ghost var m := State();
      PushPc(pc);
      Perform(K_YIELD);
      HandsOver(m, ByYield);
      HandsOverBytes(m, ByYield);
    }

    /** The timer interrupt: the hardware pushes pc and turns interrupts off, then the handler runs. */
    method TimerInterrupt()
      requires Valid()
      modifies this, r, mem
      ensures Valid() && State() == Switched(old(State()), ByTimer)
      ensures var m := old(State());
              SwitchReady(m, Chosen(m.mem)) ==> SwitchesTo(m, State(), Chosen(m.mem))
      ensures var m := old(State());
              forall t :: Takes(m.mem, t) && Apart(m.sp - 36, t) ==>
                Exchanged(m, State(), t) && KeptElsewhere(m, State(), t)
    {
      CodeOk();
      ghost var m := State();
      PushPc(pc);
      flags := flags.(i := false);
      Perform(TIMER_ISR);
      HandsOver(m, ByTimer);
      HandsOverBytes(m, ByTimer);
    }

    /** SAVE_CONTEXT and RESTORE_CONTEXT in a row leave registers, SREG and SP as they were. */
    method SaveAndRestore()
      requires Valid() && 33 <= sp && (sp < TASK_SP || TASK_SP + 1 <= sp - 33)
      modifies this, r, mem
      ensures Valid() && r[..] == old(r[..]) && flags == old(flags) && sp == old(sp)
      ensures forall a :: sp < a < 0x10000 && a != TASK_SP && a != TASK_SP + 1 ==> mem[a] == old(mem[a])
    {
      SaveThenRestoreIsIdentity(State());
      hide Run;
      ghost var m := State();
      Perform(SAVE_CONTEXT + RESTORE_CONTEXT);
      assert r[..] == State().r && mem[..] == State().mem && m.mem == old(mem[..]);
    }
  }
}
