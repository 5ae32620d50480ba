/**
 A context switch in plain numbers: which byte of memory holds what, before and
 after it.
 */
module FrameLayout {
  import opened Layout
  import opened Avr
  import opened ContextSwitch
  import opened Switch
  import opened ReturnPoint

  /** The 36 bytes above p: r31 up to r1, SREG, r0 and the program counter, most significant byte first. */
  ghost predicate FrameAt(mem: seq<Byte>, p: int, r: seq<Byte>, flags: Flags, pc: int)
    requires 0 <= p && p + 36 < |mem| && |r| == 32
  {
    var hi: int, mid: int, lo: int := mem[p + 34], mem[p + 35], mem[p + 36];
    && pc == 0x10000 * hi + 0x100 * mid + lo
    && mem[p + 33] == r[0]
    && mem[p + 32] == Bit(flags.c) + 2 * Bit(flags.z) + 4 * Bit(flags.n) + 8 * Bit(flags.v)
                    + 16 * Bit(flags.s) + 32 * Bit(flags.h) + 64 * Bit(flags.t) + 128 * Bit(flags.i)
    && forall k :: 1 <= k < 32 ==> mem[p + 32 - k] == r[k]
  }

  ghost predicate WordAt(mem: seq<Byte>, a: nat, w: int)
    requires a + 1 < |mem|
  {
    var lo: int, hi: int := mem[a], mem[a + 1];
    w == lo + 0x100 * hi
  }

  /** The words at 0x20FC (next_task_sp) and 0x20FE (scheduler_task_sp) say whose frame takes over. */
  ghost predicate Takes(mem: seq<Byte>, t: int)
    requires |mem| == 0x10000
  {
    if mem[0x20FC] == 0 && mem[0x20FD] == 0 then WordAt(mem, 0x20FE, t) else WordAt(mem, 0x20FC, t)
  }

  // Bit 1 of the timer mask is on and all other bits are as before.
  predicate Unmasked(mask: int, mask': int) {
    mask' == if mask / 2 % 2 == 1 then mask else mask + 2
  }

  // Two frames that do not touch each other, in SRAM below the words of the switch.
  predicate Apart(p: int, t: int) {
    0x205 <= p && p + 36 < 0x20FA && 0x205 <= t && t + 36 < 0x20FA && (t + 36 < p || p + 36 <= t)
  }

  /**
   The old context lies as a frame below the old stack pointer, with I off. The new
   one is the frame at t, with I on and S, V, N and Z as the timer mask left them.
   */
  ghost predicate Exchanged(m: Machine, m': Machine, t: int)
    requires m.Valid() && m'.Valid() && Apart(m.sp - 36, t)
  {
    var p := m.sp - 36;
    var mask := m'.mem[0x6F];
    && FrameAt(m'.mem, p, m.r, m.flags.(i := false), m.pc)
    && (exists f: Flags ::
          && FrameAt(m.mem, t, m'.r, f, m'.pc)
          && m'.flags == f.(i := true, s := mask >= 128, v := false, n := mask >= 128, z := false))
    && m'.sp == t + 36
    && WordAt(m'.mem, 0x20FA, p) && WordAt(m'.mem, 0x2100, t)
    && m'.mem[0x20FC] == 0 && m'.mem[0x20FD] == 0
    && m'.mem[0x64] == 0 && m'.mem[0x65] == 0
    && Unmasked(m.mem[0x6F], mask)
  }

  // Memory a switch does not touch, given the stack pointers its two frames leave.
  ghost predicate KeptElsewhere(m: Machine, m': Machine, t: int)
    requires m.Valid() && m'.Valid()
  {
    forall a :: && 0 <= a < 0x10000 && !(m.sp - 36 <= a <= m.sp) && a != t + 33 && a != 0x64 && a != 0x65 && a != 0x6F
                && !(0x20FA <= a <= 0x20FD) && a != 0x2100 && a != 0x2101 ==>
      m'.mem[a] == m.mem[a]
  }

  // ----- frames -----

  lemma FrameInBytes(mem: seq<Byte>, p: int)
    requires 0 <= p && p + 36 < |mem|
    ensures var c := FrameCore(mem, p); FrameAt(mem, p, c.r, c.flags, c.pc)
  {
    hide SregByte, SregFlags;
    SregLayout(FrameFlags(mem, p));
    ByteRoundTrip(mem[p + 32]);
  }

  lemma SameBytes(mem: seq<Byte>, mem': seq<Byte>, p: int, r: seq<Byte>, flags: Flags, pc: int)
    requires 0 <= p && p + 36 < |mem| == |mem'| && |r| == 32
    requires FrameAt(mem, p, r, flags, pc) && forall a :: p < a <= p + 36 ==> mem'[a] == mem[a]
    ensures FrameAt(mem', p, r, flags, pc)
  {
    hide Bit;
  }

  lemma WordInBytes(mem: seq<Byte>, a: nat, w: int)
    requires a + 1 < |mem|
    ensures ReadWord(mem, a) == w <==> WordAt(mem, a, w)
  {
  }

  lemma ChosenInBytes(mem: seq<Byte>, t: int)
    requires |mem| == 0x10000
    ensures Takes(mem, t) <==> t == Chosen(mem)
  {
    hide WordAt, ReadWord;
    ZeroWord(mem, 0x20FC);
    WordInBytes(mem, 0x20FC, t);
    WordInBytes(mem, 0x20FE, t);
  }

  lemma ZeroWord(mem: seq<Byte>, a: nat)
    requires a + 1 < |mem|
    ensures ReadWord(mem, a) == 0 <==> mem[a] == 0 && mem[a + 1] == 0
  {
  }

  // ----- the switch -----

  lemma OldFrame(m: Machine, m': Machine, t: int)
    requires m.Valid() && m'.Valid() && Apart(m.sp - 36, t) && SwitchesTo(m, m', t)
    ensures FrameAt(m'.mem, m.sp - 36, m.r, m.flags.(i := false), m.pc)
  {
    hide FrameAt, FrameBytes, FrameCore, ResumedCore, WithMt, ReadWord;
    var p := m.sp - 36;
    var saved := Stacked(m.mem, m.sp, FrameBytes(SavedCore(m)));
    FrameRoundTrip(m.mem, SavedCore(m));
    FrameInBytes(saved, p);
    SameBytes(saved, m'.mem, p, m.r, m.flags.(i := false), m.pc);
  }

  lemma NewContext(m: Machine, m': Machine, t: int)
    requires m.Valid() && m'.Valid() && Apart(m.sp - 36, t) && SwitchesTo(m, m', t)
    ensures var c := FrameCore(m.mem, t);
            && FrameAt(m.mem, t, m'.r, c.flags, m'.pc) && m'.sp == t + 36
            && m'.flags == LogicFlags(c.flags, m'.mem[0x6F]).(i := true)
  {
    hide FrameAt, FrameBytes, WithMt, ReadWord, LogicFlags, SregFlags;
    var saved := Stacked(m.mem, m.sp, FrameBytes(SavedCore(m)));
    SameFrame(m.mem, saved, t);
    FrameInBytes(m.mem, t);
  }

  lemma GlobalsInBytes(m: Machine, m': Machine, t: int)
    requires m.Valid() && m'.Valid() && Apart(m.sp - 36, t) && SwitchesTo(m, m', t)
    ensures WordAt(m'.mem, 0x20FA, m.sp - 36) && WordAt(m'.mem, 0x2100, t)
    ensures m'.mem[0x20FC] == 0 && m'.mem[0x20FD] == 0 && m'.mem[0x64] == 0 && m'.mem[0x65] == 0
    ensures Unmasked(m.mem[0x6F], m'.mem[0x6F])
    ensures m'.mem[0x6F] != 0 && KeptElsewhere(m, m', t)
  {
    hide FrameBytes, FrameCore, ResumedCore, WordAt, ReadWord;
    WordInBytes(m'.mem, 0x20FA, m.sp - 36);
    WordInBytes(m'.mem, 0x2100, t);
    ZeroWord(m'.mem, 0x20FC);
  }

  /** Every switch between frames that lie apart, in plain numbers. */
  lemma SwitchInBytes(m: Machine, entry: Entry, t: int)
    requires m.Valid() && Takes(m.mem, t) && Apart(m.sp - 36, t)
    ensures Exchanged(m, Switched(m, entry), t) && KeptElsewhere(m, Switched(m, entry), t)
  {
    hide SwitchesTo, Switched, FrameAt, WordAt, KeptElsewhere, Takes, Chosen;
    var m' := Switched(m, entry);
    ChosenInBytes(m.mem, t);
    SwitchedEffect(m, entry, t);
    OldFrame(m, m', t);
    NewContext(m, m', t);
    GlobalsInBytes(m, m', t);
  }

  // ----- the planted return address -----

  lemma PlantedInBytes(m: Machine)
    requires m.Valid()
    ensures var c := PlantedCore(CoreOf(m));
            var hi: int, mid: int, lo: int := c.r[16], c.r[17], c.r[18];
            && c.pc == (if m.pc < 0x1000000 - 13 then m.pc + 13 else m.pc + 13 - 0x1000000)
            && c.pc == 0x10000 * hi + 0x100 * mid + lo && c.r[19] == 0
            && forall k :: 0 <= k < 32 && !(16 <= k <= 19) ==> c.r[k] == m.r[k]
  {
    hide CarryFlags, Lo, Hi;
    PcRoundTrip(PlantedAddress(m.pc));
  }

  /**
   SET_RETURN_POINT and SAVE_CONTEXT in plain numbers: the frame they leave resumes
   13 words behind the macro's first instruction, with that address in r18:r17:r16,
   r19 clear, and the flags of the addition.
   */
  lemma ReturnPointInBytes(m: Machine)
    requires m.Valid() && 36 <= m.sp && (m.sp < 0x2100 || 0x2101 <= m.sp - 36)
    ensures var m' := SavedWithReturnPoint(m);
            var c := PlantedCore(CoreOf(m));
            && FrameAt(m'.mem, m.sp - 36, c.r, c.flags, c.pc) && SumFlags(m.flags, c.flags, CallAddress(m.pc))
            && m'.sp == m.sp - 36 && m'.r[1] == 0 && WordAt(m'.mem, 0x2100, m.sp - 36)
            && forall a :: 0 <= a < 0x10000 && !(m.sp - 36 < a <= m.sp) && a != 0x2100 && a != 0x2101 ==>
                 m'.mem[a] == m.mem[a]
    ensures var c := PlantedCore(CoreOf(m));
            var hi: int, mid: int, lo: int := c.r[16], c.r[17], c.r[18];
            && c.pc == (if m.pc < 0x1000000 - 13 then m.pc + 13 else m.pc + 13 - 0x1000000)
            && c.pc == 0x10000 * hi + 0x100 * mid + lo && c.r[19] == 0
            && forall k :: 0 <= k < 32 && !(16 <= k <= 19) ==> c.r[k] == m.r[k]
  {
    hide FrameAt, FrameBytes, PlantedCore, SavedWithReturnPoint, SumFlags, WordAt, ReadWord, Lo, Hi;
    PlantedInBytes(m);
    SavedWithReturnPointEffect(m);
    var c := PlantedCore(CoreOf(m));
    var saved := Stacked(m.mem, m.sp, FrameBytes(c));
    FrameRoundTrip(m.mem, c);
    FrameInBytes(saved, m.sp - 36);
    SameBytes(saved, SavedWithReturnPoint(m).mem, m.sp - 36, c.r, c.flags, c.pc);
    ReadWritten(saved, TASK_SP, m.sp - 36);
    WordInBytes(SavedWithReturnPoint(m).mem, 0x2100, m.sp - 36);
  }
}
