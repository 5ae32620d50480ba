/**
 The commuting square of a scheduler pass: the checks on the previous task, the
 choice of the next one, and the scheduler's own yield into it.
 */
module SchedulerSquare {
  import opened Wrappers
  import opened Layout
  import opened Avr
  import opened ContextSwitch
  import opened Switch
  import opened Priority
  import opened KernelModel
  import opened KernelInvariant
  import opened System
  import opened Refinement
  import P = PrivateContexts

  // ----- the return-address check -----

  /**
   What the check accepts, for every frame: saved PCs below 2^17, except that it
   reads SREG and r0 as the low PC bytes and so turns down a context whose SREG,
   r0 and most significant PC byte are all 0.
   */
  lemma ReturnCheckExact(mem: seq<Byte>, p: Word)
    requires |mem| == 0x10000 && p + FRAME_BYTES < 0x10000
    ensures ReturnAddressOk(mem, p) <==> P.ReturnAccepted(FrameCore(mem, p))
    ensures CheckedPc(mem, p) / 0x20000 % 0x80 == 0 <==> FramePc(mem, p) < 0x20000
  {
    hide SregByte, SregFlags, PcOf;
    ByteRoundTrip(mem[p + 32]);
    ThreeBytes(mem[p + 32], mem[p + 33], mem[p + 34]);
    ThreeBytes(mem[p + 36], mem[p + 35], mem[p + 34]);
  }

  lemma ThreeBytes(lo: Byte, mid: Byte, hi: Byte)
    ensures var pc := PcOf(lo, mid, hi);
            && (pc / 0x20000 % 0x80 == 0 <==> hi < 2)
            && (pc < 0x20000 <==> hi < 2) && (pc < 0x10000 <==> hi == 0)
            && (pc == 0 <==> lo == 0 && mid == 0 && hi == 0)
  {
    var pc := PcOf(lo, mid, hi);
    assert pc / 0x20000 == hi / 2;
  }

  // ----- the previous task -----

  ghost predicate SchedulerRuns(s: Sys) {
    Inv(s) && (s.mode.FirstPass? || s.mode.InScheduler?)
  }

  // What the body of the scheduler's loop leaves alone.
  lemma ScribbleKeeps(s: Sys, block: seq<Byte>)
    requires SchedulerRuns(s) && |block| == TASK_MEMORY_SIZE
    ensures var mem := PassMemory(s, block);
            && CanariesIntact(mem) && mem[TIMSK1] == s.m.mem[TIMSK1]
            && ReadWord(mem, PREV_TASK_SP) == PrevSp(s) && ReadWord(mem, SCHEDULER_TASK_SP) == SchedulerSp(s)
            && (forall c :: 0 <= c < TASKS_MAX && c != s.sb ==> Untouched(s.m.mem, mem, c))
            && (s.mode.FirstPass? ==> FrameCore(mem, SchedulerSp(s)) == FrameCore(s.m.mem, SchedulerSp(s)))
  {
    hide FrameCore, KInv;
    if s.mode.FirstPass? {
      FrameSame(s.m.mem, PassMemory(s, block), SchedulerSp(s));
    }
  }

  // The two checks on a stack pointer, and what they say about the context above it.
  ghost predicate Judged(mem: seq<Byte>, p: Word, b: nat, heapStart: Word, core: Option<Core>)
    requires |mem| == 0x10000 && b < TASKS_MAX
  {
    && (PointerIntegrity(mem, p, b, heapStart) <==> core.Some? && P.StackAccepted(core.value, b))
    && (PointerIntegrity(mem, p, b, heapStart) ==>
          FrameIn(p, b) && |core.value.r| == 32 && (ReturnAddressOk(mem, p) <==> P.ReturnAccepted(core.value)))
  }

  lemma JudgedFrame(mem: seq<Byte>, p: Word, b: nat, heapStart: Word)
    requires |mem| == 0x10000 && b < TASKS_MAX && CanariesIntact(mem) && FrameIn(p, b)
    ensures Judged(mem, p, b, heapStart, Some(FrameCore(mem, p)))
  {
    PointerIntegrityExact(mem, p, b, heapStart);
    ReturnCheckExact(mem, p);
  }

  lemma JudgedForeign(mem: seq<Byte>, p: Word, b: nat, c: nat, heapStart: Word)
    requires |mem| == 0x10000 && b < TASKS_MAX && c < TASKS_MAX && b != c && FrameIn(p, c)
    ensures Judged(mem, p, b, heapStart, None)
  {
    PointerIntegrityExact(mem, p, b, heapStart);
  }

  // The context the pass judges: its own in the first pass, that of the suspended task later.
  ghost function PreviousCore(s: Sys): Option<Core>
    requires SchedulerRuns(s)
  {
    if s.mode.FirstPass? then SchedulerCore(s)
    else if Saved(s)[s.k.active].Some? then Some(Saved(s)[s.k.active].value.core) else None
  }

  lemma PreviousJudged(s: Sys, block: seq<Byte>)
    requires SchedulerRuns(s) && |block| == TASK_MEMORY_SIZE && s.k.Current().status != Empty
    ensures var mem := PassMemory(s, block);
            Judged(mem, Recorded(s.k.Current(), mem).sp, s.k.active, s.k.heapStart, PreviousCore(s))
  {
    hide FrameCore, Judged, CanariesIntact, PassMemory;
    ScribbleKeeps(s, block);
    var mem := PassMemory(s, block);
    var p := Recorded(s.k.Current(), mem).sp;
    if s.mode.InScheduler? && PrevSp(s) == SchedulerSp(s) {
      JudgedForeign(mem, p, s.k.active, s.sb, s.k.heapStart);
    } else {
      JudgedFrame(mem, p, s.k.active, s.k.heapStart);
      if s.mode.InScheduler? {
        DecodeUntouched(s.m.mem, mem, p, s.k.active);
      }
    }
  }

  lemma PreviousExact(s: Sys, block: seq<Byte>)
    requires SchedulerRuns(s) && |block| == TASK_MEMORY_SIZE && P.Wf(Alpha(s))
    ensures var mem := PassMemory(s, block);
            var fault := P.PreviousFault(Alpha(s));
            match HandlePreviousTask(s.k, mem)
            case Failure(e) => fault == Some(e)
            case Success(k1) =>
              && fault == None
              && (s.k.Current().status == Running ==>
                    && k1.tasks[s.k.active].sp == PrevSp(s) && FrameIn(PrevSp(s), s.k.active)
                    && PrevSp(s) != SchedulerSp(s))
  {
    var mem := PassMemory(s, block);
    if s.k.Current().status != Empty {
      PreviousJudged(s, block);
      ScribbleKeeps(s, block);
      hide FrameCore, PointerIntegrity, ReturnAddressOk, CanariesIntact, P.ReturnAccepted, P.StackAccepted;
      hide PassMemory, Untouched, P.Wf;
    }
  }

  // ----- the choice -----

  // The policy looks at status and priority only.
  lemma {:induction false} ErasedBest(tasks: seq<Task>, c: set<nat>, n: nat)
    requires n <= |tasks|
    ensures Best(Erased(tasks), c, n) == Best(tasks, c, n)
  {
    if n > 0 {
      ErasedBest(tasks, c, n - 1);
    }
  }

  lemma ErasedCandidates(tasks: seq<Task>, ran: set<nat>)
    ensures SchedulableSlots(Erased(tasks)) == SchedulableSlots(tasks)
    ensures Candidates(Erased(tasks), ran) == Candidates(tasks, ran)
    ensures forall i :: RanAfter(Erased(tasks), ran, i) == RanAfter(tasks, ran, i)
  {
  }

  // Exactly the READY slots have contexts, in frames that the scheduler did not touch.
  ghost predicate ContextsReady(s: Sys, mem: seq<Byte>, k1: Kernel)
    requires SchedulerRuns(s) && |mem| == 0x10000 && k1.Shape()
  {
    forall i :: 0 <= i < TASKS_MAX ==>
      if k1.tasks[i].status == Ready then
        i != s.sb && FrameIn(k1.tasks[i].sp, i) && Saved(s)[i] == Some(Decode(mem, k1.tasks[i].sp, i))
      else Saved(s)[i] == None
  }

  // The kernel data once the previous task is accounted for.
  ghost predicate Accounted(s: Sys, mem: seq<Byte>, k1: Kernel)
    requires SchedulerRuns(s) && |mem| == 0x10000 && k1.Shape()
  {
    && (forall i :: 0 <= i < TASKS_MAX && i != s.k.active ==> k1.tasks[i] == s.k.tasks[i])
    && (match s.k.Current().status
        case Running =>
          k1.Current() == s.k.Current().(sp := PrevSp(s), status := Ready) && k1.active == s.k.active
          && FrameIn(PrevSp(s), s.k.active) && PrevSp(s) != SchedulerSp(s)
        case Scheduler => k1.tasks[s.k.active] == s.k.Current().(sp := SchedulerSp(s))
        case _ => k1.tasks[s.k.active] == s.k.Current())
    && (forall c :: 0 <= c < TASKS_MAX && c != s.sb ==> Untouched(s.m.mem, mem, c))
  }

  lemma HandledSlot(s: Sys, mem: seq<Byte>, k1: Kernel, i: nat)
    requires SchedulerRuns(s) && |mem| == 0x10000 && k1.Shape() && Accounted(s, mem, k1) && i < TASKS_MAX
    ensures if k1.tasks[i].status == Ready then
              i != s.sb && FrameIn(k1.tasks[i].sp, i) && Saved(s)[i] == Some(Decode(mem, k1.tasks[i].sp, i))
            else Saved(s)[i] == None
  {
    hide Round, CanariesIntact, ReadWord, FrameCore, Untouched, MtEnabled;
    assert FrameOf(s, i) == if k1.tasks[i].status == Ready then Some(k1.tasks[i].sp) else None;
    if k1.tasks[i].status == Ready {
      FramesInBlocks(s, i);
      DecodeUntouched(s.m.mem, mem, k1.tasks[i].sp, i);
    }
  }

  lemma AccountedFor(s: Sys, block: seq<Byte>)
    requires SchedulerRuns(s) && |block| == TASK_MEMORY_SIZE && P.Wf(Alpha(s))
    requires HandlePreviousTask(s.k, PassMemory(s, block)).Success?
    ensures Accounted(s, PassMemory(s, block), HandlePreviousTask(s.k, PassMemory(s, block)).value)
  {
    hide FrameCore, CanariesIntact, PassMemory, Untouched, P.Wf, P.PreviousFault, ReturnAddressOk, PointerIntegrity;
    hide KInv, Stacks, ReadyFrames, Saved;
    PreviousExact(s, block);
    ScribbleKeeps(s, block);
  }

  lemma HandledTasks(s: Sys, block: seq<Byte>)
    requires SchedulerRuns(s) && |block| == TASK_MEMORY_SIZE && P.Wf(Alpha(s))
    requires HandlePreviousTask(s.k, PassMemory(s, block)).Success?
    ensures var mem := PassMemory(s, block);
            var k1 := HandlePreviousTask(s.k, mem).value;
            var prev := Erased(s.k.tasks)[s.k.active];
            && ContextsReady(s, mem, k1)
            && Erased(k1.tasks) == Erased(s.k.tasks)[s.k.active :=
                 if prev.status == Running then prev.(status := Ready) else prev]
  {
    hide PassMemory, P.Wf, HandlePreviousTask, KInv, Stacks, ReadyFrames, CanariesIntact, Saved, Untouched;
    AccountedFor(s, block);
    var mem := PassMemory(s, block);
    var k1 := HandlePreviousTask(s.k, mem).value;
    forall i: nat | i < TASKS_MAX
      ensures if k1.tasks[i].status == Ready then
                i != s.sb && FrameIn(k1.tasks[i].sp, i) && Saved(s)[i] == Some(Decode(mem, k1.tasks[i].sp, i))
              else Saved(s)[i] == None
    {
      HandledSlot(s, mem, k1, i);
    }
  }

  // What the private-context machine makes of a pass that hands over to slot i.
  ghost function Chose(s: Sys, mem: seq<Byte>, k': Kernel, code: Cpu, ran: set<nat>): P.State
    requires SchedulerRuns(s) && |mem| == 0x10000 && k'.Shape() && FrameIn(NextSp(k'), k'.active)
  {
    var mask := WithMt(s.m.mem[TIMSK1]);
    var next := Decode(mem, NextSp(k'), k'.active);
    Alpha(s).(tasks := Erased(k'.tasks), active := k'.active, mode := User, ran := ran, timsk := mask,
              saved := Saved(s)[k'.active := None], cur := next.(core := ResumedCore(next.core, mask)),
              sched := if s.mode.FirstPass? then SchedulerCore(s)
                       else Some(Core(code.r, code.flags.(i := false), code.pc, s.m.sp)))
  }

  // The choice on erased tasks.
  lemma ChoiceExact(s: Sys, mem: seq<Byte>, k1: Kernel, i: nat)
    requires SchedulerRuns(s) && |mem| == 0x10000 && k1.Shape() && ContextsReady(s, mem, k1) && i < TASKS_MAX
    requires k1.tasks[i].status == Ready && CanariesIntact(mem)
    ensures Saved(s)[i].Some?
    ensures PointerIntegrity(mem, k1.tasks[i].sp, i, k1.heapStart) <==> P.StackAccepted(Saved(s)[i].value.core, i)
  {
    PointerIntegrityExact(mem, k1.tasks[i].sp, i, k1.heapStart);
  }

  lemma RoundEnds(k: Kernel, ran: set<nat>)
    requires k.Shape() && Round(k, ran)
    ensures k.position == 0 <==> Waiting(k.tasks, ran) == {}
  {
    EmptyQueue(k.queue[..k.position]);
  }

  lemma RanExact(s: Sys, mem: seq<Byte>)
    requires SchedulerRuns(s) && |mem| == 0x10000 && HandlePreviousTask(s.k, mem).Success?
    ensures var k1 := HandlePreviousTask(s.k, mem).value;
            forall i :: RanAfter(k1.tasks, s.h.ran, i) == if s.k.position == 0 then {i} else s.h.ran + {i}
  {
    HandleKeepsRound(s.k, s.sb, s.mode, s.h.ran, mem);
    var k1 := HandlePreviousTask(s.k, mem).value;
    RoundEnds(k1, s.h.ran);
  }

  // What a pass that hands over leaves, for the switch to work on.
  ghost predicate HandsOver(s: Sys, mem: seq<Byte>, k': Kernel, ran: set<nat>)
    requires SchedulerRuns(s) && |mem| == 0x10000 && k'.Shape()
  {
    && FrameIn(NextSp(k'), k'.active) && OS_STACK_START < NextSp(k') && k'.active != s.sb
    && Saved(s)[k'.active] == Some(Decode(mem, NextSp(k'), k'.active))
    && KInv(k', s.sb, User, ran) && k'.pidCnt == s.k.pidCnt
    && (forall j :: 0 <= j < TASKS_MAX && j != k'.active ==>
          if k'.tasks[j].status == Ready then
            j != s.sb && FrameIn(k'.tasks[j].sp, j) && Saved(s)[j] == Some(Decode(mem, k'.tasks[j].sp, j))
          else Saved(s)[j] == None)
    && k'.Current().status == Running
  }

  lemma HandOverExact(s: Sys, mem: seq<Byte>, k1: Kernel, k': Kernel, i: nat, code: Cpu, ran: set<nat>)
    requires SchedulerRuns(s) && |mem| == 0x10000 && k1.Shape() && ContextsReady(s, mem, k1) && P.Wf(Alpha(s))
    requires i < TASKS_MAX && k1.tasks[i].status == Ready && Acceptable(k1.tasks[i].sp, i)
    requires k'.Shape() && k'.active == i && k'.tasks == k1.tasks[i := k1.tasks[i].(status := Running)]
    requires KInv(k', s.sb, User, ran) && k'.pidCnt == s.k.pidCnt && ran == RanAfter(k1.tasks, s.h.ran, i)
    ensures HandsOver(s, mem, k', ran)
    ensures P.HandOver(Alpha(s), Erased(k1.tasks), i, code) == Chose(s, mem, k', code, ran)
  {
    hide Decode, Stacks, ReadyFrames, Saved, P.Wf, Candidates, RanAfter, Waiting, KInv, CanariesIntact;
    ErasedCandidates(k1.tasks, s.h.ran);
    assert Erased(k'.tasks) == Erased(k1.tasks)[i := Erased(k1.tasks)[i].(status := Running)];
  }

  lemma BestIsReady(tasks: seq<Task>, ran: set<nat>, i: nat)
    requires Best(tasks, Candidates(tasks, ran), |tasks|) == Some(i)
    ensures i < |tasks| && tasks[i].status == Ready
  {
  }

  // How a pass ends.
  ghost predicate PassEnds(s: Sys, mem: seq<Byte>, code: Cpu, a: P.State)
    requires SchedulerRuns(s) && |mem| == 0x10000
  {
    match SchedulerPass(s.k, mem)
    case Failure(e) => a == P.Stopped(e)
    case Success(k') =>
      var ran := if s.k.position == 0 then {k'.active} else s.h.ran + {k'.active};
      HandsOver(s, mem, k', ran) && a == Chose(s, mem, k', code, ran)
  }

  lemma ElectExact(s: Sys, mem: seq<Byte>, k1: Kernel, code: Cpu)
    requires SchedulerRuns(s) && |mem| == 0x10000 && P.Wf(Alpha(s)) && CanariesIntact(mem)
    requires HandlePreviousTask(s.k, mem) == Success(k1) && ContextsReady(s, mem, k1) && k1.heapStart == s.k.heapStart
    ensures PassEnds(s, mem, code, P.Elect(Alpha(s), Erased(k1.tasks), code))
  {
    hide P.Wf, ReturnAddressOk, PointerIntegrity, HandlePreviousTask, Candidates, RanAfter, Best, Waiting, KInv;
    hide Decode, Stacks, ReadyFrames, Saved, HandsOver, Chose, P.HandOver, SchedulerPass, ContextsReady;
    hide CanariesIntact;
    PassKeeps(s.k, s.sb, s.mode, s.h.ran, mem);
    var c := Candidates(k1.tasks, s.h.ran);
    ErasedCandidates(k1.tasks, s.h.ran);
    ErasedBest(k1.tasks, c, TASKS_MAX);
    if Best(k1.tasks, c, TASKS_MAX).Some? {
      var i := Best(k1.tasks, c, TASKS_MAX).value;
      BestIsReady(k1.tasks, s.h.ran, i);
      ChoiceExact(s, mem, k1, i);
      PointerIntegrityExact(mem, k1.tasks[i].sp, i, s.k.heapStart);
      if SchedulerPass(s.k, mem).Success? {
        RanExact(s, mem);
        HandOverExact(s, mem, k1, SchedulerPass(s.k, mem).value, i, code, RanAfter(k1.tasks, s.h.ran, i));
      }
    }
  }

  lemma ScheduleExact(s: Sys, block: seq<Byte>, code: Cpu)
    requires SchedulerRuns(s) && |block| == TASK_MEMORY_SIZE && P.Wf(Alpha(s)) && code.Valid()
    ensures PassEnds(s, PassMemory(s, block), code, P.Schedule(Alpha(s), code))
  {
    hide FrameCore, CanariesIntact, PassMemory, Untouched, P.Wf, P.PreviousFault, ReturnAddressOk, PointerIntegrity;
    hide Candidates, RanAfter, Best, Waiting, KInv, Decode, Stacks, ReadyFrames, Saved, HandsOver, Chose, P.HandOver;
    hide ContextsReady;
    var mem := PassMemory(s, block);
    PreviousExact(s, block);
    if HandlePreviousTask(s.k, mem).Success? {
      ScribbleKeeps(s, block);
      HandledTasks(s, block);
      ElectExact(s, mem, HandlePreviousTask(s.k, mem).value, code);
    }
  }

  // ----- the scheduler's yield -----

  // The machine that yields, and what it becomes.
  ghost predicate Yielded(mem: seq<Byte>, m: Machine, m': Machine, t: int, a: nat, b: nat)
    requires m.Valid() && m'.Valid() && |mem| == 0x10000 && a < TASKS_MAX && b < TASKS_MAX
    requires FrameIn(t, b) && Low(a) + FRAME_BYTES <= m.sp <= High(a)
  {
    && BlocksSwitched(m, m', t, a, b)
    && (forall c :: 0 <= c < TASKS_MAX ==> Untouched(mem, m.mem, c))
    && (CanariesIntact(mem) ==> CanariesIntact(m'.mem))
    && ReadWord(m'.mem, NEXT_TASK_SP) == 0
    && ReadWord(m'.mem, SCHEDULER_TASK_SP) == ReadWord(mem, SCHEDULER_TASK_SP)
    && m'.mem[TIMSK1] == WithMt(mem[TIMSK1]) && MtEnabled(m'.mem)
  }

  lemma WriteNext(mem: seq<Byte>, t: Word)
    requires |mem| == 0x10000 && 0 < t
    ensures var mem' := WriteWord(mem, NEXT_TASK_SP, t);
            && Chosen(mem') == t && SwitchMode(mem') == User && mem'[TIMSK1] == mem[TIMSK1]
            && ReadWord(mem', SCHEDULER_TASK_SP) == ReadWord(mem, SCHEDULER_TASK_SP)
            && (CanariesIntact(mem) ==> CanariesIntact(mem'))
            && forall c :: 0 <= c < TASKS_MAX ==> Untouched(mem, mem', c)
  {
    ReadWritten(mem, NEXT_TASK_SP, t);
    hide Lo, Hi;
  }

  /** Handshake: the selected stack pointer is never 0, so the scheduler's yield enters the selected task. */
  lemma SchedulerEntersTask(mem: seq<Byte>, code: Cpu, sp: int, t: Word, a: nat, b: nat)
    requires |mem| == 0x10000 && code.Valid() && a < TASKS_MAX && b < TASKS_MAX && a != b
    requires FrameIn(t, b) && Low(a) + FRAME_BYTES <= sp <= High(a)
    ensures var m := Machine(code.r, code.flags, code.pc, sp, WriteWord(mem, NEXT_TASK_SP, t));
            SwitchMode(m.mem) == User && Yielded(mem, m, Switched(m, ByYield), t, a, b)
  {
    hide Switched, BlocksSwitched, CanariesIntact, Lo, Hi, Untouched, MtEnabled, ReadWord, Chosen;
    var m := Machine(code.r, code.flags, code.pc, sp, WriteWord(mem, NEXT_TASK_SP, t));
    WriteNext(mem, t);
    SwitchedEffect(m, ByYield, t);
    SwitchBlocks(m, Switched(m, ByYield), t, a, b);
    MaskEnables(Switched(m, ByYield).mem, mem[TIMSK1]);
    YieldedParts(m, Switched(m, ByYield), t, a, b);
  }

  lemma YieldedParts(m: Machine, m': Machine, t: int, a: nat, b: nat)
    requires m.Valid() && m'.Valid() && a < TASKS_MAX && b < TASKS_MAX
    requires Low(a) + FRAME_BYTES <= m.sp <= High(a) && FrameIn(t, b) && BlocksSwitched(m, m', t, a, b)
    ensures CanariesIntact(m.mem) ==> CanariesIntact(m'.mem)
    ensures ReadWord(m'.mem, SCHEDULER_TASK_SP) == ReadWord(m.mem, SCHEDULER_TASK_SP)
  {
    hide CoresSwapped, CanariesIntact, ReadWord, Untouched;
  }

  // The state after the yield, from the machine m that yielded.
  ghost predicate Passed(s: Sys, s': Sys, mem: seq<Byte>, m: Machine, code: Cpu)
    requires SchedulerRuns(s) && Ok(s') && |mem| == 0x10000 && m.Valid()
  {
    && Low(s.sb) + FRAME_BYTES <= m.sp <= High(s.sb)
    && CanariesIntact(mem) && mem[TIMSK1] == s.m.mem[TIMSK1]
    && ReadWord(mem, SCHEDULER_TASK_SP) == SchedulerSp(s)
    && (s.mode.FirstPass? ==> FrameCore(mem, SchedulerSp(s)) == FrameCore(s.m.mem, SchedulerSp(s)))
    && HandsOver(s, mem, s'.k, s'.h.ran)
    && CoreOf(m) == Core(code.r, code.flags, code.pc, s.m.sp)
    && Yielded(mem, m, s'.m, NextSp(s'.k), s.sb, s'.k.active)
    && s'.mode.User? && s'.sb == s.sb
    && (forall a :: SchedulerSp(s) < a <= SchedulerSp(s) + FRAME_BYTES ==> m.mem[a] == mem[a])
  }

  lemma PassedInv(s: Sys, s': Sys, mem: seq<Byte>, m: Machine, code: Cpu)
    requires SchedulerRuns(s) && Ok(s') && |mem| == 0x10000 && m.Valid() && Passed(s, s', mem, m, code)
    ensures Inv(s')
  {
    hide CanariesIntact, FrameCore, ReadWord, Untouched, KInv, MtEnabled, Decode, Saved;
  }

  lemma PassedSaved(s: Sys, s': Sys, mem: seq<Byte>, m: Machine, code: Cpu)
    requires SchedulerRuns(s) && Inv(s') && |mem| == 0x10000 && m.Valid() && Passed(s, s', mem, m, code)
    ensures Saved(s') == Saved(s)[s'.k.active := None]
  {
    hide CanariesIntact, FrameCore, ReadWord, Untouched, KInv, MtEnabled, Decode, CoresSwapped;
    forall j: nat | j < TASKS_MAX
      ensures Saved(s')[j] == if j == s'.k.active then None else Saved(s)[j]
    {
      assert FrameOf(s', j) == if s'.k.tasks[j].status == Ready then Some(s'.k.tasks[j].sp) else None;
      if s'.k.tasks[j].status == Ready {
        FramesInBlocks(s', j);
        assert Untouched(mem, m.mem, j) && Untouched(m.mem, s'.m.mem, j);
        DecodeUntouched(mem, m.mem, s'.k.tasks[j].sp, j);
        DecodeUntouched(m.mem, s'.m.mem, s'.k.tasks[j].sp, j);
      }
    }
  }

  // The scheduler's frame: the first one lies above the new one and is kept, later ones land on it.
  lemma PassedScheduler(s: Sys, s': Sys, mem: seq<Byte>, m: Machine, code: Cpu)
    requires SchedulerRuns(s) && Inv(s') && |mem| == 0x10000 && m.Valid() && Passed(s, s', mem, m, code)
    ensures SchedulerCore(s') == if s.mode.FirstPass? then SchedulerCore(s)
                                 else Some(Core(code.r, code.flags.(i := false), code.pc, s.m.sp))
  {
    hide CanariesIntact, FrameCore, ReadWord, Untouched, KInv, MtEnabled, Decode, Saved, ReadyFrames, HandsOver;
    var t := SchedulerSp(s);
    if s.mode.FirstPass? {
      assert forall x :: m.sp < x <= High(s.sb) ==> s'.m.mem[x] == m.mem[x];
      FrameSame(mem, s'.m.mem, t);
    }
  }

  lemma PassedRunning(s: Sys, s': Sys, mem: seq<Byte>, m: Machine, code: Cpu)
    requires SchedulerRuns(s) && Inv(s') && |mem| == 0x10000 && m.Valid() && Passed(s, s', mem, m, code)
    ensures var next := Decode(mem, NextSp(s'.k), s'.k.active);
            RunningContext(s') == next.(core := ResumedCore(next.core, WithMt(s.m.mem[TIMSK1])))
  {
    hide CanariesIntact, FrameCore, ReadWord, KInv, MtEnabled, Saved, ReadyFrames, WithMt, LogicFlags;
    var t, b := NextSp(s'.k), s'.k.active;
    assert Untouched(mem, m.mem, b);
    FrameSame(mem, m.mem, t);
    assert s'.m.sp == t + FRAME_BYTES;
    assert forall x :: t + 33 < x <= High(b) ==> s'.m.mem[x] == m.mem[x];
    assert forall x :: Low(b) <= x <= High(b) ==> m.mem[x] == mem[x];
    assert StackAbove(s'.m.mem, t + FRAME_BYTES, b) == StackAbove(mem, t + FRAME_BYTES, b);
  }

  lemma PassedAlpha(s: Sys, s': Sys, mem: seq<Byte>, m: Machine, code: Cpu)
    requires SchedulerRuns(s) && Inv(s') && |mem| == 0x10000 && m.Valid() && Passed(s, s', mem, m, code)
    ensures Alpha(s') == Chose(s, mem, s'.k, code, s'.h.ran)
  {
    PassedSaved(s, s', mem, m, code);
    PassedScheduler(s, s', mem, m, code);
    PassedRunning(s, s', mem, m, code);
    hide CanariesIntact, FrameCore, ReadWord, Untouched, KInv, MtEnabled, Saved, ReadyFrames, Stacks, SchedulerCore;
    hide RunningContext, WithMt, Decode, BlocksSwitched;
  }

  lemma FirstPassRoom(s: Sys, block: seq<Byte>)
    requires SchedulerRuns(s) && |block| == TASK_MEMORY_SIZE && SchedulerPass(s.k, PassMemory(s, block)).Success?
    ensures Low(s.sb) + FRAME_BYTES <= s.m.sp <= High(s.sb) && FrameIn(SchedulerSp(s), s.sb)
  {
    var mem := PassMemory(s, block);
    if s.mode.FirstPass? {
      hide ReturnAddressOk, PointerIntegrity, SelectNextTask, PrepareNextTask;
      ScribbleKeeps(s, block);
      PointerIntegrityExact(mem, SchedulerSp(s), s.sb, s.k.heapStart);
    }
  }

  lemma HandsOverFrame(s: Sys, mem: seq<Byte>, k': Kernel, ran: set<nat>)
    requires SchedulerRuns(s) && |mem| == 0x10000 && k'.Shape() && HandsOver(s, mem, k', ran)
    ensures FrameIn(NextSp(k'), k'.active) && k'.active != s.sb
  {
  }

  lemma PassReached(s: Sys, code: Cpu, block: seq<Byte>, k': Kernel, m: Machine)
    requires SchedulerRuns(s) && |block| == TASK_MEMORY_SIZE && P.Wf(Alpha(s)) && code.Valid()
    requires SchedulerPass(s.k, PassMemory(s, block)) == Success(k') && k'.Shape()
    requires m == Machine(code.r, code.flags, code.pc, s.m.sp,
                          WriteWord(PassMemory(s, block), NEXT_TASK_SP, NextSp(k')))
    ensures Passed(s, DoPass(s, code, block), PassMemory(s, block), m, code)
    ensures P.Schedule(Alpha(s), code) == Chose(s, PassMemory(s, block), k', code, DoPass(s, code, block).h.ran)
    ensures DoPass(s, code, block).k == k'
  {
    hide FrameCore, CanariesIntact, PassMemory, Untouched, P.Wf, KInv, Decode, Stacks, ReadyFrames, Saved, HandsOver;
    hide Chose, P.Schedule, Switched, Yielded, MtEnabled, Lo, Hi, SchedulerPass;
    var mem := PassMemory(s, block);
    ScheduleExact(s, block, code);
    ScribbleKeeps(s, block);
    FirstPassRoom(s, block);
    HandsOverFrame(s, mem, k', if s.k.position == 0 then {k'.active} else s.h.ran + {k'.active});
    SchedulerEntersTask(mem, code, s.m.sp, NextSp(k'), s.sb, k'.active);
  }

  lemma PassRefines(s: Sys, e: Event)
    requires Inv(s) && Enabled(s, e) && e.Pass?
    ensures Square(s, e)
  {
    hide FrameCore, CanariesIntact, PassMemory, Untouched, P.Wf, KInv, Decode, Stacks, ReadyFrames, Saved, Chose;
    hide P.Schedule, Switched, Passed, Lo, Hi, SchedulerPass;
    AlphaApplies(s, e);
    AlphaWf(s);
    var mem := PassMemory(s, e.block);
    match SchedulerPass(s.k, mem) {
      case Failure(_) => ScheduleExact(s, e.block, e.code);
      case Success(k') =>
        var m := Machine(e.code.r, e.code.flags, e.code.pc, s.m.sp, WriteWord(mem, NEXT_TASK_SP, NextSp(k')));
        var s' := DoPass(s, e.code, e.block);
        PassReached(s, e.code, e.block, k', m);
        PassedInv(s, s', mem, m, e.code);
        PassedAlpha(s, s', mem, m, e.code);
    }
  }
}
