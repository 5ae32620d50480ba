/**
 Runs from boot that reach what the other modules talk about: user code under the
 scheduler, and every state in which the kernel does not keep a promise.
 */
module Witnesses {
  import opened Wrappers
  import opened Layout
  import opened Avr
  import opened ContextSwitch
  import opened Switch
  import opened ReturnPoint
  import opened Priority
  import opened KernelModel
  import opened KernelInvariant
  import opened System
  import opened Refinement
  import opened Squares
  import opened Runs
  import opened Contexts
  import opened Handshake
  import opened Windows
  import opened Pids
  import P = PrivateContexts

  // ----- the idle task alone with the scheduler -----

  const ONES: seq<Byte> := Repeat(1, 32)
  const ONLY_I: Flags := Flags(true, false, false, false, false, false, false, false)
  const CODE: Cpu := Cpu(ONES, ONLY_I, 100)
  const BLOCK: seq<Byte> := Repeat(0, TASK_MEMORY_SIZE)

  function Repeat(b: Byte, n: nat): (s: seq<Byte>)
    ensures |s| == n && forall k :: 0 <= k < n ==> s[k] == b
  {
    seq(n, _ => b)
  }

  const START: Event := StartScheduler(0, CODE, High(1), BLOCK)
  const PASS: Event := Pass(CODE, BLOCK)

  // Slot 0 idles, slot 1 is the scheduler's, the others are EMPTY.
  ghost predicate Alone(tasks: seq<Task>, idle: Status) {
    && |tasks| == TASKS_MAX && tasks[0].status == idle && tasks[0].priority == 0 && tasks[1].status == Scheduler
    && tasks[2].status == Empty && tasks[3].status == Empty && tasks[4].status == Empty
  }

  ghost predicate Home(a: P.State) {
    && P.Wf(a) && a.mode.User? && a.active == 0 && a.sb == 1 && Alone(a.tasks, Running)
    && a.cur.core.sp == High(0) && a.timsk / 2 % 2 == 1
  }

  // The idle task waits in a context at the top of its stack, or is about to.
  ghost predicate Leaving(a: P.State) {
    && P.Wf(a) && (a.mode.FirstPass? || a.mode.InScheduler?) && a.sb == 1
    && a.saved[0].Some? && a.saved[0].value.core.sp == High(0) && 0 <= a.saved[0].value.core.pc < PC_SPACE
    && (Alone(a.tasks, Ready) || (a.active == 0 && Alone(a.tasks, Running)))
    && P.PreviousFault(a) == None && a.timsk / 2 % 2 == 1
  }

  lemma OnlyIdle(tasks: seq<Task>, ran: set<nat>)
    requires Alone(tasks, Ready)
    ensures Best(tasks, Candidates(tasks, ran), TASKS_MAX) == Some(0)
  {
    assert SchedulableSlots(tasks) == {0};
    assert Candidates(tasks, ran) == {0};
    BestExact(tasks, {0}, TASKS_MAX);
    assert Best(tasks, {0}, TASKS_MAX).None? ==> 0 >= TASKS_MAX;
  }

  /** The next pass goes back to the idle task. */
  lemma BackHome(a: P.State, code: Cpu)
    requires Leaving(a) && code.Valid()
    ensures Home(P.Schedule(a, code))
  {
    hide P.PreviousFault, Candidates, Best, RanAfter, ResumedCore;
    var prev := a.tasks[a.active];
    var tasks := a.tasks[a.active := if prev.status == Running then prev.(status := Ready) else prev];
    OnlyIdle(tasks, a.ran);
    ResumedSp(a.saved[0].value.core, WithMt(a.timsk));
  }

  lemma ResumedSp(c: Core, mask: Byte)
    ensures ResumedCore(c, mask) == c.(flags := ResumedCore(c, mask).flags)
  {
  }

  lemma SlotOneIsNext(tasks: seq<Task>)
    requires |tasks| == TASKS_MAX && tasks[0].status != Empty && tasks[1].status == Empty
    ensures FirstEmpty(tasks, 0) == 1
  {
  }

  lemma PlantedParts(c: Core)
    requires |c.r| == 32 && 0 <= c.pc < PC_SPACE
    ensures var c' := PlantedCore(c);
            c'.r[0] == c.r[0] && (c.pc < 0x100 ==> c'.pc < 0x10000)
  {
    hide CarryFlags, Lo, Hi;
  }

  lemma StartLeaves(a: P.State)
    requires P.Wf(a) && a.mode.Starting? && a.active == 0 && a.cur.core.sp == High(0)
    requires a.tasks[0].status == Running && a.tasks[0].priority == 0
    requires forall i :: 0 < i < TASKS_MAX ==> a.tasks[i].status == Empty
    ensures CODE.Valid() && Leaving(P.Start(a, 0, CODE, High(1)))
  {
    hide FirstEmpty, PlantedCore, SregByte, WithMt;
    SlotOneIsNext(a.tasks);
    PlantedParts(Core(CODE.r, CODE.flags, CODE.pc, High(1)));
    EnablingSetsTheBit(a.timsk);
  }

  // One event, on both machines.
  lemma Go(s: Sys, e: Event)
    requires Inv(s) && Enabled(s, e)
    ensures var s' := System.Step(s, e);
            Inv(s') && P.Applies(Alpha(s), e) && Alpha(s') == P.Next(Alpha(s), e)
  {
    hide *;
    StepRefines(s, e);
    SquareParts(s, e);
  }

  lemma {:induction false} ReachesThen(s: Sys, es: seq<Event>, t: Sys, e: Event)
    requires System.Reaches(s, es, t) && Enabled(t, e)
    ensures System.Reaches(s, es + [e], System.Step(t, e))
    decreases |es|
  {
    hide Enabled, System.Step;
    if es == [] {
      assert [e][1..] == [];
    } else {
      ReachesThen(System.Step(s, es[0]), es[1..], t, e);
      assert (es + [e])[1..] == es[1..] + [e];
    }
  }

  lemma BootStarts(m: Machine, heapStart: Word)
    requires m.Valid()
    ensures var s := Boot(m, heapStart);
            && Inv(s) && Enabled(s, START) && P.Wf(Alpha(s)) && s.h.created == 1 && s.h.killed == {}
            && Leaving(P.Start(Alpha(s), 0, CODE, High(1)))
            && PidsOf(P.Start(Alpha(s), 0, CODE, High(1)), 0) && s.k.pidCnt == 1
  {
    hide Run, BootMemory, CanariesIntact, ReadWord, Leaving, P.Start, Round, FirstEmpty, StackAbove, Saved, PidsOf;
    var s := Boot(m, heapStart);
    BootInv(m, heapStart);
    AlphaWf(s);
    BootSp(m, heapStart);
    SlotOneIsNext(s.k.tasks);
    StartLeaves(Alpha(s));
    StartPids(Alpha(s));
  }

  lemma StartPids(a: P.State)
    requires P.Wf(a) && a.mode.Starting? && a.active == 0 && a.tasks[0].status == Running
    requires forall i :: 0 < i < TASKS_MAX ==> a.tasks[i].status == Empty
    requires a.pidCnt == 1 && forall i :: 0 <= i < TASKS_MAX ==> a.tasks[i].pid == 0
    ensures CODE.Valid() && PidsOf(P.Start(a, 0, CODE, High(1)), 0) && P.Start(a, 0, CODE, High(1)).pidCnt == 2
  {
    hide FirstEmpty, PlantedCore, SregByte, WithMt;
    SlotOneIsNext(a.tasks);
  }

  lemma BootSp(m: Machine, heapStart: Word)
    requires m.Valid()
    ensures Boot(m, heapStart).m.sp == High(0)
  {
    hide Run, Lo, Hi, BootMemory, CanariesIntact;
    BootMemoryOk(m.mem);
    SetSpEffect(SET_SP, m.(mem := WriteWord(BootMemory(m.mem), TASK_SP, High(0))));
  }

  // What the abstract state says about the concrete one.
  lemma HomeFacts(s: Sys)
    requires Inv(s) && Home(Alpha(s))
    ensures Ok(s) && s.mode.User? && s.k.active == 0 && s.m.sp == High(0) && RoomForFrame(s) && MtEnabled(s.m.mem)
    ensures FirstEmpty(s.k.tasks, 0) == 2 && s.k.Current().status == Running
  {
    hide KInv, CanariesIntact, ReadWord, FrameCore, Saved, StackAbove;
    SlotTwoIsNext(s.k.tasks);
  }

  lemma SlotTwoIsNext(tasks: seq<Task>)
    requires |tasks| == TASKS_MAX
    requires tasks[0].status != Empty && tasks[1].status != Empty && tasks[2].status == Empty
    ensures FirstEmpty(tasks, 0) == 2
  {
  }

  lemma LeavingFacts(s: Sys, code: Cpu, block: seq<Byte>)
    requires Inv(s) && Leaving(Alpha(s)) && code.Valid() && |block| == TASK_MEMORY_SIZE
    ensures Enabled(s, Pass(code, block))
  {
    hide KInv, CanariesIntact, ReadWord, FrameCore, Saved, StackAbove, P.PreviousFault, Alone;
  }

  lemma LeavingIsLive(s: Sys)
    requires Inv(s) && Leaving(Alpha(s))
    ensures !s.mode.Halted?
  {
  }

  lemma GoHome(s: Sys)
    requires Inv(s) && Leaving(Alpha(s))
    ensures Enabled(s, PASS) && Inv(System.Step(s, PASS)) && Home(Alpha(System.Step(s, PASS)))
  {
    hide Inv, Alpha, Enabled, System.Step, Leaving, Home, P.Schedule, P.Wf;
    LeavingFacts(s, CODE, BLOCK);
    Go(s, PASS);
    BackHome(Alpha(s), CODE);
  }

  /** From every boot, two events lead to user code under the scheduler. */
  lemma UserCodeIsReached(m: Machine, heapStart: Word) returns (s: Sys)
    requires m.Valid()
    ensures System.Reaches(Boot(m, heapStart), [START, PASS], s)
    ensures Inv(s) && Home(Alpha(s)) && s.mode.User? && s.h.created == 2 && PidsOf(Alpha(s), 0)
  {
    hide Alpha, Leaving, Home, P.Start, P.Wf, Boot, Inv, Enabled, System.Step, PidsOf, P.Schedule;
    BootStarts(m, heapStart);
    var s0 := Boot(m, heapStart);
    Go(s0, START);
    StartsWell(Alpha(s0));
    var s1 := System.Step(s0, START);
    LeavingIsLive(s1);
    GoHome(s1);
    PassPids(s1, 0);
    s := System.Step(s1, PASS);
    HomeFacts(s);
    TwoSteps(s0, START, PASS);
    CountedTwice(s0, s1, s);
  }

  lemma StartsWell(a: P.State)
    requires P.Applies(a, START)
    ensures P.Wf(a) && a.mode.Starting? && CODE.Valid() && P.Next(a, START) == P.Start(a, 0, CODE, High(1))
  {
    hide P.Start;
  }

  lemma TwoSteps(s: Sys, e: Event, e': Event)
    requires Enabled(s, e) && Enabled(System.Step(s, e), e')
    ensures System.Reaches(s, [e, e'], System.Step(System.Step(s, e), e'))
  {
    hide Enabled, System.Step;
    assert [] + [e] == [e] && [e] + [e'] == [e, e'];
    ReachesThen(s, [], s, e);
    ReachesThen(s, [e], System.Step(s, e), e');
  }

  lemma CountedTwice(s0: Sys, s1: Sys, s: Sys)
    requires Inv(s0) && Enabled(s0, START) && s1 == System.Step(s0, START) && !s1.mode.Halted?
    requires Inv(s1) && Enabled(s1, PASS) && s == System.Step(s1, PASS) && !s.mode.Halted?
    ensures s.h.created == s0.h.created + 1 && s.h.killed == s0.h.killed
  {
    hide Inv, Enabled, System.Step;
    StepCounted(s0, START);
    StepCounted(s1, PASS);
  }

  // ----- the strikes -----

  /** The strike inside the first switch can happen in a run from every boot, at both boundaries and any address. */
  lemma SwitchStrikeIsReached(m: Machine, heapStart: Word, popped: bool, pc: int) returns (s: Sys)
    requires m.Valid() && 0 <= pc < PC_SPACE
    ensures System.Reaches(Boot(m, heapStart), [START, PASS], s)
    ensures Enabled(s, StrikeInSwitch(ByYield, popped, pc))
  {
    hide Inv, Alpha, Home, Boot, Enabled, System.Step, RoomForFrame, MtEnabled, Leaving, P.Start, P.Wf;
    BootStarts(m, heapStart);
    s := UserCodeIsReached(m, heapStart);
    HomeFacts(s);
    var s0 := Boot(m, heapStart);
    AfterFirst(s0, [START, PASS], s);
    assert [START, PASS][1..] == [PASS];
    OnePass();
    FirstEntryOnly(s0, START, [PASS], s, popped, pc);
  }

  lemma AfterFirst(s: Sys, es: seq<Event>, s': Sys)
    requires es != [] && System.Reaches(s, es, s')
    ensures Enabled(s, es[0]) && System.Reaches(System.Step(s, es[0]), es[1..], s')
  {
    hide Enabled, System.Step;
  }

  lemma OnePass()
    ensures Passes([PASS]) == 1
  {
    assert Passes([PASS][1..]) == 0;
  }

  const YIELD: Event := SwitchTask(ByYield)
  const STRIKE: Event := SwitchTask(ByTimer)

  // The idle task yields into the scheduler, with interrupts and the timer on.
  lemma Yields(s: Sys)
    requires Inv(s) && Home(Alpha(s))
    ensures Enabled(s, YIELD)
    ensures var s' := System.Step(s, YIELD);
            && Inv(s') && s'.mode.InScheduler? && s'.k.active == 0 && s'.k.Current().status == Running
            && s'.m.flags.i && MtEnabled(s'.m.mem) && Enabled(s', STRIKE) && Enabled(s', StrikeInMasking(CODE))
  {
    hide Inv, Alpha, Home, RoomForFrame, MtEnabled, LogicFlags, Switched, SchedulerCore;
    HomeFacts(s);
    assert YIELD == SwitchTask(ByYield);
    SchedulerResumes(s, YIELD);
    CanBeStruck(System.Step(s, YIELD));
  }

  lemma CanBeStruck(s: Sys)
    requires Inv(s) && s.mode.InScheduler?
    ensures Ok(s) && MtEnabled(s.m.mem)
    ensures s.m.flags.i ==> Enabled(s, STRIKE) && Enabled(s, StrikeInMasking(CODE))
  {
    assert STRIKE == SwitchTask(ByTimer);
  }

  /**
   The other two strikes can happen as well: the one behind the PUSH of the masking,
   and the one before it, after which the next pass does halt.
   */
  lemma SchedulerStrikesAreReached(m: Machine, heapStart: Word) returns (s: Sys)
    requires m.Valid()
    ensures System.Reaches(Boot(m, heapStart), [START, PASS, YIELD], s)
    ensures Enabled(s, StrikeInMasking(CODE)) && Enabled(s, STRIKE) && Enabled(System.Step(s, STRIKE), PASS)
    ensures System.Step(System.Step(s, STRIKE), PASS).mode == Halted(PrevIntegrity)
  {
    hide Inv, Alpha, Home, Boot, Enabled, System.Step, RoomForFrame, MtEnabled;
    var s2 := UserCodeIsReached(m, heapStart);
    Yields(s2);
    ReachesThen(Boot(m, heapStart), [START, PASS], s2, YIELD);
    assert [START, PASS] + [YIELD] == [START, PASS, YIELD];
    s := System.Step(s2, YIELD);
    TimerLoses(s, STRIKE);
    var s' := System.Step(s, STRIKE);
    PassIsEnabled(s');
    NoEvents(s');
    TimerAtSchedulerEntry(s, STRIKE, [], s', PASS);
  }

  lemma PassIsEnabled(s: Sys)
    requires Inv(s) && s.mode.InScheduler?
    ensures Enabled(s, PASS)
  {
    assert PASS == Pass(CODE, BLOCK);
  }

  lemma NoEvents(s: Sys)
    ensures System.Reaches(s, [], s)
  {
  }

  // ----- flags that are lost, and a task that is turned down -----

  // The idle task comes to these registers, flags and program counter.
  function Computes(cpu: Cpu): Event {
    UserStep(cpu, High(0), BLOCK)
  }

  lemma StaysHome(s: Sys, cpu: Cpu)
    requires Inv(s) && Home(Alpha(s)) && cpu.Valid()
    ensures Enabled(s, Computes(cpu))
    ensures var s' := System.Step(s, Computes(cpu));
            && Inv(s') && Home(Alpha(s')) && CoreOf(s'.m) == Core(cpu.r, cpu.flags, cpu.pc, High(0))
  {
    HomeFacts(s);
    hide Inv, Alpha, RoomForFrame, MtEnabled;
    Go(s, Computes(cpu));
  }

  // A switched-out idle task whose context passes the checks is resumed by the next pass.
  lemma HomeLeaves(a: P.State)
    requires Home(a) && a.sched.Some? && P.ReturnAccepted(P.Suspended(a.cur).core)
    ensures Leaving(P.ToScheduler(a))
  {
    hide ResumedCore, P.ReturnAccepted, WithMt;
    EnablingSetsTheBit(a.timsk);
  }

  lemma LeavesAndReturns(s: Sys)
    requires Inv(s) && Home(Alpha(s)) && s.m.flags.i && P.ReturnAccepted(SavedCore(s.m))
    ensures Enabled(s, STRIKE)
    ensures var s1 := System.Step(s, STRIKE);
            && Inv(s1) && s1.mode.InScheduler? && Enabled(s1, PASS)
            && Inv(System.Step(s1, PASS)) && Home(Alpha(System.Step(s1, PASS)))
  {
    hide Inv, Alpha, Home, Leaving, RoomForFrame, MtEnabled, P.ReturnAccepted, P.ToScheduler, System.Step;
    HomeFacts(s);
    assert STRIKE == SwitchTask(ByTimer);
    Go(s, STRIKE);
    HomeContext(s);
    HomeLeaves(Alpha(s));
    StepHandshake(s, STRIKE);
    LeavingIsLive(System.Step(s, STRIKE));
    GoHome(System.Step(s, STRIKE));
  }

  lemma HomeContext(s: Sys)
    requires Inv(s) && Home(Alpha(s))
    ensures Alpha(s).sched.Some? && P.Suspended(Alpha(s).cur).core == SavedCore(s.m)
    ensures P.Applies(Alpha(s), STRIKE) && P.Next(Alpha(s), STRIKE) == P.ToScheduler(Alpha(s))
  {
    hide KInv, CanariesIntact, ReadWord, FrameCore, Saved, StackAbove, P.ToScheduler;
    assert STRIKE == SwitchTask(ByTimer);
  }

  const ZERO_SET: Cpu := Cpu(ONES, Flags(true, false, false, false, false, false, true, false), 100)

  /**
   A flag is lost in a run from every boot: the timer strikes the idle task with Z
   set, and the task goes on with Z clear.
   */
  lemma LostFlagIsReached(m: Machine, heapStart: Word) returns (s: Sys)
    requires m.Valid()
    ensures System.Reaches(Boot(m, heapStart), [START, PASS, Computes(ZERO_SET)], s)
    ensures s.mode.User? && s.m.flags.z && Enabled(s, STRIKE) && Enabled(System.Step(s, STRIKE), PASS)
    ensures var s' := System.Step(System.Step(s, STRIKE), PASS);
            s'.mode.User? && s'.k.active == s.k.active && s'.m.pc == s.m.pc && !s'.m.flags.z
  {
    hide Inv, Alpha, Home, Boot, Enabled, System.Step, RoomForFrame, MtEnabled, AwayUntil, P.ReturnAccepted;
    var s2 := UserCodeIsReached(m, heapStart);
    StaysHome(s2, ZERO_SET);
    ReachesThen(Boot(m, heapStart), [START, PASS], s2, Computes(ZERO_SET));
    assert [START, PASS] + [Computes(ZERO_SET)] == [START, PASS, Computes(ZERO_SET)];
    s := System.Step(s2, Computes(ZERO_SET));
    HomeFacts(s);
    OnesAreAccepted(SavedCore(s.m));
    LeavesAndReturns(s);
    var s1 := System.Step(s, STRIKE);
    HomeFacts(System.Step(s1, PASS));
    OneEventAway(s1, PASS, 0);
    TaskFindsItsContext(s, STRIKE, [PASS], System.Step(s1, PASS));
  }

  lemma OnesAreAccepted(c: Core)
    requires c.r == ONES && c.pc == 100
    ensures P.ReturnAccepted(c)
  {
    hide SregByte;
  }

  lemma OneEventAway(s: Sys, e: Event, b: nat)
    requires !s.mode.User? && Enabled(s, e)
    ensures AwayUntil(s, [e], System.Step(s, e), b)
  {
    hide Enabled, System.Step;
    assert [e][1..] == [];
  }

  const CLEAR: Cpu := Cpu(ONES[0 := 0], ONLY_I, 100)

  /** A good task is turned down in a run from every boot. */
  lemma TurnedDownIsReached(m: Machine, heapStart: Word) returns (s: Sys)
    requires m.Valid()
    ensures System.Reaches(Boot(m, heapStart), [START, PASS, Computes(CLEAR)], s)
    ensures s.mode.User? && Enabled(s, STRIKE) && Enabled(System.Step(s, STRIKE), PASS)
    ensures System.Step(System.Step(s, STRIKE), PASS).mode == Halted(PrevReturnAddress)
  {
    hide Inv, Alpha, Home, Boot, Enabled, System.Step, RoomForFrame, MtEnabled;
    var s2 := UserCodeIsReached(m, heapStart);
    StaysHome(s2, CLEAR);
    ReachesThen(Boot(m, heapStart), [START, PASS], s2, Computes(CLEAR));
    assert [START, PASS] + [Computes(CLEAR)] == [START, PASS, Computes(CLEAR)];
    s := System.Step(s2, Computes(CLEAR));
    HomeFacts(s);
    StrikeIsEnabled(s);
    StepHandshake(s, STRIKE);
    SuspendedByTimer(s, STRIKE);
    PassIsEnabled(System.Step(s, STRIKE));
    GoodTaskTurnedDown(s, STRIKE, PASS);
  }

  lemma StrikeIsEnabled(s: Sys)
    requires Inv(s) && Home(Alpha(s)) && s.m.flags.i
    ensures Enabled(s, STRIKE)
  {
    HomeFacts(s);
    assert STRIKE == SwitchTask(ByTimer);
  }

  // ----- pids that come back -----

  const FORK: Event := Spawn(0, CODE)

  // The pids in the slots, last being that of the task that ended last.
  ghost predicate PidsOf(a: P.State, last: Word) {
    && a.Live? && |a.tasks| == TASKS_MAX && a.tasks[0].pid == 0 && a.tasks[1].pid == 1 && a.tasks[2].pid == last
    && a.tasks[3].pid == 0 && a.tasks[4].pid == 0
  }

  // The idle task spawns a task that ends at once.
  lemma CycleLeaves(a: P.State, last: Word)
    requires Home(a) && PidsOf(a, last) && a.sched.Some?
    ensures CODE.Valid() && P.Applies(a, FORK) && P.Applies(P.Next(a, FORK), Kill)
    ensures var b := P.Next(P.Next(a, FORK), Kill);
            Leaving(b) && PidsOf(b, a.pidCnt) && b.pidCnt == (a.pidCnt + 1) % PIDS
  {
    hide FirstEmpty, PlantedCore, WithMt, ResumedCore, SregByte, P.PreviousFault;
    assert FORK == Spawn(0, CODE);
    SlotTwoIsNext(a.tasks);
    EnablingSetsTheBit(a.timsk);
    EnablingSetsTheBit(WithMt(a.timsk));
    NothingToCheck(P.Next(P.Next(a, FORK), Kill));
  }

  lemma NothingToCheck(a: P.State)
    requires P.Wf(a) && (a.mode.FirstPass? || a.mode.InScheduler?) && a.tasks[a.active].status == Empty
    ensures P.PreviousFault(a) == None
  {
  }

  lemma PassKeepsPids(a: P.State, last: Word)
    requires Leaving(a) && PidsOf(a, last)
    ensures CODE.Valid() && PidsOf(P.Schedule(a, CODE), last) && P.Schedule(a, CODE).pidCnt == a.pidCnt
  {
    BackHome(a, CODE);
    hide Leaving, P.Schedule;
    LeavingModes(a);
    PassOccupants(a, CODE);
  }

  lemma LeavingModes(a: P.State)
    requires Leaving(a)
    ensures P.Wf(a) && (a.mode.FirstPass? || a.mode.InScheduler?)
  {
  }

  lemma PassPids(s: Sys, last: Word)
    requires Inv(s) && Leaving(Alpha(s)) && PidsOf(Alpha(s), last)
    ensures Enabled(s, PASS) && Inv(System.Step(s, PASS)) && PidsOf(Alpha(System.Step(s, PASS)), last)
  {
    hide Inv, Alpha, Enabled, System.Step, Leaving, PidsOf, P.Schedule, P.Wf;
    LeavingFacts(s, CODE, BLOCK);
    Go(s, PASS);
    PassKeepsPids(Alpha(s), last);
  }

  // The spawned task has the processor and its whole stack.
  lemma Forks(s: Sys)
    requires Inv(s) && Home(Alpha(s))
    ensures Enabled(s, FORK)
    ensures var s' := System.Step(s, FORK);
            Inv(s') && !s'.mode.Halted? && Enabled(s', Kill) && s'.k.Current().pid == s.k.pidCnt
  {
    HomeFacts(s);
    assert FORK == Spawn(0, CODE);
    hide Alpha, Home, RoomForFrame, MtEnabled, FirstEmpty, SpawnTask, KInv, CanariesIntact, Stacks, ReadyFrames;
    hide System.Step;
    EmptySlotSuffices(s, FORK);
    StepHandshake(s, FORK);
    ForkedRoom(s);
  }

  lemma ForkedRoom(s: Sys)
    requires Inv(s) && Home(Alpha(s)) && Enabled(s, FORK)
    ensures var s' := System.Step(s, FORK); Ok(s') && RoomForFrame(s') && s'.k.Current().pid == s.k.pidCnt
  {
    hide Alpha, Home, Enabled, FirstEmpty, SpawnTask, KInv, CanariesIntact, Stacks, ReadyFrames, FrameCore, PlantedCore;
    hide Untouched, MtEnabled, ReadWord, WithMt, DoSpawn;
    HomeFacts(s);
    ActiveRuns(s);
    ForkIsSpawn(s);
    SpawnEffect(s, 0, CODE);
    SpawnedTasks(s, DoSpawn(s, 0, CODE), 0, CODE, 2);
    NewTop(s, DoSpawn(s, 0, CODE));
  }

  lemma ForkIsSpawn(s: Sys)
    requires Ok(s) && Enabled(s, FORK)
    ensures CODE.Valid() && System.Step(s, FORK) == DoSpawn(s, 0, CODE)
  {
    assert FORK == Spawn(0, CODE);
  }

  lemma NewTop(s: Sys, s': Sys)
    requires Ok(s) && Ok(s') && RoomForFrame(s) && Spawned(s, s', 0, CODE, 2)
    ensures s'.m.sp == High(2)
  {
    hide SpawnTask, FrameCore, PlantedCore, Untouched, CanariesIntact, ReadWord, MtEnabled, WithMt, FirstEmpty;
  }

  /** One more task that comes and goes, from home to home. */
  lemma Cycle(s: Sys, last: Word)
    requires Inv(s) && Home(Alpha(s)) && PidsOf(Alpha(s), last)
    ensures Enabled(s, FORK)
    ensures var s1 := System.Step(s, FORK);
            && Enabled(s1, Kill)
            && var s2 := System.Step(s1, Kill);
               && Enabled(s2, PASS)
               && var s3 := System.Step(s2, PASS);
                  && Inv(s3) && Home(Alpha(s3)) && PidsOf(Alpha(s3), s.k.pidCnt)
                  && s3.h.created == s.h.created + 1 && s3.h.killed == s.h.killed + {s.k.pidCnt}
  {
    hide Inv, Alpha, Home, Leaving, PidsOf, Enabled, System.Step, P.Next, P.Wf;
    Forks(s);
    var s1 := System.Step(s, FORK);
    var s2 := System.Step(s1, Kill);
    HomeAlpha(s);
    CycleLeaves(Alpha(s), last);
    Go(s, FORK);
    Go(s1, Kill);
    LeavingIsLive(s2);
    GoHome(s2);
    PassPids(s2, s.k.pidCnt);
    var s3 := System.Step(s2, PASS);
    HomeFacts(s3);
    StepCounted(s, FORK);
    StepCounted(s1, Kill);
    StepCounted(s2, PASS);
  }

  lemma HomeAlpha(s: Sys)
    requires Inv(s) && Home(Alpha(s))
    ensures Alpha(s).sched.Some? && Alpha(s).pidCnt == s.k.pidCnt
  {
    hide KInv, CanariesIntact, ReadWord, FrameCore, Saved, StackAbove;
  }

  lemma {:induction false} Cycles(m: Machine, heapStart: Word, n: nat) returns (es: seq<Event>, s: Sys)
    requires m.Valid()
    ensures System.Reaches(Boot(m, heapStart), es, s) && Inv(s) && Histories(s) && Home(Alpha(s))
    ensures s.h.created == n + 2 && (n > 0 ==> 2 in s.h.killed && PidsOf(Alpha(s), (n + 1) % PIDS))
    ensures n == 0 ==> PidsOf(Alpha(s), 0)
    decreases n
  {
    hide Inv, Alpha, Home, PidsOf, Enabled, System.Step, Boot, Histories;
    if n == 0 {
      s := UserCodeIsReached(m, heapStart);
      es := [START, PASS];
    } else {
      var fs, t := Cycles(m, heapStart, n - 1);
      var last: Word := if n == 1 then 0 else n % PIDS;
      Cycle(t, last);
      NextPid(t);
      var s1 := System.Step(t, FORK);
      var s2 := System.Step(s1, Kill);
      ReachesThen(Boot(m, heapStart), fs, t, FORK);
      ReachesThen(Boot(m, heapStart), fs + [FORK], s1, Kill);
      ReachesThen(Boot(m, heapStart), fs + [FORK] + [Kill], s2, PASS);
      es, s := fs + [FORK] + [Kill] + [PASS], System.Step(s2, PASS);
    }
    SlotConservation(m, heapStart, es, s);
  }

  lemma NextPid(s: Sys)
    requires Histories(s)
    ensures s.k.pidCnt == s.h.created % PIDS && (s.h.created == 2 ==> s.k.pidCnt == 2)
  {
    hide PidHistory, LiveSlots;
  }

  /**
   Pids do come back in a run from every boot: after 65538 creations pid 2, whose
   task has been killed and whose status is EMPTY, is given to the next task.
   */
  lemma PidReuseIsReached(m: Machine, heapStart: Word) returns (es: seq<Event>, s: Sys)
    requires m.Valid()
    ensures System.Reaches(Boot(m, heapStart), es, s) && s.k.Shape() && 2 in s.h.killed && TaskStatus(s.k, 2) == Empty
    ensures Enabled(s, FORK) && System.Step(s, FORK).k.Shape() && TaskStatus(System.Step(s, FORK).k, 2) != Empty
  {
    hide Inv, Alpha, Home, PidsOf, Enabled, System.Step, Boot, Histories, TaskStatus;
    es, s := Cycles(m, heapStart, PIDS);
    HomeFacts(s);
    Forks(s);
    NextPid(s);
    InvShape(s);
    TwoIsFree(s);
    StatusRevives(s, FORK, 2);
  }

  lemma TwoIsFree(s: Sys)
    requires Inv(s) && !s.mode.Halted? && PidsOf(Alpha(s), 1) && s.k.Shape()
    ensures TaskStatus(s.k, 2) == Empty
  {
    hide KInv, CanariesIntact, ReadWord, FrameCore, Saved, FindPid;
  }
}
