/**
 Pid history over whole runs: what task_status says about a pid, across the reuse
 of slots, and what wait_for_task_finnish may conclude from it.
 */
module Pids {
  import opened Wrappers
  import opened Layout
  import opened Avr
  import opened ContextSwitch
  import opened Switch
  import opened ReturnPoint
  import opened Priority
  import opened KernelModel
  import opened KernelInvariant
  import opened System
  import opened Refinement
  import opened Squares
  import opened SchedulerSquare
  import opened Runs
  import opened Contexts
  import opened Handshake
  import P = PrivateContexts

  const PIDS := 0x10000

  predicate Alive(t: Task) {
    t.status != Empty
  }

  // ----- how the occupants of the slots change -----

  predicate SameOccupants(a: seq<Task>, b: seq<Task>) {
    |a| == |b| == TASKS_MAX && forall i :: 0 <= i < TASKS_MAX ==> b[i].pid == a[i].pid && (Alive(b[i]) <==> Alive(a[i]))
  }

  // The lowest EMPTY slot is taken by a task with the next pid.
  predicate Taken(a: seq<Task>, b: seq<Task>, pid: Word) {
    && |a| == |b| == TASKS_MAX
    && var i := FirstEmpty(a, 0);
       && i < TASKS_MAX && b[i].pid == pid && Alive(b[i])
       && forall j :: 0 <= j < TASKS_MAX && j != i ==> b[j].pid == a[j].pid && (Alive(b[j]) <==> Alive(a[j]))
  }

  predicate Vacated(a: seq<Task>, b: seq<Task>, i: nat) {
    && |a| == |b| == TASKS_MAX && i < TASKS_MAX && Alive(a[i]) && b[i].pid == a[i].pid && !Alive(b[i])
    && forall j :: 0 <= j < TASKS_MAX && j != i ==> b[j].pid == a[j].pid && (Alive(b[j]) <==> Alive(a[j]))
  }

  predicate Changed(e: Event, a: seq<Task>, active: nat, pidCnt: Word, b: seq<Task>) {
    match e
    case Spawn(_, _) => Taken(a, b, pidCnt)
    case StartScheduler(_, _, _, _) => Taken(a, b, pidCnt)
    case Kill => Vacated(a, b, active)
    case _ => SameOccupants(a, b)
  }

  lemma PassOccupants(a: P.State, code: Cpu)
    requires P.Wf(a) && (a.mode.FirstPass? || a.mode.InScheduler?) && P.Schedule(a, code).Live?
    ensures SameOccupants(a.tasks, P.Schedule(a, code).tasks) && P.Schedule(a, code).pidCnt == a.pidCnt
  {
    hide ResumedCore, P.StackAccepted, Candidates, Best, RanAfter, WithMt;
    var prev := a.tasks[a.active];
    var tasks := a.tasks[a.active := if prev.status == Running then prev.(status := Ready) else prev];
    BestIsReady(tasks, a.ran, Best(tasks, Candidates(tasks, a.ran), TASKS_MAX).value);
  }

  lemma NextOccupants(a: P.State, e: Event)
    requires Roles(a) && P.Applies(a, e) && P.Next(a, e).Live?
    ensures Changed(e, a.tasks, a.active, a.pidCnt, P.Next(a, e).tasks)
    ensures P.Next(a, e).pidCnt == if e.Spawn? || e.StartScheduler? then (a.pidCnt + 1) % PIDS else a.pidCnt
  {
    hide ResumedCore, P.Schedule, WithMt, FirstEmpty, PlantedCore;
    if e.Pass? {
      PassOccupants(a, e.code);
    }
  }

  // The counters that go with the change.
  predicate Counted(e: Event, h: History, pid: Word, h': History) {
    match e
    case Spawn(_, _) => h'.created == h.created + 1 && h'.kills == h.kills && h'.killed == h.killed
    case StartScheduler(_, _, _, _) => h'.created == h.created + 1 && h'.kills == h.kills && h'.killed == h.killed
    case Kill => h'.created == h.created && h'.kills == h.kills + 1 && h'.killed == h.killed + {pid}
    case _ => h'.created == h.created && h'.kills == h.kills && h'.killed == h.killed
  }

  lemma AlphaFields(s: Sys)
    requires Inv(s) && !s.mode.Halted?
    ensures var a := Alpha(s);
            && a.Live? && a.tasks == Erased(s.k.tasks) && |s.k.tasks| == TASKS_MAX
            && a.active == s.k.active && a.pidCnt == s.k.pidCnt
  {
  }

  lemma StepOccupants(s: Sys, e: Event)
    requires Inv(s) && Enabled(s, e) && !System.Step(s, e).mode.Halted?
    ensures var s' := System.Step(s, e);
            && Inv(s') && Changed(e, s.k.tasks, s.k.active, s.k.pidCnt, s'.k.tasks)
            && s'.k.pidCnt == if e.Spawn? || e.StartScheduler? then (s.k.pidCnt + 1) % PIDS else s.k.pidCnt
  {
    hide *;
    EnabledIsLive(s, e);
    StepRefines(s, e);
    SquareParts(s, e);
    AlphaRoles(s);
    var s' := System.Step(s, e);
    AlphaFields(s);
    AlphaFields(s');
    NextOccupants(Alpha(s), e);
    ErasedOccupants(e, s.k.tasks, s.k.active, s.k.pidCnt, s'.k.tasks);
  }

  lemma ErasedOccupants(e: Event, a: seq<Task>, active: nat, pidCnt: Word, b: seq<Task>)
    requires |a| == |b| == TASKS_MAX && Changed(e, Erased(a), active, pidCnt, Erased(b))
    ensures Changed(e, a, active, pidCnt, b)
  {
    SameFirstEmpty(a);
    hide FirstEmpty;
  }

  lemma StepCounted(s: Sys, e: Event)
    requires Inv(s) && Enabled(s, e)
    ensures var s' := System.Step(s, e);
            if s'.mode.Halted? then s'.k == s.k && s'.h == s.h else Counted(e, s.h, s.k.Current().pid, s'.h)
  {
    hide Inv, Switched, KillCurrentTask, SchedulerPass, SpawnTask, WriteBlock, SavedWithReturnPoint, Launched;
    hide PassMemory;
    StepHandshake(s, e);
  }

  // ----- the history of pids -----

  // An assigned pid belongs to exactly one live slot until its task is killed. EMPTY slots keep
  // the pid of a killed task, or the 0 they started with.
  ghost predicate PidHistory(tasks: seq<Task>, created: nat, killed: set<int>) {
    && |tasks| == TASKS_MAX
    && (forall i :: 0 <= i < TASKS_MAX && Alive(tasks[i]) ==> tasks[i].pid < created && tasks[i].pid !in killed)
    && (forall i, j :: 0 <= i < j < TASKS_MAX && Alive(tasks[i]) && Alive(tasks[j]) ==> tasks[i].pid != tasks[j].pid)
    && (forall p :: 0 <= p < created && p !in killed ==>
          exists i :: 0 <= i < TASKS_MAX && Alive(tasks[i]) && tasks[i].pid == p)
    && (forall i :: 0 <= i < TASKS_MAX && !Alive(tasks[i]) ==> tasks[i].pid in killed || (tasks[i].pid == 0 && i != 0))
    && (forall p :: p in killed ==> 0 <= p < created)
    && (0 !in killed && created > 0 ==> Alive(tasks[0]) && tasks[0].pid == 0)
  }

  function LiveSlots(tasks: seq<Task>): set<nat> {
    set i: nat | 0 <= i < |tasks| && Alive(tasks[i])
  }

  ghost predicate Histories(s: Sys) {
    && s.k.Shape()
    && s.k.pidCnt == s.h.created % PIDS
    && |LiveSlots(s.k.tasks)| + s.h.kills == s.h.created
    && (s.h.created <= PIDS ==> PidHistory(s.k.tasks, s.h.created, s.h.killed))
  }

  lemma TakenHistory(a: seq<Task>, b: seq<Task>, created: nat, killed: set<int>)
    requires PidHistory(a, created, killed) && created < PIDS && Taken(a, b, created)
    ensures PidHistory(b, created + 1, killed)
  {
    hide FirstEmpty;
    forall p | 0 <= p < created + 1 && p !in killed
      ensures exists i :: 0 <= i < TASKS_MAX && Alive(b[i]) && b[i].pid == p
    {
      if p == created {
        assert Alive(b[FirstEmpty(a, 0)]);
      } else {
        var i :| 0 <= i < TASKS_MAX && Alive(a[i]) && a[i].pid == p;
        assert Alive(b[i]);
      }
    }
  }

  lemma VacatedHistory(a: seq<Task>, b: seq<Task>, created: nat, killed: set<int>, v: nat)
    requires PidHistory(a, created, killed) && Vacated(a, b, v)
    ensures PidHistory(b, created, killed + {a[v].pid})
  {
    forall p | 0 <= p < created && p !in killed + {a[v].pid}
      ensures exists i :: 0 <= i < TASKS_MAX && Alive(b[i]) && b[i].pid == p
    {
      var i :| 0 <= i < TASKS_MAX && Alive(a[i]) && a[i].pid == p;
      assert Alive(b[i]);
    }
  }

  lemma SameHistory(a: seq<Task>, b: seq<Task>, created: nat, killed: set<int>)
    requires PidHistory(a, created, killed) && SameOccupants(a, b)
    ensures PidHistory(b, created, killed) && LiveSlots(b) == LiveSlots(a)
  {
    forall p | 0 <= p < created && p !in killed
      ensures exists i :: 0 <= i < TASKS_MAX && Alive(b[i]) && b[i].pid == p
    {
      var i :| 0 <= i < TASKS_MAX && Alive(a[i]) && a[i].pid == p;
      assert Alive(b[i]);
    }
  }

  lemma LiveSlotsChange(a: seq<Task>, b: seq<Task>, i: nat)
    requires |a| == |b| && i < |a|
    requires forall j :: 0 <= j < |a| && j != i ==> (Alive(b[j]) <==> Alive(a[j]))
    ensures !Alive(a[i]) && Alive(b[i]) ==> LiveSlots(b) == LiveSlots(a) + {i} && |LiveSlots(b)| == |LiveSlots(a)| + 1
    ensures Alive(a[i]) && !Alive(b[i]) ==> LiveSlots(b) == LiveSlots(a) - {i} && |LiveSlots(b)| == |LiveSlots(a)| - 1
    ensures (Alive(a[i]) <==> Alive(b[i])) ==> LiveSlots(b) == LiveSlots(a)
  {
    assert !Alive(a[i]) && Alive(b[i]) ==> LiveSlots(b) == LiveSlots(a) + {i};
    assert Alive(a[i]) && !Alive(b[i]) ==> LiveSlots(b) == LiveSlots(a) - {i};
  }

  // One event on the occupants and the counters.
  lemma HistoryStep(e: Event, a: seq<Task>, active: nat, pidCnt: Word, b: seq<Task>, h: History, h': History)
    requires |a| == TASKS_MAX && active < TASKS_MAX && pidCnt == h.created % PIDS
    requires Changed(e, a, active, pidCnt, b) && Counted(e, h, a[active].pid, h')
    requires |LiveSlots(a)| + h.kills == h.created && (h.created <= PIDS ==> PidHistory(a, h.created, h.killed))
    ensures |LiveSlots(b)| + h'.kills == h'.created && (h'.created <= PIDS ==> PidHistory(b, h'.created, h'.killed))
  {
    hide PidHistory, LiveSlots, FirstEmpty;
    match e
    case Spawn(_, _) =>
      LiveSlotsChange(a, b, FirstEmpty(a, 0));
      if h'.created <= PIDS { TakenHistory(a, b, h.created, h.killed); }
    case StartScheduler(_, _, _, _) =>
      LiveSlotsChange(a, b, FirstEmpty(a, 0));
      if h'.created <= PIDS { TakenHistory(a, b, h.created, h.killed); }
    case Kill =>
      LiveSlotsChange(a, b, active);
      if h'.created <= PIDS { VacatedHistory(a, b, h.created, h.killed, active); }
    case _ =>
      LiveSlotsChange(a, b, 0);
      if h'.created <= PIDS { SameHistory(a, b, h.created, h.killed); }
  }

  lemma StepHistories(s: Sys, e: Event)
    requires Inv(s) && Enabled(s, e) && Histories(s)
    ensures Inv(System.Step(s, e)) && Histories(System.Step(s, e))
  {
    hide Inv, Enabled, System.Step, PidHistory, LiveSlots, Changed, Counted;
    StepCounted(s, e);
    StepHandshake(s, e);
    var s' := System.Step(s, e);
    if !s'.mode.Halted? {
      StepOccupants(s, e);
      HistoryStep(e, s.k.tasks, s.k.active, s.k.pidCnt, s'.k.tasks, s.h, s'.h);
      PidCounted(e, s.h, s.k.Current().pid, s'.h, s.k.pidCnt, s'.k.pidCnt);
    }
  }

  lemma PidCounted(e: Event, h: History, pid: Word, h': History, pidCnt: Word, pidCnt': Word)
    requires Counted(e, h, pid, h') && pidCnt == h.created % PIDS
    requires pidCnt' == if e.Spawn? || e.StartScheduler? then (pidCnt + 1) % PIDS else pidCnt
    ensures pidCnt' == h'.created % PIDS
  {
  }

  lemma {:induction false} RunHistories(s: Sys, es: seq<Event>, s': Sys)
    requires Inv(s) && Histories(s) && System.Reaches(s, es, s')
    ensures Inv(s') && Histories(s')
    decreases |es|
  {
    hide Inv, Enabled, System.Step, Histories;
    if es != [] {
      StepHistories(s, es[0]);
      RunHistories(System.Step(s, es[0]), es[1..], s');
    }
  }

  lemma BootHistories(m: Machine, heapStart: Word)
    requires m.Valid()
    ensures Histories(Boot(m, heapStart))
  {
    hide Run;
    var tasks := Boot(m, heapStart).k.tasks;
    assert LiveSlots(tasks) == {0};
    assert Alive(tasks[0]) && tasks[0].pid == 0;
  }

  /** The number of live slots is creations minus kills, in every run from boot. */
  lemma SlotConservation(m: Machine, heapStart: Word, es: seq<Event>, s': Sys)
    requires m.Valid() && System.Reaches(Boot(m, heapStart), es, s')
    ensures Inv(s') && Histories(s') && |LiveSlots(s'.k.tasks)| == s'.h.created - s'.h.kills <= TASKS_MAX
  {
    BootInv(m, heapStart);
    BootHistories(m, heapStart);
    hide Inv, Boot;
    RunHistories(Boot(m, heapStart), es, s');
    SubsetOfRange(LiveSlots(s'.k.tasks), TASKS_MAX);
  }

  /** During the first 65536 creations task_status is EMPTY for an assigned pid exactly when its task was killed. */
  lemma StatusExact(s: Sys, p: Word)
    requires Histories(s) && s.h.created <= PIDS && p < s.h.created
    ensures TaskStatus(s.k, p) == Empty <==> p in s.h.killed
  {
    hide LiveSlots;
    var i := FindPid(s.k.tasks, p, 0);
    if p !in s.h.killed {
      var j :| 0 <= j < TASKS_MAX && Alive(s.k.tasks[j]) && s.k.tasks[j].pid == p;
      assert i <= j;
    }
  }

  /** And get_task finds every live task by its pid: no other slot with that pid lies before it. */
  lemma LiveIsFound(s: Sys, j: nat)
    requires Histories(s) && s.h.created <= PIDS && j < TASKS_MAX && Alive(s.k.tasks[j])
    ensures GetTask(s.k, s.k.tasks[j].pid) == Some(j)
  {
    hide LiveSlots;
    var i := FindPid(s.k.tasks, s.k.tasks[j].pid, 0);
    assert i <= j;
  }

  /**
   What user code reads during the first 65536 creations, in every run from boot:
   its own task is RUNNING, the scheduler's task is SCHEDULER, every other task that
   has not been killed is READY, and the pids of killed tasks are EMPTY.
   */
  lemma StatusInUserCode(m: Machine, heapStart: Word, es: seq<Event>, s': Sys)
    requires m.Valid() && System.Reaches(Boot(m, heapStart), es, s') && s'.mode.User? && s'.h.created <= 65536
    ensures s'.k.Shape() && s'.sb < 5 && s'.k.active != s'.sb
    ensures var own, scheduler := s'.k.tasks[s'.k.active].pid, s'.k.tasks[s'.sb].pid;
            && own < s'.h.created && own !in s'.h.killed && TaskStatus(s'.k, own) == Running
            && scheduler < s'.h.created && scheduler !in s'.h.killed && TaskStatus(s'.k, scheduler) == Scheduler
            && forall p: Word :: p < s'.h.created && p != own && p != scheduler ==>
                 TaskStatus(s'.k, p) == if p in s'.h.killed then Empty else Ready
  {
    hide Inv, Boot, System.Step, Enabled, Histories, UserInvariant, TaskStatus, LiveSlots;
    SlotConservation(m, heapStart, es, s');
    UserCodeInvariant(m, heapStart, es, s');
    UserRoles(s');
    StatusOfLive(s', s'.k.active);
    StatusOfLive(s', s'.sb);
    forall p: Word | p < s'.h.created && p != s'.k.tasks[s'.k.active].pid && p != s'.k.tasks[s'.sb].pid
      ensures TaskStatus(s'.k, p) == if p in s'.h.killed then Empty else Ready
    {
      StatusExact(s', p);
      if p !in s'.h.killed {
        var j := OwnerOf(s', p);
        StatusOfLive(s', j);
      }
    }
  }

  lemma UserRoles(s: Sys)
    requires Inv(s) && s.mode.User?
    ensures s.k.Shape() && s.sb < TASKS_MAX && s.k.active != s.sb
    ensures s.k.tasks[s.k.active].status == Running && s.k.tasks[s.sb].status == Scheduler
  {
  }

  lemma OwnerOf(s: Sys, p: Word) returns (j: nat)
    requires Histories(s) && s.h.created <= PIDS && p < s.h.created && p !in s.h.killed
    ensures s.k.Shape() && j < TASKS_MAX && s.k.tasks[j].status != Empty && s.k.tasks[j].pid == p
  {
    hide LiveSlots;
    j :| 0 <= j < TASKS_MAX && Alive(s.k.tasks[j]) && s.k.tasks[j].pid == p;
  }

  lemma StatusOfLive(s: Sys, j: nat)
    requires Histories(s) && s.h.created <= PIDS && UserInvariant(s) && j < TASKS_MAX && s.k.tasks[j].status != Empty
    ensures s.k.tasks[j].pid < s.h.created && s.k.tasks[j].pid !in s.h.killed
    ensures TaskStatus(s.k, s.k.tasks[j].pid)
         == if j == s.k.active then Running else if j == s.sb then Scheduler else Ready
  {
    hide LiveSlots;
    LiveIsFound(s, j);
  }

  // ----- waiting for a task to end -----

  // The task with pid p has ended, or it is alive in slot i.
  ghost predicate EndedOrIn(s: Sys, p: Word, i: nat) {
    |s.k.tasks| == TASKS_MAX && (p in s.h.killed || (i < TASKS_MAX && Alive(s.k.tasks[i]) && s.k.tasks[i].pid == p))
  }

  lemma StepEnds(s: Sys, e: Event, p: Word, i: nat)
    requires Inv(s) && Enabled(s, e) && EndedOrIn(s, p, i)
    ensures Inv(System.Step(s, e)) && EndedOrIn(System.Step(s, e), p, i)
  {
    hide Inv, Enabled, System.Step, FirstEmpty;
    StepCounted(s, e);
    StepHandshake(s, e);
    if !System.Step(s, e).mode.Halted? {
      StepOccupants(s, e);
    }
  }

  lemma {:induction false} RunEnds(s: Sys, es: seq<Event>, s': Sys, p: Word, i: nat)
    requires Inv(s) && System.Reaches(s, es, s') && EndedOrIn(s, p, i)
    ensures Inv(s') && EndedOrIn(s', p, i)
    decreases |es|
  {
    hide Inv, Enabled, System.Step, EndedOrIn;
    if es != [] {
      StepEnds(s, es[0], p, i);
      RunEnds(System.Step(s, es[0]), es[1..], s', p, i);
    }
  }

  lemma {:induction false} RunGrows(s: Sys, es: seq<Event>, s': Sys)
    requires Inv(s) && System.Reaches(s, es, s')
    ensures Inv(s') && s.h.killed <= s'.h.killed && s.h.created <= s'.h.created
    decreases |es|
  {
    hide Inv, Enabled, System.Step;
    if es != [] {
      StepCounted(s, es[0]);
      StepHandshake(s, es[0]);
      RunGrows(System.Step(s, es[0]), es[1..], s');
    }
  }

  /**
   wait_for_task_finnish returns only after the task has ended: if get_task ran in
   state s and the status it found is read as EMPTY in any later state s', the
   task with that pid has been killed by then.
   */
  lemma WaitReturnsAfterTheEnd(s: Sys, es: seq<Event>, s': Sys, p: Word)
    requires Inv(s) && Histories(s) && System.Reaches(s, es, s') && s'.h.created <= PIDS && p < s.h.created
    ensures Inv(s') && (StatusOfFound(s'.k, GetTask(s.k, p)) == Empty ==> p in s'.h.killed)
  {
    hide Inv, PidHistory, LiveSlots;
    var i := FindPid(s.k.tasks, p, 0);
    RunGrows(s, es, s');
    StatusExact(s, p);
    RunEnds(s, es, s', p, i);
    InvShape(s');
  }

  /** Once EMPTY, the status of an assigned pid stays EMPTY. */
  lemma EmptyForGood(s: Sys, es: seq<Event>, s': Sys, p: Word)
    requires Inv(s) && Histories(s) && System.Reaches(s, es, s') && s'.h.created <= PIDS && p < s.h.created
    requires TaskStatus(s.k, p) == Empty
    ensures Histories(s') && TaskStatus(s'.k, p) == Empty
  {
    hide Inv, PidHistory, LiveSlots, TaskStatus;
    RunHistories(s, es, s');
    WaitReturnsAfterTheEnd(s, es, s', p);
    RunGrows(s, es, s');
    StatusExact(s, p);
    StatusExact(s', p);
  }

  // ----- the reuse of pids -----

  // The first slot with pid p is the next to be taken, and behind it p is alive.
  predicate Shadowed(tasks: seq<Task>, p: Word) {
    var i := FirstEmpty(tasks, 0);
    && i < |tasks| && FindPid(tasks, p, 0) == i
    && FindPid(tasks, p, i + 1) < |tasks| && Alive(tasks[FindPid(tasks, p, i + 1)])
  }

  predicate EmptyStatus(tasks: seq<Task>, p: Word) {
    var j := FindPid(tasks, p, 0);
    j < |tasks| ==> !Alive(tasks[j])
  }

  lemma TakenRevives(a: seq<Task>, b: seq<Task>, pid: Word, p: Word)
    requires Taken(a, b, pid) && EmptyStatus(a, p)
    ensures !EmptyStatus(b, p) <==> pid == p || Shadowed(a, p)
  {
    hide FirstEmpty, FindPid;
    var i := FirstEmpty(a, 0);
    var f, g := FindPid(a, p, 0), FindPid(b, p, 0);
    if pid == p {
      assert b[i].pid == p && g <= i;
    } else if f == i {
      var h := FindPid(a, p, i + 1);
      assert forall j :: 0 <= j <= i ==> b[j].pid != p;
      assert g == h;
    } else {
      assert f < |a| ==> f > i && b[f].pid == p;
      assert g == f;
    }
  }

  lemma OthersRevive(e: Event, a: seq<Task>, active: nat, pidCnt: Word, b: seq<Task>, p: Word)
    requires Changed(e, a, active, pidCnt, b) && !e.Spawn? && !e.StartScheduler? && EmptyStatus(a, p)
    ensures EmptyStatus(b, p)
  {
    hide FindPid;
    var f, g := FindPid(a, p, 0), FindPid(b, p, 0);
    assert f < |a| ==> b[f].pid == p;
    assert g < |b| ==> a[g].pid == p;
  }

  lemma StatusOfPid(k: Kernel, p: Word)
    requires k.Shape()
    ensures TaskStatus(k, p) == Empty <==> EmptyStatus(k.tasks, p)
  {
  }

  /**
   The status of a pid goes from EMPTY to alive iff a task is created with this pid,
   or in the one slot that hides another live task with it. For every state, every
   event and every pid.
   */
  lemma StatusRevives(s: Sys, e: Event, p: Word)
    requires Inv(s) && Enabled(s, e) && !System.Step(s, e).mode.Halted? && s.k.Shape() && TaskStatus(s.k, p) == Empty
    ensures Inv(System.Step(s, e)) && System.Step(s, e).k.Shape()
    ensures TaskStatus(System.Step(s, e).k, p) != Empty
      <==> (e.Spawn? || e.StartScheduler?) && (s.k.pidCnt == p || Shadowed(s.k.tasks, p))
  {
    hide Inv, Enabled, System.Step, TaskStatus, EmptyStatus, Shadowed, FirstEmpty;
    StepOccupants(s, e);
    var s' := System.Step(s, e);
    InvShape(s');
    StatusOfPid(s.k, p);
    StatusOfPid(s'.k, p);
    if e.Spawn? || e.StartScheduler? {
      TakenRevives(s.k.tasks, s'.k.tasks, s.k.pidCnt, p);
    } else {
      OthersRevive(e, s.k.tasks, s.k.active, s.k.pidCnt, s'.k.tasks, p);
    }
  }

  /** During the first 65536 creations no live task is hidden, so only the assignment of the pid itself counts. */
  lemma NothingShadowed(s: Sys, p: Word)
    requires Histories(s) && s.h.created <= PIDS
    ensures !Shadowed(s.k.tasks, p)
  {
    hide LiveSlots;
  }

  /**
   From creation 65537 on every spawn makes an old pid alive again, whatever became
   of its former owner: creation number n reuses pid (n - 1) mod 65536.
   */
  lemma PidsWrap(s: Sys, e: Event)
    requires Inv(s) && Histories(s) && PIDS <= s.h.created
    requires Enabled(s, e) && e.Spawn? && FirstEmpty(s.k.tasks, 0) < TASKS_MAX
    ensures var s' := System.Step(s, e);
            && Inv(s') && s'.k.Shape() && s'.h.created == s.h.created + 1
            && TaskStatus(s'.k, s.h.created % PIDS) != Empty
  {
    hide Inv, Enabled, System.Step, LiveSlots, PidHistory;
    var p := s.h.created % PIDS;
    EmptySlotSuffices(s, e);
    StepOccupants(s, e);
    StepCounted(s, e);
    var s' := System.Step(s, e);
    InvShape(s');
    var i, j := FirstEmpty(s.k.tasks, 0), FindPid(s'.k.tasks, p, 0);
    assert s'.k.tasks[i].pid == p;
    assert j <= i;
  }
}
