/**
 Tasks and the priority order of the run queue (simplos_types.hpp and
 prioritize_tasks in scheduler.cpp).
 */
module Priority {
  import opened Layout

  datatype Status = Sleeping | Ready | Running | Empty | Scheduler

  datatype Task = Task(sp: Word, pid: Word, block: Byte, priority: Byte, status: Status)

  const UINT8_MAX := 255

  // ----- the order in which prioritize_tasks finds the tasks -----

  predicate ReadyAt(tasks: seq<Task>, i: nat, p: int)
    requires i < |tasks|
  {
    tasks[i].status == Ready && tasks[i].priority == p
  }

  // The READY slots below n with priority p, in index order.
  function Level(tasks: seq<Task>, p: nat, n: nat): (q: seq<nat>)
    requires n <= |tasks|
  {
    if n == 0 then []
    else Level(tasks, p, n - 1) + (if ReadyAt(tasks, n - 1, p) then [n - 1] else [])
  }

  // The READY slots with priority below p.
  function Levels(tasks: seq<Task>, p: nat): (q: seq<nat>) {
    if p == 0 then [] else Levels(tasks, p - 1) + Level(tasks, p - 1, |tasks|)
  }

  /** What prioritize_tasks writes: its loop ends before priority 255. */
  function Prioritized(tasks: seq<Task>): seq<nat> {
    Levels(tasks, UINT8_MAX)
  }

  // ----- what that order is -----

  predicate Schedulable(tasks: seq<Task>, i: int) {
    0 <= i < |tasks| && tasks[i].status == Ready && tasks[i].priority < UINT8_MAX
  }

  // Queue order: the last element runs first.
  predicate Before(tasks: seq<Task>, a: nat, b: nat)
    requires a < |tasks| && b < |tasks|
  {
    tasks[a].priority < tasks[b].priority || (tasks[a].priority == tasks[b].priority && a < b)
  }

  predicate InRange(q: seq<nat>, n: nat) {
    forall j :: 0 <= j < |q| ==> q[j] < n
  }

  predicate Ordered(tasks: seq<Task>, q: seq<nat>) {
    InRange(q, |tasks|) && forall j, k :: 0 <= j < k < |q| ==> Before(tasks, q[j], q[k])
  }

  lemma {:induction false} LevelExact(tasks: seq<Task>, p: nat, n: nat)
    requires n <= |tasks|
    ensures forall i :: i in Level(tasks, p, n) <==> 0 <= i < n && ReadyAt(tasks, i, p)
    ensures forall j, k :: 0 <= j < k < |Level(tasks, p, n)| ==> Level(tasks, p, n)[j] < Level(tasks, p, n)[k]
  {
    if n > 0 {
      LevelExact(tasks, p, n - 1);
      var q := Level(tasks, p, n - 1);
      assert forall j :: 0 <= j < |q| ==> q[j] in q;
    }
  }

  // A queue followed by a level of higher priority.
  lemma OrderedAppend(tasks: seq<Task>, q: seq<nat>, l: seq<nat>, p: nat)
    requires Ordered(tasks, q) && forall i :: i in q ==> 0 <= i < |tasks| && tasks[i].priority < p
    requires forall i :: i in l ==> 0 <= i < |tasks| && tasks[i].priority == p
    requires forall j, k :: 0 <= j < k < |l| ==> l[j] < l[k]
    ensures Ordered(tasks, q + l)
  {
    assert forall j :: 0 <= j < |q| ==> q[j] in q;
    assert forall j :: 0 <= j < |l| ==> l[j] in l;
  }

  lemma {:induction false} LevelsExact(tasks: seq<Task>, p: nat)
    ensures forall i :: i in Levels(tasks, p) <==> 0 <= i < |tasks| && tasks[i].status == Ready && tasks[i].priority < p
    ensures Ordered(tasks, Levels(tasks, p))
  {
    hide Level, Before;
    if p > 0 {
      LevelsExact(tasks, p - 1);
      LevelExact(tasks, p - 1, |tasks|);
      var q, l := Levels(tasks, p - 1), Level(tasks, p - 1, |tasks|);
      assert forall i :: i in q + l <==> i in q || i in l;
      OrderedAppend(tasks, q, l, p - 1);
    }
  }

  function Members(q: seq<nat>): set<nat> {
    set i | i in q
  }

  function SchedulableSlots(tasks: seq<Task>): set<nat> {
    set i: nat | 0 <= i < |tasks| && Schedulable(tasks, i)
  }

  predicate Distinct(q: seq<nat>) {
    forall j, k :: 0 <= j < k < |q| ==> q[j] != q[k]
  }

  lemma {:induction false} DistinctBound(q: seq<nat>, n: nat)
    requires InRange(q, n) && Distinct(q)
    ensures |q| <= n && |Members(q)| == |q|
  {
    if q == [] {
      assert Members(q) == {};
    } else {
      var r := q[..|q| - 1];
      var last := q[|q| - 1];
      DistinctBound(r, n);
      assert last !in Members(r);
      assert Members(q) == Members(r) + {last} by {
        assert q == r + [last];
      }
      SubsetOfRange(Members(q), n);
    }
  }

  lemma {:induction false} SubsetOfRange(s: set<nat>, n: nat)
    requires forall i :: i in s ==> i < n
    ensures |s| <= n
  {
    if n == 0 {
      assert s == {};
    } else {
      SubsetOfRange(s - {n - 1}, n - 1);
    }
  }

  /**
   The queue holds every READY task of priority 0..254 exactly once and nothing
   else, ascending by priority and then by slot; its length is their number.
   */
  lemma PrioritizedExact(tasks: seq<Task>)
    ensures var q := Prioritized(tasks);
            && (forall i :: i in q <==> 0 <= i < |tasks| && tasks[i].status == Ready && tasks[i].priority <= 254)
            && (forall j, k :: 0 <= j < k < |q| ==>
                 && q[j] < |tasks| && q[k] < |tasks|
                 && (tasks[q[j]].priority < tasks[q[k]].priority
                    || (tasks[q[j]].priority == tasks[q[k]].priority && q[j] < q[k])))
            && Ordered(tasks, q)
            && (forall i :: i in q <==> Schedulable(tasks, i))
            && Distinct(q)
            && |q| == |SchedulableSlots(tasks)| <= |tasks|
  {
    LevelsExact(tasks, UINT8_MAX);
    var q := Prioritized(tasks);
    DistinctBound(q, |tasks|);
    assert Members(q) == SchedulableSlots(tasks);
  }

  lemma DropLast(tasks: seq<Task>, q: seq<nat>)
    requires Ordered(tasks, q) && q != []
    ensures var a := q[|q| - 1];
            && a in Members(q)
            && (forall i :: i in Members(q) ==> i < |tasks|)
            && (forall i :: i in Members(q) && i != a ==> Before(tasks, i, a))
            && Ordered(tasks, q[..|q| - 1]) && Members(q[..|q| - 1]) == Members(q) - {a}
  {
    var r := q[..|q| - 1];
    assert q == r + [q[|q| - 1]];
    assert forall j :: 0 <= j < |r| ==> r[j] == q[j] && Before(tasks, q[j], q[|q| - 1]);
  }

  /** There is only one such queue. */
  lemma {:induction false} OrderedUnique(tasks: seq<Task>, q: seq<nat>, r: seq<nat>)
    requires Ordered(tasks, q) && Ordered(tasks, r) && Members(q) == Members(r)
    ensures q == r
    decreases |q|
  {
    assert q != [] ==> q[0] in Members(q);
    assert r != [] ==> r[0] in Members(r);
    if q != [] {
      DropLast(tasks, q);
      DropLast(tasks, r);
      assert q[|q| - 1] == r[|r| - 1];
      hide Ordered, Before, Members;
      OrderedUnique(tasks, q[..|q| - 1], r[..|r| - 1]);
      assert q == q[..|q| - 1] + [q[|q| - 1]] && r == r[..|r| - 1] + [r[|r| - 1]];
    }
  }
}
