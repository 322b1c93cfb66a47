/** What holds over every run of the scheduler: no task is lost or duplicated, a dispatch is bounded, and so is
    the time a ready task waits. */
module SchedulerRuns {
  import opened Common
  import opened Scheduler

  datatype Run = Run(states: seq<Sys>, cpus: seq<nat>, acts: seq<Action>)

  ghost predicate IsRun(r: Run) {
    && |r.states| == |r.acts| + 1 && |r.cpus| == |r.acts|
    && forall i :: 0 <= i < |r.acts| ==> Step(r.states[i], r.states[i + 1], r.cpus[i], r.acts[i])
  }

  /** `n` CPUs, each running its idle task. */
  ghost function Boot(n: nat): Sys {
    Sys(seq(n, (c: nat) => Cpu([], IdleOf(c), Out, false)),
        map c: nat | c < n :: IdleOf(c) := Task(Running, 0, c), {}, 1,
        map c: nat | c < n :: IdleOf(c) := OnCpu(c))
  }

  lemma BootInv(n: nat)
    ensures Inv(Boot(n))
  {
    var s := Boot(n);
    assert forall t :: t in s.tasks ==> t.IdleOf? && t.cpu < n;
    forall t, p
      ensures Occurs(s, t, p) <==> At(s, t, p)
    {
    }
    hide PlacesOk, Occurs;
    assert forall t :: t in s.tasks || t in s.place ==> TaskOk(s, t);
  }

  lemma {:induction false} RunInv(r: Run, n: nat)
    requires IsRun(r) && Inv(r.states[0]) && n <= |r.acts|
    ensures Inv(r.states[n]) && |r.states[n].cpus| == |r.states[0].cpus|
  {
    hide Inv, Step;
    if n > 0 {
      RunInv(r, n - 1);
      StepInv(r.states[n - 1], r.states[n], r.cpus[n - 1], r.acts[n - 1]);
      StepCpus(r.states[n - 1], r.states[n], r.cpus[n - 1], r.acts[n - 1]);
    }
  }

  lemma StepCpus(s: Sys, s': Sys, c: nat, a: Action)
    requires Step(s, s', c, a)
    ensures |s'.cpus| == |s.cpus|
  {
  }

  // ----- no task is lost or duplicated

  ghost predicate Live(s: Sys, t: Tid) {
    t.Thread? && t in s.tasks && !s.tasks[t].status.Exited?
  }

  /** The task is at `p`, nowhere else, and there only once. */
  ghost predicate OnlyAt(s: Sys, t: Tid, p: Place) {
    && Occurs(s, t, p) && (forall q :: Occurs(s, t, q) ==> q == p)
    && (p.Queued? ==> multiset(s.cpus[p.cpu].queue)[t] == 1)
  }

  lemma Once(q: seq<Tid>, t: Tid)
    requires Distinct(q) && t in q
    ensures multiset(q)[t] == 1
  {
    var i :| 0 <= i < |q| && q[i] == t;
    assert q == q[..i] + [t] + q[i + 1..];
    assert t !in q[..i] && t !in q[i + 1..];
    assert multiset(q) == multiset(q[..i]) + multiset{t} + multiset(q[i + 1..]);
  }

  /** Every live task is in exactly one place; tasks that wait are ready, and running tasks are the current tasks
      of CPUs outside the selection loop. */
  lemma OnePlace(s: Sys, t: Tid)
    requires Inv(s) && Live(s, t)
    ensures t in s.place && OnlyAt(s, t, s.place[t])
    ensures s.tasks[t].status.Running? <==> s.place[t].OnCpu?
  {
    hide SlicesOk;
    assert TaskOk(s, t);
    var p := s.place[t];
    assert At(s, t, p);
    assert Occurs(s, t, p);
    forall q | Occurs(s, t, q)
      ensures q == p
    {
      assert At(s, t, q);
    }
    if p.Queued? {
      Once(s.cpus[p.cpu].queue, t);
    }
  }

  /** Queues hold only ready tasks that are not idle tasks, and each knows its queue's CPU. */
  lemma QueuedReady(s: Sys, c: nat, t: Tid)
    requires Inv(s) && c < |s.cpus| && t in s.cpus[c].queue
    ensures t.Thread? && t in s.tasks && s.tasks[t].status.Ready? && s.tasks[t].cpuId == c
  {
    hide QueuesOk, SlicesOk;
    assert Occurs(s, t, Queued(c));
    assert TaskOk(s, t);
  }

  /** A dequeued task is always ready, so the reaping and requeueing branches of the loop are never taken. */
  lemma OnlyReadyInHand(s: Sys, c: nat)
    requires Inv(s) && c < |s.cpus| && s.cpus[c].pc.Holding?
    ensures s.cpus[c].pc.t in s.tasks && s.tasks[s.cpus[c].pc.t].status.Ready? && s.cpus[c].pc.t.Thread?
  {
    hide QueuesOk, SlicesOk;
    HandTask(s, c);
  }

  lemma StepTasks(s: Sys, s': Sys, c: nat, a: Action, t: Tid)
    requires Inv(s) && Step(s, s', c, a) && t in s.tasks
    ensures t in s'.tasks && (t.Thread? && s.tasks[t].status.Exited? ==> s'.tasks[t].status.Exited?)
    ensures t.Thread? && s'.tasks[t].status.Exited? && !s.tasks[t].status.Exited? ==>
      a == AExit && s.cpus[c].current == t
  {
    hide QueuesOk, SlicesOk, PlacesOk, TasksOk, Fits;
    match a
    case ACheck => OnlyReadyInHand(s, c);
    case ASteal =>
      if s.cpus[c].pc.i < |s.cpus| && s.cpus[s.cpus[c].pc.i].queue != [] {
        QueuedReady(s, s.cpus[c].pc.i, s.cpus[s.cpus[c].pc.i].queue[0]);
      }
    case ACreate => FreshId(s);
    case AIdle =>
    case _ =>
  }

  lemma FreshId(s: Sys)
    requires Inv(s)
    ensures Thread(s.nextId) !in s.tasks
  {
    assert Thread(s.nextId) in s.tasks ==> TaskOk(s, Thread(s.nextId));
  }

  /** A task stays in the system, and live until it exits itself. */
  lemma {:induction false} NeverLost(r: Run, t: Tid, n: nat)
    requires IsRun(r) && Inv(r.states[0]) && n <= |r.acts| && Live(r.states[0], t)
    requires forall i :: 0 <= i < n ==> !(r.acts[i] == AExit && r.cpus[i] < |r.states[i].cpus| &&
                                          r.states[i].cpus[r.cpus[i]].current == t)
    ensures Live(r.states[n], t) && t in r.states[n].place && OnlyAt(r.states[n], t, r.states[n].place[t])
  {
    hide Inv, OnlyAt;
    if n > 0 {
      NeverLost(r, t, n - 1);
      RunInv(r, n - 1);
      hide Step, Exit;
      StepTasks(r.states[n - 1], r.states[n], r.cpus[n - 1], r.acts[n - 1], t);
      if r.acts[n - 1] == AExit {
        ExitCpu(r.states[n - 1], r.states[n], r.cpus[n - 1]);
      }
    }
    RunInv(r, n);
    OnePlace(r.states[n], t);
  }

  lemma ExitCpu(s: Sys, s': Sys, c: nat)
    requires Step(s, s', c, AExit)
    ensures c < |s.cpus|
  {
  }

  // ----- the selection loop terminates

  /** A step of `task_schedule` itself. */
  predicate Inside(a: Action) {
    a.ASave? || a.AChoose? || a.ASteal? || a.ACheck? || a.AIdle?
  }

  /** How many steps CPU `c` is from leaving `task_schedule`, at most. */
  function Rank(s: Sys, c: nat): nat
    requires c < |s.cpus|
  {
    match s.cpus[c].pc
    case Out => 0
    case Saving => |s.cpus| + 4
    case Choosing => |s.cpus| + 3
    case Stealing(i) => if i <= |s.cpus| then |s.cpus| - i + 2 else 2
    case Holding(_) => 1
    case Starved => 1
  }

  lemma StepRank(s: Sys, s': Sys, d: nat, a: Action, c: nat)
    requires Inv(s) && Step(s, s', d, a) && c < |s.cpus| && !s.cpus[c].pc.Out?
    ensures |s'.cpus| == |s.cpus| && Rank(s', c) <= Rank(s, c) - (if d == c && Inside(a) then 1 else 0)
  {
    hide QueuesOk, SlicesOk, PlacesOk, TasksOk, Fits;
    if a == ACheck {
      OnlyReadyInHand(s, d);
    }
  }

  lemma NextStep(s: Sys, c: nat) returns (s': Sys, a: Action)
    requires Inv(s) && c < |s.cpus| && !s.cpus[c].pc.Out?
    ensures Inside(a) && Step(s, s', c, a)
  {
    hide QueuesOk, SlicesOk, PlacesOk, TasksOk, Fits;
    var cpu := s.cpus[c];
    IdleTask(s, c) by { hide TaskOk; }
    match cpu.pc
    case Saving =>
      CurrentTask(s, c);
      var t := cpu.current;
      a := ASave;
      s' := if !s.tasks[t].status.Running? then SetCpu(s, c, cpu.(pc := Choosing)).(place := s.place - {t})
            else if t.IdleOf? then
              SetCpu(s, c, cpu.(pc := Choosing)).(tasks := s.tasks[t := s.tasks[t].(status := Ready)],
                                                  place := s.place - {t})
            else
              SetCpu(s, c, cpu.(pc := Choosing, queue := cpu.queue + [t]))
              .(tasks := s.tasks[t := s.tasks[t].(status := Ready)], place := s.place[t := Queued(c)]);
    case Choosing =>
      a := AChoose;
      s' := if cpu.queue == [] then SetCpu(s, c, cpu.(pc := Stealing(0)))
            else SetCpu(s, c, cpu.(pc := Holding(cpu.queue[0]),
                                   queue := cpu.queue[1..])).(place := s.place[cpu.queue[0] := InHand(c)]);
    case Stealing(i) =>
      a := ASteal;
      if i >= |s.cpus| {
        s' := SetCpu(s, c, cpu.(pc := Starved));
      } else if i == c || s.cpus[i].queue == [] {
        s' := SetCpu(s, c, cpu.(pc := Stealing(i + 1)));
      } else {
        var t := s.cpus[i].queue[0];
        QueuedReady(s, i, t);
        s' := s.(cpus := s.cpus[i := s.cpus[i].(queue := s.cpus[i].queue[1..])][c := cpu.(pc := Holding(t))],
                 tasks := s.tasks[t := s.tasks[t].(cpuId := c)], place := s.place[t := InHand(c)]);
      }
    case Holding(t) =>
      OnlyReadyInHand(s, c);
      a := ACheck;
      s' := SetCpu(s, c, cpu.(pc := Out, current := t))
            .(tasks := s.tasks[t := s.tasks[t].(status := Running, slice := TIMESLICE)],
              place := s.place[t := OnCpu(c)]);
    case Starved =>
      a := AIdle;
      s' := SetCpu(s, c, cpu.(pc := Out, current := IdleOf(c)))
            .(tasks := s.tasks[IdleOf(c) := s.tasks[IdleOf(c)].(status := Running, slice := 0)],
              place := s.place[IdleOf(c) := OnCpu(c)]);
  }

  /** The steps CPU `c` has taken inside `task_schedule`. */
  function InsideSteps(r: Run, c: nat, n: nat): nat
    requires n <= |r.acts| && |r.cpus| == |r.acts|
  {
    if n == 0 then 0 else InsideSteps(r, c, n - 1) + if r.cpus[n - 1] == c && Inside(r.acts[n - 1]) then 1 else 0
  }

  /** One call of `task_schedule` takes at most four steps more than there are CPUs, whatever the others do. */
  lemma {:induction false} DispatchBounded(r: Run, c: nat, n: nat)
    requires IsRun(r) && Inv(r.states[0]) && n <= |r.acts| && c < |r.states[0].cpus|
    requires forall i :: 0 <= i < n ==> c < |r.states[i].cpus| && !r.states[i].cpus[c].pc.Out?
    ensures c < |r.states[n].cpus| == |r.states[0].cpus| &&
      InsideSteps(r, c, n) + Rank(r.states[n], c) <= |r.states[0].cpus| + 4
  {
    hide Inv, Step;
    RunInv(r, n);
    if n > 0 {
      DispatchBounded(r, c, n - 1);
      RunInv(r, n - 1);
      StepRank(r.states[n - 1], r.states[n], r.cpus[n - 1], r.acts[n - 1], c);
    }
  }

  // ----- bounded waiting

  ghost predicate QueuedAt(s: Sys, c: nat, t: Tid, k: nat) {
    c < |s.cpus| && k < |s.cpus[c].queue| && s.cpus[c].queue[k] == t
  }

  /** The timer interrupts until CPU `c` next takes the head of its queue, if nobody else does, at most. */
  function Wait(s: Sys, c: nat): nat
    requires c < |s.cpus|
  {
    var cpu := s.cpus[c];
    match cpu.pc
    case Out => if cpu.current.Thread? && cpu.current in s.tasks &&
    s.tasks[cpu.current].status.Running? then s.tasks[cpu.current].slice else 1
    case Saving => 0
    case Choosing => 0
    case _ => TIMESLICE
  }

  lemma WaitBound(s: Sys, c: nat)
    requires Inv(s) && c < |s.cpus|
    ensures Wait(s, c) <= TIMESLICE
  {
    hide QueuesOk, SlicesOk, PlacesOk, TasksOk;
    if s.cpus[c].pc.Out? {
      CurrentTask(s, c);
    }
  }

  /** The waiting task's bound: four interrupts for each task before it, and those until the next dispatch. */
  function Bound(s: Sys, c: nat, k: nat): nat
    requires c < |s.cpus|
  {
    TIMESLICE * k + Wait(s, c)
  }

  function TickOf(d: nat, a: Action, c: nat): nat {
    if d == c && a.ATick? then 1 else 0
  }

  lemma HeadOnce(q: seq<Tid>, t: Tid, k: nat)
    requires Distinct(q) && k < |q| && q[k] == t
    ensures t in q[1..] ==> k > 0
  {
  }

  /** The place on the queue after a step in which the task stays there. */
  lemma StepQueue(s: Sys, s': Sys, d: nat, a: Action, c: nat, t: Tid, k: nat) returns (k': nat)
    requires Inv(s) && Step(s, s', d, a) && QueuedAt(s, c, t, k) && c < |s'.cpus| && t in s'.cpus[c].queue
    ensures QueuedAt(s', c, t, k') && k' <= k
    ensures a == AChoose && d == c ==> k' + 1 == k && s'.cpus[c].pc.Holding?
  {
    hide SlicesOk, PlacesOk, TasksOk;
    if a == ACheck {
      OnlyReadyInHand(s, d);
    }
    if |s'.cpus[c].queue| < |s.cpus[c].queue| {
      assert s'.cpus[c].queue == s.cpus[c].queue[1..];
      HeadOnce(s.cpus[c].queue, t, k);
      k' := k - 1;
    } else {
      k' := k;
    }
  }

  lemma StepWait(s: Sys, s': Sys, d: nat, a: Action, c: nat)
    requires Inv(s) && Step(s, s', d, a) && c < |s.cpus| && |s'.cpus| == |s.cpus| && s.cpus[c].queue != []
    ensures a == AChoose && d == c ==> Wait(s', c) <= TIMESLICE
    ensures !(a == AChoose && d == c) ==> Wait(s', c) + TickOf(d, a, c) <= Wait(s, c)
  {
    hide QueuesOk, PlacesOk, TasksOk, Fits;
    assert SliceOk(s, c);
    if c != d && s.cpus[c].pc.Out? {
      OtherCpu(s, s', d, a, c);
    } else if s.cpus[c].pc.Holding? && c == d {
      OnlyReadyInHand(s, c);
    }
    if s.cpus[c].pc.Out? {
      CurrentTask(s, c);
    }
    hide SlicesOk;
  }

  /** Other CPUs leave a CPU's current task alone. */
  lemma OtherCpu(s: Sys, s': Sys, d: nat, a: Action, c: nat)
    requires Inv(s) && Step(s, s', d, a) && c < |s.cpus| && c != d && s.cpus[c].pc.Out? && |s'.cpus| == |s.cpus|
    ensures s'.cpus[c].pc == s.cpus[c].pc && s'.cpus[c].current == s.cpus[c].current && s.cpus[c].current in s.tasks
    ensures s.cpus[c].current in s'.tasks && s'.tasks[s.cpus[c].current] == s.tasks[s.cpus[c].current]
  {
    hide QueuesOk, SlicesOk, TasksOk, PlacesOk, Occurs;
    CurrentTask(s, c);
    match a
    case ACreate => FreshId(s);
    case APublish(u) => NascentApart(s, u, c);
    case ASteal =>
      if s.cpus[d].pc.i < |s.cpus| && s.cpus[s.cpus[d].pc.i].queue != [] {
        QueuedApart(s, s.cpus[d].pc.i, c);
      }
    case ARequest =>
    case AIdle =>
    case _ => CurrentApart(s, d, c);
  }

  lemma NascentApart(s: Sys, t: Tid, c: nat)
    requires PlacesOk(s) && t in s.nascent && c < |s.cpus| && s.cpus[c].pc.Out?
    ensures s.cpus[c].current != t
  {
    assert Occurs(s, t, Nascent) && Occurs(s, s.cpus[c].current, OnCpu(c));
  }

  /** One step of anybody: the task's bound falls by one with each timer interrupt of its CPU. */
  lemma StepBound(s: Sys, s': Sys, d: nat, a: Action, c: nat, t: Tid, k: nat) returns (k': nat)
    requires Inv(s) && Step(s, s', d, a) && QueuedAt(s, c, t, k) && c < |s'.cpus| && t in s'.cpus[c].queue
    ensures QueuedAt(s', c, t, k') && Bound(s', c, k') + TickOf(d, a, c) <= Bound(s, c, k)
  {
    hide Inv, Step, Wait;
    StepCpus(s, s', d, a);
    k' := StepQueue(s, s', d, a, c, t, k);
    StepWait(s, s', d, a, c);
    ChooseWait(s, c, d, a, s');
  }

  lemma ChooseWait(s: Sys, c: nat, d: nat, a: Action, s': Sys)
    requires Step(s, s', d, a) && c < |s.cpus|
    ensures a == AChoose && d == c ==> Wait(s, c) == 0
  {
  }

  /** The vector-32 interrupts of CPU `c`. */
  function Ticks(r: Run, c: nat, n: nat): nat
    requires n <= |r.acts| && |r.cpus| == |r.acts|
  {
    if n == 0 then 0 else Ticks(r, c, n - 1) + TickOf(r.cpus[n - 1], r.acts[n - 1], c)
  }

  ghost predicate Waits(r: Run, c: nat, t: Tid, n: nat)
    requires n <= |r.acts| && IsRun(r)
  {
    forall i :: 0 <= i <= n ==> c < |r.states[i].cpus| && t in r.states[i].cpus[c].queue
  }

  lemma {:induction false} RunBound(r: Run, c: nat, t: Tid, k: nat, n: nat) returns (k': nat)
    requires IsRun(r) && Inv(r.states[0]) && n <= |r.acts| && QueuedAt(r.states[0], c, t, k) && Waits(r, c, t, n)
    ensures QueuedAt(r.states[n], c, t, k') && Bound(r.states[n], c, k') + Ticks(r, c, n) <= Bound(r.states[0], c, k)
  {
    hide Inv, Step, Bound;
    if n == 0 {
      k' := k;
    } else {
      var k0 := RunBound(r, c, t, k, n - 1);
      RunInv(r, n - 1);
      k' := StepBound(r.states[n - 1], r.states[n], r.cpus[n - 1], r.acts[n - 1], c, t, k0);
    }
  }

  /** Whatever steals, creations and exits happen meanwhile, a ready task with `k` tasks before it sees at most
      4 * (k + 1) timer interrupts of its CPU before it leaves the queue; with the last of them it is at the
      head and its CPU is in the scheduler, about to take it. */
  lemma BoundedWaiting(r: Run, c: nat, t: Tid, k: nat, n: nat)
    requires IsRun(r) && Inv(r.states[0]) && n <= |r.acts| && QueuedAt(r.states[0], c, t, k) && Waits(r, c, t, n)
    ensures Ticks(r, c, n) <= TIMESLICE * (k + 1)
    ensures Ticks(r, c, n) == TIMESLICE * (k + 1) ==>
      QueuedAt(r.states[n], c, t, 0) && (r.states[n].cpus[c].pc.Saving? || r.states[n].cpus[c].pc.Choosing?)
  {
    hide Inv, Step, Waits;
    var k' := RunBound(r, c, t, k, n);
    WaitBound(r.states[0], c);
    if Ticks(r, c, n) == TIMESLICE * (k + 1) {
      assert k' == 0 && Wait(r.states[n], c) == 0;
      RunInv(r, n);
      OutWaits(r.states[n], c);
    }
  }

  lemma OutWaits(s: Sys, c: nat)
    requires Inv(s) && c < |s.cpus| && Wait(s, c) == 0
    ensures s.cpus[c].pc.Saving? || s.cpus[c].pc.Choosing?
  {
    hide QueuesOk, PlacesOk, TasksOk;
    assert SliceOk(s, c);
  }

  lemma LeavesToHand(s: Sys, s': Sys, d: nat, a: Action, c: nat, t: Tid)
    requires Inv(s) && Step(s, s', d, a) && c < |s.cpus| && t in s.cpus[c].queue && c < |s'.cpus| &&
      t !in s'.cpus[c].queue
    ensures (if d == c then a == AChoose else a == ASteal) && d < |s'.cpus| && s'.cpus[d].pc == Holding(t)
  {
    hide SlicesOk, PlacesOk, TasksOk, QueuesOk, Fits;
    if a == ACheck {
      OnlyReadyInHand(s, d);
    }
  }

  /** A task leaves a queue only into the hand of some CPU, whose next own step runs it with a full timeslice. */
  lemma LeavesToRun(s: Sys, s': Sys, d: nat, a: Action, c: nat, t: Tid)
    requires Inv(s) && Step(s, s', d, a) && c < |s.cpus| && t in s.cpus[c].queue && c < |s'.cpus| &&
      t !in s'.cpus[c].queue
    ensures (if d == c then a == AChoose else a == ASteal) && d < |s'.cpus| && s'.cpus[d].pc == Holding(t)
    ensures forall s'', b :: Step(s', s'', d, b) && Inside(b) ==> RunsOn(s'', d, t)
  {
    hide Inv, Step, RunsOn;
    StepInv(s, s', d, a);
    LeavesToHand(s, s', d, a, c, t);
    forall s'', b | Step(s', s'', d, b) && Inside(b)
      ensures RunsOn(s'', d, t)
    {
      HandRuns(s', s'', d, b);
    }
  }

  /** The task runs on the CPU with its whole timeslice before it. */
  ghost predicate RunsOn(s: Sys, c: nat, t: Tid) {
    c < |s.cpus| && s.cpus[c].current == t && s.cpus[c].pc.Out? && t in s.tasks &&
    s.tasks[t] == Task(Running, TIMESLICE, c)
  }

  lemma HandRuns(s: Sys, s': Sys, d: nat, b: Action)
    requires Inv(s) && d < |s.cpus| && s.cpus[d].pc.Holding? && Step(s, s', d, b) && Inside(b)
    ensures RunsOn(s', d, s.cpus[d].pc.t)
  {
    hide SlicesOk, QueuesOk;
    HandTask(s, d);
    hide PlacesOk, TasksOk;
  }
}
