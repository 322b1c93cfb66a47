/** The multi-CPU scheduler. Each step is one run-queue lock section, or an access only one CPU can make, so
    runs are all interleavings of timer interrupts, dispatches, steals, task creations and exits. */
module Scheduler {
  import opened Common

  const TIMESLICE: nat := 4

  /** Every CPU has an idle task with id 0; all other tasks have ids of their own. */
  datatype Tid = IdleOf(cpu: nat) | Thread(id: nat)

  datatype Status = Ready | Running | Exited

  datatype Task = Task(status: Status, slice: nat, cpuId: nat)

  /** Where a CPU is in `task_schedule`. */
  datatype Pc =
    | Out
    | Saving                 // next: requeue the outgoing task
    | Choosing               // next: dequeue from the own queue
    | Stealing(i: nat)       // next: dequeue from CPU i's queue
    | Holding(t: Tid)        // next: look at the dequeued task
    | Starved                // nothing found; next: run the idle task

  datatype Cpu = Cpu(queue: seq<Tid>, current: Tid, pc: Pc, resched: bool)

  /** Where a task is. */
  datatype Place = Queued(cpu: nat) | InHand(cpu: nat) | OnCpu(cpu: nat) | Nascent

  datatype Sys = Sys(
    cpus: seq<Cpu>,
    tasks: map<Tid, Task>,
    nascent: set<Tid>,           // created, not yet queued
    nextId: nat,
    place: map<Tid, Place>)      // where each task was put last; `Occurs` says where it is

  function SetCpu(s: Sys, c: nat, cpu: Cpu): Sys
    requires c < |s.cpus|
  {
    s.(cpus := s.cpus[c := cpu])
  }

  // ----- steps outside the scheduler

  /** `task_request_reschedule`. */
  ghost predicate Request(s: Sys, s': Sys, c: nat) {
    && c < |s.cpus| && s.cpus[c].pc.Out?
    && s' == SetCpu(s, c, s.cpus[c].(resched := true))
  }

  /** A system call or a fatal exception ends the current task. */
  ghost predicate Exit(s: Sys, s': Sys, c: nat) {
    && c < |s.cpus| && s.cpus[c].pc.Out? && s.cpus[c].current.Thread? && s.cpus[c].current in s.tasks
    && var t := s.cpus[c].current;
    && s' == s.(tasks := s.tasks[t := s.tasks[t].(status := Exited)])
  }

  /** The exception handler calls the scheduler itself. */
  ghost predicate Enter(s: Sys, s': Sys, c: nat) {
    && c < |s.cpus| && s.cpus[c].pc.Out? && s.cpus[c].current in s.tasks && s.tasks[s.cpus[c].current].status.Exited?
    && s' == SetCpu(s, c, s.cpus[c].(pc := Saving, resched := false))
  }

  /** What `task_timer_tick` leaves of the timeslice. */
  function SliceAfter(s: Sys, c: nat): nat
    requires c < |s.cpus| && s.cpus[c].current in s.tasks
  {
    var task := s.tasks[s.cpus[c].current];
    if task.status.Running? && s.cpus[c].current.Thread? && task.slice > 0 then task.slice - 1 else task.slice
  }

  /** Whether the tick asks for a reschedule. */
  predicate Expired(s: Sys, c: nat)
    requires c < |s.cpus| && s.cpus[c].current in s.tasks
  {
    var cpu := s.cpus[c];
    if !s.tasks[cpu.current].status.Running? then true
    else if cpu.current.IdleOf? then cpu.queue != []
    else SliceAfter(s, c) == 0
  }

  /** The vector-32 interrupt: account, and enter the scheduler if asked to. */
  ghost predicate Tick(s: Sys, s': Sys, c: nat) {
    && c < |s.cpus| && s.cpus[c].pc.Out? && s.cpus[c].current in s.tasks
    && var cpu := s.cpus[c];
    && var go := cpu.resched || Expired(s, c);
    && s' == SetCpu(s, c, cpu.(pc := if go then Saving else Out, resched := false))
             .(tasks := s.tasks[cpu.current := s.tasks[cpu.current].(slice := SliceAfter(s, c))])
  }

  /** A creator has filled in a new task. */
  ghost predicate Create(s: Sys, s': Sys) {
    var t := Thread(s.nextId);
    s' == s.(tasks := s.tasks[t := Task(Ready, TIMESLICE, 0)], nascent := s.nascent + {t}, nextId := s.nextId + 1,
             place := s.place[t := Nascent])
  }

  /** It puts the task on the queue of CPU `c`, whichever that is. */
  ghost predicate Publish(s: Sys, s': Sys, c: nat, t: Tid) {
    && c < |s.cpus| && t in s.nascent && t in s.tasks
    && s' == SetCpu(s, c, s.cpus[c].(queue := s.cpus[c].queue + [t]))
             .(tasks := s.tasks[t := s.tasks[t].(cpuId := c)], nascent := s.nascent - {t},
               place := s.place[t := Queued(c)])
  }

  // ----- `task_schedule`

  /** A still runnable outgoing task becomes ready, and unless it is the idle task goes to the end of the queue. */
  ghost predicate Save(s: Sys, s': Sys, c: nat) {
    && c < |s.cpus| && s.cpus[c].pc.Saving? && s.cpus[c].current in s.tasks
    && var cpu := s.cpus[c];
    && var t := cpu.current;
    && s' == if !s.tasks[t].status.Running? then
               SetCpu(s, c, cpu.(pc := Choosing)).(place := s.place - {t})
             else if t.IdleOf? then
               SetCpu(s, c, cpu.(pc := Choosing)).(tasks := s.tasks[t := s.tasks[t].(status := Ready)],
                                                   place := s.place - {t})
             else
               SetCpu(s, c, cpu.(pc := Choosing, queue := cpu.queue + [t]))
               .(tasks := s.tasks[t := s.tasks[t].(status := Ready)], place := s.place[t := Queued(c)])
  }

  ghost predicate Choose(s: Sys, s': Sys, c: nat) {
    && c < |s.cpus| && s.cpus[c].pc.Choosing?
    && var cpu := s.cpus[c];
    && s' == if cpu.queue == [] then SetCpu(s, c, cpu.(pc := Stealing(0)))
             else SetCpu(s, c, cpu.(pc := Holding(cpu.queue[0]),
                                    queue := cpu.queue[1..])).(place := s.place[cpu.queue[0] := InHand(c)])
  }

  /** One round of the stealing loop. */
  ghost predicate Steal(s: Sys, s': Sys, c: nat) {
    && c < |s.cpus| && s.cpus[c].pc.Stealing?
    && var i := s.cpus[c].pc.i;
    && if i >= |s.cpus| then s' == SetCpu(s, c, s.cpus[c].(pc := Starved))
       else if i == c || s.cpus[i].queue == [] then s' == SetCpu(s, c, s.cpus[c].(pc := Stealing(i + 1)))
       else
         var t := s.cpus[i].queue[0];
         t in s.tasks &&
         s' == s.(cpus := s.cpus[i := s.cpus[i].(queue := s.cpus[i].queue[1..])][c := s.cpus[c].(pc := Holding(t))],
                  tasks := s.tasks[t := s.tasks[t].(cpuId := c)], place := s.place[t := InHand(c)])
  }

  /** Run the task in hand, reap it, or put it back. */
  ghost predicate Check(s: Sys, s': Sys, c: nat) {
    && c < |s.cpus| && s.cpus[c].pc.Holding? && s.cpus[c].pc.t in s.tasks
    && var cpu := s.cpus[c];
    && var t := cpu.pc.t;
    && s' == match s.tasks[t].status
             case Exited => SetCpu(s, c, cpu.(pc := Choosing)).(tasks := s.tasks - {t}, place := s.place - {t})
             case Running => SetCpu(s, c, cpu.(pc := Choosing,
                                               queue := cpu.queue + [t])).(place := s.place[t := Queued(c)])
             case Ready =>
               SetCpu(s, c, cpu.(pc := Out, current := t))
               .(tasks := s.tasks[t := s.tasks[t].(status := Running, slice := if t.IdleOf? then 0 else TIMESLICE)],
                 place := s.place[t := OnCpu(c)])
  }

  ghost predicate Idle(s: Sys, s': Sys, c: nat) {
    && c < |s.cpus| && s.cpus[c].pc.Starved? && IdleOf(c) in s.tasks
    && s' == SetCpu(s, c, s.cpus[c].(pc := Out, current := IdleOf(c)))
             .(tasks := s.tasks[IdleOf(c) := s.tasks[IdleOf(c)].(status := Running, slice := 0)],
               place := s.place[IdleOf(c) := OnCpu(c)])
  }

  datatype Action =
    | ARequest | AExit | AEnter | ATick | ACreate | APublish(t: Tid)
    | ASave | AChoose | ASteal | ACheck | AIdle

  ghost predicate Step(s: Sys, s': Sys, c: nat, a: Action) {
    match a
    case ARequest => Request(s, s', c)
    case AExit => Exit(s, s', c)
    case AEnter => Enter(s, s', c)
    case ATick => Tick(s, s', c)
    case ACreate => Create(s, s')
    case APublish(t) => Publish(s, s', c, t)
    case ASave => Save(s, s', c)
    case AChoose => Choose(s, s', c)
    case ASteal => Steal(s, s', c)
    case ACheck => Check(s, s', c)
    case AIdle => Idle(s, s', c)
  }

  // ----- the invariant

  /** The task is at the place: on the queue, in the scheduler's local variable, current on a CPU that has not
      yet given it up, or in its creator's hands. */
  ghost predicate Occurs(s: Sys, t: Tid, p: Place) {
    match p
    case Queued(c) => c < |s.cpus| && t in s.cpus[c].queue
    case InHand(c) => c < |s.cpus| && s.cpus[c].pc == Holding(t)
    case OnCpu(c) => c < |s.cpus| && s.cpus[c].current == t && (s.cpus[c].pc.Out? || s.cpus[c].pc.Saving?)
    case Nascent => t in s.nascent
  }

  ghost predicate At(s: Sys, t: Tid, p: Place) {
    t in s.place && s.place[t] == p
  }

  ghost predicate PlacesOk(s: Sys) {
    forall t, p :: Occurs(s, t, p) <==> At(s, t, p)
  }

  ghost predicate QueuesOk(s: Sys) {
    forall c :: 0 <= c < |s.cpus| ==> Distinct(s.cpus[c].queue)
  }

  /** What a task looks like at its place. */
  predicate Fits(t: Tid, task: Task, p: Place) {
    match p
    case Queued(c) => t.Thread? && task.status.Ready? && task.cpuId == c
    case InHand(c) => t.Thread? && task.status.Ready? && task.cpuId == c
    case Nascent => t.Thread? && task.status.Ready?
    case OnCpu(c) =>
      if t.IdleOf? then t.cpu == c && task.status.Running?
      else task.cpuId == c && !task.status.Ready? &&
           (task.status.Running? ==> task.slice <= TIMESLICE)
  }

  ghost predicate TaskOk(s: Sys, t: Tid) {
    && t in s.tasks
    && (t in s.place ==> Fits(t, s.tasks[t], s.place[t]))
    && (t !in s.place ==> if t.IdleOf? then t.cpu < |s.cpus| && s.tasks[t].status.Ready? else s.tasks[t].status.Exited?)
    && (t.Thread? ==> t.id < s.nextId)
  }

  ghost predicate TasksOk(s: Sys) {
    && (forall t :: t in s.tasks || t in s.place ==> TaskOk(s, t))
    && (forall c :: 0 <= c < |s.cpus| ==> IdleOf(c) in s.tasks)
  }

  /** A task running outside the scheduler has ticks left. */
  ghost predicate SliceOk(s: Sys, c: nat)
    requires c < |s.cpus|
  {
    var t := s.cpus[c].current;
    s.cpus[c].pc.Out? && t.Thread? && t in s.tasks && s.tasks[t].status.Running? ==> s.tasks[t].slice > 0
  }

  ghost predicate SlicesOk(s: Sys) {
    forall c: nat :: c < |s.cpus| ==> SliceOk(s, c)
  }

  /** The task a CPU is about to look at exists. */
  ghost predicate Inv(s: Sys) {
    PlacesOk(s) && QueuesOk(s) && TasksOk(s) && SlicesOk(s)
  }

  // ----- every step keeps it

  lemma TasksStep(s: Sys, s': Sys, t: Tid)
    requires TasksOk(s) && |s'.cpus| == |s.cpus| && s'.nextId >= s.nextId
    requires s'.tasks.Keys + {t} == s.tasks.Keys + {t} && s'.place.Keys + {t} == s.place.Keys + {t}
    requires forall u :: u in s.tasks && u != t ==> s'.tasks[u] == s.tasks[u]
    requires forall u :: u in s.place && u != t ==> s'.place[u] == s.place[u]
    requires (t in s'.tasks || t in s'.place ==> TaskOk(s', t)) && (t.IdleOf? ==> t in s'.tasks)
    ensures TasksOk(s')
  {
    hide Fits;
    forall u | u in s'.tasks || u in s'.place
      ensures TaskOk(s', u)
    {
      if u != t {
        assert u in s.tasks + map[t := Task(Ready, 0, 0)] || u in s.place.Keys + {t};
        assert TaskOk(s, u);
      }
    }
    forall c | 0 <= c < |s'.cpus|
      ensures IdleOf(c) in s'.tasks
    {
      assert IdleOf(c) in s.tasks;
      assert IdleOf(c) in s'.tasks.Keys + {t};
    }
  }

  /** The CPU has the same tasks at the same places. */
  predicate SameTasks(x: Cpu, y: Cpu) {
    && y.queue == x.queue && (x.pc == y.pc || !(x.pc.Holding? || y.pc.Holding?))
    && ((x.pc.Out? || x.pc.Saving?) <==> (y.pc.Out? || y.pc.Saving?))
    && (x.pc.Out? || x.pc.Saving? ==> y.current == x.current)
  }

  lemma PlacesSame(s: Sys, s': Sys)
    requires PlacesOk(s) && s'.place == s.place && s'.nascent == s.nascent && |s'.cpus| == |s.cpus|
    requires forall c: nat :: c < |s.cpus| ==> SameTasks(s.cpus[c], s'.cpus[c])
    ensures PlacesOk(s')
  {
    forall u, p
      ensures Occurs(s', u, p) <==> At(s', u, p)
    {
      assert Occurs(s, u, p) <==> At(s, u, p);
    }
  }

  lemma SlicesStep(s: Sys, s': Sys, c: nat)
    requires SlicesOk(s) && |s'.cpus| == |s.cpus| && c < |s.cpus| && SliceOk(s', c)
    requires forall d: nat :: d < |s.cpus| && d != c ==>
      s'.cpus[d].pc == s.cpus[d].pc && s'.cpus[d].current == s.cpus[d].current
    requires forall d: nat :: d < |s.cpus| && d != c && s.cpus[d].pc.Out? && s.cpus[d].current in s'.tasks ==>
      s.cpus[d].current in s.tasks && s'.tasks[s.cpus[d].current] == s.tasks[s.cpus[d].current]
    ensures SlicesOk(s')
  {
    forall d: nat | d < |s.cpus|
      ensures SliceOk(s', d)
    {
      assert SliceOk(s, d);
    }
  }

  /** Tasks current on different CPUs differ. */
  lemma CurrentApart(s: Sys, c: nat, d: nat)
    requires PlacesOk(s) && c < |s.cpus| && d < |s.cpus| && c != d && s.cpus[d].pc.Out?
    ensures (s.cpus[c].pc.Out? || s.cpus[c].pc.Saving?) ==> s.cpus[c].current != s.cpus[d].current
    ensures s.cpus[c].pc.Holding? ==> s.cpus[c].pc.t != s.cpus[d].current
    ensures s.cpus[c].queue != [] ==> s.cpus[c].queue[0] != s.cpus[d].current
    ensures s.cpus[d].current in s.place
  {
    var t := s.cpus[d].current;
    assert Occurs(s, t, OnCpu(d));
    assert !At(s, t, OnCpu(c)) && !At(s, t, InHand(c)) && !At(s, t, Queued(c));
  }

  lemma CurrentTask(s: Sys, c: nat)
    requires PlacesOk(s) && TasksOk(s) && c < |s.cpus| && (s.cpus[c].pc.Out? || s.cpus[c].pc.Saving?)
    ensures var t := s.cpus[c].current; At(s, t, OnCpu(c)) && TaskOk(s, t)
  {
    assert Occurs(s, s.cpus[c].current, OnCpu(c));
  }

  lemma HandTask(s: Sys, c: nat)
    requires PlacesOk(s) && TasksOk(s) && c < |s.cpus| && s.cpus[c].pc.Holding?
    ensures At(s, s.cpus[c].pc.t, InHand(c)) && TaskOk(s, s.cpus[c].pc.t)
  {
    assert Occurs(s, s.cpus[c].pc.t, InHand(c));
  }

  lemma HeadTask(s: Sys, c: nat)
    requires PlacesOk(s) && TasksOk(s) && QueuesOk(s) && c < |s.cpus| && s.cpus[c].queue != []
    ensures var t := s.cpus[c].queue[0];
      At(s, t, Queued(c)) && TaskOk(s, t) && t !in s.cpus[c].queue[1..] && Distinct(s.cpus[c].queue[1..])
    ensures forall u :: u in s.cpus[c].queue <==> u == s.cpus[c].queue[0] || u in s.cpus[c].queue[1..]
  {
    assert Occurs(s, s.cpus[c].queue[0], Queued(c));
    assert s.cpus[c].queue == [s.cpus[c].queue[0]] + s.cpus[c].queue[1..];
  }

  lemma RequestInv(s: Sys, s': Sys, c: nat)
    requires Inv(s) && Request(s, s', c)
    ensures Inv(s')
  {
    hide PlacesOk;
    PlacesSame(s, s');
    assert SliceOk(s, c);
    SlicesStep(s, s', c);
  }

  lemma ExitInv(s: Sys, s': Sys, c: nat)
    requires Inv(s) && Exit(s, s', c)
    ensures Inv(s')
  {
    hide PlacesOk, TasksOk;
    CurrentTask(s, c);
    PlacesSame(s, s');
    TasksStep(s, s', s.cpus[c].current);
    forall d: nat | d < |s.cpus| && d != c && s.cpus[d].pc.Out?
      ensures s.cpus[d].current != s.cpus[c].current
    {
      CurrentApart(s, c, d);
    }
    SlicesStep(s, s', c);
  }

  lemma EnterInv(s: Sys, s': Sys, c: nat)
    requires Inv(s) && Enter(s, s', c)
    ensures Inv(s')
  {
    hide PlacesOk;
    PlacesSame(s, s');
    SlicesStep(s, s', c);
  }

  lemma TickInv(s: Sys, s': Sys, c: nat)
    requires Inv(s) && Tick(s, s', c)
    ensures Inv(s')
  {
    hide PlacesOk, TasksOk;
    CurrentTask(s, c);
    PlacesSame(s, s');
    TasksStep(s, s', s.cpus[c].current);
    forall d: nat | d < |s.cpus| && d != c && s.cpus[d].pc.Out?
      ensures s.cpus[d].current != s.cpus[c].current
    {
      CurrentApart(s, c, d);
    }
    SlicesStep(s, s', c);
  }

  /** The only task that moves is `t`. */
  lemma CreateInv(s: Sys, s': Sys)
    requires Inv(s) && Create(s, s')
    ensures Inv(s')
  {
    var t := Thread(s.nextId);
    assert t !in s.tasks && t !in s.place by {
      assert t in s.tasks || t in s.place ==> TaskOk(s, t);
    }
    assert PlacesOk(s') by {
      forall u, p
        ensures Occurs(s', u, p) <==> At(s', u, p)
      {
        assert Occurs(s, u, p) <==> At(s, u, p);
      }
    }
    hide PlacesOk, Occurs;
    TasksStep(s, s', t);
    hide TasksOk;
    forall d: nat | d < |s.cpus|
      ensures SliceOk(s', d)
    {
      assert SliceOk(s, d);
    }
  }

  lemma AppendDistinct(q: seq<Tid>, t: Tid)
    requires Distinct(q) && t !in q
    ensures Distinct(q + [t])
  {
  }

  lemma PublishInv(s: Sys, s': Sys, c: nat, t: Tid)
    requires Inv(s) && Publish(s, s', c, t)
    ensures Inv(s')
  {
    assert At(s, t, Nascent) by { assert Occurs(s, t, Nascent); }
    assert PlacesOk(s') by {
      forall u, p
        ensures Occurs(s', u, p) <==> At(s', u, p)
      {
        assert Occurs(s, u, p) <==> At(s, u, p);
      }
    }
    assert t !in s.cpus[c].queue by { assert !Occurs(s, t, Queued(c)); }
    AppendDistinct(s.cpus[c].queue, t);
    TasksStep(s, s', t);
    forall d: nat | d < |s.cpus| && s.cpus[d].pc.Out?
      ensures s.cpus[d].current != t
    {
      assert !Occurs(s, t, OnCpu(d));
    }
    hide PlacesOk, TasksOk, Occurs;
    assert SliceOk(s, c);
    SlicesStep(s, s', c);
  }

  lemma SavePlaces(s: Sys, s': Sys, c: nat)
    requires PlacesOk(s) && TasksOk(s) && Save(s, s', c)
    ensures PlacesOk(s') && s.cpus[c].current !in s.cpus[c].queue
  {
    CurrentTask(s, c);
    var t := s.cpus[c].current;
    forall u, p
      ensures Occurs(s', u, p) <==> At(s', u, p)
    {
      assert Occurs(s, u, p) <==> At(s, u, p);
    }
    assert !Occurs(s, t, Queued(c));
  }

  lemma SaveInv(s: Sys, s': Sys, c: nat)
    requires Inv(s) && Save(s, s', c)
    ensures Inv(s')
  {
    hide PlacesOk, TasksOk;
    CurrentTask(s, c);
    SavePlaces(s, s', c);
    AppendDistinctIf(s.cpus[c].queue, s.cpus[c].current);
    TasksStep(s, s', s.cpus[c].current);
    forall d: nat | d < |s.cpus| && d != c && s.cpus[d].pc.Out?
      ensures s.cpus[d].current != s.cpus[c].current
    {
      CurrentApart(s, c, d);
    }
    SlicesStep(s, s', c);
  }

  lemma AppendDistinctIf(q: seq<Tid>, t: Tid)
    ensures Distinct(q) && t !in q ==> Distinct(q + [t])
  {
  }

  lemma ChoosePlaces(s: Sys, s': Sys, c: nat)
    requires PlacesOk(s) && TasksOk(s) && QueuesOk(s) && Choose(s, s', c) && s.cpus[c].queue != []
    ensures PlacesOk(s')
  {
    HeadTask(s, c);
    forall u, p
      ensures Occurs(s', u, p) <==> At(s', u, p)
    {
      assert Occurs(s, u, p) <==> At(s, u, p);
    }
  }

  lemma ChooseInv(s: Sys, s': Sys, c: nat)
    requires Inv(s) && Choose(s, s', c)
    ensures Inv(s')
  {
    hide PlacesOk, TasksOk;
    if s.cpus[c].queue == [] {
      PlacesSame(s, s');
      TasksStep(s, s', IdleOf(c)) by { IdleTask(s, c); }
    } else {
      HeadTask(s, c);
      ChoosePlaces(s, s', c);
      TasksStep(s, s', s.cpus[c].queue[0]);
    }
    SlicesStep(s, s', c);
  }

  lemma IdleTask(s: Sys, c: nat)
    requires TasksOk(s) && c < |s.cpus|
    ensures IdleOf(c) in s.tasks && TaskOk(s, IdleOf(c))
  {
  }

  lemma StealPlaces(s: Sys, s': Sys, c: nat)
    requires PlacesOk(s) && TasksOk(s) && QueuesOk(s) && Steal(s, s', c)
    requires s.cpus[c].pc.i < |s.cpus| && s.cpus[c].pc.i != c && s.cpus[s.cpus[c].pc.i].queue != []
    ensures PlacesOk(s')
  {
    HeadTask(s, s.cpus[c].pc.i);
    forall u, p
      ensures Occurs(s', u, p) <==> At(s', u, p)
    {
      assert Occurs(s, u, p) <==> At(s, u, p);
    }
  }

  lemma StealInv(s: Sys, s': Sys, c: nat)
    requires Inv(s) && Steal(s, s', c)
    ensures Inv(s')
  {
    hide PlacesOk, TasksOk;
    var i := s.cpus[c].pc.i;
    if i >= |s.cpus| || i == c || s.cpus[i].queue == [] {
      PlacesSame(s, s');
      TasksStep(s, s', IdleOf(c)) by { IdleTask(s, c); }
    } else {
      HeadTask(s, i);
      StealPlaces(s, s', c);
      TasksStep(s, s', s.cpus[i].queue[0]);
      forall d: nat | d < |s.cpus| && s.cpus[d].pc.Out?
        ensures s.cpus[d].current != s.cpus[i].queue[0]
      {
        QueuedApart(s, i, d);
      }
    }
    SlicesStep(s, s', c);
  }

  lemma QueuedApart(s: Sys, i: nat, d: nat)
    requires PlacesOk(s) && i < |s.cpus| && s.cpus[i].queue != [] && d < |s.cpus| && s.cpus[d].pc.Out?
    ensures s.cpus[d].current != s.cpus[i].queue[0]
  {
    assert Occurs(s, s.cpus[i].queue[0], Queued(i)) && Occurs(s, s.cpus[d].current, OnCpu(d));
  }

  lemma CheckPlaces(s: Sys, s': Sys, c: nat)
    requires PlacesOk(s) && TasksOk(s) && Check(s, s', c)
    ensures PlacesOk(s') && s.tasks[s.cpus[c].pc.t].status.Ready? && s.cpus[c].pc.t.Thread?
  {
    HandTask(s, c);
    forall u, p
      ensures Occurs(s', u, p) <==> At(s', u, p)
    {
      assert Occurs(s, u, p) <==> At(s, u, p);
    }
  }

  lemma CheckInv(s: Sys, s': Sys, c: nat)
    requires Inv(s) && Check(s, s', c)
    ensures Inv(s')
  {
    hide PlacesOk, TasksOk;
    HandTask(s, c);
    CheckPlaces(s, s', c);
    TasksStep(s, s', s.cpus[c].pc.t);
    forall d: nat | d < |s.cpus| && d != c && s.cpus[d].pc.Out?
      ensures s.cpus[d].current != s.cpus[c].pc.t
    {
      CurrentApart(s, c, d);
    }
    SlicesStep(s, s', c);
  }

  /** An idle task is nowhere but on its own CPU. */
  lemma IdlePlaces(s: Sys, s': Sys, c: nat)
    requires PlacesOk(s) && TasksOk(s) && Idle(s, s', c)
    ensures PlacesOk(s') && IdleOf(c) !in s.place
  {
    IdleTask(s, c);
    assert !Occurs(s, IdleOf(c), OnCpu(c));
    forall u, p
      ensures Occurs(s', u, p) <==> At(s', u, p)
    {
      assert Occurs(s, u, p) <==> At(s, u, p);
    }
  }

  lemma IdleInv(s: Sys, s': Sys, c: nat)
    requires Inv(s) && Idle(s, s', c)
    ensures Inv(s')
  {
    hide PlacesOk, TasksOk;
    IdleTask(s, c);
    IdlePlaces(s, s', c);
    TasksStep(s, s', IdleOf(c));
    forall d: nat | d < |s.cpus| && d != c && s.cpus[d].pc.Out?
      ensures s.cpus[d].current != IdleOf(c)
    {
      CurrentApart(s, c, d);
    }
    SlicesStep(s, s', c);
  }

  lemma StepInv(s: Sys, s': Sys, c: nat, a: Action)
    requires Inv(s) && Step(s, s', c, a)
    ensures Inv(s')
  {
    hide Inv, Request, Exit, Enter, Tick, Create, Publish, Save, Choose, Steal, Check, Idle;
    match a
    case ARequest => RequestInv(s, s', c);
    case AExit => ExitInv(s, s', c);
    case AEnter => EnterInv(s, s', c);
    case ATick => TickInv(s, s', c);
    case ACreate => CreateInv(s, s');
    case APublish(t) => PublishInv(s, s', c, t);
    case ASave => SaveInv(s, s', c);
    case AChoose => ChooseInv(s, s', c);
    case ASteal => StealInv(s, s', c);
    case ACheck => CheckInv(s, s', c);
    case AIdle => IdleInv(s, s', c);
  }
}
