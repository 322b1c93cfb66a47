/** The scheduler's own code over its mutable state: each call made while the other CPUs stand still is a run of
    steps of its CPU, and picks a task that can be read off the queues. */
module SchedulerCode {
  import opened Common
  import opened Scheduler
  import opened SchedulerRuns

  // ----- runs of one CPU

  ghost predicate Runs(s: Sys, t: Sys, c: nat, n: nat)
    decreases n
  {
    if n == 0 then s == t else exists m, a :: Step(s, m, c, a) && Runs(m, t, c, n - 1)
  }

  ghost predicate Alone(s: Sys, t: Sys, c: nat) {
    exists n :: Runs(s, t, c, n)
  }

  lemma {:induction false} RunsTrans(s: Sys, m: Sys, t: Sys, c: nat, i: nat, j: nat)
    requires Runs(s, m, c, i) && Runs(m, t, c, j)
    ensures Runs(s, t, c, i + j)
    decreases i
  {
    hide Step;
    if i > 0 {
      var u, a :| Step(s, u, c, a) && Runs(u, m, c, i - 1);
      RunsTrans(u, m, t, c, i - 1, j);
    }
  }

  /** One more step of a run that keeps the invariant. */
  lemma Extend(s: Sys, m: Sys, t: Sys, c: nat, a: Action)
    requires Alone(s, m, c) && Inv(m) && Step(m, t, c, a)
    ensures Alone(s, t, c) && Inv(t)
  {
    hide Inv, Step;
    StepInv(m, t, c, a);
    var n :| Runs(s, m, c, n);
    assert Runs(t, t, c, 0);
    assert Runs(m, t, c, 1);
    RunsTrans(s, m, t, c, n, 1);
  }

  lemma Refl(s: Sys, c: nat)
    ensures Alone(s, s, c)
  {
    assert Runs(s, s, c, 0);
  }

  // ----- which task is picked

  /** The own queue after the outgoing task has been put back. */
  function QueueSaved(s: Sys, c: nat): seq<Tid>
    requires c < |s.cpus| && s.cpus[c].current in s.tasks
  {
    var cpu := s.cpus[c];
    if cpu.current.Thread? && s.tasks[cpu.current].status.Running? then cpu.queue + [cpu.current] else cpu.queue
  }

  /** The first CPU from `i` on, other than `c`, with a task to steal. */
  function Victim(s: Sys, c: nat, i: nat): (v: nat)
    ensures i <= v && v <= (if i <= |s.cpus| then |s.cpus| else i)
    ensures v < |s.cpus| ==> v != c && s.cpus[v].queue != []
    ensures forall j :: i <= j < v && j != c ==> s.cpus[j].queue == []
    decreases |s.cpus| - i
  {
    if i >= |s.cpus| then i
    else if i == c || s.cpus[i].queue == [] then Victim(s, c, i + 1)
    else i
  }

  /** The task `task_schedule` runs next. */
  function Next(s: Sys, c: nat): Tid
    requires c < |s.cpus| && s.cpus[c].current in s.tasks
  {
    var q := QueueSaved(s, c);
    var v := Victim(s, c, 0);
    if q != [] then q[0] else if v < |s.cpus| then s.cpus[v].queue[0] else IdleOf(c)
  }

  // ----- the states the code goes through

  function GoneTo(s: Sys, c: nat, pc: Pc): Sys
    requires c < |s.cpus|
  {
    SetCpu(s, c, s.cpus[c].(pc := pc))
  }

  ghost function Stolen(s: Sys, c: nat, i: nat): Sys
    requires c < |s.cpus| && i < |s.cpus| && s.cpus[i].queue != [] && s.cpus[i].queue[0] in s.tasks
  {
    var t := s.cpus[i].queue[0];
    s.(cpus := s.cpus[i := s.cpus[i].(queue := s.cpus[i].queue[1..])][c := s.cpus[c].(pc := Holding(t))],
       tasks := s.tasks[t := s.tasks[t].(cpuId := c)], place := s.place[t := InHand(c)])
  }

  lemma PcSame(s: Sys, c: nat)
    requires c < |s.cpus|
    ensures GoneTo(s, c, s.cpus[c].pc) == s
  {
  }

  lemma PcForgotten(s: Sys, c: nat, a: Pc, b: Pc)
    requires c < |s.cpus|
    ensures |GoneTo(s, c, a).cpus| == |s.cpus| && GoneTo(GoneTo(s, c, a), c, b) == GoneTo(s, c, b)
  {
  }

  lemma StolenForgets(s: Sys, c: nat, a: Pc, i: nat)
    requires c < |s.cpus| && i < |s.cpus| && i != c
    ensures |GoneTo(s, c, a).cpus| == |s.cpus| && GoneTo(s, c, a).cpus[i].queue == s.cpus[i].queue &&
      GoneTo(s, c, a).tasks == s.tasks
    ensures s.cpus[i].queue != [] && s.cpus[i].queue[0] in s.tasks ==> Stolen(GoneTo(s, c, a), c, i) == Stolen(s, c, i)
  {
    if s.cpus[i].queue != [] && s.cpus[i].queue[0] in s.tasks {
      var x, y := Stolen(GoneTo(s, c, a), c, i), Stolen(s, c, i);
      assert forall j :: 0 <= j < |s.cpus| ==> x.cpus[j] == y.cpus[j];
      assert x.cpus == y.cpus;
    }
  }

  lemma PassesOn(s0: Sys, s: Sys, c: nat)
    requires Alone(s0, s, c) && Inv(s) && c < |s.cpus| && s.cpus[c].pc.Stealing?
    requires var i := s.cpus[c].pc.i; i >= |s.cpus| || i == c || s.cpus[i].queue == []
    ensures var i := s.cpus[c].pc.i;
      var s' := GoneTo(s, c, if i >= |s.cpus| then Starved else Stealing(i + 1)); Alone(s0, s', c) && Inv(s')
  {
    hide Inv, Alone;
    var i := s.cpus[c].pc.i;
    Extend(s0, s, GoneTo(s, c, if i >= |s.cpus| then Starved else Stealing(i + 1)), c, ASteal);
  }

  lemma StealsOne(s0: Sys, s: Sys, c: nat, i: nat)
    requires Alone(s0, s, c) && Inv(s) && c < |s.cpus| && s.cpus[c].pc == Stealing(i)
    requires i < |s.cpus| && i != c && s.cpus[i].queue != []
    ensures s.cpus[i].queue[0] in s.tasks && Alone(s0, Stolen(s, c, i), c) && Inv(Stolen(s, c, i))
  {
    hide Inv, Alone;
    QueuedReady(s, i, s.cpus[i].queue[0]);
    Extend(s0, s, Stolen(s, c, i), c, ASteal);
  }

  ghost function Saved(s: Sys, c: nat): Sys
    requires c < |s.cpus| && s.cpus[c].current in s.tasks
  {
    var cpu := s.cpus[c];
    var t := cpu.current;
    var m := SetCpu(s, c, cpu.(pc := Choosing, queue := QueueSaved(s, c)));
    if !s.tasks[t].status.Running? then m.(place := s.place - {t})
    else m.(tasks := s.tasks[t := s.tasks[t].(status := Ready)], place := if t.IdleOf? then s.place - {t}
            else s.place[t := Queued(c)])
  }

  lemma Saves(s0: Sys, s: Sys, c: nat)
    requires Alone(s0, s, c) && Inv(s) && c < |s.cpus| && s.cpus[c].pc.Saving?
    ensures s.cpus[c].current in s.tasks && Alone(s0, Saved(s, c), c) && Inv(Saved(s, c))
  {
    hide Inv, Alone;
    Current(s, c);
    var s', cpu := Saved(s, c), s.cpus[c];
    assert QueueSaved(s, c) == cpu.queue ==> cpu.(pc := Choosing, queue := QueueSaved(s, c)) == cpu.(pc := Choosing);
    Extend(s0, s, s', c, ASave);
  }

  lemma Current(s: Sys, c: nat)
    requires Inv(s) && c < |s.cpus| && (s.cpus[c].pc.Out? || s.cpus[c].pc.Saving?)
    ensures s.cpus[c].current in s.tasks
  {
    CurrentTask(s, c);
  }

  ghost function Chosen(s: Sys, c: nat): Sys
    requires c < |s.cpus|
  {
    var cpu := s.cpus[c];
    if cpu.queue == [] then GoneTo(s, c, Stealing(0))
    else SetCpu(s, c, cpu.(pc := Holding(cpu.queue[0]),
                           queue := cpu.queue[1..])).(place := s.place[cpu.queue[0] := InHand(c)])
  }

  lemma Chooses(s0: Sys, s: Sys, c: nat)
    requires Alone(s0, s, c) && Inv(s) && c < |s.cpus| && s.cpus[c].pc.Choosing?
    ensures Alone(s0, Chosen(s, c), c) && Inv(Chosen(s, c))
  {
    hide Inv, Alone;
    Extend(s0, s, Chosen(s, c), c, AChoose);
  }

  /** The task starts to run on the CPU. */
  ghost function Dispatched(s: Sys, c: nat, t: Tid): Sys
    requires c < |s.cpus| && t in s.tasks
  {
    SetCpu(s, c, s.cpus[c].(pc := Out, current := t))
    .(tasks := s.tasks[t := s.tasks[t].(status := Running, slice := if t.IdleOf? then 0 else TIMESLICE)],
      place := s.place[t := OnCpu(c)])
  }

  lemma Dispatches(s0: Sys, s: Sys, c: nat)
    requires Alone(s0, s, c) && Inv(s) && c < |s.cpus| && (s.cpus[c].pc.Holding? || s.cpus[c].pc.Starved?)
    ensures var t := if s.cpus[c].pc.Holding? then s.cpus[c].pc.t else IdleOf(c);
      t in s.tasks && Alone(s0, Dispatched(s, c, t), c) && Inv(Dispatched(s, c, t)) &&
      (s.cpus[c].pc.Holding? ==> s.tasks[t].status.Ready?)
  {
    hide Alone, PlacesOk, QueuesOk, SlicesOk, TasksOk;
    if s.cpus[c].pc.Holding? {
      OnlyReadyInHand(s, c);
      hide Inv;
      Extend(s0, s, Dispatched(s, c, s.cpus[c].pc.t), c, ACheck);
    } else {
      IdleTask(s, c);
      hide Inv;
      Extend(s0, s, Dispatched(s, c, IdleOf(c)), c, AIdle);
    }
  }

  /** Without a victim before `i`, the search goes on. */
  lemma VictimOn(s: Sys, m: Sys, c: nat, i: nat)
    requires i < |s.cpus| == |m.cpus| && m.cpus[i].queue == s.cpus[i].queue
    ensures Victim(s, c, i) == if i == c || m.cpus[i].queue == [] then Victim(s, c, i + 1) else i
  {
  }

  ghost predicate SameQueues(s: Sys, m: Sys) {
    |s.cpus| == |m.cpus| && forall j :: 0 <= j < |s.cpus| ==> m.cpus[j].queue == s.cpus[j].queue
  }

  /** The fields hold the state. */
  ghost predicate Shows(queues: seq<seq<Tid>>, current: seq<Tid>, resched: seq<bool>, tasks: map<Tid, Task>, s: Sys) {
    && |queues| == |current| == |resched| == |s.cpus| && tasks == s.tasks
    && forall i :: 0 <= i < |s.cpus| ==>
       queues[i] == s.cpus[i].queue && current[i] == s.cpus[i].current && resched[i] == s.cpus[i].resched
  }

  lemma ShowsAt(queues: seq<seq<Tid>>, current: seq<Tid>, resched: seq<bool>, tasks: map<Tid, Task>, s: Sys, c: nat)
    requires Shows(queues, current, resched, tasks, s) && c < |s.cpus|
    ensures |queues| == |current| == |resched| == |s.cpus| && tasks == s.tasks
    ensures queues[c] == s.cpus[c].queue && current[c] == s.cpus[c].current && resched[c] == s.cpus[c].resched
  {
  }

  /** Only the pc of a CPU changes. */
  lemma ShowsGone(queues: seq<seq<Tid>>, current: seq<Tid>, resched: seq<bool>, tasks: map<Tid, Task>, s: Sys, c: nat,
                  pc: Pc)
    requires Shows(queues, current, resched, tasks, s) && c < |s.cpus|
    ensures Shows(queues, current, resched, tasks, GoneTo(s, c, pc)) && GoneTo(s, c, pc).cpus[c].pc == pc
    ensures SameQueues(s, GoneTo(s, c, pc)) && |GoneTo(s, c, pc).cpus| == |s.cpus|
  {
  }

  lemma ShowsStolen(queues: seq<seq<Tid>>, current: seq<Tid>, resched: seq<bool>, tasks: map<Tid, Task>, s: Sys, c: nat,
                    i: nat)
    requires Shows(queues, current, resched, tasks, s) && c < |s.cpus| && i < |s.cpus| && i != c
    requires s.cpus[i].queue != [] && s.cpus[i].queue[0] in s.tasks
    ensures var t := s.cpus[i].queue[0];
      |queues| == |s.cpus| == |Stolen(s, c, i).cpus| && queues[i] == s.cpus[i].queue && t in tasks &&
      Stolen(s, c, i).cpus[c].pc == Holding(t) &&
      Shows(queues[i := queues[i][1..]], current, resched, tasks[t := tasks[t].(cpuId := c)], Stolen(s, c, i))
  {
  }

  lemma SameQueuesTrans(s: Sys, m: Sys, t: Sys)
    requires SameQueues(s, m) && SameQueues(m, t)
    ensures SameQueues(s, t)
  {
  }

  lemma QueueSame(s: Sys, m: Sys, i: nat)
    requires SameQueues(s, m) && i < |s.cpus|
    ensures i < |m.cpus| && m.cpus[i].queue == s.cpus[i].queue
  {
  }

  class Kernel {
    var queues: seq<seq<Tid>>
    var current: seq<Tid>
    var resched: seq<bool>
    var tasks: map<Tid, Task>

    ghost predicate Rep(s: Sys)
      reads this
    {
      Shows(queues, current, resched, tasks, s)
    }

    method Enqueue(c: nat, t: Tid)
      requires c < |queues|
      modifies this`queues
      ensures queues == old(queues)[c := old(queues)[c] + [t]]
    {
      queues := queues[c := queues[c] + [t]];
    }

    method Dequeue(c: nat) returns (t: Option<Tid>)
      requires c < |queues|
      modifies this`queues
      ensures old(queues)[c] == [] ==> t == None && queues == old(queues)
      ensures old(queues)[c] != [] ==> t == Some(old(queues)[c][0]) && queues == old(queues)[c := old(queues)[c][1..]]
    {
      if queues[c] == [] {
        return None;
      }
      t := Some(queues[c][0]);
      queues := queues[c := queues[c][1..]];
    }

    /** `task_steal`: the head of the first non-empty queue of another CPU. */
    method TaskSteal(c: nat, ghost s0: Sys, ghost s: Sys) returns (t: Option<Tid>, ghost s': Sys)
      requires Rep(s) && Inv(s) && Alone(s0, s, c) && c < |s.cpus| && s.cpus[c].pc == Stealing(0)
      modifies this`queues, this`tasks
      ensures Rep(s') && Inv(s') && Alone(s0, s', c) && |s'.cpus| == |s.cpus|
      ensures var v := Victim(s, c, 0);
        if v < |s.cpus| then t == Some(s.cpus[v].queue[0]) && t.value in s.tasks && s' == Stolen(s, c, v)
        else t == None && s' == GoneTo(s, c, Starved)
    {
      hide Inv, Alone, Victim, Shows, SameQueues, GoneTo, Stolen;
      s' := s;
      PcSame(s, c);
      SameQueuesRefl(s);
      ShowsAt(queues, current, resched, tasks, s, c);
      for i := 0 to |queues|
        invariant |queues| == |s.cpus| == |s'.cpus| && Rep(s') && Inv(s') && Alone(s0, s', c) && SameQueues(s, s')
        invariant s' == GoneTo(s, c, Stealing(i)) && s'.cpus[c].pc == Stealing(i)
        invariant Victim(s, c, 0) == Victim(s, c, i)
      {
        QueueSame(s, s', i);
        VictimOn(s, s', c, i);
        ShowsGone(queues, current, resched, tasks, s', c, Stealing(i + 1));
        SameQueuesTrans(s, s', GoneTo(s', c, Stealing(i + 1)));
        ShowsAt(queues, current, resched, tasks, s', i);
        PcForgotten(s, c, Stealing(i), Stealing(i + 1));
        if i == c {
          PassesOn(s0, s', c);
          s' := GoneTo(s', c, Stealing(i + 1));
          continue;
        }
        ghost var before := queues;
        t := Dequeue(i);
        if t.Some? {
          StealsOne(s0, s', c, i);
          StolenForgets(s, c, Stealing(i), i);
          ShowsStolen(before, current, resched, tasks, s', c, i);
          tasks := tasks[t.value := tasks[t.value].(cpuId := c)];
          s' := Stolen(s', c, i);
          return;
        }
        PassesOn(s0, s', c);
        s' := GoneTo(s', c, Stealing(i + 1));
      }
      PassesOn(s0, s', c);
      ShowsGone(queues, current, resched, tasks, s', c, Starved);
      QueueSame(s', GoneTo(s', c, Starved), c);
      PcForgotten(s, c, Stealing(|queues|), Starved);
      s' := GoneTo(s', c, Starved);
      t := None;
    }

    /** `task_schedule`, from where the outgoing task is put back. The branches that reap or requeue the
        dequeued task cannot be reached, so the loop ends. */
    method TaskSchedule(c: nat, ghost s0: Sys, ghost s: Sys) returns (ghost s': Sys)
      requires Rep(s) && Inv(s) && Alone(s0, s, c) && c < |s.cpus| && s.cpus[c].pc.Saving?
      modifies this`queues, this`tasks, this`current
      ensures Rep(s') && Inv(s') && Alone(s0, s', c) && |s'.cpus| == |s.cpus| && s'.cpus[c].pc.Out?
      ensures s.cpus[c].current in s.tasks && s' == Scheduled(s, c) && s'.cpus[c].current == Next(s, c)
    {
      hide Inv, Alone, Victim, Shows, SameQueues, Saved, Chosen, Dispatched, Stolen, Next;
      ShowsAt(queues, current, resched, tasks, s, c);
      Saves(s0, s, c);
      ShowsSaved(queues, current, resched, tasks, s, c);
      var outgoing := current[c];
      if tasks[outgoing].status.Running? {
        tasks := tasks[outgoing := tasks[outgoing].(status := Ready)];
        if outgoing.Thread? {
          Enqueue(c, outgoing);
        }
      }
      s' := Saved(s, c);
      assert Rep(s');
      var next: Option<Tid> := None;
      var looking := true;
      while looking
        invariant Rep(s') && Inv(s') && Alone(s0, s', c) && |s'.cpus| == |s.cpus|
        invariant looking ==> s' == Saved(s, c)
        invariant !looking ==> Next(s, c) == (if next.Some? then next.value else IdleOf(c)) && s' == Taken(s, c)
        invariant !looking ==> if next.Some? then s'.cpus[c].pc == Holding(next.value) else s'.cpus[c].pc.Starved?
        decreases looking
      {
        Chooses(s0, s', c);
        ShowsChosen(queues, current, resched, tasks, s', c);
        NextIs(s, c);
        next := Dequeue(c);
        s' := Chosen(s', c);
        if next.None? {
          VictimSame(s, s', c, 0);
          ghost var m := s';
          next, s' := TaskSteal(c, s0, s');
          TakenPc(m, c);
        }
        looking := false;
        if next.Some? {
          Dispatches(s0, s', c);
          ShowsAt(queues, current, resched, tasks, s', c);
          if !tasks[next.value].status.Ready? {
            assert false;
          }
        }
      }
      Dispatches(s0, s', c);
      var t := if next.Some? then next.value else IdleOf(c);
      ShowsDispatched(queues, current, resched, tasks, s', c, t);
      current := current[c := t];
      tasks := tasks[t := tasks[t].(status := Running, slice := if t.IdleOf? then 0 else TIMESLICE)];
      s' := Dispatched(s', c, t);
    }

    /** `task_timer_tick`. */
    method TimerTick(c: nat, ghost s: Sys)
      requires Rep(s) && c < |s.cpus| && s.cpus[c].current in s.tasks
      modifies this`tasks, this`resched
      ensures Rep(SetCpu(s, c, s.cpus[c].(resched := s.cpus[c].resched || Expired(s, c)))
                  .(tasks := s.tasks[s.cpus[c].current := s.tasks[s.cpus[c].current].(slice := SliceAfter(s, c))]))
    {
      hide Shows, SetCpu;
      ShowsAt(queues, current, resched, tasks, s, c);
      ShowsTicked(queues, current, resched, tasks, s, c);
      var t := current[c];
      if !tasks[t].status.Running? {
        resched := resched[c := true];
        return;
      }
      if t.IdleOf? {
        if queues[c] != [] {
          resched := resched[c := true];
        }
        return;
      }
      if tasks[t].slice > 0 {
        tasks := tasks[t := tasks[t].(slice := tasks[t].slice - 1)];
      }
      if tasks[t].slice == 0 {
        resched := resched[c := true];
      }
    }

    /** The vector-32 path of `isr_handler`: the next task runs exactly if a reschedule was asked for or the tick
        asks for one. */
    method TimerInterrupt(c: nat, ghost s: Sys) returns (ghost s': Sys)
      requires Rep(s) && Inv(s) && c < |s.cpus| && s.cpus[c].pc.Out?
      modifies this
      ensures Rep(s') && Inv(s') && Alone(s, s', c) && |s'.cpus| == |s.cpus| && s'.cpus[c].pc.Out? &&
        s.cpus[c].current in s.tasks
      ensures s'.cpus[c].current == if s.cpus[c].resched || Expired(s, c) then Next(s, c) else s.cpus[c].current
      ensures s' == if s.cpus[c].resched || Expired(s, c) then Scheduled(Ticked(s, c), c) else Ticked(s, c)
    {
      hide Inv, Alone, Shows, Victim, Expired, SliceAfter, Scheduled, Next;
      NextTicked(s, c);
      Current(s, c);
      TickRuns(s, c);
      TimerTick(c, s);
      ghost var m := SetCpu(s, c, s.cpus[c].(resched := s.cpus[c].resched || Expired(s, c)))
                     .(tasks := s.tasks[s.cpus[c].current := s.tasks[s.cpus[c].current].(slice := SliceAfter(s, c))]);
      ShowsAt(queues, current, resched, tasks, m, c);
      s' := Ticked(s, c);
      assert SetCpu(m, c, m.cpus[c].(resched := false, pc := s'.cpus[c].pc)) == s';
      ShowsResched(queues, current, resched, tasks, m, c, s'.cpus[c].pc);
      if resched[c] {
        resched := resched[c := false];
        s' := TaskSchedule(c, s, s');
      }
    }

    function Load(c: nat): nat
      requires c < |queues| == |current|
      reads this
    {
      |queues[c]| + if current[c].Thread? then 1 else 0
    }

    /** `pick_least_loaded_cpu`: the first of the CPUs with the fewest queued and running tasks. */
    method PickLeastLoadedCpu() returns (least: nat)
      requires 0 < |queues| == |current|
      ensures least < |queues|
      ensures forall d :: 0 <= d < |queues| ==> Load(least) <= Load(d) && (d < least ==> Load(least) < Load(d))
    {
      least := 0;
      for i := 1 to |queues|
        invariant least < i && forall d :: 0 <= d < i ==>
          Load(least) <= Load(d) && (d < least ==> Load(least) < Load(d))
      {
        if Load(i) < Load(least) {
          least := i;
        }
      }
    }
  }

  lemma ShowsTicked(queues: seq<seq<Tid>>, current: seq<Tid>, resched: seq<bool>, tasks: map<Tid, Task>, s: Sys, c: nat)
    requires Shows(queues, current, resched, tasks, s) && c < |s.cpus| && s.cpus[c].current in s.tasks
    ensures |resched| == |s.cpus| &&
      Shows(queues, current, resched[c := resched[c] || Expired(s, c)],
            tasks[current[c] := tasks[current[c]].(slice := SliceAfter(s, c))],
            SetCpu(s, c, s.cpus[c].(resched := s.cpus[c].resched || Expired(s, c)))
            .(tasks := s.tasks[s.cpus[c].current := s.tasks[s.cpus[c].current].(slice := SliceAfter(s, c))]))
    ensures resched[c := resched[c]] == resched && tasks[current[c] := tasks[current[c]]] == tasks
  {
  }

  lemma ShowsResched(queues: seq<seq<Tid>>, current: seq<Tid>, resched: seq<bool>, tasks: map<Tid, Task>, s: Sys,
                     c: nat, pc: Pc)
    requires Shows(queues, current, resched, tasks, s) && c < |s.cpus|
    ensures |resched| == |s.cpus| &&
      Shows(queues, current, resched[c := false], tasks, SetCpu(s, c, s.cpus[c].(resched := false, pc := pc)))
    ensures !resched[c] ==> resched[c := false] == resched
  {
  }

  /** The tick does not change which task is next. */
  lemma NextTicked(s: Sys, c: nat)
    requires c < |s.cpus| && Inv(s) && s.cpus[c].pc.Out?
    ensures s.cpus[c].current in s.tasks && |Ticked(s, c).cpus| == |s.cpus| &&
      Ticked(s, c).cpus[c].current in Ticked(s, c).tasks
    ensures Next(Ticked(s, c), c) == Next(s, c)
  {
    hide Inv, Victim, Expired, SliceAfter;
    Current(s, c);
    VictimSame(s, Ticked(s, c), c, 0);
  }

  ghost function Ticked(s: Sys, c: nat): Sys
    requires c < |s.cpus| && s.cpus[c].current in s.tasks
  {
    var cpu := s.cpus[c];
    SetCpu(s, c, cpu.(pc := if cpu.resched || Expired(s, c) then Saving else Out, resched := false))
    .(tasks := s.tasks[cpu.current := s.tasks[cpu.current].(slice := SliceAfter(s, c))])
  }

  lemma TickRuns(s: Sys, c: nat)
    requires Inv(s) && c < |s.cpus| && s.cpus[c].pc.Out? && s.cpus[c].current in s.tasks
    ensures Alone(s, Ticked(s, c), c) && Inv(Ticked(s, c))
  {
    hide Inv, Alone;
    Refl(s, c);
    Extend(s, s, Ticked(s, c), c, ATick);
  }

  lemma {:induction false} VictimSame(s: Sys, m: Sys, c: nat, i: nat)
    requires |m.cpus| == |s.cpus| && forall j :: 0 <= j < |s.cpus| && j != c ==> m.cpus[j].queue == s.cpus[j].queue
    ensures Victim(m, c, i) == Victim(s, c, i)
    decreases |s.cpus| - i
  {
    if i < |s.cpus| {
      VictimSame(s, m, c, i + 1);
    }
  }

  /** The state when the task to run is in hand, or nothing was found. */
  ghost function Taken(s: Sys, c: nat): Sys
    requires c < |s.cpus| && s.cpus[c].current in s.tasks
  {
    var m := Chosen(Saved(s, c), c);
    if |m.cpus| != |s.cpus| || !m.cpus[c].pc.Stealing? then m
    else
      var v := Victim(m, c, 0);
      if v < |m.cpus| && m.cpus[v].queue[0] in m.tasks then Stolen(m, c, v) else GoneTo(m, c, Starved)
  }

  /** The whole effect of `task_schedule` when nobody interferes. */
  ghost function Scheduled(s: Sys, c: nat): Sys
    requires c < |s.cpus| && s.cpus[c].current in s.tasks
  {
    var m := Taken(s, c);
    if |m.cpus| == |s.cpus| && Next(s, c) in m.tasks then Dispatched(m, c, Next(s, c)) else m
  }

  lemma NextIs(s: Sys, c: nat)
    requires c < |s.cpus| && s.cpus[c].current in s.tasks
    ensures var q, v := QueueSaved(s, c), Victim(s, c, 0);
      Next(s, c) == if q != [] then q[0] else if v < |s.cpus| then s.cpus[v].queue[0] else IdleOf(c)
  {
  }

  lemma TakenPc(m: Sys, c: nat)
    requires c < |m.cpus|
    ensures GoneTo(m, c, Starved).cpus[c].pc.Starved? && |GoneTo(m, c, Starved).cpus| == |m.cpus|
    ensures forall v: nat :: v < |m.cpus| && m.cpus[v].queue != [] && m.cpus[v].queue[0] in m.tasks ==>
      |Stolen(m, c, v).cpus| == |m.cpus| && Stolen(m, c, v).cpus[c].pc == Holding(m.cpus[v].queue[0])
  {
  }

  lemma ShowsSaved(queues: seq<seq<Tid>>, current: seq<Tid>, resched: seq<bool>, tasks: map<Tid, Task>, s: Sys, c: nat)
    requires Shows(queues, current, resched, tasks, s) && c < |s.cpus| && s.cpus[c].current in s.tasks
    ensures var t := s.cpus[c].current;
      var m := Saved(s, c);
      |queues| == |current| == |s.cpus| == |m.cpus| && current[c] == t && t in tasks && tasks[t] == s.tasks[t] &&
      m.cpus[c].pc.Choosing? && m.cpus[c].queue == QueueSaved(s, c) && m.cpus[c].current == t &&
      (forall i :: 0 <= i < |s.cpus| && i != c ==> m.cpus[i].queue == s.cpus[i].queue) &&
      Shows(if t.Thread? && tasks[t].status.Running? then queues[c := queues[c] + [t]] else queues, current, resched,
            if tasks[t].status.Running? then tasks[t := tasks[t].(status := Ready)] else tasks, m)
  {
  }

  lemma ShowsChosen(queues: seq<seq<Tid>>, current: seq<Tid>, resched: seq<bool>, tasks: map<Tid, Task>, s: Sys, c: nat)
    requires Shows(queues, current, resched, tasks, s) && c < |s.cpus|
    ensures var m := Chosen(s, c);
      |queues| == |s.cpus| == |m.cpus| && queues[c] == s.cpus[c].queue &&
      (queues[c] != [] ==> m.cpus[c].pc == Holding(queues[c][0])) &&
      (queues[c] == [] ==> m.cpus[c].pc == Stealing(0)) &&
      (forall i :: 0 <= i < |s.cpus| && i != c ==> m.cpus[i].queue == s.cpus[i].queue) &&
      Shows(if queues[c] == [] then queues else queues[c := queues[c][1..]], current, resched, tasks, m)
  {
  }

  lemma ShowsDispatched(queues: seq<seq<Tid>>, current: seq<Tid>, resched: seq<bool>, tasks: map<Tid, Task>, s: Sys,
                        c: nat, t: Tid)
    requires Shows(queues, current, resched, tasks, s) && c < |s.cpus| && t in s.tasks
    ensures var m := Dispatched(s, c, t);
      |current| == |s.cpus| == |m.cpus| && t in tasks && m.cpus[c].pc.Out? && m.cpus[c].current == t &&
      Shows(queues, current[c := t], resched, tasks[t := tasks[t].(status := Running, slice := if t.IdleOf? then 0
          else TIMESLICE)], m)
  {
  }

  lemma SameQueuesRefl(s: Sys)
    ensures SameQueues(s, s)
  {
  }
}
