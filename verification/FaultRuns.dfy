/** A fault is resolved within a bounded number of its CPU's own steps, whatever the other CPUs do in between. */
module FaultRuns {
  import opened Common
  import opened Paging
  import opened CowMachine
  import opened CowRefinement
  import Frames

  /** CPU `c` is handling a write fault on the page, whose entry it has yet to write or has made writable. */
  ghost predicate Resolving(s: Sys, c: nat, x: Slot) {
    && c in s.pc
    && match s.pc[c]
       case Faulted(space, va, _) => x == Slot(space, va)
       case Splitting(space, va, _) => x == Slot(space, va)
       case Copying(space, va, _, _, _) => x == Slot(space, va)
       case Keeping(space, va, _) => x == Slot(space, va)
       case Dropping(space, _) => x.space == space && x in s.leaf && s.leaf[x].flags.writable
       case _ => false
  }

  /** The fault is over: the CPU is back in the program, and the page is writable. */
  ghost predicate Resolved(s: Sys, c: nat, x: Slot) {
    c in s.pc && s.pc[c] == User(x.space) && x in s.leaf && s.leaf[x].flags.writable
  }

  /** The steps left until the program runs again. */
  function Rank(p: Pc): nat {
    match p
    case Faulted(_, _, _) => PAGE_SIZE + 4
    case Splitting(_, _, _) => PAGE_SIZE + 3
    case Copying(_, _, _, _, k) => if k <= PAGE_SIZE then PAGE_SIZE - k + 2 else 2
    case Dropping(_, _) => 1
    case Keeping(_, _, _) => 1
    case _ => 0
  }

  /** A step of another CPU leaves this one where it is. */
  lemma OtherPc(s: Sys, s': Sys, d: nat, a: Action, c: nat)
    requires Step(s, s', d, a) && c in s.pc && c != d
    ensures c in s'.pc && s'.pc[c] == s.pc[c]
  {
  }

  /** It leaves the entries of the spaces this one owns alone, and its event does not affect them. */
  lemma OtherSlot(s: Sys, s': Sys, d: nat, a: Action, c: nat, x: Slot)
    requires OwnersOk(s) && Step(s, s', d, a) && c in s.pc && d in s.pc && c != d && Owns(s.pc[c], x.space)
    ensures x in s.leaf ==> x in s'.leaf && s'.leaf[x] == s.leaf[x]
    ensures !Affects(Label(s, d, a), x)
  {
    assert OwnsAlone(s, d);
    hide OwnersOk, IsRoot;
    assert !Owns(s.pc[d], x.space);
    OtherLeaf(s, s', d, a, x);
    OtherEvent(s, s', d, a, c, x);
    hide Step, Label, Affects, Owns;
  }

  lemma OtherLeaf(s: Sys, s': Sys, d: nat, a: Action, x: Slot)
    requires Step(s, s', d, a) && d in s.pc && !Owns(s.pc[d], x.space)
    ensures x in s.leaf ==> x in s'.leaf && s'.leaf[x] == s.leaf[x]
  {
    hide Frames.Take, Frames.Drop, Frames.Share, FreeFor, IsRoot;
  }

  lemma OtherEvent(s: Sys, s': Sys, d: nat, a: Action, c: nat, x: Slot)
    requires Step(s, s', d, a) && c in s.pc && d in s.pc && c != d && OwnsAlone(s, d)
    requires Owns(s.pc[c], x.space) && !Owns(s.pc[d], x.space)
    ensures !Affects(Label(s, d, a), x)
  {
    hide Frames.Take, Frames.Drop, Frames.Share, IsRoot;
  }

  lemma Acts(s: Sys, s': Sys, d: nat, a: Action)
    requires Step(s, s', d, a)
    ensures d in s.pc
  {
  }

  lemma OtherKeeps(s: Sys, s': Sys, d: nat, a: Action, c: nat, x: Slot)
    requires OwnersOk(s) && Step(s, s', d, a) && c != d && Resolving(s, c, x)
    ensures Resolving(s', c, x) && s'.pc[c] == s.pc[c] && d in s.pc && !Affects(Label(s, d, a), x)
  {
    Acts(s, s', d, a);
    OtherPc(s, s', d, a, c);
    OtherSlot(s, s', d, a, c, x);
    hide Step, OwnersOk, Label;
  }

  /** Each of its own steps brings the fault closer to its end, and shows nothing. */
  lemma OwnStep(s: Sys, s': Sys, c: nat, a: Action, x: Slot)
    requires Step(s, s', c, a) && Resolving(s, c, x)
    ensures (Resolving(s', c, x) || Resolved(s', c, x)) && Rank(s'.pc[c]) < Rank(s.pc[c]) && Label(s, c, a) == Internal
  {
  }

  /** The steps CPU `c` has taken in the first `n`. */
  function Steps(r: Run, c: nat, n: nat): nat
    requires n <= |r.cpus|
  {
    if n == 0 then 0 else Steps(r, c, n - 1) + if r.cpus[n - 1] == c then 1 else 0
  }

  lemma InvOwners(s: Sys)
    requires Inv(s)
    ensures OwnersOk(s)
  {
  }

  /** A fault takes at most 4100 further steps of its own CPU once it is taken, under every interleaving; as long as it
      is not over nothing it has done is undone, and when it is over the page is writable. */
  lemma {:induction false} FaultBounded(r: Run, c: nat, x: Slot, n: nat)
    requires IsRun(r) && Inv(r.states[0]) && n <= |r.acts| && Resolving(r.states[0], c, x)
    requires forall i :: 0 <= i < n ==> c in r.states[i].pc && !r.states[i].pc[c].User?
    ensures Resolving(r.states[n], c, x) || Resolved(r.states[n], c, x)
    ensures Steps(r, c, n) + Rank(r.states[n].pc[c]) <= Rank(r.states[0].pc[c]) <= PAGE_SIZE + 4
    ensures forall i :: 0 <= i < n ==> !Affects(EventAt(r, i), x)
  {
    hide Inv, Step, Label, Resolving, Resolved;
    if n > 0 {
      FaultBounded(r, c, x, n - 1);
      assert Resolving(r.states[n - 1], c, x) by { NotOver(r.states[n - 1], c, x); }
      assert Step(r.states[n - 1], r.states[n], r.cpus[n - 1], r.acts[n - 1]);
      RunRefines(r, n);
      if r.cpus[n - 1] == c {
        OwnStep(r.states[n - 1], r.states[n], c, r.acts[n - 1], x);
      } else {
        InvOwners(r.states[n - 1]);
        OtherKeeps(r.states[n - 1], r.states[n], r.cpus[n - 1], r.acts[n - 1], c, x);
      }
      hide Affects, Rank;
    } else {
      AtMost(r.states[0], c, x);
    }
  }

  lemma AtMost(s: Sys, c: nat, x: Slot)
    requires Resolving(s, c, x)
    ensures c in s.pc && Rank(s.pc[c]) <= PAGE_SIZE + 4
  {
  }

  lemma NotOver(s: Sys, c: nat, x: Slot)
    requires Resolving(s, c, x) || Resolved(s, c, x)
    requires c in s.pc && !s.pc[c].User?
    ensures Resolving(s, c, x)
  {
  }

  /** What a program sees at the page is the same during the fault and after it. */
  lemma FaultUnseen(r: Run, c: nat, x: Slot, n: nat)
    requires IsRun(r) && Inv(r.states[0]) && n <= |r.acts| && Resolving(r.states[0], c, x) && x in View(r.states[0])
    requires forall i :: 0 <= i < n ==> c in r.states[i].pc && !r.states[i].pc[c].User?
    ensures x in View(r.states[n]) && View(r.states[n])[x] == View(r.states[0])[x]
  {
    hide Inv, View, Resolving, Step, Label;
    FaultBounded(r, c, x, n);
    Isolation(r, n, x);
  }

  lemma Stuck(s: Sys, c: nat)
    requires c in s.pc && s.pc[c].Splitting? && s.pmm.free == []
    ensures forall t, a :: !Step(s, t, c, a)
  {
  }

  lemma Copies(s: Sys, c: nat, x: Slot) returns (s': Sys, a: Action)
    requires c in s.pc && PcOk(s, c) && s.pc[c].Copying? && Resolving(s, c, x)
    ensures Step(s, s', c, a)
  {
    hide Holders;
    var p := s.pc[c];
    if p.k < PAGE_SIZE {
      a := ACopyByte;
      s' := s.(mem := s.mem[p.copy := s.mem[p.copy][p.k := s.mem[p.e.frame][p.k]]], pc := s.pc[c := p.(k := p.k + 1)]);
    } else {
      a := AMapCopy;
      s' := s.(leaf := s.leaf[x := Owned(p.copy, p.e)], pc := s.pc[c := Dropping(p.space, p.e.frame)]);
    }
  }

  lemma Goes(s: Sys, c: nat, x: Slot) returns (s': Sys, a: Action)
    requires Inv(s) && Resolving(s, c, x) && !(s.pc[c].Splitting? && s.pmm.free == [])
    ensures Step(s, s', c, a)
  {
    hide Counted, Exclusive, RootsOk, OwnersOk, UnrefOk, Holders, Frames.Valid, Frames.Take;
    assert PcOk(s, c);
    hide PcsOk;
    var p := s.pc[c];
    match p
    case Faulted(space, va, e) =>
      a := AReadCount;
      s' := s.(pc := s.pc[c := if s.pmm.refs[e.frame] > 1 then Splitting(space, va, e) else Keeping(space, va, e)]);
    case Splitting(space, va, e) =>
      a := AAllocCopy;
      s' := s.(pmm := Frames.Take(s.pmm), pc := s.pc[c := Copying(space, va, e, Frames.Top(s.pmm), 0)]);
    case Copying(_, _, _, _, _) =>
      s', a := Copies(s, c, x);
    case Dropping(space, prev) =>
      a, s' := AFreeOld, s.(pmm := Frames.Drop(s.pmm, prev), pc := s.pc[c := User(space)]);
    case Keeping(space, va, e) =>
      a, s' := AMapKept, s.(leaf := s.leaf[x := Owned(e.frame, e)], pc := s.pc[c := User(space)]);
  }

  /** The next step of a fault is always possible, except that a shared page needs a free frame: without one the machine
      goes on only after another CPU has given a frame back. What the code does instead is in
      `PageFault.HandlePageFault`. */
  lemma NextStep(s: Sys, c: nat, x: Slot) returns (s': Sys, a: Action)
    requires Inv(s) && Resolving(s, c, x)
    ensures if s.pc[c].Splitting? && s.pmm.free == [] then forall t, b :: !Step(s, t, c, b) else Step(s, s', c, a)
  {
    hide Inv, Step;
    if s.pc[c].Splitting? && s.pmm.free == [] {
      Stuck(s, c);
      s', a := s, AAllocCopy;
    } else {
      s', a := Goes(s, c, x);
    }
  }
}
