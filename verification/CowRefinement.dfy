/** Sharing frames lazily is indistinguishable from copying address spaces eagerly. */
module CowRefinement {
  import opened Common
  import opened Paging
  import opened CowMachine
  import opened CowInvariant
  import Frames

  // ----- runs of the copy-on-write machine

  datatype Action =
    | AEnter(space: nat)
    | ALeave
    | AStore(va: Va, off: nat, b: Byte)
    | AKernelStore(va: Va, off: nat, b: Byte)
    | ATakeFault(va: Va)
    | AReadCount
    | AAllocCopy
    | ACopyByte
    | AMapCopy
    | AFreeOld
    | AMapKept
    | ABeginClone
    | AMarkShared(va: Va)
    | ALinkChild
    | ACountChild
    | AEndClone
    | ABeginDestroy(space: nat)
    | AFreeLeaf(va: Va)
    | AFreeTable(t: nat)
    | ANewSpace
    | AGrow(space: nat)
    | ATakeNew(space: nat)
    | AMapPage(slot: Slot, flags: Flags, bytes: seq<Byte>)

  ghost predicate Step(s: Sys, s': Sys, c: nat, a: Action) {
    match a
    case AEnter(x) => Enter(s, s', c, x)
    case ALeave => Leave(s, s', c)
    case AStore(va, off, b) => Store(s, s', c, va, off, b)
    case AKernelStore(va, off, b) =>
      KernelStore(s, s', c, va, off, b) && Harmless(s, Slot(s.pc[c].space, va), off, b)
    case ATakeFault(va) => TakeFault(s, s', c, va)
    case AReadCount => ReadCount(s, s', c)
    case AAllocCopy => AllocCopy(s, s', c)
    case ACopyByte => CopyByte(s, s', c)
    case AMapCopy => MapCopy(s, s', c)
    case AFreeOld => FreeOld(s, s', c)
    case AMapKept => MapKept(s, s', c)
    case ABeginClone => BeginClone(s, s', c)
    case AMarkShared(va) => MarkShared(s, s', c, va)
    case ALinkChild => LinkChild(s, s', c)
    case ACountChild => CountChild(s, s', c)
    case AEndClone => EndClone(s, s', c)
    case ABeginDestroy(x) => BeginDestroy(s, s', c, x)
    case AFreeLeaf(va) => FreeLeaf(s, s', c, va)
    case AFreeTable(t) => FreeTable(s, s', c, t)
    case ANewSpace => NewSpace(s, s', c)
    case AGrow(x) => Grow(s, s', c, x)
    case ATakeNew(x) => TakeNew(s, s', c, x)
    case AMapPage(x, flags, bytes) => MapPage(s, s', c, x, flags, bytes)
  }

  lemma StepInv(s: Sys, s': Sys, c: nat, a: Action)
    requires Inv(s) && Step(s, s', c, a)
    ensures Inv(s')
  {
    hide Inv;
    hide Enter, Leave, Store, KernelStore, Harmless, TakeFault, ReadCount, AllocCopy, CopyByte, MapCopy, FreeOld,
         MapKept, BeginClone, MarkShared;
    hide LinkChild, CountChild, EndClone, BeginDestroy, FreeLeaf, FreeTable, NewSpace, Grow, TakeNew, MapPage;
    match a
    case AEnter(x) => EnterInv(s, s', c, x);
    case ALeave => LeaveInv(s, s', c);
    case AStore(va, off, b) => StoreInv(s, s', c, va, off, b);
    case AKernelStore(va, off, b) => KernelStoreInv(s, s', c, va, off, b);
    case ATakeFault(va) => TakeFaultInv(s, s', c, va);
    case AReadCount => ReadCountInv(s, s', c);
    case AAllocCopy => AllocCopyInv(s, s', c);
    case ACopyByte => CopyByteInv(s, s', c);
    case AMapCopy => MapCopyInv(s, s', c);
    case AFreeOld => FreeOldInv(s, s', c);
    case AMapKept => MapKeptInv(s, s', c);
    case ABeginClone => BeginCloneInv(s, s', c);
    case AMarkShared(va) => MarkSharedInv(s, s', c, va);
    case ALinkChild => LinkChildInv(s, s', c);
    case ACountChild => CountChildInv(s, s', c);
    case AEndClone => EndCloneInv(s, s', c);
    case ABeginDestroy(x) => BeginDestroyInv(s, s', c, x);
    case AFreeLeaf(va) => FreeLeafInv(s, s', c, va);
    case AFreeTable(t) => FreeTableInv(s, s', c, t);
    case ANewSpace => NewSpaceInv(s, s', c);
    case AGrow(x) => GrowInv(s, s', c, x);
    case ATakeNew(x) => TakeNewInv(s, s', c, x);
    case AMapPage(x, flags, bytes) => MapPageInv(s, s', c, x, flags, bytes);
  }

  // ----- the specification: every space has its own copy of every page

  datatype Page = Page(bytes: seq<Byte>, mayWrite: bool)

  type Eager = map<Slot, Page>

  datatype Event =
    | Internal
    | Wrote(slot: Slot, off: nat, b: Byte)
    | Forked(parent: nat, child: nat)
    | Destroyed(space: nat)
    | Mapped(slot: Slot, page: Page)

  /** The pages of `p`, as pages of `ch`. */
  ghost function Cloned(e: Eager, p: nat, ch: nat): Eager {
    map x | x in e && x.space == p :: Slot(ch, x.va) := e[x]
  }

  ghost predicate EagerStep(e: Eager, e': Eager, ev: Event) {
    match ev
    case Internal => e' == e
    case Wrote(x, off, b) =>
      x in e && e[x].mayWrite && off < |e[x].bytes| && e' == e[x := e[x].(bytes := e[x].bytes[off := b])]
    case Forked(p, ch) =>
      && (forall x :: x in e ==> x.space != ch)
      && e' == e + Cloned(e, p, ch)
    case Destroyed(x) => e' == map y | y in e && y.space != x :: e[y]
    case Mapped(x, p) => x !in e && e' == e[x := p]
  }

  /** What a program sees at a page of a live space. */
  ghost function PageAt(s: Sys, x: Slot): Page
    requires x in s.leaf
  {
    var e := s.leaf[x];
    Page(if e.frame in s.mem then s.mem[e.frame] else [], MayWrite(e))
  }

  ghost function View(s: Sys): Eager {
    map x | x in s.leaf && x.space in s.live :: PageAt(s, x)
  }

  ghost function Label(s: Sys, c: nat, a: Action): Event
    requires c in s.pc
  {
    match a
    case AStore(va, off, b) => if s.pc[c].User? then Wrote(Slot(s.pc[c].space, va), off, b) else Internal
    case AKernelStore(va, off, b) => if s.pc[c].User? then Wrote(Slot(s.pc[c].space, va), off, b) else Internal
    case AEndClone => if s.pc[c].Cloning? then Forked(s.pc[c].space, s.pc[c].child) else Internal
    case ABeginDestroy(x) => Destroyed(x)
    case AMapPage(x, flags, bytes) => Mapped(x, Page(bytes, flags.writable || flags.cow))
    case _ => Internal
  }

  lemma SameView(s: Sys, s': Sys)
    requires forall x :: x in s'.leaf && x.space in s'.live <==> x in s.leaf && x.space in s.live
    requires forall x :: x in s.leaf && x.space in s.live ==> PageAt(s', x) == PageAt(s, x)
    ensures EagerStep(View(s), View(s'), Internal)
  {
  }

  lemma StoreView(s: Sys, s': Sys, c: nat, va: Va, off: nat, b: Byte)
    requires Inv(s) && Store(s, s', c, va, off, b)
    ensures EagerStep(View(s), View(s'), Wrote(Slot(s.pc[c].space, va), off, b))
  {
    hide FramesOk, Counted, OwnersOk, RootsOk, Holders;
    var x := Slot(s.pc[c].space, va);
    assert PcOk(s, c);
    assert Holders(s, s.leaf[x].frame) == {Leaf(x)};
    hide PcsOk, PcOk, UnrefOk, Exclusive;
    forall y | y in s.leaf && y.space in s.live && y != x
      ensures PageAt(s', y) == PageAt(s, y)
    {
      LiveCounted(s, y);
    }
    assert View(s') == View(s)[x := PageAt(s', x)];
  }

  /** A store the kernel makes is a store to that page alone exactly if the program may write the page and no other page
      a program sees is on its frame (or the byte is there already). Those stores are actions of the machine. */
  lemma KernelStoreIff(s: Sys, s': Sys, c: nat, va: Va, off: nat, b: Byte)
    requires Inv(s) && KernelStore(s, s', c, va, off, b)
    ensures EagerStep(View(s), View(s'), Wrote(Slot(s.pc[c].space, va), off, b)) <==>
            Harmless(s, Slot(s.pc[c].space, va), off, b)
  {
    hide FramesOk, Counted, OwnersOk, RootsOk, Exclusive, UnrefOk;
    var x := Slot(s.pc[c].space, va);
    var f := s.leaf[x].frame;
    assert PcOk(s, c);
    hide PcsOk, PcOk;
    if s.mem[f][off] == b {
      assert s.mem[f][off := b] == s.mem[f];
      assert s'.mem == s.mem && s' == s;
    } else if OnlyPage(s, x) {
      assert View(s') == View(s)[x := PageAt(s', x)];
    } else {
      var y :| y in s.leaf && y.space in s.live && y != x && s.leaf[y].frame == f;
      assert View(s')[y].bytes[off] == b && View(s)[y].bytes[off] != b;
    }
  }

  /** So it is while the frame has one reference. */
  lemma OneReference(s: Sys, x: Slot)
    requires Inv(s) && x in s.leaf && x.space in s.live && s.pmm.refs[s.leaf[x].frame] == 1
    ensures OnlyPage(s, x)
  {
    var f := s.leaf[x].frame;
    assert |Holders(s, f)| == 1;
    LiveCounted(s, x);
    SingleHolder(Holders(s, f), Leaf(x));
    forall y | y in s.leaf && y.space in s.live && s.leaf[y].frame == f
      ensures y == x
    {
      LiveCounted(s, y);
    }
  }

  /** And so it is not when the space has just been cloned: the child sees what the kernel reads into the parent's
      buffer. */
  lemma KernelStoreAfterClone(s: Sys, s1: Sys, s': Sys, c: nat, va: Va, off: nat, b: Byte)
    requires Inv(s) && EndClone(s, s1, c) && KernelStore(s1, s', c, va, off, b)
    requires s1.mem[s1.leaf[Slot(s1.pc[c].space, va)].frame][off] != b
    ensures var y := Slot(s.pc[c].child, va);
      y in View(s1) && View(s1)[y].bytes[off] != b && y in View(s') && View(s')[y].bytes[off] == b
    ensures !Harmless(s1, Slot(s1.pc[c].space, va), off, b)
  {
    hide FramesOk, Counted, OwnersOk, RootsOk, Exclusive, UnrefOk, Holders;
    assert PcOk(s, c);
    hide PcsOk;
    assert HasLeaf(s, s.pc[c].space, va) ==> HasLeaf(s, s.pc[c].child, va);
  }

  lemma CopyByteView(s: Sys, s': Sys, c: nat)
    requires Inv(s) && CopyByte(s, s', c)
    ensures EagerStep(View(s), View(s'), Internal)
  {
    hide FramesOk, Counted, OwnersOk, RootsOk, Holders;
    assert PcOk(s, c);
    hide PcsOk, UnrefOk, Exclusive;
    forall y | y in s.leaf && y.space in s.live
      ensures PageAt(s', y) == PageAt(s, y)
    {
      LiveCounted(s, y);
    }
    SameView(s, s');
  }

  lemma MapCopyView(s: Sys, s': Sys, c: nat)
    requires Inv(s) && MapCopy(s, s', c)
    ensures EagerStep(View(s), View(s'), Internal)
  {
    hide FramesOk, Counted, OwnersOk, RootsOk, Holders, Exclusive, UnrefOk;
    assert PcOk(s, c);
    hide PcsOk;
    var p := s.pc[c];
    assert s.mem[p.copy] == s.mem[p.copy][..PAGE_SIZE] && s.mem[p.e.frame] == s.mem[p.e.frame][..PAGE_SIZE];
    SameView(s, s');
  }

  lemma MapKeptView(s: Sys, s': Sys, c: nat)
    requires Inv(s) && MapKept(s, s', c)
    ensures EagerStep(View(s), View(s'), Internal)
  {
    hide FramesOk, Counted, OwnersOk, RootsOk, Holders, Exclusive, UnrefOk;
    assert PcOk(s, c);
    hide PcsOk;
    SameView(s, s');
  }

  lemma MapPageView(s: Sys, s': Sys, c: nat, x: Slot, flags: Flags, bytes: seq<Byte>)
    requires Inv(s) && MapPage(s, s', c, x, flags, bytes)
    ensures EagerStep(View(s), View(s'), Mapped(x, Page(bytes, flags.writable || flags.cow)))
  {
    hide FramesOk, Counted, OwnersOk, RootsOk, Exclusive, Holders;
    assert PcOk(s, c);
    assert Holders(s, s.pc[c].frame) == {Hand(c)};
    forall y | y in s.leaf && y.space in s.live
      ensures s.leaf[y].frame != s.pc[c].frame
    {
      LiveCounted(s, y);
    }
    hide PcsOk, UnrefOk;
    assert View(s') == View(s)[x := PageAt(s', x)];
  }

  lemma ClonedAt(e: Eager, p: nat, ch: nat, y: Slot)
    ensures y in Cloned(e, p, ch) <==> y.space == ch && Slot(p, y.va) in e
    ensures y in Cloned(e, p, ch) ==> Cloned(e, p, ch)[y] == e[Slot(p, y.va)]
  {
    assert Slot(p, y.va) in e && y.space == ch ==> y == Slot(ch, Slot(p, y.va).va);
  }

  lemma EndCloneAt(s: Sys, s': Sys, p: nat, ch: nat, y: Slot)
    requires s'.leaf == s.leaf && s'.mem == s.mem && s'.live == s.live + {ch} && p in s.live && ch !in s.live
    requires Slot(p, y.va) in s.leaf <==> Slot(ch, y.va) in s.leaf
    requires Slot(p, y.va) in s.leaf ==> s.leaf[Slot(ch, y.va)] == s.leaf[Slot(p, y.va)]
    ensures var e := View(s) + Cloned(View(s), p, ch);
      (y in View(s') <==> y in e) && (y in e ==> View(s')[y] == e[y])
  {
    ClonedAt(View(s), p, ch, y);
    hide Cloned;
  }

  lemma EndCloneView(s: Sys, s': Sys, c: nat)
    requires Inv(s) && EndClone(s, s', c)
    ensures EagerStep(View(s), View(s'), Forked(s.pc[c].space, s.pc[c].child))
  {
    hide FramesOk, Counted, OwnersOk, RootsOk, Exclusive, UnrefOk, Holders, View, Cloned;
    assert PcOk(s, c);
    hide PcsOk;
    var e := View(s) + Cloned(View(s), s.pc[c].space, s.pc[c].child);
    forall y: Slot
      ensures (y in View(s') <==> y in e) && (y in e ==> View(s')[y] == e[y])
    {
      assert HasLeaf(s, s.pc[c].space, y.va) <==> HasLeaf(s, s.pc[c].child, y.va);
      EndCloneAt(s, s', s.pc[c].space, s.pc[c].child, y);
    }
    LiveOnly(s, s.pc[c].child);
    assert View(s') == e;
  }

  lemma LiveOnly(s: Sys, x: nat)
    requires x !in s.live
    ensures forall y :: y in View(s) ==> y.space != x
  {
  }

  lemma BeginDestroyView(s: Sys, s': Sys, c: nat, x: nat)
    requires BeginDestroy(s, s', c, x)
    ensures EagerStep(View(s), View(s'), Destroyed(x))
  {
    assert View(s') == map y | y in View(s) && y.space != x :: View(s)[y];
  }

  lemma NewSpaceView(s: Sys, s': Sys, c: nat)
    requires Inv(s) && NewSpace(s, s', c)
    ensures EagerStep(View(s), View(s'), Internal)
  {
    hide FramesOk, Counted, OwnersOk, Exclusive, UnrefOk, PcsOk, Holders;
    TopUnheld(s);
    SameView(s, s');
  }

  /** The remaining actions show nothing: they leave live pages alone. */
  lemma QuietView(s: Sys, s': Sys, c: nat, a: Action)
    requires Inv(s) && Step(s, s', c, a) && Quiet(a)
    ensures EagerStep(View(s), View(s'), Internal)
  {
    hide FramesOk, Counted, OwnersOk, RootsOk, Holders, Exclusive, UnrefOk, FreeFor, Frames.Valid, Frames.Drop,
         Frames.Share;
    assert PcOk(s, c);
    hide PcsOk;
    SameView(s, s');
    hide View;
  }

  predicate Quiet(a: Action) {
    !(a.AStore? || a.AKernelStore? || a.ACopyByte? || a.AMapCopy? || a.AMapKept? || a.AMapPage? || a.AEndClone? ||
      a.ABeginDestroy? || a.ANewSpace?)
  }

  /** One step of the machine is one step, or none, of the eager specification. */
  lemma StepRefines(s: Sys, s': Sys, c: nat, a: Action)
    requires Inv(s) && Step(s, s', c, a) && c in s.pc
    ensures Inv(s') && EagerStep(View(s), View(s'), Label(s, c, a))
  {
    hide Inv, View, EagerStep;
    if Quiet(a) {
      hide Step, Quiet;
      QuietView(s, s', c, a);
    }
    StepInv(s, s', c, a);
    match a
    case AStore(va, off, b) => StoreView(s, s', c, va, off, b);
    case AKernelStore(va, off, b) => KernelStoreIff(s, s', c, va, off, b);
    case ACopyByte => CopyByteView(s, s', c);
    case AMapCopy => MapCopyView(s, s', c);
    case AMapKept => MapKeptView(s, s', c);
    case AMapPage(x, flags, bytes) => MapPageView(s, s', c, x, flags, bytes);
    case AEndClone => EndCloneView(s, s', c);
    case ABeginDestroy(x) => BeginDestroyView(s, s', c, x);
    case ANewSpace => NewSpaceView(s, s', c);
    case _ =>
  }

  // ----- whole runs

  datatype Run = Run(states: seq<Sys>, cpus: seq<nat>, acts: seq<Action>)

  ghost predicate IsRun(r: Run) {
    && |r.states| == |r.acts| + 1 && |r.cpus| == |r.acts|
    && forall i :: 0 <= i < |r.acts| ==>
       r.cpus[i] in r.states[i].pc && Step(r.states[i], r.states[i + 1], r.cpus[i], r.acts[i])
  }

  /** Idle CPUs and no address space yet; the only frames in use are tables of the kernel. */
  ghost function Boot(pmm: Frames.Frames, mem: map<nat, seq<Byte>>, kernel: set<nat>, cpus: set<nat>): Sys {
    Sys(map[], mem, pmm, map t | t in kernel :: 0, {}, map c | c in cpus :: Idle, map[])
  }

  lemma BootHolders(pmm: Frames.Frames, mem: map<nat, seq<Byte>>, kernel: set<nat>, cpus: set<nat>, f: nat)
    ensures Holders(Boot(pmm, mem, kernel, cpus), f) == if f in kernel then {Table} else {}
  {
    var s := Boot(pmm, mem, kernel, cpus);
    assert LeafHolders(s, f) == {} && HandHolders(s, f) == {};
  }

  /** Runs can start there, whatever the frames hold. */
  lemma BootInv(pmm: Frames.Frames, mem: map<nat, seq<Byte>>, kernel: set<nat>, cpus: set<nat>)
    requires Frames.Valid(pmm) && mem.Keys == pmm.refs.Keys && forall f :: f in mem ==> |mem[f]| == PAGE_SIZE
    requires kernel <= pmm.refs.Keys && forall f :: f in pmm.refs ==> pmm.refs[f] == if f in kernel then 1 else 0
    ensures Inv(Boot(pmm, mem, kernel, cpus))
  {
    hide Holders, Frames.Valid, Stable, ChildOk, FreeFor;
    var s := Boot(pmm, mem, kernel, cpus);
    forall f: nat
      ensures Holders(s, f) == if f in kernel then {Table} else {}
    {
      BootHolders(pmm, mem, kernel, cpus, f);
    }
    assert forall c :: c in s.pc ==> s.pc[c] == Idle;
  }

  /** Step `i` of the run as an event of the specification. */
  ghost function EventAt(r: Run, i: nat): Event
    requires IsRun(r) && i < |r.acts|
  {
    Label(r.states[i], r.cpus[i], r.acts[i])
  }

  /** Over every run, under every interleaving, the programs see a run of the eager specification. */
  lemma {:induction false} RunRefines(r: Run, n: nat)
    requires IsRun(r) && Inv(r.states[0]) && n <= |r.acts|
    ensures forall i :: 0 <= i <= n ==> Inv(r.states[i])
    ensures forall i :: 0 <= i < n ==> EagerStep(View(r.states[i]), View(r.states[i + 1]), EventAt(r, i))
  {
    hide Inv, View, EagerStep, Step, Label;
    if n > 0 {
      RunRefines(r, n - 1);
      StepRefines(r.states[n - 1], r.states[n], r.cpus[n - 1], r.acts[n - 1]);
    }
  }

  /** The event can change what the page shows. */
  predicate Affects(ev: Event, y: Slot) {
    match ev
    case Internal => false
    case Wrote(x, _, _) => x == y
    case Forked(_, ch) => ch == y.space
    case Destroyed(x) => x == y.space
    case Mapped(x, _) => x == y
  }

  /** A page keeps its bytes over any run in which nobody stores to it and its space is not destroyed,
      whatever stores other spaces make to pages that share its frame. */
  lemma {:induction false} Isolation(r: Run, n: nat, y: Slot)
    requires IsRun(r) && Inv(r.states[0]) && n <= |r.acts|
    requires forall i :: 0 <= i < n ==> !Affects(EventAt(r, i), y)
    requires y in View(r.states[0])
    ensures y in View(r.states[n]) && View(r.states[n])[y] == View(r.states[0])[y]
  {
    hide Inv, View, Step, Label;
    if n > 0 {
      Isolation(r, n - 1, y);
      RunRefines(r, n);
      assert EagerStep(View(r.states[n - 1]), View(r.states[n]), EventAt(r, n - 1));
      assert !Affects(EventAt(r, n - 1), y);
    }
  }

  // ----- faults are resolved

  /** CPU `c` alone takes the machine from `s` to `t` in `n` steps. */
  ghost predicate Alone(s: Sys, t: Sys, c: nat, n: nat)
    decreases n
  {
    if n == 0 then s == t else exists m, a :: Step(s, m, c, a) && Alone(m, t, c, n - 1)
  }

  lemma {:induction false} AloneTrans(s: Sys, m: Sys, t: Sys, c: nat, i: nat, j: nat)
    requires Alone(s, m, c, i) && Alone(m, t, c, j)
    ensures Alone(s, t, c, i + j)
    decreases i
  {
    hide Step;
    if i > 0 {
      var u, a :| Step(s, u, c, a) && Alone(u, m, c, i - 1);
      AloneTrans(u, m, t, c, i - 1, j);
    }
  }

  lemma AloneStep(s: Sys, t: Sys, c: nat, a: Action)
    requires Step(s, t, c, a)
    ensures Alone(s, t, c, 1)
  {
    hide Step;
    assert Alone(t, t, c, 0);
  }

  /** The page as the fault handler leaves it: on a copy of its own when the frame was shared. */
  ghost function FaultDone(s: Sys, c: nat, va: Va): Sys
    requires c in s.pc && s.pc[c].User? && HasLeaf(s, s.pc[c].space, va)
  {
    var x := Slot(s.pc[c].space, va);
    var e := s.leaf[x];
    if e.frame in s.pmm.refs && s.pmm.refs[e.frame] > 1 && s.pmm.free != [] && e.frame in s.mem then
      var f := Frames.Top(s.pmm);
      s.(leaf := s.leaf[x := Owned(f, e)], mem := s.mem[f := s.mem[e.frame]],
         pmm := Frames.Drop(Frames.Take(s.pmm), e.frame))
    else
      s.(leaf := s.leaf[x := Owned(e.frame, e)])
  }

  /** The copy loop, from byte `k` on. */
  lemma {:induction false} CopyLoop(s: Sys, c: nat)
    requires Inv(s) && c in s.pc && s.pc[c].Copying?
    ensures var p := s.pc[c];
      p.e.frame in s.mem && p.k <= PAGE_SIZE &&
      var t := s.(mem := s.mem[p.copy := s.mem[p.e.frame]], pc := s.pc[c := p.(k := PAGE_SIZE)]);
      Alone(s, t, c, PAGE_SIZE - p.k) && Inv(t) && View(t) == View(s)
    decreases PAGE_SIZE - s.pc[c].k
  {
    hide FramesOk, Counted, Exclusive, OwnersOk, RootsOk, UnrefOk, Holders, Alone, View;
    assert PcOk(s, c);
    hide PcsOk;
    var p := s.pc[c];
    var t := s.(mem := s.mem[p.copy := s.mem[p.e.frame]], pc := s.pc[c := p.(k := PAGE_SIZE)]);
    if p.k == PAGE_SIZE {
      assert s.mem[p.copy] == s.mem[p.copy][..PAGE_SIZE] && s.mem[p.e.frame] == s.mem[p.e.frame][..PAGE_SIZE];
      assert t.mem == s.mem && t.pc == s.pc;
      AloneRefl(s, c);
    } else {
      var m := s.(mem := s.mem[p.copy := s.mem[p.copy][p.k := s.mem[p.e.frame][p.k]]],
                  pc := s.pc[c := p.(k := p.k + 1)]);
      assert CopyByte(s, m, c);
      CopyByteView(s, m, c);
      StepInv(s, m, c, ACopyByte);
      AloneStep(s, m, c, ACopyByte);
      CopyLoop(m, c);
      assert t == m.(mem := m.mem[p.copy := m.mem[p.e.frame]], pc := m.pc[c := m.pc[c].(k := PAGE_SIZE)]);
      AloneTrans(s, m, t, c, 1, PAGE_SIZE - p.k - 1);
    }
  }

  lemma AloneRefl(s: Sys, c: nat)
    ensures Alone(s, s, c, 0)
  {
  }

  /** Two steps into the fault: the entry and the count have been read. */
  ghost function CountRead(s: Sys, c: nat, va: Va): Sys
    requires c in s.pc && s.pc[c].User? && HasLeaf(s, s.pc[c].space, va)
  {
    var x := Slot(s.pc[c].space, va);
    var e := s.leaf[x];
    s.(pc := s.pc[c := if e.frame in s.pmm.refs && s.pmm.refs[e.frame] > 1 then Splitting(x.space, va, e)
                       else Keeping(x.space, va, e)])
  }

  lemma FaultReads(s: Sys, c: nat, va: Va)
    requires Inv(s) && c in s.pc && s.pc[c].User? && HasLeaf(s, s.pc[c].space, va)
    requires var e := s.leaf[Slot(s.pc[c].space, va)]; !e.flags.writable && e.flags.cow
    ensures Inv(CountRead(s, c, va)) && Alone(s, CountRead(s, c, va), c, 2) && View(CountRead(s, c, va)) == View(s)
    ensures s.leaf[Slot(s.pc[c].space, va)].frame in s.pmm.refs
  {
    hide Counted, Exclusive, OwnersOk, RootsOk, UnrefOk, Holders, Alone, PcsOk, PcOk, Frames.Valid;
    var x := Slot(s.pc[c].space, va);
    var e := s.leaf[x];
    var s1 := s.(pc := s.pc[c := Faulted(x.space, va, e)]);
    var s2 := CountRead(s, c, va);
    StepInv(s, s1, c, ATakeFault(va));
    AloneStep(s, s1, c, ATakeFault(va));
    assert s2.pc == s1.pc[c := s2.pc[c]];
    StepInv(s1, s2, c, AReadCount);
    AloneStep(s1, s2, c, AReadCount);
    AloneTrans(s, s1, s2, c, 1, 1);
  }

  /** A write fault on a copy-on-write page is over after at most 4101 steps of its own CPU, given a free
      frame if the page is shared; the page is then writable. */
  lemma FaultResolves(s: Sys, c: nat, va: Va) returns (n: nat)
    requires Inv(s) && c in s.pc && s.pc[c].User? && HasLeaf(s, s.pc[c].space, va)
    requires var e := s.leaf[Slot(s.pc[c].space, va)];
      !e.flags.writable && e.flags.cow && (e.frame in s.pmm.refs && s.pmm.refs[e.frame] > 1 ==> s.pmm.free != [])
    ensures n <= PAGE_SIZE + 5 && Alone(s, FaultDone(s, c, va), c, n)
    ensures FaultDone(s, c, va).leaf[Slot(s.pc[c].space, va)].flags.writable
    ensures Inv(FaultDone(s, c, va)) && View(FaultDone(s, c, va)) == View(s)
  {
    hide Inv, Alone, View;
    FaultReads(s, c, va);
    var x := Slot(s.pc[c].space, va);
    var e := s.leaf[x];
    var s2, t := CountRead(s, c, va), FaultDone(s, c, va);
    if s.pmm.refs[e.frame] > 1 {
      SplitResolves(s2, c);
      assert SplitDone(s2, c) == t by {
        SameFrames(s);
        assert s.pc == s2.pc[c := s.pc[c]];
      }
      n := 2 + (PAGE_SIZE + 3);
      AloneTrans(s, s2, t, c, 2, PAGE_SIZE + 3);
    } else {
      assert t.pc == s2.pc[c := User(x.space)];
      assert MapKept(s2, t, c);
      MapKeptView(s2, t, c);
      StepInv(s2, t, c, AMapKept);
      AloneStep(s2, t, c, AMapKept);
      AloneTrans(s, s2, t, c, 2, 1);
      n := 3;
    }
  }

  lemma SameFrames(s: Sys)
    requires Inv(s)
    ensures s.mem.Keys == s.pmm.refs.Keys
  {
  }

  ghost function SplitDone(s: Sys, c: nat): Sys
    requires c in s.pc && s.pc[c].Splitting? && s.pmm.free != []
  {
    var p := s.pc[c];
    var f := Frames.Top(s.pmm);
    s.(leaf := s.leaf[Slot(p.space, p.va) := Owned(f, p.e)],
       mem := s.mem[f := if p.e.frame in s.mem then s.mem[p.e.frame] else []],
       pmm := Frames.Drop(Frames.Take(s.pmm), p.e.frame), pc := s.pc[c := User(p.space)])
  }

  /** The copy is made; it has yet to be mapped. */
  ghost function SplitCopied(s: Sys, c: nat): Sys
    requires c in s.pc && s.pc[c].Splitting? && s.pmm.free != []
  {
    var p := s.pc[c];
    var f := Frames.Top(s.pmm);
    s.(mem := s.mem[f := if p.e.frame in s.mem then s.mem[p.e.frame] else []],
       pmm := Frames.Take(s.pmm), pc := s.pc[c := Copying(p.space, p.va, p.e, f, PAGE_SIZE)])
  }

  lemma SplitCopies(s: Sys, c: nat)
    requires Inv(s) && c in s.pc && s.pc[c].Splitting? && s.pmm.free != []
    ensures var t := SplitCopied(s, c); Inv(t) && Alone(s, t, c, PAGE_SIZE + 1) && View(t) == View(s)
  {
    hide Inv, Alone, View;
    var p := s.pc[c];
    var s1 := s.(pmm := Frames.Take(s.pmm), pc := s.pc[c := Copying(p.space, p.va, p.e, Frames.Top(s.pmm), 0)]);
    StepInv(s, s1, c, AAllocCopy);
    QuietView(s, s1, c, AAllocCopy);
    AloneStep(s, s1, c, AAllocCopy);
    CopyLoop(s1, c);
    var t := SplitCopied(s, c);
    assert t.pc == s1.pc[c := t.pc[c]];
    AloneTrans(s, s1, t, c, 1, PAGE_SIZE);
  }

  lemma SplitMaps(s: Sys, c: nat)
    requires c in s.pc && s.pc[c].Splitting? && s.pmm.free != [] && Inv(SplitCopied(s, c))
    ensures var t := SplitDone(s, c); Inv(t) && Alone(SplitCopied(s, c), t, c, 2) && View(t) == View(SplitCopied(s, c))
  {
    hide Inv, Alone, View;
    var p := s.pc[c];
    var s2, t := SplitCopied(s, c), SplitDone(s, c);
    var s3 := s2.(leaf := s2.leaf[Slot(p.space, p.va) := Owned(Frames.Top(s.pmm), p.e)],
                  pc := s2.pc[c := Dropping(p.space, p.e.frame)]);
    MapCopyView(s2, s3, c);
    StepInv(s2, s3, c, AMapCopy);
    AloneStep(s2, s3, c, AMapCopy);
    assert t.pc == s3.pc[c := User(p.space)];
    QuietView(s3, t, c, AFreeOld);
    StepInv(s3, t, c, AFreeOld);
    AloneStep(s3, t, c, AFreeOld);
    AloneTrans(s2, s3, t, c, 1, 1);
  }

  lemma SplitResolves(s: Sys, c: nat)
    requires Inv(s) && c in s.pc && s.pc[c].Splitting? && s.pmm.free != []
    ensures Alone(s, SplitDone(s, c), c, PAGE_SIZE + 3)
    ensures Inv(SplitDone(s, c)) && View(SplitDone(s, c)) == View(s)
  {
    hide Inv, Alone, View, SplitDone, SplitCopied;
    SplitCopies(s, c);
    SplitMaps(s, c);
    AloneTrans(s, SplitCopied(s, c), SplitDone(s, c), c, PAGE_SIZE + 1, 2);
  }

  // ----- no frame is lost

  /** A managed frame is free exactly when nothing refers to it. */
  lemma FreeIffUnheld(s: Sys, f: nat)
    requires Inv(s) && f in s.pmm.refs
    ensures f in s.pmm.free <==> Holders(s, f) == {}
  {
    hide OwnersOk, RootsOk, UnrefOk, PcsOk, Exclusive, Holders;
  }

  predicate Resting(p: Pc) {
    p.Idle? || p.User?
  }

  ghost predicate AtRest(s: Sys) {
    forall c :: c in s.pc ==> Resting(s.pc[c])
  }

  lemma RestingHolders(s: Sys, t: Sys, f: nat)
    requires UnrefOk(s) && UnrefOk(t) && AtRest(s) && AtRest(t)
    requires s.leaf.Keys == t.leaf.Keys && forall x :: x in s.leaf ==> t.leaf[x].frame == s.leaf[x].frame
    requires s.tabs.Keys == t.tabs.Keys
    ensures Holders(s, f) == Holders(t, f)
  {
    assert s.unref.Keys == {} && t.unref.Keys == {};
    assert HandHolders(s, f) == {} && HandHolders(t, f) == {};
    assert LeafHolders(s, f) == LeafHolders(t, f);
  }

  /** When no CPU is in the middle of anything, the tables and the frames the entries name determine every
      count and the free frames: whatever happened in between, coming back to the same entries (up to
      their flags) gives every frame back. */
  lemma CountsDetermined(s: Sys, t: Sys)
    requires Inv(s) && Inv(t) && AtRest(s) && AtRest(t) && s.pmm.refs.Keys == t.pmm.refs.Keys
    requires s.leaf.Keys == t.leaf.Keys && forall x :: x in s.leaf ==> t.leaf[x].frame == s.leaf[x].frame
    requires s.tabs.Keys == t.tabs.Keys
    ensures s.pmm.refs == t.pmm.refs
    ensures forall f :: f in s.pmm.free <==> f in t.pmm.free
  {
    hide OwnersOk, RootsOk, PcsOk, UnrefOk, Exclusive, Holders, AtRest;
    forall f {
      RestingHolders(s, t, f);
    }
  }
}
