/** The copy-on-write branch of the page-fault handler, on the real page tables. */
module PageFault {
  import opened Common
  import opened Paging
  import opened Addresses
  import opened PageTree
  import opened PageTables
  import opened CowMachine
  import opened CowRefinement
  import opened AddressSpaces
  import Frames

  /** The tables on the way to a mapped page are all there. */
  lemma LeafReached(t: Tree, r: nat, va: Va)
    requires Ok(t) && ValidVa(va) && Walk(t, r, va).Small?
    ensures Reached(t, r, va, false)
  {
    var o := Owner(r, va.i);
    assert PlaceOk(t, P1(o, va.i, va.j, va.k)) && PlaceOk(t, P2(o, va.i, va.j));
  }

  /** Remapping one page of a space changes the machine's entry for it and nothing else. */
  lemma Remapped(t: Tree, t': Tree, s: Sys, x: Slot, e: Entry)
    requires Ok(t) && Ok(t') && LeavesAre(t, s) && x in s.leaf && !e.flags.huge && t'.kernel == t.kernel
    requires MapsTo(t, t', x.space, x.va, e)
    ensures LeavesAre(t', s.(leaf := s.leaf[x := e]))
  {
    hide Ok, Walk;
    assert UserLeaf(t, x);
    var s' := s.(leaf := s.leaf[x := e]);
    forall y
      ensures (y in s'.leaf <==> UserLeaf(t', y)) && (y in s'.leaf ==> s'.leaf[y] == Walk(t', y.space, y.va).e)
    {
      assert ValidVa(y.va) && y.va.i > 0 ==> (Covers(x.space, x.va, false, y.space, y.va) <==> y == x);
    }
  }

  // ----- the handler on any tables

  /** The count the handler reads is above one. */
  predicate SharedFrame(pmm: Frames.Frames, f: nat) {
    f in pmm.refs && pmm.refs[f] > 1
  }

  /** What the allocator hands out: without a free frame the null pointer. */
  function CopyFrame(pmm: Frames.Frames): nat {
    if pmm.free == [] then 0 else Frames.Top(pmm)
  }

  function AfterSplit(pmm: Frames.Frames, f: nat): Frames.Frames {
    Frames.Drop(if pmm.free == [] then pmm else Frames.Take(pmm), f)
  }

  lemma SplitState(t: Tree, pmm: Frames.Frames, f: nat)
    requires StateOk(t, pmm) && SharedFrame(pmm, f)
    ensures StateOk(t, AfterSplit(pmm, f)) && AfterSplit(pmm, f).refs.Keys == pmm.refs.Keys
    ensures pmm.free != [] ==> AfterSplit(pmm, f) == Frames.Drop(Frames.Take(pmm), f)
  {
    if pmm.free != [] {
      Frames.TakeValid(pmm);
    }
    Frames.DropValid(if pmm.free == [] then pmm else Frames.Take(pmm), f);
    hide Frames.Valid, Ok;
  }

  lemma OwnedEntry(frame: nat, e: Entry)
    ensures EntryFor(frame * PAGE_SIZE, e.flags.(cow := false, writable := true)) == Owned(frame, e) || e.flags.huge
  {
  }

  /** `handle_page_fault`, up to where it gives up: a copy-on-write page becomes writable, on the frame the allocator
      returns if its own was shared. */
  method Resolve(vm: Vmm, root: nat, cr2: nat, write: bool) returns (handled: bool)
    requires vm.Valid() && P4(root) in vm.tab && cr2 < SPACE_SIZE
    requires Walk(vm.T(), root, VaOf(cr2)).Large? ==> !Walk(vm.T(), root, VaOf(cr2)).e.flags.cow
    requires Walk(vm.T(), root, VaOf(cr2)).Small? ==> Walk(vm.T(), root, VaOf(cr2)).e.frame in vm.bytes
    modifies vm`tables, vm`bytes, vm`pmm, vm`tab
    ensures vm.Valid() && vm.tab == old(vm.tab)
    ensures var w := Walk(old(vm.T()), root, VaOf(cr2)); handled <==> write && w.Small? && w.e.flags.cow
    ensures !handled ==> vm.T() == old(vm.T()) && vm.bytes == old(vm.bytes) && vm.pmm == old(vm.pmm)
    ensures handled ==>
      var e := Walk(old(vm.T()), root, VaOf(cr2)).e;
      if SharedFrame(old(vm.pmm), e.frame) then
        var f := CopyFrame(old(vm.pmm));
        && MapsTo(old(vm.T()), vm.T(), root, VaOf(cr2), Owned(f, e))
        && vm.bytes == old(vm.bytes)[f := old(vm.bytes)[e.frame]] && vm.pmm == AfterSplit(old(vm.pmm), e.frame)
      else MapsTo(old(vm.T()), vm.T(), root, VaOf(cr2), Owned(e.frame, e)) && vm.bytes == old(vm.bytes) &&
           vm.pmm == old(vm.pmm)
  {
    hide Ok, Walk, MapsTo, GrowsTo, Reached, Frames.Valid, EntryFor, Owned, VaOf, StateOk, Spent;
    VaValid(cr2);
    StateTree(vm.T(), vm.pmm);
    ghost var t, w := vm.T(), Walk(vm.T(), root, VaOf(cr2));
    var flags := vm.GetFlags(root, cr2);
    if !(write && flags.cow) {
      return false;
    }
    LeafReached(t, root, VaOf(cr2));
    SmallNotHuge(t, root, VaOf(cr2));
    SamePage(cr2);
    PageInSpace(cr2);
    var at := vm.GetPhys(root, cr2);
    var frame := at / PAGE_SIZE;
    FrameOf(w.e.frame, cr2);
    var newFlags := flags.(cow := false, writable := true);
    if frame in vm.pmm.refs && vm.pmm.refs[frame] > 1 {
      var copy := CopyFrame(vm.pmm);
      SplitState(t, vm.pmm, frame);
      OwnedEntry(copy, w.e);
      if vm.pmm.free != [] {
        TakenState(t, vm.pmm);
        vm.pmm := Frames.Take(vm.pmm);
      }
      vm.bytes := vm.bytes[copy := vm.bytes[frame]];
      vm.Map(root, cr2 / PAGE_SIZE * PAGE_SIZE, copy * PAGE_SIZE, newFlags);
      DropState(vm.T(), vm.pmm, frame);
      vm.pmm := Frames.Drop(vm.pmm, frame);
    } else {
      OwnedEntry(frame, w.e);
      vm.Map(root, cr2 / PAGE_SIZE * PAGE_SIZE, frame * PAGE_SIZE, newFlags);
    }
    return true;
  }

  lemma VaValid(a: nat)
    requires a < SPACE_SIZE
    ensures ValidVa(VaOf(a)) && VaOf(a).i == Pml4Index(a)
  {
  }

  lemma DropState(t: Tree, pmm: Frames.Frames, f: nat)
    requires StateOk(t, pmm) && SharedFrame(pmm, f)
    ensures StateOk(t, Frames.Drop(pmm, f))
  {
    Frames.DropValid(pmm, f);
    hide Frames.Valid, Ok;
  }

  lemma TakenState(t: Tree, pmm: Frames.Frames)
    requires StateOk(t, pmm) && pmm.free != []
    ensures StateOk(t, Frames.Take(pmm)) && Frames.Take(pmm).refs.Keys == pmm.refs.Keys && Frames.Top(pmm) in pmm.refs
    ensures forall f :: f in pmm.refs && pmm.refs[f] > 0 ==> Frames.Take(pmm).refs[f] == pmm.refs[f]
  {
    Frames.TakeValid(pmm);
    hide Frames.Valid, Ok;
  }

  /** The state and the tables agree again after a fault. */
  lemma FaultRepresents(t: Tree, t': Tree, bytes: map<nat, seq<Byte>>, pmm: Frames.Frames, s: Sys, c: nat, va: Va,
                        bytes': map<nat, seq<Byte>>, pmm': Frames.Frames)
    requires Represents(t, bytes, pmm, s) && c in s.pc && s.pc[c].User? && HasLeaf(s, s.pc[c].space, va)
    requires var x, s' := Slot(s.pc[c].space, va), FaultDone(s, c, va);
      StateOk(t', pmm') && t'.tab == t.tab && t'.kernel == t.kernel && MapsTo(t, t', x.space, va, s'.leaf[x]) &&
      !s'.leaf[x].flags.huge && s'.mem == bytes' && s'.pmm == pmm' && pmm'.refs.Keys == pmm.refs.Keys
    ensures Represents(t', bytes', pmm', FaultDone(s, c, va))
  {
    hide Ok, Walk, MapsTo, Frames.Valid;
    var x, s' := Slot(s.pc[c].space, va), FaultDone(s, c, va);
    Remapped(t, t', s, x, s'.leaf[x]);
    hide LeavesAre;
    SameLeaves(t', s.(leaf := s.leaf[x := s'.leaf[x]]), s');
  }

  /** What the tables and the machine say about the page a space faults on. */
  lemma FaultEntry(t: Tree, bytes: map<nat, seq<Byte>>, pmm: Frames.Frames, s: Sys, c: nat, r: nat, a: nat)
    requires Ready(t, bytes, pmm, s, c, r) && s.pc[c] == User(r) && a < SPACE_SIZE && Pml4Index(a) > 0
    ensures P4(r) in t.tab && Ok(t) && StateOk(t, pmm) && s.pmm == pmm && s.mem == bytes && r != t.kernel
    ensures var va, leaf := VaOf(a), Walk(t, r, VaOf(a));
      && !leaf.Large? && (leaf.Small? <==> HasLeaf(s, r, va))
      && (leaf.Small? ==> leaf.e == s.leaf[Slot(r, va)] && !leaf.e.flags.huge && Reached(t, r, va, false) &&
                          leaf.e.frame in pmm.refs && pmm.refs[leaf.e.frame] > 0 && leaf.e.frame in bytes)
  {
    ReadyRoot(t, bytes, pmm, s, c, r);
    Parts(t, bytes, pmm, s);
    StateParts(t, bytes, pmm, s);
    var va := VaOf(a);
    assert va.i > 0;
    hide VaOf, Ok, Walk, Inv, TablesAre, StateOk, Reached;
    assert UserLeaf(t, Slot(r, va)) <==> Walk(t, r, va).Small?;
    if Walk(t, r, va).Small? {
      SmallNotHuge(t, r, va);
      LeafReached(t, r, va);
      EntryCounted(s, Slot(r, va));
      SameFrames(s);
    }
  }

  lemma PageInSpace(a: nat)
    requires a < SPACE_SIZE
    ensures a / PAGE_SIZE * PAGE_SIZE < SPACE_SIZE
  {
  }

  lemma FrameOf(frame: nat, a: nat)
    ensures (frame * PAGE_SIZE + a % PAGE_SIZE) / PAGE_SIZE == frame
  {
  }

  /** What the handler is to produce, as a run of the machine. */
  lemma FaultMaps(s: Sys, c: nat, va: Va)
    requires Inv(s) && c in s.pc && s.pc[c].User? && HasLeaf(s, s.pc[c].space, va)
    requires var e := s.leaf[Slot(s.pc[c].space, va)];
      !e.flags.writable && e.flags.cow && (e.frame in s.pmm.refs && s.pmm.refs[e.frame] > 1 ==> s.pmm.free != [])
    ensures var s', x := FaultDone(s, c, va), Slot(s.pc[c].space, va);
      var e := s.leaf[x];
      && Inv(s') && Runs(s, s', c) && View(s') == View(s) && x in s'.leaf && e.frame in s.pmm.refs && e.frame in s.mem
      && (if s.pmm.refs[e.frame] > 1
          then s'.leaf[x] == Owned(Frames.Top(s.pmm), e) && s'.mem == s.mem[Frames.Top(s.pmm) := s.mem[e.frame]] &&
               s'.pmm == Frames.Drop(Frames.Take(s.pmm), e.frame)
          else s'.leaf[x] == Owned(e.frame, e) && s'.mem == s.mem && s'.pmm == s.pmm)
  {
    hide Inv, View, Alone;
    var n := FaultResolves(s, c, va);
    EntryCounted(s, Slot(s.pc[c].space, va));
    SameFrames(s);
  }

  /** The page is shared and there is no frame for a copy. */
  predicate NoCopy(pmm: Frames.Frames, e: Entry) {
    SharedFrame(pmm, e.frame) && pmm.free == []
  }

  /** No state of the machine is represented by the tables. */
  ghost predicate Broken(t: Tree, bytes: map<nat, seq<Byte>>, pmm: Frames.Frames) {
    forall s :: Represents(t, bytes, pmm, s) ==> !Inv(s)
  }

  lemma NullBreaks(t: Tree, bytes: map<nat, seq<Byte>>, pmm: Frames.Frames, r: nat, va: Va)
    requires Ok(t) && ValidVa(va) && va.i > 0 && Walk(t, r, va).Small? && Walk(t, r, va).e.frame == 0 &&
      P4(r) in t.tab && r != t.kernel
    ensures Broken(t, bytes, pmm)
  {
    hide Ok, Walk, Inv, TablesAre;
    forall s | Represents(t, bytes, pmm, s)
      ensures !Inv(s)
    {
      assert UserLeaf(t, Slot(r, va)) && s.leaf[Slot(r, va)].frame == 0;
      if Inv(s) {
        EntryCounted(s, Slot(r, va));
      }
    }
  }

  lemma NullLeaf(t: Tree, t': Tree, r: nat, va: Va, e: Entry)
    requires Ok(t) && Ok(t') && ValidVa(va) && MapsTo(t, t', r, va, e) && !e.flags.huge
    ensures Walk(t', r, va) == Small(e)
  {
    hide Ok, Walk;
    assert Covers(r, va, false, r, va);
  }

  lemma FaultShared(s: Sys, pmm: Frames.Frames, c: nat, va: Va)
    requires Inv(s) && s.pmm == pmm && c in s.pc && s.pc[c].User? && HasLeaf(s, s.pc[c].space, va)
    requires !NoCopy(pmm, s.leaf[Slot(s.pc[c].space, va)])
    ensures var x, s' := Slot(s.pc[c].space, va), FaultDone(s, c, va);
      var e := s.leaf[x];
      if SharedFrame(pmm, e.frame) then
        e.frame in s.mem && s'.leaf == s.leaf[x := Owned(CopyFrame(pmm), e)] &&
        s'.mem == s.mem[CopyFrame(pmm) := s.mem[e.frame]] &&
        s'.pmm == AfterSplit(pmm, e.frame)
      else s'.leaf == s.leaf[x := Owned(e.frame, e)] && s'.mem == s.mem && s'.pmm == pmm
  {
    EntryCounted(s, Slot(s.pc[c].space, va));
    SameFrames(s);
    hide Inv;
  }

  lemma KeysKept(pmm: Frames.Frames, f: nat)
    requires Frames.Valid(pmm)
    ensures AfterSplit(pmm, f).refs.Keys == pmm.refs.Keys
  {
    if pmm.free != [] {
      Frames.TakeValid(pmm);
    }
    Frames.DropValid(if pmm.free == [] then pmm else Frames.Take(pmm), f);
  }

  /** The write-fault branch on the tables of a running system. A copy-on-write page becomes writable, on a frame of its
      own if its frame was shared, as a run of the machine that no program notices; any other fault is not handled here
      and changes nothing (the process is then terminated). If the frame is shared and none is free, and only then, the
      page ends up on frame 0, and no state of the machine looks like that. */
  method HandlePageFault(vm: Vmm, root: nat, cr2: nat, write: bool, ghost c: nat, ghost s: Sys)
      returns (handled: bool, ghost s': Sys)
    requires Ready(vm.T(), vm.bytes, vm.pmm, s, c, root) && s.pc[c] == User(root) && cr2 < SPACE_SIZE &&
      Pml4Index(cr2) > 0
    requires var x := Slot(root, VaOf(cr2)); x in s.leaf && write ==> !s.leaf[x].flags.writable
    modifies vm`tables, vm`bytes, vm`pmm, vm`tab
    ensures vm.Valid() && vm.tab == old(vm.tab)
    ensures var x := Slot(root, VaOf(cr2)); handled <==> write && x in s.leaf && s.leaf[x].flags.cow
    ensures !handled ==> s' == s && vm.T() == old(vm.T()) && vm.bytes == old(vm.bytes) && vm.pmm == old(vm.pmm)
    ensures handled && !NoCopy(old(vm.pmm), s.leaf[Slot(root, VaOf(cr2))]) ==>
      s' == FaultDone(s, c, VaOf(cr2)) && Represents(vm.T(), vm.bytes, vm.pmm, s') && Inv(s') && Runs(s, s', c) &&
      View(s') == View(s) && Slot(root, VaOf(cr2)) in s'.leaf && s'.leaf[Slot(root, VaOf(cr2))].flags.writable
    ensures handled && NoCopy(old(vm.pmm), s.leaf[Slot(root, VaOf(cr2))]) ==>
      var e := s.leaf[Slot(root, VaOf(cr2))];
      && Walk(vm.T(), root, VaOf(cr2)) == Small(Owned(0, e)) && e.frame in s.mem
      && vm.bytes == s.mem[0 := s.mem[e.frame]]
      && vm.pmm == Frames.Drop(s.pmm, e.frame) && Broken(vm.T(), vm.bytes, vm.pmm)
  {
    hide Ready, Ok, Walk, StateOk, Represents, Inv, View, MapsTo, Runs, VaOf, Alone, FaultDone, AfterSplit, Owned,
         Broken;
    ghost var t, va := vm.T(), VaOf(cr2);
    FaultEntry(t, vm.bytes, vm.pmm, s, c, root, cr2);
    ReadyInv(t, vm.bytes, vm.pmm, s, c, root);
    ReadyRoot(t, vm.bytes, vm.pmm, s, c, root);
    VaValid(cr2);
    StateTree(t, vm.pmm);
    handled := Resolve(vm, root, cr2, write);
    StateTree(vm.T(), vm.pmm);
    s' := s;
    if handled {
      ghost var x := Slot(root, va);
      ghost var e := s.leaf[x];
      OwnedFlags(0, e);
      if NoCopy(old(vm.pmm), e) {
        NullCase(t, vm.T(), vm.bytes, old(vm.pmm), vm.pmm, root, va, e);
        SameFrames(s);
      } else {
        s' := FaultDone(s, c, va);
        FaultMaps(s, c, va);
        FaultShared(s, old(vm.pmm), c, va);
        KeysKept(old(vm.pmm), e.frame);
        OwnedFlags(CopyFrame(old(vm.pmm)), e);
        OwnedFlags(e.frame, e);
        FaultRepresents(t, vm.T(), old(vm.bytes), old(vm.pmm), s, c, va, vm.bytes, vm.pmm);
      }
    }
  }

  lemma OwnedFlags(f: nat, e: Entry)
    ensures Owned(f, e).flags.writable && Owned(f, e).flags.huge == e.flags.huge && Owned(f, e).frame == f
  {
  }

  lemma NullCase(t: Tree, t': Tree, bytes: map<nat, seq<Byte>>, pmm: Frames.Frames, pmm': Frames.Frames, r: nat, va: Va,
                 e: Entry)
    requires Ok(t) && Ok(t') && ValidVa(va) && va.i > 0 && NoCopy(pmm, e) && !e.flags.huge && P4(r) in t'.tab &&
      r != t'.kernel
    requires MapsTo(t, t', r, va, Owned(CopyFrame(pmm), e)) && pmm' == AfterSplit(pmm, e.frame)
    ensures Walk(t', r, va) == Small(Owned(0, e)) && pmm' == Frames.Drop(pmm, e.frame) && Broken(t', bytes, pmm')
  {
    hide Ok, Walk, MapsTo, Broken;
    NullLeaf(t, t', r, va, Owned(0, e));
    NullBreaks(t', bytes, pmm', r, va);
  }

  lemma RunsRefl(s: Sys, c: nat)
    ensures Runs(s, s, c)
  {
    assert Alone(s, s, c, 0);
  }

  lemma SeenPage(t: Tree, bytes: map<nat, seq<Byte>>, pmm: Frames.Frames, s: Sys, c: nat, r: nat, x: Slot)
    requires Ready(t, bytes, pmm, s, c, r) && x.space == r
    ensures x in View(s) <==> x in s.leaf
    ensures x in s.leaf ==> View(s)[x].mayWrite == MayWrite(s.leaf[x])
  {
    hide Inv, Represents, Ok, NoHuge;
  }

  lemma FaultKeeps(s: Sys, c: nat, va: Va)
    requires c in s.pc && s.pc[c].User? && HasLeaf(s, s.pc[c].space, va)
    ensures FaultDone(s, c, va).pc == s.pc
  {
  }

  lemma LeafSeen(t: Tree, bytes: map<nat, seq<Byte>>, pmm: Frames.Frames, s: Sys, r: nat, va: Va)
    requires Represents(t, bytes, pmm, s) && Inv(s) && HasLeaf(s, r, va)
    ensures Ok(t) && StateOk(t, pmm) && ValidVa(va) && Walk(t, r, va) == Small(s.leaf[Slot(r, va)])
    ensures s.mem == bytes && s.leaf[Slot(r, va)].frame in bytes && |bytes[s.leaf[Slot(r, va)].frame]| == PAGE_SIZE
  {
    hide Counted, Exclusive, RootsOk, OwnersOk, UnrefOk, PcsOk, Frames.Valid, Ok, Walk, TablesAre;
    assert UserLeaf(t, Slot(r, va));
  }

  lemma StoreSteps(m: Sys, s': Sys, c: nat, va: Va, off: nat, b: Byte)
    requires Inv(m) && Store(m, s', c, va, off, b)
    ensures c in m.pc && Inv(s') && Runs(m, s', c) &&
      EagerStep(View(m), View(s'), Wrote(Slot(m.pc[c].space, va), off, b))
  {
    hide Inv, View, EagerStep, Alone;
    StoreView(m, s', c, va, off, b);
    StepInv(m, s', c, AStore(va, off, b));
    RunsStep(m, s', c, AStore(va, off, b));
  }

  lemma SameBytes(t: Tree, bytes: map<nat, seq<Byte>>, bytes': map<nat, seq<Byte>>, pmm: Frames.Frames, s: Sys, s': Sys)
    requires Represents(t, bytes, pmm, s) && s' == s.(mem := bytes')
    ensures Represents(t, bytes', pmm, s')
  {
    hide StateOk, TablesAre, Walk, Ok;
    Parts(t, bytes, pmm, s);
    assert LeavesAre(t, s');
    hide LeavesAre;
    SameTabs(t, s, s');
  }

  /** One byte through the tables. */
  method StoreAt(vm: Vmm, root: nat, a: nat, b: Byte)
    requires vm.Valid() && P4(root) in vm.tab && a < SPACE_SIZE && Walk(vm.T(), root, VaOf(a)).Small?
    requires var f := Walk(vm.T(), root, VaOf(a)).e.frame; f in vm.bytes && a % PAGE_SIZE < |vm.bytes[f]|
    modifies vm`bytes
    ensures var f := Walk(vm.T(), root, VaOf(a)).e.frame;
      vm.bytes == old(vm.bytes)[f := old(vm.bytes)[f][a % PAGE_SIZE := b]]
  {
    hide Ok, Walk, StateOk, VaOf;
    VaValid(a);
    StateTree(vm.T(), vm.pmm);
    var at := vm.GetPhys(root, a);
    FrameOf(Walk(vm.T(), root, VaOf(a)).e.frame, a);
    var frame := at / PAGE_SIZE;
    vm.bytes := vm.bytes[frame := vm.bytes[frame][a % PAGE_SIZE := b]];
  }

  /** A user store, as the hardware and the handler perform it together: through a writable entry at once, through a
      copy-on-write entry after the fault; a store to any other page changes nothing and ends the process. What the
      programs see is exactly the eager specification's store, unless a copy was needed and no frame was free: then the
      byte lands in frame 0. */
  method UserStore(vm: Vmm, root: nat, a: nat, b: Byte, ghost c: nat, ghost s: Sys) returns (ok: bool, ghost s': Sys)
    requires Ready(vm.T(), vm.bytes, vm.pmm, s, c, root) && s.pc[c] == User(root) && a < SPACE_SIZE && Pml4Index(a) > 0
    modifies vm`tables, vm`bytes, vm`pmm, vm`tab
    ensures var x := Slot(root, VaOf(a)); ok <==> x in View(s) && View(s)[x].mayWrite
    ensures !ok ==> s' == s
    ensures !(ok && Unowned(s, root, VaOf(a), old(vm.pmm))) ==>
      Represents(vm.T(), vm.bytes, vm.pmm, s') && Inv(s') && Runs(s, s', c) &&
      (ok ==> EagerStep(View(s), View(s'), Wrote(Slot(root, VaOf(a)), a % PAGE_SIZE, b)))
    ensures ok && Unowned(s, root, VaOf(a), old(vm.pmm)) ==>
      var f := s.leaf[Slot(root, VaOf(a))].frame;
      && f in s.mem && a % PAGE_SIZE < |s.mem[f]| && vm.bytes == s.mem[0 := s.mem[f][a % PAGE_SIZE := b]]
      && Broken(vm.T(), vm.bytes, vm.pmm)
  {
    hide Ready, Ok, Walk, StateOk, Represents, Inv, View, Runs, VaOf, GrowsTo, Reached, Alone, FaultDone, EagerStep,
         Broken, NoCopy;
    ghost var t, va := vm.T(), VaOf(a);
    ghost var x := Slot(root, va);
    FaultEntry(t, vm.bytes, vm.pmm, s, c, root, a);
    ReadyInv(t, vm.bytes, vm.pmm, s, c, root);
    SeenPage(t, vm.bytes, vm.pmm, s, c, root, x);
    VaValid(a);
    ghost var lost := Unowned(s, root, va, vm.pmm);
    var flags := vm.GetFlags(root, a);
    s' := s;
    if !flags.writable {
      ok, s' := HandlePageFault(vm, root, a, true, c, s);
      if !ok {
        RunsRefl(s, c);
        return;
      }
      FaultKeeps(s, c, va);
    } else {
      RunsRefl(s, c);
    }
    ok := true;
    if lost {
      SharedLeaf(t, old(vm.bytes), old(vm.pmm), s, root, va);
      StateTree(vm.T(), vm.pmm);
    } else {
      LeafSeen(vm.T(), vm.bytes, vm.pmm, s', root, va);
    }
    ghost var m, before, frame := s', vm.bytes, Walk(vm.T(), root, va).e.frame;
    StoreAt(vm, root, a, b);
    if lost {
      BrokenStays(vm.T(), before, vm.bytes, vm.pmm, root, va);
    } else {
      s' := m.(mem := m.mem[frame := m.mem[frame][a % PAGE_SIZE := b]]);
      StoreSteps(m, s', c, va, a % PAGE_SIZE, b);
      RunsTrans(s, m, s', c);
      SameBytes(vm.T(), before, vm.bytes, vm.pmm, m, s');
    }
  }

  /** A store to this page needs a copy and there is no frame for it. */
  ghost predicate Unowned(s: Sys, r: nat, va: Va, pmm: Frames.Frames) {
    HasLeaf(s, r, va) && !s.leaf[Slot(r, va)].flags.writable && NoCopy(pmm, s.leaf[Slot(r, va)])
  }

  lemma SharedLeaf(t: Tree, bytes: map<nat, seq<Byte>>, pmm: Frames.Frames, s: Sys, r: nat, va: Va)
    requires Represents(t, bytes, pmm, s) && Inv(s) && HasLeaf(s, r, va)
    ensures s.leaf[Slot(r, va)].frame in s.mem && |s.mem[s.leaf[Slot(r, va)].frame]| == PAGE_SIZE
  {
    hide Represents, Inv;
    LeafSeen(t, bytes, pmm, s, r, va);
  }

  lemma BrokenStays(t: Tree, bytes: map<nat, seq<Byte>>, bytes': map<nat, seq<Byte>>, pmm: Frames.Frames, r: nat,
                    va: Va)
    requires Ok(t) && ValidVa(va) && va.i > 0 && Walk(t, r, va).Small? && Walk(t, r, va).e.frame == 0 &&
      P4(r) in t.tab && r != t.kernel
    ensures Broken(t, bytes', pmm)
  {
    hide Broken, Ok, Walk;
    NullBreaks(t, bytes', pmm, r, va);
  }

  /** Two pages of different spaces, or of one, split without a frame: both end up on frame 0, and the first program
      reads what the second one's page holds. */
  method TwoSplits(vm: Vmm, r1: nat, a1: nat, r2: nat, a2: nat)
    requires vm.Valid() && P4(r1) in vm.tab && P4(r2) in vm.tab && a1 < SPACE_SIZE && a2 < SPACE_SIZE &&
      vm.pmm.free == []
    requires !Covers(r1, VaOf(a1), false, r2, VaOf(a2)) && ToSplit(vm.T(), vm.bytes, vm.pmm, r1, a1) &&
      ToSplit(vm.T(), vm.bytes, vm.pmm, r2, a2)
    requires Walk(vm.T(), r1, VaOf(a1)).e.frame != Walk(vm.T(), r2, VaOf(a2)).e.frame
    modifies vm`tables, vm`bytes, vm`pmm, vm`tab
    ensures vm.Valid() && Walk(vm.T(), r1, VaOf(a1)) == Small(Owned(0, Walk(old(vm.T()), r1, VaOf(a1)).e))
    ensures Walk(vm.T(), r2, VaOf(a2)) == Small(Owned(0, Walk(old(vm.T()), r2, VaOf(a2)).e))
    ensures 0 in vm.bytes && vm.bytes[0] == old(vm.bytes)[Walk(old(vm.T()), r2, VaOf(a2)).e.frame]
  {
    hide Ok, Walk, StateOk, VaOf, Owned, MapsTo, Frames.Valid;
    VaValid(a1);
    VaValid(a2);
    StateTree(vm.T(), vm.pmm);
    ghost var t, e1, e2 := vm.T(), Walk(vm.T(), r1, VaOf(a1)).e, Walk(vm.T(), r2, VaOf(a2)).e;
    SmallNotHuge(t, r1, VaOf(a1));
    SmallNotHuge(t, r2, VaOf(a2));
    OwnedFlags(0, e1);
    OwnedFlags(0, e2);
    NullUnmanaged(t, vm.pmm);
    var handled := Resolve(vm, r1, a1, true);
    StateTree(vm.T(), vm.pmm);
    ghost var t1 := vm.T();
    NullLeaf(t, t1, r1, VaOf(a1), Owned(0, e1));
    OtherLeaf(t, t1, r1, VaOf(a1), Owned(0, e1), r2, VaOf(a2));
    handled := Resolve(vm, r2, a2, true);
    StateTree(vm.T(), vm.pmm);
    NullLeaf(t1, vm.T(), r2, VaOf(a2), Owned(0, e2));
    OtherLeaf(t1, vm.T(), r2, VaOf(a2), Owned(0, e2), r1, VaOf(a1));
  }

  /** A shared copy-on-write page. */
  ghost predicate ToSplit(t: Tree, bytes: map<nat, seq<Byte>>, pmm: Frames.Frames, r: nat, a: nat)
    requires Ok(t) && a < SPACE_SIZE
  {
    var w := Walk(t, r, VaOf(a));
    w.Small? && w.e.flags.cow && w.e.frame in bytes && SharedFrame(pmm, w.e.frame)
  }

  lemma NullUnmanaged(t: Tree, pmm: Frames.Frames)
    requires StateOk(t, pmm)
    ensures 0 !in pmm.refs
  {
  }

  lemma OtherLeaf(t: Tree, t': Tree, r: nat, va: Va, e: Entry, r': nat, vb: Va)
    requires Ok(t) && Ok(t') && ValidVa(vb) && MapsTo(t, t', r, va, e) && !e.flags.huge
    requires !Covers(r, va, false, r', vb) || !Covers(r', vb, false, r, va)
    ensures Walk(t', r', vb) == Walk(t, r', vb)
  {
    hide Ok, Walk;
    assert !Covers(r, va, false, r', vb);
  }
}
