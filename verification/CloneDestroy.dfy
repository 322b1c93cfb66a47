/** Cloning an address space and destroying the clone on the real page tables: nothing a program sees has
    changed, and the frame allocator is where it was. */
module CloneDestroy {
  import opened Common
  import opened Paging
  import opened PageTables
  import opened PageTree
  import opened CowMachine
  import opened CowRefinement
  import opened AddressSpaces
  import opened SpaceDestroy
  import Frames

  // ----- no step changes which frames are managed

  /** What a step can do to the allocator. */
  ghost predicate Changes(p: Frames.Frames, p': Frames.Frames) {
    p' == p || (p.free != [] && p' == Frames.Take(p)) || (exists f :: p' == Frames.Drop(p, f)) ||
    exists f :: p' == Frames.Share(p, f)
  }

  lemma StepChanges(s: Sys, s': Sys, c: nat, a: Action)
    requires Step(s, s', c, a)
    ensures Changes(s.pmm, s'.pmm)
  {
    hide Frames.Take, Frames.Drop, Frames.Share, Frames.Top, IsRoot, FreeFor;
    match a
    case AFreeOld => assert s'.pmm == Frames.Drop(s.pmm, s.pc[c].prev);
    case AFreeLeaf(va) => assert s'.pmm == Frames.Drop(s.pmm, s.leaf[Slot(s.pc[c].space, va)].frame);
    case AFreeTable(t) => assert s'.pmm == Frames.Drop(s.pmm, t);
    case ACountChild => assert s'.pmm == Frames.Share(s.pmm, s.leaf[Slot(s.pc[c].child, s.pc[c].va)].frame);
    case _ =>
  }

  lemma StepKeys(s: Sys, s': Sys, c: nat, a: Action)
    requires Frames.Valid(s.pmm) && Step(s, s', c, a)
    ensures s'.pmm.refs.Keys == s.pmm.refs.Keys
  {
    hide Step;
    StepChanges(s, s', c, a);
    if s.pmm.free != [] {
      Frames.TakeValid(s.pmm);
    }
    hide Frames.Valid, Frames.Top;
  }

  lemma {:induction false} AloneKeys(s: Sys, t: Sys, c: nat, n: nat)
    requires Inv(s) && Alone(s, t, c, n)
    ensures t.pmm.refs.Keys == s.pmm.refs.Keys
    decreases n
  {
    hide Inv, Step;
    if n > 0 {
      var m, a :| Step(s, m, c, a) && Alone(m, t, c, n - 1);
      TabsManaged(s);
      StepKeys(s, m, c, a);
      StepInv(s, m, c, a);
      AloneKeys(m, t, c, n - 1);
    }
  }

  lemma RunsKeys(s: Sys, t: Sys, c: nat)
    requires Inv(s) && Runs(s, t, c)
    ensures t.pmm.refs.Keys == s.pmm.refs.Keys
  {
    hide Inv, Alone;
    var n :| Alone(s, t, c, n);
    AloneKeys(s, t, c, n);
  }

  // ----- between the two calls

  /** The caller has left the parent; no CPU is in the child. */
  lemma ChildReady(t: Tree, bytes: map<nat, seq<Byte>>, pmm: Frames.Frames, s0: Sys, s: Sys, c: nat, src: nat, dst: nat)
    requires CloneDone(t, bytes, pmm, s0, s, c, src, dst) && Inv(s0) && AtRest(s0)
    ensures var s' := s.(pc := s.pc[c := Idle]);
      Ready(t, bytes, pmm, s', c, dst) && s'.pc[c] == Idle && FreeFor(s', c, dst) && View(s') == View(s)
  {
    hide Inv, Runs, View, Ok, NoHuge, EagerStep, LeavesAre, TablesAre, StateOk, AtRest;
    var s' := s.(pc := s.pc[c := Idle]);
    assert Leave(s, s', c);
    QuietRun(s, s', c, ALeave);
    assert Represents(t, bytes, pmm, s') by {
      SameLeaves(t, s, s');
      SameTabs(t, s, s');
    }
    forall d | d in s'.pc && d != c
      ensures !Owns(s'.pc[d], dst)
    {
      RestingSpace(s0, d, dst);
    }
  }

  lemma RestingSpace(s: Sys, d: nat, x: nat)
    requires Inv(s) && AtRest(s) && d in s.pc && x !in s.live
    ensures !Owns(s.pc[d], x)
  {
    hide Inv;
    PcAt(s, d);
    assert Resting(s.pc[d]);
  }

  /** Undoing the clone: the entries and the tables are those of the start. */
  lemma BackAgain(t: Tree, t': Tree, bytes: map<nat, seq<Byte>>, pmm: Frames.Frames, pmm': Frames.Frames,
                  s0: Sys, s1: Sys, s2: Sys, s3: Sys, c: nat, src: nat, dst: nat)
    requires Inv(s0) && CloneDone(t, bytes, pmm, s0, s1, c, src, dst) && s2 == s1.(pc := s1.pc[c := Idle])
    requires SpaceGone(t', bytes, pmm', s2, s3, c, dst)
    ensures s3.leaf.Keys == s0.leaf.Keys && forall x :: x in s0.leaf ==> s3.leaf[x].frame == s0.leaf[x].frame
    ensures s3.tabs.Keys == s0.tabs.Keys && s3.live == s0.live && s3.pmm.refs.Keys == s0.pmm.refs.Keys
  {
    hide Inv, Runs, View, Ok, NoHuge, EagerStep, Represents;
    RunsKeys(s0, s1, c);
    NothingOf(s0, dst);
  }

  /** A frame that is no root has no pages and no tables. */
  lemma NothingOf(s: Sys, r: nat)
    requires Inv(s)
    ensures !IsRoot(s, r) && r != 0 ==> (forall x :: x in s.leaf ==> x.space != r) && forall f :: f in s.tabs ==>
      s.tabs[f] != r
  {
    hide FramesOk, Counted, Exclusive, OwnersOk, UnrefOk, PcsOk;
  }

  lemma ViewBack(s0: Sys, s1: Sys, s2: Sys, s3: Sys, src: nat, dst: nat)
    requires EagerStep(View(s0), View(s1), Forked(src, dst)) && View(s2) == View(s1) &&
      EagerStep(View(s2), View(s3), Destroyed(dst))
    ensures View(s3) == View(s0)
  {
    hide View;
    forall y
      ensures y in Cloned(View(s0), src, dst) ==> y.space == dst
    {
      ClonedAt(View(s0), src, dst, y);
    }
    hide Cloned;
    assert View(s3) == View(s0);
  }

  /** The caller runs the parent again. */
  lemma ParentAgain(t: Tree, bytes: map<nat, seq<Byte>>, pmm: Frames.Frames, s2: Sys, s3: Sys, c: nat, src: nat,
                    dst: nat)
    requires SpaceGone(t, bytes, pmm, s2, s3, c, dst) && src in s3.live && FreeFor(s3, c, src)
    ensures var s4 := s3.(pc := s3.pc[c := User(src)]);
      Represents(t, bytes, pmm, s4) && Inv(s4) && Runs(s2, s4, c) && View(s4) == View(s3)
  {
    hide Inv, Runs, View, Ok, EagerStep, LeavesAre, TablesAre, StateOk;
    var s4 := s3.(pc := s3.pc[c := User(src)]);
    assert Enter(s3, s4, c, src);
    QuietRun(s3, s4, c, AEnter(src));
    RunsTrans(s2, s3, s4, c);
    Parts(t, bytes, pmm, s3);
    SameLeaves(t, s3, s4);
    SameTabs(t, s3, s4);
  }

  /** While the caller is away nobody else can be in the parent. */
  lemma ParentFree(s: Sys, s3: Sys, c: nat, src: nat)
    requires Inv(s) && c in s.pc && s.pc[c] == User(src) && s3.pc == s.pc[c := Idle]
    ensures FreeFor(s3, c, src) && src in s.live
  {
    hide FramesOk, Counted, Exclusive, RootsOk, UnrefOk;
    assert OwnsAlone(s, c) && PcOk(s, c);
    assert Owns(s.pc[c], src);
    hide OwnersOk, PcsOk;
  }

  /** `vmm_destroy_address_space(vmm_clone_address_space(src))`, with no CPU in the middle of anything else:
      every reference count and the set of free frames are restored, and every program sees what it saw. Only
      writable pages of the parent have become copy-on-write. */
  method CloneThenDestroy(vm: Vmm, src: nat, ghost c: nat, ghost s: Sys) returns (ghost s': Sys)
    requires Ready(vm.T(), vm.bytes, vm.pmm, s, c, src) && s.pc[c] == User(src) && |vm.pmm.free| >= |Shape(vm.T(), src)|
    requires AtRest(s)
    modifies vm`tables, vm`pmm, vm`tab
    ensures Represents(vm.T(), vm.bytes, vm.pmm, s') && Inv(s') && Runs(s, s', c) && s'.pc == s.pc && s'.live == s.live
    ensures View(s') == View(s)
    ensures vm.pmm.refs == old(vm.pmm).refs && forall f :: f in vm.pmm.free <==> f in old(vm.pmm).free
  {
    hide Ready, Ok, Represents, Shape, Inv, Runs, View, CloneDone, SpaceGone, AtRest, FreeFor, EagerStep;
    ReadyInv(vm.T(), vm.bytes, vm.pmm, s, c, src);
    var dst;
    ghost var s1;
    dst, s1 := CloneAddressSpace(vm, src, c, s);
    ghost var t1, pmm1 := vm.T(), vm.pmm;
    ChildReady(t1, vm.bytes, pmm1, s, s1, c, src, dst);
    ghost var s2 := s1.(pc := s1.pc[c := Idle]);
    ghost var s3 := DestroyAddressSpace(vm, dst, c, s2);
    s' := s3.(pc := s3.pc[c := User(src)]);
    RoundTrip(t1, vm.T(), vm.bytes, pmm1, vm.pmm, s, s1, s2, s3, c, src, dst);
  }

  lemma RoundTrip(t: Tree, t': Tree, bytes: map<nat, seq<Byte>>, pmm: Frames.Frames, pmm': Frames.Frames,
                  s0: Sys, s1: Sys, s2: Sys, s3: Sys, c: nat, src: nat, dst: nat)
    requires Inv(s0) && AtRest(s0) && c in s0.pc && s0.pc[c] == User(src)
    requires CloneDone(t, bytes, pmm, s0, s1, c, src, dst) && s2 == s1.(pc := s1.pc[c := Idle])
    requires SpaceGone(t', bytes, pmm', s2, s3, c, dst)
    ensures var s4 := s3.(pc := s3.pc[c := User(src)]);
      Represents(t', bytes, pmm', s4) && Inv(s4) && Runs(s0, s4, c) && s4.pc == s0.pc && s4.live == s0.live &&
      View(s4) == View(s0)
    ensures pmm'.refs == s0.pmm.refs && forall f :: f in pmm'.free <==> f in s0.pmm.free
  {
    hide Ok, Represents, Inv, Runs, View, AtRest, FreeFor, EagerStep, NoHuge;
    var s4 := s3.(pc := s3.pc[c := User(src)]);
    assert Leave(s1, s2, c);
    QuietRun(s1, s2, c, ALeave);
    RunsTrans(s0, s1, s2, c);
    BackAgain(t, t', bytes, pmm, pmm', s0, s1, s2, s3, c, src, dst);
    ViewBack(s0, s1, s2, s3, src, dst);
    assert s3.pc == s0.pc[c := Idle] && s4.pc == s0.pc;
    ParentFree(s0, s3, c, src);
    ParentAgain(t', bytes, pmm', s2, s3, c, src, dst);
    RunsTrans(s0, s2, s4, c);
    assert AtRest(s4) by { SamePcs(s0, s4); }
    CountsDetermined(s0, s4);
    assert s4.pmm == pmm' by { Parts(t', bytes, pmm', s4); }
  }

  lemma SamePcs(s: Sys, t: Sys)
    requires AtRest(s) && t.pc == s.pc
    ensures AtRest(t)
  {
  }
}
