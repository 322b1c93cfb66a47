/** From the first page tables to a program's pages: creating a space and mapping new pages in it are runs of the
    copy-on-write machine, and the tables the boot code leaves behind represent the machine's first state. */
module SpaceBuilding {
  import opened Common
  import opened Paging
  import opened Addresses
  import opened PageTree
  import opened PageTables
  import opened CowMachine
  import opened CowRefinement
  import opened AddressSpaces
  import CowInvariant
  import Frames

  // ----- a new space

  ghost function SpaceAdded(s: Sys): Sys
    requires s.pmm.free != []
  {
    var f := Frames.Top(s.pmm);
    s.(pmm := Frames.Take(s.pmm), tabs := s.tabs[f := f], live := s.live + {f})
  }

  lemma AddedSpace(t: Tree, t': Tree, s: Sys)
    requires StateOk(t, s.pmm) && LeavesAre(t, s) && TablesAre(t, s) && s.pmm.free != [] && Spare(t, Frames.Top(s.pmm))
    requires t'.tab == t.tab[P4(Frames.Top(s.pmm)) := Frames.Top(s.pmm)] && t'.kernel == t.kernel &&
      Frames.Top(s.pmm) != t.kernel
    requires Ok(t') && SameWalks(t, t')
    ensures LeavesAre(t', SpaceAdded(s)) && TablesAre(t', SpaceAdded(s))
  {
    hide Frames.Valid, Ok, Walk, LeavesAre, TablesAre, Spare, SameWalks;
    StateTree(t, s.pmm);
    BegunTables(t, t', s, 0, 0);
    BegunLeaves(t, t', s, 0, 0);
    SameTabs(t', CloneBegun(s, 0, 0), SpaceAdded(s));
    SameLeaves(t', CloneBegun(s, 0, 0), SpaceAdded(s));
  }

  lemma AddedRuns(s: Sys, c: nat)
    requires Inv(s) && c in s.pc && s.pc[c].Idle? && s.pmm.free != []
    ensures var s' := SpaceAdded(s);
      Inv(s') && Runs(s, s', c) && View(s') == View(s) && Frames.Top(s.pmm) !in s.tabs && Frames.Top(s.pmm) !in s.live
  {
    hide Inv, View, Alone;
    TopNotTable(s);
    var s' := SpaceAdded(s);
    assert NewSpace(s, s', c);
    NewSpaceView(s, s', c);
    StepInv(s, s', c, ANewSpace);
    RunsStep(s, s', c, ANewSpace);
    LiveAreTables(s);
  }

  lemma LiveAreTables(s: Sys)
    requires Inv(s)
    ensures forall x :: x in s.live ==> x in s.tabs
  {
  }

  /** Nobody works on a space that is no table. */
  lemma FreshFree(s: Sys, c: nat, x: nat)
    requires Inv(s) && x !in s.tabs
    ensures FreeFor(s, c, x)
  {
    hide FramesOk, Counted, Exclusive, RootsOk, UnrefOk, PcsOk;
    CowInvariant.UnusedFree(s, c, x);
  }

  /** `vmm_create_address_space` is the machine's step that adds a space: empty above the kernel slot, ready to be
      filled or run. */
  method NewUserSpace(vm: Vmm, ghost c: nat, ghost s: Sys) returns (root: nat, ghost s': Sys)
    requires Represents(vm.T(), vm.bytes, vm.pmm, s) && Inv(s) && c in s.pc && s.pc[c] == Idle
    modifies vm`tables, vm`pmm, vm`tab
    ensures root == 0 <==> old(vm.pmm).free == []
    ensures root == 0 ==> s' == s && Represents(vm.T(), vm.bytes, vm.pmm, s)
    ensures root != 0 ==>
      && s' == s.(pmm := vm.pmm, tabs := s.tabs[root := root], live := s.live + {root}) && root !in s.live
      && Ready(vm.T(), vm.bytes, vm.pmm, s', c, root) && FreeFor(s', c, root) && Runs(s, s', c) && View(s') == View(s)
      && |vm.pmm.free| == |old(vm.pmm).free| - 1
  {
    hide Inv, Ok, Walk, SameWalks, StateOk, LeavesAre, TablesAre, Runs, View, AddRoot, NoHuge, Spare;
    ghost var t, pmm := vm.T(), vm.pmm;
    StateParts(t, vm.bytes, pmm, s);
    Parts(t, vm.bytes, pmm, s);
    root := CreateAddressSpace(vm);
    s' := s;
    if root == 0 {
      return;
    }
    s' := SpaceAdded(s);
    AddedRuns(s, c);
    TopSpare(t, pmm);
    AddRootTab(t, root);
    StateTree(vm.T(), vm.pmm);
    AddRootWalks(t, root);
    AddedSpace(t, vm.T(), s);
    FreshFree(s, c, root);
  }

  // ----- tables for a new page

  /** The frames taken between two states of the allocator. */
  function TakenFrames(p0: Frames.Frames, p: Frames.Frames): set<nat> {
    set f | f in p0.free && f !in p.free
  }

  /** All of them used as tables of one space. */
  ghost function TablesAdded(s: Sys, pmm: Frames.Frames, r: nat): Sys {
    s.(pmm := pmm, tabs := s.tabs + map f | f in TakenFrames(s.pmm, pmm) :: r)
  }

  /** A CPU that holds a new frame can add any number of tables to the space. */
  lemma {:induction false} AddsTables(s: Sys, c: nat, pmm: Frames.Frames)
    requires Inv(s) && c in s.pc && s.pc[c].Placing? && Frames.TakenSince(s.pmm, pmm)
    ensures var s' := TablesAdded(s, pmm, s.pc[c].space);
      Inv(s') && Runs(s, s', c) && View(s') == View(s)
    decreases |s.pmm.free|
  {
    hide Inv, View, Alone, Frames.TakenSince, Frames.Take, Frames.Top;
    var r := s.pc[c].space;
    assert Frames.Valid(s.pmm) by { InvFrames(s); }
    if |pmm.free| >= |s.pmm.free| {
      Frames.NoneTaken(s.pmm, pmm);
      assert TakenFrames(s.pmm, pmm) == {};
      assert TablesAdded(s, pmm, r) == s;
      assert Alone(s, s, c, 0) by { AloneRefl(s, c); }
      hide TablesAdded;
    } else {
      Frames.TakenFirst(s.pmm, pmm);
      Frames.TakenTop(s.pmm);
      var m := s.(pmm := Frames.Take(s.pmm), tabs := s.tabs[Frames.Top(s.pmm) := r]);
      Grows1(s, m, c);
      Shorter(s.pmm);
      AddsTables(m, c, pmm);
      assert TakenFrames(s.pmm, pmm) == TakenFrames(m.pmm, pmm) + {Frames.Top(s.pmm)};
      assert TablesAdded(m, pmm, r) == TablesAdded(s, pmm, r) by { SameAdded(s, m, pmm, r); }
      hide TablesAdded;
      RunsTrans(s, m, TablesAdded(s, pmm, r), c);
    }
  }

  lemma Shorter(p: Frames.Frames)
    requires p.free != []
    ensures |Frames.Take(p).free| < |p.free|
  {
  }

  lemma SameAdded(s: Sys, m: Sys, pmm: Frames.Frames, r: nat)
    requires s.pmm.free != [] && m == s.(pmm := Frames.Take(s.pmm), tabs := s.tabs[Frames.Top(s.pmm) := r])
    requires TakenFrames(s.pmm, pmm) == TakenFrames(m.pmm, pmm) + {Frames.Top(s.pmm)}
    ensures TablesAdded(m, pmm, r) == TablesAdded(s, pmm, r)
  {
    hide Frames.Take, Frames.Top;
    var a, b := TakenFrames(s.pmm, pmm), TakenFrames(m.pmm, pmm);
    hide TakenFrames;
    assert s.tabs[Frames.Top(s.pmm) := r] + (map f | f in b :: r) == s.tabs + map f | f in a :: r;
  }

  lemma InvFrames(s: Sys)
    requires Inv(s)
    ensures Frames.Valid(s.pmm)
  {
  }

  lemma GrowAllowed(s: Sys, m: Sys, c: nat)
    requires OwnersOk(s) && c in s.pc && s.pc[c].Placing? && s.pmm.free != []
    requires m == s.(pmm := Frames.Take(s.pmm), tabs := s.tabs[Frames.Top(s.pmm) := s.pc[c].space])
    ensures Grow(s, m, c, s.pc[c].space)
  {
    hide Frames.Take, Frames.Top;
    assert OwnsAlone(s, c);
    hide OwnersOk, FreeFor, IsRoot;
  }

  lemma InvOwners(s: Sys)
    requires Inv(s)
    ensures OwnersOk(s)
  {
  }

  lemma Grows1(s: Sys, m: Sys, c: nat)
    requires Inv(s) && c in s.pc && s.pc[c].Placing? && s.pmm.free != []
    requires m == s.(pmm := Frames.Take(s.pmm), tabs := s.tabs[Frames.Top(s.pmm) := s.pc[c].space])
    ensures Inv(m) && Runs(s, m, c) && View(m) == View(s)
  {
    hide Inv, View, Runs, Grow, OwnersOk, Frames.Take, Frames.Top;
    InvOwners(s);
    GrowAllowed(s, m, c);
    QuietRun(s, m, c, AGrow(s.pc[c].space));
  }

  // ----- a new page

  ghost function FrameTaken(s: Sys, c: nat, r: nat): Sys
    requires s.pmm.free != []
  {
    s.(pmm := Frames.Take(s.pmm), pc := s.pc[c := Placing(r, Frames.Top(s.pmm))])
  }

  ghost function PageAdded(s: Sys, c: nat, va: Va, flags: Flags, content: seq<Byte>): Sys
    requires c in s.pc && s.pc[c].Placing?
  {
    var p := s.pc[c];
    s.(mem := s.mem[p.frame := content], leaf := s.leaf[Slot(p.space, va) := Entry(p.frame, flags.(present := true))],
       pc := s.pc[c := Idle])
  }

  lemma PageRun(s: Sys, c: nat, x: Slot, flags: Flags, content: seq<Byte>)
    requires Inv(s) && c in s.pc && s.pc[c].Placing? && s.pc[c].space == x.space && x !in s.leaf &&
      |content| == PAGE_SIZE
    ensures var t := PageAdded(s, c, x.va, flags, content);
      Inv(t) && Runs(s, t, c) && EagerStep(View(s), View(t), Mapped(x, Page(content, flags.writable || flags.cow)))
  {
    hide Inv, View, Alone, EagerStep;
    var t := PageAdded(s, c, x.va, flags, content);
    assert MapPage(s, t, c, x, flags, content);
    MapPageView(s, t, c, x, flags, content);
    StepInv(s, t, c, AMapPage(x, flags, content));
    RunsStep(s, t, c, AMapPage(x, flags, content));
  }

  /** The machine's run: take a frame, add the tables, map the frame. */
  lemma PageRuns(s: Sys, c: nat, x: Slot, pmm: Frames.Frames, flags: Flags, content: seq<Byte>)
    requires Inv(s) && c in s.pc && s.pc[c] == Idle && x.space in s.live && FreeFor(s, c, x.space) && s.pmm.free != []
    requires Frames.TakenSince(Frames.Take(s.pmm), pmm) && x !in s.leaf && |content| == PAGE_SIZE
    ensures var s1 := FrameTaken(s, c, x.space);
      var s2 := TablesAdded(s1, pmm, x.space);
      && c in s2.pc && s2.pc[c].Placing?
      && var s3 := PageAdded(s2, c, x.va, flags, content);
         Inv(s3) && Runs(s, s3, c) && EagerStep(View(s), View(s3),
                                                Mapped(x, Page(content, flags.writable || flags.cow)))
  {
    hide Inv, View, Alone, EagerStep, Frames.TakenSince;
    var s1 := FrameTaken(s, c, x.space);
    assert TakeNew(s, s1, c, x.space);
    hide FreeFor;
    QuietRun(s, s1, c, ATakeNew(x.space));
    AddsTables(s1, c, pmm);
    var s2 := TablesAdded(s1, pmm, x.space);
    RunsTrans(s, s1, s2, c);
    PageRun(s2, c, x, flags, content);
    hide PageAdded, FrameTaken, TablesAdded;
    RunsTrans(s, s2, PageAdded(s2, c, x.va, flags, content), c);
  }

  lemma LeafAdded(t: Tree, t': Tree, s: Sys, x: Slot, e: Entry)
    requires Ok(t) && Ok(t') && LeavesAre(t, s) && !e.flags.huge && t'.kernel == t.kernel
    requires MapsTo(t, t', x.space, x.va, e) && ValidVa(x.va) && x.va.i > 0 && x.space != t.kernel
    ensures LeavesAre(t', s.(leaf := s.leaf[x := e]))
  {
    hide Ok, Walk;
    var s' := s.(leaf := s.leaf[x := e]);
    forall y
      ensures (y in s'.leaf <==> UserLeaf(t', y)) && (y in s'.leaf ==> s'.leaf[y] == Walk(t', y.space, y.va).e)
    {
      assert ValidVa(y.va) && y.va.i > 0 ==> (Covers(x.space, x.va, false, y.space, y.va) <==> y == x);
    }
  }

  lemma NewPlace(t: Tree, r: nat, va: Va, p: Pos)
    requires OnPath(p, r, va, false) && va.i > 0 && r != t.kernel
    ensures OwnerOf(p) == r && Home(t, p) == r
  {
  }

  /** Whose each table is. */
  lemma TablesOwned(t: Tree, t': Tree, pmm: Frames.Frames, s: Sys, r: nat, va: Va, p: Pos)
    requires TablesAre(t, s) && t'.kernel == t.kernel && r != t.kernel && va.i > 0 && p in t'.tab
    requires Spent(t, t', s.pmm, pmm) && GrowsTo(t, t', r, va, false)
    requires forall p :: p in t.tab ==> t.tab[p] !in s.pmm.free
    requires forall f :: f in s.pmm.free ==> f in s.pmm.refs
    ensures var s' := TablesAdded(s, pmm, r);
      && (t'.tab[p] in s'.pmm.refs ==> t'.tab[p] in s'.tabs && s'.tabs[t'.tab[p]] == Home(t', p))
      && (Home(t', p) != KERNEL ==> t'.tab[p] in s'.pmm.refs)
  {
    hide Stands;
    if p !in t.tab {
      NewPlace(t', r, va, p);
    } else {
      assert Home(t', p) == Home(t, p);
      assert t.tab[p] !in TakenFrames(s.pmm, pmm);
    }
    hide OnPath, Home;
  }

  lemma TablesStand(t: Tree, t': Tree, pmm: Frames.Frames, s: Sys, r: nat, f: nat)
    requires TablesAre(t, s) && Spent(t, t', s.pmm, pmm) && f in TablesAdded(s, pmm, r).tabs
    ensures exists p :: p in t'.tab && t'.tab[p] == f
  {
    if f in TakenFrames(s.pmm, pmm) {
      assert Stands(t', f);
    } else {
      var p :| p in t.tab && t.tab[p] == f;
      assert t'.tab[p] == f;
    }
  }

  /** The new tables are the space's, and all frames taken are among them. */
  lemma TablesMatch(t: Tree, t': Tree, pmm: Frames.Frames, s: Sys, r: nat, va: Va)
    requires TablesAre(t, s) && t'.kernel == t.kernel && r != t.kernel && va.i > 0
    requires Spent(t, t', s.pmm, pmm) && GrowsTo(t, t', r, va, false)
    requires forall p :: p in t.tab ==> t.tab[p] !in s.pmm.free
    requires forall f :: f in s.pmm.free ==> f in s.pmm.refs
    ensures TablesAre(t', TablesAdded(s, pmm, r))
  {
    hide Spent, GrowsTo, Home, TablesAdded;
    forall p | p in t'.tab {
      TablesOwned(t, t', pmm, s, r, va, p);
    }
    forall f | f in TablesAdded(s, pmm, r).tabs
      ensures exists p :: p in t'.tab && t'.tab[p] == f
    {
      TablesStand(t, t', pmm, s, r, f);
    }
  }

  lemma FreeManaged(p: Frames.Frames)
    requires Frames.Valid(p)
    ensures forall f :: f in p.free ==> f in p.refs
  {
  }

  /** The tables and the machine agree after the page has been mapped. */
  lemma PageRepresents(t: Tree, t': Tree, bytes: map<nat, seq<Byte>>, pmm: Frames.Frames, s: Sys, c: nat, x: Slot,
                       flags: Flags, content: seq<Byte>)
    requires StateOk(t, s.pmm) && LeavesAre(t, s) && TablesAre(t, s) && s.mem == bytes && c in s.pc &&
      s.pc[c].Placing? && s.pc[c].space == x.space
    requires Ok(t) && Ok(t') && StateOk(t', pmm) && t'.kernel == t.kernel && x.space != t.kernel && ValidVa(x.va) &&
      x.va.i > 0
    requires Spent(t, t', s.pmm, pmm) && GrowsTo(t, t', x.space, x.va, false) && !flags.huge
    requires MapsTo(t, t', x.space, x.va, Entry(s.pc[c].frame, flags.(present := true)))
    ensures Represents(t', bytes[s.pc[c].frame := content], pmm,
                       PageAdded(TablesAdded(s, pmm, x.space), c, x.va, flags, content))
  {
    hide Ok, Walk, MapsTo, Spent, GrowsTo;
    FreeManaged(s.pmm);
    hide Frames.Valid;
    var e := Entry(s.pc[c].frame, flags.(present := true));
    var s2 := TablesAdded(s, pmm, x.space);
    TablesMatch(t, t', pmm, s, x.space, x.va);
    LeafAdded(t, t', s, x, e);
    hide TablesAdded, LeavesAre, TablesAre, StateOk;
    var s3 := PageAdded(s2, c, x.va, flags, content);
    assert s3.pmm == pmm by { AddedParts(s, pmm, x.space); }
    AddedParts(s, pmm, x.space);
    SameLeaves(t', s.(leaf := s.leaf[x := e]), s3);
    SameTabs(t', s2, s3);
  }

  lemma AddedParts(s: Sys, pmm: Frames.Frames, r: nat)
    ensures var s2 := TablesAdded(s, pmm, r);
      s2.pmm == pmm && s2.leaf == s.leaf && s2.mem == s.mem && s2.pc == s.pc && s2.live == s.live
  {
  }

  lemma NoHugeStill(t: Tree, t': Tree, r: nat, x: Slot, e: Entry)
    requires Ok(t) && Ok(t') && NoHuge(t, r) && MapsTo(t, t', x.space, x.va, e) && !e.flags.huge
    ensures NoHuge(t', r)
  {
    hide Ok, Walk;
  }

  lemma MoreThanThree(p: Frames.Frames, q: Frames.Frames)
    requires |p.free| - |q.free| <= 3 && |p.free| >= 4
    ensures q.free != []
  {
  }

  /** A new page of a space nobody works on: `pmm_alloc_frame`, `vmm_map`, and the page's bytes, as the loaders do it.
      On the tables that is a run of the machine, and what programs see is exactly the new page. */
  method MapUserPage(vm: Vmm, root: nat, virt: nat, flags: Flags, content: seq<Byte>, ghost c: nat, ghost s: Sys)
      returns (ghost s': Sys)
    requires Ready(vm.T(), vm.bytes, vm.pmm, s, c, root) && s.pc[c] == Idle && FreeFor(s, c, root)
    requires virt < SPACE_SIZE && Pml4Index(virt) > 0 && Slot(root, VaOf(virt)) !in s.leaf
    requires |content| == PAGE_SIZE && !flags.huge && |vm.pmm.free| >= 5
    modifies vm`tables, vm`bytes, vm`pmm, vm`tab
    ensures Ready(vm.T(), vm.bytes, vm.pmm, s', c, root) && Runs(s, s', c) && s'.pc == s.pc && s'.live == s.live
    ensures EagerStep(View(s), View(s'), Mapped(Slot(root, VaOf(virt)), Page(content, flags.writable || flags.cow)))
    ensures Slot(root, VaOf(virt)) in s'.leaf && s'.leaf.Keys == s.leaf.Keys + {Slot(root, VaOf(virt))}
    ensures |vm.pmm.free| >= |old(vm.pmm).free| - 4
  {
    hide Ok, Walk, SameWalks, MapsTo, StateOk, LeavesAre, TablesAre, Inv, Runs, View, EagerStep, NoHuge, Spent,
         GrowsTo, WordsKept, Reached, VaOf, FreeFor, TablesAdded, Frames.TakenSince, NoTable;
    ghost var t, va := vm.T(), VaOf(virt);
    ghost var x := Slot(root, va);
    UserPage(t, vm.bytes, vm.pmm, s, c, root, virt);
    ghost var s1 := FrameTaken(s, c, root);
    TakenParts(t, vm.pmm);
    var frame := Frames.Top(vm.pmm);
    vm.pmm := Frames.Take(vm.pmm);
    ghost var pmm1 := vm.pmm;
    vm.Map(root, virt, frame * PAGE_SIZE, flags);
    StateTree(vm.T(), vm.pmm);
    MoreThanThree(pmm1, vm.pmm);
    SpentTaken(t, vm.T(), pmm1, vm.pmm);
    PageRuns(s, c, x, vm.pmm, flags, content);
    SameLeaves(t, s, s1);
    SameTabs(t, s, s1);
    PageRepresents(t, vm.T(), vm.bytes, vm.pmm, s1, c, x, flags, content);
    NoHugeStill(t, vm.T(), root, x, Entry(frame, flags.(present := true)));
    vm.bytes := vm.bytes[frame := content];
    s' := PageAdded(TablesAdded(s1, vm.pmm, root), c, va, flags, content);
    AddedParts(s1, vm.pmm, root);
    assert s'.pc == s.pc by { assert s.pc[c := Idle] == s.pc; }
  }

  lemma SpentTaken(t: Tree, t': Tree, pmm: Frames.Frames, pmm': Frames.Frames)
    ensures Spent(t, t', pmm, pmm') ==> Frames.TakenSince(pmm, pmm')
  {
  }

  lemma TakenParts(t: Tree, pmm: Frames.Frames)
    requires StateOk(t, pmm) && pmm.free != []
    ensures StateOk(t, Frames.Take(pmm)) && Frames.Take(pmm).refs.Keys == pmm.refs.Keys && Ok(t)
    ensures |Frames.Take(pmm).free| == |pmm.free| - 1
  {
    Frames.TakeValid(pmm);
    hide Frames.Valid, Ok;
  }

  /** The page is not mapped yet. */
  lemma UserPage(t: Tree, bytes: map<nat, seq<Byte>>, pmm: Frames.Frames, s: Sys, c: nat, r: nat, a: nat)
    requires Ready(t, bytes, pmm, s, c, r) && a < SPACE_SIZE && Pml4Index(a) > 0
    ensures P4(r) in t.tab && r != 0 && Ok(t) && StateOk(t, pmm) && s.pmm == pmm && s.mem == bytes && LeavesAre(t, s) &&
      TablesAre(t, s)
    ensures VaOf(a).i > 0 && !Walk(t, r, VaOf(a)).Large?
  {
    ReadyRoot(t, bytes, pmm, s, c, r);
    Parts(t, bytes, pmm, s);
    StateParts(t, bytes, pmm, s);
    assert VaOf(a).i > 0;
    hide Ok, Walk, Inv;
  }
}
