/** Cloning, destroying and faulting on the real page tables: each is a run of one CPU of the copy-on-write
    machine that the tables represent. */
module AddressSpaces {
  import opened Common
  import opened Paging
  import opened Addresses
  import opened PageTree
  import opened PageTables
  import opened CowMachine
  import opened CowRefinement
  import CowInvariant
  import Frames

  // ----- the tables as a state of the machine

  /** A present 4 KiB entry of a space, above the shared kernel slot. */
  ghost predicate UserLeaf(t: Tree, x: Slot)
    requires Ok(t)
  {
    ValidVa(x.va) && x.va.i > 0 && x.space != t.kernel && Walk(t, x.space, x.va).Small?
  }

  ghost predicate LeavesAre(t: Tree, s: Sys)
    requires Ok(t)
  {
    forall x :: (x in s.leaf <==> UserLeaf(t, x)) && (x in s.leaf ==> s.leaf[x] == Walk(t, x.space, x.va).e)
  }

  /** The space a table counts for; the tables of `current_pml4` itself are never given back. */
  function Home(t: Tree, p: Pos): nat {
    if OwnerOf(p) == t.kernel then KERNEL else OwnerOf(p)
  }

  ghost predicate TablesAre(t: Tree, s: Sys) {
    && (forall p :: p in t.tab && t.tab[p] in s.pmm.refs ==> t.tab[p] in s.tabs && s.tabs[t.tab[p]] == Home(t, p))
    && (forall p :: p in t.tab && Home(t, p) != KERNEL ==> t.tab[p] in s.pmm.refs)
    && (forall f :: f in s.tabs ==> exists p :: p in t.tab && t.tab[p] == f)
  }

  ghost predicate Represents(t: Tree, bytes: map<nat, seq<Byte>>, pmm: Frames.Frames, s: Sys) {
    StateOk(t, pmm) && LeavesAre(t, s) && TablesAre(t, s) && s.mem == bytes && s.pmm == pmm
  }

  // ----- runs of one CPU

  ghost predicate Runs(s: Sys, t: Sys, c: nat) {
    exists n :: Alone(s, t, c, n)
  }

  lemma RunsTrans(s: Sys, m: Sys, t: Sys, c: nat)
    requires Runs(s, m, c) && Runs(m, t, c)
    ensures Runs(s, t, c)
  {
    hide Alone;
    var i :| Alone(s, m, c, i);
    var j :| Alone(m, t, c, j);
    AloneTrans(s, m, t, c, i, j);
  }

  lemma RunsStep(s: Sys, t: Sys, c: nat, a: Action)
    requires Step(s, t, c, a)
    ensures Runs(s, t, c)
  {
    AloneStep(s, t, c, a);
  }

  // ----- the machine's side of cloning one page

  ghost function PageCloned(s: Sys, src: nat, dst: nat, va: Va): Sys
    requires HasLeaf(s, src, va)
  {
    var e := Shared(s.leaf[Slot(src, va)]);
    s.(leaf := s.leaf[Slot(src, va) := e][Slot(dst, va) := e], pmm := Frames.Share(s.pmm, e.frame))
  }

  /** A step that shows nothing, as part of a run. */
  lemma QuietRun(s: Sys, s': Sys, c: nat, a: Action)
    requires Inv(s) && Step(s, s', c, a) && Quiet(a)
    ensures Inv(s') && Runs(s, s', c) && View(s') == View(s)
  {
    hide Inv, Step, View, Quiet, Alone;
    QuietView(s, s', c, a);
    StepInv(s, s', c, a);
    hide EagerStep;
    RunsStep(s, s', c, a);
  }

  ghost function PageMarked(s: Sys, c: nat, va: Va): Sys
    requires c in s.pc && s.pc[c].Cloning? && HasLeaf(s, s.pc[c].space, va)
  {
    var x := Slot(s.pc[c].space, va);
    s.(leaf := s.leaf[x := Shared(s.leaf[x])], pc := s.pc[c := Marked(s.pc[c].space, s.pc[c].child, va)])
  }

  ghost function PageLinked(s: Sys, c: nat, va: Va): Sys
    requires c in s.pc && s.pc[c].Marked? && HasLeaf(s, s.pc[c].space, va)
  {
    var y := Slot(s.pc[c].child, va);
    s.(leaf := s.leaf[y := s.leaf[Slot(s.pc[c].space, va)]], pc := s.pc[c := Linked(s.pc[c].space, s.pc[c].child, va)],
       unref := s.unref[y := c])
  }

  lemma ClonePageSteps(s: Sys, c: nat, va: Va)
    requires UnrefOk(s) && c in s.pc && s.pc[c].Cloning? && HasLeaf(s, s.pc[c].space, va) &&
      !HasLeaf(s, s.pc[c].child, va)
    ensures var s1 := PageMarked(s, c, va);
      var s2 := PageLinked(s1, c, va);
      Step(s, s1, c, AMarkShared(va)) && Step(s1, s2, c, ALinkChild) &&
      Step(s2, PageCloned(s, s.pc[c].space, s.pc[c].child, va), c, ACountChild)
  {
    PageCounts(s, c, va);
    var s1 := PageMarked(s, c, va);
    assert MarkShared(s, s1, c, va);
    assert LinkChild(s1, PageLinked(s1, c, va), c);
    hide UnrefOk, PageMarked, PageLinked, PageCloned, MarkShared, LinkChild;
  }

  lemma PageCounts(s: Sys, c: nat, va: Va)
    requires UnrefOk(s) && c in s.pc && s.pc[c].Cloning? && HasLeaf(s, s.pc[c].space, va) &&
      !HasLeaf(s, s.pc[c].child, va)
    ensures CountChild(PageLinked(PageMarked(s, c, va), c, va), PageCloned(s, s.pc[c].space, s.pc[c].child, va), c)
  {
    var s2 := PageLinked(PageMarked(s, c, va), c, va);
    var p := s.pc[c];
    var y := Slot(p.child, va);
    var t := PageCloned(s, p.space, p.child, va);
    assert y !in s.unref;
    hide UnrefOk, Frames.Share;
    assert t.unref == s2.unref - {y} && t.pc == s2.pc[c := Cloning(p.space, p.child)];
    assert t.leaf == s2.leaf;
  }

  lemma ClonePageRuns(s: Sys, c: nat, va: Va)
    requires Inv(s) && c in s.pc && s.pc[c].Cloning? && HasLeaf(s, s.pc[c].space, va) && !HasLeaf(s, s.pc[c].child, va)
    ensures var t := PageCloned(s, s.pc[c].space, s.pc[c].child, va);
      Inv(t) && Runs(s, t, c) && View(t) == View(s)
  {
    hide Inv, View, Step, Runs, UnrefOk;
    InvUnref(s);
    ClonePageSteps(s, c, va);
    var s1 := PageMarked(s, c, va);
    var s2 := PageLinked(s1, c, va);
    var t := PageCloned(s, s.pc[c].space, s.pc[c].child, va);
    hide PageMarked, PageLinked, PageCloned, HasLeaf;
    QuietRun(s, s1, c, AMarkShared(va));
    QuietRun(s1, s2, c, ALinkChild);
    QuietRun(s2, t, c, ACountChild);
    RunsTrans(s, s1, s2, c);
    RunsTrans(s, s2, t, c);
  }

  lemma InvUnref(s: Sys)
    requires Inv(s)
    ensures UnrefOk(s)
  {
  }

  // ----- the tables' side

  lemma LeafSet(t: Tree, s: Sys, x: Slot, e: Entry)
    requires Ok(t) && LeavesAre(t, s) && ValidVa(x.va) && x.va.i > 0 && x.space != t.kernel && e.flags.present &&
      !e.flags.huge
    requires P1(x.space, x.va.i, x.va.j, x.va.k) in t.tab
    ensures var p := P1(x.space, x.va.i, x.va.j, x.va.k);
      Has(t, p) && Ok(SetEntry(t, p, x.va.l, e)) && LeavesAre(SetEntry(t, p, x.va.l, e), s.(leaf := s.leaf[x := e]))
  {
    var p := P1(x.space, x.va.i, x.va.j, x.va.k);
    SetLeafOk(t, p, x.va.l, e);
    var t', s' := SetEntry(t, p, x.va.l, e), s.(leaf := s.leaf[x := e]);
    forall y
      ensures (y in s'.leaf <==> UserLeaf(t', y)) && (y in s'.leaf ==> s'.leaf[y] == Walk(t', y.space, y.va).e)
    {
      if ValidVa(y.va) {
        SetLeafWalk(t, p, x.va.l, e, y.space, y.va);
      }
      hide Walk, Ok;
    }
  }

  /** A table added for a space is a step of the machine, if a frame was taken at all. */
  ghost function Grown(s: Sys, t: Tree, q: Pos, space: nat): Sys {
    if q in t.tab || s.pmm.free == [] then s
    else s.(pmm := Frames.Take(s.pmm), tabs := s.tabs[Frames.Top(s.pmm) := space])
  }

  lemma GrownTables(t: Tree, t': Tree, pmm: Frames.Frames, s: Sys, q: Pos)
    requires TablesAre(t, s) && s.pmm == pmm && Frames.Valid(pmm) && pmm.free != [] && q !in t.tab
    requires forall p :: p in t.tab ==> t.tab[p] !in pmm.free
    requires t'.tab == t.tab[q := Frames.Top(pmm)] && t'.kernel == t.kernel && Home(t, q) == OwnerOf(q)
    ensures TablesAre(t', Grown(s, t, q, OwnerOf(q)))
  {
    Frames.TakeValid(pmm);
    assert Frames.Top(pmm) in pmm.free;
    hide Frames.Valid;
    assert Frames.Top(pmm) !in s.tabs;
    GrownPlaces(t, t', s.tabs, s.tabs[Frames.Top(pmm) := OwnerOf(q)], q, Frames.Top(pmm));
    hide Frames.Top;
  }

  /** Every table still has its place, and the new one the new place. */
  lemma GrownPlaces(t: Tree, t': Tree, tabs: map<nat, nat>, tabs': map<nat, nat>, q: Pos, n: nat)
    requires (forall f :: f in tabs ==> exists p :: p in t.tab && t.tab[p] == f) && q !in t.tab
    requires t'.tab == t.tab[q := n] && tabs'.Keys == tabs.Keys + {n}
    ensures forall f :: f in tabs' ==> exists p :: p in t'.tab && t'.tab[p] == f
  {
    forall f | f in tabs'
      ensures exists p :: p in t'.tab && t'.tab[p] == f
    {
      if f == n {
        assert t'.tab[q] == f;
      } else {
        var p :| p in t.tab && t.tab[p] == f;
        assert t'.tab[p] == f;
      }
    }
  }

  lemma GrownRepresents(t: Tree, t': Tree, bytes: map<nat, seq<Byte>>, pmm: Frames.Frames, pmm': Frames.Frames, s: Sys,
                        q: Pos)
    requires Represents(t, bytes, pmm, s) && StateOk(t', pmm') && SameWalks(t, t') && Grows(t, t', pmm, pmm', q)
    requires Home(t, q) == OwnerOf(q)
    ensures Represents(t', bytes, pmm', Grown(s, t, q, OwnerOf(q)))
  {
    hide TablesAre, Walk, Ok, Frames.Valid;
    assert LeavesAre(t', Grown(s, t, q, OwnerOf(q)));
    if !(q in t.tab || pmm.free == []) {
      hide LeavesAre, SameWalks;
      GrownTables(t, t', pmm, s, q);
    }
  }

  lemma GrownRuns(t: Tree, s: Sys, c: nat, q: Pos)
    requires Inv(s) && c in s.pc && s.pc[c].Cloning? && OwnerOf(q) == s.pc[c].child
    ensures var s' := Grown(s, t, q, OwnerOf(q));
      Inv(s') && Runs(s, s', c) && View(s') == View(s)
  {
    var s' := Grown(s, t, q, OwnerOf(q));
    hide FramesOk, Counted, Exclusive, RootsOk, UnrefOk, PcsOk, View;
    if s' == s {
      assert Alone(s, s, c, 0);
    } else {
      assert OwnsAlone(s, c);
      assert Grow(s, s', c, OwnerOf(q));
      hide Inv;
      QuietRun(s, s', c, AGrow(OwnerOf(q)));
    }
  }

  // ----- how far cloning has come

  /** The number of the first page below the tables at these indices. */
  function Base(i: nat, j: nat, k: nat): nat {
    i * 0x800_0000 + j * 0x4_0000 + k * 0x200
  }

  /** The child has exactly the parent's pages before page number `cur`, and none from there on. */
  ghost predicate DoneTo(s: Sys, src: nat, dst: nat, cur: nat) {
    forall va: Va :: (Slot(dst, va) in s.leaf ==> PageNo(va) < cur) &&
                     (Slot(src, va) in s.leaf && PageNo(va) < cur ==> Slot(dst, va) in s.leaf)
  }

  /** What the run has not changed since it began: nothing a program sees, the frames entries name, the live
      spaces, what the other CPUs are doing, and the tables of other spaces. */
  ghost predicate Since(s0: Sys, s: Sys, c: nat, dst: nat) {
    && Runs(s0, s, c) && View(s) == View(s0) && s.live == s0.live && c in s.pc && s.pc == s0.pc[c := s.pc[c]]
    && (forall x :: x in s0.leaf ==> x in s.leaf && s.leaf[x].frame == s0.leaf[x].frame)
    && (forall x :: x in s.leaf ==> x in s0.leaf || x.space == dst)
    && (forall f :: f in s0.tabs ==> f in s.tabs && s.tabs[f] == s0.tabs[f])
    && (forall f :: f in s.tabs && f !in s0.tabs ==> s.tabs[f] == dst)
  }

  /** The places of a space's tables, with the owner left out. */
  ghost function Shape(t: Tree, r: nat): set<Pos> {
    set p | p in t.tab && OwnerOf(p) == r :: Unowned(p)
  }

  function Unowned(p: Pos): Pos {
    match p
    case P4(_) => P4(0)
    case P3(_, i) => P3(0, i)
    case P2(_, i, j) => P2(0, i, j)
    case P1(_, i, j, k) => P1(0, i, j, k)
  }

  /** The child's tables mirror some of the parent's, and there is a frame for each of the others. */
  ghost predicate Budget(t: Tree, pmm: Frames.Frames, src: nat, dst: nat) {
    Shape(t, dst) <= Shape(t, src) && |pmm.free| + |Shape(t, dst)| >= |Shape(t, src)|
  }

  ghost predicate NoHuge(t: Tree, r: nat)
    requires Ok(t)
  {
    forall va :: ValidVa(va) && va.i > 0 ==> !Walk(t, r, va).Large?
  }

  ghost predicate SameTables(t0: Tree, t: Tree, r: nat) {
    forall p :: OwnerOf(p) == r ==> (p in t.tab <==> p in t0.tab) && (p in t0.tab ==> t.tab[p] == t0.tab[p])
  }

  ghost predicate Copies(t0: Tree, s0: Sys, t: Tree, bytes: map<nat, seq<Byte>>, pmm: Frames.Frames, s: Sys, c: nat,
                         src: nat, dst: nat) {
    && Represents(t, bytes, pmm, s) && Inv(s) && c in s.pc && s.pc[c] == Cloning(src, dst)
    && Ok(t) && P4(src) in t.tab && P4(dst) in t.tab && src != dst && src != t.kernel && dst != t.kernel && src != 0
    && dst != 0
    && NoHuge(t, src) && NoHuge(t, dst) && SameTables(t0, t, src) && Budget(t, pmm, src, dst) && Since(s0, s, c, dst)
    && dst !in s0.tabs
  }

  // ----- one page

  lemma LeafNotHuge(t: Tree, s: Sys, x: Slot)
    requires Ok(t) && LeavesAre(t, s) && x in s.leaf
    ensures !s.leaf[x].flags.huge
  {
    hide Ok, Walk;
    assert UserLeaf(t, x);
    SmallNotHuge(t, x.space, x.va);
  }

  lemma CopyPageLeaves(t: Tree, s: Sys, src: nat, dst: nat, va: Va)
    requires Ok(t) && LeavesAre(t, s) && ValidVa(va) && va.i > 0 && src != dst && src != t.kernel && dst != t.kernel
    requires P1(src, va.i, va.j, va.k) in t.tab && P1(dst, va.i, va.j, va.k) in t.tab && HasLeaf(s, src, va)
    ensures var t' := PageCopied(t, src, dst, va, Shared(s.leaf[Slot(src, va)]));
      Ok(t') && LeavesAre(t', PageCloned(s, src, dst, va)) && t'.tab == t.tab && t'.kernel == t.kernel &&
      (forall f :: f in t.tables && |t.tables[f]| == ENTRIES ==> f in t'.tables && |t'.tables[f]| == ENTRIES)
  {
    hide Walk, LeavesAre, Ok;
    LeafNotHuge(t, s, Slot(src, va));
    var e := Shared(s.leaf[Slot(src, va)]);
    LeafSet(t, s, Slot(src, va), e);
    var t1, s1 := SetEntry(t, P1(src, va.i, va.j, va.k), va.l, e), s.(leaf := s.leaf[Slot(src, va) := e]);
    LeafSet(t1, s1, Slot(dst, va), e);
    SameLeaves(PageCopied(t, src, dst, va, e), s1.(leaf := s1.leaf[Slot(dst, va) := e]), PageCloned(s, src, dst, va));
  }

  lemma CopyPageRepresents(t: Tree, bytes: map<nat, seq<Byte>>, pmm: Frames.Frames, s: Sys, src: nat, dst: nat, va: Va)
    requires Represents(t, bytes, pmm, s) && ValidVa(va) && va.i > 0 && src != dst && src != t.kernel && dst != t.kernel
    requires P1(src, va.i, va.j, va.k) in t.tab && P1(dst, va.i, va.j, va.k) in t.tab && HasLeaf(s, src, va)
    requires s.leaf[Slot(src, va)].frame in pmm.refs && pmm.refs[s.leaf[Slot(src, va)].frame] > 0
    ensures var e := Shared(s.leaf[Slot(src, va)]);
      Represents(PageCopied(t, src, dst, va, e), bytes, Frames.Share(pmm, e.frame), PageCloned(s, src, dst, va))
  {
    hide Frames.Valid, Walk, Ok, LeavesAre, PageCopied;
    Frames.ShareValid(pmm, s.leaf[Slot(src, va)].frame);
    CopyPageLeaves(t, s, src, dst, va);
  }

  lemma SameLeaves(t: Tree, s: Sys, s': Sys)
    requires Ok(t) && LeavesAre(t, s) && s'.leaf == s.leaf
    ensures LeavesAre(t, s')
  {
  }

  ghost function PageCopied(t: Tree, src: nat, dst: nat, va: Va, e: Entry): Tree
    requires Ok(t) && ValidVa(va) && P1(src, va.i, va.j, va.k) in t.tab && P1(dst, va.i, va.j, va.k) in t.tab
  {
    var t1 := SetEntry(t, P1(src, va.i, va.j, va.k), va.l, e);
    assert Has(t, P1(dst, va.i, va.j, va.k));
    SetEntry(t1, P1(dst, va.i, va.j, va.k), va.l, e)
  }

  lemma EntryCounted(s: Sys, x: Slot)
    requires Inv(s) && x in s.leaf
    ensures s.leaf[x].frame in s.pmm.refs && s.pmm.refs[s.leaf[x].frame] > 0
  {
    hide Exclusive, RootsOk, OwnersOk, PcsOk, UnrefOk, Holders, Frames.Valid;
    CowInvariant.LeafFrameHeld(s, x);
  }

  lemma CopyPageNoHuge(t: Tree, src: nat, dst: nat, va: Va, e: Entry, r: nat)
    requires Ok(t) && ValidVa(va) && P1(src, va.i, va.j, va.k) in t.tab && P1(dst, va.i, va.j, va.k) in t.tab
    requires e.flags.present && !e.flags.huge && Ok(PageCopied(t, src, dst, va, e)) && NoHuge(t, r)
    ensures NoHuge(PageCopied(t, src, dst, va, e), r)
  {
    assert Has(t, P1(src, va.i, va.j, va.k));
    SetLeafOk(t, P1(src, va.i, va.j, va.k), va.l, e);
    var t1 := SetEntry(t, P1(src, va.i, va.j, va.k), va.l, e);
    assert Has(t1, P1(dst, va.i, va.j, va.k));
    forall vb | ValidVa(vb) && vb.i > 0
      ensures !Walk(PageCopied(t, src, dst, va, e), r, vb).Large?
    {
      hide Ok, Walk;
      SetLeafWalk(t, P1(src, va.i, va.j, va.k), va.l, e, r, vb);
      SetLeafWalk(t1, P1(dst, va.i, va.j, va.k), va.l, e, r, vb);
    }
  }

  lemma SinceStep(s0: Sys, s: Sys, s': Sys, c: nat, dst: nat)
    requires Since(s0, s, c, dst) && Since(s, s', c, dst)
    ensures Since(s0, s', c, dst)
  {
    hide Runs, View;
    RunsTrans(s0, s, s', c);
  }

  /** One page copied. */
  lemma CopyPage(t0: Tree, s0: Sys, t: Tree, bytes: map<nat, seq<Byte>>, pmm: Frames.Frames, s: Sys, c: nat, src: nat,
                 dst: nat, va: Va)
    requires Copies(t0, s0, t, bytes, pmm, s, c, src, dst) && DoneTo(s, src, dst, PageNo(va)) && ValidVa(va) && va.i > 0
    requires P1(src, va.i, va.j, va.k) in t.tab && P1(dst, va.i, va.j, va.k) in t.tab && HasLeaf(s, src, va)
    ensures var e := Shared(s.leaf[Slot(src, va)]);
      Copies(t0, s0, PageCopied(t, src, dst, va, e), bytes, Frames.Share(pmm, e.frame), PageCloned(s, src, dst, va), c,
             src, dst) &&
      PageCopied(t, src, dst, va, e).tab == t.tab && DoneTo(PageCloned(s, src, dst, va), src, dst, PageNo(va) + 1)
  {
    hide Inv, View, Runs, NoHuge, Represents, Budget, SameTables, Since, Ok, PageCopied;
    var x := Slot(src, va);
    var e := Shared(s.leaf[x]);
    EntryCounted(s, x);
    ClonePageRuns(s, c, va);
    assert Represents(t, bytes, pmm, s) && s.pmm == pmm by { Parts(t, bytes, pmm, s); }
    CopyPageRepresents(t, bytes, pmm, s, src, dst, va);
    var t', s' := PageCopied(t, src, dst, va, e), PageCloned(s, src, dst, va);
    Parts(t', bytes, Frames.Share(pmm, e.frame), s');
    CopyPageTab(t, src, dst, va, e);
    assert !e.flags.huge by { PartsNotHuge(t, bytes, pmm, s, x); }
    CopyPageNoHuge(t, src, dst, va, e, src);
    CopyPageNoHuge(t, src, dst, va, e, dst);
    assert Since(s, s', c, dst) by { PageClonedSince(s, c, src, dst, va); }
    SinceStep(s0, s, s', c, dst);
    assert SameTables(t0, t', src) by { SameTab(t0, t, t', pmm, Frames.Share(pmm, e.frame), src, dst); }
    assert Budget(t', Frames.Share(pmm, e.frame), src, dst) by { SameTab(t0, t, t', pmm, Frames.Share(pmm, e.frame),
        src, dst); }
    CopiedDone(s, src, dst, va);
  }

  lemma Parts(t: Tree, bytes: map<nat, seq<Byte>>, pmm: Frames.Frames, s: Sys)
    requires Represents(t, bytes, pmm, s)
    ensures Ok(t) && s.pmm == pmm && s.mem == bytes && forall x :: x in s.leaf ==> ValidVa(x.va) && x.va.i > 0
  {
  }

  lemma PartsNotHuge(t: Tree, bytes: map<nat, seq<Byte>>, pmm: Frames.Frames, s: Sys, x: Slot)
    requires Represents(t, bytes, pmm, s) && x in s.leaf
    ensures !s.leaf[x].flags.huge
  {
    LeafNotHuge(t, s, x);
  }

  lemma CopyPageTab(t: Tree, src: nat, dst: nat, va: Va, e: Entry)
    requires Ok(t) && ValidVa(va) && P1(src, va.i, va.j, va.k) in t.tab && P1(dst, va.i, va.j, va.k) in t.tab
    ensures PageCopied(t, src, dst, va, e).tab == t.tab && PageCopied(t, src, dst, va, e).kernel == t.kernel
  {
  }

  lemma SameTab(t0: Tree, t: Tree, t': Tree, pmm: Frames.Frames, pmm': Frames.Frames, src: nat, dst: nat)
    requires t'.tab == t.tab && pmm'.free == pmm.free && SameTables(t0, t, src) && Budget(t, pmm, src, dst)
    ensures SameTables(t0, t', src) && Budget(t', pmm', src, dst)
  {
    assert Shape(t', src) == Shape(t, src) && Shape(t', dst) == Shape(t, dst);
  }

  lemma PageClonedSince(s: Sys, c: nat, src: nat, dst: nat, va: Va)
    requires c in s.pc && HasLeaf(s, src, va) && Runs(s, PageCloned(s, src, dst, va), c) &&
      View(PageCloned(s, src, dst, va)) == View(s)
    requires !HasLeaf(s, dst, va)
    ensures Since(s, PageCloned(s, src, dst, va), c, dst)
  {
    hide Runs, View;
  }

  lemma CopiedDone(s: Sys, src: nat, dst: nat, va: Va)
    requires DoneTo(s, src, dst, PageNo(va)) && HasLeaf(s, src, va) && ValidVa(va)
    requires forall x :: x in s.leaf ==> ValidVa(x.va)
    ensures DoneTo(PageCloned(s, src, dst, va), src, dst, PageNo(va) + 1)
  {
    forall vb: Va | ValidVa(vb)
      ensures PageNo(vb) == PageNo(va) <==> vb == va
    {
      PageUnique(va, vb);
    }
    hide PageNo;
  }

  // ----- one table

  lemma ShapeAdd(t: Tree, t': Tree, q: Pos, f: nat, r: nat)
    requires t'.tab == t.tab[q := f] && q !in t.tab
    ensures Shape(t', r) == Shape(t, r) + (if OwnerOf(q) == r then {Unowned(q)} else {})
    ensures OwnerOf(q) == r ==> Unowned(q) !in Shape(t, r)
  {
  }

  lemma Fewer<T>(a: set<T>, b: set<T>, x: T)
    requires a <= b && x in b && x !in a
    ensures |a| < |b|
  {
    assert b == (b - a - {x}) + (a + {x});
    assert |b| == |b - a - {x}| + |a + {x}|;
  }

  /** The budget covers the child's next table, and stays balanced when it is taken. */
  lemma BudgetStep(t: Tree, t': Tree, pmm: Frames.Frames, pmm': Frames.Frames, src: nat, dst: nat, q: Pos)
    requires Budget(t, pmm, src, dst) && Grows(t, t', pmm, pmm', q) && OwnerOf(q) == dst && src != dst
    requires Unowned(q) in Shape(t, src)
    ensures q in t.tab || pmm.free != []
    ensures Budget(t', pmm', src, dst)
  {
    if q !in t.tab {
      assert Unowned(q) !in Shape(t, dst) by {
        NotInShape(t, q, dst);
      }
      Fewer(Shape(t, dst), Shape(t, src), Unowned(q));
      ShapeAdd(t, t', q, Frames.Top(pmm), dst);
      ShapeAdd(t, t', q, Frames.Top(pmm), src);
      hide Shape;
    }
  }

  lemma NotInShape(t: Tree, q: Pos, r: nat)
    requires q !in t.tab && OwnerOf(q) == r
    ensures Unowned(q) !in Shape(t, r)
  {
  }

  lemma TopNotTable(s: Sys)
    requires Inv(s) && s.pmm.free != []
    ensures Frames.Top(s.pmm) !in s.tabs
  {
    hide Inv;
    CowInvariant.TopUnheld(s);
  }

  lemma GrownSince(t: Tree, s: Sys, c: nat, dst: nat, q: Pos)
    requires Inv(s) && c in s.pc && OwnerOf(q) == dst && Runs(s, Grown(s, t, q, dst), c) &&
      View(Grown(s, t, q, dst)) == View(s)
    ensures Since(s, Grown(s, t, q, dst), c, dst)
  {
    hide Inv, Runs, View;
    if s.pmm.free != [] {
      TopNotTable(s);
    }
  }

  lemma WalksNoHuge(t: Tree, t': Tree, r: nat)
    requires Ok(t) && Ok(t') && SameWalks(t, t') && NoHuge(t, r)
    ensures NoHuge(t', r)
  {
    hide Walk, Ok;
  }

  lemma GrowsSame(t0: Tree, t: Tree, t': Tree, pmm: Frames.Frames, pmm': Frames.Frames, q: Pos, r: nat)
    requires SameTables(t0, t, r) && Grows(t, t', pmm, pmm', q) && OwnerOf(q) != r
    ensures SameTables(t0, t', r) && t'.kernel == t.kernel && forall p :: p in t.tab ==> p in t'.tab
  {
  }

  /** One table of the child made to mirror one of the parent's. */
  lemma CopyTable(t0: Tree, s0: Sys, t: Tree, t': Tree, bytes: map<nat, seq<Byte>>, pmm: Frames.Frames,
                  pmm': Frames.Frames, s: Sys,
                  c: nat, src: nat, dst: nat, q: Pos)
    requires Copies(t0, s0, t, bytes, pmm, s, c, src, dst) && OwnerOf(q) == dst && Unowned(q) in Shape(t, src)
    requires StateOk(t', pmm') && SameWalks(t, t') && Grows(t, t', pmm, pmm', q)
    ensures q in t.tab || pmm.free != []
    ensures Copies(t0, s0, t', bytes, pmm', Grown(s, t, q, dst), c, src, dst)
    ensures Grown(s, t, q, dst).leaf == s.leaf
  {
    hide Inv, View, Runs, NoHuge, Represents, Budget, SameTables, Since, Ok, Grows, SameWalks, Shape, Frames.Valid;
    BudgetStep(t, t', pmm, pmm', src, dst, q);
    GrownRepresents(t, t', bytes, pmm, pmm', s, q);
    GrownRuns(t, s, c, q);
    GrownSince(t, s, c, dst, q);
    SinceStep(s0, s, Grown(s, t, q, dst), c, dst);
    StateTree(t', pmm');
    WalksNoHuge(t, t', src);
    WalksNoHuge(t, t', dst);
    GrowsSame(t0, t, t', pmm, pmm', q, src);
  }

  /** Pages the parent does not have need no work. */
  lemma SkipTo(s: Sys, src: nat, dst: nat, cur: nat, next: nat)
    requires DoneTo(s, src, dst, cur) && cur <= next
    requires forall va: Va :: Slot(src, va) in s.leaf ==> PageNo(va) < cur || next <= PageNo(va)
    ensures DoneTo(s, src, dst, next)
  {
    hide PageNo;
  }

  // ----- the four loops

  /** What the tables say about the entry of one page. */
  lemma EntryAt(t: Tree, s: Sys, r: nat, va: Va)
    requires Ok(t) && LeavesAre(t, s) && ValidVa(va) && va.i > 0 && r != t.kernel && NoHuge(t, r)
    requires P1(r, va.i, va.j, va.k) in t.tab
    ensures var p := P1(r, va.i, va.j, va.k);
      Has(t, p) && (At(t, p, va.l).flags.present <==> HasLeaf(s, r, va)) &&
      (HasLeaf(s, r, va) ==> s.leaf[Slot(r, va)] == At(t, p, va.l))
  {
    var p := P1(r, va.i, va.j, va.k);
    assert PlaceOk(t, p) && Has(t, p) && Has(t, P2(r, va.i, va.j));
    assert !Walk(t, r, va).Large?;
  }

  lemma CopiedTables(t: Tree, src: nat, dst: nat, va: Va, words: map<nat, seq<Entry>>)
    requires Ok(t) && ValidVa(va) && P1(src, va.i, va.j, va.k) in t.tab && P1(dst, va.i, va.j, va.k) in t.tab &&
      src != dst
    requires Has(t, P1(src, va.i, va.j, va.k)) && Has(t, P1(dst, va.i, va.j, va.k))
    requires var a, b := t.tab[P1(src, va.i, va.j, va.k)], t.tab[P1(dst, va.i, va.j, va.k)];
      var e := t.tables[a][va.l];
      e.flags.present &&
      words == (if e.flags.writable then t.tables[a := t.tables[a][va.l := Shared(e)]]
                else t.tables)[b := t.tables[b][va.l := Shared(e)]]
    ensures t.tab[P1(src, va.i, va.j, va.k)] != t.tab[P1(dst, va.i, va.j, va.k)]
    ensures words == PageCopied(t, src, dst, va, Shared(t.tables[t.tab[P1(src, va.i, va.j, va.k)]][va.l])).tables
  {
    var a := t.tab[P1(src, va.i, va.j, va.k)];
    assert a != t.tab[P1(dst, va.i, va.j, va.k)];
    hide Ok;
    var e := t.tables[a][va.l];
    if !e.flags.writable {
      assert Shared(e) == e && t.tables[a][va.l := e] == t.tables[a] && t.tables[a := t.tables[a]] == t.tables;
    }
  }

  /** The last level: share every page of one page table. */
  method ClonePt(vm: Vmm, srcPt: nat, dstPt: nat, i: nat, j: nat, k: nat,
                 ghost c: nat, ghost src: nat, ghost dst: nat, ghost t0: Tree, ghost s0: Sys, ghost s: Sys)
      returns (ghost s': Sys)
    requires Copies(t0, s0, vm.T(), vm.bytes, vm.pmm, s, c, src, dst) && DoneTo(s, src, dst, Base(i, j, k))
    requires 0 < i < ENTRIES && j < ENTRIES && k < ENTRIES
    requires P1(src, i, j, k) in vm.tab && vm.tab[P1(src, i, j, k)] == srcPt
    requires P1(dst, i, j, k) in vm.tab && vm.tab[P1(dst, i, j, k)] == dstPt
    modifies vm`tables, vm`pmm
    ensures Copies(t0, s0, vm.T(), vm.bytes, vm.pmm, s', c, src, dst) && DoneTo(s', src, dst, Base(i, j, k + 1))
    ensures vm.tab == old(vm.tab)
  {
    hide Copies, DoneTo, Ok, Represents, StateOk, LeavesAre, NoHuge, PageCopied, PageCloned;
    s' := s;
    for l := 0 to ENTRIES
      invariant vm.tab == old(vm.tab)
      invariant Copies(t0, s0, vm.T(), vm.bytes, vm.pmm, s', c, src, dst) && DoneTo(s', src, dst, Base(i, j, k) + l)
    {
      ghost var t, va := vm.T(), Va(i, j, k, l);
      assert PageNo(va) == Base(i, j, k) + l;
      CopiesParts(t0, s0, t, vm.bytes, vm.pmm, s', c, src, dst);
      EntryAt(t, s', src, va);
      assert Has(t, P1(dst, i, j, k)) by { OkHas(t, P1(dst, i, j, k)); }
      var e := vm.tables[srcPt][l];
      if e.flags.present {
        var phys, flags := e.frame, e.flags;
        var words := vm.tables;
        if flags.writable {
          flags := flags.(writable := false, cow := true);
          words := words[srcPt := words[srcPt][l := Entry(phys, flags.(present := true))]];
        }
        assert srcPt != dstPt by { OkDistinct(t, P1(src, i, j, k), P1(dst, i, j, k)); }
        words := words[dstPt := words[dstPt][l := Entry(phys, flags.(present := true))]];
        assert Entry(phys, flags.(present := true)) == Shared(e);
        CopiedTables(t, src, dst, va, words);
        CopyPage(t0, s0, t, vm.bytes, vm.pmm, s', c, src, dst, va);
        CopyPageTab(t, src, dst, va, Shared(e));
        vm.tables := words;
        vm.pmm := Frames.Share(vm.pmm, phys);
        s' := PageCloned(s', src, dst, va);
      } else {
        SkipPage(s', src, dst, va);
      }
    }
  }

  lemma SkipPage(s: Sys, src: nat, dst: nat, va: Va)
    requires DoneTo(s, src, dst, PageNo(va)) && !HasLeaf(s, src, va) && ValidVa(va)
    requires forall x :: x in s.leaf ==> ValidVa(x.va)
    ensures DoneTo(s, src, dst, PageNo(va) + 1)
  {
    forall vb: Va | ValidVa(vb)
      ensures PageNo(vb) == PageNo(va) <==> vb == va
    {
      PageUnique(va, vb);
    }
    hide PageNo;
  }

  lemma CopiesParts(t0: Tree, s0: Sys, t: Tree, bytes: map<nat, seq<Byte>>, pmm: Frames.Frames, s: Sys, c: nat,
                    src: nat, dst: nat)
    requires Copies(t0, s0, t, bytes, pmm, s, c, src, dst)
    ensures Ok(t) && StateOk(t, pmm) && LeavesAre(t, s) && NoHuge(t, src) && NoHuge(t, dst) && src != dst &&
      src != t.kernel && dst != t.kernel
    ensures forall x :: x in s.leaf ==> ValidVa(x.va) && x.va.i > 0
    ensures P4(src) in t.tab && P4(dst) in t.tab && SameTables(t0, t, src) && s.pmm == pmm
  {
    hide Inv, Ok, NoHuge, Since, Budget, SameTables;
    Parts(t, bytes, pmm, s);
  }

  lemma OkHas(t: Tree, p: Pos)
    requires Ok(t) && p in t.tab
    ensures Has(t, p)
  {
  }

  lemma OkDistinct(t: Tree, p: Pos, q: Pos)
    requires Ok(t) && p in t.tab && q in t.tab && p != q
    ensures t.tab[p] != t.tab[q]
  {
  }

  /** Reading an upper-level entry of the parent: it leads to a table, or nothing is mapped below it. */
  lemma UpperEntry(t: Tree, r: nat, p: Pos, n: nat)
    requires Ok(t) && p in t.tab && !p.P1? && n < ENTRIES && OwnerOf(p) == r && (p.P4? ==> n > 0) &&
      (p.P2? || p.P3? ==> p.i > 0)
    requires NoHuge(t, r)
    ensures Has(t, p) && OwnerOf(Child(p, n)) == r
    ensures p.P2? ==> !At(t, p, n).flags.huge
    ensures if At(t, p, n).flags.present then Child(p, n) in t.tab && t.tab[Child(p, n)] == At(t, p, n).frame &&
      At(t, p, n).frame != 0
            else Child(p, n) !in t.tab
  {
    if p.P2? {
      assert PlaceOk(t, p) && PlaceOk(t, P3(p.owner, p.i));
      assert !Walk(t, r, Va(p.i, p.j, n, 0)).Large?;
    }
    EntryRead(t, p, n);
  }

  /** Below a place without a table there are no pages. */
  lemma NothingBelow(t: Tree, s: Sys, r: nat, i: nat, j: nat, k: nat)
    requires Ok(t) && LeavesAre(t, s) && i > 0 && r != t.kernel
    ensures P1(r, i, j, k) !in t.tab ==> forall va: Va :: Slot(r, va) in s.leaf ==> va.i != i || va.j != j || va.k != k
    ensures P2(r, i, j) !in t.tab ==> forall va: Va :: Slot(r, va) in s.leaf ==> va.i != i || va.j != j
    ensures P3(r, i) !in t.tab ==> forall va: Va :: Slot(r, va) in s.leaf ==> va.i != i
  {
    forall va: Va | Slot(r, va) in s.leaf
      ensures va.i == i ==> P3(r, i) in t.tab
      ensures va.i == i && va.j == j ==> P2(r, i, j) in t.tab
      ensures va.i == i && va.j == j && va.k == k ==> P1(r, i, j, k) in t.tab
    {
      assert UserLeaf(t, Slot(r, va));
      assert PlaceOk(t, P2(r, va.i, va.j));
    }
  }

  lemma SkipTable1(s: Sys, src: nat, dst: nat, i: nat, j: nat, k: nat)
    requires DoneTo(s, src, dst, Base(i, j, k)) && i < ENTRIES && j < ENTRIES && k < ENTRIES
    requires forall x :: x in s.leaf ==> ValidVa(x.va)
    requires forall va: Va :: Slot(src, va) in s.leaf ==> va.i != i || va.j != j || va.k != k
    ensures DoneTo(s, src, dst, Base(i, j, k + 1))
  {
    forall va: Va | Slot(src, va) in s.leaf
      ensures PageNo(va) < Base(i, j, k) || Base(i, j, k + 1) <= PageNo(va)
    {
      assert ValidVa(Slot(src, va).va);
    }
    SkipTo(s, src, dst, Base(i, j, k), Base(i, j, k + 1));
  }

  lemma SkipTable2(s: Sys, src: nat, dst: nat, i: nat, j: nat)
    requires DoneTo(s, src, dst, Base(i, j, 0)) && i < ENTRIES && j < ENTRIES
    requires forall x :: x in s.leaf ==> ValidVa(x.va)
    requires forall va: Va :: Slot(src, va) in s.leaf ==> va.i != i || va.j != j
    ensures DoneTo(s, src, dst, Base(i, j + 1, 0))
  {
    forall va: Va | Slot(src, va) in s.leaf
      ensures PageNo(va) < Base(i, j, 0) || Base(i, j + 1, 0) <= PageNo(va)
    {
      assert ValidVa(Slot(src, va).va);
    }
    SkipTo(s, src, dst, Base(i, j, 0), Base(i, j + 1, 0));
  }

  lemma SkipTable3(s: Sys, src: nat, dst: nat, i: nat)
    requires DoneTo(s, src, dst, Base(i, 0, 0)) && i < ENTRIES
    requires forall x :: x in s.leaf ==> ValidVa(x.va)
    requires forall va: Va :: Slot(src, va) in s.leaf ==> va.i != i
    ensures DoneTo(s, src, dst, Base(i + 1, 0, 0))
  {
    forall va: Va | Slot(src, va) in s.leaf
      ensures PageNo(va) < Base(i, 0, 0) || Base(i + 1, 0, 0) <= PageNo(va)
    {
      assert ValidVa(Slot(src, va).va);
    }
    SkipTo(s, src, dst, Base(i, 0, 0), Base(i + 1, 0, 0));
  }

  lemma InShape(t: Tree, p: Pos, r: nat)
    requires p in t.tab && OwnerOf(p) == r
    ensures Unowned(p) in Shape(t, r)
  {
  }

  /** The third level: a page table of the child for each of the parent's. */
  method ClonePd(vm: Vmm, srcPd: nat, dstPd: nat, i: nat, j: nat,
                 ghost c: nat, ghost src: nat, ghost dst: nat, ghost t0: Tree, ghost s0: Sys, ghost s: Sys)
      returns (ghost s': Sys)
    requires Copies(t0, s0, vm.T(), vm.bytes, vm.pmm, s, c, src, dst) && DoneTo(s, src, dst, Base(i, j, 0))
    requires 0 < i < ENTRIES && j < ENTRIES
    requires P2(src, i, j) in vm.tab && vm.tab[P2(src, i, j)] == srcPd
    requires P2(dst, i, j) in vm.tab && vm.tab[P2(dst, i, j)] == dstPd
    modifies vm`tables, vm`pmm, vm`tab
    ensures Copies(t0, s0, vm.T(), vm.bytes, vm.pmm, s', c, src, dst) && DoneTo(s', src, dst, Base(i, j + 1, 0))
    ensures forall p :: p in old(vm.tab) ==> p in vm.tab && vm.tab[p] == old(vm.tab)[p]
  {
    hide Copies, DoneTo, Ok, Represents, StateOk, LeavesAre, NoHuge, PageCopied, PageCloned, SameWalks, Shape,
         SameTables, Base;
    s' := s;
    for k := 0 to ENTRIES
      invariant forall p :: p in old(vm.tab) ==> p in vm.tab && vm.tab[p] == old(vm.tab)[p]
      invariant Copies(t0, s0, vm.T(), vm.bytes, vm.pmm, s', c, src, dst) && DoneTo(s', src, dst, Base(i, j, k))
    {
      ghost var t, pmm := vm.T(), vm.pmm;
      CopiesParts(t0, s0, t, vm.bytes, pmm, s', c, src, dst);
      UpperEntry(t, src, P2(src, i, j), k);
      UpperEntry(t, dst, P2(dst, i, j), k);
      var e := vm.tables[srcPd][k];
      if e.flags.present {
        InShape(t, P1(src, i, j, k), src);
        var dstPt := vm.EnsureNextTable(dstPd, k, P2(dst, i, j));
        CopyTable(t0, s0, t, vm.T(), vm.bytes, pmm, vm.pmm, s', c, src, dst, P1(dst, i, j, k));
        TableKept(t, vm.T(), pmm, vm.pmm, P1(dst, i, j, k));
        DoneSame(s', Grown(s', t, P1(dst, i, j, k), dst), src, dst, Base(i, j, k));
        s' := Grown(s', t, P1(dst, i, j, k), dst);
        s' := ClonePt(vm, e.frame, dstPt, i, j, k, c, src, dst, t0, s0, s');
      } else {
        NothingBelow(t, s', src, i, j, k);
        SkipTable1(s', src, dst, i, j, k);
      }
    }
    BaseCarry(i, j);
  }

  lemma DoneSame(s: Sys, s': Sys, src: nat, dst: nat, cur: nat)
    requires DoneTo(s, src, dst, cur) && s'.leaf == s.leaf
    ensures DoneTo(s', src, dst, cur)
  {
  }

  lemma BaseCarry(i: nat, j: nat)
    ensures Base(i, j, ENTRIES) == Base(i, j + 1, 0) && Base(i, ENTRIES, 0) == Base(i + 1, 0, 0)
  {
  }

  lemma TableKept(t: Tree, t': Tree, pmm: Frames.Frames, pmm': Frames.Frames, q: Pos)
    requires Grows(t, t', pmm, pmm', q)
    ensures forall p :: p in t.tab ==> p in t'.tab && t'.tab[p] == t.tab[p]
  {
  }

  /** The second level. */
  method ClonePdpt(vm: Vmm, srcPdpt: nat, dstPdpt: nat, i: nat,
                   ghost c: nat, ghost src: nat, ghost dst: nat, ghost t0: Tree, ghost s0: Sys, ghost s: Sys)
      returns (ghost s': Sys)
    requires Copies(t0, s0, vm.T(), vm.bytes, vm.pmm, s, c, src, dst) && DoneTo(s, src, dst, Base(i, 0, 0))
    requires 0 < i < ENTRIES
    requires P3(src, i) in vm.tab && vm.tab[P3(src, i)] == srcPdpt
    requires P3(dst, i) in vm.tab && vm.tab[P3(dst, i)] == dstPdpt
    modifies vm`tables, vm`pmm, vm`tab
    ensures Copies(t0, s0, vm.T(), vm.bytes, vm.pmm, s', c, src, dst) && DoneTo(s', src, dst, Base(i + 1, 0, 0))
    ensures forall p :: p in old(vm.tab) ==> p in vm.tab && vm.tab[p] == old(vm.tab)[p]
  {
    hide Copies, DoneTo, Ok, Represents, StateOk, LeavesAre, NoHuge, SameWalks, Shape, SameTables, Base;
    s' := s;
    for j := 0 to ENTRIES
      invariant forall p :: p in old(vm.tab) ==> p in vm.tab && vm.tab[p] == old(vm.tab)[p]
      invariant Copies(t0, s0, vm.T(), vm.bytes, vm.pmm, s', c, src, dst) && DoneTo(s', src, dst, Base(i, j, 0))
    {
      ghost var t, pmm := vm.T(), vm.pmm;
      CopiesParts(t0, s0, t, vm.bytes, pmm, s', c, src, dst);
      UpperEntry(t, src, P3(src, i), j);
      UpperEntry(t, dst, P3(dst, i), j);
      var e := vm.tables[srcPdpt][j];
      if e.flags.present {
        InShape(t, P2(src, i, j), src);
        var dstPd := vm.EnsureNextTable(dstPdpt, j, P3(dst, i));
        CopyTable(t0, s0, t, vm.T(), vm.bytes, pmm, vm.pmm, s', c, src, dst, P2(dst, i, j));
        TableKept(t, vm.T(), pmm, vm.pmm, P2(dst, i, j));
        DoneSame(s', Grown(s', t, P2(dst, i, j), dst), src, dst, Base(i, j, 0));
        s' := Grown(s', t, P2(dst, i, j), dst);
        s' := ClonePd(vm, e.frame, dstPd, i, j, c, src, dst, t0, s0, s');
      } else {
        NothingBelow(t, s', src, i, j, 0);
        SkipTable2(s', src, dst, i, j);
      }
    }
    BaseCarry(i, 0);
  }

  // ----- whole spaces

  /** The state of a space that can be cloned, destroyed or faulted on: its tables represent `s`, CPU `c` runs
      it or nothing, and it has no 2 MiB pages of its own. */
  ghost predicate Ready(t: Tree, bytes: map<nat, seq<Byte>>, pmm: Frames.Frames, s: Sys, c: nat, r: nat) {
    && Represents(t, bytes, pmm, s) && Inv(s) && c in s.pc && r in s.live && r != t.kernel && Ok(t) && NoHuge(t, r)
  }

  lemma ReadyInv(t: Tree, bytes: map<nat, seq<Byte>>, pmm: Frames.Frames, s: Sys, c: nat, r: nat)
    requires Ready(t, bytes, pmm, s, c, r)
    ensures Represents(t, bytes, pmm, s) && s.pmm == pmm && Inv(s) && c in s.pc
  {
  }

  /** A fresh root: nothing but the shared kernel slot. */
  ghost function AddRoot(t: Tree, f: nat): Tree
    requires Has(t, P4(t.kernel))
  {
    t.(tables := t.tables[f := ZeroTable()[0 := At(t, P4(t.kernel), 0)]], tab := t.tab[P4(f) := f])
  }

  lemma NoSuchRoot(t: Tree, f: nat)
    requires Ok(t) && forall p :: p in t.tab ==> t.tab[p] != f
    ensures forall p :: p in t.tab && OwnerOf(p) == f ==> f == 0
  {
    forall p | p in t.tab && OwnerOf(p) == f
      ensures f == 0
    {
      assert PlaceOk(t, p);
      if p.P1? {
        assert PlaceOk(t, P2(p.owner, p.i, p.j)) && PlaceOk(t, P3(p.owner, p.i));
      } else if p.P2? {
        assert PlaceOk(t, P3(p.owner, p.i));
      }
    }
  }

  /** Frame `f` holds no table. */
  ghost predicate Spare(t: Tree, f: nat) {
    f != 0 && forall p :: p in t.tab ==> t.tab[p] != f && OwnerOf(p) != f
  }

  lemma AddRootLink(t: Tree, f: nat, q: Pos, n: nat)
    requires Ok(t) && Spare(t, f) && Has(t, P4(t.kernel)) && q in AddRoot(t, f).tab && n < ENTRIES
    ensures LinkOk(AddRoot(t, f), q, n)
  {
    assert LinkOk(t, P4(t.kernel), 0);
    if q in t.tab {
      assert LinkOk(t, q, n);
    } else if n > 0 {
      assert Child(q, n) !in t.tab;
    }
  }

  lemma AddRootPlaces(t: Tree, f: nat)
    requires Ok(t) && Spare(t, f) && Has(t, P4(t.kernel))
    ensures PlacesOk(AddRoot(t, f)) && OnePlace(AddRoot(t, f))
  {
    hide LinksOk;
    var t' := AddRoot(t, f);
    forall q | q in t'.tab
      ensures Has(t', q) && t'.tab[q] != 0 && PlaceOk(t', q)
    {
      assert q in t.tab ==> Has(t, q) && PlaceOk(t, q);
    }
  }

  lemma AddRootOk(t: Tree, f: nat)
    requires Ok(t) && Spare(t, f)
    ensures Has(t, P4(t.kernel)) && Ok(AddRoot(t, f))
  {
    assert Has(t, P4(t.kernel));
    var t' := AddRoot(t, f);
    AddRootPlaces(t, f);
    hide LinkOk, PlacesOk, OnePlace;
    forall q, n: nat | q in t'.tab && n < ENTRIES
      ensures LinkOk(t', q, n)
    {
      AddRootLink(t, f, q, n);
    }
  }

  lemma AddRootWalk(t: Tree, f: nat, r: nat, va: Va)
    requires Ok(t) && Spare(t, f) && Has(t, P4(t.kernel)) && Ok(AddRoot(t, f)) && ValidVa(va)
    ensures Walk(AddRoot(t, f), r, va) == Walk(t, r, va)
    ensures va.i > 0 ==> Walk(t, f, va).Absent?
  {
    var o := Owner(r, va.i);
    assert P2(f, va.i, va.j) !in t.tab;
    if P2(o, va.i, va.j) in t.tab {
      assert Has(t, P2(o, va.i, va.j));
      if P1(o, va.i, va.j, va.k) in t.tab {
        assert Has(t, P1(o, va.i, va.j, va.k));
      }
    }
  }

  lemma AddRootWalks(t: Tree, f: nat)
    requires Ok(t) && Spare(t, f) && Has(t, P4(t.kernel)) && Ok(AddRoot(t, f))
    ensures SameWalks(t, AddRoot(t, f)) && NoHuge(AddRoot(t, f), f)
  {
    hide Ok, Walk, AddRoot, Spare;
    forall r, va | ValidVa(va)
      ensures Walk(AddRoot(t, f), r, va) == Walk(t, r, va) && (va.i > 0 ==> Walk(t, f, va).Absent?)
    {
      AddRootWalk(t, f, r, va);
    }
  }

  /** A live space has its root. */
  lemma LiveRoot(t: Tree, s: Sys, r: nat)
    requires Ok(t) && TablesAre(t, s) && RootsOk(s) && FramesOk(s) && r in s.live && r != t.kernel
    ensures P4(r) in t.tab && r != 0
  {
    assert IsRoot(s, r);
    var p :| p in t.tab && t.tab[p] == r;
    assert PlaceOk(t, p);
    if p.P1? {
      assert PlaceOk(t, P2(p.owner, p.i, p.j)) && PlaceOk(t, P3(p.owner, p.i));
    } else if p.P2? {
      assert PlaceOk(t, P3(p.owner, p.i));
    }
  }

  ghost function CloneBegun(s: Sys, c: nat, src: nat): Sys
    requires s.pmm.free != []
  {
    var f := Frames.Top(s.pmm);
    s.(pmm := Frames.Take(s.pmm), tabs := s.tabs[f := f], pc := s.pc[c := Cloning(src, f)])
  }

  lemma CloneBegins(s: Sys, c: nat, src: nat)
    requires Inv(s) && c in s.pc && s.pc[c] == User(src) && s.pmm.free != []
    requires forall x :: x in s.leaf ==> ValidVa(x.va) && x.va.i > 0
    ensures Inv(CloneBegun(s, c, src)) && Since(s, CloneBegun(s, c, src), c, Frames.Top(s.pmm))
    ensures DoneTo(CloneBegun(s, c, src), src, Frames.Top(s.pmm), Base(1, 0, 0))
    ensures src != Frames.Top(s.pmm) && Frames.Top(s.pmm) !in s.tabs
  {
    hide FramesOk, Counted, Exclusive, UnrefOk, OwnersOk, PcsOk, Runs, View;
    var s' := CloneBegun(s, c, src);
    assert PcOk(s, c) by { PcAt(s, c); }
    TopNotTable(s);
    assert Step(s, s', c, ABeginClone);
    QuietRun(s, s', c, ABeginClone);
  }

  lemma PcAt(s: Sys, c: nat)
    requires Inv(s) && c in s.pc
    ensures PcOk(s, c)
  {
  }

  lemma BegunTables(t: Tree, t': Tree, s: Sys, c: nat, src: nat)
    requires TablesAre(t, s) && Frames.Valid(s.pmm) && s.pmm.free != [] && Spare(t, Frames.Top(s.pmm))
    requires t'.tab == t.tab[P4(Frames.Top(s.pmm)) := Frames.Top(s.pmm)] && t'.kernel == t.kernel &&
      Frames.Top(s.pmm) != t.kernel
    ensures TablesAre(t', CloneBegun(s, c, src))
  {
    Frames.TakeValid(s.pmm);
    hide Frames.Valid;
    var f, s' := Frames.Top(s.pmm), CloneBegun(s, c, src);
    assert P4(f) !in t.tab;
    forall g | g in s'.tabs
      ensures exists p :: p in t'.tab && t'.tab[p] == g
    {
      if g == f {
        assert t'.tab[P4(f)] == g;
      } else {
        var p :| p in t.tab && t.tab[p] == g;
        assert t'.tab[p] == g;
      }
    }
  }

  lemma BegunBudget(t: Tree, t': Tree, pmm: Frames.Frames, src: nat)
    requires P4(src) in t.tab && pmm.free != [] && |pmm.free| >= |Shape(t, src)| && src != Frames.Top(pmm)
    requires Spare(t, Frames.Top(pmm)) && t'.tab == t.tab[P4(Frames.Top(pmm)) := Frames.Top(pmm)]
    ensures Budget(t', Frames.Take(pmm), src, Frames.Top(pmm))
  {
    var f := Frames.Top(pmm);
    ShapeAdd(t, t', P4(f), f, src);
    ShapeAdd(t, t', P4(f), f, f);
    assert Shape(t, f) == {};
    InShape(t, P4(src), src);
    hide Shape;
    assert Shape(t', f) == {P4(0)};
  }

  lemma ShapeNonempty(t: Tree, src: nat)
    requires P4(src) in t.tab
    ensures |Shape(t, src)| > 0
  {
    InShape(t, P4(src), src);
    hide Shape;
  }

  lemma TopSpare(t: Tree, pmm: Frames.Frames)
    requires StateOk(t, pmm) && pmm.free != []
    ensures Spare(t, Frames.Top(pmm)) && Frames.Top(pmm) != t.kernel
  {
    Frames.TakeValid(pmm);
    var f := Frames.Top(pmm);
    assert f in pmm.free;
    hide Frames.Valid;
    assert forall p :: p in t.tab ==> t.tab[p] != f;
    NoSuchRoot(t, f);
    assert PlaceOk(t, P4(t.kernel));
  }

  lemma CloneStart(t: Tree, bytes: map<nat, seq<Byte>>, pmm: Frames.Frames, s: Sys, c: nat, src: nat)
    requires Ready(t, bytes, pmm, s, c, src) && s.pc[c] == User(src) && |pmm.free| >= |Shape(t, src)|
    ensures pmm.free != [] && s.pmm == pmm && StateOk(t, pmm)
    ensures var f := Frames.Top(pmm);
      f != 0 && Ok(t) && Has(t, P4(t.kernel)) && (StateOk(AddRoot(t, f), Frames.Take(pmm)) ==>
        Copies(AddRoot(t, f), s, AddRoot(t, f), bytes, Frames.Take(pmm), CloneBegun(s, c, src), c, src, f)) &&
      DoneTo(CloneBegun(s, c, src), src, f, Base(1, 0, 0))
  {
    hide Inv, Walk, Ok, Shape, DoneTo, Since, Runs, View, AddRoot, Budget, NoHuge, StateOk;
    Parts(t, bytes, pmm, s);
    ReadyRoot(t, bytes, pmm, s, c, src);
    ShapeNonempty(t, src);
    var f := Frames.Top(pmm);
    assert StateOk(t, pmm) && Frames.Valid(pmm) by { StateParts(t, bytes, pmm, s); }
    TopSpare(t, pmm);
    AddRootOk(t, f);
    AddRootWalks(t, f);
    AddRootTab(t, f);
    CloneBegins(s, c, src);
    BegunTables(t, AddRoot(t, f), s, c, src);
    BegunBudget(t, AddRoot(t, f), pmm, src);
    WalksNoHuge(t, AddRoot(t, f), src);
    BegunLeaves(t, AddRoot(t, f), s, c, src);
  }

  lemma ReadyRoot(t: Tree, bytes: map<nat, seq<Byte>>, pmm: Frames.Frames, s: Sys, c: nat, r: nat)
    requires Ready(t, bytes, pmm, s, c, r)
    ensures P4(r) in t.tab && r != 0
  {
    hide Counted, Exclusive, UnrefOk, OwnersOk, PcsOk, LeavesAre, TablesAre;
    LiveRoot(t, s, r);
  }

  lemma StateParts(t: Tree, bytes: map<nat, seq<Byte>>, pmm: Frames.Frames, s: Sys)
    requires Represents(t, bytes, pmm, s)
    ensures StateOk(t, pmm) && Frames.Valid(pmm)
  {
  }

  lemma AddRootTab(t: Tree, f: nat)
    requires Has(t, P4(t.kernel))
    ensures AddRoot(t, f).tab == t.tab[P4(f) := f] && AddRoot(t, f).kernel == t.kernel
  {
  }

  lemma BegunLeaves(t: Tree, t': Tree, s: Sys, c: nat, src: nat)
    requires Ok(t) && Ok(t') && SameWalks(t, t') && LeavesAre(t, s) && s.pmm.free != [] && t'.kernel == t.kernel
    ensures LeavesAre(t', CloneBegun(s, c, src))
  {
    hide Ok, Walk;
  }

  /** `vmm_create_address_space`: a new root that sees the kernel slot and nothing else, or 0. */
  method CreateAddressSpace(vm: Vmm) returns (root: nat)
    requires vm.Valid()
    modifies vm`tables, vm`pmm, vm`tab
    ensures vm.Valid() && (root == 0 <==> old(vm.pmm).free == [])
    ensures root == 0 ==> vm.T() == old(vm.T()) && vm.pmm == old(vm.pmm)
    ensures root != 0 ==>
      root == Frames.Top(old(vm.pmm)) && vm.pmm == Frames.Take(old(vm.pmm)) &&
      Has(old(vm.T()), P4(vm.kernel)) && vm.T() == AddRoot(old(vm.T()), root)
    ensures SameWalks(old(vm.T()), vm.T())
  {
    hide Ok, Walk, SameWalks, Frames.Valid;
    ghost var t := vm.T();
    WalksRefl(t);
    root := vm.AllocZeroedTable();
    if root == 0 {
      return;
    }
    TopSpare(t, old(vm.pmm));
    AddRootOk(t, root);
    AddRootWalks(t, root);
    Frames.TakeValid(old(vm.pmm));
    KernelRoot(t);
    assert vm.kernel != root;
    var shared := vm.tables[vm.kernel][0];
    vm.tables := vm.tables[root := vm.tables[root][0 := shared]];
    vm.tab := vm.tab[P4(root) := root];
    assert vm.T().tables == AddRoot(t, root).tables;
    hide AddRoot;
  }

  lemma KernelRoot(t: Tree)
    requires Ok(t)
    ensures P4(t.kernel) in t.tab && t.tab[P4(t.kernel)] == t.kernel && Has(t, P4(t.kernel))
  {
    assert PlaceOk(t, P4(t.kernel));
  }

  /** The whole of a clone, as seen by every program: the child has the parent's pages, and nothing else has
      changed. */
  ghost predicate CloneDone(t: Tree, bytes: map<nat, seq<Byte>>, pmm: Frames.Frames, s0: Sys, s: Sys, c: nat, src: nat,
                            dst: nat) {
    && Represents(t, bytes, pmm, s) && Inv(s) && Runs(s0, s, c) && c in s.pc && s.pc[c] == User(src)
    && s.pc == s0.pc[c := User(src)]
    && dst != 0 && dst !in s0.tabs && dst !in s0.live && s.live == s0.live + {dst} && dst != t.kernel
    && EagerStep(View(s0), View(s), Forked(src, dst))
    && (forall x :: x in s0.leaf ==> x in s.leaf && s.leaf[x].frame == s0.leaf[x].frame)
    && (forall x :: x in s.leaf ==> x in s0.leaf || x.space == dst)
    && (forall f :: f in s0.tabs ==> f in s.tabs && s.tabs[f] == s0.tabs[f])
    && (forall f :: f in s.tabs && f !in s0.tabs ==> s.tabs[f] == dst)
    && Ok(t) && NoHuge(t, dst) && NoHuge(t, src)
  }

  ghost function CloneEnded(s: Sys, c: nat, src: nat, dst: nat): Sys {
    s.(live := s.live + {dst}, pc := s.pc[c := User(src)])
  }

  lemma CloneEnds(t0: Tree, s0: Sys, t: Tree, bytes: map<nat, seq<Byte>>, pmm: Frames.Frames, s: Sys, c: nat, src: nat,
                  dst: nat)
    requires Copies(t0, s0, t, bytes, pmm, s, c, src, dst) && DoneTo(s, src, dst, Base(ENTRIES, 0, 0))
    ensures EndClone(s, CloneEnded(s, c, src, dst), c)
  {
    hide Inv, View, Runs, Ok, NoHuge, Budget, SameTables;
    Parts(t, bytes, pmm, s);
    hide Represents;
    forall va | HasLeaf(s, src, va)
      ensures HasLeaf(s, dst, va)
    {
      assert ValidVa(Slot(src, va).va);
    }
  }

  lemma CloneFinishes(t0: Tree, s0: Sys, t: Tree, bytes: map<nat, seq<Byte>>, pmm: Frames.Frames, s: Sys, c: nat,
                      src: nat, dst: nat)
    requires Copies(t0, s0, t, bytes, pmm, s, c, src, dst) && DoneTo(s, src, dst, Base(ENTRIES, 0, 0))
    ensures CloneDone(t, bytes, pmm, s0, CloneEnded(s, c, src, dst), c, src, dst)
  {
    hide Inv, View, Runs, Ok, NoHuge, Budget, SameTables, EagerStep, DoneTo, LeavesAre, StateOk, TablesAre;
    var s' := CloneEnded(s, c, src, dst);
    CloneEnds(t0, s0, t, bytes, pmm, s, c, src, dst);
    StepInv(s, s', c, AEndClone);
    EndCloneView(s, s', c);
    RunsStep(s, s', c, AEndClone);
    RunsTrans(s0, s, s', c);
    assert dst !in s.live by { ChildNotLive(s, c); }
    SameLeaves(t, s, s');
    assert TablesAre(t, s') by { SameTabs(t, s, s'); }
    hide EndClone;
  }

  lemma SameTabs(t: Tree, s: Sys, s': Sys)
    requires TablesAre(t, s) && s'.tabs == s.tabs && s'.pmm.refs.Keys == s.pmm.refs.Keys
    ensures TablesAre(t, s')
  {
  }

  lemma ChildNotLive(s: Sys, c: nat)
    requires Inv(s) && c in s.pc && s.pc[c].Cloning?
    ensures s.pc[c].child !in s.live
  {
    PcAt(s, c);
  }

  /** `vmm_clone_address_space`, given a frame for each table of the parent: every program sees exactly an
      eager copy of the whole space, made at once. */
  method CloneAddressSpace(vm: Vmm, src: nat, ghost c: nat, ghost s: Sys) returns (dst: nat, ghost s': Sys)
    requires Ready(vm.T(), vm.bytes, vm.pmm, s, c, src) && s.pc[c] == User(src) && |vm.pmm.free| >= |Shape(vm.T(), src)|
    modifies vm`tables, vm`pmm, vm`tab
    ensures CloneDone(vm.T(), vm.bytes, vm.pmm, s, s', c, src, dst)
  {
    hide Ready, Copies, CloneDone, DoneTo, Ok, Represents, StateOk, LeavesAre, NoHuge, SameWalks, Shape, SameTables,
         Base, AddRoot, CloneBegun, Inv;
    CloneStart(vm.T(), vm.bytes, vm.pmm, s, c, src);
    dst := CreateAddressSpace(vm);
    s' := CloneBegun(s, c, src);
    ghost var t0 := vm.T();
    for i := 1 to ENTRIES
      invariant Copies(t0, s, vm.T(), vm.bytes, vm.pmm, s', c, src, dst) && DoneTo(s', src, dst, Base(i, 0, 0))
    {
      ghost var t, pmm := vm.T(), vm.pmm;
      CopiesParts(t0, s, t, vm.bytes, pmm, s', c, src, dst);
      UpperEntry(t, src, P4(src), i);
      UpperEntry(t, dst, P4(dst), i);
      RootTable(t, src);
      RootTable(t, dst);
      var e := vm.tables[src][i];
      if e.flags.present {
        InShape(t, P3(src, i), src);
        var dstPdpt := vm.EnsureNextTable(dst, i, P4(dst));
        CopyTable(t0, s, t, vm.T(), vm.bytes, pmm, vm.pmm, s', c, src, dst, P3(dst, i));
        TableKept(t, vm.T(), pmm, vm.pmm, P3(dst, i));
        DoneSame(s', Grown(s', t, P3(dst, i), dst), src, dst, Base(i, 0, 0));
        s' := Grown(s', t, P3(dst, i), dst);
        s' := ClonePdpt(vm, e.frame, dstPdpt, i, c, src, dst, t0, s, s');
      } else {
        NothingBelow(t, s', src, i, 0, 0);
        SkipTable3(s', src, dst, i);
      }
    }
    CloneFinishes(t0, s, vm.T(), vm.bytes, vm.pmm, s', c, src, dst);
    s' := CloneEnded(s', c, src, dst);
  }
}
