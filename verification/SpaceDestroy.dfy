/** Destroying an address space on the real page tables: every leaf frame and every table frame of the
    space is given up once, and nothing else is. */
module SpaceDestroy {
  import opened Common
  import opened Paging
  import opened Addresses
  import opened PageTree
  import opened PageTables
  import opened CowMachine
  import opened CowRefinement
  import opened AddressSpaces
  import Frames

  // ----- the order in which the loops free things

  /** The page number the loops stand at when they free the table. */
  function End(p: Pos): nat {
    match p
    case P4(_) => Base(ENTRIES, 0, 0)
    case P3(_, i) => Base(i + 1, 0, 0)
    case P2(_, i, j) => Base(i, j + 1, 0)
    case P1(_, i, j, k) => Base(i, j, k + 1)
  }

  function Level(p: Pos): (l: nat)
    ensures 1 <= l <= 4
  {
    match p
    case P4(_) => 4
    case P3(_, _) => 3
    case P2(_, _, _) => 2
    case P1(_, _, _, _) => 1
  }

  /** The loops have freed the table when they stand at page `cur`, done with the tables up to `lvl` there. */
  predicate Freed(p: Pos, cur: nat, lvl: nat) {
    End(p) < cur || (End(p) == cur && Level(p) <= lvl)
  }

  ghost predicate LeavesLeft(t: Tree, s: Sys, r: nat, cur: nat)
    requires Ok(t)
  {
    forall x :: (x in s.leaf <==> UserLeaf(t, x) && (x.space == r ==> cur <= PageNo(x.va))) &&
                (x in s.leaf ==> s.leaf[x] == Walk(t, x.space, x.va).e)
  }

  ghost predicate TableLeft(t: Tree, s: Sys, r: nat, cur: nat, lvl: nat, p: Pos)
    requires p in t.tab
  {
    if OwnerOf(p) == r then
      (t.tab[p] in s.tabs <==> !Freed(p, cur, lvl)) && (t.tab[p] in s.tabs ==> s.tabs[t.tab[p]] == r)
    else
      (t.tab[p] in s.pmm.refs ==> t.tab[p] in s.tabs && s.tabs[t.tab[p]] == Home(t, p)) &&
      (Home(t, p) != KERNEL ==> t.tab[p] in s.pmm.refs)
  }

  ghost predicate TablesLeft(t: Tree, s: Sys, r: nat, cur: nat, lvl: nat) {
    && (forall p :: p in t.tab ==> TableLeft(t, s, r, cur, lvl, p))
    && (forall f :: f in s.tabs ==> exists p :: p in t.tab && t.tab[p] == f)
  }

  /** The tree of a space that can be destroyed. */
  ghost predicate Doomed(t: Tree, r: nat) {
    Ok(t) && NoHuge(t, r) && r != t.kernel && r != KERNEL && P4(r) in t.tab
  }

  /** What the loops keep: `s` is on its way from `s0`, and the space has lost its pages and tables so far. */
  ghost predicate Dying(t: Tree, s0: Sys, s: Sys, c: nat, r: nat, cur: nat, lvl: nat) {
    && Doomed(t, r) && Inv(s) && c in s.pc && s.pc == s0.pc[c := Destroying(r)] && s.mem == s0.mem
    && s.pmm.refs.Keys == s0.pmm.refs.Keys && s.live == s0.live - {r}
    && Runs(s0, s, c) && EagerStep(View(s0), View(s), Destroyed(r))
    && LeavesLeft(t, s, r, cur) && TablesLeft(t, s, r, cur, lvl)
  }

  // ----- arithmetic of the order

  ghost predicate Placed(p: Pos) {
    match p
    case P4(_) => true
    case P3(_, i) => i < ENTRIES
    case P2(_, i, j) => i < ENTRIES && j < ENTRIES
    case P1(_, i, j, k) => i < ENTRIES && j < ENTRIES && k < ENTRIES
  }

  lemma IsPlaced(t: Tree, p: Pos)
    requires Ok(t) && p in t.tab
    ensures Placed(p)
  {
    assert PlaceOk(t, p);
    if p.P1? {
      assert PlaceOk(t, P2(p.owner, p.i, p.j)) && PlaceOk(t, P3(p.owner, p.i));
    } else if p.P2? {
      assert PlaceOk(t, P3(p.owner, p.i));
    }
  }

  /** Tables are freed at different times. */
  lemma EndUnique(p: Pos, q: Pos)
    requires Placed(p) && Placed(q)
    ensures End(p) == End(q) && Level(p) == Level(q) && OwnerOf(p) == OwnerOf(q) ==> p == q
  {
  }

  /** Only page-table boundaries matter, and within a directory only level 1. */
  lemma EndAligned(p: Pos)
    requires Placed(p)
    ensures End(p) % 512 == 0
    ensures Level(p) >= 2 ==> End(p) % 0x4_0000 == 0
    ensures Level(p) >= 3 ==> End(p) % 0x800_0000 == 0
  {
    match p
    case P4(_) => Multiples(End(p), ENTRIES * 0x4_0000);
    case P3(_, i) => Multiples(End(p), (i + 1) * 0x4_0000);
    case P2(_, i, j) => Multiples(End(p), (i * 512 + (j + 1)) * 512);
    case P1(_, i, j, k) => Multiples(End(p), i * 0x4_0000 + j * 512 + (k + 1));
  }

  /** A multiple of 512 is one of its square and cube if the quotient is one of 512 and its square. */
  lemma Multiples(x: nat, q: nat)
    requires x == q * 512
    ensures x % 512 == 0
    ensures q % 512 == 0 ==> x % 0x4_0000 == 0
    ensures q % 0x4_0000 == 0 ==> x % 0x800_0000 == 0
  {
    var a, b := q / 512, q / 0x4_0000;
    assert q % 512 == 0 ==> q == a * 512 && x == a * 0x4_0000;
    assert q % 0x4_0000 == 0 ==> q == b * 0x4_0000 && x == b * 0x800_0000;
  }

  /** A page between two boundaries. */
  lemma FreedWithin(p: Pos, cur: nat)
    requires Placed(p) && cur < Base(ENTRIES, 0, 0)
    ensures Freed(p, cur, 3) <==> Freed(p, cur + 1, 0)
    ensures cur % 512 != 0 ==> (Freed(p, cur, 0) <==> Freed(p, cur, 3))
    ensures cur % 0x4_0000 != 0 ==> (Freed(p, cur, 1) <==> Freed(p, cur, 3))
    ensures cur % 0x800_0000 != 0 ==> (Freed(p, cur, 2) <==> Freed(p, cur, 3))
  {
    EndAligned(p);
  }

  // ----- steps

  lemma DyingStep(t: Tree, s0: Sys, s: Sys, s': Sys, c: nat, r: nat, cur: nat, lvl: nat, cur': nat, lvl': nat,
                  a: Action)
    requires Dying(t, s0, s, c, r, cur, lvl) && Step(s, s', c, a) && Quiet(a)
    requires s'.pc == s.pc && s'.mem == s.mem && s'.live == s.live && s'.pmm.refs.Keys == s.pmm.refs.Keys
    requires Doomed(t, r) && Ok(t) && LeavesLeft(t, s', r, cur') && TablesLeft(t, s', r, cur', lvl')
    ensures Dying(t, s0, s', c, r, cur', lvl')
  {
    hide Doomed, Inv, Runs, EagerStep, View, LeavesLeft, TablesLeft, Step, Quiet;
    QuietRun(s, s', c, a);
    RunsTrans(s0, s, s', c);
  }

  lemma OkOfDoomed(t: Tree, r: nat)
    requires Doomed(t, r)
    ensures Ok(t) && NoHuge(t, r) && r != t.kernel && r != KERNEL && P4(r) in t.tab && t.tab[P4(r)] == r
  {
    RootTable(t, r);
  }

  lemma DropKeys(pmm: Frames.Frames, f: nat)
    ensures Frames.Drop(pmm, f).refs.Keys == pmm.refs.Keys
  {
  }

  /** The page at `cur` is given up. */
  lemma LeafFreed(t: Tree, s0: Sys, s: Sys, c: nat, r: nat, va: Va)
    requires Dying(t, s0, s, c, r, PageNo(va), 3) && ValidVa(va) && HasLeaf(s, r, va)
    ensures var s' := s.(pmm := Frames.Drop(s.pmm, s.leaf[Slot(r, va)].frame), leaf := s.leaf - {Slot(r, va)});
      Dying(t, s0, s', c, r, PageNo(va) + 1, 0)
  {
    hide Inv, Runs, EagerStep, View, UserLeaf, Walk, Ok, NoHuge, Freed, End, PageNo;
    var s' := s.(pmm := Frames.Drop(s.pmm, s.leaf[Slot(r, va)].frame), leaf := s.leaf - {Slot(r, va)});
    OkOfDoomed(t, r);
    DropKeys(s.pmm, s.leaf[Slot(r, va)].frame);
    assert FreeLeaf(s, s', c, va);
    PageBound(va);
    assert LeavesLeft(t, s', r, PageNo(va) + 1) by {
      LeavesOn(t, s, s', r, va);
    }
    assert TablesLeft(t, s', r, PageNo(va) + 1, 0) by {
      TablesOn(t, s, s', r, PageNo(va), 3, PageNo(va) + 1, 0);
    }
    hide LeavesLeft, TablesLeft, Doomed;
    DyingStep(t, s0, s, s', c, r, PageNo(va), 3, PageNo(va) + 1, 0, AFreeLeaf(va));
  }

  lemma PageBound(va: Va)
    requires ValidVa(va)
    ensures PageNo(va) < Base(ENTRIES, 0, 0)
  {
  }

  lemma LeavesOn(t: Tree, s: Sys, s': Sys, r: nat, va: Va)
    requires Ok(t) && LeavesLeft(t, s, r, PageNo(va)) && ValidVa(va)
    requires s'.leaf == s.leaf - {Slot(r, va)}
    ensures LeavesLeft(t, s', r, PageNo(va) + 1)
  {
    hide Walk, Ok;
    forall vb: Va | ValidVa(vb)
      ensures PageNo(vb) == PageNo(va) <==> vb == va
    {
      PageUnique(va, vb);
    }
    hide PageNo;
  }

  /** Moving on without freeing a table: no table of the space is freed in between. */
  lemma TablesOn(t: Tree, s: Sys, s': Sys, r: nat, cur: nat, lvl: nat, cur': nat, lvl': nat)
    requires Ok(t) && TablesLeft(t, s, r, cur, lvl) && s'.tabs == s.tabs && s'.pmm.refs.Keys == s.pmm.refs.Keys
    requires cur < Base(ENTRIES, 0, 0) && lvl == 3 && cur' == cur + 1 && lvl' == 0
    ensures TablesLeft(t, s', r, cur', lvl')
  {
    hide Ok, Freed, Home;
    forall p | p in t.tab
      ensures TableLeft(t, s', r, cur', lvl', p)
    {
      IsPlaced(t, p);
      FreedWithin(p, cur);
      assert TableLeft(t, s, r, cur, lvl, p);
    }
  }

  /** Nothing of the space stands between two positions of the loops. */
  lemma Moved(t: Tree, s0: Sys, s: Sys, c: nat, r: nat, cur: nat, lvl: nat, cur': nat, lvl': nat)
    requires Dying(t, s0, s, c, r, cur, lvl) && cur <= cur'
    requires forall p :: p in t.tab && OwnerOf(p) == r ==> (Freed(p, cur, lvl) <==> Freed(p, cur', lvl'))
    requires forall va: Va :: Slot(r, va) in s.leaf ==> cur' <= PageNo(va)
    ensures Dying(t, s0, s, c, r, cur', lvl')
  {
    hide Inv, Runs, EagerStep, View, UserLeaf, Walk, Ok, NoHuge, Freed, PageNo, Home;
    OkOfDoomed(t, r);
    assert LeavesLeft(t, s, r, cur');
    forall p | p in t.tab
      ensures TableLeft(t, s, r, cur', lvl', p)
    {
      assert TableLeft(t, s, r, cur, lvl, p);
    }
  }

  /** The table whose turn it is, other than the root, is given up. */
  lemma TableFreed(t: Tree, s0: Sys, s: Sys, c: nat, r: nat, p: Pos)
    requires Level(p) < 4 && Dying(t, s0, s, c, r, End(p), Level(p) - 1) && p in t.tab && OwnerOf(p) == r
    ensures var s' := s.(pmm := Frames.Drop(s.pmm, t.tab[p]), tabs := s.tabs - {t.tab[p]});
      Dying(t, s0, s', c, r, End(p), Level(p))
  {
    hide Inv, Runs, EagerStep, View, UserLeaf, Walk, NoHuge, PageNo, LeavesLeft, End, Placed, Ok;
    var f := t.tab[p];
    var s' := s.(pmm := Frames.Drop(s.pmm, f), tabs := s.tabs - {f});
    OkOfDoomed(t, r);
    DropKeys(s.pmm, f);
    assert TableLeft(t, s, r, End(p), Level(p) - 1, p);
    assert f != r by { OkDistinct(t, p, P4(r)); }
    assert FreeTable(s, s', c, f);
    assert LeavesLeft(t, s', r, End(p)) by { LeavesSame(t, s, s', r, End(p)); }
    assert TablesLeft(t, s', r, End(p), Level(p)) by { TableGone(t, s, s', r, p); }
    hide TablesLeft, Doomed;
    assert s'.pc == s.pc;
    DyingStep(t, s0, s, s', c, r, End(p), Level(p) - 1, End(p), Level(p), AFreeTable(f));
  }

  lemma LeavesSame(t: Tree, s: Sys, s': Sys, r: nat, cur: nat)
    requires Ok(t) && LeavesLeft(t, s, r, cur) && s'.leaf == s.leaf
    ensures LeavesLeft(t, s', r, cur)
  {
  }

  lemma TableGone(t: Tree, s: Sys, s': Sys, r: nat, p: Pos)
    requires Ok(t) && Level(p) < 4 && TablesLeft(t, s, r, End(p), Level(p) - 1) && p in t.tab && OwnerOf(p) == r
    requires s'.tabs == s.tabs - {t.tab[p]} && s'.pmm.refs.Keys == s.pmm.refs.Keys
    ensures TablesLeft(t, s', r, End(p), Level(p))
  {
    hide Home, End, Level, Placed;
    forall q | q in t.tab
      ensures TableLeft(t, s', r, End(p), Level(p), q)
    {
      assert TableLeft(t, s, r, End(p), Level(p) - 1, q);
      if q != p {
        OkDistinct(t, p, q);
        if OwnerOf(q) == r {
          IsPlaced(t, p);
          IsPlaced(t, q);
          EndUnique(p, q);
        }
      }
    }
  }

  // ----- skipping what is not there

  lemma NoLeafBefore(t: Tree, s: Sys, r: nat, cur: nat)
    requires Ok(t) && LeavesLeft(t, s, r, cur)
    ensures forall va: Va :: Slot(r, va) in s.leaf ==>
      ValidVa(va) && va.i > 0 && cur <= PageNo(va) && UserLeaf(t, Slot(r, va))
  {
    hide Ok, Walk, PageNo;
    forall va: Va | Slot(r, va) in s.leaf
      ensures ValidVa(va) && va.i > 0 && cur <= PageNo(va) && UserLeaf(t, Slot(r, va))
    {
      assert UserLeaf(t, Slot(r, va));
    }
  }

  /** The tables a mapped page hangs from. */
  lemma LeafTables(t: Tree, r: nat, va: Va)
    requires Ok(t) && UserLeaf(t, Slot(r, va))
    ensures P1(r, va.i, va.j, va.k) in t.tab && P2(r, va.i, va.j) in t.tab && P3(r, va.i) in t.tab
  {
    assert PlaceOk(t, P1(r, va.i, va.j, va.k)) && PlaceOk(t, P2(r, va.i, va.j));
  }

  lemma Up(t: Tree, p: Pos)
    requires Ok(t) && p in t.tab
    ensures p.P1? ==> P2(p.owner, p.i, p.j) in t.tab && P3(p.owner, p.i) in t.tab
    ensures p.P2? ==> P3(p.owner, p.i) in t.tab
  {
    assert PlaceOk(t, p);
    if p.P1? {
      assert PlaceOk(t, P2(p.owner, p.i, p.j));
    }
  }

  /** The number of a page table, in the order of the loops. */
  function PtNo(i: nat, j: nat, k: nat): nat {
    i * 0x4_0000 + j * 512 + k
  }

  lemma PtUnique(i: nat, j: nat, k: nat, i': nat, j': nat, k': nat)
    requires j < 512 && k < 512 && j' < 512 && k' < 512
    ensures PtNo(i, j, k) == PtNo(i', j', k') <==> i == i' && j == j' && k == k'
  {
    assert PtNo(i, j, k) / 512 == i * 512 + j && PtNo(i', j', k') / 512 == i' * 512 + j';
  }

  lemma SkipOtherPt(p: Pos, i: nat, j: nat, k: nat)
    requires Placed(p) && p.P1? && j < ENTRIES && k < ENTRIES && !(p.i == i && p.j == j && p.k == k)
    ensures Freed(p, Base(i, j, k), 3) <==> Freed(p, Base(i, j, k + 1), 1)
  {
    var m, n := PtNo(p.i, p.j, p.k), PtNo(i, j, k);
    PtUnique(p.i, p.j, p.k, i, j, k);
    assert End(p) == (m + 1) * 512 && Base(i, j, k) == n * 512 && Base(i, j, k + 1) == (n + 1) * 512;
    hide PtNo, Base, End, Placed;
  }

  lemma SkipHigher(p: Pos, i: nat, j: nat, k: nat)
    requires Placed(p) && !p.P1? && i < ENTRIES && j < ENTRIES && k < ENTRIES
    ensures Freed(p, Base(i, j, k), 3) <==> Freed(p, Base(i, j, k + 1), 1)
  {
    EndAligned(p);
    var n := PtNo(i, j, k);
    PtBases(i, j, k);
    assert p.P4? ==> End(p) == 0x800_0000 * 512;
    var e := End(p) / 512;
    assert End(p) == e * 512;
    hide PtNo, Base, End, Placed;
  }

  lemma PtBases(i: nat, j: nat, k: nat)
    requires i < ENTRIES && j < ENTRIES && k < ENTRIES
    ensures var n := PtNo(i, j, k);
      Base(i, j, k) == n * 512 && Base(i, j, k + 1) == (n + 1) * 512 && n < 0x800_0000
  {
  }

  lemma SkipPt(p: Pos, i: nat, j: nat, k: nat)
    requires Placed(p) && i < ENTRIES && j < ENTRIES && k < ENTRIES && !(p.P1? && p.i == i && p.j == j && p.k == k)
    ensures Freed(p, Base(i, j, k), 3) <==> Freed(p, Base(i, j, k + 1), 1)
  {
    hide Freed, Base, Placed;
    if p.P1? {
      SkipOtherPt(p, i, j, k);
    } else {
      SkipHigher(p, i, j, k);
    }
  }

  lemma SkipPtPages(va: Va, i: nat, j: nat, k: nat)
    requires ValidVa(va) && i < ENTRIES && j < ENTRIES && k < ENTRIES && !(va.i == i && va.j == j && va.k == k)
    requires Base(i, j, k) <= PageNo(va)
    ensures Base(i, j, k + 1) <= PageNo(va)
  {
    PageUnique(va, Va(i, j, k, 0));
    assert PageNo(Va(i, j, k, 0)) == Base(i, j, k);
    Boundaries(i, j, k);
    hide PageNo, ValidVa;
  }

  lemma NoPt(t: Tree, s0: Sys, s: Sys, c: nat, r: nat, i: nat, j: nat, k: nat)
    requires Dying(t, s0, s, c, r, Base(i, j, k), 3) && i < ENTRIES && j < ENTRIES && k < ENTRIES &&
      P1(r, i, j, k) !in t.tab
    ensures Dying(t, s0, s, c, r, Base(i, j, k + 1), 1)
  {
    hide Inv, Runs, EagerStep, View, UserLeaf, Walk, Ok, NoHuge, LeavesLeft, TablesLeft, Freed, PageNo, Placed;
    OkOfDoomed(t, r);
    NoLeafBefore(t, s, r, Base(i, j, k));
    forall va: Va | Slot(r, va) in s.leaf
      ensures Base(i, j, k + 1) <= PageNo(va)
    {
      LeafTables(t, r, va);
      SkipPtPages(va, i, j, k);
    }
    forall p | p in t.tab && OwnerOf(p) == r
      ensures Freed(p, Base(i, j, k), 3) <==> Freed(p, Base(i, j, k + 1), 1)
    {
      IsPlaced(t, p);
      SkipPt(p, i, j, k);
    }
    Moved(t, s0, s, c, r, Base(i, j, k), 3, Base(i, j, k + 1), 1);
  }

  lemma SkipPd(p: Pos, i: nat, j: nat)
    requires Placed(p) && i < ENTRIES && j < ENTRIES && !((p.P1? || p.P2?) && p.i == i && p.j == j)
    ensures Freed(p, Base(i, j, 0), 3) <==> Freed(p, Base(i, j + 1, 0), 2)
  {
    if p.P1? || p.P2? {
      var d, e := p.i * 512 + p.j, i * 512 + j;
      assert d != e;
      assert Base(i, j, 0) == e * 0x4_0000 && Base(i, j + 1, 0) == (e + 1) * 0x4_0000;
      assert d * 0x4_0000 < End(p) <= (d + 1) * 0x4_0000;
    } else {
      EndAligned(p);
    }
  }

  lemma SkipPdPages(va: Va, i: nat, j: nat)
    requires ValidVa(va) && i < ENTRIES && j < ENTRIES && !(va.i == i && va.j == j)
    requires Base(i, j, 0) <= PageNo(va)
    ensures Base(i, j + 1, 0) <= PageNo(va)
  {
    var d, e := va.i * 512 + va.j, i * 512 + j;
    assert d != e;
    assert d * 0x4_0000 <= PageNo(va) < (d + 1) * 0x4_0000;
  }

  lemma NoPd(t: Tree, s0: Sys, s: Sys, c: nat, r: nat, i: nat, j: nat)
    requires Dying(t, s0, s, c, r, Base(i, j, 0), 3) && i < ENTRIES && j < ENTRIES && P2(r, i, j) !in t.tab
    ensures Dying(t, s0, s, c, r, Base(i, j + 1, 0), 2)
  {
    hide Inv, Runs, EagerStep, View, UserLeaf, Walk, Ok, NoHuge, LeavesLeft, TablesLeft, Freed, PageNo, Placed;
    OkOfDoomed(t, r);
    NoLeafBefore(t, s, r, Base(i, j, 0));
    forall va: Va | Slot(r, va) in s.leaf
      ensures Base(i, j + 1, 0) <= PageNo(va)
    {
      LeafTables(t, r, va);
      SkipPdPages(va, i, j);
    }
    forall p | p in t.tab && OwnerOf(p) == r
      ensures Freed(p, Base(i, j, 0), 3) <==> Freed(p, Base(i, j + 1, 0), 2)
    {
      IsPlaced(t, p);
      Up(t, p);
      SkipPd(p, i, j);
    }
    Moved(t, s0, s, c, r, Base(i, j, 0), 3, Base(i, j + 1, 0), 2);
  }

  lemma NoPdpt(t: Tree, s0: Sys, s: Sys, c: nat, r: nat, i: nat)
    requires Dying(t, s0, s, c, r, Base(i, 0, 0), 3) && i < ENTRIES && P3(r, i) !in t.tab
    ensures Dying(t, s0, s, c, r, Base(i + 1, 0, 0), 3)
  {
    hide Inv, Runs, EagerStep, View, UserLeaf, Walk, Ok, NoHuge, LeavesLeft, TablesLeft;
    OkOfDoomed(t, r);
    NoLeafBefore(t, s, r, Base(i, 0, 0));
    forall va: Va | Slot(r, va) in s.leaf
      ensures Base(i + 1, 0, 0) <= PageNo(va)
    {
      LeafTables(t, r, va);
    }
    forall p | p in t.tab && OwnerOf(p) == r
      ensures Freed(p, Base(i, 0, 0), 3) <==> Freed(p, Base(i + 1, 0, 0), 3)
    {
      IsPlaced(t, p);
      Up(t, p);
      EndAligned(p);
    }
    hide Doomed, Freed, PageNo, Base;
    Moved(t, s0, s, c, r, Base(i, 0, 0), 3, Base(i + 1, 0, 0), 3);
  }

  /** Within a table, being done with the tables of a lower level is being done with all. */
  lemma Raised(t: Tree, s0: Sys, s: Sys, c: nat, r: nat, cur: nat, lvl: nat)
    requires Dying(t, s0, s, c, r, cur, lvl) && lvl < 3 && cur < Base(ENTRIES, 0, 0)
    requires cur % (if lvl == 0 then 0x200 else if lvl == 1 then 0x4_0000 else 0x800_0000) != 0
    ensures Dying(t, s0, s, c, r, cur, 3)
  {
    hide Inv, Runs, EagerStep, View, UserLeaf, Walk, Ok, NoHuge, LeavesLeft, TablesLeft;
    OkOfDoomed(t, r);
    NoLeafBefore(t, s, r, cur);
    forall p | p in t.tab && OwnerOf(p) == r
      ensures Freed(p, cur, lvl) <==> Freed(p, cur, 3)
    {
      IsPlaced(t, p);
      hide Freed, End, Level, Placed;
      FreedWithin(p, cur);
    }
    hide Doomed, Freed, PageNo, Base;
    Moved(t, s0, s, c, r, cur, lvl, cur, 3);
  }

  lemma Boundaries(i: nat, j: nat, k: nat)
    requires i < ENTRIES && j < ENTRIES && k < ENTRIES
    ensures Base(i, j, k) < Base(ENTRIES, 0, 0)
    ensures Base(i, j, k) % 512 == 0 && (0 < k ==> Base(i, j, k) % 0x4_0000 != 0) &&
      (0 < j ==> Base(i, j, 0) % 0x800_0000 != 0)
  {
    assert Base(i, j, k) % 0x4_0000 == k * 0x200;
    assert Base(i, j, 0) % 0x800_0000 == j * 0x4_0000;
  }

  // ----- the four loops

  /** The entry of page `va` and the machine's entry for it agree while it is still to be freed. */
  lemma LeafAt(t: Tree, s: Sys, r: nat, va: Va)
    requires Ok(t) && NoHuge(t, r) && LeavesLeft(t, s, r, PageNo(va)) && ValidVa(va) && va.i > 0 && r != t.kernel
    requires P1(r, va.i, va.j, va.k) in t.tab
    ensures var p := P1(r, va.i, va.j, va.k);
      Has(t, p) && (At(t, p, va.l).flags.present <==> HasLeaf(s, r, va)) &&
      (HasLeaf(s, r, va) ==> s.leaf[Slot(r, va)].frame == At(t, p, va.l).frame)
  {
    Up(t, P1(r, va.i, va.j, va.k));
    assert Has(t, P1(r, va.i, va.j, va.k)) && Has(t, P2(r, va.i, va.j));
    assert !Walk(t, r, va).Large?;
    assert UserLeaf(t, Slot(r, va)) <==> HasLeaf(s, r, va);
  }

  lemma NoLeafAt(t: Tree, s0: Sys, s: Sys, c: nat, r: nat, va: Va)
    requires Dying(t, s0, s, c, r, PageNo(va), 3) && ValidVa(va) && !HasLeaf(s, r, va)
    ensures Dying(t, s0, s, c, r, PageNo(va) + 1, 0)
  {
    hide Inv, Runs, EagerStep, View, UserLeaf, Walk, Ok, NoHuge, LeavesLeft, TablesLeft, Freed, End;
    OkOfDoomed(t, r);
    NoLeafBefore(t, s, r, PageNo(va));
    PageBound(va);
    forall vb: Va | Slot(r, vb) in s.leaf
      ensures PageNo(va) + 1 <= PageNo(vb)
    {
      PageUnique(va, vb);
    }
    forall p | p in t.tab && OwnerOf(p) == r
      ensures Freed(p, PageNo(va), 3) <==> Freed(p, PageNo(va) + 1, 0)
    {
      IsPlaced(t, p);
      FreedWithin(p, PageNo(va));
    }
    hide Doomed, PageNo;
    Moved(t, s0, s, c, r, PageNo(va), 3, PageNo(va) + 1, 0);
  }

  lemma DyingParts(t: Tree, s0: Sys, s: Sys, c: nat, r: nat, cur: nat, lvl: nat)
    requires Dying(t, s0, s, c, r, cur, lvl)
    ensures Ok(t) && NoHuge(t, r) && r != t.kernel && LeavesLeft(t, s, r, cur) && P4(r) in t.tab && t.tab[P4(r)] == r
  {
    hide Ok, NoHuge, Inv, Runs, EagerStep, View, LeavesLeft, TablesLeft;
    OkOfDoomed(t, r);
  }

  /** The last level: give up every page of a page table, then the table. */
  method DestroyPt(vm: Vmm, pt: nat, i: nat, j: nat, k: nat, ghost c: nat, ghost r: nat, ghost s0: Sys, ghost s: Sys)
      returns (ghost s': Sys)
    requires Dying(vm.T(), s0, s, c, r, Base(i, j, k), 3) && s.pmm == vm.pmm
    requires 0 < i < ENTRIES && j < ENTRIES && k < ENTRIES && P1(r, i, j, k) in vm.tab && vm.tab[P1(r, i, j, k)] == pt
    modifies vm`pmm
    ensures Dying(vm.T(), s0, s', c, r, Base(i, j, k + 1), 1) && s'.pmm == vm.pmm
  {
    hide Dying, Ok, NoHuge, LeavesLeft;
    s' := s;
    ghost var t := vm.T();
    DyingParts(t, s0, s, c, r, Base(i, j, k), 3);
    for l := 0 to ENTRIES
      invariant Dying(t, s0, s', c, r, Base(i, j, k) + l, if l == ENTRIES then 0 else 3) && s'.pmm == vm.pmm
    {
      ghost var va := Va(i, j, k, l);
      assert PageNo(va) == Base(i, j, k) + l;
      DyingParts(t, s0, s', c, r, PageNo(va), 3);
      LeafAt(t, s', r, va);
      var e := vm.tables[pt][l];
      if e.flags.present {
        LeafFreed(t, s0, s', c, r, va);
        vm.pmm := Frames.Drop(vm.pmm, e.frame);
        s' := s'.(pmm := Frames.Drop(s'.pmm, s'.leaf[Slot(r, va)].frame), leaf := s'.leaf - {Slot(r, va)});
      } else {
        NoLeafAt(t, s0, s', c, r, va);
      }
      if l + 1 < ENTRIES {
        PtInside(i, j, k, l + 1);
        Raised(t, s0, s', c, r, Base(i, j, k) + l + 1, 0);
      }
    }
    TableFreed(t, s0, s', c, r, P1(r, i, j, k));
    vm.pmm := Frames.Drop(vm.pmm, pt);
    s' := s'.(pmm := Frames.Drop(s'.pmm, t.tab[P1(r, i, j, k)]), tabs := s'.tabs - {t.tab[P1(r, i, j, k)]});
  }

  lemma PtInside(i: nat, j: nat, k: nat, l: nat)
    requires i < ENTRIES && j < ENTRIES && k < ENTRIES && 0 < l < ENTRIES
    ensures (Base(i, j, k) + l) % 512 != 0 && Base(i, j, k) + l < Base(ENTRIES, 0, 0)
  {
    Boundaries(i, j, k);
    assert (Base(i, j, k) + l) % 512 == l;
  }

  method DestroyPd(vm: Vmm, pd: nat, i: nat, j: nat, ghost c: nat, ghost r: nat, ghost s0: Sys, ghost s: Sys)
      returns (ghost s': Sys)
    requires Dying(vm.T(), s0, s, c, r, Base(i, j, 0), 3) && s.pmm == vm.pmm
    requires 0 < i < ENTRIES && j < ENTRIES && P2(r, i, j) in vm.tab && vm.tab[P2(r, i, j)] == pd
    modifies vm`pmm
    ensures Dying(vm.T(), s0, s', c, r, Base(i, j + 1, 0), 2) && s'.pmm == vm.pmm
  {
    hide Dying, Ok, NoHuge, LeavesLeft, Base;
    s' := s;
    ghost var t := vm.T();
    for k := 0 to ENTRIES
      invariant Dying(t, s0, s', c, r, Base(i, j, k), if k == ENTRIES then 1 else 3) && s'.pmm == vm.pmm
    {
      DyingParts(t, s0, s', c, r, Base(i, j, k), 3);
      UpperEntry(t, r, P2(r, i, j), k);
      var e := vm.tables[pd][k];
      if e.flags.present {
        s' := DestroyPt(vm, e.frame, i, j, k, c, r, s0, s');
      } else {
        NoPt(t, s0, s', c, r, i, j, k);
      }
      if k + 1 < ENTRIES {
        Boundaries(i, j, k + 1);
        Raised(t, s0, s', c, r, Base(i, j, k + 1), 1);
      }
    }
    BaseCarry(i, j);
    TableFreed(t, s0, s', c, r, P2(r, i, j));
    vm.pmm := Frames.Drop(vm.pmm, pd);
    s' := s'.(pmm := Frames.Drop(s'.pmm, t.tab[P2(r, i, j)]), tabs := s'.tabs - {t.tab[P2(r, i, j)]});
  }

  method DestroyPdpt(vm: Vmm, pdpt: nat, i: nat, ghost c: nat, ghost r: nat, ghost s0: Sys, ghost s: Sys)
      returns (ghost s': Sys)
    requires Dying(vm.T(), s0, s, c, r, Base(i, 0, 0), 3) && s.pmm == vm.pmm
    requires 0 < i < ENTRIES && P3(r, i) in vm.tab && vm.tab[P3(r, i)] == pdpt
    modifies vm`pmm
    ensures Dying(vm.T(), s0, s', c, r, Base(i + 1, 0, 0), 3) && s'.pmm == vm.pmm
  {
    hide Dying, Ok, NoHuge, LeavesLeft, Base;
    s' := s;
    ghost var t := vm.T();
    for j := 0 to ENTRIES
      invariant Dying(t, s0, s', c, r, Base(i, j, 0), if j == ENTRIES then 2 else 3) && s'.pmm == vm.pmm
    {
      DyingParts(t, s0, s', c, r, Base(i, j, 0), 3);
      UpperEntry(t, r, P3(r, i), j);
      var e := vm.tables[pdpt][j];
      if e.flags.present {
        s' := DestroyPd(vm, e.frame, i, j, c, r, s0, s');
      } else {
        NoPd(t, s0, s', c, r, i, j);
      }
      if j + 1 < ENTRIES {
        Boundaries(i, j + 1, 0);
        Raised(t, s0, s', c, r, Base(i, j + 1, 0), 2);
      }
    }
    BaseCarry(i, 0);
    TableFreed(t, s0, s', c, r, P3(r, i));
    vm.pmm := Frames.Drop(vm.pmm, pdpt);
    s' := s'.(pmm := Frames.Drop(s'.pmm, t.tab[P3(r, i)]), tabs := s'.tabs - {t.tab[P3(r, i)]});
  }

  // ----- whole spaces

  /** The tree without the space. */
  ghost function Without(t: Tree, r: nat): Tree {
    t.(tab := map p | p in t.tab && OwnerOf(p) != r :: t.tab[p])
  }

  lemma WithoutOk(t: Tree, r: nat)
    requires Doomed(t, r)
    ensures Ok(Without(t, r))
  {
    hide NoHuge;
    var t' := Without(t, r);
    forall p | p in t'.tab
      ensures Has(t', p) && t'.tab[p] != 0 && PlaceOk(t', p)
    {
      assert Has(t, p) && PlaceOk(t, p);
    }
    forall p, n: nat | p in t'.tab && n < ENTRIES
      ensures LinkOk(t', p, n)
    {
      assert LinkOk(t, p, n);
    }
  }

  lemma WithoutWalk(t: Tree, r: nat, r': nat, va: Va)
    requires Doomed(t, r) && Ok(Without(t, r)) && ValidVa(va)
    ensures Walk(Without(t, r), r', va) == if Owner(r', va.i) == r then Absent else Walk(t, r', va)
  {
    hide NoHuge;
    var o := Owner(r', va.i);
    if P2(o, va.i, va.j) in t.tab {
      assert Has(t, P2(o, va.i, va.j));
      if P1(o, va.i, va.j, va.k) in t.tab {
        assert Has(t, P1(o, va.i, va.j, va.k));
      }
    }
  }

  lemma BeginDying(t: Tree, bytes: map<nat, seq<Byte>>, pmm: Frames.Frames, s: Sys, c: nat, r: nat)
    requires Ready(t, bytes, pmm, s, c, r) && s.pc[c] == Idle && FreeFor(s, c, r)
    ensures s.pmm == pmm
    ensures Dying(t, s, s.(live := s.live - {r}, pc := s.pc[c := Destroying(r)]), c, r, Base(1, 0, 0), 3)
  {
    hide Inv, Runs, View, Ok, NoHuge, Walk, EagerStep;
    var s' := s.(live := s.live - {r}, pc := s.pc[c := Destroying(r)]);
    ReadyRoot(t, bytes, pmm, s, c, r);
    Parts(t, bytes, pmm, s);
    assert BeginDestroy(s, s', c, r);
    BeginDestroyView(s, s', c, r);
    StepInv(s, s', c, ABeginDestroy(r));
    RunsStep(s, s', c, ABeginDestroy(r));
    assert LeavesLeft(t, s', r, Base(1, 0, 0)) by { FirstLeaves(t, s, s', r); }
    assert TablesLeft(t, s', r, Base(1, 0, 0), 3) by { FirstTables(t, s, s', r); }
  }

  lemma FirstLeaves(t: Tree, s: Sys, s': Sys, r: nat)
    requires Ok(t) && LeavesAre(t, s) && s'.leaf == s.leaf
    ensures LeavesLeft(t, s', r, Base(1, 0, 0))
  {
    hide Ok, Walk;
  }

  lemma FirstFreed(t: Tree, p: Pos)
    requires Ok(t) && p in t.tab
    ensures !p.P4? && OwnerOf(p) != KERNEL ==> !Freed(p, Base(1, 0, 0), 3)
    ensures p.P4? ==> !Freed(p, Base(1, 0, 0), 3)
  {
    assert PlaceOk(t, p);
    Up(t, p);
    assert p.P1? || p.P2? ==> PlaceOk(t, P3(p.owner, p.i));
    hide Ok;
  }

  lemma FirstTables(t: Tree, s: Sys, s': Sys, r: nat)
    requires Ok(t) && TablesAre(t, s) && s'.tabs == s.tabs && s'.pmm == s.pmm && r != t.kernel && r != KERNEL
    ensures TablesLeft(t, s', r, Base(1, 0, 0), 3)
  {
    hide Ok, Freed;
    forall p | p in t.tab
      ensures TableLeft(t, s', r, Base(1, 0, 0), 3, p)
    {
      FirstFreed(t, p);
    }
  }

  /** When the loops are done only the root is left. */
  lemma OnlyRootLeft(t: Tree, s: Sys, r: nat)
    requires Doomed(t, r) && LeavesLeft(t, s, r, Base(ENTRIES, 0, 0)) && TablesLeft(t, s, r, Base(ENTRIES, 0, 0), 3)
    requires s.tabs.Keys <= s.pmm.refs.Keys
    ensures (forall x :: x in s.leaf ==> x.space != r) && IsRoot(s, r)
    ensures forall u :: u in s.tabs && u != r ==> s.tabs[u] != r
  {
    OkOfDoomed(t, r);
    hide Doomed, Walk, NoHuge;
    forall x | x in s.leaf
      ensures x.space != r
    {
      assert UserLeaf(t, x);
      PageBound(x.va);
      hide Ok;
    }
    assert TableLeft(t, s, r, Base(ENTRIES, 0, 0), 3, P4(r));
    forall u | u in s.tabs && u != r
      ensures s.tabs[u] != r
    {
      var p :| p in t.tab && t.tab[p] == u;
      IsPlaced(t, p);
      hide Ok;
      assert TableLeft(t, s, r, Base(ENTRIES, 0, 0), 3, p);
      assert p.P4? ==> p != P4(r);
      LoopsDone(p);
      hide Freed;
    }
  }

  lemma LoopsDone(p: Pos)
    requires Placed(p)
    ensures !p.P4? ==> Freed(p, Base(ENTRIES, 0, 0), 3)
  {
  }

  lemma TabsManaged(s: Sys)
    requires Inv(s)
    ensures s.tabs.Keys <= s.pmm.refs.Keys && Frames.Valid(s.pmm) && s.mem.Keys == s.pmm.refs.Keys
  {
  }

  ghost function RootGone(s: Sys, c: nat, r: nat): Sys {
    s.(pmm := Frames.Drop(s.pmm, r), tabs := s.tabs - {r}, pc := s.pc[c := Idle])
  }

  /** The outcome: the space is gone from every program's view, with its entries and tables, and the rest of
      the tables still represent the machine. */
  ghost predicate SpaceGone(t: Tree, bytes: map<nat, seq<Byte>>, pmm: Frames.Frames, s0: Sys, s: Sys, c: nat, r: nat) {
    && Represents(t, bytes, pmm, s) && Inv(s) && Runs(s0, s, c) && s.pc == s0.pc[c := Idle] && s.live == s0.live - {r}
    && EagerStep(View(s0), View(s), Destroyed(r))
    && (forall x :: x in s.leaf <==> x in s0.leaf && x.space != r)
    && (forall x :: x in s.leaf ==> s.leaf[x] == s0.leaf[x])
    && (forall f :: f in s.tabs <==> f in s0.tabs && s0.tabs[f] != r)
    && s.pmm.refs.Keys == s0.pmm.refs.Keys
  }

  lemma RootFreed(t: Tree, s0: Sys, s: Sys, c: nat, r: nat)
    requires Dying(t, s0, s, c, r, Base(ENTRIES, 0, 0), 3)
    ensures var s' := RootGone(s, c, r);
      Inv(s') && Runs(s0, s', c) && EagerStep(View(s0), View(s'), Destroyed(r)) && s'.pc == s0.pc[c := Idle] &&
      IsRoot(s, r)
  {
    hide Inv, Runs, View, Ok, NoHuge, Walk, EagerStep, LeavesLeft, TablesLeft, Base, Doomed;
    TabsManaged(s);
    OnlyRootLeft(t, s, r);
    var s' := RootGone(s, c, r);
    assert FreeTable(s, s', c, r);
    QuietRun(s, s', c, AFreeTable(r));
    RunsTrans(s0, s, s', c);
  }

  lemma LeavesAfter(t: Tree, s: Sys, s': Sys, r: nat)
    requires Doomed(t, r) && LeavesLeft(t, s, r, Base(ENTRIES, 0, 0)) && s'.leaf == s.leaf && Ok(Without(t, r))
    requires forall x :: x in s.leaf ==> x.space != r
    ensures LeavesAre(Without(t, r), s')
  {
    hide NoHuge, Ok, Walk, Base, Without;
    var t' := Without(t, r);
    WithoutKernel(t, r);
    forall x
      ensures (x in s'.leaf <==> UserLeaf(t', x)) && (x in s'.leaf ==> s'.leaf[x] == Walk(t', x.space, x.va).e)
    {
      if ValidVa(x.va) {
        WithoutWalk(t, r, x.space, x.va);
      }
      assert x in s.leaf ==> UserLeaf(t, x);
      assert UserLeaf(t, x) && x.space != r ==> x in s.leaf;
    }
  }

  lemma WithoutKernel(t: Tree, r: nat)
    ensures Without(t, r).kernel == t.kernel && Without(t, r).tables == t.tables
  {
  }

  lemma OtherTable(t: Tree, s: Sys, r: nat, p: Pos)
    requires Ok(t) && P4(r) in t.tab && t.tab[P4(r)] == r && TablesLeft(t, s, r, Base(ENTRIES, 0, 0), 3) &&
      p in t.tab && OwnerOf(p) != r
    ensures t.tab[p] != r
    ensures t.tab[p] in s.pmm.refs ==> t.tab[p] in s.tabs && s.tabs[t.tab[p]] == Home(t, p)
    ensures Home(t, p) != KERNEL ==> t.tab[p] in s.pmm.refs
  {
    hide Base, Home, Freed;
    assert TableLeft(t, s, r, Base(ENTRIES, 0, 0), 3, p);
    hide TablesLeft;
    OkDistinct(t, p, P4(r));
    hide Ok;
  }

  lemma TableStays(t: Tree, s: Sys, r: nat, f: nat)
    requires Ok(t) && TablesLeft(t, s, r, Base(ENTRIES, 0, 0), 3) && f in s.tabs && f != r && P4(r) in t.tab &&
      t.tab[P4(r)] == r
    ensures exists p :: p in t.tab && OwnerOf(p) != r && t.tab[p] == f
  {
    hide Base, Home, Freed, Placed;
    var p :| p in t.tab && t.tab[p] == f;
    assert TableLeft(t, s, r, Base(ENTRIES, 0, 0), 3, p);
    hide TablesLeft;
    IsPlaced(t, p);
    hide Ok;
    LoopsDone(p);
  }

  lemma WithoutTab(t: Tree, r: nat)
    ensures forall p :: p in Without(t, r).tab <==> p in t.tab && OwnerOf(p) != r
    ensures forall p :: p in Without(t, r).tab ==>
      Without(t, r).tab[p] == t.tab[p] && Home(Without(t, r), p) == Home(t, p)
  {
  }

  lemma TablesAfter(t: Tree, s: Sys, s': Sys, r: nat)
    requires Doomed(t, r) && TablesLeft(t, s, r, Base(ENTRIES, 0, 0), 3) && s'.tabs == s.tabs - {r} &&
      s'.pmm.refs.Keys == s.pmm.refs.Keys
    ensures TablesAre(Without(t, r), s')
  {
    hide NoHuge, Doomed, Base, Ok, TablesLeft, Without, Home, OwnerOf;
    OkOfDoomed(t, r);
    var t' := Without(t, r);
    WithoutTab(t, r);
    forall p | p in t'.tab
      ensures t'.tab[p] in s'.pmm.refs ==> t'.tab[p] in s'.tabs && s'.tabs[t'.tab[p]] == Home(t', p)
      ensures Home(t', p) != KERNEL ==> t'.tab[p] in s'.pmm.refs
    {
      OtherTable(t, s, r, p);
    }
    forall f | f in s'.tabs
      ensures exists p :: p in t'.tab && t'.tab[p] == f
    {
      TableStays(t, s, r, f);
    }
  }

  /** Used table frames are not free. */
  lemma TablesInUse(s: Sys, f: nat)
    requires Inv(s) && f in s.tabs
    ensures f !in s.pmm.free
  {
    hide OwnersOk, RootsOk, UnrefOk, PcsOk, Counted, Exclusive;
    assert Table in Holders(s, f);
    FreeIffUnheld(s, f);
  }

  lemma StateAfter(t: Tree, s: Sys, s': Sys, r: nat)
    requires Doomed(t, r) && Ok(Without(t, r)) && Inv(s') && TablesAre(Without(t, r), s') &&
      s'.pmm.refs.Keys == s.pmm.refs.Keys
    requires forall f :: f in s.pmm.refs ==> f in t.tables && |t.tables[f]| == ENTRIES
    ensures StateOk(Without(t, r), s'.pmm)
  {
    hide Ok, Inv, Doomed;
    var t' := Without(t, r);
    TabsManaged(s');
    forall p | p in t'.tab
      ensures t'.tab[p] !in s'.pmm.free
    {
      if t'.tab[p] in s'.pmm.refs {
        TablesInUse(s', t'.tab[p]);
      }
    }
    hide Distinct;
  }

  lemma GoneRepresents(t: Tree, bytes: map<nat, seq<Byte>>, s0: Sys, s: Sys, c: nat, r: nat)
    requires Doomed(t, r) && LeavesLeft(t, s, r, Base(ENTRIES, 0, 0)) && TablesLeft(t, s, r, Base(ENTRIES, 0, 0), 3)
    requires Represents(t, bytes, s0.pmm, s0) && Inv(RootGone(s, c, r)) && s.mem == bytes &&
      s.pmm.refs.Keys == s0.pmm.refs.Keys
    requires forall x :: x in s.leaf ==> x.space != r
    ensures Represents(Without(t, r), bytes, Frames.Drop(s.pmm, r), RootGone(s, c, r))
  {
    hide Inv, Ok, NoHuge, Walk, LeavesLeft, TablesLeft, LeavesAre, TablesAre, StateOk, Base, Doomed, Without,
         UserLeaf, Frames.Drop;
    var s' := RootGone(s, c, r);
    DropKeys(s.pmm, r);
    WithoutOk(t, r);
    LeavesAfter(t, s, s', r);
    TablesAfter(t, s, s', r);
    Words(t, bytes, s0);
    StateAfter(t, s, s', r);
  }

  lemma SpaceGoneNow(t: Tree, bytes: map<nat, seq<Byte>>, s0: Sys, s: Sys, c: nat, r: nat)
    requires Dying(t, s0, s, c, r, Base(ENTRIES, 0, 0), 3) && Represents(t, bytes, s0.pmm, s0) && Inv(s0)
    ensures SpaceGone(Without(t, r), bytes, Frames.Drop(s.pmm, r), s0, RootGone(s, c, r), c, r)
  {
    hide Inv, Runs, View, Ok, NoHuge, Walk, EagerStep, LeavesLeft, TablesLeft, LeavesAre, TablesAre, StateOk, Base,
         Doomed, Without, UserLeaf;
    hide Represents, Frames.Valid, Frames.Drop, IsRoot;
    RootFreed(t, s0, s, c, r);
    TabsManaged(s);
    TabsManaged(s0);
    OkOfDoomed(t, r);
    OnlyRootLeft(t, s, r);
    DropKeys(s.pmm, r);
    Words(t, bytes, s0);
    GoneRepresents(t, bytes, s0, s, c, r);
    LeavesBoth(t, s0, s, r);
    TablesBoth(t, s0, s, r);
  }

  lemma Words(t: Tree, bytes: map<nat, seq<Byte>>, s: Sys)
    requires Represents(t, bytes, s.pmm, s)
    ensures forall f :: f in s.pmm.refs ==> f in t.tables && |t.tables[f]| == ENTRIES
    ensures Ok(t) && LeavesAre(t, s) && TablesAre(t, s) && s.mem == bytes
  {
  }

  lemma LeavesBoth(t: Tree, s0: Sys, s: Sys, r: nat)
    requires Ok(t) && LeavesAre(t, s0) && LeavesLeft(t, s, r, Base(ENTRIES, 0, 0)) && forall x :: x in s.leaf ==>
      x.space != r
    ensures (forall x :: x in s.leaf <==> x in s0.leaf && x.space != r) && forall x :: x in s.leaf ==>
      s.leaf[x] == s0.leaf[x]
  {
    hide Walk, Ok, Base, PageNo;
  }

  lemma TablesBoth(t: Tree, s0: Sys, s: Sys, r: nat)
    requires Ok(t) && TablesAre(t, s0) && TablesLeft(t, s, r, Base(ENTRIES, 0, 0), 3) && r != t.kernel && r != KERNEL
    requires s.tabs.Keys <= s.pmm.refs.Keys && s.pmm.refs.Keys == s0.pmm.refs.Keys && s0.tabs.Keys <= s0.pmm.refs.Keys
    requires IsRoot(s, r) && forall u :: u in s.tabs && u != r ==> s.tabs[u] != r
    ensures forall f :: f in s.tabs && f != r <==> f in s0.tabs && s0.tabs[f] != r
  {
    hide Base;
    forall f
      ensures f in s.tabs && f != r <==> f in s0.tabs && s0.tabs[f] != r
    {
      if f in s.tabs && f != r {
        var p :| p in t.tab && t.tab[p] == f;
        assert TableLeft(t, s, r, Base(ENTRIES, 0, 0), 3, p);
      }
      if f in s0.tabs && s0.tabs[f] != r {
        var p :| p in t.tab && t.tab[p] == f;
        assert TableLeft(t, s, r, Base(ENTRIES, 0, 0), 3, p);
      }
      hide Ok;
    }
  }

  /** `vmm_destroy_address_space`, on a space no CPU runs. */
  method DestroyAddressSpace(vm: Vmm, root: nat, ghost c: nat, ghost s: Sys) returns (ghost s': Sys)
    requires Ready(vm.T(), vm.bytes, vm.pmm, s, c, root) && s.pc[c] == Idle && FreeFor(s, c, root)
    modifies vm`pmm, vm`tab
    ensures SpaceGone(vm.T(), vm.bytes, vm.pmm, s, s', c, root)
  {
    hide Ready, Dying, Ok, NoHuge, LeavesLeft, Base, Represents, SpaceGone, FreeFor;
    ghost var t := vm.T();
    BeginDying(t, vm.bytes, vm.pmm, s, c, root);
    ReadyInv(t, vm.bytes, vm.pmm, s, c, root);
    s' := s.(live := s.live - {root}, pc := s.pc[c := Destroying(root)]);
    for i := 1 to ENTRIES
      invariant vm.T() == t && Dying(t, s, s', c, root, Base(i, 0, 0), 3) && s'.pmm == vm.pmm
    {
      DyingParts(t, s, s', c, root, Base(i, 0, 0), 3);
      UpperEntry(t, root, P4(root), i);
      var e := vm.tables[root][i];
      if e.flags.present {
        s' := DestroyPdpt(vm, e.frame, i, c, root, s, s');
      } else {
        NoPdpt(t, s, s', c, root, i);
      }
    }
    SpaceGoneNow(t, vm.bytes, s, s', c, root);
    vm.pmm := Frames.Drop(vm.pmm, root);
    vm.tab := Without(t, root).tab;
    s' := RootGone(s', c, root);
  }
}
