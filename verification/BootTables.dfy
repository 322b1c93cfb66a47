/** The page tables the boot code leaves behind, the first program's space, and what goes wrong on concrete tables. */
module BootTables {
  import opened Common
  import opened Paging
  import opened Addresses
  import opened PageTree
  import opened PageTables
  import opened PageRanges
  import opened CowMachine
  import opened CowRefinement
  import opened AddressSpaces
  import opened SpaceBuilding
  import Frames

  // ----- the tables of src/boot/main.asm

  const DIR_FLAGS: Flags := Flags(true, true, false, false, false, 0)
  const HUGE_FLAGS: Flags := Flags(true, true, false, true, false, 0)

  /** The frames of the PML4, the PDPT and the four page directories in a row. */
  datatype Frames6 = Frames6(p4: nat, p3: nat, p2: nat)

  ghost predicate Apart(f: Frames6) {
    0 < f.p4 && 0 < f.p3 && 0 < f.p2 && f.p4 != f.p3 && !(f.p2 <= f.p4 < f.p2 + 4) && !(f.p2 <= f.p3 < f.p2 + 4)
  }

  function P4Words(f: Frames6): seq<Entry> {
    ZeroTable()[0 := Entry(f.p3, DIR_FLAGS)]
  }

  function P3Words(f: Frames6): seq<Entry> {
    seq(ENTRIES, j requires 0 <= j < ENTRIES => if j < 4 then Entry(f.p2 + j, DIR_FLAGS) else Clear)
  }

  /** Directory `j` maps its gigabyte to itself. */
  function P2Words(j: nat): seq<Entry> {
    seq(ENTRIES, k requires 0 <= k < ENTRIES => Entry((j * 512 + k) * 512, HUGE_FLAGS))
  }

  /** The tables among the words of all other frames. */
  ghost function BootTree(f: Frames6, words: map<nat, seq<Entry>>): Tree {
    Tree(words[f.p4 := P4Words(f)][f.p3 := P3Words(f)][f.p2 := P2Words(0)]
              [f.p2 + 1 := P2Words(1)][f.p2 + 2 := P2Words(2)][f.p2 + 3 := P2Words(3)],
         map[P4(f.p4) := f.p4, P3(KERNEL, 0) := f.p3, P2(KERNEL, 0, 0) := f.p2, P2(KERNEL, 0, 1) := f.p2 + 1,
             P2(KERNEL, 0, 2) := f.p2 + 2, P2(KERNEL, 0, 3) := f.p2 + 3],
         f.p4)
  }

  lemma BootPlace(f: Frames6, words: map<nat, seq<Entry>>, p: Pos)
    requires Apart(f) && p in BootTree(f, words).tab
    ensures var t := BootTree(f, words); Has(t, p) && t.tab[p] != 0 && PlaceOk(t, p)
  {
  }

  lemma BootPlaces(f: Frames6, words: map<nat, seq<Entry>>)
    requires Apart(f)
    ensures PlacesOk(BootTree(f, words))
  {
    var t := BootTree(f, words);
    assert P4(t.kernel) in t.tab && P3(KERNEL, 0) in t.tab;
    hide BootTree, PlaceOk, Has;
    forall p | p in t.tab {
      BootPlace(f, words, p);
    }
  }

  lemma BootDistinct(f: Frames6, words: map<nat, seq<Entry>>)
    requires Apart(f)
    ensures OnePlace(BootTree(f, words))
  {
    hide P4Words, P3Words, P2Words;
  }

  lemma BootLink(f: Frames6, words: map<nat, seq<Entry>>, p: Pos, n: nat)
    requires Apart(f) && p in BootTree(f, words).tab && n < ENTRIES
    ensures LinkOk(BootTree(f, words), p, n)
  {
    var t := BootTree(f, words);
    if p == P4(f.p4) {
      assert At(t, p, n) == if n == 0 then Entry(f.p3, DIR_FLAGS) else Clear;
    } else if p == P3(KERNEL, 0) {
      assert At(t, p, n) == if n < 4 then Entry(f.p2 + n, DIR_FLAGS) else Clear;
    } else {
      assert At(t, p, n) == Entry((p.j * 512 + n) * 512, HUGE_FLAGS);
    }
  }

  lemma BootOk(f: Frames6, words: map<nat, seq<Entry>>)
    requires Apart(f)
    ensures Ok(BootTree(f, words))
  {
    hide LinkOk, PlacesOk, OnePlace, BootTree;
    BootPlaces(f, words);
    BootDistinct(f, words);
    forall p, n: nat | p in BootTree(f, words).tab && n < ENTRIES {
      BootLink(f, words, p, n);
    }
  }

  /** The first four gigabytes are mapped to themselves by 2 MiB entries, and nothing else is mapped. */
  lemma BootWalk(f: Frames6, words: map<nat, seq<Entry>>, r: nat, va: Va)
    requires Apart(f) && Ok(BootTree(f, words)) && ValidVa(va)
    ensures Walk(BootTree(f, words), r, va) ==
            if va.i == 0 && va.j < 4 then Large(Entry((va.j * 512 + va.k) * 512, HUGE_FLAGS)) else Absent
  {
    var t := BootTree(f, words);
    var o := Owner(r, va.i);
    if P2(o, va.i, va.j) in t.tab {
      assert At(t, P2(o, va.i, va.j), va.k) == Entry((va.j * 512 + va.k) * 512, HUGE_FLAGS);
    }
  }

  lemma LowAddress(f: Frames6, words: map<nat, seq<Entry>>, r: nat, a: nat)
    requires Apart(f) && Ok(BootTree(f, words)) && a < SPACE_SIZE
    ensures Walk(BootTree(f, words), r, VaOf(a)) ==
      if a < 0x1_0000_0000 then Large(Entry(a / HUGE_SIZE * 512, HUGE_FLAGS)) else Absent
  {
    BootWalk(f, words, r, VaOf(a));
    hide Ok, Walk, BootTree;
    var c := a / 0x20_0000;
    assert a / 0x4000_0000 == c / 512 && a / 0x80_0000_0000 == c / 512 / 512;
  }

  /** No frame is in use but those of the kernel, which the allocator does not manage. */
  ghost predicate Fresh(f: Frames6, words: map<nat, seq<Entry>>, bytes: map<nat, seq<Byte>>, pmm: Frames.Frames) {
    && Apart(f) && Frames.Valid(pmm) && bytes.Keys == pmm.refs.Keys
    && (forall g :: g in pmm.refs ==>
         pmm.refs[g] == 0 && g in words && |words[g]| == ENTRIES && |bytes[g]| == PAGE_SIZE)
    && f.p4 !in pmm.refs && f.p3 !in pmm.refs && forall g :: f.p2 <= g < f.p2 + 4 ==> g !in pmm.refs
  }

  lemma BootState(f: Frames6, words: map<nat, seq<Entry>>, bytes: map<nat, seq<Byte>>, pmm: Frames.Frames)
    requires Fresh(f, words, bytes, pmm)
    ensures StateOk(BootTree(f, words), pmm)
  {
    BootOk(f, words);
    hide Ok;
    var t := BootTree(f, words);
    forall g | g in pmm.refs
      ensures g in t.tables && t.tables[g] == words[g]
    {
    }
    BootUnmanaged(f, words, bytes, pmm);
    hide BootTree, Apart;
  }

  lemma BootUnmanaged(f: Frames6, words: map<nat, seq<Entry>>, bytes: map<nat, seq<Byte>>, pmm: Frames.Frames)
    requires Fresh(f, words, bytes, pmm)
    ensures forall p :: p in BootTree(f, words).tab ==> BootTree(f, words).tab[p] !in pmm.refs
  {
    hide Apart, P4Words, P3Words, P2Words, Frames.Valid;
  }

  lemma BootLeaves(f: Frames6, words: map<nat, seq<Entry>>, s: Sys)
    requires Apart(f) && Ok(BootTree(f, words)) && s.leaf == map[]
    ensures LeavesAre(BootTree(f, words), s)
  {
    hide Ok, Walk, BootTree;
    forall x
      ensures !UserLeaf(BootTree(f, words), x)
    {
      if ValidVa(x.va) {
        BootWalk(f, words, x.space, x.va);
      }
    }
  }

  /** They represent the machine's first state. */
  lemma BootRepresents(f: Frames6, words: map<nat, seq<Entry>>, bytes: map<nat, seq<Byte>>, pmm: Frames.Frames,
                       cpus: set<nat>)
    requires Fresh(f, words, bytes, pmm)
    ensures Represents(BootTree(f, words), bytes, pmm, Boot(pmm, bytes, {}, cpus)) && Inv(Boot(pmm, bytes, {}, cpus))
  {
    hide StateOk, LeavesAre, TablesAre, Inv, Frames.Valid, BootTree, Ok;
    BootState(f, words, bytes, pmm);
    BootOk(f, words);
    BootInv(pmm, bytes, {}, cpus);
    BootLeaves(f, words, Boot(pmm, bytes, {}, cpus));
    BootTabs(f, words, bytes, pmm, cpus);
  }

  lemma BootTabs(f: Frames6, words: map<nat, seq<Entry>>, bytes: map<nat, seq<Byte>>, pmm: Frames.Frames,
                 cpus: set<nat>)
    requires Fresh(f, words, bytes, pmm)
    ensures TablesAre(BootTree(f, words), Boot(pmm, bytes, {}, cpus))
  {
    var t := BootTree(f, words);
    assert forall p :: p in t.tab ==> t.tab[p] !in pmm.refs && Home(t, p) == KERNEL;
  }

  /** From the boot tables to a program's first page: the space can then be run, cloned, faulted on and destroyed. */
  method FirstProgram(f: Frames6, words: map<nat, seq<Entry>>, bytes: map<nat, seq<Byte>>, pmm: Frames.Frames,
                      virt: nat, flags: Flags,
                      content: seq<Byte>, ghost cpus: set<nat>, ghost c: nat, ghost tab: map<Pos, nat>,
                      tables: map<nat, seq<Entry>>)
      returns (vm: Vmm, root: nat, ghost s: Sys)
    requires Fresh(f, words, bytes, pmm) && Tree(tables, tab, f.p4) == BootTree(f, words) && c in cpus &&
      |pmm.free| >= 6
    requires virt < SPACE_SIZE && Pml4Index(virt) > 0 && !flags.huge && |content| == PAGE_SIZE
    ensures Ready(vm.T(), vm.bytes, vm.pmm, s, c, root) && Runs(Boot(pmm, bytes, {}, cpus), s, c)
    ensures View(s) == map[Slot(root, VaOf(virt)) := Page(content, flags.writable || flags.cow)]
  {
    hide StateOk, Represents, Inv, Runs, View, Ready, FreeFor, Fresh, BootTree, VaOf;
    BootState(f, words, bytes, pmm);
    BootRepresents(f, words, bytes, pmm, cpus);
    vm := new Vmm(tables, bytes, pmm, f.p4, tab);
    ghost var s0 := Boot(pmm, bytes, {}, cpus);
    ghost var s1;
    assert View(s0) == map[] by { NothingSeen(s0); }
    root, s1 := NewUserSpace(vm, c, s0);
    s := MapUserPage(vm, root, virt, flags, content, c, s1);
    RunsTrans(s0, s1, s, c);
  }

  lemma NothingSeen(s: Sys)
    requires s.leaf == map[]
    ensures View(s) == map[]
  {
  }

  // ----- what goes wrong

  /** What mapping one new page leaves: the entry, and the tables there were. */
  lemma OnePage(t: Tree, t': Tree, pmm: Frames.Frames, pmm': Frames.Frames, root: nat, va: Va, e: Entry)
    requires Ok(t) && Ok(t') && ValidVa(va) && !e.flags.huge && MapsTo(t, t', root, va, e) && Spent(t, t', pmm, pmm')
    ensures Walk(t', root, va) == Small(e) && PtPlace(root, va) in t'.tab && forall r :: P4(r) in t.tab ==>
      P4(r) in t'.tab
  {
    assert Covers(root, va, false, root, va);
  }

  lemma UnmapsOne(t: Tree, t': Tree, root: nat, va: Va)
    requires Ok(t) && Ok(t') && ValidVa(va) && Unmaps(t, t', root, va)
    ensures Walk(t', root, va).Absent?
  {
    hide Ok, Walk;
    assert Covers(root, va, Walk(t, root, va).Large?, root, va);
  }

  lemma OffsetSame(a: nat)
    requires a % PAGE_SIZE == 0
    ensures VaOf(a + 8) == VaOf(a) && (a + 8) % PAGE_SIZE == 8
  {
    var p := a / 0x1000;
    assert a == p * 0x1000 && (a + 8) / 0x1000 == p;
    assert a / 0x20_0000 == p / 512 && (a + 8) / 0x20_0000 == p / 512;
    assert a / 0x4000_0000 == p / 512 / 512 && (a + 8) / 0x4000_0000 == p / 512 / 512;
    assert a / 0x80_0000_0000 == p / 512 / 512 / 512 && (a + 8) / 0x80_0000_0000 == p / 512 / 512 / 512;
  }

  /** An address just unmapped is not translated to 0 but to its offset in the page. */
  method UnmappedOffset(vm: Vmm, root: nat, virt: nat, phys: nat, flags: Flags) returns (found: nat)
    requires vm.Valid() && P4(root) in vm.tab && virt + 8 < SPACE_SIZE && virt % PAGE_SIZE == 0 && !flags.huge &&
      |vm.pmm.free| >= 4
    requires Walk(vm.T(), root, VaOf(virt)).Absent?
    modifies vm`tables, vm`pmm, vm`tab
    ensures vm.Valid() && found == 8 && Walk(vm.T(), root, VaOf(virt + 8)).Absent?
  {
    hide StateOk, Ok, SameWalks, VaOf, Spent, WordsKept, GrowsTo, Reached, MapsTo, Walk, Unmaps, EntryFor;
    ghost var t, pmm := vm.T(), vm.pmm;
    StateTree(t, pmm);
    vm.Map(root, virt, phys, flags);
    StateTree(vm.T(), vm.pmm);
    OnePage(t, vm.T(), pmm, vm.pmm, root, VaOf(virt), EntryFor(phys, flags));
    ghost var m := vm.T();
    vm.Unmap(root, virt);
    StateTree(vm.T(), vm.pmm);
    UnmapsOne(m, vm.T(), root, VaOf(virt));
    OffsetSame(virt);
    found := vm.GetPhys(root, virt + 8);
  }

  lemma SecondPage(virt: nat)
    requires virt % HUGE_SIZE == 0 && virt + HUGE_SIZE <= SPACE_SIZE
    ensures VaOf(virt) == PageWithNo(virt / PAGE_SIZE) && VaOf(virt + PAGE_SIZE).i == VaOf(virt).i == Pml4Index(virt)
    ensures PageNo(VaOf(virt + PAGE_SIZE)) == virt / PAGE_SIZE + 1
    ensures Within(VaOf(virt + PAGE_SIZE), virt, 2 * PAGE_SIZE) && RangeArgs(virt, 0, 2 * PAGE_SIZE) &&
      RoundUp(2 * PAGE_SIZE) == 2 * PAGE_SIZE
  {
    PageOfAddress(virt + PAGE_SIZE);
    var c := virt / 0x20_0000;
    assert virt == c * 0x20_0000 && virt / 0x1000 == c * 512 && (virt + PAGE_SIZE) / 0x1000 == c * 512 + 1;
    assert virt / PAGE_SIZE * PAGE_SIZE == virt;
    SameTop(virt, virt + PAGE_SIZE);
    hide PageNo, PdptIndex, PdIndex, PtIndex;
  }

  lemma SameTop(a: nat, b: nat)
    requires a % HUGE_SIZE == 0 && a <= b < a + HUGE_SIZE
    ensures Pml4Index(a) == Pml4Index(b)
  {
    var c := a / 0x20_0000;
    assert a == c * 0x20_0000 && b / 0x20_0000 == c;
    assert a / 0x80_0000_0000 == c / 0x4_0000 && b / 0x80_0000_0000 == c / 0x4_0000;
  }

  /** The pages of another space are not touched by an entry above the kernel slot. */
  lemma OtherSpace(t: Tree, t': Tree, root: nat, va: Va, e: Entry, r: nat, vb: Va)
    requires Ok(t) && Ok(t') && ValidVa(vb) && MapsTo(t, t', root, va, e) && r != root && vb.i > 0
    ensures Walk(t', r, vb) == Walk(t, r, vb)
  {
    hide Ok, Walk;
  }

  lemma LargeMappedAt(t: Tree, t': Tree, root: nat, va: Va, e: Entry)
    requires Ok(t) && Ok(t') && ValidVa(va) && MapsTo(t, t', root, va, e) && e.flags.huge
    ensures Walk(t', root, va) == Large(e)
  {
    hide Ok, Walk;
    assert Covers(root, va, true, root, va);
  }

  lemma RootsKept(t: Tree, t': Tree, pmm: Frames.Frames, pmm': Frames.Frames, p: Pos)
    requires Spent(t, t', pmm, pmm') || (p.P1? && t'.tab == t.tab - {p})
    ensures forall r :: P4(r) in t.tab ==> P4(r) in t'.tab
  {
  }

  lemma StillThere(t: Tree, t': Tree, root: nat, virt: nat, len: nat, vb: Va)
    requires Ok(t) && Ok(t') && ValidVa(vb) && EntriesGone(t, t', root, virt / PAGE_SIZE, (virt + len) / PAGE_SIZE)
    requires Within(vb, virt, len) && Walk(t, root, vb).Small? && Probe(t, virt / PAGE_SIZE) &&
      0 < PageNo(vb) - virt / PAGE_SIZE < 512
    ensures Walk(t', root, vb) == Walk(t, root, vb) && !Removable(t, root, virt, len)
  {
    SkippedPage(t, root, virt, len, vb);
    hide Ok, Walk, Cleared, PageNo;
    assert Sees(root, root, vb);
  }

  /** Unmapping two pages of a space where `current_pml4` happens to have a 2 MiB entry: the second one stays mapped. */
  method SkippedUnmap(vm: Vmm, root: nat, virt: nat, phys: nat, flags: Flags)
    requires vm.Valid() && P4(root) in vm.tab && P4(vm.kernel) in vm.tab && root != vm.kernel && Pml4Index(virt) > 0
    requires virt % HUGE_SIZE == 0 && virt + HUGE_SIZE <= SPACE_SIZE && !flags.huge && |vm.pmm.free| >= 7
    requires Walk(vm.T(), root, VaOf(virt + PAGE_SIZE)).Absent? && PtPlace(vm.kernel, VaOf(virt)) !in vm.tab
    modifies vm`tables, vm`pmm, vm`tab
    ensures vm.Valid() && Walk(vm.T(), root, VaOf(virt + PAGE_SIZE)).Small?
  {
    hide StateOk, Ok, SameWalks, VaOf, Spent, WordsKept, GrowsTo, Reached, MapsTo, Walk, EntriesGone, Removable,
         RangeUnmapped, EntryFor, PageWithNo, PageNo, Within, RangeArgs;
    ghost var t, pmm := vm.T(), vm.pmm;
    SecondPage(virt);
    StateTree(t, pmm);
    vm.Map(vm.kernel, virt, phys, flags.(huge := true));
    ghost var m, pmm1 := vm.T(), vm.pmm;
    StateTree(m, pmm1);
    RootsKept(t, m, pmm, pmm1, PtPlace(vm.kernel, VaOf(virt)));
    LargeMappedAt(t, m, vm.kernel, VaOf(virt), EntryFor(phys, flags.(huge := true)));
    OtherSpace(t, m, vm.kernel, VaOf(virt), EntryFor(phys, flags.(huge := true)), root, VaOf(virt + PAGE_SIZE));
    vm.Map(root, virt + PAGE_SIZE, phys, flags);
    ghost var n := vm.T();
    StateTree(n, vm.pmm);
    OnePage(m, n, pmm1, vm.pmm, root, VaOf(virt + PAGE_SIZE), EntryFor(phys, flags));
    OtherSpace(m, n, root, VaOf(virt + PAGE_SIZE), EntryFor(phys, flags), vm.kernel, VaOf(virt));
    UnmapRange(vm, root, virt, 2 * PAGE_SIZE);
    StateTree(vm.T(), vm.pmm);
    StillThere(n, vm.T(), root, virt, 2 * PAGE_SIZE, VaOf(virt + PAGE_SIZE));
  }
}
