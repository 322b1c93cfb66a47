/** The virtual memory manager: page tables written in place, entry by entry. */
module PageTables {
  import opened Common
  import opened Paging
  import opened Addresses
  import opened PageTree
  import Frames

  /** Both roots see the page through the same entry: the same root, or the shared kernel slot. */
  predicate Sees(r: nat, r': nat, va: Va) {
    Owner(r, va.i) == Owner(r', va.i)
  }

  ghost predicate SameWalks(t: Tree, t': Tree)
    requires Ok(t) && Ok(t')
  {
    forall r, va :: ValidVa(va) ==> Walk(t', r, va) == Walk(t, r, va)
  }

  /** The entry that `Map` writes. */
  function EntryFor(phys: nat, flags: Flags): (e: Entry)
    ensures e.flags == flags.(present := true)
  {
    Entry(if flags.huge then phys / HUGE_SIZE * 512 else phys / PAGE_SIZE, flags.(present := true))
  }

  /** The page `vb`, seen from `r'`, is covered by an entry for `va` seen from `r`. */
  predicate Covers(r: nat, va: Va, huge: bool, r': nat, vb: Va) {
    Owner(r, va.i) == Owner(r', vb.i) && va.i == vb.i && va.j == vb.j && va.k == vb.k && (huge || va.l == vb.l)
  }

  ghost predicate MapsTo(t: Tree, t': Tree, r: nat, va: Va, e: Entry)
    requires Ok(t) && Ok(t')
  {
    forall r', vb :: ValidVa(vb) ==>
      Walk(t', r', vb) ==
      if Covers(r, va, e.flags.huge, r', vb) then (if e.flags.huge then Large(e) else Small(e)) else Walk(t, r', vb)
  }

  /** The page has the new entry, and the rest of the 2 MiB entry it lay under is gone. */
  ghost predicate MapsOver(t: Tree, t': Tree, r: nat, va: Va, e: Entry)
    requires Ok(t) && Ok(t')
  {
    forall r', vb :: ValidVa(vb) ==>
      Walk(t', r', vb) ==
      if Covers(r, va, false, r', vb) then Small(e) else if Covers(r, va, true, r', vb) then Absent
      else Walk(t, r', vb)
  }

  /** A 2 MiB entry for physical 0: to the kernel it looks like a null pointer. */
  predicate NullLarge(w: Leaf) {
    w.Large? && w.e.frame == 0
  }

  /** A 2 MiB entry for other memory, which the kernel takes for one that leads to a table. */
  predicate FullLarge(w: Leaf) {
    w.Large? && w.e.frame != 0
  }

  ghost predicate NullEntry(t: Tree, p: Pos, n: nat) {
    p.P2? && Has(t, p) && n < ENTRIES && At(t, p, n).flags.huge && At(t, p, n).frame == 0
  }

  ghost predicate FullEntry(t: Tree, p: Pos, n: nat) {
    p.P2? && Has(t, p) && n < ENTRIES && At(t, p, n).flags.huge && At(t, p, n).frame != 0
  }

  /** The pages under the entry are gone, and all others are as they were. */
  ghost predicate Wipes(t: Tree, t': Tree, p: Pos, n: nat)
    requires Ok(t) && Ok(t')
  {
    forall r, va :: ValidVa(va) ==> Walk(t', r, va) == if Under(p, n, r, va) then Absent else Walk(t, r, va)
  }

  ghost predicate Unmaps(t: Tree, t': Tree, r: nat, va: Va)
    requires Ok(t) && Ok(t') && ValidVa(va)
  {
    forall r', vb :: ValidVa(vb) ==>
      Walk(t', r', vb) == if Covers(r, va, Walk(t, r, va).Large?, r', vb) then Absent else Walk(t, r', vb)
  }

  /** The physical address an entry gives to a virtual address it maps. */
  function Phys(leaf: Leaf, a: nat): nat
    requires !leaf.Absent?
  {
    if leaf.Large? then leaf.e.frame / 512 * HUGE_SIZE + a % HUGE_SIZE else leaf.e.frame * PAGE_SIZE + a % PAGE_SIZE
  }

  /** A nonzero `next` is the table below entry `n` of the one at `p`. */
  ghost predicate Leads(tab: map<Pos, nat>, p: Pos, n: nat, next: nat)
    requires !p.P1?
  {
    next != 0 ==> Child(p, n) in tab && tab[Child(p, n)] == next
  }

  /** At most the table at `q` has been added, and then exactly one frame was taken for it. */
  ghost predicate Grows(t: Tree, t': Tree, pmm: Frames.Frames, pmm': Frames.Frames, q: Pos) {
    if q in t.tab || pmm.free == [] then t' == t && pmm' == pmm
    else pmm' == Frames.Take(pmm) && t'.tab == t.tab[q := Frames.Top(pmm)] && t'.kernel == t.kernel
  }

  lemma WalksRefl(t: Tree)
    requires Ok(t)
    ensures SameWalks(t, t) && WordsKept(t, t) && LinksKept(t, t)
  {
    LinksSame(t);
  }

  lemma WalksTrans(t: Tree, m: Tree, t': Tree)
    requires Ok(t) && Ok(m) && Ok(t') && SameWalks(t, m) && SameWalks(m, t')
    ensures SameWalks(t, t')
  {
  }

  /** The place is on the way from `r` to the entry for `va`. */
  predicate OnPath(p: Pos, r: nat, va: Va, huge: bool) {
    var o := Owner(r, va.i);
    match p
    case P4(_) => false
    case P3(o', i) => o' == o && i == va.i
    case P2(o', i, j) => o' == o && i == va.i && j == va.j
    case P1(o', i, j, k) => !huge && o' == o && i == va.i && j == va.j && k == va.k
  }

  /** New tables stand only on the way to the page. */
  ghost predicate GrowsTo(t: Tree, t': Tree, r: nat, va: Va, huge: bool) {
    t.tab.Keys <= t'.tab.Keys && forall p :: p in t'.tab && p !in t.tab ==> OnPath(p, r, va, huge)
  }

  /** One frame has been taken for each new table, and no frame for anything else. */
  ghost predicate Spent(t: Tree, t': Tree, pmm0: Frames.Frames, pmm: Frames.Frames) {
    && Frames.TakenSince(pmm0, pmm) && |pmm0.free| - |pmm.free| == |t'.tab| - |t.tab|
    && (forall p :: p in t.tab ==> p in t'.tab && t'.tab[p] == t.tab[p])
    && (forall p :: p in t'.tab && p !in t.tab ==> t'.tab[p] in pmm0.free && t'.tab[p] !in pmm.free)
    && (forall f :: f in pmm0.free && f !in pmm.free ==> Stands(t', f))
  }

  ghost predicate Stands(t: Tree, f: nat) {
    exists p :: p in t.tab && t.tab[p] == f
  }

  lemma SpentOn(t: Tree, m: Tree, t': Tree, pmm0: Frames.Frames, pmm: Frames.Frames, pmm': Frames.Frames, q: Pos)
    requires Spent(t, m, pmm0, pmm) && Grows(m, t', pmm, pmm', q) && Frames.Valid(pmm0) && Frames.Valid(pmm)
    ensures Spent(t, t', pmm0, pmm') && |pmm'.free| >= |pmm.free| - 1
  {
    if !(q in m.tab || pmm.free == []) {
      Frames.TakenOne(pmm0, pmm);
      Frames.TakenTop(pmm);
      NewKey(m.tab, q, Frames.Top(pmm));
      hide Frames.Valid, Frames.TakenSince, Frames.Take, Frames.Top, Stands;
      assert t'.tab[q] == Frames.Top(pmm);
      assert Stands(t', Frames.Top(pmm)) by { StandsAt(t', q); }
      forall f | f in pmm0.free && f !in pmm'.free
        ensures Stands(t', f)
      {
        if f != Frames.Top(pmm) {
          StandsStill(m, t', f);
        }
      }
    }
  }

  lemma StandsAt(t: Tree, p: Pos)
    requires p in t.tab
    ensures Stands(t, t.tab[p])
  {
  }

  lemma StandsStill(t: Tree, t': Tree, f: nat)
    requires Stands(t, f) && forall p :: p in t.tab ==> p in t'.tab && t'.tab[p] == t.tab[p]
    ensures Stands(t', f)
  {
    var p :| p in t.tab && t.tab[p] == f;
    assert t'.tab[p] == f;
  }

  lemma NewKey<K, V>(m: map<K, V>, k: K, v: V)
    requires k !in m
    ensures |m[k := v]| == |m| + 1
  {
    assert m[k := v].Keys == m.Keys + {k};
    assert |m[k := v].Keys| == |m[k := v]| && |m.Keys| == |m|;
  }

  /** Frames keep their 512 words. */
  ghost predicate WordsKept(t: Tree, t': Tree) {
    forall f :: f in t.tables && |t.tables[f]| == ENTRIES ==> f in t'.tables && |t'.tables[f]| == ENTRIES
  }

  lemma WordsOn(t: Tree, m: Tree, t': Tree)
    requires WordsKept(t, m) && WordsKept(m, t')
    ensures WordsKept(t, t')
  {
  }

  /** All tables on the way to the entry exist already. */
  ghost predicate Reached(t: Tree, r: nat, va: Va, huge: bool) {
    forall p: Pos :: OnPath(p, r, va, huge) ==> p in t.tab
  }

  /** How far a mapping has come before it writes its entry: no translation has changed, and nothing at all
      if the tables were there. */
  ghost predicate Walked(t: Tree, m: Tree, pmm0: Frames.Frames, pmm: Frames.Frames, r: nat, va: Va, huge: bool) {
    && Ok(t) && Ok(m) && SameWalks(t, m) && GrowsTo(t, m, r, va, huge) && Spent(t, m, pmm0, pmm) && WordsKept(t, m)
    && LinksKept(t, m)
    && (Reached(t, r, va, huge) ==> m == t && pmm == pmm0)
  }

  lemma WalkStart(t: Tree, pmm: Frames.Frames, r: nat, va: Va, huge: bool)
    requires StateOk(t, pmm)
    ensures Walked(t, t, pmm, pmm, r, va, huge)
  {
    LinksSame(t);
    hide Ok, LinksKept;
  }

  lemma WalkOn(t: Tree, m: Tree, t': Tree, pmm0: Frames.Frames, pmm: Frames.Frames, pmm': Frames.Frames, q: Pos, r: nat,
               va: Va, huge: bool)
    requires Walked(t, m, pmm0, pmm, r, va, huge) && Ok(t') && SameWalks(m, t') && Grows(m, t', pmm, pmm', q) &&
      OnPath(q, r, va, huge)
    requires Frames.Valid(pmm0) && Frames.Valid(pmm) && WordsKept(m, t') && LinksKept(m, t')
    ensures Walked(t, t', pmm0, pmm', r, va, huge) && |pmm'.free| >= |pmm.free| - 1
    ensures q !in m.tab ==> !Reached(t, r, va, huge)
  {
    hide Ok, Frames.Valid, Spent;
    WalksTrans(t, m, t');
    WordsOn(t, m, t');
    LinksOn(t, m, t');
    hide WordsKept, LinksKept;
    SpentOn(t, m, t', pmm0, pmm, pmm', q);
    hide SameWalks;
  }

  lemma NoRoom(t: Tree, t': Tree, pmm0: Frames.Frames, pmm: Frames.Frames, r: nat, va: Va, huge: bool)
    requires Walked(t, t', pmm0, pmm, r, va, huge)
    ensures GrowsTo(t, t', r, va, huge) && SameWalks(t, t') && Spent(t, t', pmm0, pmm) && WordsKept(t, t')
    ensures LinksKept(t, t')
  {
    hide Ok, Spent, WordsKept, LinksKept;
  }

  /** The place of the page table on the way to a page. */
  function PtPlace(r: nat, va: Va): Pos {
    P1(Owner(r, va.i), va.i, va.j, va.k)
  }

  /** The directory entry on the way to a page: huge exactly if the walk ends there. */
  lemma WalkEntry(t: Tree, m: Tree, r: nat, va: Va)
    requires Ok(t) && Ok(m) && SameWalks(t, m) && ValidVa(va) && P2(Owner(r, va.i), va.i, va.j) in m.tab
    ensures var p := P2(Owner(r, va.i), va.i, va.j);
      Has(m, p) && if At(m, p, va.k).flags.huge then Walk(t, r, va) == Large(At(m, p, va.k)) else !Walk(t, r, va).Large?
  {
    assert Has(m, P2(Owner(r, va.i), va.i, va.j));
    assert Walk(m, r, va) == Walk(t, r, va);
  }

  /** A page table hangs from the tables above it. */
  lemma PtReached(t: Tree, r: nat, va: Va)
    requires Ok(t)
    ensures PtPlace(r, va) in t.tab ==> Reached(t, r, va, true)
  {
    if PtPlace(r, va) in t.tab {
      assert PlaceOk(t, PtPlace(r, va)) && PlaceOk(t, P2(Owner(r, va.i), va.i, va.j));
    }
  }

  /** What mapping a single page leaves, from state to state. */
  ghost predicate LeafDone(t: Tree, t': Tree, pmm: Frames.Frames, pmm': Frames.Frames, r: nat, va: Va, e: Entry) {
    && Ok(t) && Ok(t') && ValidVa(va) && WordsKept(t, t') && LinksKept(t, t')
    && Spent(t, t', pmm, pmm') && GrowsTo(t, t', r, va, false) && |pmm.free| - |pmm'.free| <= 3
    && (Reached(t, r, va, false) ==> t'.tab == t.tab && pmm' == pmm)
    && var w := Walk(t, r, va);
    if FullLarge(w) then
      && w.e.frame in t.tables && va.l < |t.tables[w.e.frame]| && pmm' == pmm && t'.tab == t.tab && SameWalks(t, t')
      && t'.tables == t.tables[w.e.frame := t.tables[w.e.frame][va.l := e]]
    else if NullLarge(w) then if pmm.free == [] then t' == t && pmm' == pmm else MapsOver(t, t', r, va, e)
    else MapsTo(t, t', r, va, e) || (pmm'.free == [] && SameWalks(t, t') && !Reached(t, r, va, false))
  }

  /** The tree is in order, and no table stands in a free frame. */
  ghost predicate StateOk(t: Tree, pmm: Frames.Frames) {
    && Ok(t) && Frames.Valid(pmm)
    && (forall p :: p in t.tab ==> t.tab[p] !in pmm.free)
    && (forall f :: f in pmm.refs ==> f in t.tables && |t.tables[f]| == ENTRIES)
  }

  /** What the walk finds at an entry above the last level. */
  lemma EntryRead(t: Tree, p: Pos, n: nat)
    requires Ok(t) && p in t.tab && !p.P1? && n < ENTRIES
    ensures Has(t, p) && t.tab[p] != 0
    ensures var e := At(t, p, n);
      if p.P2? && e.flags.huge then e.flags.present
      else if e.flags.present then Leads(t.tab, p, n, e.frame) && e.frame != 0 else Child(p, n) !in t.tab
  {
    assert LinkOk(t, p, n);
  }

  /** What the entry says about the table below, and that nothing need be done if there is one. */
  lemma EntryStands(t: Tree, pmm: Frames.Frames, p: Pos, n: nat)
    requires StateOk(t, pmm) && p in t.tab && !p.P1? && n < ENTRIES
    ensures Ok(t) && Frames.Valid(pmm) && Has(t, p) && t.tab[p] != 0
    ensures var e := At(t, p, n);
      if e.flags.present && e.frame != 0 then FullEntry(t, p, n) ||
        (!(p.P2? && e.flags.huge) && Leads(t.tab, p, n, e.frame) && Grows(t, t, pmm, pmm, Child(p, n)))
      else (p.P2? && e.flags.huge ==> NullEntry(t, p, n)) && Child(p, n) !in t.tab &&
           (pmm.free == [] ==> Leads(t.tab, p, n, 0) && Grows(t, t, pmm, pmm, Child(p, n)))
  {
    EntryRead(t, p, n);
    assert LinkOk(t, p, n);
    hide Ok, Frames.Valid;
  }

  lemma AddedWords(t: Tree, p: Pos, n: nat, f: nat, e: Entry)
    requires Has(t, p) && n < ENTRIES && !p.P1? && t.tab[p] != f
    ensures var words := t.tables[f := ZeroTable()];
      AddTable(t, p, n, f, e) == t.(tables := words[t.tab[p] := words[t.tab[p]][n := e]],
                                    tab := t.tab[Child(p, n) := f])
  {
  }

  lemma AddedKept(t: Tree, p: Pos, n: nat, f: nat, e: Entry)
    requires Has(t, p) && n < ENTRIES && !p.P1?
    ensures WordsKept(t, AddTable(t, p, n, f, e))
  {
  }

  lemma AddedState(t: Tree, t': Tree, pmm: Frames.Frames, p: Pos)
    requires StateOk(t, pmm) && pmm.free != [] && Ok(t') && WordsKept(t, t')
    requires t'.tab == t.tab[p := Frames.Top(pmm)]
    ensures StateOk(t', Frames.Take(pmm))
  {
    Frames.TakeValid(pmm);
    hide Frames.Valid, Ok, Frames.Top;
  }

  /** Linking a zeroed frame into a clear entry, or over a 2 MiB entry that looks like a null pointer. */
  lemma Extended(t: Tree, t': Tree, pmm: Frames.Frames, p: Pos, n: nat)
    requires StateOk(t, pmm) && pmm.free != [] && p in t.tab && !p.P1? && n < ENTRIES && Child(p, n) !in t.tab
    requires Has(t, p) && t' == AddTable(t, p, n, Frames.Top(pmm), Entry(Frames.Top(pmm), LINK))
    ensures StateOk(t', Frames.Take(pmm)) && Ok(t) && Ok(t') && Wipes(t, t', p, n) && LinksKept(t, t')
    ensures !(p.P2? && At(t, p, n).flags.huge) ==> SameWalks(t, t')
    ensures Grows(t, t', pmm, Frames.Take(pmm), Child(p, n))
    ensures Leads(t'.tab, p, n, Frames.Top(pmm)) && Frames.Top(pmm) != t.tab[p] && WordsKept(t, t')
  {
    Frames.TakeValid(pmm);
    var f := Frames.Top(pmm);
    assert f in pmm.free;
    hide Frames.Valid;
    AddedTable(t, t', p, n, f, Entry(f, LINK));
    AddedKept(t, p, n, f, Entry(f, LINK));
    AddTableLinksKept(t, p, n, f, Entry(f, LINK));
    hide Ok, SameWalks, Wipes, LinksKept, At, ZeroTable, WordsKept;
    AddedState(t, t', pmm, Child(p, n));
    hide StateOk;
  }

  /** The page tables in memory and the frame allocator, as the functions of `vmm.c` use them. */
  class Vmm {
    var tables: map<nat, seq<Entry>>   // the words of every frame, as table entries
    var bytes: map<nat, seq<Byte>>     // the bytes of every frame
    var pmm: Frames.Frames
    var kernel: nat                    // current_pml4
    ghost var tab: map<Pos, nat>       // which frame is the table at each place

    ghost function T(): Tree
      reads this
    {
      Tree(tables, tab, kernel)
    }

    ghost predicate Valid()
      reads this
    {
      StateOk(T(), pmm)
    }

    /** `vmm_init`, with the tables the CPU runs on: `root` is what CR3 holds. */
    constructor (tables: map<nat, seq<Entry>>, bytes: map<nat, seq<Byte>>, pmm: Frames.Frames, root: nat,
                 ghost tab: map<Pos, nat>)
      requires StateOk(Tree(tables, tab, root), pmm)
      ensures Valid() && T() == Tree(tables, tab, root) && this.bytes == bytes && this.pmm == pmm
    {
      this.tables, this.bytes, this.pmm, this.kernel, this.tab := tables, bytes, pmm, root, tab;
    }

    /** A frame with every entry cleared, or 0 when none is free. */
    method AllocZeroedTable() returns (next: nat)
      requires Valid()
      modifies `tables, `pmm
      ensures old(pmm).free == [] ==> next == 0 && tables == old(tables) && pmm == old(pmm)
      ensures old(pmm).free != [] ==>
        next == Frames.Top(old(pmm)) && next != 0 && pmm == Frames.Take(old(pmm)) &&
        tables == old(tables)[next := ZeroTable()]
    {
      if pmm.free == [] {
        return 0;
      }
      Frames.TakeValid(pmm);
      next := Frames.Top(pmm);
      pmm := Frames.Take(pmm);
      var words := tables[next];
      for n := 0 to ENTRIES
        invariant |words| == ENTRIES && forall m :: 0 <= m < n ==> words[m] == Clear
      {
        words := words[n := Clear];
      }
      assert words == ZeroTable();
      tables := tables[next := words];
    }

    /** The table below entry `index`, created if the entry is clear; 0 when no frame is left for it. No translation
        changes. A 2 MiB entry is taken for one that leads to a table: the result is the first frame it maps. If that is
        frame 0 the entry counts as clear, and the new table takes its place. */
    method EnsureNextTable(table: nat, index: nat, ghost p: Pos) returns (next: nat)
      requires Valid() && p in tab && tab[p] == table && !p.P1? && index < ENTRIES
      modifies `tables, `pmm, `tab
      ensures Valid() && Has(old(T()), p) && WordsKept(old(T()), T()) && LinksKept(old(T()), T())
      ensures !NullEntry(old(T()), p, index) ==> SameWalks(old(T()), T())
      ensures NullEntry(old(T()), p, index) && next != 0 ==> Wipes(old(T()), T(), p, index)
      ensures if FullEntry(old(T()), p, index) then
          next == At(old(T()), p, index).frame && T() == old(T()) && pmm == old(pmm)
        else
          && Leads(tab, p, index, next) && Grows(old(T()), T(), old(pmm), pmm, Child(p, index))
          && (next == 0 ==> T() == old(T()) && pmm == old(pmm) && pmm.free == [] && Child(p, index) !in old(tab))
    {
      ghost var t := T();
      EntryStands(t, pmm, p, index);
      WalksRefl(t);
      hide StateOk, Ok, SameWalks, Wipes, LinksKept, Frames.Valid, Leads, Grows, WordsKept;
      var entry := tables[table][index];
      if entry.flags.present && entry.frame != 0 {
        return entry.frame;
      }
      next := AllocZeroedTable();
      if next == 0 {
        return;
      }
      Extended(t, AddTable(t, p, index, next, Entry(next, LINK)), old(pmm), p, index);
      AddedWords(t, p, index, next, Entry(next, LINK));
      tables := tables[table := tables[table][index := Entry(next, LINK)]];
      tab := tab[Child(p, index) := next];
      assert T() == AddTable(t, p, index, next, Entry(next, LINK));
      hide AddTable;
    }

    /** The first two levels of a mapping: the page directory on the way to the page, or 0 when frames ran out. */
    method ReachDirectory(root: nat, virt: nat, ghost huge: bool) returns (pd: nat)
      requires Valid() && P4(root) in tab && virt < SPACE_SIZE
      modifies `tables, `pmm, `tab
      ensures Valid() && Walked(old(T()), T(), old(pmm), pmm, root, VaOf(virt), huge) &&
        |old(pmm).free| - |pmm.free| <= 2
      ensures var va := VaOf(virt);
        var p := P2(Owner(root, va.i), va.i, va.j);
        && (if pd == 0 then pmm.free == [] && !Reached(old(T()), root, va, huge) else p in tab && tab[p] == pd)
        && (p in old(tab) ==> pd != 0 && T() == old(T()) && pmm == old(pmm))
    {
      hide StateOk, Ok, SameWalks, Frames.Valid, Walked, Reached;
      ghost var va := VaOf(virt);
      ghost var o := Owner(root, va.i);
      ghost var t := T();
      StateTree(t, pmm);
      RootTable(t, root);
      DirectoryPath(t, o, va.i, va.j);
      WalkStart(t, pmm, root, va, huge);
      var pdpt := EnsureNextTable(root, Pml4Index(virt), P4(root));
      ghost var t3, pmm3 := T(), pmm;
      StateTree(t3, pmm3);
      WalkOn(t, t, t3, old(pmm), old(pmm), pmm3, P3(o, va.i), root, va, huge);
      if pdpt == 0 {
        return 0;
      }
      pd := EnsureNextTable(pdpt, PdptIndex(virt), P3(o, va.i));
      ghost var t2, pmm2 := T(), pmm;
      StateTree(t2, pmm2);
      WalkOn(t, t3, t2, old(pmm), pmm3, pmm2, P2(o, va.i, va.j), root, va, huge);
    }

    /** Map one page, or one 2 MiB chunk when the flags say huge. Every root that sees it now finds exactly this entry
        and nothing else has changed; or the frames ran out on the way and no translation has changed; or the page lies
        under a 2 MiB entry. Then the new entry goes into a word of the memory that one maps, except that a 2 MiB entry
        for physical 0 gives way to a page table with this one entry, and the other 511 pages are gone. */
    method Map(root: nat, virt: nat, phys: nat, flags: Flags)
      requires Valid() && P4(root) in tab && virt < SPACE_SIZE
      requires !flags.huge && FullLarge(Walk(T(), root, VaOf(virt))) ==>
        NoTable(T(), Walk(T(), root, VaOf(virt)).e.frame)
      modifies `tables, `pmm, `tab
      ensures Valid() && WordsKept(old(T()), T()) && LinksKept(old(T()), T())
      ensures !flags.huge && FullLarge(Walk(old(T()), root, VaOf(virt))) ==>
        var f := Walk(old(T()), root, VaOf(virt)).e.frame;
        && f in old(tables) && PtIndex(virt) < |old(tables)[f]| && pmm == old(pmm) && tab == old(tab)
        && SameWalks(old(T()), T())
        && tables == old(tables)[f := old(tables)[f][PtIndex(virt) := EntryFor(phys, flags)]]
      ensures !flags.huge && NullLarge(Walk(old(T()), root, VaOf(virt))) ==>
        if old(pmm).free == [] then T() == old(T()) && pmm == old(pmm)
        else MapsOver(old(T()), T(), root, VaOf(virt), EntryFor(phys, flags))
      ensures flags.huge || !Walk(old(T()), root, VaOf(virt)).Large? ==>
        MapsTo(old(T()), T(), root, VaOf(virt), EntryFor(phys, flags)) ||
        (pmm.free == [] && SameWalks(old(T()), T()) && !Reached(old(T()), root, VaOf(virt), flags.huge))
      ensures var p := PtPlace(root, VaOf(virt));
        if flags.huge && p in old(tab) then pmm == old(pmm) && tab == old(tab) - {p}
        else
          && Spent(old(T()), T(), old(pmm), pmm) && GrowsTo(old(T()), T(), root, VaOf(virt), flags.huge)
          && |old(pmm).free| - |pmm.free| <= 3
          && (Reached(old(T()), root, VaOf(virt), flags.huge) ==> tab == old(tab) && pmm == old(pmm))
    {
      hide StateOk, Ok, SameWalks, MapsTo, MapsOver, Wipes, Walk, Frames.Valid, GrowsTo, Reached, Walked, Grows,
           EntryFor, Spent, NoTable, LinksKept, WordsKept;
      ghost var va := VaOf(virt);
      ghost var t, pmm0 := T(), pmm;
      StateTree(t, pmm);
      if Walk(t, root, va).Large? {
        LargeReached(t, root, va);
      }
      var pd := ReachDirectory(root, virt, flags.huge);
      ghost var t2, pmm2 := T(), pmm;
      StateTree(t2, pmm2);
      NoRoom(t, t2, old(pmm), pmm2, root, va, flags.huge);
      if pd == 0 {
        PtReached(t, root, va);
        return;
      }
      if flags.huge {
        HugeWritten(t, t2, old(pmm), pmm, root, va, EntryFor(phys, flags));
        tables := tables[pd := tables[pd][PdIndex(virt) := EntryFor(phys, flags)]];
        tab := tab - {PtPlace(root, va)};
        return;
      }
      MapLeaf(root, virt, phys, flags, pd, t, pmm0);
    }

    /** The last level: the page table, and the entry in it. */
    method MapLeaf(root: nat, virt: nat, phys: nat, flags: Flags, pd: nat, ghost t: Tree, ghost pmm0: Frames.Frames)
      requires Valid() && virt < SPACE_SIZE && !flags.huge && Walked(t, T(), pmm0, pmm, root, VaOf(virt), false)
      requires var va := VaOf(virt);
        P2(Owner(root, va.i), va.i, va.j) in tab && tab[P2(Owner(root, va.i), va.i, va.j)] == pd &&
        (Walk(t, root, va).Large? ==> T() == t && pmm == pmm0) &&
        (FullLarge(Walk(t, root, va)) ==> NoTable(t, Walk(t, root, va).e.frame))
      requires StateOk(t, pmm0) && |pmm0.free| - |pmm.free| <= 2
      modifies `tables, `pmm, `tab
      ensures Valid() && LeafDone(t, T(), pmm0, pmm, root, VaOf(virt), EntryFor(phys, flags))
    {
      hide StateOk, Ok, SameWalks, MapsTo, MapsOver, Wipes, Walk, Frames.Valid, GrowsTo, Reached, Walked, Grows,
           EntryFor, Spent, NoTable, LinksKept, WordsKept;
      ghost var va := VaOf(virt);
      StateTree(t, pmm0);
      StateTree(T(), pmm);
      ghost var w, e, p := Walk(t, root, va), EntryFor(phys, flags), PtPlace(root, va);
      ghost var t2, pmm2 := T(), pmm;
      NoRoom(t, t2, pmm0, pmm2, root, va, false);
      WalkEntry(t, t2, root, va);
      if w.Large? {
        LargeReached(t, root, va);
      }
      var pt := EnsureNextTable(pd, PdIndex(virt), P2(Owner(root, va.i), va.i, va.j));
      ghost var t1, pmm1 := T(), pmm;
      StateTree(t1, pmm1);
      if FullLarge(w) {
        WordWritten(t, pmm0, root, va, e);
      } else if w.Large? {
        NullGrown(t, t1, pmm0, pmm1, root, va);
        if pt != 0 {
          NullWritten(t, t1, pmm0, pmm1, root, va, e);
        }
      } else {
        WalkOn(t, t2, t1, pmm0, pmm2, pmm1, p, root, va, false);
        NoRoom(t, t1, pmm0, pmm1, root, va, false);
        if pt != 0 {
          LeafWritten(t, t1, pmm0, pmm1, root, va, e);
        }
      }
      if pt == 0 {
        return;
      }
      tables := tables[pt := tables[pt][PtIndex(virt) := EntryFor(phys, flags)]];
      StateTree(T(), pmm);
    }

    /** The physical address of a virtual one. For an unmapped address the result is the offset in the page if there is
        a page table for it, and 0 otherwise. */
    method GetPhys(root: nat, virt: nat) returns (phys: nat)
      requires Valid() && P4(root) in tab && virt < SPACE_SIZE
      ensures var leaf := Walk(T(), root, VaOf(virt));
        phys == if leaf.Absent? then (if PtPlace(root, VaOf(virt)) in tab then virt % PAGE_SIZE else 0)
        else Phys(leaf, virt)
    {
      ghost var va := VaOf(virt);
      ghost var o := Owner(root, va.i);
      assert LinkOk(T(), P4(root), va.i);
      if !tables[root][Pml4Index(virt)].flags.present { return 0; }
      var pdpt := tables[root][Pml4Index(virt)].frame;
      assert LinkOk(T(), P3(o, va.i), va.j);
      if !tables[pdpt][PdptIndex(virt)].flags.present { return 0; }
      var pd := tables[pdpt][PdptIndex(virt)].frame;
      assert LinkOk(T(), P2(o, va.i, va.j), va.k);
      var e := tables[pd][PdIndex(virt)];
      if e.flags.huge {
        return e.frame / 512 * HUGE_SIZE + virt % HUGE_SIZE;
      }
      if !e.flags.present { return 0; }
      var pt := e.frame;
      assert LinkOk(T(), P1(o, va.i, va.j, va.k), va.l);
      return tables[pt][PtIndex(virt)].frame * PAGE_SIZE + virt % PAGE_SIZE;
    }

    /** The flags of the entry that maps an address, all clear when none does. */
    method GetFlags(root: nat, virt: nat) returns (flags: Flags)
      requires Valid() && P4(root) in tab && virt < SPACE_SIZE
      ensures var leaf := Walk(T(), root, VaOf(virt));
        flags == if leaf.Absent? then NoFlags else leaf.e.flags
    {
      ghost var va := VaOf(virt);
      ghost var o := Owner(root, va.i);
      assert LinkOk(T(), P4(root), va.i);
      if !tables[root][Pml4Index(virt)].flags.present { return NoFlags; }
      var pdpt := tables[root][Pml4Index(virt)].frame;
      assert LinkOk(T(), P3(o, va.i), va.j);
      if !tables[pdpt][PdptIndex(virt)].flags.present { return NoFlags; }
      var pd := tables[pdpt][PdptIndex(virt)].frame;
      assert LinkOk(T(), P2(o, va.i, va.j), va.k);
      var e := tables[pd][PdIndex(virt)];
      if e.flags.huge {
        return e.flags;
      }
      if !e.flags.present { return NoFlags; }
      var pt := e.frame;
      assert LinkOk(T(), P1(o, va.i, va.j, va.k), va.l);
      return tables[pt][PtIndex(virt)].flags;
    }

    /** Whether `current_pml4` has a huge entry at the address: the step probe of `vmm_unmap_range`. */
    method HugeAt(virt: nat) returns (huge: bool)
      requires Valid() && virt < SPACE_SIZE
      ensures huge == Walk(T(), kernel, VaOf(virt)).Large?
    {
      ghost var va := VaOf(virt);
      ghost var o := Owner(kernel, va.i);
      assert PlaceOk(T(), P4(kernel)) && LinkOk(T(), P4(kernel), va.i);
      if !tables[kernel][Pml4Index(virt)].flags.present { return false; }
      var pdpt := tables[kernel][Pml4Index(virt)].frame;
      assert LinkOk(T(), P3(o, va.i), va.j);
      if !tables[pdpt][PdptIndex(virt)].flags.present { return false; }
      var pd := tables[pdpt][PdptIndex(virt)].frame;
      assert LinkOk(T(), P2(o, va.i, va.j), va.k);
      return tables[pd][PdIndex(virt)].flags.huge;
    }

    /** Clear the entry that maps an address: its page, or the whole chunk of a huge entry. */
    method Unmap(root: nat, virt: nat)
      requires Valid() && P4(root) in tab && virt < SPACE_SIZE
      modifies `tables
      ensures Valid() && Unmaps(old(T()), T(), root, VaOf(virt))
    {
      ghost var va := VaOf(virt);
      ghost var o := Owner(root, va.i);
      ghost var t := T();
      assert LinkOk(t, P4(root), va.i);
      if !tables[root][Pml4Index(virt)].flags.present { return; }
      var pdpt := tables[root][Pml4Index(virt)].frame;
      assert LinkOk(t, P3(o, va.i), va.j);
      if !tables[pdpt][PdptIndex(virt)].flags.present { return; }
      var pd := tables[pdpt][PdptIndex(virt)].frame;
      assert LinkOk(t, P2(o, va.i, va.j), va.k);
      var e := tables[pd][PdIndex(virt)];
      if e.flags.huge {
        SetHugeOk(t, P2(o, va.i, va.j), va.k, Clear);
        tables := tables[pd := tables[pd][PdIndex(virt) := Clear]];
        forall r, vb | ValidVa(vb) {
          SetHugeWalk(t, P2(o, va.i, va.j), va.k, Clear, r, vb);
        }
      } else if e.flags.present {
        var pt := e.frame;
        SetLeafOk(t, P1(o, va.i, va.j, va.k), va.l, Clear);
        tables := tables[pt := tables[pt][PtIndex(virt) := Clear]];
        forall r, vb | ValidVa(vb) {
          SetLeafWalk(t, P1(o, va.i, va.j, va.k), va.l, Clear, r, vb);
        }
      }
    }
  }

  lemma DirectoryPath(t: Tree, o: nat, i: nat, j: nat)
    requires Ok(t)
    ensures P2(o, i, j) in t.tab ==> P3(o, i) in t.tab
  {
    assert P2(o, i, j) in t.tab ==> PlaceOk(t, P2(o, i, j));
  }

  lemma RootTable(t: Tree, r: nat)
    requires Ok(t) && P4(r) in t.tab
    ensures t.tab[P4(r)] == r
  {
    assert PlaceOk(t, P4(r));
  }

  lemma AddedTable(t: Tree, t': Tree, p: Pos, n: nat, f: nat, e: Entry)
    requires Ok(t) && CanAdd(t, p, n, f, e) && t' == AddTable(t, p, n, f, e)
    ensures Ok(t') && Wipes(t, t', p, n) && (!(p.P2? && At(t, p, n).flags.huge) ==> SameWalks(t, t'))
  {
    AddTableOk(t, p, n, f, e);
    forall r, va | ValidVa(va)
      ensures Walk(t', r, va) == if Under(p, n, r, va) then Absent else Walk(t, r, va)
      ensures !(p.P2? && At(t, p, n).flags.huge) ==> Walk(t', r, va) == Walk(t, r, va)
    {
      AddTableWalk(t, p, n, f, e, r, va);
    }
  }

  /** The page table that takes the place of a 2 MiB entry. */
  lemma NullGrown(t: Tree, t': Tree, pmm: Frames.Frames, pmm': Frames.Frames, r: nat, va: Va)
    requires StateOk(t, pmm) && Frames.Valid(pmm) && Grows(t, t', pmm, pmm', PtPlace(r, va))
    ensures Spent(t, t', pmm, pmm') && GrowsTo(t, t', r, va, false) && |pmm'.free| >= |pmm.free| - 1
    ensures pmm.free == [] ==> t' == t && pmm' == pmm
  {
    hide Frames.Valid, Ok;
    SpentNothing(t, t, pmm, r, va);
    SpentOn(t, t, t', pmm, pmm, pmm', PtPlace(r, va));
    hide Spent;
  }

  /** Writing the entry into it. */
  lemma NullWritten(t: Tree, m: Tree, pmm0: Frames.Frames, pmm: Frames.Frames, r: nat, va: Va, e: Entry)
    requires StateOk(m, pmm) && Ok(t) && Ok(m) && Wipes(t, m, P2(Owner(r, va.i), va.i, va.j), va.k) && ValidVa(va)
    requires Spent(t, m, pmm0, pmm) && GrowsTo(t, m, r, va, false) && WordsKept(t, m) && LinksKept(t, m)
    requires e.flags.present && !e.flags.huge && PtPlace(r, va) in m.tab
    ensures var p := PtPlace(r, va);
      && Has(m, p) && StateOk(SetEntry(m, p, va.l, e), pmm) && MapsOver(t, SetEntry(m, p, va.l, e), r, va, e)
      && GrowsTo(t, SetEntry(m, p, va.l, e), r, va, false) && Spent(t, SetEntry(m, p, va.l, e), pmm0, pmm)
      && WordsKept(t, SetEntry(m, p, va.l, e)) && LinksKept(t, SetEntry(m, p, va.l, e))
  {
    hide Spent, LinksKept;
    var p := PtPlace(r, va);
    SetLeafOk(m, p, va.l, e);
    var t' := SetEntry(m, p, va.l, e);
    LeafTables(t, m, pmm0, pmm, r, va, e);
    hide Frames.Valid;
    forall r', vb | ValidVa(vb)
      ensures Walk(t', r', vb) == if Covers(r, va, false, r', vb) then Small(e)
        else if Covers(r, va, true, r', vb) then Absent else Walk(t, r', vb)
    {
      SetLeafWalk(m, p, va.l, e, r', vb);
    }
    hide Walk, Ok;
  }

  /** The tables after an entry of the last level has been written. */
  lemma LeafTables(t: Tree, m: Tree, pmm0: Frames.Frames, pmm: Frames.Frames, r: nat, va: Va, e: Entry)
    requires Ok(m) && PtPlace(r, va) in m.tab && Has(m, PtPlace(r, va)) && ValidVa(va)
    requires Spent(t, m, pmm0, pmm) && GrowsTo(t, m, r, va, false) && WordsKept(t, m) && LinksKept(t, m)
    ensures var t' := SetEntry(m, PtPlace(r, va), va.l, e);
      Spent(t, t', pmm0, pmm) && GrowsTo(t, t', r, va, false) && WordsKept(t, t') && LinksKept(t, t')
  {
    var t' := SetEntry(m, PtPlace(r, va), va.l, e);
    SetLeafLinks(m, PtPlace(r, va), va.l, e);
    SamePlaces(t, m, t', pmm0, pmm, r, va, false);
    assert t.tab.Keys <= m.tab.Keys;
    LinksOn(t, m, t');
    hide LinksKept, Ok, Spent, GrowsTo;
  }

  lemma StateTree(t: Tree, pmm: Frames.Frames)
    requires StateOk(t, pmm)
    ensures Ok(t) && Frames.Valid(pmm)
  {
  }

  /** Writing a last-level entry, after a walk that changed no translation. */
  lemma LeafWritten(t: Tree, m: Tree, pmm0: Frames.Frames, pmm: Frames.Frames, r: nat, va: Va, e: Entry)
    requires StateOk(m, pmm) && Walked(t, m, pmm0, pmm, r, va, false) && ValidVa(va) && e.flags.present && !e.flags.huge
    requires PtPlace(r, va) in m.tab
    ensures var p := PtPlace(r, va);
      && Has(m, p) && Ok(t) && StateOk(SetEntry(m, p, va.l, e), pmm) && MapsTo(t, SetEntry(m, p, va.l, e), r, va, e)
      && GrowsTo(t, SetEntry(m, p, va.l, e), r, va, false) && Spent(t, SetEntry(m, p, va.l, e), pmm0, pmm)
      && WordsKept(t, SetEntry(m, p, va.l, e)) && LinksKept(t, SetEntry(m, p, va.l, e))
      && (Reached(t, r, va, false) ==> m.tab == t.tab && pmm == pmm0)
  {
    hide Reached, Spent, LinksKept, GrowsTo;
    var p := PtPlace(r, va);
    SetLeafOk(m, p, va.l, e);
    LeafTables(t, m, pmm0, pmm, r, va, e);
    hide Frames.Valid, WordsKept;
    WordState(m, SetEntry(m, p, va.l, e), pmm);
    hide StateOk;
    forall r', vb | ValidVa(vb)
      ensures Walk(SetEntry(m, p, va.l, e), r', vb) == if Covers(r, va, false, r', vb) then Small(e)
        else Walk(t, r', vb)
    {
      SetLeafWalk(m, p, va.l, e, r', vb);
    }
    hide Walk, Ok;
  }

  lemma HugeMaps(t: Tree, m: Tree, r: nat, va: Va, e: Entry)
    requires Ok(t) && Ok(m) && SameWalks(t, m) && ValidVa(va) && e.flags.present && e.flags.huge
    requires P2(Owner(r, va.i), va.i, va.j) in m.tab
    ensures var p := P2(Owner(r, va.i), va.i, va.j);
      Has(m, p) && Ok(SetOver(m, p, va.k, e)) && MapsTo(t, SetOver(m, p, va.k, e), r, va, e)
  {
    var p := P2(Owner(r, va.i), va.i, va.j);
    SetOverOk(m, p, va.k, e);
    forall r', vb | ValidVa(vb)
      ensures Walk(SetOver(m, p, va.k, e), r', vb) == if Covers(r, va, true, r', vb) then Large(e) else Walk(t, r', vb)
    {
      SetOverWalk(m, p, va.k, e, r', vb);
    }
    hide Walk, Ok;
  }

  lemma WordState(t: Tree, t': Tree, pmm: Frames.Frames)
    requires StateOk(t, pmm) && Ok(t') && t'.tab.Keys <= t.tab.Keys &&
      (forall p :: p in t'.tab ==> t'.tab[p] == t.tab[p])
    requires forall f :: f in t.tables && |t.tables[f]| == ENTRIES ==> f in t'.tables && |t'.tables[f]| == ENTRIES
    ensures StateOk(t', pmm)
  {
    hide Ok, Frames.Valid;
  }

  /** The tables after a 2 MiB entry has been written. */
  lemma HugePlaces(t: Tree, m: Tree, pmm0: Frames.Frames, pmm: Frames.Frames, r: nat, va: Va, e: Entry)
    requires Ok(t) && Walked(t, m, pmm0, pmm, r, va, true) && P2(Owner(r, va.i), va.i, va.j) in m.tab
    requires Has(m, P2(Owner(r, va.i), va.i, va.j)) && va.k < ENTRIES
    ensures var t' := SetOver(m, P2(Owner(r, va.i), va.i, va.j), va.k, e);
      if PtPlace(r, va) in t.tab then pmm == pmm0 && t'.tab == t.tab - {PtPlace(r, va)}
      else
        && t'.tab == m.tab && GrowsTo(t, t', r, va, true) && Spent(t, t', pmm0, pmm)
        && (Reached(t, r, va, true) ==> t'.tab == t.tab && pmm == pmm0)
  {
    hide SameWalks, Ok, Reached, Spent;
    PtReached(t, r, va);
    var t' := SetOver(m, P2(Owner(r, va.i), va.i, va.j), va.k, e);
    assert t'.tab == m.tab - {PtPlace(r, va)};
    if PtPlace(r, va) !in t.tab {
      assert PtPlace(r, va) !in m.tab;
      assert t'.tab == m.tab;
      SamePlaces(t, m, t', pmm0, pmm, r, va, true);
    }
  }

  lemma SamePlaces(t: Tree, m: Tree, t': Tree, pmm0: Frames.Frames, pmm: Frames.Frames, r: nat, va: Va, huge: bool)
    requires GrowsTo(t, m, r, va, huge) && Spent(t, m, pmm0, pmm) && t'.tab == m.tab
    ensures GrowsTo(t, t', r, va, huge) && Spent(t, t', pmm0, pmm)
  {
    hide Frames.TakenSince, OnPath;
  }

  /** Writing a 2 MiB entry, whether or not there was a table in its place. */
  lemma HugeWritten(t: Tree, m: Tree, pmm0: Frames.Frames, pmm: Frames.Frames, r: nat, va: Va, e: Entry)
    requires StateOk(m, pmm) && Walked(t, m, pmm0, pmm, r, va, true) && ValidVa(va) && e.flags.present && e.flags.huge
    requires P2(Owner(r, va.i), va.i, va.j) in m.tab
    ensures var p := P2(Owner(r, va.i), va.i, va.j);
      && Has(m, p) && Ok(t) && StateOk(SetOver(m, p, va.k, e), pmm) && MapsTo(t, SetOver(m, p, va.k, e), r, va, e)
      && WordsKept(t, SetOver(m, p, va.k, e)) && LinksKept(t, SetOver(m, p, va.k, e))
      && (if PtPlace(r, va) in t.tab then pmm == pmm0 && SetOver(m, p, va.k, e).tab == t.tab - {PtPlace(r, va)}
          else
            && GrowsTo(t, SetOver(m, p, va.k, e), r, va, true) && Spent(t, SetOver(m, p, va.k, e), pmm0, pmm)
            && (Reached(t, r, va, true) ==> SetOver(m, p, va.k, e).tab == t.tab && pmm == pmm0))
  {
    hide StateOk, Ok, MapsTo, SameWalks, GrowsTo, Spent, Reached, LinksKept;
    StateTree(m, pmm);
    assert WordsKept(t, m);
    HugeLinks(t, m, pmm0, pmm, r, va, e);
    HugeMaps(t, m, r, va, e);
    HugePlaces(t, m, pmm0, pmm, r, va, e);
    WordState(m, SetOver(m, P2(Owner(r, va.i), va.i, va.j), va.k, e), pmm);
  }

  lemma HugeLinks(t: Tree, m: Tree, pmm0: Frames.Frames, pmm: Frames.Frames, r: nat, va: Va, e: Entry)
    requires Walked(t, m, pmm0, pmm, r, va, true) && P2(Owner(r, va.i), va.i, va.j) in m.tab && ValidVa(va)
    ensures var p := P2(Owner(r, va.i), va.i, va.j); Has(m, p) && LinksKept(t, SetOver(m, p, va.k, e))
  {
    var p := P2(Owner(r, va.i), va.i, va.j);
    SetOverLinks(m, p, va.k, e);
    assert t.tab.Keys <= m.tab.Keys;
    LinksOn(t, m, SetOver(m, p, va.k, e));
    hide LinksKept, Spent, GrowsTo, SameWalks, Reached;
  }

  /** A word written through a 2 MiB entry, into memory that holds no table. */
  lemma WordWritten(t: Tree, pmm: Frames.Frames, r: nat, va: Va, e: Entry)
    requires StateOk(t, pmm) && ValidVa(va) && Ok(t) && Walk(t, r, va).Large? && NoTable(t, Walk(t, r, va).e.frame)
    ensures var f := Walk(t, r, va).e.frame;
      && f in t.tables && |t.tables[f]| == ENTRIES
      && var t' := t.(tables := t.tables[f := t.tables[f][va.l := e]]);
         StateOk(t', pmm) && Ok(t') && SameWalks(t, t') && Spent(t, t', pmm, pmm) && GrowsTo(t, t', r, va, false) &&
         WordsKept(t, t') && LinksKept(t, t')
  {
    hide Ok, Walk, StateOk, SameWalks, GrowsTo, Spent, NoTable, LinksKept;
    WordKeeps(t, pmm, Walk(t, r, va).e.frame, va.l, e);
    WordsLinks(t, Walk(t, r, va).e.frame, t.tables[Walk(t, r, va).e.frame][va.l := e]);
    SpentNothing(t, t.(tables := t.tables[Walk(t, r, va).e.frame := t.tables[Walk(t, r, va).e.frame][va.l := e]]), pmm,
                 r, va);
  }

  lemma WordKeeps(t: Tree, pmm: Frames.Frames, f: nat, n: nat, e: Entry)
    requires StateOk(t, pmm) && NoTable(t, f) && n < ENTRIES
    ensures f in t.tables && |t.tables[f]| == ENTRIES
    ensures var t' := t.(tables := t.tables[f := t.tables[f][n := e]]);
      Ok(t) && StateOk(t', pmm) && Ok(t') && SameWalks(t, t')
  {
    var words := t.tables[f][n := e];
    var t' := t.(tables := t.tables[f := words]);
    StateTree(t, pmm);
    WordsOk(t, f, words);
    WordState(t, t', pmm);
    hide StateOk, Ok;
    forall r', vb | ValidVa(vb)
      ensures Walk(t', r', vb) == Walk(t, r', vb)
    {
      WordsWalk(t, f, words, r', vb);
    }
  }

  lemma SpentNothing(t: Tree, t': Tree, pmm: Frames.Frames, r: nat, va: Va)
    requires t'.tab == t.tab
    ensures Spent(t, t', pmm, pmm) && GrowsTo(t, t', r, va, false)
  {
  }

  lemma LargeReached(t: Tree, r: nat, va: Va)
    requires Ok(t) && ValidVa(va) && Walk(t, r, va).Large?
    ensures P2(Owner(r, va.i), va.i, va.j) in t.tab && PtPlace(r, va) !in t.tab && !Reached(t, r, va, false)
  {
    assert LinkOk(t, P2(Owner(r, va.i), va.i, va.j), va.k);
    assert OnPath(PtPlace(r, va), r, va, false);
  }
}
