/** Mapping and unmapping ranges with any mix of 2 MiB and 4 KiB entries, as changes to a flat page map. */
module PageRanges {
  import opened Common
  import opened Paging
  import opened Addresses
  import opened PageTree
  import opened PageTables
  import Frames

  function RoundUp(size: nat): nat {
    (size + PAGE_SIZE - 1) / PAGE_SIZE * PAGE_SIZE
  }

  /** The page lies in the `len` bytes from `virt`, both page-aligned. */
  predicate Within(vb: Va, virt: nat, len: nat) {
    virt / PAGE_SIZE <= PageNo(vb) < (virt + len) / PAGE_SIZE
  }

  /** The page translates to its place in the physical range, with the flags asked for. */
  ghost predicate MappedAt(leaf: Leaf, vb: Va, virt: nat, phys: nat, flags: Flags) {
    && !leaf.Absent?
    && Phys(leaf, PageNo(vb) * PAGE_SIZE) == phys + (PageNo(vb) * PAGE_SIZE - virt)
    && leaf.e.flags == flags.(present := true, huge := leaf.Large?)
  }

  /** The page's 2 MiB chunk lies in the range and matches a physical one: the range will map it huge. */
  predicate TakesHuge(vb: Va, virt: nat, phys: nat, size: nat) {
    var c := PageNo(vb) / 512 * HUGE_SIZE;
    virt % HUGE_SIZE == phys % HUGE_SIZE && virt <= c && c + HUGE_SIZE <= virt + size
  }

  /** The range will map the page by itself, but it lies under a 2 MiB entry that will be taken for a page table. */
  ghost predicate Blocked(t: Tree, root: nat, virt: nat, phys: nat, size: nat, vb: Va)
    requires Ok(t) && ValidVa(vb)
  {
    Within(vb, virt, RoundUp(size)) && Blocks(Walk(t, root, vb), vb, virt, phys, size)
  }

  predicate Blocks(w: Leaf, vb: Va, virt: nat, phys: nat, size: nat) {
    !TakesHuge(vb, virt, phys, size) && FullLarge(w)
  }

  /** Some page of the chunk lies in the `len` bytes from `virt`. */
  predicate Meets(vb: Va, virt: nat, len: nat) {
    var c := PageNo(vb) / 512 * 512;
    virt / PAGE_SIZE < c + 512 && c < (virt + len) / PAGE_SIZE && virt / PAGE_SIZE < (virt + len) / PAGE_SIZE
  }

  /** The page lies under a 2 MiB entry for physical 0 that gave way to a page table. */
  predicate Wiped(w: Leaf, vb: Va, virt: nat, phys: nat, size: nat, i: nat) {
    NullLarge(w) && !TakesHuge(vb, virt, phys, size) && Meets(vb, virt, i)
  }

  /** What has become of a page that was mapped as `w`. */
  ghost predicate PageDone(w: Leaf, w': Leaf, vb: Va, virt: nat, phys: nat, size: nat, i: nat, flags: Flags,
                           spent: bool) {
    if Within(vb, virt, i) && !Blocks(w, vb, virt, phys, size) then
      || (MappedAt(w', vb, virt, phys, flags) && (w'.Large? <==> TakesHuge(vb, virt, phys, size)))
      || (spent && (w' == w || (w'.Absent? && Wiped(w, vb, virt, phys, size, i))))
    else if Wiped(w, vb, virt, phys, size, i) then w'.Absent? || (spent && w' == w)
    else w' == w
  }

  /** The first `i` bytes of the range are mapped, except for blocked pages, and what else lay under 2 MiB entries for
      physical 0 is gone; or (when frames have run out) some of these pages are as they were. Nothing else has
      changed. */
  ghost predicate RangeMapped(t: Tree, t': Tree, root: nat, virt: nat, phys: nat, size: nat, i: nat, flags: Flags,
                              spent: bool)
    requires Ok(t) && Ok(t')
  {
    forall r', vb :: ValidVa(vb) ==>
      if Sees(root, r', vb) then PageDone(Walk(t, r', vb), Walk(t', r', vb), vb, virt, phys, size, i, flags, spent)
      else Walk(t', r', vb) == Walk(t, r', vb)
  }

  ghost predicate RangeUnmapped(t: Tree, t': Tree, root: nat, virt: nat, len: nat)
    requires Ok(t) && Ok(t')
  {
    forall r', vb :: ValidVa(vb) ==>
      Walk(t', r', vb) == if Sees(root, r', vb) && Within(vb, virt, len) then Absent else Walk(t, r', vb)
  }

  /** The memory that 2 MiB entries over blocked pages map holds no table and will hold none. */
  ghost predicate BlockedApart(t: Tree, pmm: Frames.Frames, root: nat, virt: nat, phys: nat, size: nat)
    requires Ok(t)
  {
    forall vb :: ValidVa(vb) && Blocked(t, root, virt, phys, size, vb) ==>
      NoTable(t, Walk(t, root, vb).e.frame) && Walk(t, root, vb).e.frame !in pmm.free
  }

  /** Frames that were neither tables nor free are so still. */
  ghost predicate ApartKept(t: Tree, t': Tree, pmm: Frames.Frames, pmm': Frames.Frames) {
    forall f :: NoTable(t, f) && f !in pmm.free ==> NoTable(t', f) && f !in pmm'.free
  }

  lemma ApartStep(t: Tree, t': Tree, pmm: Frames.Frames, pmm': Frames.Frames, p: Pos)
    requires WordsKept(t, t') && (Spent(t, t', pmm, pmm') || (pmm' == pmm && t'.tab == t.tab - {p}))
    ensures ApartKept(t, t', pmm, pmm')
  {
    forall f | NoTable(t, f) && f !in pmm.free
      ensures NoTable(t', f) && f !in pmm'.free
    {
    }
  }

  lemma ApartTrans(t: Tree, m: Tree, t': Tree, pmm0: Frames.Frames, pmm: Frames.Frames, pmm': Frames.Frames)
    requires ApartKept(t, m, pmm0, pmm) && ApartKept(m, t', pmm, pmm')
    ensures ApartKept(t, t', pmm0, pmm')
  {
    hide NoTable;
  }

  // ----- one step of the mapping loop

  lemma CoverPages(root: nat, a: nat, huge: bool, r': nat, vb: Va)
    requires a < SPACE_SIZE && a % PAGE_SIZE == 0 && ValidVa(vb) && (huge ==> a % HUGE_SIZE == 0)
    ensures Covers(root, VaOf(a), huge, r', vb) <==>
            Sees(root, r', vb) && Within(vb, a, if huge then HUGE_SIZE else PAGE_SIZE)
  {
    PageOfAddress(a);
    PageUnique(VaOf(a), vb);
    hide VaOf, PageNo;
    var q, w := a / PAGE_SIZE, PageNo(vb);
    assert a == q * 4096;
    assert !huge ==> (Within(vb, a, PAGE_SIZE) <==> w == q);
    if huge {
      var c := a / HUGE_SIZE;
      assert a == c * HUGE_SIZE && q == c * 512 && (a + HUGE_SIZE) / PAGE_SIZE == q + 512;
      assert q / 512 == c;
      assert Within(vb, a, HUGE_SIZE) <==> w / 512 == c;
    }
  }

  lemma SmallMapped(a: nat, phys: nat, flags: Flags, vb: Va, virt: nat, base: nat)
    requires a == virt + base && !flags.huge && Within(vb, a, PAGE_SIZE)
    requires a % PAGE_SIZE == 0 && (phys + base) % PAGE_SIZE == 0
    ensures MappedAt(Small(EntryFor(phys + base, flags)), vb, virt, phys, flags)
  {
    hide PageNo;
    assert PageNo(vb) * PAGE_SIZE == a;
  }

  lemma LargeMapped(a: nat, phys: nat, flags: Flags, vb: Va, virt: nat, base: nat)
    requires a == virt + base && !flags.huge && Within(vb, a, HUGE_SIZE)
    requires a % HUGE_SIZE == 0 && (phys + base) % HUGE_SIZE == 0
    ensures MappedAt(Large(EntryFor(phys + base, flags.(huge := true))), vb, virt, phys, flags)
  {
    hide PageNo;
    var d := PageNo(vb) * PAGE_SIZE - a;
    var c := a / HUGE_SIZE;
    assert a == c * HUGE_SIZE && a / PAGE_SIZE == c * 512 && (a + HUGE_SIZE) / PAGE_SIZE == c * 512 + 512;
    assert 0 <= d < HUGE_SIZE;
    assert (c * HUGE_SIZE + d) % HUGE_SIZE == d;
  }

  lemma WithinSplit(vb: Va, virt: nat, i: nat, len: nat)
    requires virt % PAGE_SIZE == 0 && i % PAGE_SIZE == 0 && len % PAGE_SIZE == 0
    ensures Within(vb, virt, i + len) <==> Within(vb, virt, i) || Within(vb, virt + i, len)
    ensures !(Within(vb, virt, i) && Within(vb, virt + i, len))
  {
    hide PageNo;
  }

  /** One page after one step of the loop. */
  lemma StepMappedAt(w: Leaf, root: nat, virt: nat, phys: nat, i: nat, flags: Flags, huge: bool, r': nat, vb: Va)
    requires !flags.huge && virt % PAGE_SIZE == 0 && phys % PAGE_SIZE == 0 && i % PAGE_SIZE == 0 &&
      virt + i < SPACE_SIZE
    requires huge ==> (virt + i) % HUGE_SIZE == 0 && (phys + i) % HUGE_SIZE == 0
    requires ValidVa(vb) && Covers(root, VaOf(virt + i), huge, r', vb)
    requires var e := EntryFor(phys + i, flags.(huge := huge)); w == if huge then Large(e) else Small(e)
    ensures MappedAt(w, vb, virt, phys, flags)
  {
    CoverPages(root, virt + i, huge, r', vb);
    hide VaOf, PageNo, MappedAt, Covers, Within;
    if huge {
      LargeMapped(virt + i, phys, flags, vb, virt, i);
    } else {
      assert flags.(huge := huge) == flags;
      SmallMapped(virt + i, phys, flags, vb, virt, i);
    }
  }

  /** Pages of one chunk are mapped huge together. */
  lemma ChunkTakesHuge(virt: nat, phys: nat, size: nat, i: nat, vb: Va)
    requires HugeHere(virt, phys, size, i) && virt % PAGE_SIZE == 0 && Within(vb, virt + i, HUGE_SIZE)
    ensures TakesHuge(vb, virt, phys, size)
  {
    ChunkStart(virt, phys, i);
    hide PageNo;
    var c := (virt + i) / HUGE_SIZE;
    assert virt + i == c * HUGE_SIZE && (virt + i) / PAGE_SIZE == c * 512 &&
      (virt + i + HUGE_SIZE) / PAGE_SIZE == c * 512 + 512;
    assert PageNo(vb) / 512 == c;
  }

  /** One round of the loop: the entry is written, or frames ran out, or the page is blocked, or a page table takes the
      place of a 2 MiB entry. */
  ghost predicate Round(m: Tree, t': Tree, root: nat, virt: nat, phys: nat, i: nat, flags: Flags, huge: bool,
                        before: bool, spent: bool)
    requires Ok(m) && Ok(t')
  {
    var va := VaOf(virt + i);
    var e := EntryFor(phys + i, flags.(huge := huge));
    if !huge && FullLarge(Walk(m, root, va)) then SameWalks(m, t')
    else if !huge && Walk(m, root, va).Large? then if before then SameWalks(m, t') else MapsOver(m, t', root, va, e)
    else MapsTo(m, t', root, va, e) || (spent && SameWalks(m, t'))
  }

  /** What one round may do to a page: nothing, map the one entry, or also clear the rest of its chunk. */
  datatype Outcome = Nothing | Entered | Replaced

  /** Whether the page of this round is blocked is known from the start. */
  lemma RoundBlocked(t: Tree, m: Tree, root: nat, virt: nat, phys: nat, size: nat, i: nat, flags: Flags, spent: bool)
    requires Ok(t) && Ok(m) && RangeMapped(t, m, root, virt, phys, size, i, flags, spent)
    requires virt % PAGE_SIZE == 0 && i % PAGE_SIZE == 0 && i < size && virt + RoundUp(size) <= SPACE_SIZE
    requires Aligned(virt, phys, size, i) && !HugeHere(virt, phys, size, i)
    ensures var va := VaOf(virt + i);
      FullLarge(Walk(m, root, va)) ==>
        Walk(m, root, va) == Walk(t, root, va) && Blocked(t, root, virt, phys, size, va)
  {
    AtPosition(virt, i, size);
    hide VaOf, PageNo, Within, Walk, Ok, MappedAt, RoundUp, Meets;
    NotHugeHere(virt, phys, size, i);
    assert Sees(root, root, VaOf(virt + i));
  }

  /** The loop stands inside a chunk that is to be mapped huge only at its start. */
  predicate Aligned(virt: nat, phys: nat, size: nat, i: nat) {
    var c := (virt + i) / HUGE_SIZE * HUGE_SIZE;
    virt % HUGE_SIZE == phys % HUGE_SIZE && virt <= c && c + HUGE_SIZE <= virt + size ==> (virt + i) % HUGE_SIZE == 0
  }

  lemma SameResidue(virt: nat, phys: nat, i: nat)
    requires virt % HUGE_SIZE == phys % HUGE_SIZE
    ensures (virt + i) % HUGE_SIZE == (phys + i) % HUGE_SIZE
  {
  }

  lemma NotHugeHere(virt: nat, phys: nat, size: nat, i: nat)
    requires Aligned(virt, phys, size, i) && !HugeHere(virt, phys, size, i) && i < size && virt + i < SPACE_SIZE
    ensures !TakesHuge(VaOf(virt + i), virt, phys, size)
  {
    PageOfAddress(virt + i);
    hide VaOf, PageNo;
    assert (virt + i) / PAGE_SIZE / 512 == (virt + i) / HUGE_SIZE;
    if virt % HUGE_SIZE == phys % HUGE_SIZE {
      SameResidue(virt, phys, i);
    }
  }

  lemma AlignedStep(virt: nat, phys: nat, size: nat, i: nat)
    requires Aligned(virt, phys, size, i) && virt % PAGE_SIZE == 0 && i % PAGE_SIZE == 0 && i < size
    ensures Aligned(virt, phys, size, i + Len(HugeHere(virt, phys, size, i)))
  {
    var a := virt + i;
    if virt % HUGE_SIZE == phys % HUGE_SIZE {
      SameResidue(virt, phys, i);
      if HugeHere(virt, phys, size, i) {
        assert (a + HUGE_SIZE) % HUGE_SIZE == 0;
      } else if (a + PAGE_SIZE) % HUGE_SIZE != 0 {
        SameHuge(a);
      }
    }
  }

  lemma SameHuge(a: nat)
    requires a % PAGE_SIZE == 0 && (a + PAGE_SIZE) % HUGE_SIZE != 0
    ensures (a + PAGE_SIZE) / HUGE_SIZE == a / HUGE_SIZE
  {
    var k := a / PAGE_SIZE;
    assert a == k * PAGE_SIZE && a + PAGE_SIZE == (k + 1) * PAGE_SIZE;
    assert a / HUGE_SIZE == k / 512 && (a + PAGE_SIZE) / HUGE_SIZE == (k + 1) / 512;
    assert (k + 1) % 512 != 0;
  }

  /** Which chunks the range meets after one more round. */
  lemma MeetsStep(vb: Va, virt: nat, i: nat, huge: bool)
    requires virt % PAGE_SIZE == 0 && i % PAGE_SIZE == 0 && (huge ==> (virt + i) % HUGE_SIZE == 0)
    ensures var here := PageNo(vb) / 512 == (virt + i) / PAGE_SIZE / 512;
      && (Meets(vb, virt, i + Len(huge)) <==> Meets(vb, virt, i) || here)
      && (huge && here ==> Within(vb, virt + i, Len(huge))) && (Within(vb, virt + i, Len(huge)) ==> here)
  {
    hide PageNo;
    var q, c := (virt + i) / PAGE_SIZE, PageNo(vb) / 512;
    assert virt + i == q * PAGE_SIZE;
    assert (virt + (i + Len(huge))) / PAGE_SIZE == q + if huge then 512 else 1;
    if huge {
      assert q % 512 == 0;
    }
  }

  /** One page in one round, given what the round did. */
  lemma DoneStep(w: Leaf, wm: Leaf, w': Leaf, wa: Leaf, o: Outcome, vb: Va, virt: nat, phys: nat, size: nat, i: nat,
                 flags: Flags, huge: bool, before: bool, spent: bool)
    requires PageDone(w, wm, vb, virt, phys, size, i, flags, before) && (before ==> spent)
    requires Within(vb, virt, i + Len(huge)) <==> Within(vb, virt, i) || Within(vb, virt + i, Len(huge))
    requires !(Within(vb, virt, i) && Within(vb, virt + i, Len(huge)))
    requires var here := PageNo(vb) / 512 == (virt + i) / PAGE_SIZE / 512;
      && (Meets(vb, virt, i + Len(huge)) <==> Meets(vb, virt, i) || here)
      && (huge && here ==> Within(vb, virt + i, Len(huge))) && (Within(vb, virt + i, Len(huge)) ==> here)
      && (here ==> (TakesHuge(vb, virt, phys, size) <==> huge))
      && (here && !huge && (wa.Large? || wm.Large?) ==> wa == wm)
      && (if o.Nothing? then w' == wm
          else if Within(vb, virt + i, Len(huge)) then
            MappedAt(w', vb, virt, phys, flags) && (w'.Large? <==> huge)
          else w' == if o.Replaced? && here then Absent else wm)
    requires match o
      case Nothing => spent || (!huge && FullLarge(wa))
      case Entered => huge || !wa.Large?
      case Replaced => !huge && NullLarge(wa) && !before
    ensures PageDone(w, w', vb, virt, phys, size, i + Len(huge), flags, spent)
  {
    hide Within, MappedAt, PageNo, TakesHuge, Meets, Len;
  }

  lemma StepMapped(t: Tree, m: Tree, t': Tree, root: nat, virt: nat, phys: nat, size: nat, i: nat, flags: Flags,
                   before: bool, spent: bool)
    requires Ok(t) && Ok(m) && Ok(t') && RangeMapped(t, m, root, virt, phys, size, i, flags, before) &&
      (before ==> spent)
    requires !flags.huge && RangeArgs(virt, phys, size) && i % PAGE_SIZE == 0 && i < size &&
      Aligned(virt, phys, size, i)
    requires Round(m, t', root, virt, phys, i, flags, HugeHere(virt, phys, size, i), before, spent)
    ensures RangeMapped(t, t', root, virt, phys, size, i + Len(HugeHere(virt, phys, size, i)), flags, spent)
  {
    hide VaOf, PageNo, Walk, Ok, MappedAt, Within, RoundUp, TakesHuge, Aligned, EntryFor, MapsTo, MapsOver, SameWalks,
         PageDone;
    var huge := HugeHere(virt, phys, size, i);
    AtPosition(virt, i, size);
    var o := if !huge && FullLarge(Walk(m, root, VaOf(virt + i))) then Nothing
      else if !huge && Walk(m, root, VaOf(virt + i)).Large? then if before then Nothing else Replaced
      else if MapsTo(m, t', root, VaOf(virt + i), EntryFor(phys + i, flags.(huge := huge))) then Entered else Nothing;
    forall r', vb | ValidVa(vb)
      ensures if Sees(root, r', vb)
              then PageDone(Walk(t, r', vb), Walk(t', r', vb), vb, virt, phys, size, i + Len(huge), flags, spent)
              else Walk(t', r', vb) == Walk(t, r', vb)
    {
      StepAt(t, m, t', root, virt, phys, size, i, flags, o, r', vb);
      if Sees(root, r', vb) {
        WithinSplit(vb, virt, i, Len(huge));
        MeetsStep(vb, virt, i, huge);
        StepChunk(m, root, virt, phys, size, i, r', vb);
        DoneStep(Walk(t, r', vb), Walk(m, r', vb), Walk(t', r', vb), Walk(m, root, VaOf(virt + i)), o, vb, virt, phys,
                 size, i, flags, huge, before, spent);
      }
    }
  }

  /** What the round did to one page. */
  lemma StepAt(t: Tree, m: Tree, t': Tree, root: nat, virt: nat, phys: nat, size: nat, i: nat, flags: Flags,
               o: Outcome, r': nat, vb: Va)
    requires Ok(t) && Ok(m) && Ok(t') && ValidVa(vb) && !flags.huge && RangeArgs(virt, phys, size) &&
      i % PAGE_SIZE == 0 && i < size
    requires var va, e := VaOf(virt + i), EntryFor(phys + i, flags.(huge := HugeHere(virt, phys, size, i)));
      match o
      case Nothing => SameWalks(m, t')
      case Entered => MapsTo(m, t', root, va, e)
      case Replaced => MapsOver(m, t', root, va, e) && !HugeHere(virt, phys, size, i)
    ensures var huge := HugeHere(virt, phys, size, i);
      && (!Sees(root, r', vb) || o.Nothing? ==> Walk(t', r', vb) == Walk(m, r', vb))
      && (Sees(root, r', vb) && !o.Nothing? ==>
            if Within(vb, virt + i, Len(huge)) then
              MappedAt(Walk(t', r', vb), vb, virt, phys, flags) && (Walk(t', r', vb).Large? <==> huge)
            else Walk(t', r', vb) == if o.Replaced? && PageNo(vb) / 512 == (virt + i) / PAGE_SIZE / 512 then Absent
              else Walk(m, r', vb))
  {
    hide VaOf, PageNo, Walk, Ok, MappedAt, Within, RoundUp, EntryFor;
    var huge := HugeHere(virt, phys, size, i);
    var va := VaOf(virt + i);
    AtPosition(virt, i, size);
    CoverPages(root, virt + i, huge, r', vb);
    CoverChunk(root, virt + i, r', vb);
    if Covers(root, va, huge, r', vb) && !o.Nothing? {
      StepMappedAt(Walk(t', r', vb), root, virt, phys, i, flags, huge, r', vb);
    }
    hide RangeArgs, HugeHere;
  }

  /** Covered by a 2 MiB entry means in the same chunk. */
  lemma CoverChunk(root: nat, a: nat, r': nat, vb: Va)
    requires a < SPACE_SIZE && ValidVa(vb)
    ensures Covers(root, VaOf(a), true, r', vb) <==> Sees(root, r', vb) && PageNo(vb) / 512 == a / PAGE_SIZE / 512
  {
    PageOfAddress(a);
    PageUnique(VaOf(a), vb);
    hide VaOf, PageNo;
  }

  /** The pages of the chunk the loop stands in. */
  lemma StepChunk(m: Tree, root: nat, virt: nat, phys: nat, size: nat, i: nat, r': nat, vb: Va)
    requires Ok(m) && ValidVa(vb) && RangeArgs(virt, phys, size) && i % PAGE_SIZE == 0 && i < size &&
      Aligned(virt, phys, size, i) && Sees(root, r', vb)
    ensures PageNo(vb) / 512 == (virt + i) / PAGE_SIZE / 512 ==>
      var wa, wm := Walk(m, root, VaOf(virt + i)), Walk(m, r', vb);
      && (TakesHuge(vb, virt, phys, size) <==> HugeHere(virt, phys, size, i))
      && (!HugeHere(virt, phys, size, i) && (wa.Large? || wm.Large?) ==> wa == wm)
  {
    AtPosition(virt, i, size);
    if PageNo(vb) / 512 == (virt + i) / PAGE_SIZE / 512 {
      SameChunk(m, root, VaOf(virt + i), vb);
      SeenAlike(m, root, r', vb);
      if HugeHere(virt, phys, size, i) {
        MeetsStep(vb, virt, i, true);
        ChunkTakesHuge(virt, phys, size, i, vb);
      } else {
        NotHugeHere(virt, phys, size, i);
      }
      hide VaOf, PageNo, Walk, Ok, HugeHere, Aligned, RangeArgs;
    }
  }

  /** The page the loop has come to. */
  lemma AtPosition(virt: nat, i: nat, size: nat)
    requires virt % PAGE_SIZE == 0 && i % PAGE_SIZE == 0 && i < size && virt + RoundUp(size) <= SPACE_SIZE
    ensures var vb := VaOf(virt + i);
      ValidVa(vb) && PageNo(vb) == (virt + i) / PAGE_SIZE && Within(vb, virt, RoundUp(size)) && !Within(vb, virt, i)
    ensures i + PAGE_SIZE <= RoundUp(size) && (i + HUGE_SIZE <= size ==> i + HUGE_SIZE <= RoundUp(size))
    ensures virt + i < SPACE_SIZE
  {
    assert i + PAGE_SIZE <= RoundUp(size);
    PageOfAddress(virt + i);
    hide VaOf, PageNo;
  }

  /** A position aligned on both sides starts a chunk that matches. */
  lemma ChunkStart(virt: nat, phys: nat, i: nat)
    requires (virt + i) % HUGE_SIZE == 0 && (phys + i) % HUGE_SIZE == 0
    ensures virt % HUGE_SIZE == phys % HUGE_SIZE
    ensures (virt + i) / PAGE_SIZE % 512 == 0 && (virt + i) / PAGE_SIZE / 512 * HUGE_SIZE == virt + i
  {
    var c, d := (virt + i) / HUGE_SIZE, (phys + i) / HUGE_SIZE;
    assert virt + i == c * HUGE_SIZE && phys + i == d * HUGE_SIZE;
    assert virt - phys == (c - d) * HUGE_SIZE;
    assert (virt + i) / PAGE_SIZE == c * 512;
  }

  /** The range is page-aligned and within the 48-bit space. */
  predicate RangeArgs(virt: nat, phys: nat, size: nat) {
    virt % PAGE_SIZE == 0 && phys % PAGE_SIZE == 0 && virt + RoundUp(size) <= SPACE_SIZE
  }

  /** The loop prefers a huge entry `i` bytes into the range. */
  predicate HugeHere(virt: nat, phys: nat, size: nat, i: nat) {
    i < size && (virt + i) % HUGE_SIZE == 0 && (phys + i) % HUGE_SIZE == 0 && size - i >= HUGE_SIZE
  }

  function Len(huge: bool): nat {
    if huge then HUGE_SIZE else PAGE_SIZE
  }

  /** What the mapping loop keeps, `i` bytes into the range. */
  ghost predicate Mapping(t: Tree, t': Tree, pmm0: Frames.Frames, pmm: Frames.Frames, root: nat, virt: nat, phys: nat,
                          size: nat, i: nat,
                          flags: Flags, spent: bool)
  {
    && Ok(t) && Ok(t') && P4(root) in t'.tab && i % PAGE_SIZE == 0 && i <= RoundUp(size) && !flags.huge
    && RangeArgs(virt, phys, size) && Aligned(virt, phys, size, i) && BlockedApart(t, pmm0, root, virt, phys, size)
    && RangeMapped(t, t', root, virt, phys, size, i, flags, spent) && ApartKept(t, t', pmm0, pmm)
  }

  lemma BeforeStep(t: Tree, m: Tree, pmm0: Frames.Frames, pmm: Frames.Frames, root: nat, virt: nat, phys: nat,
                   size: nat, i: nat,
                   flags: Flags, spent: bool)
    requires Mapping(t, m, pmm0, pmm, root, virt, phys, size, i, flags, spent) && i < size
    ensures P4(root) in m.tab && Ok(m) && virt + i < SPACE_SIZE && !flags.huge
    ensures !HugeHere(virt, phys, size, i) && FullLarge(Walk(m, root, VaOf(virt + i))) ==>
      NoTable(m, Walk(m, root, VaOf(virt + i)).e.frame)
  {
    hide RangeMapped, VaOf, Walk, Ok, NoTable, Aligned;
    AtPosition(virt, i, size);
    if !HugeHere(virt, phys, size, i) {
      RoundBlocked(t, m, root, virt, phys, size, i, flags, spent);
    }
    hide HugeHere;
  }

  lemma AfterStep(t: Tree, m: Tree, t': Tree, pmm0: Frames.Frames, pmm: Frames.Frames, pmm': Frames.Frames, root: nat,
                  virt: nat, phys: nat,
                  size: nat, i: nat, flags: Flags, before: bool, spent: bool)
    requires Mapping(t, m, pmm0, pmm, root, virt, phys, size, i, flags, before) && Ok(t') && i < size &&
      P4(root) in t'.tab
    requires Round(m, t', root, virt, phys, i, flags, HugeHere(virt, phys, size, i), before, spent) &&
      (before ==> spent)
    requires ApartKept(m, t', pmm, pmm')
    ensures Mapping(t, t', pmm0, pmm', root, virt, phys, size, i + Len(HugeHere(virt, phys, size, i)), flags, spent)
  {
    hide RangeMapped, VaOf, Walk, Ok, Round, BlockedApart, ApartKept, Aligned;
    AtPosition(virt, i, size);
    AlignedStep(virt, phys, size, i);
    ApartTrans(t, m, t', pmm0, pmm, pmm');
    StepMapped(t, m, t', root, virt, phys, size, i, flags, before, spent);
  }

  /** The root is still a table, and frames apart stay apart. */
  lemma MapKeeps(m: Tree, t': Tree, pmm: Frames.Frames, pmm': Frames.Frames, root: nat, va: Va, huge: bool)
    requires P4(root) in m.tab && WordsKept(m, t')
    requires if huge && PtPlace(root, va) in m.tab then pmm' == pmm && t'.tab == m.tab - {PtPlace(root, va)}
             else Spent(m, t', pmm, pmm') && GrowsTo(m, t', root, va, huge)
    ensures P4(root) in t'.tab && ApartKept(m, t', pmm, pmm')
  {
    ApartStep(m, t', pmm, pmm', PtPlace(root, va));
    hide Spent;
  }

  /** `vmm_map_range`, with any mix of entries, whatever was mapped before: afterwards each page of the range translates
      to its place in the physical range and every other page of every space is as before. Left out are exactly the
      pages the range maps one by one under a 2 MiB entry, and some if the frames ran out; and where such an entry is
      one for physical 0, its pages are not left out, but the rest of its chunk is gone. */
  method MapRange(vm: Vmm, root: nat, virt: nat, phys: nat, size: nat, flags: Flags)
    requires vm.Valid() && P4(root) in vm.tab && !flags.huge && RangeArgs(virt, phys, size)
    requires BlockedApart(vm.T(), vm.pmm, root, virt, phys, size)
    modifies vm`tables, vm`pmm, vm`tab
    ensures vm.Valid() && P4(root) in vm.tab
    ensures RangeMapped(old(vm.T()), vm.T(), root, virt, phys, size, RoundUp(size), flags, vm.pmm.free == [])
  {
    hide StateOk, Ok, Mapping, RangeMapped, BlockedApart, MapsTo, GrowsTo, SameWalks, Walk, VaOf, HugeHere, RangeArgs,
         EntryFor, Spent, WordsKept, ApartKept, NoTable, Reached;
    ghost var t, pmm0 := vm.T(), vm.pmm;
    var i := 0;
    StateTree(t, vm.pmm);
    AtStart(t, pmm0, root, virt, phys, size, flags, vm.pmm.free == []);
    while i < size
      invariant vm.Valid() && Mapping(t, vm.T(), pmm0, vm.pmm, root, virt, phys, size, i, flags, vm.pmm.free == [])
    {
      ghost var m, pmm := vm.T(), vm.pmm;
      IndexOf(virt + i);
      BeforeStep(t, m, pmm0, pmm, root, virt, phys, size, i, flags, pmm.free == []);
      var huge := HugeHere(virt, phys, size, i);
      vm.Map(root, virt + i, phys + i, flags.(huge := huge));
      StateTree(vm.T(), vm.pmm);
      if pmm.free == [] {
        WalksRefl(m);
      }
      MapKeeps(m, vm.T(), pmm, vm.pmm, root, VaOf(virt + i), huge);
      SpentStays(m, vm.T(), pmm, vm.pmm);
      AfterStep(t, m, vm.T(), pmm0, pmm, vm.pmm, root, virt, phys, size, i, flags, pmm.free == [], vm.pmm.free == []);
      i := i + Len(huge);
    }
    AtEnd(t, vm.T(), pmm0, vm.pmm, root, virt, phys, size, i, flags, vm.pmm.free == []);
  }

  lemma SpentStays(m: Tree, t': Tree, pmm: Frames.Frames, pmm': Frames.Frames)
    ensures Spent(m, t', pmm, pmm') && pmm.free == [] ==> pmm'.free == []
  {
  }

  lemma AtStart(t: Tree, pmm: Frames.Frames, root: nat, virt: nat, phys: nat, size: nat, flags: Flags, spent: bool)
    requires Ok(t) && P4(root) in t.tab && !flags.huge && RangeArgs(virt, phys, size) &&
      BlockedApart(t, pmm, root, virt, phys, size)
    ensures Mapping(t, t, pmm, pmm, root, virt, phys, size, 0, flags, spent)
  {
    hide Ok, BlockedApart, NoTable;
    assert Aligned(virt, phys, size, 0);
    forall vb
      ensures !Within(vb, virt, 0)
    {
    }
    hide Within, Aligned;
  }

  lemma AtEnd(t: Tree, t': Tree, pmm0: Frames.Frames, pmm: Frames.Frames, root: nat, virt: nat, phys: nat, size: nat,
              i: nat, flags: Flags,
              spent: bool)
    requires Mapping(t, t', pmm0, pmm, root, virt, phys, size, i, flags, spent) && size <= i
    ensures Ok(t) && Ok(t') && P4(root) in t'.tab &&
      RangeMapped(t, t', root, virt, phys, size, RoundUp(size), flags, spent)
  {
    hide RangeMapped, Ok, BlockedApart, ApartKept, Aligned;
    assert i == RoundUp(size);
  }

  lemma IndexOf(a: nat)
    ensures VaOf(a) == Va(Pml4Index(a), PdptIndex(a), PdIndex(a), PtIndex(a))
  {
  }

  // ----- unmapping: which pages the loop comes to

  /** The page with the number. */
  function PageWithNo(p: nat): (va: Va)
    ensures ValidVa(va)
  {
    VaOf(p * PAGE_SIZE)
  }

  lemma PageWithNoIs(p: nat)
    requires p < SPACE_SIZE / PAGE_SIZE
    ensures ValidVa(PageWithNo(p)) && PageNo(PageWithNo(p)) == p
  {
    PageOfAddress(p * PAGE_SIZE);
  }

  lemma PageNoBack(vb: Va)
    requires ValidVa(vb)
    ensures PageNo(vb) < SPACE_SIZE / PAGE_SIZE && PageWithNo(PageNo(vb)) == vb
  {
    PageWithNoIs(PageNo(vb));
    PageUnique(vb, PageWithNo(PageNo(vb)));
  }

  /** `current_pml4`, which the loop asks for its step, has a 2 MiB entry at the page. */
  ghost predicate Probe(t: Tree, p: nat)
    requires Ok(t)
  {
    Walk(t, t.kernel, PageWithNo(p)).Large?
  }

  ghost function NextPage(t: Tree, p: nat): nat
    requires Ok(t)
  {
    if Probe(t, p) then p + 512 else p + 1
  }

  /** The loop that starts at page `first` comes to page `p`, if the range reaches that far. */
  ghost predicate Visits(t: Tree, first: nat, p: nat)
    requires Ok(t)
    decreases if p > first then p - first else 0
  {
    p == first || (p > first && NextPage(t, first) <= p && Visits(t, NextPage(t, first), p))
  }

  lemma {:induction false} VisitsNext(t: Tree, first: nat, p: nat)
    requires Ok(t) && Visits(t, first, p)
    ensures first <= p && Visits(t, first, NextPage(t, p))
    decreases if p > first then p - first else 0
  {
    hide Probe, Ok;
    if p > first {
      VisitsNext(t, NextPage(t, first), p);
    } else {
      assert Visits(t, NextPage(t, p), NextPage(t, p));
    }
  }

  /** Between two pages it comes to, the loop comes to no other. */
  lemma {:induction false} VisitsGap(t: Tree, first: nat, p: nat, q: nat)
    requires Ok(t) && Visits(t, first, p) && Visits(t, first, q) && p < q
    ensures NextPage(t, p) <= q
    decreases if p > first then p - first else 0
  {
    hide Probe, Ok;
    if p > first {
      VisitsGap(t, NextPage(t, first), p, q);
    } else {
      VisitsFrom(t, NextPage(t, first), q);
    }
  }

  lemma VisitsFrom(t: Tree, first: nat, p: nat)
    requires Ok(t) && Visits(t, first, p)
    ensures first <= p
  {
  }

  /** The last page it comes to up to `q`. */
  lemma {:induction false} LastVisited(t: Tree, first: nat, q: nat) returns (p: nat)
    requires Ok(t) && first <= q
    ensures Visits(t, first, p) && p <= q < NextPage(t, p)
    decreases q - first
  {
    hide Probe, Ok;
    if q < NextPage(t, first) {
      p := first;
    } else {
      p := LastVisited(t, NextPage(t, first), q);
    }
  }

  /** The loop, as far as it comes to pages below `end`, clears the entry that maps the page. */
  ghost predicate Hit(t: Tree, root: nat, first: nat, end: nat, vb: Va)
    requires Ok(t) && ValidVa(vb)
  {
    if Walk(t, root, vb).Large? then exists p: nat :: p < end && p / 512 == PageNo(vb) / 512 && Visits(t, first, p)
    else PageNo(vb) < end && Visits(t, first, PageNo(vb))
  }

  ghost predicate HitGone(t: Tree, t': Tree, root: nat, first: nat, end: nat)
    requires Ok(t) && Ok(t')
  {
    forall r', vb :: ValidVa(vb) ==>
      Walk(t', r', vb) == if Sees(root, r', vb) && Hit(t, root, first, end, vb) then Absent else Walk(t, r', vb)
  }

  /** Pages of one chunk are under the same huge entry. */
  lemma SameChunk(t: Tree, r: nat, vb: Va, vc: Va)
    requires Ok(t) && ValidVa(vb) && ValidVa(vc) && PageNo(vb) / 512 == PageNo(vc) / 512
    ensures Walk(t, r, vb).Large? <==> Walk(t, r, vc).Large?
    ensures Walk(t, r, vb).Large? ==> Walk(t, r, vb) == Walk(t, r, vc)
  {
    PageUnique(vb, vc);
  }

  lemma SeenAlike(t: Tree, root: nat, r': nat, vb: Va)
    requires Ok(t) && ValidVa(vb) && Sees(root, r', vb)
    ensures Walk(t, root, vb) == Walk(t, r', vb)
  {
  }

  /** Coming to page `cur` adds exactly what its entry maps. */
  lemma HitNext(t: Tree, root: nat, first: nat, cur: nat, vb: Va)
    requires Ok(t) && ValidVa(vb) && Visits(t, first, cur)
    ensures Hit(t, root, first, NextPage(t, cur), vb) <==>
      Hit(t, root, first, cur, vb) || (if Walk(t, root, vb).Large? then PageNo(vb) / 512 == cur / 512
                                       else PageNo(vb) == cur)
  {
    hide Walk, Ok, PageNo, Probe;
    forall p: nat | Visits(t, first, p)
      ensures p < NextPage(t, cur) <==> p < cur || p == cur
    {
      if cur < p {
        VisitsGap(t, first, cur, p);
      }
    }
    hide Visits, NextPage;
  }

  /** A page that has been hit is gone; one that has not is as it was. */
  lemma HitWalk(t: Tree, m: Tree, root: nat, first: nat, cur: nat, vb: Va)
    requires Ok(t) && Ok(m) && HitGone(t, m, root, first, cur) && ValidVa(vb)
    ensures Walk(m, root, vb) == if Hit(t, root, first, cur, vb) then Absent else Walk(t, root, vb)
  {
    hide Walk, Ok, Hit;
    assert Sees(root, root, vb);
  }

  /** Pages of one chunk are hit together if they lie under one entry. */
  lemma HitTogether(t: Tree, root: nat, first: nat, cur: nat, va: Va, vb: Va)
    requires Ok(t) && ValidVa(va) && ValidVa(vb) && PageNo(va) / 512 == PageNo(vb) / 512 && Walk(t, root, va).Large?
    ensures Walk(t, root, vb).Large? && (Hit(t, root, first, cur, va) <==> Hit(t, root, first, cur, vb))
  {
    SameChunk(t, root, va, vb);
    hide Walk, Ok, PageNo, Visits;
  }

  /** One page after one unmapping step at page `cur`. */
  lemma GoneStep(t: Tree, m: Tree, root: nat, first: nat, cur: nat, va: Va, r': nat, vb: Va)
    requires Ok(t) && Ok(m) && HitGone(t, m, root, first, cur) && Visits(t, first, cur)
    requires ValidVa(va) && ValidVa(vb) && PageNo(va) == cur
    ensures (if Covers(root, va, Walk(m, root, va).Large?, r', vb) then Absent else Walk(m, r', vb)) ==
            (if Sees(root, r', vb) && Hit(t, root, first, NextPage(t, cur), vb) then Absent else Walk(t, r', vb))
  {
    PageUnique(va, vb);
    HitNext(t, root, first, cur, vb);
    HitWalk(t, m, root, first, cur, va);
    if PageNo(va) / 512 == PageNo(vb) / 512 {
      SameChunk(t, root, va, vb);
      if Walk(t, root, va).Large? {
        HitTogether(t, root, first, cur, va, vb);
      }
    }
    if Sees(root, r', vb) {
      SeenAlike(t, root, r', vb);
    }
    hide Walk, PageNo, Ok, Hit, Visits, NextPage;
  }

  /** A huge entry of `current_pml4` that the loop stands at has not been hit. */
  lemma ProbeFresh(t: Tree, root: nat, first: nat, cur: nat, va: Va)
    requires Ok(t) && Visits(t, first, cur) && ValidVa(va) && PageNo(va) == cur && va == PageWithNo(cur) &&
      Probe(t, cur)
    requires Walk(t, root, va) == Walk(t, t.kernel, va)
    ensures !Hit(t, root, first, cur, va)
  {
    hide Ok, PageNo, Visits, PageWithNo, Walk;
    if p: nat :| p < cur && p / 512 == cur / 512 && Visits(t, first, p) {
      VisitsGap(t, first, p, cur);
      PageNoBack(va);
      PageWithNoIs(p);
      SameChunk(t, t.kernel, va, PageWithNo(p));
      assert false;
    }
  }

  /** The probe sees in the tables of the moment what it would have seen at the start. */
  lemma ProbeSame(t: Tree, m: Tree, root: nat, first: nat, cur: nat, va: Va)
    requires Ok(t) && Ok(m) && m.kernel == t.kernel && HitGone(t, m, root, first, cur) && Visits(t, first, cur)
    requires ValidVa(va) && PageNo(va) == cur && va == PageWithNo(cur)
    ensures Walk(m, m.kernel, va).Large? <==> Probe(t, cur)
  {
    hide Ok, PageNo, Visits, PageWithNo, Walk, Hit;
    if Probe(t, cur) && Sees(root, t.kernel, va) {
      SeenAlike(t, root, t.kernel, va);
      ProbeFresh(t, root, first, cur, va);
    }
  }

  /** What the unmapping loop keeps when it stands at page number `cur`. */
  ghost predicate Unmapping(t: Tree, t': Tree, root: nat, first: nat, cur: nat) {
    Ok(t) && Ok(t') && t'.kernel == t.kernel && HitGone(t, t', root, first, cur) && Visits(t, first, cur)
  }

  lemma UnmapStep(t: Tree, m: Tree, t': Tree, root: nat, first: nat, cur: nat, va: Va, huge: bool)
    requires Unmapping(t, m, root, first, cur) && Ok(t') && t'.kernel == m.kernel
    requires ValidVa(va) && PageNo(va) == cur && va == PageWithNo(cur)
    requires Unmaps(m, t', root, va) && huge == Walk(m, m.kernel, va).Large?
    ensures Unmapping(t, t', root, first, cur + if huge then 512 else 1)
  {
    hide Walk, Ok, PageNo, Hit, Covers, Visits, Probe, PageWithNo;
    ProbeSame(t, m, root, first, cur, va);
    VisitsNext(t, first, cur);
    forall r', vb | ValidVa(vb)
      ensures Walk(t', r', vb) == if Sees(root, r', vb) && Hit(t, root, first, NextPage(t, cur), vb) then Absent
        else Walk(t, r', vb)
    {
      GoneStep(t, m, root, first, cur, va, r', vb);
    }
  }

  lemma UnmapStart(t: Tree, root: nat, first: nat)
    requires Ok(t)
    ensures Unmapping(t, t, root, first, first)
  {
    hide Walk, Ok, PageNo, Probe;
    forall vb | ValidVa(vb)
      ensures !Hit(t, root, first, first, vb)
    {
    }
    hide Hit;
  }

  /** The pages the loop has come to are those below the end of the range. */
  lemma UnmapEnd(t: Tree, t': Tree, root: nat, first: nat, last: nat, cur: nat, end: nat)
    requires Unmapping(t, t', root, first, cur) && Visits(t, first, last) && cur == NextPage(t, last) &&
      last < end <= cur
    ensures HitGone(t, t', root, first, end)
  {
    hide Walk, Ok, PageNo, Probe;
    forall p: nat | Visits(t, first, p)
      ensures p < end <==> p < cur
    {
      if last < p {
        VisitsGap(t, first, last, p);
      }
    }
    hide Visits, NextPage;
    forall vb | ValidVa(vb)
      ensures Hit(t, root, first, end, vb) <==> Hit(t, root, first, cur, vb)
    {
    }
    hide Hit;
  }

  // ----- the same without following the loop

  /** `current_pml4` has a 2 MiB entry for the chunk. */
  ghost predicate HugeChunk(t: Tree, c: nat)
    requires Ok(t)
  {
    Walk(t, t.kernel, PageWithNo(c * 512)).Large?
  }

  /** Where in chunk `c` the loop that starts at page `first` comes in: it keeps its offset over 2 MiB entries of
      `current_pml4`, and comes in at the start once it has met a chunk without one. */
  ghost function Offset(t: Tree, first: nat, c: nat): nat
    requires Ok(t)
  {
    if forall d: nat :: first / 512 <= d < c ==> HugeChunk(t, d) then first % 512 else 0
  }

  /** In a chunk with such an entry the loop comes to the page at its offset alone, in any other to all from there
      on. */
  ghost predicate OnTheWay(t: Tree, first: nat, q: nat)
    requires Ok(t)
  {
    if HugeChunk(t, q / 512) then q % 512 == Offset(t, first, q / 512) else q % 512 >= Offset(t, first, q / 512)
  }

  lemma ProbeChunk(t: Tree, p: nat)
    requires Ok(t)
    ensures Probe(t, p) <==> HugeChunk(t, p / 512)
  {
    var c := p / 512;
    assert p * PAGE_SIZE / 0x20_0000 == c && c * 512 * PAGE_SIZE / 0x20_0000 == c;
    assert p * PAGE_SIZE / 0x4000_0000 == c / 512 && c * 512 * PAGE_SIZE / 0x4000_0000 == c / 512;
    assert p * PAGE_SIZE / 0x80_0000_0000 == c / 512 / 512 && c * 512 * PAGE_SIZE / 0x80_0000_0000 == c / 512 / 512;
    hide Ok;
  }

  /** One step of the loop leaves the offsets of the chunks ahead as they are. */
  lemma OffsetStep(t: Tree, first: nat, c: nat)
    requires Ok(t) && NextPage(t, first) / 512 <= c
    ensures HugeChunk(t, first / 512) ==> Offset(t, NextPage(t, first), c) == Offset(t, first, c)
    ensures !HugeChunk(t, first / 512) ==>
      Offset(t, NextPage(t, first), c) == if c == first / 512 then first % 512 + 1 else 0
    ensures Offset(t, first, c) == if c == first / 512 then first % 512
      else if HugeChunk(t, first / 512) then Offset(t, NextPage(t, first), c) else 0
  {
    ProbeChunk(t, first);
    hide HugeChunk, Probe, Ok;
    var f := first / 512;
    if HugeChunk(t, f) {
      assert (first + 512) / 512 == f + 1 && (first + 512) % 512 == first % 512;
      assert (forall d: nat :: f <= d < c ==> HugeChunk(t, d)) <==>
        (forall d: nat :: f + 1 <= d < c ==> HugeChunk(t, d));
    } else if c > f {
      assert !(forall d: nat :: f <= d < c ==> HugeChunk(t, d));
    }
  }

  lemma {:induction false} VisitsIff(t: Tree, first: nat, q: nat)
    requires Ok(t)
    ensures Visits(t, first, q) <==> first / 512 <= q / 512 && OnTheWay(t, first, q)
    decreases if q > first then q - first else 0
  {
    hide HugeChunk, Probe, Ok, Offset;
    ProbeChunk(t, first);
    if q > first {
      if NextPage(t, first) <= q {
        VisitsIff(t, NextPage(t, first), q);
        OffsetStep(t, first, q / 512);
      } else {
        OffsetHere(t, first, q);
      }
    } else if q / 512 == first / 512 {
      OffsetSelf(t, first);
    }
  }

  lemma OffsetSelf(t: Tree, first: nat)
    requires Ok(t)
    ensures Offset(t, first, first / 512) == first % 512
  {
  }

  /** The pages a step over a 2 MiB entry leaves out. */
  lemma OffsetHere(t: Tree, first: nat, q: nat)
    requires Ok(t) && first < q < NextPage(t, first)
    ensures !OnTheWay(t, first, q)
  {
    ProbeChunk(t, first);
    hide HugeChunk, Probe, Ok;
    var f := first / 512;
    assert q / 512 == f || (q / 512 == f + 1 && q % 512 < first % 512);
  }

  /** The entry that maps the page is cleared, by the entries of the two roots: one page is if the loop comes to it, a
      2 MiB entry is if it comes into its chunk before the end. */
  ghost predicate Cleared(t: Tree, root: nat, first: nat, end: nat, vb: Va)
    requires Ok(t) && ValidVa(vb)
  {
    var q, c := PageNo(vb), PageNo(vb) / 512;
    first / 512 <= c &&
    if Walk(t, root, vb).Large? then c * 512 + Offset(t, first, c) < end else q < end && OnTheWay(t, first, q)
  }

  lemma HitIff(t: Tree, root: nat, first: nat, end: nat, vb: Va)
    requires Ok(t) && ValidVa(vb)
    ensures Hit(t, root, first, end, vb) <==> Cleared(t, root, first, end, vb)
  {
    hide Walk, Ok, PageNo, HugeChunk, Visits;
    var q, c := PageNo(vb), PageNo(vb) / 512;
    if Walk(t, root, vb).Large? {
      var p := c * 512 + Offset(t, first, c);
      assert p / 512 == c && p % 512 == Offset(t, first, c);
      VisitsIff(t, first, p);
      forall p': nat | p' / 512 == c && Visits(t, first, p')
        ensures p <= p' && first / 512 <= c
      {
        VisitsIff(t, first, p');
      }
      hide Offset;
    } else {
      VisitsIff(t, first, q);
    }
  }

  /** Exactly those entries are gone, from every space that saw them. */
  ghost predicate EntriesGone(t: Tree, t': Tree, root: nat, first: nat, end: nat)
    requires Ok(t) && Ok(t')
  {
    forall r', vb :: ValidVa(vb) ==>
      Walk(t', r', vb) == if Sees(root, r', vb) && Cleared(t, root, first, end, vb) then Absent else Walk(t, r', vb)
  }

  lemma HitGoneIff(t: Tree, t': Tree, root: nat, first: nat, end: nat)
    requires Ok(t) && Ok(t')
    ensures HitGone(t, t', root, first, end) <==> EntriesGone(t, t', root, first, end)
  {
    hide Walk, Ok, Hit, Cleared;
    forall vb | ValidVa(vb)
      ensures Hit(t, root, first, end, vb) <==> Cleared(t, root, first, end, vb)
    {
      HitIff(t, root, first, end, vb);
    }
  }

  /** The entries of the two roots fit the range: every 2 MiB entry of the space lies in the range from its first page
      to its last exactly if the loop comes into its chunk before the end, and in a chunk for which `current_pml4` has a
      2 MiB entry the space has no single page in the range but the one at the loop's offset. */
  ghost predicate Removable(t: Tree, root: nat, virt: nat, len: nat)
    requires Ok(t)
  {
    forall vb :: ValidVa(vb) && !Walk(t, root, vb).Absent? ==> RemovableAt(t, root, virt, len, vb)
  }

  ghost predicate RemovableAt(t: Tree, root: nat, virt: nat, len: nat, vb: Va)
    requires Ok(t) && ValidVa(vb)
  {
    var first, end, c := virt / PAGE_SIZE, (virt + len) / PAGE_SIZE, PageNo(vb) / 512;
    if Walk(t, root, vb).Large? then Within(vb, virt, len) <==> first / 512 <= c && c * 512 + Offset(t, first, c) < end
    else Within(vb, virt, len) ==> OnTheWay(t, first, PageNo(vb))
  }

  /** A single page outside the range is never cleared. */
  lemma RemovableCleared(t: Tree, root: nat, virt: nat, len: nat, vb: Va)
    requires Ok(t) && ValidVa(vb)
    ensures RemovableAt(t, root, virt, len, vb) <==>
            (Cleared(t, root, virt / PAGE_SIZE, (virt + len) / PAGE_SIZE, vb) <==> Within(vb, virt, len))
  {
    hide Walk, Ok, PageNo, HugeChunk;
    var first, q := virt / PAGE_SIZE, PageNo(vb);
    if q / 512 == first / 512 {
      OffsetSelf(t, first);
    }
    hide Offset;
  }

  lemma RemovesIff(t: Tree, t': Tree, root: nat, virt: nat, len: nat)
    requires Ok(t) && Ok(t') && EntriesGone(t, t', root, virt / PAGE_SIZE, (virt + len) / PAGE_SIZE)
    ensures RangeUnmapped(t, t', root, virt, len) <==> Removable(t, root, virt, len)
  {
    hide Cleared, PageNo, Within, RemovableAt;
    var first, end := virt / PAGE_SIZE, (virt + len) / PAGE_SIZE;
    forall vb | ValidVa(vb)
      ensures RemovableAt(t, root, virt, len, vb) <==>
              (Cleared(t, root, first, end, vb) <==> Within(vb, virt, len))
    {
      RemovableCleared(t, root, virt, len, vb);
    }
    if RangeUnmapped(t, t', root, virt, len) {
      forall vb | ValidVa(vb) && !Walk(t, root, vb).Absent?
        ensures Cleared(t, root, first, end, vb) <==> Within(vb, virt, len)
      {
        assert Sees(root, root, vb);
      }
    }
    if Removable(t, root, virt, len) {
      forall r', vb | ValidVa(vb)
        ensures Walk(t', r', vb) == if Sees(root, r', vb) && Within(vb, virt, len) then Absent else Walk(t, r', vb)
      {
        if Sees(root, r', vb) {
          SeenAlike(t, root, r', vb);
        }
        hide Walk, Ok;
      }
    }
    hide Walk, Ok;
  }

  /** `vmm_unmap_range`: which entries are gone, from every space that saw them, and that this is the range, no more and
      no less, exactly if the entries of the two roots fit it. */
  method UnmapRange(vm: Vmm, root: nat, virt: nat, size: nat)
    requires vm.Valid() && P4(root) in vm.tab && RangeArgs(virt, 0, size)
    modifies vm`tables
    ensures vm.Valid() && EntriesGone(old(vm.T()), vm.T(), root, virt / PAGE_SIZE, (virt + RoundUp(size)) / PAGE_SIZE)
    ensures RangeUnmapped(old(vm.T()), vm.T(), root, virt, RoundUp(size)) <==>
      Removable(old(vm.T()), root, virt, RoundUp(size))
  {
    hide StateOk, Ok, Unmapping, RangeUnmapped, Removable, Unmaps, Walk, VaOf, PageNo, HitGone, EntriesGone, Visits,
         Probe;
    ghost var t, first, end := vm.T(), virt / PAGE_SIZE, (virt + RoundUp(size)) / PAGE_SIZE;
    StateTree(t, vm.pmm);
    UnmapStart(t, root, first);
    var i := 0;
    ghost var last: nat := first;
    while i < size
      invariant i % PAGE_SIZE == 0 && vm.Valid() && Unmapping(t, vm.T(), root, first, (virt + i) / PAGE_SIZE)
      invariant i > 0 ==> last < end && Came(t, first, last, (virt + i) / PAGE_SIZE)
    {
      ghost var m := vm.T();
      AtPosition(virt, i, size);
      StateTree(m, vm.pmm);
      last := (virt + i) / PAGE_SIZE;
      Whole(virt + i);
      CameTo(t, m, root, first, last, VaOf(virt + i));
      var huge := vm.HugeAt(virt + i);
      vm.Unmap(root, virt + i);
      StateTree(vm.T(), vm.pmm);
      UnmapStep(t, m, vm.T(), root, first, last, VaOf(virt + i), huge);
      i := i + Len(huge);
      Onward(virt, i, huge, last);
    }
    if i == 0 {
      Nowhere(t, vm.T(), root, virt);
    } else {
      Beyond(virt, i, size);
      UnmapEnds(t, vm.T(), root, first, last, (virt + i) / PAGE_SIZE, end);
    }
    HitGoneIff(t, vm.T(), root, first, end);
    RemovesIff(t, vm.T(), root, virt, RoundUp(size));
  }

  /** The loop came from page `last` to page `cur`. */
  ghost predicate Came(t: Tree, first: nat, last: nat, cur: nat) {
    Ok(t) && Visits(t, first, last) && cur == NextPage(t, last)
  }

  lemma CameTo(t: Tree, m: Tree, root: nat, first: nat, cur: nat, va: Va)
    requires Unmapping(t, m, root, first, cur) && ValidVa(va) && PageNo(va) == cur && va == PageWithNo(cur)
    ensures Ok(m) && m.kernel == t.kernel && Came(t, first, cur, cur + if Walk(m, m.kernel, va).Large? then 512 else 1)
  {
    hide Ok, Walk, Visits, Hit, PageNo, PageWithNo;
    ProbeSame(t, m, root, first, cur, va);
    hide Probe;
  }

  lemma UnmapEnds(t: Tree, t': Tree, root: nat, first: nat, last: nat, cur: nat, end: nat)
    requires Unmapping(t, t', root, first, cur) && Came(t, first, last, cur) && last < end <= cur
    ensures Ok(t) && Ok(t') && HitGone(t, t', root, first, end)
  {
    hide HitGone, Ok, Visits, NextPage;
    UnmapEnd(t, t', root, first, last, cur, end);
  }

  lemma Nowhere(t: Tree, t': Tree, root: nat, virt: nat)
    requires Unmapping(t, t', root, virt / PAGE_SIZE, virt / PAGE_SIZE)
    ensures Ok(t) && Ok(t') && HitGone(t, t', root, virt / PAGE_SIZE, (virt + RoundUp(0)) / PAGE_SIZE)
  {
    hide HitGone, Ok, Visits;
  }

  lemma Whole(a: nat)
    requires a % PAGE_SIZE == 0
    ensures VaOf(a) == PageWithNo(a / PAGE_SIZE)
  {
    assert a / PAGE_SIZE * PAGE_SIZE == a;
  }

  lemma Onward(virt: nat, i: nat, huge: bool, last: nat)
    requires virt % PAGE_SIZE == 0 && i >= Len(huge) && i % PAGE_SIZE == 0 &&
      last == (virt + (i - Len(huge))) / PAGE_SIZE
    ensures (virt + i) / PAGE_SIZE == last + if huge then 512 else 1
  {
  }

  lemma Beyond(virt: nat, i: nat, size: nat)
    requires virt % PAGE_SIZE == 0 && i % PAGE_SIZE == 0 && size <= i
    ensures (virt + RoundUp(size)) / PAGE_SIZE <= (virt + i) / PAGE_SIZE
  {
  }

  // ----- when a range is removable

  /** Huge entries of the space that meet the range lie in it, and wherever `current_pml4` has a huge entry in the
      range, so has the space. */
  ghost predicate Fitting(t: Tree, root: nat, virt: nat, len: nat)
    requires Ok(t)
  {
    forall vb :: ValidVa(vb) && Within(vb, virt, len) ==> FittingAt(t, root, virt, len, vb)
  }

  ghost predicate FittingAt(t: Tree, root: nat, virt: nat, len: nat, vb: Va)
    requires Ok(t) && ValidVa(vb)
  {
    && (Walk(t, root, vb).Large? ==>
        virt / PAGE_SIZE <= PageNo(vb) / 512 * 512 && PageNo(vb) / 512 * 512 + 512 <= (virt + len) / PAGE_SIZE)
    && (Walk(t, t.kernel, vb).Large? ==> Walk(t, root, vb).Large?)
  }

  /** On such a range the loop stands at a huge entry of `current_pml4` only at its start. */
  lemma {:induction false} ChunkStarts(t: Tree, root: nat, virt: nat, len: nat, p: nat)
    requires Ok(t) && Fitting(t, root, virt, len) && virt + len <= SPACE_SIZE
    requires Visits(t, virt / PAGE_SIZE, p) && p < (virt + len) / PAGE_SIZE && Probe(t, p)
    ensures p % 512 == 0 && Walk(t, root, PageWithNo(p)).Large?
    decreases p
  {
    hide Ok, Visits, PageWithNo, PageNo;
    var first := virt / PAGE_SIZE;
    VisitsFrom(t, first, p);
    PageWithNoIs(p);
    assert FittingAt(t, root, virt, len, PageWithNo(p));
    hide Walk;
    if p > first {
      var q := LastVisited(t, first, p - 1);
      VisitsGap(t, first, q, p);
      if Probe(t, q) {
        ChunkStarts(t, root, virt, len, q);
      } else if p % 512 != 0 {
        PageWithNoIs(q);
        SameChunk(t, t.kernel, PageWithNo(p), PageWithNo(q));
      }
    }
  }

  /** What the loop hits lies in the range. */
  lemma HitWithin(t: Tree, root: nat, virt: nat, len: nat, vb: Va)
    requires Ok(t) && Fitting(t, root, virt, len) && virt + len <= SPACE_SIZE && ValidVa(vb)
    requires Hit(t, root, virt / PAGE_SIZE, (virt + len) / PAGE_SIZE, vb)
    ensures Within(vb, virt, len)
  {
    hide Ok, Walk, PageNo, Visits, PageWithNo;
    var first, end := virt / PAGE_SIZE, (virt + len) / PAGE_SIZE;
    if Walk(t, root, vb).Large? {
      var p: nat :| p < end && p / 512 == PageNo(vb) / 512 && Visits(t, first, p);
      VisitsFrom(t, first, p);
      PageWithNoIs(p);
      SameChunk(t, root, vb, PageWithNo(p));
      assert FittingAt(t, root, virt, len, PageWithNo(p));
    } else {
      VisitsFrom(t, first, PageNo(vb));
    }
  }

  /** Whatever is mapped in the range is hit. */
  lemma WithinHit(t: Tree, root: nat, virt: nat, len: nat, vb: Va)
    requires Ok(t) && Fitting(t, root, virt, len) && virt + len <= SPACE_SIZE && ValidVa(vb) && Within(vb, virt, len)
    ensures Hit(t, root, virt / PAGE_SIZE, (virt + len) / PAGE_SIZE, vb)
  {
    hide Ok, Walk, PageNo, Visits, PageWithNo;
    var first, n := virt / PAGE_SIZE, PageNo(vb);
    assert FittingAt(t, root, virt, len, vb);
    var p := LastVisited(t, first, n);
    VisitsFrom(t, first, p);
    if Probe(t, p) {
      ChunkStarts(t, root, virt, len, p);
      PageWithNoIs(p);
      if p / 512 == n / 512 {
        SameChunk(t, root, PageWithNo(p), vb);
      }
    }
    hide Probe;
  }

  lemma FittingRemovable(t: Tree, root: nat, virt: nat, len: nat)
    requires Ok(t) && Fitting(t, root, virt, len) && virt + len <= SPACE_SIZE
    ensures Removable(t, root, virt, len)
  {
    hide Ok, Walk, Fitting, Within, Hit, Cleared, RemovableAt;
    forall vb | ValidVa(vb) && !Walk(t, root, vb).Absent?
      ensures RemovableAt(t, root, virt, len, vb)
    {
      if Within(vb, virt, len) {
        WithinHit(t, root, virt, len, vb);
      }
      if Hit(t, root, virt / PAGE_SIZE, (virt + len) / PAGE_SIZE, vb) {
        HitWithin(t, root, virt, len, vb);
      }
      HitIff(t, root, virt / PAGE_SIZE, (virt + len) / PAGE_SIZE, vb);
      RemovableCleared(t, root, virt, len, vb);
    }
  }

  /** In a space other than `current_pml4`: a page that lies behind the first one of the range is left mapped if
      `current_pml4` has a huge entry there and the space has not. */
  lemma SkippedPage(t: Tree, root: nat, virt: nat, len: nat, vb: Va)
    requires Ok(t) && ValidVa(vb) && Within(vb, virt, len) && Walk(t, root, vb).Small?
    requires Probe(t, virt / PAGE_SIZE) && 0 < PageNo(vb) - virt / PAGE_SIZE < 512
    ensures !Removable(t, root, virt, len) && !Cleared(t, root, virt / PAGE_SIZE, (virt + len) / PAGE_SIZE, vb)
  {
    hide Ok, Walk, PageNo, OnTheWay;
    OffsetHere(t, virt / PAGE_SIZE, PageNo(vb));
    assert !RemovableAt(t, root, virt, len, vb);
  }

  // ----- the round trip

  /** No page of the range is mapped. */
  ghost predicate Unused(t: Tree, root: nat, virt: nat, len: nat)
    requires Ok(t)
  {
    forall vb :: ValidVa(vb) && Within(vb, virt, len) ==> Walk(t, root, vb).Absent?
  }

  lemma MappedChunk(t: Tree, m: Tree, root: nat, virt: nat, phys: nat, size: nat, len: nat, flags: Flags, spent: bool,
                    vb: Va, vc: Va)
    requires Ok(t) && Ok(m) && RangeMapped(t, m, root, virt, phys, size, len, flags, spent) &&
      Unused(t, root, virt, len)
    requires ValidVa(vb) && Within(vb, virt, len) && Walk(m, root, vb).Large?
    requires ValidVa(vc) && PageNo(vb) / 512 == PageNo(vc) / 512
    ensures Within(vc, virt, len)
  {
    SameChunk(m, root, vb, vc);
    SameChunk(t, root, vb, vc);
    hide Walk, PageNo, Ok, MappedAt;
  }

  /** Where nothing of the range is mapped there is no 2 MiB entry to give way. */
  lemma NotWiped(t: Tree, root: nat, virt: nat, phys: nat, size: nat, len: nat, vb: Va)
    requires Ok(t) && ValidVa(vb) && Unused(t, root, virt, len) && virt + len <= SPACE_SIZE
    ensures !Wiped(Walk(t, root, vb), vb, virt, phys, size, len)
  {
    if Meets(vb, virt, len) {
      var c := PageNo(vb) / 512 * 512;
      var q := if c < virt / PAGE_SIZE then virt / PAGE_SIZE else c;
      PageWithNoIs(q);
      SameChunk(t, root, vb, PageWithNo(q));
      hide PageNo, PageWithNo, Walk, Ok;
      assert Within(PageWithNo(q), virt, len);
    }
  }

  lemma NotBlocked(t: Tree, root: nat, virt: nat, phys: nat, size: nat, vb: Va)
    requires Ok(t) && ValidVa(vb) && Unused(t, root, virt, RoundUp(size))
    ensures !Blocked(t, root, virt, phys, size, vb)
  {
    hide Walk, Ok, RoundUp, Within;
  }

  /** A range mapped into unused space can be unmapped again. */
  lemma MappedRemovable(t: Tree, m: Tree, root: nat, virt: nat, phys: nat, size: nat, flags: Flags, spent: bool)
    requires Ok(t) && Ok(m) && m.kernel == t.kernel &&
      RangeMapped(t, m, root, virt, phys, size, RoundUp(size), flags, spent)
    requires Unused(t, root, virt, RoundUp(size)) && Unused(t, t.kernel, virt, RoundUp(size)) &&
      RangeArgs(virt, phys, size)
    ensures Removable(m, root, virt, RoundUp(size))
  {
    var len := RoundUp(size);
    forall vb | ValidVa(vb) && Within(vb, virt, len)
      ensures FittingAt(m, root, virt, len, vb)
    {
      if Sees(root, m.kernel, vb) {
        SeenAlike(m, root, m.kernel, vb);
      }
      hide Walk, Ok, MappedAt;
      if Walk(m, root, vb).Large? {
        PageUnique(vb, vb);
        PageNoBack(vb);
        var c := PageNo(vb) / 512 * 512;
        PageWithNoIs(c);
        PageWithNoIs(c + 511);
        hide PageWithNo, PageNo;
        MappedChunk(t, m, root, virt, phys, size, len, flags, spent, vb, PageWithNo(c));
        MappedChunk(t, m, root, virt, phys, size, len, flags, spent, vb, PageWithNo(c + 511));
      }
    }
    hide FittingAt, RangeMapped, Unused;
    FittingRemovable(m, root, virt, len);
  }

  lemma Restored(t: Tree, m: Tree, t': Tree, root: nat, virt: nat, phys: nat, size: nat, len: nat, flags: Flags,
                 spent: bool)
    requires Ok(t) && Ok(m) && Ok(t') && RangeMapped(t, m, root, virt, phys, size, len, flags, spent)
    requires RangeUnmapped(m, t', root, virt, len) && Unused(t, root, virt, len) && virt + len <= SPACE_SIZE
    ensures SameWalks(t, t')
  {
    forall r', vb | ValidVa(vb)
      ensures Walk(t', r', vb) == Walk(t, r', vb)
    {
      if Sees(root, r', vb) {
        SeenAlike(t, root, r', vb);
        NotWiped(t, root, virt, phys, size, len, vb);
      }
      hide MappedAt, Wiped, Blocks, Within;
      hide Walk, Ok;
    }
  }

  lemma UnusedApart(t: Tree, pmm: Frames.Frames, root: nat, virt: nat, phys: nat, size: nat)
    requires Ok(t) && Unused(t, root, virt, RoundUp(size))
    ensures BlockedApart(t, pmm, root, virt, phys, size)
  {
    hide Ok, Blocked, Unused, Walk;
    forall vb | ValidVa(vb)
      ensures !Blocked(t, root, virt, phys, size, vb)
    {
      NotBlocked(t, root, virt, phys, size, vb);
    }
  }

  /** Unmapping a range just mapped into unused space brings back every translation of every space. */
  method MapThenUnmap(vm: Vmm, root: nat, virt: nat, phys: nat, size: nat, flags: Flags)
    requires vm.Valid() && P4(root) in vm.tab && !flags.huge && RangeArgs(virt, phys, size)
    requires Unused(vm.T(), root, virt, RoundUp(size)) && Unused(vm.T(), vm.kernel, virt, RoundUp(size))
    modifies vm`tables, vm`pmm, vm`tab
    ensures vm.Valid() && SameWalks(old(vm.T()), vm.T())
  {
    hide StateOk, Ok, RangeMapped, RangeUnmapped, Removable, SameWalks, BlockedApart, Unused, HitGone, RangeArgs;
    ghost var t := vm.T();
    StateTree(t, vm.pmm);
    UnusedApart(t, vm.pmm, root, virt, phys, size);
    MapRange(vm, root, virt, phys, size, flags);
    ghost var m, spent := vm.T(), vm.pmm.free == [];
    StateTree(m, vm.pmm);
    MappedRemovable(t, m, root, virt, phys, size, flags, spent);
    ArgsApart(virt, phys, size);
    UnmapRange(vm, root, virt, size);
    StateTree(vm.T(), vm.pmm);
    Restored(t, m, vm.T(), root, virt, phys, size, RoundUp(size), flags, spent);
  }

  lemma ArgsApart(virt: nat, phys: nat, size: nat)
    requires RangeArgs(virt, phys, size)
    ensures RangeArgs(virt, 0, size)
  {
  }
}
