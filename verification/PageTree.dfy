/** The four-level page-table tree as a value: which frames are tables, where each stands, and what a
    walk from a root finds. */
module PageTree {
  import opened Common
  import opened Paging

  /** Where a table stands. Slot 0 of every PML4 points to the one kernel PDPT, so the tables below it
      have the owner `KERNEL`; all others are owned by the root they hang from. */
  datatype Pos =
    | P4(root: nat)
    | P3(owner: nat, i: nat)
    | P2(owner: nat, i: nat, j: nat)
    | P1(owner: nat, i: nat, j: nat, k: nat)

  const KERNEL: nat := 0

  function Owner(r: nat, i: nat): nat {
    if i == 0 then KERNEL else r
  }

  function OwnerOf(p: Pos): nat {
    if p.P4? then p.root else p.owner
  }

  /** The table that entry `n` of a table above the last level leads to. */
  function Child(p: Pos, n: nat): Pos
    requires !p.P1?
  {
    match p
    case P4(r) => P3(Owner(r, n), n)
    case P3(o, i) => P2(o, i, n)
    case P2(o, i, j) => P1(o, i, j, n)
  }

  datatype Tree = Tree(tables: map<nat, seq<Entry>>, tab: map<Pos, nat>, kernel: nat)

  ghost predicate Has(t: Tree, p: Pos) {
    p in t.tab && t.tab[p] in t.tables && |t.tables[t.tab[p]]| == ENTRIES
  }

  ghost function At(t: Tree, p: Pos, n: nat): Entry
    requires Has(t, p) && n < ENTRIES
  {
    t.tables[t.tab[p]][n]
  }

  /** The entry is followed by the walk. */
  predicate Follows(p: Pos, e: Entry) {
    e.flags.present && !(p.P2? && e.flags.huge)
  }

  ghost predicate LinkOk(t: Tree, p: Pos, n: nat) {
    && Has(t, p) && n < ENTRIES
    && var e := At(t, p, n);
    && (e.flags.present || e == Clear) && (p.P1? ==> !e.flags.huge)
    && (!p.P1? ==> (Follows(p, e) <==> Child(p, n) in t.tab) && (Follows(p, e) ==> t.tab[Child(p, n)] == e.frame))
  }

  ghost predicate PlaceOk(t: Tree, p: Pos)
    requires p in t.tab
  {
    match p
    case P4(r) => t.tab[p] == r
    case P3(o, i) => i < ENTRIES && (i == 0 <==> o == KERNEL) && (i > 0 ==> P4(o) in t.tab)
    case P2(o, i, j) => j < ENTRIES && P3(o, i) in t.tab
    case P1(o, i, j, k) => k < ENTRIES && P2(o, i, j) in t.tab
  }

  ghost predicate PlacesOk(t: Tree) {
    && P4(t.kernel) in t.tab && P3(KERNEL, 0) in t.tab
    && (forall p :: p in t.tab ==> Has(t, p) && t.tab[p] != 0 && PlaceOk(t, p))
  }

  ghost predicate OnePlace(t: Tree) {
    forall p, q :: p in t.tab && q in t.tab && t.tab[p] == t.tab[q] ==> p == q
  }

  ghost predicate LinksOk(t: Tree) {
    forall p, n: nat :: p in t.tab && n < ENTRIES ==> LinkOk(t, p, n)
  }

  /** Every table has one place, every entry that is followed leads to the table at the place below, and
      entries are present or all zero. */
  ghost predicate Ok(t: Tree) {
    PlacesOk(t) && OnePlace(t) && LinksOk(t)
  }

  /** The entry that maps a page: `Absent` when the walk ends early or on a clear entry. */
  datatype Leaf = Absent | Small(e: Entry) | Large(e: Entry)

  ghost function Walk(t: Tree, r: nat, va: Va): Leaf
    requires Ok(t) && ValidVa(va)
  {
    var o := Owner(r, va.i);
    if P2(o, va.i, va.j) !in t.tab then Absent
    else
      var e := At(t, P2(o, va.i, va.j), va.k);
      if e.flags.huge then Large(e)
      else if P1(o, va.i, va.j, va.k) !in t.tab then Absent
      else
        var e := At(t, P1(o, va.i, va.j, va.k), va.l);
        if e.flags.present then Small(e) else Absent
  }

  // ----- changing one entry

  ghost function SetEntry(t: Tree, p: Pos, n: nat, e: Entry): Tree
    requires Has(t, p) && n < ENTRIES
  {
    t.(tables := t.tables[t.tab[p] := t.tables[t.tab[p]][n := e]])
  }

  /** The page of entry `l` of the table at `p`, seen from root `r`, is `va`. */
  predicate Names(p: Pos, l: nat, r: nat, va: Va) {
    p == P1(Owner(r, va.i), va.i, va.j, va.k) && l == va.l
  }

  lemma SetLeafOk(t: Tree, p: Pos, l: nat, e: Entry)
    requires Ok(t) && p in t.tab && p.P1? && l < ENTRIES && (e.flags.present || e == Clear) && !e.flags.huge
    ensures Has(t, p) && Ok(SetEntry(t, p, l, e))
  {
    var t' := SetEntry(t, p, l, e);
    forall q, n: nat | q in t'.tab && n < ENTRIES
      ensures LinkOk(t', q, n)
    {
      assert LinkOk(t, q, n);
    }
  }

  lemma SetLeafWalk(t: Tree, p: Pos, l: nat, e: Entry, r: nat, va: Va)
    requires Ok(t) && p in t.tab && p.P1? && l < ENTRIES && Has(t, p) && Ok(SetEntry(t, p, l, e)) && ValidVa(va)
    ensures Walk(SetEntry(t, p, l, e), r, va) ==
            (if Names(p, l, r, va) then (if e.flags.present then Small(e) else Absent) else Walk(t, r, va))
  {
    assert PlaceOk(t, p);
    var q := P2(p.owner, p.i, p.j);
    assert LinkOk(t, q, p.k);
  }

  /** A huge entry, or none, over a slot without a table. */
  lemma SetHugeOk(t: Tree, p: Pos, k: nat, e: Entry)
    requires Ok(t) && p in t.tab && p.P2? && k < ENTRIES && Child(p, k) !in t.tab
    requires (e.flags.present && e.flags.huge) || e == Clear
    ensures Has(t, p) && Ok(SetEntry(t, p, k, e))
  {
    var t' := SetEntry(t, p, k, e);
    forall q, n: nat | q in t'.tab && n < ENTRIES
      ensures LinkOk(t', q, n)
    {
      assert LinkOk(t, q, n);
    }
  }

  lemma SetHugeWalk(t: Tree, p: Pos, k: nat, e: Entry, r: nat, va: Va)
    requires Ok(t) && p in t.tab && p.P2? && k < ENTRIES && Child(p, k) !in t.tab && Has(t, p) &&
      Ok(SetEntry(t, p, k, e))
    requires (e.flags.present && e.flags.huge) || e == Clear
    requires ValidVa(va)
    ensures Walk(SetEntry(t, p, k, e), r, va) ==
            (if p == P2(Owner(r, va.i), va.i, va.j) && k == va.k then (if e.flags.huge then Large(e) else Absent)
             else Walk(t, r, va))
  {
  }

  /** A huge entry over a slot with a table: the table is nobody's any more. */
  ghost function SetOver(t: Tree, p: Pos, k: nat, e: Entry): Tree
    requires Has(t, p) && p.P2? && k < ENTRIES
  {
    SetEntry(t, p, k, e).(tab := t.tab - {Child(p, k)})
  }

  lemma SetOverPlaces(t: Tree, p: Pos, k: nat, e: Entry)
    requires PlacesOk(t) && p in t.tab && p.P2? && k < ENTRIES
    ensures Has(t, p) && PlacesOk(SetOver(t, p, k, e))
  {
    var t' := SetOver(t, p, k, e);
    forall q | q in t'.tab
      ensures Has(t', q) && t'.tab[q] != 0 && PlaceOk(t', q)
    {
      assert Has(t, q) && PlaceOk(t, q);
    }
  }

  lemma SetOverOk(t: Tree, p: Pos, k: nat, e: Entry)
    requires Ok(t) && p in t.tab && p.P2? && k < ENTRIES && e.flags.present && e.flags.huge
    ensures Has(t, p) && Ok(SetOver(t, p, k, e))
  {
    SetOverPlaces(t, p, k, e);
    var t' := SetOver(t, p, k, e);
    hide PlacesOk;
    forall q, n: nat | q in t'.tab && n < ENTRIES
      ensures LinkOk(t', q, n)
    {
      assert LinkOk(t, q, n);
    }
  }

  lemma SetOverWalk(t: Tree, p: Pos, k: nat, e: Entry, r: nat, va: Va)
    requires Ok(t) && p in t.tab && p.P2? && k < ENTRIES && Has(t, p) && Ok(SetOver(t, p, k, e))
    requires e.flags.present && e.flags.huge && ValidVa(va)
    ensures Walk(SetOver(t, p, k, e), r, va) ==
            (if p == P2(Owner(r, va.i), va.i, va.j) && k == va.k then Large(e) else Walk(t, r, va))
  {
  }

  // ----- writing to a frame that is no table

  /** The frame has words, and no table stands in it. */
  ghost predicate NoTable(t: Tree, f: nat) {
    f in t.tables && |t.tables[f]| == ENTRIES && forall p :: p in t.tab ==> t.tab[p] != f
  }

  lemma WordsOk(t: Tree, f: nat, words: seq<Entry>)
    requires Ok(t) && NoTable(t, f) && |words| == ENTRIES
    ensures Ok(t.(tables := t.tables[f := words]))
  {
    var t' := t.(tables := t.tables[f := words]);
    forall q, n: nat | q in t'.tab && n < ENTRIES
      ensures LinkOk(t', q, n)
    {
      assert LinkOk(t, q, n);
    }
    assert forall q :: q in t.tab ==> Has(t, q) && PlaceOk(t, q);
  }

  lemma WordsWalk(t: Tree, f: nat, words: seq<Entry>, r: nat, va: Va)
    requires Ok(t) && NoTable(t, f) && Ok(t.(tables := t.tables[f := words])) && ValidVa(va)
    ensures Walk(t.(tables := t.tables[f := words]), r, va) == Walk(t, r, va)
  {
  }

  // ----- adding a table

  ghost function AddTable(t: Tree, p: Pos, n: nat, f: nat, e: Entry): Tree
    requires Has(t, p) && n < ENTRIES && !p.P1?
  {
    t.(tables := t.tables[t.tab[p] := t.tables[t.tab[p]][n := e]][f := ZeroTable()], tab := t.tab[Child(p, n) := f])
  }

  /** Frame `f` is nobody's table, and entry `n` of the table at `p` is free for it. */
  ghost predicate CanAdd(t: Tree, p: Pos, n: nat, f: nat, e: Entry) {
    && p in t.tab && !p.P1? && n < ENTRIES && Child(p, n) !in t.tab && f != 0
    && (forall q :: q in t.tab ==> t.tab[q] != f)
    && e.flags.present && !e.flags.huge && e.frame == f && Has(t, p)
  }

  /** Nothing hangs below a place without a table. */
  lemma Orphan(t: Tree, q: Pos, m: nat)
    requires PlacesOk(t) && q !in t.tab && !q.P1? && !q.P4?
    ensures Child(q, m) !in t.tab
  {
    assert Child(q, m) in t.tab ==> PlaceOk(t, Child(q, m));
  }

  lemma AddTableLink(t: Tree, p: Pos, n: nat, f: nat, e: Entry, q: Pos, m: nat)
    requires Ok(t) && CanAdd(t, p, n, f, e) && q in AddTable(t, p, n, f, e).tab && m < ENTRIES
    ensures LinkOk(AddTable(t, p, n, f, e), q, m)
  {
    if q in t.tab {
      assert LinkOk(t, q, m);
    } else if !q.P1? {
      Orphan(t, q, m);
    }
  }

  lemma AddTableLinks(t: Tree, p: Pos, n: nat, f: nat, e: Entry)
    requires Ok(t) && CanAdd(t, p, n, f, e)
    ensures LinksOk(AddTable(t, p, n, f, e))
  {
    hide LinkOk;
    var t' := AddTable(t, p, n, f, e);
    forall q, m: nat | q in t'.tab && m < ENTRIES
      ensures LinkOk(t', q, m)
    {
      AddTableLink(t, p, n, f, e, q, m);
    }
  }

  lemma AddTableOk(t: Tree, p: Pos, n: nat, f: nat, e: Entry)
    requires Ok(t) && CanAdd(t, p, n, f, e)
    ensures Ok(AddTable(t, p, n, f, e))
  {
    AddTableLinks(t, p, n, f, e);
    hide LinksOk, LinkOk;
    var t' := AddTable(t, p, n, f, e);
    forall q | q in t'.tab
      ensures Has(t', q) && t'.tab[q] != 0 && PlaceOk(t', q)
    {
      assert q in t.tab ==> Has(t, q) && PlaceOk(t, q);
    }
  }

  /** The entries of a table that was there. */
  lemma AddTableAt(t: Tree, p: Pos, n: nat, f: nat, e: Entry, q: Pos, m: nat)
    requires Ok(t) && CanAdd(t, p, n, f, e) && q in t.tab && m < ENTRIES
    ensures Has(t, q) && Has(AddTable(t, p, n, f, e), q)
    ensures At(AddTable(t, p, n, f, e), q, m) == if q == p && m == n then e else At(t, q, m)
  {
    hide LinksOk, PlaceOk;
  }

  /** Those of the new one. */
  lemma AddTableNew(t: Tree, p: Pos, n: nat, f: nat, e: Entry, m: nat)
    requires CanAdd(t, p, n, f, e) && m < ENTRIES
    ensures Has(AddTable(t, p, n, f, e), Child(p, n)) && At(AddTable(t, p, n, f, e), Child(p, n), m) == Clear
  {
  }

  /** The page lies under entry `n` of the directory at `p`. */
  predicate Under(p: Pos, n: nat, r: nat, va: Va) {
    p == P2(Owner(r, va.i), va.i, va.j) && n == va.k
  }

  /** A new empty table changes what no walk finds, unless a 2 MiB entry gives way to it: then the pages under it are
      gone. */
  lemma AddTableWalk(t: Tree, p: Pos, n: nat, f: nat, e: Entry, r: nat, va: Va)
    requires Ok(t) && CanAdd(t, p, n, f, e) && Ok(AddTable(t, p, n, f, e)) && ValidVa(va)
    ensures Walk(AddTable(t, p, n, f, e), r, va) == if Under(p, n, r, va) then Absent else Walk(t, r, va)
    ensures Under(p, n, r, va) ==> Walk(t, r, va) == if At(t, p, n).flags.huge then Large(At(t, p, n)) else Absent
  {
    var o := Owner(r, va.i);
    var q2, q1 := P2(o, va.i, va.j), P1(o, va.i, va.j, va.k);
    AddTableNew(t, p, n, f, e, va.k);
    AddTableNew(t, p, n, f, e, va.l);
    if q2 in t.tab {
      AddTableAt(t, p, n, f, e, q2, va.k);
    } else {
      Orphan(t, q2, va.k);
    }
    if q1 in t.tab {
      AddTableAt(t, p, n, f, e, q1, va.l);
    }
    hide Ok, At;
  }

  // ----- entries that lead to tables

  /** The entry leads to the table it led to in `t`, or to a new one. */
  ghost predicate LinkKept(t: Tree, t': Tree, p: Pos, n: nat)
    requires !p.P1? && n < ENTRIES
  {
    && Has(t', p)
    && if p in t.tab && Child(p, n) in t.tab then Has(t, p) && At(t', p, n) == At(t, p, n)
       else At(t', p, n).flags == LINK
  }

  ghost predicate LinksKept(t: Tree, t': Tree) {
    forall p: Pos, n: nat :: !p.P1? && n < ENTRIES && p in t'.tab && Child(p, n) in t'.tab ==> LinkKept(t, t', p, n)
  }

  lemma LinksSame(t: Tree)
    requires Ok(t)
    ensures LinksKept(t, t)
  {
  }

  lemma LinksOn(t: Tree, m: Tree, t': Tree)
    requires LinksKept(t, m) && LinksKept(m, t') && t.tab.Keys <= m.tab.Keys
    ensures LinksKept(t, t')
  {
    forall p: Pos, n: nat | !p.P1? && n < ENTRIES && p in t'.tab && Child(p, n) in t'.tab
      ensures LinkKept(t, t', p, n)
    {
      assert LinkKept(m, t', p, n);
      assert p in m.tab && Child(p, n) in m.tab ==> LinkKept(t, m, p, n);
    }
  }

  lemma AddTableLinksKept(t: Tree, p: Pos, n: nat, f: nat, e: Entry)
    requires Ok(t) && CanAdd(t, p, n, f, e) && e.flags == LINK
    ensures LinksKept(t, AddTable(t, p, n, f, e))
  {
    var t' := AddTable(t, p, n, f, e);
    forall q: Pos, m: nat | !q.P1? && m < ENTRIES && q in t'.tab && Child(q, m) in t'.tab
      ensures LinkKept(t, t', q, m)
    {
      if q in t.tab {
        AddTableAt(t, p, n, f, e, q, m);
        hide Ok, AddTable;
      } else {
        Orphan(t, q, m);
      }
    }
  }

  /** Tables whose frames keep their words, or are gone. */
  lemma LinksStay(t: Tree, t': Tree)
    requires Ok(t) && t'.tab.Keys <= t.tab.Keys && forall p :: p in t'.tab ==> t'.tab[p] == t.tab[p]
    requires forall p: Pos, n: nat :: !p.P1? && n < ENTRIES && p in t'.tab && Child(p, n) in t'.tab ==>
      Has(t', p) && Has(t, p) && At(t', p, n) == At(t, p, n)
    ensures LinksKept(t, t')
  {
  }

  lemma SetLeafLinks(t: Tree, p: Pos, l: nat, e: Entry)
    requires Ok(t) && p in t.tab && p.P1? && l < ENTRIES && Has(t, p)
    ensures LinksKept(t, SetEntry(t, p, l, e))
  {
    LinksStay(t, SetEntry(t, p, l, e));
  }

  lemma SetOverLinks(t: Tree, p: Pos, k: nat, e: Entry)
    requires Ok(t) && p in t.tab && p.P2? && k < ENTRIES && Has(t, p)
    ensures LinksKept(t, SetOver(t, p, k, e))
  {
    LinksStay(t, SetOver(t, p, k, e));
  }

  lemma WordsLinks(t: Tree, f: nat, words: seq<Entry>)
    requires Ok(t) && NoTable(t, f)
    ensures LinksKept(t, t.(tables := t.tables[f := words]))
  {
    LinksStay(t, t.(tables := t.tables[f := words]));
  }

  lemma SmallNotHuge(t: Tree, r: nat, va: Va)
    requires Ok(t) && ValidVa(va) && Walk(t, r, va).Small?
    ensures !Walk(t, r, va).e.flags.huge
  {
    assert LinkOk(t, P1(Owner(r, va.i), va.i, va.j, va.k), va.l);
  }
}
