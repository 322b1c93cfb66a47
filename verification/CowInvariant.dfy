/** Every action of the copy-on-write machine keeps its invariant. */
module CowInvariant {
  import opened Common
  import opened Paging
  import opened CowMachine
  import Frames

  // ----- who holds what

  /** Entries of a running space are always counted. */
  lemma LiveCounted(s: Sys, x: Slot)
    requires UnrefOk(s) && PcsOk(s) && x in s.leaf && x.space in s.live
    ensures x !in s.unref && Leaf(x) in Holders(s, s.leaf[x].frame)
  {
    hide Stable;
    assert x in s.unref ==> PcOk(s, s.unref[x]);
  }

  /** Whatever an entry points to is held by somebody. */
  lemma LeafFrameHeld(s: Sys, x: Slot)
    requires UnrefOk(s) && PcsOk(s) && x in s.leaf
    ensures Holders(s, s.leaf[x].frame) != {}
  {
    hide Stable;
    if x in s.unref {
      var p := s.pc[s.unref[x]];
      assert PcOk(s, s.unref[x]);
      assert HasLeaf(s, p.child, p.va);
      hide PcsOk;
      hide PcOk;
      LiveCounted(s, Slot(p.space, p.va));
    } else {
      assert Leaf(x) in Holders(s, s.leaf[x].frame);
    }
  }

  /** A frame about to be allocated is held by nobody and no entry points to it. */
  lemma TopUnheld(s: Sys)
    requires Inv(s) && s.pmm.free != []
    ensures var t := Frames.Top(s.pmm);
      t in s.pmm.refs && t in s.mem && Holders(s, t) == {} && t !in s.tabs && forall x :: x in s.leaf ==>
      s.leaf[x].frame != t
  {
    hide OwnersOk, RootsOk;
    Frames.TakeValid(s.pmm);
    var t := Frames.Top(s.pmm);
    assert t in s.tabs ==> Table in Holders(s, t);
    hide PcsOk, UnrefOk, Holders;
    forall x | x in s.leaf
      ensures s.leaf[x].frame != t
    {
      LeafFrameHeld(s, x);
    }
  }

  /** No entry is writable to a frame a fault is being handled for. */
  lemma StableHeld(s: Sys, space: nat, va: Va, e: Entry)
    requires UnrefOk(s) && PcsOk(s) && Exclusive(s) && Stable(s, space, va, e)
    ensures Leaf(Slot(space, va)) in Holders(s, e.frame) && Slot(space, va) !in s.unref
    ensures forall x :: x in s.leaf && s.leaf[x].frame == e.frame ==> !s.leaf[x].flags.writable
  {
    hide PcsOk, UnrefOk;
    LiveCounted(s, Slot(space, va));
  }

  lemma SingleHolder(h: set<Holder>, x: Holder)
    requires x in h && |h| <= 1
    ensures h == {x}
  {
    assert h == {x} + (h - {x});
  }

  /** Holders depend only on the leaf frames, the counted entries, the hands and the tables. */
  lemma SameHolders(s: Sys, s': Sys)
    requires s'.leaf.Keys == s.leaf.Keys && (forall x :: x in s.leaf ==> s'.leaf[x].frame == s.leaf[x].frame)
    requires s'.unref == s.unref && s'.tabs.Keys == s.tabs.Keys && s'.pc.Keys == s.pc.Keys
    requires forall c, f :: c in s.pc ==> InHand(s'.pc[c], f) == InHand(s.pc[c], f)
    ensures forall f :: Holders(s', f) == Holders(s, f)
  {
    forall f
      ensures Holders(s', f) == Holders(s, f)
    {
      assert HandHolders(s', f) == HandHolders(s, f);
      assert LeafHolders(s', f) == LeafHolders(s, f);
    }
  }

  // ----- what the other CPUs rely on

  /** A step of CPU `c` touches only spaces no other CPU owns. */
  ghost predicate Local(s: Sys, s': Sys, c: nat) {
    && c in s.pc && s'.pc.Keys == s.pc.Keys && (forall d :: d in s.pc && d != c ==> s'.pc[d] == s.pc[d])
    && s'.mem.Keys == s.mem.Keys && s'.pmm.refs.Keys == s.pmm.refs.Keys
    && (forall x :: Owns(s'.pc[c], x) ==> IsRoot(s', x) && FreeFor(s, c, x))
    && (forall x :: !FreeFor(s, c, x) ==> (x in s'.live <==> x in s.live) && (IsRoot(s, x) ==> IsRoot(s', x)))
    && (forall x: Slot :: !FreeFor(s, c, x.space) ==>
          (x in s'.leaf <==> x in s.leaf) && (x in s.leaf ==> s'.leaf[x] == s.leaf[x]) &&
          (x in s.unref ==> x in s'.unref))
  }

  /** The frames CPU `d` is working with were left alone. */
  ghost predicate FramesKept(s: Sys, s': Sys, d: nat)
    requires d in s.pc
  {
    var p := s.pc[d];
    && (p.Copying? ==> Holders(s', p.copy) == Holders(s, p.copy) &&
                       p.copy in s.mem && p.copy in s'.mem && s'.mem[p.copy] == s.mem[p.copy] &&
                       p.e.frame in s.mem && p.e.frame in s'.mem && s'.mem[p.e.frame] == s.mem[p.e.frame])
    && (p.Keeping? ==> Holders(s', p.e.frame) == Holders(s, p.e.frame))
    && (p.Placing? ==> Holders(s', p.frame) == Holders(s, p.frame))
  }

  lemma OtherOk(s: Sys, s': Sys, c: nat, d: nat)
    requires d in s.pc && c != d && PcOk(s, d) && Local(s, s', c) && FramesKept(s, s', d)
    ensures PcOk(s', d)
  {
    hide Holders;
    assert forall x :: Owns(s.pc[d], x) ==> !FreeFor(s, c, x);
    hide FreeFor;
  }

  lemma OthersOk(s: Sys, s': Sys, c: nat)
    requires PcsOk(s) && Local(s, s', c) && PcOk(s', c)
    requires forall d :: d in s.pc && d != c ==> FramesKept(s, s', d)
    ensures PcsOk(s')
  {
    forall d | d in s'.pc
      ensures PcOk(s', d)
    {
      if d != c {
        assert PcOk(s, d) && FramesKept(s, s', d);
        assert d in s.pc;
        hide PcOk, FramesKept, Local;
        OtherOk(s, s', c, d);
      }
    }
  }

  lemma OwnersKept(s: Sys, s': Sys, c: nat)
    requires OwnersOk(s) && Local(s, s', c)
    ensures OwnersOk(s')
  {
    forall d, x | d in s'.pc && Owns(s'.pc[d], x)
      ensures IsRoot(s', x) && FreeFor(s', d, x)
    {
      assert OwnsAlone(s, d) && OwnsAlone(s, c);
    }
  }

  /** A frame whose holders CPU `c` may change: nobody's, its own, a table, or one its spaces map. */
  ghost predicate Mine(s: Sys, c: nat, f: nat)
    requires c in s.pc
  {
    var h := Holders(s, f);
    h == {} || Hand(c) in h || Table in h || exists x :: Leaf(x) in h && Owns(s.pc[c], x.space)
  }

  /** A frame CPU `c` may write to. */
  ghost predicate Private(s: Sys, c: nat, f: nat)
    requires c in s.pc
  {
    forall h :: h in Holders(s, f) ==> h == Hand(c) || (h.Leaf? && Owns(s.pc[c], h.slot.space))
  }

  /** A new frame in another CPU's hand is not CPU `c`'s to take. */
  lemma HandNotMine(s: Sys, c: nat, d: nat)
    requires PcsOk(s) && c in s.pc && d in s.pc && c != d && s.pc[d].Placing?
    ensures !Mine(s, c, s.pc[d].frame)
  {
    hide Holders;
    assert PcOk(s, d);
    hide PcsOk;
  }

  lemma NotTheirs(s: Sys, s': Sys, c: nat, d: nat)
    requires UnrefOk(s) && PcsOk(s) && OwnersOk(s) && c in s.pc && d in s.pc && c != d
    requires s'.mem.Keys == s.mem.Keys
    requires forall f :: Holders(s', f) != Holders(s, f) ==> Mine(s, c, f)
    requires forall f :: f in s.mem && s'.mem[f] != s.mem[f] ==> Private(s, c, f)
    ensures FramesKept(s, s', d)
  {
    if s.pc[d].Placing? {
      HandNotMine(s, c, d);
      hide PcsOk, UnrefOk, OwnersOk, Holders, Mine, Private;
      return;
    }
    assert PcOk(s, d) && OwnsAlone(s, d);
    var p := s.pc[d];
    if p.Copying? {
      assert Hand(d) in Holders(s, p.copy);
    }
    if p.Copying? || p.Keeping? {
      var x := Slot(p.space, p.va);
      LiveCounted(s, x);
      hide PcsOk, UnrefOk, OwnersOk, Holders;
      assert Leaf(x) in Holders(s, p.e.frame) && !Owns(s.pc[c], x.space);
      hide PcOk, Owns, OwnsAlone;
    }
  }

  /** What is left to show of a step of CPU `c` for it to keep the invariant. */
  ghost predicate Kept(s: Sys, s': Sys, c: nat) {
    && Local(s, s', c)
    && (forall f :: Holders(s', f) != Holders(s, f) ==> Mine(s, c, f))
    && (forall f :: f in s.mem && s'.mem[f] != s.mem[f] ==> Private(s, c, f))
    && FramesOk(s') && Counted(s') && Exclusive(s') && RootsOk(s') && UnrefOk(s') && PcOk(s', c)
  }

  lemma Finish(s: Sys, s': Sys, c: nat)
    requires Inv(s) && Kept(s, s', c)
    ensures Inv(s')
  {
    hide FramesOk, Counted, Exclusive, RootsOk, UnrefOk, OwnersOk, PcsOk, PcOk, Mine, Private, Holders;
    OwnersKept(s, s', c);
    forall d | d in s.pc && d != c
      ensures FramesKept(s, s', d)
    {
      assert s'.mem.Keys == s.mem.Keys && d in s.pc && c in s.pc;
      hide Local, FramesKept;
      NotTheirs(s, s', c, d);
    }
    hide Local, FramesKept;
    OthersOk(s, s', c);
  }

  // ----- counts

  /** Allocation gives a frame nobody held to one holder. */
  lemma CountedTake(s: Sys, s': Sys, h: Holder)
    requires FramesOk(s) && Counted(s) && s.pmm.free != [] && s'.pmm == Frames.Take(s.pmm)
    requires forall f :: f != Frames.Top(s.pmm) ==> Holders(s', f) == Holders(s, f)
    requires Holders(s', Frames.Top(s.pmm)) == {h}
    ensures Frames.Valid(s'.pmm) && s'.pmm.refs.Keys == s.pmm.refs.Keys && Counted(s')
  {
    hide Holders;
    Frames.TakeValid(s.pmm);
    hide Frames.Valid;
  }

  lemma CountedDrop(s: Sys, s': Sys, g: nat, h: Holder)
    requires FramesOk(s) && Counted(s) && g in s.pmm.refs && s'.pmm == Frames.Drop(s.pmm, g)
    requires h in Holders(s, g) && forall f :: Holders(s', f) == if f == g then Holders(s, f) - {h} else Holders(s, f)
    ensures Frames.Valid(s'.pmm) && s'.pmm.refs.Keys == s.pmm.refs.Keys && Counted(s')
  {
    hide Holders;
    Frames.DropValid(s.pmm, g);
    hide Frames.Valid;
    assert |Holders(s, g) - {h}| == |Holders(s, g)| - 1;
  }

  lemma CountedShare(s: Sys, s': Sys, g: nat, h: Holder)
    requires FramesOk(s) && Counted(s) && g in s.pmm.refs && s'.pmm == Frames.Share(s.pmm, g)
    requires Holders(s, g) != {} && h !in Holders(s, g)
    requires forall f :: Holders(s', f) == if f == g then Holders(s, f) + {h} else Holders(s, f)
    ensures Frames.Valid(s'.pmm) && s'.pmm.refs.Keys == s.pmm.refs.Keys && Counted(s')
  {
    hide Holders;
    Frames.ShareValid(s.pmm, g);
    hide Frames.Valid;
  }

  // ----- actions that move a program counter or change which spaces are live

  ghost predicate Moves(s: Sys, s': Sys, c: nat) {
    && c in s.pc && c in s'.pc && s' == s.(pc := s.pc[c := s'.pc[c]], live := s'.live)
    && (forall f :: InHand(s'.pc[c], f) == InHand(s.pc[c], f))
    && (forall x :: Owns(s'.pc[c], x) ==> IsRoot(s, x) && FreeFor(s, c, x))
    && (forall x :: x in s'.live && x !in s.live ==> FreeFor(s, c, x) && IsRoot(s, x))
    && (forall x :: x in s.live && x !in s'.live ==> FreeFor(s, c, x))
    && !s.pc[c].Linked?
  }

  lemma MovesKept(s: Sys, s': Sys, c: nat)
    requires Moves(s, s', c) && RootsOk(s) && UnrefOk(s)
    ensures Local(s, s', c) && RootsOk(s') && UnrefOk(s')
  {
    hide FreeFor;
  }

  lemma MovesInv(s: Sys, s': Sys, c: nat)
    requires Inv(s) && Moves(s, s', c) && PcOk(s', c)
    ensures Inv(s')
  {
    hide RootsOk, OwnersOk, UnrefOk, PcsOk, PcOk, Holders, Local, FreeFor, Frames.Valid;
    MovesKept(s, s', c);
    SameHolders(s, s');
    Finish(s, s', c);
  }

  lemma EnterInv(s: Sys, s': Sys, c: nat, x: nat)
    requires Inv(s) && Enter(s, s', c, x)
    ensures Inv(s')
  {
    hide Holders, FramesOk, Counted, Exclusive, OwnersOk, UnrefOk, PcsOk;
    MovesInv(s, s', c);
  }

  lemma LeaveInv(s: Sys, s': Sys, c: nat)
    requires Inv(s) && Leave(s, s', c)
    ensures Inv(s')
  {
    hide Holders, FramesOk, Counted, Exclusive, RootsOk, UnrefOk, PcsOk;
    MovesInv(s, s', c);
  }

  lemma TakeFaultInv(s: Sys, s': Sys, c: nat, va: Va)
    requires Inv(s) && TakeFault(s, s', c, va)
    ensures Inv(s')
  {
    hide Holders, FramesOk, Counted, Exclusive, RootsOk, UnrefOk;
    assert PcOk(s, c) && OwnsAlone(s, c);
    hide PcsOk, OwnersOk;
    MovesInv(s, s', c);
  }

  lemma ReadCountInv(s: Sys, s': Sys, c: nat)
    requires Inv(s) && ReadCount(s, s', c)
    ensures Inv(s')
  {
    hide Holders, FramesOk, Exclusive, RootsOk, UnrefOk, FreeFor;
    assert PcOk(s, c) && OwnsAlone(s, c);
    hide PcsOk, OwnersOk;
    var p := s.pc[c];
    SameHolders(s, s');
    StableHeld(s, p.space, p.va, p.e);
    if s'.pc[c].Keeping? {
      SingleHolder(Holders(s, p.e.frame), Leaf(Slot(p.space, p.va)));
    }
    MovesInv(s, s', c);
  }

  lemma EndCloneInv(s: Sys, s': Sys, c: nat)
    requires Inv(s) && EndClone(s, s', c)
    ensures Inv(s')
  {
    hide Holders, FramesOk, Counted, Exclusive, RootsOk, UnrefOk, FreeFor;
    assert PcOk(s, c) && OwnsAlone(s, c);
    hide PcsOk, OwnersOk;
    MovesInv(s, s', c);
  }

  lemma BeginDestroyInv(s: Sys, s': Sys, c: nat, x: nat)
    requires Inv(s) && BeginDestroy(s, s', c, x)
    ensures Inv(s')
  {
    hide Holders, FramesOk, Counted, Exclusive, UnrefOk, PcsOk, OwnersOk, FreeFor;
    MovesInv(s, s', c);
  }

  // ----- actions that write memory

  lemma WritesKept(s: Sys, s': Sys, c: nat)
    requires RootsOk(s) && UnrefOk(s) && OwnersOk(s)
    requires c in s.pc && c in s'.pc && s' == s.(mem := s'.mem, pc := s.pc[c := s'.pc[c]]) && s'.mem.Keys == s.mem.Keys
    requires forall x :: Owns(s'.pc[c], x) ==> Owns(s.pc[c], x)
    requires !s.pc[c].Linked?
    ensures Local(s, s', c) && RootsOk(s') && UnrefOk(s')
  {
    assert OwnsAlone(s, c);
    hide FreeFor;
  }

  lemma WritesInv(s: Sys, s': Sys, c: nat, g: nat)
    requires Inv(s) && c in s.pc && c in s'.pc && s' == s.(mem := s'.mem, pc := s.pc[c := s'.pc[c]])
    requires g in s.mem && g in s'.mem && s'.mem == s.mem[g := s'.mem[g]] && |s'.mem[g]| == PAGE_SIZE &&
      Private(s, c, g)
    requires forall x :: Owns(s'.pc[c], x) ==> Owns(s.pc[c], x)
    requires forall f :: InHand(s'.pc[c], f) == InHand(s.pc[c], f)
    requires !s.pc[c].Linked? && PcOk(s', c)
    ensures Inv(s')
  {
    hide Holders, RootsOk, OwnersOk, UnrefOk, PcsOk, PcOk, Local, Frames.Valid, Private;
    SameHolders(s, s');
    WritesKept(s, s', c);
    Finish(s, s', c);
  }

  lemma StoreInv(s: Sys, s': Sys, c: nat, va: Va, off: nat, b: Byte)
    requires Inv(s) && Store(s, s', c, va, off, b)
    ensures Inv(s')
  {
    hide Holders, RootsOk, OwnersOk, UnrefOk, Counted;
    var x := Slot(s.pc[c].space, va);
    assert PcOk(s, c) && Holders(s, s.leaf[x].frame) == {Leaf(x)};
    hide PcsOk;
    WritesInv(s, s', c, s.leaf[x].frame);
  }

  /** A frame with one page a program sees, whose space CPU `c` runs, is not being copied. */
  lemma NotCopied(s: Sys, c: nat, x: Slot, d: nat)
    requires UnrefOk(s) && OwnersOk(s) && PcsOk(s) && c in s.pc && s.pc[c] == User(x.space) && x.space in s.live
    requires x in s.leaf && OnlyPage(s, x) && d in s.pc && s.pc[d].Copying?
    ensures s.pc[d].e.frame != s.leaf[x].frame && s.pc[d].copy != s.leaf[x].frame
  {
    assert PcOk(s, d);
    LiveCounted(s, x);
    assert OwnsAlone(s, c) && Owns(s.pc[c], x.space);
    hide PcsOk, UnrefOk, OwnersOk, Holders, IsRoot;
    assert d != c ==> !Owns(s.pc[d], x.space);
  }

  lemma KernelStorePc(s: Sys, s': Sys, f: nat, off: nat, b: Byte, d: nat)
    requires d in s.pc && PcOk(s, d) && f in s.mem && off < |s.mem[f]|
    requires s' == s.(mem := s.mem[f := s.mem[f][off := b]])
    requires forall g :: Holders(s', g) == Holders(s, g)
    requires s.pc[d].Copying? ==> s.pc[d].e.frame != f && s.pc[d].copy != f
    ensures PcOk(s', d)
  {
    hide Holders;
  }

  lemma KernelStoreInv(s: Sys, s': Sys, c: nat, va: Va, off: nat, b: Byte)
    requires Inv(s) && KernelStore(s, s', c, va, off, b) && Harmless(s, Slot(s.pc[c].space, va), off, b)
    ensures Inv(s')
  {
    hide Holders, FramesOk, Counted, Exclusive, RootsOk, UnrefOk, OwnersOk;
    var x := Slot(s.pc[c].space, va);
    assert PcOk(s, c);
    if OnlyPage(s, x) {
      SameHolders(s, s');
      forall d | d in s'.pc
        ensures PcOk(s', d)
      {
        if s.pc[d].Copying? {
          NotCopied(s, c, x, d);
        }
        KernelStorePc(s, s', s.leaf[x].frame, off, b, d);
      }
      hide PcOk, OnlyPage;
      KernelStoreKept(s, s', s.leaf[x].frame, off, b);
    } else {
      assert s.mem[s.leaf[x].frame][off := b] == s.mem[s.leaf[x].frame];
      assert s'.mem == s.mem;
    }
  }

  lemma KernelStoreKept(s: Sys, s': Sys, f: nat, off: nat, b: Byte)
    requires FramesOk(s) && Counted(s) && Exclusive(s) && RootsOk(s) && UnrefOk(s) && OwnersOk(s)
    requires f in s.mem && off < |s.mem[f]| && s' == s.(mem := s.mem[f := s.mem[f][off := b]])
    requires forall g :: Holders(s', g) == Holders(s, g)
    ensures FramesOk(s') && Counted(s') && Exclusive(s') && RootsOk(s') && UnrefOk(s') && OwnersOk(s')
  {
    hide Holders, Frames.Valid;
  }

  lemma CopyByteInv(s: Sys, s': Sys, c: nat)
    requires Inv(s) && CopyByte(s, s', c)
    ensures Inv(s')
  {
    hide Holders, RootsOk, OwnersOk, UnrefOk, Counted;
    assert PcOk(s, c);
    hide PcsOk;
    var p := s.pc[c];
    assert s'.mem[p.copy][..p.k + 1] == s.mem[p.copy][..p.k] + [s.mem[p.e.frame][p.k]];
    assert s'.mem[p.e.frame][..p.k + 1] == s.mem[p.e.frame][..p.k] + [s.mem[p.e.frame][p.k]];
    SameHolders(s, s');
    assert PcOk(s', c);
    hide PcOk;
    WritesInv(s, s', c, p.copy);
  }

  // ----- actions that allocate

  /** The frame taken from the allocator has the one holder `h`; entries and tables are otherwise as before. */
  ghost predicate TakesFor(s: Sys, s': Sys, h: Holder) {
    && s.pmm.free != [] && s'.pmm == Frames.Take(s.pmm) && s'.unref == s.unref
    && s'.mem.Keys == s.mem.Keys
    && (forall f :: f != Frames.Top(s.pmm) ==> Holders(s', f) == Holders(s, f))
    && Holders(s', Frames.Top(s.pmm)) == {h}
    && (forall x :: x in s.leaf ==> x in s'.leaf && s'.leaf[x] == s.leaf[x])
    && (forall x :: x in s'.leaf && x !in s.leaf ==>
          h == Leaf(x) && s'.leaf[x].frame == Frames.Top(s.pmm) && s'.leaf[x].flags.present && IsRoot(s, x.space))
    && (forall t :: t in s.tabs ==> t in s'.tabs && s'.tabs[t] == s.tabs[t])
    && (forall t :: t in s'.tabs && t !in s.tabs ==>
         h == Table && t == Frames.Top(s.pmm) && (s'.tabs[t] == 0 || IsRoot(s', s'.tabs[t])))
    && (forall x :: x in s'.live ==> x in s.live || IsRoot(s', x))
    && (forall f :: f in s'.mem ==> |s'.mem[f]| == PAGE_SIZE)
  }

  lemma TakesCounted(s: Sys, s': Sys, h: Holder)
    requires Inv(s) && TakesFor(s, s', h)
    ensures s'.pmm.refs.Keys == s.pmm.refs.Keys && FramesOk(s') && Counted(s')
  {
    hide UnrefOk, OwnersOk, PcsOk, Holders, Exclusive, RootsOk, Frames.Valid;
    TopUnheld(s);
    CountedTake(s, s', h);
    hide Counted;
  }

  lemma TakesExclusive(s: Sys, s': Sys, h: Holder)
    requires Inv(s) && TakesFor(s, s', h)
    ensures Exclusive(s') && RootsOk(s')
  {
    hide UnrefOk, OwnersOk, PcsOk, Holders, FramesOk, Counted;
    TopUnheld(s);
  }

  lemma TakesInv(s: Sys, s': Sys, c: nat, h: Holder)
    requires Inv(s) && TakesFor(s, s', h) && UnrefOk(s') && c in s.pc && c in s'.pc && PcOk(s', c)
    requires forall f :: f in s.mem && s'.mem[f] != s.mem[f] ==> f == Frames.Top(s.pmm)
    requires s'.pmm.refs.Keys == s.pmm.refs.Keys ==> Local(s, s', c)
    ensures Inv(s')
  {
    hide FramesOk, Counted, Exclusive, RootsOk, UnrefOk, OwnersOk, PcsOk, PcOk, Holders, Local;
    TakesCounted(s, s', h);
    TakesExclusive(s, s', h);
    TopUnheld(s);
    Finish(s, s', c);
  }

  lemma AllocCopyHolders(s: Sys, s': Sys, c: nat, f: nat)
    requires Inv(s) && AllocCopy(s, s', c)
    ensures Holders(s', f) == if f == Frames.Top(s.pmm) then {Hand(c)} else Holders(s, f)
  {
    hide FramesOk, Counted, Exclusive, RootsOk, UnrefOk, OwnersOk, PcsOk;
    TopUnheld(s);
    assert LeafHolders(s', f) == LeafHolders(s, f);
    assert HandHolders(s', f) == HandHolders(s, f) + (if f == Frames.Top(s.pmm) then {Hand(c)} else {});
  }

  lemma AllocCopyTakes(s: Sys, s': Sys, c: nat)
    requires Inv(s) && AllocCopy(s, s', c)
    ensures TakesFor(s, s', Hand(c)) && PcOk(s', c)
  {
    hide Holders, RootsOk, Counted, Exclusive, FreeFor, Frames.Valid, OwnersOk;
    assert PcOk(s, c);
    hide PcsOk;
    TopUnheld(s);
    forall f {
      AllocCopyHolders(s, s', c, f);
    }
  }

  lemma AllocCopyInv(s: Sys, s': Sys, c: nat)
    requires Inv(s) && AllocCopy(s, s', c)
    ensures Inv(s')
  {
    hide Holders, RootsOk, Counted, Exclusive, FreeFor, Frames.Valid, TakesFor, PcOk, FramesOk, PcsOk;
    assert OwnsAlone(s, c);
    hide OwnersOk;
    assert forall x :: Owns(s'.pc[c], x) ==> Owns(s.pc[c], x);
    AllocCopyTakes(s, s', c);
    TakesInv(s, s', c, Hand(c));
  }

  /** A frame taken for a page table. */
  lemma TableHolders(s: Sys, s': Sys, r: nat, f: nat)
    requires Inv(s) && s.pmm.free != [] && s'.tabs == s.tabs[Frames.Top(s.pmm) := r]
    requires s'.leaf == s.leaf && s'.unref == s.unref && s'.pc.Keys == s.pc.Keys
    requires forall c, g :: c in s.pc ==> InHand(s'.pc[c], g) == InHand(s.pc[c], g)
    ensures Holders(s', f) == if f == Frames.Top(s.pmm) then {Table} else Holders(s, f)
  {
    hide FramesOk, Counted, Exclusive, RootsOk, UnrefOk, OwnersOk, PcsOk, InHand;
    TopUnheld(s);
    assert LeafHolders(s', f) == LeafHolders(s, f);
    assert HandHolders(s', f) == HandHolders(s, f);
  }

  lemma TableTakes(s: Sys, s': Sys, r: nat)
    requires Inv(s) && s.pmm.free != [] && s'.pmm == Frames.Take(s.pmm) && s'.tabs == s.tabs[Frames.Top(s.pmm) := r]
    requires s'.leaf == s.leaf && s'.unref == s.unref && s'.mem == s.mem && s'.pc.Keys == s.pc.Keys
    requires forall c, g :: c in s.pc ==> InHand(s'.pc[c], g) == InHand(s.pc[c], g)
    requires r == Frames.Top(s.pmm) || r == 0 || IsRoot(s, r)
    requires forall x :: x in s'.live ==> x in s.live || (x == r && r == Frames.Top(s.pmm))
    ensures TakesFor(s, s', Table) && Frames.Top(s.pmm) !in s.tabs && Frames.Top(s.pmm) in s.mem
    ensures forall x :: x in s.tabs ==> IsRoot(s, x) ==> IsRoot(s', x)
  {
    hide Holders, Counted, Exclusive, RootsOk, UnrefOk, OwnersOk, PcsOk, Frames.Valid, InHand;
    TopUnheld(s);
    forall f {
      TableHolders(s, s', r, f);
    }
  }

  /** Nobody works on a space that does not exist yet. */
  lemma UnusedFree(s: Sys, c: nat, x: nat)
    requires OwnersOk(s) && x !in s.tabs
    ensures FreeFor(s, c, x)
  {
    forall d | d in s.pc && d != c
      ensures !Owns(s.pc[d], x)
    {
      assert OwnsAlone(s, d);
    }
  }

  lemma BeginCloneInv(s: Sys, s': Sys, c: nat)
    requires Inv(s) && BeginClone(s, s', c)
    ensures Inv(s')
  {
    hide Holders, Counted, Exclusive, FreeFor, Frames.Valid, TakesFor, FramesOk;
    assert PcOk(s, c) && OwnsAlone(s, c);
    hide PcsOk;
    var t := Frames.Top(s.pmm);
    TableTakes(s, s', t);
    UnusedFree(s, c, t);
    hide OwnersOk;
    assert forall x :: Owns(s'.pc[c], x) ==> Owns(s.pc[c], x) || x == t;
    assert t !in s.live && forall x :: x in s.leaf ==> x.space != t;
    TakesInv(s, s', c, Table);
  }

  lemma NewSpaceInv(s: Sys, s': Sys, c: nat)
    requires Inv(s) && NewSpace(s, s', c)
    ensures Inv(s')
  {
    hide Holders, Counted, Exclusive, FreeFor, Frames.Valid, TakesFor, FramesOk;
    assert PcOk(s, c) && OwnsAlone(s, c);
    hide PcsOk;
    var t := Frames.Top(s.pmm);
    TableTakes(s, s', t);
    UnusedFree(s, c, t);
    hide OwnersOk;
    TakesInv(s, s', c, Table);
  }

  lemma UnrefSame(s: Sys, s': Sys, c: nat)
    requires UnrefOk(s) && s'.unref == s.unref && s'.leaf == s.leaf && s'.pc == s.pc
    ensures UnrefOk(s')
  {
  }

  lemma GrowInv(s: Sys, s': Sys, c: nat, x: nat)
    requires Inv(s) && Grow(s, s', c, x)
    ensures Inv(s')
  {
    hide Holders, Counted, Exclusive, FreeFor, Frames.Valid, TakesFor, FramesOk;
    assert PcOk(s, c) && OwnsAlone(s, c);
    hide PcsOk, OwnersOk;
    TableTakes(s, s', x);
    if s.pc[c].Placing? {
      TableHolders(s, s', x, s.pc[c].frame);
      TopUnheld(s);
    }
    assert PcOk(s', c);
    hide PcOk, RootsOk, UnrefOk;
    assert UnrefOk(s') by { UnrefSame(s, s', c); }
    TakesInv(s, s', c, Table);
  }

  lemma TakeNewHolders(s: Sys, s': Sys, c: nat, x: nat, f: nat)
    requires Inv(s) && TakeNew(s, s', c, x)
    ensures Holders(s', f) == if f == Frames.Top(s.pmm) then {Hand(c)} else Holders(s, f)
  {
    hide FramesOk, Counted, Exclusive, RootsOk, UnrefOk, OwnersOk, PcsOk;
    TopUnheld(s);
    assert LeafHolders(s', f) == LeafHolders(s, f);
    assert HandHolders(s', f) == HandHolders(s, f) + (if f == Frames.Top(s.pmm) then {Hand(c)} else {});
  }

  lemma TakeNewInv(s: Sys, s': Sys, c: nat, x: nat)
    requires Inv(s) && TakeNew(s, s', c, x)
    ensures Inv(s')
  {
    hide Holders, Counted, Exclusive, FreeFor, Frames.Valid, OwnersOk, PcsOk;
    TopUnheld(s);
    forall f {
      TakeNewHolders(s, s', c, x, f);
    }
    assert TakesFor(s, s', Hand(c));
    TakesCounted(s, s', Hand(c));
    assert PcOk(s', c);
    hide TakesFor, PcOk, FramesOk;
    TakesInv(s, s', c, Hand(c));
  }

  // ----- actions that rewrite an entry

  /** The step sets one entry of a space CPU `c` owns. */
  ghost predicate Rewrites(s: Sys, s': Sys, c: nat, x: Slot) {
    && c in s.pc && c in s'.pc && x in s'.leaf
    && s' == s.(leaf := s.leaf[x := s'.leaf[x]], pc := s.pc[c := s'.pc[c]], unref := s'.unref)
    && (s'.unref == s.unref || s'.unref == s.unref[x := c])
    && Owns(s.pc[c], x.space) && (forall y :: Owns(s'.pc[c], y) ==> Owns(s.pc[c], y))
    && s'.leaf[x].frame in s.pmm.refs && s'.leaf[x].flags.present
  }

  lemma RewritesLocal(s: Sys, s': Sys, c: nat, x: Slot)
    requires Rewrites(s, s', c, x) && RootsOk(s) && OwnersOk(s)
    ensures Local(s, s', c) && RootsOk(s')
  {
    assert OwnsAlone(s, c);
    hide FreeFor;
  }

  lemma RewritesInv(s: Sys, s': Sys, c: nat, x: Slot)
    requires Inv(s) && Rewrites(s, s', c, x) && PcOk(s', c) && UnrefOk(s') && Exclusive(s') && Counted(s')
    requires forall f :: Holders(s', f) != Holders(s, f) ==> Mine(s, c, f)
    ensures Inv(s')
  {
    hide Holders, RootsOk, OwnersOk, PcsOk, PcOk, UnrefOk, Exclusive, Counted, Local, Frames.Valid, Mine;
    RewritesLocal(s, s', c, x);
    Finish(s, s', c);
  }

  lemma MapKeptInv(s: Sys, s': Sys, c: nat)
    requires Inv(s) && MapKept(s, s', c)
    ensures Inv(s')
  {
    hide Holders, FreeFor, Frames.Valid, RootsOk, OwnersOk;
    assert PcOk(s, c);
    hide PcsOk;
    SameHolders(s, s');
    RewritesInv(s, s', c, Slot(s.pc[c].space, s.pc[c].va));
  }

  lemma MarkSharedPc(s: Sys, s': Sys, c: nat, va: Va)
    requires c in s.pc && PcOk(s, c) && MarkShared(s, s', c, va) && UnrefOk(s)
    ensures PcOk(s', c) && UnrefOk(s') && forall f :: Holders(s', f) == Holders(s, f)
  {
    hide Holders;
    MarkSharedUnref(s, s', c, va);
    hide UnrefOk;
    SameHolders(s, s');
  }

  lemma MarkSharedUnref(s: Sys, s': Sys, c: nat, va: Va)
    requires MarkShared(s, s', c, va) && UnrefOk(s)
    ensures UnrefOk(s')
  {
  }

  lemma MarkSharedInv(s: Sys, s': Sys, c: nat, va: Va)
    requires Inv(s) && MarkShared(s, s', c, va)
    ensures Inv(s')
  {
    hide Holders, FreeFor, Frames.Valid, RootsOk, OwnersOk, PcOk, UnrefOk;
    assert PcOk(s, c);
    hide PcsOk;
    MarkSharedPc(s, s', c, va);
    RewritesInv(s, s', c, Slot(s.pc[c].space, va));
  }

  lemma LinkChildHolders(s: Sys, s': Sys, c: nat, f: nat)
    requires c in s.pc && PcOk(s, c) && LinkChild(s, s', c)
    ensures Holders(s', f) == Holders(s, f)
  {
    assert HandHolders(s', f) == HandHolders(s, f);
    assert LeafHolders(s', f) == LeafHolders(s, f);
  }

  lemma LinkChildKept(s: Sys, s': Sys, c: nat)
    requires Inv(s) && LinkChild(s, s', c)
    ensures Counted(s') && Exclusive(s') && (forall f :: Holders(s', f) == Holders(s, f))
  {
    hide Holders, FreeFor, FramesOk, RootsOk, OwnersOk, UnrefOk;
    assert PcOk(s, c);
    hide PcsOk;
    forall f {
      LinkChildHolders(s, s', c, f);
    }
  }

  lemma LinkChildInv(s: Sys, s': Sys, c: nat)
    requires Inv(s) && LinkChild(s, s', c)
    ensures Inv(s')
  {
    hide Holders, FreeFor, Frames.Valid, RootsOk, OwnersOk, Counted, Exclusive;
    assert PcOk(s, c);
    hide PcsOk;
    LinkChildKept(s, s', c);
    RewritesInv(s, s', c, Slot(s.pc[c].child, s.pc[c].va));
  }

  lemma NotInHand(s: Sys, c: nat, f: nat)
    requires c in s.pc && !InHand(s.pc[c], f)
    ensures Hand(c) !in Holders(s, f)
  {
  }

  /** The handler's hand and the page it maps trade places. */
  lemma MapCopyEntry(s: Sys, c: nat)
    requires c in s.pc && PcOk(s, c) && s.pc[c].Copying?
    ensures var p := s.pc[c]; var x := Slot(p.space, p.va); x in s.leaf && s.leaf[x] == p.e
  {
    hide Holders;
  }

  lemma MapCopyHolders(s: Sys, s': Sys, c: nat, f: nat)
    requires c in s.pc && PcOk(s, c) && MapCopy(s, s', c)
    requires Slot(s.pc[c].space, s.pc[c].va) !in s.unref
    ensures var p := s.pc[c];
      var x := Leaf(Slot(p.space, p.va));
      Holders(s', f) == (if f == p.copy then {x} else if f == p.e.frame then Holders(s, f) - {x} + {Hand(c)}
                         else Holders(s, f))
  {
    var p := s.pc[c];
    var x := Slot(p.space, p.va);
    var h, l := HandHolders(s, f), LeafHolders(s, f);
    hide Stable;
    assert HandHolders(s', f) == if f == p.copy then h - {Hand(c)} else if f == p.e.frame then h + {Hand(c)} else h;
    assert s.leaf[x] == p.e by { MapCopyEntry(s, c); }
    assert LeafHolders(s', f) == if f == p.copy then l + {Leaf(x)} else if f == p.e.frame then l - {Leaf(x)} else l;
  }

  /** The entry `x` now names `copy`, and the CPU holds the frame it named before. */
  ghost predicate Trades(s: Sys, s': Sys, c: nat, x: Slot, copy: nat, prev: nat) {
    forall f :: Holders(s', f) ==
                (if f == copy then {Leaf(x)} else if f == prev then Holders(s, f) - {Leaf(x)} + {Hand(c)}
                 else Holders(s, f))
  }

  lemma MapCopyTrades(s: Sys, s': Sys, c: nat)
    requires Inv(s) && MapCopy(s, s', c)
    ensures var p := s.pc[c];
      && Trades(s, s', c, Slot(p.space, p.va), p.copy, p.e.frame) && PcOk(s', c) && p.copy != p.e.frame
      && Holders(s, p.copy) == {Hand(c)} && Leaf(Slot(p.space, p.va)) in Holders(s, p.e.frame)
      && Hand(c) !in Holders(s, p.e.frame)
      && forall x :: x in s.leaf && s.leaf[x].frame == p.e.frame ==> !s.leaf[x].flags.writable
  {
    hide FreeFor, Holders, RootsOk, OwnersOk, Frames.Valid, Counted;
    assert PcOk(s, c);
    var p := s.pc[c];
    StableHeld(s, p.space, p.va, p.e);
    hide PcsOk, UnrefOk, FramesOk;
    forall f {
      MapCopyHolders(s, s', c, f);
    }
    NotInHand(s, c, p.e.frame);
  }

  lemma TradesExclusive(s: Sys, s': Sys, c: nat, x: Slot, copy: nat, prev: nat)
    requires Exclusive(s) && Trades(s, s', c, x, copy, prev) && copy != prev && Holders(s, copy) == {Hand(c)}
    requires Leaf(x) in Holders(s, prev) && s'.tabs == s.tabs && x in s'.leaf && s'.leaf[x].frame == copy
    requires forall y :: y != x ==> (y in s'.leaf <==> y in s.leaf) && (y in s.leaf ==> s'.leaf[y] == s.leaf[y])
    requires forall y :: y in s.leaf && s.leaf[y].frame == prev ==> !s.leaf[y].flags.writable
    ensures Exclusive(s')
  {
    hide Holders;
  }

  lemma MapCopyCounted(s: Sys, s': Sys, c: nat)
    requires Inv(s) && MapCopy(s, s', c)
    ensures Counted(s') && Exclusive(s') && PcOk(s', c)
    ensures forall f :: Holders(s', f) != Holders(s, f) ==> Mine(s, c, f)
  {
    hide FreeFor, Holders, RootsOk, OwnersOk, Frames.Valid, PcsOk, UnrefOk, FramesOk, Exclusive, PcOk;
    var p := s.pc[c];
    var x := Slot(p.space, p.va);
    MapCopyTrades(s, s', c);
    TradesExclusive(s, s', c, x, p.copy, p.e.frame);
    assert Owns(s.pc[c], p.space);
  }

  lemma MapCopyInv(s: Sys, s': Sys, c: nat)
    requires Inv(s) && MapCopy(s, s', c)
    ensures Inv(s')
  {
    hide Holders, FreeFor, Frames.Valid, RootsOk, OwnersOk, Counted, Exclusive, Mine;
    assert PcOk(s, c);
    hide PcsOk;
    MapCopyCounted(s, s', c);
    RewritesInv(s, s', c, Slot(s.pc[c].space, s.pc[c].va));
  }

  // ----- mapping a new page

  lemma MapPageHolders(s: Sys, s': Sys, c: nat, x: Slot, flags: Flags, bytes: seq<Byte>, f: nat)
    requires UnrefOk(s) && c in s.pc && PcOk(s, c) && MapPage(s, s', c, x, flags, bytes)
    ensures Holders(s', f) == if f == s.pc[c].frame then {Leaf(x)} else Holders(s, f)
    ensures x !in s.unref
  {
    assert x !in s.unref;
    hide UnrefOk;
    PlacedHolders(s, s', c, x, f);
    hide LeafHolders, HandHolders;
  }

  lemma PlacedHolders(s: Sys, s': Sys, c: nat, x: Slot, f: nat)
    requires c in s.pc && s.pc[c].Placing? && x !in s.leaf && x !in s.unref && x in s'.leaf &&
      s'.leaf[x].frame == s.pc[c].frame
    requires s' == s.(mem := s'.mem, leaf := s.leaf[x := s'.leaf[x]], pc := s.pc[c := Idle])
    ensures LeafHolders(s', f) == LeafHolders(s, f) + (if f == s.pc[c].frame then {Leaf(x)} else {})
    ensures HandHolders(s', f) == HandHolders(s, f) - (if f == s.pc[c].frame then {Hand(c)} else {})
  {
  }

  lemma MapPageCounted(s: Sys, s': Sys, c: nat, x: Slot, flags: Flags, bytes: seq<Byte>)
    requires Inv(s) && MapPage(s, s', c, x, flags, bytes)
    ensures Counted(s') && Exclusive(s') && forall f :: Holders(s', f) != Holders(s, f) ==> f == s.pc[c].frame
    ensures Holders(s, s.pc[c].frame) == {Hand(c)} && s.pc[c].frame in s.mem && s.pc[c].frame in s.pmm.refs
  {
    hide FreeFor, Holders, RootsOk, OwnersOk, FramesOk;
    assert PcOk(s, c);
    hide PcsOk;
    forall f {
      MapPageHolders(s, s', c, x, flags, bytes, f);
    }
    hide UnrefOk;
  }

  lemma MapPageLocal(s: Sys, s': Sys, c: nat, x: Slot, flags: Flags, bytes: seq<Byte>)
    requires RootsOk(s) && OwnersOk(s) && UnrefOk(s) && MapPage(s, s', c, x, flags, bytes) && s.pc[c].frame in s.mem
    ensures Local(s, s', c) && RootsOk(s') && UnrefOk(s')
  {
    assert OwnsAlone(s, c);
    hide FreeFor, OwnersOk;
  }

  lemma MapPageInv(s: Sys, s': Sys, c: nat, x: Slot, flags: Flags, bytes: seq<Byte>)
    requires Inv(s) && MapPage(s, s', c, x, flags, bytes)
    ensures Inv(s')
  {
    hide Counted, Exclusive, FreeFor, Frames.Valid, Holders, PcsOk, OwnersOk, RootsOk, UnrefOk, Local;
    MapPageCounted(s, s', c, x, flags, bytes);
    MapPageLocal(s, s', c, x, flags, bytes);
    Finish(s, s', c);
  }

  // ----- actions that change a count

  /** A step that gives up the reference `h` to frame `g`. */
  ghost predicate Drops(s: Sys, s': Sys, g: nat, h: Holder) {
    && g in s.pmm.refs && s'.pmm == Frames.Drop(s.pmm, g) && s'.mem == s.mem && h in Holders(s, g)
    && (forall f :: Holders(s', f) == if f == g then Holders(s, f) - {h} else Holders(s, f))
    && s'.leaf.Keys <= s.leaf.Keys && (forall x :: x in s'.leaf ==> s'.leaf[x] == s.leaf[x] && h != Leaf(x))
    && s'.tabs.Keys <= s.tabs.Keys && (h == Table ==> g !in s'.tabs)
  }

  lemma DropsCounted(s: Sys, s': Sys, g: nat, h: Holder)
    requires FramesOk(s) && Counted(s) && Exclusive(s) && Drops(s, s', g, h)
    ensures s'.pmm.refs.Keys == s.pmm.refs.Keys && FramesOk(s') && Counted(s') && Exclusive(s')
  {
    hide Holders, Frames.Valid;
    CountedDrop(s, s', g, h);
    DropsExclusive(s, s', g, h);
    hide Counted, Exclusive;
  }

  lemma DropsExclusive(s: Sys, s': Sys, g: nat, h: Holder)
    requires Exclusive(s) && Drops(s, s', g, h)
    ensures Exclusive(s')
  {
    hide Holders, Frames.Drop;
  }

  lemma DropsInv(s: Sys, s': Sys, c: nat, g: nat, h: Holder)
    requires Inv(s) && Drops(s, s', g, h) && c in s.pc && Mine(s, c, g)
    requires RootsOk(s') && UnrefOk(s') && c in s'.pc && PcOk(s', c)
    requires s'.pmm.refs.Keys == s.pmm.refs.Keys ==> Local(s, s', c)
    ensures Inv(s')
  {
    hide FramesOk, Counted, Exclusive, RootsOk, UnrefOk, OwnersOk, PcsOk, PcOk, Holders, Local, Mine;
    DropsCounted(s, s', g, h);
    Finish(s, s', c);
  }

  lemma FreeOldHolders(s: Sys, s': Sys, c: nat, f: nat)
    requires FreeOld(s, s', c)
    ensures Holders(s', f) == if f == s.pc[c].prev then Holders(s, f) - {Hand(c)} else Holders(s, f)
    ensures Hand(c) in Holders(s, s.pc[c].prev)
  {
    assert HandHolders(s', f) == HandHolders(s, f) - (if f == s.pc[c].prev then {Hand(c)} else {});
    assert LeafHolders(s', f) == LeafHolders(s, f);
    assert Hand(c) in HandHolders(s, s.pc[c].prev);
  }

  lemma FreeOldInv(s: Sys, s': Sys, c: nat)
    requires Inv(s) && FreeOld(s, s', c)
    ensures Inv(s')
  {
    hide FreeFor, Holders, FramesOk, Counted, Exclusive, RootsOk, UnrefOk, Local, Mine;
    assert PcOk(s, c) && OwnsAlone(s, c);
    hide PcsOk, OwnersOk;
    forall f {
      FreeOldHolders(s, s', c, f);
    }
    FreeOldSpaces(s, s', c);
    FreeOldMine(s, c);
    hide OwnsAlone;
    DropsInv(s, s', c, s.pc[c].prev, Hand(c));
  }

  lemma FreeOldSpaces(s: Sys, s': Sys, c: nat)
    requires FreeOld(s, s', c) && RootsOk(s) && UnrefOk(s) && OwnsAlone(s, c)
    ensures RootsOk(s') && UnrefOk(s')
    ensures s'.pmm.refs.Keys == s.pmm.refs.Keys ==> Local(s, s', c)
  {
    assert forall x :: Owns(s'.pc[c], x) ==> Owns(s.pc[c], x);
    hide FreeFor;
  }

  lemma FreeOldMine(s: Sys, c: nat)
    requires c in s.pc && s.pc[c].Dropping? && Hand(c) in Holders(s, s.pc[c].prev)
    ensures Mine(s, c, s.pc[c].prev)
  {
    hide Holders;
  }

  lemma FreeLeafHolders(s: Sys, s': Sys, c: nat, va: Va, f: nat)
    requires FreeLeaf(s, s', c, va) && Slot(s.pc[c].space, va) !in s.unref
    ensures var x := Slot(s.pc[c].space, va);
      Leaf(x) in Holders(s, s.leaf[x].frame) &&
      Holders(s', f) == if f == s.leaf[x].frame then Holders(s, f) - {Leaf(x)} else Holders(s, f)
  {
    var x := Slot(s.pc[c].space, va);
    assert HandHolders(s', f) == HandHolders(s, f);
    assert LeafHolders(s', f) == LeafHolders(s, f) - (if f == s.leaf[x].frame then {Leaf(x)} else {});
  }

  lemma FreeLeafSpaces(s: Sys, s': Sys, c: nat, va: Va)
    requires FreeLeaf(s, s', c, va) && RootsOk(s) && UnrefOk(s) && OwnsAlone(s, c)
    ensures Slot(s.pc[c].space, va) !in s.unref && RootsOk(s') && UnrefOk(s')
    ensures s'.pmm.refs.Keys == s.pmm.refs.Keys ==> Local(s, s', c)
  {
    assert Slot(s.pc[c].space, va) !in s.unref;
    hide FreeFor;
  }

  lemma FreeLeafInv(s: Sys, s': Sys, c: nat, va: Va)
    requires Inv(s) && FreeLeaf(s, s', c, va)
    ensures Inv(s')
  {
    hide Holders, Counted, Exclusive, Frames.Valid, FreeFor, RootsOk, UnrefOk, Local, OwnsAlone;
    assert PcOk(s, c) && OwnsAlone(s, c);
    hide PcsOk, OwnersOk;
    FreeLeafSpaces(s, s', c, va);
    forall f {
      FreeLeafHolders(s, s', c, va, f);
    }
    var x := Slot(s.pc[c].space, va);
    assert Mine(s, c, s.leaf[x].frame);
    hide Mine;
    DropsInv(s, s', c, s.leaf[x].frame, Leaf(x));
  }

  lemma FreeTableHolders(s: Sys, s': Sys, c: nat, t: nat, f: nat)
    requires FreeTable(s, s', c, t)
    ensures Table in Holders(s, t) && Holders(s', f) == if f == t then Holders(s, f) - {Table} else Holders(s, f)
  {
    assert HandHolders(s', f) == HandHolders(s, f);
    assert LeafHolders(s', f) == LeafHolders(s, f);
  }

  lemma FreeTableSpaces(s: Sys, s': Sys, c: nat, t: nat)
    requires FreeTable(s, s', c, t) && RootsOk(s) && UnrefOk(s) && OwnsAlone(s, c) && PcOk(s, c)
    ensures RootsOk(s') && UnrefOk(s') && PcOk(s', c)
    ensures s'.pmm.refs.Keys == s.pmm.refs.Keys ==> Local(s, s', c)
  {
    hide FreeFor;
  }

  lemma FreeTableInv(s: Sys, s': Sys, c: nat, t: nat)
    requires Inv(s) && FreeTable(s, s', c, t)
    ensures Inv(s')
  {
    hide Holders, Counted, Exclusive, Frames.Valid, FreeFor, RootsOk, UnrefOk, Local, OwnsAlone, PcOk;
    assert PcOk(s, c) && OwnsAlone(s, c);
    hide PcsOk, OwnersOk;
    FreeTableSpaces(s, s', c, t);
    forall f {
      FreeTableHolders(s, s', c, t, f);
    }
    DropsInv(s, s', c, t, Table);
  }

  lemma CountChildHolders(s: Sys, s': Sys, c: nat, f: nat)
    requires CountChild(s, s', c)
    ensures var y := Slot(s.pc[c].child, s.pc[c].va);
      Holders(s', f) == if f == s.leaf[y].frame then Holders(s, f) + {Leaf(y)} else Holders(s, f)
    ensures var y := Slot(s.pc[c].child, s.pc[c].va);
      y in s.unref ==> Leaf(y) !in Holders(s, s.leaf[y].frame)
  {
    var y := Slot(s.pc[c].child, s.pc[c].va);
    assert HandHolders(s', f) == HandHolders(s, f);
    assert LeafHolders(s', f) == LeafHolders(s, f) + (if f == s.leaf[y].frame then {Leaf(y)} else {});
  }

  /** The parent's entry already holds the frame, and neither entry is writable. */
  lemma ParentHolds(s: Sys, c: nat)
    requires Inv(s) && c in s.pc && s.pc[c].Linked?
    ensures var x, y := Slot(s.pc[c].space, s.pc[c].va), Slot(s.pc[c].child, s.pc[c].va);
      x in s.leaf && y in s.leaf && y in s.unref && s.leaf[x].frame == s.leaf[y].frame &&
      s.leaf[y].frame in s.pmm.refs &&
      Leaf(x) in Holders(s, s.leaf[y].frame) && x.space in s.live && !s.leaf[x].flags.writable && Owns(s.pc[c], x.space)
  {
    hide Holders, FreeFor, RootsOk, OwnersOk, Frames.Valid, Counted, Exclusive;
    assert PcOk(s, c);
    LiveCounted(s, Slot(s.pc[c].space, s.pc[c].va));
    hide PcsOk, UnrefOk;
  }

  lemma CountChildExclusive(s: Sys, s': Sys, c: nat, g: nat, y: Slot)
    requires Exclusive(s) && s'.leaf == s.leaf && s'.tabs == s.tabs
    requires forall f :: Holders(s', f) == if f == g then Holders(s, f) + {Leaf(y)} else Holders(s, f)
    requires exists x :: Leaf(x) in Holders(s, g) && x in s.leaf && !s.leaf[x].flags.writable
    ensures Exclusive(s')
  {
    hide Holders;
    var x :| Leaf(x) in Holders(s, g) && x in s.leaf && !s.leaf[x].flags.writable;
    assert g !in s.tabs;
  }

  lemma CountChildCounted(s: Sys, s': Sys, c: nat)
    requires Inv(s) && CountChild(s, s', c)
    ensures FramesOk(s') && s'.pmm.refs.Keys == s.pmm.refs.Keys && Counted(s') && Exclusive(s')
    ensures forall f :: Holders(s', f) != Holders(s, f) ==> Mine(s, c, f)
  {
    hide Holders, FreeFor, RootsOk, OwnersOk, Frames.Valid, PcsOk, UnrefOk, Counted, Exclusive, Owns;
    ParentHolds(s, c);
    var x, y := Slot(s.pc[c].space, s.pc[c].va), Slot(s.pc[c].child, s.pc[c].va);
    var g := s.leaf[y].frame;
    forall f {
      CountChildHolders(s, s', c, f);
    }
    CountedShare(s, s', g, Leaf(y));
    CountChildExclusive(s, s', c, g, y);
    hide Frames.Share;
  }

  lemma CountChildSpaces(s: Sys, s': Sys, c: nat)
    requires CountChild(s, s', c) && RootsOk(s) && UnrefOk(s) && OwnsAlone(s, c) && PcOk(s, c)
    ensures RootsOk(s') && UnrefOk(s') && PcOk(s', c)
    ensures s'.pmm.refs.Keys == s.pmm.refs.Keys && s'.mem.Keys == s.mem.Keys ==> Local(s, s', c)
  {
    CountChildPc(s, s', c);
    assert forall z :: Owns(s'.pc[c], z) ==> Owns(s.pc[c], z);
    hide FreeFor, PcOk;
  }

  lemma CountChildPc(s: Sys, s': Sys, c: nat)
    requires CountChild(s, s', c) && PcOk(s, c)
    ensures PcOk(s', c) && s.pc[c].Linked? && s'.pc[c].Cloning?
  {
    hide Frames.Share;
  }

  lemma CountChildInv(s: Sys, s': Sys, c: nat)
    requires Inv(s) && CountChild(s, s', c)
    ensures Inv(s')
  {
    hide Holders, Counted, Exclusive, FreeFor, FramesOk, Mine, RootsOk, UnrefOk, Local, OwnsAlone, PcOk;
    assert PcOk(s, c) && OwnsAlone(s, c);
    hide PcsOk, OwnersOk;
    CountChildCounted(s, s', c);
    CountChildSpaces(s, s', c);
    Finish(s, s', c);
  }
}
