/** Address spaces sharing frames copy-on-write, as a machine of any number of CPUs. Each action
    is one lock section or one unlocked memory access of the fault handler, the cloner or the
    destroyer, so runs are all interleavings of those. */
module CowMachine {
  import opened Common
  import opened Paging
  import Frames

  /** What a CPU is about to do. The entry `e` is what the fault handler read at its start. */
  datatype Pc =
    | Idle
    | User(space: nat)
    | Faulted(space: nat, va: Va, e: Entry)                      // next: read the count
    | Splitting(space: nat, va: Va, e: Entry)                    // count > 1; next: allocate
    | Copying(space: nat, va: Va, e: Entry, copy: nat, k: nat)  // next: copy byte k, or map
    | Dropping(space: nat, prev: nat)                             // mapped; next: free the old frame
    | Keeping(space: nat, va: Va, e: Entry)                      // count <= 1; next: map writable
    | Cloning(space: nat, child: nat)
    | Marked(space: nat, child: nat, va: Va)                     // next: write the child's entry
    | Linked(space: nat, child: nat, va: Va)                     // next: take the reference
    | Destroying(space: nat)
    | Placing(space: nat, frame: nat)                             // a new frame in hand; next: tables for it, or map it

  datatype Sys = Sys(
    leaf: map<Slot, Entry>,        // present 4 KiB entries
    mem: map<nat, seq<Byte>>,      // bytes of the managed frames
    pmm: Frames.Frames,
    tabs: map<nat, nat>,           // frames used as tables, and the space each belongs to (0: the kernel)
    live: set<nat>,                // spaces that can run
    pc: map<nat, Pc>,
    unref: map<Slot, nat>)         // entries a cloner wrote but has not counted, and which CPU

  /** Whether a CPU works on the address space. */
  predicate Owns(p: Pc, x: nat) {
    match p
    case Idle => false
    case Cloning(y, ch) => x == y || x == ch
    case Marked(y, ch, _) => x == y || x == ch
    case Linked(y, ch, _) => x == y || x == ch
    case _ => x == p.space
  }

  /** No CPU other than `c` works on the space. */
  ghost predicate FreeFor(s: Sys, c: nat, space: nat) {
    forall d :: d in s.pc && d != c ==> !Owns(s.pc[d], space)
  }

  /** The frame is the PML4 of a space. */
  ghost predicate IsRoot(s: Sys, x: nat) {
    x in s.tabs && s.tabs[x] == x
  }

  ghost predicate HasLeaf(s: Sys, space: nat, va: Va) {
    Slot(space, va) in s.leaf
  }

  // ----- scheduling and user code

  ghost predicate Enter(s: Sys, s': Sys, c: nat, x: nat) {
    && c in s.pc && s.pc[c].Idle? && x in s.live && FreeFor(s, c, x)
    && s' == s.(pc := s.pc[c := User(x)])
  }

  ghost predicate Leave(s: Sys, s': Sys, c: nat) {
    && c in s.pc && s.pc[c].User?
    && s' == s.(pc := s.pc[c := Idle])
  }

  /** A user store that the page table allows. */
  ghost predicate Store(s: Sys, s': Sys, c: nat, va: Va, off: nat, b: Byte) {
    && c in s.pc && s.pc[c].User? && HasLeaf(s, s.pc[c].space, va) && off < PAGE_SIZE
    && var e := s.leaf[Slot(s.pc[c].space, va)];
    && e.flags.writable && e.frame in s.mem && off < |s.mem[e.frame]|
    && s' == s.(mem := s.mem[e.frame := s.mem[e.frame][off := b]])
  }

  /** A store the kernel makes for the program, as `sys_read` does into its buffer. CR0.WP is clear, so ring 0 writes
      through the entry whether it is writable or not. */
  ghost predicate KernelStore(s: Sys, s': Sys, c: nat, va: Va, off: nat, b: Byte) {
    && c in s.pc && s.pc[c].User? && HasLeaf(s, s.pc[c].space, va) && off < PAGE_SIZE
    && var e := s.leaf[Slot(s.pc[c].space, va)];
    && e.frame in s.mem && off < |s.mem[e.frame]|
    && s' == s.(mem := s.mem[e.frame := s.mem[e.frame][off := b]])
  }

  /** No other page a program sees is on the page's frame. */
  ghost predicate OnlyPage(s: Sys, x: Slot)
    requires x in s.leaf
  {
    forall y :: y in s.leaf && y.space in s.live && y != x ==> s.leaf[y].frame != s.leaf[x].frame
  }

  /** The program may write the page, and nobody else sees the byte change. */
  ghost predicate Harmless(s: Sys, x: Slot, off: nat, b: Byte) {
    && x in s.leaf && MayWrite(s.leaf[x])
    && var f := s.leaf[x].frame;
    && f in s.mem && off < |s.mem[f]| && (OnlyPage(s, x) || s.mem[f][off] == b)
  }

  // ----- the fault handler

  /** A write fault on a copy-on-write page: the handler reads the entry. */
  ghost predicate TakeFault(s: Sys, s': Sys, c: nat, va: Va) {
    && c in s.pc && s.pc[c].User? && HasLeaf(s, s.pc[c].space, va)
    && var e := s.leaf[Slot(s.pc[c].space, va)];
    && !e.flags.writable && e.flags.cow
    && s' == s.(pc := s.pc[c := Faulted(s.pc[c].space, va, e)])
  }

  ghost predicate ReadCount(s: Sys, s': Sys, c: nat) {
    && c in s.pc && s.pc[c].Faulted?
    && var p := s.pc[c];
    && p.e.frame in s.pmm.refs
    && s' == s.(pc := s.pc[c := if s.pmm.refs[p.e.frame] > 1 then Splitting(p.space, p.va, p.e)
                                else Keeping(p.space, p.va, p.e)])
  }

  ghost predicate AllocCopy(s: Sys, s': Sys, c: nat) {
    && c in s.pc && s.pc[c].Splitting? && s.pmm.free != []
    && var p := s.pc[c];
    && s' == s.(pmm := Frames.Take(s.pmm),
                pc := s.pc[c := Copying(p.space, p.va, p.e, Frames.Top(s.pmm), 0)])
  }

  /** One byte of the page copy, read through the faulting page's own mapping. */
  ghost predicate CopyByte(s: Sys, s': Sys, c: nat) {
    && c in s.pc && s.pc[c].Copying? && s.pc[c].k < PAGE_SIZE && HasLeaf(s, s.pc[c].space, s.pc[c].va)
    && var p := s.pc[c];
    && var src := s.leaf[Slot(p.space, p.va)].frame;
    && p.copy in s.mem && p.k < |s.mem[p.copy]| && src in s.mem && p.k < |s.mem[src]|
    && s' == s.(mem := s.mem[p.copy := s.mem[p.copy][p.k := s.mem[src][p.k]]], pc := s.pc[c := p.(k := p.k + 1)])
  }

  ghost predicate MapCopy(s: Sys, s': Sys, c: nat) {
    && c in s.pc && s.pc[c].Copying? && s.pc[c].k == PAGE_SIZE
    && var p := s.pc[c];
    && s' == s.(leaf := s.leaf[Slot(p.space, p.va) := Owned(p.copy, p.e)],
                pc := s.pc[c := Dropping(p.space, p.e.frame)])
  }

  ghost predicate FreeOld(s: Sys, s': Sys, c: nat) {
    && c in s.pc && s.pc[c].Dropping?
    && s' == s.(pmm := Frames.Drop(s.pmm, s.pc[c].prev), pc := s.pc[c := User(s.pc[c].space)])
  }

  ghost predicate MapKept(s: Sys, s': Sys, c: nat) {
    && c in s.pc && s.pc[c].Keeping?
    && var p := s.pc[c];
    && s' == s.(leaf := s.leaf[Slot(p.space, p.va) := Owned(p.e.frame, p.e)], pc := s.pc[c := User(p.space)])
  }

  // ----- cloning

  ghost predicate BeginClone(s: Sys, s': Sys, c: nat) {
    && c in s.pc && s.pc[c].User? && s.pmm.free != []
    && var t := Frames.Top(s.pmm);
    && s' == s.(pmm := Frames.Take(s.pmm), tabs := s.tabs[t := t], pc := s.pc[c := Cloning(s.pc[c].space, t)])
  }

  ghost predicate MarkShared(s: Sys, s': Sys, c: nat, va: Va) {
    && c in s.pc && s.pc[c].Cloning? && HasLeaf(s, s.pc[c].space, va) && !HasLeaf(s, s.pc[c].child, va)
    && var x := Slot(s.pc[c].space, va);
    && s' == s.(leaf := s.leaf[x := Shared(s.leaf[x])], pc := s.pc[c := Marked(s.pc[c].space, s.pc[c].child, va)])
  }

  ghost predicate LinkChild(s: Sys, s': Sys, c: nat) {
    && c in s.pc && s.pc[c].Marked? && HasLeaf(s, s.pc[c].space, s.pc[c].va)
    && var p := s.pc[c];
    && s' == s.(leaf := s.leaf[Slot(p.child, p.va) := s.leaf[Slot(p.space, p.va)]],
                pc := s.pc[c := Linked(p.space, p.child, p.va)], unref := s.unref[Slot(p.child, p.va) := c])
  }

  ghost predicate CountChild(s: Sys, s': Sys, c: nat) {
    && c in s.pc && s.pc[c].Linked? && HasLeaf(s, s.pc[c].child, s.pc[c].va)
    && var p := s.pc[c];
    && var y := Slot(p.child, p.va);
    && s' == s.(pmm := Frames.Share(s.pmm, s.leaf[y].frame), pc := s.pc[c := Cloning(p.space, p.child)],
                unref := s.unref - {y})
  }

  ghost predicate EndClone(s: Sys, s': Sys, c: nat) {
    && c in s.pc && s.pc[c].Cloning?
    && var p := s.pc[c];
    && (forall va :: HasLeaf(s, p.space, va) ==> HasLeaf(s, p.child, va))
    && s' == s.(live := s.live + {p.child}, pc := s.pc[c := User(p.space)])
  }

  // ----- destroying and building

  ghost predicate BeginDestroy(s: Sys, s': Sys, c: nat, x: nat) {
    && c in s.pc && s.pc[c].Idle? && x in s.live && FreeFor(s, c, x)
    && s' == s.(live := s.live - {x}, pc := s.pc[c := Destroying(x)])
  }

  ghost predicate FreeLeaf(s: Sys, s': Sys, c: nat, va: Va) {
    && c in s.pc && s.pc[c].Destroying? && HasLeaf(s, s.pc[c].space, va)
    && var x := Slot(s.pc[c].space, va);
    && s' == s.(pmm := Frames.Drop(s.pmm, s.leaf[x].frame), leaf := s.leaf - {x})
  }

  /** The root goes last, and with it the space. */
  ghost predicate FreeTable(s: Sys, s': Sys, c: nat, t: nat) {
    && c in s.pc && s.pc[c].Destroying? && t in s.tabs && s.tabs[t] == s.pc[c].space
    && (t == s.pc[c].space ==>
          (forall x :: x in s.leaf ==> x.space != t) && (forall u :: u in s.tabs && u != t ==> s.tabs[u] != t))
    && s' == s.(pmm := Frames.Drop(s.pmm, t), tabs := s.tabs - {t},
                pc := if t == s.pc[c].space then s.pc[c := Idle] else s.pc)
  }

  ghost predicate NewSpace(s: Sys, s': Sys, c: nat) {
    && c in s.pc && (s.pc[c].Idle? || s.pc[c].User?) && s.pmm.free != []
    && var t := Frames.Top(s.pmm);
    && s' == s.(pmm := Frames.Take(s.pmm), tabs := s.tabs[t := t], live := s.live + {t})
  }

  /** A page table for a space nobody else works on, or for the shared kernel slot (space 0). */
  ghost predicate Grow(s: Sys, s': Sys, c: nat, x: nat) {
    && c in s.pc && (s.pc[c].Idle? || s.pc[c].User? || s.pc[c].Cloning? || s.pc[c].Placing?)
    && (x == 0 || IsRoot(s, x)) && FreeFor(s, c, x) && s.pmm.free != []
    && s' == s.(pmm := Frames.Take(s.pmm), tabs := s.tabs[Frames.Top(s.pmm) := x])
  }

  /** A frame for a new page of a space nobody else works on. */
  ghost predicate TakeNew(s: Sys, s': Sys, c: nat, x: nat) {
    && c in s.pc && s.pc[c].Idle? && x in s.live && FreeFor(s, c, x) && s.pmm.free != []
    && s' == s.(pmm := Frames.Take(s.pmm), pc := s.pc[c := Placing(x, Frames.Top(s.pmm))])
  }

  /** The new frame, filled with `bytes`, mapped where nothing was. */
  ghost predicate MapPage(s: Sys, s': Sys, c: nat, x: Slot, flags: Flags, bytes: seq<Byte>) {
    && c in s.pc && s.pc[c].Placing? && x.space == s.pc[c].space && x !in s.leaf && |bytes| == PAGE_SIZE
    && var f := s.pc[c].frame;
    && s' == s.(mem := s.mem[f := bytes], leaf := s.leaf[x := Entry(f, flags.(present := true))], pc := s.pc[c := Idle])
  }

  /** What a reference count counts. */
  datatype Holder = Leaf(slot: Slot) | Hand(cpu: nat) | Table

  predicate InHand(p: Pc, f: nat) {
    (p.Copying? && p.copy == f) || (p.Dropping? && p.prev == f) || (p.Placing? && p.frame == f)
  }

  ghost function LeafHolders(s: Sys, f: nat): set<Holder> {
    set x | x in s.leaf && s.leaf[x].frame == f && x !in s.unref :: Leaf(x)
  }

  ghost function HandHolders(s: Sys, f: nat): set<Holder> {
    set c | c in s.pc && InHand(s.pc[c], f) :: Hand(c)
  }

  /** The references to a frame: counted leaf entries, fault handlers holding it in a local
      variable, and its use as a page table. */
  ghost function Holders(s: Sys, f: nat): set<Holder> {
    LeafHolders(s, f) + HandHolders(s, f) + (if f in s.tabs then {Table} else {})
  }

  ghost predicate FramesOk(s: Sys) {
    && Frames.Valid(s.pmm)
    && s.mem.Keys == s.pmm.refs.Keys
    && (forall f :: f in s.mem ==> |s.mem[f]| == PAGE_SIZE)
    && (forall x :: x in s.leaf ==> s.leaf[x].frame in s.pmm.refs && s.leaf[x].flags.present)
    && s.tabs.Keys <= s.pmm.refs.Keys
  }

  /** Every reference count is the number of references. */
  ghost predicate Counted(s: Sys) {
    forall f :: f in s.pmm.refs ==> s.pmm.refs[f] == |Holders(s, f)|
  }

  /** A writable page, a table frame and a frame being filled each have one holder. */
  ghost predicate Exclusive(s: Sys) {
    && (forall x :: x in s.leaf && s.leaf[x].flags.writable ==> Holders(s, s.leaf[x].frame) == {Leaf(x)})
    && (forall t :: t in s.tabs ==> Holders(s, t) == {Table})
  }

  /** No two CPUs work on one space. */
  ghost predicate OwnsAlone(s: Sys, c: nat)
    requires c in s.pc
  {
    forall x :: Owns(s.pc[c], x) ==> IsRoot(s, x) && FreeFor(s, c, x)
  }

  /** Every table belongs to a root or to the kernel, and spaces are named by their root. */
  ghost predicate RootsOk(s: Sys) {
    && (forall t :: t in s.tabs ==> s.tabs[t] == 0 || IsRoot(s, s.tabs[t]))
    && (forall x :: x in s.live ==> IsRoot(s, x))
    && (forall x :: x in s.leaf ==> IsRoot(s, x.space))
  }

  /** An uncounted entry is one a cloner is about to count. */
  ghost predicate UnrefOk(s: Sys) {
    forall x :: x in s.unref ==>
      x in s.leaf && s.unref[x] in s.pc &&
      var p := s.pc[s.unref[x]]; p.Linked? && p.child == x.space && p.va == x.va
  }

  ghost predicate OwnersOk(s: Sys) {
    forall c :: c in s.pc ==> OwnsAlone(s, c)
  }

  /** The page a fault is being handled for still has the entry the handler read. */
  ghost predicate Stable(s: Sys, space: nat, va: Va, e: Entry) {
    space in s.live && HasLeaf(s, space, va) && s.leaf[Slot(space, va)] == e && !e.flags.writable && e.flags.cow
  }

  /** The child built so far agrees with its parent and shares every page read-only. */
  ghost predicate ChildOk(s: Sys, space: nat, child: nat) {
    && space in s.live && child !in s.live
    && (forall va :: HasLeaf(s, child, va) ==>
          HasLeaf(s, space, va) && s.leaf[Slot(child, va)] == s.leaf[Slot(space, va)] &&
          !s.leaf[Slot(space, va)].flags.writable)
  }

  ghost predicate PcOk(s: Sys, c: nat)
    requires c in s.pc
  {
    match s.pc[c]
    case Idle => true
    case User(x) => x in s.live
    case Faulted(x, va, e) => Stable(s, x, va, e)
    case Splitting(x, va, e) => Stable(s, x, va, e)
    case Copying(x, va, e, copy, k) =>
      && Stable(s, x, va, e)
      && copy in s.mem && e.frame in s.mem && copy != e.frame
      && Holders(s, copy) == {Hand(c)}
      && k <= PAGE_SIZE && |s.mem[copy]| == |s.mem[e.frame]| == PAGE_SIZE
      && s.mem[copy][..k] == s.mem[e.frame][..k]
    case Dropping(x, prev) => x in s.live && prev in s.pmm.refs
    case Keeping(x, va, e) => Stable(s, x, va, e) && Holders(s, e.frame) == {Leaf(Slot(x, va))}
    case Cloning(x, ch) => ChildOk(s, x, ch)
    case Marked(x, ch, va) =>
      ChildOk(s, x, ch) && HasLeaf(s, x, va) && !HasLeaf(s, ch, va) && !s.leaf[Slot(x, va)].flags.writable
    case Linked(x, ch, va) =>
      ChildOk(s, x, ch) && HasLeaf(s, ch, va) && Slot(ch, va) in s.unref
    case Destroying(x) => x !in s.live
    case Placing(x, f) => x in s.live && f in s.mem && f in s.pmm.refs && Holders(s, f) == {Hand(c)}
  }

  ghost predicate PcsOk(s: Sys) {
    forall c :: c in s.pc ==> PcOk(s, c)
  }

  /** What holds in every reachable state. */
  ghost predicate Inv(s: Sys) {
    FramesOk(s) && Counted(s) && Exclusive(s) && RootsOk(s) && OwnersOk(s) && UnrefOk(s) && PcsOk(s)
  }
}
