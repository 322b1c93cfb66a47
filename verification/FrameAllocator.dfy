/** The physical frame allocator on its arrays: a bitmap, a stack of free addresses and the reference counts. It
    implements the abstract allocator of module `Frames`. */
module FrameAllocator {
  import opened Common
  import opened Bits
  import Frames

  const MAX_FRAMES: nat := 1024 * 1024

  // ----- the bitmap

  /** The frame's bit. */
  predicate Bit(bitmap: seq<bv32>, f: nat)
    requires f / 32 < |bitmap|
  {
    Test(bitmap[f / 32], f % 32)
  }

  ghost predicate BitIs(bitmap: seq<bv32>, bitmap': seq<bv32>, f: nat, on: bool) {
    && |bitmap'| == |bitmap| == MAX_FRAMES / 32
    && forall g: nat :: g < MAX_FRAMES ==> Bit(bitmap', g) == if g == f then on else Bit(bitmap, g)
  }

  lemma SameBit(f: nat, g: nat)
    ensures f / 32 == g / 32 && f % 32 == g % 32 <==> f == g
  {
  }

  lemma SetBit(bitmap: seq<bv32>, f: nat)
    requires |bitmap| == MAX_FRAMES / 32 && f < MAX_FRAMES
    ensures BitIs(bitmap, bitmap[f / 32 := With(bitmap[f / 32], f % 32)], f, true)
  {
    hide Test, With, Mask;
    var bitmap' := bitmap[f / 32 := With(bitmap[f / 32], f % 32)];
    forall g: nat | g < MAX_FRAMES
      ensures Bit(bitmap', g) == if g == f then true else Bit(bitmap, g)
    {
      WordSet(bitmap[f / 32], f % 32, g % 32);
      SameBit(f, g);
    }
  }

  lemma ClearBit(bitmap: seq<bv32>, f: nat)
    requires |bitmap| == MAX_FRAMES / 32 && f < MAX_FRAMES
    ensures BitIs(bitmap, bitmap[f / 32 := Without(bitmap[f / 32], f % 32)], f, false)
  {
    hide Test, Without, Mask;
    var bitmap' := bitmap[f / 32 := Without(bitmap[f / 32], f % 32)];
    forall g: nat | g < MAX_FRAMES
      ensures Bit(bitmap', g) == if g == f then false else Bit(bitmap, g)
    {
      WordClear(bitmap[f / 32], f % 32, g % 32);
      SameBit(f, g);
    }
  }

  // ----- agreement of the three arrays

  /** The frames on the stack, bottom first. */
  function Stacked(stack: seq<nat>): (s: seq<nat>)
    ensures |s| == |stack| && forall i :: 0 <= i < |stack| ==> s[i] == stack[i] / PAGE_SIZE
  {
    seq(|stack|, i requires 0 <= i < |stack| => stack[i] / PAGE_SIZE)
  }

  /** Frame by frame: a managed frame is on the stack exactly if its bit is clear exactly if nobody references it;
      all other frames have their bit set and no references. */
  ghost predicate FrameOk(bitmap: seq<bv32>, free: seq<nat>, refs: seq<nat>, managed: set<nat>, f: nat)
    requires |bitmap| == MAX_FRAMES / 32 && |refs| == MAX_FRAMES && f < MAX_FRAMES
  {
    && (f in free <==> f in managed && refs[f] == 0)
    && (!Bit(bitmap, f) <==> f in managed && refs[f] == 0)
    && (f !in managed ==> refs[f] == 0)
  }

  ghost predicate Agree(bitmap: seq<bv32>, stack: seq<nat>, refs: seq<nat>, managed: set<nat>) {
    && |bitmap| == MAX_FRAMES / 32 && |refs| == MAX_FRAMES && |stack| <= MAX_FRAMES
    && 0 !in managed && (forall f :: f in managed ==> f < MAX_FRAMES)
    && Distinct(Stacked(stack))
    && (forall i :: 0 <= i < |stack| ==> stack[i] % PAGE_SIZE == 0 && stack[i] / PAGE_SIZE < MAX_FRAMES)
    && (forall f: nat :: f < MAX_FRAMES ==> FrameOk(bitmap, Stacked(stack), refs, managed, f))
  }

  /** The abstract allocator that the arrays stand for. */
  ghost function Abstract(stack: seq<nat>, refs: seq<nat>, managed: set<nat>): Frames.Frames
    requires |refs| == MAX_FRAMES && forall f :: f in managed ==> f < MAX_FRAMES
  {
    Frames.Frames(Stacked(stack), map f | f in managed :: refs[f])
  }

  lemma AbstractValid(bitmap: seq<bv32>, stack: seq<nat>, refs: seq<nat>, managed: set<nat>)
    requires Agree(bitmap, stack, refs, managed)
    ensures Frames.Valid(Abstract(stack, refs, managed))
  {
    hide Bit, Distinct;
    var p := Abstract(stack, refs, managed);
    forall f | f in p.free
      ensures f in p.refs && p.refs[f] == 0
    {
      var i :| 0 <= i < |stack| && Stacked(stack)[i] == f;
      assert FrameOk(bitmap, Stacked(stack), refs, managed, f);
    }
    forall f | f in p.refs && p.refs[f] == 0
      ensures f in p.free
    {
      assert FrameOk(bitmap, Stacked(stack), refs, managed, f);
    }
  }

  /** Taking the top of the stack. */
  lemma TakeAgrees(bitmap: seq<bv32>, bitmap': seq<bv32>, stack: seq<nat>, refs: seq<nat>, managed: set<nat>)
    requires Agree(bitmap, stack, refs, managed) && stack != []
    requires var f := stack[|stack| - 1] / PAGE_SIZE; BitIs(bitmap, bitmap', f, true)
    ensures var f := stack[|stack| - 1] / PAGE_SIZE;
      f < |refs| && Agree(bitmap', stack[..|stack| - 1], refs[f := 1], managed) && f in managed &&
      Abstract(stack[..|stack| - 1], refs[f := 1], managed) == Frames.Take(Abstract(stack, refs, managed)) &&
      Frames.Top(Abstract(stack, refs, managed)) == f
  {
    hide Bit;
    var n := |stack| - 1;
    var f := stack[n] / PAGE_SIZE;
    var free, free' := Stacked(stack), Stacked(stack[..n]);
    assert free == free' + [f];
    assert f !in free' by {
      assert forall i :: 0 <= i < n ==> free[i] != free[n];
    }
    var refs' := refs[f := 1];
    forall g: nat | g < MAX_FRAMES
      ensures FrameOk(bitmap', free', refs', managed, g)
    {
      assert FrameOk(bitmap, free, refs, managed, g);
    }
    assert FrameOk(bitmap, free, refs, managed, f);
    var p, q := Abstract(stack, refs, managed), Abstract(stack[..n], refs[f := 1], managed);
    assert q.free == p.free[..n] && q.refs == p.refs[f := 1];
  }

  /** Giving up the last reference. */
  lemma FreeAgrees(bitmap: seq<bv32>, bitmap': seq<bv32>, stack: seq<nat>, refs: seq<nat>, managed: set<nat>, f: nat)
    requires Agree(bitmap, stack, refs, managed) && f < MAX_FRAMES && refs[f] == 1 && BitIs(bitmap, bitmap', f, false)
    ensures |stack| < MAX_FRAMES && Agree(bitmap', stack + [f * PAGE_SIZE], refs[f := 0], managed)
    ensures Abstract(stack + [f * PAGE_SIZE], refs[f := 0], managed) == Frames.Drop(Abstract(stack, refs, managed), f)
  {
    hide Bit;
    var free, free' := Stacked(stack), Stacked(stack + [f * PAGE_SIZE]);
    assert free' == free + [f];
    assert FrameOk(bitmap, free, refs, managed, f);
    StackFits(free, f);
    var refs' := refs[f := 0];
    forall g: nat | g < MAX_FRAMES
      ensures FrameOk(bitmap', free', refs', managed, g)
    {
      assert FrameOk(bitmap, free, refs, managed, g);
    }
    var p, q := Abstract(stack, refs, managed), Abstract(stack + [f * PAGE_SIZE], refs[f := 0], managed);
    assert q.free == p.free + [f] && q.refs == p.refs[f := 0];
  }

  /** A stack of distinct frames that misses one of them is not full. */
  lemma StackFits(free: seq<nat>, f: nat)
    requires Distinct(free) && f !in free && f < MAX_FRAMES && forall g :: g in free ==> g < MAX_FRAMES
    ensures |free| < MAX_FRAMES
  {
    SetOf(free);
    assert f in Below(MAX_FRAMES) && f !in Elems(free) && Elems(free) <= Below(MAX_FRAMES);
    Smaller(Elems(free), Below(MAX_FRAMES));
  }

  function Elems(s: seq<nat>): set<nat> {
    set g | g in s
  }

  lemma {:induction false} SetOf(free: seq<nat>)
    requires Distinct(free)
    ensures |Elems(free)| == |free|
  {
    if free != [] {
      var n := |free| - 1;
      SetOf(free[..n]);
      assert free == free[..n] + [free[n]];
      assert free[n] !in Elems(free[..n]);
      assert Elems(free) == Elems(free[..n]) + {free[n]};
    }
  }

  /** The numbers below `n`. */
  function Below(n: nat): (s: set<nat>)
    ensures |s| == n && forall g: nat :: g in s <==> g < n
  {
    if n == 0 then {} else Below(n - 1) + {n - 1}
  }

  lemma Smaller(a: set<nat>, b: set<nat>)
    requires a < b
    ensures |a| < |b|
  {
    var x :| x in b && x !in a;
    assert a <= b - {x};
    Subset(a, b - {x});
  }

  lemma {:induction false} Subset(a: set<nat>, b: set<nat>)
    requires a <= b
    ensures |a| <= |b|
    decreases |a|
  {
    if a != {} {
      var x :| x in a;
      Subset(a - {x}, b - {x});
    }
  }

  /** A count changes between positive values. */
  lemma CountAgrees(bitmap: seq<bv32>, stack: seq<nat>, refs: seq<nat>, managed: set<nat>, f: nat, n: nat)
    requires Agree(bitmap, stack, refs, managed) && f < MAX_FRAMES && refs[f] > 0 && n > 0
    ensures f in managed && Agree(bitmap, stack, refs[f := n], managed)
    ensures Abstract(stack, refs[f := n], managed) ==
      Abstract(stack, refs, managed).(refs := Abstract(stack, refs, managed).refs[f := n])
  {
    hide Bit;
    assert FrameOk(bitmap, Stacked(stack), refs, managed, f);
    var refs' := refs[f := n];
    forall g: nat | g < MAX_FRAMES
      ensures FrameOk(bitmap, Stacked(stack), refs', managed, g)
    {
      assert FrameOk(bitmap, Stacked(stack), refs, managed, g);
    }
    var p, q := Abstract(stack, refs, managed), Abstract(stack, refs[f := n], managed);
    assert q.refs == p.refs[f := n];
  }

  class Pmm {
    const bitmap: array<bv32>
    const freeStack: array<nat>
    const refCounts: array<nat>
    var stackPtr: int
    ghost var managed: set<nat>

    ghost predicate Valid()
      reads this, bitmap, freeStack, refCounts
    {
      && bitmap.Length == MAX_FRAMES / 32 && freeStack.Length == refCounts.Length == MAX_FRAMES
      && freeStack != refCounts
      && -1 <= stackPtr < MAX_FRAMES && Agree(bitmap[..], freeStack[..stackPtr + 1], refCounts[..], managed)
    }

    /** What the allocator's callers see. */
    ghost function State(): Frames.Frames
      reads this, bitmap, freeStack, refCounts
      requires Valid()
    {
      Abstract(freeStack[..stackPtr + 1], refCounts[..], managed)
    }

    /** The arrays as `pmm_init` first sets them: every frame unavailable, nothing referenced. */
    constructor ()
      ensures bitmap.Length == MAX_FRAMES / 32 && freeStack.Length == refCounts.Length == MAX_FRAMES &&
        freeStack != refCounts
      ensures stackPtr == -1 && managed == {} && fresh(bitmap) && fresh(freeStack) && fresh(refCounts)
      ensures (forall i :: 0 <= i < bitmap.Length ==> bitmap[i] == 0xFFFF_FFFF) &&
        forall i :: 0 <= i < refCounts.Length ==> refCounts[i] == 0
    {
      bitmap := new bv32[MAX_FRAMES / 32](_ => 0xFFFF_FFFF);
      freeStack := new nat[MAX_FRAMES];
      refCounts := new nat[MAX_FRAMES](_ => 0);
      stackPtr := -1;
      managed := {};
    }

    method BitmapSet(f: nat)
      requires bitmap.Length == MAX_FRAMES / 32 && f < MAX_FRAMES
      modifies bitmap
      ensures BitIs(old(bitmap[..]), bitmap[..], f, true)
    {
      hide Mask, BitIs;
      SetBit(bitmap[..], f);
      bitmap[f / 32] := With(bitmap[f / 32], f % 32);
    }

    method BitmapUnset(f: nat)
      requires bitmap.Length == MAX_FRAMES / 32 && f < MAX_FRAMES
      modifies bitmap
      ensures BitIs(old(bitmap[..]), bitmap[..], f, false)
    {
      hide Mask, BitIs;
      ClearBit(bitmap[..], f);
      bitmap[f / 32] := Without(bitmap[f / 32], f % 32);
    }

    /** `pmm_alloc_frame`: the top of the stack, or 0 when no frame is left. */
    method AllocFrame() returns (addr: nat)
      requires Valid()
      modifies this`stackPtr, bitmap, refCounts
      ensures Valid() && managed == old(managed)
      ensures if old(State()).free == [] then addr == 0 && State() == old(State())
              else addr == Frames.Top(old(State())) * PAGE_SIZE && addr != 0 && State() == Frames.Take(old(State()))
    {
      hide Agree, BitIs, Abstract, Frames.Take, Frames.Top;
      StackEmpty(bitmap[..], freeStack[..stackPtr + 1], refCounts[..], managed);
      if stackPtr < 0 {
        return 0;
      }
      ghost var stack := freeStack[..stackPtr + 1];
      addr := freeStack[stackPtr];
      StackTop(bitmap[..], stack, refCounts[..], managed);
      stackPtr := stackPtr - 1;
      assert freeStack[..stackPtr + 1] == stack[..|stack| - 1];
      ghost var before, refs := bitmap[..], refCounts[..];
      BitmapSet(addr / PAGE_SIZE);
      TakeAgrees(before, bitmap[..], stack, refs, managed);
      refCounts[addr / PAGE_SIZE] := 1;
      assert refCounts[..] == refs[addr / PAGE_SIZE := 1];
    }

    /** `pmm_free_frame`: one reference less; with the last one the frame goes on the stack. Frames that are not
        referenced, and addresses above 4 GiB, are ignored. */
    method FreeFrame(addr: nat)
      requires Valid() && addr % PAGE_SIZE == 0
      modifies this`stackPtr, bitmap, refCounts, freeStack
      ensures Valid() && managed == old(managed) && State() == Frames.Drop(old(State()), addr / PAGE_SIZE)
    {
      hide Agree, BitIs, Bit, Abstract, Frames.Drop;
      var f := addr / PAGE_SIZE;
      ghost var stack, refs, before := freeStack[..stackPtr + 1], refCounts[..], bitmap[..];
      DropCases(before, stack, refs, managed, f);
      if f >= MAX_FRAMES {
        return;
      }
      if refCounts[f] > 0 {
        if refCounts[f] == 1 {
          FreeBit(before, stack, refs, managed, f);
        } else {
          CountAgrees(before, stack, refs, managed, f, refCounts[f] - 1);
        }
        refCounts[f] := refCounts[f] - 1;
        assert refCounts[..] == refs[f := refs[f] - 1];
        if refCounts[f] == 0 {
          if Bit(bitmap[..], f) {
            BitmapUnset(f);
            FreeAgrees(before, bitmap[..], stack, refs, managed, f);
            stackPtr := stackPtr + 1;
            freeStack[stackPtr] := addr;
            assert freeStack[..stackPtr + 1] == stack + [f * PAGE_SIZE];
          }
        }
      }
    }

    /** `pmm_ref_inc` on a frame in use, whose 32-bit count has room. */
    method RefInc(addr: nat)
      requires Valid() && addr % PAGE_SIZE == 0 && addr / PAGE_SIZE in managed
      requires State().refs[addr / PAGE_SIZE] > 0 && State().refs[addr / PAGE_SIZE] < 0xFFFF_FFFF
      modifies refCounts
      ensures Valid() && managed == old(managed) && State() == Frames.Share(old(State()), addr / PAGE_SIZE)
    {
      hide Agree, Bit;
      var f := addr / PAGE_SIZE;
      ghost var stack, refs := freeStack[..stackPtr + 1], refCounts[..];
      BelowLimit(bitmap[..], stack, refs, managed, f);
      if f < MAX_FRAMES {
        CountAgrees(bitmap[..], stack, refs, managed, f, refCounts[f] + 1);
        refCounts[f] := refCounts[f] + 1;
        assert refCounts[..] == refs[f := refs[f] + 1];
      }
    }

    /** `pmm_get_ref`. */
    method GetRef(addr: nat) returns (count: nat)
      requires Valid()
      ensures var f := addr / PAGE_SIZE; count == if f in managed then State().refs[f] else 0
    {
      hide Bit;
      var f := addr / PAGE_SIZE;
      if f < MAX_FRAMES {
        assert FrameOk(bitmap[..], Stacked(freeStack[..stackPtr + 1]), refCounts[..], managed, f);
        count := refCounts[f];
      } else {
        count := 0;
      }
    }

    /** `pmm_get_free_count`: the number of clear bits. */
    method GetFreeCount() returns (count: nat)
      requires Valid()
      ensures count == |State().free| == |ClearBits(bitmap[..])|
    {
      FreeIsClear(bitmap[..], freeStack[..stackPtr + 1], refCounts[..], managed);
      count := stackPtr + 1;
    }
  }

  ghost function ClearBits(bitmap: seq<bv32>): set<nat>
    requires |bitmap| == MAX_FRAMES / 32
  {
    set f: nat | f < MAX_FRAMES && !Bit(bitmap, f)
  }

  lemma FreeIsClear(bitmap: seq<bv32>, stack: seq<nat>, refs: seq<nat>, managed: set<nat>)
    requires Agree(bitmap, stack, refs, managed)
    ensures |stack| == |Stacked(stack)| == |ClearBits(bitmap)|
  {
    hide Bit, Below;
    var free := Stacked(stack);
    SetOf(free);
    assert forall i :: 0 <= i < |stack| ==> free[i] < MAX_FRAMES;
    forall f: nat
      ensures f in Elems(free) <==> f in ClearBits(bitmap)
    {
      if f < MAX_FRAMES {
        assert FrameOk(bitmap, free, refs, managed, f);
      }
    }
    assert Elems(free) == ClearBits(bitmap);
  }

  lemma DropCases(bitmap: seq<bv32>, stack: seq<nat>, refs: seq<nat>, managed: set<nat>, f: nat)
    requires Agree(bitmap, stack, refs, managed)
    ensures var p := Abstract(stack, refs, managed);
      (f >= MAX_FRAMES || refs[f] == 0 ==> Frames.Drop(p, f) == p) &&
      (f < MAX_FRAMES && refs[f] > 1 ==> Frames.Drop(p, f) == p.(refs := p.refs[f := refs[f] - 1]))
  {
    hide Bit;
    if f < MAX_FRAMES {
      assert FrameOk(bitmap, Stacked(stack), refs, managed, f);
    }
  }

  lemma FreeBit(bitmap: seq<bv32>, stack: seq<nat>, refs: seq<nat>, managed: set<nat>, f: nat)
    requires Agree(bitmap, stack, refs, managed) && f < MAX_FRAMES && refs[f] > 0
    ensures Bit(bitmap, f)
  {
    hide Bit;
    assert FrameOk(bitmap, Stacked(stack), refs, managed, f);
  }

  lemma BelowLimit(bitmap: seq<bv32>, stack: seq<nat>, refs: seq<nat>, managed: set<nat>, f: nat)
    requires Agree(bitmap, stack, refs, managed) && f in managed
    ensures f < MAX_FRAMES
  {
  }

  lemma StackEmpty(bitmap: seq<bv32>, stack: seq<nat>, refs: seq<nat>, managed: set<nat>)
    requires Agree(bitmap, stack, refs, managed)
    ensures stack == [] ==> Abstract(stack, refs, managed).free == []
  {
  }

  lemma StackTop(bitmap: seq<bv32>, stack: seq<nat>, refs: seq<nat>, managed: set<nat>)
    requires Agree(bitmap, stack, refs, managed) && stack != []
    ensures var a := stack[|stack| - 1]; a % PAGE_SIZE == 0 && 0 < a / PAGE_SIZE < MAX_FRAMES
    ensures Abstract(stack, refs, managed).free != []
  {
    hide Bit;
    var f := stack[|stack| - 1] / PAGE_SIZE;
    assert f == Stacked(stack)[|stack| - 1];
    assert FrameOk(bitmap, Stacked(stack), refs, managed, f);
  }

  // ----- building the allocator from the memory map

  /** An entry of the Multiboot2 memory map (section 3.6.8 of the Multiboot2 specification, version 2.0). */
  datatype Region = Region(addr: nat, len: nat, kind: nat)

  const AVAILABLE: nat := 1

  /** How many pages a loop visits that steps through `len` bytes. */
  function Steps(len: nat): nat {
    (len + PAGE_SIZE - 1) / PAGE_SIZE
  }

  /** The frames such a loop visits, starting at `addr`, after `k` steps. */
  predicate Visited(addr: nat, k: nat, f: nat) {
    addr / PAGE_SIZE <= f < addr / PAGE_SIZE + k
  }

  predicate InRegion(r: Region, f: nat) {
    r.kind == AVAILABLE && Visited(r.addr, Steps(r.len), f)
  }

  predicate Available(map_: seq<Region>, f: nat) {
    exists i :: 0 <= i < |map_| && InRegion(map_[i], f)
  }

  /** The kernel image and the boot information. */
  predicate Reserved(kernelEnd: nat, info: nat, infoSize: nat, f: nat) {
    f < Steps(kernelEnd) || Visited(info, Steps(infoSize), f)
  }

  predicate Free(map_: seq<Region>, kernelEnd: nat, info: nat, infoSize: nat, f: nat) {
    f < MAX_FRAMES && Available(map_, f) && !Reserved(kernelEnd, info, infoSize, f)
  }

  /** Every frame of the kernel image is reserved. */
  lemma KernelReserved(kernelEnd: nat, info: nat, infoSize: nat, a: nat)
    requires a < kernelEnd
    ensures Reserved(kernelEnd, info, infoSize, a / PAGE_SIZE)
  {
  }

  /** A loop that steps from an unaligned start comes to every frame with a byte of the stretch, except the last one if
      the stretch ends further into its page than the start lies in the first. */
  lemma VisitedIff(addr: nat, len: nat, a: nat)
    requires addr <= a < addr + len
    ensures Visited(addr, Steps(len), a / PAGE_SIZE) <==>
      addr % PAGE_SIZE + (len - 1) % PAGE_SIZE < PAGE_SIZE || a / PAGE_SIZE < (addr + len - 1) / PAGE_SIZE
  {
  }

  /** Every byte of the boot information is in a reserved frame. */
  ghost predicate InfoReserved(kernelEnd: nat, info: nat, infoSize: nat) {
    forall a: nat :: info <= a < info + infoSize ==> Reserved(kernelEnd, info, infoSize, a / PAGE_SIZE)
  }

  /** That is so exactly if the loop comes to the last one, or the kernel image reaches into it. */
  lemma InfoReservedIff(kernelEnd: nat, info: nat, infoSize: nat)
    requires infoSize > 0
    ensures InfoReserved(kernelEnd, info, infoSize) <==>
      info % PAGE_SIZE + (infoSize - 1) % PAGE_SIZE < PAGE_SIZE ||
      (info + infoSize - 1) / PAGE_SIZE * PAGE_SIZE < kernelEnd
  {
    var last := info + infoSize - 1;
    VisitedIff(info, infoSize, last);
    assert InfoReserved(kernelEnd, info, infoSize) ==> Reserved(kernelEnd, info, infoSize, last / PAGE_SIZE);
    forall a: nat | info <= a < info + infoSize
      ensures Reserved(kernelEnd, info, infoSize, last / PAGE_SIZE) ==>
              Reserved(kernelEnd, info, infoSize, a / PAGE_SIZE)
    {
      VisitedIff(info, infoSize, a);
    }
  }

  /** No byte of the boot information is in a frame that is handed out. */
  ghost predicate InfoSafe(map_: seq<Region>, kernelEnd: nat, info: nat, infoSize: nat) {
    forall a: nat :: info <= a < info + infoSize ==> !Free(map_, kernelEnd, info, infoSize, a / PAGE_SIZE)
  }

  /** That is so exactly if its last frame is reserved or is not memory to hand out. */
  lemma InfoSafeIff(map_: seq<Region>, kernelEnd: nat, info: nat, infoSize: nat)
    requires infoSize > 0
    ensures var last := (info + infoSize - 1) / PAGE_SIZE;
      InfoSafe(map_, kernelEnd, info, infoSize) <==>
      info % PAGE_SIZE + (infoSize - 1) % PAGE_SIZE < PAGE_SIZE || last * PAGE_SIZE < kernelEnd ||
      last >= MAX_FRAMES || !Available(map_, last)
  {
    hide Available;
    var last := info + infoSize - 1;
    VisitedIff(info, infoSize, last);
    assert InfoSafe(map_, kernelEnd, info, infoSize) ==> !Free(map_, kernelEnd, info, infoSize, last / PAGE_SIZE);
    forall a: nat | info <= a < info + infoSize
      ensures !Free(map_, kernelEnd, info, infoSize, last / PAGE_SIZE) ==>
              !Free(map_, kernelEnd, info, infoSize, a / PAGE_SIZE)
    {
      VisitedIff(info, infoSize, a);
    }
  }

  /** Two pages of information starting 8 bytes into the page at 32 MiB, the kernel ending at 16 MiB and 128 MiB of
      memory: the frame with the end of the information is handed out. */
  lemma InfoEndLost(map_: seq<Region>)
    requires map_ == [Region(0, 0x9_F000, AVAILABLE), Region(0x10_0000, 0x7EE_0000, AVAILABLE)]
    ensures Free(map_, 0x100_0000, 0x200_0008, 8192, (0x200_0008 + 8191) / PAGE_SIZE)
  {
    assert InRegion(map_[1], 0x2002);
  }

  // ----- what "available" means in bytes

  /** The byte lies in a region the memory map calls available. */
  predicate UsableByte(map_: seq<Region>, a: nat) {
    exists i :: 0 <= i < |map_| && InBytes(map_[i], a)
  }

  predicate InBytes(r: Region, a: nat) {
    r.kind == AVAILABLE && r.addr <= a < r.addr + r.len
  }

  /** Every byte of the frame is usable. */
  ghost predicate UsableFrame(map_: seq<Region>, f: nat) {
    forall a: nat :: a / PAGE_SIZE == f ==> UsableByte(map_, a)
  }

  /** The last frame the loop visits for a region that is not empty. */
  function LastFrame(r: Region): nat
    requires r.len > 0
  {
    r.addr / PAGE_SIZE + Steps(r.len) - 1
  }

  /** The loop takes a frame with bytes outside the region exactly if the region does not start and end on page
      boundaries. */
  lemma RegionExactIff(r: Region)
    requires r.kind == AVAILABLE && r.len > 0
    ensures (forall a: nat :: InRegion(r, a / PAGE_SIZE) ==> InBytes(r, a)) <==>
      r.addr % PAGE_SIZE == 0 && r.len % PAGE_SIZE == 0
  {
    var first, last := r.addr / PAGE_SIZE, LastFrame(r);
    if r.addr % PAGE_SIZE != 0 {
      assert InRegion(r, first * PAGE_SIZE / PAGE_SIZE) && !InBytes(r, first * PAGE_SIZE);
    } else if r.len % PAGE_SIZE != 0 {
      var a := last * PAGE_SIZE + (PAGE_SIZE - 1);
      assert a / PAGE_SIZE == last;
      assert InRegion(r, a / PAGE_SIZE) && !InBytes(r, a);
    }
  }

  /** And it leaves out the region's end exactly if that lies further into a page than the start. */
  lemma RegionCoveredIff(r: Region)
    requires r.kind == AVAILABLE && r.len > 0
    ensures (forall a: nat :: InBytes(r, a) ==> InRegion(r, a / PAGE_SIZE)) <==>
      r.addr % PAGE_SIZE + (r.len - 1) % PAGE_SIZE < PAGE_SIZE
  {
    assert InBytes(r, r.addr + r.len - 1);
    forall a: nat | InBytes(r, a)
      ensures InRegion(r, a / PAGE_SIZE) <==> r.addr % PAGE_SIZE + (r.len - 1) % PAGE_SIZE < PAGE_SIZE ||
                                              a / PAGE_SIZE < (r.addr + r.len - 1) / PAGE_SIZE
    {
      VisitedIff(r.addr, r.len, a);
    }
  }

  /** The frames at the two ends of a region are usable or not handed out. */
  ghost predicate EndsUsable(map_: seq<Region>, kernelEnd: nat, info: nat, infoSize: nat, r: Region) {
    r.kind == AVAILABLE && r.len > 0 ==>
      && (r.addr % PAGE_SIZE != 0 && Free(map_, kernelEnd, info, infoSize, r.addr / PAGE_SIZE) ==>
          UsableFrame(map_, r.addr / PAGE_SIZE))
      && ((LastFrame(r) + 1) * PAGE_SIZE > r.addr + r.len && Free(map_, kernelEnd, info, infoSize, LastFrame(r)) ==>
            UsableFrame(map_, LastFrame(r)))
  }

  lemma InnerUsable(map_: seq<Region>, i: nat, f: nat)
    requires i < |map_| && InRegion(map_[i], f)
    ensures var r := map_[i];
      r.len > 0 &&
      ((f > r.addr / PAGE_SIZE || r.addr % PAGE_SIZE == 0) &&
       (f < LastFrame(r) || (LastFrame(r) + 1) * PAGE_SIZE <= r.addr + r.len) ==>
        UsableFrame(map_, f))
  {
    var r := map_[i];
    if (f > r.addr / PAGE_SIZE || r.addr % PAGE_SIZE == 0) &&
      (f < LastFrame(r) || (LastFrame(r) + 1) * PAGE_SIZE <= r.addr + r.len) {
      forall a: nat | a / PAGE_SIZE == f
        ensures UsableByte(map_, a)
      {
        assert InBytes(map_[i], a);
      }
    }
  }

  /** Every byte of every free frame is usable memory exactly if that holds of the frames at the two ends of each
      region; of the first one only if the region starts inside it, of the last one only if it ends inside it. */
  lemma FreeUsableIff(map_: seq<Region>, kernelEnd: nat, info: nat, infoSize: nat)
    ensures (forall f :: Free(map_, kernelEnd, info, infoSize, f) ==> UsableFrame(map_, f)) <==>
            (forall i :: 0 <= i < |map_| ==> EndsUsable(map_, kernelEnd, info, infoSize, map_[i]))
  {
    hide Reserved, UsableFrame;
    if forall i :: 0 <= i < |map_| ==> EndsUsable(map_, kernelEnd, info, infoSize, map_[i]) {
      forall f | Free(map_, kernelEnd, info, infoSize, f)
        ensures UsableFrame(map_, f)
      {
        var i :| 0 <= i < |map_| && InRegion(map_[i], f);
        InnerUsable(map_, i, f);
        assert EndsUsable(map_, kernelEnd, info, infoSize, map_[i]);
      }
    }
  }

  /** So it holds for every map whose available regions start and end on page boundaries. */
  lemma AlignedUsable(map_: seq<Region>, kernelEnd: nat, info: nat, infoSize: nat)
    requires forall i :: 0 <= i < |map_| && map_[i].kind == AVAILABLE ==>
      map_[i].addr % PAGE_SIZE == 0 && map_[i].len % PAGE_SIZE == 0
    ensures forall f :: Free(map_, kernelEnd, info, infoSize, f) ==> UsableFrame(map_, f)
  {
    FreeUsableIff(map_, kernelEnd, info, infoSize);
    hide Free, UsableFrame;
  }

  /** Memory that ends 3 KiB into a page, the kernel ending at 16 MiB and its information at 32 MiB: the last frame is
      handed out though its end does not belong to the region. */
  lemma RegionEndFreed(map_: seq<Region>)
    requires map_ == [Region(0x10_0000, 0x7ED_FC00, AVAILABLE), Region(0x7FD_FC00, 0x2_0400, 2)]
    ensures Free(map_, 0x100_0000, 0x200_0000, 4096, 0x7FDF) && !UsableByte(map_, 0x7FD_FFFF) &&
            !UsableFrame(map_, 0x7FDF)
  {
    assert InRegion(map_[0], 0x7FDF);
    assert 0x7FD_FFFF / PAGE_SIZE == 0x7FDF;
  }

  ghost predicate Cleared(bitmap: seq<bv32>, map_: seq<Region>, n: nat, k: nat)
    requires n <= |map_|
  {
    && |bitmap| == MAX_FRAMES / 32
    && forall f: nat :: f < MAX_FRAMES ==>
         (!Bit(bitmap, f) <==> Available(map_[..n], f) || (n < |map_| && map_[n].kind == AVAILABLE &&
                                                           Visited(map_[n].addr, k, f)))
  }

  ghost predicate SetTo(bitmap0: seq<bv32>, bitmap: seq<bv32>, addr: nat, k: nat) {
    && |bitmap| == |bitmap0| == MAX_FRAMES / 32
    && forall f: nat :: f < MAX_FRAMES ==> (Bit(bitmap, f) <==> Bit(bitmap0, f) || Visited(addr, k, f))
  }

  lemma SetMore(bitmap0: seq<bv32>, bitmap: seq<bv32>, bitmap': seq<bv32>, addr: nat, k: nat)
    requires SetTo(bitmap0, bitmap, addr, k) && BitIs(bitmap, bitmap', addr / PAGE_SIZE + k, true)
    ensures SetTo(bitmap0, bitmap', addr, k + 1)
  {
    hide Bit;
  }

  lemma SetNone(bitmap: seq<bv32>, addr: nat)
    requires |bitmap| == MAX_FRAMES / 32
    ensures SetTo(bitmap, bitmap, addr, 0)
  {
    hide Bit;
  }

  lemma ClearMore(bitmap: seq<bv32>, bitmap': seq<bv32>, map_: seq<Region>, n: nat, k: nat)
    requires n < |map_| && map_[n].kind == AVAILABLE && Cleared(bitmap, map_, n, k)
    requires var f := map_[n].addr / PAGE_SIZE + k;
      if f < MAX_FRAMES then BitIs(bitmap, bitmap', f, false) else bitmap' == bitmap
    ensures Cleared(bitmap', map_, n, k + 1)
  {
    hide Bit, Available;
  }

  lemma AvailableMore(map_: seq<Region>, n: nat, f: nat)
    requires n < |map_|
    ensures Available(map_[..n + 1], f) <==> Available(map_[..n], f) || InRegion(map_[n], f)
  {
    hide InRegion;
    if Available(map_[..n + 1], f) {
      var i :| 0 <= i < n + 1 && InRegion(map_[..n + 1][i], f);
      assert i < n ==> map_[..n][i] == map_[i];
    }
    if Available(map_[..n], f) {
      var i :| 0 <= i < n && InRegion(map_[..n][i], f);
      assert map_[..n + 1][i] == map_[i];
    }
    assert map_[..n + 1][n] == map_[n];
  }

  lemma ClearNext(bitmap: seq<bv32>, map_: seq<Region>, n: nat, k: nat)
    requires n < |map_| && Cleared(bitmap, map_, n, k) && (map_[n].kind == AVAILABLE ==> k == Steps(map_[n].len))
    ensures Cleared(bitmap, map_, n + 1, 0)
  {
    hide Bit, Available;
    forall f: nat | f < MAX_FRAMES
      ensures !Bit(bitmap, f) <==> Available(map_[..n + 1], f)
    {
      AvailableMore(map_, n, f);
    }
  }

  lemma AllSet(bitmap: seq<bv32>, map_: seq<Region>)
    requires |bitmap| == MAX_FRAMES / 32 && forall i :: 0 <= i < |bitmap| ==> bitmap[i] == 0xFFFF_FFFF
    ensures Cleared(bitmap, map_, 0, 0)
  {
    forall f: nat | f < MAX_FRAMES
      ensures Bit(bitmap, f) && !Available(map_[..0], f)
    {
      FullWord(f % 32);
    }
    hide Bit, Available;
  }

  lemma FullWord(k: nat)
    requires k < 32
    ensures Test(0xFFFF_FFFF, k)
  {
    MaskNonzero(k);
    AndFull(Mask(k));
    hide Mask;
  }

  lemma AndFull(m: bv32)
    ensures And(0xFFFF_FFFF, m) == m
  {
  }

  /** No usable frame lies at or above `maxFrame`. */
  ghost predicate Under(bitmap: seq<bv32>, maxFrame: nat) {
    |bitmap| == MAX_FRAMES / 32 && forall f: nat :: f < MAX_FRAMES && !Bit(bitmap, f) ==> f < maxFrame
  }

  lemma UnderMore(bitmap: seq<bv32>, bitmap': seq<bv32>, m: nat, m': nat, f: nat)
    requires Under(bitmap, m) && f < MAX_FRAMES && BitIs(bitmap, bitmap', f, false) && m <= m' && f < m'
    ensures Under(bitmap', m')
  {
    hide Bit;
  }

  lemma UnderSet(bitmap0: seq<bv32>, bitmap: seq<bv32>, m: nat, addr: nat, k: nat)
    requires Under(bitmap0, m) && SetTo(bitmap0, bitmap, addr, k)
    ensures Under(bitmap, m)
  {
    hide Bit;
  }

  lemma UnderAll(bitmap: seq<bv32>)
    ensures |bitmap| == MAX_FRAMES / 32 ==> Under(bitmap, MAX_FRAMES)
  {
    hide Bit;
  }

  /** The clear frames below `n`, in order. */
  function ClearList(bitmap: seq<bv32>, n: nat): (s: seq<nat>)
    requires |bitmap| == MAX_FRAMES / 32 && n <= MAX_FRAMES
  {
    if n == 0 then [] else ClearList(bitmap, n - 1) + if Bit(bitmap, n - 1) then [] else [n - 1]
  }

  lemma {:induction false} ClearListIs(bitmap: seq<bv32>, n: nat)
    requires |bitmap| == MAX_FRAMES / 32 && n <= MAX_FRAMES
    ensures Distinct(ClearList(bitmap, n)) && |ClearList(bitmap, n)| <= n
    ensures forall f: nat :: f in ClearList(bitmap, n) <==> f < n && !Bit(bitmap, f)
  {
    hide Bit;
    if n > 0 {
      ClearListIs(bitmap, n - 1);
    }
  }

  /** Whether the finished bitmap shows exactly the usable frames. */
  ghost predicate ShowsFree(bitmap: seq<bv32>, map_: seq<Region>, kernelEnd: nat, info: nat, infoSize: nat) {
    |bitmap| == MAX_FRAMES / 32 && forall f: nat :: f < MAX_FRAMES ==>
    (!Bit(bitmap, f) <==> Free(map_, kernelEnd, info, infoSize, f))
  }

  lemma ReservedShown(b0: seq<bv32>, b1: seq<bv32>, b2: seq<bv32>, map_: seq<Region>, kernelEnd: nat, info: nat,
                      infoSize: nat)
    requires Cleared(b0, map_, |map_|, 0) && SetTo(b0, b1, 0, Steps(kernelEnd)) && SetTo(b1, b2, info, Steps(infoSize))
    ensures ShowsFree(b2, map_, kernelEnd, info, infoSize)
  {
    hide Bit, Available;
    assert map_[..|map_|] == map_;
  }

  lemma StackAgrees(bitmap: seq<bv32>, stack: seq<nat>, refs: seq<nat>, managed: set<nat>, maxFrame: nat)
    requires |bitmap| == MAX_FRAMES / 32 && maxFrame <= MAX_FRAMES && Stacked(stack) == ClearList(bitmap, maxFrame)
    requires (forall i :: 0 <= i < |stack| ==> stack[i] % PAGE_SIZE == 0) && |refs| == MAX_FRAMES &&
      (forall f :: 0 <= f < MAX_FRAMES ==> refs[f] == 0)
    requires managed == Elems(ClearList(bitmap, maxFrame)) && Bit(bitmap, 0)
    requires forall f: nat :: f < MAX_FRAMES && !Bit(bitmap, f) ==> f < maxFrame
    ensures Agree(bitmap, stack, refs, managed)
  {
    hide Bit, ClearList;
    ClearListIs(bitmap, maxFrame);
    assert forall i :: 0 <= i < |stack| ==> Stacked(stack)[i] in ClearList(bitmap, maxFrame);
  }

  predicate Ascending(s: seq<nat>) {
    forall i, j :: 0 <= i < j < |s| ==> s[i] < s[j]
  }

  lemma {:induction false} ClearAscending(bitmap: seq<bv32>, n: nat)
    requires |bitmap| == MAX_FRAMES / 32 && n <= MAX_FRAMES
    ensures Ascending(ClearList(bitmap, n))
  {
    hide Bit;
    if n > 0 {
      ClearAscending(bitmap, n - 1);
      ClearListIs(bitmap, n - 1);
      var rest := ClearList(bitmap, n - 1);
      assert forall i :: 0 <= i < |rest| ==> rest[i] in rest;
    }
  }

  lemma AllUnder(bitmap: seq<bv32>, map_: seq<Region>)
    requires Cleared(bitmap, map_, 0, 0) && forall i :: 0 <= i < |bitmap| ==> bitmap[i] == 0xFFFF_FFFF
    ensures Under(bitmap, 0)
  {
    forall f: nat | f < MAX_FRAMES
      ensures Bit(bitmap, f)
    {
      FullWord(f % 32);
    }
    hide Bit, Available;
  }

  /** The loops that reserve the kernel image and the boot information. */
  method Reserve(pmm: Pmm, start: nat, len: nat)
    requires pmm.bitmap.Length == MAX_FRAMES / 32 && start / PAGE_SIZE + Steps(len) <= MAX_FRAMES
    modifies pmm.bitmap
    ensures SetTo(old(pmm.bitmap[..]), pmm.bitmap[..], start, Steps(len))
  {
    hide Bit, SetTo, BitIs;
    ghost var before := pmm.bitmap[..];
    SetNone(before, start);
    var k := 0;
    while start + k * PAGE_SIZE < start + len
      invariant k <= Steps(len) && SetTo(before, pmm.bitmap[..], start, k)
    {
      assert (start + k * PAGE_SIZE) / PAGE_SIZE == start / PAGE_SIZE + k;
      ghost var b := pmm.bitmap[..];
      pmm.BitmapSet((start + k * PAGE_SIZE) / PAGE_SIZE);
      SetMore(before, b, pmm.bitmap[..], start, k);
      k := k + 1;
    }
  }

  /** The last loop of `pmm_init`: clear frames go on the stack, lowest first. */
  method PushFree(pmm: Pmm, maxFrame: nat)
    requires pmm.bitmap.Length == MAX_FRAMES / 32 && pmm.freeStack.Length == MAX_FRAMES && maxFrame <= MAX_FRAMES &&
      pmm.stackPtr == -1
    modifies pmm`stackPtr, pmm`managed, pmm.freeStack
    ensures -1 <= pmm.stackPtr < MAX_FRAMES && pmm.managed == Elems(ClearList(pmm.bitmap[..], maxFrame))
    ensures Stacked(pmm.freeStack[..pmm.stackPtr + 1]) == ClearList(pmm.bitmap[..], maxFrame)
    ensures forall i :: 0 <= i <= pmm.stackPtr ==> pmm.freeStack[i] % PAGE_SIZE == 0
  {
    hide Bit;
    for f := 0 to maxFrame
      invariant -1 <= pmm.stackPtr < f && Stacked(pmm.freeStack[..pmm.stackPtr + 1]) == ClearList(pmm.bitmap[..], f)
      invariant forall i :: 0 <= i <= pmm.stackPtr ==> pmm.freeStack[i] % PAGE_SIZE == 0
    {
      if !Bit(pmm.bitmap[..], f) {
        ghost var stack := pmm.freeStack[..pmm.stackPtr + 1];
        pmm.stackPtr := pmm.stackPtr + 1;
        pmm.freeStack[pmm.stackPtr] := f * PAGE_SIZE;
        assert pmm.freeStack[..pmm.stackPtr + 1] == stack + [f * PAGE_SIZE];
        assert Stacked(stack + [f * PAGE_SIZE]) == Stacked(stack) + [f];
      }
    }
    pmm.managed := Elems(ClearList(pmm.bitmap[..], maxFrame));
  }

  lemma Built(pmm: Pmm, map_: seq<Region>, kernelEnd: nat, info: nat, infoSize: nat, maxFrame: nat)
    requires pmm.bitmap.Length == MAX_FRAMES / 32 && pmm.freeStack.Length == pmm.refCounts.Length == MAX_FRAMES &&
      pmm.freeStack != pmm.refCounts
    requires maxFrame <= MAX_FRAMES && -1 <= pmm.stackPtr < MAX_FRAMES && 0 < kernelEnd
    requires pmm.managed == Elems(ClearList(pmm.bitmap[..], maxFrame))
    requires Stacked(pmm.freeStack[..pmm.stackPtr + 1]) == ClearList(pmm.bitmap[..], maxFrame)
    requires forall i :: 0 <= i <= pmm.stackPtr ==> pmm.freeStack[i] % PAGE_SIZE == 0
    requires forall f :: 0 <= f < MAX_FRAMES ==> pmm.refCounts[f] == 0
    requires Under(pmm.bitmap[..], maxFrame) && ShowsFree(pmm.bitmap[..], map_, kernelEnd, info, infoSize)
    ensures pmm.Valid() && forall f :: f in pmm.managed <==> Free(map_, kernelEnd, info, infoSize, f)
    ensures Ascending(pmm.State().free) && forall f :: f in pmm.State().refs ==> pmm.State().refs[f] == 0
  {
    hide Bit, ClearList, Available;
    var bitmap, stack := pmm.bitmap[..], pmm.freeStack[..pmm.stackPtr + 1];
    assert Bit(bitmap, 0) by { KernelReserved(kernelEnd, info, infoSize, 0); }
    StackAgrees(bitmap, stack, pmm.refCounts[..], pmm.managed, maxFrame);
    ClearListIs(bitmap, maxFrame);
    ClearAscending(bitmap, maxFrame);
  }

  /** `pmm_init`: the frames on the stack are, in order, those the memory map calls available and neither the kernel
      nor the boot information occupies. */
  method Init(map_: seq<Region>, kernelEnd: nat, info: nat, infoSize: nat) returns (pmm: Pmm)
    requires 0 < kernelEnd <= MAX_FRAMES * PAGE_SIZE && info + infoSize <= MAX_FRAMES * PAGE_SIZE - PAGE_SIZE
    ensures pmm.Valid() && forall f :: f in pmm.managed <==> Free(map_, kernelEnd, info, infoSize, f)
    ensures Ascending(pmm.State().free) && forall f :: f in pmm.State().refs ==> pmm.State().refs[f] == 0
  {
    hide Bit, Cleared, SetTo, Under, BitIs, Available, Free, ShowsFree, Agree, Abstract, Reserved;
    pmm := new Pmm();
    var bitmap := pmm.bitmap;
    AllSet(bitmap[..], map_);
    var maxFrame: nat := 0;
    assert Under(bitmap[..], 0) by { AllUnder(bitmap[..], map_); }
    for n := 0 to |map_|
      invariant bitmap.Length == MAX_FRAMES / 32 && Cleared(bitmap[..], map_, n, 0) && Under(bitmap[..], maxFrame)
      modifies bitmap
    {
      var k := 0;
      if map_[n].kind == AVAILABLE {
        while map_[n].addr + k * PAGE_SIZE < map_[n].addr + map_[n].len
          invariant k <= Steps(map_[n].len) && Cleared(bitmap[..], map_, n, k) && Under(bitmap[..], maxFrame)
          modifies bitmap
        {
          var addr := map_[n].addr + k * PAGE_SIZE;
          var frame := addr / PAGE_SIZE;
          assert frame == map_[n].addr / PAGE_SIZE + k;
          ghost var before, m := bitmap[..], maxFrame;
          if frame < MAX_FRAMES {
            pmm.BitmapUnset(frame);
            if frame + 1 > maxFrame {
              maxFrame := frame + 1;
            }
            UnderMore(before, bitmap[..], m, maxFrame, frame);
          }
          ClearMore(before, bitmap[..], map_, n, k);
          k := k + 1;
        }
      }
      ClearNext(bitmap[..], map_, n, k);
    }
    ghost var b0 := bitmap[..];
    Reserve(pmm, 0, kernelEnd);
    ghost var b1 := bitmap[..];
    Reserve(pmm, info, infoSize);
    UnderSet(b0, b1, maxFrame, 0, Steps(kernelEnd));
    UnderSet(b1, bitmap[..], maxFrame, info, Steps(infoSize));
    ReservedShown(b0, b1, bitmap[..], map_, kernelEnd, info, infoSize);
    UnderAll(bitmap[..]);
    if maxFrame > MAX_FRAMES {
      maxFrame := MAX_FRAMES;
    }
    PushFree(pmm, maxFrame);
    Built(pmm, map_, kernelEnd, info, infoSize, maxFrame);
  }
}
