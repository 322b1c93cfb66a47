/** What a program's memory should hold after loading, and what each of the two loaders makes of it. */
module ElfImage {
  import opened Common
  import opened Paging

  /** A program header entry. */
  datatype Segment = Segment(load: bool, writable: bool, vaddr: nat, offset: nat, filesz: nat, memsz: nat)

  function FirstPage(s: Segment): nat {
    s.vaddr / PAGE_SIZE
  }

  /** The number of pages from the one with the first byte to the end of the last. */
  function PageCount(s: Segment): nat {
    (s.vaddr + s.memsz + PAGE_SIZE - 1) / PAGE_SIZE - FirstPage(s)
  }

  predicate Touches(s: Segment, page: nat) {
    s.load && FirstPage(s) <= page < FirstPage(s) + PageCount(s)
  }

  predicate FileOk(file: seq<Byte>, segs: seq<Segment>) {
    forall i :: 0 <= i < |segs| && segs[i].load ==> segs[i].offset + segs[i].filesz <= |file|
  }

  /** The address lies in the bytes the segment takes from the file. */
  predicate FromFile(s: Segment, a: nat) {
    Touches(s, a / PAGE_SIZE) && s.vaddr <= a < s.vaddr + s.filesz
  }

  /** The byte the segment wants at an address: from the file, then zeros (System V gABI chapter 5). */
  function Wanted(file: seq<Byte>, s: Segment, a: nat): Byte {
    if FromFile(s, a) && s.offset + (a - s.vaddr) < |file| then file[s.offset + (a - s.vaddr)] else 0
  }

  predicate InMemory(s: Segment, a: nat) {
    s.load && s.vaddr <= a < s.vaddr + s.memsz
  }

  // ----- the loaders' memories, after the first `n` segments

  predicate Touched(segs: seq<Segment>, n: nat, page: nat)
    requires n <= |segs|
  {
    n > 0 && (Touches(segs[n - 1], page) || Touched(segs, n - 1, page))
  }

  /** A fresh frame per segment and page: the last segment on a page decides all of it. */
  function FreshByte(file: seq<Byte>, segs: seq<Segment>, n: nat, a: nat): Byte
    requires n <= |segs|
  {
    if n == 0 then 0
    else if Touches(segs[n - 1], a / PAGE_SIZE) then Wanted(file, segs[n - 1], a)
    else FreshByte(file, segs, n - 1, a)
  }

  function FreshWritable(segs: seq<Segment>, n: nat, page: nat): bool
    requires n <= |segs|
  {
    n > 0 && if Touches(segs[n - 1], page) then segs[n - 1].writable else FreshWritable(segs, n - 1, page)
  }

  /** Shared pages: the last segment with file bytes at the address decides. */
  function SharedByte(file: seq<Byte>, segs: seq<Segment>, n: nat, a: nat): Byte
    requires n <= |segs|
  {
    if n == 0 then 0
    else if FromFile(segs[n - 1], a) then Wanted(file, segs[n - 1], a)
    else SharedByte(file, segs, n - 1, a)
  }

  function SharedWritable(segs: seq<Segment>, n: nat, page: nat): bool
    requires n <= |segs|
  {
    n > 0 && ((Touches(segs[n - 1], page) && segs[n - 1].writable) || SharedWritable(segs, n - 1, page))
  }

  // ----- when they are right

  /** The segments' memory ranges do not overlap, and file parts fit in them. */
  ghost predicate Disjoint(segs: seq<Segment>) {
    && (forall i :: 0 <= i < |segs| && segs[i].load ==> segs[i].filesz <= segs[i].memsz)
    && (forall i, j, a :: 0 <= i < |segs| && 0 <= j < |segs| && InMemory(segs[i], a) && InMemory(segs[j], a) ==> i == j)
  }

  lemma MemoryTouched(s: Segment, a: nat)
    requires InMemory(s, a)
    ensures Touches(s, a / PAGE_SIZE)
  {
  }

  lemma NotElsewhere(segs: seq<Segment>, i: nat, j: nat, a: nat)
    requires Disjoint(segs) && i < |segs| && j < |segs| && i != j && InMemory(segs[i], a)
    ensures !FromFile(segs[j], a)
  {
    assert FromFile(segs[j], a) ==> InMemory(segs[j], a);
  }

  /** Sharing pages needs only disjoint bytes: every byte of every segment is what the segment wants. */
  lemma {:induction false} SharedRight(file: seq<Byte>, segs: seq<Segment>, i: nat, n: nat, a: nat)
    requires Disjoint(segs) && i < n <= |segs| && InMemory(segs[i], a)
    ensures SharedByte(file, segs, n, a) == Wanted(file, segs[i], a)
  {
    if n - 1 == i {
      if !FromFile(segs[i], a) {
        NoneBefore(file, segs, i, i, a);
      }
    } else {
      NotElsewhere(segs, i, n - 1, a);
      SharedRight(file, segs, i, n - 1, a);
    }
  }

  lemma {:induction false} NoneBefore(file: seq<Byte>, segs: seq<Segment>, i: nat, n: nat, a: nat)
    requires Disjoint(segs) && n <= i < |segs| && InMemory(segs[i], a)
    ensures SharedByte(file, segs, n, a) == 0
  {
    if n > 0 {
      NotElsewhere(segs, i, n - 1, a);
      NoneBefore(file, segs, i, n - 1, a);
    }
  }

  lemma {:induction false} SharedWritableIff(segs: seq<Segment>, n: nat, page: nat)
    requires n <= |segs|
    ensures SharedWritable(segs, n, page) <==> exists i :: 0 <= i < n && Touches(segs[i], page) && segs[i].writable
  {
    if n > 0 {
      SharedWritableIff(segs, n - 1, page);
    }
  }

  /** A later segment lies on the page. */
  predicate TouchedAfter(segs: seq<Segment>, i: nat, page: nat)
    requires i < |segs|
  {
    exists j :: i < j < |segs| && Touches(segs[j], page)
  }

  /** With a fresh frame per page and disjoint bytes, a byte of a segment survives exactly if no later segment
      lies on its page, or the byte is zero anyway. */
  lemma {:induction false} FreshRightIff(file: seq<Byte>, segs: seq<Segment>, i: nat, a: nat)
    requires Disjoint(segs) && i < |segs| && InMemory(segs[i], a)
    ensures FreshByte(file, segs, |segs|, a) == Wanted(file, segs[i], a) <==>
      !TouchedAfter(segs, i, a / PAGE_SIZE) || Wanted(file, segs[i], a) == 0
  {
    FreshLast(file, segs, i, |segs|, a);
  }

  lemma {:induction false} FreshLast(file: seq<Byte>, segs: seq<Segment>, i: nat, n: nat, a: nat)
    requires Disjoint(segs) && i < n <= |segs| && InMemory(segs[i], a)
    ensures FreshByte(file, segs, n, a) ==
      if exists j :: i < j < n && Touches(segs[j], a / PAGE_SIZE) then 0 else Wanted(file, segs[i], a)
  {
    MemoryTouched(segs[i], a);
    if n - 1 > i {
      FreshLast(file, segs, i, n - 1, a);
      NotElsewhere(segs, i, n - 1, a);
    }
    hide Touches, Disjoint;
  }

  /** So it needs segments on disjoint pages. */
  lemma FreshRight(file: seq<Byte>, segs: seq<Segment>, i: nat, a: nat)
    requires Disjoint(segs) && i < |segs| && InMemory(segs[i], a)
    requires forall j, page :: 0 <= j < |segs| && j != i && Touches(segs[i], page) ==> !Touches(segs[j], page)
    ensures FreshByte(file, segs, |segs|, a) == Wanted(file, segs[i], a)
  {
    MemoryTouched(segs[i], a);
    FreshRightIff(file, segs, i, a);
  }

  /** Code and data on one page are enough to lose the code: the first segment's byte reads zero. */
  lemma SharedPageLost()
    ensures var segs := [Segment(true, false, 0x80_0000_0000, 0, 16, 16),
                         Segment(true, true, 0x80_0000_0010, 16, 16, 16)];
      var file := seq(32, _ => 0x90 as Byte);
      Disjoint(segs) && FileOk(file, segs) && Wanted(file, segs[0], 0x80_0000_0000) == 0x90 &&
      FreshByte(file, segs, 2, 0x80_0000_0000) == 0 && SharedByte(file, segs, 2, 0x80_0000_0000) == 0x90
  {
    var s, t := Segment(true, false, 0x80_0000_0000, 0, 16, 16), Segment(true, true, 0x80_0000_0010, 16, 16, 16);
    var segs := [s, t];
    var file := seq(32, _ => 0x90 as Byte);
    assert Touches(s, 0x800_0000) && Touches(t, 0x800_0000);
    assert FreshByte(file, segs, 2, 0x80_0000_0000) == Wanted(file, t, 0x80_0000_0000);
    SharedRight(file, segs, 0, 2, 0x80_0000_0000);
  }
}
