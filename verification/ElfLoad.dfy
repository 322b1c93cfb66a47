/** The two ELF loaders on the page tables, page by page: one takes a fresh frame for every page of every segment, the
    other shares pages between segments. */
module ElfLoad {
  import opened Common
  import opened Paging
  import opened Addresses
  import opened PageTree
  import opened PageTables
  import opened PageRanges
  import opened AddressSpaces
  import opened BootTables
  import opened SpaceBuilding
  import opened ElfImage
  import Frames

  const MAGIC: nat := 0x464C_457F

  /** A parsed executable: the header fields the loader reads, and the file's bytes. */
  datatype Elf = Elf(magic: nat, entry: nat, segs: seq<Segment>, file: seq<Byte>)

  datatype Page = Page(frame: nat, writable: bool)

  const Blank: seq<Byte> := seq(PAGE_SIZE, _ => 0 as Byte)

  /** `memcpy` of `src` into a frame. */
  function Spliced(dst: seq<Byte>, at: nat, src: seq<Byte>): seq<Byte>
    requires at + |src| <= |dst|
  {
    dst[..at] + src + dst[at + |src|..]
  }

  // ----- what the loop copies into page `p` of a segment

  function CopyAt(s: Segment, p: nat): nat {
    if p == 0 then s.vaddr % PAGE_SIZE else 0
  }

  /** The part of the file that goes to the page. */
  function Copied(file: seq<Byte>, s: Segment, p: nat): (r: seq<Byte>)
    requires s.offset + s.filesz <= |file|
    ensures CopyAt(s, p) + |r| <= PAGE_SIZE
  {
    var room := PAGE_SIZE - CopyAt(s, p);
    var src := if p == 0 then s.offset else s.offset + p * PAGE_SIZE - s.vaddr % PAGE_SIZE;
    if src < s.offset + s.filesz then
      var left := s.offset + s.filesz - src;
      file[src..src + if left > room then room else left]
    else []
  }

  /** The copied bytes are the segment's file bytes on the page, and no others. */
  lemma CopiedIs(file: seq<Byte>, s: Segment, p: nat, o: nat)
    requires s.load && s.offset + s.filesz <= |file| && p < PageCount(s) && o < PAGE_SIZE
    ensures var a := (FirstPage(s) + p) * PAGE_SIZE + o;
      var c := Copied(file, s, p);
      (CopyAt(s, p) <= o < CopyAt(s, p) + |c| <==> FromFile(s, a)) &&
      (FromFile(s, a) ==> c[o - CopyAt(s, p)] == Wanted(file, s, a))
  {
    var a := (FirstPage(s) + p) * PAGE_SIZE + o;
    assert a / PAGE_SIZE == FirstPage(s) + p;
    assert s.vaddr == FirstPage(s) * PAGE_SIZE + s.vaddr % PAGE_SIZE;
  }

  lemma SplicedAt(dst: seq<Byte>, at: nat, src: seq<Byte>, o: nat)
    requires at + |src| <= |dst| && o < |dst|
    ensures |Spliced(dst, at, src)| == |dst|
    ensures Spliced(dst, at, src)[o] == if at <= o < at + |src| then src[o - at] else dst[o]
  {
  }

  // ----- the memory under construction

  /** The number of segments a page has had its share of, when page `p` of segment `i` is next. */
  function Count(segs: seq<Segment>, i: nat, p: nat, page: nat): nat
    requires i < |segs|
  {
    if page < FirstPage(segs[i]) + p then i + 1 else i
  }

  function LoadedByte(shared: bool, elf: Elf, n: nat, a: nat): Byte
    requires n <= |elf.segs|
  {
    if shared then SharedByte(elf.file, elf.segs, n, a) else FreshByte(elf.file, elf.segs, n, a)
  }

  function LoadedWritable(shared: bool, elf: Elf, n: nat, page: nat): bool
    requires n <= |elf.segs|
  {
    if shared then SharedWritable(elf.segs, n, page) else FreshWritable(elf.segs, n, page)
  }

  /** The page as it should be after the first `n` segments: mapped only if one of them lies on it. */
  ghost predicate PageOk(shared: bool, pages: map<nat, Page>, bytes: map<nat, seq<Byte>>, elf: Elf, n: nat, page: nat)
    requires n <= |elf.segs|
  {
    && (page in pages <==> Touched(elf.segs, n, page))
    && (page in pages ==>
          && pages[page].writable == LoadedWritable(shared, elf, n, page)
          && pages[page].frame in bytes && |bytes[pages[page].frame]| == PAGE_SIZE
          && forall o: nat :: o < PAGE_SIZE ==>
             bytes[pages[page].frame][o] == LoadedByte(shared, elf, n, page * PAGE_SIZE + o))
  }

  /** Pages have frames of their own, which are in use. */
  ghost predicate FramesOk(pages: map<nat, Page>, pmm: Frames.Frames) {
    && Frames.Valid(pmm)
    && (forall v :: v in pages ==> pages[v].frame !in pmm.free)
    && (forall u, v :: u in pages && v in pages && pages[u].frame == pages[v].frame ==> u == v)
  }

  /** Loading has used free frames only: all others, and those still free, keep their bytes and reference counts. */
  ghost predicate OnlyFree(pages: map<nat, Page>, bytes0: map<nat, seq<Byte>>, pmm0: Frames.Frames,
                           bytes: map<nat, seq<Byte>>, pmm: Frames.Frames) {
    && pmm.free <= pmm0.free && pmm.refs.Keys == pmm0.refs.Keys
    && (forall f :: f in pmm.free || f !in pmm0.free ==>
          && (f in bytes <==> f in bytes0) && (f in bytes ==> bytes[f] == bytes0[f])
          && (f in pmm.refs ==> pmm.refs[f] == pmm0.refs[f]))
    && (forall v :: v in pages ==>
         pages[v].frame in pmm0.free && pages[v].frame in pmm.refs && pmm.refs[pages[v].frame] == 1)
  }

  /** All pages, when page `p` of segment `i` is next. */
  ghost predicate AllOk(shared: bool, pages: map<nat, Page>, bytes: map<nat, seq<Byte>>, elf: Elf, i: nat, p: nat)
    requires i < |elf.segs|
  {
    forall page: nat :: PageNext(shared, pages, bytes, elf, i, p, page)
  }

  ghost predicate PageNext(shared: bool, pages: map<nat, Page>, bytes: map<nat, seq<Byte>>, elf: Elf, i: nat, p: nat,
                           page: nat)
    requires i < |elf.segs|
  {
    PageOk(shared, pages, bytes, elf, Count(elf.segs, i, p, page), page)
  }

  ghost predicate Loaded(shared: bool, pages: map<nat, Page>, bytes: map<nat, seq<Byte>>, elf: Elf, n: nat)
    requires n <= |elf.segs|
  {
    forall page: nat :: PageOk(shared, pages, bytes, elf, n, page)
  }

  // ----- steps of the loops

  lemma {:induction false} Untouched(file: seq<Byte>, segs: seq<Segment>, n: nat, page: nat, a: nat)
    requires n <= |segs| && !Touched(segs, n, page) && a / PAGE_SIZE == page
    ensures SharedByte(file, segs, n, a) == FreshByte(file, segs, n, a) == 0 && !SharedWritable(segs, n, page) &&
      !FreshWritable(segs, n, page)
  {
    if n > 0 {
      Untouched(file, segs, n - 1, page, a);
    }
  }

  lemma SkipPage(shared: bool, pages: map<nat, Page>, bytes: map<nat, seq<Byte>>, elf: Elf, i: nat, page: nat)
    requires i < |elf.segs| && !Touches(elf.segs[i], page)
    ensures PageOk(shared, pages, bytes, elf, i, page) <==> PageOk(shared, pages, bytes, elf, i + 1, page)
  {
    forall a: nat | a / PAGE_SIZE == page
      ensures LoadedByte(shared, elf, i + 1, a) == LoadedByte(shared, elf, i, a)
    {
    }
    hide Touches, Wanted, LoadedByte;
  }

  lemma Begin(shared: bool, pages: map<nat, Page>, bytes: map<nat, seq<Byte>>, elf: Elf, i: nat)
    requires i < |elf.segs| && Loaded(shared, pages, bytes, elf, i)
    ensures AllOk(shared, pages, bytes, elf, i, 0)
  {
    hide PageOk;
    forall page: nat
      ensures PageNext(shared, pages, bytes, elf, i, 0, page)
    {
      assert PageOk(shared, pages, bytes, elf, i, page);
      if page < FirstPage(elf.segs[i]) {
        SkipPage(shared, pages, bytes, elf, i, page);
      }
    }
  }

  lemma Finish(shared: bool, pages: map<nat, Page>, bytes: map<nat, seq<Byte>>, elf: Elf, i: nat, p: nat)
    requires i < |elf.segs| && AllOk(shared, pages, bytes, elf, i, p) &&
      (elf.segs[i].load ==> p == PageCount(elf.segs[i]))
    ensures Loaded(shared, pages, bytes, elf, i + 1)
  {
    hide PageOk;
    var n := i + 1;
    forall page: nat
      ensures PageOk(shared, pages, bytes, elf, n, page)
    {
      assert PageNext(shared, pages, bytes, elf, i, p, page);
      if Count(elf.segs, i, p, page) == i {
        SkipPage(shared, pages, bytes, elf, i, page);
      }
    }
  }

  /** One page done: it is as it should be, and the others are untouched. */
  lemma Advance(shared: bool, pages: map<nat, Page>, bytes: map<nat, seq<Byte>>, pages': map<nat, Page>,
                bytes': map<nat, seq<Byte>>, elf: Elf, i: nat, p: nat)
    requires i < |elf.segs| && AllOk(shared, pages, bytes, elf, i, p)
    requires var page := FirstPage(elf.segs[i]) + p;
      PageOk(shared, pages', bytes', elf, i + 1, page) &&
      (forall v: nat :: v != page ==> (v in pages' <==> v in pages)) && (forall v: nat :: v != page && v in pages ==>
         pages'[v] == pages[v] && (pages[v].frame in bytes ==>
                                   pages[v].frame in bytes' && bytes'[pages[v].frame] == bytes[pages[v].frame]))
    ensures AllOk(shared, pages', bytes', elf, i, p + 1)
  {
    hide LoadedByte, LoadedWritable, Touched;
    var q := p + 1;
    forall v: nat
      ensures PageNext(shared, pages', bytes', elf, i, q, v)
    {
      assert PageNext(shared, pages, bytes, elf, i, p, v);
    }
  }

  /** One byte of a new frame, zeroed and filled. */
  lemma NewByte(shared: bool, elf: Elf, i: nat, p: nat, o: nat)
    requires i < |elf.segs| && elf.segs[i].load && FileOk(elf.file, elf.segs) && p < PageCount(elf.segs[i]) &&
      o < PAGE_SIZE
    requires shared ==> !Touched(elf.segs, i, FirstPage(elf.segs[i]) + p)
    ensures var s := elf.segs[i];
      var c := Spliced(Blank, CopyAt(s, p), Copied(elf.file, s, p));
      |c| == PAGE_SIZE && c[o] == LoadedByte(shared, elf, i + 1, (FirstPage(s) + p) * PAGE_SIZE + o)
    ensures LoadedWritable(shared, elf, i + 1, FirstPage(elf.segs[i]) + p) == elf.segs[i].writable
    ensures Touched(elf.segs, i + 1, FirstPage(elf.segs[i]) + p)
  {
    hide Copied, Spliced, CopyAt, FromFile, Wanted;
    var s := elf.segs[i];
    var a := (FirstPage(s) + p) * PAGE_SIZE + o;
    SplicedAt(Blank, CopyAt(s, p), Copied(elf.file, s, p), o);
    CopiedIs(elf.file, s, p, o);
    NotFrom(elf.file, s, a);
    assert a / PAGE_SIZE == FirstPage(s) + p;
    if shared {
      Untouched(elf.file, elf.segs, i, FirstPage(s) + p, a);
    }
    hide FirstPage, PageCount;
  }

  lemma NewPage(shared: bool, pages: map<nat, Page>, bytes: map<nat, seq<Byte>>, elf: Elf, i: nat, p: nat, f: nat)
    requires i < |elf.segs| && elf.segs[i].load && FileOk(elf.file, elf.segs) && p < PageCount(elf.segs[i])
    requires shared ==> !Touched(elf.segs, i, FirstPage(elf.segs[i]) + p)
    ensures var s := elf.segs[i];
      PageOk(shared, pages[FirstPage(s) + p := Page(f, s.writable)],
             bytes[f := Spliced(Blank, CopyAt(s, p), Copied(elf.file, s, p))],
             elf, i + 1, FirstPage(s) + p)
  {
    hide Copied, Spliced, CopyAt, LoadedByte, LoadedWritable, Touched, FirstPage, PageCount;
    var s := elf.segs[i];
    var c := Spliced(Blank, CopyAt(s, p), Copied(elf.file, s, p));
    NewByte(shared, elf, i, p, 0);
    forall o: nat | o < PAGE_SIZE
      ensures c[o] == LoadedByte(shared, elf, i + 1, (FirstPage(s) + p) * PAGE_SIZE + o)
    {
      NewByte(shared, elf, i, p, o);
    }
  }

  lemma NotFrom(file: seq<Byte>, s: Segment, a: nat)
    ensures !FromFile(s, a) ==> Wanted(file, s, a) == 0
  {
  }

  /** One byte of a page that an earlier segment has brought, copied over. */
  lemma OldByte(old_: seq<Byte>, elf: Elf, i: nat, p: nat, o: nat)
    requires i < |elf.segs| && elf.segs[i].load && FileOk(elf.file, elf.segs) && p < PageCount(elf.segs[i]) &&
      o < PAGE_SIZE == |old_|
    requires var a := (FirstPage(elf.segs[i]) + p) * PAGE_SIZE + o; old_[o] == SharedByte(elf.file, elf.segs, i, a)
    ensures var s := elf.segs[i];
      var c := Spliced(old_, CopyAt(s, p), Copied(elf.file, s, p));
      |c| == PAGE_SIZE && c[o] == SharedByte(elf.file, elf.segs, i + 1, (FirstPage(s) + p) * PAGE_SIZE + o)
  {
    hide Copied, Spliced, CopyAt, FromFile, Wanted;
    var s := elf.segs[i];
    SplicedAt(old_, CopyAt(s, p), Copied(elf.file, s, p), o);
    CopiedIs(elf.file, s, p, o);
    hide FirstPage, PageCount;
  }

  lemma OldWritable(segs: seq<Segment>, i: nat, page: nat)
    requires i < |segs| && Touches(segs[i], page)
    ensures Touched(segs, i + 1, page) &&
      SharedWritable(segs, i + 1, page) == (SharedWritable(segs, i, page) || segs[i].writable)
  {
  }

  /** Copying into a page that an earlier segment has brought. */
  lemma OldPage(pages: map<nat, Page>, bytes: map<nat, seq<Byte>>, elf: Elf, i: nat, p: nat)
    requires i < |elf.segs| && elf.segs[i].load && FileOk(elf.file, elf.segs) && p < PageCount(elf.segs[i])
    requires var page := FirstPage(elf.segs[i]) + p; page in pages && PageOk(true, pages, bytes, elf, i, page)
    ensures var s := elf.segs[i];
      var page := FirstPage(s) + p;
      var f := pages[page].frame;
      f in bytes && |bytes[f]| == PAGE_SIZE &&
      PageOk(true, pages[page := Page(f, pages[page].writable || s.writable)],
             bytes[f := Spliced(bytes[f], CopyAt(s, p), Copied(elf.file, s, p))],
             elf, i + 1, page)
  {
    hide Copied, Spliced, CopyAt, SharedByte, SharedWritable, Touched, FirstPage, PageCount;
    var s := elf.segs[i];
    var page := FirstPage(s) + p;
    var b := bytes[pages[page].frame];
    var c := Spliced(b, CopyAt(s, p), Copied(elf.file, s, p));
    OldWritable(elf.segs, i, page);
    OldByte(b, elf, i, p, 0);
    forall o: nat | o < PAGE_SIZE
      ensures c[o] == SharedByte(elf.file, elf.segs, i + 1, page * PAGE_SIZE + o)
    {
      OldByte(b, elf, i, p, o);
    }
  }

  function Needed(segs: seq<Segment>, i: nat): nat
    requires i <= |segs|
    decreases |segs| - i
  {
    if i == |segs| then 0 else (if segs[i].load then PageCount(segs[i]) else 0) + Needed(segs, i + 1)
  }

  lemma TakeOk(pages: map<nat, Page>, pmm: Frames.Frames, page: nat, writable: bool)
    requires FramesOk(pages, pmm) && pmm.free != []
    ensures var f := Frames.Top(pmm);
      FramesOk(pages[page := Page(f, writable)], Frames.Take(pmm)) && (forall v :: v in pages ==> pages[v].frame != f)
  {
    Frames.TakeValid(pmm);
    assert Frames.Top(pmm) in pmm.free;
    hide Frames.Valid;
  }

  lemma TakeFacts(pmm: Frames.Frames)
    requires Frames.Valid(pmm) && pmm.free != []
    ensures var f, q := Frames.Top(pmm), Frames.Take(pmm);
      && f in pmm.free && f in q.refs && q.refs[f] == 1 && q.refs.Keys == pmm.refs.Keys
      && q.free <= pmm.free && (forall g :: g in q.free ==> g in pmm.free && g != f)
      && (forall g :: g in q.refs && g != f ==> q.refs[g] == pmm.refs[g])
  {
    Frames.TakeValid(pmm);
  }

  lemma TakeOnly(pages: map<nat, Page>, bytes0: map<nat, seq<Byte>>, pmm0: Frames.Frames, bytes: map<nat, seq<Byte>>,
                 pmm: Frames.Frames,
                 page: nat, writable: bool, c: seq<Byte>)
    requires FramesOk(pages, pmm) && OnlyFree(pages, bytes0, pmm0, bytes, pmm) && pmm.free != []
    ensures var f := Frames.Top(pmm); OnlyFree(pages[page := Page(f, writable)], bytes0, pmm0, bytes[f := c],
                                               Frames.Take(pmm))
  {
    hide Frames.Valid, Frames.Take, Frames.Top;
    TakeFacts(pmm);
    assert pmm.free <= pmm0.free;
    assert forall f :: f in pmm.free ==> f in pmm0.free;
  }

  lemma WriteOnly(pages: map<nat, Page>, bytes0: map<nat, seq<Byte>>, pmm0: Frames.Frames, bytes: map<nat, seq<Byte>>,
                  pmm: Frames.Frames,
                  page: nat, writable: bool, c: seq<Byte>)
    requires FramesOk(pages, pmm) && OnlyFree(pages, bytes0, pmm0, bytes, pmm) && page in pages
    ensures var f := pages[page].frame; OnlyFree(pages[page := Page(f, writable)], bytes0, pmm0, bytes[f := c], pmm)
  {
    hide Frames.Valid;
  }

  /** Page `p` of segment `i` brought in on a new frame. */
  lemma NewShared(pages: map<nat, Page>, bytes0: map<nat, seq<Byte>>, pmm0: Frames.Frames, bytes: map<nat, seq<Byte>>,
                  pmm: Frames.Frames,
                  elf: Elf, i: nat, p: nat)
    requires FileOk(elf.file, elf.segs) && i < |elf.segs| && elf.segs[i].load && p < PageCount(elf.segs[i]) &&
      pmm.free != []
    requires AllOk(true, pages, bytes, elf, i, p) && FramesOk(pages, pmm) && OnlyFree(pages, bytes0, pmm0, bytes, pmm)
    requires FirstPage(elf.segs[i]) + p !in pages
    ensures var s := elf.segs[i];
      var f := Frames.Top(pmm);
      var pages', bytes' := pages[FirstPage(s) + p := Page(f, s.writable)],
        bytes[f := Spliced(Blank, CopyAt(s, p), Copied(elf.file, s, p))];
      AllOk(true, pages', bytes', elf, i, p + 1) && FramesOk(pages', Frames.Take(pmm)) &&
      OnlyFree(pages', bytes0, pmm0, bytes', Frames.Take(pmm))
  {
    hide AllOk, FramesOk, OnlyFree, Copied, Spliced, PageCount, FirstPage, CopyAt, PageOk;
    var s := elf.segs[i];
    var f := Frames.Top(pmm);
    var page, c := FirstPage(s) + p, Spliced(Blank, CopyAt(s, p), Copied(elf.file, s, p));
    PageNow(true, pages, bytes, elf, i, p);
    TakeOk(pages, pmm, page, s.writable);
    NewPage(true, pages, bytes, elf, i, p, f);
    TakeOnly(pages, bytes0, pmm0, bytes, pmm, page, s.writable, c);
    Advance(true, pages, bytes, pages[page := Page(f, s.writable)], bytes[f := c], elf, i, p);
  }

  /** Page `p` of segment `i` put on the frame an earlier segment brought. */
  lemma OldShared(pages: map<nat, Page>, bytes0: map<nat, seq<Byte>>, pmm0: Frames.Frames, bytes: map<nat, seq<Byte>>,
                  pmm: Frames.Frames,
                  elf: Elf, i: nat, p: nat)
    requires FileOk(elf.file, elf.segs) && i < |elf.segs| && elf.segs[i].load && p < PageCount(elf.segs[i])
    requires AllOk(true, pages, bytes, elf, i, p) && FramesOk(pages, pmm) && OnlyFree(pages, bytes0, pmm0, bytes, pmm)
    requires FirstPage(elf.segs[i]) + p in pages
    ensures var s := elf.segs[i];
      var page := FirstPage(s) + p;
      var f, writable := pages[page].frame, pages[page].writable || s.writable;
      && f in bytes && |bytes[f]| == PAGE_SIZE
      && var pages', bytes' := pages[page := Page(f, writable)],
         bytes[f := Spliced(bytes[f], CopyAt(s, p), Copied(elf.file, s, p))];
         AllOk(true, pages', bytes', elf, i, p + 1) && FramesOk(pages', pmm) &&
         OnlyFree(pages', bytes0, pmm0, bytes', pmm)
  {
    hide AllOk, FramesOk, OnlyFree, Copied, Spliced, PageCount, FirstPage, CopyAt, PageOk;
    var s := elf.segs[i];
    var page := FirstPage(s) + p;
    var f, writable := pages[page].frame, pages[page].writable || s.writable;
    PageNow(true, pages, bytes, elf, i, p);
    OldPage(pages, bytes, elf, i, p);
    var c := Spliced(bytes[f], CopyAt(s, p), Copied(elf.file, s, p));
    WriteOk(pages, pmm, page, writable);
    WriteOnly(pages, bytes0, pmm0, bytes, pmm, page, writable, c);
    Advance(true, pages, bytes, pages[page := Page(f, writable)], bytes[f := c], elf, i, p);
  }

  lemma NoneYet(shared: bool, bytes: map<nat, seq<Byte>>, elf: Elf)
    ensures Loaded(shared, map[], bytes, elf, 0)
  {
  }

  // ----- the pages in the tables

  const PAGES: nat := SPACE_SIZE / PAGE_SIZE

  function UserFlags(writable: bool): Flags {
    Flags(true, writable, true, false, false, 0)
  }

  /** All addresses of the segments' pages have 48 bits. */
  ghost predicate Fits(segs: seq<Segment>) {
    forall i :: 0 <= i < |segs| && segs[i].load ==> FirstPage(segs[i]) + PageCount(segs[i]) <= PAGES
  }

  lemma {:induction false} TouchedFits(segs: seq<Segment>, n: nat, page: nat)
    requires Fits(segs) && n <= |segs| && Touched(segs, n, page)
    ensures page < PAGES
  {
    if !Touches(segs[n - 1], page) {
      TouchedFits(segs, n - 1, page);
    }
  }

  /** What a space that is about to be created will have at the page: only the kernel slot is there already. */
  ghost function Before(t: Tree, page: nat): Leaf
    requires Ok(t)
  {
    if PageWithNo(page).i == 0 then Walk(t, t.kernel, PageWithNo(page)) else Absent
  }

  lemma BeforeRoot(t: Tree, f: nat, page: nat)
    requires Ok(t) && Spare(t, f)
    ensures Walk(t, f, PageWithNo(page)) == Before(t, page)
  {
    var va := PageWithNo(page);
    AddRootOk(t, f);
    AddRootWalk(t, f, f, va);
    if va.i == 0 {
      SeenAlike(t, f, t.kernel, va);
    }
  }

  /** No page of the segments lies under a 2 MiB entry of the kernel slot, except one for physical 0. */
  ghost predicate NoneHuge(t: Tree, segs: seq<Segment>)
    requires Ok(t)
  {
    forall page: nat :: Touched(segs, |segs|, page) ==> !FullLarge(Before(t, page))
  }

  /** No page of the segments is mapped in the kernel slot. */
  ghost predicate NoneThere(t: Tree, segs: seq<Segment>)
    requires Ok(t)
  {
    forall page: nat :: Touched(segs, |segs|, page) ==> Before(t, page).Absent?
  }

  /** One of the pages lies in the chunk of `page`. */
  ghost predicate InChunk(pages: set<nat>, page: nat) {
    exists v :: v in pages && v / 512 == page / 512
  }

  /** The tables map exactly `pages` for the space, as user pages, and are otherwise those of `t0`; but what else lay
      under a 2 MiB entry for physical 0 over one of them is gone. */
  ghost predicate Linked(t0: Tree, t: Tree, root: nat, pages: map<nat, Page>)
    requires Ok(t0) && Ok(t)
  {
    forall r', vb :: ValidVa(vb) ==>
      Walk(t, r', vb) == if Sees(root, r', vb) then LinkedTo(Walk(t0, r', vb), pages, PageNo(vb)) else Walk(t0, r', vb)
  }

  ghost function LinkedTo(w: Leaf, pages: map<nat, Page>, page: nat): Leaf {
    if page in pages then Small(Entry(pages[page].frame, UserFlags(pages[page].writable)))
    else if NullLarge(w) && InChunk(pages.Keys, page) then Absent
    else w
  }

  lemma LinkedNone(t0: Tree, t: Tree, root: nat)
    requires Ok(t0) && Ok(t) && SameWalks(t0, t)
    ensures Linked(t0, t, root, map[])
  {
    hide Ok, Walk;
  }

  /** What mapping a page does to the tables: under a 2 MiB entry for physical 0 it also clears the rest of the
      chunk. */
  ghost predicate Enters(t: Tree, t': Tree, r: nat, va: Va, e: Entry)
    requires Ok(t) && Ok(t') && ValidVa(va)
  {
    if NullLarge(Walk(t, r, va)) then MapsOver(t, t', r, va, e) else !Walk(t, r, va).Large? && MapsTo(t, t', r, va, e)
  }

  lemma LinkedMore(t0: Tree, t: Tree, t': Tree, root: nat, pages: map<nat, Page>, page: nat, f: nat, writable: bool)
    requires Ok(t0) && Ok(t) && Ok(t') && Linked(t0, t, root, pages) && page < PAGES
    requires Enters(t, t', root, PageWithNo(page), Entry(f, UserFlags(writable)))
    ensures Linked(t0, t', root, pages[page := Page(f, writable)])
  {
    hide Ok, Walk, PageNo, PageWithNo, LinkedTo, InChunk, Enters;
    var pages' := pages[page := Page(f, writable)];
    forall r', vb | ValidVa(vb)
      ensures Walk(t', r', vb) ==
        if Sees(root, r', vb) then LinkedTo(Walk(t0, r', vb), pages', PageNo(vb)) else Walk(t0, r', vb)
    {
      LinkedMoreAt(t0, t, t', root, pages, page, f, writable, r', vb);
    }
  }

  lemma LinkedMoreAt(t0: Tree, t: Tree, t': Tree, root: nat, pages: map<nat, Page>, page: nat, f: nat, writable: bool,
                     r': nat, vb: Va)
    requires Ok(t0) && Ok(t) && Ok(t') && Linked(t0, t, root, pages) && page < PAGES && ValidVa(vb)
    requires Enters(t, t', root, PageWithNo(page), Entry(f, UserFlags(writable)))
    ensures Walk(t', r', vb) == if Sees(root, r', vb)
      then LinkedTo(Walk(t0, r', vb), pages[page := Page(f, writable)], PageNo(vb)) else Walk(t0, r', vb)
  {
    hide Ok, Walk, PageNo, PageWithNo;
    var va := PageWithNo(page);
    PageWithNoIs(page);
    PageUnique(vb, va);
    CoversIs(root, va, r', vb);
    if Sees(root, r', vb) && PageNo(vb) / 512 == page / 512 {
      SameChunk(t, root, va, vb);
      SeenAlike(t, root, r', vb);
    }
    MoreChunk(pages, page, Page(f, writable), PageNo(vb));
    hide InChunk;
  }

  lemma CoversIs(r: nat, va: Va, r': nat, vb: Va)
    requires ValidVa(va) && ValidVa(vb)
    ensures Covers(r, va, false, r', vb) <==> Sees(r, r', vb) && PageNo(vb) == PageNo(va)
    ensures Covers(r, va, true, r', vb) <==> Sees(r, r', vb) && PageNo(vb) / 512 == PageNo(va) / 512
  {
    PageUnique(va, vb);
    hide PageNo;
  }

  lemma MoreChunk(pages: map<nat, Page>, page: nat, p: Page, q: nat)
    ensures InChunk(pages[page := p].Keys, q) <==> InChunk(pages.Keys, q) || q / 512 == page / 512
  {
    assert page in pages[page := p].Keys;
    if v :| v in pages.Keys && v / 512 == q / 512 {
      assert v in pages[page := p].Keys;
    }
  }

  lemma LinkedAt(t0: Tree, t: Tree, root: nat, pages: map<nat, Page>, page: nat)
    requires Ok(t0) && Ok(t) && Linked(t0, t, root, pages) && page < PAGES
    ensures Walk(t, root, PageWithNo(page)) == LinkedTo(Walk(t0, root, PageWithNo(page)), pages, page)
  {
    PageWithNoIs(page);
    hide Ok, Walk, PageNo, PageWithNo, LinkedTo;
    assert Sees(root, root, PageWithNo(page));
  }

  /** The tables, the bytes of the frames and the allocator, at one moment. */
  datatype Mem = Mem(t: Tree, bytes: map<nat, seq<Byte>>, pmm: Frames.Frames)

  ghost function Now(vm: Vmm): Mem
    reads vm
  {
    Mem(vm.T(), vm.bytes, vm.pmm)
  }

  // ----- a program loaded right

  /** Every entry above the last level lets user code through (section 4.6.1 of the Intel SDM, Volume 3A). */
  ghost predicate UserAbove(t: Tree, r: nat, va: Va) {
    ValidVa(va) &&
    var o := Owner(r, va.i);
    UserAt(t, P4(r), va.i) && UserAt(t, P3(o, va.i), va.j) && UserAt(t, P2(o, va.i, va.j), va.k)
  }

  ghost predicate UserAt(t: Tree, p: Pos, n: nat) {
    Has(t, p) && n < ENTRIES && At(t, p, n).flags.user
  }

  /** What of that a space about to be created inherits: of the entries on the way to the page in the kernel slot, those
      that lead on let user code through. */
  ghost predicate UserBefore(t: Tree, page: nat) {
    var va := PageWithNo(page);
    va.i == 0 ==>
      && UserAt(t, P4(t.kernel), 0)
      && (P2(KERNEL, 0, va.j) in t.tab ==> UserAt(t, P3(KERNEL, 0), va.j))
      && (P1(KERNEL, 0, va.j, va.k) in t.tab ==> UserAt(t, P2(KERNEL, 0, va.j), va.k))
  }

  ghost predicate AllUser(t: Tree, segs: seq<Segment>) {
    forall page: nat :: Touched(segs, |segs|, page) ==> UserBefore(t, page)
  }

  /** Since the space was created, entries that led to tables have not changed. */
  ghost predicate LinksSince(t0: Tree, t: Tree, root: nat) {
    Has(t0, P4(t0.kernel)) && AddRoot(t0, root).tab.Keys <= t.tab.Keys && LinksKept(AddRoot(t0, root), t)
  }

  lemma LinksMore(t0: Tree, t: Tree, t': Tree, root: nat)
    requires LinksSince(t0, t, root) && LinksKept(t, t') && t.tab.Keys <= t'.tab.Keys
    ensures LinksSince(t0, t', root)
  {
    LinksOn(AddRoot(t0, root), t, t');
    hide LinksKept, AddRoot;
  }

  lemma LinksBegin(t0: Tree, root: nat)
    requires Ok(t0) && Has(t0, P4(t0.kernel)) && Ok(AddRoot(t0, root))
    ensures LinksSince(t0, AddRoot(t0, root), root)
  {
    LinksSame(AddRoot(t0, root));
    hide Ok, AddRoot, LinksKept;
  }

  /** The entry of a table that was there. */
  lemma RootAt(t0: Tree, root: nat, p: Pos, n: nat)
    requires Ok(t0) && Spare(t0, root) && Has(t0, P4(t0.kernel)) && p in t0.tab && n < ENTRIES
    ensures Has(t0, p) && Has(AddRoot(t0, root), p) && At(AddRoot(t0, root), p, n) == At(t0, p, n)
    ensures Has(AddRoot(t0, root), P4(root)) && At(AddRoot(t0, root), P4(root), 0) == At(t0, P4(t0.kernel), 0)
  {
    hide LinksOk, OnePlace, PlaceOk;
  }

  /** One entry on the way to a page of the new space. */
  lemma UserStep(t0: Tree, t: Tree, root: nat, p: Pos, n: nat)
    requires Ok(t0) && Spare(t0, root) && LinksSince(t0, t, root)
    requires !p.P1? && n < ENTRIES && p in t.tab && Child(p, n) in t.tab
    ensures UserAt(t, p, n) <==>
      if p == P4(root) && n == 0 then UserAt(t0, P4(t0.kernel), 0)
      else p in t0.tab && Child(p, n) in t0.tab ==> UserAt(t0, p, n)
  {
    var a := AddRoot(t0, root);
    assert LinkKept(a, t, p, n);
    KernelChild(t0);
    if p in t0.tab {
      RootAt(t0, root, p, n);
    } else {
      RootAt(t0, root, P4(t0.kernel), n);
    }
    assert Child(p, n) in a.tab <==> Child(p, n) in t0.tab;
    if p == P4(root) && n != 0 {
      NoChild(t0, root, n);
    }
    hide Ok, LinksKept, AddRoot, Has;
  }

  lemma KernelChild(t: Tree)
    requires Ok(t)
    ensures P4(t.kernel) in t.tab && P3(KERNEL, 0) in t.tab
  {
  }

  lemma NoChild(t: Tree, root: nat, n: nat)
    requires Ok(t) && Spare(t, root)
    ensures P4(root) !in t.tab && P3(root, n) !in t.tab
  {
  }

  /** Above a page of the new space user code gets through exactly if it does above what the space inherited. */
  lemma UserIff(t0: Tree, t: Tree, root: nat, page: nat)
    requires Ok(t0) && Ok(t) && Spare(t0, root) && LinksSince(t0, t, root) && Walk(t, root, PageWithNo(page)).Small?
    ensures UserAbove(t, root, PageWithNo(page)) <==> UserBefore(t0, page)
  {
    var va := PageWithNo(page);
    var o := Owner(root, va.i);
    WalkPath(t, root, va);
    UserStep(t0, t, root, P4(root), va.i);
    UserStep(t0, t, root, P3(o, va.i), va.j);
    UserStep(t0, t, root, P2(o, va.i, va.j), va.k);
    KernelChild(t0);
    if va.i == 0 {
      PathThere(t0, va);
    } else {
      NothingOwned(t0, root, va);
    }
    hide Ok, Walk, Spare, LinksSince, PageWithNo, UserAt;
  }

  /** The tables on the way to a mapped page. */
  lemma WalkPath(t: Tree, r: nat, va: Va)
    requires Ok(t) && ValidVa(va) && Walk(t, r, va).Small? && P4(r) in t.tab
    ensures var o := Owner(r, va.i);
      P3(o, va.i) in t.tab && P2(o, va.i, va.j) in t.tab && P1(o, va.i, va.j, va.k) in t.tab
  {
    DirectoryPath(t, Owner(r, va.i), va.i, va.j);
  }

  lemma PathThere(t: Tree, va: Va)
    requires Ok(t)
    ensures P1(KERNEL, 0, va.j, va.k) in t.tab ==> P2(KERNEL, 0, va.j) in t.tab
  {
    assert P1(KERNEL, 0, va.j, va.k) in t.tab ==> PlaceOk(t, P1(KERNEL, 0, va.j, va.k));
  }

  lemma NothingOwned(t: Tree, root: nat, va: Va)
    requires Ok(t) && Spare(t, root) && va.i > 0
    ensures P4(root) !in t.tab && P3(root, va.i) !in t.tab && P2(root, va.i, va.j) !in t.tab
  {
    hide Ok;
  }

  /** The page is on a frame of its own, which was free, with the bytes and the permission it should have. */
  ghost predicate PagePlaced(shared: bool, m: Mem, root: nat, pmm0: Frames.Frames, elf: Elf, page: nat)
    requires Ok(m.t)
  {
    var w := Walk(m.t, root, PageWithNo(page));
    && w.Small? && w.e.flags == UserFlags(LoadedWritable(shared, elf, |elf.segs|, page))
    && w.e.frame in pmm0.free && w.e.frame !in m.pmm.free && w.e.frame in m.bytes && |m.bytes[w.e.frame]| == PAGE_SIZE
    && forall o: nat :: o < PAGE_SIZE ==>
       m.bytes[w.e.frame][o] == LoadedByte(shared, elf, |elf.segs|, page * PAGE_SIZE + o)
  }

  /** All pages are, on different frames. */
  ghost predicate Placed(shared: bool, m: Mem, root: nat, pmm0: Frames.Frames, elf: Elf)
    requires Ok(m.t)
  {
    && (forall page: nat :: Touched(elf.segs, |elf.segs|, page) ==>
        PagePlaced(shared, m, root, pmm0, elf, page))
    && (forall p: nat, q: nat :: Touched(elf.segs, |elf.segs|, p) && Touched(elf.segs, |elf.segs|, q) && p != q ==>
          Walk(m.t, root, PageWithNo(p)) != Walk(m.t, root, PageWithNo(q)))
  }

  /** And user code gets to them. */
  ghost predicate Right(shared: bool, m: Mem, root: nat, pmm0: Frames.Frames, elf: Elf)
    requires Ok(m.t)
  {
    && Placed(shared, m, root, pmm0, elf)
    && forall page: nat :: Touched(elf.segs, |elf.segs|, page) ==> UserAbove(m.t, root, PageWithNo(page))
  }

  /** The loop's ghost pages are the program's: it is loaded right exactly if user code gets to all of them. */
  lemma LoadedRight(shared: bool, m0: Mem, m: Mem, root: nat, pages: map<nat, Page>, elf: Elf)
    requires Ok(m0.t) && Ok(m.t) && Linked(m0.t, m.t, root, pages) && Loaded(shared, pages, m.bytes, elf, |elf.segs|) &&
      FramesOk(pages, m.pmm)
    requires OnlyFree(pages, m0.bytes, m0.pmm, m.bytes, m.pmm) && Fits(elf.segs) && Spare(m0.t, root) &&
      LinksSince(m0.t, m.t, root)
    ensures Placed(shared, m, root, m0.pmm, elf)
    ensures Right(shared, m, root, m0.pmm, elf) <==> AllUser(m0.t, elf.segs)
  {
    hide Ok, Walk, Linked, LoadedByte, LoadedWritable, Touched, Fits, PageWithNo, Frames.Valid, UserAbove, UserBefore,
         LinksSince, Spare;
    forall page: nat | Touched(elf.segs, |elf.segs|, page)
      ensures page in pages && Walk(m.t, root, PageWithNo(page)) ==
        Small(Entry(pages[page].frame, UserFlags(pages[page].writable)))
      ensures PagePlaced(shared, m, root, m0.pmm, elf, page)
      ensures UserAbove(m.t, root, PageWithNo(page)) <==> UserBefore(m0.t, page)
    {
      TouchedFits(elf.segs, |elf.segs|, page);
      assert PageOk(shared, pages, m.bytes, elf, |elf.segs|, page);
      LinkedAt(m0.t, m.t, root, pages, page);
      UserIff(m0.t, m.t, root, page);
    }
    hide PageOk, PagePlaced;
  }

  // ----- what the loops keep

  /** 2 MiB entries are as they were, except that those for physical 0 may be gone. */
  ghost predicate HugeSame(t0: Tree, t: Tree)
    requires Ok(t0) && Ok(t)
  {
    forall r, va :: ValidVa(va) ==> (Walk(t, r, va).Large? || FullLarge(Walk(t0, r, va)) ==>
                                     Walk(t, r, va) == Walk(t0, r, va))
  }

  lemma HugeStep(t0: Tree, t: Tree, t': Tree, root: nat, va: Va, e: Entry)
    requires Ok(t0) && Ok(t) && Ok(t') && ValidVa(va) && HugeSame(t0, t) && !e.flags.huge
    requires SameWalks(t, t') || Enters(t, t', root, va, e)
    ensures HugeSame(t0, t')
  {
    forall r, vb | ValidVa(vb)
      ensures Walk(t', r, vb).Large? || FullLarge(Walk(t0, r, vb)) ==> Walk(t', r, vb) == Walk(t0, r, vb)
    {
      HugeStepAt(t0, t, t', root, va, e, r, vb);
    }
    hide Ok, Walk;
  }

  lemma HugeStepAt(t0: Tree, t: Tree, t': Tree, root: nat, va: Va, e: Entry, r: nat, vb: Va)
    requires Ok(t0) && Ok(t) && Ok(t') && ValidVa(va) && ValidVa(vb) && HugeSame(t0, t) && !e.flags.huge
    requires SameWalks(t, t') || Enters(t, t', root, va, e)
    ensures Walk(t', r, vb).Large? || FullLarge(Walk(t0, r, vb)) ==> Walk(t', r, vb) == Walk(t0, r, vb)
  {
    CoversIs(root, va, r, vb);
    if Covers(root, va, true, r, vb) {
      SameChunk(t, root, va, vb);
      SeenAlike(t, root, r, vb);
    }
    assert Covers(root, va, false, r, vb) ==> Covers(root, va, true, r, vb);
    hide Ok, Walk, Covers;
  }

  /** The memory under 2 MiB entries over the segments' pages, except those for physical 0, holds no table and will
      hold none. */
  ghost predicate HugeApart(t: Tree, pmm: Frames.Frames, segs: seq<Segment>)
    requires Ok(t)
  {
    forall page: nat :: Touched(segs, |segs|, page) && FullLarge(Before(t, page)) ==>
      NoTable(t, Before(t, page).e.frame) && Before(t, page).e.frame !in pmm.free
  }

  /** The good part: what has been loaded so far. */
  ghost predicate Good(m0: Mem, m: Mem, root: nat, pages: map<nat, Page>)
  {
    Ok(m0.t) && Ok(m.t) && FramesOk(pages, m.pmm) && OnlyFree(pages, m0.bytes, m0.pmm, m.bytes, m.pmm) &&
    Linked(m0.t, m.t, root, pages)
  }

  lemma MoreTaken(pages: map<nat, Page>, bytes0: map<nat, seq<Byte>>, pmm0: Frames.Frames, bytes: map<nat, seq<Byte>>,
                  pmm: Frames.Frames,
                  pmm': Frames.Frames)
    requires FramesOk(pages, pmm) && OnlyFree(pages, bytes0, pmm0, bytes, pmm) && Frames.TakenSince(pmm, pmm') &&
      Frames.Valid(pmm')
    requires Frames.Valid(pmm0)
    ensures FramesOk(pages, pmm') && OnlyFree(pages, bytes0, pmm0, bytes, pmm')
  {
    hide Frames.Valid;
    assert forall f :: f in pmm'.free ==> f in pmm.free;
    assert forall f :: f in pmm.free ==> f in pmm0.free;
  }

  // ----- the loader with a fresh frame per page

  /** What the outer loop keeps. */
  ghost predicate Fresh0(m0: Mem, m: Mem, root: nat, pages: map<nat, Page>, elf: Elf)
  {
    && Ok(m0.t) && Ok(m.t) && Frames.Valid(m0.pmm) && P4(root) in m.t.tab && m.t.kernel == m0.t.kernel
    && HugeSame(m0.t, m.t)
    && ApartKept(m0.t, m.t, m0.pmm, m.pmm)
    && HugeApart(m0.t, m0.pmm, elf.segs) && Spare(m0.t, root) && Fits(elf.segs) && LinksSince(m0.t, m.t, root)
    && (NoneHuge(m0.t, elf.segs) ==> Good(m0, m, root, pages))
  }

  /** The page about to be mapped. */
  lemma NextPlace(elf: Elf, i: nat, p: nat)
    requires Fits(elf.segs) && i < |elf.segs| && elf.segs[i].load && p < PageCount(elf.segs[i])
    ensures var page := FirstPage(elf.segs[i]) + p;
      && page < PAGES && page * PAGE_SIZE < SPACE_SIZE && Touched(elf.segs, |elf.segs|, page)
      && VaOf(page * PAGE_SIZE) == PageWithNo(page) && ValidVa(PageWithNo(page))
  {
    TouchedBy(elf.segs, i, |elf.segs|, FirstPage(elf.segs[i]) + p);
  }

  /** What `vmm_map` asks for, and which of its outcomes it will be. */
  lemma FreshBefore(m0: Mem, m: Mem, root: nat, pages: map<nat, Page>, elf: Elf, page: nat)
    requires Fresh0(m0, m, root, pages, elf) && Touched(elf.segs, |elf.segs|, page) && ValidVa(PageWithNo(page))
    ensures Ok(m.t) && P4(root) in m.t.tab
    ensures FullLarge(Walk(m.t, root, PageWithNo(page))) ==>
      NoTable(m.t, Walk(m.t, root, PageWithNo(page)).e.frame) && !NoneHuge(m0.t, elf.segs)
  {
    BeforeRoot(m0.t, root, page);
    hide Ok, Walk, Touched, PageWithNo, Good, Spare, Before, NoTable, Fits, LinksSince;
    assert Walk(m.t, root, PageWithNo(page)).Large? ==> Walk(m.t, root, PageWithNo(page)) == Before(m0.t, page);
  }

  /** One page mapped: the tables. */
  lemma FreshTables(t0: Tree, t: Tree, t': Tree, root: nat, pmm0: Frames.Frames, pmm: Frames.Frames,
                    pmm': Frames.Frames, page: nat, e: Entry)
    requires Ok(t0) && Ok(t) && Ok(t') && P4(root) in t.tab && HugeSame(t0, t) && ApartKept(t0, t, pmm0, pmm) &&
      ValidVa(PageWithNo(page))
    requires Spent(t, t', pmm, pmm') && WordsKept(t, t') && !e.flags.huge && LinksSince(t0, t, root) && LinksKept(t, t')
    requires SameWalks(t, t') || Enters(t, t', root, PageWithNo(page), e)
    ensures P4(root) in t'.tab && HugeSame(t0, t') && ApartKept(t0, t', pmm0, pmm') && LinksSince(t0, t', root)
  {
    hide Ok, Walk, PageWithNo, ApartKept, WordsKept, SameWalks, Enters, HugeSame, LinksSince, LinksKept;
    assert t.tab.Keys <= t'.tab.Keys;
    LinksMore(t0, t, t', root);
    HugeStep(t0, t, t', root, PageWithNo(page), e);
    ApartStep(t, t', pmm, pmm', P4(root));
    ApartTrans(t0, t, t', pmm0, pmm, pmm');
  }

  lemma TakenApart(t0: Tree, t: Tree, pmm0: Frames.Frames, pmm: Frames.Frames)
    requires ApartKept(t0, t, pmm0, pmm) && Frames.Valid(pmm) && pmm.free != []
    ensures ApartKept(t0, t, pmm0, Frames.Take(pmm))
  {
    Frames.TakenTop(pmm);
    hide Frames.Valid, NoTable;
  }

  /** One page mapped and filled: the good part. */
  lemma FreshGood(m0: Mem, m: Mem, t': Tree, root: nat, pages: map<nat, Page>, pmm': Frames.Frames, page: nat,
                  writable: bool, c: seq<Byte>)
    requires Good(m0, m, root, pages) && m.pmm.free != [] && Ok(t') && page < PAGES
    requires Frames.Valid(m0.pmm) && Frames.Valid(pmm') && Frames.TakenSince(Frames.Take(m.pmm), pmm')
    requires Enters(m.t, t', root, PageWithNo(page), Entry(Frames.Top(m.pmm), UserFlags(writable)))
    ensures var f := Frames.Top(m.pmm);
      Good(m0, Mem(t', m.bytes[f := c], pmm'), root, pages[page := Page(f, writable)])
  {
    hide Ok, Walk, Linked, Enters, FramesOk, OnlyFree, Frames.Valid, Frames.TakenSince, PageWithNo, Frames.Top,
         Frames.Take;
    var f := Frames.Top(m.pmm);
    TakeOk(pages, m.pmm, page, writable);
    TakeOnly(pages, m0.bytes, m0.pmm, m.bytes, m.pmm, page, writable, c);
    MoreTaken(pages[page := Page(f, writable)], m0.bytes, m0.pmm, m.bytes[f := c], Frames.Take(m.pmm), pmm');
    LinkedMore(m0.t, m.t, t', root, pages, page, f, writable);
  }

  /** One page done: the others are untouched. */
  lemma FreshFilled(pages: map<nat, Page>, bytes0: map<nat, seq<Byte>>, pmm0: Frames.Frames, bytes: map<nat, seq<Byte>>,
                    pmm: Frames.Frames,
                    elf: Elf, i: nat, p: nat)
    requires FileOk(elf.file, elf.segs) && i < |elf.segs| && elf.segs[i].load && p < PageCount(elf.segs[i]) &&
      pmm.free != []
    requires AllOk(false, pages, bytes, elf, i, p) && FramesOk(pages, pmm)
    ensures var s := elf.segs[i];
      var f := Frames.Top(pmm);
      AllOk(false, pages[FirstPage(s) + p := Page(f, s.writable)],
            bytes[f := Spliced(Blank, CopyAt(s, p), Copied(elf.file, s, p))], elf, i, p + 1)
  {
    hide AllOk, FramesOk, Copied, Spliced, PageCount, FirstPage, CopyAt, PageOk, Frames.Top;
    var s := elf.segs[i];
    var f := Frames.Top(pmm);
    var page, c := FirstPage(s) + p, Spliced(Blank, CopyAt(s, p), Copied(elf.file, s, p));
    TakeOk(pages, pmm, page, s.writable);
    NewPage(false, pages, bytes, elf, i, p, f);
    Advance(false, pages, bytes, pages[page := Page(f, s.writable)], bytes[f := c], elf, i, p);
  }

  /** How far the inner loop of the first loader has come. */
  ghost predicate FreshSoFar(m0: Mem, m: Mem, root: nat, pages: map<nat, Page>, elf: Elf, i: nat, p: nat)
    requires i < |elf.segs|
  {
    && Fresh0(m0, m, root, pages, elf)
    && (NoneHuge(m0.t, elf.segs) ==> AllOk(false, pages, m.bytes, elf, i, p))
  }

  lemma FreshRound(m0: Mem, m: Mem, t': Tree, root: nat, pages: map<nat, Page>, pmm': Frames.Frames, elf: Elf, i: nat,
                   p: nat)
    requires i < |elf.segs| && FreshSoFar(m0, m, root, pages, elf, i, p) &&
      StateOk(t', pmm') && t'.kernel == m.t.kernel
    requires FileOk(elf.file, elf.segs) && elf.segs[i].load && p < PageCount(elf.segs[i]) && m.pmm.free != [] &&
      Frames.Valid(m.pmm)
    requires Spent(m.t, t', Frames.Take(m.pmm), pmm') && WordsKept(m.t, t') && LinksKept(m.t, t') && Ok(m.t)
    requires var va := PageWithNo(FirstPage(elf.segs[i]) + p);
      var e := Entry(Frames.Top(m.pmm), UserFlags(elf.segs[i].writable));
      && ValidVa(va) && Ok(t')
      && if FullLarge(Walk(m.t, root, va)) then SameWalks(m.t, t') else Enters(m.t, t', root, va, e)
    ensures var s := elf.segs[i];
      var f := Frames.Top(m.pmm);
      FreshSoFar(m0, Mem(t', m.bytes[f := Spliced(Blank, CopyAt(s, p), Copied(elf.file, s, p))], pmm'), root,
                 pages[FirstPage(s) + p := Page(f, s.writable)], elf, i, p + 1)
  {
    hide StateOk, Walk, Good, AllOk, HugeSame, ApartKept, HugeApart, Spare, Fits, WordsKept, Enters, SameWalks,
         PageWithNo, Frames.Valid, LinksSince, LinksKept, FullLarge, Spliced, Copied, CopyAt, Frames.Take, Frames.Top,
         FirstPage, PageCount, Ok, NoneHuge, FramesOk;
    var s := elf.segs[i];
    var f, page := Frames.Top(m.pmm), FirstPage(s) + p;
    NextPlace(elf, i, p);
    StateTree(t', pmm');
    FreshBefore(m0, m, root, pages, elf, page);
    TakenApart(m0.t, m.t, m0.pmm, m.pmm);
    FreshTables(m0.t, m.t, t', root, m0.pmm, Frames.Take(m.pmm), pmm', page, Entry(f, UserFlags(s.writable)));
    if NoneHuge(m0.t, elf.segs) {
      GoodFrames(m0, m, root, pages);
      FreshGood(m0, m, t', root, pages, pmm', page, s.writable, Spliced(Blank, CopyAt(s, p), Copied(elf.file, s, p)));
      FreshFilled(pages, m0.bytes, m0.pmm, m.bytes, m.pmm, elf, i, p);
    }
  }

  lemma GoodFrames(m0: Mem, m: Mem, root: nat, pages: map<nat, Page>)
    requires Good(m0, m, root, pages)
    ensures FramesOk(pages, m.pmm) && OnlyFree(pages, m0.bytes, m0.pmm, m.bytes, m.pmm)
  {
  }

  /** Every page of every space but the program's is as it was; all frames that were in use keep bytes and counts, and
      so do those still free. */
  ghost predicate ElsewhereSame(m0: Mem, m: Mem, root: nat, segs: seq<Segment>)
    requires Ok(m0.t) && Ok(m.t)
  {
    && (forall r', vb :: ValidVa(vb) && !(Sees(root, r', vb) && Touched(segs, |segs|, PageNo(vb))) ==>
        Walk(m.t, r', vb) == Walk(m0.t, r', vb))
    && OnlyFree(map[], m0.bytes, m0.pmm, m.bytes, m.pmm)
  }

  /** The same, except that pages are gone that lay under a 2 MiB entry for physical 0 with a page of the program. */
  ghost predicate ElsewhereWiped(m0: Mem, m: Mem, root: nat, segs: seq<Segment>)
    requires Ok(m0.t) && Ok(m.t)
  {
    && (forall r', vb :: ValidVa(vb) && !(Sees(root, r', vb) && Touched(segs, |segs|, PageNo(vb))) ==>
        Walk(m.t, r', vb) == if Sees(root, r', vb) && NullLarge(Walk(m0.t, r', vb)) && ChunkTouched(segs, PageNo(vb))
          then Absent else Walk(m0.t, r', vb))
    && OnlyFree(map[], m0.bytes, m0.pmm, m.bytes, m.pmm)
  }

  ghost predicate ChunkTouched(segs: seq<Segment>, page: nat) {
    exists v: nat :: Touched(segs, |segs|, v) && v / 512 == page / 512
  }

  lemma GoodElsewhere(shared: bool, m0: Mem, m: Mem, root: nat, pages: map<nat, Page>, elf: Elf)
    requires Good(m0, m, root, pages) && Loaded(shared, pages, m.bytes, elf, |elf.segs|)
    ensures Ok(m0.t) && ElsewhereWiped(m0, m, root, elf.segs)
  {
    hide Ok, Walk, PageNo, FramesOk, Touched, LoadedByte, LoadedWritable;
    forall page: nat
      ensures page in pages <==> Touched(elf.segs, |elf.segs|, page)
    {
      assert PageOk(shared, pages, m.bytes, elf, |elf.segs|, page);
    }
    forall page: nat
      ensures InChunk(pages.Keys, page) <==> ChunkTouched(elf.segs, page)
    {
      if v :| v in pages.Keys && v / 512 == page / 512 {
        assert Touched(elf.segs, |elf.segs|, v);
      }
      if v: nat :| Touched(elf.segs, |elf.segs|, v) && v / 512 == page / 512 {
        assert v in pages.Keys;
      }
    }
    hide PageOk, Loaded, InChunk, ChunkTouched;
  }

  /** Nothing is gone if no page of the program was mapped before. */
  lemma NothingWiped(m0: Mem, m: Mem, root: nat, segs: seq<Segment>)
    requires Ok(m0.t) && Ok(m.t) && ElsewhereWiped(m0, m, root, segs) && NoneThere(m0.t, segs)
    requires Spare(m0.t, root) && Fits(segs)
    ensures ElsewhereSame(m0, m, root, segs)
  {
    hide Ok, Walk, PageNo, Touched, OnlyFree, PageWithNo, Spare, Fits, Before;
    forall r', vb | ValidVa(vb) && Sees(root, r', vb) && ChunkTouched(segs, PageNo(vb))
      ensures !NullLarge(Walk(m0.t, r', vb))
    {
      var v: nat :| Touched(segs, |segs|, v) && v / 512 == PageNo(vb) / 512;
      TouchedFits(segs, |segs|, v);
      PageWithNoIs(v);
      BeforeRoot(m0.t, root, v);
      SameChunk(m0.t, root, PageWithNo(v), vb);
      SeenAlike(m0.t, root, r', vb);
    }
    hide ChunkTouched;
  }

  /** The space just created. */
  lemma Created(t0: Tree, m: Mem, root: nat, pmm0: Frames.Frames)
    requires StateOk(t0, pmm0) && pmm0.free != [] && root == Frames.Top(pmm0) && m.pmm == Frames.Take(pmm0) &&
      Ok(m.t) && SameWalks(t0, m.t)
    requires Ok(t0) && Has(t0, P4(t0.kernel)) && m.t == AddRoot(t0, root)
    ensures Spare(t0, root) && P4(root) in m.t.tab && m.t.kernel == t0.kernel && HugeSame(t0, m.t) &&
      ApartKept(t0, m.t, pmm0, m.pmm) && LinksSince(t0, m.t, root)
    ensures Good(Mem(t0, m.bytes, pmm0), m, root, map[])
    ensures |m.t.tab| == |t0.tab| + 1 && |m.pmm.free| == |pmm0.free| - 1
  {
    hide Ok, Walk, LinksOk, Spare;
    StateTree(t0, pmm0);
    TopSpare(t0, pmm0);
    LinkedNone(t0, m.t, root);
    LinksBegin(t0, root);
    hide LinksSince;
    Frames.TakenTop(pmm0);
    Frames.TakeValid(pmm0);
    FirstFrames(m.bytes, pmm0, m.pmm);
    assert P4(root) !in t0.tab by { SpareRoot(t0, root); }
    NewKey(t0.tab, P4(root), root);
    CreatedApart(t0, m.t, root, pmm0, m.pmm);
    hide Frames.Valid, SameWalks;
  }

  lemma SpareRoot(t: Tree, f: nat)
    requires Spare(t, f)
    ensures P4(f) !in t.tab
  {
  }

  lemma CreatedApart(t0: Tree, t: Tree, root: nat, pmm0: Frames.Frames, pmm: Frames.Frames)
    requires Has(t0, P4(t0.kernel)) && t == AddRoot(t0, root) && root in pmm0.free && forall f :: f in pmm.free ==>
      f in pmm0.free
    ensures ApartKept(t0, t, pmm0, pmm)
  {
    forall f | NoTable(t0, f) && f !in pmm0.free
      ensures NoTable(t, f) && f !in pmm.free
    {
    }
  }

  lemma FirstFrames(bytes: map<nat, seq<Byte>>, pmm0: Frames.Frames, pmm: Frames.Frames)
    requires Frames.Valid(pmm0) && pmm0.free != [] && pmm == Frames.Take(pmm0) && Frames.Valid(pmm)
    ensures FramesOk(map[], pmm) && OnlyFree(map[], bytes, pmm0, bytes, pmm)
  {
    Frames.TakenTop(pmm0);
  }

  lemma MapFlags(f: nat, writable: bool)
    ensures EntryFor(f * PAGE_SIZE, UserFlags(writable).(present := false)) == Entry(f, UserFlags(writable))
  {
  }

  /** One page of a segment, on a frame of its own. */
  method FillFresh(vm: Vmm, root: nat, elf: Elf, i: nat, p: nat, ghost m0: Mem, ghost pages: map<nat, Page>)
      returns (ghost pages': map<nat, Page>)
    requires vm.Valid() && FileOk(elf.file, elf.segs) && i < |elf.segs| && elf.segs[i].load &&
      p < PageCount(elf.segs[i]) && |vm.pmm.free| >= 5
    requires FreshSoFar(m0, Now(vm), root, pages, elf, i, p)
    modifies vm`tables, vm`bytes, vm`pmm, vm`tab
    ensures vm.Valid() && FreshSoFar(m0, Now(vm), root, pages', elf, i, p + 1)
    ensures 1 <= |old(vm.pmm).free| - |vm.pmm.free| == 1 + |vm.tab| - |old(vm.tab)| <= 4
  {
    hide StateOk, Walk, Good, AllOk, HugeSame, ApartKept, HugeApart, Spare, Fits, WordsKept, MapsTo, SameWalks,
         PageWithNo, Frames.Valid, Spliced, Copied, CopyAt, Frames.Top, FirstPage, PageCount, Ok, NoneHuge, Spent,
         GrowsTo, Reached, VaOf, EntryFor, UserFlags, NoTable;
    ghost var t, pmm := vm.T(), vm.pmm;
    var s := elf.segs[i];
    var page := FirstPage(s) + p;
    NextPlace(elf, i, p);
    StateTree(t, pmm);
    FreshBefore(m0, Mem(t, vm.bytes, pmm), root, pages, elf, page);
    TakenParts(t, pmm);
    var frame := Frames.Top(vm.pmm);
    vm.pmm := Frames.Take(vm.pmm);
    ghost var pmm1 := vm.pmm;
    NotHugeFlags(s.writable);
    MapFlags(frame, s.writable);
    vm.Map(root, page * PAGE_SIZE, frame * PAGE_SIZE, UserFlags(s.writable).(present := false));
    StateTree(vm.T(), vm.pmm);
    SpentCounts(t, vm.T(), pmm1, vm.pmm);
    vm.bytes := vm.bytes[frame := Blank];
    pages' := pages[page := Page(frame, s.writable)];
    ghost var c := Spliced(Blank, CopyAt(s, p), Copied(elf.file, s, p));
    FreshRound(m0, Mem(t, old(vm.bytes), pmm), vm.T(), root, pages, vm.pmm, elf, i, p);
    vm.bytes := vm.bytes[frame := Spliced(vm.bytes[frame], CopyAt(s, p), Copied(elf.file, s, p))];
    assert vm.bytes == old(vm.bytes)[frame := c];
  }

  lemma NotHugeFlags(writable: bool)
    ensures !UserFlags(writable).huge && !UserFlags(writable).(present := false).huge
  {
  }

  lemma SpentCounts(t: Tree, t': Tree, pmm: Frames.Frames, pmm': Frames.Frames)
    ensures Spent(t, t', pmm, pmm') ==>
      |pmm.free| - |pmm'.free| == |t'.tab| - |t.tab| && |pmm'.free| <= |pmm.free| && Frames.TakenSince(pmm, pmm')
  {
  }

  lemma FreshBegins(m0: Mem, m: Mem, root: nat, pages: map<nat, Page>, elf: Elf, i: nat)
    requires i < |elf.segs| && Fresh0(m0, m, root, pages, elf)
    requires NoneHuge(m0.t, elf.segs) ==> Loaded(false, pages, m.bytes, elf, i)
    ensures FreshSoFar(m0, m, root, pages, elf, i, 0)
  {
    hide NoneHuge, AllOk, Loaded, Ok, Good, HugeSame, ApartKept, HugeApart, Spare, Fits;
    if NoneHuge(m0.t, elf.segs) {
      Begin(false, pages, m.bytes, elf, i);
    }
  }

  lemma FreshEnds(m0: Mem, m: Mem, root: nat, pages: map<nat, Page>, elf: Elf, i: nat, p: nat)
    requires i < |elf.segs| && FreshSoFar(m0, m, root, pages, elf, i, p)
    requires elf.segs[i].load ==> p == PageCount(elf.segs[i])
    ensures Fresh0(m0, m, root, pages, elf) && Ok(m0.t)
    ensures NoneHuge(m0.t, elf.segs) ==> Loaded(false, pages, m.bytes, elf, i + 1)
  {
    hide NoneHuge, AllOk, Loaded, Ok, Good, HugeSame, ApartKept, HugeApart, Spare, Fits, PageCount;
    if NoneHuge(m0.t, elf.segs) {
      Finish(false, pages, m.bytes, elf, i, p);
    }
  }

  lemma FreshStart(t0: Tree, m: Mem, root: nat, pmm0: Frames.Frames, elf: Elf)
    requires StateOk(t0, pmm0) && pmm0.free != [] && root == Frames.Top(pmm0) && m.pmm == Frames.Take(pmm0) &&
      Ok(m.t) && SameWalks(t0, m.t)
    requires Ok(t0) && Has(t0, P4(t0.kernel)) && m.t == AddRoot(t0, root) && HugeApart(t0, pmm0, elf.segs) &&
      Fits(elf.segs)
    ensures Fresh0(Mem(t0, m.bytes, pmm0), m, root, map[], elf) && Loaded(false, map[], m.bytes, elf, 0)
    ensures |m.t.tab| == |t0.tab| + 1 && |m.pmm.free| == |pmm0.free| - 1
  {
    hide Ok, Walk, SameWalks, Good, HugeSame, ApartKept, HugeApart, Spare, Fits, AddRoot, Loaded, NoneHuge;
    StateTree(t0, pmm0);
    Created(t0, m, root, pmm0);
    NoneYet(false, m.bytes, elf);
    hide StateOk;
  }

  /** A page under a 2 MiB entry stays under it, unless that is one for physical 0, so the program is not loaded
      right. */
  lemma FreshRightIff(m0: Mem, m: Mem, root: nat, pages: map<nat, Page>, elf: Elf)
    requires Fresh0(m0, m, root, pages, elf) && Ok(m0.t) && Ok(m.t)
    requires NoneHuge(m0.t, elf.segs) ==> Loaded(false, pages, m.bytes, elf, |elf.segs|)
    ensures Placed(false, m, root, m0.pmm, elf) <==> NoneHuge(m0.t, elf.segs)
    ensures Right(false, m, root, m0.pmm, elf) <==> NoneHuge(m0.t, elf.segs) && AllUser(m0.t, elf.segs)
    ensures NoneHuge(m0.t, elf.segs) ==> ElsewhereWiped(m0, m, root, elf.segs)
  {
    hide Ok, Walk, ApartKept, HugeApart, Spare, Fits, Loaded, Touched, Linked, FramesOk, OnlyFree, ElsewhereWiped,
         Before, PageWithNo, Frames.Valid, LinksSince, AllUser, UserAbove;
    if NoneHuge(m0.t, elf.segs) {
      LoadedRight(false, m0, m, root, pages, elf);
      GoodElsewhere(false, m0, m, root, pages, elf);
    } else {
      var page: nat :| Touched(elf.segs, |elf.segs|, page) && FullLarge(Before(m0.t, page));
      BeforeRoot(m0.t, root, page);
      assert !PagePlaced(false, m, root, m0.pmm, elf, page);
    }
  }

  /** The pages of one segment. */
  method FillSegment(vm: Vmm, root: nat, elf: Elf, i: nat, ghost m0: Mem, ghost pages: map<nat, Page>)
      returns (ghost pages': map<nat, Page>)
    requires vm.Valid() && FileOk(elf.file, elf.segs) && i < |elf.segs| && elf.segs[i].load
    requires |vm.pmm.free| >= 1 + 4 * PageCount(elf.segs[i])
    requires Fresh0(m0, Now(vm), root, pages, elf) && Ok(m0.t)
    requires NoneHuge(m0.t, elf.segs) ==> Loaded(false, pages, vm.bytes, elf, i)
    modifies vm`tables, vm`bytes, vm`pmm, vm`tab
    ensures vm.Valid() && Fresh0(m0, Now(vm), root, pages', elf)
    ensures NoneHuge(m0.t, elf.segs) ==> Loaded(false, pages', vm.bytes, elf, i + 1)
    ensures |old(vm.pmm).free| - |vm.pmm.free| ==
      PageCount(elf.segs[i]) + |vm.tab| - |old(vm.tab)| <= 4 * PageCount(elf.segs[i])
  {
    hide StateOk, Ok, Fresh0, FreshSoFar, Loaded, NoneHuge, FileOk, PageCount;
    pages' := pages;
    FreshBegins(m0, Now(vm), root, pages, elf, i);
    for p := 0 to PageCount(elf.segs[i])
      invariant vm.Valid() && FreshSoFar(m0, Now(vm), root, pages', elf, i, p)
      invariant |old(vm.pmm).free| - |vm.pmm.free| == p + |vm.tab| - |old(vm.tab)| <= 4 * p
    {
      pages' := FillFresh(vm, root, elf, i, p, m0, pages');
    }
    FreshEnds(m0, Now(vm), root, pages', elf, i, PageCount(elf.segs[i]));
  }

  lemma NeededHere(segs: seq<Segment>, i: nat)
    requires i < |segs|
    ensures Needed(segs, i) == (if segs[i].load then PageCount(segs[i]) else 0) + Needed(segs, i + 1)
  {
  }

  lemma NeededEnd(segs: seq<Segment>)
    ensures Needed(segs, |segs|) == 0
  {
  }

  /** All segments. */
  method FillAll(vm: Vmm, root: nat, elf: Elf, ghost m0: Mem)
      returns (ghost pages: map<nat, Page>)
    requires vm.Valid() && FileOk(elf.file, elf.segs) && |vm.pmm.free| >= 1 + 4 * Needed(elf.segs, 0)
    requires Fresh0(m0, Now(vm), root, map[], elf) && Ok(m0.t) && Loaded(false, map[], vm.bytes, elf, 0)
    modifies vm`tables, vm`bytes, vm`pmm, vm`tab
    ensures vm.Valid() && Fresh0(m0, Now(vm), root, pages, elf)
    ensures NoneHuge(m0.t, elf.segs) ==> Loaded(false, pages, vm.bytes, elf, |elf.segs|)
    ensures |old(vm.pmm).free| - |vm.pmm.free| == Needed(elf.segs, 0) + |vm.tab| - |old(vm.tab)|
  {
    hide StateOk, Ok, Fresh0, FreshSoFar, Loaded, NoneHuge, FileOk, PageCount;
    pages := map[];
    for i := 0 to |elf.segs|
      invariant vm.Valid() && Fresh0(m0, Now(vm), root, pages, elf)
      invariant NoneHuge(m0.t, elf.segs) ==> Loaded(false, pages, vm.bytes, elf, i)
      invariant |vm.pmm.free| >= 1 + 4 * Needed(elf.segs, i)
      invariant |old(vm.pmm).free| - |vm.pmm.free| + Needed(elf.segs, i) ==
        Needed(elf.segs, 0) + |vm.tab| - |old(vm.tab)|
    {
      NeededHere(elf.segs, i);
      if elf.segs[i].load {
        pages := FillSegment(vm, root, elf, i, m0, pages);
      } else {
        FreshBegins(m0, Now(vm), root, pages, elf, i);
        FreshEnds(m0, Now(vm), root, pages, elf, i, 0);
      }
      NeededHere(elf.segs, i);
    }
    NeededEnd(elf.segs);
  }

  /** `elf_load` with a fresh frame per page (src/kernel/elf.c), given enough frames. The program is loaded right
      exactly if none of its pages lies under a 2 MiB entry of the kernel slot, except one for physical 0, and the
      slot's entries above its pages let user code through. All else then is as before, or gone with that entry. */
  method LoadFresh(vm: Vmm, elf: Elf) returns (ok: bool, entry: nat, root: nat)
    requires vm.Valid() && FileOk(elf.file, elf.segs) && Fits(elf.segs) && |vm.pmm.free| >= 2 + 4 * Needed(elf.segs, 0)
    requires Ok(vm.T()) && HugeApart(vm.T(), vm.pmm, elf.segs)
    modifies vm`tables, vm`bytes, vm`pmm, vm`tab
    ensures vm.Valid() && (ok <==> elf.magic == MAGIC)
    ensures !ok ==> vm.T() == old(vm.T()) && vm.bytes == old(vm.bytes) && vm.pmm == old(vm.pmm)
    ensures ok ==> entry == elf.entry && P4(root) in vm.tab && P4(root) !in old(vm.tab)
    ensures ok ==> (Placed(false, Now(vm), root, old(vm.pmm), elf) <==>
                    NoneHuge(old(vm.T()), elf.segs))
    ensures ok ==> (Right(false, Now(vm), root, old(vm.pmm), elf) <==>
                    NoneHuge(old(vm.T()), elf.segs) && AllUser(old(vm.T()), elf.segs))
    ensures ok && NoneHuge(old(vm.T()), elf.segs) ==>
      ElsewhereWiped(old(Now(vm)), Now(vm), root, elf.segs)
    ensures ok ==> |old(vm.pmm).free| - |vm.pmm.free| == Needed(elf.segs, 0) + |vm.tab| - |old(vm.tab)|
  {
    hide StateOk, Ok, Fresh0, FreshSoFar, Loaded, NoneHuge, Placed, Right, ElsewhereWiped, SameWalks, AddRoot,
         HugeApart, Fits, PageCount, FileOk, Has, AllUser;
    entry, root := 0, 0;
    if elf.magic != MAGIC {
      ok := false;
      return;
    }
    ghost var m0 := Now(vm);
    root := CreateAddressSpace(vm);
    entry := elf.entry;
    ghost var pages: map<nat, Page> := map[];
    StateTree(vm.T(), vm.pmm);
    FreshStart(m0.t, Now(vm), root, m0.pmm, elf);
    NeededEnd(elf.segs);
    pages := FillAll(vm, root, elf, m0);
    StateTree(vm.T(), vm.pmm);
    FreshRightIff(m0, Now(vm), root, pages, elf);
    Rooted(m0, Now(vm), root, pages, elf);
    ok := true;
  }

  lemma Rooted(m0: Mem, m: Mem, root: nat, pages: map<nat, Page>, elf: Elf)
    requires Fresh0(m0, m, root, pages, elf)
    ensures P4(root) in m.t.tab && P4(root) !in m0.t.tab
  {
    SpareRoot(m0.t, root);
  }

  lemma PageNow(shared: bool, pages: map<nat, Page>, bytes: map<nat, seq<Byte>>, elf: Elf, i: nat, p: nat)
    requires i < |elf.segs| && AllOk(shared, pages, bytes, elf, i, p)
    ensures var page := FirstPage(elf.segs[i]) + p;
      PageOk(shared, pages, bytes, elf, i, page) && (page in pages <==> Touched(elf.segs, i, page))
  {
    var page := FirstPage(elf.segs[i]) + p;
    assert PageNext(shared, pages, bytes, elf, i, p, page);
    hide PageOk;
  }

  lemma WriteOk(pages: map<nat, Page>, pmm: Frames.Frames, page: nat, writable: bool)
    requires FramesOk(pages, pmm) && page in pages
    ensures FramesOk(pages[page := Page(pages[page].frame, writable)], pmm)
    ensures forall v :: v in pages && v != page ==> pages[v].frame != pages[page].frame
  {
  }

  // ----- the loader that shares pages

  /** Page `p` of segment `i`. */
  function PageOf(elf: Elf, i: nat, p: nat): nat
    requires i < |elf.segs|
  {
    FirstPage(elf.segs[i]) + p
  }

  /** The frame's bytes with the segment's file bytes for the page copied in. */
  function Filled(elf: Elf, i: nat, p: nat, b: seq<Byte>): (r: seq<Byte>)
    requires i < |elf.segs|
    ensures |r| == |b|
  {
    var s := elf.segs[i];
    if s.offset + s.filesz <= |elf.file| && |b| == PAGE_SIZE then Spliced(b, CopyAt(s, p), Copied(elf.file, s, p))
      else b
  }

  /** The frame of the physical address the entry gives to the page. */
  function FrameAt(w: Leaf, page: nat): nat
    requires !w.Absent?
  {
    Phys(w, page * PAGE_SIZE) / PAGE_SIZE
  }

  lemma SmallFrame(e: Entry, page: nat)
    ensures FrameAt(Small(e), page) == e.frame
  {
    assert page * PAGE_SIZE % PAGE_SIZE == 0;
  }

  /** Pages that were mapped before are mapped the same way to the same frame. */
  ghost predicate KeptAt(t0: Tree, t: Tree, root: nat, page: nat)
    requires Ok(t0) && Ok(t)
  {
    var w0, w := Before(t0, page), Walk(t, root, PageWithNo(page));
    && (w0.Small? ==> w.Small? && w.e.frame == w0.e.frame)
    && (w0.Large? ==> w.Large? && w.e.frame / 512 == w0.e.frame / 512)
    && (w0.Absent? ==> !w.Large?)
  }

  ghost predicate AllKept(t0: Tree, t: Tree, root: nat, segs: seq<Segment>)
    requires Ok(t0) && Ok(t)
  {
    forall page: nat :: Touched(segs, |segs|, page) ==> KeptAt(t0, t, root, page)
  }

  /** There is memory behind the page, if it is mapped. */
  ghost predicate Backed(w: Leaf, bytes: map<nat, seq<Byte>>, page: nat) {
    !w.Absent? ==> FrameAt(w, page) in bytes && |bytes[FrameAt(w, page)]| == PAGE_SIZE
  }

  ghost predicate AllBacked(t: Tree, root: nat, bytes: map<nat, seq<Byte>>, segs: seq<Segment>)
    requires Ok(t)
  {
    forall page: nat :: Touched(segs, |segs|, page) ==> Backed(Walk(t, root, PageWithNo(page)), bytes, page)
  }

  /** What the loops of the second loader keep. */
  ghost predicate Shared0(m0: Mem, m: Mem, root: nat, pages: map<nat, Page>, elf: Elf)
  {
    && Ok(m0.t) && Ok(m.t) && Frames.Valid(m0.pmm) && P4(root) in m.t.tab && m.t.kernel == m0.t.kernel
    && Spare(m0.t, root)
    && Fits(elf.segs)
    && AllKept(m0.t, m.t, root, elf.segs) && AllBacked(m.t, root, m.bytes, elf.segs) && LinksSince(m0.t, m.t, root)
    && (NoneThere(m0.t, elf.segs) ==> Good(m0, m, root, pages))
  }

  ghost predicate SharedSoFar(m0: Mem, m: Mem, root: nat, pages: map<nat, Page>, elf: Elf, i: nat, p: nat)
    requires i < |elf.segs|
  {
    && Shared0(m0, m, root, pages, elf)
    && (NoneThere(m0.t, elf.segs) ==> AllOk(true, pages, m.bytes, elf, i, p))
  }

  /** One page mapped by itself, or given other flags: the rest is kept. */
  lemma SmallKeeps(t0: Tree, t: Tree, t': Tree, root: nat, page: nat, e: Entry, segs: seq<Segment>,
                   bytes: map<nat, seq<Byte>>)
    requires Ok(t0) && Ok(t) && Ok(t') && AllKept(t0, t, root, segs) && Fits(segs) && page < PAGES &&
      Touched(segs, |segs|, page)
    requires MapsTo(t, t', root, PageWithNo(page), e) && !e.flags.huge
    requires var w := Walk(t, root, PageWithNo(page)); w.Absent? || (w.Small? && w.e.frame == e.frame)
    requires e.frame in bytes && |bytes[e.frame]| == PAGE_SIZE && AllBacked(t, root, bytes, segs)
    ensures AllKept(t0, t', root, segs) && AllBacked(t', root, bytes, segs) &&
      Walk(t', root, PageWithNo(page)) == Small(e)
  {
    SmallFrame(e, page);
    hide Ok, Walk, Touched, Fits, FrameAt, Before, PageWithNo;
    forall q: nat | Touched(segs, |segs|, q)
      ensures Walk(t', root, PageWithNo(q)) == if q == page then Small(e) else Walk(t, root, PageWithNo(q))
      ensures KeptAt(t0, t', root, q) && Backed(Walk(t', root, PageWithNo(q)), bytes, q)
    {
      TouchedFits(segs, |segs|, q);
      SamePlace(q, page);
      assert Covers(root, PageWithNo(page), false, root, PageWithNo(q)) <==> q == page;
      assert KeptAt(t0, t, root, q) && Backed(Walk(t, root, PageWithNo(q)), bytes, q);
    }
    hide KeptAt, Backed;
  }

  lemma SamePlace(p: nat, q: nat)
    requires p < PAGES && q < PAGES
    ensures PageWithNo(p) == PageWithNo(q) <==> p == q
  {
    PageWithNoIs(p);
    PageWithNoIs(q);
    hide PageWithNo, PageNo;
  }

  /** A 2 MiB entry given other flags: everything is kept. */
  lemma LargeKeeps(t0: Tree, t: Tree, t': Tree, root: nat, page: nat, e: Entry, segs: seq<Segment>,
                   bytes: map<nat, seq<Byte>>)
    requires Ok(t0) && Ok(t) && Ok(t') && AllKept(t0, t, root, segs) && Fits(segs) && page < PAGES &&
      Touched(segs, |segs|, page)
    requires MapsTo(t, t', root, PageWithNo(page), e) && e.flags.huge && AllBacked(t, root, bytes, segs)
    requires var w := Walk(t, root, PageWithNo(page)); w.Large? && w.e.frame / 512 == e.frame / 512
    ensures AllKept(t0, t', root, segs) && AllBacked(t', root, bytes, segs) &&
      Walk(t', root, PageWithNo(page)) == Large(e)
  {
    hide Ok, Walk, Touched, Fits, Before, PageWithNo;
    forall q: nat | Touched(segs, |segs|, q)
      ensures q == page ==> Walk(t', root, PageWithNo(q)) == Large(e)
      ensures KeptAt(t0, t', root, q) && Backed(Walk(t', root, PageWithNo(q)), bytes, q)
    {
      assert KeptAt(t0, t, root, q) && Backed(Walk(t, root, PageWithNo(q)), bytes, q);
      if Covers(root, PageWithNo(page), true, root, PageWithNo(q)) {
        PageUnique(PageWithNo(page), PageWithNo(q));
        SameChunk(t, root, PageWithNo(page), PageWithNo(q));
        LargeFrame(Walk(t, root, PageWithNo(q)).e, e, q);
      }
    }
    hide KeptAt, Backed;
  }

  lemma LargeFrame(e: Entry, e': Entry, page: nat)
    requires e.frame / 512 == e'.frame / 512
    ensures FrameAt(Large(e), page) == FrameAt(Large(e'), page)
  {
  }

  /** Writing to a frame leaves its size. */
  lemma BytesKeep(t: Tree, root: nat, bytes: map<nat, seq<Byte>>, f: nat, c: seq<Byte>, segs: seq<Segment>)
    requires Ok(t) && AllBacked(t, root, bytes, segs) && |c| == PAGE_SIZE
    ensures AllBacked(t, root, bytes[f := c], segs)
  {
    hide Ok, Walk, Touched, FrameAt;
  }

  // ----- one page, good part

  /** A page that is not there yet. */
  lemma NewGood(m0: Mem, m: Mem, t': Tree, root: nat, pages: map<nat, Page>, pmm': Frames.Frames, elf: Elf, i: nat,
                p: nat)
    requires i < |elf.segs| && FileOk(elf.file, elf.segs) && elf.segs[i].load && p < PageCount(elf.segs[i]) &&
      m.pmm.free != [] && Fits(elf.segs)
    requires Good(m0, m, root, pages) && AllOk(true, pages, m.bytes, elf, i, p) && Ok(m.t) && Ok(t')
    requires Walk(m.t, root, PageWithNo(PageOf(elf, i, p))).Absent?
    requires Frames.Valid(m0.pmm) && Frames.Valid(pmm') && Frames.TakenSince(Frames.Take(m.pmm), pmm')
    requires MapsTo(m.t, t', root, PageWithNo(PageOf(elf, i, p)),
                    Entry(Frames.Top(m.pmm), UserFlags(elf.segs[i].writable)))
    ensures var s := elf.segs[i];
      var f := Frames.Top(m.pmm);
      var pages', bytes' := pages[PageOf(elf, i, p) := Page(f, s.writable)], m.bytes[f := Filled(elf, i, p, Blank)];
      Good(m0, Mem(t', bytes', pmm'), root, pages') && AllOk(true, pages', bytes', elf, i, p + 1) &&
      |pages'| == |pages| + 1
  {
    hide Ok, Walk, AllOk, Copied, Spliced, PageCount, FirstPage, CopyAt, Frames.Valid, Frames.TakenSince, Frames.Top,
         Frames.Take, MapsTo, FramesOk, OnlyFree, Linked, PageWithNo, Fits;
    var s := elf.segs[i];
    var page := PageOf(elf, i, p);
    NextPlace(elf, i, p);
    LinkedAt(m0.t, m.t, root, pages, page);
    NewKey(pages, page, Page(Frames.Top(m.pmm), s.writable));
    NewShared(pages, m0.bytes, m0.pmm, m.bytes, m.pmm, elf, i, p);
    FreshGood(m0, m, t', root, pages, pmm', page, s.writable, Filled(elf, i, p, Blank));
  }

  /** A page an earlier segment brought. */
  lemma OldGood(m0: Mem, m: Mem, t': Tree, root: nat, pages: map<nat, Page>, pmm': Frames.Frames, elf: Elf, i: nat,
                p: nat, w: Leaf)
    requires i < |elf.segs| && FileOk(elf.file, elf.segs) && elf.segs[i].load && p < PageCount(elf.segs[i]) &&
      Fits(elf.segs)
    requires Good(m0, m, root, pages) && AllOk(true, pages, m.bytes, elf, i, p) && Ok(m0.t) && Ok(m.t) && Ok(t')
    requires NoneThere(m0.t, elf.segs) && Spare(m0.t, root) && w == Walk(m.t, root, PageWithNo(PageOf(elf, i, p))) &&
      !w.Absent?
    requires Frames.Valid(m0.pmm) && Frames.Valid(pmm') && Frames.TakenSince(m.pmm, pmm')
    requires var va, s := PageWithNo(PageOf(elf, i, p)), elf.segs[i];
      if s.writable && !w.e.flags.writable
        then MapsTo(m.t, t', root, va, Entry(w.e.frame, w.e.flags.(writable := true)))
        else t' == m.t
    ensures var s := elf.segs[i];
      var page := PageOf(elf, i, p);
      && w.Small? && page in pages && pages[page].frame == w.e.frame && w.e.frame in m.bytes
      && |m.bytes[w.e.frame]| == PAGE_SIZE
      && var pages' := pages[page := Page(w.e.frame, pages[page].writable || s.writable)];
         var bytes' := m.bytes[w.e.frame := Filled(elf, i, p, m.bytes[w.e.frame])];
         Good(m0, Mem(t', bytes', pmm'), root, pages') && AllOk(true, pages', bytes', elf, i, p + 1) &&
         |pages'| == |pages|
  {
    hide Ok, Walk, AllOk, Copied, Spliced, PageCount, FirstPage, CopyAt, Frames.Valid, Frames.TakenSince, MapsTo,
         FramesOk, OnlyFree, Linked, PageWithNo, Fits, Before, Touched, Spare;
    var s := elf.segs[i];
    var page := PageOf(elf, i, p);
    NextPlace(elf, i, p);
    BeforeRoot(m0.t, root, page);
    LinkedAt(m0.t, m.t, root, pages, page);
    assert page in pages;
    OldShared(pages, m0.bytes, m0.pmm, m.bytes, m.pmm, elf, i, p);
    var pages' := pages[page := Page(w.e.frame, pages[page].writable || s.writable)];
    var bytes' := m.bytes[w.e.frame := Filled(elf, i, p, m.bytes[w.e.frame])];
    MoreTaken(pages', m0.bytes, m0.pmm, bytes', m.pmm, pmm');
    SameKeys(pages, page, pages'[page]);
    if s.writable && !w.e.flags.writable {
      LinkedMore(m0.t, m.t, t', root, pages, page, w.e.frame, true);
    } else {
      assert pages' == pages;
    }
  }

  lemma SameKeys<K, V>(m: map<K, V>, k: K, v: V)
    requires k in m
    ensures |m[k := v]| == |m|
  {
    assert m[k := v].Keys == m.Keys;
    assert |m[k := v].Keys| == |m[k := v]| && |m.Keys| == |m|;
  }

  // ----- one page of the second loader

  lemma ThisPlace(elf: Elf, i: nat, p: nat)
    requires Fits(elf.segs) && i < |elf.segs| && elf.segs[i].load && p < PageCount(elf.segs[i])
    ensures var page := PageOf(elf, i, p);
      && page < PAGES && page * PAGE_SIZE < SPACE_SIZE && Touched(elf.segs, |elf.segs|, page)
      && VaOf(page * PAGE_SIZE) == PageWithNo(page)
  {
    NextPlace(elf, i, p);
  }

  lemma SharedParts(m0: Mem, m: Mem, root: nat, pages: map<nat, Page>, elf: Elf, i: nat, p: nat)
    requires i < |elf.segs| && SharedSoFar(m0, m, root, pages, elf, i, p)
    requires elf.segs[i].load && p < PageCount(elf.segs[i])
    ensures var page := PageOf(elf, i, p);
      && Ok(m0.t) && Ok(m.t) && P4(root) in m.t.tab && Fits(elf.segs) && page < PAGES && page * PAGE_SIZE < SPACE_SIZE
      && Touched(elf.segs, |elf.segs|, page) && VaOf(page * PAGE_SIZE) == PageWithNo(page)
      && Backed(Walk(m.t, root, PageWithNo(page)), m.bytes, page) && KeptAt(m0.t, m.t, root, page)
      && (!Walk(m.t, root, PageWithNo(page)).Absent? ==>
          !NoneThere(m0.t, elf.segs) || Walk(m.t, root, PageWithNo(page)).Small?)
  {
    hide Ok, Walk, AllOk, Good, Spare, Touched, Before, PageWithNo, FrameAt, VaOf, FirstPage, PageCount, Fits, PageOf;
    ThisPlace(elf, i, p);
  }

  /** The page was not there: it is mapped to a new frame, zeroed and filled. */
  lemma SharedNew(m0: Mem, m: Mem, t': Tree, root: nat, pages: map<nat, Page>, pmm': Frames.Frames, elf: Elf, i: nat,
                  p: nat)
    requires i < |elf.segs| && SharedSoFar(m0, m, root, pages, elf, i, p) &&
      StateOk(t', pmm') && t'.kernel == m.t.kernel
    requires FileOk(elf.file, elf.segs) && elf.segs[i].load && p < PageCount(elf.segs[i]) && m.pmm.free != [] &&
      Frames.Valid(m.pmm)
    requires Spent(m.t, t', Frames.Take(m.pmm), pmm') && Ok(m.t) && Ok(t') && LinksKept(m.t, t')
    requires var va := PageWithNo(PageOf(elf, i, p));
      && Walk(m.t, root, va).Absent?
      && MapsTo(m.t, t', root, va, Entry(Frames.Top(m.pmm), UserFlags(elf.segs[i].writable)))
    ensures var s := elf.segs[i];
      var f, page := Frames.Top(m.pmm), PageOf(elf, i, p);
      var pages', bytes' := pages[page := Page(f, s.writable)], m.bytes[f := Filled(elf, i, p, Blank)];
      && SharedSoFar(m0, Mem(t', bytes', pmm'), root, pages', elf, i, p + 1)
      && FrameAt(Walk(t', root, PageWithNo(page)), page) == f
      && (NoneThere(m0.t, elf.segs) ==> |pages'| == |pages| + 1) && !Walk(t', root, PageWithNo(page)).Absent?
      && P4(root) in t'.tab
  {
    hide StateOk, Walk, Good, AllOk, AllKept, AllBacked, Spare, Fits, MapsTo, PageWithNo, Frames.Valid, Filled,
         PageOf, Frames.Take, Frames.Top, FirstPage, PageCount, Ok, NoneThere, Frames.TakenSince, Touched, Blank;
    var s := elf.segs[i];
    var f, page := Frames.Top(m.pmm), PageOf(elf, i, p);
    var c := Filled(elf, i, p, Blank);
    ThisPlace(elf, i, p);
    StateTree(t', pmm');
    LinksMore(m0.t, m.t, t', root);
    hide LinksSince, LinksKept;
    BlankLen();
    BytesKeep(m.t, root, m.bytes, f, c, elf.segs);
    NotHugeFlags(s.writable);
    SmallKeeps(m0.t, m.t, t', root, page, Entry(f, UserFlags(s.writable)), elf.segs, m.bytes[f := c]);
    SmallFrame(Entry(f, UserFlags(s.writable)), page);
    RootsKept(m.t, t', Frames.Take(m.pmm), pmm', P4(root));
    if NoneThere(m0.t, elf.segs) {
      NewGood(m0, m, t', root, pages, pmm', elf, i, p);
    }
    hide Spent, FrameAt;
  }

  lemma BlankLen()
    ensures |Blank| == PAGE_SIZE
  {
  }

  /** The page was there: it becomes writable if need be, and is filled. */
  lemma SharedOld(m0: Mem, m: Mem, t': Tree, root: nat, pages: map<nat, Page>, pmm': Frames.Frames, elf: Elf, i: nat,
                  p: nat, e: Entry)
      returns (pages': map<nat, Page>)
    requires i < |elf.segs| && SharedSoFar(m0, m, root, pages, elf, i, p) &&
      StateOk(t', pmm') && t'.kernel == m.t.kernel
    requires FileOk(elf.file, elf.segs) && elf.segs[i].load && p < PageCount(elf.segs[i]) && Ok(m.t) && Ok(t')
    requires Frames.TakenSince(m.pmm, pmm') && m.t.tab.Keys <= t'.tab.Keys && LinksKept(m.t, t')
    requires var w := Walk(m.t, root, PageWithNo(PageOf(elf, i, p)));
      && !w.Absent? && e.flags == w.e.flags.(writable := true) && (e.flags.huge <==> w.Large?)
      && (if w.Large? then e.frame / 512 == w.e.frame / 512 else e.frame == w.e.frame)
      && if elf.segs[i].writable && !w.e.flags.writable then MapsTo(m.t, t', root, PageWithNo(PageOf(elf, i, p)), e)
         else t' == m.t
    ensures var s := elf.segs[i];
      var page := PageOf(elf, i, p);
      var w, w' := Walk(m.t, root, PageWithNo(page)), Walk(t', root, PageWithNo(page));
      && !w'.Absent? && FrameAt(w', page) == FrameAt(w, page) && FrameAt(w, page) in m.bytes
      && |m.bytes[FrameAt(w, page)]| == PAGE_SIZE
      && SharedSoFar(m0, Mem(t', m.bytes[FrameAt(w, page) := Filled(elf, i, p, m.bytes[FrameAt(w, page)])], pmm'), root,
                     pages', elf, i, p + 1)
      && (NoneThere(m0.t, elf.segs) ==> |pages'| == |pages|)
  {
    hide StateOk, Walk, Good, AllOk, AllKept, AllBacked, Spare, Fits, MapsTo, PageWithNo, Frames.Valid, Filled,
         PageOf, FirstPage, PageCount, Ok, NoneThere, Frames.TakenSince, Touched, FrameAt, KeptAt, LinksSince,
         LinksKept;
    var s := elf.segs[i];
    var page := PageOf(elf, i, p);
    var w := Walk(m.t, root, PageWithNo(page));
    LinksMore(m0.t, m.t, t', root);
    SharedParts(m0, m, root, pages, elf, i, p);
    StateTree(t', pmm');
    if s.writable && !w.e.flags.writable {
      if w.Large? {
        LargeKeeps(m0.t, m.t, t', root, page, e, elf.segs, m.bytes);
        LargeFrame(w.e, e, page);
      } else {
        SmallFrame(w.e, page);
        SmallFrame(e, page);
        SmallKeeps(m0.t, m.t, t', root, page, e, elf.segs, m.bytes);
      }
    }
    var f := FrameAt(w, page);
    BytesKeep(t', root, m.bytes, f, Filled(elf, i, p, m.bytes[f]), elf.segs);
    pages' := pages;
    if NoneThere(m0.t, elf.segs) {
      assert w.Small?;
      SmallFrame(w.e, page);
      OldGood(m0, m, t', root, pages, pmm', elf, i, p, w);
      pages' := pages[page := Page(w.e.frame, pages[page].writable || s.writable)];
    }
  }

  lemma EntryAgain(w: Leaf, page: nat, flags: Flags)
    requires !w.Absent? && (flags.huge <==> w.Large?)
    ensures var e := EntryFor(FrameAt(w, page) * PAGE_SIZE, flags);
      e.flags == flags.(present := true) && if w.Large? then e.frame / 512 == w.e.frame / 512 else e.frame == w.e.frame
  {
    if w.Large? {
      var a := page * PAGE_SIZE;
      var k, r := w.e.frame / 512, a % HUGE_SIZE;
      assert a % PAGE_SIZE == 0;
      var q := r / PAGE_SIZE;
      assert r == q * PAGE_SIZE && q < 512;
      assert Phys(w, a) == (k * 512 + q) * PAGE_SIZE;
      assert FrameAt(w, page) == k * 512 + q;
      assert (k * 512 + q) * PAGE_SIZE / HUGE_SIZE == k;
    } else {
      SmallFrame(w.e, page);
    }
  }

  /** The entry of a mapped page is huge exactly if the walk ends there. */
  lemma WalkFlags(t: Tree, r: nat, va: Va)
    requires Ok(t) && ValidVa(va)
    ensures var w := Walk(t, r, va); !w.Absent? ==> w.e.flags.present && (w.e.flags.huge <==> w.Large?)
  {
    if Walk(t, r, va).Small? {
      SmallNotHuge(t, r, va);
    } else if Walk(t, r, va).Large? {
      assert LinkOk(t, P2(Owner(r, va.i), va.i, va.j), va.k);
    }
  }

  lemma FilledIs(elf: Elf, i: nat, p: nat, b: seq<Byte>)
    requires FileOk(elf.file, elf.segs) && i < |elf.segs| && elf.segs[i].load && |b| == PAGE_SIZE
    ensures elf.segs[i].offset + elf.segs[i].filesz <= |elf.file|
    ensures Filled(elf, i, p, b) == Spliced(b, CopyAt(elf.segs[i], p), Copied(elf.file, elf.segs[i], p))
  {
  }

  /** A page that is not mapped. */
  method AddPage(vm: Vmm, root: nat, elf: Elf, i: nat, p: nat, ghost m0: Mem, ghost pages: map<nat, Page>)
      returns (ghost pages': map<nat, Page>)
    requires vm.Valid() && FileOk(elf.file, elf.segs) && i < |elf.segs| && elf.segs[i].load &&
      p < PageCount(elf.segs[i]) && |vm.pmm.free| >= 5
    requires SharedSoFar(m0, Now(vm), root, pages, elf, i, p)
    requires Ok(vm.T()) && Walk(vm.T(), root, PageWithNo(PageOf(elf, i, p))).Absent?
    modifies vm`tables, vm`bytes, vm`pmm, vm`tab
    ensures vm.Valid() && Ok(vm.T()) && |old(vm.pmm).free| - |vm.pmm.free| == 1 + |vm.tab| - |old(vm.tab)| <= 4 &&
      Ok(m0.t)
    ensures SharedSoFar(m0, Now(vm), root, pages', elf, i, p + 1)
    ensures NoneThere(m0.t, elf.segs) ==> |pages'| == |pages| + 1
  {
    hide StateOk, Walk, SharedSoFar, WordsKept, MapsTo, SameWalks, PageWithNo, Frames.Valid, FileOk, NoneThere, Blank,
         Touched, Spliced, Copied, CopyAt, Frames.Top, PageOf, PageCount, Ok, Spent, GrowsTo, Reached, VaOf, EntryFor,
         UserFlags, NoTable, FrameAt, Filled, Fits, KeptAt, Backed;
    ghost var t, pmm := vm.T(), vm.pmm;
    var s := elf.segs[i];
    var page := PageOf(elf, i, p);
    SharedParts(m0, Mem(t, vm.bytes, pmm), root, pages, elf, i, p);
    StateTree(t, pmm);
    TakenParts(t, pmm);
    var frame := Frames.Top(vm.pmm);
    vm.pmm := Frames.Take(vm.pmm);
    ghost var pmm1 := vm.pmm;
    NotHugeFlags(s.writable);
    MapFlags(frame, s.writable);
    vm.Map(root, page * PAGE_SIZE, frame * PAGE_SIZE, UserFlags(s.writable).(present := false));
    StateTree(vm.T(), vm.pmm);
    SpentCounts(t, vm.T(), pmm1, vm.pmm);
    vm.bytes := vm.bytes[frame := Blank];
    BlankLen();
    FilledIs(elf, i, p, Blank);
    SharedNew(m0, Mem(t, old(vm.bytes), pmm), vm.T(), root, pages, vm.pmm, elf, i, p);
    pages' := pages[page := Page(frame, s.writable)];
    var at := vm.GetPhys(root, page * PAGE_SIZE);
    FrameOfPhys(Walk(vm.T(), root, PageWithNo(page)), page);
    assert at / PAGE_SIZE == frame;
    vm.bytes := vm.bytes[at / PAGE_SIZE := Spliced(vm.bytes[at / PAGE_SIZE], CopyAt(s, p), Copied(elf.file, s, p))];
    assert vm.bytes == old(vm.bytes)[frame := Filled(elf, i, p, Blank)];
  }

  lemma FrameOfPhys(w: Leaf, page: nat)
    ensures !w.Absent? ==> Phys(w, page * PAGE_SIZE) / PAGE_SIZE == FrameAt(w, page)
  {
  }

  /** A page that is mapped: nothing is taken or zeroed. */
  method UsePage(vm: Vmm, root: nat, elf: Elf, i: nat, p: nat, flags: Flags, ghost m0: Mem,
                 ghost pages: map<nat, Page>) returns (ghost pages': map<nat, Page>)
    requires vm.Valid() && FileOk(elf.file, elf.segs) && i < |elf.segs| && elf.segs[i].load &&
      p < PageCount(elf.segs[i]) && |vm.pmm.free| >= 5
    requires SharedSoFar(m0, Now(vm), root, pages, elf, i, p)
    requires Ok(vm.T()) && var w := Walk(vm.T(), root, PageWithNo(PageOf(elf, i, p))); !w.Absent? && w.e.flags == flags
    modifies vm`tables, vm`bytes, vm`pmm, vm`tab
    ensures vm.Valid() && Ok(vm.T()) && |vm.pmm.free| >= |old(vm.pmm).free| - 4 && Ok(m0.t)
    ensures SharedSoFar(m0, Now(vm), root, pages', elf, i, p + 1)
    ensures NoneThere(m0.t, elf.segs) ==>
      |pages'| == |pages| && |old(vm.pmm).free| - |vm.pmm.free| == |vm.tab| - |old(vm.tab)|
  {
    hide StateOk, Walk, SharedSoFar, WordsKept, MapsTo, SameWalks, PageWithNo, Frames.Valid, FileOk, NoneThere, Blank,
         Touched, Spliced, Copied, CopyAt, PageOf, PageCount, Ok, Spent, GrowsTo, Reached, VaOf, EntryFor, UserFlags,
         NoTable, FrameAt, Filled, Fits, KeptAt, Frames.TakenSince, LinksKept;
    ghost var t, pmm := vm.T(), vm.pmm;
    var s := elf.segs[i];
    var page := PageOf(elf, i, p);
    ghost var w := Walk(t, root, PageWithNo(page));
    SharedParts(m0, Mem(t, vm.bytes, pmm), root, pages, elf, i, p);
    StateTree(t, pmm);
    WalkFlags(t, root, PageWithNo(page));
    ghost var e := EntryFor(FrameAt(w, page) * PAGE_SIZE, flags.(writable := true));
    EntryAgain(w, page, flags.(writable := true));
    if s.writable && !flags.writable {
      var phys := vm.GetPhys(root, page * PAGE_SIZE);
      FrameOfPhys(w, page);
      vm.Map(root, page * PAGE_SIZE, phys / PAGE_SIZE * PAGE_SIZE, flags.(writable := true));
      Remap(t, vm.T(), pmm, vm.pmm, root, PageWithNo(page), flags.huge);
    } else {
      Frames.NothingTaken(pmm);
      LinksSame(t);
    }
    StateTree(vm.T(), vm.pmm);
    pages' := SharedOld(m0, Mem(t, vm.bytes, pmm), vm.T(), root, pages, vm.pmm, elf, i, p, e);
    var at := vm.GetPhys(root, page * PAGE_SIZE);
    FrameOfPhys(Walk(vm.T(), root, PageWithNo(page)), page);
    FilledIs(elf, i, p, vm.bytes[FrameAt(w, page)]);
    vm.bytes := vm.bytes[at / PAGE_SIZE := Spliced(vm.bytes[at / PAGE_SIZE], CopyAt(s, p), Copied(elf.file, s, p))];
  }

  /** Giving a mapped page other flags takes at most three frames, for tables. */
  lemma Remap(t: Tree, t': Tree, pmm: Frames.Frames, pmm': Frames.Frames, root: nat, va: Va, huge: bool)
    requires if huge && PtPlace(root, va) in t.tab then pmm' == pmm && t'.tab == t.tab - {PtPlace(root, va)}
             else Spent(t, t', pmm, pmm') && |pmm.free| - |pmm'.free| <= 3
    requires Ok(t) && ValidVa(va) && (huge ==> Walk(t, root, va).Large?)
    ensures Frames.TakenSince(pmm, pmm') && |pmm.free| - |pmm'.free| <= 3 &&
      |pmm.free| - |pmm'.free| == |t'.tab| - |t.tab|
    ensures t.tab.Keys <= t'.tab.Keys
  {
    Frames.NothingTaken(pmm);
    if huge {
      NoTableUnder(t, root, va);
    }
    hide Ok, Walk;
  }

  lemma NoTableUnder(t: Tree, r: nat, va: Va)
    requires Ok(t) && ValidVa(va) && Walk(t, r, va).Large?
    ensures PtPlace(r, va) !in t.tab
  {
    assert LinkOk(t, P2(Owner(r, va.i), va.i, va.j), va.k);
  }

  /** One page of a segment, on the frame that is there if there is one. */
  method FillShared(vm: Vmm, root: nat, elf: Elf, i: nat, p: nat, ghost m0: Mem, ghost pages: map<nat, Page>)
      returns (ghost pages': map<nat, Page>)
    requires vm.Valid() && FileOk(elf.file, elf.segs) && i < |elf.segs| && elf.segs[i].load &&
      p < PageCount(elf.segs[i]) && |vm.pmm.free| >= 5
    requires SharedSoFar(m0, Now(vm), root, pages, elf, i, p)
    modifies vm`tables, vm`bytes, vm`pmm, vm`tab
    ensures vm.Valid() && SharedSoFar(m0, Now(vm), root, pages', elf, i, p + 1)
    ensures |vm.pmm.free| >= |old(vm.pmm).free| - 4 && Ok(m0.t)
    ensures NoneThere(m0.t, elf.segs) ==>
      |old(vm.pmm).free| - |vm.pmm.free| == |pages'| - |pages| + |vm.tab| - |old(vm.tab)|
  {
    hide StateOk, Walk, SharedSoFar, PageWithNo, FileOk, NoneThere, PageOf, PageCount, Ok, VaOf, Touched, Fits,
         KeptAt, Backed;
    ghost var t := vm.T();
    var page := PageOf(elf, i, p);
    SharedParts(m0, Mem(t, vm.bytes, vm.pmm), root, pages, elf, i, p);
    StateTree(t, vm.pmm);
    WalkFlags(t, root, PageWithNo(page));
    var flags := vm.GetFlags(root, page * PAGE_SIZE);
    if !flags.present {
      pages' := AddPage(vm, root, elf, i, p, m0, pages);
    } else {
      pages' := UsePage(vm, root, elf, i, p, flags, m0, pages);
    }
  }

  lemma SharedBegins(m0: Mem, m: Mem, root: nat, pages: map<nat, Page>, elf: Elf, i: nat)
    requires i < |elf.segs| && Shared0(m0, m, root, pages, elf) && Ok(m0.t)
    requires NoneThere(m0.t, elf.segs) ==> Loaded(true, pages, m.bytes, elf, i)
    ensures SharedSoFar(m0, m, root, pages, elf, i, 0)
  {
    hide Shared0, NoneThere, AllOk, Loaded, Ok;
    if NoneThere(m0.t, elf.segs) {
      Begin(true, pages, m.bytes, elf, i);
    }
  }

  lemma SharedEnds(m0: Mem, m: Mem, root: nat, pages: map<nat, Page>, elf: Elf, i: nat, p: nat)
    requires i < |elf.segs| && SharedSoFar(m0, m, root, pages, elf, i, p) && Ok(m0.t)
    requires elf.segs[i].load ==> p == PageCount(elf.segs[i])
    ensures Shared0(m0, m, root, pages, elf)
    ensures NoneThere(m0.t, elf.segs) ==> Loaded(true, pages, m.bytes, elf, i + 1)
  {
    hide Shared0, NoneThere, AllOk, Loaded, Ok, PageCount;
    if NoneThere(m0.t, elf.segs) {
      Finish(true, pages, m.bytes, elf, i, p);
    }
  }

  /** There is memory behind the pages of the segments that the kernel slot maps. */
  ghost predicate BackedBefore(t: Tree, bytes: map<nat, seq<Byte>>, segs: seq<Segment>)
    requires Ok(t)
  {
    forall page: nat :: Touched(segs, |segs|, page) ==> Backed(Before(t, page), bytes, page)
  }

  lemma SharedStart(t0: Tree, m: Mem, root: nat, pmm0: Frames.Frames, elf: Elf)
    requires StateOk(t0, pmm0) && pmm0.free != [] && root == Frames.Top(pmm0) && m.pmm == Frames.Take(pmm0) &&
      Ok(m.t) && SameWalks(t0, m.t)
    requires Ok(t0) && Has(t0, P4(t0.kernel)) && m.t == AddRoot(t0, root) && BackedBefore(t0, m.bytes, elf.segs) &&
      Fits(elf.segs)
    ensures Shared0(Mem(t0, m.bytes, pmm0), m, root, map[], elf) && Loaded(true, map[], m.bytes, elf, 0)
    ensures |m.t.tab| == |t0.tab| + 1 && |m.pmm.free| == |pmm0.free| - 1
  {
    hide Ok, Walk, Good, HugeSame, ApartKept, Spare, Fits, AddRoot, Loaded, NoneThere, Touched, Backed, PageWithNo,
         Before;
    StateTree(t0, pmm0);
    Created(t0, m, root, pmm0);
    NoneYet(true, m.bytes, elf);
    forall page: nat
      ensures Walk(m.t, root, PageWithNo(page)) == Before(t0, page)
    {
      BeforeRoot(t0, root, page);
    }
    hide StateOk, SameWalks;
  }

  /** The frames that small entries of the kernel slot name at the segments' pages are not free. */
  ghost predicate SmallInUse(t: Tree, pmm: Frames.Frames, segs: seq<Segment>)
    requires Ok(t)
  {
    forall page: nat :: Touched(segs, |segs|, page) && Before(t, page).Small? ==> Before(t, page).e.frame !in pmm.free
  }

  lemma SharedRightIff(m0: Mem, m: Mem, root: nat, pages: map<nat, Page>, elf: Elf)
    requires Shared0(m0, m, root, pages, elf) && Ok(m0.t) && Ok(m.t) && SmallInUse(m0.t, m0.pmm, elf.segs)
    requires NoneThere(m0.t, elf.segs) ==> Loaded(true, pages, m.bytes, elf, |elf.segs|)
    ensures Placed(true, m, root, m0.pmm, elf) <==> NoneThere(m0.t, elf.segs)
    ensures Right(true, m, root, m0.pmm, elf) <==> NoneThere(m0.t, elf.segs) && AllUser(m0.t, elf.segs)
    ensures NoneThere(m0.t, elf.segs) ==> ElsewhereSame(m0, m, root, elf.segs)
  {
    hide Ok, Walk, Spare, Fits, Loaded, Touched, Linked, FramesOk, OnlyFree, ElsewhereSame, ElsewhereWiped, Before,
         PageWithNo, Frames.Valid, AllBacked, LinksSince, AllUser, UserAbove;
    if NoneThere(m0.t, elf.segs) {
      LoadedRight(true, m0, m, root, pages, elf);
      GoodElsewhere(true, m0, m, root, pages, elf);
      NothingWiped(m0, m, root, elf.segs);
    } else {
      var page: nat :| Touched(elf.segs, |elf.segs|, page) && !Before(m0.t, page).Absent?;
      assert KeptAt(m0.t, m.t, root, page);
      assert !PagePlaced(true, m, root, m0.pmm, elf, page);
    }
  }

  /** The pages of one segment. */
  method ShareSegment(vm: Vmm, root: nat, elf: Elf, i: nat, ghost m0: Mem, ghost pages: map<nat, Page>)
      returns (ghost pages': map<nat, Page>)
    requires vm.Valid() && FileOk(elf.file, elf.segs) && i < |elf.segs| && elf.segs[i].load
    requires |vm.pmm.free| >= 1 + 4 * PageCount(elf.segs[i])
    requires Shared0(m0, Now(vm), root, pages, elf) && Ok(m0.t)
    requires NoneThere(m0.t, elf.segs) ==> Loaded(true, pages, vm.bytes, elf, i)
    modifies vm`tables, vm`bytes, vm`pmm, vm`tab
    ensures vm.Valid() && Shared0(m0, Now(vm), root, pages', elf)
    ensures NoneThere(m0.t, elf.segs) ==> Loaded(true, pages', vm.bytes, elf, i + 1)
    ensures |old(vm.pmm).free| - |vm.pmm.free| <= 4 * PageCount(elf.segs[i])
    ensures NoneThere(m0.t, elf.segs) ==>
      |old(vm.pmm).free| - |vm.pmm.free| == |pages'| - |pages| + |vm.tab| - |old(vm.tab)|
  {
    hide StateOk, Ok, Shared0, SharedSoFar, Loaded, NoneThere, FileOk, PageCount;
    pages' := pages;
    SharedBegins(m0, Now(vm), root, pages, elf, i);
    for p := 0 to PageCount(elf.segs[i])
      invariant vm.Valid() && SharedSoFar(m0, Now(vm), root, pages', elf, i, p)
      invariant |old(vm.pmm).free| - |vm.pmm.free| <= 4 * p
      invariant NoneThere(m0.t, elf.segs) ==>
        |old(vm.pmm).free| - |vm.pmm.free| == |pages'| - |pages| + |vm.tab| - |old(vm.tab)|
    {
      pages' := FillShared(vm, root, elf, i, p, m0, pages');
    }
    SharedEnds(m0, Now(vm), root, pages', elf, i, PageCount(elf.segs[i]));
  }

  /** All segments. */
  method ShareAll(vm: Vmm, root: nat, elf: Elf, ghost m0: Mem)
      returns (ghost pages: map<nat, Page>)
    requires vm.Valid() && FileOk(elf.file, elf.segs) && |vm.pmm.free| >= 1 + 4 * Needed(elf.segs, 0)
    requires Shared0(m0, Now(vm), root, map[], elf) && Ok(m0.t) && Loaded(true, map[], vm.bytes, elf, 0)
    modifies vm`tables, vm`bytes, vm`pmm, vm`tab
    ensures vm.Valid() && Shared0(m0, Now(vm), root, pages, elf)
    ensures NoneThere(m0.t, elf.segs) ==> Loaded(true, pages, vm.bytes, elf, |elf.segs|)
    ensures NoneThere(m0.t, elf.segs) ==> |old(vm.pmm).free| - |vm.pmm.free| == |pages| + |vm.tab| - |old(vm.tab)|
  {
    hide StateOk, Ok, Shared0, SharedSoFar, Loaded, NoneThere, FileOk, PageCount;
    pages := map[];
    for i := 0 to |elf.segs|
      invariant vm.Valid() && Shared0(m0, Now(vm), root, pages, elf)
      invariant NoneThere(m0.t, elf.segs) ==> Loaded(true, pages, vm.bytes, elf, i)
      invariant |vm.pmm.free| >= 1 + 4 * Needed(elf.segs, i)
      invariant NoneThere(m0.t, elf.segs) ==> |old(vm.pmm).free| - |vm.pmm.free| == |pages| + |vm.tab| - |old(vm.tab)|
    {
      NeededHere(elf.segs, i);
      if elf.segs[i].load {
        pages := ShareSegment(vm, root, elf, i, m0, pages);
      } else {
        SharedBegins(m0, Now(vm), root, pages, elf, i);
        SharedEnds(m0, Now(vm), root, pages, elf, i, 0);
      }
    }
  }

  /** The pages of all segments, each once. */
  ghost function TouchedPages(segs: seq<Segment>): set<nat>
    requires Fits(segs)
  {
    set page: nat | page < PAGES && Touched(segs, |segs|, page)
  }

  lemma PagesCounted(pages: map<nat, Page>, bytes: map<nat, seq<Byte>>, elf: Elf)
    requires Loaded(true, pages, bytes, elf, |elf.segs|) && Fits(elf.segs)
    ensures |pages| == |TouchedPages(elf.segs)|
  {
    hide Touched, LoadedByte, LoadedWritable, Fits;
    forall page: nat
      ensures page in pages <==> Touched(elf.segs, |elf.segs|, page)
    {
      assert PageOk(true, pages, bytes, elf, |elf.segs|, page);
    }
    hide PageOk, Loaded;
    forall page: nat | Touched(elf.segs, |elf.segs|, page) {
      TouchedFits(elf.segs, |elf.segs|, page);
    }
    assert pages.Keys == TouchedPages(elf.segs);
    assert |pages.Keys| == |pages|;
  }

  /** `elf_load` with pages shared between segments (src/kernel/core/elf.c), given enough frames. The program is loaded
      right exactly if none of its pages is mapped in the kernel slot and the slot's entries above them let user code
      through. If none is mapped there nothing else has changed, and one frame has been taken for each page and each
      table. */
  method LoadShared(vm: Vmm, elf: Elf) returns (ok: bool, entry: nat, root: nat)
    requires vm.Valid() && FileOk(elf.file, elf.segs) && Fits(elf.segs) && |vm.pmm.free| >= 2 + 4 * Needed(elf.segs, 0)
    requires Ok(vm.T()) && BackedBefore(vm.T(), vm.bytes, elf.segs) && SmallInUse(vm.T(), vm.pmm, elf.segs)
    modifies vm`tables, vm`bytes, vm`pmm, vm`tab
    ensures vm.Valid() && (ok <==> elf.magic == MAGIC)
    ensures !ok ==> vm.T() == old(vm.T()) && vm.bytes == old(vm.bytes) && vm.pmm == old(vm.pmm)
    ensures ok ==> entry == elf.entry && P4(root) in vm.tab && P4(root) !in old(vm.tab)
    ensures ok ==> (Placed(true, Now(vm), root, old(vm.pmm), elf) <==>
                    NoneThere(old(vm.T()), elf.segs))
    ensures ok ==> (Right(true, Now(vm), root, old(vm.pmm), elf) <==>
                    NoneThere(old(vm.T()), elf.segs) && AllUser(old(vm.T()), elf.segs))
    ensures ok && NoneThere(old(vm.T()), elf.segs) ==>
      ElsewhereSame(old(Now(vm)), Now(vm), root, elf.segs) &&
      |old(vm.pmm).free| - |vm.pmm.free| == |TouchedPages(elf.segs)| + |vm.tab| - |old(vm.tab)|
  {
    hide StateOk, Ok, Shared0, SharedSoFar, Loaded, NoneThere, AllUser, Placed, Right, ElsewhereSame, SameWalks,
         AddRoot, BackedBefore, SmallInUse, Fits, PageCount, FileOk, Has, TouchedPages;
    entry, root := 0, 0;
    if elf.magic != MAGIC {
      ok := false;
      return;
    }
    ghost var m0 := Now(vm);
    root := CreateAddressSpace(vm);
    entry := elf.entry;
    StateTree(vm.T(), vm.pmm);
    SharedStart(m0.t, Now(vm), root, m0.pmm, elf);
    ghost var pages := ShareAll(vm, root, elf, m0);
    StateTree(vm.T(), vm.pmm);
    SharedRightIff(m0, Now(vm), root, pages, elf);
    if NoneThere(m0.t, elf.segs) {
      PagesCounted(pages, vm.bytes, elf);
    }
    SharedRooted(m0, Now(vm), root, pages, elf);
    ok := true;
  }

  lemma SharedRooted(m0: Mem, m: Mem, root: nat, pages: map<nat, Page>, elf: Elf)
    requires Shared0(m0, m, root, pages, elf)
    ensures P4(root) in m.t.tab && P4(root) !in m0.t.tab
  {
    SpareRoot(m0.t, root);
  }

  // ----- the image a program finds

  /** The byte a program reads at `a`: the page is mapped, and every entry on the way lets user code through. */
  ghost predicate Reads(m: Mem, root: nat, a: nat, b: Byte)
    requires Ok(m.t)
  {
    var w := Walk(m.t, root, VaOf(a));
    && w.Small? && w.e.flags.user && UserAbove(m.t, root, VaOf(a))
    && w.e.frame in m.bytes && a % PAGE_SIZE < |m.bytes[w.e.frame]| && m.bytes[w.e.frame][a % PAGE_SIZE] == b
  }

  lemma ReadsRight(shared: bool, m: Mem, root: nat, pmm0: Frames.Frames, elf: Elf, a: nat)
    requires Ok(m.t) && Right(shared, m, root, pmm0, elf) && Touched(elf.segs, |elf.segs|, a / PAGE_SIZE)
    ensures Reads(m, root, a, LoadedByte(shared, elf, |elf.segs|, a))
  {
    hide LoadedByte, LoadedWritable, Touched, Ok, Walk, VaOf, UserAbove;
    SamePage(a);
    assert PagePlaced(shared, m, root, pmm0, elf, a / PAGE_SIZE);
    assert a / PAGE_SIZE * PAGE_SIZE + a % PAGE_SIZE == a;
  }

  lemma {:induction false} TouchedBy(segs: seq<Segment>, i: nat, n: nat, page: nat)
    requires i < n <= |segs| && Touches(segs[i], page)
    ensures Touched(segs, n, page)
  {
    if i < n - 1 {
      TouchedBy(segs, i, n - 1, page);
    }
  }

  lemma WantedIs(file: seq<Byte>, s: Segment, k: nat)
    requires s.load && k < s.memsz && s.offset + s.filesz <= |file|
    ensures InMemory(s, s.vaddr + k) && Wanted(file, s, s.vaddr + k) == if k < s.filesz then file[s.offset + k] else 0
  {
    MemoryTouched(s, s.vaddr + k);
  }

  /** The page-sharing loader: when `Right` holds, byte `k` of every loadable segment is the file's byte, or zero past
      the file part. */
  lemma SharedImage(m: Mem, root: nat, pmm0: Frames.Frames, elf: Elf, i: nat, k: nat)
    requires Ok(m.t) && Right(true, m, root, pmm0, elf) && Disjoint(elf.segs) && FileOk(elf.file, elf.segs)
    requires i < |elf.segs| && elf.segs[i].load && k < elf.segs[i].memsz
    ensures var s := elf.segs[i]; Reads(m, root, s.vaddr + k, if k < s.filesz then elf.file[s.offset + k] else 0)
  {
    hide Right, Reads, Touches, Wanted, Disjoint, Ok;
    var s := elf.segs[i];
    WantedIs(elf.file, s, k);
    MemoryTouched(s, s.vaddr + k);
    TouchedBy(elf.segs, i, |elf.segs|, (s.vaddr + k) / PAGE_SIZE);
    ReadsRight(true, m, root, pmm0, elf, s.vaddr + k);
    SharedRight(elf.file, elf.segs, i, |elf.segs|, s.vaddr + k);
  }

  /** The fresh-frame loader: so it is for the segments whose pages no other segment touches. */
  lemma FreshImage(m: Mem, root: nat, pmm0: Frames.Frames, elf: Elf, i: nat, k: nat)
    requires Ok(m.t) && Right(false, m, root, pmm0, elf) && Disjoint(elf.segs) && FileOk(elf.file, elf.segs)
    requires i < |elf.segs| && elf.segs[i].load && k < elf.segs[i].memsz
    requires forall j, page :: 0 <= j < |elf.segs| && j != i && Touches(elf.segs[i], page) ==>
      !Touches(elf.segs[j], page)
    ensures var s := elf.segs[i]; Reads(m, root, s.vaddr + k, if k < s.filesz then elf.file[s.offset + k] else 0)
  {
    hide Right, Reads, Touches, Wanted, Disjoint, Ok;
    var s := elf.segs[i];
    WantedIs(elf.file, s, k);
    MemoryTouched(s, s.vaddr + k);
    TouchedBy(elf.segs, i, |elf.segs|, (s.vaddr + k) / PAGE_SIZE);
    ReadsRight(false, m, root, pmm0, elf, s.vaddr + k);
    FreshRight(elf.file, elf.segs, i, s.vaddr + k);
  }

  // ----- on the tables the boot code leaves behind

  /** Under 512 GiB the kernel slot decides, and there the boot code has mapped the first four gigabytes. */
  lemma BeforeBoot(f: Frames6, words: map<nat, seq<Entry>>, page: nat)
    requires Apart(f) && Ok(BootTree(f, words)) && page < PAGES
    ensures Before(BootTree(f, words), page) ==
            if page < 0x10_0000 then Large(Entry(page / 512 * 512, HUGE_FLAGS)) else Absent
  {
    LowAddress(f, words, f.p4, page * PAGE_SIZE);
    PageWithNoIs(page);
    var va := PageWithNo(page);
    hide Ok, Walk;
    assert page * PAGE_SIZE / HUGE_SIZE == page / 512;
    assert page < 0x10_0000 ==> va.i == 0;
    hide PageWithNo, VaOf;
  }

  /** The segments have no page below four gigabytes. */
  ghost predicate AboveHuge(segs: seq<Segment>) {
    forall page: nat :: Touched(segs, |segs|, page) ==> page >= 0x10_0000
  }

  /** Or only pages in the first 2 MiB. */
  ghost predicate ClearOfHuge(segs: seq<Segment>) {
    forall page: nat :: Touched(segs, |segs|, page) ==> page < 0x200 || page >= 0x10_0000
  }

  /** The segments have no page below 512 GiB, in the slot the spaces share. */
  ghost predicate AboveSlot(segs: seq<Segment>) {
    forall page: nat :: Touched(segs, |segs|, page) ==> page >= 0x800_0000
  }

  /** The boot code's first entry does not let user code through. */
  lemma UserBoot(f: Frames6, words: map<nat, seq<Entry>>, page: nat)
    requires Apart(f) && page < PAGES
    ensures UserBefore(BootTree(f, words), page) <==> page >= 0x800_0000
  {
    PageWithNoIs(page);
    var va := PageWithNo(page);
    hide PageWithNo;
    assert va.i == 0 <==> page < 0x800_0000;
    var t := BootTree(f, words);
    assert Has(t, P4(f.p4)) && At(t, P4(f.p4), 0) == Entry(f.p3, DIR_FLAGS);
    hide BootTree;
  }

  /** There a program has its pages on frames of its own exactly if none of them is below four gigabytes, except that
      the first loader also finds frames for those in the first 2 MiB. */
  lemma BootPlaced(f: Frames6, words: map<nat, seq<Entry>>, segs: seq<Segment>)
    requires Apart(f) && Ok(BootTree(f, words)) && Fits(segs)
    ensures NoneHuge(BootTree(f, words), segs) <==> ClearOfHuge(segs)
    ensures NoneThere(BootTree(f, words), segs) <==> AboveHuge(segs)
  {
    hide Ok, Walk, Touched, Fits, Before, BootTree;
    var t := BootTree(f, words);
    forall page: nat | Touched(segs, |segs|, page)
      ensures FullLarge(Before(t, page)) <==> 0x200 <= page < 0x10_0000
      ensures Before(t, page).Absent? <==> page >= 0x10_0000
    {
      TouchedFits(segs, |segs|, page);
      BeforeBoot(f, words, page);
    }
  }

  /** There, with either loader, a program is loaded right exactly if it has no page below 512 GiB. */
  lemma LoadableIff(f: Frames6, words: map<nat, seq<Entry>>, segs: seq<Segment>)
    requires Apart(f) && Ok(BootTree(f, words)) && Fits(segs)
    ensures NoneHuge(BootTree(f, words), segs) && AllUser(BootTree(f, words), segs) <==> AboveSlot(segs)
    ensures NoneThere(BootTree(f, words), segs) && AllUser(BootTree(f, words), segs) <==> AboveSlot(segs)
  {
    BootPlaced(f, words, segs);
    hide Ok, Touched, Fits, NoneHuge, NoneThere, UserBefore, BootTree;
    var t := BootTree(f, words);
    forall page: nat | Touched(segs, |segs|, page)
      ensures UserBefore(t, page) <==> page >= 0x800_0000
    {
      TouchedFits(segs, |segs|, page);
      UserBoot(f, words, page);
    }
    if page: nat :| Touched(segs, |segs|, page) && page < 0x800_0000 {
      assert !UserBefore(t, page);
    }
  }

  /** A page at 8 GiB, above all the boot code has mapped: both loaders put it on a frame, and the program cannot read
      it. */
  lemma PageAt8GiB(f: Frames6, words: map<nat, seq<Entry>>, s: Segment)
    requires Apart(f) && Ok(BootTree(f, words)) && s.load && s.vaddr == 0x2_0000_0000 && 0 < s.memsz <= PAGE_SIZE
    ensures Fits([s]) && NoneHuge(BootTree(f, words), [s]) && NoneThere(BootTree(f, words), [s])
    ensures !AllUser(BootTree(f, words), [s])
  {
    OnePage(s, 0x20_0000);
    BootPlaced(f, words, [s]);
    LoadableIff(f, words, [s]);
    hide Ok, Touched, NoneHuge, NoneThere, AllUser;
    assert Touched([s], |[s]|, 0x20_0000);
    assert !AboveSlot([s]);
  }

  /** A segment within one page. */
  lemma OnePage(s: Segment, p: nat)
    requires s.load && s.vaddr == p * PAGE_SIZE && 0 < s.memsz <= PAGE_SIZE && p < PAGES
    ensures Fits([s]) && PageCount(s) == 1 && Needed([s], 0) == 1
    ensures forall page: nat :: Touched([s], 1, page) <==> page == p
  {
    assert (s.vaddr + s.memsz + PAGE_SIZE - 1) / PAGE_SIZE == p + 1;
  }

  /** The shell is linked at 4 MiB (src/apps/shell/linker.ld): neither loader loads it right. */
  lemma ShellAt4MiB(f: Frames6, words: map<nat, seq<Entry>>, segs: seq<Segment>, i: nat)
    requires Apart(f) && Ok(BootTree(f, words)) && Fits(segs) && i < |segs| && segs[i].load &&
      segs[i].vaddr == 0x40_0000 && segs[i].memsz > 0
    ensures !NoneHuge(BootTree(f, words), segs) && !NoneThere(BootTree(f, words), segs)
  {
    BootPlaced(f, words, segs);
    assert Touched(segs, |segs|, 0x400) by {
      MemoryTouched(segs[i], 0x40_0000);
      TouchedBy(segs, i, |segs|, 0x40_0000 / PAGE_SIZE);
    }
    hide Ok, Touched, NoneHuge, NoneThere, Fits, BootTree;
  }

  /** The first loader on those tables: the program finds at 4 MiB whatever memory holds there, and not the file. */
  method LoadShell(f: Frames6, words: map<nat, seq<Entry>>, tables: map<nat, seq<Entry>>, bytes: map<nat, seq<Byte>>,
                   pmm: Frames.Frames, elf: Elf,
                   ghost tab: map<Pos, nat>) returns (vm: Vmm, root: nat)
    requires Fresh(f, words, bytes, pmm) && Tree(tables, tab, f.p4) == BootTree(f, words) && elf.magic == MAGIC
    requires FileOk(elf.file, elf.segs) && Fits(elf.segs) && |pmm.free| >= 2 + 4 * Needed(elf.segs, 0)
    requires Ok(BootTree(f, words)) && HugeApart(BootTree(f, words), pmm, elf.segs)
    requires |elf.segs| > 0 && elf.segs[0].load && elf.segs[0].vaddr == 0x40_0000 && elf.segs[0].memsz > 0
    ensures Ok(vm.T()) && !Right(false, Now(vm), root, pmm, elf)
  {
    hide StateOk, Ok, Fits, FileOk, HugeApart, Right, Placed, AllUser, NoneHuge, ElsewhereWiped, BootTree, Fresh;
    BootState(f, words, bytes, pmm);
    vm := new Vmm(tables, bytes, pmm, f.p4, tab);
    assert Apart(f) by { FreshApart(f, words, bytes, pmm); }
    ShellAt4MiB(f, words, elf.segs, 0);
    var ok, entry;
    ok, entry, root := LoadFresh(vm, elf);
    StateTree(vm.T(), vm.pmm);
  }

  /** Every address in the first 2 MiB but those of page 1 was mapped, and no space has it any more. */
  ghost predicate LowLost(t: Tree, t': Tree)
    requires Ok(t) && Ok(t')
  {
    forall r, a: nat :: a < 0x20_0000 && a / PAGE_SIZE != 1 ==>
      Walk(t, r, VaOf(a)).Large? && Walk(t', r, VaOf(a)).Absent?
  }

  /** The first loader with a program at 4 KiB: its page is on a frame of its own, and the rest of the first 2 MiB, with
      the text screen at 0xB8000 and the kernel at 1 MiB (linker.ld), is gone from every space, the kernel's own among
      them. */
  method LoadLow(f: Frames6, words: map<nat, seq<Entry>>, tables: map<nat, seq<Entry>>, bytes: map<nat, seq<Byte>>,
                 pmm: Frames.Frames, elf: Elf,
                 ghost tab: map<Pos, nat>) returns (vm: Vmm, root: nat)
    requires Fresh(f, words, bytes, pmm) && Tree(tables, tab, f.p4) == BootTree(f, words) && elf.magic == MAGIC
    requires FileOk(elf.file, elf.segs) && |elf.segs| == 1 && |pmm.free| >= 6
    requires elf.segs[0].load && elf.segs[0].vaddr == 0x1000 && 0 < elf.segs[0].memsz <= PAGE_SIZE
    ensures Ok(vm.T()) && Ok(BootTree(f, words)) && vm.kernel == f.p4
    ensures PagePlaced(false, Now(vm), root, pmm, elf, 1)
    ensures LowLost(BootTree(f, words), vm.T())
  {
    hide StateOk, Ok, FileOk, Right, AllUser, NoneHuge, ElsewhereWiped, BootTree, Fresh, Walk, Touched, Fits, Needed,
         PagePlaced, HugeApart, LowLost;
    BootState(f, words, bytes, pmm);
    vm := new Vmm(tables, bytes, pmm, f.p4, tab);
    StateTree(vm.T(), vm.pmm);
    assert Apart(f) by { FreshApart(f, words, bytes, pmm); }
    LowApart(f, words, pmm, elf.segs);
    var ok, entry;
    ok, entry, root := LoadFresh(vm, elf);
    StateTree(vm.T(), vm.pmm);
    LowGone(f, words, Now(vm), root, bytes, pmm, elf.segs);
  }

  lemma LowApart(f: Frames6, words: map<nat, seq<Entry>>, pmm: Frames.Frames, segs: seq<Segment>)
    requires Apart(f) && Ok(BootTree(f, words)) && |segs| == 1 && segs[0].load && segs[0].vaddr == 0x1000
    requires 0 < segs[0].memsz <= PAGE_SIZE
    ensures Fits(segs) && Needed(segs, 0) == 1 && Touched(segs, |segs|, 1)
    ensures HugeApart(BootTree(f, words), pmm, segs) && NoneHuge(BootTree(f, words), segs)
  {
    OnePage(segs[0], 1);
    assert segs == [segs[0]];
    BootPlaced(f, words, segs);
    hide Ok, BootTree, Touched, Before;
  }

  lemma LowGone(f: Frames6, words: map<nat, seq<Entry>>, m: Mem, root: nat, bytes0: map<nat, seq<Byte>>,
                pmm0: Frames.Frames, segs: seq<Segment>)
    requires Apart(f) && Ok(BootTree(f, words)) && Ok(m.t) && |segs| == 1 && segs[0].load && segs[0].vaddr == 0x1000
    requires 0 < segs[0].memsz <= PAGE_SIZE
    requires ElsewhereWiped(Mem(BootTree(f, words), bytes0, pmm0), m, root, segs)
    ensures LowLost(BootTree(f, words), m.t)
  {
    OnePage(segs[0], 1);
    assert segs == [segs[0]];
    hide Ok, Walk, BootTree, Touched, ElsewhereWiped, VaOf, NullLarge, Apart;
    forall r, a: nat | a < 0x20_0000 && a / PAGE_SIZE != 1
      ensures Walk(BootTree(f, words), r, VaOf(a)).Large? && Walk(m.t, r, VaOf(a)).Absent?
    {
      LowNull(f, words, r, a);
      GoneAt(BootTree(f, words), m, root, bytes0, pmm0, segs, r, a);
    }
  }

  lemma LowNull(f: Frames6, words: map<nat, seq<Entry>>, r: nat, a: nat)
    requires Apart(f) && Ok(BootTree(f, words)) && a < 0x20_0000
    ensures NullLarge(Walk(BootTree(f, words), r, VaOf(a))) && Walk(BootTree(f, words), r, VaOf(a)).Large?
  {
    LowAddress(f, words, r, a);
    hide Ok, Walk, BootTree, VaOf;
  }

  lemma GoneAt(t0: Tree, m: Mem, root: nat, bytes0: map<nat, seq<Byte>>, pmm0: Frames.Frames, segs: seq<Segment>,
               r: nat, a: nat)
    requires Ok(t0) && Ok(m.t) && ElsewhereWiped(Mem(t0, bytes0, pmm0), m, root, segs)
    requires Touched(segs, |segs|, 1) && !Touched(segs, |segs|, a / PAGE_SIZE) && a < 0x20_0000
    requires NullLarge(Walk(t0, r, VaOf(a)))
    ensures Walk(m.t, r, VaOf(a)).Absent?
  {
    PageOfAddress(a);
    LowVa(a);
    LowChunk(segs, a / PAGE_SIZE);
    hide Ok, Walk, Touched, PageNo, VaOf, OnlyFree, ChunkTouched, NullLarge;
  }

  lemma LowChunk(segs: seq<Segment>, page: nat)
    requires Touched(segs, |segs|, 1) && page < 0x200
    ensures ChunkTouched(segs, page)
  {
    hide Touched;
  }

  lemma LowVa(a: nat)
    requires a < 0x20_0000
    ensures ValidVa(VaOf(a)) && VaOf(a).i == 0
  {
  }

  lemma FreshApart(f: Frames6, words: map<nat, seq<Entry>>, bytes: map<nat, seq<Byte>>, pmm: Frames.Frames)
    requires Fresh(f, words, bytes, pmm)
    ensures Apart(f)
  {
  }
}
