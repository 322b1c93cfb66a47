/** The kernel heap over its memory: headers are words in the heap itself, linked by their addresses. */
module Heap {
  import opened HeapBlocks
  import opened HeapLaws

  /** The heap's memory, by the address of each 8-byte cell. A header is three cells: size, is_free, next. */
  type Ram = map<int, int>

  datatype Stats = Stats(allocCount: int, freeCount: int, live: int, bytesUsed: int, peak: int, bytesFree: int,
                         largestFree: int, failed: int)

  ghost predicate InRam(mem: Ram) {
    forall a :: START <= a < LIMIT && a % 8 == 0 ==> a in mem
  }

  function NextOf(bs: seq<Block>, i: nat): nat {
    if i + 1 < |bs| then bs[i + 1].at else 0
  }

  ghost predicate Stored(mem: Ram, bs: seq<Block>, i: nat)
    requires i < |bs|
  {
    var b := bs[i];
    && b.at in mem && b.at + 8 in mem && b.at + 16 in mem
    && mem[b.at] == b.size && mem[b.at + 8] == (if b.free then 1 else 0) && mem[b.at + 16] == NextOf(bs, i)
  }

  ghost predicate AllStored(mem: Ram, bs: seq<Block>) {
    forall i: nat :: i < |bs| ==> Stored(mem, bs, i)
  }

  /** The two memories agree outside `[lo, hi)`. */
  ghost predicate SameOutside(m: Ram, m': Ram, lo: nat, hi: nat) {
    m'.Keys == m.Keys && forall a :: a in m && !(lo <= a < hi) ==> m'[a] == m[a]
  }

  /** The cell belongs to the payload of a used block. */
  ghost predicate LiveCell(bs: seq<Block>, a: int) {
    exists i :: 0 <= i < |bs| && !bs[i].free && bs[i].at + HEADER <= a < End(bs[i])
  }

  /** No cell of a live payload differs. */
  ghost predicate PayloadsKept(bs: seq<Block>, m: Ram, m': Ram) {
    m'.Keys == m.Keys && forall a :: a in m && LiveCell(bs, a) ==> m'[a] == m[a]
  }

  // ----- memory and blocks

  lemma FirstFitIs(bs: seq<Block>, n: nat, i: nat)
    requires i <= |bs| && forall j :: 0 <= j < i ==> !(bs[j].free && bs[j].size >= n)
    requires i < |bs| ==> bs[i].free && bs[i].size >= n
    ensures FirstFit(bs, n) == i
  {
  }

  lemma CellsInRam(mem: Ram, bs: seq<Block>, i: nat)
    requires InRam(mem) && Tiled(bs) && i < |bs|
    ensures bs[i].at in mem && bs[i].at + 8 in mem && bs[i].at + 16 in mem
  {
    InHeap(bs, i);
  }

  /** A header outside a changed stretch is still stored, if its link is the same. */
  lemma StoredStill(m: Ram, m': Ram, bs: seq<Block>, i: nat, bs': seq<Block>, j: nat, lo: nat, hi: nat)
    requires i < |bs| && j < |bs'| && Stored(m, bs, i) && SameOutside(m, m', lo, hi) && bs'[j] == bs[i]
    requires bs[i].at + HEADER <= lo || hi <= bs[i].at
    requires NextOf(bs', j) == NextOf(bs, i)
    ensures Stored(m', bs', j)
  {
  }

  lemma OtherPayloads(bs: seq<Block>, i: nat, m: Ram, m': Ram)
    requires Tiled(bs) && i < |bs| && bs[i].free && SameOutside(m, m', bs[i].at, End(bs[i]))
    ensures PayloadsKept(bs, m, m')
  {
    forall a | a in m && LiveCell(bs, a)
      ensures m'[a] == m[a]
    {
      var j :| 0 <= j < |bs| && !bs[j].free && bs[j].at + HEADER <= a < End(bs[j]);
      Disjoint(bs, j, i, a);
    }
  }

  /** The memory after block `i` has been given out. */
  function AllocRam(mem: Ram, bs: seq<Block>, i: nat, n: nat): Ram
    requires i < |bs|
  {
    var b := bs[i];
    if b.size >= n + HEADER + 8 then
      var nb := b.at + HEADER + n;
      mem[nb := b.size - n - HEADER][nb + 8 := 1][nb + 16 := NextOf(bs, i)][b.at := n][b.at + 16 := nb][b.at + 8 := 0]
    else
      mem[b.at + 8 := 0]
  }

  lemma AllocOutside(mem: Ram, bs: seq<Block>, i: nat, n: nat)
    requires InRam(mem) && Tiled(bs) && i < |bs| && n % 8 == 0
    ensures SameOutside(mem, AllocRam(mem, bs, i, n), bs[i].at, End(bs[i]))
  {
    CellsInRam(mem, bs, i);
    InHeap(bs, i);
  }

  /** The headers of the block given out and of what is split off. */
  lemma AllocHeaders(mem: Ram, bs: seq<Block>, i: nat, n: nat)
    requires InRam(mem) && Tiled(bs) && i < |bs| && n % 8 == 0 && AllStored(mem, bs)
    ensures var m', bs' := AllocRam(mem, bs, i, n), Allocated(bs, i, n);
      Stored(m', bs', i) && (bs[i].size >= n + HEADER + 8 ==> Stored(m', bs', i + 1))
  {
    hide AllStored, InRam, Tiled;
    assert Stored(mem, bs, i) by { StoredAt(mem, bs, i); }
    var split := bs[i].size >= n + HEADER + 8;
    var bs' := Allocated(bs, i, n);
    assert bs'[i] == Block(bs[i].at, if split then n else bs[i].size, false);
    assert split ==> bs'[i + 1] == Block(bs[i].at + HEADER + n, bs[i].size - n - HEADER, true);
    assert |bs'| == |bs| + (if split then 1 else 0);
    if i + 1 < |bs| {
      assert bs'[if split then i + 2 else i + 1] == bs[i + 1];
    }
    hide Allocated;
  }

  lemma StoredAt(mem: Ram, bs: seq<Block>, i: nat)
    requires AllStored(mem, bs) && i < |bs|
    ensures Stored(mem, bs, i)
  {
  }

  lemma AllocStored(mem: Ram, bs: seq<Block>, i: nat, n: nat)
    requires InRam(mem) && Tiled(bs) && i < |bs| && n % 8 == 0 && AllStored(mem, bs)
    ensures AllStored(AllocRam(mem, bs, i, n), Allocated(bs, i, n))
  {
    var m', bs' := AllocRam(mem, bs, i, n), Allocated(bs, i, n);
    AllocOutside(mem, bs, i, n);
    AllocHeaders(mem, bs, i, n);
    hide AllocRam, SameOutside, InRam;
    var split := bs[i].size >= n + HEADER + 8;
    forall j: nat | j < |bs'|
      ensures Stored(m', bs', j)
    {
      if j < i {
        Ordered(bs, j, i);
        StoredStill(mem, m', bs, j, bs', j, bs[i].at, End(bs[i]));
      } else if split && j > i + 1 {
        Ordered(bs, i, j - 1);
        StoredStill(mem, m', bs, j - 1, bs', j, bs[i].at, End(bs[i]));
      } else if !split && j > i {
        Ordered(bs, i, j);
        StoredStill(mem, m', bs, j, bs', j, bs[i].at, End(bs[i]));
      }
    }
  }

  lemma FreeStored(mem: Ram, bs: seq<Block>, i: nat)
    requires InRam(mem) && Tiled(bs) && i < |bs| && AllStored(mem, bs)
    ensures var m' := mem[bs[i].at + 8 := 1];
      AllStored(m', bs[i := bs[i].(free := true)]) && SameOutside(mem, m', bs[i].at, bs[i].at + HEADER)
  {
    var m', bs' := mem[bs[i].at + 8 := 1], bs[i := bs[i].(free := true)];
    CellsInRam(mem, bs, i);
    forall j: nat | j < |bs'|
      ensures Stored(m', bs', j)
    {
      assert Stored(mem, bs, j);
      if j < i {
        Ordered(bs, j, i);
      } else if i < j {
        Ordered(bs, i, j);
      }
    }
  }

  // ----- one step of the merging loop

  function JoinAt(bs: seq<Block>, i: nat): seq<Block>
    requires i + 1 < |bs|
  {
    bs[..i] + [Join(bs[i], bs[i + 1])] + bs[i + 2..]
  }

  lemma JoinTiled(bs: seq<Block>, i: nat)
    requires Tiled(bs) && i + 1 < |bs|
    ensures Tiled(JoinAt(bs, i))
  {
    var bs' := JoinAt(bs, i);
    assert bs[i + 1].at == End(bs[i]);
    forall j | 0 <= j < |bs'| - 1
      ensures bs'[j + 1].at == End(bs'[j])
    {
      if j < i {
        assert bs[j + 1].at == End(bs[j]);
      } else {
        assert bs[j + 1 + 1].at == End(bs[j + 1]);
      }
    }
  }

  lemma JoinStored(mem: Ram, bs: seq<Block>, i: nat)
    requires InRam(mem) && Tiled(bs) && i + 1 < |bs| && AllStored(mem, bs)
    ensures var m' := mem[bs[i].at := bs[i].size + bs[i + 1].size + HEADER][bs[i].at + 16 := NextOf(bs, i + 1)];
      AllStored(m', JoinAt(bs, i)) && SameOutside(mem, m', bs[i].at, bs[i].at + HEADER)
  {
    var m', bs' := mem[bs[i].at := bs[i].size + bs[i + 1].size + HEADER][bs[i].at + 16 := NextOf(bs, i + 1)],
      JoinAt(bs, i);
    CellsInRam(mem, bs, i);
    assert Stored(mem, bs, i);
    forall j: nat | j < |bs'|
      ensures Stored(m', bs', j)
    {
      if j < i {
        Ordered(bs, j, i);
        assert Stored(mem, bs, j);
        StoredStill(mem, m', bs, j, bs', j, bs[i].at, bs[i].at + HEADER);
      } else if i < j {
        Ordered(bs, i, j + 1);
        assert Stored(mem, bs, j + 1);
        StoredStill(mem, m', bs, j + 1, bs', j, bs[i].at, bs[i].at + HEADER);
      }
    }
  }

  /** Merging two free blocks is one round of coalescing. */
  lemma JoinCoalesces(bs: seq<Block>, i: nat)
    requires i + 1 < |bs|
    ensures bs[i].free && bs[i + 1].free ==> Coalesced(bs[i..]) == Coalesced(JoinAt(bs, i)[i..])
    ensures !(bs[i].free && bs[i + 1].free) ==> bs[..i] + Coalesced(bs[i..]) == bs[..i + 1] + Coalesced(bs[i + 1..])
  {
    assert bs[i..][1..] == bs[i + 1..] && bs[i..][2..] == bs[i + 2..];
    if bs[i].free && bs[i + 1].free {
      assert JoinAt(bs, i)[i..] == [Join(bs[i], bs[i + 1])] + bs[i + 2..];
    } else {
      assert bs[..i] + ([bs[i]] + Coalesced(bs[i + 1..])) == bs[..i + 1] + Coalesced(bs[i + 1..]);
    }
  }

  /** The used blocks of `bs0` are all in `bs`. */
  ghost predicate StillUsed(bs0: seq<Block>, bs: seq<Block>) {
    forall b :: b in bs0 && !b.free ==> b in bs
  }

  lemma JoinKeeps(bs0: seq<Block>, bs: seq<Block>, i: nat, m0: Ram, m: Ram, m': Ram)
    requires Tiled(bs) && i + 1 < |bs| && bs[i].free && bs[i + 1].free && StillUsed(bs0, bs)
    requires PayloadsKept(bs0, m0, m) && SameOutside(m, m', bs[i].at, bs[i].at + HEADER)
    ensures StillUsed(bs0, JoinAt(bs, i)) && PayloadsKept(bs0, m0, m')
  {
    forall b | b in bs0 && !b.free
      ensures b in JoinAt(bs, i)
    {
      var j :| 0 <= j < |bs| && bs[j] == b;
      assert b == if j < i then JoinAt(bs, i)[j] else JoinAt(bs, i)[j - 1];
    }
    forall a | a in m0 && LiveCell(bs0, a)
      ensures m'[a] == m0[a]
    {
      var k :| 0 <= k < |bs0| && !bs0[k].free && bs0[k].at + HEADER <= a < End(bs0[k]);
      var j :| 0 <= j < |bs| && bs[j] == bs0[k];
      Disjoint(bs, j, i, a);
    }
  }

  class KernelHeap {
    var mem: Ram
    var head: int
    var stats: Stats
    ghost var blocks: seq<Block>

    ghost predicate Valid()
      reads this
    {
      && Tiled(blocks) && Merged(blocks) && InRam(mem) && AllStored(mem, blocks) && head == START
      && stats.live == UsedCount(blocks) && stats.bytesUsed == UsedBytes(blocks) && stats.bytesUsed <= stats.peak
    }

    /** `kmalloc_init`, on memory holding anything. */
    constructor (ram: Ram)
      requires InRam(ram)
      ensures Valid() && blocks == Initial
      ensures stats == Stats(0, 0, 0, 0, 0, SIZE - HEADER, SIZE - HEADER, 0)
    {
      InitialOk();
      mem := ram[START := SIZE - HEADER][START + 8 := 1][START + 16 := 0];
      head := START;
      stats := Stats(0, 0, 0, 0, 0, SIZE - HEADER, SIZE - HEADER, 0);
      blocks := Initial;
    }

    /** `kmalloc`: the first block that fits, or null; live payloads are not touched. */
    method Kmalloc(n: nat) returns (p: nat)
      requires Valid() && n < 0x1_0000_0000_0000_0000
      modifies this
      ensures Valid()
      ensures var i := FirstFit(old(blocks), Round(n));
        if i < |old(blocks)| then p == old(blocks)[i].at + HEADER && blocks == Allocated(old(blocks), i, Round(n))
        else p == 0 && blocks == old(blocks) && mem == old(mem)
      ensures PayloadsKept(old(blocks), old(mem), mem)
      ensures stats == if p == 0 then old(stats).(failed := old(stats).failed + 1)
                       else old(stats).(allocCount := old(stats).allocCount + 1, live := UsedCount(blocks),
                                        bytesUsed := UsedBytes(blocks),
                                        peak := if UsedBytes(blocks) > old(stats).peak then UsedBytes(blocks)
                                          else old(stats).peak)
    {
      hide Tiled, Merged, InRam, UsedCount, UsedBytes, Allocated, AllocRam, FirstFit, PayloadsKept, SameOutside, End,
           Stored, AllStored;
      RoundCovers(n);
      var size := Round(n);
      FirstBlock(blocks);
      var curr := head;
      ghost var i := 0;
      while curr != 0
        invariant mem == old(mem) && blocks == old(blocks) && stats == old(stats) && head == START && i <= |blocks|
        invariant i < |blocks| ==> blocks[i].at != 0
        invariant curr == if i < |blocks| then blocks[i].at else 0
        invariant forall j :: 0 <= j < i ==> !(blocks[j].free && blocks[j].size >= size)
        decreases |blocks| - i
      {
        Header(mem, blocks, i);
        if mem[curr + 8] != 0 && mem[curr] >= size {
          FirstFitIs(blocks, size, i);
          AllocatedOk(blocks, i, size);
          AllocatedUsed(blocks, i, size);
          AllocAll(mem, blocks, i, size);
          if mem[curr] >= size + HEADER + 8 {
            var newBlock := curr + HEADER + size;
            mem := mem[newBlock := mem[curr] - size - HEADER][newBlock + 8 := 1][newBlock + 16 := mem[curr + 16]]
                      [curr := size][curr + 16 := newBlock];
          }
          mem := mem[curr + 8 := 0];
          blocks := Allocated(blocks, i, size);
          stats := stats.(allocCount := stats.allocCount + 1, live := stats.live + 1,
                          bytesUsed := stats.bytesUsed + mem[curr]);
          if stats.bytesUsed > stats.peak {
            stats := stats.(peak := stats.bytesUsed);
          }
          return curr + HEADER;
        }
        NextBlock(blocks, i);
        curr := mem[curr + 16];
        i := i + 1;
      }
      FirstFitIs(blocks, size, i);
      SameRam(blocks, mem);
      stats := stats.(failed := stats.failed + 1);
      p := 0;
    }

    /** The pointer may be freed: null, a live allocation, or something whose header says it is free already. */
    ghost predicate Freeable(p: nat)
      reads this
    {
      p == 0 || (p >= HEADER && (IndexOf(blocks, p - HEADER) < |blocks| || (p - 16 in mem && mem[p - 16] != 0)))
    }

    /** `kfree`: a live block is freed and free neighbours are joined all along the list; null and blocks already
        free are ignored. The clamps on the statistics are never needed. */
    method Kfree(p: nat)
      requires Valid() && Freeable(p)
      modifies this
      ensures Valid()
      ensures var i := IndexOf(old(blocks), p - HEADER);
        if p != 0 && i < |old(blocks)| then
          blocks == Freed(old(blocks), i) && PayloadsKept(blocks, old(mem), mem) &&
          stats == old(stats).(freeCount := old(stats).freeCount + 1, live := old(stats).live - 1,
                               bytesUsed := old(stats).bytesUsed - old(blocks)[i].size)
        else blocks == old(blocks) && mem == old(mem) && stats == old(stats)
    {
      hide Tiled, Merged, InRam, UsedCount, UsedBytes, PayloadsKept, AllStored, Coalesced, IndexOf, JoinAt, Merging,
           Freed;
      if p == 0 {
        return;
      }
      var header := p - HEADER;
      ghost var at := IndexOf(blocks, header);
      if at < |blocks| {
        Header(mem, blocks, at);
      }
      if mem[header + 8] != 0 {
        return;
      }
      FreedOk(blocks, at);
      OneUsed(blocks, at);
      ghost var marked := blocks[at := blocks[at].(free := true)];
      MergeStart(mem, blocks, at);
      mem := mem[header + 8 := 1];
      stats := stats.(freeCount := stats.freeCount + 1);
      if stats.live > 0 {
        stats := stats.(live := stats.live - 1);
      }
      if stats.bytesUsed >= mem[header] {
        stats := stats.(bytesUsed := stats.bytesUsed - mem[header]);
      } else {
        assert false;
      }
      blocks := marked;
      var curr := head;
      ghost var i := 0;
      while mem[curr + 16] != 0
        invariant i < |blocks| && Merging(marked, old(mem), blocks, mem, i, curr) && head == START
        invariant curr in mem && curr + 8 in mem && curr + 16 in mem && (mem[curr + 16] != 0 <==> i + 1 < |blocks|)
        invariant stats == old(stats).(freeCount := old(stats).freeCount + 1, live := old(stats).live - 1,
                                       bytesUsed := old(stats).bytesUsed - old(blocks)[at].size)
        decreases |blocks| - i
      {
        MergeReads(marked, old(mem), blocks, mem, i, curr);
        var next := mem[curr + 16];
        if mem[curr + 8] != 0 && mem[next + 8] != 0 {
          MergeJoin(marked, old(mem), blocks, mem, i, curr);
          mem := mem[curr := mem[curr] + mem[next] + HEADER][curr + 16 := mem[next + 16]];
          blocks := JoinAt(blocks, i);
        } else {
          MergeSkip(marked, old(mem), blocks, mem, i, curr);
          curr := next;
          i := i + 1;
        }
      }
      MergeEnd(marked, old(mem), blocks, mem, i, curr);
      assert blocks == Freed(old(blocks), at) by { FreedIs(old(blocks), at); }
    }

    /** `kmalloc_get_stats`: used and free payloads and the headers add up to the heap. */
    method KmallocGetStats() returns (out: Stats)
      requires Valid()
      modifies this`stats
      ensures Valid() && out == stats == old(stats).(bytesFree := FreeBytes(blocks), largestFree := LargestFree(blocks))
      ensures out.bytesUsed + out.bytesFree + HEADER * |blocks| == SIZE
    {
      hide Tiled, InRam, AllStored, UsedBytes, UsedCount;
      var bytesFree, largestFree := 0, 0;
      var curr := head;
      ghost var i := 0;
      FirstBlock(blocks);
      while curr != 0
        invariant stats == old(stats) && i <= |blocks| && curr == (if i < |blocks| then blocks[i].at else 0) &&
          (i < |blocks| ==> blocks[i].at != 0)
        invariant bytesFree == FreeBytes(blocks[..i]) && largestFree == LargestFree(blocks[..i])
        decreases |blocks| - i
      {
        Header(mem, blocks, i);
        OneMore(blocks, i);
        NextBlock(blocks, i);
        if mem[curr + 8] != 0 {
          bytesFree := bytesFree + mem[curr];
          if mem[curr] > largestFree {
            largestFree := mem[curr];
          }
        }
        curr := mem[curr + 16];
        i := i + 1;
      }
      assert blocks[..i] == blocks;
      Accounted(blocks);
      stats := stats.(bytesFree := bytesFree, largestFree := largestFree);
      out := stats;
    }

    /** Whoever owns an allocation may write anything to its payload. */
    method Store(a: int, v: int)
      requires Valid() && a in mem && LiveCell(blocks, a)
      modifies this`mem
      ensures Valid() && mem == old(mem)[a := v]
    {
      hide InRam, UsedBytes, UsedCount;
      StoreKeeps(mem, blocks, a, v);
      hide Tiled, AllStored;
      mem := mem[a := v];
    }
  }

  lemma StoreKeeps(mem: Ram, bs: seq<Block>, a: int, v: int)
    requires Tiled(bs) && InRam(mem) && AllStored(mem, bs) && a in mem && LiveCell(bs, a)
    ensures InRam(mem[a := v]) && AllStored(mem[a := v], bs)
  {
    var i :| 0 <= i < |bs| && !bs[i].free && bs[i].at + HEADER <= a < End(bs[i]);
    var m' := mem[a := v];
    forall j: nat | j < |bs|
      ensures Stored(m', bs, j)
    {
      assert Stored(mem, bs, j);
      if j < i {
        Ordered(bs, j, i);
      } else if i < j {
        Ordered(bs, i, j);
      }
    }
  }

  lemma {:induction false} LargestOneMore(a: seq<Block>, b: Block)
    ensures LargestFree(a + [b]) == if b.free && b.size > LargestFree(a) then b.size else LargestFree(a)
  {
    if a == [] {
      assert a + [b] == [b] && [b][1..] == [];
    } else {
      assert (a + [b])[1..] == a[1..] + [b];
      LargestOneMore(a[1..], b);
    }
  }

  lemma OneMore(bs: seq<Block>, i: nat)
    requires i < |bs|
    ensures FreeBytes(bs[..i + 1]) == FreeBytes(bs[..i]) + if bs[i].free then bs[i].size else 0
    ensures LargestFree(bs[..i + 1]) == if bs[i].free && bs[i].size > LargestFree(bs[..i]) then bs[i].size
      else LargestFree(bs[..i])
  {
    assert bs[..i + 1] == bs[..i] + [bs[i]];
    Sums(bs[..i], [bs[i]]);
    LargestOneMore(bs[..i], bs[i]);
    assert [bs[i]][1..] == [];
  }

  lemma Accounted(bs: seq<Block>)
    requires Tiled(bs)
    ensures UsedBytes(bs) + FreeBytes(bs) + HEADER * |bs| == SIZE
  {
    BytesTile(bs);
  }

  /** The merging loop stands at block `i`: what is left to do yields the coalesced list, and no live payload has
      been touched. */
  ghost predicate Merging(marked: seq<Block>, m0: Ram, bs: seq<Block>, mem: Ram, i: nat, curr: int) {
    && Tiled(bs) && InRam(mem) && AllStored(mem, bs) && i < |bs| && curr == bs[i].at && Tiled(marked)
    && bs[..i] + Coalesced(bs[i..]) == Coalesced(marked)
    && StillUsed(marked, bs) && PayloadsKept(marked, m0, mem)
  }

  lemma MergeReads(marked: seq<Block>, m0: Ram, bs: seq<Block>, mem: Ram, i: nat, curr: int)
    requires Merging(marked, m0, bs, mem, i, curr)
    ensures i < |bs| && curr in mem && curr + 8 in mem && curr + 16 in mem && (mem[curr + 16] != 0 <==> i + 1 < |bs|)
    ensures mem[curr] == bs[i].size && mem[curr + 8] == (if bs[i].free then 1 else 0)
    ensures i + 1 < |bs| ==>
      var next := mem[curr + 16];
      next == bs[i + 1].at && next in mem && next + 8 in mem && next + 16 in mem &&
      mem[next] == bs[i + 1].size && mem[next + 8] == (if bs[i + 1].free then 1 else 0) &&
      mem[next + 16] == NextOf(bs, i + 1)
  {
    hide Tiled, InRam, AllStored, Stored, StillUsed, PayloadsKept, Coalesced;
    Header(mem, bs, i);
    LastNext(bs, i);
    if i + 1 < |bs| {
      Header(mem, bs, i + 1);
    }
  }

  lemma MergeStart(mem: Ram, bs: seq<Block>, at: nat)
    requires Tiled(bs) && InRam(mem) && AllStored(mem, bs) && at < |bs|
    ensures var marked, m' := bs[at := bs[at].(free := true)], mem[bs[at].at + 8 := 1];
      Merging(marked, mem, marked, m', 0, START) && START in m' && START + 8 in m' && START + 16 in m' &&
      (m'[START + 16] != 0 <==> 1 < |marked|)
  {
    hide InRam, AllStored, Stored, StillUsed, PayloadsKept, Coalesced, SameOutside;
    var marked, m' := bs[at := bs[at].(free := true)], mem[bs[at].at + 8 := 1];
    FreeStored(mem, bs, at);
    MarkedKeeps(mem, bs, at);
    assert marked[..0] + Coalesced(marked[0..]) ==
      Coalesced(marked) by { assert marked[0..] == marked && marked[..0] == []; }
    MergeReads(marked, mem, marked, m', 0, START);
  }

  lemma MergeJoined(marked: seq<Block>, m0: Ram, bs: seq<Block>, mem: Ram, i: nat, curr: int)
    requires Merging(marked, m0, bs, mem, i, curr) && i + 1 < |bs| && bs[i].free && bs[i + 1].free
    ensures Merging(marked, m0, JoinAt(bs, i),
            mem[curr := bs[i].size + bs[i + 1].size + HEADER][curr + 16 := NextOf(bs, i + 1)], i, curr)
  {
    hide Tiled, InRam, AllStored, Stored, StillUsed, PayloadsKept, Coalesced, SameOutside, JoinAt;
    var m' := mem[curr := bs[i].size + bs[i + 1].size + HEADER][curr + 16 := NextOf(bs, i + 1)];
    JoinCoalesces(bs, i);
    JoinTiled(bs, i);
    JoinStored(mem, bs, i);
    JoinKeeps(marked, bs, i, m0, mem, m');
    RamKept(mem, m', bs[i].at, bs[i].at + HEADER);
    JoinPrefix(bs, i);
  }

  lemma MergeJoin(marked: seq<Block>, m0: Ram, bs: seq<Block>, mem: Ram, i: nat, curr: int)
    requires Merging(marked, m0, bs, mem, i, curr) && i + 1 < |bs| && bs[i].free && bs[i + 1].free
    requires curr in mem && curr + 16 in mem && mem[curr + 16] in mem && mem[curr + 16] + 16 in mem
    ensures var m' := mem[curr := mem[curr] + mem[mem[curr + 16]] + HEADER][curr + 16 := mem[mem[curr + 16] + 16]];
      Merging(marked, m0, JoinAt(bs, i), m', i, curr) && |JoinAt(bs, i)| == |bs| - 1 &&
      curr in m' && curr + 8 in m' && curr + 16 in m' && (m'[curr + 16] != 0 <==> i + 1 < |JoinAt(bs, i)|)
  {
    hide Merging, JoinAt;
    MergeReads(marked, m0, bs, mem, i, curr);
    MergeJoined(marked, m0, bs, mem, i, curr);
    JoinPrefix(bs, i);
    MergeReads(marked, m0, JoinAt(bs, i),
            mem[curr := bs[i].size + bs[i + 1].size + HEADER][curr + 16 := NextOf(bs, i + 1)], i, curr);
  }

  lemma MergeSkip(marked: seq<Block>, m0: Ram, bs: seq<Block>, mem: Ram, i: nat, curr: int)
    requires Merging(marked, m0, bs, mem, i, curr) && i + 1 < |bs| && !(bs[i].free && bs[i + 1].free)
    ensures var next := bs[i + 1].at;
      Merging(marked, m0, bs, mem, i + 1, next) && next in mem && next + 8 in mem && next + 16 in mem &&
      (mem[next + 16] != 0 <==> i + 2 < |bs|)
  {
    hide Tiled, InRam, AllStored, Stored, StillUsed, PayloadsKept, Coalesced, SameOutside;
    JoinCoalesces(bs, i);
    MergeReads(marked, m0, bs, mem, i + 1, bs[i + 1].at);
  }

  lemma MergeEnd(marked: seq<Block>, m0: Ram, bs: seq<Block>, mem: Ram, i: nat, curr: int)
    requires Merging(marked, m0, bs, mem, i, curr) && i + 1 == |bs|
    ensures bs == Coalesced(marked) && PayloadsKept(bs, m0, mem) && Tiled(bs) && InRam(mem) && AllStored(mem, bs)
  {
    hide InRam, AllStored, Stored, StillUsed, PayloadsKept, SameOutside;
    assert bs[..i] + Coalesced(bs[i..]) == Coalesced(marked);
    LastCoalesced(bs, i);
    FreedPayloads(marked, bs, m0, mem);
  }

  lemma FreedIs(bs: seq<Block>, i: nat)
    requires i < |bs|
    ensures Freed(bs, i) == Coalesced(bs[i := bs[i].(free := true)])
  {
  }

  lemma Header(mem: Ram, bs: seq<Block>, i: nat)
    requires AllStored(mem, bs) && i < |bs|
    ensures Stored(mem, bs, i) && bs[i].at in mem && bs[i].at + 8 in mem && bs[i].at + 16 in mem
    ensures mem[bs[i].at] == bs[i].size && mem[bs[i].at + 8] == (if bs[i].free then 1 else 0) &&
      mem[bs[i].at + 16] == NextOf(bs, i)
  {
  }

  /** What the allocating code's writes come to. */
  lemma AllocAll(mem: Ram, bs: seq<Block>, i: nat, n: nat)
    requires InRam(mem) && Tiled(bs) && i < |bs| && AllStored(mem, bs) && bs[i].free && bs[i].size >= n && n % 8 == 0
    ensures InRam(AllocRam(mem, bs, i, n)) && |Allocated(bs, i, n)| > i
    ensures AllocRam(mem, bs, i, n) ==
      if bs[i].size >= n + HEADER + 8 then
        var nb := bs[i].at + HEADER + n;
        mem[nb := bs[i].size - n - HEADER][nb + 8 := 1][nb + 16 := NextOf(bs, i)]
            [bs[i].at := n][bs[i].at + 16 := nb][bs[i].at + 8 := 0]
      else mem[bs[i].at + 8 := 0]
    ensures bs[i].at in AllocRam(mem, bs, i, n) && AllocRam(mem, bs, i, n)[bs[i].at] == Allocated(bs, i, n)[i].size
    ensures AllStored(AllocRam(mem, bs, i, n), Allocated(bs, i, n)) && PayloadsKept(bs, mem, AllocRam(mem, bs, i, n))
  {
    AllocStored(mem, bs, i, n);
    AllocOutside(mem, bs, i, n);
    OtherPayloads(bs, i, mem, AllocRam(mem, bs, i, n));
    Header(mem, bs, i);
    hide AllStored, PayloadsKept, Tiled, SameOutside, Stored;
  }

  lemma FirstBlock(bs: seq<Block>)
    requires Tiled(bs)
    ensures bs != [] && bs[0].at == START
  {
  }

  lemma NextBlock(bs: seq<Block>, i: nat)
    requires Tiled(bs) && i < |bs|
    ensures i + 1 < |bs| ==> bs[i + 1].at != 0
  {
    if i + 1 < |bs| {
      InHeap(bs, i + 1);
    }
  }

  lemma SameRam(bs: seq<Block>, mem: Ram)
    ensures PayloadsKept(bs, mem, mem)
  {
  }

  lemma LastNext(bs: seq<Block>, i: nat)
    requires Tiled(bs) && i < |bs|
    ensures NextOf(bs, i) != 0 <==> i + 1 < |bs|
  {
    NextBlock(bs, i);
  }

  lemma RamKept(m: Ram, m': Ram, lo: nat, hi: nat)
    requires InRam(m) && SameOutside(m, m', lo, hi)
    ensures InRam(m')
  {
  }

  /** A used block has its size among the used bytes. */
  lemma OneUsed(bs: seq<Block>, i: nat)
    requires Tiled(bs) && i < |bs| && !bs[i].free
    ensures UsedCount(bs) > 0 && UsedBytes(bs) >= bs[i].size
  {
    FreedOk(bs, i);
  }

  lemma MarkedKeeps(mem: Ram, bs: seq<Block>, i: nat)
    requires InRam(mem) && Tiled(bs) && i < |bs| &&
      SameOutside(mem, mem[bs[i].at + 8 := 1], bs[i].at, bs[i].at + HEADER)
    ensures var marked := bs[i := bs[i].(free := true)];
      Tiled(marked) && InRam(mem[bs[i].at + 8 := 1]) && StillUsed(marked, marked) &&
      PayloadsKept(marked, mem, mem[bs[i].at + 8 := 1])
  {
    var m' := mem[bs[i].at + 8 := 1];
    var marked := bs[i := bs[i].(free := true)];
    assert Tiled(marked);
    forall a | a in mem && LiveCell(marked, a)
      ensures m'[a] == mem[a]
    {
      var j :| 0 <= j < |marked| && !marked[j].free && marked[j].at + HEADER <= a < End(marked[j]);
      Disjoint(marked, j, i, a);
    }
  }

  lemma JoinPrefix(bs: seq<Block>, i: nat)
    requires i + 1 < |bs|
    ensures JoinAt(bs, i)[..i] == bs[..i] && |JoinAt(bs, i)| == |bs| - 1 && JoinAt(bs, i)[i].at == bs[i].at
  {
  }

  lemma LastCoalesced(bs: seq<Block>, i: nat)
    requires i + 1 == |bs|
    ensures bs[..i] + Coalesced(bs[i..]) == bs
  {
  }

  /** Used blocks of the result were used before. */
  lemma FreedPayloads(bs0: seq<Block>, bs: seq<Block>, m: Ram, m': Ram)
    requires Tiled(bs0) && bs == Coalesced(bs0) && PayloadsKept(bs0, m, m')
    ensures PayloadsKept(bs, m, m')
  {
    CoalescedUsed(bs0);
    forall a | a in m && LiveCell(bs, a)
      ensures m'[a] == m[a]
    {
      var j :| 0 <= j < |bs| && !bs[j].free && bs[j].at + HEADER <= a < End(bs[j]);
      UsedAt(bs, bs[j].at, bs[j].size);
      UsedAt(bs0, bs[j].at, bs[j].size);
      var k :| 0 <= k < |bs0| && bs0[k] == bs[j];
      assert LiveCell(bs0, a);
    }
  }
}
