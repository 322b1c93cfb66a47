/** The kernel heap as a list of blocks: first fit with splitting, freeing with coalescing, and what they keep. */
module HeapBlocks {

  const START: nat := 0x100_0000
  const SIZE: nat := 0x100_0000
  const LIMIT: nat := START + SIZE
  const HEADER: nat := 24

  /** A block: the address of its header, the size of its payload, and whether it is free. */
  datatype Block = Block(at: nat, size: nat, free: bool)

  function End(b: Block): nat {
    b.at + HEADER + b.size
  }

  /** The blocks fill the heap, each header right after the previous payload; sizes are multiples of 8. */
  ghost predicate Tiled(bs: seq<Block>) {
    && bs != [] && bs[0].at == START && End(bs[|bs| - 1]) == LIMIT
    && (forall i :: 0 <= i < |bs| - 1 ==> bs[i + 1].at == End(bs[i]))
    && (forall i :: 0 <= i < |bs| ==> bs[i].at % 8 == 0 && bs[i].size % 8 == 0)
  }

  /** No two neighbours are both free. */
  ghost predicate Merged(bs: seq<Block>) {
    forall i :: 0 <= i < |bs| - 1 ==> !(bs[i].free && bs[i + 1].free)
  }

  const Initial: seq<Block> := [Block(START, SIZE - HEADER, true)]

  // ----- statistics

  function UsedCount(bs: seq<Block>): nat {
    if bs == [] then 0 else (if bs[0].free then 0 else 1) + UsedCount(bs[1..])
  }

  function UsedBytes(bs: seq<Block>): nat {
    if bs == [] then 0 else (if bs[0].free then 0 else bs[0].size) + UsedBytes(bs[1..])
  }

  function FreeBytes(bs: seq<Block>): nat {
    if bs == [] then 0 else (if bs[0].free then bs[0].size else 0) + FreeBytes(bs[1..])
  }

  function LargestFree(bs: seq<Block>): nat {
    if bs == [] then 0
    else
      var rest := LargestFree(bs[1..]);
      if bs[0].free && bs[0].size > rest then bs[0].size else rest
  }

  lemma {:induction false} Sums(a: seq<Block>, b: seq<Block>)
    ensures UsedCount(a + b) == UsedCount(a) + UsedCount(b)
    ensures UsedBytes(a + b) == UsedBytes(a) + UsedBytes(b)
    ensures FreeBytes(a + b) == FreeBytes(a) + FreeBytes(b)
  {
    if a == [] {
      assert a + b == b;
    } else {
      assert (a + b)[1..] == a[1..] + b;
      Sums(a[1..], b);
    }
  }

  /** Payloads, headers and nothing else make up the heap. */
  lemma {:induction false} BytesTile(bs: seq<Block>)
    requires bs != [] && forall i :: 0 <= i < |bs| - 1 ==> bs[i + 1].at == End(bs[i])
    ensures UsedBytes(bs) + FreeBytes(bs) + HEADER * |bs| == End(bs[|bs| - 1]) - bs[0].at
  {
    if |bs| > 1 {
      BytesTile(bs[1..]);
    } else {
      assert bs[1..] == [];
    }
  }

  lemma {:induction false} LargestIs(bs: seq<Block>, n: nat)
    ensures LargestFree(bs) >= n > 0 ==> exists i :: 0 <= i < |bs| && bs[i].free && bs[i].size >= n
    ensures (exists i :: 0 <= i < |bs| && bs[i].free && bs[i].size >= n) ==> LargestFree(bs) >= n
  {
    if bs != [] {
      LargestIs(bs[1..], n);
      if i :| 0 <= i < |bs| && bs[i].free && bs[i].size >= n {
        assert i > 0 ==> bs[1..][i - 1] == bs[i];
      }
      if LargestFree(bs) >= n > 0 {
        if bs[0].free && bs[0].size >= n {
        } else {
          var i :| 0 <= i < |bs[1..]| && bs[1..][i].free && bs[1..][i].size >= n;
          assert bs[i + 1] == bs[1..][i];
        }
      }
    }
  }

  // ----- allocation

  /** The request rounded up to a multiple of 8, in 64-bit arithmetic. */
  function Round(n: nat): nat {
    (n + 7) % 0x1_0000_0000_0000_0000 / 8 * 8
  }

  /** Rounding keeps the request covered, except that the seven largest sizes wrap around to 0. */
  lemma RoundCovers(n: nat)
    requires n < 0x1_0000_0000_0000_0000
    ensures Round(n) % 8 == 0
    ensures Round(n) >= n <==> n <= 0xFFFF_FFFF_FFFF_FFF8
    ensures Round(n) >= n ==> Round(n) < n + 8
    ensures Round(n) < n ==> Round(n) == 0
  {
  }

  /** The first free block of at least `n` bytes, or the length of the list. */
  function FirstFit(bs: seq<Block>, n: nat): (i: nat)
    ensures i <= |bs|
    ensures i < |bs| ==> bs[i].free && bs[i].size >= n
    ensures forall j :: 0 <= j < i ==> !(bs[j].free && bs[j].size >= n)
  {
    if bs == [] then 0 else if bs[0].free && bs[0].size >= n then 0 else 1 + FirstFit(bs[1..], n)
  }

  /** One of the seven: a request for all but one byte of the address space gets the first free block, whatever its
      size, and leaves the rest of that block free if it can be split at all. */
  lemma WrappedRequest(bs: seq<Block>, i: nat)
    requires i < |bs| && bs[i].free && forall j :: 0 <= j < i ==> !bs[j].free
    ensures FirstFit(bs, Round(0xFFFF_FFFF_FFFF_FFFF)) == i
    ensures bs[i].size >= HEADER + 8 ==> Allocated(bs, i, Round(0xFFFF_FFFF_FFFF_FFFF))[i] == Block(bs[i].at, 0, false)
  {
    FirstFree(bs, i);
  }

  lemma {:induction false} FirstFree(bs: seq<Block>, i: nat)
    requires i < |bs| && bs[i].free && forall j :: 0 <= j < i ==> !bs[j].free
    ensures FirstFit(bs, 0) == i
  {
    if i > 0 {
      FirstFree(bs[1..], i - 1);
    }
  }

  /** Block `i` used for `n` bytes; what is left over becomes a free block if it can hold a header and a word. */
  function Allocated(bs: seq<Block>, i: nat, n: nat): seq<Block>
    requires i < |bs|
  {
    var b := bs[i];
    if b.size >= n + HEADER + 8 then
      bs[..i] + [Block(b.at, n, false), Block(b.at + HEADER + n, b.size - n - HEADER, true)] + bs[i + 1..]
    else
      bs[i := Block(b.at, b.size, false)]
  }

  // ----- freeing

  function Join(a: Block, b: Block): Block {
    Block(a.at, a.size + b.size + HEADER, a.free)
  }

  /** Neighbouring free blocks joined, from the left. */
  function Coalesced(bs: seq<Block>): seq<Block>
    decreases |bs|
  {
    if |bs| < 2 then bs
    else if bs[0].free && bs[1].free then Coalesced([Join(bs[0], bs[1])] + bs[2..])
    else [bs[0]] + Coalesced(bs[1..])
  }

  function Freed(bs: seq<Block>, i: nat): seq<Block>
    requires i < |bs|
  {
    Coalesced(bs[i := bs[i].(free := true)])
  }

  /** Header address and payload size of every used block. */
  ghost function Used(bs: seq<Block>): set<(nat, nat)> {
    set b | b in bs && !b.free :: (b.at, b.size)
  }

  lemma UsedAt(bs: seq<Block>, at: nat, size: nat)
    ensures (at, size) in Used(bs) <==> Block(at, size, false) in bs
  {
    if (at, size) in Used(bs) {
      var b :| b in bs && !b.free && (b.at, b.size) == (at, size);
      assert b == Block(at, size, false);
    }
  }

  // ----- what tiling says

  lemma {:induction false} Ordered(bs: seq<Block>, i: nat, j: nat)
    requires Tiled(bs) && i < j < |bs|
    ensures End(bs[i]) <= bs[j].at
    decreases j
  {
    if i + 1 < j {
      Ordered(bs, i, j - 1);
    }
    assert bs[j - 1 + 1].at == End(bs[j - 1]);
  }

  lemma InHeap(bs: seq<Block>, i: nat)
    requires Tiled(bs) && i < |bs|
    ensures START <= bs[i].at && End(bs[i]) <= LIMIT
  {
    if i > 0 {
      Ordered(bs, 0, i);
    }
    if i < |bs| - 1 {
      Ordered(bs, i, |bs| - 1);
    }
  }

  /** Payloads of different blocks are disjoint, and no payload contains any part of a header. */
  lemma Disjoint(bs: seq<Block>, i: nat, j: nat, a: int)
    requires Tiled(bs) && i < |bs| && j < |bs|
    ensures bs[i].at + HEADER <= a < End(bs[i]) && bs[j].at <= a < End(bs[j]) ==> i == j && bs[j].at + HEADER <= a
    ensures bs[i].at == bs[j].at ==> i == j
  {
    if i < j {
      Ordered(bs, i, j);
    } else if j < i {
      Ordered(bs, j, i);
    }
  }

  // ----- a heap without free neighbours is determined by its used blocks

  lemma SameBlock(xs: seq<Block>, ys: seq<Block>, i: nat)
    requires Tiled(xs) && Tiled(ys) && Merged(xs) && Merged(ys) && Used(xs) == Used(ys)
    requires i < |xs| && i < |ys| && xs[i].at == ys[i].at
    ensures xs[i] == ys[i]
  {
    if !xs[i].free {
      UsedBlock(xs, ys, i);
    } else if !ys[i].free {
      UsedBlock(ys, xs, i);
    } else {
      NotShorter(xs, ys, i);
      NotShorter(ys, xs, i);
    }
  }

  lemma UsedBlock(xs: seq<Block>, ys: seq<Block>, i: nat)
    requires Tiled(xs) && Tiled(ys) && Used(xs) == Used(ys) && i < |xs| && i < |ys| && xs[i].at == ys[i].at &&
      !xs[i].free
    ensures xs[i] == ys[i]
  {
    UsedAt(xs, xs[i].at, xs[i].size);
    UsedAt(ys, xs[i].at, xs[i].size);
    var j :| 0 <= j < |ys| && ys[j] == xs[i];
    Disjoint(ys, i, j, 0);
  }

  lemma NotShorter(xs: seq<Block>, ys: seq<Block>, i: nat)
    requires Tiled(xs) && Tiled(ys) && Merged(xs) && Used(xs) == Used(ys)
    requires i < |xs| && i < |ys| && xs[i].at == ys[i].at && xs[i].free && ys[i].free
    ensures xs[i].size >= ys[i].size
  {
    if i + 1 < |xs| {
      var b := xs[i + 1];
      assert !b.free && b.at == End(xs[i]);
      UsedAt(xs, b.at, b.size);
      UsedAt(ys, b.at, b.size);
      var j :| 0 <= j < |ys| && ys[j] == b;
      if j < i {
        Ordered(ys, j, i);
      } else if i < j {
        Ordered(ys, i, j);
      }
    } else {
      InHeap(ys, i);
    }
  }

  lemma {:induction false} SamePrefix(xs: seq<Block>, ys: seq<Block>, n: nat)
    requires Tiled(xs) && Tiled(ys) && Merged(xs) && Merged(ys) && Used(xs) == Used(ys) && n <= |xs| && n <= |ys|
    ensures xs[..n] == ys[..n]
  {
    if n > 0 {
      SamePrefix(xs, ys, n - 1);
      assert n > 1 ==>
        xs[n - 2] == xs[..n - 1][n - 2] && ys[n - 2] == ys[..n - 1][n - 2] &&
        xs[n - 2 + 1].at == End(xs[n - 2]) && ys[n - 2 + 1].at == End(ys[n - 2]);
      SameBlock(xs, ys, n - 1);
      assert xs[..n] == xs[..n - 1] + [xs[n - 1]] && ys[..n] == ys[..n - 1] + [ys[n - 1]];
    }
  }

  lemma Longer(xs: seq<Block>, ys: seq<Block>)
    requires Tiled(xs) && Tiled(ys) && xs <= ys
    ensures xs == ys
  {
    if |xs| < |ys| {
      Ordered(ys, |xs| - 1, |xs|);
      InHeap(ys, |xs|);
    }
  }

  /** The whole list can be computed from the used blocks alone: the heap keeps no trace of the order of past
      allocations and frees. */
  lemma Canonical(xs: seq<Block>, ys: seq<Block>)
    requires Tiled(xs) && Tiled(ys) && Merged(xs) && Merged(ys) && Used(xs) == Used(ys)
    ensures xs == ys
  {
    if |xs| <= |ys| {
      SamePrefix(xs, ys, |xs|);
      Longer(xs, ys);
    } else {
      SamePrefix(xs, ys, |ys|);
      Longer(ys, xs);
    }
  }
}
