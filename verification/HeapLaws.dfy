/** Laws of the heap: allocation and freeing keep the tiling, freeing undoes allocation, and the order in which
    blocks are freed does not matter. */
module HeapLaws {
  import opened HeapBlocks

  // ----- allocation

  /** What allocating does to the used blocks: one more, at the chosen place, with at least `n` bytes. */
  lemma AllocatedOk(bs: seq<Block>, i: nat, n: nat)
    requires Tiled(bs) && Merged(bs) && i < |bs| && bs[i].free && bs[i].size >= n && n % 8 == 0
    ensures var bs' := Allocated(bs, i, n);
      Tiled(bs') && Merged(bs') && i < |bs'| && !bs'[i].free && bs'[i].at == bs[i].at &&
      n <= bs'[i].size < n + HEADER + 8
  {
    var bs' := Allocated(bs, i, n);
    if bs[i].size >= n + HEADER + 8 {
      forall j | 0 <= j < |bs'| - 1
        ensures bs'[j + 1].at == End(bs'[j]) && !(bs'[j].free && bs'[j + 1].free)
      {
        if j < i {
          assert bs[j + 1].at == End(bs[j]) && !(bs[j].free && bs[j + 1].free);
        } else if j == i + 1 {
          assert bs[i + 1].at == End(bs[i]) && !(bs[i].free && bs[i + 1].free);
        } else if j > i + 1 {
          assert bs'[j] == bs[j - 1] && bs'[j + 1] == bs[j];
          assert bs[j - 1 + 1].at == End(bs[j - 1]) && !(bs[j - 1].free && bs[j - 1 + 1].free);
        }
      }
    }
  }

  lemma UsedParts(a: seq<Block>, b: seq<Block>)
    ensures Used(a + b) == Used(a) + Used(b)
  {
    forall x: (nat, nat)
      ensures x in Used(a + b) <==> x in Used(a) + Used(b)
    {
      UsedAt(a + b, x.0, x.1);
      UsedAt(a, x.0, x.1);
      UsedAt(b, x.0, x.1);
    }
  }

  /** Replacing one block by others. */
  lemma Replace(bs: seq<Block>, i: nat, mid: seq<Block>, bs': seq<Block>)
    requires i < |bs| && bs' == bs[..i] + mid + bs[i + 1..]
    ensures Used(bs') == Used(bs[..i]) + Used(mid) + Used(bs[i + 1..])
    ensures Used(bs) == Used(bs[..i]) + Used([bs[i]]) + Used(bs[i + 1..])
    ensures UsedCount(bs') - UsedCount(mid) == UsedCount(bs) - UsedCount([bs[i]])
    ensures UsedBytes(bs') - UsedBytes(mid) == UsedBytes(bs) - UsedBytes([bs[i]])
  {
    assert bs == bs[..i] + [bs[i]] + bs[i + 1..];
    Sums(bs[..i] + mid, bs[i + 1..]);
    Sums(bs[..i], mid);
    Sums(bs[..i] + [bs[i]], bs[i + 1..]);
    Sums(bs[..i], [bs[i]]);
    UsedParts(bs[..i] + mid, bs[i + 1..]);
    UsedParts(bs[..i], mid);
    UsedParts(bs[..i] + [bs[i]], bs[i + 1..]);
    UsedParts(bs[..i], [bs[i]]);
  }

  lemma AllocatedUsed(bs: seq<Block>, i: nat, n: nat)
    requires Tiled(bs) && i < |bs| && bs[i].free && bs[i].size >= n && n % 8 == 0
    ensures var bs' := Allocated(bs, i, n);
      i < |bs'| && Used(bs') == Used(bs) + {(bs'[i].at, bs'[i].size)} && (bs'[i].at, bs'[i].size) !in Used(bs) &&
      UsedCount(bs') == UsedCount(bs) + 1 && UsedBytes(bs') == UsedBytes(bs) + bs'[i].size
  {
    var bs' := Allocated(bs, i, n);
    var b := bs[i];
    var mid := if b.size >= n + HEADER + 8 then [Block(b.at, n, false),
                                                 Block(b.at + HEADER + n, b.size - n - HEADER, true)]
               else [Block(b.at, b.size, false)];
    assert bs' == bs[..i] + mid + bs[i + 1..];
    Replace(bs, i, mid, bs');
    UsedAt(mid, bs'[i].at, bs'[i].size);
    forall x: (nat, nat)
      ensures x in Used(mid) <==> x == (bs'[i].at, bs'[i].size)
      ensures x !in Used([b])
    {
      UsedAt(mid, x.0, x.1);
      UsedAt([b], x.0, x.1);
    }
    assert Used(mid) == {(bs'[i].at, bs'[i].size)} && Used([b]) == {};
    NotUsedTwice(bs, i, bs'[i].size);
    hide Used;
    assert mid[1..] == [] || mid[1..][1..] == [];
  }

  lemma NotUsedTwice(bs: seq<Block>, i: nat, size: nat)
    requires Tiled(bs) && i < |bs| && bs[i].free
    ensures (bs[i].at, size) !in Used(bs)
  {
    UsedAt(bs, bs[i].at, size);
    if (bs[i].at, size) in Used(bs) {
      var j :| 0 <= j < |bs| && bs[j] == Block(bs[i].at, size, false);
      Disjoint(bs, i, j, 0);
    }
  }

  // ----- coalescing

  ghost predicate Chained(bs: seq<Block>) {
    && (forall i :: 0 <= i < |bs| - 1 ==> bs[i + 1].at == End(bs[i]))
    && (forall i :: 0 <= i < |bs| ==> bs[i].at % 8 == 0 && bs[i].size % 8 == 0)
  }

  lemma JoinChained(bs: seq<Block>)
    requires |bs| >= 2 && Chained(bs) && bs[0].free && bs[1].free
    ensures Chained([Join(bs[0], bs[1])] + bs[2..])
    ensures Used([Join(bs[0], bs[1])] + bs[2..]) == Used(bs)
    ensures UsedCount([Join(bs[0], bs[1])] + bs[2..]) == UsedCount(bs) &&
      UsedBytes([Join(bs[0], bs[1])] + bs[2..]) == UsedBytes(bs)
    ensures End(([Join(bs[0], bs[1])] + bs[2..])[|bs| - 2]) == End(bs[|bs| - 1])
  {
    var bs' := [Join(bs[0], bs[1])] + bs[2..];
    assert bs == [bs[0], bs[1]] + bs[2..] && bs[1..][1..] == bs[2..] && bs'[1..] == bs[2..];
    assert bs[0 + 1].at == End(bs[0]);
    forall i | 0 <= i < |bs'| - 1
      ensures bs'[i + 1].at == End(bs'[i])
    {
      assert bs[i + 1 + 1].at == End(bs[i + 1]);
    }
    UsedParts([bs[0], bs[1]], bs[2..]);
    UsedParts([bs'[0]], bs[2..]);
    forall x: (nat, nat)
      ensures x !in Used([bs[0], bs[1]]) && x !in Used([bs'[0]])
    {
      UsedAt([bs[0], bs[1]], x.0, x.1);
      UsedAt([bs'[0]], x.0, x.1);
    }
  }

  /** Joining keeps the extent and the used blocks. */
  lemma {:induction false} CoalescedUsed(bs: seq<Block>)
    requires Chained(bs)
    ensures var r := Coalesced(bs);
      Used(r) == Used(bs) && UsedCount(r) == UsedCount(bs) && UsedBytes(r) == UsedBytes(bs)
    decreases |bs|
  {
    hide Used;
    if |bs| >= 2 {
      if bs[0].free && bs[1].free {
        JoinChained(bs);
        CoalescedUsed([Join(bs[0], bs[1])] + bs[2..]);
      } else {
        CoalescedUsed(bs[1..]);
        hide Chained;
        var r := [bs[0]] + Coalesced(bs[1..]);
        assert r[1..] == Coalesced(bs[1..]) && bs == [bs[0]] + bs[1..];
        UsedParts([bs[0]], bs[1..]);
        UsedParts([bs[0]], Coalesced(bs[1..]));
      }
    }
  }

  lemma ConsOk(b: Block, rest: seq<Block>)
    requires rest != [] && Chained(rest) && Merged(rest) && rest[0].at == End(b) && b.at % 8 == 0 && b.size % 8 == 0
    requires !(b.free && rest[0].free)
    ensures Chained([b] + rest) && Merged([b] + rest)
  {
  }

  lemma TailOk(bs: seq<Block>)
    requires |bs| >= 2 && Chained(bs)
    ensures Chained(bs[1..]) && bs[1].at == End(bs[0]) && bs[0].at % 8 == 0 && bs[0].size % 8 == 0
  {
    assert bs[0 + 1].at == End(bs[0]);
  }

  lemma {:induction false} CoalescedOk(bs: seq<Block>)
    requires bs != [] && Chained(bs)
    ensures var r := Coalesced(bs);
      r != [] && Chained(r) && Merged(r) && r[0].at == bs[0].at && r[0].free == bs[0].free &&
      End(r[|r| - 1]) == End(bs[|bs| - 1])
    decreases |bs|
  {
    if |bs| >= 2 {
      hide Used, UsedCount, UsedBytes, Chained, Merged, End;
      if bs[0].free && bs[1].free {
        JoinChained(bs);
        CoalescedOk([Join(bs[0], bs[1])] + bs[2..]);
      } else {
        TailOk(bs);
        CoalescedOk(bs[1..]);
        ConsOk(bs[0], Coalesced(bs[1..]));
      }
    }
  }

  // ----- freeing

  lemma MarkedUsed(bs: seq<Block>, i: nat)
    requires Tiled(bs) && i < |bs| && !bs[i].free
    ensures var bs' := bs[i := bs[i].(free := true)];
      Used(bs') == Used(bs) - {(bs[i].at, bs[i].size)} && UsedCount(bs') == UsedCount(bs) - 1 &&
      UsedBytes(bs') == UsedBytes(bs) - bs[i].size
  {
    var mid := [bs[i].(free := true)];
    var bs' := bs[i := bs[i].(free := true)];
    assert bs' == bs[..i] + mid + bs[i + 1..];
    Replace(bs, i, mid, bs');
    OnlyThere(bs, i);
    hide Tiled;
    forall x: (nat, nat)
      ensures x !in Used(mid) && (x in Used([bs[i]]) <==> x == (bs[i].at, bs[i].size))
    {
      UsedAt(mid, x.0, x.1);
      UsedAt([bs[i]], x.0, x.1);
    }
    hide Used;
    assert Used([bs[i]]) == {(bs[i].at, bs[i].size)} && Used(mid) == {};
  }

  /** Freeing takes the block from the used ones and leaves no free neighbours. */
  lemma FreedOk(bs: seq<Block>, i: nat)
    requires Tiled(bs) && i < |bs| && !bs[i].free
    ensures var r := Freed(bs, i);
      Tiled(r) && Merged(r) && Used(r) == Used(bs) - {(bs[i].at, bs[i].size)} &&
      UsedCount(r) == UsedCount(bs) - 1 && UsedBytes(r) == UsedBytes(bs) - bs[i].size
  {
    hide Used, UsedCount, UsedBytes, Coalesced, Merged;
    MarkedUsed(bs, i);
    var bs' := bs[i := bs[i].(free := true)];
    assert Chained(bs');
    CoalescedOk(bs');
    CoalescedUsed(bs');
  }

  lemma OnlyThere(bs: seq<Block>, i: nat)
    requires Tiled(bs) && i < |bs|
    ensures (bs[i].at, bs[i].size) !in Used(bs[..i]) && (bs[i].at, bs[i].size) !in Used(bs[i + 1..])
  {
    UsedAt(bs[..i], bs[i].at, bs[i].size);
    UsedAt(bs[i + 1..], bs[i].at, bs[i].size);
    if Block(bs[i].at, bs[i].size, false) in bs[..i] {
      var j :| 0 <= j < i && bs[j] == Block(bs[i].at, bs[i].size, false);
      Disjoint(bs, i, j, 0);
    }
    if Block(bs[i].at, bs[i].size, false) in bs[i + 1..] {
      var j :| i + 1 <= j < |bs| && bs[j] == Block(bs[i].at, bs[i].size, false);
      Disjoint(bs, i, j, 0);
    }
  }

  /** Freeing what was just allocated gives the very same heap back, splits and all. */
  lemma FreeUndoesAlloc(bs: seq<Block>, i: nat, n: nat)
    requires Tiled(bs) && Merged(bs) && i < |bs| && bs[i].free && bs[i].size >= n && n % 8 == 0
    ensures i < |Allocated(bs, i, n)| && Freed(Allocated(bs, i, n), i) == bs
  {
    hide Used, Coalesced;
    AllocatedOk(bs, i, n);
    AllocatedUsed(bs, i, n);
    var bs' := Allocated(bs, i, n);
    FreedOk(bs', i);
    assert Used(Freed(bs', i)) == Used(bs);
    Canonical(Freed(bs', i), bs);
  }

  // ----- freeing in any order

  /** The used block whose header is at `at`. */
  function IndexOf(bs: seq<Block>, at: int): (i: nat)
    ensures i <= |bs|
    ensures i < |bs| ==> bs[i].at == at && !bs[i].free
    ensures forall j :: 0 <= j < i ==> !(bs[j].at == at && !bs[j].free)
  {
    if bs == [] then 0 else if bs[0].at == at && !bs[0].free then 0 else 1 + IndexOf(bs[1..], at)
  }

  /** The heap after `kfree` of the blocks at these addresses, in this order; other addresses are ignored. */
  function FreeAll(bs: seq<Block>, order: seq<nat>): seq<Block>
    decreases |order|
  {
    if order == [] then bs
    else
      var i := IndexOf(bs, order[0]);
      FreeAll(if i < |bs| then Freed(bs, i) else bs, order[1..])
  }

  lemma {:induction false} FreeAllOk(bs: seq<Block>, order: seq<nat>)
    requires Tiled(bs) && Merged(bs)
    ensures var r := FreeAll(bs, order);
      Tiled(r) && Merged(r) && forall x: (nat, nat) :: x in Used(r) <==> x in Used(bs) && x.0 !in order
    decreases |order|
  {
    hide Used, Tiled, Merged, Freed;
    if order != [] {
      var i := IndexOf(bs, order[0]);
      var m := if i < |bs| then Freed(bs, i) else bs;
      forall x: (nat, nat)
        ensures x in Used(m) <==> x in Used(bs) && x.0 != order[0]
      {
        UsedIndex(bs, order[0], x);
      }
      if i < |bs| {
        FreedOk(bs, i);
      }
      FreeAllOk(m, order[1..]);
      assert forall a :: a in order <==> a == order[0] || a in order[1..];
    }
  }

  lemma UsedIndex(bs: seq<Block>, at: nat, x: (nat, nat))
    requires Tiled(bs)
    ensures var i := IndexOf(bs, at);
      if i < |bs| then (x in Used(Freed(bs, i)) <==> x in Used(bs) && x.0 != at) else x in Used(bs) ==> x.0 != at
  {
    UsedAt(bs, x.0, x.1);
    var i := IndexOf(bs, at);
    if i < |bs| {
      FreedOk(bs, i);
    }
    if x in Used(bs) && x.0 == at {
      var j :| 0 <= j < |bs| && bs[j] == Block(x.0, x.1, false);
      if i < |bs| {
        Disjoint(bs, i, j, 0);
      }
    }
  }

  /** Two orders of freeing the same blocks end in the same heap. */
  lemma FreeOrder(bs: seq<Block>, xs: seq<nat>, ys: seq<nat>)
    requires Tiled(bs) && Merged(bs) && forall a :: a in xs <==> a in ys
    ensures FreeAll(bs, xs) == FreeAll(bs, ys)
  {
    hide Used, Tiled, Merged;
    FreeAllOk(bs, xs);
    FreeAllOk(bs, ys);
    assert Used(FreeAll(bs, xs)) == Used(FreeAll(bs, ys));
    Canonical(FreeAll(bs, xs), FreeAll(bs, ys));
  }

  lemma InitialOk()
    ensures Tiled(Initial) && Merged(Initial) && Used(Initial) == {}
    ensures UsedCount(Initial) == 0 && UsedBytes(Initial) == 0
  {
    assert Initial[1..] == [];
  }

  /** Freeing every live allocation, in whatever order, restores the single block of the start. */
  lemma FreeAllRestores(bs: seq<Block>, order: seq<nat>)
    requires Tiled(bs) && Merged(bs) && forall b :: b in bs && !b.free ==> b.at in order
    ensures FreeAll(bs, order) == Initial
  {
    FreeAllOk(bs, order);
    InitialOk();
    var r := FreeAll(bs, order);
    forall x: (nat, nat)
      ensures x !in Used(r)
    {
      UsedAt(bs, x.0, x.1);
    }
    hide Used, Tiled, Merged;
    assert Used(r) == Used(Initial);
    Canonical(r, Initial);
  }

  // ----- when allocation fails

  /** A request fails exactly when the largest free block, as the statistics report it, is smaller than the request
      rounded up, except that a request for nothing also fails when no block is free at all. */
  lemma FailsIff(bs: seq<Block>, n: nat)
    ensures FirstFit(bs, Round(n)) == |bs| <==> LargestFree(bs) < Round(n) || forall b :: b in bs ==> !b.free
    ensures Round(n) > 0 ==> (FirstFit(bs, Round(n)) == |bs| <==> LargestFree(bs) < Round(n))
  {
    var i := FirstFit(bs, Round(n));
    LargestIs(bs, Round(n));
    if Round(n) == 0 && i == |bs| {
      assert forall b :: b in bs ==> !b.free;
    }
    if i < |bs| {
      assert bs[i] in bs && bs[i].free;
    }
    hide Round;
    if Round(n) > 0 && i == |bs| {
      assert forall j :: 0 <= j < |bs| ==> !(bs[j].free && bs[j].size >= Round(n));
    }
  }

  /** The exception is real: with one allocation filling the heap, `kmalloc(0)` fails though 0 < 0 is false. */
  lemma FailsOnNothing()
    ensures var full := Allocated(Initial, 0, SIZE - HEADER);
      Tiled(full) && FirstFit(full, Round(0)) == |full| && !(LargestFree(full) < Round(0))
  {
    var full := Allocated(Initial, 0, SIZE - HEADER);
    assert full == [Block(START, SIZE - HEADER, false)];
    assert full[1..] == [];
  }
}
