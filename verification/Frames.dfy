/** The abstract state of the physical frame allocator: a stack of free frames and a reference
    count per managed frame. Frames are named by number. */
module Frames {
  import opened Common

  datatype Frames = Frames(free: seq<nat>, refs: map<nat, nat>)

  /** The stack holds each unreferenced managed frame exactly once, and frame 0 (the null
      pointer) is not managed. */
  ghost predicate Valid(p: Frames) {
    && 0 !in p.refs
    && Distinct(p.free)
    && (forall f :: f in p.free ==> f in p.refs && p.refs[f] == 0)
    && (forall f :: f in p.refs && p.refs[f] == 0 ==> f in p.free)
  }

  /** The frame the next allocation returns. */
  function Top(p: Frames): nat
    requires p.free != []
  {
    p.free[|p.free| - 1]
  }

  function Take(p: Frames): Frames
    requires p.free != []
  {
    Frames(p.free[..|p.free| - 1], p.refs[Top(p) := 1])
  }

  function Drop(p: Frames, f: nat): Frames {
    if f in p.refs && p.refs[f] > 0 then
      Frames(if p.refs[f] == 1 then p.free + [f] else p.free, p.refs[f := p.refs[f] - 1])
    else
      p
  }

  function Share(p: Frames, f: nat): Frames {
    if f in p.refs then p.(refs := p.refs[f := p.refs[f] + 1]) else p
  }

  lemma TakeValid(p: Frames)
    requires Valid(p) && p.free != []
    ensures Valid(Take(p)) && Top(p) in p.refs && p.refs[Top(p)] == 0 && Top(p) != 0
    ensures Take(p).refs.Keys == p.refs.Keys
    ensures (set f | f in p.free) == (set f | f in Take(p).free) + {Top(p)}
    ensures Top(p) !in Take(p).free
  {
    assert Top(p) in p.free;
    var q := Take(p);
    assert p.free == q.free + [Top(p)];
    forall f | f in q.refs && q.refs[f] == 0
      ensures f in q.free
    {
      assert f in p.free;
    }
  }

  lemma DropValid(p: Frames, f: nat)
    requires Valid(p)
    ensures Valid(Drop(p, f)) && Drop(p, f).refs.Keys == p.refs.Keys
  {
    if f in p.refs && p.refs[f] > 0 {
      var q := Drop(p, f);
      assert f !in p.free;
      forall g | g in q.refs && q.refs[g] == 0
        ensures g in q.free
      {
        if g != f {
          assert g in p.free;
        }
      }
    }
  }

  lemma ShareValid(p: Frames, f: nat)
    requires Valid(p) && (f in p.refs ==> p.refs[f] > 0)
    ensures Valid(Share(p, f)) && Share(p, f).refs.Keys == p.refs.Keys
  {
  }

  /** The frames between the two states have been taken, each once, and nothing else has happened. */
  ghost predicate TakenSince(p0: Frames, p: Frames) {
    && p.free <= p0.free && p.refs.Keys == p0.refs.Keys
    && (forall f :: f in p.refs && (f in p.free || f !in p0.free) ==> p.refs[f] == p0.refs[f])
    && (forall f :: f in p.refs && f in p0.free && f !in p.free ==> p.refs[f] == 1)
  }

  lemma TakenOne(p0: Frames, p: Frames)
    requires Valid(p0) && Valid(p) && TakenSince(p0, p) && p.free != []
    ensures TakenSince(p0, Take(p)) && |Take(p).free| == |p.free| - 1
    ensures Top(p) in p0.free && Top(p) in p.free && Top(p) !in Take(p).free
  {
    TakeValid(p);
    assert Top(p) in p.free;
    TakenTop(p);
    assert Take(p).free <= p.free <= p0.free;
    assert forall f :: f in p.free ==> f in p0.free;
    hide Valid, Top;
  }

  lemma TakenTop(p: Frames)
    requires Valid(p) && p.free != []
    ensures forall f :: f in p.free <==> f in Take(p).free || f == Top(p)
  {
    assert p.free == Take(p).free + [Top(p)];
  }

  /** Whatever has been taken, taking its first frame was the first step. */
  lemma TakenFirst(p0: Frames, p: Frames)
    requires Valid(p0) && TakenSince(p0, p) && |p.free| < |p0.free|
    ensures p0.free != [] && Valid(Take(p0)) && TakenSince(Take(p0), p) && Top(p0) !in p.free && Top(p0) in p0.free
  {
    TakeValid(p0);
    TakenTop(p0);
    var q := Take(p0);
    assert p.free == p0.free[..|p.free|] && q.free == p0.free[..|p0.free| - 1];
    assert p.free == q.free[..|p.free|];
    assert forall f :: f in p.free ==> f in q.free;
    hide Valid;
  }

  lemma NoneTaken(p0: Frames, p: Frames)
    requires TakenSince(p0, p) && |p.free| >= |p0.free|
    ensures p == p0
  {
    assert p.free == p0.free;
  }

  lemma NothingTaken(p: Frames)
    ensures TakenSince(p, p)
  {
  }
}
