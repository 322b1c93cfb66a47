/** Which pixels an operation on the window list can change, and when the dirty rectangles cover them. */
module Damage {
  import opened Common
  import opened Rects
  import opened Graphics
  import opened Compositor

  const MAX_DIRTY: nat := 32
  const MAX_SHOWN: nat := 16

  /** What `window_outer_rect` gives: the window and its shadow. */
  function Outer(win: Window): Rect {
    Rect(win.x, win.y, win.w + SHADOW_OFFSET, win.h + SHADOW_OFFSET)
  }

  /** Everything the window shows lies in its outer rectangle. */
  ghost predicate Covered(win: Window) {
    forall x, y :: Shown(win, x, y).Some? ==> In(Outer(win), x, y)
  }

  predicate BigEnough(win: Window) {
    (win.w >= 1 && win.h >= TITLE - SHADOW_OFFSET) || (win.w == 0 && win.h == 0)
  }

  /** That is so exactly for windows at least 1 wide and 20 high (or empty): the title bar of a lower window and the
      right border of one without width stick out, and moving such a window leaves them behind. */
  lemma OuterCovers(win: Window)
    ensures Covered(win) <==> BigEnough(win)
  {
    if win.w == 0 && win.h > 0 {
      assert In(RightOf(win), win.x - 1, win.y);
      assert Shown(win, win.x - 1, win.y).Some? && !In(Outer(win), win.x - 1, win.y);
    } else if win.w >= 1 && win.h < TITLE - SHADOW_OFFSET {
      assert In(TitleOf(win), win.x, win.y + TITLE - 1);
      assert Shown(win, win.x, win.y + TITLE - 1).Some? && !In(Outer(win), win.x, win.y + TITLE - 1);
    }
  }

  // ----- the dirty rectangles

  /** The first rectangle that overlaps `r`, or the length of the list. */
  function FirstOverlap(dirty: seq<Rect>, r: Rect): (i: nat)
    ensures i <= |dirty|
    ensures i < |dirty| ==> Intersect(dirty[i], r).Some?
    ensures forall j :: 0 <= j < i ==> Intersect(dirty[j], r).None?
  {
    if dirty == [] then 0 else if Intersect(dirty[0], r).Some? then 0 else 1 + FirstOverlap(dirty[1..], r)
  }

  /** `queue_dirty_rect` for the on-screen part `r`: join the first rectangle that overlaps, else append, else start
      over with one rectangle. */
  function Queued(dirty: seq<Rect>, r: Rect): seq<Rect> {
    var i := FirstOverlap(dirty, r);
    if i < |dirty| then dirty[i := Union(dirty[i], r)]
    else if |dirty| < MAX_DIRTY then dirty + [r]
    else [Union(dirty[0], r)]
  }

  /** The list is full and nothing overlaps. */
  predicate Overflows(dirty: seq<Rect>, r: Rect) {
    |dirty| >= MAX_DIRTY && FirstOverlap(dirty, r) == |dirty|
  }

  ghost predicate Grows(dirty: seq<Rect>, dirty': seq<Rect>, r: Rect) {
    forall x, y :: InAny(dirty, x, y) || In(r, x, y) ==> InAny(dirty', x, y)
  }

  lemma InAnyAt(rs: seq<Rect>, i: int, x: int, y: int)
    requires 0 <= i < |rs| && In(rs[i], x, y)
    ensures InAny(rs, x, y)
  {
  }

  lemma QueuedGrows(dirty: seq<Rect>, r: Rect)
    requires !Overflows(dirty, r)
    ensures Grows(dirty, Queued(dirty, r), r)
  {
    hide In, Union;
    var q := Queued(dirty, r);
    var i := FirstOverlap(dirty, r);
    forall x, y | InAny(dirty, x, y) || In(r, x, y)
      ensures InAny(q, x, y)
    {
      if InAny(dirty, x, y) {
        var j :| 0 <= j < |dirty| && In(dirty[j], x, y);
        InAnyAt(q, j, x, y);
      } else {
        InAnyAt(q, i, x, y);
      }
    }
  }

  /** Nothing dirty is forgotten exactly if the list does not overflow or the forgotten rectangles lie in the one
      that is kept. */
  lemma QueuedGrowsIff(dirty: seq<Rect>, r: Rect)
    requires r.w > 0 && r.h > 0
    ensures Grows(dirty, Queued(dirty, r), r) <==>
      !Overflows(dirty, r) || forall x, y :: InAny(dirty, x, y) ==> In(Union(dirty[0], r), x, y)
  {
    if Overflows(dirty, r) {
      hide In;
      var u := Union(dirty[0], r);
      forall x, y
        ensures InAny(Queued(dirty, r), x, y) <==> In(u, x, y)
      {
        assert Queued(dirty, r) == [u];
        if InAny([u], x, y) {
          var i :| 0 <= i < |[u]| && In([u][i], x, y);
        } else {
          assert In([u][0], x, y) ==> InAny([u], x, y);
        }
      }
    } else {
      QueuedGrows(dirty, r);
    }
  }

  /** Thirty-two one-pixel rectangles on a diagonal. */
  ghost predicate IsDiagonal(rs: seq<Rect>) {
    |rs| == MAX_DIRTY && forall i :: 0 <= i < |rs| ==> rs[i] == Rect(2 * i, 2 * i, 1, 1)
  }

  lemma Apart(i: int)
    requires 0 <= i
    ensures Intersect(Rect(2 * i, 2 * i, 1, 1), Rect(0, 2, 1, 1)).None?
  {
  }

  lemma DiagonalOverflows(d: seq<Rect>, r: Rect)
    requires IsDiagonal(d) && r == Rect(0, 2, 1, 1)
    ensures Overflows(d, r) && InAny(d, 62, 62) && !InAny(Queued(d, r), 62, 62)
  {
    hide FirstOverlap, Intersect, Union, InAny;
    var i := FirstOverlap(d, r);
    if i < |d| {
      Apart(i);
    }
    InAnyAt(d, 31, 62, 62);
    NotInOne(Union(d[0], r), 62, 62);
    KeptUnion();
  }

  lemma KeptUnion()
    ensures !In(Union(Rect(0, 0, 1, 1), Rect(0, 2, 1, 1)), 62, 62)
  {
  }

  /** One more rectangle, below the first, makes the list forget the pixel at (62, 62). */
  lemma OverflowForgets() returns (d: seq<Rect>, r: Rect)
    ensures Overflows(d, r) && InAny(d, 62, 62) && !InAny(Queued(d, r), 62, 62)
  {
    hide Overflows, Queued, InAny;
    d, r := seq(MAX_DIRTY, i => Rect(2 * i, 2 * i, 1, 1)), Rect(0, 2, 1, 1);
    DiagonalOverflows(d, r);
  }

  lemma NotInOne(r: Rect, x: int, y: int)
    ensures InAny([r], x, y) <==> In(r, x, y)
  {
    if In(r, x, y) {
      InAnyAt([r], 0, x, y);
    }
  }

  // ----- the picture under changes of the list

  lemma PictureInsert(wins: seq<Window>, win: Window, x: int, y: int)
    requires Shown(win, x, y).None?
    ensures Picture([win] + wins, x, y) == Picture(wins, x, y)
  {
    assert ([win] + wins)[1..] == wins;
  }

  lemma {:induction false} PictureRemove(wins: seq<Window>, i: nat, x: int, y: int)
    requires i < |wins| && Shown(wins[i], x, y).None?
    ensures Picture(wins[..i] + wins[i + 1..], x, y) == Picture(wins, x, y)
  {
    hide Shown;
    if i == 0 {
      assert wins[..0] + wins[1..] == wins[1..];
    } else {
      var rest := wins[..i] + wins[i + 1..];
      assert rest[1..] == wins[1..][..i - 1] + wins[1..][i..];
      PictureRemove(wins[1..], i - 1, x, y);
    }
  }

  lemma {:induction false} PictureReplace(wins: seq<Window>, i: nat, win: Window, x: int, y: int)
    requires i < |wins| && Shown(win, x, y) == Shown(wins[i], x, y)
    ensures Picture(wins[i := win], x, y) == Picture(wins, x, y)
  {
    hide Shown;
    if i == 0 {
      assert wins[0 := win][1..] == wins[1..];
    } else {
      assert wins[i := win][1..] == wins[1..][i - 1 := win];
      PictureReplace(wins[1..], i - 1, win, x, y);
    }
  }
}
