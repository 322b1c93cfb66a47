/** Screen rectangles. Coordinates are mathematical integers: sums are assumed not to overflow 32 bits. */
module Rects {
  import opened Common

  datatype Rect = Rect(x: int, y: int, w: int, h: int)

  predicate In(r: Rect, x: int, y: int) {
    r.x <= x < r.x + r.w && r.y <= y < r.y + r.h
  }

  predicate InAny(rs: seq<Rect>, x: int, y: int) {
    exists i :: 0 <= i < |rs| && In(rs[i], x, y)
  }

  function Max(a: int, b: int): int {
    if a > b then a else b
  }

  /** The smallest rectangle around both, for rectangles that are not empty. */
  function Union(a: Rect, b: Rect): (r: Rect)
    ensures forall x, y :: In(a, x, y) || In(b, x, y) ==> In(r, x, y)
  {
    var x1, y1 := Min(a.x, b.x), Min(a.y, b.y);
    Rect(x1, y1, Max(a.x + a.w, b.x + b.w) - x1, Max(a.y + a.h, b.y + b.h) - y1)
  }

  /** The common points, or nothing if there are none. */
  function Intersect(a: Rect, b: Rect): (r: Option<Rect>)
    ensures r.None? ==> forall x, y :: !(In(a, x, y) && In(b, x, y))
    ensures r.Some? ==> r.value.w > 0 && r.value.h > 0 && forall x, y :: In(r.value, x, y) <==>
      In(a, x, y) && In(b, x, y)
  {
    var x1, y1 := Max(a.x, b.x), Max(a.y, b.y);
    var x2, y2 := Min(a.x + a.w, b.x + b.w), Min(a.y + a.h, b.y + b.h);
    if x2 <= x1 || y2 <= y1 then None else Some(Rect(x1, y1, x2 - x1, y2 - y1))
  }

  /** The union is the least rectangle: its edges are edges of the two. */
  lemma UnionTight(a: Rect, b: Rect, r: Rect)
    requires a.w > 0 && a.h > 0 && b.w > 0 && b.h > 0
    requires forall x, y :: In(a, x, y) || In(b, x, y) ==> In(r, x, y)
    ensures forall x, y :: In(Union(a, b), x, y) ==> In(r, x, y)
  {
    assert In(a, a.x, a.y) && In(a, a.x + a.w - 1, a.y + a.h - 1);
    assert In(b, b.x, b.y) && In(b, b.x + b.w - 1, b.y + b.h - 1);
  }
}
