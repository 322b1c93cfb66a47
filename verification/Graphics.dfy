/** The backbuffer and the framebuffer: pixel and rectangle drawing in place, and the copy to the screen. */
module Graphics {
  import opened Common
  import opened Rects

  type Color = bv32

  /** The index of pixel (x, y) when rows are `w` pixels long. */
  function At(x: int, y: int, w: int): int {
    y * w + x
  }

  predicate OnScreen(x: int, y: int, w: int, h: int) {
    0 <= x < w && 0 <= y < h
  }

  lemma AtBound(x: int, y: int, w: int, h: int)
    requires OnScreen(x, y, w, h)
    ensures 0 <= At(x, y, w) < w * h
  {
    assert y * w <= (h - 1) * w;
  }

  /** Pixels have different indices. */
  lemma AtUnique(x: int, y: int, x': int, y': int, w: int)
    requires 0 <= x < w && 0 <= x' < w
    ensures At(x, y, w) == At(x', y', w) ==> x == x' && y == y'
  {
    if y < y' {
      assert (y + 1) * w <= y' * w;
    } else if y' < y {
      assert (y' + 1) * w <= y * w;
    }
  }

  /** The picture `s'` is `s` with the pixels of `r` in one colour. */
  ghost predicate Filled(s: seq<Color>, s': seq<Color>, w: int, h: int, r: Rect, c: Color) {
    && |s'| == |s| >= w * h && (forall i :: 0 <= i < |s| && w * h <= i ==> s'[i] == s[i])
    && forall x, y :: OnScreen(x, y, w, h) && 0 <= At(x, y, w) < |s| ==>
         s'[At(x, y, w)] == if In(r, x, y) then c else s[At(x, y, w)]
  }

  /** Row-major progress of a fill: rows before `row`, and in it columns before `col`, of `r` are done. */
  predicate Reached(r: Rect, row: int, col: int, x: int, y: int) {
    In(r, x, y) && (y < r.y + row || (y == r.y + row && x < r.x + col))
  }

  ghost predicate Filling(s: seq<Color>, s': seq<Color>, w: int, h: int, r: Rect, c: Color, row: int, col: int) {
    && |s'| == |s| >= w * h && (forall i :: 0 <= i < |s| && w * h <= i ==> s'[i] == s[i])
    && forall x, y :: OnScreen(x, y, w, h) && 0 <= At(x, y, w) < |s| ==>
         s'[At(x, y, w)] == if Reached(r, row, col, x, y) then c else s[At(x, y, w)]
  }

  lemma FillPixel(s: seq<Color>, s': seq<Color>, w: int, h: int, r: Rect, c: Color, row: int, col: int)
    requires Filling(s, s', w, h, r, c, row, col) && 0 <= row < r.h && 0 <= col < r.w
    ensures var x, y := r.x + col, r.y + row;
      var i := At(x, y, w);
      if OnScreen(x, y, w, h) then 0 <= i < |s'| && Filling(s, s'[i := c], w, h, r, c, row, col + 1)
      else Filling(s, s', w, h, r, c, row, col + 1)
  {
    var x, y := r.x + col, r.y + row;
    if OnScreen(x, y, w, h) {
      AtBound(x, y, w, h);
      forall x', y' | OnScreen(x', y', w, h) && 0 <= At(x', y', w) < |s|
        ensures s'[At(x, y, w) := c][At(x', y', w)] == if Reached(r, row, col + 1, x', y') then c else s[At(x', y', w)]
      {
        AtUnique(x, y, x', y', w);
        hide At;
      }
    }
  }

  lemma FillRow(s: seq<Color>, s': seq<Color>, w: int, h: int, r: Rect, c: Color, row: int)
    requires Filling(s, s', w, h, r, c, row, if r.w > 0 then r.w else 0) && 0 <= row
    ensures Filling(s, s', w, h, r, c, row + 1, 0)
  {
  }

  lemma FillStart(s: seq<Color>, w: int, h: int, r: Rect, c: Color)
    requires |s| >= w * h
    ensures Filling(s, s, w, h, r, c, 0, 0)
  {
  }

  lemma FillEnd(s: seq<Color>, s': seq<Color>, w: int, h: int, r: Rect, c: Color, row: int)
    requires Filling(s, s', w, h, r, c, row, 0) && row >= r.h
    ensures Filled(s, s', w, h, r, c)
  {
  }

  /** Byte `k` of a pixel in memory. */
  function ByteOf(c: Color, k: int): Byte
    requires 0 <= k < 4
  {
    ((c >> (8 * k)) & 0xFF) as Byte
  }

  /** The byte of the pixel at bit `n` is 0xFF. */
  predicate FullAt(c: Color, n: bv5) {
    (c >> n) & 0xFF == 0xFF
  }

  lemma AllFull(c: Color)
    requires FullAt(c, 0) && FullAt(c, 8) && FullAt(c, 16) && FullAt(c, 24)
    ensures c == WHITE
  {
  }

  lemma NarrowFull(c: Color)
    requires c & 0xFF == c
    ensures c as Byte == 0xFF ==> c == 0xFF
  {
  }

  lemma FullIs(c: Color, k: int)
    requires 0 <= k < 4 && ByteOf(c, k) == ByteOf(WHITE, k)
    ensures FullAt(c, if k == 0 then 0 else if k == 1 then 8 else if k == 2 then 16 else 24)
  {
    assert ByteOf(WHITE, k) == 0xFF;
    NarrowFull((c >> (8 * k)) & 0xFF);
  }

  /** Only white has the bytes of white. */
  lemma WhiteBytes(c: Color)
    requires forall k :: 0 <= k < 4 ==> ByteOf(c, k) == ByteOf(WHITE, k)
    ensures c == WHITE
  {
    hide ByteOf, FullAt;
    FullIs(c, 0);
    FullIs(c, 1);
    FullIs(c, 2);
    FullIs(c, 3);
    AllFull(c);
  }

  /** Byte column `col` of screen row `y`: the backbuffer's byte if `shown`, else what was there. */
  ghost predicate ByteIs(back: seq<Color>, f: seq<Byte>, f': seq<Byte>, w: int, pitch: int, col: int, y: int,
                         shown: bool)
    requires 0 <= At(col, y, pitch) < |f| == |f'|
  {
    f'[At(col, y, pitch)] ==
      if shown && 0 <= At(col / 4, y, w) < |back| then ByteOf(back[At(col / 4, y, w)], col % 4)
        else f[At(col, y, pitch)]
  }

  /** The framebuffer after copying the first `n` rectangles and `row` rows of `c`: their pixels agree with the
      backbuffer; all other bytes, the ends of the rows among them, are as before. */
  ghost predicate Copied(back: seq<Color>, f: seq<Byte>, f': seq<Byte>, w: int, h: int, pitch: int, rs: seq<Rect>,
                         c: Rect, row: int) {
    && |f'| == |f| && (forall i :: 0 <= i < |f| && pitch * h <= i ==> f'[i] == f[i])
    && forall col, y :: OnScreen(col, y, pitch, h) && 0 <= At(col, y, pitch) < |f| ==>
         ByteIs(back, f, f', w, pitch, col, y, col < 4 * w &&
                (InAny(rs, col / 4, y) || (In(c, col / 4, y) && y < c.y + row)))
  }

  const Nowhere: Rect := Rect(0, 0, 0, 0)

  lemma CopyStart(back: seq<Color>, f: seq<Byte>, w: int, h: int, pitch: int)
    ensures Copied(back, f, f, w, h, pitch, [], Nowhere, 0)
  {
  }

  lemma CopyNone(back: seq<Color>, f: seq<Byte>, f': seq<Byte>, w: int, h: int, pitch: int, rs: seq<Rect>, c: Rect,
                 row: int, d: Rect)
    requires Copied(back, f, f', w, h, pitch, rs, c, 0)
    ensures Copied(back, f, f', w, h, pitch, rs, d, 0)
  {
    hide At;
    forall col, y | OnScreen(col, y, pitch, h) && 0 <= At(col, y, pitch) < |f|
      ensures ByteIs(back, f, f', w, pitch, col, y, col < 4 * w &&
                     (InAny(rs, col / 4, y) || (In(d, col / 4, y) && y < d.y + 0)))
    {
      assert !(In(c, col / 4, y) && y < c.y + 0);
    }
  }

  /** The whole of a clipped rectangle is the rectangle, as far as the screen goes. */
  lemma CopyRect(back: seq<Color>, f: seq<Byte>, f': seq<Byte>, w: int, h: int, pitch: int, rs: seq<Rect>, c: Rect,
                 r: Rect, row: int)
    requires Copied(back, f, f', w, h, pitch, rs, c, row)
    requires forall px, py :: In(r, px, py) && OnScreen(px, py, w, h) <==> In(c, px, py) && py < c.y + row
    ensures Copied(back, f, f', w, h, pitch, rs + [r], Nowhere, 0)
  {
    hide At, In;
    forall col, y | OnScreen(col, y, pitch, h) && 0 <= At(col, y, pitch) < |f|
      ensures ByteIs(back, f, f', w, pitch, col, y, col < 4 * w &&
                     (InAny(rs + [r], col / 4, y) || (In(Nowhere, col / 4, y) && y < Nowhere.y + 0)))
    {
      InAnyMore(rs, r, col / 4, y);
      assert In(r, col / 4, y) && OnScreen(col / 4, y, w, h) <==> In(c, col / 4, y) && y < c.y + row;
      assert !In(Nowhere, col / 4, y) by { NotNowhere(col / 4, y); }
    }
  }

  lemma NotNowhere(x: int, y: int)
    ensures !In(Nowhere, x, y)
  {
  }

  lemma InAnyMore(rs: seq<Rect>, r: Rect, x: int, y: int)
    ensures InAny(rs + [r], x, y) <==> InAny(rs, x, y) || In(r, x, y)
  {
    hide In;
    if InAny(rs, x, y) {
      var i :| 0 <= i < |rs| && In(rs[i], x, y);
      assert In((rs + [r])[i], x, y);
    }
    assert (rs + [r])[|rs|] == r;
  }

  /** The `n` pixels of framebuffer row `y` from column `x` have been overwritten with those of the backbuffer. */
  ghost predicate RowCopied(back: seq<Color>, f: seq<Byte>, f': seq<Byte>, w: int, pitch: int, x: int, n: int, y: int) {
    && |f'| == |f|
    && (forall i :: 0 <= i < |f| && !(At(4 * x, y, pitch) <= i < At(4 * x, y, pitch) + 4 * n) ==> f'[i] == f[i])
    && (forall i :: 0 <= i < 4 * n && 0 <= At(4 * x, y, pitch) + i < |f| && 0 <= At(x + i / 4, y, w) < |back| ==>
          f'[At(4 * x, y, pitch) + i] == ByteOf(back[At(x + i / 4, y, w)], i % 4))
  }

  lemma RowIs(back: seq<Color>, f: seq<Byte>, f': seq<Byte>, w: int, pitch: int, x: int, n: int, y: int, src: int,
              dst: int)
    requires src == At(x, y, w) && dst == At(4 * x, y, pitch) && |f'| == |f| && 0 <= dst && dst + 4 * n <= |f|
    requires 0 <= src && src + n <= |back|
    requires forall i :: 0 <= i < |f| && !(dst <= i < dst + 4 * n) ==> f'[i] == f[i]
    requires forall i :: 0 <= i < 4 * n ==> f'[dst + i] == ByteOf(back[src + i / 4], i % 4)
    ensures RowCopied(back, f, f', w, pitch, x, n, y)
  {
    hide ByteOf;
    forall i | 0 <= i < 4 * n
      ensures At(x + i / 4, y, w) == src + i / 4
    {
      RowStart(x, i / 4, y, w);
    }
    hide At;
  }

  lemma CopyRow(back: seq<Color>, f: seq<Byte>, f1: seq<Byte>, f2: seq<Byte>, w: int, h: int, pitch: int, rs: seq<Rect>,
                c: Rect, row: int)
    requires Copied(back, f, f1, w, h, pitch, rs, c, row) && RowCopied(back, f1, f2, w, pitch, c.x, c.w, c.y + row)
    requires 0 <= row < c.h && 0 <= c.x && c.x + c.w <= w && 0 <= c.y && c.y + c.h <= h && 0 <= 4 * w <= pitch &&
      |back| >= w * h && |f| >= pitch * h
    ensures Copied(back, f, f2, w, h, pitch, rs, c, row + 1)
  {
    hide ByteOf;
    var y0 := c.y + row;
    forall col, y | OnScreen(col, y, pitch, h) && 0 <= At(col, y, pitch) < |f|
      ensures ByteIs(back, f, f2, w, pitch, col, y, col < 4 * w &&
                     (InAny(rs, col / 4, y) || (In(c, col / 4, y) && y < c.y + (row + 1))))
    {
      CopyByte(back, f, f1, f2, w, h, pitch, rs, c, row, col, y);
      hide ByteIs, InAny, In, At;
    }
    RowEnds(c.x, c.w, y0, w, h, pitch);
  }

  lemma RowEnds(x: int, n: int, y: int, w: int, h: int, pitch: int)
    requires 0 <= x && x + n <= w && 0 <= 4 * w <= pitch && 0 <= y < h
    ensures 0 <= At(4 * x, y, pitch) && At(4 * x, y, pitch) + 4 * n <= pitch * h
  {
    assert y * pitch <= (h - 1) * pitch;
  }

  /** The byte is in the copied row exactly if its pixel is in the row of the rectangle. */
  lemma CopyByte(back: seq<Color>, f: seq<Byte>, f1: seq<Byte>, f2: seq<Byte>, w: int, h: int, pitch: int,
                 rs: seq<Rect>, c: Rect, row: int,
                 col: int, y: int)
    requires Copied(back, f, f1, w, h, pitch, rs, c, row) && RowCopied(back, f1, f2, w, pitch, c.x, c.w, c.y + row)
    requires 0 <= row < c.h && 0 <= c.x && c.x + c.w <= w && 0 <= c.y && c.y + c.h <= h && 0 <= 4 * w <= pitch &&
      |back| >= w * h && |f| >= pitch * h
    requires OnScreen(col, y, pitch, h) && 0 <= At(col, y, pitch) < |f|
    ensures |f2| == |f| && ByteIs(back, f, f2, w, pitch, col, y, col < 4 * w &&
                                  (InAny(rs, col / 4, y) || (In(c, col / 4, y) && y < c.y + (row + 1))))
  {
    var y0 := c.y + row;
    var shown := col < 4 * w && (InAny(rs, col / 4, y) || (In(c, col / 4, y) && y < c.y + row));
    assert ByteIs(back, f, f1, w, pitch, col, y, shown);
    hide InAny, ByteOf;
    InRow(c, y0, col, y, pitch, w);
    if y == y0 && 4 * c.x <= col < 4 * c.x + 4 * c.w {
      var i := col - 4 * c.x;
      assert c.x + i / 4 == col / 4 && i % 4 == col % 4;
      AtBound(col / 4, y, w, h);
    }
    hide At, Copied;
  }

  lemma InRow(c: Rect, y0: int, col: int, y: int, pitch: int, w: int)
    requires 0 <= c.x && c.x + c.w <= w && 0 <= 4 * w <= pitch && 0 <= col < pitch
    ensures At(4 * c.x, y0, pitch) <= At(col, y, pitch) < At(4 * c.x, y0, pitch) + 4 * c.w <==>
      y == y0 && 4 * c.x <= col < 4 * c.x + 4 * c.w
    ensures y == y0 ==> At(col, y, pitch) == At(4 * c.x, y0, pitch) + (col - 4 * c.x)
    ensures 4 * c.x <= col < 4 * c.x + 4 * c.w <==> c.x <= col / 4 < c.x + c.w
  {
    if y < y0 {
      assert (y + 1) * pitch <= y0 * pitch;
    } else if y0 < y {
      assert (y0 + 1) * pitch <= y * pitch;
    }
  }

  /** What `Copied` says of a pixel: inside the rectangles its four bytes are the backbuffer's, elsewhere they are
      as before. */
  lemma Synced(back: seq<Color>, f: seq<Byte>, f': seq<Byte>, w: int, h: int, pitch: int, rs: seq<Rect>, x: int, y: int,
               k: int)
    requires Copied(back, f, f', w, h, pitch, rs, Nowhere, 0) && OnScreen(x, y, w, h) && 0 <= k < 4
    requires 4 * w <= pitch && |back| >= w * h && |f| >= pitch * h
    ensures 0 <= At(4 * x + k, y, pitch) < |f| == |f'| && 0 <= At(x, y, w) < |back|
    ensures f'[At(4 * x + k, y, pitch)] == if InAny(rs, x, y) then ByteOf(back[At(x, y, w)], k)
      else f[At(4 * x + k, y, pitch)]
  {
    hide ByteOf, InAny;
    var col := 4 * x + k;
    assert col / 4 == x && col % 4 == k;
    AtBound(x, y, w, h);
    AtBound(col, y, pitch, h);
    assert ByteIs(back, f, f', w, pitch, col, y, col < 4 * w &&
                  (InAny(rs, col / 4, y) || (In(Nowhere, col / 4, y) && y < Nowhere.y + 0)));
  }

  // ----- the mouse cursor

  /** The arrow: row `i` is `i / 2 + 1` pixels wide, at most 10. */
  predicate InCursor(cx: int, cy: int, x: int, y: int) {
    0 <= y - cy < 15 && 0 <= x - cx < 10 && x - cx < (y - cy) / 2 + 1
  }

  const WHITE: Color := 0xFFFF_FFFF

  predicate CursorReached(cx: int, cy: int, row: int, col: int, x: int, y: int) {
    InCursor(cx, cy, x, y) && (y < cy + row || (y == cy + row && x < cx + col))
  }

  ghost predicate Pointing(s: seq<Color>, s': seq<Color>, w: int, h: int, cx: int, cy: int, row: int, col: int) {
    && |s'| == |s| >= w * h
    && forall x, y :: OnScreen(x, y, w, h) && 0 <= At(x, y, w) < |s| ==>
         s'[At(x, y, w)] == if CursorReached(cx, cy, row, col, x, y) then WHITE else s[At(x, y, w)]
  }

  lemma PointPixel(s: seq<Color>, s': seq<Color>, w: int, h: int, cx: int, cy: int, row: int, col: int)
    requires Pointing(s, s', w, h, cx, cy, row, col) && 0 <= row < 15 && 0 <= col < 10
    ensures var x, y := cx + col, cy + row;
      if OnScreen(x, y, w, h) && col < row / 2 + 1 then 0 <= At(x, y, w) < |s'| &&
        Pointing(s, s'[At(x, y, w) := WHITE], w, h, cx, cy, row, col + 1)
      else Pointing(s, s', w, h, cx, cy, row, col + 1)
  {
    var x, y := cx + col, cy + row;
    if OnScreen(x, y, w, h) {
      AtBound(x, y, w, h);
      forall x', y' | OnScreen(x', y', w, h) && 0 <= At(x', y', w) < |s|
        ensures At(x, y, w) == At(x', y', w) ==> x == x' && y == y'
      {
        AtUnique(x, y, x', y', w);
      }
      hide At;
    }
  }

  lemma PointRow(s: seq<Color>, s': seq<Color>, w: int, h: int, cx: int, cy: int, row: int)
    requires Pointing(s, s', w, h, cx, cy, row, 10)
    ensures Pointing(s, s', w, h, cx, cy, row + 1, 0)
  {
  }

  lemma PointStart(s: seq<Color>, w: int, h: int, cx: int, cy: int)
    requires |s| >= w * h
    ensures Pointing(s, s, w, h, cx, cy, 0, 0)
  {
  }

  class Screen {
    const width: nat
    const height: nat
    const pitch: nat
    const back: array<Color>
    const fb: array<Byte>

    ghost predicate Valid() {
      back.Length >= width * height && pitch >= 4 * width && fb.Length >= pitch * height
    }

    /** `graphics_init`: the backbuffer has as many bytes as the framebuffer. */
    constructor (width: nat, height: nat, pitch: nat)
      requires pitch >= 4 * width
      ensures Valid() && fresh(back) && fresh(fb)
      ensures this.width == width && this.height == height && this.pitch == pitch
    {
      this.width, this.height, this.pitch := width, height, pitch;
      BackSize(width, height, pitch);
      back := new Color[pitch * height / 4];
      fb := new Byte[pitch * height];
    }

    /** `graphics_draw_cursor`. */
    method DrawCursor(x: int, y: int)
      requires Valid()
      modifies back
      ensures Pointing(old(back[..]), back[..], width, height, x, y, 15, 0)
    {
      hide Pointing, At, OnScreen;
      ghost var s := back[..];
      PointStart(s, width, height, x, y);
      for i := 0 to 15
        invariant Pointing(s, back[..], width, height, x, y, i, 0)
      {
        for j := 0 to 10
          invariant Pointing(s, back[..], width, height, x, y, i, j)
        {
          PointPixel(s, back[..], width, height, x, y, i, j);
          if j < i / 2 + 1 {
            PutPixel(x + j, y + i, WHITE);
          }
        }
        PointRow(s, back[..], width, height, x, y, i);
      }
    }

    /** `graphics_put_pixel`; points off the screen are ignored. */
    method PutPixel(x: int, y: int, color: Color)
      requires Valid()
      modifies back
      ensures OnScreen(x, y, width, height) ==>
        0 <= At(x, y, width) < back.Length && back[..] == old(back[..])[At(x, y, width) := color]
      ensures !OnScreen(x, y, width, height) ==> back[..] == old(back[..])
    {
      if x < 0 || x >= width || y < 0 || y >= height {
        return;
      }
      AtBound(x, y, width, height);
      back[y * width + x] := color;
    }

    /** `graphics_draw_rect`, pixel by pixel. */
    method DrawRect(x: int, y: int, w: nat, h: nat, color: Color)
      requires Valid()
      modifies back
      ensures Filled(old(back[..]), back[..], width, height, Rect(x, y, w, h), color)
    {
      hide Filling, Filled, At, OnScreen;
      ghost var s := back[..];
      ghost var r := Rect(x, y, w, h);
      FillStart(s, width, height, r, color);
      for i := 0 to h
        invariant Filling(s, back[..], width, height, r, color, i, 0)
      {
        for j := 0 to w
          invariant Filling(s, back[..], width, height, r, color, i, j)
        {
          FillPixel(s, back[..], width, height, r, color, i, j);
          PutPixel(x + j, y + i, color);
        }
        FillRow(s, back[..], width, height, r, color, i);
      }
      FillEnd(s, back[..], width, height, r, color, h);
    }

    /** `clip_rect`: the part on the screen, and whether there is any. */
    method ClipRect(r: Rect) returns (c: Rect, some: bool)
      ensures some <==> c.w > 0 && c.h > 0
      ensures some ==> 0 <= c.x && c.x + c.w <= width && 0 <= c.y && c.y + c.h <= height
      ensures forall px, py :: In(r, px, py) && OnScreen(px, py, width, height) <==> some && In(c, px, py)
    {
      var x2, y2 := r.x + r.w, r.y + r.h;
      var x, y := r.x, r.y;
      if x < 0 { x := 0; }
      if y < 0 { y := 0; }
      if x2 > width { x2 := width; }
      if y2 > height { y2 := height; }
      c := Rect(x, y, x2 - x, y2 - y);
      some := c.w > 0 && c.h > 0;
    }

    /** `graphics_clear_rect`. */
    method ClearRect(r: Rect, color: Color)
      requires Valid()
      modifies back
      ensures Filled(old(back[..]), back[..], width, height, r, color)
    {
      hide Filling, Filled, At;
      ghost var s := back[..];
      var c, some := ClipRect(r);
      FillStart(s, width, height, c, color);
      if !some {
        ClippedFill(s, s, width, height, r, c, color);
        return;
      }
      for py := 0 to c.h
        invariant Filling(s, back[..], width, height, c, color, py, 0)
      {
        for px := 0 to c.w
          invariant Filling(s, back[..], width, height, c, color, py, px)
        {
          FillPixel(s, back[..], width, height, c, color, py, px);
          assert At(c.x + px, c.y + py, width) ==
            (c.y + py) * width + c.x + px by { RowStart(c.x, px, c.y + py, width); }
          back[(c.y + py) * width + c.x + px] := color;
        }
        FillRow(s, back[..], width, height, c, color, py);
      }
      FillEnd(s, back[..], width, height, c, color, c.h);
      ClippedFill(s, back[..], width, height, r, c, color);
    }

    /** `graphics_swap_rects`: the framebuffer shows the backbuffer on the union of the rectangles, and no other
        byte of it changes, whatever the pitch. */
    method SwapRects(rects: seq<Rect>)
      requires Valid() && back.Length >= width * height
      modifies fb
      ensures Copied(back[..], old(fb[..]), fb[..], width, height, pitch, rects, Nowhere, 0)
    {
      hide Copied, RowCopied, At, ByteOf;
      ghost var f := fb[..];
      CopyStart(back[..], f, width, height, pitch);
      for i := 0 to |rects|
        invariant Copied(back[..], f, fb[..], width, height, pitch, rects[..i], Nowhere, 0)
      {
        assert rects[..i + 1] == rects[..i] + [rects[i]];
        var c, some := ClipRect(rects[i]);
        if !some {
          CopyRect(back[..], f, fb[..], width, height, pitch, rects[..i], Nowhere, rects[i], 0);
          continue;
        }
        CopyNone(back[..], f, fb[..], width, height, pitch, rects[..i], Nowhere, 0, c);
        for row := 0 to c.h
          invariant Copied(back[..], f, fb[..], width, height, pitch, rects[..i], c, row)
        {
          ghost var f1 := fb[..];
          CopyLine(c.x, c.y + row, c.w);
          CopyRow(back[..], f, f1, fb[..], width, height, pitch, rects[..i], c, row);
        }
        CopyRect(back[..], f, fb[..], width, height, pitch, rects[..i], c, rects[i], c.h);
      }
      assert rects[..|rects|] == rects;
    }

    /** `memcpy` of `n` pixels from row `y` of the backbuffer to the framebuffer. */
    method CopyLine(x: int, y: int, n: int)
      requires Valid() && 0 <= x && 0 <= n && x + n <= width && 0 <= y < height
      modifies fb
      ensures RowCopied(back[..], old(fb[..]), fb[..], width, pitch, x, n, y)
    {
      hide ByteOf, At, RowCopied;
      RowEnds(x, n, y, width, height, pitch);
      SourceEnds(x, n, y, width, height);
      RowStart(0, 4 * x, y, pitch);
      RowStart(0, x, y, width);
      ghost var f := fb[..];
      var dst := y * pitch + 4 * x;
      var src := y * width + x;
      var last := 4 * n;
      forall i | 0 <= i < last {
        fb[dst + i] := ByteOf(back[src + i / 4], i % 4);
      }
      RowIs(back[..], f, fb[..], width, pitch, x, n, y, src, dst);
    }
  }

  lemma SourceEnds(x: int, n: int, y: int, w: int, h: int)
    requires 0 <= x && 0 <= n && x + n <= w && 0 <= y < h
    ensures 0 <= At(x, y, w) && At(x, y, w) + n <= w * h
  {
    assert y * w <= (h - 1) * w;
  }

  lemma BackSize(w: nat, h: nat, pitch: nat)
    requires pitch >= 4 * w
    ensures pitch * h >= 0 && pitch * h / 4 >= w * h
  {
    assert pitch * h >= 4 * w * h;
  }

  lemma RowStart(x: int, j: int, y: int, w: int)
    ensures At(x + j, y, w) == y * w + x + j
  {
  }

  /** Filling the clipped rectangle fills the rectangle, as far as the screen goes. */
  lemma ClippedFill(s: seq<Color>, s': seq<Color>, w: int, h: int, r: Rect, c: Rect, color: Color)
    requires if c.w > 0 && c.h > 0 then Filled(s, s', w, h, c, color) else s' == s && |s| >= w * h
    requires forall px, py :: In(r, px, py) && OnScreen(px, py, w, h) <==> c.w > 0 && c.h > 0 && In(c, px, py)
    ensures Filled(s, s', w, h, r, color)
  {
    hide At;
  }
}
