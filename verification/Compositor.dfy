/** Redrawing dirty rectangles back to front gives, on those rectangles, exactly the picture read off front to
    back. */
module Compositor {
  import opened Common
  import opened Rects
  import opened Graphics

  const DESKTOP: Color := 0xFF11_2233
  const SHADOW: Color := 0xAA00_0000
  const TITLE: int := 25
  const SHADOW_OFFSET: int := 5

  /** What the compositor copies of a window; `pixels` is the client area, row by row, if it has a buffer. */
  datatype Window = Window(x: int, y: int, w: nat, h: nat, title: Color, bg: Color, pixels: Option<seq<Color>>)

  predicate WindowOk(win: Window) {
    win.pixels.Some? && win.h > TITLE ==> |win.pixels.value| >= win.w * (win.h - TITLE)
  }

  ghost predicate WindowsOk(wins: seq<Window>) {
    forall i :: 0 <= i < |wins| ==> WindowOk(wins[i])
  }

  // ----- the reference: what a point shows

  function ShadowOf(win: Window): Rect { Rect(win.x + SHADOW_OFFSET, win.y + SHADOW_OFFSET, win.w, win.h) }
  function BodyOf(win: Window): Rect { Rect(win.x, win.y + TITLE, win.w, win.h - TITLE) }
  function TitleOf(win: Window): Rect { Rect(win.x, win.y, win.w, TITLE) }
  function TopOf(win: Window): Rect { Rect(win.x, win.y, win.w, 1) }
  function BottomOf(win: Window): Rect { Rect(win.x, win.y + win.h - 1, win.w, 1) }
  function LeftOf(win: Window): Rect { Rect(win.x, win.y, 1, win.h) }
  function RightOf(win: Window): Rect { Rect(win.x + win.w - 1, win.y, 1, win.h) }

  predicate InBorder(win: Window, x: int, y: int) {
    In(RightOf(win), x, y) || In(LeftOf(win), x, y) || In(BottomOf(win), x, y) || In(TopOf(win), x, y)
  }

  function BodyColor(win: Window, x: int, y: int): Color {
    if win.pixels.None? then win.bg
    else
      var i := At(x - win.x, y - win.y - TITLE, win.w);
      if 0 <= i < |win.pixels.value| then win.pixels.value[i] else win.bg
  }

  /** The colour of the window at a point, or nothing where it does not reach. */
  function Shown(win: Window, x: int, y: int): Option<Color> {
    if InBorder(win, x, y) then Some(WHITE)
    else if In(TitleOf(win), x, y) then Some(win.title)
    else if In(BodyOf(win), x, y) then Some(BodyColor(win, x, y))
    else if In(ShadowOf(win), x, y) then Some(SHADOW)
    else None
  }

  /** The frontmost window that reaches the point decides; windows are listed front to back. */
  function Picture(wins: seq<Window>, x: int, y: int): Color {
    if wins == [] then DESKTOP
    else
      var c := Shown(wins[0], x, y);
      if c.Some? then c.value else Picture(wins[1..], x, y)
  }

  // ----- drawing

  /** `s'` is `s` with the part of `r` inside the clip in one colour. */
  ghost predicate ClipFilled(s: seq<Color>, s': seq<Color>, w: int, h: int, clip: Rect, r: Rect, c: Color) {
    && |s'| == |s| >= w * h
    && forall x, y :: OnScreen(x, y, w, h) && 0 <= At(x, y, w) < |s| ==>
         s'[At(x, y, w)] == if In(clip, x, y) && In(r, x, y) then c else s[At(x, y, w)]
  }

  /** Progress of copying the window's buffer, row by row, over the part `r` of its body. */
  ghost predicate BodyDrawing(s: seq<Color>, s': seq<Color>, w: int, h: int, r: Rect, win: Window, row: int, col: int) {
    && |s'| == |s| >= w * h
    && forall x, y :: OnScreen(x, y, w, h) && 0 <= At(x, y, w) < |s| ==>
         s'[At(x, y, w)] == if Reached(r, row, col, x, y) then BodyColor(win, x, y) else s[At(x, y, w)]
  }

  ghost predicate BodyDrawn(s: seq<Color>, s': seq<Color>, w: int, h: int, clip: Rect, win: Window) {
    && |s'| == |s| >= w * h
    && forall x, y :: OnScreen(x, y, w, h) && 0 <= At(x, y, w) < |s| ==>
         s'[At(x, y, w)] == if In(clip, x, y) && In(BodyOf(win), x, y) then BodyColor(win, x, y) else s[At(x, y, w)]
  }

  /** The window has been drawn over `s` inside the clip. */
  ghost predicate WindowDrawn(s: seq<Color>, s': seq<Color>, w: int, h: int, clip: Rect, win: Window) {
    && |s'| == |s| >= w * h
    && forall x, y :: OnScreen(x, y, w, h) && 0 <= At(x, y, w) < |s| ==>
         s'[At(x, y, w)] == if In(clip, x, y) && Shown(win, x, y).Some? then Shown(win, x, y).value else s[At(x, y, w)]
  }

  method DrawRectClipped(screen: Screen, clip: Rect, r: Rect, color: Color)
    requires screen.Valid()
    modifies screen.back
    ensures ClipFilled(old(screen.back[..]), screen.back[..], screen.width, screen.height, clip, r, color)
  {
    hide At, Filled;
    var i := Intersect(clip, r);
    if i.Some? {
      ghost var s := screen.back[..];
      screen.DrawRect(i.value.x, i.value.y, i.value.w, i.value.h, color);
      FilledClip(s, screen.back[..], screen.width, screen.height, clip, r, color);
    }
  }

  lemma FilledClip(s: seq<Color>, s': seq<Color>, w: int, h: int, clip: Rect, r: Rect, c: Color)
    requires Intersect(clip, r).Some? && Filled(s, s', w, h, Intersect(clip, r).value, c)
    ensures ClipFilled(s, s', w, h, clip, r, c)
  {
    hide At, In;
  }

  lemma BodyPixel(s: seq<Color>, s': seq<Color>, w: int, h: int, r: Rect, win: Window, row: int, col: int)
    requires BodyDrawing(s, s', w, h, r, win, row, col) && 0 <= row < r.h && 0 <= col < r.w
    ensures var x, y := r.x + col, r.y + row;
      if OnScreen(x, y, w, h) then 0 <= At(x, y, w) < |s'| &&
        BodyDrawing(s, s'[At(x, y, w) := BodyColor(win, x, y)], w, h, r, win, row, col + 1)
      else BodyDrawing(s, s', w, h, r, win, row, col + 1)
  {
    hide BodyColor;
    var x, y := r.x + col, r.y + row;
    if OnScreen(x, y, w, h) {
      AtBound(x, y, w, h);
      forall x', y' | OnScreen(x', y', w, h) && 0 <= At(x', y', w) < |s|
        ensures At(x, y, w) == At(x', y', w) ==> x == x' && y == y'
      {
        AtUnique(x, y, x', y', w);
      }
      hide At;
    }
  }

  lemma BodyRow(s: seq<Color>, s': seq<Color>, w: int, h: int, r: Rect, win: Window, row: int)
    requires BodyDrawing(s, s', w, h, r, win, row, r.w) && 0 <= row
    ensures BodyDrawing(s, s', w, h, r, win, row + 1, 0)
  {
    hide At, BodyColor;
  }

  lemma BodyStart(s: seq<Color>, w: int, h: int, r: Rect, win: Window)
    requires |s| >= w * h
    ensures BodyDrawing(s, s, w, h, r, win, 0, 0)
  {
    hide At, BodyColor;
  }

  lemma BodyEnd(s: seq<Color>, s': seq<Color>, w: int, h: int, clip: Rect, win: Window)
    requires Intersect(clip, BodyOf(win)).Some?
    requires var r := Intersect(clip, BodyOf(win)).value; BodyDrawing(s, s', w, h, r, win, r.h, 0)
    ensures BodyDrawn(s, s', w, h, clip, win)
  {
    var r := Intersect(clip, BodyOf(win)).value;
    forall x, y
      ensures Reached(r, r.h, 0, x, y) <==> In(clip, x, y) && In(BodyOf(win), x, y)
    {
    }
    hide At, BodyColor, In, Reached, BodyOf;
  }

  /** Where the loop reads the buffer. */
  lemma BufferIndex(win: Window, r: Rect, clip: Rect, x: int, y: int)
    requires WindowOk(win) && win.pixels.Some? && Intersect(clip, BodyOf(win)) == Some(r) && 0 <= x < r.w &&
      0 <= y < r.h
    ensures var i := (r.y - (win.y + TITLE) + y) * win.w + (r.x - win.x + x);
      0 <= i < |win.pixels.value| && win.pixels.value[i] == BodyColor(win, r.x + x, r.y + y)
  {
    assert In(r, r.x + x, r.y + y);
    assert In(BodyOf(win), r.x + x, r.y + y);
    AtBound(r.x - win.x + x, r.y - (win.y + TITLE) + y, win.w, win.h - TITLE);
  }

  method DrawWindowBufferClipped(screen: Screen, clip: Rect, win: Window)
    requires screen.Valid() && WindowOk(win)
    modifies screen.back
    ensures BodyDrawn(old(screen.back[..]), screen.back[..], screen.width, screen.height, clip, win)
  {
    hide At, BodyDrawing, In, OnScreen;
    ghost var s := screen.back[..];
    if win.pixels.None? {
      DrawRectClipped(screen, clip, BodyOf(win), win.bg);
      return;
    }
    var i := Intersect(clip, BodyOf(win));
    if i.None? {
      return;
    }
    hide BodyDrawn, BodyOf, Intersect, BodyColor, WindowOk;
    var r := i.value;
    BodyStart(s, screen.width, screen.height, r, win);
    for y := 0 to r.h
      invariant BodyDrawing(s, screen.back[..], screen.width, screen.height, r, win, y, 0)
    {
      for x := 0 to r.w
        invariant BodyDrawing(s, screen.back[..], screen.width, screen.height, r, win, y, x)
      {
        BodyPixel(s, screen.back[..], screen.width, screen.height, r, win, y, x);
        BufferIndex(win, r, clip, x, y);
        var color := win.pixels.value[(r.y - (win.y + TITLE) + y) * win.w + (r.x - win.x + x)];
        screen.PutPixel(r.x + x, r.y + y, color);
      }
      BodyRow(s, screen.back[..], screen.width, screen.height, r, win, y);
    }
    BodyEnd(s, screen.back[..], screen.width, screen.height, clip, win);
  }

  /** Seven layers, the last on top. */
  lemma Layers(s0: seq<Color>, s1: seq<Color>, s2: seq<Color>, s3: seq<Color>, s4: seq<Color>, s5: seq<Color>,
               s6: seq<Color>, s7: seq<Color>,
               w: int, h: int, clip: Rect, win: Window)
    requires ClipFilled(s0, s1, w, h, clip, ShadowOf(win), SHADOW) && BodyDrawn(s1, s2, w, h, clip, win)
    requires ClipFilled(s2, s3, w, h, clip, TitleOf(win), win.title) &&
      ClipFilled(s3, s4, w, h, clip, TopOf(win), WHITE)
    requires ClipFilled(s4, s5, w, h, clip, BottomOf(win), WHITE) && ClipFilled(s5, s6, w, h, clip, LeftOf(win), WHITE)
    requires ClipFilled(s6, s7, w, h, clip, RightOf(win), WHITE)
    ensures WindowDrawn(s0, s7, w, h, clip, win)
  {
    hide At, BodyColor, In, OnScreen, ShadowOf, BodyOf, TitleOf, TopOf, BottomOf, LeftOf, RightOf;
  }

  method DrawWindowClipped(screen: Screen, clip: Rect, win: Window)
    requires screen.Valid() && WindowOk(win)
    modifies screen.back
    ensures WindowDrawn(old(screen.back[..]), screen.back[..], screen.width, screen.height, clip, win)
  {
    hide ClipFilled, BodyDrawn, WindowDrawn, WindowOk;
    ghost var s0 := screen.back[..];
    DrawRectClipped(screen, clip, Rect(win.x + SHADOW_OFFSET, win.y + SHADOW_OFFSET, win.w, win.h), SHADOW);
    ghost var s1 := screen.back[..];
    DrawWindowBufferClipped(screen, clip, win);
    ghost var s2 := screen.back[..];
    DrawRectClipped(screen, clip, Rect(win.x, win.y, win.w, TITLE), win.title);
    ghost var s3 := screen.back[..];
    DrawRectClipped(screen, clip, Rect(win.x, win.y, win.w, 1), WHITE);
    ghost var s4 := screen.back[..];
    DrawRectClipped(screen, clip, Rect(win.x, win.y + win.h - 1, win.w, 1), WHITE);
    ghost var s5 := screen.back[..];
    DrawRectClipped(screen, clip, Rect(win.x, win.y, 1, win.h), WHITE);
    ghost var s6 := screen.back[..];
    DrawRectClipped(screen, clip, Rect(win.x + win.w - 1, win.y, 1, win.h), WHITE);
    Layers(s0, s1, s2, s3, s4, s5, s6, screen.back[..], screen.width, screen.height, clip, win);
  }

  // ----- one dirty rectangle, then all of them

  /** Inside the clip the windows from `k` on are on the desktop; elsewhere nothing has changed. */
  ghost predicate Composed(s: seq<Color>, s': seq<Color>, w: int, h: int, clip: Rect, wins: seq<Window>, k: int) {
    && 0 <= k <= |wins| && |s'| == |s| >= w * h
    && forall x, y :: OnScreen(x, y, w, h) && 0 <= At(x, y, w) < |s| ==>
         s'[At(x, y, w)] == if In(clip, x, y) then Picture(wins[k..], x, y) else s[At(x, y, w)]
  }

  lemma ComposeStart(s: seq<Color>, s': seq<Color>, w: int, h: int, clip: Rect, wins: seq<Window>)
    requires Filled(s, s', w, h, clip, DESKTOP)
    ensures Composed(s, s', w, h, clip, wins, |wins|)
  {
    hide At, In, OnScreen;
    assert wins[|wins|..] == [];
  }

  lemma ComposeOne(s: seq<Color>, s1: seq<Color>, s2: seq<Color>, w: int, h: int, clip: Rect, wins: seq<Window>, k: int)
    requires 0 < k <= |wins| && Composed(s, s1, w, h, clip, wins, k) && WindowDrawn(s1, s2, w, h, clip, wins[k - 1])
    ensures Composed(s, s2, w, h, clip, wins, k - 1)
  {
    hide At, In, OnScreen, Shown;
    assert wins[k - 1..][1..] == wins[k..];
  }

  /** After the first `n` rectangles: the picture on their union, what was there elsewhere. */
  ghost predicate Redrawn(s: seq<Color>, s': seq<Color>, w: int, h: int, rs: seq<Rect>, wins: seq<Window>) {
    && |s'| == |s| >= w * h
    && forall x, y :: OnScreen(x, y, w, h) && 0 <= At(x, y, w) < |s| ==>
         s'[At(x, y, w)] == if InAny(rs, x, y) then Picture(wins, x, y) else s[At(x, y, w)]
  }

  lemma RedrawStart(s: seq<Color>, w: int, h: int, wins: seq<Window>)
    requires |s| >= w * h
    ensures Redrawn(s, s, w, h, [], wins)
  {
  }

  lemma RedrawOne(s: seq<Color>, s1: seq<Color>, s2: seq<Color>, w: int, h: int, rs: seq<Rect>, r: Rect,
                  wins: seq<Window>)
    requires Redrawn(s, s1, w, h, rs, wins) && Composed(s1, s2, w, h, r, wins, 0)
    ensures Redrawn(s, s2, w, h, rs + [r], wins)
  {
    hide At, In, OnScreen, Picture, InAny;
    assert wins[0..] == wins;
    forall x, y
      ensures InAny(rs + [r], x, y) <==> InAny(rs, x, y) || In(r, x, y)
    {
      InAnyMore(rs, r, x, y);
    }
  }

  /** The drawing loop of `window_draw_all`. */
  method RedrawAll(screen: Screen, redraw: seq<Rect>, wins: seq<Window>)
    requires screen.Valid() && WindowsOk(wins)
    modifies screen.back
    ensures Redrawn(old(screen.back[..]), screen.back[..], screen.width, screen.height, redraw, wins)
  {
    hide Filled, Composed, WindowDrawn, Redrawn, WindowOk;
    ghost var s := screen.back[..];
    RedrawStart(s, screen.width, screen.height, wins);
    for i := 0 to |redraw|
      invariant Redrawn(s, screen.back[..], screen.width, screen.height, redraw[..i], wins)
    {
      ghost var s1 := screen.back[..];
      screen.ClearRect(redraw[i], DESKTOP);
      ComposeStart(s1, screen.back[..], screen.width, screen.height, redraw[i], wins);
      for k := |wins| downto 0
        invariant Composed(s1, screen.back[..], screen.width, screen.height, redraw[i], wins, k)
      {
        ghost var s2 := screen.back[..];
        DrawWindowClipped(screen, redraw[i], wins[k]);
        ComposeOne(s1, s2, screen.back[..], screen.width, screen.height, redraw[i], wins, k + 1);
      }
      RedrawOne(s, s1, screen.back[..], screen.width, screen.height, redraw[..i], redraw[i], wins);
      assert redraw[..i + 1] == redraw[..i] + [redraw[i]];
    }
    assert redraw[..|redraw|] == redraw;
  }
}
