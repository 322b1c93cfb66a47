/** The window list, the dirty rectangles and the screen together: as long as no dirty rectangle was forgotten, what
    is not dirty is already on the screen, so redrawing the dirty rectangles shows the whole desktop. */
module Desktop {
  import opened Common
  import opened Rects
  import opened Graphics
  import opened Compositor
  import opened Damage

  /** A window in the list, front first, with its id and the process that owns it. */
  datatype Item = Item(id: nat, owner: nat, win: Window)

  function Wins(items: seq<Item>): (wins: seq<Window>)
    ensures |wins| == |items| && forall i :: 0 <= i < |items| ==> wins[i] == items[i].win
  {
    seq(|items|, i requires 0 <= i < |items| => items[i].win)
  }

  /** The windows `snapshot_window_list` takes. */
  function Snapshot(items: seq<Item>): seq<Item> {
    if |items| <= MAX_SHOWN then items else items[..MAX_SHOWN]
  }

  function CursorRect(x: int, y: int): Rect {
    Rect(x, y, 10, 15)
  }

  /** The whole desktop: the windows, and the cursor on top. */
  function Final(wins: seq<Window>, cx: int, cy: int, x: int, y: int): Color {
    if InCursor(cx, cy, x, y) then WHITE else Picture(wins, x, y)
  }

  ghost predicate ByteShown(fb: seq<Byte>, pitch: int, x: int, y: int, k: int, c: Color)
    requires 0 <= k < 4
  {
    0 <= At(4 * x + k, y, pitch) < |fb| && fb[At(4 * x + k, y, pitch)] == ByteOf(c, k)
  }

  /** The pixel has the colour on the screen. */
  ghost predicate PixelIs(fb: seq<Byte>, pitch: int, x: int, y: int, c: Color) {
    forall k :: 0 <= k < 4 ==> ByteShown(fb, pitch, x, y, k, c)
  }

  /** What is not dirty is up to date. */
  ghost predicate Fresh(fb: seq<Byte>, w: int, h: int, pitch: int, dirty: seq<Rect>, wins: seq<Window>, cx: int,
                        cy: int) {
    forall x, y :: OnScreen(x, y, w, h) && !InAny(dirty, x, y) ==> PixelIs(fb, pitch, x, y, Final(wins, cx, cy, x, y))
  }

  /** Pixels that are not dirty now were not before, and show the same. */
  ghost predicate Settled(w: int, h: int, d: seq<Rect>, d': seq<Rect>, wins: seq<Window>, wins': seq<Window>, cx: int,
                          cy: int, cx': int, cy': int) {
    forall x, y :: OnScreen(x, y, w, h) && !InAny(d', x, y) ==>
      !InAny(d, x, y) && Final(wins', cx', cy', x, y) == Final(wins, cx, cy, x, y)
  }

  lemma StaysFresh(fb: seq<Byte>, w: int, h: int, pitch: int, d: seq<Rect>, d': seq<Rect>, wins: seq<Window>,
                   wins': seq<Window>,
                   cx: int, cy: int, cx': int, cy': int)
    requires Fresh(fb, w, h, pitch, d, wins, cx, cy) && Settled(w, h, d, d', wins, wins', cx, cy, cx', cy')
    ensures Fresh(fb, w, h, pitch, d', wins', cx', cy')
  {
    hide PixelIs, InAny, Final, OnScreen;
  }

  // ----- what each change of the list can show

  /** Everything on the screen that was dirty or lies in `r` is dirty. */
  ghost predicate Queues(w: int, h: int, d: seq<Rect>, d': seq<Rect>, r: Rect) {
    forall x, y :: OnScreen(x, y, w, h) && (InAny(d, x, y) || In(r, x, y)) ==> InAny(d', x, y)
  }

  // ----- the dirty rectangles after marking some more

  /** The part of `r` on the screen. */
  function OnScreenPart(w: int, h: int, r: Rect): Option<Rect> {
    Intersect(r, Rect(0, 0, w, h))
  }

  /** The list after queueing the rectangles in turn, each clipped to the screen. */
  function Marked(w: int, h: int, dirty: seq<Rect>, rs: seq<Rect>): seq<Rect>
    decreases |rs|
  {
    if rs == [] then dirty
    else
      var c := OnScreenPart(w, h, rs[0]);
      Marked(w, h, if c.None? then dirty else Queued(dirty, c.value), rs[1..])
  }

  /** Queueing them in turn makes the list overflow. */
  predicate Forgets(w: int, h: int, dirty: seq<Rect>, rs: seq<Rect>)
    decreases |rs|
  {
    rs != [] &&
    var c := OnScreenPart(w, h, rs[0]);
    (c.Some? && Overflows(dirty, c.value)) || Forgets(w, h, if c.None? then dirty else Queued(dirty, c.value), rs[1..])
  }

  /** `d'` is the list after queueing the rectangles, and unless something was forgotten `u` still holds as `u'`. */
  ghost predicate Marks(w: int, h: int, d: seq<Rect>, d': seq<Rect>, u: bool, u': bool, rs: seq<Rect>) {
    d' == Marked(w, h, d, rs) && (u && !Forgets(w, h, d, rs) ==> u')
  }

  lemma MarkedOne(w: int, h: int, dirty: seq<Rect>, r: Rect)
    ensures var c := OnScreenPart(w, h, r);
      && Marked(w, h, dirty, [r]) == (if c.None? then dirty else Queued(dirty, c.value))
      && (Forgets(w, h, dirty, [r]) <==> c.Some? && Overflows(dirty, c.value))
  {
    hide OnScreenPart, Queued, Overflows;
    assert [r][1..] == [];
  }

  lemma {:induction false} MarkedThen(w: int, h: int, dirty: seq<Rect>, a: seq<Rect>, b: seq<Rect>)
    ensures Marked(w, h, dirty, a + b) == Marked(w, h, Marked(w, h, dirty, a), b)
    ensures Forgets(w, h, dirty, a + b) <==> Forgets(w, h, dirty, a) || Forgets(w, h, Marked(w, h, dirty, a), b)
    decreases |a|
  {
    hide OnScreenPart, Queued, Overflows;
    if a == [] {
      assert a + b == b;
    } else {
      assert (a + b)[1..] == a[1..] + b;
      var c := OnScreenPart(w, h, a[0]);
      MarkedThen(w, h, if c.None? then dirty else Queued(dirty, c.value), a[1..], b);
    }
  }

  lemma MarksThen(w: int, h: int, d: seq<Rect>, d1: seq<Rect>, d2: seq<Rect>, e: bool, e1: bool, e2: bool, a: seq<Rect>,
                  b: seq<Rect>)
    requires Marks(w, h, d, d1, e, e1, a) && Marks(w, h, d1, d2, e1, e2, b)
    ensures Marks(w, h, d, d2, e, e2, a + b)
  {
    hide Marked, Forgets;
    MarkedThen(w, h, d, a, b);
  }

  lemma MarkedTwo(w: int, h: int, d: seq<Rect>, a: Rect, b: Rect)
    ensures Marked(w, h, d, [a, b]) == Marked(w, h, Marked(w, h, d, [a]), [b])
    ensures Forgets(w, h, d, [a, b]) <==> Forgets(w, h, d, [a]) || Forgets(w, h, Marked(w, h, d, [a]), [b])
  {
    hide Marked, Forgets;
    MarkedThen(w, h, d, [a], [b]);
    assert [a] + [b] == [a, b];
  }

  lemma MarksNone(w: int, h: int, d: seq<Rect>, u: bool)
    ensures Marks(w, h, d, d, u, u, [])
  {
  }

  /** The list that covers the screen, if there is anything to cover. */
  function Whole(w: int, h: int): seq<Rect> {
    if w > 0 && h > 0 then [Rect(0, 0, w, h)] else []
  }

  lemma WholeCovers(w: int, h: int, x: int, y: int)
    requires OnScreen(x, y, w, h)
    ensures InAny(Whole(w, h), x, y)
  {
    assert In(Whole(w, h)[0], x, y);
  }

  lemma WholeAbsorbs(w: int, h: int, r: Rect)
    ensures OnScreenPart(w, h, r).Some? ==>
      Whole(w, h) != [] && !Overflows(Whole(w, h), OnScreenPart(w, h, r).value) &&
      Queued(Whole(w, h), OnScreenPart(w, h, r).value) == Whole(w, h)
  {
    if OnScreenPart(w, h, r).Some? {
      var c := OnScreenPart(w, h, r).value;
      assert Intersect(Rect(0, 0, w, h), c).Some?;
      assert FirstOverlap(Whole(w, h), c) == 0;
      assert Union(Rect(0, 0, w, h), c) == Rect(0, 0, w, h);
    }
  }

  /** A list that is the whole screen absorbs every rectangle: it never changes and never overflows. */
  lemma {:induction false} WholeStays(w: int, h: int, rs: seq<Rect>)
    ensures Marked(w, h, Whole(w, h), rs) == Whole(w, h) && !Forgets(w, h, Whole(w, h), rs)
    decreases |rs|
  {
    hide OnScreenPart, Queued, Overflows, Whole;
    if rs != [] {
      WholeAbsorbs(w, h, rs[0]);
      WholeStays(w, h, rs[1..]);
    }
  }

  lemma FirstMarked(w: int, h: int)
    ensures Marked(w, h, [], [Rect(0, 0, w, h)]) == Whole(w, h)
  {
    MarkedOne(w, h, [], Rect(0, 0, w, h));
  }

  /** The rectangles marked when a process's windows go. */
  function GoneRects(items: seq<Item>, pid: nat): seq<Rect> {
    if items == [] then []
    else (if items[0].owner == pid then [Outer(items[0].win)] else []) + GoneRects(items[1..], pid)
  }

  /** The windows before `i` have been dealt with, and those still in the list from there on have not. */
  ghost predicate GoneSoFar(w: int, h: int, d: seq<Rect>, d': seq<Rect>, u: bool, u': bool, all: seq<Rect>,
                            left: seq<Rect>) {
    exists rs :: all == rs + left && Marks(w, h, d, d', u, u', rs)
  }

  lemma GoneStart(w: int, h: int, d: seq<Rect>, e: bool, all: seq<Rect>)
    ensures GoneSoFar(w, h, d, d, e, e, all, all)
  {
    hide Marks;
    MarksNone(w, h, d, e);
    assert all == [] + all;
  }

  lemma GoneStep(w: int, h: int, d: seq<Rect>, d1: seq<Rect>, d2: seq<Rect>, e: bool, e1: bool, e2: bool,
                 all: seq<Rect>, r: Rect, left: seq<Rect>)
    requires GoneSoFar(w, h, d, d1, e, e1, all, [r] + left) && Marks(w, h, d1, d2, e1, e2, [r])
    ensures GoneSoFar(w, h, d, d2, e, e2, all, left)
  {
    hide Marks;
    var rs :| all == rs + ([r] + left) && Marks(w, h, d, d1, e, e1, rs);
    MarksThen(w, h, d, d1, d2, e, e1, e2, rs, [r]);
    assert all == (rs + [r]) + left;
  }

  lemma GoneEnd(w: int, h: int, d: seq<Rect>, d': seq<Rect>, e: bool, e': bool, all: seq<Rect>, items: seq<Item>,
                pid: nat)
    requires GoneSoFar(w, h, d, d', e, e', all, GoneRects(items, pid)) && items == []
    ensures Marks(w, h, d, d', e, e', all)
  {
    hide Marks;
    var rs :| all == rs + [] && Marks(w, h, d, d', e, e', rs);
    assert rs + [] == rs;
  }

  lemma GoneNext(items: seq<Item>, i: nat, pid: nat)
    requires i < |items|
    ensures GoneRects(items[i..], pid) ==
      (if items[i].owner == pid then [Outer(items[i].win)] else []) + GoneRects(items[i + 1..], pid)
    ensures (items[..i] + items[i + 1..])[i..] == items[i + 1..]
    ensures items[i].owner != pid ==> GoneRects(items[i..], pid) == GoneRects(items[i + 1..], pid)
  {
    assert items[i..][1..] == items[i + 1..];
  }

  lemma {:induction false} DragRectsAt(items: seq<Item>, i: nat, x: int, y: int)
    requires i < |items| && forall j :: 0 <= j < i ==> items[j].id != items[i].id
    ensures DragRects(items, items[i].id, x, y) == [Outer(items[i].win), Outer(items[i].win.(x := x, y := y))]
  {
    hide Outer;
    if i > 0 {
      DragRectsAt(items[1..], i - 1, x, y);
    }
  }

  lemma FirstWithId(items: seq<Item>, i: nat, nextId: nat)
    requires i < |items| && ListOk(items, nextId)
    ensures forall j :: 0 <= j < i ==> items[j].id != items[i].id
  {
    hide WindowOk;
  }

  /** Those marked when window `i` is raised. */
  function RaiseRects(items: seq<Item>, i: nat): seq<Rect>
    requires i < |items|
  {
    if i == 0 then [] else [Outer(items[i].win), Outer(items[i].win)]
  }

  /** Those marked when the window with this id moves. */
  function DragRects(items: seq<Item>, id: nat, x: int, y: int): seq<Rect> {
    if items == [] then []
    else if items[0].id == id then [Outer(items[0].win), Outer(items[0].win.(x := x, y := y))]
    else DragRects(items[1..], id, x, y)
  }

  lemma QueuesTwice(w: int, h: int, d: seq<Rect>, d1: seq<Rect>, d2: seq<Rect>, r1: Rect, r2: Rect)
    requires Queues(w, h, d, d1, r1) && Queues(w, h, d1, d2, r2)
    ensures Queues(w, h, d, d2, r1) && Queues(w, h, d, d2, r2)
  {
    hide InAny, In, OnScreen;
  }

  lemma Unseen(win: Window, x: int, y: int)
    requires BigEnough(win) && !In(Outer(win), x, y)
    ensures Shown(win, x, y).None?
  {
    OuterCovers(win);
    hide Shown, BigEnough;
  }

  lemma Inserted(w: int, h: int, d: seq<Rect>, d': seq<Rect>, items: seq<Item>, item: Item, cx: int, cy: int)
    requires BigEnough(item.win) && Queues(w, h, d, d', Outer(item.win))
    ensures Settled(w, h, d, d', Wins(items), Wins([item] + items), cx, cy, cx, cy)
  {
    hide InAny, In, OnScreen, Shown, BigEnough, Picture, InCursor;
    assert Wins([item] + items) == [item.win] + Wins(items);
    forall x, y | OnScreen(x, y, w, h) && !InAny(d', x, y)
      ensures !InAny(d, x, y) && Final(Wins([item] + items), cx, cy, x, y) == Final(Wins(items), cx, cy, x, y)
    {
      Unseen(item.win, x, y);
      PictureInsert(Wins(items), item.win, x, y);
    }
  }

  lemma Removed(w: int, h: int, d: seq<Rect>, d': seq<Rect>, items: seq<Item>, i: nat, cx: int, cy: int)
    requires i < |items| && BigEnough(items[i].win) && Queues(w, h, d, d', Outer(items[i].win))
    ensures Settled(w, h, d, d', Wins(items), Wins(items[..i] + items[i + 1..]), cx, cy, cx, cy)
  {
    hide InAny, In, OnScreen, Shown, BigEnough, Picture, InCursor;
    assert Wins(items[..i] + items[i + 1..]) == Wins(items)[..i] + Wins(items)[i + 1..];
    forall x, y | OnScreen(x, y, w, h) && !InAny(d', x, y)
      ensures !InAny(d, x, y) && Final(Wins(items[..i] + items[i + 1..]), cx, cy, x, y) ==
        Final(Wins(items), cx, cy, x, y)
    {
      Unseen(items[i].win, x, y);
      PictureRemove(Wins(items), i, x, y);
    }
  }

  /** The two windows show the same outside `r`. */
  ghost predicate DifferIn(win: Window, win': Window, r: Rect) {
    forall x, y :: !In(r, x, y) ==> Shown(win', x, y) == Shown(win, x, y)
  }

  lemma Replaced(w: int, h: int, d: seq<Rect>, d': seq<Rect>, items: seq<Item>, i: nat, item: Item, r: Rect, cx: int,
                 cy: int)
    requires i < |items| && DifferIn(items[i].win, item.win, r) && Queues(w, h, d, d', r)
    ensures Settled(w, h, d, d', Wins(items), Wins(items[i := item]), cx, cy, cx, cy)
  {
    hide InAny, In, OnScreen, Shown, Picture, InCursor;
    assert Wins(items[i := item]) == Wins(items)[i := item.win];
    forall x, y | OnScreen(x, y, w, h) && !InAny(d', x, y)
      ensures !InAny(d, x, y) && Final(Wins(items[i := item]), cx, cy, x, y) == Final(Wins(items), cx, cy, x, y)
    {
      PictureReplace(Wins(items), i, item.win, x, y);
    }
  }

  lemma OuterDiffers(win: Window, pixels: seq<Color>)
    ensures BigEnough(win) ==> DifferIn(win, win.(pixels := Some(pixels)), Outer(win))
  {
    hide In, Shown, BigEnough;
    if BigEnough(win) {
      assert BigEnough(win.(pixels := Some(pixels))) by { SizesOnly(win, pixels); }
      forall x, y | !In(Outer(win), x, y)
        ensures Shown(win, x, y) == Shown(win.(pixels := Some(pixels)), x, y)
      {
        Unseen(win, x, y);
        Unseen(win.(pixels := Some(pixels)), x, y);
      }
    }
  }

  lemma SizesOnly(win: Window, pixels: seq<Color>)
    ensures BigEnough(win.(pixels := Some(pixels))) <==> BigEnough(win)
  {
  }

  /** A window moved from one place to another: both outer rectangles cover what changes. */
  lemma MovedTo(w: int, h: int, d: seq<Rect>, d': seq<Rect>, items: seq<Item>, i: nat, item: Item, cx: int, cy: int)
    requires i < |items| && BigEnough(items[i].win) && BigEnough(item.win)
    requires Queues(w, h, d, d', Outer(items[i].win)) && Queues(w, h, d, d', Outer(item.win))
    ensures Settled(w, h, d, d', Wins(items), Wins(items[i := item]), cx, cy, cx, cy)
  {
    hide InAny, In, OnScreen, Shown, BigEnough, Picture, InCursor;
    assert Wins(items[i := item]) == Wins(items)[i := item.win];
    forall x, y | OnScreen(x, y, w, h) && !InAny(d', x, y)
      ensures !InAny(d, x, y) && Final(Wins(items[i := item]), cx, cy, x, y) == Final(Wins(items), cx, cy, x, y)
    {
      Unseen(items[i].win, x, y);
      Unseen(item.win, x, y);
      PictureReplace(Wins(items), i, item.win, x, y);
    }
  }

  lemma SettledTrans(w: int, h: int, d: seq<Rect>, d1: seq<Rect>, d2: seq<Rect>, a: seq<Window>, b: seq<Window>,
                     c: seq<Window>,
                     cx: int, cy: int, cx1: int, cy1: int, cx2: int, cy2: int)
    requires Settled(w, h, d, d1, a, b, cx, cy, cx1, cy1) && Settled(w, h, d1, d2, b, c, cx1, cy1, cx2, cy2)
    ensures Settled(w, h, d, d2, a, c, cx, cy, cx2, cy2)
  {
    hide InAny, Final, OnScreen;
  }

  /** The list with window `i` in front. */
  function Raised(items: seq<Item>, i: nat): seq<Item>
    requires i < |items|
  {
    [items[i]] + (items[..i] + items[i + 1..])
  }

  lemma Fronted(w: int, h: int, d: seq<Rect>, d': seq<Rect>, items: seq<Item>, i: nat, cx: int, cy: int)
    requires i < |items| && BigEnough(items[i].win) && Queues(w, h, d, d', Outer(items[i].win))
    ensures Settled(w, h, d, d', Wins(items), Wins(Raised(items, i)), cx, cy, cx, cy)
  {
    hide Queues, Settled, Wins, BigEnough;
    var rest := items[..i] + items[i + 1..];
    Removed(w, h, d, d', items, i, cx, cy);
    assert Queues(w, h, d', d', Outer(items[i].win)) by { QueuesAgain(w, h, d, d', Outer(items[i].win)); }
    Inserted(w, h, d', d', rest, items[i], cx, cy);
    SettledTrans(w, h, d, d', d', Wins(items), Wins(rest), Wins(Raised(items, i)), cx, cy, cx, cy, cx, cy);
  }

  lemma QueuesAgain(w: int, h: int, d: seq<Rect>, d': seq<Rect>, r: Rect)
    requires Queues(w, h, d, d', r)
    ensures Queues(w, h, d', d', r)
  {
    hide InAny, In, OnScreen;
  }

  lemma CursorMoved(w: int, h: int, d: seq<Rect>, d': seq<Rect>, wins: seq<Window>, cx: int, cy: int, cx': int,
                    cy': int)
    requires Queues(w, h, d, d', CursorRect(cx, cy)) && Queues(w, h, d, d', CursorRect(cx', cy'))
    ensures Settled(w, h, d, d', wins, wins, cx, cy, cx', cy')
  {
    hide InAny, OnScreen, Picture;
    forall x, y
      ensures InCursor(cx, cy, x, y) ==> In(CursorRect(cx, cy), x, y)
      ensures InCursor(cx', cy', x, y) ==> In(CursorRect(cx', cy'), x, y)
    {
    }
  }

  ghost predicate AllBig(items: seq<Item>) {
    forall i :: 0 <= i < |items| ==> BigEnough(items[i].win)
  }

  predicate HasId(items: seq<Item>, id: nat) {
    exists i :: 0 <= i < |items| && items[i].id == id
  }

  /** Ids are distinct and below the next one; buffers are as large as their windows. */
  ghost predicate ListOk(items: seq<Item>, nextId: nat) {
    && (forall i :: 0 <= i < |items| ==> WindowOk(items[i].win) && items[i].id < nextId)
    && (forall i, j :: 0 <= i < j < |items| ==> items[i].id != items[j].id)
  }

  lemma ListSteps(items: seq<Item>, nextId: nat)
    requires ListOk(items, nextId)
    ensures forall item: Item :: item.id == nextId && WindowOk(item.win) ==> ListOk([item] + items, nextId + 1)
    ensures forall i :: 0 <= i < |items| ==>
      ListOk(items[..i] + items[i + 1..], nextId) && ListOk(Raised(items, i), nextId)
    ensures forall i, item: Item :: 0 <= i < |items| && item.id == items[i].id && WindowOk(item.win) ==>
      ListOk(items[i := item], nextId)
  {
    hide WindowOk;
  }

  class Desktop {
    const screen: Screen
    var items: seq<Item>
    var dirty: seq<Rect>
    var cursorX: int
    var cursorY: int
    var started: bool
    var dragging: Option<nat>
    var dragX: int
    var dragY: int
    var lastX: int
    var lastY: int
    var lastPressed: bool
    var nextId: nat

    ghost predicate Valid()
      reads `items, `dirty, `dragging, `nextId
    {
      screen.Valid() && |dirty| <= MAX_DIRTY && ListOk(items, nextId) &&
      (dragging.Some? ==> HasId(items, dragging.value))
    }

    /** What is not dirty shows the desktop. */
    ghost predicate Current()
      reads `items, `dirty, `cursorX, `cursorY, screen.fb
    {
      Fresh(screen.fb[..], screen.width, screen.height, screen.pitch, dirty, Wins(items), cursorX, cursorY)
    }

    /** So it is, and will stay: all windows fit the snapshot, and each its outer rectangle. */
    ghost predicate UpToDate()
      reads `items, `dirty, `cursorX, `cursorY, screen.fb
    {
      |items| <= MAX_SHOWN && AllBig(items) && Current()
    }

    /** The whole screen shows the desktop. */
    ghost predicate Shows()
      reads `items, `cursorX, `cursorY, screen.fb
    {
      forall x, y :: OnScreen(x, y, screen.width, screen.height) ==>
        PixelIs(screen.fb[..], screen.pitch, x, y, Final(Wins(items), cursorX, cursorY, x, y))
    }

    /** Nothing has been drawn before the cursor got a position: until then the whole screen is dirty. */
    predicate InOrder()
      reads `started, `dirty
    {
      started || dirty == Whole(screen.width, screen.height)
    }

    /** `window_init`: everything is dirty. */
    constructor (screen: Screen)
      requires screen.Valid()
      ensures Valid() && this.screen == screen && items == [] && !started && dragging.None? && nextId == 1
      ensures dirty == Whole(screen.width, screen.height) && InOrder() && UpToDate() && CursorSeen()
      ensures cursorX == cursorY == lastX == lastY == 0
    {
      this.screen := screen;
      items, dirty := [], [];
      cursorX, cursorY, started := 0, 0, false;
      dragging, dragX, dragY := None, 0, 0;
      lastX, lastY, lastPressed := 0, 0, false;
      nextId := 1;
      new;
      QueueDirty(Rect(0, 0, screen.width, screen.height));
      FirstMarked(screen.width, screen.height);
      WholeFresh(screen.fb[..], screen.width, screen.height, screen.pitch, Wins(items), cursorX, cursorY);
      hide Fresh, Marked, Whole;
    }

    /** `queue_dirty_rect`. */
    method QueueDirty(r: Rect)
      requires screen.Valid() && |dirty| <= MAX_DIRTY
      modifies this`dirty
      ensures |dirty| <= MAX_DIRTY && dirty == Marked(screen.width, screen.height, old(dirty), [r])
      ensures !Forgets(screen.width, screen.height, old(dirty), [r]) ==>
        Queues(screen.width, screen.height, old(dirty), dirty, r)
    {
      hide InAny, Union, Marked, Forgets;
      MarkedOne(screen.width, screen.height, dirty, r);
      var clipped := Intersect(r, Rect(0, 0, screen.width, screen.height));
      if clipped.None? {
        return;
      }
      var c := clipped.value;
      QueuedGrowsIf(dirty, c);
      OverlapIs(dirty, c);
      for i := 0 to |dirty|
        invariant dirty == old(dirty)
        invariant forall j :: 0 <= j < i ==> Intersect(dirty[j], c).None?
      {
        var overlap := Intersect(dirty[i], c);
        if overlap.Some? {
          dirty := dirty[i := Union(dirty[i], c)];
          return;
        }
      }
      if |dirty| < MAX_DIRTY {
        dirty := dirty + [c];
        return;
      }
      dirty := [Union(dirty[0], c)];
    }

    /** `window_create`: the new window is in front. */
    method Create(x: int, y: int, w: nat, h: nat, bg: Color) returns (id: nat)
      requires Valid()
      modifies this`items, this`dirty, this`nextId
      ensures Valid() && id == old(nextId) && nextId == id + 1 && (old(InOrder()) ==> InOrder())
      ensures items == [Item(id, 0, Window(x, y, w, h, 0xFF55_5555, bg, None))] + old(items)
      ensures Marks(screen.width, screen.height, old(dirty), dirty, old(UpToDate()) && BigEnough(items[0].win) &&
                    |items| <= MAX_SHOWN, UpToDate(),
                    [Outer(items[0].win)])
    {
      hide Fresh, Settled, Queues, AllBig, ListOk, BigEnough, HasId, Marked, Forgets, Whole;
      id := nextId;
      var item := Item(id, 0, Window(x, y, w, h, 0xFF55_5555, bg, None));
      ListSteps(items, nextId);
      nextId := nextId + 1;
      ghost var was, u := items, UpToDate();
      items := [item] + items;
      QueueDirty(Outer(item.win));
      OrderStays(screen.width, screen.height, started, old(dirty), dirty, [Outer(item.win)]);
      BigStep(was, item);
      if u && BigEnough(item.win) && !Forgets(screen.width, screen.height, old(dirty), [Outer(item.win)]) {
        Inserted(screen.width, screen.height, old(dirty), dirty, was, item, cursorX, cursorY);
        StaysFresh(screen.fb[..], screen.width, screen.height, screen.pitch, old(dirty), dirty, Wins(was), Wins(items),
                   cursorX, cursorY, cursorX, cursorY);
      }
      IdKept(was, items, dragging);
    }

    /** The window of the list with this id, or the length of the list. */
    method Find(id: nat) returns (i: nat)
      ensures i <= |items| && (i < |items| ==> items[i].id == id) && (i == |items| ==> !HasId(items, id))
    {
      i := 0;
      while i < |items|
        invariant i <= |items| && forall j :: 0 <= j < i ==> items[j].id != id
      {
        if items[i].id == id {
          return;
        }
        i := i + 1;
      }
    }

    /** `window_set_owner`; a window no longer in the list is ignored. */
    method SetOwner(id: nat, owner: nat)
      requires Valid()
      modifies this`items
      ensures Valid() && |items| == |old(items)| && (UpToDate() <==> old(UpToDate()))
      ensures forall i :: 0 <= i < |items| ==>
        items[i] == if old(items)[i].id == id then old(items)[i].(owner := owner) else old(items)[i]
    {
      hide Fresh, BigEnough;
      var i := Find(id);
      if i == |items| {
        NoId(items, id);
        return;
      }
      ListSteps(items, nextId);
      ghost var was := items;
      items := items[i := items[i].(owner := owner)];
      IdSame(was, items, dragging);
      assert Wins(items) == Wins(was);
    }

    /** A window's buffer changes, and `r` is marked. */
    method NewBuffer(i: nat, pixels: seq<Color>, r: Rect)
      requires Valid() && i < |items| && WindowOk(items[i].win.(pixels := Some(pixels)))
      requires BigEnough(items[i].win) ==> DifferIn(items[i].win, items[i].win.(pixels := Some(pixels)), r)
      modifies this`items, this`dirty
      ensures Valid() && items == old(items)[i := old(items)[i].(win := old(items)[i].win.(pixels := Some(pixels)))]
      ensures Marks(screen.width, screen.height, old(dirty), dirty, old(UpToDate()), UpToDate(), [r])
    {
      hide Fresh, Settled, Queues, AllBig, BigEnough, DifferIn, Marked, Forgets, Whole;
      ghost var was, u := items, UpToDate();
      var item := items[i].(win := items[i].win.(pixels := Some(pixels)));
      ListSteps(items, nextId);
      items := items[i := item];
      IdSame(was, items, dragging);
      hide ListOk, HasId, WindowOk;
      QueueDirty(r);
      Repainted(was, i, item);
      if u && !Forgets(screen.width, screen.height, old(dirty), [r]) {
        Replaced(screen.width, screen.height, old(dirty), dirty, was, i, item, r, cursorX, cursorY);
        StaysFresh(screen.fb[..], screen.width, screen.height, screen.pitch, old(dirty), dirty, Wins(was), Wins(items),
                   cursorX, cursorY, cursorX, cursorY);
      }
    }

    /** `window_set_buffer`; a window no longer in the list is ignored. */
    method SetBuffer(id: nat, pixels: seq<Color>)
      requires Valid()
      requires forall i :: 0 <= i < |items| && items[i].id == id ==> WindowOk(items[i].win.(pixels := Some(pixels)))
      modifies this`items, this`dirty
      ensures Valid() && |items| == |old(items)| && (old(InOrder()) ==> InOrder())
      ensures forall i :: 0 <= i < |items| ==>
        items[i] == if old(items)[i].id == id then old(items)[i].(win := old(items)[i].win.(pixels := Some(pixels)))
        else old(items)[i]
      ensures forall i :: 0 <= i < |items| && items[i].id == id ==>
        Marks(screen.width, screen.height, old(dirty), dirty, old(UpToDate()), UpToDate(), [Outer(items[i].win)])
      ensures !HasId(items, id) ==> items == old(items) && dirty == old(dirty)
    {
      hide UpToDate, BigEnough, DifferIn, Marks, Whole, WindowOk;
      var i := Find(id);
      if i == |items| {
        NoId(items, id);
        return;
      }
      ghost var u, r := UpToDate(), Outer(items[i].win);
      OuterDiffers(items[i].win, pixels);
      NewBuffer(i, pixels, Outer(items[i].win));
      MarksOrder(screen.width, screen.height, started, old(dirty), dirty, u, UpToDate(), [r]);
    }

    /** The owner changes its buffer inside a region of the client area and calls `window_mark_region_dirty`. */
    method Paint(id: nat, region: Rect, pixels: seq<Color>)
      requires Valid()
      requires forall i :: 0 <= i < |items| && items[i].id == id ==>
        items[i].win.pixels.Some? && WindowOk(items[i].win.(pixels := Some(pixels))) &&
        SameOutside(items[i].win, pixels, region)
      modifies this`items, this`dirty
      ensures Valid() && |items| == |old(items)| && (old(InOrder()) ==> InOrder())
      ensures forall i :: 0 <= i < |items| ==>
        items[i] == if old(items)[i].id == id then old(items)[i].(win := old(items)[i].win.(pixels := Some(pixels)))
        else old(items)[i]
      ensures forall i :: 0 <= i < |items| && items[i].id == id ==>
        var r := Rect(items[i].win.x + region.x, items[i].win.y + TITLE + region.y, region.w, region.h);
        Marks(screen.width, screen.height, old(dirty), dirty, old(UpToDate()), UpToDate(), [r])
      ensures !HasId(items, id) ==> items == old(items) && dirty == old(dirty)
    {
      hide UpToDate, BigEnough, DifferIn, SameOutside, Marks, Whole, WindowOk;
      var i := Find(id);
      if i == |items| {
        NoId(items, id);
        return;
      }
      ghost var u := UpToDate();
      var r := Rect(items[i].win.x + region.x, items[i].win.y + TITLE + region.y, region.w, region.h);
      RegionDiffers(items[i].win, pixels, region);
      NewBuffer(i, pixels, r);
      MarksOrder(screen.width, screen.height, started, old(dirty), dirty, u, UpToDate(), [r]);
    }

    /** `window_destroy_by_pid`: exactly the process's windows leave the list. */
    method DestroyByPid(pid: nat)
      requires Valid()
      modifies this`items, this`dirty, this`dragging
      ensures Valid() && items == Others(old(items), pid) && (old(InOrder()) ==> InOrder())
      ensures dragging == if old(dragging).Some? && HasId(items, old(dragging).value) then old(dragging) else None
      ensures Marks(screen.width, screen.height, old(dirty), dirty, old(UpToDate()), UpToDate(),
                    GoneRects(old(items), pid))
    {
      hide Fresh, Settled, Queues, AllBig, BigEnough, HasId, ListOk, Marks, GoneSoFar, GoneRects, Whole, UpToDate;
      var i := 0;
      ghost var all, u := items, UpToDate();
      GoneStart(screen.width, screen.height, dirty, u, GoneRects(all, pid));
      assert items[0..] == items;
      while i < |items|
        invariant Valid() && i <= |items| && items[..i] == Others(items[..i], pid) &&
          Others(items, pid) == Others(all, pid)
        invariant dragging == old(dragging) || dragging == None
        invariant dragging != old(dragging) ==> old(dragging).Some? && !HasId(items, old(dragging).value)
        invariant GoneSoFar(screen.width, screen.height, old(dirty), dirty, u, UpToDate(), GoneRects(all, pid),
                            GoneRects(items[i..], pid))
        decreases |items| - i
      {
        ListSteps(items, nextId);
        OthersStep(items, i, pid);
        GoneNext(items, i, pid);
        if items[i].owner == pid {
          ghost var was, d, v := items, dirty, UpToDate();
          var item := items[i];
          RemoveAt(i);
          GoneStep(screen.width, screen.height, old(dirty), d, dirty, u, v, UpToDate(), GoneRects(all, pid),
                   Outer(item.win),
                   GoneRects(items[i..], pid));
          IdGone(was, i, nextId, dragging, old(dragging));
          if dragging == Some(item.id) {
            dragging := None;
          }
        } else {
          i := i + 1;
        }
      }
      assert items[..i] == items;
      GoneEnd(screen.width, screen.height, old(dirty), dirty, u, UpToDate(), GoneRects(all, pid), items[i..], pid);
      MarksOrder(screen.width, screen.height, started, old(dirty), dirty, u, UpToDate(), GoneRects(all, pid));
    }

    /** One window leaves the list and its outer rectangle is marked. */
    method RemoveAt(i: nat)
      requires screen.Valid() && |dirty| <= MAX_DIRTY && i < |items|
      modifies this`items, this`dirty
      ensures |dirty| <= MAX_DIRTY && items == old(items)[..i] + old(items)[i + 1..]
      ensures Marks(screen.width, screen.height, old(dirty), dirty, old(UpToDate()), UpToDate(),
                    [Outer(old(items)[i].win)])
    {
      hide Fresh, Settled, Queues, AllBig, BigEnough, Marked, Forgets;
      ghost var was, u := items, UpToDate();
      var r := Outer(items[i].win);
      QueueDirty(r);
      items := items[..i] + items[i + 1..];
      BigRest(was, i);
      if u && !Forgets(screen.width, screen.height, old(dirty), [r]) {
        Removed(screen.width, screen.height, old(dirty), dirty, was, i, cursorX, cursorY);
        StaysFresh(screen.fb[..], screen.width, screen.height, screen.pitch, old(dirty), dirty, Wins(was), Wins(items),
                   cursorX, cursorY, cursorX, cursorY);
      }
    }

    /** Queueing one rectangle and then another. */
    method QueueTwo(a: Rect, b: Rect)
      requires screen.Valid() && |dirty| <= MAX_DIRTY
      modifies this`dirty
      ensures |dirty| <= MAX_DIRTY && dirty == Marked(screen.width, screen.height, old(dirty), [a, b])
      ensures !Forgets(screen.width, screen.height, old(dirty), [a, b]) ==>
        Queues(screen.width, screen.height, old(dirty), dirty, a) &&
        Queues(screen.width, screen.height, old(dirty), dirty, b)
    {
      hide Queues, Marked, Forgets;
      MarkedTwo(screen.width, screen.height, dirty, a, b);
      QueueDirty(a);
      ghost var d1 := dirty;
      QueueDirty(b);
      if !Forgets(screen.width, screen.height, old(dirty), [a, b]) {
        QueuesTwice(screen.width, screen.height, old(dirty), d1, dirty, a, b);
      }
    }

    /** Pressing the mouse on the title bar of window `i`: it is dragged from here, and comes to the front. */
    method Grab(i: nat, mx: int, my: int)
      requires Valid() && i < |items| && dragging.None?
      modifies this`items, this`dirty, this`dragging, this`dragX, this`dragY
      ensures Valid() && items == Raised(old(items), i) && |items| == |old(items)| && dragging == Some(old(items)[i].id)
      ensures dragX == mx - old(items)[i].win.x && dragY == my - old(items)[i].win.y
      ensures Marks(screen.width, screen.height, old(dirty), dirty, old(UpToDate()), UpToDate(),
                    RaiseRects(old(items), i))
    {
      hide Fresh, Settled, Queues, AllBig, BigEnough, ListOk, HasId, Raised, Marked, Forgets;
      ghost var was, u := items, UpToDate();
      var item := items[i];
      RaisedOk(items, i, nextId);
      BigRaised(items, i);
      dragging := Some(item.id);
      dragX, dragY := mx - item.win.x, my - item.win.y;
      if i == 0 {
        MarksNone(screen.width, screen.height, dirty, u);
        return;
      }
      items := [item] + (items[..i] + items[i + 1..]);
      QueueTwo(Outer(item.win), Outer(item.win));
      if u && !Forgets(screen.width, screen.height, old(dirty), RaiseRects(was, i)) {
        GrabFresh(screen.fb[..], screen.width, screen.height, screen.pitch, old(dirty), dirty, was, i, cursorX,
                  cursorY);
      }
    }

    /** The dragged window follows the mouse. */
    method Drag(mx: int, my: int)
      requires Valid() && dragging.Some?
      modifies this`items, this`dirty
      ensures Valid() && items == Dragged(old(items), dragging.value, mx - dragX, my - dragY) && |items| == |old(items)|
      ensures Marks(screen.width, screen.height, old(dirty), dirty, old(UpToDate()), UpToDate(),
                    DragRects(old(items), dragging.value, mx - dragX, my - dragY))
    {
      hide Fresh, Settled, Queues, AllBig, BigEnough, HasId, ListOk, Dragged, WindowOk, DragRects, Marked, Forgets;
      var i := Find(dragging.value);
      FirstWithId(items, i, nextId);
      DragRectsAt(items, i, mx - dragX, my - dragY);
      ghost var was, u := items, UpToDate();
      var item := items[i].(win := items[i].win.(x := mx - dragX, y := my - dragY));
      var oldRect := Outer(items[i].win);
      DraggedOk(items, i, nextId, mx - dragX, my - dragY);
      items := items[i := item];
      QueueTwo(oldRect, Outer(item.win));
      if u && !Forgets(screen.width, screen.height, old(dirty), [oldRect, Outer(item.win)]) {
        DragFresh(screen.fb[..], screen.width, screen.height, screen.pitch, old(dirty), dirty, was, i, item, cursorX,
                  cursorY);
      }
    }

    /** The cursor is somewhere else. */
    method MoveCursor(mx: int, my: int)
      requires Valid()
      modifies this`cursorX, this`cursorY, this`dirty
      ensures Valid() && cursorX == mx && cursorY == my
      ensures Marks(screen.width, screen.height, old(dirty), dirty, old(UpToDate()), UpToDate(),
                    [CursorRect(old(cursorX), old(cursorY)), CursorRect(mx, my)])
    {
      hide Fresh, Queues, AllBig, ListOk, HasId, Marked, Forgets;
      ghost var u := UpToDate();
      QueueTwo(CursorRect(cursorX, cursorY), CursorRect(mx, my));
      if u && !Forgets(screen.width, screen.height, old(dirty), [CursorRect(cursorX, cursorY), CursorRect(mx, my)]) {
        CursorFresh(screen.fb[..], screen.width, screen.height, screen.pitch, old(dirty), dirty, Wins(items), cursorX,
                    cursorY, mx, my);
      }
      cursorX, cursorY := mx, my;
    }

    /** No pixel of a cursor drawn at the old position stays behind when the cursor starts here. */
    ghost predicate StartsClean(mx: int, my: int)
      reads `started, `dirty, `items, `cursorX, `cursorY
    {
      started || NoStale(screen.width, screen.height, Marked(screen.width, screen.height, dirty, [CursorRect(mx, my)]),
                         Wins(items),
                         cursorX, cursorY, mx, my)
    }

    /** The first update gives the cursor its position without making the old position dirty: all stays up to date
        exactly if that leaves no pixel of a drawn cursor behind. It leaves none if nothing has been drawn yet. */
    method StartCursor(mx: int, my: int)
      requires Valid() && !started
      modifies this`cursorX, this`cursorY, this`started, this`dirty
      ensures Valid() && started && cursorX == mx && cursorY == my
      ensures dirty == Marked(screen.width, screen.height, old(dirty), [CursorRect(mx, my)])
      ensures old(UpToDate()) && !Forgets(screen.width, screen.height, old(dirty), [CursorRect(mx, my)]) ==>
        (UpToDate() <==> old(StartsClean(mx, my)))
      ensures old(InOrder()) ==> old(StartsClean(mx, my))
    {
      hide Fresh, Settled, Queues, AllBig, ListOk, HasId, NoStale, Marked, Forgets, Whole;
      ghost var cx, cy, u := cursorX, cursorY, UpToDate();
      started := true;
      cursorX, cursorY := mx, my;
      QueueDirty(CursorRect(mx, my));
      if u && !Forgets(screen.width, screen.height, old(dirty), [CursorRect(mx, my)]) {
        StaleIff(screen.fb[..], screen.width, screen.height, screen.pitch, old(dirty), dirty, Wins(items), cx, cy, mx,
                 my);
      }
      if old(InOrder()) {
        WholeClean(screen.width, screen.height, Wins(items), cx, cy, mx, my);
      }
    }

    /** `find_window_hit`: the frontmost window under the mouse. */
    method FindWindowHit(snaps: seq<Item>, mx: int, my: int) returns (hit: Option<nat>, inTitle: bool)
      ensures var i := Hit(snaps, mx, my); hit == if i < |snaps| then Some(i) else None
      ensures hit.Some? ==> (inTitle <==> my < snaps[hit.value].win.y + TITLE)
    {
      hide Under;
      hit, inTitle := None, false;
      for i := 0 to |snaps|
        invariant hit.None? && forall j :: 0 <= j < i ==> !Under(snaps[j].win, mx, my)
      {
        if Under(snaps[i].win, mx, my) {
          HitIs(snaps, mx, my, i);
          return Some(i), my < snaps[i].win.y + TITLE;
        }
      }
      HitIs(snaps, mx, my, |snaps|);
    }

    /** After an update the cursor is where the mouse was last seen. */
    predicate CursorSeen()
      reads `started, `cursorX, `cursorY, `lastX, `lastY
    {
      started ==> cursorX == lastX && cursorY == lastY
    }

    /** Nothing has happened since the last update. */
    predicate Same(mx: int, my: int, pressed: bool)
      reads `started, `dragging, `lastX, `lastY, `lastPressed
    {
      started && dragging.None? && mx == lastX && my == lastY && pressed == lastPressed
    }

    /** What starting the cursor marks. */
    function StartRects(mx: int, my: int): seq<Rect>
      reads `started
    {
      if started then [] else [CursorRect(mx, my)]
    }

    /** The window whose title bar is pressed, if any. */
    function PressHit(mx: int, my: int, pressed: bool): (hit: Option<nat>)
      reads `items, `dragging
      ensures hit.Some? ==> hit.value < |items|
    {
      var i := TitleHit(items, mx, my);
      if pressed && dragging.None? && i < |items| then Some(i) else None
    }

    /** What the buttons mark, given the window whose title bar is pressed. */
    function MouseRects(mx: int, my: int, pressed: bool, hit: Option<nat>): seq<Rect>
      requires hit.Some? ==> hit.value < |items|
      reads `items, `dragging, `dragX, `dragY
    {
      if !pressed then []
      else if dragging.Some? then DragRects(items, dragging.value, mx - dragX, my - dragY)
      else if hit.Some? then RaiseRects(items, hit.value)
      else []
    }

    /** What moving the cursor marks: if it has only been started it moves onto itself. */
    function FollowRects(mx: int, my: int): seq<Rect>
      reads `started, `cursorX, `cursorY, `lastX, `lastY
    {
      if mx == lastX && my == lastY then []
      else [if started then CursorRect(cursorX, cursorY) else CursorRect(mx, my), CursorRect(mx, my)]
    }

    /** All that one update marks, in this order. */
    function UpdateRects(mx: int, my: int, pressed: bool): seq<Rect>
      reads this
    {
      if Same(mx, my, pressed) then []
      else StartRects(mx, my) + MouseRects(mx, my, pressed, PressHit(mx, my, pressed)) + FollowRects(mx, my)
    }

    /** `window_update`, without the events it sends: the cursor follows the mouse, a press on a title bar raises the
        window and starts dragging it, a held button drags, and a released one lets go. */
    method WindowUpdate(mx: int, my: int, pressed: bool)
      requires Valid() && CursorSeen()
      modifies this
      ensures Valid() && CursorSeen() && started && cursorX == mx && cursorY == my && |items| == |old(items)|
      ensures !pressed || old(Same(mx, my, pressed)) ==> items == old(items) && dragging == None
      ensures pressed && old(dragging).Some? ==>
        items == Dragged(old(items), old(dragging).value, mx - old(dragX), my - old(dragY)) && dragging == old(dragging)
      ensures pressed && old(dragging).None? && !old(Same(mx, my, pressed)) ==>
        var i := TitleHit(old(items), mx, my);
        if i < |old(items)| then items == Raised(old(items), i) && dragging == Some(old(items)[i].id)
        else items == old(items) && dragging == None
      ensures Marks(screen.width, screen.height, old(dirty), dirty, old(UpToDate() && StartsClean(mx, my)), UpToDate(),
                    old(UpdateRects(mx, my, pressed)))
      ensures old(InOrder()) ==> old(StartsClean(mx, my))
      ensures nextId == old(nextId) && lastX == mx && lastY == my && lastPressed == pressed
    {
      hide Valid, UpToDate, Raised, Dragged, TitleHit, Marks, StartRects, MouseRects, FollowRects, NoStale, Whole;
      if started && dragging.None? && mx == lastX && my == lastY && pressed == lastPressed {
        MarksNone(screen.width, screen.height, dirty, UpToDate());
        return;
      }
      Changed(mx, my, pressed);
    }

    /** The rest of `window_update`, when something has happened. */
    method Changed(mx: int, my: int, pressed: bool)
      requires Valid() && CursorSeen()
      modifies this`items, this`dirty, this`dragging, this`dragX, this`dragY, this`cursorX, this`cursorY, this`started,
               this`lastX, this`lastY, this`lastPressed
      ensures Valid() && CursorSeen() && started && cursorX == mx && cursorY == my && lastX == mx && lastY == my &&
        lastPressed == pressed
      ensures |items| == |old(items)|
      ensures !pressed ==> items == old(items) && dragging == None
      ensures pressed && old(dragging).Some? ==>
        items == Dragged(old(items), old(dragging).value, mx - old(dragX), my - old(dragY)) && dragging == old(dragging)
      ensures pressed && old(dragging).None? ==>
        var hit := old(PressHit(mx, my, pressed));
        if hit.Some? then items == Raised(old(items), hit.value) && dragging == Some(old(items)[hit.value].id)
        else items == old(items) && dragging == None
      ensures Marks(screen.width, screen.height, old(dirty), dirty, old(UpToDate() && StartsClean(mx, my)), UpToDate(),
                    old(StartRects(mx, my) + MouseRects(mx, my, pressed, PressHit(mx, my, pressed)) +
                        FollowRects(mx, my)))
      ensures old(InOrder()) ==> old(StartsClean(mx, my))
    {
      hide Valid, UpToDate, Raised, Dragged, PressHit, Marks, StartRects, MouseRects, FollowRects, StartsClean,
           InOrder;
      ghost var w, h, a, b, c := screen.width, screen.height, StartRects(mx, my),
        MouseRects(mx, my, pressed, PressHit(mx, my, pressed)), FollowRects(mx, my);
      ghost var u := UpToDate() && StartsClean(mx, my);
      var hit := Look(mx, my, pressed);
      ghost var d1, u1 := dirty, UpToDate();
      Mouse(mx, my, pressed, hit);
      ghost var d2, u2 := dirty, UpToDate();
      MarksThen(w, h, old(dirty), d1, d2, u, u1, u2, a, b);
      Follow(mx, my);
      MarksThen(w, h, old(dirty), d2, dirty, u, u2, UpToDate(), a + b, c);
      lastPressed := pressed;
    }

    /** The first locked section and the search after it: the window whose title bar is pressed, if any. */
    method Look(mx: int, my: int, pressed: bool) returns (hit: Option<nat>)
      requires Valid() && CursorSeen()
      modifies this`cursorX, this`cursorY, this`started, this`dirty
      ensures Valid() && started && (CursorSeen() || (cursorX == mx && cursorY == my))
      ensures hit == PressHit(mx, my, pressed)
      ensures if old(started) then cursorX == old(cursorX) &&
        cursorY == old(cursorY) else cursorX == mx && cursorY == my
      ensures FollowRects(mx, my) == old(FollowRects(mx, my))
      ensures Marks(screen.width, screen.height, old(dirty), dirty, old(UpToDate() && StartsClean(mx, my)), UpToDate(),
                    old(StartRects(mx, my)))
      ensures old(InOrder()) ==> old(StartsClean(mx, my))
    {
      hide Valid, Hit, Under, UpToDate, NoStale, Marked, Forgets, Whole;
      MarksNone(screen.width, screen.height, dirty, UpToDate());
      hit := None;
      if pressed && dragging.None? {
        var inTitle;
        hit, inTitle := FindWindowHit(Snapshot(items), mx, my);
        if !inTitle {
          hit := None;
        }
      }
      if !started {
        StartCursor(mx, my);
      }
    }

    /** The cursor moves if the mouse has. */
    method Follow(mx: int, my: int)
      requires Valid() && started && (CursorSeen() || (cursorX == mx && cursorY == my))
      modifies this`cursorX, this`cursorY, this`dirty, this`lastX, this`lastY
      ensures Valid() && CursorSeen() && cursorX == mx && cursorY == my && lastX == mx && lastY == my
      ensures Marks(screen.width, screen.height, old(dirty), dirty, old(UpToDate()), UpToDate(),
                    old(FollowRects(mx, my)))
    {
      hide Valid, Marks, UpToDate;
      MarksNone(screen.width, screen.height, dirty, UpToDate());
      if mx != lastX || my != lastY {
        MoveCursor(mx, my);
      }
      lastX, lastY := mx, my;
    }

    /** What the buttons do, given the window that was hit. */
    method Mouse(mx: int, my: int, pressed: bool, titleHit: Option<nat>)
      requires Valid() && (titleHit.Some? ==> titleHit.value < |items|)
      modifies this`items, this`dirty, this`dragging, this`dragX, this`dragY
      ensures Valid() && |items| == |old(items)|
      ensures !pressed ==> items == old(items) && dragging == None
      ensures pressed && old(dragging).Some? ==>
        items == Dragged(old(items), old(dragging).value, mx - old(dragX), my - old(dragY)) && dragging == old(dragging)
      ensures pressed && old(dragging).None? ==>
        if titleHit.Some? then items == Raised(old(items), titleHit.value) &&
          dragging == Some(old(items)[titleHit.value].id)
        else items == old(items) && dragging == None
      ensures Marks(screen.width, screen.height, old(dirty), dirty, old(UpToDate()), UpToDate(),
                    old(MouseRects(mx, my, pressed, titleHit)))
    {
      hide AllBig, ListOk, HasId, Raised, UpToDate, Dragged, Marks, DragRects, RaiseRects;
      MarksNone(screen.width, screen.height, dirty, UpToDate());
      if pressed {
        if dragging.None? {
          if titleHit.Some? {
            Grab(titleHit.value, mx, my);
          }
        } else {
          Drag(mx, my);
        }
      } else {
        dragging := None;
      }
    }

    /** `snapshot_window_list`, as far as drawing goes: at most 16 windows, front first. */
    method SnapshotWindows() returns (snaps: seq<Window>)
      ensures snaps == Wins(Snapshot(items))
    {
      snaps := [];
      while |snaps| < |items| && |snaps| < MAX_SHOWN
        invariant |snaps| <= |items| && |snaps| <= MAX_SHOWN && forall j :: 0 <= j < |snaps| ==>
          snaps[j] == items[j].win
      {
        snaps := snaps + [items[|snaps|].win];
      }
    }

    /** `window_draw_all`. Afterwards every pixel that was dirty shows the desktop, every other byte of the framebuffer
        is as before, and with at most 16 windows the whole screen shows the desktop exactly if what was not dirty did
        so before. */
    method DrawAll()
      requires Valid()
      modifies this`dirty, screen.back, screen.fb
      ensures Valid() && dirty == []
      ensures DirtyShown(screen.back[..], old(screen.fb[..]), screen.fb[..], screen.width, screen.height, screen.pitch,
                         old(dirty),
                         Wins(Snapshot(items)), cursorX, cursorY)
      ensures |items| <= MAX_SHOWN ==> (Shows() <==> old(Current()))
      ensures UpToDate() <==> old(UpToDate())
    {
      hide Fresh, Redrawn, Pointing, Copied, DirtyShown, AllBig, HasId, CursorOver, Final, PixelIs, Shows;
      ghost var fb0 := screen.fb[..];
      if |dirty| == 0 {
        NothingDirty(screen.back[..], fb0, screen.width, screen.height, screen.pitch, Wins(Snapshot(items)), cursorX,
                     cursorY);
        ShownIff();
        return;
      }
      var redraw := dirty;
      dirty := [];
      var snaps := SnapshotWindows();
      SnapshotOk(items, nextId);
      ghost var back0 := screen.back[..];
      RedrawAll(screen, redraw, snaps);
      ghost var back1 := screen.back[..];
      var cursor := CursorRect(cursorX, cursorY);
      NoCursor(back1, screen.width, screen.height, redraw, cursorX, cursorY);
      for i := 0 to |redraw|
        invariant screen.back[..] == back1
        invariant forall j :: 0 <= j < i ==> Intersect(redraw[j], cursor).None?
      {
        var overlap := Intersect(redraw[i], cursor);
        if overlap.Some? {
          screen.DrawCursor(cursorX, cursorY);
          WithCursor(back1, screen.back[..], screen.width, screen.height, redraw, cursorX, cursorY);
          break;
        }
      }
      screen.SwapRects(redraw);
      AllShown(back0, back1, screen.back[..], fb0, screen.fb[..], screen.width, screen.height, screen.pitch, redraw,
               snaps, cursorX, cursorY);
      if |items| <= MAX_SHOWN {
        DrawnIff(screen.back[..], fb0, screen.fb[..], screen.width, screen.height, screen.pitch, redraw, snaps, cursorX,
                 cursorY);
      }
      ShownIff();
    }

    lemma ShownIff()
      requires dirty == []
      ensures Shows() <==> Current()
    {
      hide PixelIs, Final, OnScreen;
      assert forall x, y :: !InAny([], x, y);
      hide InAny;
    }

    /** One round of the main loop (src/kernel/main.c:139-140): an update and then a redraw. As long as nothing has been
        drawn in any other order, the first round shows the whole desktop whatever was done before it, and later ones
        do so unless dirty rectangles were forgotten. */
    method Frame(mx: int, my: int, pressed: bool)
      requires Valid() && CursorSeen() && InOrder()
      modifies this, screen.back, screen.fb
      ensures Valid() && CursorSeen() && InOrder() && started && dirty == [] && cursorX == mx && cursorY == my &&
        |items| == |old(items)|
      ensures !old(started) && |items| <= MAX_SHOWN ==> Shows()
      ensures old(UpToDate()) && !old(Forgets(screen.width, screen.height, dirty, UpdateRects(mx, my, pressed))) ==>
        UpToDate() && Shows()
    {
      hide Shows, Current, StartsClean, UpdateRects, Marked, Forgets, Whole, AllBig, DirtyShown, Dragged, Raised,
           TitleHit, Fresh;
      ghost var rs := UpdateRects(mx, my, pressed);
      WindowUpdate(mx, my, pressed);
      if !old(started) {
        WholeStays(screen.width, screen.height, rs);
        AllDirty();
      }
      DrawAll();
      ShownIff();
    }

    lemma AllDirty()
      requires dirty == Whole(screen.width, screen.height)
      ensures Current()
    {
      hide Fresh;
      WholeFresh(screen.fb[..], screen.width, screen.height, screen.pitch, Wins(items), cursorX, cursorY);
    }
  }

  /** Why the order matters: drawing before the first update puts a cursor in the corner, and that update leaves it on
      the screen without making it dirty. */
  method DrawnTooEarly(screen: Screen) returns (desktop: Desktop)
    requires screen.Valid() && screen.width >= 40 && screen.height >= 20
    modifies screen.back, screen.fb
    ensures fresh(desktop) && desktop.Valid() && desktop.items == [] && !desktop.Current() && !desktop.UpToDate()
    ensures OnScreen(0, 0, screen.width, screen.height) && !InAny(desktop.dirty, 0, 0)
    ensures PixelIs(screen.fb[..], screen.pitch, 0, 0, WHITE) &&
      Final([], desktop.cursorX, desktop.cursorY, 0, 0) == DESKTOP
  {
    hide Marked, Forgets, Whole, InAny, Raised, Dragged, TitleHit, DirtyShown, AllBig, PixelIs, NoStale, ListOk,
         HasId;
    desktop := new Desktop(screen);
    desktop.DrawAll();
    assert OnScreen(0, 0, screen.width, screen.height) && desktop.Shows();
    assert Final(Wins(desktop.items), desktop.cursorX, desktop.cursorY, 0, 0) == WHITE;
    desktop.WindowUpdate(20, 0, false);
    SameThrice(screen.width, screen.height, CursorRect(20, 0));
    assert Wins(desktop.items) == [];
    StaleAt(screen.fb[..], screen.width, screen.height, screen.pitch, desktop.dirty, [], 20, 0, 0, 0);
  }

  /** The dirty pixels show the desktop; all else on the screen is as before. */
  ghost predicate DirtyShown(back: seq<Color>, fb0: seq<Byte>, fb: seq<Byte>, w: int, h: int, pitch: int,
                             dirty: seq<Rect>, wins: seq<Window>, cx: int, cy: int) {
    && (forall x, y :: OnScreen(x, y, w, h) && InAny(dirty, x, y) ==>
        PixelIs(fb, pitch, x, y, Final(wins, cx, cy, x, y)))
    && Copied(back, fb0, fb, w, h, pitch, dirty, Nowhere, 0)
  }

  /** The cursor lies over the picture, or was not drawn and lies outside the redrawn rectangles. */
  ghost predicate CursorOver(s: seq<Color>, s': seq<Color>, w: int, h: int, redraw: seq<Rect>, cx: int, cy: int) {
    && |s'| == |s|
    && forall x, y :: OnScreen(x, y, w, h) && 0 <= At(x, y, w) < |s| ==>
         if InCursor(cx, cy, x, y) then s'[At(x, y, w)] == WHITE ||
           (s'[At(x, y, w)] == s[At(x, y, w)] && !InAny(redraw, x, y))
         else s'[At(x, y, w)] == s[At(x, y, w)]
  }

  lemma WithCursor(s: seq<Color>, s': seq<Color>, w: int, h: int, redraw: seq<Rect>, cx: int, cy: int)
    requires Pointing(s, s', w, h, cx, cy, 15, 0)
    ensures CursorOver(s, s', w, h, redraw, cx, cy)
  {
    hide At, InAny;
    forall x, y
      ensures CursorReached(cx, cy, 15, 0, x, y) <==> InCursor(cx, cy, x, y)
    {
    }
    hide InCursor, CursorReached;
  }

  lemma NoCursor(s: seq<Color>, w: int, h: int, redraw: seq<Rect>, cx: int, cy: int)
    ensures (forall j :: 0 <= j < |redraw| ==> Intersect(redraw[j], CursorRect(cx, cy)).None?) ==>
      CursorOver(s, s, w, h, redraw, cx, cy)
  {
    hide At, Intersect;
    if forall j :: 0 <= j < |redraw| ==> Intersect(redraw[j], CursorRect(cx, cy)).None? {
      forall x, y | InCursor(cx, cy, x, y)
        ensures !InAny(redraw, x, y)
      {
        assert In(CursorRect(cx, cy), x, y);
        forall j | 0 <= j < |redraw|
          ensures !In(redraw[j], x, y)
        {
          assert Intersect(redraw[j], CursorRect(cx, cy)).None?;
        }
      }
      hide InCursor, InAny;
    }
  }

  lemma SnapshotOk(items: seq<Item>, nextId: nat)
    requires ListOk(items, nextId)
    ensures WindowsOk(Wins(Snapshot(items)))
  {
    hide WindowOk;
  }

  lemma NothingDirty(back: seq<Color>, fb: seq<Byte>, w: int, h: int, pitch: int, snaps: seq<Window>, cx: int, cy: int)
    ensures DirtyShown(back, fb, fb, w, h, pitch, [], snaps, cx, cy)
  {
    hide PixelIs, Final, OnScreen, ByteIs, At;
    assert forall x, y :: !InAny([], x, y);
    assert Copied(back, fb, fb, w, h, pitch, [], Nowhere, 0) by { CopyStart(back, fb, w, h, pitch); }
    hide Copied, InAny;
  }

  /** One pixel of the backbuffer. */
  lemma BackAt(s0: seq<Color>, s1: seq<Color>, s2: seq<Color>, w: int, h: int, redraw: seq<Rect>, wins: seq<Window>,
               cx: int, cy: int, x: int, y: int)
    requires Redrawn(s0, s1, w, h, redraw, wins) && CursorOver(s1, s2, w, h, redraw, cx, cy) && OnScreen(x, y, w, h) &&
      |s2| >= w * h
    ensures 0 <= At(x, y, w) < |s2| == |s0|
    ensures InAny(redraw, x, y) ==> s2[At(x, y, w)] == Final(wins, cx, cy, x, y)
  {
    AtBound(x, y, w, h);
    hide At, InAny, Picture, InCursor;
  }

  /** One pixel on the screen. */
  lemma ShownAt(s0: seq<Color>, s1: seq<Color>, s2: seq<Color>, f0: seq<Byte>, f2: seq<Byte>, w: int, h: int,
                pitch: int, redraw: seq<Rect>,
                wins: seq<Window>, cx: int, cy: int, x: int, y: int)
    requires Redrawn(s0, s1, w, h, redraw, wins) && CursorOver(s1, s2, w, h, redraw, cx, cy) &&
      Copied(s2, f0, f2, w, h, pitch, redraw, Nowhere, 0)
    requires OnScreen(x, y, w, h) && InAny(redraw, x, y) && 4 * w <= pitch && |s2| >= w * h && |f0| >= pitch * h
    ensures PixelIs(f2, pitch, x, y, Final(wins, cx, cy, x, y))
  {
    hide At, ByteOf, InAny, Redrawn, CursorOver, Copied, Final;
    BackAt(s0, s1, s2, w, h, redraw, wins, cx, cy, x, y);
    forall k | 0 <= k < 4
      ensures ByteShown(f2, pitch, x, y, k, s2[At(x, y, w)])
    {
      Synced(s2, f0, f2, w, h, pitch, redraw, x, y, k);
    }
    hide ByteShown;
  }

  /** Outside the redrawn rectangles a pixel shows what it did. */
  lemma KeptAt(s2: seq<Color>, f0: seq<Byte>, f2: seq<Byte>, w: int, h: int, pitch: int, redraw: seq<Rect>, x: int,
               y: int, c: Color)
    requires Copied(s2, f0, f2, w, h, pitch, redraw, Nowhere, 0) && OnScreen(x, y, w, h) && !InAny(redraw, x, y)
    requires 4 * w <= pitch && |s2| >= w * h && |f0| >= pitch * h
    ensures PixelIs(f2, pitch, x, y, c) <==> PixelIs(f0, pitch, x, y, c)
  {
    hide At, ByteOf, InAny, Copied;
    forall k | 0 <= k < 4
      ensures ByteShown(f2, pitch, x, y, k, c) <==> ByteShown(f0, pitch, x, y, k, c)
    {
      Synced(s2, f0, f2, w, h, pitch, redraw, x, y, k);
    }
    hide ByteShown;
  }

  lemma AllShown(s0: seq<Color>, s1: seq<Color>, s2: seq<Color>, f0: seq<Byte>, f2: seq<Byte>, w: int, h: int,
                 pitch: int, redraw: seq<Rect>,
                 wins: seq<Window>, cx: int, cy: int)
    requires Redrawn(s0, s1, w, h, redraw, wins) && CursorOver(s1, s2, w, h, redraw, cx, cy) &&
      Copied(s2, f0, f2, w, h, pitch, redraw, Nowhere, 0)
    requires 4 * w <= pitch && |s2| >= w * h && |f0| >= pitch * h
    ensures DirtyShown(s2, f0, f2, w, h, pitch, redraw, wins, cx, cy)
  {
    hide Redrawn, CursorOver, Copied, PixelIs, Final, OnScreen, InAny;
    forall x, y | OnScreen(x, y, w, h) && InAny(redraw, x, y)
      ensures PixelIs(f2, pitch, x, y, Final(wins, cx, cy, x, y))
    {
      ShownAt(s0, s1, s2, f0, f2, w, h, pitch, redraw, wins, cx, cy, x, y);
    }
  }

  /** All is up to date after redrawing exactly if what was not redrawn was before. */
  lemma DrawnIff(back: seq<Color>, f0: seq<Byte>, f2: seq<Byte>, w: int, h: int, pitch: int, redraw: seq<Rect>,
                 wins: seq<Window>, cx: int, cy: int)
    requires DirtyShown(back, f0, f2, w, h, pitch, redraw, wins, cx, cy) && 4 * w <= pitch && |back| >= w * h &&
      |f0| >= pitch * h
    ensures Fresh(f2, w, h, pitch, [], wins, cx, cy) <==> Fresh(f0, w, h, pitch, redraw, wins, cx, cy)
  {
    hide PixelIs, Final, OnScreen, Copied;
    assert forall x, y :: !InAny([], x, y);
    hide InAny;
    forall x, y | OnScreen(x, y, w, h) && !InAny(redraw, x, y)
      ensures PixelIs(f2, pitch, x, y, Final(wins, cx, cy, x, y)) <==>
        PixelIs(f0, pitch, x, y, Final(wins, cx, cy, x, y))
    {
      KeptAt(back, f0, f2, w, h, pitch, redraw, x, y, Final(wins, cx, cy, x, y));
    }
  }

  /** The frontmost window under the point, or the length of the list. */
  function Hit(items: seq<Item>, mx: int, my: int): (i: nat)
    ensures i <= |items|
    ensures i < |items| ==> Under(items[i].win, mx, my)
    ensures forall j :: 0 <= j < i ==> !Under(items[j].win, mx, my)
  {
    if items == [] then 0 else if Under(items[0].win, mx, my) then 0 else 1 + Hit(items[1..], mx, my)
  }

  lemma HitIs(items: seq<Item>, mx: int, my: int, i: nat)
    requires i <= |items| && forall j :: 0 <= j < i ==> !Under(items[j].win, mx, my)
    requires i < |items| ==> Under(items[i].win, mx, my)
    ensures Hit(items, mx, my) == i
  {
  }

  /** The window whose title bar is hit, if the frontmost of the windows shown is hit there. */
  function TitleHit(items: seq<Item>, mx: int, my: int): (i: nat)
    ensures i <= |items|
  {
    var i := Hit(Snapshot(items), mx, my);
    if i < |Snapshot(items)| && my < items[i].win.y + TITLE then i else |items|
  }

  /** The window with this id at a new place. */
  function Dragged(items: seq<Item>, id: nat, x: int, y: int): (r: seq<Item>)
    ensures |r| == |items|
    ensures forall i :: 0 <= i < |items| ==>
      r[i] == if items[i].id == id then items[i].(win := items[i].win.(x := x, y := y)) else items[i]
  {
    seq(|items|, i requires 0 <= i < |items| => if items[i].id == id then items[i].(win := items[i].win.(x := x,
        y := y)) else items[i])
  }

  /** The window's frame, without its shadow, is under the point. */
  predicate Under(win: Window, mx: int, my: int) {
    In(Rect(win.x, win.y, win.w, win.h), mx, my)
  }

  lemma RaisedOk(items: seq<Item>, i: nat, nextId: nat)
    requires i < |items| && ListOk(items, nextId)
    ensures Raised(items, i) == [items[i]] + (items[..i] + items[i + 1..]) && ListOk(Raised(items, i), nextId)
    ensures HasId(Raised(items, i), items[i].id) && (i == 0 ==> Raised(items, i) == items)
  {
    ListSteps(items, nextId);
    assert Raised(items, i)[0].id == items[i].id;
  }

  lemma GrabFresh(fb: seq<Byte>, w: int, h: int, pitch: int, d: seq<Rect>, d': seq<Rect>, items: seq<Item>, i: nat,
                  cx: int, cy: int)
    requires i < |items| && AllBig(items) && Fresh(fb, w, h, pitch, d, Wins(items), cx, cy) &&
      Queues(w, h, d, d', Outer(items[i].win))
    ensures AllBig(Raised(items, i)) && |Raised(items, i)| == |items| &&
      Fresh(fb, w, h, pitch, d', Wins(Raised(items, i)), cx, cy)
  {
    hide Fresh, Settled, Queues, AllBig, BigEnough, Raised;
    BigRaised(items, i);
    Fronted(w, h, d, d', items, i, cx, cy);
    StaysFresh(fb, w, h, pitch, d, d', Wins(items), Wins(Raised(items, i)), cx, cy, cx, cy);
  }

  lemma DraggedOk(items: seq<Item>, i: nat, nextId: nat, x: int, y: int)
    requires i < |items| && ListOk(items, nextId)
    ensures var item := items[i].(win := items[i].win.(x := x, y := y));
      Dragged(items, items[i].id, x, y) == items[i := item] && ListOk(items[i := item], nextId) &&
      HasId(items[i := item], items[i].id)
  {
    ListSteps(items, nextId);
    var item := items[i].(win := items[i].win.(x := x, y := y));
    assert items[i := item][i].id == items[i].id;
  }

  lemma DragFresh(fb: seq<Byte>, w: int, h: int, pitch: int, d: seq<Rect>, d': seq<Rect>, items: seq<Item>, i: nat,
                  item: Item, cx: int, cy: int)
    requires i < |items| && AllBig(items) && Fresh(fb, w, h, pitch, d, Wins(items), cx, cy)
    requires item.win.w == items[i].win.w && item.win.h == items[i].win.h
    requires Queues(w, h, d, d', Outer(items[i].win)) && Queues(w, h, d, d', Outer(item.win))
    ensures AllBig(items[i := item]) && Fresh(fb, w, h, pitch, d', Wins(items[i := item]), cx, cy)
  {
    hide Fresh, Settled, Queues, AllBig, BigEnough;
    Repainted(items, i, item);
    MovedTo(w, h, d, d', items, i, item, cx, cy);
    StaysFresh(fb, w, h, pitch, d, d', Wins(items), Wins(items[i := item]), cx, cy, cx, cy);
  }

  lemma CursorFresh(fb: seq<Byte>, w: int, h: int, pitch: int, d: seq<Rect>, d': seq<Rect>, wins: seq<Window>, cx: int,
                    cy: int, cx': int, cy': int)
    requires Fresh(fb, w, h, pitch, d, wins, cx, cy)
    requires Queues(w, h, d, d', CursorRect(cx, cy)) && Queues(w, h, d, d', CursorRect(cx', cy'))
    ensures Fresh(fb, w, h, pitch, d', wins, cx', cy')
  {
    hide Fresh, Settled, Queues;
    CursorMoved(w, h, d, d', wins, cx, cy, cx', cy');
    StaysFresh(fb, w, h, pitch, d, d', wins, wins, cx, cy, cx', cy');
  }

  lemma BigRaised(items: seq<Item>, i: nat)
    requires i < |items|
    ensures AllBig(items) ==> AllBig(Raised(items, i)) && BigEnough(items[i].win)
    ensures |Raised(items, i)| == |items|
  {
    hide BigEnough;
  }

  /** Every pixel of a cursor at the old position is dirty, or is to be white anyway. */
  ghost predicate NoStale(w: int, h: int, dirty: seq<Rect>, wins: seq<Window>, cx: int, cy: int, cx': int, cy': int) {
    forall x, y :: OnScreen(x, y, w, h) && InCursor(cx, cy, x, y) && !InAny(dirty, x, y) ==>
      InCursor(cx', cy', x, y) || Picture(wins, x, y) == WHITE
  }

  lemma CursorStarted(w: int, h: int, d: seq<Rect>, d': seq<Rect>, wins: seq<Window>, cx: int, cy: int, cx': int,
                      cy': int)
    requires Queues(w, h, d, d', CursorRect(cx', cy')) && NoStale(w, h, d', wins, cx, cy, cx', cy')
    ensures Settled(w, h, d, d', wins, wins, cx, cy, cx', cy')
  {
    hide InAny, OnScreen, Picture;
    forall x, y
      ensures InCursor(cx', cy', x, y) ==> In(CursorRect(cx', cy'), x, y)
    {
    }
  }

  /** A pixel shows one colour: if it shows white, then nothing else. */
  lemma NotBoth(fb: seq<Byte>, pitch: int, x: int, y: int, c: Color)
    requires PixelIs(fb, pitch, x, y, WHITE) && PixelIs(fb, pitch, x, y, c)
    ensures c == WHITE
  {
    hide ByteOf, At;
    forall k | 0 <= k < 4
      ensures ByteOf(c, k) == ByteOf(WHITE, k)
    {
      assert ByteShown(fb, pitch, x, y, k, c) && ByteShown(fb, pitch, x, y, k, WHITE);
    }
    WhiteBytes(c);
  }

  lemma StaleAt(fb: seq<Byte>, w: int, h: int, pitch: int, d: seq<Rect>, wins: seq<Window>, cx: int, cy: int, x: int,
                y: int)
    requires OnScreen(x, y, w, h) && !InAny(d, x, y) && PixelIs(fb, pitch, x, y, WHITE) &&
      Final(wins, cx, cy, x, y) != WHITE
    ensures !Fresh(fb, w, h, pitch, d, wins, cx, cy)
  {
    hide PixelIs, Final, InAny;
    if PixelIs(fb, pitch, x, y, Final(wins, cx, cy, x, y)) {
      NotBoth(fb, pitch, x, y, Final(wins, cx, cy, x, y));
    }
  }

  /** Giving the cursor another position without marking the old one leaves all up to date exactly if no pixel of the
      old cursor is stale. */
  lemma StaleIff(fb: seq<Byte>, w: int, h: int, pitch: int, d: seq<Rect>, d': seq<Rect>, wins: seq<Window>, cx: int,
                 cy: int, cx': int, cy': int)
    requires Fresh(fb, w, h, pitch, d, wins, cx, cy) && Queues(w, h, d, d', CursorRect(cx', cy'))
    ensures Fresh(fb, w, h, pitch, d', wins, cx', cy') <==> NoStale(w, h, d', wins, cx, cy, cx', cy')
  {
    hide InAny, OnScreen, Picture, PixelIs, InCursor, In;
    if NoStale(w, h, d', wins, cx, cy, cx', cy') {
      CursorStarted(w, h, d, d', wins, cx, cy, cx', cy');
      StaysFresh(fb, w, h, pitch, d, d', wins, wins, cx, cy, cx', cy');
    }
    if Fresh(fb, w, h, pitch, d', wins, cx', cy') {
      forall x, y | OnScreen(x, y, w, h) && InCursor(cx, cy, x, y) && !InAny(d', x, y)
        ensures InCursor(cx', cy', x, y) || Picture(wins, x, y) == WHITE
      {
        assert PixelIs(fb, pitch, x, y, Final(wins, cx, cy, x, y)) &&
          PixelIs(fb, pitch, x, y, Final(wins, cx', cy', x, y));
        NotBoth(fb, pitch, x, y, Final(wins, cx', cy', x, y));
      }
    }
  }

  /** With the whole screen dirty nothing is stale. */
  lemma WholeClean(w: int, h: int, wins: seq<Window>, cx: int, cy: int, cx': int, cy': int)
    ensures NoStale(w, h, Marked(w, h, Whole(w, h), [CursorRect(cx', cy')]), wins, cx, cy, cx', cy')
  {
    WholeStays(w, h, [CursorRect(cx', cy')]);
    hide Marked, Whole, InAny, InCursor, Picture;
    forall x, y | OnScreen(x, y, w, h)
      ensures InAny(Whole(w, h), x, y)
    {
      WholeCovers(w, h, x, y);
    }
  }

  lemma WholeFresh(fb: seq<Byte>, w: int, h: int, pitch: int, wins: seq<Window>, cx: int, cy: int)
    ensures Fresh(fb, w, h, pitch, Whole(w, h), wins, cx, cy)
  {
    hide Whole, InAny, PixelIs, Final, OnScreen;
    forall x, y | OnScreen(x, y, w, h)
      ensures InAny(Whole(w, h), x, y)
    {
      WholeCovers(w, h, x, y);
    }
  }

  lemma OrderStays(w: int, h: int, started: bool, d: seq<Rect>, d': seq<Rect>, rs: seq<Rect>)
    requires d' == Marked(w, h, d, rs)
    ensures started || d == Whole(w, h) ==> started || d' == Whole(w, h)
  {
    WholeStays(w, h, rs);
    hide Marked, Forgets, Whole;
  }

  lemma MarksOrder(w: int, h: int, started: bool, d: seq<Rect>, d': seq<Rect>, u: bool, u': bool, rs: seq<Rect>)
    requires Marks(w, h, d, d', u, u', rs)
    ensures started || d == Whole(w, h) ==> started || d' == Whole(w, h)
  {
    hide Marked, Forgets, Whole;
    OrderStays(w, h, started, d, d', rs);
  }

  lemma SameAgain(w: int, h: int, r: Rect, d: seq<Rect>)
    requires r.x > 0 && OnScreenPart(w, h, r).Some? && d in [[], [OnScreenPart(w, h, r).value]]
    ensures Marked(w, h, d, [r]) == [OnScreenPart(w, h, r).value]
  {
    MarkedOne(w, h, d, r);
    var c := OnScreenPart(w, h, r).value;
    assert Intersect(c, c).Some? && Union(c, c) == c;
    assert FirstOverlap([c], c) == 0;
  }

  /** Marking one rectangle three times marks its part on the screen. */
  lemma SameThrice(w: int, h: int, r: Rect)
    requires r.x > 0 && OnScreenPart(w, h, r).Some?
    ensures !InAny(Marked(w, h, [], [r] + [] + [r, r]), 0, 0)
  {
    hide Marked, Forgets;
    var c := OnScreenPart(w, h, r).value;
    assert [r] + [] + [r, r] == [r] + [r, r];
    MarkedThen(w, h, [], [r], [r, r]);
    SameAgain(w, h, r, []);
    MarkedTwo(w, h, [c], r, r);
    SameAgain(w, h, r, [c]);
    assert !In([c][0], 0, 0);
  }

  /** The windows of other processes, in order. */
  function Others(items: seq<Item>, pid: nat): seq<Item> {
    if items == [] then [] else (if items[0].owner == pid then [] else [items[0]]) + Others(items[1..], pid)
  }

  lemma {:induction false} OthersAppend(a: seq<Item>, b: seq<Item>, pid: nat)
    ensures Others(a + b, pid) == Others(a, pid) + Others(b, pid)
  {
    if a == [] {
      assert a + b == b;
    } else {
      assert (a + b)[1..] == a[1..] + b;
      OthersAppend(a[1..], b, pid);
    }
  }

  lemma OthersOne(item: Item, pid: nat)
    ensures Others([item], pid) == if item.owner == pid then [] else [item]
  {
    assert [item][1..] == [];
  }

  lemma OthersStep(items: seq<Item>, i: nat, pid: nat)
    requires i < |items| && items[..i] == Others(items[..i], pid)
    ensures items[i].owner == pid ==>
      Others(items[..i] + items[i + 1..], pid) == Others(items, pid) && (items[..i] + items[i + 1..])[..i] == items[..i]
    ensures items[i].owner != pid ==> items[..i + 1] == Others(items[..i + 1], pid)
  {
    hide Others;
    var a, x, b := items[..i], items[i], items[i + 1..];
    OthersOne(x, pid);
    OthersAppend(a, [x], pid);
    if x.owner == pid {
      assert items == (a + [x]) + b;
      OthersAppend(a + [x], b, pid);
      OthersAppend(a, b, pid);
      assert Others(a, pid) + [] == Others(a, pid);
    } else {
      assert items[..i + 1] == a + [x];
    }
  }

  lemma BigRest(items: seq<Item>, i: nat)
    requires i < |items|
    ensures AllBig(items) ==> AllBig(items[..i] + items[i + 1..]) && BigEnough(items[i].win)
  {
    hide BigEnough;
  }

  /** Removing window `i` takes its id, and no other, from the list. */
  lemma IdGone(items: seq<Item>, i: nat, nextId: nat, id: Option<nat>, id0: Option<nat>)
    requires i < |items| && ListOk(items, nextId)
    ensures id.Some? && HasId(items, id.value) && id != Some(items[i].id) ==>
      HasId(items[..i] + items[i + 1..], id.value)
    ensures !HasId(items[..i] + items[i + 1..], items[i].id)
    ensures id0.Some? && !HasId(items, id0.value) ==> !HasId(items[..i] + items[i + 1..], id0.value)
  {
    var rest := items[..i] + items[i + 1..];
    forall j | 0 <= j < |rest|
      ensures rest[j] == items[if j < i then j else j + 1] && rest[j].id != items[i].id
    {
    }
    if id.Some? && HasId(items, id.value) && id != Some(items[i].id) {
      var j :| 0 <= j < |items| && items[j].id == id.value;
      assert rest[if j < i then j else j - 1].id == id.value;
    }
  }

  lemma NoId(items: seq<Item>, id: nat)
    requires !HasId(items, id)
    ensures forall i :: 0 <= i < |items| ==> items[i].id != id
  {
  }

  lemma IdSame(items: seq<Item>, items': seq<Item>, id: Option<nat>)
    requires |items'| == |items| && forall i :: 0 <= i < |items| ==> items'[i].id == items[i].id
    ensures id.Some? && HasId(items, id.value) ==> HasId(items', id.value)
  {
  }

  lemma Repainted(items: seq<Item>, i: nat, item: Item)
    requires i < |items| && item.win.w == items[i].win.w && item.win.h == items[i].win.h
    ensures AllBig(items) ==> AllBig(items[i := item]) && BigEnough(items[i].win) && BigEnough(item.win)
  {
  }

  /** The pixels agree with the window's own outside the region of its client area. */
  ghost predicate SameOutside(win: Window, pixels: seq<Color>, region: Rect)
    requires win.pixels.Some?
  {
    forall px, py :: 0 <= px < win.w && 0 <= py < win.h - TITLE && !In(region, px, py) ==>
      BodyColor(win.(pixels := Some(pixels)), win.x + px, win.y + TITLE + py) ==
      BodyColor(win, win.x + px, win.y + TITLE + py)
  }

  lemma RegionDiffers(win: Window, pixels: seq<Color>, region: Rect)
    requires win.pixels.Some? && SameOutside(win, pixels, region)
    ensures DifferIn(win, win.(pixels := Some(pixels)), Rect(win.x + region.x, win.y + TITLE + region.y, region.w,
                                                             region.h))
  {
    hide BodyColor;
    var win' := win.(pixels := Some(pixels));
    forall x, y | !In(Rect(win.x + region.x, win.y + TITLE + region.y, region.w, region.h), x, y)
      ensures Shown(win', x, y) == Shown(win, x, y)
    {
      var px, py := x - win.x, y - win.y - TITLE;
      assert !In(region, px, py);
      assert In(BodyOf(win), x, y) ==>
        BodyColor(win', win.x + px, win.y + TITLE + py) == BodyColor(win, win.x + px, win.y + TITLE + py);
    }
  }

  lemma BigStep(items: seq<Item>, item: Item)
    ensures AllBig(items) && BigEnough(item.win) ==> AllBig([item] + items)
  {
  }

  lemma IdKept(items: seq<Item>, items': seq<Item>, id: Option<nat>)
    requires forall item :: item in items ==> exists item' :: item' in items' && item'.id == item.id
    ensures id.Some? && HasId(items, id.value) ==> HasId(items', id.value)
  {
    if id.Some? && HasId(items, id.value) {
      var i :| 0 <= i < |items| && items[i].id == id.value;
      var item' :| item' in items' && item'.id == items[i].id;
    }
  }

  lemma QueuedGrowsIf(dirty: seq<Rect>, r: Rect)
    ensures !Overflows(dirty, r) ==> Grows(dirty, Queued(dirty, r), r)
  {
    if !Overflows(dirty, r) {
      QueuedGrows(dirty, r);
    }
  }

  /** Finding the first overlap by its two properties. */
  lemma OverlapIs(dirty: seq<Rect>, r: Rect)
    ensures forall i :: 0 <= i < |dirty| && Intersect(dirty[i], r).Some? ==>
      (forall j :: 0 <= j < i ==> Intersect(dirty[j], r).None?) ==> FirstOverlap(dirty, r) == i
    ensures (forall j :: 0 <= j < |dirty| ==> Intersect(dirty[j], r).None?) ==> FirstOverlap(dirty, r) == |dirty|
  {
    hide Intersect;
  }
}
