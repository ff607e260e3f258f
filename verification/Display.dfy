/** display.js: a visible canvas that follows a hidden backbuffer through one damage
    rectangle, a clamped viewport, and a queue that defers drawing until images load. */
module DisplayModel {
  import opened Common
  import opened CanvasModel

  datatype Viewport = Viewport(x: int, y: int, w: int, h: int)

  datatype Bounds = Bounds(left: int, top: int, right: int, bottom: int)

  const NO_DAMAGE := Bounds(65535, 65535, 0, 0)

  /** A drawing request. An image carries the picture it decodes to; id names its load event. */
  datatype Action =
    | Flip
    | Copy(oldX: int, oldY: int, x: int, y: int, width: nat, height: nat)
    | FillRect(x: int, y: int, width: nat, height: nat, color: int)
    | Blit(x: int, y: int, data: Canvas)
    | Img(id: nat, picture: Canvas, x: int, y: int, width: nat, height: nat)
    | Frame(id: nat, picture: Canvas, x: int, y: int, width: nat, height: nat)

  // ---------- Immediate drawing ----------

  /** What a request does to the backbuffer when it is carried out at once. */
  function Perform(a: Action, back: Canvas): Canvas {
    match a
    case Flip => back
    case Copy(oldX, oldY, x, y, w, h) => Draw(back, back, oldX, oldY, w, h, x, y)
    case FillRect(x, y, w, h, color) => Fill(back, x, y, w, h, color)
    case Blit(x, y, data) => Put(back, data, x, y)
    case Img(_, picture, x, y, _, _) => Draw(back, picture, 0, 0, picture.width, picture.height, x, y)
    case Frame(_, picture, x, y, w, h) => Draw(back, picture, 0, 0, w, h, x, y)
  }

  /** The simple display: every request carried out in turn. */
  function PerformAll(actions: seq<Action>, back: Canvas): Canvas {
    if actions == [] then back
    else Perform(actions[|actions| - 1], PerformAll(actions[..|actions| - 1], back))
  }

  lemma StartsAt(back: Canvas)
    ensures PerformAll([], back) == back
  {
  }

  lemma PerformOneMore(done: seq<Action>, a: Action, back: Canvas)
    ensures PerformAll(done + [a], back) == Perform(a, PerformAll(done, back))
  {
    assert (done + [a])[..|done|] == done;
  }

  /** What each request draws, pixel by pixel: a copy and an image draw their solid pixels over what
      is there, a fill and a blit replace it, and nothing else changes. */
  lemma PerformPixels(a: Action, was: Canvas, x: int, y: int)
    ensures var now, on := Look(Perform(a, was), x, y), 0 <= x < was.width && 0 <= y < was.height;
            && (a.Flip? ==> now == Look(was, x, y))
            && (a.Copy? ==>
                  var from := Look(was, a.oldX + (x - a.x), a.oldY + (y - a.y));
                  now == if on && a.x <= x < a.x + a.width && a.y <= y < a.y + a.height && from.Solid? then from
                         else Look(was, x, y))
            && (a.FillRect? ==>
                  now == if on && a.x <= x < a.x + a.width && a.y <= y < a.y + a.height then Solid(a.color)
                         else Look(was, x, y))
            && (a.Blit? ==>
                  now == if on && a.x <= x < a.x + a.data.width && a.y <= y < a.y + a.data.height
                         then Look(a.data, x - a.x, y - a.y) else Look(was, x, y))
            && (a.Img? ==>
                  var from := Look(a.picture, x - a.x, y - a.y);
                  now == if on && from.Solid? then from else Look(was, x, y))
            && (a.Frame? ==>
                  var from := Look(a.picture, x - a.x, y - a.y);
                  now == if on && a.x <= x < a.x + a.width && a.y <= y < a.y + a.height && from.Solid? then from
                         else Look(was, x, y))
    ensures Perform(a, was).width == was.width && Perform(a, was).height == was.height
  {
    SizeKept(a, was);
    hide Draw, Put, Fill;
    match a
    case Flip =>
    case Copy(oldX, oldY, ax, ay, w, h) => LookDraw(was, was, oldX, oldY, w, h, ax, ay, x, y);
    case FillRect(ax, ay, w, h, color) =>
      if 0 <= x < was.width && 0 <= y < was.height {
        LookFill(was, ax, ay, w, h, color, x, y);
      } else {
        LookOutside(Perform(a, was), x, y);
      }
    case Blit(ax, ay, data) => LookPut(was, data, ax, ay, x, y);
    case Img(_, picture, ax, ay, _, _) =>
      LookDraw(was, picture, 0, 0, picture.width, picture.height, ax, ay, x, y);
    case Frame(_, picture, ax, ay, w, h) => LookDraw(was, picture, 0, 0, w, h, ax, ay, x, y);
  }

  lemma SizeKept(a: Action, was: Canvas)
    ensures Perform(a, was).width == was.width && Perform(a, was).height == was.height
  {
  }

  /** One pixel of a canvas of the given size after a list of requests, from the last one back. */
  function PixelAfter(actions: seq<Action>, start: Canvas, x: int, y: int): Pixel
    decreases |actions|
  {
    if !(0 <= x < start.width && 0 <= y < start.height) then Clear
    else if actions == [] then Look(start, x, y)
    else
      var n := |actions| - 1;
      var was := PixelAfter(actions[..n], start, x, y);
      match actions[n]
      case Flip => was
      case Copy(oldX, oldY, ax, ay, w, h) =>
        var above := PixelAfter(actions[..n], start, oldX + (x - ax), oldY + (y - ay));
        if ax <= x < ax + w && ay <= y < ay + h && above.Solid? then above else was
      case FillRect(ax, ay, w, h, color) => if ax <= x < ax + w && ay <= y < ay + h then Solid(color) else was
      case Blit(ax, ay, data) =>
        if ax <= x < ax + data.width && ay <= y < ay + data.height then Look(data, x - ax, y - ay) else was
      case Img(_, picture, ax, ay, _, _) =>
        var above := Look(picture, x - ax, y - ay);
        if above.Solid? then above else was
      case Frame(_, picture, ax, ay, w, h) =>
        var above := Look(picture, x - ax, y - ay);
        if ax <= x < ax + w && ay <= y < ay + h && above.Solid? then above else was
  }

  /** The canvases of the simple display show these pixels. */
  lemma {:induction false} PixelsAreDrawn(actions: seq<Action>, start: Canvas, x: int, y: int)
    ensures Look(PerformAll(actions, start), x, y) == PixelAfter(actions, start, x, y)
    ensures PerformAll(actions, start).width == start.width && PerformAll(actions, start).height == start.height
    decreases |actions|
  {
    hide Perform;
    if actions != [] {
      var n := |actions| - 1;
      var a, before := actions[n], PerformAll(actions[..n], start);
      PixelsAreDrawn(actions[..n], start, x, y);
      if a.Copy? {
        PixelsAreDrawn(actions[..n], start, a.oldX + (x - a.x), a.oldY + (y - a.y));
      }
      PerformPixels(a, before, x, y);
      if !(0 <= x < start.width && 0 <= y < start.height) {
        LookOutside(PerformAll(actions, start), x, y);
      }
    }
  }

  lemma OneIsDrawn(a: Action, start: Canvas)
    ensures forall x, y :: Look(Perform(a, start), x, y) == PixelAfter([a], start, x, y)
  {
    hide Perform, PixelAfter;
    StartsAt(start);
    PerformOneMore([], a, start);
    assert [] + [a] == [a];
    AllAreDrawn([a], start);
  }

  lemma AllAreDrawn(actions: seq<Action>, start: Canvas)
    ensures forall x, y :: Look(PerformAll(actions, start), x, y) == PixelAfter(actions, start, x, y)
  {
    forall x, y ensures Look(PerformAll(actions, start), x, y) == PixelAfter(actions, start, x, y) {
      PixelsAreDrawn(actions, start, x, y);
    }
  }

  /** The two forms of a blit draw the same on every backbuffer exactly when the picture at the
      offset looks like the one at the front. */
  lemma BlitFormsAgree(x: nat, y: nat, front: Canvas, asked: Canvas)
    requires front.width == asked.width && front.height == asked.height
    ensures (forall back :: SameLook(Perform(Blit(x, y, front), back), Perform(Blit(x, y, asked), back)))
            <==> SameLook(front, asked)
  {
    hide Put, Fill, Draw, Look, SameLook;
    if SameLook(front, asked) {
      forall back ensures SameLook(Perform(Blit(x, y, front), back), Perform(Blit(x, y, asked), back)) {
        PutsLookAlike(back, front, asked, x, y);
      }
    } else {
      var back := Blank(x + front.width, y + front.height);
      PutsDiffer(front, asked, x, y);
      assert !SameLook(Perform(Blit(x, y, front), back), Perform(Blit(x, y, asked), back));
    }
  }

  /** A blit shows its buffer row by row, from the place it starts at. */
  lemma BlitDraws(x: int, y: int, width: nat, height: nat, buffer: seq<int>, start: nat, was: Canvas)
    ensures var now := Perform(Blit(x, y, Picture(buffer, start, width, height)), was);
            && now.width == was.width && now.height == was.height
            && forall px, py ::
                 && x <= px < x + width && y <= py < y + height && 0 <= px < was.width && 0 <= py < was.height
                 && 0 <= start + (py - y) * width + (px - x) < |buffer|
                 ==> Look(now, px, py) == Solid(buffer[start + (py - y) * width + (px - x)])
  {
    var a := Blit(x, y, Picture(buffer, start, width, height));
    SizeKept(a, was);
    forall px, py |
      && x <= px < x + width && y <= py < y + height && 0 <= px < was.width && 0 <= py < was.height
      && 0 <= start + (py - y) * width + (px - x) < |buffer|
      ensures Look(Perform(a, was), px, py) == Solid(buffer[start + (py - y) * width + (px - x)])
    {
      PerformPixels(a, was, px, py);
      LookPicture(buffer, start, width, height, px - x, py - y);
    }
  }

  /** The same request, or two blits whose pictures look alike. */
  ghost predicate Alike(a: Action, b: Action) {
    || a == b
    || (&& a.Blit? && b.Blit? && a.x == b.x && a.y == b.y
        && a.data.width == b.data.width && a.data.height == b.data.height && SameLook(a.data, b.data))
  }

  ghost predicate SameCanvas(a: Canvas, b: Canvas) {
    a.width == b.width && a.height == b.height && SameLook(a, b)
  }

  lemma AlikeDrawAlike(a: Action, b: Action, back1: Canvas, back2: Canvas)
    requires Alike(a, b) && SameCanvas(back1, back2)
    ensures SameCanvas(Perform(a, back1), Perform(b, back2))
  {
    hide Put, Fill, Draw, Look;
    match a
    case Flip =>
    case Copy(oldX, oldY, x, y, w, h) => DrawsLookAlike(back1, back2, back1, back2, oldX, oldY, w, h, x, y);
    case FillRect(x, y, w, h, color) => FillsLookAlike(back1, back2, x, y, w, h, color);
    case Blit(x, y, data) => PutsOnAlike(back1, back2, data, b.data, x, y);
    case Img(_, picture, x, y, _, _) =>
      DrawsLookAlike(back1, back2, picture, picture, 0, 0, picture.width, picture.height, x, y);
    case Frame(_, picture, x, y, w, h) => DrawsLookAlike(back1, back2, picture, picture, 0, 0, w, h, x, y);
  }

  /** The drained backbuffer looks as the callers asked whenever each queued blit looks like the
      one asked for. */
  lemma {:induction false} AlikeListsDrawAlike(asked: seq<Action>, issued: seq<Action>, back: Canvas)
    requires |asked| == |issued| && forall k :: 0 <= k < |asked| ==> Alike(asked[k], issued[k])
    ensures SameCanvas(PerformAll(asked, back), PerformAll(issued, back))
  {
    hide Alike, SameLook, Perform;
    if asked != [] {
      var n := |asked| - 1;
      AlikeListsDrawAlike(asked[..n], issued[..n], back);
      AlikeDrawAlike(asked[n], issued[n], PerformAll(asked[..n], back), PerformAll(issued[..n], back));
    } else {
      LooksLikeItself(back);
    }
  }

  // ---------- Damage ----------

  predicate Within(d: Bounds, x: int, y: int) {
    d.left <= x < d.right && d.top <= y < d.bottom
  }

  function Grow(d: Bounds, x: int, y: int, w: int, h: int): Bounds {
    Bounds(Min(d.left, x), Min(d.top, y), Max(d.right, x + w), Max(d.bottom, y + h))
  }

  /** The smallest bounds that take in both: nothing is damaged that need not be. */
  lemma GrowIsHull(d: Bounds, x: int, y: int, w: nat, h: nat, r: Bounds)
    ensures var g := Grow(d, x, y, w, h);
            (r.left <= g.left && r.top <= g.top && r.right >= g.right && r.bottom >= g.bottom)
            <==> && r.left <= d.left && r.top <= d.top && r.right >= d.right && r.bottom >= d.bottom
                 && r.left <= x && r.top <= y && r.right >= x + w && r.bottom >= y + h
  {
  }

  /** The rectangle a request damages. */
  function DamageOf(a: Action, d: Bounds): Bounds {
    match a
    case Flip => NO_DAMAGE
    case Copy(_, _, x, y, w, h) => Grow(d, x, y, w, h)
    case FillRect(x, y, w, h, _) => Grow(d, x, y, w, h)
    case Blit(x, y, data) => Grow(d, x, y, data.width, data.height)
    case Img(_, picture, x, y, _, _) => Grow(d, x, y, picture.width, picture.height)
    case Frame(_, _, x, y, w, h) => Grow(d, x, y, w, h)
  }

  /** What is damaged is what was, and the rectangle drawn to. */
  lemma DamageIsTight(a: Action, d: Bounds, r: Bounds)
    requires !a.Flip?
    requires a.Img? || a.Blit? ==> (if a.Img? then a.picture else a.data).width >= 0
                                   && (if a.Img? then a.picture else a.data).height >= 0
    ensures var w := if a.Img? then a.picture.width else if a.Blit? then a.data.width else a.width;
            var h := if a.Img? then a.picture.height else if a.Blit? then a.data.height else a.height;
            var g := DamageOf(a, d);
            (r.left <= g.left && r.top <= g.top && r.right >= g.right && r.bottom >= g.bottom)
            <==> && r.left <= d.left && r.top <= d.top && r.right >= d.right && r.bottom >= d.bottom
                 && r.left <= a.x && r.top <= a.y && r.right >= a.x + w && r.bottom >= a.y + h
  {
  }

  /** A visible pixel is in step when it shows the backbuffer, as far as that has been drawn. */
  ghost predicate PixelInStep(target: Canvas, back: Canvas, vp: Viewport, i: int, j: int) {
    var b := Look(back, vp.x + i, vp.y + j);
    b.Solid? ==> Look(target, i, j) == b
  }

  /** Every visible pixel outside the damage is in step. */
  ghost predicate InStep(target: Canvas, back: Canvas, vp: Viewport, d: Bounds) {
    forall i, j :: 0 <= i < vp.w && 0 <= j < vp.h && !Within(d, vp.x + i, vp.y + j)
                   ==> PixelInStep(target, back, vp, i, j)
  }

  lemma PerformKeepsInStep(a: Action, target: Canvas, back: Canvas, vp: Viewport, d: Bounds)
    requires !a.Flip? && InStep(target, back, vp, d)
    ensures InStep(target, Perform(a, back), vp, DamageOf(a, d))
  {
    forall i, j | 0 <= i < vp.w && 0 <= j < vp.h && !Within(DamageOf(a, d), vp.x + i, vp.y + j)
      ensures PixelInStep(target, Perform(a, back), vp, i, j)
    {
      assert PixelInStep(target, back, vp, i, j);
      assert Look(Perform(a, back), vp.x + i, vp.y + j) == Look(back, vp.x + i, vp.y + j);
    }
  }

  /** The whole viewport drawn afresh: what flip would do without damage tracking. */
  function Repaint(target: Canvas, back: Canvas, vp: Viewport): Canvas {
    Draw(target, back, vp.x, vp.y, vp.w, vp.h, 0, 0)
  }

  lemma RepaintAt(target: Canvas, back: Canvas, vp: Viewport, i: int, j: int)
    requires target.width == vp.w && target.height == vp.h && 0 <= i < vp.w && 0 <= j < vp.h
    ensures Look(Repaint(target, back, vp), i, j) == Over(Look(target, i, j), Look(back, vp.x + i, vp.y + j))
  {
    assert vp.x + i - 0 == vp.x + i && vp.y + j - 0 == vp.y + j;
  }

  /** One axis of the window flip copies: source start, target start, length. */
  function Window(lo: int, hi: int, origin: int, size: int): (int, int, int) {
    var v, w := lo - origin, hi - lo;
    var (v1, w1) := if v < 0 then (0, w + v) else (v, w);
    (origin + v1, v1, if v1 + w1 > size then size - v1 else w1)
  }

  function Flipped(target: Canvas, back: Canvas, vp: Viewport, d: Bounds): Canvas {
    var (x, vx, w) := Window(d.left, d.right, vp.x, vp.w);
    var (y, vy, h) := Window(d.top, d.bottom, vp.y, vp.h);
    if w > 0 && h > 0 then Draw(target, back, x, y, w, h, vx, vy) else target
  }

  /** Copying the damaged window is as good as repainting everything. */
  lemma FlipIsRepaint(target: Canvas, back: Canvas, vp: Viewport, d: Bounds)
    requires target.width == vp.w && target.height == vp.h && InStep(target, back, vp, d)
    ensures forall i, j :: Look(Flipped(target, back, vp, d), i, j) == Look(Repaint(target, back, vp), i, j)
  {
    var (x, vx, w) := Window(d.left, d.right, vp.x, vp.w);
    var (y, vy, h) := Window(d.top, d.bottom, vp.y, vp.h);
    forall i, j
      ensures Look(Flipped(target, back, vp, d), i, j) == Look(Repaint(target, back, vp), i, j)
    {
      if 0 <= i < vp.w && 0 <= j < vp.h {
        var b := Look(back, vp.x + i, vp.y + j);
        RepaintAt(target, back, vp, i, j);
        assert Within(d, vp.x + i, vp.y + j) <==> InRect(i, j, vx, vy, w, h);
        assert x + i - vx == vp.x + i && y + j - vy == vp.y + j;
        assert InRect(i, j, vx, vy, w, h) ==> Flipped(target, back, vp, d).at(i, j) == Over(target.at(i, j), b);
        assert !InRect(i, j, vx, vy, w, h) ==> Flipped(target, back, vp, d).at(i, j) == target.at(i, j);
        if !Within(d, vp.x + i, vp.y + j) {
          assert PixelInStep(target, back, vp, i, j);
        }
      }
    }
  }

  lemma FlippedAt(target: Canvas, back: Canvas, vp: Viewport, d: Bounds, i: int, j: int)
    requires target.width == vp.w && target.height == vp.h && InStep(target, back, vp, d)
    requires 0 <= i < vp.w && 0 <= j < vp.h
    ensures Look(Flipped(target, back, vp, d), i, j) == Over(Look(target, i, j), Look(back, vp.x + i, vp.y + j))
  {
    FlipIsRepaint(target, back, vp, d);
    assert Look(Flipped(target, back, vp, d), i, j) == Look(Repaint(target, back, vp), i, j);
    RepaintAt(target, back, vp, i, j);
  }

  /** The visible canvas is the viewport window of the backbuffer, pixel for pixel. */
  ghost predicate Shows(target: Canvas, back: Canvas, vp: Viewport) {
    forall i, j :: 0 <= i < vp.w && 0 <= j < vp.h ==> Look(target, i, j) == Look(back, vp.x + i, vp.y + j)
  }

  /** No undrawn backbuffer pixel in the window lies over old contents. */
  ghost predicate NothingOld(target: Canvas, back: Canvas, vp: Viewport) {
    forall i, j :: 0 <= i < vp.w && 0 <= j < vp.h && Look(back, vp.x + i, vp.y + j).Clear? ==>
      Look(target, i, j).Clear?
  }

  /** After a flip the visible canvas is the window exactly when nothing old shows through. */
  lemma FlipShowsWindow(target: Canvas, back: Canvas, vp: Viewport, d: Bounds)
    requires target.width == vp.w && target.height == vp.h && InStep(target, back, vp, d)
    ensures Shows(Flipped(target, back, vp, d), back, vp) <==> NothingOld(target, back, vp)
  {
    var f := Flipped(target, back, vp, d);
    forall i, j | 0 <= i < vp.w && 0 <= j < vp.h
      ensures Look(f, i, j) == Over(Look(target, i, j), Look(back, vp.x + i, vp.y + j))
    {
      FlippedAt(target, back, vp, d, i, j);
    }
  }

  lemma BlankHasNothingOld(width: int, height: int, back: Canvas, vp: Viewport)
    ensures NothingOld(Blank(width, height), back, vp)
  {
  }

  lemma FlipAddsNothingOld(target: Canvas, back: Canvas, vp: Viewport, d: Bounds)
    requires NothingOld(target, back, vp)
    ensures NothingOld(Flipped(target, back, vp, d), back, vp)
  {
    var (x, vx, w) := Window(d.left, d.right, vp.x, vp.w);
    var (y, vy, h) := Window(d.top, d.bottom, vp.y, vp.h);
    forall i, j | 0 <= i < vp.w && 0 <= j < vp.h && Look(back, vp.x + i, vp.y + j).Clear?
      ensures Look(Flipped(target, back, vp, d), i, j).Clear?
    {
      assert x + i - vx == vp.x + i && y + j - vy == vp.y + j;
      assert Look(target, i, j).Clear?;
    }
  }

  lemma FlippedInStep(target: Canvas, back: Canvas, vp: Viewport, d: Bounds)
    requires target.width == vp.w && target.height == vp.h && InStep(target, back, vp, d)
    ensures InStep(Flipped(target, back, vp, d), back, vp, NO_DAMAGE)
  {
    forall i, j | 0 <= i < vp.w && 0 <= j < vp.h
      ensures PixelInStep(Flipped(target, back, vp, d), back, vp, i, j)
    {
      FlippedAt(target, back, vp, d, i, j);
    }
  }

  lemma FullDamageInStep(target: Canvas, back: Canvas, vp: Viewport, d: Bounds)
    ensures InStep(target, back, vp, Grow(d, vp.x, vp.y, vp.w, vp.h))
  {
  }

  lemma ResizeKeepsInStep(target: Canvas, back: Canvas, vp: Viewport, d: Bounds, width: nat, height: nat)
    requires InStep(target, back, vp, d)
    ensures InStep(target, Resized(back, width, height), vp, d)
  {
    forall i, j | 0 <= i < vp.w && 0 <= j < vp.h && !Within(d, vp.x + i, vp.y + j)
      ensures PixelInStep(target, Resized(back, width, height), vp, i, j)
    {
      assert PixelInStep(target, back, vp, i, j);
    }
  }

  // ---------- Viewport arithmetic ----------

  /** The two axes of viewportChangePos; the horizontal one has an extra guard. */
  function MovedX(pos: int, size: int, delta: int, fb: int): int {
    var d := if delta < 0 && pos + delta < 0 then -pos else delta;
    if pos + size - 1 + d >= fb then fb - size else pos + d
  }

  function MovedY(pos: int, size: int, delta: int, fb: int): int {
    var d := if pos + delta < 0 then -pos else delta;
    if pos + size - 1 + d >= fb then fb - size else pos + d
  }

  function Moved(vp: Viewport, clip: bool, deltaX: int, deltaY: int, fbWidth: int, fbHeight: int): Viewport {
    vp.(x := MovedX(vp.x, vp.w, if clip then deltaX else -vp.w, fbWidth),
        y := MovedY(vp.y, vp.h, if clip then deltaY else -vp.h, fbHeight))
  }

  predicate Fits(vp: Viewport, fbWidth: int, fbHeight: int) {
    0 <= vp.x && vp.x + vp.w <= fbWidth && 0 <= vp.y && vp.y + vp.h <= fbHeight
  }

  /** A move ends inside the framebuffer exactly when the viewport is no larger than it and
      is not left of it unless moved left. */
  lemma MoveFits(vp: Viewport, clip: bool, deltaX: int, deltaY: int, fbWidth: nat, fbHeight: nat)
    ensures Fits(Moved(vp, clip, deltaX, deltaY, fbWidth, fbHeight), fbWidth, fbHeight) <==>
            && vp.w <= fbWidth && vp.h <= fbHeight
            && !((if clip then deltaX else -vp.w) >= 0 && vp.x + (if clip then deltaX else -vp.w) < 0)
  {
  }

  lemma MovedStaysInside(vp: Viewport, clip: bool, deltaX: int, deltaY: int, fbWidth: nat, fbHeight: nat)
    ensures var m := Moved(vp, clip, deltaX, deltaY, fbWidth, fbHeight);
            && m.w == vp.w && m.h == vp.h
            && (InFramebuffer(vp, clip, fbWidth, fbHeight) ==> InFramebuffer(m, clip, fbWidth, fbHeight))
  {
  }

  /** With clipping a viewport that is inside goes where it is moved, as far as the framebuffer
      reaches: no further than its left and top edges, and no further than its right and bottom ones. */
  lemma MoveGoesThere(vp: Viewport, deltaX: int, deltaY: int, fbWidth: nat, fbHeight: nat)
    requires Fits(vp, fbWidth, fbHeight)
    ensures var x, y := vp.x + deltaX, vp.y + deltaY;
            var there := Viewport(if x < 0 then 0 else if x + vp.w > fbWidth then fbWidth - vp.w else x,
                                  if y < 0 then 0 else if y + vp.h > fbHeight then fbHeight - vp.h else y,
                                  vp.w, vp.h);
            Moved(vp, true, deltaX, deltaY, fbWidth, fbHeight) == there
  {
  }

  /** One length of the viewport as viewportChangeSize limits it; without clipping, all there is. */
  function Limited(length: int, clip: bool, fb: int): int {
    if clip then Min(length, fb) else fb
  }

  /** A change of size; the viewport is then kept inside as moves keep it. */
  function Sized(vp: Viewport, clip: bool, w: int, h: int, fbWidth: int, fbHeight: int): Viewport {
    if vp.w == w && vp.h == h then vp else Moved(vp.(w := w, h := h), clip, 0, 0, fbWidth, fbHeight)
  }

  /** Sized and moved again, as after a change of clipping or of the framebuffer. */
  function Refitted(vp: Viewport, clip: bool, fbWidth: int, fbHeight: int): Viewport {
    var sized := Sized(vp, clip, Limited(vp.w, clip, fbWidth), Limited(vp.h, clip, fbHeight), fbWidth, fbHeight);
    Moved(sized, clip, 0, 0, fbWidth, fbHeight)
  }

  /** Inside the framebuffer and, without clipping, all of it. */
  predicate InFramebuffer(vp: Viewport, clip: bool, fbWidth: int, fbHeight: int) {
    Fits(vp, fbWidth, fbHeight) && (!clip ==> vp == Viewport(0, 0, fbWidth, fbHeight))
  }

  /** A change of clipping or framebuffer ends inside exactly when the viewport was not left of
      the framebuffer, or clipping is off and the framebuffer has a width. */
  lemma RefittedFits(vp: Viewport, clip: bool, fbWidth: nat, fbHeight: nat)
    requires vp.w >= 0 && vp.h >= 0
    ensures InFramebuffer(Refitted(vp, clip, fbWidth, fbHeight), clip, fbWidth, fbHeight)
            <==> vp.x >= 0 || (!clip && fbWidth > 0)
  {
  }

  /** With clipping the viewport keeps its place and size when clipping or framebuffer change, but
      for what the framebuffer has no room for. */
  lemma RefittedKeepsPlace(vp: Viewport, fbWidth: nat, fbHeight: nat)
    requires vp.x >= 0 && vp.y >= 0 && vp.w >= 0 && vp.h >= 0
    ensures var w := if vp.w < fbWidth then vp.w else fbWidth;
            var h := if vp.h < fbHeight then vp.h else fbHeight;
            var place := Viewport(if vp.x + w <= fbWidth then vp.x else fbWidth - w,
                                  if vp.y + h <= fbHeight then vp.y else fbHeight - h, w, h);
            Refitted(vp, true, fbWidth, fbHeight) == place
  {
  }

  /** The same for a size asked for, when it is a new one. */
  lemma SizedKeepsPlace(vp: Viewport, width: nat, height: nat, fbWidth: nat, fbHeight: nat)
    requires vp.x >= 0 && vp.y >= 0
    ensures var w := if width < fbWidth then width else fbWidth;
            var h := if height < fbHeight then height else fbHeight;
            var place := Viewport(if vp.x + w <= fbWidth then vp.x else fbWidth - w,
                                  if vp.y + h <= fbHeight then vp.y else fbHeight - h, w, h);
            && Limited(width, true, fbWidth) == w && Limited(height, true, fbHeight) == h
            && (vp.w != w || vp.h != h ==> Sized(vp, true, w, h, fbWidth, fbHeight) == place)
  {
  }

  /** A change of size ends inside exactly when nothing changes inside, or when the viewport was
      not left of the framebuffer, or clipping is off and the framebuffer has a width. */
  lemma SizedFits(vp: Viewport, clip: bool, w: nat, h: nat, fbWidth: nat, fbHeight: nat)
    ensures var w1, h1 := Limited(w, clip, fbWidth), Limited(h, clip, fbHeight);
            InFramebuffer(Sized(vp, clip, w1, h1, fbWidth, fbHeight), clip, fbWidth, fbHeight)
            <==> if vp.w == w1 && vp.h == h1 then InFramebuffer(vp, clip, fbWidth, fbHeight)
                 else vp.x >= 0 || (!clip && w1 > 0)
    ensures InFramebuffer(vp, clip, fbWidth, fbHeight) ==> vp.x >= 0
  {
  }

  // ---------- The display ----------

  /** The image has arrived and, unlike a video frame, must have the size announced. */
  predicate Executable(a: Action, ready: set<nat>) {
    match a
    case Img(id, picture, _, _, w, h) => id in ready && picture.width == w && picture.height == h
    case Frame(id, _, _, _, _, _) => id in ready
    case _ => true
  }

  /** A decoded image of the wrong size: the queue stops here for good. */
  predicate Missized(a: Action, ready: set<nat>) {
    a.Img? && a.id in ready && !Executable(a, ready)
  }

  /** How many queued actions can be carried out before one has to wait. */
  function ReadyPrefix(q: seq<Action>, ready: set<nat>): (k: nat)
    ensures k <= |q|
    ensures forall i :: 0 <= i < k ==> Executable(q[i], ready)
    ensures k < |q| ==> !Executable(q[k], ready)
  {
    if q == [] || !Executable(q[0], ready) then 0 else 1 + ReadyPrefix(q[1..], ready)
  }

  class Display {
    var fbWidth: nat
    var fbHeight: nat
    var clipViewport: bool
    var viewportLoc: Viewport
    var damageBounds: Bounds
    /** The visible canvas and the backbuffer. */
    var target: Canvas
    var back: Canvas

    var renderQ: seq<Action>
    /** The browser's side: images decoded so far, and load events someone waits for. */
    var ready: set<nat>
    var waiting: set<nat>
    var nextId: nat

    /** Flush promises are numbered; flushPromise is the one not yet resolved. */
    var flushPromise: Option<nat>
    var promises: nat
    var resolved: set<nat>

    /** The backbuffer at the last resize, the requests since then (with those already
        waiting at that time), and the requests carried out since then. */
    ghost var start: Canvas
    ghost var issued: seq<Action>
    ghost var executed: seq<Action>

    /** Requests are carried out exactly once, in the order issued. */
    ghost predicate Refines()
      reads `issued, `executed, `renderQ, `back, `start
    {
      && issued == executed + renderQ
      && back == PerformAll(executed, start)
    }

    /** An empty queue waits for nothing; otherwise the head is an image for which exactly
        one wake-up is registered, unless the head is an image of the wrong size. */
    ghost predicate Idle()
      reads `renderQ, `waiting, `ready
    {
      if renderQ == [] then waiting == {}
      else
        && (renderQ[0].Img? || renderQ[0].Frame?)
        && (waiting == {renderQ[0].id} || (waiting == {} && Missized(renderQ[0], ready)))
    }

    ghost predicate IdsKnown()
      reads `renderQ, `nextId
    {
      forall k :: 0 <= k < |renderQ| && (renderQ[k].Img? || renderQ[k].Frame?) ==> renderQ[k].id < nextId
    }

    /** Every promise handed out is resolved, but for the current one, which the queue keeps open. */
    ghost predicate Promises()
      reads `flushPromise, `promises, `resolved, `renderQ
    {
      && (flushPromise.Some? ==> flushPromise.value < promises && renderQ != [])
      && (forall p :: p in resolved <==> 0 <= p < promises && Some(p) != flushPromise)
    }

    ghost predicate ValidQueue()
      reads this
    {
      && Refines() && Idle() && IdsKnown() && Promises()
      && viewportLoc.w >= 0 && viewportLoc.h >= 0
      && target.width == viewportLoc.w && target.height == viewportLoc.h
    }

    ghost predicate Valid()
      reads this
    {
      ValidQueue() && InStep(target, back, viewportLoc, damageBounds)
    }

    ghost predicate Inside()
      reads this
    {
      InFramebuffer(viewportLoc, clipViewport, fbWidth, fbHeight)
    }

    /** A fresh backbuffer canvas is 300 by 150. */
    constructor (targetWidth: nat, targetHeight: nat)
      ensures Valid() && issued == [] && renderQ == [] && ready == {} && back == start == Blank(300, 150)
      ensures fbWidth == 0 && fbHeight == 0 && !clipViewport
      ensures viewportLoc == Viewport(0, 0, targetWidth, targetHeight)
      ensures targetWidth == 0 && targetHeight == 0 ==> Inside()
    {
      fbWidth, fbHeight, clipViewport := 0, 0, false;
      viewportLoc := Viewport(0, 0, targetWidth, targetHeight);
      damageBounds := Bounds(0, 0, 300, 150);
      target, back := Blank(targetWidth, targetHeight), Blank(300, 150);
      renderQ, ready, waiting, nextId := [], {}, {}, 0;
      flushPromise, promises, resolved := None, 0, {};
      start, issued, executed := Blank(300, 150), [], [];
    }

    // ---------- Drawing ----------

    method Damage(x: int, y: int, w: int, h: int)
      modifies `damageBounds
      ensures damageBounds == Grow(old(damageBounds), x, y, w, h)
    {
      if x < damageBounds.left {
        damageBounds := damageBounds.(left := x);
      }
      if y < damageBounds.top {
        damageBounds := damageBounds.(top := y);
      }
      if x + w > damageBounds.right {
        damageBounds := damageBounds.(right := x + w);
      }
      if y + h > damageBounds.bottom {
        damageBounds := damageBounds.(bottom := y + h);
      }
    }

    /** The part of flip that draws. */
    method FlipNow()
      modifies `target, `damageBounds
      ensures target == Flipped(old(target), back, viewportLoc, old(damageBounds))
      ensures damageBounds == NO_DAMAGE
    {
      var x := damageBounds.left;
      var y := damageBounds.top;
      var w := damageBounds.right - x;
      var h := damageBounds.bottom - y;
      var vx := x - viewportLoc.x;
      var vy := y - viewportLoc.y;
      if vx < 0 {
        w := w + vx;
        x := x - vx;
        vx := 0;
      }
      if vy < 0 {
        h := h + vy;
        y := y - vy;
        vy := 0;
      }
      if vx + w > viewportLoc.w {
        w := viewportLoc.w - vx;
      }
      if vy + h > viewportLoc.h {
        h := viewportLoc.h - vy;
      }
      if w > 0 && h > 0 {
        target := Draw(target, back, x, y, w, h, vx, vy);
      }
      damageBounds := NO_DAMAGE;
    }

    /** The drawing branch of flip, fillRect, copyImage, blitImage and drawImage. */
    method Paint(a: Action)
      requires InStep(target, back, viewportLoc, damageBounds)
      requires target.width == viewportLoc.w && target.height == viewportLoc.h
      modifies `target, `back, `damageBounds
      ensures back == Perform(a, old(back)) && damageBounds == DamageOf(a, old(damageBounds))
      ensures target == if a.Flip? then Flipped(old(target), back, viewportLoc, old(damageBounds)) else old(target)
      ensures InStep(target, back, viewportLoc, damageBounds)
      ensures target.width == viewportLoc.w && target.height == viewportLoc.h
    {
      if a.Flip? {
        FlippedInStep(target, back, viewportLoc, damageBounds);
        FlipNow();
        return;
      }
      PerformKeepsInStep(a, target, back, viewportLoc, damageBounds);
      back := Perform(a, back);
      match a {
        case Copy(_, _, x, y, w, h) => Damage(x, y, w, h);
        case FillRect(x, y, w, h, _) => Damage(x, y, w, h);
        case Blit(x, y, data) => Damage(x, y, data.width, data.height);
        case Img(_, picture, x, y, _, _) => Damage(x, y, picture.width, picture.height);
        case Frame(_, _, x, y, w, h) => Damage(x, y, w, h);
      }
    }

    /** flip, fillRect, copyImage and blitImage: drawn at once on an empty queue, else queued. */
    method Request(a: Action)
      requires Valid() && !a.Img? && !a.Frame?
      modifies `target, `back, `damageBounds, `renderQ, `issued, `executed
      ensures Valid() && issued == old(issued) + [a]
      ensures old(renderQ) == [] ==> forall x, y :: Look(back, x, y) == PixelAfter([a], old(back), x, y)
      ensures if old(renderQ) == [] then
                renderQ == [] && back == Perform(a, old(back)) && damageBounds == DamageOf(a, old(damageBounds))
                && target == if a.Flip? then Flipped(old(target), back, viewportLoc, old(damageBounds)) else old(target)
              else
                renderQ == old(renderQ) + [a] && back == old(back) && target == old(target)
                && damageBounds == old(damageBounds)
    {
      hide InStep, PerformAll, Perform, Flipped, DamageOf;
      issued := issued + [a];
      if renderQ != [] {
        renderQ := renderQ + [a];
      } else {
        PerformOneMore(executed, a, start);
        OneIsDrawn(a, back);
        Paint(a);
        executed := executed + [a];
      }
    }

    /** buffer is all of the ArrayBuffer that the caller's view is part of, and start the place the
        view (byteOffset) and the offset lead to. A blit drawn at once starts there; a queued one
        takes its pixels from the front of the buffer. */
    method BlitImage(x: int, y: int, width: nat, height: nat, buffer: seq<int>, start: nat)
      requires Valid()
      modifies `target, `back, `damageBounds, `renderQ, `issued, `executed
      ensures Valid()
      ensures var a := Blit(x, y, Picture(buffer, if old(renderQ) == [] then start else 0, width, height));
              && issued == old(issued) + [a]
              && if old(renderQ) == [] then renderQ == [] && back == Perform(a, old(back))
                 else renderQ == old(renderQ) + [a] && back == old(back)
      ensures back.width == old(back.width) && back.height == old(back.height)
      ensures old(renderQ) == [] ==> forall px, py ::
                && x <= px < x + width && y <= py < y + height && 0 <= px < back.width && 0 <= py < back.height
                && 0 <= start + (py - y) * width + (px - x) < |buffer|
                ==> Look(back, px, py) == Solid(buffer[start + (py - y) * width + (px - x)])
    {
      BlitDraws(x, y, width, height, buffer, start, back);
      hide InStep, Perform, Refines, Idle, Promises, IdsKnown;
      if renderQ != [] {
        Request(Blit(x, y, Picture(buffer, 0, width, height)));
      } else {
        Request(Blit(x, y, Picture(buffer, start, width, height)));
      }
    }

    method ImageRect(x: int, y: int, width: nat, height: nat, picture: Canvas) returns (id: nat)
      requires Valid()
      modifies this
      ensures Valid() && start == old(start) && UnchangedView()
      ensures id == old(nextId)
      ensures var a := Img(id, picture, x, y, width, height);
              var drawn := old(renderQ) == [] && id in ready && picture.width == width && picture.height == height;
              if width == 0 || height == 0 then issued == old(issued) && renderQ == old(renderQ) && back == old(back)
              else
                && issued == old(issued) + [a]
                && renderQ == (if drawn then [] else old(renderQ) + [a])
                && (drawn ==> forall px, py :: Look(back, px, py) == PixelAfter([a], old(back), px, py))
      ensures ready == old(ready)
    {
      hide Perform, PixelAfter, InStep, PerformAll, Refines, Idle, Promises;
      id := nextId;
      if width == 0 || height == 0 {
        return;
      }
      nextId := nextId + 1;
      RenderQPush(Img(id, picture, x, y, width, height));
    }

    method VideoFrame(x: int, y: int, width: nat, height: nat, picture: Canvas) returns (id: nat)
      requires Valid()
      modifies this
      ensures Valid() && start == old(start) && UnchangedView()
      ensures var a := Frame(id, picture, x, y, width, height);
              && id == old(nextId) && issued == old(issued) + [a]
              && renderQ == (if old(renderQ) == [] && id in ready then [] else old(renderQ) + [a])
              && (renderQ == [] ==> forall px, py :: Look(back, px, py) == PixelAfter([a], old(back), px, py))
      ensures ready == old(ready)
    {
      hide Perform, PixelAfter, InStep, PerformAll, Refines, Idle, Promises;
      id := nextId;
      nextId := nextId + 1;
      RenderQPush(Frame(id, picture, x, y, width, height));
    }

    twostate predicate UnchangedView()
      reads this
    {
      && viewportLoc == old(viewportLoc) && clipViewport == old(clipViewport)
      && fbWidth == old(fbWidth) && fbHeight == old(fbHeight)
    }

    method RenderQPush(a: Action)
      requires Valid() && (a.Img? || a.Frame?) && a.id < nextId
      modifies `target, `back, `damageBounds, `renderQ, `issued, `executed, `waiting, `flushPromise, `resolved
      ensures Valid() && issued == old(issued) + [a]
      ensures renderQ == if old(renderQ) == [] && Executable(a, ready) then [] else old(renderQ) + [a]
      ensures renderQ == [] ==> forall px, py :: Look(back, px, py) == PixelAfter([a], old(back), px, py)
    {
      hide InStep, PerformAll, Perform, PixelAfter;
      ghost var was, done := back, executed;
      issued := issued + [a];
      renderQ := renderQ + [a];
      if |renderQ| == 1 {
        ScanRenderQ();
      }
      if renderQ == [] {
        assert executed == done + [a];
        PerformOneMore(done, a, start);
        OneIsDrawn(a, was);
      }
    }

    /** The head of the queue is drawn and shifted out. */
    method ExecuteHead()
      requires renderQ != [] && Refines() && InStep(target, back, viewportLoc, damageBounds)
      requires target.width == viewportLoc.w && target.height == viewportLoc.h
      modifies `target, `back, `damageBounds, `renderQ, `executed
      ensures Refines() && InStep(target, back, viewportLoc, damageBounds)
      ensures target.width == viewportLoc.w && target.height == viewportLoc.h
      ensures renderQ == old(renderQ)[1..] && executed == old(executed) + [old(renderQ)[0]]
    {
      hide InStep, PerformAll, Perform, Flipped, DamageOf;
      var a := renderQ[0];
      PerformOneMore(executed, a, start);
      Paint(a);
      executed := executed + [a];
      renderQ := renderQ[1..];
    }

    /** Carry out the longest prefix of the queue that is ready, then wait or resolve. */
    method ScanRenderQ()
      requires Refines() && IdsKnown() && Promises() && waiting == {}
      requires target.width == viewportLoc.w && target.height == viewportLoc.h
      requires viewportLoc.w >= 0 && viewportLoc.h >= 0
      requires InStep(target, back, viewportLoc, damageBounds)
      modifies `target, `back, `damageBounds, `renderQ, `executed, `waiting, `flushPromise, `resolved
      ensures Valid()
      ensures var k := ReadyPrefix(old(renderQ), ready);
              renderQ == old(renderQ)[k..] && executed == old(executed) + old(renderQ)[..k]
      ensures renderQ != [] ==>
                var a := renderQ[0];
                && (a.Img? || a.Frame?)
                && (a.id !in ready || (a.Img? && !(a.picture.width == a.width && a.picture.height == a.height)))
      ensures forall i :: 0 <= i < |old(renderQ)| - |renderQ| ==>
                var a := old(renderQ)[i];
                && (a.Img? ==> a.id in ready && a.picture.width == a.width && a.picture.height == a.height)
                && (a.Frame? ==> a.id in ready)
      ensures renderQ == [] ==>
                flushPromise == None && (old(flushPromise).Some? ==> old(flushPromise).value in resolved)
      ensures renderQ != [] ==> flushPromise == old(flushPromise) && resolved == old(resolved)
    {
      hide InStep, Refines, ReadyPrefix;
      ghost var k := 0;
      ghost var q := renderQ;
      var isReady := true;
      while isReady && |renderQ| > 0
        invariant flushPromise == old(flushPromise) && resolved == old(resolved) && IdsKnown()
        invariant k <= |q| && renderQ == q[k..] && executed == old(executed) + q[..k]
        invariant forall i :: 0 <= i < k ==> Executable(q[i], ready)
        invariant Refines() && InStep(target, back, viewportLoc, damageBounds)
        invariant target.width == viewportLoc.w && target.height == viewportLoc.h
        invariant isReady ==> waiting == {}
        invariant !isReady ==> renderQ != [] && !Executable(renderQ[0], ready) && Idle()
        decreases isReady, |renderQ|
      {
        var a := renderQ[0];
        if a.Img? && a.id in ready && !(a.picture.width == a.width && a.picture.height == a.height) {
          PrefixIs(q, ready, k);
          return;
        }
        if (a.Img? || a.Frame?) && a.id !in ready {
          waiting := waiting + {a.id};
          isReady := false;
        } else {
          ExecuteHead();
          assert q[..k] + [q[k]] == q[..k + 1];
          k := k + 1;
        }
      }
      PrefixIs(q, ready, k);
      if renderQ == [] && flushPromise.Some? {
        resolved := resolved + {flushPromise.value};
        flushPromise := None;
      }
    }

    /** The browser has decoded an image or a frame. */
    method BecomeReady(id: nat)
      requires Valid()
      modifies `ready
      ensures Valid() && ready == old(ready) + {id}
    {
      ready := ready + {id};
    }

    /** _resumeRenderQ and the frame promise: a load event someone waits for is delivered. */
    method WakeUp(id: nat)
      requires Valid() && id in waiting && id in ready
      modifies `target, `back, `damageBounds, `renderQ, `executed, `waiting, `flushPromise, `resolved
      ensures Valid() && issued == old(issued) && start == old(start)
      ensures renderQ == old(renderQ)[ReadyPrefix(old(renderQ), ready)..]
      ensures (forall a <- old(renderQ) ::
                 && (a.Img? ==> a.id in ready && a.picture.width == a.width && a.picture.height == a.height)
                 && (a.Frame? ==> a.id in ready)) ==> renderQ == []
      ensures renderQ == [] ==>
                && back == PerformAll(issued, start)
                && forall x, y :: Look(back, x, y) == PixelAfter(issued, start, x, y)
    {
      hide PixelAfter, Perform, InStep, PerformAll;
      waiting := waiting - {id};
      ghost var q := renderQ;
      ScanRenderQ();
      if renderQ == [] {
        assert issued == executed + [] == executed;
        AllAreDrawn(issued, start);
      }
    }

    /** flush: nothing to wait for, or the promise all callers share until the queue drains. */
    method Flush() returns (promise: Option<nat>)
      requires Valid()
      modifies `flushPromise, `promises
      ensures Valid()
      ensures promise == None <==> renderQ == []
      ensures promise.Some? ==> promise == flushPromise && promise.value !in resolved
      ensures old(flushPromise).Some? ==> promise == old(flushPromise)
    {
      if renderQ == [] {
        return None;
      }
      if flushPromise == None {
        flushPromise := Some(promises);
        promises := promises + 1;
      }
      return flushPromise;
    }

    // ---------- Viewport and size ----------

    /** Needs no pixel in step: a move damages everything, and no move changes nothing. */
    method ViewportChangePos(deltaX: real, deltaY: real)
      requires ValidQueue()
      modifies `viewportLoc, `target, `back, `damageBounds, `renderQ, `issued, `executed
      ensures ValidQueue() && back == old(back)
      ensures viewportLoc == Moved(old(viewportLoc), clipViewport, deltaX.Floor, deltaY.Floor, fbWidth, fbHeight)
      ensures viewportLoc != old(viewportLoc) || old(Valid()) ==> Valid()
      ensures if viewportLoc == old(viewportLoc) then
                && target == old(target) && damageBounds == old(damageBounds)
                && renderQ == old(renderQ) && issued == old(issued)
              else Refreshed() && issued == old(issued) + [Flip]
      ensures start == old(start)
      ensures old(Inside()) ==> Inside()
      ensures clipViewport && old(Inside()) ==>
                var vp := old(viewportLoc);
                var x, y := vp.x + deltaX.Floor, vp.y + deltaY.Floor;
                && viewportLoc.w == vp.w && viewportLoc.h == vp.h
                && viewportLoc.x == (if x < 0 then 0 else if x + vp.w > fbWidth then fbWidth - vp.w else x)
                && viewportLoc.y == (if y < 0 then 0 else if y + vp.h > fbHeight then fbHeight - vp.h else y)
    {
      hide InStep, Flipped, Refines, Idle, Promises, IdsKnown, Moved;
      MovedStaysInside(viewportLoc, clipViewport, deltaX.Floor, deltaY.Floor, fbWidth, fbHeight);
      if clipViewport && Inside() {
        MoveGoesThere(viewportLoc, deltaX.Floor, deltaY.Floor, fbWidth, fbHeight);
      }
      var dx, dy := LimitMove(deltaX.Floor, deltaY.Floor);
      if dx == 0 && dy == 0 {
        return;
      }
      viewportLoc := viewportLoc.(x := viewportLoc.x + dx, y := viewportLoc.y + dy);
      RefreshViewport();
    }

    /** The move asked for, or, without clipping, all the way to the left and top; as far as the
        framebuffer reaches. */
    method LimitMove(deltaX: int, deltaY: int) returns (dx: int, dy: int)
      ensures viewportLoc.(x := viewportLoc.x + dx, y := viewportLoc.y + dy)
           == Moved(viewportLoc, clipViewport, deltaX, deltaY, fbWidth, fbHeight)
    {
      var vp := viewportLoc;
      dx, dy := deltaX, deltaY;
      if !clipViewport {
        dx, dy := -vp.w, -vp.h;
      }
      var vx2 := vp.x + vp.w - 1;
      var vy2 := vp.y + vp.h - 1;
      if dx < 0 && vp.x + dx < 0 {
        dx := -vp.x;
      }
      if vx2 + dx >= fbWidth {
        dx := dx - (vx2 + dx - fbWidth + 1);
      }
      if vp.y + dy < 0 {
        dy := -vp.y;
      }
      if vy2 + dy >= fbHeight {
        dy := dy - (vy2 + dy - fbHeight + 1);
      }
    }

    /** The whole viewport has been damaged and flipped, or the flip is queued. */
    twostate predicate Refreshed()
      reads this
    {
      var d := Grow(old(damageBounds), viewportLoc.x, viewportLoc.y, viewportLoc.w, viewportLoc.h);
      if old(renderQ) == [] then
        renderQ == [] && damageBounds == NO_DAMAGE && target == Flipped(old(target), back, viewportLoc, d)
      else
        renderQ == old(renderQ) + [Flip] && damageBounds == d && target == old(target)
    }

    /** Damage the whole viewport and flip. */
    method RefreshViewport()
      requires ValidQueue()
      modifies `target, `back, `damageBounds, `renderQ, `issued, `executed
      ensures Valid() && back == old(back) && issued == old(issued) + [Flip] && Refreshed()
      ensures old(renderQ) == [] ==> (Shows(target, back, viewportLoc) <==> old(NothingOld(target, back, viewportLoc)))
    {
      hide InStep, Flipped, Refines, Idle, Promises, IdsKnown, Shows, NothingOld;
      ghost var d := Grow(damageBounds, viewportLoc.x, viewportLoc.y, viewportLoc.w, viewportLoc.h);
      FullDamageInStep(target, back, viewportLoc, damageBounds);
      FlipShowsWindow(target, back, viewportLoc, d);
      Damage(viewportLoc.x, viewportLoc.y, viewportLoc.w, viewportLoc.h);
      Request(Flip);
    }

    /** The requested size, the full display without clipping, and never more than that. */
    method WantedSize(width: Option<real>, height: Option<real>) returns (w: int, h: int)
      requires (width.Some? ==> width.value >= 0.0) && (height.Some? ==> height.value >= 0.0)
      ensures 0 <= w <= fbWidth && 0 <= h <= fbHeight
      ensures var known := clipViewport && width.Some? && height.Some?;
              && w == Limited(if known then width.value.Floor else 0, known, fbWidth)
              && h == Limited(if known then height.value.Floor else 0, known, fbHeight)
    {
      w, h := fbWidth, fbHeight;
      if clipViewport && width.Some? && height.Some? {
        w, h := width.value.Floor, height.value.Floor;
      }
      if w > fbWidth {
        w := fbWidth;
      }
      if h > fbHeight {
        h := fbHeight;
      }
    }

    method ViewportChangeSize(width: Option<real>, height: Option<real>)
      requires Valid()
      requires (width.Some? ==> width.value >= 0.0) && (height.Some? ==> height.value >= 0.0)
      modifies `viewportLoc, `target, `back, `damageBounds, `renderQ, `issued, `executed
      ensures Valid() && back == old(back)
      ensures old(issued) <= issued && start == old(start)
      ensures var known := clipViewport && width.Some? && height.Some?;
              var w := Limited(if known then width.value.Floor else 0, known, fbWidth);
              var h := Limited(if known then height.value.Floor else 0, known, fbHeight);
              && viewportLoc == Sized(old(viewportLoc), clipViewport, w, h, fbWidth, fbHeight)
              && (if w == old(viewportLoc).w && h == old(viewportLoc).h then
                    target == old(target) && renderQ == old(renderQ) && issued == old(issued)
                  else (renderQ == [] ==> Shows(target, back, viewportLoc)))
              && (Inside() <==> if w == old(viewportLoc).w && h == old(viewportLoc).h then old(Inside())
                                else old(viewportLoc).x >= 0 || (!clipViewport && w > 0))
      ensures renderQ == [] <==> old(renderQ) == []
      ensures old(Inside()) ==> Inside()
      ensures clipViewport && width.Some? && height.Some? && old(viewportLoc).x >= 0 && old(viewportLoc).y >= 0 ==>
                var vp := old(viewportLoc);
                var w := if width.value.Floor < fbWidth then width.value.Floor else fbWidth;
                var h := if height.value.Floor < fbHeight then height.value.Floor else fbHeight;
                && viewportLoc.w == w && viewportLoc.h == h
                && (vp.w != w || vp.h != h ==>
                      && viewportLoc.x == (if vp.x + w <= fbWidth then vp.x else fbWidth - w)
                      && viewportLoc.y == (if vp.y + h <= fbHeight then vp.y else fbHeight - h))
    {
      hide InStep, Flipped, Refines, Idle, Promises, IdsKnown, Moved, InFramebuffer;
      if clipViewport && width.Some? && height.Some? && viewportLoc.x >= 0 && viewportLoc.y >= 0 {
        SizedKeepsPlace(viewportLoc, width.value.Floor, height.value.Floor, fbWidth, fbHeight);
      }
      var w, h := WantedSize(width, height);
      if clipViewport && width.Some? && height.Some? {
        SizedFits(viewportLoc, clipViewport, width.value.Floor, height.value.Floor, fbWidth, fbHeight);
      } else {
        SizedFits(viewportLoc, clipViewport, fbWidth, fbHeight, fbWidth, fbHeight);
      }
      if viewportLoc.w != w || viewportLoc.h != h {
        ResizeViewport(w, h);
      }
    }

    /** The visible canvas gets a new size, which empties it, and is drawn afresh. */
    method ResizeViewport(w: nat, h: nat)
      requires Valid()
      modifies `viewportLoc, `target, `back, `damageBounds, `renderQ, `issued, `executed
      ensures Valid() && back == old(back)
      ensures old(issued) <= issued && start == old(start)
      ensures viewportLoc == Moved(old(viewportLoc).(w := w, h := h), clipViewport, 0, 0, fbWidth, fbHeight)
      ensures renderQ == [] <==> old(renderQ) == []
      ensures renderQ == [] ==> Shows(target, back, viewportLoc)
    {
      hide InStep, Flipped, Refines, Idle, Promises, IdsKnown, Shows, NothingOld, Moved, InFramebuffer;
      viewportLoc := viewportLoc.(w := w, h := h);
      target := Blank(w, h);
      ghost var d, blank := damageBounds, target;
      ViewportChangePos(0.0, 0.0);
      BlankHasNothingOld(w, h, back, viewportLoc);
      FlipAddsNothingOld(blank, back, viewportLoc, Grow(d, viewportLoc.x, viewportLoc.y, viewportLoc.w, viewportLoc.h));
      RefreshViewport();
    }

    method SetClipViewport(clip: bool)
      requires Valid()
      modifies `clipViewport, `viewportLoc, `target, `back, `damageBounds, `renderQ, `issued, `executed
      ensures Valid() && back == old(back) && clipViewport == clip
      ensures viewportLoc == Refitted(old(viewportLoc), clip, fbWidth, fbHeight)
      ensures clipViewport && old(viewportLoc).x >= 0 && old(viewportLoc).y >= 0 ==>
                var vp := old(viewportLoc);
                var w := if vp.w < fbWidth then vp.w else fbWidth;
                var h := if vp.h < fbHeight then vp.h else fbHeight;
                && viewportLoc.w == w && viewportLoc.h == h
                && viewportLoc.x == (if vp.x + w <= fbWidth then vp.x else fbWidth - w)
                && viewportLoc.y == (if vp.y + h <= fbHeight then vp.y else fbHeight - h)
      ensures Inside() <==> old(viewportLoc).x >= 0 || (!clip && fbWidth > 0)
      ensures renderQ == [] <==> old(renderQ) == []
    {
      hide InStep, Flipped, PerformAll, Shows, Refines, Idle, IdsKnown, Promises, Moved, InFramebuffer;
      RefittedFits(viewportLoc, clip, fbWidth, fbHeight);
      if viewportLoc.x >= 0 && viewportLoc.y >= 0 {
        RefittedKeepsPlace(viewportLoc, fbWidth, fbHeight);
      }
      clipViewport := clip;
      ViewportChangeSize(Some(viewportLoc.w as real), Some(viewportLoc.h as real));
      ViewportChangePos(0.0, 0.0);
    }

    /** resize is never queued: what is waiting will be drawn on the resized backbuffer. */
    method Resize(width: nat, height: nat)
      requires Valid()
      modifies this
      ensures Valid() && fbWidth == width && fbHeight == height && clipViewport == old(clipViewport)
      ensures back == Resized(old(back), width, height) && start == back
      ensures old(renderQ) <= issued
      ensures viewportLoc == Refitted(old(viewportLoc), clipViewport, width, height)
      ensures clipViewport && old(viewportLoc).x >= 0 && old(viewportLoc).y >= 0 ==>
                var vp := old(viewportLoc);
                var w := if vp.w < fbWidth then vp.w else fbWidth;
                var h := if vp.h < fbHeight then vp.h else fbHeight;
                && viewportLoc.w == w && viewportLoc.h == h
                && viewportLoc.x == (if vp.x + w <= fbWidth then vp.x else fbWidth - w)
                && viewportLoc.y == (if vp.y + h <= fbHeight then vp.y else fbHeight - h)
      ensures Inside() <==> old(viewportLoc).x >= 0 || (!clipViewport && width > 0)
      ensures renderQ == [] <==> old(renderQ) == []
      ensures ready == old(ready) && flushPromise == old(flushPromise) && resolved == old(resolved)
    {
      hide InStep, Flipped, Shows, Refines, Idle, IdsKnown, Promises, Moved, InFramebuffer;
      RefittedFits(viewportLoc, clipViewport, width, height);
      if viewportLoc.x >= 0 && viewportLoc.y >= 0 {
        RefittedKeepsPlace(viewportLoc, width, height);
      }
      ResizeBack(width, height);
      ViewportChangeSize(Some(viewportLoc.w as real), Some(viewportLoc.h as real));
      ViewportChangePos(0.0, 0.0);
    }

    method ResizeBack(width: nat, height: nat)
      requires Valid()
      modifies `fbWidth, `fbHeight, `back, `start, `issued, `executed
      ensures Valid() && fbWidth == width && fbHeight == height
      ensures back == Resized(old(back), width, height) && start == back && issued == renderQ
    {
      hide InStep, CanvasModel.Resized, Idle, Promises, IdsKnown, PerformAll;
      fbWidth, fbHeight := width, height;
      ResizeKeepsInStep(target, back, viewportLoc, damageBounds, width, height);
      back := Resized(back, width, height);
      start, issued, executed := back, renderQ, [];
      StartsAt(start);
    }
  }

  // ---------- Two runs ----------

  /** A viewport can be outside: the first move on a display whose canvas has a size takes it to
      the left of the empty framebuffer, and neither clipping nor a resize brings it back. */
  method LeftOfFramebuffer() returns (d: Display)
    ensures fresh(d) && d.Valid() && d.clipViewport && d.fbWidth == 10 && d.fbHeight == 10
    ensures d.viewportLoc.x < 0 && !d.Inside()
  {
    d := new Display(5, 5);
    d.ViewportChangePos(0.0, 0.0);
    assert d.viewportLoc.x == -5;
    d.SetClipViewport(true);
    d.Resize(10, 10);
  }

  /** Any move to the left brings it back, as far as its size allows. */
  lemma LeftMoveReturns(vp: Viewport, deltaX: int, deltaY: int, fbWidth: nat, fbHeight: nat)
    requires vp.w <= fbWidth && vp.h <= fbHeight && deltaX < 0
    ensures Fits(Moved(vp, true, deltaX, deltaY, fbWidth, fbHeight), fbWidth, fbHeight)
  {
    MoveFits(vp, true, deltaX, deltaY, fbWidth, fbHeight);
  }

  /** A viewport of one pixel on a framebuffer of two, nothing drawn. */
  method OneOfTwo() returns (d: Display)
    ensures fresh(d) && d.Valid() && d.renderQ == [] && d.clipViewport && d.fbWidth == 2 && d.fbHeight == 1
    ensures d.viewportLoc == Viewport(0, 0, 1, 1)
    ensures Look(d.back, 1, 0) == Clear && d.back.width == 2 && d.back.height == 1
  {
    hide Display.Refines, Display.Idle, Display.Promises, Display.IdsKnown;
    hide InStep, Flipped, Shows, Look, CanvasModel.Resized;
    d := new Display(0, 0);
    d.Resize(2, 1);
    ResizedSize(Blank(300, 150), 2, 1);
    LookResized(Blank(300, 150), 2, 1, 1, 0);
    assert Look(Blank(300, 150), 1, 0) == Clear by { LookBlank(300, 150, 1, 0); }
    d.SetClipViewport(true);
    d.ViewportChangeSize(Some(1.0), Some(1.0));
  }

  /** Old pixels can show through: a viewport moved over pixels never drawn keeps what it showed. */
  method UndrawnKeepsOld() returns (d: Display)
    ensures fresh(d) && d.Valid() && d.renderQ == [] && d.viewportLoc == Viewport(1, 0, 1, 1)
    ensures Look(d.back, 1, 0) == Clear && Look(d.target, 0, 0) == Solid(7)
    ensures !Shows(d.target, d.back, d.viewportLoc)
  {
    hide Display.Refines, Display.Idle, Display.Promises, Display.IdsKnown, InStep, Flipped, Shows, Fill;
    d := OneOfTwo();
    LookFill(d.back, 0, 0, 1, 1, 7, 0, 0);
    LookFill(d.back, 0, 0, 1, 1, 7, 1, 0);
    d.Request(FillRect(0, 0, 1, 1, 7));
    FlippedAt(d.target, d.back, d.viewportLoc, d.damageBounds, 0, 0);
    d.Request(Flip);
    ghost var moved := Viewport(1, 0, 1, 1);
    FullDamageInStep(d.target, d.back, moved, d.damageBounds);
    FlippedAt(d.target, d.back, moved, Grow(d.damageBounds, 1, 0, 1, 1), 0, 0);
    d.ViewportChangePos(1.0, 0.0);
    OldShows(d.target, d.back, moved);
  }

  const FRONT_AND_ASKED: seq<int> := [1, 2]

  /** A run in which the queue draws something else than was asked for: behind an image that is not
      ready, a blit from the second pixel of a buffer is carried out from the first. */
  method QueuedBlitReadsFront() returns (d: Display, img: Action)
    ensures fresh(d) && d.Valid() && d.renderQ == []
    ensures d.issued == [img, Blit(1, 0, Picture(FRONT_AND_ASKED, 0, 1, 1))]
    ensures d.back == PerformAll(d.issued, d.start)
    ensures !SameLook(Picture(FRONT_AND_ASKED, 0, 1, 1), Picture(FRONT_AND_ASKED, 1, 1, 1))
  {
    hide Display.Refines, Display.Idle, Display.Promises, Display.IdsKnown, InStep, PerformAll, Perform, Picture;
    PicturesDiffer(FRONT_AND_ASKED, 0, 1);
    var picture := Blank(1, 1);
    d := new Display(0, 0);
    var id := d.ImageRect(0, 0, 1, 1, picture);
    img := Img(id, picture, 0, 0, 1, 1);
    d.BlitImage(1, 0, 1, 1, FRONT_AND_ASKED, 1);
    QueueWaits(d);
    d.BecomeReady(id);
    d.WakeUp(id);
  }

  /** A queue whose head is an image not yet ready has its wake-up registered. */
  lemma QueueWaits(d: Display)
    requires d.Valid() && d.renderQ != [] && d.renderQ[0].Img? && d.renderQ[0].id !in d.ready
    ensures d.waiting == {d.renderQ[0].id}
  {
  }

  lemma PicturesDiffer(buffer: seq<int>, i: nat, j: nat)
    requires i < |buffer| && j < |buffer| && buffer[i] != buffer[j]
    ensures !SameLook(Picture(buffer, i, 1, 1), Picture(buffer, j, 1, 1))
  {
    assert Look(Picture(buffer, i, 1, 1), 0, 0) == Solid(buffer[i]);
    assert Look(Picture(buffer, j, 1, 1), 0, 0) == Solid(buffer[j]);
  }

  lemma OldShows(target: Canvas, back: Canvas, vp: Viewport)
    requires vp.w > 0 && vp.h > 0 && Look(target, 0, 0) != Look(back, vp.x, vp.y)
    ensures !Shows(target, back, vp)
  {
    assert Look(target, 0, 0) != Look(back, vp.x + 0, vp.y + 0);
  }

  lemma PrefixIs(q: seq<Action>, ready: set<nat>, k: nat)
    requires k <= |q| && (forall i :: 0 <= i < k ==> Executable(q[i], ready))
    requires k < |q| ==> !Executable(q[k], ready)
    ensures ReadyPrefix(q, ready) == k
  {
  }
}
