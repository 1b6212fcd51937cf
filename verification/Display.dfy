/**
 Viewport and clean-rectangle tracking of the canvas display (novnc/include/display.js). The clean rectangle
 is an index over the canvas: it must name only pixels that really are on the canvas where they belong.
 */
module DisplayCanvas {
  import opened Common

  /** Colours are opaque; TRANSPARENT is what a cleared canvas holds and what drawing leaves alone. */
  const TRANSPARENT := -1
  const WHITE := 0xffffff

  datatype Box = Box(x: int, y: int, w: int, h: int) {
    predicate Has(px: int, py: int) {
      x <= px < x + w && y <= py < y + h
    }
  }

  /** Corners, both inclusive */
  datatype Clean = Clean(x1: int, y1: int, x2: int, y2: int) {
    predicate Has(px: int, py: int) {
      x1 <= px <= x2 && y1 <= py <= y2
    }
  }

  function Clamp(x: int, hi: int): int { if x < 0 then 0 else if x > hi then hi else x }

  // ----- the browser's canvas -----

  datatype Canvas = Canvas(w: nat, h: nat, pixel: (int, int) -> int) {
    predicate Has(x: int, y: int) {
      0 <= x < w && 0 <= y < h
    }
  }

  /** Setting the size clears the canvas. */
  function Blank(w: nat, h: nat): Canvas {
    Canvas(w, h, (x: int, y: int) => TRANSPARENT)
  }

  /** getImageData and putImageData of the part that fits both sizes, around a resize */
  function Resized(c: Canvas, w: nat, h: nat): Canvas {
    if w > 0 && h > 0 && c.w > 0 && c.h > 0 then
      Canvas(w, h, (x: int, y: int) => if x < Min(c.w, w) && y < Min(c.h, h) then c.pixel(x, y) else TRANSPARENT)
    else Blank(w, h)
  }

  /** Everything that was and still is on the canvas is kept, and the rest of it is empty. */
  lemma ResizedAt(c: Canvas, w: nat, h: nat, x: int, y: int)
    requires 0 <= x < w && 0 <= y < h
    ensures Resized(c, w, h).pixel(x, y) == if c.Has(x, y) then c.pixel(x, y) else TRANSPARENT
  {
    if c.w > 0 && c.h > 0 {
      assert Resized(c, w, h).pixel(x, y) ==
             if x < Min(c.w, w) && y < Min(c.h, h) then c.pixel(x, y) else TRANSPARENT;
    } else {
      assert Resized(c, w, h) == Blank(w, h);
    }
  }

  /**
   drawImage of the canvas onto itself, moved by (-dx, -dy): the source is read first, transparent pixels draw
   nothing.
   */
  function Shifted(c: Canvas, dx: int, dy: int): Canvas {
    Canvas(c.w, c.h, (x: int, y: int) =>
      if c.Has(x + dx, y + dy) && c.pixel(x + dx, y + dy) != TRANSPARENT then c.pixel(x + dx, y + dy)
          else c.pixel(x, y))
  }

  function Filled(c: Canvas, b: Box, color: int): Canvas {
    Canvas(c.w, c.h, (x: int, y: int) => if b.Has(x, y) then color else c.pixel(x, y))
  }

  /** One axis of the move: shift the picture, then paint the strip that came into view. */
  function MovedX(c: Canvas, dx: int): Canvas {
    if dx == 0 then c
    else Filled(Shifted(c, dx, 0), if dx < 0 then Box(0, 0, -dx, c.h) else Box(c.w - dx, 0, dx, c.h), WHITE)
  }

  function MovedY(c: Canvas, dy: int): Canvas {
    if dy == 0 then c
    else Filled(Shifted(c, 0, dy), if dy < 0 then Box(0, 0, c.w, -dy) else Box(0, c.h - dy, c.w, dy), WHITE)
  }

  lemma MovedSize(c: Canvas, dx: int, dy: int)
    ensures var m := MovedY(MovedX(c, dx), dy); m.w == c.w && m.h == c.h
  {
  }

  lemma MovedXKeeps(c: Canvas, dx: int, x: int, y: int)
    requires c.Has(x, y) && c.Has(x - dx, y) && c.pixel(x, y) != TRANSPARENT
    ensures var m := MovedX(c, dx); m.w == c.w && m.h == c.h && m.pixel(x - dx, y) == c.pixel(x, y)
  {
    if dx != 0 {
      var to := x - dx;
      assert Shifted(c, dx, 0).pixel(to, y) == c.pixel(to + dx, y + 0);
      var strip := if dx < 0 then Box(0, 0, -dx, c.h) else Box(c.w - dx, 0, dx, c.h);
      assert !strip.Has(to, y);
      assert Filled(Shifted(c, dx, 0), strip, WHITE).pixel(to, y) == Shifted(c, dx, 0).pixel(to, y);
    }
  }

  lemma MovedYKeeps(c: Canvas, dy: int, x: int, y: int)
    requires c.Has(x, y) && c.Has(x, y - dy) && c.pixel(x, y) != TRANSPARENT
    ensures var m := MovedY(c, dy); m.w == c.w && m.h == c.h && m.pixel(x, y - dy) == c.pixel(x, y)
  {
    if dy != 0 {
      var to := y - dy;
      assert Shifted(c, 0, dy).pixel(x, to) == c.pixel(x + 0, to + dy);
      var strip := if dy < 0 then Box(0, 0, c.w, -dy) else Box(0, c.h - dy, c.w, dy);
      assert !strip.Has(x, to);
      assert Filled(Shifted(c, 0, dy), strip, WHITE).pixel(x, to) == Shifted(c, 0, dy).pixel(x, to);
    }
  }

  /** A pixel that stays in view is where it should be after both moves. */
  lemma MovedKeeps(c: Canvas, dx: int, dy: int, x: int, y: int)
    requires c.Has(x, y) && c.Has(x - dx, y - dy) && c.pixel(x, y) != TRANSPARENT
    ensures var m := MovedY(MovedX(c, dx), dy);
            m.w == c.w && m.h == c.h && m.pixel(x - dx, y - dy) == c.pixel(x, y)
  {
    MovedXKeeps(c, dx, x, y);
    MovedYKeeps(MovedX(c, dx), dy, x - dx, y);
  }

  /** A pixel that was out of view before both moves is painted white. */
  lemma MovedExposes(c: Canvas, dx: int, dy: int, x: int, y: int)
    requires c.Has(x, y) && !c.Has(x + dx, y + dy)
    ensures MovedY(MovedX(c, dx), dy).pixel(x, y) == WHITE
  {
    var a := MovedX(c, dx);
    if 0 <= y + dy < c.h {
      var strip := if dx < 0 then Box(0, 0, -dx, c.h) else Box(c.w - dx, 0, dx, c.h);
      assert strip.Has(x, y) && strip.Has(x, y + dy);
      assert a.pixel(x, y) == WHITE && a.pixel(x, y + dy) == WHITE;
      if dy != 0 {
        assert Shifted(a, 0, dy).pixel(x, y) == WHITE by {
          assert a.pixel(x + 0, y + dy) == WHITE;
        }
      }
    } else {
      var strip := if dy < 0 then Box(0, 0, c.w, -dy) else Box(0, c.h - dy, c.w, dy);
      assert strip.Has(x, y);
    }
  }

  /** All viewports in the list contain the pixel. */
  ghost predicate InAll(seen: seq<Box>, px: int, py: int) {
    forall i :: 0 <= i < |seen| ==> seen[i].Has(px, py)
  }

  lemma InAllMore(seen: seq<Box>, b: Box, px: int, py: int)
    ensures InAll(seen + [b], px, py) <==> InAll(seen, px, py) && b.Has(px, py)
  {
    if InAll(seen + [b], px, py) {
      forall i | 0 <= i < |seen| ensures seen[i].Has(px, py) {
        assert (seen + [b])[i] == seen[i];
      }
      assert (seen + [b])[|seen|] == b;
    }
  }

  /** Every viewport pixel that was not in the former viewport is white. */
  ghost predicate ExposedWhite(was: Box, view: Box, canvas: Canvas) {
    forall px, py :: view.Has(px, py) && !was.Has(px, py) ==> canvas.pixel(px - view.x, py - view.y) == WHITE
  }

  lemma NothingExposed(v: Box, canvas: Canvas)
    ensures ExposedWhite(v, v, canvas)
  {
  }

  /** The canvas belongs to the viewport. */
  predicate Fits(canvas: Canvas, v: Box) {
    (canvas.w == v.w && canvas.h == v.h) || (v.w == 0 && v.h == 0)
  }

  lemma MoveExposes(v: Box, dx: int, dy: int, canvas: Canvas)
    requires Fits(canvas, v)
    ensures ExposedWhite(v, v.(x := v.x + dx, y := v.y + dy), MovedY(MovedX(canvas, dx), dy))
  {
    hide MovedX, MovedY;
    var v' := v.(x := v.x + dx, y := v.y + dy);
    forall px, py | v'.Has(px, py) && !v.Has(px, py)
      ensures MovedY(MovedX(canvas, dx), dy).pixel(px - v'.x, py - v'.y) == WHITE
    {
      MovedExposes(canvas, dx, dy, px - v'.x, py - v'.y);
    }
  }

  /** The viewports met on a change: one with the new size in the old place, one in the new place */
  function SeenAfter(seen: seq<Box>, was: Box, view: Box): seq<Box> {
    var sized := was.(w := view.w, h := view.h);
    seen + (if sized == was then [] else [sized]) + (if sized == view then [] else [view])
  }

  /** The clean rectangle is exactly the intersection of the viewports. */
  ghost predicate Intersection(clean: Clean, seen: seq<Box>) {
    forall px, py :: clean.Has(px, py) <==> InAll(seen, px, py)
  }

  /** Every clean pixel is on the canvas at its viewport-relative position. */
  ghost predicate OnCanvas(clean: Clean, view: Box, canvas: Canvas, drawn: (int, int) -> int) {
    forall px, py :: clean.Has(px, py) && drawn(px, py) != TRANSPARENT ==>
                       canvas.pixel(px - view.x, py - view.y) == drawn(px, py)
  }

  /** The clean rectangle cut to a viewport */
  function Cut(c: Clean, v: Box): Clean {
    Clean(Max(c.x1, v.x), Max(c.y1, v.y), Min(c.x2, v.x + v.w - 1), Min(c.y2, v.y + v.h - 1))
  }

  lemma CutIntersects(c: Clean, v: Box, seen: seq<Box>)
    requires Intersection(c, seen)
    ensures Intersection(Cut(c, v), seen + [v])
  {
    hide InAll;
    forall px, py
      ensures Cut(c, v).Has(px, py) <==> InAll(seen + [v], px, py)
    {
      InAllMore(seen, v, px, py);
      assert c.Has(px, py) <==> InAll(seen, px, py);
    }
  }

  /** The clean corners lie inside the viewport. */
  ghost predicate Nested(v: Box, c: Clean) {
    v.x <= c.x1 && c.x2 < v.x + v.w && v.y <= c.y1 && c.y2 < v.y + v.h
  }

  lemma ResizeKeeps(c: Clean, v: Box, w: nat, h: nat, canvas: Canvas, drawn: (int, int) -> int)
    requires Nested(v, c) && Fits(canvas, v) && OnCanvas(c, v, canvas, drawn)
    ensures var v' := v.(w := w, h := h); OnCanvas(Cut(c, v'), v', Resized(canvas, w, h), drawn)
  {
    var v' := v.(w := w, h := h);
    forall px, py | Cut(c, v').Has(px, py) && drawn(px, py) != TRANSPARENT
      ensures Resized(canvas, w, h).pixel(px - v'.x, py - v'.y) == drawn(px, py)
    {
      assert c.Has(px, py);
    }
  }

  lemma MoveKeeps(c: Clean, v: Box, dx: int, dy: int, canvas: Canvas, drawn: (int, int) -> int)
    requires Nested(v, c) && Fits(canvas, v) && OnCanvas(c, v, canvas, drawn)
    ensures var v' := v.(x := v.x + dx, y := v.y + dy);
            OnCanvas(Cut(c, v'), v', MovedY(MovedX(canvas, dx), dy), drawn)
  {
    hide MovedX, MovedY;
    var v' := v.(x := v.x + dx, y := v.y + dy);
    forall px, py | Cut(c, v').Has(px, py) && drawn(px, py) != TRANSPARENT
      ensures MovedY(MovedX(canvas, dx), dy).pixel(px - v'.x, py - v'.y) == drawn(px, py)
    {
      assert c.Has(px, py);
      MovedKeeps(canvas, dx, dy, px - v.x, py - v.y);
    }
  }

  lemma FillKeeps(c: Clean, v: Box, b: Box, color: int, canvas: Canvas, before: (int, int) -> int,
          after: (int, int) -> int)
    requires OnCanvas(c, v, canvas, before)
    requires forall px, py :: after(px, py) == if b.Has(px, py) then color else before(px, py)
    ensures OnCanvas(c, v, Filled(canvas, Box(b.x - v.x, b.y - v.y, b.w, b.h), color), after)
  {
    var box := Box(b.x - v.x, b.y - v.y, b.w, b.h);
    forall px, py | c.Has(px, py) && after(px, py) != TRANSPARENT
      ensures Filled(canvas, box, color).pixel(px - v.x, py - v.y) == after(px, py)
    {
      assert box.Has(px - v.x, py - v.y) <==> b.Has(px, py);
    }
  }

  /** Right after a reset the whole viewport is clean, and what is drawn is what is on the canvas. */
  lemma WholeViewClean(v: Box, canvas: Canvas, drawn: (int, int) -> int)
    requires forall px, py :: drawn(px, py) == canvas.pixel(px - v.x, py - v.y)
    ensures var c := Clean(v.x, v.y, v.x + v.w - 1, v.y + v.h - 1);
            && Intersection(c, [v]) && OnCanvas(c, v, canvas, drawn)
            && forall px, py :: c.Has(px, py) <==> v.Has(px, py)
  {
    forall px, py
      ensures InAll([v], px, py) <==> v.Has(px, py)
    {
      assert [v][0] == v;
    }
  }

  function CleanBox(c: Clean): Box {
    Box(c.x1, c.y1, c.x2 - c.x1 + 1, c.y2 - c.y1 + 1)
  }

  function When(b: bool, box: Box): seq<Box> { if b then [box] else [] }

  function DirtyBoxes(v: Box, c: Clean): seq<Box> {
    var vx2, vy2 := v.x + v.w - 1, v.y + v.h - 1;
    if c.x1 >= c.x2 || c.y1 >= c.y2 then [v]
    else
      When(v.x < c.x1, Box(v.x, v.y, c.x1 - v.x + 1, v.h)) +
      When(vx2 > c.x2, Box(c.x2 + 1, v.y, vx2 - c.x2, v.h)) +
      When(v.y < c.y1, Box(c.x1, v.y, c.x2 - c.x1 + 1, c.y1 - v.y)) +
      When(vy2 > c.y2, Box(c.x1, c.y2 + 1, c.x2 - c.x1 + 1, vy2 - c.y2))
  }

  class Display {
    var fbW: nat
    var fbH: nat
    var view: Box          // the viewport, in framebuffer coordinates
    var clean: Clean
    var canvas: Canvas
    const useViewport: bool
    ghost var seen: seq<Box>                 // every viewport since the last reset, intermediate sizes included
    // framebuffer pixels: what was on the canvas at the last reset, and drawn since
    ghost var drawn: (int, int) -> int

    /** The viewport is a box, the canvas has its size, and the clean corners lie inside it. */
    ghost predicate Shape()
      reads this
    {
      view.x >= 0 && view.y >= 0 && view.w >= 0 && view.h >= 0 && Fits(canvas, view) && Nested(view, clean)
    }

    ghost predicate InsideFramebuffer()
      reads this
    {
      view.x + view.w <= fbW && view.y + view.h <= fbH
    }

    ghost predicate Tracking()
      reads this
    {
      Shape() && Intersection(clean, seen) && OnCanvas(clean, view, canvas, drawn)
    }

    ghost predicate Valid()
      reads this
    {
      Tracking() && InsideFramebuffer()
    }

    constructor (canvas: Canvas, useViewport: bool)
      ensures Valid() && fbW == 0 && fbH == 0 && this.useViewport == useViewport
    {
      fbW, fbH, view, clean := 0, 0, Box(0, 0, 0, 0), Clean(0, 0, -1, -1);
      this.canvas, this.useViewport := canvas, useViewport;
      seen, drawn := [Box(0, 0, 0, 0)], canvas.pixel;
      new;
      assert forall px, py :: !seen[0].Has(px, py);
    }

    /** The size-change part of viewportChange */
    method ChangeSize(width: nat, height: nat)
      requires Tracking()
      modifies this`view, this`clean, this`canvas, this`seen
      ensures Tracking() && view == Box(old(view.x), old(view.y), width, height)
      ensures seen == if view == old(view) then old(seen) else old(seen) + [view]
    {
      hide Intersection, OnCanvas;
      if view.w != width || view.h != height {
        if width < view.w && clean.x2 > view.x + width - 1 {
          clean := clean.(x2 := view.x + width - 1);
        }
        view := view.(w := width);
        if height < view.h && clean.y2 > view.y + height - 1 {
          clean := clean.(y2 := view.y + height - 1);
        }
        view := view.(h := height);
        canvas := Resized(canvas, width, height);
        seen := seen + [view];
        CutIntersects(old(clean), view, old(seen));
        ResizeKeeps(old(clean), old(view), width, height, old(canvas), drawn);
      }
    }

    /** The position-change part of viewportChange, with the deltas already adjusted */
    method Move(dx: int, dy: int)
      requires Tracking() && view.x + dx >= 0 && view.y + dy >= 0
      modifies this`view, this`clean, this`canvas, this`seen
      ensures Tracking() && view == old(view).(x := old(view.x) + dx, y := old(view.y) + dy)
      ensures seen == if dx == 0 && dy == 0 then old(seen) else old(seen) + [view]
      ensures ExposedWhite(old(view), view, canvas)
    {
      hide Intersection, OnCanvas, ExposedWhite, MovedX, MovedY;
      if dx == 0 && dy == 0 {
        NothingExposed(view, canvas);
        return;
      }
      view := view.(x := view.x + dx, y := view.y + dy);
      var vx2, vy2 := view.x + view.w - 1, view.y + view.h - 1;
      if view.x > clean.x1 { clean := clean.(x1 := view.x); }
      if vx2 < clean.x2 { clean := clean.(x2 := vx2); }
      if view.y > clean.y1 { clean := clean.(y1 := view.y); }
      if vy2 < clean.y2 { clean := clean.(y2 := vy2); }
      canvas := MovedY(MovedX(canvas, dx), dy);
      seen := seen + [view];
      MovedSize(old(canvas), dx, dy);
      MoveExposes(old(view), dx, dy, old(canvas));
      CutIntersects(old(clean), view, old(seen));
      MoveKeeps(old(clean), old(view), dx, dy, old(canvas), drawn);
    }

    /** Size change and position change, the deltas pushed so that the viewport stays inside the framebuffer */
    method SizeAndMove(deltaX: int, deltaY: int, w: nat, h: nat)
      requires Tracking() && w <= fbW && h <= fbH
      modifies this`view, this`clean, this`canvas, this`seen
      ensures Valid()
      ensures view == Box(Clamp(old(view.x) + deltaX, fbW - w), Clamp(old(view.y) + deltaY, fbH - h), w, h)
      ensures seen == SeenAfter(old(seen), old(view), view)
      ensures ExposedWhite(old(view).(w := w, h := h), view, canvas)
    {
      hide Intersection, OnCanvas, ExposedWhite, Nested, Fits;
      ChangeSize(w, h);
      var dx, dy := deltaX, deltaY;
      var vx2, vy2 := view.x + view.w - 1, view.y + view.h - 1;
      if dx < 0 && view.x + dx < 0 {
        dx := -view.x;
      }
      if vx2 + dx >= fbW {
        dx := dx - (vx2 + dx - fbW + 1);
      }
      if view.y + dy < 0 {
        dy := -view.y;
      }
      if vy2 + dy >= fbH {
        dy := dy - (vy2 + dy - fbH + 1);
      }
      Move(dx, dy);
    }

    /** viewportChange: the new viewport is the requested one, cut to the framebuffer and pushed inside it. */
    method ViewportChange(deltaX: Option<int>, deltaY: Option<int>, width: Option<nat>, height: Option<nat>)
      requires Tracking()
      modifies this`view, this`clean, this`canvas, this`seen
      ensures Valid()
      ensures useViewport ==>
                && view.w == Min(if width.Some? then width.value else old(view.w), fbW)
                && view.h == Min(if height.Some? then height.value else old(view.h), fbH)
                && view.x == Clamp(old(view.x) + (if deltaX.Some? then deltaX.value else 0), fbW - view.w)
                && view.y == Clamp(old(view.y) + (if deltaY.Some? then deltaY.value else 0), fbH - view.h)
      ensures !useViewport ==> view == Box(0, 0, fbW, fbH)
      ensures seen == SeenAfter(old(seen), old(view), view)
      ensures ExposedWhite(old(view).(w := view.w, h := view.h), view, canvas)
    {
      hide Intersection, OnCanvas, ExposedWhite, Nested, Fits;
      var dx := if deltaX.Some? then deltaX.value else 0;
      var dy := if deltaY.Some? then deltaY.value else 0;
      var w := if width.Some? then width.value else view.w;
      var h := if height.Some? then height.value else view.h;
      if !useViewport {
        dx, dy, w, h := -view.w, -view.h, fbW, fbH;
      }
      if w > fbW { w := fbW; }
      if h > fbH { h := fbH; }
      SizeAndMove(dx, dy, w, h);
    }

    /** resize: a new framebuffer size, then the viewport is fitted into it. */
    method Resize(width: nat, height: nat)
      requires Valid()
      modifies this
      ensures Valid() && fbW == width && fbH == height && drawn == old(drawn)
      ensures !useViewport ==> view == Box(0, 0, width, height)
      ensures seen == SeenAfter(old(seen), old(view), view)
    {
      fbW, fbH := width, height;
      ViewportChange(None, None, None, None);
    }

    /** fillRect, in framebuffer coordinates */
    method FillRect(x: int, y: int, width: int, height: int, color: int)
      requires Valid() && color != TRANSPARENT
      modifies this`canvas, this`drawn
      ensures Valid()
      ensures forall px, py :: drawn(px, py) == if Box(x, y, width, height).Has(px, py) then color
              else old(drawn)(px, py)
      ensures canvas.w == old(canvas.w) && canvas.h == old(canvas.h)
      ensures forall cx, cy :: canvas.pixel(cx, cy) ==
                if Box(x, y, width, height).Has(cx + view.x, cy + view.y) then color else old(canvas).pixel(cx, cy)
    {
      hide Intersection, OnCanvas;
      ghost var before := drawn;
      canvas := Filled(canvas, Box(x - view.x, y - view.y, width, height), color);
      drawn := (px: int, py: int) => if Box(x, y, width, height).Has(px, py) then color else before(px, py);
      FillKeeps(clean, view, Box(x, y, width, height), color, old(canvas), before, drawn);
    }

    /** getCleanDirtyReset: tracking starts again from what is now on the canvas. */
    method GetCleanDirtyReset() returns (cleanBox: Box, dirtyBoxes: seq<Box>)
      requires Valid()
      modifies this`clean, this`seen, this`drawn
      ensures Valid() && seen == [view] && forall px, py :: clean.Has(px, py) <==> view.Has(px, py)
      ensures cleanBox == CleanBox(old(clean)) && dirtyBoxes == DirtyBoxes(view, old(clean))
      ensures forall px, py :: drawn(px, py) == canvas.pixel(px - view.x, py - view.y)
    {
      hide Intersection, OnCanvas, InAll;
      var v, c := view, clean;
      var vx2, vy2 := v.x + v.w - 1, v.y + v.h - 1;
      cleanBox := Box(c.x1, c.y1, c.x2 - c.x1 + 1, c.y2 - c.y1 + 1);
      dirtyBoxes := [];
      if c.x1 >= c.x2 || c.y1 >= c.y2 {
        dirtyBoxes := dirtyBoxes + [v];
      } else {
        if v.x < c.x1 {
          dirtyBoxes := dirtyBoxes + [Box(v.x, v.y, c.x1 - v.x + 1, v.h)];
        }
        if vx2 > c.x2 {
          dirtyBoxes := dirtyBoxes + [Box(c.x2 + 1, v.y, vx2 - c.x2, v.h)];
        }
        if v.y < c.y1 {
          dirtyBoxes := dirtyBoxes + [Box(c.x1, v.y, c.x2 - c.x1 + 1, c.y1 - v.y)];
        }
        if vy2 > c.y2 {
          dirtyBoxes := dirtyBoxes + [Box(c.x1, c.y2 + 1, c.x2 - c.x1 + 1, vy2 - c.y2)];
        }
      }
      clean := Clean(v.x, v.y, v.x + v.w - 1, v.y + v.h - 1);
      seen := [v];
      ghost var now := canvas.pixel;
      drawn := (px: int, py: int) => now(px - v.x, py - v.y);
      WholeViewClean(v, canvas, drawn);
    }
  }

  ghost predicate AnyHas(boxes: seq<Box>, px: int, py: int) {
    exists i :: 0 <= i < |boxes| && boxes[i].Has(px, py)
  }

  lemma AnyHasJoin(a: seq<Box>, b: seq<Box>, px: int, py: int)
    ensures AnyHas(a + b, px, py) <==> AnyHas(a, px, py) || AnyHas(b, px, py)
  {
    if AnyHas(a, px, py) {
      var i :| 0 <= i < |a| && a[i].Has(px, py);
      assert (a + b)[i] == a[i];
    }
    if AnyHas(b, px, py) {
      var i :| 0 <= i < |b| && b[i].Has(px, py);
      assert (a + b)[|a| + i] == b[i];
    }
    if AnyHas(a + b, px, py) {
      var i :| 0 <= i < |a + b| && (a + b)[i].Has(px, py);
      if i < |a| { assert a[i].Has(px, py); } else { assert b[i - |a|].Has(px, py); }
    }
  }

  lemma WhenHas(b: bool, box: Box, px: int, py: int)
    ensures AnyHas(When(b, box), px, py) <==> b && box.Has(px, py)
  {
    if b { assert When(b, box)[0] == box; }
  }

  lemma FourBoxes(p: bool, a: Box, q: bool, b: Box, r: bool, c: Box, s: bool, d: Box, px: int, py: int)
    ensures AnyHas(When(p, a) + When(q, b) + When(r, c) + When(s, d), px, py) <==>
            (p && a.Has(px, py)) || (q && b.Has(px, py)) || (r && c.Has(px, py)) || (s && d.Has(px, py))
  {
    hide AnyHas, When, Box.Has;
    AnyHasJoin(When(p, a) + When(q, b) + When(r, c), When(s, d), px, py);
    AnyHasJoin(When(p, a) + When(q, b), When(r, c), px, py);
    AnyHasJoin(When(p, a), When(q, b), px, py);
    WhenHas(p, a, px, py);
    WhenHas(q, b, px, py);
    WhenHas(r, c, px, py);
    WhenHas(s, d, px, py);
  }

  /** The four strips around a clean rectangle of at least two by two pixels */
  lemma StripsExactly(v: Box, c: Clean, px: int, py: int)
    requires Nested(v, c) && c.x1 < c.x2 && c.y1 < c.y2
    ensures var vx2, vy2 := v.x + v.w - 1, v.y + v.h - 1;
            (|| (v.x < c.x1 && Box(v.x, v.y, c.x1 - v.x + 1, v.h).Has(px, py))
             || (vx2 > c.x2 && Box(c.x2 + 1, v.y, vx2 - c.x2, v.h).Has(px, py))
             || (v.y < c.y1 && Box(c.x1, v.y, c.x2 - c.x1 + 1, c.y1 - v.y).Has(px, py))
             || (vy2 > c.y2 && Box(c.x1, c.y2 + 1, c.x2 - c.x1 + 1, vy2 - c.y2).Has(px, py))) <==>
            v.Has(px, py) && (!c.Has(px, py) || (v.x < c.x1 && px == c.x1))
  {
  }

  /**
   Which viewport pixels are reported dirty: all of them when the clean rectangle is less than two pixels
   wide or high, otherwise those that are not clean and, when the left strip is dirty, also the leftmost
   clean column, because that box is one column too wide.
   */
  lemma DirtyExactly(v: Box, c: Clean, px: int, py: int)
    requires Nested(v, c)
    ensures AnyHas(DirtyBoxes(v, c), px, py) <==>
            v.Has(px, py) && (c.x1 >= c.x2 || c.y1 >= c.y2 || !c.Has(px, py) || (v.x < c.x1 && px == c.x1))
  {
    var vx2, vy2 := v.x + v.w - 1, v.y + v.h - 1;
    if c.x1 >= c.x2 || c.y1 >= c.y2 {
      assert [v][0] == v;
    } else {
      hide AnyHas, When, Box.Has;
      var left, right := Box(v.x, v.y, c.x1 - v.x + 1, v.h), Box(c.x2 + 1, v.y, vx2 - c.x2, v.h);
      var top, bottom := Box(c.x1, v.y, c.x2 - c.x1 + 1, c.y1 - v.y), Box(c.x1, c.y2 + 1, c.x2 - c.x1 + 1, vy2 - c.y2);
      FourBoxes(v.x < c.x1, left, vx2 > c.x2, right, v.y < c.y1, top, vy2 > c.y2, bottom, px, py);
      StripsExactly(v, c, px, py);
    }
  }

  /** The clean box and the dirty boxes together are the viewport: nothing is missed and nothing lies outside. */
  lemma BoxesCover(v: Box, c: Clean, px: int, py: int)
    requires Nested(v, c)
    ensures CleanBox(c).Has(px, py) || AnyHas(DirtyBoxes(v, c), px, py) <==> v.Has(px, py)
  {
    DirtyExactly(v, c, px, py);
  }

  /**
   Clean and dirty are a partition exactly when nothing clean is redrawn: the clean rectangle is empty, or it
   is at least two pixels in both directions and touches the left edge of the viewport.
   */
  lemma PartitionIff(v: Box, c: Clean)
    requires Nested(v, c)
    ensures (forall px, py :: !(CleanBox(c).Has(px, py) && AnyHas(DirtyBoxes(v, c), px, py))) <==>
            c.x1 > c.x2 || c.y1 > c.y2 || (c.x1 < c.x2 && c.y1 < c.y2 && c.x1 == v.x)
  {
    forall px, py
      ensures AnyHas(DirtyBoxes(v, c), px, py) <==>
              v.Has(px, py) && (c.x1 >= c.x2 || c.y1 >= c.y2 || !c.Has(px, py) || (v.x < c.x1 && px == c.x1))
    {
      DirtyExactly(v, c, px, py);
    }
    hide DirtyBoxes, AnyHas;
    if !(c.x1 > c.x2 || c.y1 > c.y2 || (c.x1 < c.x2 && c.y1 < c.y2 && c.x1 == v.x)) {
      assert CleanBox(c).Has(c.x1, c.y1) && AnyHas(DirtyBoxes(v, c), c.x1, c.y1);
    }
  }
}
