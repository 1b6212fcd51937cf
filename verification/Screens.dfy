/**
 What the effects of the RFB parser mean as pixels (the drawing calls of novnc/include/display.js in true-colour
 mode, in framebuffer coordinates): a screen is a colour for every place, and an effect changes it.
 */
module Screens {
  import opened Common
  import opened Bits
  import opened RfbSpec

  datatype Shade = Shade(red: int, green: int, blue: int)

  type Screen = (int, int) -> Shade

  function Component(s: seq<int>, i: int): int {
    if 0 <= i < |s| then s[i] else UNDEFINED
  }

  /** Four bytes per pixel: blue, green, red, unused. Colours have the same order. */
  function Bgrx(s: seq<int>, i: int): Shade {
    Shade(Component(s, i + 2), Component(s, i + 1), Component(s, i))
  }

  /** Three bytes per pixel: red, green, blue */
  function Rgb3(s: seq<int>, i: int): Shade {
    Shade(Component(s, i), Component(s, i + 1), Component(s, i + 2))
  }

  predicate Inside(x: int, y: int, w: int, h: int, px: int, py: int) {
    x <= px < x + w && y <= py < y + h
  }

  /** A picture put on the screen at (x, y), clipped to w by h */
  function Put(x: int, y: int, w: int, h: int, picture: Screen, s: Screen): Screen {
    (px: int, py: int) => if Inside(x, y, w, h, px, py) then picture(px - x, py - y) else s(px, py)
  }

  /** startTile fills the tile, subTile paints over it, one after the other; subrectangles lie inside the tile. */
  function TilePixel(under: Shade, subs: seq<Sub>, i: int, j: int): Shade
    decreases |subs|
  {
    if subs == [] then under
    else
      var b := subs[0];
      TilePixel(if Inside(b.x, b.y, b.w, b.h, i, j) then Bgrx(b.color, 0) else under, subs[1..], i, j)
  }

  /** The colour a pixel of indexed data selects: one bit of its row when there are two colours, a byte otherwise */
  function Selected(colors: seq<Byte>, w: int, data: seq<int>, i: int, j: int): Shade
    requires w >= 0
  {
    if |colors| == 6 then
      var b := Component(data, j * ((w + 7) / 8) + i / 8);
      if b < 0 then Rgb3([], 0) else Rgb3(colors, 3 * BitOf(b, if 0 <= i then 7 - i % 8 else 0))
    else Rgb3(colors, 3 * Component(data, j * w + i))
  }

  /** What one effect draws. Images are decoded by the browser and are not modelled. */
  function Show(e: Effect, s: Screen): Screen {
    match e
    case Row(x, y, w, pixels) => Put(x, y, w, 1, (i: int, j: int) => Bgrx(pixels, 4 * i), s)
    case Blit(x, y, w, h, pixels) => Put(x, y, w, h, (i: int, j: int) => Bgrx(pixels, 4 * (j * w + i)), s)
    case Fill(x, y, w, h, color) => Put(x, y, w, h, (i: int, j: int) => Bgrx(color, 0), s)
    case Tile(x, y, w, h, background, subs) =>
      Put(x, y, w, h, (i: int, j: int) => TilePixel(Bgrx(background, 0), subs, i, j), s)
    case Copy(oldX, oldY, x, y, w, h) => Put(x, y, w, h, (i: int, j: int) => s(oldX + i, oldY + j), s)
    case Rgb(x, y, w, h, data) => Put(x, y, w, h, (i: int, j: int) => Rgb3(data, 3 * (j * w + i)), s)
    case Palette(x, y, w, h, colors, data) =>
      Put(x, y, w, h, (i: int, j: int) => Selected(colors, w, data, i, j), s)
    case _ => s
  }

  predicate Drawing(e: Effect) {
    e.Row? || e.Blit? || e.Fill? || e.Tile? || e.Copy? || e.Rgb? || e.Palette?
  }

  /** Everything that reaches the user but drawing */
  function Told(fx: seq<Effect>): seq<Effect> {
    if fx == [] then [] else (if Drawing(fx[0]) then [] else [fx[0]]) + Told(fx[1..])
  }

  predicate OnlyDraws(fx: seq<Effect>) {
    forall k :: 0 <= k < |fx| ==> Drawing(fx[k])
  }

  function ShowAll(fx: seq<Effect>, s: Screen): Screen
    decreases |fx|
  {
    if fx == [] then s else ShowAll(fx[1..], Show(fx[0], s))
  }

  lemma {:induction false} ShowJoin(a: seq<Effect>, b: seq<Effect>, s: Screen)
    ensures ShowAll(a + b, s) == ShowAll(b, ShowAll(a, s))
    decreases |a|
  {
    if a == [] {
      assert a + b == b;
    } else {
      assert (a + b)[1..] == a[1..] + b;
      ShowJoin(a[1..], b, Show(a[0], s));
    }
  }

  lemma ShowFirst(e: Effect, rest: seq<Effect>, s: Screen)
    ensures ShowAll([e] + rest, s) == ShowAll(rest, Show(e, s))
  {
    assert ([e] + rest)[1..] == rest;
  }

  lemma ShowOne(e: Effect, s: Screen)
    ensures ShowAll([e], s) == Show(e, s) && ShowAll([], s) == s
  {
    assert [e][1..] == [];
  }

  lemma {:induction false} ToldJoin(a: seq<Effect>, b: seq<Effect>)
    ensures Told(a + b) == Told(a) + Told(b)
  {
    if a == [] {
      assert a + b == b;
    } else {
      assert (a + b)[1..] == a[1..] + b;
      ToldJoin(a[1..], b);
    }
  }

  lemma {:induction false} DrawsTellNothing(fx: seq<Effect>)
    requires OnlyDraws(fx)
    ensures Told(fx) == []
  {
    if fx != [] {
      DrawsTellNothing(fx[1..]);
    }
  }
}
