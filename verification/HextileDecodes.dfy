/**
 Hextile rectangles: the tiles the server means (section 7.7.4 of RFC 6143) are the tiles the client shows, with
 background and foreground carried over from tile to tile.
 */
module HextileDecodes {
  import opened Common
  import opened Bits
  import opened RfbSpec
  import opened RfbChunks
  import opened RfbSteps
  import opened Screens
  import opened RfbDecodes
  import Pixels
  import Server = RfbServer

  // ----- reading one tile -----

  lemma FlagsOf(t: Server.HexTile)
    ensures var v: nat := Server.FlagByte(t);
            && v <= 30 && (v == 0 <==> Server.Blank(t)) && Flag(v, 1) == t.RawTile?
            && (t.PlainTile? ==>
                  && Flag(v, 2) == t.background.Some? && Flag(v, 4) == t.foreground.Some?
                  && Flag(v, 8) == (t.spots != []) && Flag(v, 16) == (t.spots != [] && t.coloured))
  {
  }

  function SubsOf(spots: seq<Server.Spot>, coloured: bool, foreground: seq<Byte>): (r: seq<Sub>)
    ensures |r| == |spots|
  {
    if spots == [] then []
    else
      var b := spots[0];
      [Sub(b.x, b.y, b.w, b.h, if coloured then Server.PixelBytes(b.pixel) else foreground)] +
      SubsOf(spots[1..], coloured, foreground)
  }

  lemma SpotReads(b: Server.Spot, coloured: bool, v: nat, foreground: seq<Byte>, before: seq<Byte>, after: seq<Byte>)
    requires Server.SpotFits(b) && Flag(v, 16) == coloured
    ensures var q := before + (Server.SpotBytes(b, coloured) + after);
            && SubSize(v) == |Server.SpotBytes(b, coloured)|
            && SubAt(q, |before|, v, foreground) ==
               Sub(b.x, b.y, b.w, b.h, if coloured then Server.PixelBytes(b.pixel) else foreground)
  {
    hide Flag, Server.PixelBytes;
    var q := before + (Server.SpotBytes(b, coloured) + after);
    var i := |before|;
    if coloured {
      assert q[i..i + 4] == Server.PixelBytes(b.pixel);
      assert q[i + 4] == 16 * b.x + b.y && q[i + 5] == 16 * (b.w - 1) + (b.h - 1);
    } else {
      assert q[i] == 16 * b.x + b.y && q[i + 1] == 16 * (b.w - 1) + (b.h - 1);
    }
  }

  lemma SubSizeIs(v: nat, coloured: bool)
    requires Flag(v, 16) == coloured
    ensures SubSize(v) == if coloured then 6 else 2
  {
  }

  lemma {:induction false} SpotsRead(spots: seq<Server.Spot>, coloured: bool, v: nat, foreground: seq<Byte>,
          before: seq<Byte>, after: seq<Byte>)
    requires (forall k :: 0 <= k < |spots| ==> Server.SpotFits(spots[k])) && Flag(v, 16) == coloured
    ensures var q := before + (Server.SpotsBytes(spots, coloured) + after);
            && |before| + |spots| * SubSize(v) == |before + Server.SpotsBytes(spots, coloured)| <= |q|
            && Subs(q, |before|, |spots|, v, foreground) == SubsOf(spots, coloured, foreground)
    decreases |spots|
  {
    hide SubAt, Server.SpotBytes, Flag;
    var q := before + (Server.SpotsBytes(spots, coloured) + after);
    SubSizeIs(v, coloured);
    if spots != [] {
      var b, others := spots[0], spots[1..];
      var one, more := Server.SpotBytes(b, coloured), Server.SpotsBytes(others, coloured);
      assert q == before + (one + (more + after)) == (before + one) + (more + after);
      SpotReads(b, coloured, v, foreground, before, more + after);
      SpotsRead(others, coloured, v, foreground, before + one, after);
      UnfoldSubs(q, |before|, |spots|, v, foreground);
    } else {
      UnfoldSubs(q, |before|, 0, v, foreground);
    }
  }

  /** The background and foreground a tile leaves in force, as bytes */
  function After(p: Option<Server.Pixel>, before: seq<Byte>): seq<Byte> {
    if p.Some? then Server.PixelBytes(p.value) else before
  }

  /** The bytes of a tile that is neither raw nor blank */
  lemma PlainLayout(t: Server.HexTile, rest: seq<Byte>)
    requires t.PlainTile? && !Server.Blank(t) && Server.TileFits(t)
    ensures var q, v := Server.TileBytes(t) + rest, Server.FlagByte(t) as int;
            var i := 1 + |Server.OptionBytes(t.background)|;
            var j := i + |Server.OptionBytes(t.foreground)|;
            && |q| >= j + (if t.spots == [] then 0 else 1) == TileHead(v)
            && q[0] == v && q[1..i] == Server.OptionBytes(t.background) && q[i..j] == Server.OptionBytes(t.foreground)
            && (t.spots == [] ==> j == |Server.TileBytes(t)|)
            && (t.spots != [] ==>
                  && q[j] == |t.spots| && q[..j + 1] + (Server.SpotsBytes(t.spots, t.coloured) + rest) == q
                  && j + 1 + |Server.SpotsBytes(t.spots, t.coloured)| == |Server.TileBytes(t)|)
  {
    hide Flag, Server.PixelBytes, Server.SpotsBytes;
    FlagsOf(t);
    hide Server.FlagByte;
    var v: nat := Server.FlagByte(t);
    var bg, fg := Server.OptionBytes(t.background), Server.OptionBytes(t.foreground);
    var q := Server.TileBytes(t) + rest;
    var tail := if t.spots == [] then [] else [|t.spots|] + Server.SpotsBytes(t.spots, t.coloured);
    assert q == [v] + bg + fg + tail + rest;
    if t.spots != [] {
      var before := [v] + bg + fg + [|t.spots|];
      assert q == before + (Server.SpotsBytes(t.spots, t.coloured) + rest);
      assert q[..|before|] == before;
    }
  }

  lemma PlainSpots(t: Server.HexTile, rest: seq<Byte>, foreground: seq<Byte>)
    requires t.PlainTile? && t.spots != [] && Server.TileFits(t)
    ensures var q, v := Server.TileBytes(t) + rest, Server.FlagByte(t) as int;
            && TileHead(v) + |t.spots| * SubSize(v) == |Server.TileBytes(t)| <= |q|
            && Subs(q, TileHead(v), |t.spots|, v, foreground) == SubsOf(t.spots, t.coloured, foreground)
  {
    hide Flag, Subs, SubsOf, SubSize, TileHead, Server.SpotsBytes, Server.FlagByte, Server.TileBytes,
      Server.OptionBytes;
    FlagsOf(t);
    PlainLayout(t, rest);
    var v: nat := Server.FlagByte(t);
    var q := Server.TileBytes(t) + rest;
    var before := q[..TileHead(v)];
    SpotsRead(t.spots, t.coloured, v, foreground, before, rest);
    assert q == before + (Server.SpotsBytes(t.spots, t.coloured) + rest) && |before| == TileHead(v);
  }

  lemma NoSubs(t: Server.HexTile)
    requires t.PlainTile? && t.spots == []
    ensures forall c, b :: SubsOf(t.spots, c, b) == []
  {
  }

  /** A tile that is neither raw nor blank is read back as written. */
  lemma PlainReads<Z>(f: Fbu<Z>, t: Server.HexTile, rest: seq<Byte>)
    requires TilesValid(f) && t.PlainTile? && !Server.Blank(t) && Server.TileFits(t)
    ensures var q := Server.TileBytes(t) + rest;
            var bg, fg := After(t.background, f.background), After(t.foreground, f.foreground);
            && TileNeed(f, q) == |Server.TileBytes(t)| <= |q|
            && TileDraw(f, q) == (f.(lastsub := Server.FlagByte(t), background := bg, foreground := fg),
                 [Tile(f.x + TileX(f), f.y + TileY(f), TileW(f), TileH(f), bg, SubsOf(t.spots, t.coloured, fg))])
  {
    hide TilesValid, TileX, TileY, TileW, TileH, Flag, Subs, SubsOf, SubSize, TileHead, Server.PixelBytes,
      Server.SpotsBytes, Server.FlagByte, Server.TileBytes;
    FlagsOf(t);
    PlainLayout(t, rest);
    if t.spots == [] {
      NoSubs(t);
    } else {
      PlainSpots(t, rest, After(t.foreground, f.foreground));
    }
  }

  lemma BlankReads<Z>(f: Fbu<Z>, t: Server.HexTile, rest: seq<Byte>)
    requires TilesValid(f) && Server.Blank(t)
    ensures var q := Server.TileBytes(t) + rest;
            && TileNeed(f, q) == |Server.TileBytes(t)| <= |q|
            && TileDraw(f, q) == (f.(lastsub := 0), if Flag(f.lastsub, 1) then []
                 else [Fill(f.x + TileX(f), f.y + TileY(f), TileW(f), TileH(f), f.background)])
  {
    hide TilesValid, TileX, TileY, TileW, TileH;
    FlagsOf(t);
    NoFlags();
  }

  lemma RawTileReads<Z>(f: Fbu<Z>, t: Server.HexTile, rest: seq<Byte>)
    requires TilesValid(f) && t.RawTile? && |t.pixels| == Server.Area2(TileW(f), TileH(f))
    ensures var q := Server.TileBytes(t) + rest;
            && TileNeed(f, q) == |Server.TileBytes(t)| <= |q|
            && TileDraw(f, q) == (f.(lastsub := 1),
                 [Blit(f.x + TileX(f), f.y + TileY(f), TileW(f), TileH(f), Server.PictureBytes(t.pixels))])
  {
    hide TilesValid, TileX, TileY, TileW, TileH, Server.PictureBytes;
    FlagsOf(t);
    var q := Server.TileBytes(t) + rest;
    assert q[0] == 1 && q[1..1 + 4 * |t.pixels|] == Server.PictureBytes(t.pixels);
  }

  // ----- where a tile is -----

  function Column(a: Server.Area, n: nat): nat
    requires a.w > 0
  {
    n % Server.TilesAcross(a.w)
  }

  function Line(a: Server.Area, n: nat): nat
    requires a.w > 0
  {
    n / Server.TilesAcross(a.w)
  }

  lemma TileCorner(a: Server.Area, n: nat)
    requires a.w > 0 && a.h > 0 && n < Server.TilesAcross(a.w) * Server.TilesAcross(a.h)
    ensures 16 * Column(a, n) < a.w && 16 * Line(a, n) < a.h
    ensures Server.TileArea(a, n) == Server.Area(a.x + 16 * Column(a, n), a.y + 16 * Line(a, n),
              Min(16, a.w - 16 * Column(a, n)), Min(16, a.h - 16 * Line(a, n)))
  {
    DivBelow(n, Server.TilesAcross(a.w), Server.TilesAcross(a.h));
  }

  lemma NumberIs(a: Server.Area, n: nat, i: nat, j: nat)
    requires i < a.w
    ensures Column(a, n) == i / 16 && Line(a, n) == j / 16 <==> Server.TileOf(a, i, j) == n
  {
    assert i / 16 < Server.TilesAcross(a.w);
    Pixels.SameNumber(n, Server.TilesAcross(a.w), j / 16, i / 16);
  }

  /** A place is in tile n exactly when it is in the rectangle and its tile number is n. */
  lemma TileBox(a: Server.Area, n: nat, px: int, py: int)
    requires a.w > 0 && a.h > 0 && n < Server.TilesAcross(a.w) * Server.TilesAcross(a.h)
    ensures var t := Server.TileArea(a, n);
            Inside(t.x, t.y, t.w, t.h, px, py) <==>
            Inside(a.x, a.y, a.w, a.h, px, py) && Server.TileOf(a, px - a.x, py - a.y) == n
  {
    TileCorner(a, n);
    hide Server.TileArea, Column, Line, Server.TileOf;
    if Inside(a.x, a.y, a.w, a.h, px, py) {
      var i, j := px - a.x, py - a.y;
      Pixels.Interval(Column(a, n), i, a.w);
      Pixels.Interval(Line(a, n), j, a.h);
      NumberIs(a, n, i, j);
    }
  }

  ghost predicate InForce<Z>(f: Fbu<Z>, tiles: seq<Server.HexTile>, n: nat)
    requires n <= |tiles|
  {
    n > 0 ==>
      && (Server.BackgroundAt(tiles, n - 1).Some? ==>
            f.background == Server.PixelBytes(Server.BackgroundAt(tiles, n - 1).value))
      && (Server.ForegroundAt(tiles, n - 1).Some? ==>
            f.foreground == Server.PixelBytes(Server.ForegroundAt(tiles, n - 1).value))
      && Flag(f.lastsub, 1) == tiles[n - 1].RawTile?
  }

  /** Tile n of the rectangle is the next one, and the colours in force are those of the tiles before it. */
  ghost predicate HexAt<Z>(f: Fbu<Z>, a: Server.Area, tiles: seq<Server.HexTile>, n: nat) {
    && n < |tiles| && Valid(f) && !f.dead && f.rects > 0 && f.bytes > 0 && f.encoding == HEXTILE && f.subrects == 0
    && f.x == a.x && f.y == a.y && f.width == a.w && f.height == a.h && f.totalTiles == |tiles|
    && f.tiles == |tiles| - n && Server.HexFits(a, tiles) && InForce(f, tiles, n)
  }

  lemma TilePlace<Z>(f: Fbu<Z>, a: Server.Area, tiles: seq<Server.HexTile>, n: nat)
    requires HexAt(f, a, tiles, n)
    ensures TilesValid(f)
    ensures var t := Server.TileArea(a, n);
            f.x + TileX(f) == t.x && f.y + TileY(f) == t.y && TileW(f) == t.w && TileH(f) == t.h
  {
    hide Server.HexFits, InForce, Server.TileOf;
    TileInside(f);
  }

  /** The tile's subrectangles in the colours that hold for them */
  function Over(tiles: seq<Server.HexTile>, n: nat): seq<Server.Spot>
    requires n < |tiles| && tiles[n].PlainTile?
  {
    var t := tiles[n];
    if t.coloured || Server.ForegroundAt(tiles, n).None? then t.spots
    else Server.Recoloured(t.spots, Server.ForegroundAt(tiles, n).value)
  }

  lemma {:induction false} ColouredShow(spots: seq<Server.Spot>, foreground: seq<Byte>, under: Shade, i: int, j: int)
    ensures TilePixel(under, SubsOf(spots, true, foreground), i, j) == Server.Top(spots, i, j, under)
    decreases |spots|
  {
    if spots != [] {
      var b := spots[0];
      var under' := if b.Has(i, j) then b.pixel.Shade() else under;
      TopFirst(spots, i, j, under);
      ColouredShow(spots[1..], foreground, under', i, j);
      hide Server.Top;
      var subs := SubsOf(spots, true, foreground);
      assert subs[1..] == SubsOf(spots[1..], true, foreground);
      assert Bgrx(Server.PixelBytes(b.pixel), 0) == b.pixel.Shade();
    }
  }

  lemma {:induction false} ForegroundShow(spots: seq<Server.Spot>, pixel: Server.Pixel, under: Shade, i: int, j: int)
    ensures TilePixel(under, SubsOf(spots, false, Server.PixelBytes(pixel)), i, j) ==
            Server.Top(Server.Recoloured(spots, pixel), i, j, under)
    decreases |spots|
  {
    if spots != [] {
      var b, over := spots[0], Server.Recoloured(spots, pixel);
      var under' := if b.Has(i, j) then pixel.Shade() else under;
      TopFirst(over, i, j, under);
      assert over[1..] == Server.Recoloured(spots[1..], pixel);
      ForegroundShow(spots[1..], pixel, under', i, j);
      hide Server.Top;
      var subs := SubsOf(spots, false, Server.PixelBytes(pixel));
      assert subs[1..] == SubsOf(spots[1..], false, Server.PixelBytes(pixel));
      assert Bgrx(Server.PixelBytes(pixel), 0) == pixel.Shade();
    }
  }

  // ----- drawing one tile -----

  lemma RawShow(t: Server.Area, pixels: seq<Server.Pixel>, s: Screen, px: int, py: int)
    requires |pixels| == Server.Area2(t.w, t.h)
    ensures Show(Blit(t.x, t.y, t.w, t.h, Server.PictureBytes(pixels)), s)(px, py) ==
            if Inside(t.x, t.y, t.w, t.h, px, py) then Server.PixelAt(pixels, t.w, px - t.x, py - t.y) else s(px, py)
  {
    hide Server.PixelAt, Bgrx, Server.PictureBytes;
    if Inside(t.x, t.y, t.w, t.h, px, py) {
      PictureShows(t, pixels, Server.PictureBytes(pixels), px - t.x, py - t.y);
    }
  }

  /** The drawing calls show what tile n means. */
  ghost predicate TileShown(a: Server.Area, tiles: seq<Server.HexTile>, n: nat, fx: seq<Effect>, s: Screen)
    requires a.w > 0 && n < |tiles| == Server.TilesAcross(a.w) * Server.TilesAcross(a.h)
  {
    var t := Server.TileArea(a, n);
    forall px, py :: ShowAll(fx, s)(px, py) ==
      if Inside(t.x, t.y, t.w, t.h, px, py) then Server.HexPixel(a, tiles, n, s, px, py) else s(px, py)
  }

  lemma RawEffect(a: Server.Area, tiles: seq<Server.HexTile>, n: nat, s: Screen)
    requires Server.HexFits(a, tiles) && n < |tiles| && tiles[n].RawTile?
    ensures var t, p := tiles[n], Server.TileArea(a, n);
            TileShown(a, tiles, n, [Blit(p.x, p.y, p.w, p.h, Server.PictureBytes(t.pixels))], s)
  {
    hide Server.Area2, Server.TileArea, ShowAll, Show, Server.PixelAt, Server.PictureBytes;
    var t, p := tiles[n], Server.TileArea(a, n);
    var e := Blit(p.x, p.y, p.w, p.h, Server.PictureBytes(t.pixels));
    ShowOne(e, s);
    forall px, py
      ensures Show(e, s)(px, py) ==
              if Inside(p.x, p.y, p.w, p.h, px, py) then Server.HexPixel(a, tiles, n, s, px, py) else s(px, py)
    {
      RawShow(p, t.pixels, s, px, py);
    }
  }

  lemma RawForce<Z>(f: Fbu<Z>, tiles: seq<Server.HexTile>, n: nat)
    requires n < |tiles| && tiles[n].RawTile? && InForce(f, tiles, n)
    ensures InForce(f.(lastsub := 1), tiles, n + 1)
  {
    hide Server.PixelBytes;
  }

  lemma RawTileShown<Z>(f: Fbu<Z>, a: Server.Area, tiles: seq<Server.HexTile>, n: nat, rest: seq<Byte>, s: Screen)
    requires HexAt(f, a, tiles, n) && tiles[n].RawTile?
    ensures TilesValid(f) && Server.TileFits(tiles[n])
    ensures var q := Server.TileBytes(tiles[n]) + rest;
            && TileNeed(f, q) == |Server.TileBytes(tiles[n])| <= |q|
            && InForce(TileDraw(f, q).0, tiles, n + 1) && TileShown(a, tiles, n, TileDraw(f, q).1, s)
  {
    hide Server.Area2, Server.TileArea, TileX, TileY, TileW, TileH, TileDraw, TileNeed, TileShown, InForce,
      Server.TileBytes, Server.PictureBytes;
    TilePlace(f, a, tiles, n);
    RawTileReads(f, tiles[n], rest);
    RawForce(f, tiles, n);
    RawEffect(a, tiles, n, s);
  }

  lemma BlankTileShown<Z>(f: Fbu<Z>, a: Server.Area, tiles: seq<Server.HexTile>, n: nat, rest: seq<Byte>, s: Screen)
    requires HexAt(f, a, tiles, n) && Server.Blank(tiles[n])
    ensures TilesValid(f) && Server.TileFits(tiles[n])
    ensures var q := Server.TileBytes(tiles[n]) + rest;
            && TileNeed(f, q) == |Server.TileBytes(tiles[n])| <= |q|
            && InForce(TileDraw(f, q).0, tiles, n + 1) && TileShown(a, tiles, n, TileDraw(f, q).1, s)
  {
    var t, p := tiles[n], Server.TileArea(a, n);
    TilePlace(f, a, tiles, n);
    BlankReads(f, t, rest);
    FlagsOf(t);
    assert Server.BackgroundAt(tiles, n).Some? && n > 0;
    var pixel := Server.BackgroundAt(tiles, n - 1).value;
    hide TileDraw, TileNeed, Server.TileArea, ShowAll, Show, Server.TileBytes, Flag, Server.PixelBytes;
    var e := Fill(p.x, p.y, p.w, p.h, Server.PixelBytes(pixel));
    ShowOne(e, s);
    NoFlags();
    forall px, py
      ensures Server.BlankAfterRaw(tiles, n) || Show(e, s)(px, py) ==
              if Inside(p.x, p.y, p.w, p.h, px, py) then Server.HexPixel(a, tiles, n, s, px, py) else s(px, py)
    {
      FillShown(p, pixel, s, px, py);
    }
  }

  lemma TileEffect(p: Server.Area, background: seq<Byte>, subs: seq<Sub>, s: Screen, px: int, py: int)
    ensures Show(Tile(p.x, p.y, p.w, p.h, background, subs), s)(px, py) ==
            if Inside(p.x, p.y, p.w, p.h, px, py) then TilePixel(Bgrx(background, 0), subs, px - p.x, py - p.y)
            else s(px, py)
  {
  }

  /** Subrectangles in the colours in force show the last one that holds a pixel. */
  lemma SpotsShow(tiles: seq<Server.HexTile>, n: nat, foreground: seq<Byte>, under: Shade, i: int, j: int)
    requires n < |tiles| && tiles[n].PlainTile?
    requires tiles[n].spots != [] && !tiles[n].coloured ==>
               Server.ForegroundAt(tiles, n).Some? && foreground == Server.PixelBytes(Server.ForegroundAt(tiles,
                   n).value)
    ensures TilePixel(under, SubsOf(tiles[n].spots, tiles[n].coloured, foreground), i, j) ==
            Server.Top(Over(tiles, n), i, j, under)
  {
    var t := tiles[n];
    if t.coloured {
      ColouredShow(t.spots, foreground, under, i, j);
    } else if t.spots != [] {
      ForegroundShow(t.spots, Server.ForegroundAt(tiles, n).value, under, i, j);
    }
  }

  /** The tile's colours are those in force from now on. */
  lemma PlainForce<Z>(f: Fbu<Z>, tiles: seq<Server.HexTile>, n: nat)
    requires n < |tiles| && tiles[n].PlainTile? && InForce(f, tiles, n)
    ensures var t := tiles[n];
            InForce(f.(lastsub := Server.FlagByte(t), background := After(t.background, f.background),
                       foreground := After(t.foreground, f.foreground)), tiles, n + 1)
  {
    hide Flag, Server.PixelBytes;
    FlagsOf(tiles[n]);
  }

  lemma BackgroundShade(p: Server.Pixel)
    ensures Bgrx(Server.PixelBytes(p), 0) == p.Shade()
  {
  }

  lemma PlainEffect(a: Server.Area, tiles: seq<Server.HexTile>, n: nat, bg: seq<Byte>, fg: seq<Byte>, s: Screen)
    requires Server.HexFits(a, tiles) && n < |tiles| && tiles[n].PlainTile? && !Server.Blank(tiles[n])
    requires bg == Server.PixelBytes(Server.BackgroundAt(tiles, n).value)
    requires Server.ForegroundAt(tiles, n).Some? ==> fg == Server.PixelBytes(Server.ForegroundAt(tiles, n).value)
    ensures var t, p := tiles[n], Server.TileArea(a, n);
            TileShown(a, tiles, n, [Tile(p.x, p.y, p.w, p.h, bg, SubsOf(t.spots, t.coloured, fg))], s)
  {
    hide Server.Area2, Server.TileArea, ShowAll, Show, Server.PixelBytes, Server.Top, SubsOf, Server.Recoloured, Bgrx;
    var t, p := tiles[n], Server.TileArea(a, n);
    var pixel := Server.BackgroundAt(tiles, n).value;
    BackgroundShade(pixel);
    var subs := SubsOf(t.spots, t.coloured, fg);
    var e := Tile(p.x, p.y, p.w, p.h, bg, subs);
    ShowOne(e, s);
    forall px, py
      ensures Show(e, s)(px, py) ==
              if Inside(p.x, p.y, p.w, p.h, px, py) then Server.HexPixel(a, tiles, n, s, px, py) else s(px, py)
    {
      TileEffect(p, bg, subs, s, px, py);
      SpotsShow(tiles, n, fg, pixel.Shade(), px - p.x, py - p.y);
    }
  }

  lemma PlainTileShown<Z>(f: Fbu<Z>, a: Server.Area, tiles: seq<Server.HexTile>, n: nat, rest: seq<Byte>, s: Screen)
    requires HexAt(f, a, tiles, n) && tiles[n].PlainTile? && !Server.Blank(tiles[n])
    ensures TilesValid(f) && Server.TileFits(tiles[n])
    ensures var q := Server.TileBytes(tiles[n]) + rest;
            && TileNeed(f, q) == |Server.TileBytes(tiles[n])| <= |q|
            && InForce(TileDraw(f, q).0, tiles, n + 1) && TileShown(a, tiles, n, TileDraw(f, q).1, s)
  {
    hide Server.Area2, Server.TileArea, TileX, TileY, TileW, TileH, TileDraw, TileNeed, TileShown, Server.TileBytes,
      Server.PixelBytes, SubsOf;
    var t := tiles[n];
    TilePlace(f, a, tiles, n);
    PlainReads(f, t, rest);
    PlainForce(f, tiles, n);
    hide Flag;
    PlainEffect(a, tiles, n, After(t.background, f.background), After(t.foreground, f.foreground), s);
  }

  lemma TileStepShown<Z>(f: Fbu<Z>, a: Server.Area, tiles: seq<Server.HexTile>, n: nat, rest: seq<Byte>, s: Screen)
    requires HexAt(f, a, tiles, n)
    ensures TilesValid(f) && Server.TileFits(tiles[n])
    ensures var q := Server.TileBytes(tiles[n]) + rest;
            && TileNeed(f, q) == |Server.TileBytes(tiles[n])| <= |q| && q[0] <= 30
            && InForce(TileDraw(f, q).0, tiles, n + 1) && TileShown(a, tiles, n, TileDraw(f, q).1, s)
  {
    hide TileDraw, TileNeed, TileShown, InForce;
    FlagsOf(tiles[n]);
    if tiles[n].RawTile? {
      RawTileShown(f, a, tiles, n, rest, s);
    } else if Server.Blank(tiles[n]) {
      BlankTileShown(f, a, tiles, n, rest, s);
    } else {
      PlainTileShown(f, a, tiles, n, rest, s);
    }
  }

  // ----- the whole rectangle -----

  lemma TileOnlyDraws<Z>(f: Fbu<Z>, q: seq<Byte>)
    requires TilesValid(f) && TileNeed(f, q) <= |q|
    ensures OnlyDraws(TileDraw(f, q).1)
  {
  }

  lemma HexStepIs<Z>(codec: Codec<Z>, f: Fbu<Z>, q: seq<Byte>)
    requires Valid(f) && !f.dead && f.rects > 0 && f.bytes > 0 && f.encoding == HEXTILE && TilesValid(f)
    requires TileNeed(f, q) <= |q| && q[0] <= 30
    ensures var (g, fx) := TileDraw(f, q);
            var g' := g.(tiles := f.tiles - 1);
            Step(codec, f, q) ==
            if f.tiles == 1 && g.rects > 0 then Finish(g', TileNeed(f, q), fx) else Move(g', TileNeed(f, q), fx)
  {
    hide TileDraw, TileNeed, TilesValid;
    DrawKeeps(f, q);
  }

  lemma NextTile<Z>(f: Fbu<Z>, drawn: Fbu<Z>, g: Fbu<Z>, a: Server.Area, tiles: seq<Server.HexTile>, n: nat)
    requires HexAt(f, a, tiles, n) && InForce(drawn, tiles, n + 1) && Valid(g)
    requires drawn == f.(lastsub := drawn.lastsub, background := drawn.background, foreground := drawn.foreground)
    requires var h := drawn.(tiles := f.tiles - 1);
             g == if f.tiles == 1 then h.(rects := h.rects - 1, bytes := 0) else h
    ensures g.zlibs == f.zlibs && if n == |tiles| - 1 then Done(f, g) else HexAt(g, a, tiles, n + 1)
  {
    hide TilesValid, Server.HexFits;
  }

  /** One step draws tile n and goes on to the next, or ends the rectangle. */
  lemma TileSteps<Z>(codec: Codec<Z>, f: Fbu<Z>, a: Server.Area, tiles: seq<Server.HexTile>, n: nat, rest: seq<Byte>,
          s: Screen)
    returns (g: Fbu<Z>, fx: seq<Effect>)
    requires HexAt(f, a, tiles, n)
    ensures Server.TileFits(tiles[n]) && TileShown(a, tiles, n, fx, s) && OnlyDraws(fx)
    ensures Leads(codec, f, Server.TileBytes(tiles[n]) + rest,
                  Point(g, rest, if n == |tiles| - 1 then fx + Tail(g) else fx))
    ensures g.rects == if n == |tiles| - 1 then f.rects - 1 else f.rects
    ensures g.zlibs == f.zlibs && if n == |tiles| - 1 then Done(f, g) else HexAt(g, a, tiles, n + 1)
  {
    TileStepShown(f, a, tiles, n, rest, s);
    hide TileShown, InForce, Leads, TileNeed, Server.TileBytes, Server.HexFits, Step, TilesValid, TilesX;
    var b := Server.TileBytes(tiles[n]);
    var q := b + rest;
    assert q[|b|..] == rest;
    DrawKeeps(f, q);
    TileOnlyDraws(f, q);
    hide TileDraw;
    HexStepIs(codec, f, q);
    LeadsOne(codec, f, q);
    StepValid(codec, f, q);
    fx := TileDraw(f, q).1;
    g := Step(codec, f, q).f;
    assert fx + [] == fx;
    NextTile(f, TileDraw(f, q).0, g, a, tiles, n);
    hide HexAt, Done, Valid;
  }

  /** Drawing tile n first and the later ones over it is drawing the tiles from n on. */
  lemma HexJoin(a: Server.Area, tiles: seq<Server.HexTile>, n: nat, s: Screen, s': Screen, px: int, py: int)
    requires a.w > 0 && a.h > 0 && n < |tiles| == Server.TilesAcross(a.w) * Server.TilesAcross(a.h)
    requires var t := Server.TileArea(a, n);
             s'(px, py) ==
             if Inside(t.x, t.y, t.w, t.h, px, py) then Server.HexPixel(a, tiles, n, s, px, py) else s(px, py)
    ensures Server.HexFrom(a, tiles, n + 1, s')(px, py) == Server.HexFrom(a, tiles, n, s)(px, py)
  {
    TileBox(a, n, px, py);
    hide Server.TileOf, Server.TilePicture;
  }

  lemma HexEnd(a: Server.Area, tiles: seq<Server.HexTile>, s: Screen, px: int, py: int)
    requires a.w > 0 && |tiles| == Server.TilesAcross(a.w) * Server.TilesAcross(a.h)
    ensures Server.HexFrom(a, tiles, |tiles|, s)(px, py) == s(px, py)
  {
  }

  lemma {:induction false} HexRuns<Z>(codec: Codec<Z>, f: Fbu<Z>, a: Server.Area, tiles: seq<Server.HexTile>, n: nat,
          rest: seq<Byte>, s: Screen)
    returns (g: Fbu<Z>, fx: seq<Effect>)
    requires HexAt(f, a, tiles, n)
    ensures Takes(codec, f, Server.HexBytes(tiles[n..]), rest, g, fx) && g.zlibs == f.zlibs && OnlyDraws(fx)
    ensures Shows(fx, s, Server.HexFrom(a, tiles, n, s))
    decreases |tiles| - n
  {
    hide Leads, ShowAll, Server.TileBytes, Server.HexFrom;
    var b, more := Server.TileBytes(tiles[n]), Server.HexBytes(tiles[n + 1..]);
    assert tiles[n..][1..] == tiles[n + 1..];
    assert Server.HexBytes(tiles[n..]) + rest == b + (more + rest);
    var h, one := TileSteps(codec, f, a, tiles, n, more + rest, s);
    if n == |tiles| - 1 {
      g, fx := h, one;
      assert more + rest == rest;
      forall px, py ensures ShowAll(one, s)(px, py) == Server.HexFrom(a, tiles, n, s)(px, py) {
        HexJoin(a, tiles, n, s, ShowAll(one, s), px, py);
        HexEnd(a, tiles, ShowAll(one, s), px, py);
      }
    } else {
      var s' := ShowAll(one, s);
      var others;
      g, others := HexRuns(codec, h, a, tiles, n + 1, rest, s');
      fx := one + others;
      LeadsTrans(codec, f, b + (more + rest), Point(h, more + rest, one), Point(g, rest, others + Tail(g)));
      assert one + (others + Tail(g)) == fx + Tail(g);
      ShowJoin(one, others, s);
      forall px, py ensures ShowAll(fx, s)(px, py) == Server.HexFrom(a, tiles, n, s)(px, py) {
        HexJoin(a, tiles, n, s, s', px, py);
      }
    }
  }

  lemma Positive(a: Server.Area)
    requires a.w > 0 && a.h > 0
    ensures Server.TilesAcross(a.w) * Server.TilesAcross(a.h) > 0
  {
    Pixels.MulAtLeast(Server.TilesAcross(a.w), Server.TilesAcross(a.h));
  }

  /**
   A hextile rectangle shows what its tiles mean: a raw tile its pixels, any other tile the colour of the last
   subrectangle that holds the pixel, else the background of the last tile that carried one. Subrectangles without
   a colour of their own have the foreground of the last tile that carried one.
   */
  lemma HextileDecodes<Z>(codec: Codec<Z>, f: Fbu<Z>, a: Server.Area, tiles: seq<Server.HexTile>, rest: seq<Byte>,
          s: Screen)
    returns (g: Fbu<Z>, fx: seq<Effect>)
    requires AtHeader(f) && a.Fits() && Server.HexFits(a, tiles)
    ensures Takes(codec, f, Server.HextileBytes(a, tiles), rest, g, fx) && g.zlibs == f.zlibs && OnlyDraws(fx)
    ensures Shows(fx, s, Server.HexFrom(a, tiles, 0, s))
  {
    hide Leads, Step, Server.HeaderBytes, ShowAll, Server.HexFrom, Server.HexBytes;
    var q := Server.HexBytes(tiles) + rest;
    HeaderSteps(codec, f, a, HEXTILE, q);
    var e := Enter(Headed(f, a, HEXTILE));
    assert Server.HeaderBytes(a, HEXTILE) + q == Server.HextileBytes(a, tiles) + rest;
    assert tiles[0..] == tiles;
    Positive(a);
    g, fx := HexRuns(codec, e, a, tiles, 0, rest, s);
    LeadsTrans(codec, f, Server.HextileBytes(a, tiles) + rest, Point(e, q, []), Point(g, rest, fx + Tail(g)));
    assert [] + (fx + Tail(g)) == fx + Tail(g);
  }

  // ----- blank tiles after raw ones -----

  /** Some place of tile n */
  lemma PlaceOf(a: Server.Area, n: nat) returns (px: int, py: int)
    requires a.w > 0 && a.h > 0 && n < Server.TilesAcross(a.w) * Server.TilesAcross(a.h)
    ensures Inside(a.x, a.y, a.w, a.h, px, py) && Server.TileOf(a, px - a.x, py - a.y) == n
  {
    TileCorner(a, n);
    px, py := Server.TileArea(a, n).x, Server.TileArea(a, n).y;
    TileBox(a, n, px, py);
  }

  lemma HexPlace(a: Server.Area, tiles: seq<Server.HexTile>, s: Screen, px: int, py: int)
    requires a.w > 0 && |tiles| == Server.TilesAcross(a.w) * Server.TilesAcross(a.h)
    ensures var shown, meant := Server.HexFrom(a, tiles, 0, s)(px, py), Server.HexMeant(a, tiles, s)(px, py);
            if Inside(a.x, a.y, a.w, a.h, px, py) && Server.TileOf(a, px - a.x, py - a.y) < |tiles| then
              var n := Server.TileOf(a, px - a.x, py - a.y);
              && meant == Server.MeantPixel(a, tiles, n, px, py)
              && shown == if Server.BlankAfterRaw(tiles, n) then s(px, py) else meant
            else shown == meant == s(px, py)
  {
    hide Server.TileOf, Server.MeantPixel, Server.TilesAcross;
    if Inside(a.x, a.y, a.w, a.h, px, py) && Server.TileOf(a, px - a.x, py - a.y) < |tiles| {
      var n := Server.TileOf(a, px - a.x, py - a.y);
      assert Server.HexFrom(a, tiles, 0, s)(px, py) == Server.HexPixel(a, tiles, n, s, px, py);
    }
  }

  lemma BlankPicture(a: Server.Area, tiles: seq<Server.HexTile>, n: nat, px: int, py: int)
    requires a.w > 0 && n < |tiles| == Server.TilesAcross(a.w) * Server.TilesAcross(a.h)
    requires Server.Blank(tiles[n]) && Server.BackgroundAt(tiles, n).Some?
    ensures Server.MeantPixel(a, tiles, n, px, py) == Server.BackgroundAt(tiles, n).value.Shade()
  {
    hide Server.TileArea;
  }

  /** A blank tile right after a raw one is left as it was, which shows unless it had the background already. */
  lemma BlankLost(a: Server.Area, tiles: seq<Server.HexTile>, n: nat) returns (s: Screen, px: int, py: int)
    requires Server.HexFits(a, tiles) && n < |tiles| && Server.BlankAfterRaw(tiles, n)
    ensures Server.HexFrom(a, tiles, 0, s)(px, py) != Server.HexMeant(a, tiles, s)(px, py)
  {
    px, py := PlaceOf(a, n);
    assert Server.BackgroundAt(tiles, n).Some?;
    BlankPicture(a, tiles, n, px, py);
    var p := Server.BackgroundAt(tiles, n).value;
    s := (x: int, y: int) => Shade(p.red + 1, p.green, p.blue);
    HexPlace(a, tiles, s, px, py);
    hide Server.HexFits, Server.BackgroundAt, Server.TileOf, Server.MeantPixel, Server.HexFrom, Server.HexMeant,
      Server.TilesAcross;
  }

  /** The client shows the rectangle as meant, on every screen, exactly when no tile is blank right after a raw one. */
  lemma HexMeantIff(a: Server.Area, tiles: seq<Server.HexTile>)
    requires Server.HexFits(a, tiles)
    ensures (forall s: Screen, px, py :: Server.HexFrom(a, tiles, 0, s)(px, py) == Server.HexMeant(a, tiles, s)(px, py))
            <==> (forall n :: 0 <= n < |tiles| ==> !Server.BlankAfterRaw(tiles, n))
  {
    hide Server.HexFrom, Server.HexMeant, Server.MeantPixel, Server.TileOf;
    if n :| 0 <= n < |tiles| && Server.BlankAfterRaw(tiles, n) {
      var s, px, py := BlankLost(a, tiles, n);
      assert !forall s: Screen, px, py ::
          Server.HexFrom(a, tiles, 0, s)(px, py) == Server.HexMeant(a, tiles, s)(px, py);
    } else {
      forall s: Screen, px, py
        ensures Server.HexFrom(a, tiles, 0, s)(px, py) == Server.HexMeant(a, tiles, s)(px, py)
      {
        HexPlace(a, tiles, s, px, py);
      }
    }
  }
}
