/**
 What the server means is what the client shows: for every message and rectangle of `RfbServer`, the machine of
 `RfbSpec` run on its bytes, whatever follows them, consumes exactly those and changes the screen as meant.
 */
module RfbDecodes {
  import opened Common
  import opened Bits
  import opened RfbSpec
  import opened RfbChunks
  import opened RfbSteps
  import opened Screens
  import Pixels
  import Server = RfbServer

  // ----- numbers -----

  lemma ReadsU16(v: nat, before: seq<Byte>, after: seq<Byte>)
    requires v < 0x1_0000
    ensures var q := before + Server.U16(v) + after; Be16(q, |before|) == v
  {
  }

  lemma ReadsU32(v: nat, before: seq<Byte>, after: seq<Byte>)
    requires v < 0x1_0000_0000
    ensures var q := before + Server.U32(v) + after; Be32(q, |before|) == v
  {
    var q := before + Server.U32(v) + after;
    assert Be16(q, |before|) == v / 0x1_0000 && Be16(q, |before| + 2) == v % 0x1_0000;
  }

  lemma ReadsS32(v: int, before: seq<Byte>, after: seq<Byte>)
    requires -0x8000_0000 <= v < 0x8000_0000
    ensures var q := before + Server.S32(v) + after; Signed32(Be32(q, |before|)) == v
  {
    hide Be32, Server.U32;
    ReadsU32(if v < 0 then v + 0x1_0000_0000 else v, before, after);
  }

  /** A rectangle header is read back as written, for all values and encodings. */
  lemma HeaderReads<Z>(f: Fbu<Z>, a: Server.Area, encoding: int, rest: seq<Byte>)
    requires a.Fits() && -0x8000_0000 <= encoding < 0x8000_0000
    ensures WithHeader(f, Server.HeaderBytes(a, encoding) + rest) ==
            f.(x := a.x, y := a.y, width := a.w, height := a.h, encoding := encoding)
  {
    hide Be16, Be32, Server.U16, Server.S32;
    var q := Server.HeaderBytes(a, encoding) + rest;
    var x, y, w, h, e := Server.U16(a.x), Server.U16(a.y), Server.U16(a.w), Server.U16(a.h), Server.S32(encoding);
    assert q == [] + x + (y + w + h + e + rest);
    ReadsU16(a.x, [], y + w + h + e + rest);
    assert q == x + y + (w + h + e + rest);
    ReadsU16(a.y, x, w + h + e + rest);
    assert q == (x + y) + w + (h + e + rest);
    ReadsU16(a.w, x + y, h + e + rest);
    assert q == (x + y + w) + h + (e + rest);
    ReadsU16(a.h, x + y + w, e + rest);
    assert q == (x + y + w + h) + e + rest;
    ReadsS32(encoding, x + y + w + h, rest);
  }

  // ----- what a rectangle leaves behind -----

  /** A rectangle header is expected next. */
  ghost predicate AtHeader<Z>(f: Fbu<Z>) {
    Valid(f) && !f.dead && f.rects > 0 && f.bytes == 0 && f.subrects == 0
  }

  /** The rectangle is done. */
  ghost predicate Done<Z>(f: Fbu<Z>, g: Fbu<Z>) {
    Valid(g) && !g.dead && g.rects == f.rects - 1 && g.bytes == 0 && g.subrects == 0
  }

  /** The screen is the picture where the rectangle is, and unchanged elsewhere. */
  ghost predicate Shows(fx: seq<Effect>, before: Screen, after: Screen) {
    forall px, py :: ShowAll(fx, before)(px, py) == after(px, py)
  }

  /** The machine takes exactly the bytes b, with effects fx, and has done the rectangle. */
  ghost predicate Takes<Z>(codec: Codec<Z>, f: Fbu<Z>, b: seq<Byte>, rest: seq<Byte>, g: Fbu<Z>, fx: seq<Effect>) {
    Leads(codec, f, b + rest, Point(g, rest, fx + Tail(g))) && Done(f, g)
  }

  /** The record with a header written into it */
  function Headed<Z>(f: Fbu<Z>, a: Server.Area, encoding: int): Fbu<Z> {
    f.(x := a.x, y := a.y, width := a.w, height := a.h, encoding := encoding)
  }

  /** The step on a rectangle header */
  lemma HeaderSteps<Z>(codec: Codec<Z>, f: Fbu<Z>, a: Server.Area, encoding: int, body: seq<Byte>)
    requires AtHeader(f) && a.Fits() && -0x8000_0000 <= encoding < 0x8000_0000
    ensures var q, g := Server.HeaderBytes(a, encoding) + body, Headed(f, a, encoding);
            && q[12..] == body
            && Step(codec, f, q) == (if HasData(g) then Move(Enter(g), 12, []) else ShortStep(g, q))
            && (HasData(g) ==> Valid(Enter(g)) && Leads(codec, f, q, Point(Enter(g), body, [])))
  {
    hide Server.HeaderBytes, WithHeader, ShortStep, Leads, HasData, Enter;
    var q, g := Server.HeaderBytes(a, encoding) + body, Headed(f, a, encoding);
    HeaderReads(f, a, encoding, body);
    assert q[12..] == body;
    if HasData(g) {
      LeadsOne(codec, f, q);
      StepValid(codec, f, q);
    }
  }

  // ----- raw -----

  lemma {:induction false} PictureAt(ps: seq<Server.Pixel>, k: nat)
    requires k < |ps|
    ensures Bgrx(Server.PictureBytes(ps), 4 * k) == ps[k].Shade()
  {
    var b := Server.PictureBytes(ps);
    if k > 0 {
      PictureAt(ps[1..], k - 1);
      var c := Server.PictureBytes(ps[1..]);
      assert b[4..] == c;
      assert b[4 * k] == c[4 * (k - 1)] && b[4 * k + 1] == c[4 * (k - 1) + 1] && b[4 * k + 2] == c[4 * (k - 1) + 2];
    }
  }

  lemma RowShown(x: nat, y: int, w: nat, pixels: seq<Byte>, s: Screen, px: int, py: int)
    ensures Show(Row(x, y, w, pixels), s)(px, py) ==
            if Inside(x, y, w, 1, px, py) then Bgrx(pixels, 4 * (px - x)) else s(px, py)
  {
  }

  lemma NoRowsShow(x: nat, y: int, w: nat, data: seq<Byte>, s: Screen)
    ensures 0 * LineBytes(w) == 0 && ShowAll(Rows(x, y, w, 0, data), s) == s
  {
    NoRows(x, y, w, data);
  }

  lemma NextRow(w: nat, i: int, j: int)
    requires 0 <= i && j > 0
    ensures Server.At2(w, i, j) == w + Server.At2(w, i, j - 1) && Server.At2(w, i, j - 1) >= 0
  {
    assert j * w == w + (j - 1) * w;
  }

  lemma RowPixel(data: seq<Byte>, w: nat, i: int, j: int)
    requires 0 <= i < w && 0 <= j && LineBytes(w) <= |data|
    ensures j == 0 ==> Bgrx(data[..LineBytes(w)], 4 * i) == Bgrx(data, 4 * Server.At2(w, i, j))
    ensures j > 0 ==> Bgrx(data[LineBytes(w)..], 4 * Server.At2(w, i, j - 1)) == Bgrx(data, 4 * Server.At2(w, i, j))
  {
    assert Server.At2(w, i, 0) == i;
    if j > 0 {
      NextRow(w, i, j);
      var n, k := LineBytes(w), 4 * Server.At2(w, i, j - 1);
      assert 4 * Server.At2(w, i, j) == n + k;
    }
  }

  /** Lines drawn one below the other are the picture. */
  lemma {:induction false} RowsShow(x: nat, y: int, w: nat, k: nat, data: seq<Byte>, s: Screen, px: int, py: int)
    requires k * LineBytes(w) <= |data|
    ensures ShowAll(Rows(x, y, w, k, data), s)(px, py) ==
            if Inside(x, y, w, k, px, py) then Bgrx(data, 4 * Server.At2(w, px - x, py - y)) else s(px, py)
    decreases k
  {
    hide Bgrx, LineBytes, ShowAll, Show, Server.At2, Rows;
    if k == 0 {
      NoRowsShow(x, y, w, data, s);
    } else {
      RowsUnfold(x, y, w, k, data);
      var n := LineBytes(w);
      var first, rest := Row(x, y, w, data[..n]), Rows(x, y + 1, w, k - 1, data[n..]);
      ShowFirst(first, rest, s);
      RowShown(x, y, w, data[..n], s, px, py);
      RowsShow(x, y + 1, w, k - 1, data[n..], Show(first, s), px, py);
      if Inside(x, y, w, k, px, py) {
        RowPixel(data, w, px - x, py - y);
      }
    }
  }

  lemma InPicture(w: nat, h: nat, i: int, j: int)
    requires 0 <= i < w && 0 <= j < h
    ensures 0 <= Server.At2(w, i, j) < Server.Area2(w, h)
  {
    assert (h - 1 - j) * w >= 0;
    assert Server.Area2(w, h) == j * w + w + (h - 1 - j) * w;
  }

  lemma PictureShows(a: Server.Area, pixels: seq<Server.Pixel>, data: seq<Byte>, i: int, j: int)
    requires |pixels| == Server.Area2(a.w, a.h) && data == Server.PictureBytes(pixels) && 0 <= i < a.w && 0 <= j < a.h
    ensures Bgrx(data, 4 * Server.At2(a.w, i, j)) == Server.PixelAt(pixels, a.w, i, j)
  {
    InPicture(a.w, a.h, i, j);
    PictureAt(pixels, Server.At2(a.w, i, j));
  }

  lemma {:induction false} RowsDraw(x: nat, y: int, w: nat, k: nat, data: seq<Byte>)
    requires k * LineBytes(w) <= |data|
    ensures OnlyDraws(Rows(x, y, w, k, data))
    decreases k
  {
    hide LineBytes, Rows;
    NoRows(x, y, w, data);
    if k > 0 {
      RowsUnfold(x, y, w, k, data);
      RowsDraw(x, y + 1, w, k - 1, data[LineBytes(w)..]);
    }
  }

  lemma BgrxPrefix(data: seq<Byte>, rest: seq<Byte>, k: int)
    requires 0 <= k && k + 2 < |data|
    ensures Bgrx(data + rest, k) == Bgrx(data, k)
  {
  }

  lemma LinesOf(w: nat, h: nat)
    ensures h * LineBytes(w) == 4 * Server.Area2(w, h)
  {
    assert h * (w * 4) == 4 * (w * h);
  }

  /** A raw rectangle paints each pixel of its picture where it belongs. */
  lemma RawDecodes<Z>(codec: Codec<Z>, f: Fbu<Z>, a: Server.Area, pixels: seq<Server.Pixel>, rest: seq<Byte>, s: Screen)
    returns (g: Fbu<Z>, fx: seq<Effect>)
    requires AtHeader(f) && a.Fits() && a.w > 0 && a.h > 0 && |pixels| == Server.Area2(a.w, a.h)
    ensures Takes(codec, f, Server.RawBytes(a, pixels), rest, g, fx) && g.zlibs == f.zlibs && OnlyDraws(fx)
    ensures Shows(fx, s, a.Put((i: int, j: int) => Server.PixelAt(pixels, a.w, i, j), s))
  {
    hide Leads, Step, Server.HeaderBytes, Server.PictureBytes, ShowAll, Rows, LineBytes, Server.Area2, Server.PixelAt,
      Bgrx;
    var data := Server.PictureBytes(pixels);
    var q := data + rest;
    var e := Enter(Headed(f, a, 0));
    HeaderSteps(codec, f, a, 0, q);
    assert Server.HeaderBytes(a, 0) + q == Server.RawBytes(a, pixels) + rest;
    LinesOf(a.w, a.h);
    RawLines(codec, e, q, a.h);
    g := AfterLines(e, a.h);
    fx := Rows(a.x, a.y, a.w, a.h, q);
    assert q[|data|..] == rest;
    LeadsTrans(codec, f, Server.RawBytes(a, pixels) + rest, Point(e, q, []), Point(g, rest, fx + Tail(g)));
    assert [] + (fx + Tail(g)) == fx + Tail(g);
    RowsDraw(a.x, a.y, a.w, a.h, q);
    forall px, py
      ensures ShowAll(fx, s)(px, py) == a.Put((i: int, j: int) => Server.PixelAt(pixels, a.w, i, j), s)(px, py)
    {
      RowsShow(a.x, a.y, a.w, a.h, q, s, px, py);
      if Inside(a.x, a.y, a.w, a.h, px, py) {
        InPicture(a.w, a.h, px - a.x, py - a.y);
        PictureShows(a, pixels, data, px - a.x, py - a.y);
        BgrxPrefix(data, rest, 4 * Server.At2(a.w, px - a.x, py - a.y));
      }
    }
  }

  // ----- copyrect -----

  /** A copied rectangle shows what the screen showed at its source. */
  lemma CopyDecodes<Z>(codec: Codec<Z>, f: Fbu<Z>, a: Server.Area, fromX: nat, fromY: nat, rest: seq<Byte>, s: Screen)
    returns (g: Fbu<Z>, fx: seq<Effect>)
    requires AtHeader(f) && a.Fits() && fromX < 0x1_0000 && fromY < 0x1_0000
    ensures Takes(codec, f, Server.CopyBytes(a, fromX, fromY), rest, g, fx) && g.zlibs == f.zlibs && OnlyDraws(fx)
    ensures Shows(fx, s, a.Put((i: int, j: int) => s(fromX + i, fromY + j), s))
  {
    hide Leads, Server.HeaderBytes, Be16, Server.U16, ShowAll;
    var b, body := Server.HeaderBytes(a, 1), Server.U16(fromX) + Server.U16(fromY) + rest;
    var q := b + body;
    assert q == Server.CopyBytes(a, fromX, fromY) + rest;
    HeaderSteps(codec, f, a, 1, body);
    assert q == b + Server.U16(fromX) + (Server.U16(fromY) + rest);
    ReadsU16(fromX, b, Server.U16(fromY) + rest);
    assert q == (b + Server.U16(fromX)) + Server.U16(fromY) + rest;
    ReadsU16(fromY, b + Server.U16(fromX), rest);
    var m := Step(codec, f, q);
    assert q[16..] == rest;
    LeadsOne(codec, f, q);
    StepValid(codec, f, q);
    var e := Copy(fromX, fromY, a.x, a.y, a.w, a.h);
    g, fx := m.f, [e];
    assert m.fx == [e] + Tail(g);
    ShowOne(e, s);
  }

  // ----- RRE -----

  lemma {:induction false} TopFirst(spots: seq<Server.Spot>, i: int, j: int, under: Shade)
    requires spots != []
    ensures Server.Top(spots, i, j, under) ==
            Server.Top(spots[1..], i, j, if spots[0].Has(i, j) then spots[0].pixel.Shade() else under)
  {
    var n := |spots| - 1;
    if n > 0 && !spots[n].Has(i, j) {
      TopFirst(spots[..n], i, j, under);
      assert spots[..n][1..] == spots[1..][..n - 1];
    }
  }

  lemma SubrectReads<Z>(f: Fbu<Z>, b: Server.Spot, rest: seq<Byte>)
    requires b.x < 0x1_0000 && b.y < 0x1_0000 && b.w < 0x1_0000 && b.h < 0x1_0000
    ensures RreSub(f, Server.SubrectBytes(b) + rest) ==
            Fill(f.x + b.x, f.y + b.y, b.w, b.h, Server.PixelBytes(b.pixel))
  {
    hide Be16, Server.U16, Server.PixelBytes;
    var q := Server.SubrectBytes(b) + rest;
    var p, x, y, w, h := Server.PixelBytes(b.pixel), Server.U16(b.x), Server.U16(b.y), Server.U16(b.w), Server.U16(b.h);
    assert q == p + x + (y + w + h + rest);
    ReadsU16(b.x, p, y + w + h + rest);
    assert q == (p + x) + y + (w + h + rest);
    ReadsU16(b.y, p + x, w + h + rest);
    assert q == (p + x + y) + w + (h + rest);
    ReadsU16(b.w, p + x + y, h + rest);
    assert q == (p + x + y + w) + h + rest;
    ReadsU16(b.h, p + x + y + w, rest);
    assert q[..4] == p;
  }

  lemma SpotShown(x: nat, y: nat, b: Server.Spot, s: Screen, px: int, py: int)
    ensures Show(Fill(x + b.x, y + b.y, b.w, b.h, Server.PixelBytes(b.pixel)), s)(px, py) ==
            if b.Has(px - x, py - y) then b.pixel.Shade() else s(px, py)
  {
    assert Inside(x + b.x, y + b.y, b.w, b.h, px, py) <==> b.Has(px - x, py - y);
  }

  lemma NoSpots(i: int, j: int, s: Screen, px: int, py: int)
    ensures Server.Top([], i, j, s(px, py)) == s(px, py) && ShowAll([], s) == s
  {
  }

  /** Subrectangles painted one over the other show the last one that holds a pixel. */
  lemma {:induction false} SubFillsShow<Z>(f: Fbu<Z>, a: Server.Area, spots: seq<Server.Spot>, rest: seq<Byte>,
          s: Screen,
          px: int, py: int)
    requires a.Fits() && Server.AllInside(a, spots)
    ensures ShowAll(SubFills(f, |spots|, Server.SubrectsBytes(a, spots) + rest), s)(px, py) ==
            Server.Top(spots, px - f.x, py - f.y, s(px, py))
    decreases |spots|
  {
    hide RreSub, Server.Top, Show, ShowAll, Server.SubrectBytes;
    var q := Server.SubrectsBytes(a, spots) + rest;
    if spots == [] {
      NoSpots(px - f.x, py - f.y, s, px, py);
    } else {
      var b, others := spots[0], spots[1..];
      var q' := Server.SubrectsBytes(a, others) + rest;
      assert Server.InsideArea(a, b);
      assert q == Server.SubrectBytes(b) + q' && q[12..] == q';
      SubrectReads(f, b, q');
      var e := RreSub(f, q);
      ShowFirst(e, SubFills(f, |others|, q'), s);
      SpotShown(f.x, f.y, b, s, px, py);
      SubFillsShow(f, a, others, rest, Show(e, s), px, py);
      TopFirst(spots, px - f.x, py - f.y, s(px, py));
    }
  }

  lemma {:induction false} SubFillsDraw<Z>(f: Fbu<Z>, k: nat, q: seq<Byte>)
    requires 12 * k <= |q|
    ensures OnlyDraws(SubFills(f, k, q))
    decreases k
  {
    if k > 0 {
      SubFillsDraw(f, k - 1, q[12..]);
    }
  }

  /** The whole of an RRE rectangle but its subrectangles */
  lemma RreEnters<Z>(codec: Codec<Z>, f: Fbu<Z>, a: Server.Area, background: Server.Pixel, n: nat, more: seq<Byte>)
    requires AtHeader(f) && a.Fits() && n < 0x8000_0000
    ensures var q := Server.HeaderBytes(a, 2) + (Server.U32(n) + Server.PixelBytes(background) + more);
            var fill := Fill(a.x, a.y, a.w, a.h, Server.PixelBytes(background));
            var g := Headed(f, a, RRE);
            var h := if n > 0 then g.(subrects := n, bytes := 1) else g.(rects := g.rects - 1);
            Valid(h) && Leads(codec, f, q, Point(h, more, [fill] + if n == 0 then Tail(h) else []))
  {
    hide Leads, Server.HeaderBytes, Be32, Server.U32, Server.PixelBytes;
    var b, c, p := Server.HeaderBytes(a, 2), Server.U32(n), Server.PixelBytes(background);
    var q := b + (c + p + more);
    HeaderSteps(codec, f, a, 2, c + p + more);
    assert q == b + c + (p + more);
    ReadsU32(n, b, p + more);
    assert q[16..20] == p && q[20..] == more;
    LeadsOne(codec, f, q);
    StepValid(codec, f, q);
    var fill := Fill(a.x, a.y, a.w, a.h, p);
    assert [fill] + [] == [fill];
  }

  lemma FillShown(a: Server.Area, p: Server.Pixel, s: Screen, px: int, py: int)
    ensures Show(Fill(a.x, a.y, a.w, a.h, Server.PixelBytes(p)), s)(px, py) ==
            if Inside(a.x, a.y, a.w, a.h, px, py) then p.Shade() else s(px, py)
  {
  }

  /** Outside the rectangle there is no subrectangle. */
  lemma {:induction false} TopOutside(a: Server.Area, spots: seq<Server.Spot>, i: int, j: int, under: Shade)
    requires Server.AllInside(a, spots)
    ensures !Inside(0, 0, a.w, a.h, i, j) ==> Server.Top(spots, i, j, under) == under
  {
    if spots != [] {
      var n := |spots| - 1;
      assert Server.InsideArea(a, spots[n]);
      TopOutside(a, spots[..n], i, j, under);
    }
  }

  /** An RRE rectangle shows its background and, over it, its subrectangles in order. */
  lemma RreDecodes<Z>(codec: Codec<Z>, f: Fbu<Z>, a: Server.Area, background: Server.Pixel, spots: seq<Server.Spot>,
          rest: seq<Byte>, s: Screen)
    returns (g: Fbu<Z>, fx: seq<Effect>)
    requires AtHeader(f) && Server.RreFits(a, spots)
    ensures Takes(codec, f, Server.RreBytes(a, background, spots), rest, g, fx) && g.zlibs == f.zlibs && OnlyDraws(fx)
    ensures Shows(fx, s, Server.RreShown(a, background, spots, s))
  {
    hide Leads, Server.HeaderBytes, Server.U32, Server.PixelBytes, ShowAll, SubFills, Server.Top, Server.SubrectsBytes;
    var n, subs := |spots|, Server.SubrectsBytes(a, spots);
    var all := Server.RreBytes(a, background, spots) + rest;
    assert all == Server.HeaderBytes(a, 2) + (Server.U32(n) + Server.PixelBytes(background) + (subs + rest));
    RreEnters(codec, f, a, background, n, subs + rest);
    var fill := Fill(a.x, a.y, a.w, a.h, Server.PixelBytes(background));
    var e := Headed(f, a, RRE).(subrects := n, bytes := 1);
    var fills := if n == 0 then [] else SubFills(e, n, subs + rest);
    if n == 0 {
      g := Headed(f, a, RRE).(rects := f.rects - 1);
      fx := [fill];
      assert subs + rest == rest;
      assert [fill] + fills == [fill];
    } else {
      RreRuns(codec, e, subs + rest, n);
      g := AfterSubs(e, n);
      assert (subs + rest)[12 * n..] == rest;
      assert [fill] + [] == [fill];
      LeadsTrans(codec, f, all, Point(e, subs + rest, [fill]), Point(g, rest, fills + Tail(g)));
      fx := [fill] + fills;
      assert [fill] + (fills + Tail(g)) == fx + Tail(g);
      SubFillsDraw(e, n, subs + rest);
    }
    var under := Show(fill, s);
    ShowFirst(fill, fills, s);
    forall px, py
      ensures ShowAll(fx, s)(px, py) == Server.RreShown(a, background, spots, s)(px, py)
    {
      FillShown(a, background, s, px, py);
      if n == 0 {
        NoSpots(px - a.x, py - a.y, under, px, py);
      } else {
        SubFillsShow(e, a, spots, rest, under, px, py);
      }
      TopOutside(a, spots, px - a.x, py - a.y, under(px, py));
    }
  }
}
