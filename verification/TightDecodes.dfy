/**
 Tight rectangles: what the server packs is what the client shows, in every form of the encoding, and compressed data
 goes to the stream it was packed for.
 */
module TightDecodes {
  import opened Common
  import opened Bits
  import opened RfbSpec
  import opened RfbChunks
  import opened RfbSteps
  import opened Screens
  import opened RfbDecodes
  import Pixels
  import Server = RfbServer

  // ----- lengths and control bytes -----

  /** A compact length is read back as written, for every length there is. */
  lemma CompactReads(n: nat, before: seq<Byte>, after: seq<Byte>)
    requires n < 0x40_0000
    ensures TightCLength(before + Server.CompactLength(n) + after, |before|) ==
            CLength(|Server.CompactLength(n)|, n)
  {
    var b := Server.CompactLength(n);
    var q := before + b + after;
    var k := |before|;
    assert At(q, k) == b[0];
    if n >= 0x80 {
      assert At(q, k + 1) == b[1];
      if n >= 0x4000 {
        assert At(q, k + 2) == b[2];
      }
    }
  }

  function Control(t: Server.Tight, resets: seq<bool>): Byte
    requires |resets| == 4 && (t.HasStream() ==> t.stream < 4)
  {
    16 * Server.ModeBits(t) + Server.ResetBits(resets)
  }

  /** The control byte selects the form of the rectangle and its stream. */
  lemma ControlReads(t: Server.Tight, resets: seq<bool>)
    requires |resets| == 4 && (t.HasStream() ==> t.stream < 4)
    ensures var ctl: nat := Control(t, resets);
            && ctl % 16 == Server.ResetBits(resets)
            && TightMode(ctl) == (match t
                                  case TightFill(_) => FillMode
                                  case TightImage(png, _) => ImageMode(png)
                                  case TightCopy(_, _, _) => CopyMode
                                  case TightIndexed(_, _, _, _) => FilterMode)
            && (t.HasStream() ==> ctl / 16 % 4 == t.stream)
  {
    var m := Server.ModeBits(t);
    assert Control(t, resets) as int / 16 == m;
  }

  lemma ResetFlags(resets: seq<bool>)
    requires |resets| == 4
    ensures var v := Server.ResetBits(resets);
            Flag(v, 1) == resets[0] && Flag(v, 2) == resets[1] && Flag(v, 4) == resets[2] && Flag(v, 8) == resets[3]
  {
  }

  lemma ResetReads<Z>(codec: Codec<Z>, zlibs: seq<Z>, resets: seq<bool>)
    requires |zlibs| == |resets| == 4
    ensures Reset(codec, zlibs, Server.ResetBits(resets)) == Server.AfterResets(codec, zlibs, resets)
  {
    ResetFlags(resets);
    hide Flag, Server.ResetBits;
    var a, b := Reset(codec, zlibs, Server.ResetBits(resets)), Server.AfterResets(codec, zlibs, resets);
    assert a[0] == b[0] && a[1] == b[1] && a[2] == b[2] && a[3] == b[3];
  }

  // ----- data, compressed or not -----

  lemma DataReads(plain: seq<Byte>, packed: seq<Byte>, before: seq<Byte>, after: seq<Byte>)
    requires |packed| < 0x40_0000
    ensures var q := before + Server.DataBytes(plain, packed) + after;
            var c := TightLength(q, |before|, |plain|);
            var end := |before| + |Server.DataBytes(plain, packed)|;
            && |before| + c.header + c.data == end <= |q|
            && q[|before| + c.header..end] == if |plain| < 12 then plain else packed
  {
    hide TightCLength, Server.CompactLength;
    var q := before + Server.DataBytes(plain, packed) + after;
    if |plain| >= 12 {
      var n := Server.CompactLength(|packed|);
      CompactReads(|packed|, before, packed + after);
      assert q == before + n + (packed + after);
    }
  }

  /** The data comes out of the stream that the control byte names, after the resets it asks for. */
  lemma DataUnpacks<Z>(codec: Codec<Z>, f: Fbu<Z>, a: Server.Area, resets: seq<bool>, t: Server.Tight)
    requires |f.zlibs| == |resets| == 4 && t.HasStream() && Server.TightFits(a, t)
    requires Server.TightUnpacks(codec, f.zlibs, a, resets, t)
    ensures var plain := Server.Plain(a, t);
            var r := TightData(codec, f, Control(t, resets), |plain|, if |plain| < 12 then plain else t.packed);
            && r.0 == Server.StreamsAfter(codec, f.zlibs, a, resets, t) && r.1.Some? && r.1.value == plain
  {
    ControlReads(t, resets);
    ResetReads(codec, f.zlibs, resets);
    hide Server.Plain, Reset, Server.AfterResets, Control, Server.TightFits;
  }

  /** The streams as the control byte wants them left */
  ghost function StreamsMeant<Z>(codec: Codec<Z>, zlibs: seq<Z>, a: Server.Area, resets: seq<bool>,
          t: Server.Tight): seq<Z>
    requires |zlibs| == |resets| == 4 && Server.TightFits(a, t)
  {
    if Server.Compressed(a, t) then Server.StreamsAfter(codec, zlibs, a, resets, t)
    else Server.AfterResets(codec, zlibs, resets)
  }

  /** Resets are lost exactly when nothing is decompressed and a stream to be reset is in use. */
  lemma ResetsLostIff<Z>(codec: Codec<Z>, zlibs: seq<Z>, a: Server.Area, resets: seq<bool>, t: Server.Tight)
    requires |zlibs| == |resets| == 4 && Server.TightFits(a, t)
    ensures Server.StreamsAfter(codec, zlibs, a, resets, t) == StreamsMeant(codec, zlibs, a, resets, t) <==>
            Server.Compressed(a, t) || forall k :: 0 <= k < 4 && resets[k] ==> zlibs[k] == codec.start
  {
    hide Server.Plain, Server.TightFits;
    var after := Server.AfterResets(codec, zlibs, resets);
    if forall k :: 0 <= k < 4 && resets[k] ==> zlibs[k] == codec.start {
      assert after == zlibs;
    } else {
      var k :| 0 <= k < 4 && resets[k] && zlibs[k] != codec.start;
      assert after[k] != zlibs[k];
    }
  }

  // ----- sizes -----

  lemma {:induction false} PackRowSize(cells: seq<nat>, k: nat, end: nat)
    requires k <= end + 7
    ensures |Server.PackRow(cells, k, end)| == if k >= end then 0 else (end - k + 7) / 8
    decreases end + 7 - k
  {
    if k < end {
      PackRowSize(cells, k + 8, end);
      assert k + 8 < end ==> (end - (k + 8) + 7) / 8 + 1 == (end - k + 7) / 8;
    }
  }

  lemma FullRow(cells: seq<nat>, k: nat, w: nat)
    ensures |Server.PackRow(cells, k, k + w)| == RowSize(w, 2)
  {
    PackRowSize(cells, k, k + w);
  }

  lemma OneMore(n: nat, r: nat)
    ensures n > 0 ==> Server.Area2(n, r) == r + Server.Area2(n - 1, r)
    ensures Server.Area2(0, r) == 0
  {
    if n > 0 {
      assert n * r == r + (n - 1) * r;
    }
  }

  lemma {:induction false} PackRowsSize(cells: seq<nat>, w: nat, j: nat, h: nat)
    requires j <= h
    ensures |Server.PackRows(cells, w, j, h)| == Server.Area2(h - j, RowSize(w, 2))
    decreases h - j
  {
    hide Server.At2, Server.PackRow, Server.Area2, RowSize;
    OneMore(h - j, RowSize(w, 2));
    if j < h {
      var k := Server.At2(w, 0, j);
      FullRow(cells, k, w);
      PackRowsSize(cells, w, j + 1, h);
    }
  }

  lemma SizeIs(w: nat, h: nat)
    ensures Server.Area2(w, h) == w * h && Server.Area2(h, w) == w * h && 3 * (w * h) == w * h * DEPTH
  {
  }

  /** The size the client expects */
  lemma PlainSize(a: Server.Area, t: Server.Tight)
    requires t.HasStream() && Server.TightFits(a, t)
    ensures |Server.Plain(a, t)| ==
            if t.TightCopy? then a.w * a.h * DEPTH else RowSize(a.w, |t.colours|) * a.h
  {
    hide Server.Area2;
    SizeIs(a.w, a.h);
    if t.TightIndexed? && |t.colours| == 2 {
      SizeIs(RowSize(a.w, 2), a.h);
      PackRowsSize(t.cells, a.w, 0, a.h);
      hide RowSize;
    }
  }

  // ----- pixels -----

  lemma {:induction false} RgbAt(ps: seq<Server.Pixel>, k: nat)
    requires k < |ps|
    ensures Rgb3(Server.RgbBytes(ps), 3 * k) == ps[k].Shade()
  {
    var b := Server.RgbBytes(ps);
    if k > 0 {
      RgbAt(ps[1..], k - 1);
      var c := Server.RgbBytes(ps[1..]);
      assert b[3..] == c;
      assert b[3 * k] == c[3 * (k - 1)] && b[3 * k + 1] == c[3 * (k - 1) + 1] && b[3 * k + 2] == c[3 * (k - 1) + 2];
    }
  }

  lemma {:induction false} CellByteAt(cells: seq<nat>, k: nat)
    requires k < |cells| && forall l :: 0 <= l < |cells| ==> cells[l] < 256
    ensures Server.CellBytes(cells)[k] == cells[k]
  {
    if k > 0 {
      CellByteAt(cells[1..], k - 1);
    }
  }

  lemma {:induction false} PackedBits(cells: seq<nat>, k: nat, end: nat, n: nat, b: nat)
    requires b < n
    ensures BitOf(Server.PackBits(cells, k, end, n), n - 1 - b) == Server.CellBit(cells, k + b, end)
    decreases n
  {
    if b < n - 1 {
      ShrHalf(Server.PackBits(cells, k, end, n), n - 2 - b);
      PackedBits(cells, k, end, n - 1, b);
    }
  }

  lemma {:induction false} PackRowAt(cells: seq<nat>, k: nat, end: nat, m: nat)
    requires k + 8 * m < end
    ensures m < |Server.PackRow(cells, k, end)|
    ensures Server.PackRow(cells, k, end)[m] == Server.PackByte(cells, k + 8 * m, end)
    decreases m
  {
    hide Server.PackByte;
    if m > 0 {
      PackRowAt(cells, k + 8, end, m - 1);
    }
  }

  lemma RowStart(w: nat, i: nat, j: nat)
    ensures Server.At2(w, i, j) == Server.At2(w, 0, j) + i && Server.At2(w, i, 0) == i
  {
  }

  lemma {:induction false} PackRowsAt(cells: seq<nat>, w: nat, j: nat, h: nat, y: nat, m: nat)
    requires j <= y < h && 8 * m < w
    ensures var i := Server.At2(RowSize(w, 2), m, y - j);
            && 0 <= i < |Server.PackRows(cells, w, j, h)|
            && Server.PackRows(cells, w, j, h)[i] ==
               Server.PackByte(cells, Server.At2(w, 8 * m, y), Server.At2(w, 0, y) + w)
    decreases y - j
  {
    hide Server.PackRow, Server.PackByte, Server.At2, RowSize;
    var k, r := Server.At2(w, 0, j), RowSize(w, 2);
    FullRow(cells, k, w);
    RowStart(w, 8 * m, y);
    RowStart(r, m, 0);
    if y == j {
      PackRowAt(cells, k, k + w, m);
    } else {
      NextRow(r, m, y - j);
      PackRowsAt(cells, w, j + 1, h, y, m);
    }
  }

  lemma SelectsBit(colors: seq<Byte>, w: nat, data: seq<Byte>, i: nat, j: nat)
    requires |colors| == 6 && Server.At2(RowSize(w, 2), i / 8, j) < |data|
    ensures Selected(colors, w, data, i, j) ==
            Rgb3(colors, 3 * BitOf(data[Server.At2(RowSize(w, 2), i / 8, j)], 7 - i % 8))
  {
    hide BitOf, Rgb3;
  }

  lemma BitPlace(cells: seq<nat>, start: nat, end: nat, b: nat)
    requires b < 8 && start + b < end && start + b < |cells| && cells[start + b] < 2
    ensures BitOf(Server.PackByte(cells, start, end), 7 - b) == cells[start + b]
  {
    hide BitOf;
    PackedBits(cells, start, end, 8, b);
  }

  /** A pixel of a two-colour picture is selected by its bit. */
  lemma SelectedBit(a: Server.Area, t: Server.Tight, i: nat, j: nat)
    requires t.TightIndexed? && Server.TightFits(a, t) && |t.colours| == 2 && i < a.w && j < a.h
    ensures var k := Server.At2(a.w, i, j);
            && 0 <= k < |t.cells|
            && Selected(Server.RgbBytes(t.colours), a.w, Server.Plain(a, t), i, j) ==
               Rgb3(Server.RgbBytes(t.colours), 3 * t.cells[k])
  {
    hide Server.RgbBytes, BitOf, Server.PackByte, Server.PackRows, Rgb3, Selected, Server.At2, Server.Area2, RowSize;
    var data, m, b := Server.PackRows(t.cells, a.w, 0, a.h), i / 8, i % 8;
    PackRowsAt(t.cells, a.w, 0, a.h, j, m);
    SelectsBit(Server.RgbBytes(t.colours), a.w, data, i, j);
    RowStart(a.w, i, j);
    RowStart(a.w, 8 * m, j);
    InPicture(a.w, a.h, i, j);
    BitPlace(t.cells, Server.At2(a.w, 8 * m, j), Server.At2(a.w, 0, j) + a.w, b);
  }

  lemma SelectedIs(a: Server.Area, t: Server.Tight, i: nat, j: nat)
    requires t.TightIndexed? && Server.TightFits(a, t) && i < a.w && j < a.h
    ensures Selected(Server.RgbBytes(t.colours), a.w, Server.Plain(a, t), i, j) == Server.TightPicture(a.w, t, i, j)
  {
    var k := Server.At2(a.w, i, j);
    InPicture(a.w, a.h, i, j);
    RgbAt(t.colours, t.cells[k]);
    hide Server.RgbBytes, Rgb3;
    if |t.colours| == 2 {
      SelectedBit(a, t, i, j);
      hide Selected;
    } else {
      CellByteAt(t.cells, k);
      hide Server.CellBytes;
    }
  }

  lemma CopiedIs(a: Server.Area, t: Server.Tight, i: nat, j: nat)
    requires t.TightCopy? && Server.TightFits(a, t) && i < a.w && j < a.h
    ensures Rgb3(Server.Plain(a, t), 3 * (j * a.w + i)) == Server.PixelAt(t.pixels, a.w, i, j)
  {
    hide Rgb3, Server.RgbBytes;
    InPicture(a.w, a.h, i, j);
    RgbAt(t.pixels, Server.At2(a.w, i, j));
  }

  /** What reaches the display */
  function EffectOf(a: Server.Area, t: Server.Tight): Effect
    requires Server.TightFits(a, t)
  {
    match t
    case TightFill(p) => Fill(a.x, a.y, a.w, a.h, [p.blue, p.green, p.red])
    case TightImage(png, file) => Image(a.x, a.y, png, file)
    case TightCopy(_, _, _) => Rgb(a.x, a.y, a.w, a.h, Server.Plain(a, t))
    case TightIndexed(_, colours, _, _) => Palette(a.x, a.y, a.w, a.h, Server.RgbBytes(colours), Server.Plain(a, t))
  }

  lemma EffectShown(a: Server.Area, t: Server.Tight, s: Screen, px: int, py: int)
    requires Server.TightFits(a, t) && !t.TightImage?
    ensures Show(EffectOf(a, t), s)(px, py) ==
            if Inside(a.x, a.y, a.w, a.h, px, py) then Server.TightPicture(a.w, t, px - a.x, py - a.y) else s(px, py)
  {
    hide Server.RgbBytes, Selected, Server.PackRows, Server.CellBytes, Server.PixelAt, Server.Area2;
    if Inside(a.x, a.y, a.w, a.h, px, py) {
      if t.TightCopy? {
        CopiedIs(a, t, px - a.x, py - a.y);
        hide Rgb3;
      } else if t.TightIndexed? {
        SelectedIs(a, t, px - a.x, py - a.y);
        hide Rgb3, Server.TightPicture;
      }
    }
  }

  // ----- reading a rectangle -----

  ghost predicate Reads<Z>(codec: Codec<Z>, f: Fbu<Z>, a: Server.Area, resets: seq<bool>, t: Server.Tight,
          rest: seq<Byte>)
    requires |f.zlibs| == |resets| == 4 && Server.TightFits(a, t)
  {
    var b := Server.TightBody(a, resets, t);
    var q := b + rest;
    && !TightFails(f, q) && TightNeed(f, q) == |b|
    && TightDraw(codec, f, q) == (Server.StreamsAfter(codec, f.zlibs, a, resets, t), Some(EffectOf(a, t)))
  }

  predicate Placed<Z>(f: Fbu<Z>, a: Server.Area) {
    f.x == a.x && f.y == a.y && f.width == a.w && f.height == a.h && |f.zlibs| == 4
  }

  lemma FillReads<Z>(codec: Codec<Z>, f: Fbu<Z>, a: Server.Area, resets: seq<bool>, t: Server.Tight, rest: seq<Byte>)
    requires Placed(f, a) && |resets| == 4 && t.TightFill? && Server.TightFits(a, t)
    ensures Reads(codec, f, a, resets, t, rest)
  {
    ControlReads(t, resets);
    hide TightMode, Server.ModeBits, Server.ResetBits;
    var q := Server.TightBody(a, resets, t) + rest;
    assert q[0] == Control(t, resets) && q[1] == t.pixel.red && q[2] == t.pixel.green && q[3] == t.pixel.blue;
  }

  lemma ImageReads<Z>(codec: Codec<Z>, f: Fbu<Z>, a: Server.Area, resets: seq<bool>, t: Server.Tight, rest: seq<Byte>)
    requires Placed(f, a) && |resets| == 4 && t.TightImage? && Server.TightFits(a, t)
    ensures Reads(codec, f, a, resets, t, rest)
  {
    ControlReads(t, resets);
    hide TightMode, Server.ModeBits, Server.ResetBits, Server.CompactLength, TightCLength;
    var c, n := [Control(t, resets)], Server.CompactLength(|t.file|);
    var q := Server.TightBody(a, resets, t) + rest;
    assert q == c + n + (t.file + rest);
    CompactReads(|t.file|, c, t.file + rest);
    assert q[1 + |n|..1 + |n| + |t.file|] == t.file;
  }

  lemma CopyReads<Z>(codec: Codec<Z>, f: Fbu<Z>, a: Server.Area, resets: seq<bool>, t: Server.Tight, rest: seq<Byte>)
    requires Placed(f, a) && |resets| == 4 && t.TightCopy? && Server.TightFits(a, t) && f.encoding == TIGHT
    requires Server.TightUnpacks(codec, f.zlibs, a, resets, t)
    ensures Reads(codec, f, a, resets, t, rest)
  {
    hide TightMode, Server.ModeBits, Server.ResetBits, TightCLength, Server.Plain, Server.TightUnpacks, TightLength,
      TightData, Server.StreamsAfter, Server.DataBytes;
    ControlReads(t, resets);
    PlainSize(a, t);
    DataUnpacks(codec, f, a, resets, t);
    hide Server.TightFits;
    var c, data := [Control(t, resets)], Server.DataBytes(Server.Plain(a, t), t.packed);
    var q := Server.TightBody(a, resets, t) + rest;
    assert q == c + data + rest;
    DataReads(Server.Plain(a, t), t.packed, c, rest);
  }

  /** Everything in front of the data of an indexed rectangle */
  function IndexedHead(resets: seq<bool>, t: Server.Tight): seq<Byte>
    requires |resets| == 4 && t.TightIndexed? && t.stream < 4 && 2 <= |t.colours| <= 256
  {
    [Control(t, resets), 1, |t.colours| - 1] + Server.RgbBytes(t.colours)
  }

  lemma IndexedLayout(a: Server.Area, resets: seq<bool>, t: Server.Tight, rest: seq<Byte>)
    requires |resets| == 4 && t.TightIndexed? && Server.TightFits(a, t)
    ensures var q, c := Server.TightBody(a, resets, t) + rest, IndexedHead(resets, t);
            && q == c + Server.DataBytes(Server.Plain(a, t), t.packed) + rest
            && |c| == 3 + PaletteColors(q) * DEPTH <= |q| && PaletteColors(q) == |t.colours|
            && q[0] == Control(t, resets) && q[1] == 1 && q[3..|c|] == Server.RgbBytes(t.colours)
  {
    hide Server.ModeBits, Server.ResetBits, Server.Plain, Server.DataBytes, Server.RgbBytes;
  }

  lemma FilterForm<Z>(codec: Codec<Z>, f: Fbu<Z>, q: seq<Byte>, p: nat, size: nat)
    requires |f.zlibs| == 4 && 3 <= p <= |q| && TightMode(q[0]).FilterMode? && q[1] == 1 && f.encoding == TIGHT
    requires p == 3 + PaletteColors(q) * DEPTH && size == RowSize(f.width, PaletteColors(q)) * f.height
    requires var c := TightLength(q, p, size); p + c.header + c.data <= |q|
    ensures var c := TightLength(q, p, size);
            var r := TightData(codec, f, q[0], size, q[p + c.header..p + c.header + c.data]);
            && !TightFails(f, q) && TightNeed(f, q) == p + c.header + c.data
            && TightDraw(codec, f, q) == (r.0, PaletteOf(f, q[3..p], r.1))
  {
    hide TightData, TightLength, RowSize, PaletteColors;
  }

  lemma IndexedReads<Z>(codec: Codec<Z>, f: Fbu<Z>, a: Server.Area, resets: seq<bool>, t: Server.Tight, rest: seq<Byte>)
    requires Placed(f, a) && |resets| == 4 && t.TightIndexed? && Server.TightFits(a, t) && f.encoding == TIGHT
    requires Server.TightUnpacks(codec, f.zlibs, a, resets, t)
    ensures Reads(codec, f, a, resets, t, rest)
  {
    hide Server.ModeBits, Server.ResetBits, Server.Plain, Server.TightUnpacks, TightLength, TightData,
      Server.StreamsAfter,
      Server.DataBytes, Server.RgbBytes, RowSize, Control, Server.TightBody, IndexedHead, PaletteColors, TightMode,
      TightNeed, TightDraw, TightFails, Server.Area2;
    var q, plain := Server.TightBody(a, resets, t) + rest, Server.Plain(a, t);
    IndexedLayout(a, resets, t, rest);
    ControlReads(t, resets);
    PlainSize(a, t);
    DataUnpacks(codec, f, a, resets, t);
    DataReads(plain, t.packed, IndexedHead(resets, t), rest);
    FilterForm(codec, f, q, |IndexedHead(resets, t)|, |plain|);
  }

  lemma FormReads<Z>(codec: Codec<Z>, f: Fbu<Z>, a: Server.Area, resets: seq<bool>, t: Server.Tight, rest: seq<Byte>)
    requires Placed(f, a) && |resets| == 4 && Server.TightFits(a, t) && Server.TightNumber(f.encoding, t)
    requires Server.TightUnpacks(codec, f.zlibs, a, resets, t)
    ensures Reads(codec, f, a, resets, t, rest)
  {
    hide Reads, Server.TightFits, Server.TightUnpacks;
    match t
    case TightFill(_) => FillReads(codec, f, a, resets, t, rest);
    case TightImage(_, _) => ImageReads(codec, f, a, resets, t, rest);
    case TightCopy(_, _, _) => CopyReads(codec, f, a, resets, t, rest);
    case TightIndexed(_, _, _, _) => IndexedReads(codec, f, a, resets, t, rest);
  }

  /** The step on a rectangle whose bytes are all there */
  lemma TightSteps<Z>(codec: Codec<Z>, e: Fbu<Z>, a: Server.Area, resets: seq<bool>, t: Server.Tight, rest: seq<Byte>)
    returns (g: Fbu<Z>)
    requires Valid(e) && !e.dead && e.rects > 0 && e.bytes > 0 && e.subrects == 0 && Placed(e, a)
    requires |resets| == 4 && Server.TightFits(a, t) && Server.TightNumber(e.encoding, t)
    requires Server.TightUnpacks(codec, e.zlibs, a, resets, t)
    ensures Takes(codec, e, Server.TightBody(a, resets, t), rest, g, [EffectOf(a, t)])
    ensures g.zlibs == Server.StreamsAfter(codec, e.zlibs, a, resets, t)
  {
    hide Server.TightFits, Server.TightUnpacks, Leads, TightFails, TightNeed, TightDraw, Server.TightBody,
      Server.StreamsAfter, EffectOf;
    FormReads(codec, e, a, resets, t, rest);
    var b := Server.TightBody(a, resets, t);
    var q := b + rest;
    assert q[|b|..] == rest;
    LeadsOne(codec, e, q);
    StepValid(codec, e, q);
    g := Step(codec, e, q).f;
    assert [EffectOf(a, t)] + [] == [EffectOf(a, t)];
  }

  /**
   A Tight rectangle shows its picture: one colour, its pixels, or the palette colours its cells select; an image is
   handed over byte for byte. Compressed data is taken from the right stream, which moves on.
   */
  lemma TightDecodes<Z>(codec: Codec<Z>, f: Fbu<Z>, a: Server.Area, encoding: int, resets: seq<bool>, t: Server.Tight,
          rest: seq<Byte>, s: Screen)
    returns (g: Fbu<Z>, fx: seq<Effect>)
    requires AtHeader(f) && a.Fits() && |resets| == 4 && Server.TightNumber(encoding, t) && Server.TightFits(a, t)
    requires Server.TightUnpacks(codec, f.zlibs, a, resets, t)
    ensures Takes(codec, f, Server.TightBytes(a, encoding, resets, t), rest, g, fx)
    ensures g.zlibs == Server.StreamsAfter(codec, f.zlibs, a, resets, t)
    ensures if t.TightImage? then fx == [Image(a.x, a.y, t.png, t.file)]
            else OnlyDraws(fx) &&
                 Shows(fx, s, a.Put((i: int, j: int) => Server.TightPicture(a.w, t, i, j), s))
  {
    hide Server.TightFits, Server.TightUnpacks, Leads, Step, Server.TightBody, Server.StreamsAfter, Server.HeaderBytes,
      ShowAll, Show, Server.TightPicture;
    var body := Server.TightBody(a, resets, t) + rest;
    HeaderSteps(codec, f, a, encoding, body);
    var e := Enter(Headed(f, a, encoding));
    assert Server.HeaderBytes(a, encoding) + body == Server.TightBytes(a, encoding, resets, t) + rest;
    g := TightSteps(codec, e, a, resets, t, rest);
    fx := [EffectOf(a, t)];
    LeadsTrans(codec, f, Server.TightBytes(a, encoding, resets, t) + rest, Point(e, body, []),
               Point(g, rest, fx + Tail(g)));
    assert [] + (fx + Tail(g)) == fx + Tail(g);
    if !t.TightImage? {
      ShowOne(EffectOf(a, t), s);
      forall px, py
        ensures ShowAll(fx, s)(px, py) == a.Put((i: int, j: int) => Server.TightPicture(a.w, t, i, j), s)(px, py)
      {
        EffectShown(a, t, s, px, py);
      }
    }
  }

  // ----- the palette loops -----

  lemma RowSizeIs(w: nat, n: nat, i: nat)
    requires i < w
    ensures RowSize(w, n) == (if n <= 2 then (w + 7) / 8 else w) && i / 8 < (w + 7) / 8
  {
  }

  lemma SelectedIndex(colors: seq<Byte>, n: nat, w: nat, data: seq<Byte>, i: nat, j: nat)
    requires n >= 2 && |colors| == 3 * n && (j + 1) * RowSize(w, n) <= |data| && i < w
    ensures Selected(colors, w, data, i, j) == Rgb3(colors, 3 * Pixels.IndexAt(n, w, data, j, i))
  {
    hide BitOf, Rgb3, RowSize;
    var r := RowSize(w, n);
    assert (j + 1) * r == j * r + r;
    RowSizeIs(w, n, i);
  }

  lemma ColorShade(colors: seq<Byte>, index: nat, cells: seq<int>, k: nat)
    requires k + 2 < |cells|
    requires var c := Pixels.Color(colors, index); cells[k] == c[0] && cells[k + 1] == c[1] && cells[k + 2] == c[2]
    ensures Rgb3(cells, k) == Rgb3(colors, 3 * index)
  {
  }

  lemma ExpandedPixel(colors: seq<Byte>, n: nat, w: nat, data: seq<Byte>, h: nat, i: nat, j: nat)
    requires n >= 2 && |colors| == 3 * n && h * RowSize(w, n) <= |data| && i < w && j < h
    ensures Rgb3(Pixels.Cells(n, w, colors, data, h), 3 * (j * w + i)) == Selected(colors, w, data, i, j)
  {
    hide Pixels.Cells, Pixels.IndexAt, RowSize, Selected, Rgb3, Pixels.Color;
    Pixels.MulMono(j + 1, h, RowSize(w, n));
    SelectedIndex(colors, n, w, data, i, j);
    var k, index := Pixels.CellIndex(w, j, i, 0), Pixels.IndexAt(n, w, data, j, i);
    var cells := Pixels.Cells(n, w, colors, data, h);
    Pixels.CellAt(n, w, colors, data, h, j, i, 0);
    Pixels.CellAt(n, w, colors, data, h, j, i, 1);
    Pixels.CellAt(n, w, colors, data, h, j, i, 2);
    assert Pixels.CellIndex(w, j, i, 1) == k + 1 && Pixels.CellIndex(w, j, i, 2) == k + 2;
    ColorShade(colors, index, cells, k);
  }

  /** What the palette loops fill in, drawn as three bytes per pixel, is the picture its cells select. */
  lemma PaletteIsExpanded(a: Server.Area, colors: seq<Byte>, n: nat, data: seq<Byte>, s: Screen, px: int, py: int)
    requires n >= 2 && |colors| == 3 * n && a.h * RowSize(a.w, n) <= |data|
    ensures Show(Rgb(a.x, a.y, a.w, a.h, Pixels.Cells(n, a.w, colors, data, a.h)), s)(px, py) ==
            Show(Palette(a.x, a.y, a.w, a.h, colors, data), s)(px, py)
  {
    hide Selected, Rgb3, Pixels.Cells, RowSize;
    if Inside(a.x, a.y, a.w, a.h, px, py) {
      ExpandedPixel(colors, n, a.w, data, a.h, px - a.x, py - a.y);
    }
  }
}
