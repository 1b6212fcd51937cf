/**
 The server's side of the connection (sections 7.6 and 7.7 of RFC 6143 and the Tight encoding): how updates and
 other messages are written, and what they mean as pixels. Nothing here refers to how the client reads them.
 */
module RfbServer {
  import opened Common
  import opened Bits
  import opened Screens
  import RfbSpec

  // ----- numbers, high byte first -----

  function U16(v: nat): (b: seq<Byte>)
    requires v < 0x1_0000
    ensures |b| == 2
  {
    [v / 0x100, v % 0x100]
  }

  function U32(v: nat): (b: seq<Byte>)
    requires v < 0x1_0000_0000
    ensures |b| == 4
  {
    [v / 0x100_0000, v / 0x1_0000 % 0x100, v / 0x100 % 0x100, v % 0x100]
  }

  /** Two's complement */
  function S32(v: int): (b: seq<Byte>)
    requires -0x8000_0000 <= v < 0x8000_0000
    ensures |b| == 4
  {
    U32(if v < 0 then v + 0x1_0000_0000 else v)
  }

  /** A length of the Tight encoding: seven bits, seven bits, eight bits, lowest first, with a flag for more */
  function CompactLength(n: nat): (b: seq<Byte>)
    requires n < 0x40_0000
    ensures 1 <= |b| <= 3
  {
    if n < 0x80 then [n]
    else if n < 0x4000 then [0x80 + n % 0x80, n / 0x80]
    else [0x80 + n % 0x80, 0x80 + n / 0x80 % 0x80, n / 0x4000]
  }

  // ----- pixels -----

  datatype Pixel = Pixel(red: Byte, green: Byte, blue: Byte, pad: Byte) {
    function Shade(): Shade {
      Screens.Shade(red, green, blue)
    }
  }

  /** The format the client asks for: 32 bits, blue in the first byte */
  function PixelBytes(p: Pixel): (b: seq<Byte>)
    ensures |b| == 4
  {
    [p.blue, p.green, p.red, p.pad]
  }

  function PictureBytes(ps: seq<Pixel>): (b: seq<Byte>)
    ensures |b| == 4 * |ps|
  {
    if ps == [] then [] else PixelBytes(ps[0]) + PictureBytes(ps[1..])
  }

  /** Three bytes per pixel, red first */
  function RgbBytes(ps: seq<Pixel>): (b: seq<Byte>)
    ensures |b| == 3 * |ps|
  {
    if ps == [] then [] else [ps[0].red, ps[0].green, ps[0].blue] + RgbBytes(ps[1..])
  }

  function Area2(w: nat, h: nat): nat { w * h }

  /** The place of pixel (i, j) in a picture of width w, row by row */
  function At2(w: nat, i: int, j: int): (k: int)
    ensures 0 <= i && 0 <= j ==> k >= i
  {
    j * w + i
  }

  function PixelAt(ps: seq<Pixel>, w: nat, i: int, j: int): Shade {
    var k := At2(w, i, j);
    if 0 <= k < |ps| then ps[k].Shade() else Shade(UNDEFINED, UNDEFINED, UNDEFINED)
  }

  /** A filled rectangle, relative to what it is part of */
  datatype Spot = Spot(x: nat, y: nat, w: nat, h: nat, pixel: Pixel) {
    predicate Has(i: int, j: int) {
      Inside(x, y, w, h, i, j)
    }
  }

  /** The colour of the last spot that holds the pixel */
  function Top(spots: seq<Spot>, i: int, j: int, under: Shade): Shade {
    if spots == [] then under
    else
      var last := spots[|spots| - 1];
      if last.Has(i, j) then last.pixel.Shade() else Top(spots[..|spots| - 1], i, j, under)
  }

  // ----- rectangles -----

  datatype Area = Area(x: nat, y: nat, w: nat, h: nat) {
    predicate Fits() {
      x < 0x1_0000 && y < 0x1_0000 && w < 0x1_0000 && h < 0x1_0000
    }

    function Put(picture: Screen, s: Screen): Screen {
      Screens.Put(x, y, w, h, picture, s)
    }
  }

  /** Position, size and encoding number (section 7.6.1 of RFC 6143) */
  function HeaderBytes(a: Area, encoding: int): (b: seq<Byte>)
    requires a.Fits() && -0x8000_0000 <= encoding < 0x8000_0000
    ensures |b| == 12
  {
    U16(a.x) + U16(a.y) + U16(a.w) + U16(a.h) + S32(encoding)
  }

  // ----- hextile (section 7.7.4 of RFC 6143) -----

  datatype HexTile =
    | RawTile(pixels: seq<Pixel>)
    | PlainTile(background: Option<Pixel>, foreground: Option<Pixel>, spots: seq<Spot>, coloured: bool)

  predicate Blank(t: HexTile) {
    t.PlainTile? && t.background.None? && t.foreground.None? && t.spots == []
  }

  function OptionBytes(p: Option<Pixel>): seq<Byte> {
    if p.None? then [] else PixelBytes(p.value)
  }

  function FlagByte(t: HexTile): Byte {
    if t.RawTile? then 1
    else
      (if t.background.Some? then 2 else 0) + (if t.foreground.Some? then 4 else 0) +
      (if t.spots == [] then 0 else if t.coloured then 24 else 8)
  }

  predicate SpotFits(b: Spot) {
    b.x < 16 && b.y < 16 && 1 <= b.w <= 16 && 1 <= b.h <= 16
  }

  function SpotBytes(b: Spot, coloured: bool): (s: seq<Byte>)
    requires SpotFits(b)
    ensures |s| == if coloured then 6 else 2
  {
    (if coloured then PixelBytes(b.pixel) else []) + [16 * b.x + b.y, 16 * (b.w - 1) + (b.h - 1)]
  }

  function SpotsBytes(spots: seq<Spot>, coloured: bool): (s: seq<Byte>)
    requires forall k :: 0 <= k < |spots| ==> SpotFits(spots[k])
    ensures |s| == |spots| * if coloured then 6 else 2
  {
    if spots == [] then [] else SpotBytes(spots[0], coloured) + SpotsBytes(spots[1..], coloured)
  }

  predicate TileFits(t: HexTile) {
    t.PlainTile? ==> |t.spots| < 256 && forall k :: 0 <= k < |t.spots| ==> SpotFits(t.spots[k])
  }

  function TileBytes(t: HexTile): seq<Byte>
    requires TileFits(t)
  {
    if t.RawTile? then [FlagByte(t)] + PictureBytes(t.pixels)
    else
      [FlagByte(t)] + OptionBytes(t.background) + OptionBytes(t.foreground) +
      if t.spots == [] then [] else [|t.spots|] + SpotsBytes(t.spots, t.coloured)
  }

  /** The background in force at tile n: of the last tile up to it that carries one */
  function BackgroundAt(tiles: seq<HexTile>, n: nat): Option<Pixel>
    requires n < |tiles|
  {
    if tiles[n].PlainTile? && tiles[n].background.Some? then tiles[n].background
    else if n == 0 then None else BackgroundAt(tiles, n - 1)
  }

  function ForegroundAt(tiles: seq<HexTile>, n: nat): Option<Pixel>
    requires n < |tiles|
  {
    if tiles[n].PlainTile? && tiles[n].foreground.Some? then tiles[n].foreground
    else if n == 0 then None else ForegroundAt(tiles, n - 1)
  }

  /** Spots without their own colour take the foreground. */
  function Recoloured(spots: seq<Spot>, pixel: Pixel): (r: seq<Spot>)
    ensures |r| == |spots|
  {
    if spots == [] then [] else [spots[0].(pixel := pixel)] + Recoloured(spots[1..], pixel)
  }

  function TilesAcross(w: nat): nat { (w + 15) / 16 }

  /** Tile n, counted row by row from the top left */
  function TileArea(a: Area, n: nat): Area
    requires a.w > 0 && n < TilesAcross(a.w) * TilesAcross(a.h)
  {
    var left, top := n % TilesAcross(a.w) * 16, n / TilesAcross(a.w) * 16;
    Area(a.x + left, a.y + top, Max(0, Min(16, a.w - left)), Max(0, Min(16, a.h - top)))
  }

  /** What tile n shows, relative to its corner */
  function TilePicture(tiles: seq<HexTile>, n: nat, w: nat, i: int, j: int): Shade
    requires n < |tiles|
  {
    var t := tiles[n];
    if t.RawTile? then PixelAt(t.pixels, w, i, j)
    else
      var under := BackgroundAt(tiles, n);
      var over := if t.coloured || ForegroundAt(tiles, n).None? then t.spots
                  else Recoloured(t.spots, ForegroundAt(tiles, n).value);
      Top(over, i, j, if under.Some? then under.value.Shade() else Shade(UNDEFINED, UNDEFINED, UNDEFINED))
  }

  predicate InsideArea(a: Area, b: Spot) {
    b.x + b.w <= a.w && b.y + b.h <= a.h
  }

  predicate AllInside(a: Area, spots: seq<Spot>) {
    forall k :: 0 <= k < |spots| ==> InsideArea(a, spots[k])
  }

  /**
   Tiles are complete, the first one that is not raw carries a background, and spots have a colour and lie inside
   their tile.
   */
  predicate HexFits(a: Area, tiles: seq<HexTile>) {
    && a.w > 0 && a.h > 0 && |tiles| == TilesAcross(a.w) * TilesAcross(a.h)
    && forall n :: 0 <= n < |tiles| ==>
         && TileFits(tiles[n])
         && (tiles[n].RawTile? ==> |tiles[n].pixels| == Area2(TileArea(a, n).w, TileArea(a, n).h))
         && (tiles[n].PlainTile? ==>
               BackgroundAt(tiles, n).Some? && AllInside(TileArea(a, n), tiles[n].spots))
         && (tiles[n].PlainTile? && tiles[n].spots != [] && !tiles[n].coloured ==> ForegroundAt(tiles, n).Some?)
  }

  /** The tile that pixel (i, j) of the rectangle lies in */
  function TileOf(a: Area, i: nat, j: nat): nat { j / 16 * TilesAcross(a.w) + i / 16 }

  /** A blank tile right after a raw one: the standard gives it the background in force, this client leaves it out. */
  predicate BlankAfterRaw(tiles: seq<HexTile>, n: nat)
    requires n < |tiles|
  {
    Blank(tiles[n]) && n > 0 && tiles[n - 1].RawTile?
  }

  function MeantPixel(a: Area, tiles: seq<HexTile>, n: nat, px: int, py: int): Shade
    requires a.w > 0 && n < |tiles| == TilesAcross(a.w) * TilesAcross(a.h)
  {
    var t := TileArea(a, n);
    TilePicture(tiles, n, t.w, px - t.x, py - t.y)
  }

  /** What a place of the screen shows after tile n, which lies there, was drawn */
  function HexPixel(a: Area, tiles: seq<HexTile>, n: nat, s: Screen, px: int, py: int): Shade
    requires a.w > 0 && n < |tiles| == TilesAcross(a.w) * TilesAcross(a.h)
  {
    if BlankAfterRaw(tiles, n) then s(px, py) else MeantPixel(a, tiles, n, px, py)
  }

  /** The screen after the tiles from n on were drawn */
  function HexFrom(a: Area, tiles: seq<HexTile>, n: nat, s: Screen): Screen
    requires a.w > 0 && |tiles| == TilesAcross(a.w) * TilesAcross(a.h)
  {
    (px: int, py: int) =>
      if Inside(a.x, a.y, a.w, a.h, px, py) && n <= TileOf(a, px - a.x, py - a.y) < |tiles|
      then HexPixel(a, tiles, TileOf(a, px - a.x, py - a.y), s, px, py) else s(px, py)
  }

  /** The rectangle as the standard has it, without the exception */
  function HexMeant(a: Area, tiles: seq<HexTile>, s: Screen): Screen
    requires a.w > 0 && |tiles| == TilesAcross(a.w) * TilesAcross(a.h)
  {
    (px: int, py: int) =>
      if Inside(a.x, a.y, a.w, a.h, px, py) && TileOf(a, px - a.x, py - a.y) < |tiles| then
        MeantPixel(a, tiles, TileOf(a, px - a.x, py - a.y), px, py)
      else s(px, py)
  }

  function HexBytes(tiles: seq<HexTile>): seq<Byte>
    requires forall n :: 0 <= n < |tiles| ==> TileFits(tiles[n])
  {
    if tiles == [] then [] else TileBytes(tiles[0]) + HexBytes(tiles[1..])
  }

  // ----- the other encodings -----

  const RAW_NUMBER := 0
  const COPYRECT_NUMBER := 1
  const RRE_NUMBER := 2
  const HEXTILE_NUMBER := 5
  const TIGHT_NUMBER := 7
  const TIGHT_PNG_NUMBER := -260
  const CURSOR_NUMBER := -239
  const DESKTOP_SIZE_NUMBER := -223
  const LAST_RECT_NUMBER := -224

  function RawBytes(a: Area, pixels: seq<Pixel>): seq<Byte>
    requires a.Fits()
  {
    HeaderBytes(a, RAW_NUMBER) + PictureBytes(pixels)
  }

  function CopyBytes(a: Area, fromX: nat, fromY: nat): seq<Byte>
    requires a.Fits() && fromX < 0x1_0000 && fromY < 0x1_0000
  {
    HeaderBytes(a, COPYRECT_NUMBER) + (U16(fromX) + U16(fromY))
  }

  function SubrectBytes(b: Spot): (s: seq<Byte>)
    requires b.x < 0x1_0000 && b.y < 0x1_0000 && b.w < 0x1_0000 && b.h < 0x1_0000
    ensures |s| == 12
  {
    PixelBytes(b.pixel) + (U16(b.x) + U16(b.y) + U16(b.w) + U16(b.h))
  }

  function SubrectsBytes(a: Area, spots: seq<Spot>): (s: seq<Byte>)
    requires a.Fits() && AllInside(a, spots)
    ensures |s| == 12 * |spots|
  {
    if spots == [] then []
    else
      assert InsideArea(a, spots[0]);
      SubrectBytes(spots[0]) + SubrectsBytes(a, spots[1..])
  }

  predicate RreFits(a: Area, spots: seq<Spot>) {
    a.Fits() && |spots| < 0x8000_0000 && AllInside(a, spots)
  }

  function RreBytes(a: Area, background: Pixel, spots: seq<Spot>): seq<Byte>
    requires RreFits(a, spots)
  {
    HeaderBytes(a, RRE_NUMBER) + (U32(|spots|) + PixelBytes(background) + SubrectsBytes(a, spots))
  }

  /** The last subrectangle that holds a pixel, else the background */
  function RreShown(a: Area, background: Pixel, spots: seq<Spot>, s: Screen): Screen {
    a.Put((i: int, j: int) => Top(spots, i, j, background.Shade()), s)
  }

  function HextileBytes(a: Area, tiles: seq<HexTile>): seq<Byte>
    requires a.Fits() && HexFits(a, tiles)
  {
    HeaderBytes(a, HEXTILE_NUMBER) + HexBytes(tiles)
  }

  // ----- Tight -----

  datatype Tight =
    | TightFill(pixel: Pixel)
    | TightImage(png: bool, file: seq<Byte>)
    | TightCopy(stream: nat, pixels: seq<Pixel>, packed: seq<Byte>)
    | TightIndexed(stream: nat, colours: seq<Pixel>, cells: seq<nat>, packed: seq<Byte>)
  {
    predicate HasStream() {
      TightCopy? || TightIndexed?
    }
  }

  /** The low half of the control byte: bit k resets stream k. */
  function ResetBits(resets: seq<bool>): (v: nat)
    requires |resets| == 4
    ensures v < 16
  {
    (if resets[0] then 1 else 0) + (if resets[1] then 2 else 0) + (if resets[2] then 4 else 0) +
    if resets[3] then 8 else 0
  }

  /** The high half: the stream, with 4 added for an explicit filter; 8 for a fill, 9 and 10 for images */
  function ModeBits(t: Tight): (v: nat)
    requires t.HasStream() ==> t.stream < 4
    ensures v <= 10
  {
    match t
    case TightFill(_) => 8
    case TightImage(png, _) => if png then 10 else 9
    case TightCopy(stream, _, _) => stream
    case TightIndexed(stream, _, _, _) => 4 + stream
  }

  /** One cell of a two-colour picture as a bit; the bits after a row's end are 0. */
  function CellBit(cells: seq<nat>, k: nat, end: nat): (b: nat)
    ensures b < 2
  {
    if k < end && k < |cells| && cells[k] == 1 then 1 else 0
  }

  /** The next n cells, the first in the highest bit */
  function PackBits(cells: seq<nat>, k: nat, end: nat, n: nat): (v: nat)
    ensures v < Pow2(n)
  {
    if n == 0 then 0 else 2 * PackBits(cells, k, end, n - 1) + CellBit(cells, k + n - 1, end)
  }

  function PackByte(cells: seq<nat>, k: nat, end: nat): Byte {
    assert Pow2(8) == 256;
    PackBits(cells, k, end, 8)
  }

  function PackRow(cells: seq<nat>, k: nat, end: nat): (b: seq<Byte>)
    requires k <= end + 7
    decreases end + 7 - k
  {
    if k >= end then [] else [PackByte(cells, k, end)] + PackRow(cells, k + 8, end)
  }

  /** Rows j to h of a two-colour picture of width w; every row starts a new byte. */
  function PackRows(cells: seq<nat>, w: nat, j: nat, h: nat): seq<Byte>
    requires j <= h
    decreases h - j
  {
    if j == h then [] else PackRow(cells, At2(w, 0, j), At2(w, 0, j) + w) + PackRows(cells, w, j + 1, h)
  }

  function CellBytes(cells: seq<nat>): (b: seq<Byte>)
    requires forall k :: 0 <= k < |cells| ==> cells[k] < 256
    ensures |b| == |cells|
  {
    if cells == [] then [] else [cells[0]] + CellBytes(cells[1..])
  }

  predicate TightFits(a: Area, t: Tight) {
    match t
    case TightFill(_) => true
    case TightImage(_, file) => 2 <= |file| < 0x40_0000
    case TightCopy(stream, pixels, packed) => stream < 4 && |pixels| == Area2(a.w, a.h) && |packed| < 0x40_0000
    case TightIndexed(stream, colours, cells, packed) =>
      && stream < 4 && 2 <= |colours| <= 256 && |cells| == Area2(a.w, a.h) && |packed| < 0x40_0000
      && forall k :: 0 <= k < |cells| ==> cells[k] < |colours|
  }

  /** What is compressed */
  function Plain(a: Area, t: Tight): seq<Byte>
    requires t.HasStream() && TightFits(a, t)
  {
    if t.TightCopy? then RgbBytes(t.pixels)
    else if |t.colours| == 2 then PackRows(t.cells, a.w, 0, a.h)
    else CellBytes(t.cells)
  }

  /** Less than twelve bytes are not compressed and need no length. */
  function DataBytes(plain: seq<Byte>, packed: seq<Byte>): seq<Byte>
    requires |packed| < 0x40_0000
  {
    if |plain| < 12 then plain else CompactLength(|packed|) + packed
  }

  function TightBody(a: Area, resets: seq<bool>, t: Tight): seq<Byte>
    requires |resets| == 4 && TightFits(a, t)
  {
    [16 * ModeBits(t) + ResetBits(resets)] +
    match t
    case TightFill(p) => [p.red, p.green, p.blue]
    case TightImage(_, file) => CompactLength(|file|) + file
    case TightCopy(_, _, packed) => DataBytes(Plain(a, t), packed)
    case TightIndexed(_, colours, _, packed) =>
      [1, |colours| - 1] + RgbBytes(colours) + DataBytes(Plain(a, t), packed)
  }

  /** TightPNG has fills and images only. */
  predicate TightNumber(encoding: int, t: Tight) {
    encoding == TIGHT_NUMBER || (encoding == TIGHT_PNG_NUMBER && !t.HasStream())
  }

  function TightBytes(a: Area, encoding: int, resets: seq<bool>, t: Tight): seq<Byte>
    requires a.Fits() && |resets| == 4 && TightNumber(encoding, t) && TightFits(a, t)
  {
    HeaderBytes(a, encoding) + TightBody(a, resets, t)
  }

  /** What a Tight rectangle that is no image shows */
  function TightPicture(w: nat, t: Tight, i: int, j: int): Shade
    requires !t.TightImage?
  {
    match t
    case TightFill(p) => p.Shade()
    case TightCopy(_, pixels, _) => PixelAt(pixels, w, i, j)
    case TightIndexed(_, colours, cells, _) =>
      var k := At2(w, i, j);
      if 0 <= k < |cells| && cells[k] < |colours| then colours[cells[k]].Shade()
      else Shade(UNDEFINED, UNDEFINED, UNDEFINED)
  }

  /** The streams after the resets a control byte asks for */
  function AfterResets<Z>(codec: RfbSpec.Codec<Z>, zlibs: seq<Z>, resets: seq<bool>): (r: seq<Z>)
    requires |zlibs| == |resets| == 4
    ensures |r| == 4
  {
    seq(4, k requires 0 <= k < 4 => if resets[k] then codec.start else zlibs[k])
  }

  predicate Compressed(a: Area, t: Tight)
    requires TightFits(a, t)
  {
    t.HasStream() && |Plain(a, t)| >= 12
  }

  /** The packed data is what the stream, in its present state, expands to the plain data. */
  ghost predicate TightUnpacks<Z>(codec: RfbSpec.Codec<Z>, zlibs: seq<Z>, a: Area, resets: seq<bool>, t: Tight)
    requires |zlibs| == |resets| == 4 && TightFits(a, t)
  {
    Compressed(a, t) ==>
      var out := codec.inflate(AfterResets(codec, zlibs, resets)[t.stream], t.packed).1;
      out.Some? && out.value == Plain(a, t)
  }

  /** Only compressed data touches the streams; a reset that comes with anything else is not carried out. */
  ghost function StreamsAfter<Z>(codec: RfbSpec.Codec<Z>, zlibs: seq<Z>, a: Area, resets: seq<bool>,
          t: Tight): (r: seq<Z>)
    requires |zlibs| == |resets| == 4 && TightFits(a, t)
    ensures |r| == 4
  {
    if !Compressed(a, t) then zlibs
    else
      var zs := AfterResets(codec, zlibs, resets);
      zs[t.stream := codec.inflate(zs[t.stream], t.packed).0]
  }

  // ----- updates -----

  datatype Rect =
    | RawRect(area: Area, pixels: seq<Pixel>)
    | CopyRect(area: Area, fromX: nat, fromY: nat)
    | RreRect(area: Area, background: Pixel, spots: seq<Spot>)
    | HextileRect(area: Area, tiles: seq<HexTile>)
    | TightRect(area: Area, encoding: int, resets: seq<bool>, tight: Tight)
    | CursorRect(area: Area, pixels: seq<Pixel>, mask: seq<Byte>)
    | SizeRect(area: Area)
  {
    predicate Fits() {
      && area.Fits()
      && match this
         case RawRect(a, pixels) => a.w > 0 && a.h > 0 && |pixels| == Area2(a.w, a.h)
         case CopyRect(_, x, y) => x < 0x1_0000 && y < 0x1_0000
         case RreRect(a, _, spots) => RreFits(a, spots)
         case HextileRect(a, tiles) => HexFits(a, tiles)
         case TightRect(a, encoding, resets, t) => |resets| == 4 && TightNumber(encoding, t) && TightFits(a, t)
         case CursorRect(a, pixels, mask) => |pixels| == Area2(a.w, a.h) && |mask| == Area2((a.w + 7) / 8, a.h)
         case SizeRect(_) => true
    }

    function Bytes(): seq<Byte>
      requires Fits()
    {
      match this
      case RawRect(a, pixels) => RawBytes(a, pixels)
      case CopyRect(a, x, y) => CopyBytes(a, x, y)
      case RreRect(a, background, spots) => RreBytes(a, background, spots)
      case HextileRect(a, tiles) => HextileBytes(a, tiles)
      case TightRect(a, encoding, resets, t) => TightBytes(a, encoding, resets, t)
      case CursorRect(a, pixels, mask) => HeaderBytes(a, CURSOR_NUMBER) + (PictureBytes(pixels) + mask)
      case SizeRect(a) => HeaderBytes(a, DESKTOP_SIZE_NUMBER)
    }

    /** What the rectangle makes of the screen */
    function Shown(s: Screen): Screen
      requires Fits()
    {
      match this
      case RawRect(a, pixels) => a.Put((i: int, j: int) => PixelAt(pixels, a.w, i, j), s)
      case CopyRect(a, x, y) => a.Put((i: int, j: int) => s(x + i, y + j), s)
      case RreRect(a, background, spots) => RreShown(a, background, spots, s)
      case HextileRect(a, tiles) => HexFrom(a, tiles, 0, s)
      case TightRect(a, _, _, t) =>
        if t.TightImage? then s else a.Put((i: int, j: int) => TightPicture(a.w, t, i, j), s)
      case CursorRect(_, _, _) => s
      case SizeRect(_) => s
    }

    /** What it hands over besides */
    function Told(): seq<RfbSpec.Effect>
      requires Fits()
    {
      match this
      case TightRect(a, _, _, TightImage(png, file)) => [RfbSpec.Image(a.x, a.y, png, file)]
      case CursorRect(a, pixels, mask) => [RfbSpec.Cursor(a.x, a.y, a.w, a.h, PictureBytes(pixels), mask)]
      case SizeRect(a) => [RfbSpec.Resize(a.w, a.h)]
      case _ => []
    }

    ghost predicate Unpacks<Z>(codec: RfbSpec.Codec<Z>, zlibs: seq<Z>)
      requires Fits() && |zlibs| == 4
    {
      TightRect? ==> TightUnpacks(codec, zlibs, area, resets, tight)
    }

    ghost function Streams<Z>(codec: RfbSpec.Codec<Z>, zlibs: seq<Z>): (r: seq<Z>)
      requires Fits() && |zlibs| == 4
      ensures |r| == 4
    {
      if TightRect? then StreamsAfter(codec, zlibs, area, resets, tight) else zlibs
    }
  }

  predicate AllFit(rects: seq<Rect>) {
    forall k :: 0 <= k < |rects| ==> rects[k].Fits()
  }

  function RectsBytes(rects: seq<Rect>): seq<Byte>
    requires AllFit(rects)
  {
    if rects == [] then [] else rects[0].Bytes() + RectsBytes(rects[1..])
  }

  function RectsShown(rects: seq<Rect>, s: Screen): Screen
    requires AllFit(rects)
  {
    if rects == [] then s else RectsShown(rects[1..], rects[0].Shown(s))
  }

  function RectsTold(rects: seq<Rect>): seq<RfbSpec.Effect>
    requires AllFit(rects)
  {
    if rects == [] then [] else rects[0].Told() + RectsTold(rects[1..])
  }

  ghost predicate RectsUnpack<Z>(codec: RfbSpec.Codec<Z>, zlibs: seq<Z>, rects: seq<Rect>)
    requires AllFit(rects) && |zlibs| == 4
    decreases |rects|
  {
    rects == [] ||
    (rects[0].Unpacks(codec, zlibs) && RectsUnpack(codec, rects[0].Streams(codec, zlibs), rects[1..]))
  }

  ghost function RectsStreams<Z>(codec: RfbSpec.Codec<Z>, zlibs: seq<Z>, rects: seq<Rect>): (r: seq<Z>)
    requires AllFit(rects) && |zlibs| == 4
    ensures |r| == 4
    decreases |rects|
  {
    if rects == [] then zlibs else RectsStreams(codec, rects[0].Streams(codec, zlibs), rects[1..])
  }

  // ----- messages (section 7.6 of RFC 6143) -----

  /** An entry of a colour map */
  datatype Entry = Entry(red: nat, green: nat, blue: nat) {
    predicate Fits() {
      red < 0x1_0000 && green < 0x1_0000 && blue < 0x1_0000
    }

    /** The client keeps eight bits. */
    function Kept(): RfbSpec.Colour
      requires Fits()
    {
      RfbSpec.Colour(blue / 256, green / 256, red / 256)
    }
  }

  predicate EntriesFit(entries: seq<Entry>) {
    |entries| < 0x1_0000 && forall k :: 0 <= k < |entries| ==> entries[k].Fits()
  }

  function EntriesBytes(entries: seq<Entry>): (b: seq<Byte>)
    requires forall k :: 0 <= k < |entries| ==> entries[k].Fits()
    ensures |b| == 6 * |entries|
  {
    if entries == [] then []
    else
      var e := entries[0];
      assert e.Fits();
      U16(e.red) + U16(e.green) + U16(e.blue) + EntriesBytes(entries[1..])
  }

  function EntriesKept(entries: seq<Entry>): seq<RfbSpec.Colour>
    requires forall k :: 0 <= k < |entries| ==> entries[k].Fits()
  {
    if entries == [] then [] else [entries[0].Kept()] + EntriesKept(entries[1..])
  }

  /** `Cut` ends an update early with a LastRect pseudo-rectangle, when more rectangles were announced. */
  datatype Message =
    | Update(pad: Byte, rects: seq<Rect>)
    | Cut(pad: Byte, announced: nat, rects: seq<Rect>, end: Area)
    | ColourMap(pad: Byte, first: nat, entries: seq<Entry>)
    | Bell
    | Text(pads: seq<Byte>, text: seq<Byte>)
  {
    predicate HasRects() {
      Update? || Cut?
    }

    predicate Fits() {
      match this
      case Update(_, rects) => AllFit(rects) && |rects| < 0x1_0000
      case Cut(_, announced, rects, end) => AllFit(rects) && |rects| < announced < 0x1_0000 && end.Fits()
      case ColourMap(_, first, entries) => first < 0x1_0000 && EntriesFit(entries)
      case Bell => true
      case Text(pads, text) => |pads| == 3 && |text| < 0x8000_0000
    }

    function Bytes(): seq<Byte>
      requires Fits()
    {
      match this
      case Update(pad, rects) => [0, pad] + U16(|rects|) + RectsBytes(rects)
      case Cut(pad, announced, rects, end) =>
        [0, pad] + U16(announced) + RectsBytes(rects) + HeaderBytes(end, LAST_RECT_NUMBER)
      case ColourMap(pad, first, entries) => [1, pad] + U16(first) + U16(|entries|) + EntriesBytes(entries)
      case Bell => [2]
      case Text(pads, text) => [3] + pads + U32(|text|) + text
    }

    function Shown(s: Screen): Screen
      requires Fits()
    {
      if HasRects() then RectsShown(rects, s) else s
    }

    function Told(): seq<RfbSpec.Effect>
      requires Fits()
    {
      match this
      case Update(_, rects) => RectsTold(rects) + [RfbSpec.Complete]
      case Cut(_, _, rects, _) => RectsTold(rects) + [RfbSpec.Complete]
      case ColourMap(_, first, entries) => [RfbSpec.ColourMap(first, EntriesKept(entries))]
      case Bell => [RfbSpec.Bell]
      case Text(_, text) => [RfbSpec.CutText(text)]
    }

    ghost predicate Unpacks<Z>(codec: RfbSpec.Codec<Z>, zlibs: seq<Z>)
      requires Fits() && |zlibs| == 4
    {
      HasRects() ==> RectsUnpack(codec, zlibs, rects)
    }

    ghost function Streams<Z>(codec: RfbSpec.Codec<Z>, zlibs: seq<Z>): (r: seq<Z>)
      requires Fits() && |zlibs| == 4
      ensures |r| == 4
    {
      if HasRects() then RectsStreams(codec, zlibs, rects) else zlibs
    }
  }

  // ----- whole connections -----

  predicate SessionFits(ms: seq<Message>) {
    forall k :: 0 <= k < |ms| ==> ms[k].Fits()
  }

  function SessionBytes(ms: seq<Message>): seq<Byte>
    requires SessionFits(ms)
  {
    if ms == [] then [] else ms[0].Bytes() + SessionBytes(ms[1..])
  }

  function SessionShown(ms: seq<Message>, s: Screen): Screen
    requires SessionFits(ms)
  {
    if ms == [] then s else SessionShown(ms[1..], ms[0].Shown(s))
  }

  function SessionTold(ms: seq<Message>): seq<RfbSpec.Effect>
    requires SessionFits(ms)
  {
    if ms == [] then [] else ms[0].Told() + SessionTold(ms[1..])
  }

  /** Every piece of compressed data fits the state its stream has reached. */
  ghost predicate SessionUnpacks<Z>(codec: RfbSpec.Codec<Z>, zlibs: seq<Z>, ms: seq<Message>)
    requires SessionFits(ms) && |zlibs| == 4
    decreases |ms|
  {
    ms == [] || (ms[0].Unpacks(codec, zlibs) && SessionUnpacks(codec, ms[0].Streams(codec, zlibs), ms[1..]))
  }
}
