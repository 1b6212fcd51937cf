/**
 The server side of the RFB connection as an abstract machine: what one unit of input (a message, a
 rectangle header, a raw line, a hextile, a Tight rectangle) does, as a function of the bytes that are
 queued. `Need` is the number of bytes the parser asks for when it sees a queue; it is what the code
 stores in FBU.bytes before it gives up and waits.

 True-colour mode: 4 bytes per pixel, 3 per Tight pixel.
 */
module RfbSpec {
  import opened Common
  import opened Bits

  const BPP := 4
  const DEPTH := 3

  const RAW := 0
  const COPYRECT := 1
  const RRE := 2
  const HEXTILE := 5
  const TIGHT := 7
  const TIGHT_PNG := -260
  const DESKTOP_SIZE := -223
  const LAST_RECT := -224
  const CURSOR := -239

  /** A zlib stream: its state after reset, and what one call of uncompress does to it and returns; None for an error */
  datatype Codec<!Z> = Codec(start: Z, inflate: (Z, seq<Byte>) -> (Z, Option<seq<int>>))

  datatype Colour = Colour(blue: Byte, green: Byte, red: Byte)

  datatype Sub = Sub(x: nat, y: nat, w: nat, h: nat, color: seq<Byte>)

  /** What reaches the display and the other callbacks. A raw blit of several lines is several rows. */
  datatype Effect =
    | Row(x: int, y: int, w: nat, pixels: seq<Byte>)
    | Blit(x: int, y: int, w: nat, h: nat, pixels: seq<Byte>)
    | Fill(x: int, y: int, w: nat, h: nat, color: seq<Byte>)
    | Tile(x: int, y: int, w: nat, h: nat, background: seq<Byte>, subs: seq<Sub>)
    | Copy(oldX: nat, oldY: nat, x: int, y: int, w: nat, h: nat)
    | Rgb(x: int, y: int, w: nat, h: nat, data: seq<int>)
    | Palette(x: int, y: int, w: nat, h: nat, colors: seq<Byte>, data: seq<int>)
    | Image(x: int, y: int, png: bool, file: seq<Byte>)
    | Cursor(x: int, y: int, w: nat, h: nat, pixels: seq<Byte>, mask: seq<Byte>)
    | Resize(w: nat, h: nat)
    | ColourMap(first: nat, colours: seq<Colour>)
    | Bell
    | CutText(text: seq<Byte>)
    | Complete

  /** The FBU record. `bytes` is 0 exactly when a rectangle header is expected next. */
  datatype Fbu<Z> = Fbu(
    rects: nat, bytes: nat, lines: nat, subrects: int,
    tiles: nat, totalTiles: nat, tilesX: nat,
    x: nat, y: nat, width: nat, height: nat, encoding: int,
    lastsub: nat, background: seq<Byte>, foreground: seq<Byte>,
    zlibs: seq<Z>,
    dead: bool)    // fail() has left the page, an exception escaped, or a number has become NaN

  /** What one unit of input does: wait for more, or consume n bytes. */
  datatype Move<Z> = Wait | Move(f: Fbu<Z>, n: nat, fx: seq<Effect>)

  // ----- numbers on the wire -----

  function Be16(q: seq<Byte>, i: nat): nat
    requires i + 1 < |q|
  {
    var a: int, b: int := q[i], q[i + 1];
    256 * a + b
  }

  function Be32(q: seq<Byte>, i: nat): nat
    requires i + 3 < |q|
  {
    65536 * Be16(q, i) + Be16(q, i + 2)
  }

  /** `(b0 << 24) + ...`: the sum is a signed 32-bit number */
  function Signed32(v: nat): int {
    if v < 0x8000_0000 then v else v - 0x1_0000_0000
  }

  function At(q: seq<Byte>, i: nat): nat {
    if i < |q| then q[i] else 0
  }

  datatype CLength = CLength(header: nat, data: nat)

  /** getTightCLength on the bytes of q from `off` on; bytes that have not arrived count as 0. */
  function TightCLength(q: seq<Byte>, off: nat): (c: CLength)
    ensures 1 <= c.header <= 3
  {
    var b0, b1, b2 := At(q, off), At(q, off + 1), At(q, off + 2);
    if b0 < 128 then CLength(1, b0)
    else if b1 < 128 then CLength(2, b0 - 128 + 128 * b1)
    else CLength(3, b0 - 128 + 128 * (b1 - 128) + 16384 * b2)
  }

  /** A length that is not all there asks for more bytes than are queued, and never for more than it will when it is. */
  lemma TruncatedLength(q: seq<Byte>, off: nat, r: seq<Byte>)
    requires off <= |q|
    ensures var c := TightCLength(q, off);
            var d := TightCLength(q + r, off);
            && (off + d.header > |q| ==> off + c.header + c.data > |q|)
            && (off + c.header <= |q| || off + d.header <= |q| ==> d == c)
            && c.header + c.data <= d.header + d.data
  {
  }

  // ----- state changes -----

  /** The end of a rectangle; the update is complete when none is left. */
  function Finish<Z>(f: Fbu<Z>, n: nat, fx: seq<Effect>): Move<Z>
    requires f.rects > 0
  {
    Move(f.(rects := f.rects - 1, bytes := 0), n, if f.rects == 1 then fx + [Complete] else fx)
  }

  function Die<Z>(f: Fbu<Z>, n: nat): Move<Z> {
    Move(f.(dead := true), n, [])
  }

  // ----- messages -----

  /** n colour-map entries at byte i: of each 16-bit component the high byte is kept. */
  function Colours(q: seq<Byte>, i: nat, n: nat): seq<Colour>
    requires i + 6 * n <= |q|
    decreases n
  {
    if n == 0 then [] else [Colour(q[i + 4], q[i + 2], q[i])] + Colours(q, i + 6, n - 1)
  }

  /**
   A message when no update is in progress. The header of a colour map is read without waiting: if it is not
   all there the number of colours is NaN, which is outside the model, as are texts of 2^31 bytes or more.
   */
  function MessageStep<Z>(f: Fbu<Z>, q: seq<Byte>): Move<Z> {
    if |q| < 1 then Wait
    else if q[0] == 0 then
      if |q| < 4 then Wait
      else if Be16(q, 2) == 0 then Move(f.(bytes := 0), 4, [Complete])
      else Move(f.(rects := Be16(q, 2), bytes := 0), 4, [])
    else if q[0] == 1 then
      if |q| < 6 then Die(f, 1)
      else
        var n := Be16(q, 4);
        if |q| < 6 + 6 * n then Wait else Move(f, 6 + 6 * n, [ColourMap(Be16(q, 2), Colours(q, 6, n))])
    else if q[0] == 2 then Move(f, 1, [Bell])
    else if q[0] == 3 then
      if |q| < 8 then Wait
      else
        var length := Be32(q, 4);
        if length >= 0x8000_0000 then Die(f, 8)
        else if |q| < 8 + length then Wait
        else Move(f, 8 + length, [CutText(q[8..8 + length])])
    else Die(f, 1)
  }

  // ----- rectangle headers -----

  function TilesX(w: nat): nat { (w + 15) / 16 }

  function WithHeader<Z>(f: Fbu<Z>, q: seq<Byte>): Fbu<Z>
    requires |q| >= 12
  {
    f.(x := Be16(q, 0), y := Be16(q, 2), width := Be16(q, 4), height := Be16(q, 6), encoding := Signed32(Be32(q, 8)))
  }

  /** The state in which a rectangle's data is awaited: what the handler sets up on its first call */
  function Enter<Z>(f: Fbu<Z>): Fbu<Z> {
    if f.encoding == RAW then f.(bytes := 1, lines := if f.lines == 0 then f.height else f.lines)
    else if f.encoding == HEXTILE && f.tiles == 0 then
      var n := TilesX(f.width) * TilesX(f.height);
      f.(bytes := 1, tilesX := TilesX(f.width), totalTiles := n, tiles := n)
    else f.(bytes := 1)
  }

  /** Encodings whose handler sets FBU.bytes before it waits for data */
  predicate HasData<Z>(f: Fbu<Z>) {
    || (f.encoding == RAW && f.width > 0) || (f.encoding == HEXTILE && f.width > 0 && f.height > 0)
    || f.encoding == TIGHT || f.encoding == TIGHT_PNG || f.encoding == CURSOR
  }

  /**
   What an encoding reads right after its header while FBU.bytes is still 0: the coordinates of COPYRECT, the
   count and background of RRE. A raw rectangle of width 0 needs some byte to be queued, whatever it is, or
   the number of lines it computes is NaN.
   */
  function Trailing<Z>(f: Fbu<Z>): nat {
    if f.encoding == COPYRECT then 4
    else if f.encoding == RRE && f.subrects == 0 then 4 + BPP
    else if f.encoding == RAW && f.width == 0 then 1
    else 0
  }

  /** The start of an RRE rectangle, with its count and background queued. A count left negative is never read again. */
  function RreStart<Z>(f: Fbu<Z>, q: seq<Byte>): Move<Z>
    requires f.rects > 0 && |q| >= 12 + Trailing(f) && f.encoding == RRE
  {
    if f.subrects != 0 then Finish(f, 12, [])
    else
      var g := f.(subrects := Signed32(Be32(q, 12)));
      var fill := Fill(f.x, f.y, f.width, f.height, q[16..20]);
      if g.subrects > 0 then Move(g.(bytes := 1), 20, [fill]) else Finish(g, 20, [fill])
  }

  /** The handlers that FBU.bytes does not protect, with 12 bytes of header and perhaps more queued */
  function ShortStep<Z>(g: Fbu<Z>, q: seq<Byte>): Move<Z>
    requires g.rects > 0 && |q| >= 12 && !HasData(g)
  {
    if |q| < 12 + Trailing(g) then
      if g.encoding == RAW then Die(g, 12) else Move(g, 12, [])
    else if g.encoding == RAW then Finish(g, 12, [])
    else if g.encoding == COPYRECT then
      Finish(g, 16, [Copy(Be16(q, 12), Be16(q, 14), g.x, g.y, g.width, g.height)])
    else if g.encoding == RRE then RreStart(g, q)
    else if g.encoding == HEXTILE then
      Finish(g.(tilesX := TilesX(g.width), totalTiles := 0, tiles := 0), 12, [])
    else if g.encoding == DESKTOP_SIZE then Finish(g, 12, [Resize(g.width, g.height)])
    else if g.encoding == LAST_RECT then Move(g.(rects := 0), 12, [Complete])
    else Die(g, 12)
  }

  function HeaderStep<Z>(f: Fbu<Z>, q: seq<Byte>): Move<Z>
    requires f.rects > 0
  {
    if |q| < 12 then Wait
    else
      var g := WithHeader(f, q);
      if HasData(g) then Move(Enter(g), 12, []) else ShortStep(g, q)
  }

  // ----- RRE subrectangles -----

  const SUB := 12 // BPP + 8

  /** One subrectangle, relative to the rectangle */
  function RreSub<Z>(f: Fbu<Z>, q: seq<Byte>): Effect
    requires |q| >= SUB
  {
    Fill(f.x + Be16(q, 4), f.y + Be16(q, 6), Be16(q, 8), Be16(q, 10), q[..BPP])
  }

  function RreStep<Z>(f: Fbu<Z>, q: seq<Byte>): Move<Z>
    requires f.rects > 0
  {
    if |q| < SUB then Wait
    else
      var g := f.(subrects := f.subrects - 1);
      if g.subrects == 0 then Finish(g, SUB, [RreSub(f, q)]) else Move(g, SUB, [RreSub(f, q)])
  }

  // ----- raw lines -----

  function LineBytes(width: nat): (n: nat)
    ensures width > 0 ==> n > 0
  {
    width * BPP
  }

  function RawStep<Z>(f: Fbu<Z>, q: seq<Byte>): Move<Z>
    requires f.rects > 0 && f.width > 0
  {
    var n := LineBytes(f.width);
    if |q| < n then Wait
    else if f.lines == 0 then Finish(f, 0, [])
    else
      var row := Row(f.x, f.y + (f.height - f.lines), f.width, q[..n]);
      var g := f.(lines := f.lines - 1);
      if g.lines == 0 then Finish(g, n, [row]) else Move(g, n, [row])
  }

  // ----- hextile -----

  function Flag(v: nat, bit: nat): bool
    requires bit > 0
  {
    v / bit % 2 == 1
  }

  /** The current tile, relative to the rectangle */
  function TileX<Z>(f: Fbu<Z>): nat
    requires f.tilesX > 0 && f.tiles <= f.totalTiles
  {
    (f.totalTiles - f.tiles) % f.tilesX * 16
  }

  function TileY<Z>(f: Fbu<Z>): nat
    requires f.tilesX > 0 && f.tiles <= f.totalTiles
  {
    (f.totalTiles - f.tiles) / f.tilesX * 16
  }

  ghost predicate TilesValid<Z>(f: Fbu<Z>): (b: bool)
    ensures b ==> f.tilesX > 0 && 0 < f.tiles <= f.totalTiles
  {
    && f.width > 0 && f.height > 0 && f.tilesX == TilesX(f.width)
    && f.totalTiles == TilesX(f.width) * TilesX(f.height)
    && 0 < f.tiles <= f.totalTiles
  }

  lemma DivBelow(i: nat, a: nat, b: nat)
    requires a > 0 && i < a * b
    ensures i / a < b
  {
  }

  lemma TileInside<Z>(f: Fbu<Z>)
    requires TilesValid(f)
    ensures TileX(f) < f.width && TileY(f) < f.height
  {
    DivBelow(f.totalTiles - f.tiles, f.tilesX, TilesX(f.height));
  }

  function TileW<Z>(f: Fbu<Z>): nat
    requires TilesValid(f)
  {
    TileInside(f);
    Min(16, f.width - TileX(f))
  }

  function TileH<Z>(f: Fbu<Z>): nat
    requires TilesValid(f)
  {
    TileInside(f);
    Min(16, f.height - TileY(f))
  }

  /** Bytes of a non-raw tile up to and including the subrectangle count */
  function TileHead(sub: nat): nat {
    1 + (if Flag(sub, 2) then BPP else 0) + (if Flag(sub, 4) then BPP else 0) + (if Flag(sub, 8) then 1 else 0)
  }

  function SubSize(sub: nat): nat {
    if Flag(sub, 16) then BPP + 2 else 2
  }

  /** The byte count predicted before waiting */
  function TileNeed<Z>(f: Fbu<Z>, q: seq<Byte>): (n: nat)
    requires TilesValid(f)
    ensures n >= 1
  {
    if |q| < 1 then 1
    else
      var sub: nat := q[0];
      if Flag(sub, 1) then 1 + TileW(f) * TileH(f) * BPP
      else
        var head := TileHead(sub);
        if !Flag(sub, 8) || |q| < head then head
        else head + At(q, head - 1) * SubSize(sub)
  }

  /** The subrectangle at byte i */
  function SubAt(q: seq<Byte>, i: nat, sub: nat, foreground: seq<Byte>): Sub
    requires i + SubSize(sub) <= |q|
  {
    var color := if Flag(sub, 16) then q[i..i + BPP] else foreground;
    var j := if Flag(sub, 16) then i + BPP else i;
    var xy: nat, wh: nat := q[j], q[j + 1];
    Sub(xy / 16, xy % 16, wh / 16 + 1, wh % 16 + 1, color)
  }

  /** n subrectangles starting at byte i */
  function Subs(q: seq<Byte>, i: nat, n: nat, sub: nat, foreground: seq<Byte>): seq<Sub>
    requires i + n * SubSize(sub) <= |q|
    decreases n
  {
    if n == 0 then []
    else
      assert n * SubSize(sub) == SubSize(sub) + (n - 1) * SubSize(sub);
      [SubAt(q, i, sub, foreground)] + Subs(q, i + SubSize(sub), n - 1, sub, foreground)
  }

  /** Drawing a whole tile */
  function TileDraw<Z>(f: Fbu<Z>, q: seq<Byte>): (Fbu<Z>, seq<Effect>)
    requires TilesValid(f) && TileNeed(f, q) <= |q|
  {
    var sub: nat := q[0];
    var x, y, w, h := f.x + TileX(f), f.y + TileY(f), TileW(f), TileH(f);
    if sub == 0 then (f.(lastsub := 0), if Flag(f.lastsub, 1) then [] else [Fill(x, y, w, h, f.background)])
    else if Flag(sub, 1) then (f.(lastsub := sub), [Blit(x, y, w, h, q[1..TileNeed(f, q)])])
    else
      var i := if Flag(sub, 2) then 1 + BPP else 1;
      var bg := if Flag(sub, 2) then q[1..i] else f.background;
      var j := if Flag(sub, 4) then i + BPP else i;
      var fg := if Flag(sub, 4) then q[i..j] else f.foreground;
      var subs := if Flag(sub, 8) then Subs(q, j + 1, q[j], sub, fg) else [];
      (f.(lastsub := sub, background := bg, foreground := fg), [Tile(x, y, w, h, bg, subs)])
  }

  function HextileStep<Z>(f: Fbu<Z>, q: seq<Byte>): Move<Z>
    requires f.rects > 0 && TilesValid(f)
  {
    if |q| >= 1 && q[0] > 30 then Die(f, 0)
    else if |q| < TileNeed(f, q) then Wait
    else
      var (g, fx) := TileDraw(f, q);
      var g' := g.(tiles := f.tiles - 1);
      if f.tiles == 1 then Finish(g', TileNeed(f, q), fx) else Move(g', TileNeed(f, q), fx)
  }

  // ----- Tight -----

  datatype Mode = FillMode | ImageMode(png: bool) | FilterMode | CopyMode | Illegal

  function TightMode(ctl: nat): Mode {
    var c := ctl / 16;
    if c == 8 then FillMode
    else if c == 9 then ImageMode(false)
    else if c == 10 then ImageMode(true)
    else if Flag(c, 4) then FilterMode
    else if c < 4 then CopyMode
    else Illegal
  }

  /** decompress: pending resets, then the selected stream */
  function Reset<Z>(codec: Codec<Z>, zlibs: seq<Z>, flags: nat): (r: seq<Z>)
    requires |zlibs| == 4
    ensures |r| == 4
  {
    seq(4, i requires 0 <= i < 4 => if Flag(flags, [1, 2, 4, 8][i]) then codec.start else zlibs[i])
  }

  function Decompress<Z>(codec: Codec<Z>, zlibs: seq<Z>, ctl: nat, data: seq<Byte>): (r: (seq<Z>, Option<seq<int>>))
    requires |zlibs| == 4
    ensures |r.0| == 4
  {
    var zs := Reset(codec, zlibs, ctl % 16);
    var k := ctl / 16 % 4;
    var (z, out) := codec.inflate(zs[k], data);
    (zs[k := z], out)
  }

  function RowSize(width: nat, colors: nat): nat {
    if colors <= 2 then (width + 7) / 8 else width
  }

  /** Header and data length of `size` bytes that start at `off`: short data is sent raw, without a length. */
  function TightLength(q: seq<Byte>, off: nat, size: nat): CLength {
    if size < 12 then CLength(0, size) else TightCLength(q, off)
  }

  function PaletteColors(q: seq<Byte>): nat { At(q, 2) + 1 }

  /** The byte count asked for when q is queued */
  function TightNeed<Z>(f: Fbu<Z>, q: seq<Byte>): (n: nat)
    ensures n >= 1
  {
    if |q| < 1 then 1
    else
      match TightMode(q[0])
      case FillMode => 1 + DEPTH
      case ImageMode(_) =>
        if |q| < 4 then 4 else var c := TightCLength(q, 1); 1 + c.header + c.data
      case FilterMode =>
        if |q| < 3 then 3
        else
          var p := 3 + PaletteColors(q) * DEPTH;
          if |q| < p then p
          else var c := TightLength(q, p, RowSize(f.width, PaletteColors(q)) * f.height); p + c.header + c.data
      case CopyMode =>
        var c := TightLength(q, 1, f.width * f.height * DEPTH); 1 + c.header + c.data
      case Illegal => 1
  }

  /** Illegal control bytes and filters other than the palette */
  predicate TightFails<Z>(f: Fbu<Z>, q: seq<Byte>) {
    |q| >= 1 &&
    match TightMode(q[0])
    case Illegal => true
    case FilterMode => f.encoding == TIGHT_PNG || (|q| >= 3 && q[1] != 1)
    case CopyMode => f.encoding == TIGHT_PNG
    case _ => false
  }

  function TightData<Z>(codec: Codec<Z>, f: Fbu<Z>, ctl: nat, size: nat,
          data: seq<Byte>): (r: (seq<Z>, Option<seq<int>>))
    requires |f.zlibs| == 4
    ensures |r.0| == 4
  {
    if size < 12 then (f.zlibs, Some(seq(|data|, i requires 0 <= i < |data| => data[i])))
    else Decompress(codec, f.zlibs, ctl, data)
  }

  function RgbOf<Z>(f: Fbu<Z>, out: Option<seq<int>>): Option<Effect> {
    if out.None? then None else Some(Rgb(f.x, f.y, f.width, f.height, out.value))
  }

  function PaletteOf<Z>(f: Fbu<Z>, colors: seq<Byte>, out: Option<seq<int>>): Option<Effect> {
    if out.None? then None else Some(Palette(f.x, f.y, f.width, f.height, colors, out.value))
  }

  /** Drawing a whole Tight rectangle; data that does not decompress draws nothing. */
  function TightDraw<Z>(codec: Codec<Z>, f: Fbu<Z>, q: seq<Byte>): (seq<Z>, Option<Effect>)
    requires |f.zlibs| == 4 && !TightFails(f, q) && TightNeed(f, q) <= |q|
  {
    var n := TightNeed(f, q);
    match TightMode(q[0])
    case FillMode => (f.zlibs, Some(Fill(f.x, f.y, f.width, f.height, [q[3], q[2], q[1]])))
    case ImageMode(png) => (f.zlibs, Some(Image(f.x, f.y, png, q[1 + TightCLength(q, 1).header..n])))
    case FilterMode =>
      var p := 3 + PaletteColors(q) * DEPTH;
      var size := RowSize(f.width, PaletteColors(q)) * f.height;
      var (zs, data) := TightData(codec, f, q[0], size, q[p + TightLength(q, p, size).header..n]);
      (zs, PaletteOf(f, q[3..p], data))
    case CopyMode =>
      var size := f.width * f.height * DEPTH;
      var (zs, data) := TightData(codec, f, q[0], size, q[1 + TightLength(q, 1, size).header..n]);
      (zs, RgbOf(f, data))
    case Illegal => (f.zlibs, None)
  }

  function TightStep<Z>(codec: Codec<Z>, f: Fbu<Z>, q: seq<Byte>): Move<Z>
    requires f.rects > 0 && |f.zlibs| == 4
  {
    if TightFails(f, q) then Die(f, 0)
    else if |q| < TightNeed(f, q) then Wait
    else
      var (zs, e) := TightDraw(codec, f, q);
      var g := f.(zlibs := zs);
      if e.None? then Die(g, TightNeed(f, q)) else Finish(g, TightNeed(f, q), [e.value])
  }

  // ----- cursor pseudo-encoding -----

  function CursorPixels<Z>(f: Fbu<Z>): nat { f.width * f.height * BPP }

  function CursorMask<Z>(f: Fbu<Z>): nat { (f.width + 7) / 8 * f.height }

  function CursorNeed<Z>(f: Fbu<Z>): nat { CursorPixels(f) + CursorMask(f) }

  function CursorStep<Z>(f: Fbu<Z>, q: seq<Byte>): Move<Z>
    requires f.rects > 0
  {
    var n := CursorNeed(f);
    if |q| < n then Wait
    else Finish(f, n, [Cursor(f.x, f.y, f.width, f.height, q[..CursorPixels(f)], q[CursorPixels(f)..n])])
  }

  // ----- one step of the machine -----

  ghost predicate Valid<Z>(f: Fbu<Z>) {
    && |f.zlibs| == 4
    && (f.rects == 0 || f.bytes == 0 ==> f.lines == 0 && f.tiles == 0 && f.subrects <= 0)
    && (f.rects > 0 && f.bytes > 0 ==>
          && (HasData(f) || f.encoding == RRE) && f.lines <= f.height && (f.encoding == RRE <==> f.subrects > 0)
          && (f.encoding != RAW ==> f.lines == 0)
          && (f.encoding == RAW && f.lines == 0 ==> f.height == 0)
          && (f.encoding == HEXTILE ==> TilesValid(f))
          && (f.encoding != HEXTILE ==> f.tiles == 0))
  }

  ghost function Step<Z>(codec: Codec<Z>, f: Fbu<Z>, q: seq<Byte>): (m: Move<Z>)
    requires Valid(f)
  {
    if f.dead then Wait
    else if f.rects == 0 then MessageStep(f, q)
    else if f.bytes == 0 then HeaderStep(f, q)
    else if f.encoding == RAW then RawStep(f, q)
    else if f.encoding == HEXTILE then HextileStep(f, q)
    else if f.encoding == CURSOR then CursorStep(f, q)
    else if f.encoding == RRE then RreStep(f, q)
    else TightStep(codec, f, q)
  }
}
