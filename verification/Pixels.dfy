/**
 Pixel-level facts about two encodings (novnc/include/rfb.js): the hextile countdown covers the rectangle
 exactly, and the Tight palette expansion writes every output cell once, in order.
 */
module Pixels {
  import opened Common
  import opened Bits
  import opened RfbSpec

  // ----- hextile geometry -----

  /** A rectangle of tiles, at any point of the countdown */
  ghost predicate Tiled<Z>(f: Fbu<Z>) {
    && f.width > 0 && f.height > 0 && f.tilesX == TilesX(f.width)
    && f.totalTiles == TilesX(f.width) * TilesX(f.height)
  }

  /** Pixel (px, py), relative to the rectangle, belongs to the current tile. */
  ghost predicate InTile<Z>(f: Fbu<Z>, px: nat, py: nat)
    requires TilesValid(f)
  {
    TileX(f) <= px < TileX(f) + TileW(f) && TileY(f) <= py < TileY(f) + TileH(f)
  }

  lemma MulAtLeast(a: nat, d: nat)
    requires a >= 1
    ensures a * d >= d
  {
  }

  lemma DivModUnique(i: nat, d: nat, q: nat, r: nat)
    requires d > 0 && r < d && i == q * d + r
    ensures i / d == q && i % d == r
  {
    var q', r' := i / d, i % d;
    assert (q - q') * d == r' - r && (q' - q) * d == r - r';
    if q > q' { MulAtLeast(q - q', d); }
    if q < q' { MulAtLeast(q' - q, d); }
  }

  lemma RowsBelow(a: nat, b: nat, d: nat, r: nat)
    requires a < b && r < d
    ensures a * d + r < b * d
  {
    assert b * d == a * d + (b - a) * d;
    MulAtLeast(b - a, d);
  }

  lemma Interval(t: nat, p: nat, w: nat)
    requires p < w && t * 16 < w
    ensures (t * 16 <= p < t * 16 + Min(16, w - t * 16)) <==> t == p / 16
  {
  }

  /** Tile number i lies in row i / tilesX and column i % tilesX; a pixel is in it exactly when those are its own. */
  lemma InTileIff<Z>(f: Fbu<Z>, px: nat, py: nat)
    requires TilesValid(f) && px < f.width && py < f.height
    ensures var i := f.totalTiles - f.tiles;
            InTile(f, px, py) <==> i % f.tilesX == px / 16 && i / f.tilesX == py / 16
  {
    TileInside(f);
    hide TilesValid, TilesX;
    var i := f.totalTiles - f.tiles;
    Interval(i % f.tilesX, px, f.width);
    Interval(i / f.tilesX, py, f.height);
  }

  /** The number of the tile a pixel lies in, row by row */
  function TileNumber<Z>(f: Fbu<Z>, px: nat, py: nat): nat {
    py / 16 * f.tilesX + px / 16
  }

  lemma SameNumber(j: nat, d: nat, q: nat, r: nat)
    requires d > 0 && r < d
    ensures j % d == r && j / d == q <==> j == q * d + r
  {
    assert j == j / d * d + j % d;
    if j == q * d + r {
      DivModUnique(j, d, q, r);
    }
  }

  lemma OneTile<Z>(f: Fbu<Z>, t: nat, px: nat, py: nat)
    requires Tiled(f) && px < f.width && py < f.height && 0 < t <= f.totalTiles
    ensures var g := f.(tiles := t); TilesValid(g) && (InTile(g, px, py) <==> f.totalTiles - t == TileNumber(f, px, py))
  {
    InTileIff(f.(tiles := t), px, py);
    hide InTile;
    SameNumber(f.totalTiles - t, f.tilesX, py / 16, px / 16);
  }

  /**
   For every rectangle, every pixel is in exactly one tile of the countdown: the tiles are pairwise
   disjoint and together are the rectangle.
   */
  lemma TilesPartition<Z>(f: Fbu<Z>, px: nat, py: nat) returns (k: nat)
    requires Tiled(f) && px < f.width && py < f.height
    ensures 0 < k <= f.totalTiles
    ensures forall t :: 0 < t <= f.totalTiles ==>
              TilesValid(f.(tiles := t)) && (InTile(f.(tiles := t), px, py) <==> t == k)
  {
    var i := TileNumber(f, px, py);
    RowsBelow(py / 16, TilesX(f.height), f.tilesX, px / 16);
    k := f.totalTiles - i;
    forall t | 0 < t <= f.totalTiles
      ensures TilesValid(f.(tiles := t)) && (InTile(f.(tiles := t), px, py) <==> t == k)
    {
      OneTile(f, t, px, py);
    }
  }

  /** Nothing outside the rectangle is drawn. */
  lemma TilesInside<Z>(f: Fbu<Z>, px: nat, py: nat)
    requires TilesValid(f) && InTile(f, px, py)
    ensures px < f.width && py < f.height
  {
    TileInside(f);
  }

  // ----- Tight palette expansion -----

  function Cell(palette: seq<Byte>, i: nat): int {
    if i < |palette| then palette[i] else UNDEFINED
  }

  function Color(palette: seq<Byte>, index: nat): (c: seq<int>)
    ensures |c| == 3
  {
    [Cell(palette, 3 * index), Cell(palette, 3 * index + 1), Cell(palette, 3 * index + 2)]
  }

  /** The colour number of a pixel: one bit when there are two colours, one byte otherwise */
  function IndexAt(colors: nat, width: nat, data: seq<Byte>, y: nat, x: nat): nat
    requires (y + 1) * RowSize(width, colors) <= |data| && x < width
  {
    assert (y + 1) * RowSize(width, colors) == y * RowSize(width, colors) + RowSize(width, colors);
    if colors <= 2 then BitOf(data[y * RowSize(width, colors) + x / 8], 7 - x % 8)
    else data[y * RowSize(width, colors) + x]
  }

  /** The first x pixels of row y */
  function RowCells(colors: nat, width: nat, palette: seq<Byte>, data: seq<Byte>, y: nat, x: nat): (s: seq<int>)
    requires (y + 1) * RowSize(width, colors) <= |data| && x <= width
    ensures |s| == 3 * x
  {
    if x == 0 then []
    else RowCells(colors, width, palette, data, y, x - 1) + Color(palette, IndexAt(colors, width, data, y, x - 1))
  }

  /** The first y rows */
  function Cells(colors: nat, width: nat, palette: seq<Byte>, data: seq<Byte>, y: nat): (s: seq<int>)
    requires y * RowSize(width, colors) <= |data|
    ensures |s| == 3 * (y * width)
  {
    if y == 0 then []
    else
      assert y * RowSize(width, colors) == (y - 1) * RowSize(width, colors) + RowSize(width, colors);
      assert y * width == (y - 1) * width + width;
      Cells(colors, width, palette, data, y - 1) + RowCells(colors, width, palette, data, y - 1, width)
  }

  lemma {:induction false} RowCellAt(colors: nat, width: nat, palette: seq<Byte>, data: seq<Byte>, y: nat, n: nat,
          x: nat, c: nat)
    requires (y + 1) * RowSize(width, colors) <= |data| && x < n <= width && c < 3
    ensures RowCells(colors, width, palette, data, y, n)[3 * x + c] == Color(palette,
            IndexAt(colors, width, data, y, x))[c]
  {
    if x < n - 1 {
      RowCellAt(colors, width, palette, data, y, n - 1, x, c);
    }
  }

  lemma MulMono(a: nat, b: nat, d: nat)
    requires a <= b
    ensures a * d <= b * d
  {
  }

  /** Later rows only append. */
  lemma {:induction false} CellsPrefix(colors: nat, width: nat, palette: seq<Byte>, data: seq<Byte>, y: nat, h: nat)
    requires y <= h && h * RowSize(width, colors) <= |data| && y * RowSize(width, colors) <= |data|
    ensures Cells(colors, width, palette, data, y) <= Cells(colors, width, palette, data, h)
    decreases h
  {
    if y < h {
      MulMono(h - 1, h, RowSize(width, colors));
      hide RowSize, RowCells;
      CellsPrefix(colors, width, palette, data, y, h - 1);
    }
  }

  function CellIndex(width: nat, y: nat, x: nat, c: nat): nat { 3 * (y * width + x) + c }

  /** Output cell 3 * (y * width + x) + c is component c of the colour that pixel (x, y) selects. */
  lemma CellAt(colors: nat, width: nat, palette: seq<Byte>, data: seq<Byte>, h: nat, y: nat, x: nat, c: nat)
    requires h * RowSize(width, colors) <= |data| && y < h && x < width && c < 3
    requires (y + 1) * RowSize(width, colors) <= |data|
    ensures var i := CellIndex(width, y, x, c);
            i < |Cells(colors, width, palette, data, h)| &&
            Cells(colors, width, palette, data, h)[i] == Color(palette, IndexAt(colors, width, data, y, x))[c]
  {
    hide RowSize, IndexAt, RowCells, Color;
    MulMono(y, h, RowSize(width, colors));
    CellsPrefix(colors, width, palette, data, y + 1, h);
    RowCellAt(colors, width, palette, data, y, width, x, c);
    var all, upper := Cells(colors, width, palette, data, h), Cells(colors, width, palette, data, y);
    var row := RowCells(colors, width, palette, data, y, width);
    assert Cells(colors, width, palette, data, y + 1) == upper + row;
    assert (upper + row)[|upper| + (3 * x + c)] == row[3 * x + c];
  }

  /** The three assignments to dest; the target is always the end of what was written before. */
  method PutColor(dest: seq<int>, dp: nat, palette: seq<Byte>, sp: nat) returns (r: seq<int>)
    requires dp == |dest|
    ensures r == dest + [Cell(palette, sp), Cell(palette, sp + 1), Cell(palette, sp + 2)]
  {
    r := dest + [Cell(palette, sp)] + [Cell(palette, sp + 1)] + [Cell(palette, sp + 2)];
  }

  lemma NoPixels(width: nat, palette: seq<Byte>, data: seq<Byte>, y: nat)
    requires (y + 1) * RowSize(width, 2) <= |data|
    ensures RowCells(2, width, palette, data, y, 0) == []
  {
  }

  lemma RowSizeIs(width: nat)
    ensures RowSize(width, 2) == (width + 7) / 8
  {
  }

  lemma NextPixel(width: nat, palette: seq<Byte>, data: seq<Byte>, y: nat, x: nat, b: nat)
    requires (y + 1) * RowSize(width, 2) <= |data| && b <= 7 && 8 * x + 7 - b < width
    ensures var w := (width + 7) / 8;
            y * w + x < |data| &&
            var sp := BitOf(data[y * w + x], b) * 3;
            RowCells(2, width, palette, data, y, 8 * x + 8 - b) ==
            RowCells(2, width, palette, data, y, 8 * x + 7 - b) +
                [Cell(palette, sp), Cell(palette, sp + 1), Cell(palette, sp + 2)]
  {
    hide BitOf;
    var w := (width + 7) / 8;
    assert (y + 1) * w == y * w + w;
    var p := 8 * x + 7 - b;
    assert p / 8 == x && 7 - p % 8 == b;
  }

  /** One bit of a two-colour image */
  method ExpandBit(width: nat, palette: seq<Byte>, data: seq<Byte>, y: nat, x: nat, b: nat, ghost before: seq<int>,
          dest: seq<int>)
    returns (r: seq<int>)
    requires (y + 1) * RowSize(width, 2) <= |data| && b <= 7 && 8 * x + 7 - b < width && |before| == 3 * (y * width)
    requires dest == before + RowCells(2, width, palette, data, y, 8 * x + 7 - b)
    ensures r == before + RowCells(2, width, palette, data, y, 8 * x + 8 - b)
  {
    hide BitOf, RowSize;
    var w := (width + 7) / 8;
    assert (y + 1) * w == y * w + w;
    RowSizeIs(width);
    var dp := (y * width + x * 8 + 7 - b) * 3;
    var sp := BitOf(data[y * w + x], b) * 3;
    r := PutColor(dest, dp, palette, sp);
    NextPixel(width, palette, data, y, x, b);
    assert r == before + (RowCells(2, width, palette, data, y, 8 * x + 7 - b) +
        [Cell(palette, sp), Cell(palette, sp + 1), Cell(palette, sp + 2)]);
  }

  /** One row of a two-colour image: whole bytes, then the remaining bits of a last partial byte */
  method ExpandBitRow(width: nat, palette: seq<Byte>, data: seq<Byte>, y: nat, dest: seq<int>) returns (r: seq<int>)
    requires (y + 1) * RowSize(width, 2) <= |data| && |dest| == 3 * (y * width)
    ensures r == dest + RowCells(2, width, palette, data, y, width)
  {
    hide BitOf, RowCells, RowSize;
    var w1 := width / 8;
    NoPixels(width, palette, data, y);
    r := dest;
    var x := 0;
    while x < w1
      invariant 0 <= x <= w1
      invariant r == dest + RowCells(2, width, palette, data, y, 8 * x)
    {
      var b := 7;
      while b >= 0
        invariant -1 <= b <= 7
        invariant r == dest + RowCells(2, width, palette, data, y, 8 * x + 7 - b)
      {
        r := ExpandBit(width, palette, data, y, x, b, dest, r);
        b := b - 1;
      }
      x := x + 1;
    }
    var b := 7;
    while b >= 8 - width % 8
      invariant 7 - width % 8 <= b <= 7
      invariant r == dest + RowCells(2, width, palette, data, y, 8 * x + 7 - b)
    {
      r := ExpandBit(width, palette, data, y, x, b, dest, r);
      b := b - 1;
    }
  }

  /** One row of an image with more colours */
  method ExpandByteRow(numColors: nat, width: nat, palette: seq<Byte>, data: seq<Byte>, y: nat, dest: seq<int>)
    returns (r: seq<int>)
    requires numColors > 2 && (y + 1) * RowSize(width, numColors) <= |data| && |dest| == 3 * (y * width)
    ensures r == dest + RowCells(numColors, width, palette, data, y, width)
  {
    assert (y + 1) * width == y * width + width;
    r := dest;
    for x := 0 to width
      invariant r == dest + RowCells(numColors, width, palette, data, y, x)
    {
      var dp := (y * width + x) * 3;
      var sp: nat := data[y * width + x] as int * 3;
      r := PutColor(r, dp, palette, sp);
    }
  }

  /** The expansion in handlePalette for two or more colours, including widths that are not a multiple of 8 */
  method ExpandPalette(numColors: nat, width: nat, height: nat, palette: seq<Byte>, data: seq<Byte>)
    returns (dest: seq<int>)
    requires numColors >= 2 && height * RowSize(width, numColors) <= |data|
    ensures dest == Cells(numColors, width, palette, data, height)
  {
    dest := [];
    for y := 0 to height
      invariant y * RowSize(width, numColors) <= |data|
      invariant dest == Cells(numColors, width, palette, data, y)
    {
      MulMono(y + 1, height, RowSize(width, numColors));
      if numColors == 2 {
        dest := ExpandBitRow(width, palette, data, y, dest);
      } else {
        dest := ExpandByteRow(numColors, width, palette, data, y, dest);
      }
    }
  }

  function ByteIndex(width: nat, y: int, x: int): int { y * width + x }

  /** The read index of the branch for more than two colours */
  predicate ReadsInside(colors: nat, width: nat, height: nat) {
    forall y, x :: 0 <= y < height && 0 <= x < width ==> ByteIndex(width, y, x) < height * RowSize(width, colors)
  }

  /**
   A palette of one colour is measured as bits but expanded as bytes: the expansion stays inside the data
   only for images at most one pixel wide. From three colours on it always does.
   */
  lemma OneColorReadsOutside(width: nat, height: nat, colors: nat)
    ensures ReadsInside(1, width, height) <==> width <= 1 || height == 0
    ensures colors > 2 ==> ReadsInside(colors, width, height)
  {
    if width > 1 && height > 0 {
      var n := RowSize(width, 1);
      assert n <= width - 1;
      MulMono(height, height, n);
      assert height * n <= height * (width - 1) by { MulMono(n, width - 1, height); }
      assert ByteIndex(width, height - 1, width - 1) == height * width - 1;
      assert height * (width - 1) == height * width - height;
    }
    forall y, x | 0 <= y < height && 0 <= x < width
      ensures ByteIndex(width, y, x) < height * width
    {
      RowsBelow(y, height, width, x);
    }
    if width <= 1 { assert RowSize(width, 1) == width; }
  }
}
