/** What the client refuses, in terms of the bytes on the wire: the parser is dead afterwards, and only then. */
module RfbRefusals {
  import opened Common
  import opened Bits
  import opened RfbSpec
  import opened RfbChunks
  import opened RfbDecodes
  import Server = RfbServer

  predicate Known(encoding: int) {
    encoding in {0, 1, 2, 5, 7, -260, -223, -224, -239}
  }

  /** A rectangle with any data behind its header is refused exactly when its encoding has no handler. */
  lemma EncodingRefusedIff<Z>(codec: Codec<Z>, f: Fbu<Z>, a: Server.Area, encoding: int, body: seq<Byte>)
    requires AtHeader(f) && a.Fits() && -0x8000_0000 <= encoding < 0x8000_0000 && |body| >= 8
    ensures var m := Step(codec, f, Server.HeaderBytes(a, encoding) + body);
            m.Move? && (m.f.dead <==> !Known(encoding))
  {
    hide Server.HeaderBytes, Leads, Be16, Be32;
    HeaderSteps(codec, f, a, encoding, body);
  }

  lemma HighBit(q: seq<Byte>, i: nat)
    requires i + 3 < |q|
    ensures Be32(q, i) >= 0x8000_0000 <==> q[i] >= 0x80
  {
  }

  /** A message is refused exactly when its type is unknown, its colour map is cut short or its text is too long. */
  lemma MessageRefusedIff<Z>(codec: Codec<Z>, f: Fbu<Z>, q: seq<Byte>)
    requires Valid(f) && !f.dead && f.rects == 0 && |q| > 0
    ensures var m := Step(codec, f, q);
            (m.Move? && m.f.dead) <==>
            (q[0] > 3 || (q[0] == 1 && |q| < 6) || (q[0] == 3 && |q| >= 8 && q[4] >= 0x80))
  {
    if q[0] == 3 && |q| >= 8 {
      HighBit(q, 4);
    }
    hide Be16, Be32, Colours;
  }

  /** A tile is refused exactly when its flags have a bit above the five that are defined, or all of these. */
  lemma TileRefusedIff<Z>(codec: Codec<Z>, f: Fbu<Z>, q: seq<Byte>)
    requires Valid(f) && Busy(f) && f.encoding == HEXTILE && |q| > 0
    ensures var m := Step(codec, f, q); (m.Move? && m.f.dead) <==> q[0] > 30
  {
    hide TileNeed, TilesValid;
    if q[0] <= 30 && TileNeed(f, q) <= |q| {
      DrawKeeps(f, q);
    }
    hide TileDraw;
  }

  lemma Modes(ctl: Byte)
    ensures var m := TightMode(ctl);
            && (m == FillMode <==> 0x80 <= ctl < 0x90) && (m.ImageMode? <==> 0x90 <= ctl < 0xB0)
            && (m == CopyMode <==> ctl < 0x40) && (m == FilterMode <==> 0x40 <= ctl < 0x80 || ctl >= 0xC0)
  {
  }

  /**
   A Tight rectangle is refused for its first bytes exactly when its control byte is 0xB0 to 0xBF, or names a filter
   that is not the palette; TightPNG also refuses everything but fills and images.
   */
  lemma TightRefusedIff<Z>(f: Fbu<Z>, q: seq<Byte>)
    requires |q| > 0 && (f.encoding == TIGHT || f.encoding == TIGHT_PNG)
    ensures TightFails(f, q) <==>
            if f.encoding == TIGHT_PNG then !(0x80 <= q[0] < 0xB0)
            else
              || 0xB0 <= q[0] < 0xC0
              || ((0x40 <= q[0] < 0x80 || q[0] >= 0xC0) && |q| >= 3 && q[1] != 1)
  {
    Modes(q[0]);
    hide TightMode;
  }
}
