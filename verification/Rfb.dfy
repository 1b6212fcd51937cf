/**
 The resumable message parser of the RFB client (novnc/include/rfb.js) on top of the receive queue. Every call
 does what the machine of `RfbSpec` does: handlers may return false at any wait and be called again later,
 with FBU.bytes as the only hint about how much to wait for.
 */
module RfbClient {
  import opened Common
  import opened Bits
  import opened RfbSpec
  import opened RfbChunks
  import opened RfbSteps
  import opened WebsockQueue

  class Rfb<Z> {
    const codec: Codec<Z>
    const ws: Websock
    var fbu: Fbu<Z>
    var log: seq<Effect>    // calls of the display and of the user's callbacks
    var msgTimer: bool      // handle_message is scheduled to run again
    ghost var cuts: seq<nat> // where in the stream a message ended

    /** init_vars */
    constructor (codec: Codec<Z>)
      ensures fresh(ws) && ws.Valid() && ws.received == [] && ws.Unread() == []
      ensures this.codec == codec && fbu == Initial(codec) && log == [] && !msgTimer && cuts == [0]
      ensures Invariant()
    {
      this.codec := codec;
      ws := new Websock();
      fbu := Initial(codec);
      log := [];
      msgTimer := false;
      cuts := [0];
      new;
      LeadsNowhere(codec, Initial(codec), []);
    }

    /** No message has ended where it tears a read of the stream apart. */
    ghost predicate Untorn()
      reads this, ws
    {
      forall i :: 0 <= i < |cuts| ==> !TornAt(codec, Initial(codec), ws.received, cuts[i])
    }

    /**
     What holds between events, whatever messages arrived and whenever the timer ran: if no message tore a
     read, the machine run on everything received passes through the present state with the present effects;
     and if the code could go on, the timer is set.
     */
    ghost predicate Invariant()
      reads this, ws
    {
      && ws.Valid() && Valid(Canon(fbu)) && Hinted(codec, fbu, ws.Unread())
      && cuts != [] && cuts[|cuts| - 1] == |ws.received|
      && (Untorn() ==> Leads(codec, Initial(codec), ws.received, Point(Canon(fbu), ws.Unread(), log)))
      && (Rests(codec, fbu, ws.Unread()) || (msgTimer && |ws.Unread()| > 0))
    }

    /** What a handler may assume */
    ghost predicate Entered(encoding: int)
      reads this
    {
      !fbu.dead && fbu.rects > 0 && fbu.encoding == encoding && HasData(fbu) && Valid(Enter(fbu))
    }

    /** encHandlers.RAW */
    method DisplayRaw() returns (ret: bool, ghost fx: seq<Effect>)
      requires ws.Valid() && Entered(RAW)
      modifies this`fbu, this`log, ws`rQi, ws`taken
      ensures ws.Valid() && log == old(log) + fx
      ensures Handled(codec, Enter(old(fbu)), old(ws.Unread()), fbu, ws.Unread(), fx, ret)
    {
      hide Handled, Rows, Step, Valid, Enter, Canon, AfterLines, LineBytes, IsTail;
      ghost var s, q := Enter(fbu), ws.Unread();
      EnterKeeps(fbu);
      var lines := if fbu.lines == 0 then fbu.height else fbu.lines;
      var f := fbu.(lines := lines, bytes := LineBytes(fbu.width)); // at least a line
      CanonIs(s, f);
      var wait := ws.MustWait(f.bytes);
      if wait {
        RawWaits(codec, s, q, f);
        fbu := f;
        return false, [];
      }
      var curY := f.y + (f.height - lines);
      var len := ws.Len();
      var curHeight := LinesReady(lines, len, f.width);
      var rows := Rows(f.x, curY, f.width, curHeight, ws.rQ[ws.rQi..]);
      log := log + rows;
      var _ := ws.ShiftBytes(f.width * curHeight * BPP);
      if lines > curHeight {
        f := f.(lines := lines - curHeight); // at least another line
      } else {
        f := f.(lines := 0, rects := f.rects - 1, bytes := 0);
      }
      LinesDrawn(s, curHeight, f);
      HandledRaw(codec, s, q, curHeight, f);
      fbu := f;
      return true, rows;
    }

    /** encHandlers.Cursor */
    method SetCursor() returns (ret: bool, ghost fx: seq<Effect>)
      requires ws.Valid() && Entered(CURSOR)
      modifies this`fbu, this`log, ws`rQi, ws`taken
      ensures ws.Valid() && log == old(log) + fx
      ensures Handled(codec, Enter(old(fbu)), old(ws.Unread()), fbu, ws.Unread(), fx, ret)
    {
      hide Handled, Step, Valid, Enter, CursorPixels, CursorMask, HasData, IsTail, Canon;
      ghost var s, q := Enter(fbu), ws.Unread();
      EnterKeeps(fbu);
      CursorAlike(fbu, s);
      var pixelsLength := CursorPixels(fbu);
      var maskLength := CursorMask(fbu);
      var f := fbu.(bytes := pixelsLength + maskLength);
      var wait := ws.MustWait(f.bytes);
      if wait {
        CanonIs(s, f);
        CursorWaits(codec, s, q, f);
        fbu := f;
        return false, [];
      }
      var pixels := ws.ShiftBytes(pixelsLength);
      var mask := ws.ShiftBytes(maskLength);
      SliceTwice(q, pixelsLength, maskLength);
      var e := Cursor(f.x, f.y, f.width, f.height, pixels, mask);
      f := f.(bytes := 0, rects := f.rects - 1);
      CursorDone(codec, s, q, f);
      log := log + [e];
      fbu := f;
      return true, [e];
    }

    // ----- Tight -----

    /** Shift some bytes off and then those that are wanted. */
    method ShiftPast(skip: nat, n: nat) returns (s: seq<Byte>)
      requires ws.Valid() && |ws.Unread()| >= skip + n
      modifies ws`rQi, ws`taken
      ensures ws.Valid() && s == old(ws.Unread())[skip..skip + n] && ws.Unread() == old(ws.Unread())[skip + n..]
    {
      hide IsTail;
      ghost var q := ws.Unread();
      var _ := ws.ShiftBytes(skip);
      s := ws.ShiftBytes(n);
      SliceTwice(q, skip, n);
    }

    /** What the Tight handlers share: the record waits in machine state Canon(fbu), and nothing is wrong so far. */
    ghost predicate InTight()
      reads this, ws
    {
      && ws.Valid() && fbu.bytes > 0 && TightState(Canon(fbu))
      && |ws.Unread()| >= 1 && !TightFails(Canon(fbu), ws.Unread())
    }

    /** "fill": one Tight pixel */
    method TightFill() returns (ghost fx: seq<Effect>)
      requires InTight() && |ws.Unread()| >= 1 + DEPTH && TightMode(ws.Unread()[0]) == FillMode
      modifies this`fbu, this`log, ws`rQi, ws`taken
      ensures ws.Valid() && log == old(log) + fx
      ensures Handled(codec, Canon(old(fbu)), old(ws.Unread()), fbu, ws.Unread(), fx, true)
    {
      hide Handled, TightState, IsTail, TightFails, TightMode, TightNeed, TightDraw;
      ghost var s, q := Canon(fbu), ws.Unread();
      FillDraws(codec, s, q);
      var _ := ws.Shift8();
      var color := ws.ShiftBytes(DEPTH);
      SliceTwice(q, 1, DEPTH);
      var e := Fill(fbu.x, fbu.y, fbu.width, fbu.height, [color[2], color[1], color[0]]);
      log := log + [e];
      fx := [e];
      fbu := fbu.(bytes := 0, rects := fbu.rects - 1);
      TightDone(codec, s, q, fbu, e);
    }

    /** "jpeg" and "png" */
    method TightImage(png: bool) returns (ret: bool, ghost fx: seq<Effect>)
      requires InTight() && |ws.Unread()| >= 4 && TightMode(ws.Unread()[0]) == ImageMode(png)
      modifies this`fbu, this`log, ws`rQi, ws`taken
      ensures ws.Valid() && log == old(log) + fx
      ensures Handled(codec, Canon(old(fbu)), old(ws.Unread()), fbu, ws.Unread(), fx, ret)
    {
      hide Handled, TightState, IsTail, TightFails, TightMode, TightNeed, TightDraw, TightCLength;
      ghost var s, q := Canon(fbu), ws.Unread();
      ImageDraws(codec, s, q);
      var c := TightCLength(ws.rQ[ws.rQi..], 1);
      fbu := fbu.(bytes := 1 + c.header + c.data);
      var wait := ws.MustWait(fbu.bytes);
      if wait {
        TightWaits(codec, s, q, fbu);
        return false, [];
      }
      var file := ShiftPast(1 + c.header, c.data);
      var e := Image(fbu.x, fbu.y, png, file);
      log := log + [e];
      fx := [e];
      fbu := fbu.(bytes := 0, rects := fbu.rects - 1);
      TightDone(codec, s, q, fbu, e);
      ret := true;
    }

    /** handleCopy */
    method HandleCopy() returns (ret: bool, ghost fx: seq<Effect>)
      requires InTight() && TightMode(ws.Unread()[0]) == CopyMode
      modifies this`fbu, this`log, ws`rQi, ws`taken
      ensures ws.Valid() && log == old(log) + fx
      ensures Handled(codec, Canon(old(fbu)), old(ws.Unread()), fbu, ws.Unread(), fx, ret)
    {
      hide Handled, TightState, IsTail, TightFails, TightMode, TightNeed, TightDraw, TightLength, TightData, CopySize;
      ghost var s, q := Canon(fbu), ws.Unread();
      var f := fbu;
      var size := CopySize(f.width, f.height);
      CopyDraws(codec, s, q);
      var ctl := ws.rQ[ws.rQi];
      var c := TightLength(ws.rQ[ws.rQi..], 1, size);
      f := f.(bytes := 1 + c.header + c.data);
      var wait := ws.MustWait(f.bytes);
      if wait {
        TightWaits(codec, s, q, f);
        fbu := f;
        return false, [];
      }
      var data := ShiftPast(1 + c.header, c.data);
      var (zlibs, out) := TightData(codec, f, ctl, size, data);
      SameStreams(codec, f, s, ctl, size, data);
      if out.None? {
        f := f.(zlibs := zlibs, dead := true);
        TightSpoilt(codec, s, q, f);
        fbu := f;
        return false, [];
      }
      var e := Rgb(f.x, f.y, f.width, f.height, out.value);
      fx := [e];
      f := f.(zlibs := zlibs, bytes := 0, rects := f.rects - 1);
      TightDone(codec, s, q, f, e);
      log := log + [e];
      fbu := f;
      ret := true;
    }

    /** Shift ctl, filter id, number of colours, palette entries and compact length off, then the data. */
    method ShiftPalette(paletteSize: nat, c: CLength) returns (palette: seq<Byte>, data: seq<Byte>)
      requires ws.Valid() && |ws.Unread()| >= 3 + paletteSize + c.header + c.data
      modifies ws`rQi, ws`taken
      ensures ws.Valid() && ws.Unread() == old(ws.Unread())[3 + paletteSize + c.header + c.data..]
      ensures palette == old(ws.Unread())[3..3 + paletteSize]
      ensures var p := 3 + paletteSize + c.header; data == old(ws.Unread())[p..p + c.data]
    {
      hide IsTail;
      ghost var q := ws.Unread();
      palette := ShiftPast(3, paletteSize);
      data := ShiftPast(c.header, c.data);
      SliceShifted(q, 3 + paletteSize, c.header, c.data);
    }

    /** The part of handlePalette that runs once everything is queued */
    method PaletteData(numColors: nat, size: nat, c: CLength) returns (ret: bool, ghost fx: seq<Effect>)
      requires InTight() && |ws.Unread()| >= 3 && TightMode(ws.Unread()[0]) == FilterMode
      requires numColors == ws.Unread()[2] as int + 1 && size == IndexSize(fbu.width, fbu.height, numColors)
      requires c == TightLength(ws.Unread(), 3 + numColors * DEPTH, size)
      requires |ws.Unread()| >= 3 + numColors * DEPTH + c.header + c.data
      modifies this`fbu, this`log, ws`rQi, ws`taken
      ensures ws.Valid() && log == old(log) + fx
      ensures Handled(codec, Canon(old(fbu)), old(ws.Unread()), fbu, ws.Unread(), fx, ret)
    {
      hide Handled, TightState, IsTail, TightFails, TightMode, TightNeed, TightDraw, TightLength, TightData, IndexSize;
      ghost var s, q := Canon(fbu), ws.Unread();
      var f := fbu;
      PaletteNeeds(s, q);
      PaletteDraws(codec, s, q);
      var paletteSize := numColors * DEPTH;
      var ctl := ws.rQ[ws.rQi];
      var palette, data := ShiftPalette(paletteSize, c);
      var (zlibs, out) := TightData(codec, f, ctl, size, data);
      SameStreams(codec, f, s, ctl, size, data);
      if out.None? {
        f := f.(zlibs := zlibs, dead := true);
        TightSpoilt(codec, s, q, f);
        fbu := f;
        return false, [];
      }
      var e := Palette(f.x, f.y, f.width, f.height, palette, out.value);
      fx := [e];
      f := f.(zlibs := zlibs, bytes := 0, rects := f.rects - 1);
      TightDone(codec, s, q, f, e);
      log := log + [e];
      fbu := f;
      ret := true;
    }

    /** handlePalette, up to the expansion of the indexed pixels */
    method HandlePalette() returns (ret: bool, ghost fx: seq<Effect>)
      requires InTight() && |ws.Unread()| >= 3 && TightMode(ws.Unread()[0]) == FilterMode && fbu.bytes == 3
      modifies this`fbu, this`log, ws`rQi, ws`taken
      ensures ws.Valid() && log == old(log) + fx
      ensures Handled(codec, Canon(old(fbu)), old(ws.Unread()), fbu, ws.Unread(), fx, ret)
    {
      hide Handled, TightState, IsTail, TightFails, TightMode, TightNeed, TightDraw, TightLength, IndexSize;
      ghost var s, q := Canon(fbu), ws.Unread();
      PaletteNeeds(s, q);
      var numColors := ws.rQ[ws.rQi + 2] as int + 1;
      var paletteSize := numColors * DEPTH;
      var f := fbu.(bytes := fbu.bytes + paletteSize);
      var wait := ws.MustWait(f.bytes);
      if wait {
        TightWaits(codec, s, q, f);
        fbu := f;
        return false, [];
      }
      var size := IndexSize(f.width, f.height, numColors);
      var c := TightLength(ws.rQ[ws.rQi..], 3 + paletteSize, size);
      f := f.(bytes := f.bytes + c.header + c.data);
      wait := ws.MustWait(f.bytes);
      fbu := f;
      if wait {
        TightWaits(codec, s, q, f);
        return false, [];
      }
      ret, fx := PaletteData(numColors, size, c);
    }

    /** display_tight */
    method DisplayTight() returns (ret: bool, ghost fx: seq<Effect>)
      requires ws.Valid() && (Entered(TIGHT) || Entered(TIGHT_PNG))
      modifies this`fbu, this`log, ws`rQi, ws`taken
      ensures ws.Valid() && log == old(log) + fx
      ensures Handled(codec, Enter(old(fbu)), old(ws.Unread()), fbu, ws.Unread(), fx, ret)
    {
      hide Handled, Step, Valid, Enter, IsTail, TightMode, TightNeed;
      ghost var s, q := Enter(fbu), ws.Unread();
      EnterKeeps(fbu);
      assert TightState(s);
      hide TightState;
      fbu := fbu.(bytes := 1);
      NeedsControl(s, q);
      var wait := ws.MustWait(fbu.bytes);
      if wait {
        TightWaits(codec, s, q, fbu);
        return false, [];
      }
      var mode := TightMode(ws.rQ[ws.rQi]);
      if mode.Illegal? || (fbu.encoding == TIGHT_PNG && (mode.FilterMode? || mode.CopyMode?)) {
        fbu := fbu.(dead := true);
        TightDies(codec, s, q, fbu);
        return false, [];
      }
      var more := match mode case FillMode => DEPTH case ImageMode(_) => 3 case FilterMode => 2 case _ => 0;
      NeedsMode(s, q);
      fbu := fbu.(bytes := fbu.bytes + more);
      wait := ws.MustWait(fbu.bytes);
      if wait {
        TightWaits(codec, s, q, fbu);
        return false, [];
      }
      match mode
      case FillMode =>
        fx := TightFill();
        ret := true;
      case ImageMode(png) =>
        ret, fx := TightImage(png);
      case FilterMode =>
        if ws.rQ[ws.rQi + 1] != 1 {
          fbu := fbu.(dead := true);
          TightDies(codec, s, q, fbu);
          return false, [];
        }
        ret, fx := HandlePalette();
      case CopyMode =>
        ret, fx := HandleCopy();
    }

    // ----- hextile -----

    /** One round of the tile loop: predict, wait, draw. FBU.bytes is 0 after a drawn tile. */
    method HextileTile() returns (r: TileResult, ghost fx: seq<Effect>)
      requires ws.Valid() && TilesValid(fbu)
      modifies this`fbu, this`log, ws`rQi, ws`taken
      ensures ws.Valid() && log == old(log) + fx
      ensures TileOutcome(old(fbu), old(ws.Unread()), fbu, ws.Unread(), fx, r)
    {
      hide IsTail, TileNeed, TileDraw, TilesValid;
      var f, q := fbu, ws.rQ[ws.rQi..];
      var need, bad := PredictTile(f, q);
      if bad {
        fbu := f.(bytes := 1, dead := true);
        return Failed, [];
      }
      var wait := ws.MustWait(need);
      if wait {
        fbu := f.(bytes := need);
        return Waiting, [];
      }
      var g, e, i := DrawTile(f, q);
      ws.Skip(ws.rQi + i);
      log := log + e;
      fbu := g.(bytes := 0, tiles := g.tiles - 1);
      return Drawn, e;
    }

    /** encHandlers.HEXTILE */
    method DisplayHextile() returns (ret: bool, ghost fx: seq<Effect>)
      requires ws.Valid() && Entered(HEXTILE)
      modifies this`fbu, this`log, ws`rQi, ws`taken
      ensures ws.Valid() && log == old(log) + fx
      ensures Handled(codec, Enter(old(fbu)), old(ws.Unread()), fbu, ws.Unread(), fx, ret)
    {
      hide Handled, Step, Leads, IsTail, TileOutcome, Canon;
      ghost var s, q := Enter(fbu), ws.Unread();
      if fbu.tiles == 0 {
        var tilesX, tilesY := TilesX(fbu.width), TilesX(fbu.height);
        fbu := fbu.(tilesX := tilesX, totalTiles := tilesX * tilesY, tiles := tilesX * tilesY);
      }
      assert fbu.(bytes := 1) == s;
      assert HexState(fbu);
      hide HexState, Enter, Valid, TilesX;
      fx := [];
      LeadsNowhere(codec, s, q);
      while true
        invariant ws.Valid() && HexState(fbu) && |ws.Unread()| <= |q|
        invariant log == old(log) + fx
        invariant Leads(codec, s, q, Point(fbu.(bytes := 1), ws.Unread(), fx))
        decreases fbu.tiles
      {
        ghost var f0, q0 := fbu, ws.Unread();
        var r;
        ghost var more;
        r, more := HextileTile();
        TileStep(codec, f0, q0, fbu, ws.Unread(), more, r);
        Assoc(old(log), fx, more);
        if r != Drawn {
          HandledTrans(codec, s, q, Point(f0.(bytes := 1), q0, fx), fbu, ws.Unread(), more, false);
          return false, fx + more;
        }
        if fbu.tiles == 0 {
          fbu := fbu.(rects := fbu.rects - 1);
          HandledTrans(codec, s, q, Point(f0.(bytes := 1), q0, fx), fbu, ws.Unread(), more, true);
          return true, fx + more;
        }
        LeadsTrans(codec, s, q, Point(f0.(bytes := 1), q0, fx), Point(fbu.(bytes := 1), ws.Unread(), more));
        fx := fx + more;
      }
    }

    // ----- updates -----

    /** encHandlers[FBU.encoding]() for encodings that carry data */
    method CallHandler() returns (ret: bool, ghost fx: seq<Effect>)
      requires ws.Valid() && Entered(fbu.encoding)
      modifies this`fbu, this`log, ws`rQi, ws`taken
      ensures ws.Valid() && log == old(log) + fx
      ensures Handled(codec, Enter(old(fbu)), old(ws.Unread()), fbu, ws.Unread(), fx, ret)
    {
      hide Handled, Valid, Enter, IsTail;
      if fbu.encoding == RAW {
        ret, fx := DisplayRaw();
      } else if fbu.encoding == HEXTILE {
        ret, fx := DisplayHextile();
      } else if fbu.encoding == CURSOR {
        ret, fx := SetCursor();
      } else {
        ret, fx := DisplayTight();
      }
    }

    /** The handlers that wait, if at all, while FBU.bytes is 0, right after their header `hdr` was read */
    method CallSimpleHandler(ghost hdr: seq<Byte>) returns (ret: bool, ghost fx: seq<Effect>)
      requires ws.Valid() && !fbu.dead && fbu.rects > 0 && !HasData(fbu) && fbu.bytes == 0 && fbu.tiles == 0
      requires |hdr| == 12 && fbu.encoding != RRE
      modifies this`fbu, this`log, ws`rQi, ws`taken
      ensures ws.Valid() && log == old(log) + fx
      ensures ShortOutcome(old(fbu), hdr + old(ws.Unread()), fbu, ws.Unread(), fx, ret)
    {
      hide IsTail, Be16;
      var f := fbu;
      ghost var q, all := ws.Unread(), hdr + ws.Unread();
      assert all[12..] == q;
      if f.encoding == RAW {
        // width 0: the number of lines is rQlen / 0, infinite or not a number
        var len := ws.Len();
        if len == 0 {
          fbu := f.(dead := true);
          return false, [];
        }
        fbu := f.(rects := f.rects - 1);
        return true, [];
      } else if f.encoding == HEXTILE {
        fbu := f.(tilesX := TilesX(f.width), totalTiles := 0, tiles := 0, rects := f.rects - 1);
        return true, [];
      } else if f.encoding == DESKTOP_SIZE {
        fx := [Resize(f.width, f.height)];
        log := log + [Resize(f.width, f.height)];
        fbu := f.(bytes := 0, rects := f.rects - 1);
        assert fbu.rects != 0 ==> fx + Tail(fbu) == fx;
        return true, fx;
      } else if f.encoding == LAST_RECT {
        fbu := f.(rects := 0);
        assert [] + Tail(fbu) == [Complete];
        return true, [];
      } else if f.encoding == COPYRECT {
        var wait := ws.MustWait(4);
        if wait {
          return false, [];
        }
        var oldX := ws.Shift16();
        var oldY := ws.Shift16();
        SliceTwice(q, 2, 2);
        CopySlices(hdr, q);
        fx := [Copy(oldX, oldY, f.x, f.y, f.width, f.height)];
        log := log + [Copy(oldX, oldY, f.x, f.y, f.width, f.height)];
        fbu := f.(bytes := 0, rects := f.rects - 1);
        assert fbu.rects != 0 ==> fx + Tail(fbu) == fx;
        return true, fx;
      } else {
        fbu := f.(dead := true);
        return false, [];
      }
    }

    // ----- RRE -----

    /** One subrectangle off the queue */
    method NextSubrect(f: Fbu<Z>) returns (e: Effect)
      requires ws.Valid() && |ws.Unread()| >= SUB
      modifies ws`rQi, ws`taken
      ensures ws.Valid() && e == RreSub(f, old(ws.Unread())) && ws.Unread() == old(ws.Unread())[SUB..]
    {
      hide IsTail, Be16;
      ghost var q := ws.Unread();
      SubSlices(q);
      var color := ws.ShiftBytes(BPP);
      var x := ws.Shift16();
      var y := ws.Shift16();
      var width := ws.Shift16();
      var height := ws.Shift16();
      e := Fill(f.x + x, f.y + y, width, height, color);
    }

    /** The loop of display_rre, and what it asks for next */
    method DrawSubrects() returns (ghost fx: seq<Effect>, ghost k: nat)
      requires ws.Valid() && fbu.rects > 0
      modifies this`fbu, this`log, ws`rQi, ws`taken
      ensures ws.Valid() && log == old(log) + fx
      ensures RreDrawn(old(fbu), old(ws.Unread()), fbu, ws.Unread(), fx, k)
    {
      hide IsTail, RreSub, SubFills;
      var f := fbu;
      ghost var q := ws.Unread();
      var subrects := f.subrects;
      fx, k := [], 0;
      SubFillsNone(f, q);
      assert q[0..] == q;
      var len := ws.Len();
      while subrects > 0 && len >= SUB
        invariant ws.Valid() && SUB * k <= |q| && ws.Unread() == q[SUB * k..] && len == |ws.Unread()|
        invariant subrects == f.subrects - k && (f.subrects > 0 ==> subrects >= 0) && (f.subrects <= 0 ==> k == 0)
        invariant fx == SubFills(f, k, q) && log == old(log) + fx
        decreases subrects
      {
        var e := NextSubrect(f);
        SubFillsMore(f, k, q);
        assert q[SUB * k..][SUB..] == q[SUB * (k + 1)..];
        log := log + [e];
        fx := fx + [e];
        k := k + 1;
        subrects := subrects - 1;
        len := ws.Len();
      }
      if subrects > 0 {
        fbu := f.(subrects := subrects, bytes := ChunkBytes(subrects));
      } else {
        fbu := f.(subrects := subrects, rects := f.rects - 1, bytes := 0);
      }
    }

    /** display_rre right after the header of f0 was read */
    method BeginRre(ghost f0: Fbu<Z>, ghost hdr: seq<Byte>) returns (ret: bool, ghost fx: seq<Effect>)
      requires ws.Valid() && Valid(f0) && !f0.dead && f0.rects > 0 && f0.bytes == 0
      requires |hdr| == 12 && fbu == WithHeader(f0, hdr + ws.Unread()) && fbu.encoding == RRE
      modifies this`fbu, this`log, ws`rQi, ws`taken
      ensures ws.Valid() && log == old(log) + fx
      ensures Handled(codec, f0, hdr + old(ws.Unread()), fbu, ws.Unread(), fx, ret)
      ensures |ws.Unread()| < |hdr + old(ws.Unread())|
    {
      hide IsTail, Be16, Be32, Handled, RreDrawn, Valid, Step;
      ghost var q, all := ws.Unread(), hdr + ws.Unread();
      HeaderKeeps(f0, all);
      var f := fbu;
      fx := [];
      if f.subrects == 0 {
        var wait := ws.MustWait(4 + BPP);
        if wait {
          RreStalls(codec, f0, all);
          assert all[12..] == q;
          return false, [];
        }
        var count := ws.Shift32();
        var color := ws.ShiftBytes(BPP);
        RreSlices(hdr, q);
        f := f.(subrects := Signed32(count));
        fx := [Fill(f.x, f.y, f.width, f.height, color)];
        log := log + [Fill(f.x, f.y, f.width, f.height, color)];
      } else {
        assert all[12..] == q;
      }
      ghost var more, k;
      fbu := f;
      more, k := DrawSubrects();
      Assoc(old(log), fx, more);
      RreBegun(codec, f0, all, f, fbu, ws.Unread(), more, k);
      fx := fx + more;
      ret := true;
    }

    /** display_rre called again after a wait */
    method ResumeRre() returns (ret: bool, ghost fx: seq<Effect>)
      requires ws.Valid() && Valid(Canon(fbu)) && Busy(fbu) && fbu.encoding == RRE
      requires fbu.bytes == ChunkBytes(fbu.subrects) <= |ws.Unread()|
      modifies this`fbu, this`log, ws`rQi, ws`taken
      ensures ws.Valid() && log == old(log) + fx
      ensures Handled(codec, Canon(old(fbu)), old(ws.Unread()), fbu, ws.Unread(), fx, ret)
    {
      hide IsTail, Handled, RreDrawn, Valid;
      ghost var f0, q, k := fbu, ws.Unread(), 0;
      fx, k := DrawSubrects();
      RreResumed(codec, f0, q, fbu, ws.Unread(), fx, k);
      ret := true;
    }

    /** One round of the loop in framebufferUpdate */
    method Rectangle() returns (ret: bool, ghost fx: seq<Effect>)
      requires ws.Valid() && !fbu.dead && fbu.rects > 0 && Valid(Canon(fbu)) && Hinted(codec, fbu, ws.Unread())
      modifies this`fbu, this`log, ws`rQi, ws`taken
      ensures ws.Valid() && log == old(log) + fx
      ensures Handled(codec, Canon(old(fbu)), old(ws.Unread()), fbu, ws.Unread(), fx, ret)
      ensures ret && |ws.Unread()| == old(|ws.Unread()|) ==> old(fbu.bytes) > 0
    {
      hide Handled, Valid, Enter, IsTail, Step, HasData, ShortOutcome, WithHeader;
      ghost var f0, q := fbu, ws.Unread();
      var wait := ws.MustWait(fbu.bytes);
      if wait {
        HintSays(codec, f0, q);
        return false, [];
      }
      if fbu.bytes == 0 {
        wait := ws.MustWait(12);
        if wait {
          HeaderWaits(codec, f0, q);
          return false, [];
        }
        var hdr := ws.ShiftBytes(12);
        HeaderFrom(f0, q, hdr);
        fbu := WithHeader(fbu, hdr);
        HeaderKeeps(f0, q);
        assert hdr + ws.Unread() == q;
        if fbu.encoding == RRE {
          ret, fx := BeginRre(f0, hdr);
          return;
        }
        if !HasData(fbu) {
          ret, fx := CallSimpleHandler(hdr);
          ShortHandled(codec, f0, q, fbu, ws.Unread(), fx, ret);
          return;
        }
        EnterStep(codec, f0, q);
        ghost var g := fbu;
        ret, fx := CallHandler();
        HandledAfter(codec, f0, q, Enter(g), 12, fbu, ws.Unread(), fx, ret);
        HandledShrinks(codec, Enter(g), q[12..], fbu, ws.Unread(), fx, ret);
      } else if fbu.encoding == RRE {
        ret, fx := ResumeRre();
      } else {
        Resumes(f0);
        ret, fx := CallHandler();
      }
    }

    /** The loop of framebufferUpdate */
    method Rectangles() returns (ret: bool, ghost fx: seq<Effect>)
      requires ws.Valid() && !fbu.dead && fbu.rects > 0 && Valid(Canon(fbu)) && Hinted(codec, fbu, ws.Unread())
      modifies this`fbu, this`log, ws`rQi, ws`taken
      ensures ws.Valid() && log == old(log) + fx && (ret ==> fbu.rects == 0)
      ensures Handled(codec, Canon(old(fbu)), old(ws.Unread()), fbu, ws.Unread(), fx, ret)
    {
      hide Handled, Valid, IsTail, Step, Leads, Hinted, Canon;
      ghost var s, q := Canon(fbu), ws.Unread();
      fx := [];
      LeadsNowhere(codec, s, q);
      while true
        invariant ws.Valid() && !fbu.dead && fbu.rects > 0 && Valid(Canon(fbu)) && Hinted(codec, fbu, ws.Unread())
        invariant log == old(log) + fx && |ws.Unread()| <= |q|
        invariant Leads(codec, s, q, Point(Canon(fbu), ws.Unread(), fx))
        decreases |ws.Unread()|, fbu.bytes > 0
      {
        ghost var p := Point(Canon(fbu), ws.Unread(), fx);
        ghost var more;
        ret, more := Rectangle();
        Assoc(old(log), fx, more);
        HandledTrans(codec, s, q, p, fbu, ws.Unread(), more, ret);
        fx := fx + more;
        if !ret || fbu.rects == 0 {
          return;
        }
        HandledOn(codec, s, q, fbu, ws.Unread(), fx);
        HandledOn(codec, p.f, p.q, fbu, ws.Unread(), more);
      }
    }

    /**
     The header part of framebufferUpdate. The message type has just been shifted off; it is put back if the
     rest of the header is missing.
     */
    method BeginUpdate() returns (begun: bool)
      requires ws.Valid() && fbu.rects == 0 && ws.taken != [] && ws.taken[|ws.taken| - 1] == 0
      modifies this`fbu, ws`rQi, ws`taken, ws`rQ
      ensures ws.Valid() && begun == (|[0] + old(ws.Unread())| >= 4)
      ensures var q := [0] + old(ws.Unread());
              if begun then fbu == old(fbu).(rects := Be16(q, 2), bytes := 0) && ws.Unread() == q[4..]
              else fbu == old(fbu) && ws.Unread() == q
    {
      hide Be16;
      UpdateSlices(ws.Unread());
      var wait := ws.MustWait(3);
      if wait {
        ws.Unshift8(0);
        return false;
      }
      var _ := ws.Shift8();
      var rects := ws.Shift16();
      fbu := fbu.(rects := rects, bytes := 0);
      return true;
    }

    /** The rest of framebufferUpdate: the rectangles, and the callback when none is left */
    method ContinueUpdate() returns (ret: bool, ghost fx: seq<Effect>)
      requires ws.Valid() && !fbu.dead && fbu.rects > 0 && Valid(Canon(fbu)) && Hinted(codec, fbu, ws.Unread())
      modifies this`fbu, this`log, ws`rQi, ws`taken
      ensures ws.Valid() && log == old(log) + fx && (ret ==> fbu.rects == 0)
      ensures Did(codec, Canon(old(fbu)), old(ws.Unread()), fbu, ws.Unread(), fx, ret)
    {
      hide Handled, Valid, IsTail, Step, Leads, Hinted, Did;
      ghost var s, q := Canon(fbu), ws.Unread();
      ret, fx := Rectangles();
      LeadsNowhere(codec, s, q);
      DidAfter(codec, s, q, Point(s, q, []), fbu, ws.Unread(), fx, ret);
      if ret {
        Assoc(old(log), fx, [Complete]);
        log := log + [Complete];
        fx := fx + [Complete];
      }
    }

    /** framebufferUpdate */
    method FramebufferUpdate() returns (ret: bool, ghost fx: seq<Effect>)
      requires ws.Valid() && !fbu.dead && Valid(Canon(fbu)) && Hinted(codec, fbu, ws.Unread())
      requires fbu.rects == 0 ==> ws.taken != [] && ws.taken[|ws.taken| - 1] == 0
      modifies this`fbu, this`log, ws`rQi, ws`taken, ws`rQ
      ensures ws.Valid() && log == old(log) + fx && (ret ==> fbu.rects == 0)
      ensures var q := old(if fbu.rects == 0 then [0] + ws.Unread() else ws.Unread());
              Did(codec, Canon(old(fbu)), q, fbu, ws.Unread(), fx, ret)
    {
      hide Valid, IsTail, Step, Leads, Hinted, Did, Be16;
      if fbu.rects == 0 {
        ghost var f, q := fbu, [0] + ws.Unread();
        var begun := BeginUpdate();
        if !begun {
          UpdateWaits(codec, f, q);
          return false, [];
        }
        UpdateBegins(codec, f, q);
        if fbu.rects == 0 {
          log := log + [Complete];
          return true, [Complete];
        }
        ghost var p := Point(fbu, ws.Unread(), []);
        ret, fx := ContinueUpdate();
        DidThen(codec, Canon(f), q, p, fbu, ws.Unread(), fx, ret);
      } else {
        ret, fx := ContinueUpdate();
      }
    }

    // ----- messages -----

    /** ServerCutText, after the message type was shifted off: both waits rewind to the type byte. */
    method ServerCutText() returns (ret: bool, ghost fx: seq<Effect>)
      requires ws.Valid() && !fbu.dead && fbu.rects == 0 && Valid(Canon(fbu))
      requires ws.rQi > 0 && ws.rQ[ws.rQi - 1] == 3
      modifies this`fbu, this`log, ws`rQi, ws`taken
      ensures ws.Valid() && log == old(log) + fx && (ret ==> fbu.rects == 0)
      ensures Did(codec, Canon(old(fbu)), [3] + old(ws.Unread()), fbu, ws.Unread(), fx, ret)
    {
      hide Valid, IsTail, Did, Be32;
      ghost var u, q := ws.Unread(), [3] + ws.Unread();
      assert q == ws.rQ[ws.rQi - 1..];
      var r := ws.Wait(7, 1);
      if r != Ready {
        CutWaits(codec, fbu, q);
        return false, [];
      }
      var _ := ws.ShiftBytes(3);
      var length := ws.Shift32();
      CutSlices(u);
      if length >= 0x8000_0000 {
        CutDies(codec, fbu, q);
        fbu := fbu.(dead := true);
        return false, [];
      }
      r := ws.Wait(length, 8);
      if r != Ready {
        CutWaits(codec, fbu, q);
        return false, [];
      }
      var text := ws.ShiftBytes(length);
      SliceTwice(q, 8, length);
      CutDone(codec, fbu, q);
      log := log + [CutText(text)];
      return true, [CutText(text)];
    }

    method ReadColour() returns (colour: Colour)
      requires ws.Valid() && |ws.Unread()| >= 6
      modifies ws`rQi, ws`taken
      ensures ws.Valid() && colour == old(var q := ws.Unread(); Colour(q[4], q[2], q[0]))
      ensures ws.Unread() == old(ws.Unread())[6..]
    {
      hide IsTail, Be16;
      ColourSplits(ws.Unread());
      var red := ws.Shift16();
      var green := ws.Shift16();
      var blue := ws.Shift16();
      colour := Colour(blue / 256, green / 256, red / 256);
    }

    /** The entries of a colour map */
    method ReadColours(num: nat) returns (colours: seq<Colour>)
      requires ws.Valid() && |ws.Unread()| >= 6 * num
      modifies ws`rQi, ws`taken
      ensures ws.Valid() && colours == Colours(old(ws.Unread()), 0, num) && ws.Unread() == old(ws.Unread())[6 * num..]
    {
      hide IsTail, Be16, Colours;
      ghost var q := ws.Unread();
      colours := [];
      assert q[0..] == q;
      for c := 0 to num
        invariant ws.Valid() && ws.Unread() == q[6 * c..]
        invariant colours + Colours(q, 6 * c, num - c) == Colours(q, 0, num)
      {
        var colour := ReadColour();
        NextColour(colours, q, 6 * c, num - c);
        colours := colours + [colour];
      }
      NoColours(colours, q, 6 * num);
    }

    /** SetColourMapEntries, after the message type was shifted off. Its header is read without waiting for it. */
    method ColourMapEntries() returns (ret: bool, ghost fx: seq<Effect>)
      requires ws.Valid() && !fbu.dead && fbu.rects == 0 && Valid(Canon(fbu))
      requires ws.rQi > 0 && ws.rQ[ws.rQi - 1] == 1
      modifies this`fbu, this`log, ws`rQi, ws`taken
      ensures ws.Valid() && log == old(log) + fx && (ret ==> fbu.rects == 0)
      ensures Did(codec, Canon(old(fbu)), [1] + old(ws.Unread()), fbu, ws.Unread(), fx, ret)
    {
      hide Valid, IsTail, Did, Be16, Colours;
      ghost var u, q := ws.Unread(), [1] + ws.Unread();
      assert q == ws.rQ[ws.rQi - 1..] && q[1..] == u;
      var len := ws.Len();
      if len < 5 {
        UnknownDies(codec, fbu, q);
        fbu := fbu.(dead := true);
        return true, [];
      }
      ColourSlices(u);
      var _ := ws.Shift8();
      var first := ws.Shift16();
      var num := ws.Shift16();
      var r := ws.Wait(num * 6, 6);
      if r != Ready {
        ColourWaits(codec, fbu, q);
        return false, [];
      }
      var colours := ReadColours(num);
      SliceTwice(q, 6, 6 * num);
      ColoursFrom(q, 6, num);
      ColourDone(codec, fbu, q);
      log := log + [ColourMap(first, colours)];
      return true, [ColourMap(first, colours)];
    }

    /** normal_msg, called with something queued */
    method NormalMsg() returns (ret: bool, ghost fx: seq<Effect>)
      requires ws.Valid() && !fbu.dead && Valid(Canon(fbu)) && Hinted(codec, fbu, ws.Unread()) && |ws.Unread()| > 0
      modifies this`fbu, this`log, ws`rQi, ws`taken, ws`rQ
      ensures ws.Valid() && log == old(log) + fx && (ret ==> fbu.rects == 0)
      ensures Did(codec, Canon(old(fbu)), old(ws.Unread()), fbu, ws.Unread(), fx, ret)
    {
      hide Valid, IsTail, Did, Leads;
      ghost var f, q := fbu, ws.Unread();
      if fbu.rects > 0 {
        ret, fx := FramebufferUpdate();
        return;
      }
      var msgType := ws.Shift8();
      assert q == [msgType] + ws.Unread();
      match msgType {
        case 0 =>
          ret, fx := FramebufferUpdate();
        case 1 =>
          ret, fx := ColourMapEntries();
        case 2 =>
          BellRings(codec, f, q);
          log := log + [Bell];
          return true, [Bell];
        case 3 =>
          ret, fx := ServerCutText();
        case _ =>
          UnknownDies(codec, f, q);
          fbu := fbu.(dead := true);
          return true, [];
      }
    }

    // ----- events -----

    /** handle_message in state 'normal' */
    method HandleMessage()
      requires ws.Valid() && Valid(Canon(fbu)) && Hinted(codec, fbu, ws.Unread())
      requires cuts != [] && cuts[|cuts| - 1] == |ws.received|
      requires Untorn() ==> Leads(codec, Initial(codec), ws.received, Point(Canon(fbu), ws.Unread(), log))
      requires |ws.Unread()| == 0 ==> Rests(codec, fbu, ws.Unread())
      modifies this`fbu, this`log, this`msgTimer, ws`rQi, ws`taken, ws`rQ
      ensures Invariant()
    {
      hide Valid, IsTail, Leads, Hinted, Step, TornAt, Rests;
      var len := ws.Len();
      if len == 0 {
        return;
      }
      if fbu.dead {
        DeadRests(codec, fbu, ws.Unread());
        return;
      }
      ghost var p := Point(Canon(fbu), ws.Unread(), log);
      var ret;
      ghost var fx;
      ret, fx := NormalMsg();
      DidMore(codec, ws.received, p, fbu, ws.Unread(), fx, ret);
      len := ws.Len();
      if ret && len > 0 {
        msgTimer := true;
      } else if ret {
        IdleRests(codec, fbu, ws.Unread());
      }
    }

    /** recv_message: a message arrives, is handled, and the queue may be compacted. */
    method RecvMessage(data: seq<Byte>)
      requires Invariant()
      modifies this`fbu, this`log, this`msgTimer, this`cuts, ws
      ensures Invariant() && ws.received == old(ws.received) + data && cuts == old(cuts) + [|ws.received|]
    {
      hide Valid, IsTail, Leads, Hinted, Step, TornAt, Rests;
      ghost var f, q, all := fbu, ws.Unread(), ws.received;
      HintedLater(codec, f, q, data);
      ws.Append(data);
      cuts := cuts + [|ws.received|];
      if Untorn() {
        UntornSoFar(codec, all, data, old(cuts), cuts);
        LeadsUntorn(codec, Initial(codec), all, Point(Canon(f), q, log), data);
      }
      var len := ws.Len();
      if len > 0 {
        HandleMessage();
        ws.Compact();
      } else {
        assert q + data == q;
      }
    }

    /** The timer set by handle_message fires. */
    method TimerFires()
      requires Invariant() && msgTimer
      modifies this`fbu, this`log, this`msgTimer, ws`rQi, ws`taken, ws`rQ
      ensures Invariant()
    {
      hide Valid, IsTail, Leads, Hinted, Step, TornAt, Rests;
      msgTimer := false;
      HandleMessage();
    }

    /**
     Chunking and timing are unobservable: when no timer is pending and no message tore a read, the record, the
     effects and the unread bytes are those of one run over everything received. Within an RRE rectangle the
     code may be behind, by less than a chunk of subrectangles, and then the rest of the run is the same.
     */
    lemma Quiescent()
      requires Invariant() && !msgTimer && Untorn()
      ensures if Lags(fbu, ws.Unread())
              then |ws.Unread()| < 1200 &&
                   Run(codec, Initial(codec), ws.received) == Run(codec, Canon(fbu), ws.Unread()).After(log)
              else Run(codec, Initial(codec), ws.received) == Point(Canon(fbu), ws.Unread(), log)
    {
      hide Leads, Run, Step;
      var p := Point(Canon(fbu), ws.Unread(), log);
      if Lags(fbu, ws.Unread()) {
        LeadsRun(codec, Initial(codec), ws.received, p);
      } else {
        LeadsToRest(codec, Initial(codec), ws.received, p);
      }
    }
  }
}
