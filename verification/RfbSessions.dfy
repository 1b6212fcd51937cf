/**
 Whole connections: for every sequence of server messages, the client ends up idle, having shown the screen the
 server meant and handed over everything else in order.
 */
module RfbSessions {
  import opened Common
  import opened Bits
  import opened RfbSpec
  import opened RfbChunks
  import opened RfbSteps
  import opened Screens
  import opened RfbDecodes
  import HextileDecodes
  import TightDecodes
  import Server = RfbServer

  // ----- pseudo-rectangles -----

  lemma CursorSizes<Z>(f: Fbu<Z>)
    ensures CursorPixels(f) == 4 * Server.Area2(f.width, f.height)
    ensures CursorMask(f) == Server.Area2((f.width + 7) / 8, f.height)
  {
    assert f.width * f.height * 4 == 4 * (f.width * f.height);
  }

  lemma CursorDecodes<Z>(codec: Codec<Z>, f: Fbu<Z>, r: Server.Rect, rest: seq<Byte>) returns (g: Fbu<Z>)
    requires AtHeader(f) && r.CursorRect? && r.Fits()
    ensures Takes(codec, f, r.Bytes(), rest, g, r.Told()) && g.zlibs == f.zlibs
  {
    hide Leads, Server.HeaderBytes, Server.PictureBytes;
    var a, b := r.area, Server.PictureBytes(r.pixels);
    var q := b + r.mask + rest;
    HeaderSteps(codec, f, a, CURSOR, q);
    assert Server.HeaderBytes(a, CURSOR) + q == r.Bytes() + rest;
    var e := Enter(Headed(f, a, CURSOR));
    CursorSizes(e);
    hide CursorPixels, CursorMask;
    assert q[..|b|] == b && q[|b|..|b| + |r.mask|] == r.mask && q[|b| + |r.mask|..] == rest;
    LeadsOne(codec, e, q);
    StepValid(codec, e, q);
    g := Step(codec, e, q).f;
    assert r.Told() + [] == r.Told();
    LeadsTrans(codec, f, r.Bytes() + rest, Point(e, q, []), Point(g, rest, r.Told() + Tail(g)));
    assert [] + (r.Told() + Tail(g)) == r.Told() + Tail(g);
  }

  lemma SizeDecodes<Z>(codec: Codec<Z>, f: Fbu<Z>, r: Server.Rect, rest: seq<Byte>) returns (g: Fbu<Z>)
    requires AtHeader(f) && r.SizeRect? && r.Fits()
    ensures Takes(codec, f, r.Bytes(), rest, g, r.Told()) && g.zlibs == f.zlibs
  {
    hide Leads, Server.HeaderBytes;
    HeaderSteps(codec, f, r.area, DESKTOP_SIZE, rest);
    var q := r.Bytes() + rest;
    LeadsOne(codec, f, q);
    StepValid(codec, f, q);
    g := Step(codec, f, q).f;
    assert r.Told() + [] == r.Told();
  }

  // ----- any rectangle -----

  lemma ToldAlone(e: Effect, s: Screen)
    requires !Drawing(e)
    ensures Told([e]) == [e] && Shows([e], s, s)
  {
    ShowOne(e, s);
    assert [e][1..] == [];
  }

  /** Every rectangle is taken whole and does what the server means by it. */
  lemma RectDecodes<Z>(codec: Codec<Z>, f: Fbu<Z>, r: Server.Rect, rest: seq<Byte>, s: Screen)
    returns (g: Fbu<Z>, fx: seq<Effect>)
    requires AtHeader(f) && r.Fits() && r.Unpacks(codec, f.zlibs)
    ensures Takes(codec, f, r.Bytes(), rest, g, fx) && g.zlibs == r.Streams(codec, f.zlibs)
    ensures Shows(fx, s, r.Shown(s)) && Told(fx) == r.Told()
  {
    hide Takes, Shows;
    match r {
      case RawRect(a, pixels) =>
        g, fx := RawDecodes(codec, f, a, pixels, rest, s);
        DrawsTellNothing(fx);
      case CopyRect(a, x, y) =>
        g, fx := CopyDecodes(codec, f, a, x, y, rest, s);
        DrawsTellNothing(fx);
      case RreRect(a, background, spots) =>
        g, fx := RreDecodes(codec, f, a, background, spots, rest, s);
        DrawsTellNothing(fx);
      case HextileRect(a, tiles) =>
        g, fx := HextileDecodes.HextileDecodes(codec, f, a, tiles, rest, s);
        DrawsTellNothing(fx);
      case TightRect(a, encoding, resets, t) =>
        g, fx := TightDecodes.TightDecodes(codec, f, a, encoding, resets, t, rest, s);
        if t.TightImage? {
          ToldAlone(fx[0], s);
        } else {
          DrawsTellNothing(fx);
        }
      case CursorRect(_, _, _) =>
        g := CursorDecodes(codec, f, r, rest);
        fx := r.Told();
        ToldAlone(fx[0], s);
      case SizeRect(_) =>
        g := SizeDecodes(codec, f, r, rest);
        fx := r.Told();
        ToldAlone(fx[0], s);
    }
  }

  // ----- updates -----

  lemma ShowSame(e: Effect, s: Screen, s': Screen)
    requires forall px, py :: s(px, py) == s'(px, py)
    ensures forall px, py :: Show(e, s)(px, py) == Show(e, s')(px, py)
  {
    hide Bgrx, Rgb3, Selected, TilePixel;
  }

  /** Screens that look the same go on to look the same. */
  lemma {:induction false} ShowAllSame(fx: seq<Effect>, s: Screen, s': Screen)
    requires forall px, py :: s(px, py) == s'(px, py)
    ensures forall px, py :: ShowAll(fx, s)(px, py) == ShowAll(fx, s')(px, py)
    decreases |fx|
  {
    hide Show;
    if fx != [] {
      ShowSame(fx[0], s, s');
      ShowAllSame(fx[1..], Show(fx[0], s), Show(fx[0], s'));
    }
  }

  lemma ShowsThen(a: seq<Effect>, b: seq<Effect>, s: Screen, s1: Screen, s2: Screen)
    requires Shows(a, s, s1) && Shows(b, s1, s2)
    ensures Shows(a + b, s, s2)
  {
    hide ShowAll;
    ShowJoin(a, b, s);
    ShowAllSame(b, ShowAll(a, s), s1);
  }

  lemma TailAlone<Z>(g: Fbu<Z>, s: Screen)
    ensures Told(Tail(g)) == Tail(g) && Shows(Tail(g), s, s)
  {
    ToldAlone(Complete, s);
  }

  /** Between two rectangles or after the last */
  ghost predicate Between<Z>(f: Fbu<Z>) {
    Valid(f) && !f.dead && f.bytes == 0 && f.subrects == 0
  }

  /** What a run of rectangles leaves: as many fewer to come, and the update complete when none is. */
  ghost predicate Ran<Z>(codec: Codec<Z>, f: Fbu<Z>, rects: seq<Server.Rect>, g: Fbu<Z>, fx: seq<Effect>, s: Screen)
    requires Valid(f) && Server.AllFit(rects)
  {
    && Between(g) && g.rects == f.rects - |rects| && g.zlibs == Server.RectsStreams(codec, f.zlibs, rects)
    && Shows(fx, s, Server.RectsShown(rects, s))
    && Told(fx) == Server.RectsTold(rects) + if rects == [] then [] else Tail(g)
  }

  lemma NoEffects(s: Screen)
    ensures ShowAll([], s) == s && Told([]) == []
  {
  }

  lemma NoneAfter(a: seq<Effect>, b: seq<Effect>)
    ensures a + b + ([] + []) == a + [] + b
  {
    assert a + [] == a;
    assert a + b + [] == a + b;
  }

  lemma Later(a: seq<Effect>, b: seq<Effect>, c: seq<Effect>)
    ensures a + [] + (b + c) == a + b + c
  {
    assert a + [] == a;
    assert a + (b + c) == a + b + c;
  }

  lemma ToldOrder<Z>(r: Server.Rect, others: seq<Server.Rect>, h: Fbu<Z>, g: Fbu<Z>)
    requires r.Fits() && Server.AllFit(others) && g.rects == h.rects - |others|
    ensures Server.AllFit([r] + others)
    ensures r.Told() + Tail(h) + (Server.RectsTold(others) + if others == [] then [] else Tail(g)) ==
            Server.RectsTold([r] + others) + Tail(g)
  {
    hide Server.Rect.Fits, Server.Rect.Told;
    var all := [r] + others;
    assert all[0] == r && all[1..] == others;
    if others == [] {
      NoneAfter(r.Told(), Tail(h));
    } else {
      Later(r.Told(), Server.RectsTold(others), Tail(g));
    }
  }

  lemma {:induction false} RectsDecode<Z>(codec: Codec<Z>, f: Fbu<Z>, rects: seq<Server.Rect>, rest: seq<Byte>,
          s: Screen)
    returns (g: Fbu<Z>, fx: seq<Effect>)
    requires Between(f) && |rects| <= f.rects && Server.AllFit(rects) && Server.RectsUnpack(codec, f.zlibs, rects)
    ensures Leads(codec, f, Server.RectsBytes(rects) + rest, Point(g, rest, fx))
    ensures Ran(codec, f, rects, g, fx, s)
    decreases |rects|
  {
    hide Leads, ShowAll, Told, Server.Rect.Fits, Server.Rect.Bytes, Server.Rect.Shown, Server.Rect.Told,
      Server.Rect.Unpacks, Server.Rect.Streams, Valid;
    if rects == [] {
      g, fx := f, [];
      assert Server.RectsBytes(rects) + rest == rest;
      LeadsNowhere(codec, f, rest);
      NoEffects(s);
    } else {
      var r, others := rects[0], rects[1..];
      var more := Server.RectsBytes(others) + rest;
      var h, one := RectDecodes(codec, f, r, more, s);
      var last;
      g, last := RectsDecode(codec, h, others, rest, r.Shown(s));
      assert Server.RectsBytes(rects) + rest == r.Bytes() + more;
      var first := one + Tail(h);
      fx := first + last;
      LeadsTrans(codec, f, r.Bytes() + more, Point(h, more, first), Point(g, rest, last));
      TailAlone(h, r.Shown(s));
      ShowsThen(one, Tail(h), s, r.Shown(s), r.Shown(s));
      ShowsThen(first, last, s, r.Shown(s), Server.RectsShown(others, r.Shown(s)));
      ToldJoin(one, Tail(h));
      ToldJoin(first, last);
      ToldOrder(r, others, h, g);
    }
  }

  // ----- messages -----

  ghost predicate Idle<Z>(f: Fbu<Z>) {
    Between(f) && f.rects == 0
  }

  /** The machine takes the message and is idle again. */
  ghost predicate Handles<Z>(codec: Codec<Z>, f: Fbu<Z>, m: Server.Message, rest: seq<Byte>, g: Fbu<Z>, fx: seq<Effect>,
      s: Screen)
    requires |f.zlibs| == 4 && m.Fits()
  {
    && Leads(codec, f, m.Bytes() + rest, Point(g, rest, fx)) && Idle(g) && g.zlibs == m.Streams(codec, f.zlibs)
    && Shows(fx, s, m.Shown(s)) && Told(fx) == m.Told()
  }

  /** The start of an update */
  lemma UpdateStarts<Z>(codec: Codec<Z>, f: Fbu<Z>, pad: Byte, n: nat, body: seq<Byte>)
    requires Idle(f) && n < 0x1_0000
    ensures var q, g := [0, pad] + Server.U16(n) + body, f.(rects := n);
            Between(g) && Leads(codec, f, q, Point(g, body, if n == 0 then [Complete] else []))
  {
    hide Leads, Be16, Server.U16;
    var q := [0, pad] + Server.U16(n) + body;
    ReadsU16(n, [0, pad], body);
    assert q[0] == 0 && q[4..] == body;
    LeadsOne(codec, f, q);
    StepValid(codec, f, q);
  }

  lemma FirstTold(b: bool, last: seq<Effect>, s: Screen)
    ensures var first := if b then [Complete] else [];
            Told(first + last) == first + Told(last) && ShowAll(first + last, s) == ShowAll(last, s)
  {
    var first := if b then [Complete] else [];
    ToldJoin(first, last);
    ShowJoin(first, last, s);
    ShowOne(Complete, s);
    ToldAlone(Complete, s);
  }

  lemma NoRects(rects: seq<Server.Rect>)
    requires Server.AllFit(rects)
    ensures rects == [] ==> Server.RectsTold(rects) == []
  {
  }

  lemma UpdateDecodes<Z>(codec: Codec<Z>, f: Fbu<Z>, m: Server.Message, rest: seq<Byte>, s: Screen)
    returns (g: Fbu<Z>, fx: seq<Effect>)
    requires Idle(f) && m.Update? && m.Fits() && m.Unpacks(codec, f.zlibs)
    ensures Handles(codec, f, m, rest, g, fx, s)
  {
    hide Leads, ShowAll, Told, Server.AllFit, Server.RectsBytes, Server.RectsShown, Server.RectsTold,
      Server.RectsStreams, Server.RectsUnpack, Server.U16, Valid;
    var n, body := |m.rects|, Server.RectsBytes(m.rects) + rest;
    UpdateStarts(codec, f, m.pad, n, body);
    assert [0, m.pad] + Server.U16(n) + body == m.Bytes() + rest;
    var h, last := f.(rects := n), [];
    g, last := RectsDecode(codec, h, m.rects, rest, s);
    var first := if n == 0 then [Complete] else [];
    fx := first + last;
    LeadsTrans(codec, f, m.Bytes() + rest, Point(h, body, first), Point(g, rest, last));
    FirstTold(n == 0, last, s);
    NoRects(m.rects);
  }

  lemma LastSteps<Z>(codec: Codec<Z>, h: Fbu<Z>, end: Server.Area, rest: seq<Byte>) returns (g: Fbu<Z>)
    requires AtHeader(h) && end.Fits()
    ensures Idle(g) && g.zlibs == h.zlibs
    ensures Leads(codec, h, Server.HeaderBytes(end, LAST_RECT) + rest, Point(g, rest, [Complete]))
  {
    hide Leads, Server.HeaderBytes;
    HeaderSteps(codec, h, end, LAST_RECT, rest);
    var q := Server.HeaderBytes(end, LAST_RECT) + rest;
    LeadsOne(codec, h, q);
    StepValid(codec, h, q);
    g := Step(codec, h, q).f;
  }

  lemma CutDecodes<Z>(codec: Codec<Z>, f: Fbu<Z>, m: Server.Message, rest: seq<Byte>, s: Screen)
    returns (g: Fbu<Z>, fx: seq<Effect>)
    requires Idle(f) && m.Cut? && m.Fits() && m.Unpacks(codec, f.zlibs)
    ensures Handles(codec, f, m, rest, g, fx, s)
  {
    hide Leads, ShowAll, Told, Server.AllFit, Server.RectsBytes, Server.RectsShown, Server.RectsTold,
      Server.RectsStreams, Server.RectsUnpack, Server.U16, Server.HeaderBytes;
    var end := Server.HeaderBytes(m.end, LAST_RECT) + rest;
    var body := Server.RectsBytes(m.rects) + end;
    UpdateStarts(codec, f, m.pad, m.announced, body);
    assert [0, m.pad] + Server.U16(m.announced) + body == m.Bytes() + rest;
    var h0 := f.(rects := m.announced);
    var h, draws := RectsDecode(codec, h0, m.rects, end, s);
    LeadsTrans(codec, f, m.Bytes() + rest, Point(h0, body, []), Point(h, end, draws));
    assert [] + draws == draws;
    g := LastSteps(codec, h, m.end, rest);
    fx := draws + [Complete];
    LeadsTrans(codec, f, m.Bytes() + rest, Point(h, end, draws), Point(g, rest, [Complete]));
    ToldJoin(draws, [Complete]);
    var shown := Server.RectsShown(m.rects, s);
    ToldAlone(Complete, shown);
    ShowsThen(draws, [Complete], s, shown, shown);
    assert Tail(h) == [];
  }

  lemma {:induction false} EntriesRead(entries: seq<Server.Entry>, before: seq<Byte>, after: seq<Byte>)
    requires forall k :: 0 <= k < |entries| ==> entries[k].Fits()
    ensures Colours(before + (Server.EntriesBytes(entries) + after), |before|, |entries|) == Server.EntriesKept(entries)
    decreases |entries|
  {
    if entries != [] {
      var e := entries[0];
      var one, more := Server.U16(e.red) + Server.U16(e.green) + Server.U16(e.blue), Server.EntriesBytes(entries[1..]);
      var q := before + (Server.EntriesBytes(entries) + after);
      assert q == (before + one) + (more + after);
      EntriesRead(entries[1..], before + one, after);
      assert q[|before|] == e.red / 256 && q[|before| + 2] == e.green / 256 && q[|before| + 4] == e.blue / 256;
    }
  }

  lemma ColourMapDecodes<Z>(codec: Codec<Z>, f: Fbu<Z>, m: Server.Message, rest: seq<Byte>, s: Screen)
    returns (g: Fbu<Z>, fx: seq<Effect>)
    requires Idle(f) && m.ColourMap? && m.Fits()
    ensures Handles(codec, f, m, rest, g, fx, s)
  {
    hide Leads, Be16, Server.U16, Colours, Server.EntriesBytes, Server.EntriesKept, ShowAll, Told;
    var head, first, n := [1, m.pad], Server.U16(m.first), Server.U16(|m.entries|);
    var colours := Server.EntriesBytes(m.entries);
    var q := m.Bytes() + rest;
    assert q == head + first + (n + colours + rest);
    ReadsU16(m.first, head, n + colours + rest);
    assert q == (head + first) + n + (colours + rest);
    ReadsU16(|m.entries|, head + first, colours + rest);
    assert q == (head + first + n) + (colours + rest);
    EntriesRead(m.entries, head + first + n, rest);
    assert q[0] == 1 && q[6 + |colours|..] == rest;
    LeadsOne(codec, f, q);
    g, fx := f, m.Told();
    ToldAlone(fx[0], s);
  }

  lemma BellDecodes<Z>(codec: Codec<Z>, f: Fbu<Z>, m: Server.Message, rest: seq<Byte>, s: Screen)
    returns (g: Fbu<Z>, fx: seq<Effect>)
    requires Idle(f) && m.Bell? && m.Fits()
    ensures Handles(codec, f, m, rest, g, fx, s)
  {
    hide Leads, ShowAll, Told;
    var q := m.Bytes() + rest;
    assert q[0] == 2 && q[1..] == rest;
    LeadsOne(codec, f, q);
    g, fx := f, m.Told();
    ToldAlone(fx[0], s);
  }

  lemma TextDecodes<Z>(codec: Codec<Z>, f: Fbu<Z>, m: Server.Message, rest: seq<Byte>, s: Screen)
    returns (g: Fbu<Z>, fx: seq<Effect>)
    requires Idle(f) && m.Text? && m.Fits()
    ensures Handles(codec, f, m, rest, g, fx, s)
  {
    hide Leads, Be32, Server.U32, ShowAll, Told;
    var head, n := [3] + m.pads, Server.U32(|m.text|);
    var q := m.Bytes() + rest;
    assert q == head + n + (m.text + rest);
    ReadsU32(|m.text|, head, m.text + rest);
    assert q[0] == 3 && q[8..8 + |m.text|] == m.text && q[8 + |m.text|..] == rest;
    LeadsOne(codec, f, q);
    g, fx := f, m.Told();
    ToldAlone(fx[0], s);
  }

  /** Every message is taken whole and does what the server means by it. */
  lemma MessageDecodes<Z>(codec: Codec<Z>, f: Fbu<Z>, m: Server.Message, rest: seq<Byte>, s: Screen)
    returns (g: Fbu<Z>, fx: seq<Effect>)
    requires Idle(f) && m.Fits() && m.Unpacks(codec, f.zlibs)
    ensures Handles(codec, f, m, rest, g, fx, s)
  {
    hide Handles, Idle;
    match m
    case Update(_, _) => g, fx := UpdateDecodes(codec, f, m, rest, s);
    case Cut(_, _, _, _) => g, fx := CutDecodes(codec, f, m, rest, s);
    case ColourMap(_, _, _) => g, fx := ColourMapDecodes(codec, f, m, rest, s);
    case Bell => g, fx := BellDecodes(codec, f, m, rest, s);
    case Text(_, _) => g, fx := TextDecodes(codec, f, m, rest, s);
  }

  // ----- whole connections -----

  lemma {:induction false} SessionRuns<Z>(codec: Codec<Z>, f: Fbu<Z>, ms: seq<Server.Message>, s: Screen)
    returns (g: Fbu<Z>, fx: seq<Effect>)
    requires Idle(f) && Server.SessionFits(ms) && Server.SessionUnpacks(codec, f.zlibs, ms)
    ensures Leads(codec, f, Server.SessionBytes(ms), Point(g, [], fx)) && Idle(g)
    ensures Shows(fx, s, Server.SessionShown(ms, s)) && Told(fx) == Server.SessionTold(ms)
    decreases |ms|
  {
    hide Leads, ShowAll, Told, Server.Message.Fits, Server.Message.Bytes, Server.Message.Shown, Server.Message.Told,
      Server.Message.Unpacks, Server.Message.Streams, Valid;
    if ms == [] {
      g, fx := f, [];
      LeadsNowhere(codec, f, []);
      NoEffects(s);
    } else {
      var m, others := ms[0], ms[1..];
      var more := Server.SessionBytes(others);
      var h, first := MessageDecodes(codec, f, m, more, s);
      var last;
      g, last := SessionRuns(codec, h, others, m.Shown(s));
      fx := first + last;
      LeadsTrans(codec, f, m.Bytes() + more, Point(h, more, first), Point(g, [], last));
      ShowsThen(first, last, s, m.Shown(s), Server.SessionShown(others, m.Shown(s)));
      ToldJoin(first, last);
    }
  }

  /**
   For every sequence of messages, the parser given all their bytes ends up idle with nothing unread, has shown what
   they mean, and has handed over everything else they carry, in order.
   */
  lemma SessionDecodes<Z>(codec: Codec<Z>, ms: seq<Server.Message>, s: Screen)
    requires Server.SessionFits(ms) && Server.SessionUnpacks(codec, Initial(codec).zlibs, ms)
    ensures var p := Run(codec, Initial(codec), Server.SessionBytes(ms));
            && Idle(p.f) && p.q == []
            && Shows(p.fx, s, Server.SessionShown(ms, s)) && Told(p.fx) == Server.SessionTold(ms)
  {
    hide Leads, ShowAll, Told, Server.SessionShown, Server.SessionTold, Server.SessionFits, Server.SessionBytes,
      Server.SessionUnpacks;
    var g, fx := SessionRuns(codec, Initial(codec), ms, s);
    LeadsToRest(codec, Initial(codec), Server.SessionBytes(ms), Point(g, [], fx));
  }
}
