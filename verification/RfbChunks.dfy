/**
 Chunking is unobservable: the parser machine is deterministic, never takes back a decision when more bytes
 arrive, and therefore ends in the same state with the same effects however the stream is cut into messages.
 The one exception, a COPYRECT header that arrives without its four coordinates, is characterised exactly.
 */
module RfbChunks {
  import opened Bits
  import opened RfbSpec

  // ----- a decision stands when more bytes arrive -----

  predicate Busy<Z>(f: Fbu<Z>) {
    !f.dead && f.rects > 0 && f.bytes > 0
  }

  /**
   Places where the code reads ahead without waiting: a colour-map message, and a rectangle header that is
   followed by something FBU.bytes does not ask for.
   */
  ghost predicate Fragile<Z>(f: Fbu<Z>, q: seq<Byte>) {
    && !f.dead
    && (|| (f.rects == 0 && |q| >= 1 && q[0] == 1)
        || (f.rects > 0 && f.bytes == 0 && |q| >= 12 && Trailing(WithHeader(f, q)) > 0))
  }

  /** How many bytes must be queued there for the code to do the right thing */
  ghost function Whole<Z>(f: Fbu<Z>, q: seq<Byte>): (n: nat)
    requires Fragile(f, q)
  {
    if f.rects == 0 then 6 else 12 + Trailing(WithHeader(f, q))
  }

  /** Such a place, with too few bytes queued */
  ghost predicate Stalls<Z>(f: Fbu<Z>, q: seq<Byte>) {
    Fragile(f, q) && |q| < Whole(f, q)
  }

  lemma HeaderStart<Z>(f: Fbu<Z>, q: seq<Byte>, r: seq<Byte>)
    requires |q| >= 12
    ensures WithHeader(f, q + r) == WithHeader(f, q)
  {
  }

  lemma FragileStable<Z>(f: Fbu<Z>, q: seq<Byte>, r: seq<Byte>)
    requires Fragile(f, q)
    ensures Fragile(f, q + r) && Whole(f, q + r) == Whole(f, q)
  {
    if f.rects > 0 {
      HeaderStart(f, q, r);
    }
  }

  lemma {:induction false} ColoursStable(q: seq<Byte>, i: nat, n: nat, r: seq<Byte>)
    requires i + 6 * n <= |q|
    ensures Colours(q + r, i, n) == Colours(q, i, n)
    decreases n
  {
    if n > 0 {
      ColoursStable(q, i + 6, n - 1, r);
    }
  }

  lemma MessageStable<Z>(f: Fbu<Z>, q: seq<Byte>, r: seq<Byte>)
    requires !f.dead && f.rects == 0 && MessageStep(f, q).Move? && !Stalls(f, q)
    ensures MessageStep(f, q + r) == MessageStep(f, q)
  {
    if q[0] == 3 && |q| >= 8 && |q| >= 8 + Be32(q, 4) {
      assert (q + r)[8..8 + Be32(q, 4)] == q[8..8 + Be32(q, 4)];
    }
    if q[0] == 1 && |q| >= 6 + 6 * Be16(q, 4) {
      ColoursStable(q, 6, Be16(q, 4), r);
    }
  }

  lemma ShortStable<Z>(g: Fbu<Z>, q: seq<Byte>, r: seq<Byte>)
    requires g.rects > 0 && |q| >= 12 && !HasData(g) && |q| >= 12 + Trailing(g)
    ensures ShortStep(g, q + r) == ShortStep(g, q)
  {
    if g.encoding == RRE && g.subrects == 0 {
      assert (q + r)[16..20] == q[16..20];
    }
  }

  lemma HeaderStable<Z>(f: Fbu<Z>, q: seq<Byte>, r: seq<Byte>)
    requires !f.dead && f.rects > 0 && f.bytes == 0 && HeaderStep(f, q).Move? && !Stalls(f, q)
    ensures HeaderStep(f, q + r) == HeaderStep(f, q)
  {
    hide ShortStep, HasData, Be16, Be32;
    HeaderStart(f, q, r);
    if !HasData(WithHeader(f, q)) {
      ShortStable(WithHeader(f, q), q, r);
    }
  }

  lemma RreStable<Z>(f: Fbu<Z>, q: seq<Byte>, r: seq<Byte>)
    requires f.rects > 0 && RreStep(f, q).Move?
    ensures RreStep(f, q + r) == RreStep(f, q)
  {
    assert (q + r)[..BPP] == q[..BPP];
  }

  lemma RawStable<Z>(f: Fbu<Z>, q: seq<Byte>, r: seq<Byte>)
    requires f.rects > 0 && f.width > 0 && RawStep(f, q).Move?
    ensures RawStep(f, q + r) == RawStep(f, q)
  {
    assert (q + r)[..LineBytes(f.width)] == q[..LineBytes(f.width)];
  }

  lemma CursorStable<Z>(f: Fbu<Z>, q: seq<Byte>, r: seq<Byte>)
    requires f.rects > 0 && CursorStep(f, q).Move?
    ensures CursorStep(f, q + r) == CursorStep(f, q)
  {
    var p, n := CursorPixels(f), CursorNeed(f);
    assert (q + r)[..p] == q[..p] && (q + r)[p..n] == q[p..n];
  }

  lemma SubAtStable(q: seq<Byte>, i: nat, sub: nat, foreground: seq<Byte>, r: seq<Byte>)
    requires i + SubSize(sub) <= |q|
    ensures SubAt(q + r, i, sub, foreground) == SubAt(q, i, sub, foreground)
  {
    assert Flag(sub, 16) ==> (q + r)[i..i + BPP] == q[i..i + BPP];
  }

  lemma {:induction false} SubsStable(q: seq<Byte>, i: nat, n: nat, sub: nat, foreground: seq<Byte>, r: seq<Byte>)
    requires i + n * SubSize(sub) <= |q|
    ensures Subs(q + r, i, n, sub, foreground) == Subs(q, i, n, sub, foreground)
    decreases n
  {
    hide SubAt, SubSize;
    if n > 0 {
      assert n * SubSize(sub) == SubSize(sub) + (n - 1) * SubSize(sub);
      SubAtStable(q, i, sub, foreground, r);
      SubsStable(q, i + SubSize(sub), n - 1, sub, foreground, r);
    }
  }

  lemma TileNeedStable<Z>(f: Fbu<Z>, q: seq<Byte>, r: seq<Byte>)
    requires TilesValid(f)
    ensures TileNeed(f, q) <= |q| ==> TileNeed(f, q + r) == TileNeed(f, q)
    ensures TileNeed(f, q) <= TileNeed(f, q + r)
  {
    hide TileW, TileH, TilesValid;
    if |q| > 0 {
      assert (q + r)[0] == q[0];
    }
  }

  lemma TileDrawStable<Z>(f: Fbu<Z>, q: seq<Byte>, r: seq<Byte>)
    requires TilesValid(f) && TileNeed(f, q) <= |q|
    ensures TileNeed(f, q + r) == TileNeed(f, q) && TileDraw(f, q + r) == TileDraw(f, q)
  {
    hide TileW, TileH, TileX, TileY, TilesValid;
    TileNeedStable(f, q, r);
    var sub: nat, n := q[0], TileNeed(f, q);
    assert (q + r)[0] == q[0] && (q + r)[1..n] == q[1..n];
    if sub != 0 && !Flag(sub, 1) {
      var i := if Flag(sub, 2) then 1 + BPP else 1;
      var j := if Flag(sub, 4) then i + BPP else i;
      assert (q + r)[1..i] == q[1..i] && (q + r)[i..j] == q[i..j];
      if Flag(sub, 8) {
        var fg := if Flag(sub, 4) then q[i..j] else f.foreground;
        assert (q + r)[j] == q[j];
        SubsStable(q, j + 1, q[j], sub, fg, r);
      }
    }
  }

  lemma HextileStable<Z>(f: Fbu<Z>, q: seq<Byte>, r: seq<Byte>)
    requires f.rects > 0 && TilesValid(f) && HextileStep(f, q).Move?
    ensures HextileStep(f, q + r) == HextileStep(f, q)
  {
    hide TileNeed, TileDraw;
    assert |q| > 0 ==> (q + r)[0] == q[0];
    TileNeedStable(f, q, r);
    if TileNeed(f, q) <= |q| && q[0] <= 30 {
      TileDrawStable(f, q, r);
    }
  }

  lemma TightNeedStable<Z>(f: Fbu<Z>, q: seq<Byte>, r: seq<Byte>)
    ensures TightNeed(f, q) <= |q| ==> TightNeed(f, q + r) == TightNeed(f, q)
    ensures |q + r| < TightNeed(f, q) ==> |q + r| < TightNeed(f, q + r)
  {
    hide RowSize, TightMode;
    if |q| >= 1 {
      assert (q + r)[0] == q[0];
      TruncatedLength(q, 1, r);
      if TightMode(q[0]) == FilterMode && |q| >= 3 {
        var p := 3 + PaletteColors(q) * DEPTH;
        assert PaletteColors(q + r) == PaletteColors(q);
        if p <= |q| { TruncatedLength(q, p, r); }
      }
    }
  }

  lemma TightDrawStable<Z>(codec: Codec<Z>, f: Fbu<Z>, q: seq<Byte>, r: seq<Byte>)
    requires |f.zlibs| == 4 && !TightFails(f, q) && TightNeed(f, q) <= |q|
    ensures !TightFails(f, q + r) && TightNeed(f, q + r) == TightNeed(f, q)
    ensures TightDraw(codec, f, q + r) == TightDraw(codec, f, q)
  {
    hide RowSize, TightMode, TightData, TightCLength;
    TightNeedStable(f, q, r);
    var n := TightNeed(f, q);
    assert (q + r)[0] == q[0];
    assert forall i, j :: 0 <= i <= j <= |q| ==> (q + r)[i..j] == q[i..j];
    TruncatedLength(q, 1, r);
    if TightMode(q[0]) == FilterMode {
      assert PaletteColors(q + r) == PaletteColors(q);
      TruncatedLength(q, 3 + PaletteColors(q) * DEPTH, r);
    }
  }

  lemma TightStable<Z>(codec: Codec<Z>, f: Fbu<Z>, q: seq<Byte>, r: seq<Byte>)
    requires f.rects > 0 && |f.zlibs| == 4 && TightStep(codec, f, q).Move?
    ensures TightStep(codec, f, q + r) == TightStep(codec, f, q)
  {
    hide TightNeed, TightDraw, TightMode;
    if TightFails(f, q) {
      assert (q + r)[0] == q[0];
    } else {
      TightDrawStable(codec, f, q, r);
    }
  }

  /** A move depends only on the bytes it needs, except in a stall. */
  lemma StepStable<Z>(codec: Codec<Z>, f: Fbu<Z>, q: seq<Byte>, r: seq<Byte>)
    requires Valid(f) && Step(codec, f, q).Move? && !Stalls(f, q)
    ensures Step(codec, f, q + r) == Step(codec, f, q)
  {
    hide MessageStep, HeaderStep, RawStep, HextileStep, CursorStep, RreStep, TightStep, Stalls;
    if f.rects == 0 { MessageStable(f, q, r); }
    else if f.bytes == 0 { HeaderStable(f, q, r); }
    else if f.encoding == RAW { RawStable(f, q, r); }
    else if f.encoding == HEXTILE { HextileStable(f, q, r); }
    else if f.encoding == CURSOR { CursorStable(f, q, r); }
    else if f.encoding == RRE { RreStable(f, q, r); }
    else { TightStable(codec, f, q, r); }
  }

  /** What a stall does: the header is taken and forgotten, or the code is lost in NaN. It waits for what comes next. */
  lemma StallStep<Z>(codec: Codec<Z>, f: Fbu<Z>, q: seq<Byte>)
    requires Valid(f) && Stalls(f, q)
    ensures var m := Step(codec, f, q);
            && m.Move? && m.n == (if f.rects == 0 then 1 else 12) && m.fx == []
            && (if f.rects == 0 then m.f == f.(dead := true)
                else var g := WithHeader(f, q); m.f == if g.encoding == RAW then g.(dead := true) else g)
            && (forall r :: |q + r| < Whole(f, q) ==>
                  Step(codec, f, q + r) == m && Step(codec, m.f, (q + r)[m.n..]).Wait?)
            && forall r :: |r| < 12 ==> !Fragile(m.f, r)
  {
    hide Be16, Be32;
    var m := Step(codec, f, q);
    forall r | |q + r| < Whole(f, q)
      ensures Step(codec, f, q + r) == m && Step(codec, m.f, (q + r)[m.n..]).Wait?
    {
      FragileStable(f, q, r);
      if f.rects > 0 {
        HeaderStart(f, q, r);
      }
    }
  }

  /**
   With everything it reads queued, a fragile place does something else than in a stall: it takes more or ends
   its rectangle.
   */
  lemma WholeStep<Z>(codec: Codec<Z>, f: Fbu<Z>, q: seq<Byte>)
    requires Valid(f) && Fragile(f, q) && |q| >= Whole(f, q)
    ensures var m := Step(codec, f, q);
            m.Move? ==>
              || m.n >= Whole(f, q)
              || (m.n == 12 && f.rects > 0 && WithHeader(f, q).encoding == RAW && !m.f.dead && !Busy(m.f))
  {
    hide Be16, Be32;
  }

  /** The stall is real and exact: more bytes can change a decision in a stall and nowhere else. */
  lemma StallsExactly<Z>(codec: Codec<Z>, f: Fbu<Z>, q: seq<Byte>)
    requires Valid(f) && Step(codec, f, q).Move?
    ensures (forall r :: Step(codec, f, q + r) == Step(codec, f, q)) <==> !Stalls(f, q)
  {
    if Stalls(f, q) {
      var r: seq<Byte> := seq(12, _ => 0);
      StallStep(codec, f, q);
      FragileStable(f, q, r);
      hide Step, Stalls, Fragile, Whole;
      WholeStep(codec, f, q + r);
    } else {
      hide Step, Stalls;
      forall r ensures Step(codec, f, q + r) == Step(codec, f, q) {
        StepStable(codec, f, q, r);
      }
    }
  }

  // ----- runs -----

  lemma MulPositive(a: nat, b: nat)
    requires a > 0 && b > 0
    ensures a * b > 0
  {
  }

  lemma EnterValid<Z>(f: Fbu<Z>, q: seq<Byte>)
    requires Valid(f) && f.rects > 0 && f.bytes == 0 && |q| >= 12 && HasData(WithHeader(f, q))
    ensures Valid(Enter(WithHeader(f, q)))
  {
    hide Be16, Be32;
    var g := WithHeader(f, q);
    assert TilesX(g.width) * TilesX(g.height) > 0 || g.encoding != HEXTILE by {
      if g.encoding == HEXTILE { MulPositive(TilesX(g.width), TilesX(g.height)); }
    }
  }

  lemma DrawKeeps<Z>(f: Fbu<Z>, q: seq<Byte>)
    requires TilesValid(f) && TileNeed(f, q) <= |q|
    ensures var g := TileDraw(f, q).0;
            g == f.(lastsub := g.lastsub, background := g.background, foreground := g.foreground)
  {
  }

  lemma TightKeeps<Z>(codec: Codec<Z>, f: Fbu<Z>, q: seq<Byte>)
    requires |f.zlibs| == 4 && !TightFails(f, q) && TightNeed(f, q) <= |q|
    ensures |TightDraw(codec, f, q).0| == 4
  {
    hide RowSize, TightCLength;
  }

  /** Every step keeps the record consistent, consumes only queued bytes, and makes progress. */
  lemma StepValid<Z>(codec: Codec<Z>, f: Fbu<Z>, q: seq<Byte>)
    requires Valid(f) && Step(codec, f, q).Move?
    ensures var m := Step(codec, f, q);
            && Valid(m.f) && m.n <= |q|
            && (m.n > 0 || (Busy(f) && !Busy(m.f)))
  {
    hide Be16, Be32, TileDraw, TightDraw, TileNeed, TightNeed, TightFails, Flag;
    if f.rects > 0 && f.bytes == 0 && |q| >= 12 && HasData(WithHeader(f, q)) {
      EnterValid(f, q);
    } else if f.rects > 0 && f.bytes > 0 && f.encoding == HEXTILE && TileNeed(f, q) <= |q| {
      DrawKeeps(f, q);
    } else if f.rects > 0 && f.bytes > 0 && !TightFails(f, q) && TightNeed(f, q) <= |q| {
      TightKeeps(codec, f, q);
    }
  }

  datatype Point<Z> = Point(f: Fbu<Z>, q: seq<Byte>, fx: seq<Effect>) {
    function After(before: seq<Effect>): Point<Z> {
      Point(f, q, before + fx)
    }
  }

  /** Everything the parser does with q before it has to wait */
  ghost function Run<Z>(codec: Codec<Z>, f: Fbu<Z>, q: seq<Byte>): (p: Point<Z>)
    requires Valid(f)
    ensures Valid(p.f)
    decreases |q|, Busy(f)
  {
    hide Step;
    var m := Step(codec, f, q);
    if m.Wait? then Point(f, q, [])
    else
      StepValid(codec, f, q);
      Run(codec, m.f, q[m.n..]).After(m.fx)
  }

  // ----- points on a run -----

  /** k steps lead from (f, q) to p. */
  ghost predicate LeadsIn<Z>(codec: Codec<Z>, f: Fbu<Z>, q: seq<Byte>, k: nat, p: Point<Z>)
    requires Valid(f)
    decreases k
  {
    hide Step;
    if k == 0 then p == Point(f, q, [])
    else
      var m := Step(codec, f, q);
      && m.Move?
      && (StepValid(codec, f, q);
          m.fx <= p.fx && LeadsIn(codec, m.f, q[m.n..], k - 1, Point(p.f, p.q, p.fx[|m.fx|..])))
  }

  ghost predicate Leads<Z>(codec: Codec<Z>, f: Fbu<Z>, q: seq<Byte>, p: Point<Z>) {
    Valid(f) && exists k: nat :: LeadsIn(codec, f, q, k, p)
  }

  /** The point after k steps, or the last one */
  ghost function Nth<Z>(codec: Codec<Z>, f: Fbu<Z>, q: seq<Byte>, k: nat): (p: Point<Z>)
    requires Valid(f)
    ensures Valid(p.f)
    decreases k
  {
    hide Step;
    var m := Step(codec, f, q);
    if k == 0 || m.Wait? then Point(f, q, [])
    else
      StepValid(codec, f, q);
      Nth(codec, m.f, q[m.n..], k - 1).After(m.fx)
  }

  lemma {:induction false} LeadsNth<Z>(codec: Codec<Z>, f: Fbu<Z>, q: seq<Byte>, k: nat, p: Point<Z>)
    requires Valid(f) && LeadsIn(codec, f, q, k, p)
    ensures p == Nth(codec, f, q, k)
    decreases k
  {
    hide Step;
    if k > 0 {
      var m := Step(codec, f, q);
      StepValid(codec, f, q);
      LeadsNth(codec, m.f, q[m.n..], k - 1, Point(p.f, p.q, p.fx[|m.fx|..]));
      assert m.fx + p.fx[|m.fx|..] == p.fx;
    }
  }

  lemma LeadsNowhere<Z>(codec: Codec<Z>, f: Fbu<Z>, q: seq<Byte>)
    requires Valid(f)
    ensures Leads(codec, f, q, Point(f, q, []))
  {
    assert LeadsIn(codec, f, q, 0, Point(f, q, []));
  }

  lemma LeadsOne<Z>(codec: Codec<Z>, f: Fbu<Z>, q: seq<Byte>)
    requires Valid(f) && Step(codec, f, q).Move?
    ensures var m := Step(codec, f, q); m.n <= |q| && Leads(codec, f, q, Point(m.f, q[m.n..], m.fx))
  {
    hide Step;
    var m := Step(codec, f, q);
    StepValid(codec, f, q);
    assert m.fx[|m.fx|..] == [];
    assert LeadsIn(codec, m.f, q[m.n..], 0, Point(m.f, q[m.n..], []));
    assert LeadsIn(codec, f, q, 1, Point(m.f, q[m.n..], m.fx));
  }

  lemma {:induction false} LeadsInTrans<Z>(codec: Codec<Z>, f: Fbu<Z>, q: seq<Byte>, k: nat, a: Point<Z>, l: nat,
          b: Point<Z>)
    requires Valid(f) && Valid(a.f) && LeadsIn(codec, f, q, k, a) && LeadsIn(codec, a.f, a.q, l, b)
    ensures LeadsIn(codec, f, q, k + l, b.After(a.fx))
    decreases k
  {
    hide Step, Valid, Stalls;
    if k == 0 {
      assert b.After([]) == b;
    } else {
      var m := Step(codec, f, q);
      StepValid(codec, f, q);
      var a' := Point(a.f, a.q, a.fx[|m.fx|..]);
      LeadsInTrans(codec, m.f, q[m.n..], k - 1, a', l, b);
      assert (a.fx + b.fx)[|m.fx|..] == a'.fx + b.fx;
      assert b.After(a'.fx) == Point(b.f, b.q, (a.fx + b.fx)[|m.fx|..]);
      assert m.fx <= a.fx + b.fx;
    }
  }

  lemma LeadsTrans<Z>(codec: Codec<Z>, f: Fbu<Z>, q: seq<Byte>, a: Point<Z>, b: Point<Z>)
    requires Leads(codec, f, q, a) && Leads(codec, a.f, a.q, b)
    ensures Leads(codec, f, q, b.After(a.fx))
  {
    hide LeadsIn;
    var k: nat :| LeadsIn(codec, f, q, k, a);
    var l: nat :| LeadsIn(codec, a.f, a.q, l, b);
    LeadsInTrans(codec, f, q, k, a, l, b);
  }

  lemma {:induction false} NthLeads<Z>(codec: Codec<Z>, f: Fbu<Z>, q: seq<Byte>, k: nat)
    requires Valid(f)
    ensures Leads(codec, f, q, Nth(codec, f, q, k))
    decreases k
  {
    hide Step, LeadsIn;
    var m := Step(codec, f, q);
    if k == 0 || m.Wait? {
      LeadsNowhere(codec, f, q);
    } else {
      StepValid(codec, f, q);
      NthLeads(codec, m.f, q[m.n..], k - 1);
      LeadsOne(codec, f, q);
      LeadsTrans(codec, f, q, Point(m.f, q[m.n..], m.fx), Nth(codec, m.f, q[m.n..], k - 1));
    }
  }

  lemma {:induction false} LeadsInValid<Z>(codec: Codec<Z>, f: Fbu<Z>, q: seq<Byte>, k: nat, p: Point<Z>)
    requires Valid(f) && LeadsIn(codec, f, q, k, p)
    ensures Valid(p.f)
    decreases k
  {
    hide Step;
    if k > 0 {
      var m := Step(codec, f, q);
      StepValid(codec, f, q);
      LeadsInValid(codec, m.f, q[m.n..], k - 1, Point(p.f, p.q, p.fx[|m.fx|..]));
    }
  }

  lemma AfterAssoc<Z>(p: Point<Z>, a: seq<Effect>, b: seq<Effect>)
    ensures p.After(b).After(a) == p.After(a + b)
  {
    assert a + (b + p.fx) == a + b + p.fx;
  }

  /** Where the code has got to, the machine gets to as well: the rest of the run is the same. */
  lemma {:induction false} LeadsInRun<Z>(codec: Codec<Z>, f: Fbu<Z>, q: seq<Byte>, k: nat, p: Point<Z>)
    requires Valid(f) && Valid(p.f) && LeadsIn(codec, f, q, k, p)
    ensures Run(codec, f, q) == Run(codec, p.f, p.q).After(p.fx)
    decreases k
  {
    hide Step;
    if k == 0 {
      var r := Run(codec, f, q);
      assert r.After([]) == r;
    } else {
      var m := Step(codec, f, q);
      StepValid(codec, f, q);
      var p' := Point(p.f, p.q, p.fx[|m.fx|..]);
      LeadsInRun(codec, m.f, q[m.n..], k - 1, p');
      AfterAssoc(Run(codec, p.f, p.q), m.fx, p'.fx);
      assert m.fx + p'.fx == p.fx;
    }
  }

  /** The parser is at rest: it waits on what is queued. */
  ghost predicate AtRest<Z>(codec: Codec<Z>, f: Fbu<Z>, q: seq<Byte>) {
    Valid(f) && Step(codec, f, q).Wait?
  }

  lemma LeadsToRest<Z>(codec: Codec<Z>, f: Fbu<Z>, q: seq<Byte>, p: Point<Z>)
    requires Leads(codec, f, q, p) && AtRest(codec, p.f, p.q)
    ensures Run(codec, f, q) == p
  {
    hide LeadsIn, Step;
    var k: nat :| LeadsIn(codec, f, q, k, p);
    LeadsInValid(codec, f, q, k, p);
    LeadsInRun(codec, f, q, k, p);
    assert p.fx + [] == p.fx;
  }

  lemma LeadsRun<Z>(codec: Codec<Z>, f: Fbu<Z>, q: seq<Byte>, p: Point<Z>)
    requires Leads(codec, f, q, p)
    ensures Valid(p.f) && Run(codec, f, q) == Run(codec, p.f, p.q).After(p.fx)
  {
    hide LeadsIn, Step;
    var k: nat :| LeadsIn(codec, f, q, k, p);
    LeadsInValid(codec, f, q, k, p);
    LeadsInRun(codec, f, q, k, p);
  }

  /** The end of a run is on it. */
  lemma {:induction false} RunLeads<Z>(codec: Codec<Z>, f: Fbu<Z>, q: seq<Byte>)
    requires Valid(f)
    ensures Leads(codec, f, q, Run(codec, f, q))
    decreases |q|, Busy(f)
  {
    hide Step, LeadsIn;
    var m := Step(codec, f, q);
    if m.Wait? {
      LeadsNowhere(codec, f, q);
    } else {
      StepValid(codec, f, q);
      RunLeads(codec, m.f, q[m.n..]);
      LeadsOne(codec, f, q);
      LeadsTrans(codec, f, q, Point(m.f, q[m.n..], m.fx), Run(codec, m.f, q[m.n..]));
    }
  }

  lemma {:induction false} RunRests<Z>(codec: Codec<Z>, f: Fbu<Z>, q: seq<Byte>)
    requires Valid(f)
    ensures var p := Run(codec, f, q); AtRest(codec, p.f, p.q)
    decreases |q|, Busy(f)
  {
    hide Step;
    var m := Step(codec, f, q);
    if m.Move? {
      StepValid(codec, f, q);
      RunRests(codec, m.f, q[m.n..]);
    }
  }

  // ----- torn reads -----

  /** Too little of a fragile place has arrived, and `more` bytes complete it. */
  ghost predicate Tears<Z>(p: Point<Z>, more: nat) {
    Stalls(p.f, p.q) && |p.q| + more >= Whole(p.f, p.q)
  }

  /**
   A message that ends after the first b bytes of the stream tears a read apart: run on those bytes, the parser
   comes to a fragile place of which too little has arrived, although the stream holds all of it.
   */
  ghost predicate TornAt<Z>(codec: Codec<Z>, f: Fbu<Z>, stream: seq<Byte>, b: nat) {
    Valid(f) && b <= |stream| && exists k: nat :: Tears(Nth(codec, f, stream[..b], k), |stream| - b)
  }

  lemma TornPoint<Z>(codec: Codec<Z>, f: Fbu<Z>, q: seq<Byte>, r: seq<Byte>) returns (p: Point<Z>)
    requires TornAt(codec, f, q + r, |q|)
    ensures Leads(codec, f, q, p) && Tears(p, |r|)
  {
    hide Tears, Step;
    assert (q + r)[..|q|] == q;
    var k: nat :| Tears(Nth(codec, f, q, k), |r|);
    NthLeads(codec, f, q, k);
    p := Nth(codec, f, q, k);
  }

  lemma TornWhen<Z>(codec: Codec<Z>, f: Fbu<Z>, q: seq<Byte>, r: seq<Byte>, p: Point<Z>)
    requires Leads(codec, f, q, p) && Tears(p, |r|)
    ensures TornAt(codec, f, q + r, |q|)
  {
    hide Tears, Step, LeadsIn;
    assert (q + r)[..|q|] == q;
    var k: nat :| LeadsIn(codec, f, q, k, p);
    LeadsNth(codec, f, q, k, p);
    assert Tears(Nth(codec, f, (q + r)[..|q|], k), |q + r| - |q|);
  }

  /** From a later point of the run on the first b bytes the same read is torn. */
  lemma TornLater<Z>(codec: Codec<Z>, f: Fbu<Z>, q: seq<Byte>, r: seq<Byte>, a: Point<Z>)
    requires Leads(codec, f, q, a) && TornAt(codec, a.f, a.q + r, |a.q|)
    ensures TornAt(codec, f, q + r, |q|)
  {
    hide LeadsIn, Step, Leads, Stalls, TornAt;
    var p := TornPoint(codec, a.f, a.q, r);
    LeadsTrans(codec, f, q, a, p);
    TornWhen(codec, f, q, r, p.After(a.fx));
  }

  lemma StepUntorn<Z>(codec: Codec<Z>, f: Fbu<Z>, q: seq<Byte>, r: seq<Byte>)
    requires Valid(f) && Step(codec, f, q).Move? && !TornAt(codec, f, q + r, |q|)
    ensures Step(codec, f, q + r) == Step(codec, f, q)
  {
    hide Step, Stalls, Leads, TornAt;
    if Stalls(f, q) {
      StallStep(codec, f, q);
      LeadsNowhere(codec, f, q);
      if Tears(Point(f, q, []), |r|) {
        TornWhen(codec, f, q, r, Point(f, q, []));
      }
    } else {
      StepStable(codec, f, q, r);
    }
  }

  /** What has been done with the first bytes, if no read is torn there, is done by the run on all of them. */
  lemma {:induction false} LeadsInUntorn<Z>(codec: Codec<Z>, f: Fbu<Z>, q: seq<Byte>, k: nat, p: Point<Z>, r: seq<Byte>)
    requires Valid(f) && LeadsIn(codec, f, q, k, p) && !TornAt(codec, f, q + r, |q|)
    ensures LeadsIn(codec, f, q + r, k, Point(p.f, p.q + r, p.fx))
    decreases k
  {
    hide Step, Stalls, Leads, TornAt, Valid;
    if k > 0 {
      var m := Step(codec, f, q);
      StepValid(codec, f, q);
      assert (q + r)[m.n..] == q[m.n..] + r;
      StepUntorn(codec, f, q, r);
      var next := Point(m.f, q[m.n..], m.fx);
      LeadsOne(codec, f, q);
      if TornAt(codec, m.f, next.q + r, |next.q|) {
        TornLater(codec, f, q, r, next);
      }
      LeadsInUntorn(codec, m.f, q[m.n..], k - 1, Point(p.f, p.q, p.fx[|m.fx|..]), r);
    }
  }

  lemma StallsFragile<Z>(f: Fbu<Z>, q: seq<Byte>)
    requires Stalls(f, q)
    ensures Fragile(f, q) && |q| < Whole(f, q) && (if f.rects == 0 then 1 else 12) <= |q|
  {
  }

  lemma LeadsUntorn<Z>(codec: Codec<Z>, f: Fbu<Z>, q: seq<Byte>, p: Point<Z>, r: seq<Byte>)
    requires Leads(codec, f, q, p) && !TornAt(codec, f, q + r, |q|)
    ensures Leads(codec, f, q + r, Point(p.f, p.q + r, p.fx))
  {
    hide LeadsIn, TornAt;
    var k: nat :| LeadsIn(codec, f, q, k, p);
    LeadsInUntorn(codec, f, q, k, p, r);
  }

  /** Running on part of the input and then on the rest is running on all of it. */
  lemma RunExtends<Z>(codec: Codec<Z>, f: Fbu<Z>, q: seq<Byte>, r: seq<Byte>)
    requires Valid(f) && !TornAt(codec, f, q + r, |q|)
    ensures var p := Run(codec, f, q);
            && Leads(codec, f, q + r, Point(p.f, p.q + r, p.fx))
            && Run(codec, f, q + r) == Run(codec, p.f, p.q + r).After(p.fx)
  {
    hide Leads, TornAt, Run;
    var p := Run(codec, f, q);
    RunLeads(codec, f, q);
    LeadsUntorn(codec, f, q, p, r);
    LeadsRun(codec, f, q + r, Point(p.f, p.q + r, p.fx));
  }

  lemma WholeBelow<Z>(f: Fbu<Z>, q: seq<Byte>)
    requires Fragile(f, q)
    ensures Whole(f, q) <= (if f.rects == 0 then 6 else 20)
  {
  }

  lemma StopsHere<Z>(codec: Codec<Z>, f: Fbu<Z>, q: seq<Byte>, k: nat, p: Point<Z>)
    requires Valid(f) && LeadsIn(codec, f, q, k, p) && Step(codec, f, q).Wait?
    ensures p == Point(f, q, [])
  {
    hide Step;
  }

  /** A fragile place is on the run whatever comes after: nothing before it can have stalled. */
  lemma {:induction false} FragileLeads<Z>(codec: Codec<Z>, f: Fbu<Z>, q: seq<Byte>, k: nat, p: Point<Z>, r: seq<Byte>)
    requires Valid(f) && LeadsIn(codec, f, q, k, p) && Fragile(p.f, p.q)
    ensures LeadsIn(codec, f, q + r, k, Point(p.f, p.q + r, p.fx))
    decreases k
  {
    if k > 0 {
      hide Step, Stalls, Fragile;
      var m := Step(codec, f, q);
      StepValid(codec, f, q);
      var p' := Point(p.f, p.q, p.fx[|m.fx|..]);
      if Stalls(f, q) {
        StallStep(codec, f, q);
        StallsFragile(f, q);
        assert q + [] == q;
        assert Step(codec, m.f, q[m.n..]).Wait?;
        StopsHere(codec, m.f, q[m.n..], k - 1, p');
        WholeBelow(f, q);
        assert false;
      }
      StepStable(codec, f, q, r);
      assert (q + r)[m.n..] == q[m.n..] + r;
      FragileLeads(codec, m.f, q[m.n..], k - 1, p', r);
    }
  }

  /** Points of one run come one after the other. */
  lemma {:induction false} LeadsInSplits<Z>(codec: Codec<Z>, f: Fbu<Z>, q: seq<Byte>, k: nat, a: Point<Z>, l: nat,
          b: Point<Z>)
    requires Valid(f) && LeadsIn(codec, f, q, k, a) && LeadsIn(codec, f, q, l, b) && k <= l
    ensures Valid(a.f) && a.fx <= b.fx && LeadsIn(codec, a.f, a.q, l - k, Point(b.f, b.q, b.fx[|a.fx|..]))
    decreases k
  {
    hide Step, Valid;
    if k == 0 {
      assert b.fx[0..] == b.fx;
    } else {
      var m := Step(codec, f, q);
      StepValid(codec, f, q);
      var a' := Point(a.f, a.q, a.fx[|m.fx|..]);
      var b' := Point(b.f, b.q, b.fx[|m.fx|..]);
      LeadsInSplits(codec, m.f, q[m.n..], k - 1, a', l - 1, b');
      assert a.fx == m.fx + a'.fx && b.fx == m.fx + b'.fx;
      assert b.fx[|a.fx|..] == b'.fx[|a'.fx|..];
    }
  }

  lemma {:induction false} LeadsInShrinks<Z>(codec: Codec<Z>, f: Fbu<Z>, q: seq<Byte>, k: nat, p: Point<Z>)
    requires Valid(f) && LeadsIn(codec, f, q, k, p)
    ensures |p.q| <= |q| && (k > 0 && !Busy(f) ==> |p.q| < |q|)
    decreases k
  {
    hide Step;
    if k > 0 {
      var m := Step(codec, f, q);
      StepValid(codec, f, q);
      LeadsInShrinks(codec, m.f, q[m.n..], k - 1, Point(p.f, p.q, p.fx[|m.fx|..]));
    }
  }

  /** With everything queued, no step leads to where a stall leads. */
  lemma OffAfterWhole<Z>(codec: Codec<Z>, f: Fbu<Z>, q: seq<Byte>, r: seq<Byte>, k: nat, p: Point<Z>)
    requires Valid(f) && Tears(Point(f, q, []), |r|) && k > 0 && LeadsIn(codec, f, q + r, k, p)
    ensures var m := Step(codec, f, q); m.Move? && m.n <= |q| && (p.f != m.f || p.q != q[m.n..] + r)
  {
    hide Step, Stalls, Fragile, Whole, Busy;
    StallStep(codec, f, q);
    StallsFragile(f, q);
    FragileStable(f, q, r);
    var w := Step(codec, f, q + r);
    WholeStep(codec, f, q + r);
    StepValid(codec, f, q + r);
    LeadsInShrinks(codec, w.f, (q + r)[w.n..], k - 1, Point(p.f, p.q, p.fx[|w.fx|..]));
    if f.rects > 0 {
      HeaderStart(f, q, r);
    }
  }

  /** What a torn read does is never done by the run on all the bytes. */
  lemma TornIsOff<Z>(codec: Codec<Z>, f: Fbu<Z>, q: seq<Byte>, r: seq<Byte>, p: Point<Z>, k: nat, l: nat)
    requires Valid(f) && Valid(p.f) && LeadsIn(codec, f, q, k, p) && Tears(p, |r|)
    ensures var m := Step(codec, p.f, p.q);
            m.Move? && 0 < m.n <= |p.q| && !LeadsIn(codec, f, q + r, l, Point(m.f, p.q[m.n..] + r, p.fx))
  {
    hide Step, Stalls, Fragile, Whole, LeadsIn, Busy;
    StallStep(codec, p.f, p.q);
    StallsFragile(p.f, p.q);
    var m := Step(codec, p.f, p.q);
    var here, off := Point(p.f, p.q + r, p.fx), Point(m.f, p.q[m.n..] + r, p.fx);
    FragileLeads(codec, f, q, k, p, r);
    if LeadsIn(codec, f, q + r, l, off) {
      if l <= k {
        LeadsInSplits(codec, f, q + r, l, off, k, here);
        LeadsInShrinks(codec, off.f, off.q, k - l, Point(here.f, here.q, here.fx[|off.fx|..]));
      } else {
        LeadsInSplits(codec, f, q + r, k, here, l, off);
        OffAfterWhole(codec, p.f, p.q, r, l - k, Point(off.f, off.q, off.fx[|here.fx|..]));
      }
    }
  }

  lemma StalledRun<Z>(codec: Codec<Z>, f: Fbu<Z>, q: seq<Byte>)
    requires Valid(f) && Stalls(f, q)
    ensures var m := Step(codec, f, q);
            m.Move? && m.n <= |q| && Run(codec, f, q) == Point(m.f, q[m.n..], [])
  {
    hide Step, Stalls;
    StallStep(codec, f, q);
    StallsFragile(f, q);
    StepValid(codec, f, q);
    assert q + [] == q;
    var m := Step(codec, f, q);
    assert Run(codec, m.f, q[m.n..]) == Point(m.f, q[m.n..], []);
  }

  /**
   Exactly when a message boundary is unobservable: what the parser has done with the first message is what it
   does on the way through both, if and only if no read is torn at the boundary.
   */
  lemma BoundaryUnobservableIff<Z>(codec: Codec<Z>, f: Fbu<Z>, q: seq<Byte>, r: seq<Byte>)
    requires Valid(f)
    ensures var p := Run(codec, f, q);
            Leads(codec, f, q + r, Point(p.f, p.q + r, p.fx)) <==> !TornAt(codec, f, q + r, |q|)
  {
    hide Step, Stalls, Run, LeadsIn;
    var p := Run(codec, f, q);
    if !TornAt(codec, f, q + r, |q|) {
      RunExtends(codec, f, q, r);
    } else {
      var a := TornPoint(codec, f, q, r);
      var k: nat :| LeadsIn(codec, f, q, k, a);
      LeadsRun(codec, f, q, a);
      StalledRun(codec, a.f, a.q);
      var m := Step(codec, a.f, a.q);
      assert p == Point(m.f, a.q[m.n..], a.fx);
      if Leads(codec, f, q + r, Point(p.f, p.q + r, p.fx)) {
        var l: nat :| LeadsIn(codec, f, q + r, l, Point(p.f, p.q + r, p.fx));
        TornIsOff(codec, f, q, r, a, k, l);
      }
    }
  }

  /** The first byte at which a fragile read can be torn */
  function Low<Z>(f: Fbu<Z>): nat { if f.rects == 0 then 1 else 12 }

  ghost predicate OutsideOf<Z>(p: Point<Z>, stream: seq<Byte>, b: nat) {
    Fragile(p.f, p.q) && |p.q| >= Whole(p.f, p.q) ==>
      var start := |stream| - |p.q|;
      b < start + Low(p.f) || start + Whole(p.f, p.q) <= b
  }

  /** The boundary lies inside no fragile read that the run over the whole stream does. */
  ghost predicate Clear<Z>(codec: Codec<Z>, f: Fbu<Z>, stream: seq<Byte>, b: nat)
    requires Valid(f)
  {
    forall k: nat :: OutsideOf(Nth(codec, f, stream, k), stream, b)
  }

  /** A torn read is one of the run over the whole stream. */
  lemma TornInside<Z>(codec: Codec<Z>, f: Fbu<Z>, q: seq<Byte>, r: seq<Byte>) returns (k: nat)
    requires Valid(f) && TornAt(codec, f, q + r, |q|)
    ensures !OutsideOf(Nth(codec, f, q + r, k), q + r, |q|)
  {
    hide Step, TornAt, Whole, Fragile, LeadsIn;
    var p := TornPoint(codec, f, q, r);
    StallsFragile(p.f, p.q);
    k :| LeadsIn(codec, f, q, k, p);
    LeadsInShrinks(codec, f, q, k, p);
    FragileLeads(codec, f, q, k, p, r);
    FragileStable(p.f, p.q, r);
    LeadsNth(codec, f, q + r, k, Point(p.f, p.q + r, p.fx));
  }

  /** A boundary that lies inside no fragile read of the whole run tears none. */
  lemma ClearIsUntorn<Z>(codec: Codec<Z>, f: Fbu<Z>, q: seq<Byte>, r: seq<Byte>)
    requires Valid(f) && Clear(codec, f, q + r, |q|)
    ensures !TornAt(codec, f, q + r, |q|)
  {
    hide TornAt, OutsideOf;
    if TornAt(codec, f, q + r, |q|) {
      var _ := TornInside(codec, f, q, r);
    }
  }

  /**
   A boundary inside a fragile read need not tear it: a raw rectangle of height 0 before it waits for a line it
   does not use, so the read is not begun before all of it is there. What has arrived decides.
   */
  lemma InsideNeedNotTear<Z>(codec: Codec<Z>, f: Fbu<Z>, q: seq<Byte>, r: seq<Byte>)
    requires Valid(f) && !f.dead && f.rects >= 2 && f.bytes == 0 && 24 <= |q| < 28 && |q + r| == 28
    requires var g := WithHeader(f, q); g.encoding == RAW && g.width == 4 && g.height == 0
    requires WithHeader(f, (q + r)[12..]).encoding == COPYRECT
    ensures !TornAt(codec, f, q + r, |q|) && !Clear(codec, f, q + r, |q|)
  {
    hide Be16, Be32;
    HeaderStart(f, q, r);
    var s := Enter(WithHeader(f, q));
    StepValid(codec, f, q);
    assert Step(codec, f, q) == Move(s, 12, []) && Step(codec, f, q + r) == Move(s, 12, []);
    assert Step(codec, s, q[12..]).Wait?;
    forall k: nat
      ensures !Tears(Nth(codec, f, (q + r)[..|q|], k), |q + r| - |q|)
    {
      assert (q + r)[..|q|] == q;
      assert k > 0 ==> Nth(codec, s, q[12..], k - 1) == Point(s, q[12..], []);
    }
    var c := (q + r)[12..];
    var m := Step(codec, s, c);
    StepValid(codec, s, c);
    assert m.n == 0 && c[0..] == c;
    assert Nth(codec, m.f, c, 0) == Point(m.f, c, []);
    assert Nth(codec, s, c, 1) == Point(m.f, c, []);
    assert Nth(codec, f, q + r, 2).f == m.f && Nth(codec, f, q + r, 2).q == c;
    assert WithHeader(m.f, c).encoding == COPYRECT;
    assert !OutsideOf(Nth(codec, f, q + r, 2), q + r, |q|);
  }

  /**
   What goes wrong when a COPYRECT is torn, wherever the cut is and however many rectangles follow: the copy is
   not drawn although all of it arrives, and its coordinates are left to be taken for the next header.
   */
  lemma TornLosesCopy<Z>(codec: Codec<Z>, f: Fbu<Z>, q: seq<Byte>, cut: nat, more: seq<Byte>)
    requires Valid(f) && !f.dead && f.rects > 0 && f.bytes == 0 && |q| == 16 && 12 <= cut < 16 && |more| >= 8
    requires WithHeader(f, q).encoding == COPYRECT
    ensures var g := WithHeader(f, q);
            && Valid(g) && Run(codec, f, q[..cut]) == Point(g, q[12..cut], [])
            && Run(codec, g, q[12..cut] + q[cut..]) == Point(g, q[12..], [])
            && var next := WithHeader(g, q[12..] + more); next.x == Be16(q, 12) && next.y == Be16(q, 14)
    ensures var g, whole := WithHeader(f, q), Step(codec, f, q);
            && whole.Move? && whole.n == 16 && whole.fx != []
            && whole.fx[0] == Copy(Be16(q, 12), Be16(q, 14), g.x, g.y, g.width, g.height)
  {
    var a, b := q[..cut], q[cut..];
    assert a + b == q && a[12..] == q[12..cut] && q[12..cut] + b == q[12..];
    HeaderStart(f, a, b);
    StalledRun(codec, f, a);
    StallStep(codec, f, a);
    hide Be16, Be32;
    var g := WithHeader(f, q);
    assert Step(codec, g, q[12..]).Wait?;
  }

  // ----- delivery in messages -----

  /** Delivery in messages: each one is appended to what is left, then everything possible is done. */
  ghost function Feed<Z>(codec: Codec<Z>, f: Fbu<Z>, q: seq<Byte>, messages: seq<seq<Byte>>): (p: Point<Z>)
    requires Valid(f)
    ensures Valid(p.f)
    decreases messages
  {
    if messages == [] then Point(f, q, [])
    else
      var p := Run(codec, f, q + messages[0]);
      Feed(codec, p.f, p.q, messages[1..]).After(p.fx)
  }

  function Flatten(messages: seq<seq<Byte>>): seq<Byte> {
    if messages == [] then [] else messages[0] + Flatten(messages[1..])
  }

  /** No message ends where it tears a read apart. */
  ghost predicate Untorn<Z>(codec: Codec<Z>, f: Fbu<Z>, q: seq<Byte>, messages: seq<seq<Byte>>) {
    var stream := q + Flatten(messages);
    forall i :: 1 <= i <= |messages| ==> !TornAt(codec, f, stream, |q + Flatten(messages[..i])|)
  }

  lemma {:induction false} FlattenSplits(messages: seq<seq<Byte>>, i: nat)
    requires i <= |messages|
    ensures Flatten(messages) == Flatten(messages[..i]) + Flatten(messages[i..])
  {
    if i == 0 {
      assert messages[0..] == messages;
    } else {
      FlattenSplits(messages[1..], i - 1);
      assert messages[..i][1..] == messages[1..][..i - 1] && messages[1..][i - 1..] == messages[i..];
      assert messages[0] + (Flatten(messages[1..][..i - 1]) + Flatten(messages[i..])) ==
             messages[0] + Flatten(messages[1..][..i - 1]) + Flatten(messages[i..]);
    }
  }

  lemma JoinAssoc(a: seq<Byte>, b: seq<Byte>, c: seq<Byte>)
    ensures a + (b + c) == a + b + c
  {
  }

  /** It is enough that no message ends inside a fragile read of the run over the whole stream. */
  lemma ClearCuts<Z>(codec: Codec<Z>, f: Fbu<Z>, q: seq<Byte>, messages: seq<seq<Byte>>)
    requires Valid(f)
    requires forall i :: 1 <= i <= |messages| ==> Clear(codec, f, q + Flatten(messages), |q + Flatten(messages[..i])|)
    ensures Untorn(codec, f, q, messages)
  {
    hide TornAt, Clear, Flatten;
    forall i | 1 <= i <= |messages|
      ensures !TornAt(codec, f, q + Flatten(messages), |q + Flatten(messages[..i])|)
    {
      var a, b := Flatten(messages[..i]), Flatten(messages[i..]);
      FlattenSplits(messages, i);
      JoinAssoc(q, a, b);
      ClearIsUntorn(codec, f, q + a, b);
    }
  }

  /** A boundary that tears nothing in a stream tears nothing in its beginning. */
  lemma ShorterStream<Z>(codec: Codec<Z>, f: Fbu<Z>, q: seq<Byte>, a: seq<Byte>, b: seq<Byte>)
    requires !TornAt(codec, f, q + (a + b), |q|)
    ensures !TornAt(codec, f, q + a, |q|)
  {
    hide TornAt, Leads, Stalls, Whole;
    if TornAt(codec, f, q + a, |q|) {
      var p := TornPoint(codec, f, q, a);
      TornWhen(codec, f, q, a + b, p);
    }
  }

  /** A later boundary is untorn as seen from where an earlier one leaves the parser. */
  lemma UntornFrom<Z>(codec: Codec<Z>, f: Fbu<Z>, q: seq<Byte>, a: seq<Byte>, b: seq<Byte>)
    requires Valid(f) && !TornAt(codec, f, q + (a + b), |q|) && !TornAt(codec, f, q + a + b, |q + a|)
    ensures var p := Run(codec, f, q); !TornAt(codec, p.f, p.q + a + b, |p.q + a|)
  {
    hide TornAt, Run, Leads;
    var p := Run(codec, f, q);
    if TornAt(codec, p.f, p.q + a + b, |p.q + a|) {
      ShorterStream(codec, f, q, a, b);
      RunExtends(codec, f, q, a);
      TornLater(codec, f, q + a, b, Point(p.f, p.q + a, p.fx));
    }
  }

  lemma FlattenFirst(messages: seq<seq<Byte>>)
    requires messages != []
    ensures Flatten(messages) == messages[0] + Flatten(messages[1..])
  {
  }

  /** Where the i-th message of a delivery ends, seen with the first one already queued */
  lemma BoundaryAfter(q: seq<Byte>, messages: seq<seq<Byte>>, i: nat)
    requires 0 <= i < |messages|
    ensures var first, rest := q + messages[0], messages[1..];
            var a, b := Flatten(rest[..i]), Flatten(rest[i..]);
            && q + Flatten(messages) == first + (a + b) == first + a + b && Flatten(rest) == a + b
            && q + Flatten(messages[..i + 1]) == first + a
  {
    hide Flatten;
    var first, rest := q + messages[0], messages[1..];
    var a, b := Flatten(rest[..i]), Flatten(rest[i..]);
    FlattenSplits(rest, i);
    FlattenFirst(messages);
    FlattenFirst(messages[..i + 1]);
    assert messages[..i + 1][1..] == rest[..i];
    JoinAssoc(q, messages[0], a + b);
    JoinAssoc(first, a, b);
    JoinAssoc(q, messages[0], a);
  }

  lemma FlattenNone()
    ensures Flatten([]) == []
  {
  }

  lemma UntornNext<Z>(codec: Codec<Z>, f: Fbu<Z>, q: seq<Byte>, messages: seq<seq<Byte>>)
    requires Valid(f) && messages != [] && Untorn(codec, f, q, messages)
    ensures !TornAt(codec, f, q + messages[0] + Flatten(messages[1..]), |q + messages[0]|)
    ensures var p := Run(codec, f, q + messages[0]); Untorn(codec, p.f, p.q, messages[1..])
  {
    hide TornAt, Run, Flatten;
    var first, rest := q + messages[0], messages[1..];
    var p := Run(codec, f, first);
    BoundaryAfter(q, messages, 0);
    assert rest[..0] == [] && rest[0..] == rest;
    FlattenNone();
    assert first + [] == first && [] + Flatten(rest) == Flatten(rest);
    assert !TornAt(codec, f, first + Flatten(rest), |first|);
    forall i | 1 <= i <= |rest|
      ensures !TornAt(codec, p.f, p.q + Flatten(rest), |p.q + Flatten(rest[..i])|)
    {
      BoundaryAfter(q, messages, i);
      var a, b := Flatten(rest[..i]), Flatten(rest[i..]);
      UntornFrom(codec, f, first, a, b);
      assert p.q + (a + b) == p.q + a + b;
    }
  }

  /**
   For every cutting of a stream into messages that tears no read, the final record (zlib streams and hextile
   colours included), the effects in order and the unread bytes are those of delivery in one message.
   */
  lemma {:induction false} ChunkingUnobservable<Z>(codec: Codec<Z>, f: Fbu<Z>, q: seq<Byte>, messages: seq<seq<Byte>>)
    requires AtRest(codec, f, q) && Untorn(codec, f, q, messages)
    ensures Feed(codec, f, q, messages) == Run(codec, f, q + Flatten(messages))
    decreases messages
  {
    hide Step, Stalls, TornAt, Untorn;
    if messages == [] {
      assert q + [] == q;
    } else {
      var first, rest := q + messages[0], messages[1..];
      var p := Run(codec, f, first);
      UntornNext(codec, f, q, messages);
      RunRests(codec, f, first);
      ChunkingUnobservable(codec, p.f, p.q, rest);
      RunExtends(codec, f, first, Flatten(rest));
      assert q + Flatten(messages) == first + Flatten(rest);
    }
  }
}
