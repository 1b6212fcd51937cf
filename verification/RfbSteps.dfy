/**
 How the calls of the message parser line up with the steps of the machine: what it means that a handler, a
 tile, a rectangle or a message has been handled, and the pure parts of the handlers.
 */
module RfbSteps {
  import opened Common
  import opened Bits
  import opened RfbSpec
  import opened RfbChunks

  /** The record up to the exact value of the hint */
  function Canon<Z>(f: Fbu<Z>): Fbu<Z> {
    if f.bytes == 0 then f else f.(bytes := 1)
  }

  /** onFBUComplete is called by the caller of the handler that finishes the last rectangle. */
  function Tail<Z>(f: Fbu<Z>): seq<Effect> {
    if f.rects == 0 then [Complete] else []
  }

  const RRE_CHUNK := 100

  /** What the RRE handler waits for: a chunk of subrectangles, or the rest of them */
  function ChunkBytes(subrects: int): int { SUB * Min(RRE_CHUNK, subrects) }

  /**
   FBU.bytes never asks for too much: with fewer bytes the handler would wait anyway. Only RRE asks for a chunk
   where it could go on with one subrectangle.
   */
  ghost predicate Hinted<Z>(codec: Codec<Z>, f: Fbu<Z>, q: seq<Byte>)
    requires Valid(Canon(f))
  {
    Busy(f) ==>
      if f.encoding == RRE then f.bytes == ChunkBytes(f.subrects)
      else forall r :: |q + r| < f.bytes ==> Step(codec, Canon(f), q + r).Wait?
  }

  /** The RRE handler is behind the machine: it waits for the rest of a chunk. */
  predicate Lags<Z>(f: Fbu<Z>, q: seq<Byte>) {
    Busy(f) && f.encoding == RRE && |q| < f.bytes
  }

  /** Nothing more will be done with what is queued. */
  ghost predicate Rests<Z>(codec: Codec<Z>, f: Fbu<Z>, q: seq<Byte>) {
    AtRest(codec, Canon(f), q) || (Valid(Canon(f)) && Lags(f, q))
  }

  lemma HintedLater<Z>(codec: Codec<Z>, f: Fbu<Z>, q: seq<Byte>, r: seq<Byte>)
    requires Valid(Canon(f)) && Hinted(codec, f, q)
    ensures Hinted(codec, f, q + r)
  {
    hide Step;
    forall s | Busy(f) && f.encoding != RRE && |q + r + s| < f.bytes
      ensures Step(codec, Canon(f), q + r + s).Wait?
    {
      assert q + r + s == q + (r + s);
    }
  }

  /** What a call does: starting from machine state s with q0 queued, it returns `ret` and leaves f1 and q1. */
  ghost predicate Handled<Z>(codec: Codec<Z>, s: Fbu<Z>, q0: seq<Byte>, f1: Fbu<Z>, q1: seq<Byte>, fx: seq<Effect>,
          ret: bool) {
    && Valid(Canon(f1))
    && Leads(codec, s, q0, Point(Canon(f1), q1, if ret then fx + Tail(f1) else fx))
    && (!ret ==> Rests(codec, f1, q1))
    && Hinted(codec, f1, q1)
    && (ret ==> !f1.dead && |q1| <= |q0| && (|q1| < |q0| || f1.bytes == 0))
  }

  /** A handler that waits */
  lemma HandledWait<Z>(codec: Codec<Z>, s: Fbu<Z>, q: seq<Byte>, f1: Fbu<Z>)
    requires Valid(s) && Canon(f1) == s && s.encoding != RRE
    requires Step(codec, s, q).Wait?
    requires forall r :: |q + r| < f1.bytes ==> Step(codec, s, q + r).Wait?
    ensures Handled(codec, s, q, f1, q, [], false)
  {
    hide Step;
    LeadsNowhere(codec, s, q);
  }

  /** A handler that fails */
  lemma HandledDeath<Z>(codec: Codec<Z>, s: Fbu<Z>, q: seq<Byte>, f1: Fbu<Z>, n: nat)
    requires Valid(s) && n <= |q| && Step(codec, s, q) == Move(Canon(f1), n, []) && f1.dead
    ensures Handled(codec, s, q, f1, q[n..], [], false)
  {
    StepValid(codec, s, q);
    LeadsOne(codec, s, q);
  }

  /** A handler that finishes its rectangle in one step */
  lemma HandledDone<Z>(codec: Codec<Z>, s: Fbu<Z>, q: seq<Byte>, f1: Fbu<Z>, n: nat, fx: seq<Effect>)
    requires Valid(s) && n <= |q|
    requires Step(codec, s, q) == Move(f1, n, fx + Tail(f1)) && f1.bytes == 0 && !f1.dead
    ensures Handled(codec, s, q, f1, q[n..], fx, true)
  {
    hide Step;
    StepValid(codec, s, q);
    LeadsOne(codec, s, q);
  }

  /** Some steps, then a handler */
  lemma HandledTrans<Z>(codec: Codec<Z>, s: Fbu<Z>, q: seq<Byte>, p: Point<Z>, f1: Fbu<Z>, q1: seq<Byte>,
          fx: seq<Effect>, ret: bool)
    requires Leads(codec, s, q, p) && |p.q| <= |q|
    requires Handled(codec, p.f, p.q, f1, q1, fx, ret)
    ensures Handled(codec, s, q, f1, q1, p.fx + fx, ret)
  {
    hide Step, Leads, Rests, Hinted;
    var r := Point(Canon(f1), q1, if ret then fx + Tail(f1) else fx);
    LeadsTrans(codec, s, q, p, r);
    assert p.fx + (fx + Tail(f1)) == p.fx + fx + Tail(f1);
  }

  /** A step without effects, then a handler */
  lemma HandledAfter<Z>(codec: Codec<Z>, s: Fbu<Z>, q: seq<Byte>, s': Fbu<Z>, n: nat, f1: Fbu<Z>, q1: seq<Byte>,
          fx: seq<Effect>, ret: bool)
    requires Valid(s) && 0 < n <= |q| && Step(codec, s, q) == Move(s', n, [])
    requires Handled(codec, s', q[n..], f1, q1, fx, ret)
    ensures Handled(codec, s, q, f1, q1, fx, ret)
  {
    hide Step, Leads, Rests, Hinted;
    LeadsOne(codec, s, q);
    var p := Point(Canon(f1), q1, if ret then fx + Tail(f1) else fx);
    LeadsTrans(codec, s, q, Point(s', q[n..], []), p);
    assert p.After([]) == p;
  }

  // ----- raw -----

  /** blitImage of k lines, row by row */
  function Rows(x: nat, y: int, w: nat, k: nat, data: seq<Byte>): seq<Effect>
    requires k * LineBytes(w) <= |data|
    decreases k
  {
    if k == 0 then []
    else
      var n := LineBytes(w);
      assert k * n == n + (k - 1) * n;
      [Row(x, y, w, data[..n])] + Rows(x, y + 1, w, k - 1, data[n..])
  }

  /** The state after k of the remaining lines */
  function AfterLines<Z>(f: Fbu<Z>, k: nat): Fbu<Z>
    requires k <= f.lines && f.rects > 0
  {
    if k < f.lines then f.(lines := f.lines - k) else f.(lines := 0, rects := f.rects - 1, bytes := 0)
  }

  lemma RowsUnfold(x: nat, y: int, w: nat, k: nat, q: seq<Byte>)
    requires k >= 1 && k * LineBytes(w) <= |q|
    ensures var n := LineBytes(w);
            && n <= |q| && k * n == n + (k - 1) * n && (k - 1) * n <= |q[n..]| && q[n..][(k - 1) * n..] == q[k * n..]
            && Rows(x, y, w, k, q) == [Row(x, y, w, q[..n])] + Rows(x, y + 1, w, k - 1, q[n..])
            && (k == 1 ==> Rows(x, y, w, k, q) == [Row(x, y, w, q[..n])] && 1 * n == n)
  {
    hide LineBytes;
    var n := LineBytes(w);
    assert k * n == n + (k - 1) * n;
  }

  /** Drawing k lines at once is k steps of the machine. */
  lemma {:induction false} RawLines<Z>(codec: Codec<Z>, f: Fbu<Z>, q: seq<Byte>, k: nat)
    requires Valid(f) && Busy(f) && f.encoding == RAW
    requires 1 <= k <= f.lines && k * LineBytes(f.width) <= |q|
    ensures var g := AfterLines(f, k);
            Leads(codec, f, q, Point(g, q[k * LineBytes(f.width)..],
                                     Rows(f.x, f.y + (f.height - f.lines), f.width, k, q) + Tail(g)))
    decreases k
  {
    hide Leads, LineBytes, MessageStep, HeaderStep, HextileStep, TightStep, CursorStep, RreStep, Rows;
    var n, y := LineBytes(f.width), f.y + (f.height - f.lines);
    RowsUnfold(f.x, y, f.width, k, q);
    LeadsOne(codec, f, q);
    var m := Step(codec, f, q);
    var row := Row(f.x, y, f.width, q[..n]);
    var g := AfterLines(f, k);
    if k == 1 {
      assert m == Move(g, n, [row] + Tail(g));
    } else {
      StepValid(codec, f, q);
      RawLines(codec, m.f, q[n..], k - 1);
      var rest := Rows(f.x, y + 1, f.width, k - 1, q[n..]);
      LeadsTrans(codec, f, q, Point(m.f, q[n..], [row]), Point(g, q[k * n..], rest + Tail(g)));
      assert [row] + (rest + Tail(g)) == [row] + rest + Tail(g);
    }
  }

  lemma NoRows(x: nat, y: int, w: nat, q: seq<Byte>)
    ensures 0 * LineBytes(w) == 0 && Rows(x, y, w, 0, q) == []
  {
  }

  lemma HandledRaw<Z>(codec: Codec<Z>, f: Fbu<Z>, q: seq<Byte>, k: nat, f1: Fbu<Z>)
    requires Valid(f) && Busy(f) && f.encoding == RAW && k <= f.lines && (k == 0 ==> f.lines == 0)
    requires k * LineBytes(f.width) <= |q| && LineBytes(f.width) <= |q|
    requires Canon(f1) == AfterLines(f, k) && (f1.bytes > 0 ==> f1.bytes == LineBytes(f1.width))
    ensures Handled(codec, f, q, f1, q[k * LineBytes(f.width)..],
                    Rows(f.x, f.y + (f.height - f.lines), f.width, k, q), true)
  {
    hide Leads, Rows;
    if k == 0 {
      NoRows(f.x, f.y + (f.height - f.lines), f.width, q);
      assert 0 * LineBytes(f.width) == 0 && q[0..] == q;
      assert Step(codec, f, q) == Move(f1, 0, [] + Tail(f1));
      HandledDone(codec, f, q, f1, 0, []);
    } else {
      RawLines(codec, f, q, k);
      MulPositive(k, LineBytes(f.width));
    }
  }

  // ----- RRE -----

  /** The fills of k subrectangles */
  function SubFills<Z>(f: Fbu<Z>, k: nat, q: seq<Byte>): seq<Effect>
    requires SUB * k <= |q|
    decreases k
  {
    if k == 0 then [] else [RreSub(f, q)] + SubFills(f, k - 1, q[SUB..])
  }

  /** The state after k of the remaining subrectangles */
  function AfterSubs<Z>(f: Fbu<Z>, k: nat): Fbu<Z>
    requires f.rects > 0
  {
    if k < f.subrects then f.(subrects := f.subrects - k)
    else f.(subrects := f.subrects - k, rects := f.rects - 1, bytes := 0)
  }

  /** Subrectangles drawn from another place of the countdown look the same. */
  lemma {:induction false} SubFillsAlike<Z>(f: Fbu<Z>, g: Fbu<Z>, k: nat, q: seq<Byte>)
    requires SUB * k <= |q| && f.x == g.x && f.y == g.y
    ensures SubFills(f, k, q) == SubFills(g, k, q)
    decreases k
  {
    hide Be16;
    if k > 0 {
      SubFillsAlike(f, g, k - 1, q[SUB..]);
    }
  }

  lemma {:induction false} SubFillsMore<Z>(f: Fbu<Z>, k: nat, q: seq<Byte>)
    requires SUB * (k + 1) <= |q|
    ensures SubFills(f, k + 1, q) == SubFills(f, k, q) + [RreSub(f, q[SUB * k..])]
    decreases k
  {
    hide RreSub;
    if k == 0 {
      assert q[0..] == q;
    } else {
      SubFillsMore(f, k - 1, q[SUB..]);
      assert q[SUB..][SUB * (k - 1)..] == q[SUB * k..];
    }
  }

  /** Drawing k subrectangles in one call is k steps of the machine. */
  lemma {:induction false} RreRuns<Z>(codec: Codec<Z>, f: Fbu<Z>, q: seq<Byte>, k: nat)
    requires Valid(f) && Busy(f) && f.encoding == RRE && f.bytes == 1 && k <= f.subrects && SUB * k <= |q|
    ensures var g := AfterSubs(f, k);
            Leads(codec, f, q, Point(g, q[SUB * k..], SubFills(f, k, q) + Tail(g)))
    decreases k
  {
    hide Leads, Be16;
    var g := AfterSubs(f, k);
    if k == 0 {
      assert q[0..] == q && SubFills(f, 0, q) + Tail(g) == [];
      LeadsNowhere(codec, f, q);
    } else {
      LeadsOne(codec, f, q);
      var m := Step(codec, f, q);
      StepValid(codec, f, q);
      hide Step, RreSub;
      var one := RreSub(f, q);
      if f.subrects == 1 {
        assert SubFills(f, 1, q) == [one];
        assert m == Move(g, SUB, [one] + Tail(g));
      } else {
        RreRuns(codec, m.f, q[SUB..], k - 1);
        SubFillsAlike(f, m.f, k - 1, q[SUB..]);
        var rest := SubFills(f, k - 1, q[SUB..]);
        LeadsTrans(codec, f, q, Point(m.f, q[SUB..], [one]), Point(g, q[SUB..][SUB * (k - 1)..], rest + Tail(g)));
        assert q[SUB..][SUB * (k - 1)..] == q[SUB * k..];
        assert [one] + (rest + Tail(g)) == [one] + rest + Tail(g);
      }
    }
  }

  /** What the loop of the RRE handler and the lines after it do */
  ghost predicate RreDrawn<Z>(f: Fbu<Z>, q: seq<Byte>, f1: Fbu<Z>, q1: seq<Byte>, fx: seq<Effect>, k: nat)
    requires f.rects > 0
  {
    && SUB * k <= |q| && q1 == q[SUB * k..] && fx == SubFills(f, k, q)
    && (f.subrects > 0 ==> k <= f.subrects && (k == f.subrects || |q1| < SUB))
    && (f.subrects <= 0 ==> k == 0)
    && f1 == if k < f.subrects then f.(subrects := f.subrects - k, bytes := ChunkBytes(f.subrects - k))
             else f.(subrects := f.subrects - k, rects := f.rects - 1, bytes := 0)
  }

  lemma AfterSubsValid<Z>(s: Fbu<Z>, k: nat)
    requires Valid(s) && Busy(s) && s.encoding == RRE && k <= s.subrects
    ensures Valid(AfterSubs(s, k))
  {
  }

  /** A call that goes on with a rectangle: it was waited for a chunk, so something is drawn. */
  lemma RreResumed<Z>(codec: Codec<Z>, f0: Fbu<Z>, q: seq<Byte>, f1: Fbu<Z>, q1: seq<Byte>, fx: seq<Effect>, k: nat)
    requires Valid(Canon(f0)) && Busy(f0) && f0.encoding == RRE && f0.bytes == ChunkBytes(f0.subrects) <= |q|
    requires RreDrawn(f0, q, f1, q1, fx, k)
    ensures Handled(codec, Canon(f0), q, f1, q1, fx, true)
  {
    hide Leads, SubFills, Step;
    var s := Canon(f0);
    RreRuns(codec, s, q, k);
    SubFillsAlike(f0, s, k, q);
    assert Canon(f1) == AfterSubs(s, k);
    AfterSubsValid(s, k);
  }

  lemma SubFillsNone<Z>(f: Fbu<Z>, q: seq<Byte>)
    ensures SubFills(f, 0, q) == []
  {
  }

  /** What a call right after the header does, with the count and the background queued */
  lemma RreBegun<Z>(codec: Codec<Z>, f: Fbu<Z>, q: seq<Byte>, g1: Fbu<Z>, f1: Fbu<Z>, q1: seq<Byte>, fx: seq<Effect>,
          k: nat)
    requires Valid(f) && !f.dead && f.rects > 0 && f.bytes == 0 && |q| >= 12 && WithHeader(f, q).encoding == RRE
    requires |q| >= 12 + Trailing(WithHeader(f, q))
    requires var g := WithHeader(f, q); g1 == if g.subrects == 0 then g.(subrects := Signed32(Be32(q, 12))) else g
    requires var n := 12 + Trailing(WithHeader(f, q)); RreDrawn(g1, q[n..], f1, q1, fx, k)
    ensures var g := WithHeader(f, q);
            var fill := if g.subrects == 0 then [Fill(g.x, g.y, g.width, g.height, q[16..20])] else [];
            Handled(codec, f, q, f1, q1, fill + fx, true) && |q1| < |q|
  {
    hide Leads, SubFills, Be16, Be32;
    var g := WithHeader(f, q);
    var fill := if g.subrects == 0 then [Fill(g.x, g.y, g.width, g.height, q[16..20])] else [];
    var m := Step(codec, f, q);
    StepValid(codec, f, q);
    if g1.subrects > 0 {
      var s := g1.(bytes := 1);
      assert m == Move(s, 20, fill);
      LeadsOne(codec, f, q);
      hide Step;
      RreRuns(codec, s, q[20..], k);
      SubFillsAlike(g1, s, k, q[20..]);
      AfterSubsValid(s, k);
      var h := AfterSubs(s, k);
      LeadsTrans(codec, f, q, Point(s, q[20..], fill), Point(h, q1, fx + Tail(h)));
      assert fill + (fx + Tail(h)) == fill + fx + Tail(h);
      assert Canon(f1) == h && Tail(f1) == Tail(h);
    } else {
      assert fx == [] by { SubFillsNone(g1, q[m.n..]); }
      assert fill + fx == fill && q1 == q[m.n..];
      assert f1.rects != 0 ==> fill + Tail(f1) == fill;
      HandledDone(codec, f, q, f1, m.n, fill);
    }
  }

  lemma EnterKeeps<Z>(f: Fbu<Z>)
    ensures f.encoding == RAW ==> Enter(f) == f.(bytes := 1, lines := if f.lines == 0 then f.height else f.lines)
    ensures f.encoding != RAW && f.encoding != HEXTILE ==> Enter(f) == f.(bytes := 1)
  {
  }

  lemma RawWaits<Z>(codec: Codec<Z>, f: Fbu<Z>, q: seq<Byte>, f1: Fbu<Z>)
    requires Valid(f) && Busy(f) && f.encoding == RAW && |q| < LineBytes(f.width)
    requires Canon(f1) == f && f1.bytes == LineBytes(f.width)
    ensures Handled(codec, f, q, f1, q, [], false)
  {
    hide Handled;
    HandledWait(codec, f, q, f1);
  }

  lemma CursorAlike<Z>(f: Fbu<Z>, g: Fbu<Z>)
    requires f.width == g.width && f.height == g.height
    ensures CursorPixels(f) == CursorPixels(g) && CursorMask(f) == CursorMask(g)
  {
  }

  lemma CursorWaits<Z>(codec: Codec<Z>, f: Fbu<Z>, q: seq<Byte>, f1: Fbu<Z>)
    requires Valid(f) && Busy(f) && f.encoding == CURSOR && |q| < CursorNeed(f)
    requires Canon(f1) == f && f1.bytes == CursorNeed(f)
    ensures Handled(codec, f, q, f1, q, [], false)
  {
    hide Handled, CursorNeed, CursorPixels;
    HandledWait(codec, f, q, f1);
  }

  lemma CursorDone<Z>(codec: Codec<Z>, f: Fbu<Z>, q: seq<Byte>, f1: Fbu<Z>)
    requires Valid(f) && Busy(f) && f.encoding == CURSOR && |q| >= CursorNeed(f)
    requires f1 == f.(bytes := 0, rects := f.rects - 1)
    ensures var p, n := CursorPixels(f), CursorNeed(f);
            Handled(codec, f, q, f1, q[n..], [Cursor(f.x, f.y, f.width, f.height, q[..p], q[p..n])], true)
  {
    hide Handled;
    var p, n := CursorPixels(f), CursorNeed(f);
    var fx := [Cursor(f.x, f.y, f.width, f.height, q[..p], q[p..n])];
    assert f1.rects != 0 ==> fx + Tail(f1) == fx;
    HandledDone(codec, f, q, f1, n, fx);
  }

  lemma CanonIs<Z>(s: Fbu<Z>, f: Fbu<Z>)
    requires s.bytes == 1 && f.bytes > 0 && f == s.(bytes := f.bytes)
    ensures Canon(f) == s
  {
  }

  lemma LinesDrawn<Z>(s: Fbu<Z>, k: nat, f: Fbu<Z>)
    requires k <= s.lines && s.rects > 0 && s.bytes == 1 && s.width > 0
    requires f == if k < s.lines then s.(lines := s.lines - k, bytes := LineBytes(s.width))
                  else s.(lines := 0, rects := s.rects - 1, bytes := 0)
    ensures Canon(f) == AfterLines(s, k)
  {
  }

  lemma MulSwap(a: nat, b: nat)
    ensures a * b * BPP == b * LineBytes(a)
  {
  }

  lemma DivTimes(len: nat, n: nat)
    requires n > 0
    ensures len / n * n <= len && (len >= n ==> len / n >= 1)
  {
  }

  /** The FBU record before the first message; colours are set before they are used by any valid stream. */
  function Initial<Z>(codec: Codec<Z>): (f: Fbu<Z>)
    ensures f.bytes == 0 && f.rects == 0 && !f.dead && f.lines == 0 && f.tiles == 0 && f.subrects == 0 && |f.zlibs| == 4
  {
    var z := codec.start;
    Fbu(0, 0, 0, 0, 0, 0, 0, 0, 0, 0, 0, 0, 0, [], [], [z, z, z, z], false)
  }

  lemma DeadRests<Z>(codec: Codec<Z>, f: Fbu<Z>, q: seq<Byte>)
    requires f.dead && Valid(Canon(f))
    ensures Rests(codec, f, q)
  {
  }

  lemma IdleRests<Z>(codec: Codec<Z>, f: Fbu<Z>, q: seq<Byte>)
    requires f.rects == 0 && |q| == 0 && Valid(Canon(f))
    ensures Rests(codec, f, q)
  {
  }

  /** What a message call does: like `Handled`, with every effect accounted for */
  ghost predicate Did<Z>(codec: Codec<Z>, s: Fbu<Z>, q0: seq<Byte>, f1: Fbu<Z>, q1: seq<Byte>, fx: seq<Effect>,
          ret: bool) {
    && Valid(Canon(f1)) && Hinted(codec, f1, q1)
    && Leads(codec, s, q0, Point(Canon(f1), q1, fx))
    && (!ret ==> Rests(codec, f1, q1))
  }

  lemma DidMore<Z>(codec: Codec<Z>, all: seq<Byte>, p: Point<Z>, f1: Fbu<Z>, q1: seq<Byte>, fx: seq<Effect>, ret: bool)
    requires Did(codec, p.f, p.q, f1, q1, fx, ret)
    ensures Valid(Canon(f1)) && Hinted(codec, f1, q1) && (!ret ==> Rests(codec, f1, q1))
    ensures Leads(codec, Initial(codec), all, p) ==>
              Leads(codec, Initial(codec), all, Point(Canon(f1), q1, p.fx + fx))
  {
    hide Hinted, Rests, Leads;
    if Leads(codec, Initial(codec), all, p) {
      LeadsTrans(codec, Initial(codec), all, p, Point(Canon(f1), q1, fx));
    }
  }

  lemma CutSlices(u: seq<Byte>)
    ensures var q := [3] + u;
            |u| >= 7 ==> u[3..][4..] == q[8..] && Be32(u[3..], 0) == Be32(q, 4)
  {
  }

  lemma CutWaits<Z>(codec: Codec<Z>, f: Fbu<Z>, q: seq<Byte>)
    requires Valid(Canon(f)) && !f.dead && f.rects == 0 && |q| >= 1 && q[0] == 3
    requires |q| < 8 || (Be32(q, 4) < 0x8000_0000 && |q| < 8 + Be32(q, 4))
    ensures Did(codec, Canon(f), q, f, q, [], false)
  {
    hide Be32;
    LeadsNowhere(codec, Canon(f), q);
  }

  lemma CutDies<Z>(codec: Codec<Z>, f: Fbu<Z>, q: seq<Byte>)
    requires Valid(Canon(f)) && !f.dead && f.rects == 0 && |q| >= 8 && q[0] == 3 && Be32(q, 4) >= 0x8000_0000
    ensures Did(codec, Canon(f), q, f.(dead := true), q[8..], [], false)
  {
    hide Be32;
    StepValid(codec, Canon(f), q);
    LeadsOne(codec, Canon(f), q);
  }

  lemma CutDone<Z>(codec: Codec<Z>, f: Fbu<Z>, q: seq<Byte>)
    requires Valid(Canon(f)) && !f.dead && f.rects == 0 && |q| >= 8 && q[0] == 3
    requires Be32(q, 4) < 0x8000_0000 && |q| >= 8 + Be32(q, 4)
    ensures var n := 8 + Be32(q, 4); Did(codec, Canon(f), q, f, q[n..], [CutText(q[8..n])], true)
  {
    hide Be32;
    StepValid(codec, Canon(f), q);
    LeadsOne(codec, Canon(f), q);
  }

  lemma ColourSlices(u: seq<Byte>)
    ensures var q := [1] + u;
            |u| >= 5 ==>
              u[1..][2..][2..] == q[6..] && Be16(u[1..], 0) == Be16(q, 2) && Be16(u[1..][2..], 0) == Be16(q, 4)
  {
  }

  lemma ColourWaits<Z>(codec: Codec<Z>, f: Fbu<Z>, q: seq<Byte>)
    requires Valid(Canon(f)) && !f.dead && f.rects == 0 && |q| >= 6 && q[0] == 1 && |q| < 6 + 6 * Be16(q, 4)
    ensures Did(codec, Canon(f), q, f, q, [], false)
  {
    hide Be16;
    LeadsNowhere(codec, Canon(f), q);
  }

  lemma ColourDone<Z>(codec: Codec<Z>, f: Fbu<Z>, q: seq<Byte>)
    requires Valid(Canon(f)) && !f.dead && f.rects == 0 && |q| >= 6 && q[0] == 1 && |q| >= 6 + 6 * Be16(q, 4)
    ensures var n := Be16(q, 4);
            Did(codec, Canon(f), q, f, q[6 + 6 * n..], [ColourMap(Be16(q, 2), Colours(q, 6, n))], true)
  {
    hide Be16, Colours;
    StepValid(codec, Canon(f), q);
    LeadsOne(codec, Canon(f), q);
  }

  lemma BellRings<Z>(codec: Codec<Z>, f: Fbu<Z>, q: seq<Byte>)
    requires Valid(Canon(f)) && !f.dead && f.rects == 0 && |q| >= 1 && q[0] == 2
    ensures Did(codec, Canon(f), q, f, q[1..], [Bell], true)
  {
    StepValid(codec, Canon(f), q);
    LeadsOne(codec, Canon(f), q);
  }

  lemma UnknownDies<Z>(codec: Codec<Z>, f: Fbu<Z>, q: seq<Byte>)
    requires Valid(Canon(f)) && !f.dead && f.rects == 0 && |q| >= 1
    requires q[0] > 3 || (q[0] == 1 && |q| < 6)
    ensures Did(codec, Canon(f), q, f.(dead := true), q[1..], [], true)
  {
    StepValid(codec, Canon(f), q);
    LeadsOne(codec, Canon(f), q);
  }

  lemma UpdateSlices(u: seq<Byte>)
    ensures var q := [0] + u;
            |u| >= 3 ==> u[1..][2..] == q[4..] && Be16(u[1..], 0) == Be16(q, 2)
  {
  }

  lemma DidThen<Z>(codec: Codec<Z>, s: Fbu<Z>, q: seq<Byte>, p: Point<Z>, f1: Fbu<Z>, q1: seq<Byte>, fx: seq<Effect>,
          ret: bool)
    requires Leads(codec, s, q, p) && p.fx == [] && Did(codec, p.f, p.q, f1, q1, fx, ret)
    ensures Did(codec, s, q, f1, q1, fx, ret)
  {
    hide Leads, Hinted, Rests;
    var r := Point(Canon(f1), q1, fx);
    LeadsTrans(codec, s, q, p, r);
    assert r.After([]) == r;
  }

  lemma HandledOn<Z>(codec: Codec<Z>, s: Fbu<Z>, q0: seq<Byte>, f1: Fbu<Z>, q1: seq<Byte>, fx: seq<Effect>)
    requires Handled(codec, s, q0, f1, q1, fx, true) && f1.rects > 0
    ensures Valid(Canon(f1)) && Hinted(codec, f1, q1) && !f1.dead
    ensures Leads(codec, s, q0, Point(Canon(f1), q1, fx))
    ensures |q1| <= |q0| && (|q1| < |q0| || f1.bytes == 0)
  {
    assert fx + Tail(f1) == fx;
  }

  lemma DidAfter<Z>(codec: Codec<Z>, s: Fbu<Z>, q: seq<Byte>, p: Point<Z>, f1: Fbu<Z>, q1: seq<Byte>, fx: seq<Effect>,
          ret: bool)
    requires Leads(codec, s, q, p) && p.fx == [] && Handled(codec, p.f, p.q, f1, q1, fx, ret) && (ret ==> f1.rects == 0)
    ensures Did(codec, s, q, f1, q1, if ret then fx + [Complete] else fx, ret)
  {
    hide Leads, Hinted, Rests;
    var r := Point(Canon(f1), q1, if ret then fx + [Complete] else fx);
    LeadsTrans(codec, s, q, p, r);
    assert r.After([]) == r;
  }

  lemma UpdateWaits<Z>(codec: Codec<Z>, f: Fbu<Z>, q: seq<Byte>)
    requires Valid(Canon(f)) && !f.dead && f.rects == 0 && 1 <= |q| < 4 && q[0] == 0
    ensures Did(codec, Canon(f), q, f, q, [], false)
  {
    LeadsNowhere(codec, Canon(f), q);
  }

  lemma UpdateBegins<Z>(codec: Codec<Z>, f: Fbu<Z>, q: seq<Byte>)
    requires Valid(Canon(f)) && !f.dead && f.rects == 0 && |q| >= 4 && q[0] == 0
    ensures var rects := Be16(q, 2);
            var g := f.(rects := rects, bytes := 0);
            && Valid(g) && Hinted(codec, g, q[4..])
            && Leads(codec, Canon(f), q, Point(g, q[4..], if rects == 0 then [Complete] else []))
            && Did(codec, Canon(f), q, g, q[4..], if rects == 0 then [Complete] else [], true)
  {
    StepValid(codec, Canon(f), q);
    LeadsOne(codec, Canon(f), q);
  }

  /** What the handlers do that FBU.bytes does not protect; q starts with the header. */
  ghost predicate ShortOutcome<Z>(g: Fbu<Z>, q: seq<Byte>, f1: Fbu<Z>, q1: seq<Byte>, fx: seq<Effect>, ret: bool)
    requires g.rects > 0 && |q| >= 12 && !HasData(g)
  {
    var m := ShortStep(g, q);
    && m.Move? && m.n <= |q| && f1 == m.f && q1 == q[m.n..]
    && f1.bytes == 0
    && (if ret then !f1.dead && m.fx == fx + Tail(f1)
        else m.fx == [] && fx == [] && (f1.dead || |q| < 12 + Trailing(g)))
  }

  lemma Be16From(q: seq<Byte>, a: nat, i: nat)
    requires a + i + 1 < |q|
    ensures Be16(q[a..], i) == Be16(q, a + i)
  {
  }

  lemma HeaderFrom<Z>(f: Fbu<Z>, q: seq<Byte>, a: seq<Byte>)
    requires |q| >= 12 && a == q[..12]
    ensures WithHeader(f, a) == WithHeader(f, q)
  {
  }

  lemma HeaderKeeps<Z>(f: Fbu<Z>, q: seq<Byte>)
    requires |q| >= 12
    ensures var g := WithHeader(f, q);
            g == f.(x := g.x, y := g.y, width := g.width, height := g.height, encoding := g.encoding)
    ensures Valid(Canon(f)) && f.bytes == 0 ==> f.tiles == 0
  {
  }

  lemma HandledStall<Z>(codec: Codec<Z>, f: Fbu<Z>, q: seq<Byte>, f1: Fbu<Z>)
    requires Valid(f) && Stalls(f, q) && Step(codec, f, q).Move? && f1 == Step(codec, f, q).f && f1.bytes == 0
    ensures Step(codec, f, q).n <= |q| && Handled(codec, f, q, f1, q[Step(codec, f, q).n..], [], false)
  {
    hide Step, Stalls, Valid;
    StepValid(codec, f, q);
    StallStep(codec, f, q);
    StallsFragile(f, q);
    assert q + [] == q;
    LeadsOne(codec, f, q);
  }

  lemma ShortHandled<Z>(codec: Codec<Z>, f: Fbu<Z>, q: seq<Byte>, f1: Fbu<Z>, q1: seq<Byte>, fx: seq<Effect>, ret: bool)
    requires Valid(f) && !f.dead && f.rects > 0 && f.bytes == 0 && |q| >= 12 && !HasData(WithHeader(f, q))
    requires ShortOutcome(WithHeader(f, q), q, f1, q1, fx, ret)
    ensures Handled(codec, f, q, f1, q1, fx, ret) && |q1| < |q|
  {
    hide Handled, ShortStep, Be16, Be32;
    var m := ShortStep(WithHeader(f, q), q);
    assert Step(codec, f, q) == m;
    StepValid(codec, f, q);
    if ret {
      HandledDone(codec, f, q, f1, m.n, fx);
    } else if f1.dead {
      HandledDeath(codec, f, q, f1, m.n);
    } else {
      HandledStall(codec, f, q, f1);
    }
  }

  lemma HintSays<Z>(codec: Codec<Z>, f: Fbu<Z>, q: seq<Byte>)
    requires Valid(Canon(f)) && !f.dead && f.rects > 0 && |q| < f.bytes && Hinted(codec, f, q)
    ensures Handled(codec, Canon(f), q, f, q, [], false)
  {
    assert q + [] == q;
    LeadsNowhere(codec, Canon(f), q);
  }

  lemma HeaderWaits<Z>(codec: Codec<Z>, f: Fbu<Z>, q: seq<Byte>)
    requires Valid(f) && !f.dead && f.rects > 0 && f.bytes == 0 && |q| < 12
    ensures Handled(codec, f, q, f, q, [], false)
  {
    LeadsNowhere(codec, f, q);
  }

  lemma EnterStep<Z>(codec: Codec<Z>, f: Fbu<Z>, q: seq<Byte>)
    requires Valid(f) && !f.dead && f.rects > 0 && f.bytes == 0 && |q| >= 12 && HasData(WithHeader(f, q))
    ensures Step(codec, f, q) == Move(Enter(WithHeader(f, q)), 12, []) && Valid(Enter(WithHeader(f, q)))
  {
    EnterValid(f, q);
  }

  lemma HandledShrinks<Z>(codec: Codec<Z>, s: Fbu<Z>, q0: seq<Byte>, f1: Fbu<Z>, q1: seq<Byte>, fx: seq<Effect>,
          ret: bool)
    requires Handled(codec, s, q0, f1, q1, fx, ret)
    ensures ret ==> |q1| <= |q0|
  {
  }

  /** A handler that is called again starts from the state it waited in. */
  lemma Resumes<Z>(f: Fbu<Z>)
    requires Valid(Canon(f)) && f.bytes > 0 && f.rects > 0 && f.encoding != RRE
    ensures Enter(f) == Canon(f) && HasData(f)
  {
  }

  lemma Assoc(a: seq<Effect>, b: seq<Effect>, c: seq<Effect>)
    ensures a + b + c == a + (b + c)
  {
  }

  /** Between tiles */
  ghost predicate HexState<Z>(f: Fbu<Z>): (b: bool)
    ensures b ==> TilesValid(f) && f.rects > 0
  {
    !f.dead && f.rects > 0 && f.encoding == HEXTILE && TilesValid(f) && Valid(f.(bytes := 1))
  }

  lemma SamePlace<Z>(f: Fbu<Z>, s: Fbu<Z>)
    requires TilesValid(f) && s == f.(bytes := 1)
    ensures TilesValid(s) && TileX(s) == TileX(f) && TileY(s) == TileY(f) && TileW(s) == TileW(f)
            && TileH(s) == TileH(f)
  {
  }

  lemma TileAlike<Z>(f: Fbu<Z>, q: seq<Byte>)
    requires TilesValid(f)
    ensures var s := f.(bytes := 1);
            && TilesValid(s) && TileNeed(s, q) == TileNeed(f, q)
            && (TileNeed(f, q) <= |q| ==> TileDraw(s, q) == (TileDraw(f, q).0.(bytes := 1), TileDraw(f, q).1))
  {
    SamePlace(f, f.(bytes := 1));
    hide TileX, TileY, TileW, TileH, TilesValid, Flag, SubSize;
  }

  lemma TileNeedEmpty<Z>(f: Fbu<Z>, q: seq<Byte>)
    requires TilesValid(f) && |q| < 1
    ensures TileNeed(f, q) == 1
  {
  }

  datatype TileResult = Waiting | Failed | Drawn

  /** What one round of the tile loop does */
  ghost predicate TileOutcome<Z>(f0: Fbu<Z>, q0: seq<Byte>, f1: Fbu<Z>, q1: seq<Byte>, fx: seq<Effect>, r: TileResult)
    requires TilesValid(f0)
  {
    var need := TileNeed(f0, q0);
    var bad := |q0| >= 1 && q0[0] > 30;
    match r
    case Waiting => !bad && |q0| < need && f1 == f0.(bytes := need) && q1 == q0 && fx == []
    case Failed => bad && f1 == f0.(bytes := 1, dead := true) && q1 == q0 && fx == []
    case Drawn =>
      && !bad && need <= |q0| && q1 == q0[need..]
      && var (g, e) := TileDraw(f0, q0); f1 == g.(bytes := 0, tiles := f0.tiles - 1) && fx == e
  }

  lemma TileWaits<Z>(codec: Codec<Z>, f0: Fbu<Z>, q: seq<Byte>, f1: Fbu<Z>)
    requires HexState(f0) && TileOutcome(f0, q, f1, q, [], Waiting)
    ensures Handled(codec, f0.(bytes := 1), q, f1, q, [], false)
  {
    hide Handled, TileNeed, TileDraw;
    var s := f0.(bytes := 1);
    TileAlike(f0, q);
    forall r | |q + r| < f1.bytes ensures Step(codec, s, q + r).Wait? {
      TileNeedStable(s, q, r);
      assert |q| >= 1 ==> (q + r)[0] == q[0];
      if |q| < 1 { TileNeedEmpty(s, q); }
    }
    HandledWait(codec, s, q, f1);
  }

  lemma TileDrawn<Z>(codec: Codec<Z>, f0: Fbu<Z>, q0: seq<Byte>, f1: Fbu<Z>, q1: seq<Byte>, fx: seq<Effect>)
    requires HexState(f0) && TileOutcome(f0, q0, f1, q1, fx, Drawn)
    ensures f1.rects > 0 && |q1| <= |q0|
    ensures f1.tiles > 0 ==>
              HexState(f1) && f1.tiles < f0.tiles && Leads(codec, f0.(bytes := 1), q0, Point(f1.(bytes := 1), q1, fx))
    ensures f1.tiles == 0 ==> Handled(codec, f0.(bytes := 1), q0, f1.(rects := f1.rects - 1), q1, fx, true)
  {
    hide Handled, TileNeed, TileDraw, Leads;
    var s := f0.(bytes := 1);
    TileAlike(f0, q0);
    DrawKeeps(f0, q0);
    DrawKeeps(s, q0);
    StepValid(codec, s, q0);
    if f1.tiles > 0 {
      LeadsOne(codec, s, q0);
    } else {
      var f2 := f1.(rects := f1.rects - 1);
      assert f2.rects != 0 ==> fx + Tail(f2) == fx;
      HandledDone(codec, s, q0, f2, TileNeed(s, q0), fx);
    }
  }

  /** What one round of the tile loop means for the machine */
  lemma TileStep<Z>(codec: Codec<Z>, f0: Fbu<Z>, q0: seq<Byte>, f1: Fbu<Z>, q1: seq<Byte>, fx: seq<Effect>,
          r: TileResult)
    requires HexState(f0) && TileOutcome(f0, q0, f1, q1, fx, r)
    ensures r != Drawn ==> Handled(codec, f0.(bytes := 1), q0, f1, q1, fx, false)
    ensures r == Drawn ==> f1.rects > 0 && |q1| <= |q0|
    ensures r == Drawn && f1.tiles > 0 ==>
              HexState(f1) && f1.tiles < f0.tiles && Leads(codec, f0.(bytes := 1), q0, Point(f1.(bytes := 1), q1, fx))
    ensures r == Drawn && f1.tiles == 0 ==>
              Handled(codec, f0.(bytes := 1), q0, f1.(rects := f1.rects - 1), q1, fx, true)
  {
    var s := f0.(bytes := 1);
    TileAlike(f0, q0);
    match r {
      case Waiting => TileWaits(codec, f0, q0, f1);
      case Failed =>
        assert q0[0..] == q0;
        HandledDeath(codec, s, q0, f1, 0);
      case Drawn =>
        TileDrawn(codec, f0, q0, f1, q1, fx);
    }
  }

  /** "Figure out how much we are expecting": stops at the first wait that fails */
  method PredictTile<Z>(f: Fbu<Z>, q: seq<Byte>) returns (need: nat, bad: bool)
    requires TilesValid(f)
    ensures bad <==> |q| >= 1 && q[0] > 30
    ensures !bad ==> need == TileNeed(f, q)
  {
    hide TilesValid, TileW, TileH, Flag, SubSize;
    need, bad := 1, false;
    if |q| < need {
      return;
    }
    var sub: nat := q[0];
    if sub > 30 {
      bad := true;
      return;
    }
    if Flag(sub, 1) {
      need := need + TileW(f) * TileH(f) * BPP;
      return;
    }
    if Flag(sub, 2) {
      need := need + BPP;
    }
    if Flag(sub, 4) {
      need := need + BPP;
    }
    if Flag(sub, 8) {
      need := need + 1;
      if |q| < need {
        return;
      }
      var subrects: nat := q[need - 1];
      need := need + subrects * SubSize(sub);
    }
  }

  lemma UnfoldSubs(q: seq<Byte>, j: nat, k: nat, sub: nat, foreground: seq<Byte>)
    requires j + k * SubSize(sub) <= |q|
    ensures k == 0 ==> Subs(q, j, k, sub, foreground) == []
    ensures k > 0 ==>
              && k * SubSize(sub) == SubSize(sub) + (k - 1) * SubSize(sub)
              && j + SubSize(sub) <= |q| && j + SubSize(sub) + (k - 1) * SubSize(sub) <= |q|
              && Subs(q, j, k, sub, foreground) == [SubAt(q, j, sub, foreground)] +
                  Subs(q, j + SubSize(sub), k - 1, sub, foreground)
  {
    hide SubSize, SubAt;
    if k > 0 {
      assert k * SubSize(sub) == SubSize(sub) + (k - 1) * SubSize(sub);
    }
  }

  lemma SubAtIs(q: seq<Byte>, j: nat, sub: nat, foreground: seq<Byte>, color: seq<Byte>)
    requires j + SubSize(sub) <= |q|
    requires color == if Flag(sub, 16) then q[j..j + BPP] else foreground
    ensures var k := if Flag(sub, 16) then j + BPP else j;
            var xy: nat, wh: nat := q[k], q[k + 1];
            SubAt(q, j, sub, foreground) == Sub(xy / 16, xy % 16, wh / 16 + 1, wh % 16 + 1, color)
  {
  }

  /** The subrectangle loop */
  method ReadSubs(q: seq<Byte>, i: nat, n: nat, sub: nat, foreground: seq<Byte>) returns (subs: seq<Sub>, j: nat)
    requires i + n * SubSize(sub) <= |q|
    ensures subs == Subs(q, i, n, sub, foreground)
    ensures j == i + n * SubSize(sub)
  {
    hide Flag, Subs, SubAt;
    subs, j := [], i;
    for s := 0 to n
      invariant j + (n - s) * SubSize(sub) == i + n * SubSize(sub)
      invariant Subs(q, i, n, sub, foreground) == subs + Subs(q, j, n - s, sub, foreground)
    {
      ghost var j0 := j;
      UnfoldSubs(q, j, n - s, sub, foreground);
      var color := foreground;
      if Flag(sub, 16) {
        color := q[j..j + BPP];
        j := j + BPP;
      }
      var xy: nat := q[j];
      var wh: nat := q[j + 1];
      j := j + 2;
      SubAtIs(q, j0, sub, foreground, color);
      subs := subs + [Sub(xy / 16, xy % 16, wh / 16 + 1, wh % 16 + 1, color)];
    }
    UnfoldSubs(q, j, 0, sub, foreground);
  }

  lemma NoFlags()
    ensures !Flag(0, 1) && !Flag(0, 2) && !Flag(0, 4) && !Flag(0, 8)
  {
  }

  /** The drawing half of the tile loop; the read index it returns is exactly the predicted byte count. */
  method DrawTile<Z>(f: Fbu<Z>, q: seq<Byte>) returns (g: Fbu<Z>, fx: seq<Effect>, i: nat)
    requires TilesValid(f) && TileNeed(f, q) <= |q|
    ensures (g, fx) == TileDraw(f, q)
    ensures i == TileNeed(f, q) && g.tiles == f.tiles
  {
    hide TilesValid, TileX, TileY, TileW, TileH, Subs, SubSize;
    var x, y, w, h := f.x + TileX(f), f.y + TileY(f), TileW(f), TileH(f);
    var sub: nat := q[0];
    i := 1;
    g := f.(lastsub := sub);
    fx := [];
    NoFlags();
    if sub == 0 {
      if !Flag(f.lastsub, 1) {
        fx := [Fill(x, y, w, h, f.background)];
      }
    } else if Flag(sub, 1) {
      fx := [Blit(x, y, w, h, q[1..1 + w * h * BPP])];
      i := i + w * h * BPP;
    } else {
      if Flag(sub, 2) {
        g := g.(background := q[i..i + BPP]);
        i := i + BPP;
      }
      if Flag(sub, 4) {
        g := g.(foreground := q[i..i + BPP]);
        i := i + BPP;
      }
      var subs := [];
      if Flag(sub, 8) {
        var subrects: nat := q[i];
        i := i + 1;
        subs, i := ReadSubs(q, i, subrects, sub, g.foreground);
      }
      fx := [Tile(x, y, w, h, g.background, subs)];
    }
  }

  lemma NeedsControl<Z>(s: Fbu<Z>, q: seq<Byte>)
    ensures |q| < 1 ==> TightNeed(s, q) == 1 && !TightFails(s, q)
  {
  }

  /** What is asked for once the mode is known and the rest is not */
  lemma NeedsMode<Z>(s: Fbu<Z>, q: seq<Byte>)
    requires |q| >= 1
    ensures match TightMode(q[0])
            case FillMode => TightNeed(s, q) == 4
            case ImageMode(_) => |q| < 4 ==> TightNeed(s, q) == 4
            case FilterMode => |q| < 3 ==> TightNeed(s, q) == 3
            case _ => true
  {
  }

  function CopySize(width: nat, height: nat): nat { width * height * DEPTH }

  function IndexSize(width: nat, height: nat, colors: nat): nat { RowSize(width, colors) * height }

  lemma SameStreams<Z>(codec: Codec<Z>, f: Fbu<Z>, g: Fbu<Z>, ctl: nat, size: nat, data: seq<Byte>)
    requires f.zlibs == g.zlibs && |f.zlibs| == 4
    ensures TightData(codec, f, ctl, size, data) == TightData(codec, g, ctl, size, data)
  {
  }

  lemma ImageDraws<Z>(codec: Codec<Z>, s: Fbu<Z>, q: seq<Byte>)
    requires |s.zlibs| == 4 && |q| >= 4 && TightMode(q[0]).ImageMode?
    ensures var c := TightCLength(q, 1);
            && TightNeed(s, q) == 1 + c.header + c.data
            && (TightNeed(s, q) <= |q| && !TightFails(s, q) ==>
                TightDraw(codec, s, q) ==
                (s.zlibs, Some(Image(s.x, s.y, TightMode(q[0]).png, q[1 + c.header..1 + c.header + c.data]))))
  {
    hide TightCLength;
  }

  lemma CopyDraws<Z>(codec: Codec<Z>, s: Fbu<Z>, q: seq<Byte>)
    requires |s.zlibs| == 4 && |q| >= 1 && TightMode(q[0]) == CopyMode
    ensures var size := CopySize(s.width, s.height);
            var c := TightLength(q, 1, size);
            && TightNeed(s, q) == 1 + c.header + c.data
            && (TightNeed(s, q) <= |q| && !TightFails(s, q) ==>
                var (zs, out) := TightData(codec, s, q[0], size, q[1 + c.header..1 + c.header + c.data]);
                TightDraw(codec, s, q) == (zs, RgbOf(s, out)))
  {
    hide TightLength, TightData;
  }

  lemma PaletteNeeds<Z>(s: Fbu<Z>, q: seq<Byte>)
    requires |q| >= 3 && TightMode(q[0]) == FilterMode
    ensures var colors := q[2] as int + 1;
            var p := 3 + colors * DEPTH;
            var c := TightLength(q, p, IndexSize(s.width, s.height, colors));
            TightNeed(s, q) == if |q| < p then p else p + c.header + c.data
  {
    hide TightLength, RowSize;
  }

  lemma PaletteDraws<Z>(codec: Codec<Z>, s: Fbu<Z>, q: seq<Byte>)
    requires |s.zlibs| == 4 && |q| >= 3 && TightMode(q[0]) == FilterMode
    requires TightNeed(s, q) <= |q| && !TightFails(s, q)
    ensures var colors := q[2] as int + 1;
            var p := 3 + colors * DEPTH;
            var size := IndexSize(s.width, s.height, colors);
            var c := TightLength(q, p, size);
            p + c.header + c.data <= |q| &&
            var (zs, out) := TightData(codec, s, q[0], size, q[p + c.header..p + c.header + c.data]);
            TightDraw(codec, s, q) == (zs, PaletteOf(s, q[3..p], out))
  {
    hide TightLength, TightData, RowSize;
  }

  lemma FillDraws<Z>(codec: Codec<Z>, s: Fbu<Z>, q: seq<Byte>)
    requires |s.zlibs| == 4 && |q| >= 1 + DEPTH && TightMode(q[0]) == FillMode
    ensures !TightFails(s, q) && TightNeed(s, q) == 1 + DEPTH
    ensures TightDraw(codec, s, q) == (s.zlibs, Some(Fill(s.x, s.y, s.width, s.height, [q[3], q[2], q[1]])))
  {
  }

  ghost predicate TightState<Z>(s: Fbu<Z>): (b: bool)
    ensures b ==> |s.zlibs| == 4 && s.rects > 0 && s.bytes > 0 && !s.dead
  {
    Valid(s) && Busy(s) && (s.encoding == TIGHT || s.encoding == TIGHT_PNG)
  }

  lemma StillNoFailure<Z>(s: Fbu<Z>, q: seq<Byte>, r: seq<Byte>)
    requires !TightFails(s, q) && |q + r| < TightNeed(s, q)
    ensures !TightFails(s, q + r)
  {
    if |q| >= 1 {
      assert (q + r)[0] == q[0];
    }
  }

  lemma TightWaits<Z>(codec: Codec<Z>, s: Fbu<Z>, q: seq<Byte>, f1: Fbu<Z>)
    requires TightState(s) && !TightFails(s, q) && |q| < TightNeed(s, q) == f1.bytes && Canon(f1) == s
    ensures Handled(codec, s, q, f1, q, [], false)
  {
    hide Handled, TightNeed, TightMode;
    forall r | |q + r| < f1.bytes ensures Step(codec, s, q + r).Wait? {
      TightNeedStable(s, q, r);
      StillNoFailure(s, q, r);
    }
    HandledWait(codec, s, q, f1);
  }

  lemma TightDies<Z>(codec: Codec<Z>, s: Fbu<Z>, q: seq<Byte>, f1: Fbu<Z>)
    requires TightState(s) && TightFails(s, q) && Canon(f1) == s.(dead := true)
    ensures Handled(codec, s, q, f1, q, [], false)
  {
    hide Handled, TightFails;
    HandledDeath(codec, s, q, f1, 0);
    assert q[0..] == q;
  }

  lemma TightDone<Z>(codec: Codec<Z>, s: Fbu<Z>, q: seq<Byte>, f1: Fbu<Z>, e: Effect)
    requires TightState(s) && !TightFails(s, q) && TightNeed(s, q) <= |q|
    requires TightDraw(codec, s, q) == (f1.zlibs, Some(e))
    requires f1 == s.(zlibs := f1.zlibs, bytes := 0, rects := s.rects - 1)
    ensures Handled(codec, s, q, f1, q[TightNeed(s, q)..], [e], true)
  {
    hide Handled, TightFails, TightDraw, TightNeed;
    assert f1.rects != 0 ==> [e] + Tail(f1) == [e];
    HandledDone(codec, s, q, f1, TightNeed(s, q), [e]);
  }

  /** The data did not decompress. */
  lemma TightSpoilt<Z>(codec: Codec<Z>, s: Fbu<Z>, q: seq<Byte>, f1: Fbu<Z>)
    requires TightState(s) && !TightFails(s, q) && TightNeed(s, q) <= |q|
    requires TightDraw(codec, s, q) == (f1.zlibs, None) && Canon(f1) == s.(zlibs := f1.zlibs, dead := true)
    ensures Handled(codec, s, q, f1, q[TightNeed(s, q)..], [], false)
  {
    hide Handled, TightFails, TightDraw, TightNeed;
    HandledDeath(codec, s, q, f1, TightNeed(s, q));
  }

  lemma SliceShifted(q: seq<Byte>, a: nat, b: nat, n: nat)
    requires a + b + n <= |q|
    ensures q[a..][b..b + n] == q[a + b..a + b + n] && q[a..][b + n..] == q[a + b + n..]
  {
  }

  lemma SliceTwice(q: seq<Byte>, a: nat, b: nat)
    requires a + b <= |q|
    ensures q[a..][..b] == q[a..a + b] && q[a..][b..] == q[a + b..]
  {
  }

  lemma MulLeft(a: nat, b: nat, c: nat)
    requires a <= b
    ensures a * c <= b * c
  {
  }

  /** How many whole lines can be drawn now */
  method LinesReady(lines: nat, len: nat, width: nat) returns (k: nat)
    requires width > 0 && len >= LineBytes(width)
    ensures k == Min(lines, len / LineBytes(width))
    ensures k <= lines && (k == 0 ==> lines == 0)
    ensures width * k * BPP == k * LineBytes(width) <= len
  {
    DivTimes(len, LineBytes(width));
    k := Min(lines, len / LineBytes(width));
    MulLeft(k, len / LineBytes(width), LineBytes(width));
    MulSwap(width, k);
  }

  // ----- slices -----

  lemma CopySlices(hdr: seq<Byte>, q: seq<Byte>)
    requires |hdr| == 12 && |q| >= 4
    ensures var all := hdr + q;
            && Be16(all, 12) == Be16(q, 0) && Be16(all, 14) == Be16(q[2..], 0) && all[16..] == q[2..][2..]
  {
  }

  lemma RreSlices(hdr: seq<Byte>, q: seq<Byte>)
    requires |hdr| == 12 && |q| >= 8
    ensures var all := hdr + q;
            && Be32(all, 12) == Be32(q, 0) && all[16..20] == q[4..][..4] && all[20..] == q[4..][4..]
  {
  }

  lemma SubSlices(q: seq<Byte>)
    requires |q| >= SUB
    ensures var a := q[4..];
            && Be16(a, 0) == Be16(q, 4) && Be16(a[2..], 0) == Be16(q, 6) && Be16(a[2..][2..], 0) == Be16(q, 8)
            && Be16(a[2..][2..][2..], 0) == Be16(q, 10) && a[2..][2..][2..][2..] == q[SUB..]
  {
  }

  lemma ColourSplits(q: seq<Byte>)
    requires 6 <= |q|
    ensures Be16(q, 0) / 256 == q[0] && Be16(q[2..], 0) / 256 == q[2] && Be16(q[2..][2..], 0) / 256 == q[4]
    ensures q[2..][2..][2..] == q[6..]
  {
  }

  lemma NextColour(done: seq<Colour>, q: seq<Byte>, i: nat, n: nat)
    requires n > 0 && i + 6 * n <= |q|
    ensures var a := q[i..];
            && done + Colours(q, i, n) == done + [Colour(a[4], a[2], a[0])] + Colours(q, i + 6, n - 1)
            && a[6..] == q[i + 6..]
  {
  }

  lemma NoColours(done: seq<Colour>, q: seq<Byte>, i: nat)
    requires i <= |q|
    ensures done + Colours(q, i, 0) == done
  {
  }

  lemma {:induction false} ColoursShift(q: seq<Byte>, i: nat, j: nat, n: nat)
    requires i + j + 6 * n <= |q|
    ensures Colours(q[i..], j, n) == Colours(q, i + j, n)
    decreases n
  {
    if n > 0 {
      ColoursShift(q, i, j + 6, n - 1);
    }
  }

  lemma {:induction false} ColoursFrom(q: seq<Byte>, i: nat, n: nat)
    requires i + 6 * n <= |q|
    ensures Colours(q[i..], 0, n) == Colours(q, i, n)
  {
    ColoursShift(q, i, 0, n);
  }

  lemma RreStalls<Z>(codec: Codec<Z>, f: Fbu<Z>, q: seq<Byte>)
    requires Valid(f) && !f.dead && f.rects > 0 && f.bytes == 0 && 12 <= |q| < 20
    requires WithHeader(f, q).encoding == RRE && WithHeader(f, q).subrects == 0
    ensures Handled(codec, f, q, WithHeader(f, q), q[12..], [], false)
  {
    hide Handled, Be16, Be32;
    HandledStall(codec, f, q, WithHeader(f, q));
  }

  lemma BeyondStream<Z>(codec: Codec<Z>, f: Fbu<Z>, stream: seq<Byte>, b: nat)
    requires b > |stream|
    ensures !TornAt(codec, f, stream, b)
  {
  }

  /** What tears nothing in a longer stream tears nothing so far, the end of the last message included. */
  lemma UntornSoFar<Z>(codec: Codec<Z>, all: seq<Byte>, data: seq<Byte>, cuts: seq<nat>, cuts': seq<nat>)
    requires cuts != [] && cuts[|cuts| - 1] == |all| && cuts <= cuts'
    requires forall i :: 0 <= i < |cuts'| ==> !TornAt(codec, Initial(codec), all + data, cuts'[i])
    ensures !TornAt(codec, Initial(codec), all + data, |all|)
    ensures forall i :: 0 <= i < |cuts| ==> !TornAt(codec, Initial(codec), all, cuts[i])
  {
    hide TornAt;
    assert cuts'[|cuts| - 1] == |all|;
    forall i | 0 <= i < |cuts|
      ensures !TornAt(codec, Initial(codec), all, cuts[i])
    {
      assert cuts'[i] == cuts[i];
      var b := cuts[i];
      if b <= |all| {
        var q, a := all[..b], all[b..];
        assert all == q + a && all + data == q + (a + data);
        ShorterStream(codec, Initial(codec), q, a, data);
      } else {
        BeyondStream(codec, Initial(codec), all, b);
      }
    }
  }
}
