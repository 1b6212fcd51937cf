/**
 The other direction: DEFLATE encodings of token lists, dynamic headers and whole streams, and the proof
 that inflating what they spell gives back exactly their LZ77 expansion.
 */
module Deflate {
  import opened Common
  import opened Bits
  import opened Huffman
  import opened Trees
  import opened Inflate

  // ----- spelling bits -----

  ghost predicate Spells(src: seq<Byte>, p: nat, bits: seq<nat>) {
    forall i :: 0 <= i < |bits| ==> Bit(src, p + i) == bits[i]
  }

  /** A Huffman code of l bits, most significant bit first */
  function CodeBits(c: nat, l: nat): (b: seq<nat>)
    ensures |b| == l
  {
    if l == 0 then [] else CodeBits(c / 2, l - 1) + [c % 2]
  }

  /** A number in n bits, least significant bit first */
  function NumBits(v: nat, n: nat): (b: seq<nat>)
    ensures |b| == n
    decreases n
  {
    if n == 0 then [] else [v % 2] + NumBits(v / 2, n - 1)
  }

  lemma SpellsSplit(src: seq<Byte>, p: nat, a: seq<nat>, b: seq<nat>)
    requires Spells(src, p, a + b)
    ensures Spells(src, p, a) && Spells(src, p + |a|, b)
  {
    hide Bit;
    forall i | 0 <= i < |a| ensures Bit(src, p + i) == a[i] {
      assert (a + b)[i] == a[i];
    }
    forall i | 0 <= i < |b| ensures Bit(src, p + |a| + i) == b[i] {
      assert (a + b)[|a| + i] == b[i];
    }
  }

  lemma {:induction false} SpellsCode(src: seq<Byte>, p: nat, c: nat, l: nat)
    requires c < Pow2(l) && Spells(src, p, CodeBits(c, l))
    ensures Msb(src, p, l) == c
  {
    hide Bit;
    if l > 0 {
      SpellsSplit(src, p, CodeBits(c / 2, l - 1), [c % 2]);
      SpellsCode(src, p, c / 2, l - 1);
      assert Bit(src, p + (l - 1) + 0) == [c % 2][0];
    }
  }

  lemma {:induction false} SpellsNum(src: seq<Byte>, p: nat, v: nat, n: nat)
    requires v < Pow2(n) && Spells(src, p, NumBits(v, n))
    ensures Lsb(src, p, n) == v
    decreases n
  {
    hide Bit;
    if n > 0 {
      SpellsSplit(src, p, [v % 2], NumBits(v / 2, n - 1));
      SpellsNum(src, p + 1, v / 2, n - 1);
      assert Bit(src, p + 0) == [v % 2][0];
    }
  }

  // ----- symbols -----

  function SymbolBits(lens: seq<nat>, s: nat): (b: seq<nat>)
    requires s < |lens|
    ensures |b| == lens[s]
  {
    CodeBits(Code(lens, s), lens[s])
  }

  /** A code that can be used: not over-subscribed */
  ghost predicate Usable(lens: seq<nat>) {
    CodeLengths(lens) && NotOversubscribed(lens)
  }

  ghost predicate HasCode(lens: seq<nat>, s: nat) {
    s < |lens| && lens[s] > 0
  }

  /**
   decode_symbol inverts the canonical code: whatever bits follow, the code of s decodes to s and uses up
   exactly its own length.
   */
  lemma SymbolDecodes(src: seq<Byte>, c: Cursor, lens: seq<nat>, s: nat)
    requires Usable(lens) && HasCode(lens, s)
    requires Spells(src, Pos(c), SymbolBits(lens, s))
    ensures Symbol(lens, src, Pos(c)) == Some(s)
    ensures var c' := SymbolCursor(c, lens, src); Pos(c') == Pos(c) + lens[s] && c'.si == Later(c.si, Pos(c) + 16)
  {
    AdvanceReaches(c, 16, SymbolLength(lens, Symbol(lens, src, Pos(c))));
    CodeFits(lens, s);
    SpellsCode(src, Pos(c), Code(lens, s), lens[s]);
    SymbolIs(lens, src, Pos(c), s);
  }

  // ----- the tables of section 3.2.5 of RFC 1951 -----

  /** The first length each of the codes 257 to 285 stands for, and its extra bits */
  const LENGTHS: seq<nat> :=
    [3, 4, 5, 6, 7, 8, 9, 10, 11, 13, 15, 17, 19, 23, 27, 31, 35, 43, 51, 59, 67, 83, 99, 115, 131, 163, 195,
     227, 258]

  const LENGTH_BITS: seq<nat> :=
    [0, 0, 0, 0, 0, 0, 0, 0, 1, 1, 1, 1, 2, 2, 2, 2, 3, 3, 3, 3, 4, 4, 4, 4, 5, 5, 5, 5, 0]

  /** The first distance each of the codes 0 to 29 stands for, and its extra bits */
  const DISTANCES: seq<nat> :=
    [1, 2, 3, 4, 5, 7, 9, 13, 17, 25, 33, 49, 65, 97, 129, 193, 257, 385, 513, 769, 1025, 1537, 2049, 3073,
     4097, 6145, 8193, 12289, 16385, 24577]

  const DISTANCE_BITS: seq<nat> :=
    [0, 0, 0, 0, 1, 1, 2, 2, 3, 3, 4, 4, 5, 5, 6, 6, 7, 7, 8, 8, 9, 9, 10, 10, 11, 11, 12, 12, 13, 13]

  function RfcLength(k: nat): nat
    requires k < 29
  {
    LENGTHS[k]
  }

  function RfcLengthBits(k: nat): (n: nat)
    requires k < 29
    ensures n <= 5
  {
    LENGTH_BITS[k]
  }

  function RfcDistance(k: nat): nat
    requires k < 30
  {
    DISTANCES[k]
  }

  function RfcDistanceBits(k: nat): (n: nat)
    requires k < 30
    ensures n <= 13
  {
    DISTANCE_BITS[k]
  }

  lemma BitsAgree(k: nat)
    ensures k < 29 ==> LengthBits(k) == RfcLengthBits(k)
    ensures k < 30 ==> DistBits(k) == RfcDistanceBits(k)
  {
  }

  lemma NextLength(k: nat)
    requires k < 27
    ensures RfcLength(k + 1) == RfcLength(k) + Pow2(ExtraBits(k, 4))
  {
  }

  lemma NextDistance(k: nat)
    requires k < 29
    ensures RfcDistance(k + 1) == RfcDistance(k) + Pow2(ExtraBits(k, 2))
  {
    Pow2Values();
  }

  /** The tables that the decoder computes are those of the standard. */
  lemma {:induction false} LengthsAgree(k: nat)
    requires k < 29
    ensures LengthBase(k) == RfcLength(k) && (k < 28 ==> Base(k, 4, 3) == RfcLength(k))
  {
    if 0 < k < 28 {
      LengthsAgree(k - 1);
      NextLength(k - 1);
    }
  }

  lemma {:induction false} DistancesAgree(k: nat)
    requires k < 30
    ensures DistBase(k) == RfcDistance(k)
  {
    if k > 0 {
      DistancesAgree(k - 1);
      NextDistance(k - 1);
    }
  }

  // ----- literals and matches -----

  datatype Element =
    | Lit(b: nat)
    | Match(lsym: nat, lextra: nat, dsym: nat, dextra: nat)
  {
    function Length(): nat
      requires Match? && lsym < 29
    {
      RfcLength(lsym) + lextra
    }

    function Distance(): nat
      requires Match? && dsym < 30
    {
      RfcDistance(dsym) + dextra
    }
  }

  ghost predicate Encodable(e: Element, ll: seq<nat>, dl: seq<nat>) {
    match e
    case Lit(b) => b < 256 && HasCode(ll, b)
    case Match(lsym, lextra, dsym, dextra) =>
      && lsym < 29 && HasCode(ll, 257 + lsym) && lextra < Pow2(RfcLengthBits(lsym))
      && dsym < 30 && HasCode(dl, dsym) && dextra < Pow2(RfcDistanceBits(dsym))
  }

  ghost function ElementBits(e: Element, ll: seq<nat>, dl: seq<nat>): seq<nat>
    requires Encodable(e, ll, dl)
  {
    match e
    case Lit(b) => SymbolBits(ll, b)
    case Match(lsym, lextra, dsym, dextra) =>
      SymbolBits(ll, 257 + lsym) + (NumBits(lextra, RfcLengthBits(lsym)) +
      (SymbolBits(dl, dsym) + NumBits(dextra, RfcDistanceBits(dsym))))
  }

  /** The same for what follows the length symbol of a match, at bit p */
  ghost function MatchReach(e: Element, dl: seq<nat>, p: nat): nat
    requires e.Match? && e.lsym < 29 && e.dsym < 30 && e.dsym < |dl|
  {
    var p2 := p + RfcLengthBits(e.lsym);
    Farther(Farther(ReadReach(p, RfcLengthBits(e.lsym)), p2 + 16), ReadReach(p2 + dl[e.dsym], RfcDistanceBits(e.dsym)))
  }

  /** The farthest bit up to which reading an element at bit p fetches the source */
  ghost function ElementReach(e: Element, ll: seq<nat>, dl: seq<nat>, p: nat): nat
    requires Encodable(e, ll, dl)
  {
    if e.Lit? then p + 16 else Farther(p + 16, MatchReach(e, dl, p + ll[257 + e.lsym]))
  }

  /** What an element means after `hist`: a literal byte, or bytes already produced */
  ghost predicate InHistory(e: Element, hist: seq<int>) {
    e.Match? ==> e.dsym < 30 && e.lsym < 29 && 1 <= e.Distance() <= |hist|
  }

  ghost function ElementOut(e: Element, hist: seq<int>): seq<int>
    requires InHistory(e, hist)
  {
    if e.Lit? then [e.b] else CopyOut(hist, e.Length(), e.Distance())
  }

  lemma LiteralDecodes(src: seq<Byte>, c: Cursor, ll: seq<nat>, dl: seq<nat>, e: Element)
    requires Usable(ll) && CodeLengths(dl) && e.Lit? && Encodable(e, ll, dl)
    requires Spells(src, Pos(c), ElementBits(e, ll, dl))
    ensures var r := NextToken(src, c, ll, dl);
            && Pos(r.c) == Pos(c) + |ElementBits(e, ll, dl)| && r.c.si == Later(c.si, ElementReach(e, ll, dl, Pos(c)))
            && r.tok == Literal(e.b)
  {
    hide Symbol, SymbolCursor, MatchToken, Spells, CodeLengths, NotOversubscribed, SymbolBits, Later;
    SymbolDecodes(src, c, ll, e.b);
  }

  /** What follows a length symbol: its extra bits, the distance symbol and its extra bits */
  lemma MatchDecodes(src: seq<Byte>, c1: Cursor, ll: seq<nat>, dl: seq<nat>, e: Element)
    requires Usable(dl) && e.Match? && Encodable(e, ll, dl)
    requires Spells(src, Pos(c1), NumBits(e.lextra, RfcLengthBits(e.lsym)) +
                                  (SymbolBits(dl, e.dsym) + NumBits(e.dextra, RfcDistanceBits(e.dsym))))
    ensures var r := MatchToken(src, c1, Some(257 + e.lsym), dl);
            && Pos(r.c) == Pos(c1) + RfcLengthBits(e.lsym) + dl[e.dsym] + RfcDistanceBits(e.dsym)
            && r.c.si == Later(c1.si, MatchReach(e, dl, Pos(c1)))
            && r.tok == Copy(e.Length(), e.Distance())
  {
    hide Symbol, SymbolCursor, ReadCursor, Spells, Lsb, LengthBase, DistBase, CodeLengths, NotOversubscribed,
      SymbolBits, NumBits, Later, LengthBits, DistBits, Pow2, Farther, Pos, ReadReach,
      RfcLength, RfcDistance, RfcLengthBits, RfcDistanceBits;
    BitsAgree(e.lsym);
    BitsAgree(e.dsym);
    LengthsAgree(e.lsym);
    DistancesAgree(e.dsym);
    var len, dist, ext := NumBits(e.lextra, RfcLengthBits(e.lsym)), SymbolBits(dl, e.dsym),
        NumBits(e.dextra, RfcDistanceBits(e.dsym));
    SpellsSplit(src, Pos(c1), len, dist + ext);
    SpellsNum(src, Pos(c1), e.lextra, RfcLengthBits(e.lsym));
    var c2 := ReadCursor(c1, RfcLengthBits(e.lsym));
    SpellsSplit(src, Pos(c2), dist, ext);
    SymbolDecodes(src, c2, dl, e.dsym);
    var c3 := SymbolCursor(c2, dl, src);
    SpellsNum(src, Pos(c3), e.dextra, RfcDistanceBits(e.dsym));
    ReadReaches(c1, RfcLengthBits(e.lsym));
    ReadReaches(c3, RfcDistanceBits(e.dsym));
    var a := ReadReach(Pos(c1), RfcLengthBits(e.lsym));
    LaterTwice(c1.si, a, Pos(c2) + 16);
    LaterTwice(c1.si, Farther(a, Pos(c2) + 16), ReadReach(Pos(c3), RfcDistanceBits(e.dsym)));
  }

  lemma CopyDecodes(src: seq<Byte>, c: Cursor, ll: seq<nat>, dl: seq<nat>, e: Element)
    requires Usable(ll) && Usable(dl) && e.Match? && Encodable(e, ll, dl)
    requires Spells(src, Pos(c), ElementBits(e, ll, dl))
    ensures var r := NextToken(src, c, ll, dl);
            && Pos(r.c) == Pos(c) + |ElementBits(e, ll, dl)| && r.c.si == Later(c.si, ElementReach(e, ll, dl, Pos(c)))
            && r.tok == Copy(e.Length(), e.Distance())
  {
    hide Symbol, SymbolCursor, MatchToken, Spells, CodeLengths, NotOversubscribed, SymbolBits, NumBits, Later,
      MatchReach,
      Farther, Pos, RfcLength, RfcDistance, RfcLengthBits, RfcDistanceBits;
    var len, ext := NumBits(e.lextra, RfcLengthBits(e.lsym)), NumBits(e.dextra, RfcDistanceBits(e.dsym));
    SpellsSplit(src, Pos(c), SymbolBits(ll, 257 + e.lsym), len + (SymbolBits(dl, e.dsym) + ext));
    SymbolDecodes(src, c, ll, 257 + e.lsym);
    var c1 := SymbolCursor(c, ll, src);
    MatchDecodes(src, c1, ll, dl, e);
    LaterTwice(c.si, Pos(c) + 16, MatchReach(e, dl, Pos(c1)));
  }

  lemma ElementDecodes(src: seq<Byte>, c: Cursor, ll: seq<nat>, dl: seq<nat>, e: Element)
    requires Usable(ll) && Usable(dl) && Encodable(e, ll, dl)
    requires Spells(src, Pos(c), ElementBits(e, ll, dl))
    ensures var r := NextToken(src, c, ll, dl);
            && Pos(r.c) == Pos(c) + |ElementBits(e, ll, dl)| && r.c.si == Later(c.si, ElementReach(e, ll, dl, Pos(c)))
            && r.tok == if e.Lit? then Literal(e.b) else Copy(e.Length(), e.Distance())
  {
    hide NextToken, ElementBits, ElementReach, Spells, Later, NotOversubscribed;
    if e.Lit? {
      LiteralDecodes(src, c, ll, dl, e);
    } else {
      CopyDecodes(src, c, ll, dl, e);
    }
  }

  // ----- compressed block contents -----

  /** Every element is encodable and copies only what is already there. */
  ghost predicate WellFormed(es: seq<Element>, ll: seq<nat>, dl: seq<nat>, hist: seq<int>) {
    es == [] ||
    (&& Encodable(es[0], ll, dl) && InHistory(es[0], hist)
     && WellFormed(es[1..], ll, dl, hist + ElementOut(es[0], hist)))
  }

  /** The LZ77 expansion */
  ghost function Expand(es: seq<Element>, ll: seq<nat>, dl: seq<nat>, hist: seq<int>): seq<int>
    requires WellFormed(es, ll, dl, hist)
  {
    if es == [] then []
    else
      var o := ElementOut(es[0], hist);
      o + Expand(es[1..], ll, dl, hist + o)
  }

  ghost function ContentBits(es: seq<Element>, ll: seq<nat>, dl: seq<nat>, hist: seq<int>): seq<nat>
    requires WellFormed(es, ll, dl, hist) && HasCode(ll, 256)
  {
    if es == [] then SymbolBits(ll, 256)
    else ElementBits(es[0], ll, dl) + ContentBits(es[1..], ll, dl, hist + ElementOut(es[0], hist))
  }

  /** The farthest bit up to which reading a block's contents at bit p fetches the source */
  ghost function ContentReach(es: seq<Element>, ll: seq<nat>, dl: seq<nat>, hist: seq<int>, p: nat): nat
    requires WellFormed(es, ll, dl, hist)
  {
    if es == [] then p + 16
    else
      var q := p + |ElementBits(es[0], ll, dl)|;
      Farther(ElementReach(es[0], ll, dl, p), ContentReach(es[1..], ll, dl, hist + ElementOut(es[0], hist), q))
  }

  lemma EndDecodes(src: seq<Byte>, c: Cursor, ll: seq<nat>, dl: seq<nat>)
    requires Usable(ll) && CodeLengths(dl) && HasCode(ll, 256) && Spells(src, Pos(c), SymbolBits(ll, 256))
    ensures var r := NextToken(src, c, ll, dl);
            r.tok == EndOfBlock && Pos(r.c) == Pos(c) + |SymbolBits(ll, 256)| && r.c.si == Later(c.si, Pos(c) + 16)
  {
    hide Symbol, SymbolCursor, Spells, CodeLengths, NotOversubscribed, MatchToken, SymbolBits;
    SymbolDecodes(src, c, ll, 256);
  }

  /** Inflating an encoded token list appends its expansion and stops at the bit after end-of-block. */
  lemma {:induction false} BlockDecodes(src: seq<Byte>, c: Cursor, ll: seq<nat>, dl: seq<nat>, hist: seq<int>,
          es: seq<Element>, n: nat)
    requires Usable(ll) && Usable(dl) && HasCode(ll, 256)
    requires WellFormed(es, ll, dl, hist) && n > |es|
    requires Spells(src, Pos(c), ContentBits(es, ll, dl, hist))
    ensures var r := BlockData(src, c, ll, dl, hist, n);
            && r.Finished? && r.status == Ok && r.out == Expand(es, ll, dl, hist)
            && Pos(r.c) == Pos(c) + |ContentBits(es, ll, dl, hist)|
            && r.c.si == Later(c.si, ContentReach(es, ll, dl, hist, Pos(c)))
    decreases es
  {
    hide NextToken, Spells, Encodable, ElementBits, CopyOut, CodeLengths, NotOversubscribed, SymbolBits, HasCode,
      ElementReach, Later, Farther, Pos;
    if es == [] {
      EndDecodes(src, c, ll, dl);
    } else {
      var o := ElementOut(es[0], hist);
      SpellsSplit(src, Pos(c), ElementBits(es[0], ll, dl), ContentBits(es[1..], ll, dl, hist + o));
      ElementDecodes(src, c, ll, dl, es[0]);
      var t := NextToken(src, c, ll, dl);
      BlockDecodes(src, t.c, ll, dl, hist + o, es[1..], n - 1);
      LaterTwice(c.si, ElementReach(es[0], ll, dl, Pos(c)), ContentReach(es[1..], ll, dl, hist + o, Pos(t.c)));
      assert TokenOut(t.tok, hist) == o;
    }
  }

  // ----- every length and distance has a code -----

  lemma {:induction false} FindBase(x: nat, k: nat, delta: nat, first: nat) returns (i: nat)
    requires delta > 0 && first <= x < Base(k, delta, first)
    ensures i < k && Base(i, delta, first) <= x < Base(i, delta, first) + Pow2(ExtraBits(i, delta))
  {
    if x < Base(k - 1, delta, first) {
      i := FindBase(x, k - 1, delta, first);
    } else {
      i := k - 1;
    }
  }

  lemma {:induction false} LengthBaseQuad(j: nat)
    requires j > 0
    ensures Base(4 * j, 4, 3) == 3 + Pow2(j + 1)
  {
    var i := 4 * j;
    assert Base(i, 4, 3) == Base(i - 1, 4, 3) + Pow2(ExtraBits(i - 1, 4));
    assert Base(i - 1, 4, 3) == Base(i - 2, 4, 3) + Pow2(ExtraBits(i - 2, 4));
    assert Base(i - 2, 4, 3) == Base(i - 3, 4, 3) + Pow2(ExtraBits(i - 3, 4));
    assert Base(i - 3, 4, 3) == Base(i - 4, 4, 3) + Pow2(ExtraBits(i - 4, 4));
    if j == 1 {
      assert Base(0, 4, 3) == 3 && Pow2(0) == 1 && Pow2(2) == 4;
    } else {
      LengthBaseQuad(j - 1);
      assert ExtraBits(i - 1, 4) == ExtraBits(i - 2, 4) == ExtraBits(i - 3, 4) == ExtraBits(i - 4, 4) == j - 2;
      assert Pow2(j + 1) == 2 * Pow2(j) && Pow2(j) == 2 * Pow2(j - 1) && Pow2(j - 1) == 2 * Pow2(j - 2);
    }
  }

  /** Every match DEFLATE allows can be written as an element. */
  lemma MatchHasElement(len: nat, dist: nat) returns (e: Element)
    requires 3 <= len <= 258 && 1 <= dist <= 32768
    ensures e.Match? && e.lsym < 29 && e.dsym < 30
    ensures e.lextra < Pow2(RfcLengthBits(e.lsym)) && e.dextra < Pow2(RfcDistanceBits(e.dsym))
    ensures e.Length() == len && e.Distance() == dist
  {
    hide RfcLength, RfcDistance, RfcLengthBits, RfcDistanceBits;
    LengthBaseQuad(7);
    Pow2Values();
    var l := FindBase(len, 28, 4, 3);
    DistBaseEven(15);
    var d := FindBase(dist, 30, 2, 1);
    BitsAgree(l);
    BitsAgree(d);
    LengthsAgree(l);
    DistancesAgree(d);
    e := Match(l, len - Base(l, 4, 3), d, dist - Base(d, 2, 1));
  }

  lemma LengthTop(k: nat)
    requires k < 29
    ensures 3 <= RfcLength(k) && RfcLength(k) + Pow2(RfcLengthBits(k)) <= 259
    ensures k == 28 ==> RfcLength(k) == 258 && Pow2(RfcLengthBits(k)) == 1
  {
    Pow2Values();
  }

  lemma DistanceTop(k: nat)
    requires k < 30
    ensures 1 <= RfcDistance(k) && RfcDistance(k) + Pow2(RfcDistanceBits(k)) <= 32769
  {
    Pow2Values();
  }

  /** Every match that can be encoded has a length of 3 to 258 and a distance of 1 to 32768; code 285 is 258. */
  lemma MatchInRange(e: Element, ll: seq<nat>, dl: seq<nat>)
    requires e.Match? && Encodable(e, ll, dl)
    ensures 3 <= e.Length() <= 258 && 1 <= e.Distance() <= 32768
    ensures 257 + e.lsym == 285 ==> e.Length() == 258
  {
    LengthTop(e.lsym);
    DistanceTop(e.dsym);
  }

  // ----- dynamic headers -----

  datatype RunSymbol =
    | One(v: nat)            // one code length
    | CopyPrevious(extra: nat)
    | ShortZeros(extra: nat)
    | LongZeros(extra: nat)
  {
    function Symbol(): nat {
      match this case One(v) => v case CopyPrevious(_) => 16 case ShortZeros(_) => 17 case LongZeros(_) => 18
    }

    function Extra(): seq<nat> {
      match this
      case One(_) => []
      case CopyPrevious(x) => NumBits(x, 2)
      case ShortZeros(x) => NumBits(x, 3)
      case LongZeros(x) => NumBits(x, 7)
    }

    predicate InRange() {
      match this
      case One(v) => v <= 15
      case CopyPrevious(x) => x < 4
      case ShortZeros(x) => x < 8
      case LongZeros(x) => x < 128
    }

    /** The code lengths it stands for, after `acc` */
    function Lengths(acc: seq<nat>): (r: seq<nat>)
      ensures |r| >= 1
    {
      match this
      case One(v) => [v]
      case CopyPrevious(x) => Repeat(if |acc| == 0 then 0 else acc[|acc| - 1], x + 3)
      case ShortZeros(x) => Repeat(0, x + 3)
      case LongZeros(x) => Repeat(0, x + 11)
    }
  }

  ghost predicate RunsCoded(runs: seq<RunSymbol>, meta: seq<nat>) {
    forall i :: 0 <= i < |runs| ==> runs[i].InRange() && HasCode(meta, runs[i].Symbol())
  }

  function ExpandRuns(runs: seq<RunSymbol>, acc: seq<nat>): (r: seq<nat>)
    ensures |r| >= |acc| + |runs|
    decreases runs
  {
    if runs == [] then acc else ExpandRuns(runs[1..], acc + runs[0].Lengths(acc))
  }

  ghost function RunBits(runs: seq<RunSymbol>, meta: seq<nat>): seq<nat>
    requires RunsCoded(runs, meta)
  {
    if runs == [] then []
    else SymbolBits(meta, runs[0].Symbol()) + (runs[0].Extra() + RunBits(runs[1..], meta))
  }

  function RunReach(x: RunSymbol, meta: seq<nat>, p: nat): nat
    requires x.Symbol() < |meta|
  {
    Farther(p + 16, ReadReach(p + meta[x.Symbol()], |x.Extra()|))
  }

  ghost function RunsReach(runs: seq<RunSymbol>, meta: seq<nat>, p: nat): nat
    requires RunsCoded(runs, meta)
  {
    if runs == [] then 0
    else
      var q := p + meta[runs[0].Symbol()] + |runs[0].Extra()|;
      Farther(RunReach(runs[0], meta, p), RunsReach(runs[1..], meta, q))
  }

  lemma RunDecodes(src: seq<Byte>, c: Cursor, meta: seq<nat>, acc: seq<nat>, x: RunSymbol)
    requires |meta| == 19 && Usable(meta) && x.InRange() && HasCode(meta, x.Symbol())
    requires Spells(src, Pos(c), SymbolBits(meta, x.Symbol())) && Spells(src, Pos(c) + meta[x.Symbol()], x.Extra())
    ensures var r := ReadRun(src, c, meta, acc);
            && r.lens == x.Lengths(acc) && Pos(r.c) == Pos(c) + meta[x.Symbol()] + |x.Extra()|
            && r.c.si == Later(c.si, RunReach(x, meta, Pos(c)))
  {
    hide Symbol, SymbolCursor, ReadCursor, Spells, Lsb, CodeLengths, NotOversubscribed, SymbolBits, NumBits;
    SymbolDecodes(src, c, meta, x.Symbol());
    var c1 := SymbolCursor(c, meta, src);
    Pow2Values();
    ReadReaches(c1, |x.Extra()|);
    LaterTwice(c.si, Pos(c) + 16, ReadReach(Pos(c1), |x.Extra()|));
    match x
    case One(_) =>
    case CopyPrevious(e) => SpellsNum(src, Pos(c1), e, 2);
    case ShortZeros(e) => SpellsNum(src, Pos(c1), e, 3);
    case LongZeros(e) => SpellsNum(src, Pos(c1), e, 7);
  }

  /** Reading encoded runs gives their expansion; a run may cross from the literal into the distance lengths. */
  lemma {:induction false} RunsDecode(src: seq<Byte>, c: Cursor, meta: seq<nat>, target: nat, acc: seq<nat>,
          runs: seq<RunSymbol>)
    requires |meta| == 19 && Usable(meta) && RunsCoded(runs, meta)
    requires forall k :: 0 <= k < |acc| ==> acc[k] <= MAXBITS
    requires |ExpandRuns(runs, acc)| == target
    requires Spells(src, Pos(c), RunBits(runs, meta))
    ensures var r := ReadLengths(src, c, meta, target, acc);
            && r.0 == ExpandRuns(runs, acc) && Pos(r.1) == Pos(c) + |RunBits(runs, meta)|
            && r.1.si == Later(c.si, RunsReach(runs, meta, Pos(c)))
    decreases runs
  {
    hide Spells, CodeLengths, NotOversubscribed, SymbolBits, ReadRun, RunReach, Later,
      RunSymbol.Lengths, RunSymbol.Extra, RunSymbol.Symbol, RunSymbol.InRange;
    if runs == [] {
      LaterTwice(c.si, 0, 0);
    } else {
      var x := runs[0];
      assert RunsCoded(runs[1..], meta);
      SpellsSplit(src, Pos(c), SymbolBits(meta, x.Symbol()), x.Extra() + RunBits(runs[1..], meta));
      SpellsSplit(src, Pos(c) + meta[x.Symbol()], x.Extra(), RunBits(runs[1..], meta));
      RunDecodes(src, c, meta, acc, x);
      var r := ReadRun(src, c, meta, acc);
      RunsDecode(src, r.c, meta, target, acc + r.lens, runs[1..]);
      LaterTwice(c.si, RunReach(x, meta, Pos(c)), RunsReach(runs[1..], meta, Pos(r.c)));
    }
  }

  /**
   The order in which section 3.2.7 of RFC 1951 sends the code lengths of the code-length alphabet: the three
   repeat codes, zero, and then outwards from the middle of 1 to 15.
   */
  function Sent(j: nat): (s: nat)
    requires j < 19
    ensures s < 19
  {
    if j < 3 then 16 + j else if j == 3 then 0 else if j % 2 == 0 then 8 + (j - 4) / 2 else 7 - (j - 5) / 2
  }

  /** The first hclen code lengths of the code-length alphabet, in transmission order from i on */
  function MetaBits(meta: seq<nat>, i: nat, hclen: nat): (b: seq<nat>)
    requires |meta| == 19 && i <= hclen <= 19
    ensures |b| == 3 * (hclen - i)
    decreases hclen - i
  {
    if i == hclen then [] else NumBits(meta[Sent(i)], 3) + MetaBits(meta, i + 1, hclen)
  }

  /** Each of the count entries is a read of three bits. */
  function MetaReach(count: nat, p: nat): nat {
    if count == 0 then 0 else Farther(p + 24, MetaReach(count - 1, p + 3))
  }

  /** `meta` with only the first i transmitted entries filled in */
  ghost predicate Partial(acc: seq<nat>, meta: seq<nat>, i: nat)
    requires |acc| == 19 && |meta| == 19 && i <= 19
  {
    forall j :: 0 <= j < 19 ==> acc[Sent(j)] == if j < i then meta[Sent(j)] else 0
  }

  /** Each symbol is sent once. */
  lemma SentOnce(j: nat, k: nat)
    requires j < 19 && k < 19 && j != k
    ensures Sent(j) != Sent(k)
  {
  }

  lemma SentAt(s: nat) returns (j: nat)
    requires s < 19
    ensures j < 19 && Sent(j) == s
  {
    j := if s >= 16 then s - 16 else if s == 0 then 3 else if s >= 8 then 2 * s - 12 else 19 - 2 * s;
  }

  /** The decoder's table is the order of transmission. */
  lemma ClcidxIsOrder(j: nat)
    requires j < 19
    ensures CLCIDX[j] == Sent(j)
  {
  }

  lemma PartialStart(meta: seq<nat>)
    requires |meta| == 19
    ensures Partial(Repeat(0, 19), meta, 0)
  {
  }

  lemma PartialNext(acc: seq<nat>, meta: seq<nat>, i: nat)
    requires |acc| == 19 && |meta| == 19 && i < 19 && Partial(acc, meta, i)
    ensures Partial(acc[Sent(i) := meta[Sent(i)]], meta, i + 1)
  {
    hide Sent;
    forall j | 0 <= j < 19 && j != i
      ensures Sent(j) != Sent(i)
    {
      SentOnce(j, i);
    }
  }

  lemma PartialDone(acc: seq<nat>, meta: seq<nat>, i: nat)
    requires |acc| == 19 && |meta| == 19 && i <= 19 && Partial(acc, meta, i) && Partial(meta, meta, i)
    ensures acc == meta
  {
    hide Sent;
    forall s | 0 <= s < 19
      ensures acc[s] == meta[s]
    {
      var j := SentAt(s);
      assert acc[Sent(j)] == meta[Sent(j)];
    }
  }

  lemma {:induction false} MetaDecodes(src: seq<Byte>, c: Cursor, meta: seq<nat>, i: nat, hclen: nat, acc: seq<nat>)
    requires |meta| == 19 && |acc| == 19 && i <= hclen <= 19
    requires forall k :: 0 <= k < 19 ==> meta[k] <= 7 && acc[k] <= 7
    requires Partial(acc, meta, i) && Partial(meta, meta, hclen)
    requires Spells(src, Pos(c), MetaBits(meta, i, hclen))
    ensures var r := ReadMetaLengths(src, c, i, hclen, acc);
            r.0 == meta && Pos(r.1) == Pos(c) + |MetaBits(meta, i, hclen)|
    decreases hclen - i
  {
    hide Spells, Lsb, NumBits, Partial, ReadCursor;
    if i == hclen {
      PartialDone(acc, meta, i);
    } else {
      PartialNext(acc, meta, i);
      ClcidxIsOrder(i);
      var v := meta[Sent(i)];
      SpellsSplit(src, Pos(c), NumBits(v, 3), MetaBits(meta, i + 1, hclen));
      assert Pow2(3) == 8;
      SpellsNum(src, Pos(c), v, 3);
      MetaDecodes(src, ReadCursor(c, 3), meta, i + 1, hclen, acc[Sent(i) := v]);
    }
  }

  lemma NextMeta(src: seq<Byte>, c: Cursor, i: nat, hclen: nat, acc: seq<nat>) returns (next: seq<nat>)
    requires i < hclen <= 19 && |acc| == 19 && forall k :: 0 <= k < 19 ==> acc[k] <= 7
    ensures |next| == 19 && (forall k :: 0 <= k < 19 ==> next[k] <= 7)
    ensures ReadMetaLengths(src, c, i, hclen, acc) == ReadMetaLengths(src, ReadCursor(c, 3), i + 1, hclen, next)
  {
    hide Lsb, ReadCursor, ReadMetaLengths;
    UnfoldMeta(src, c, i, hclen, acc);
    next := acc[CLCIDX[i] := Lsb(src, Pos(c), 3)];
  }

  lemma {:induction false} MetaReaches(src: seq<Byte>, c: Cursor, i: nat, hclen: nat, acc: seq<nat>)
    requires i <= hclen <= 19 && |acc| == 19 && forall k :: 0 <= k < 19 ==> acc[k] <= 7
    ensures ReadMetaLengths(src, c, i, hclen, acc).1.si == Later(c.si, MetaReach(hclen - i, Pos(c)))
    decreases hclen - i
  {
    hide ReadCursor, ReadMetaLengths, Later;
    if i == hclen {
      UnfoldMeta(src, c, i, hclen, acc);
      LaterTwice(c.si, 0, 0);
    } else {
      var next := NextMeta(src, c, i, hclen, acc);
      MetaReaches(src, ReadCursor(c, 3), i + 1, hclen, next);
      ReadReaches(c, 3);
      LaterTwice(c.si, Pos(c) + 24, MetaReach(hclen - i - 1, Pos(c) + 3));
    }
  }

  datatype DynamicCode = DynamicCode(hlit: nat, hdist: nat, hclen: nat, meta: seq<nat>, runs: seq<RunSymbol>) {
    ghost predicate Valid() {
      && 257 <= hlit <= 288 && 1 <= hdist <= 32 && 4 <= hclen <= 19
      && |meta| == 19 && Usable(meta) && (forall k :: 0 <= k < 19 ==> meta[k] <= 7)
      && Partial(meta, meta, hclen)
      && RunsCoded(runs, meta)
      && |ExpandRuns(runs, [])| == hlit + hdist
    }

    ghost function Ll(): seq<nat>
      requires Valid()
    {
      ExpandRuns(runs, [])[..hlit]
    }

    ghost function Dl(): seq<nat>
      requires Valid()
    {
      ExpandRuns(runs, [])[hlit..]
    }

    ghost function HeaderBits(): seq<nat>
      requires Valid()
    {
      NumBits(hlit - 257, 5) + (NumBits(hdist - 1, 5) + (NumBits(hclen - 4, 4) +
      (MetaBits(meta, 0, hclen) + RunBits(runs, meta))))
    }

    /** The farthest bit up to which reading the header at bit p fetches the source */
    ghost function HeaderReach(p: nat): nat
      requires Valid()
    {
      var q := p + 14;
      Farther(Farther(p + 34, MetaReach(hclen, q)), RunsReach(runs, meta, q + 3 * hclen))
    }
  }

  lemma CountsDecode(src: seq<Byte>, c: Cursor, hlit: nat, hdist: nat, hclen: nat, rest: seq<nat>)
    requires 257 <= hlit <= 288 && 1 <= hdist <= 32 && 4 <= hclen <= 19
    requires Spells(src, Pos(c), NumBits(hlit - 257, 5) + (NumBits(hdist - 1, 5) + (NumBits(hclen - 4, 4) + rest)))
    ensures var n := ReadCounts(src, c); n.hlit == hlit && n.hdist == hdist && n.hclen == hclen
    ensures Spells(src, Pos(c) + 14, rest) && ReadCounts(src, c).c.si == Later(c.si, Pos(c) + 34)
  {
    hide Spells, Lsb, NumBits, ReadCursor;
    var c1 := ReadCursor(c, 5);
    var c2 := ReadCursor(c1, 5);
    ReadReaches(c, 5);
    ReadReaches(c1, 5);
    ReadReaches(c2, 4);
    assert Pow2(4) == 16 && Pow2(5) == 32;
    SpellsSplit(src, Pos(c), NumBits(hlit - 257, 5), NumBits(hdist - 1, 5) + (NumBits(hclen - 4, 4) + rest));
    SpellsSplit(src, Pos(c) + 5, NumBits(hdist - 1, 5), NumBits(hclen - 4, 4) + rest);
    SpellsSplit(src, Pos(c) + 10, NumBits(hclen - 4, 4), rest);
    SpellsNum(src, Pos(c), hlit - 257, 5);
    SpellsNum(src, Pos(c) + 5, hdist - 1, 5);
    SpellsNum(src, Pos(c) + 10, hclen - 4, 4);
  }

  /** decode_trees recovers the code lengths of both alphabets from every well-formed dynamic header. */
  lemma HeaderDecodes(src: seq<Byte>, c: Cursor, d: DynamicCode)
    requires d.Valid() && Spells(src, Pos(c), d.HeaderBits())
    ensures var h := DynamicHeader(src, c);
            && h.ll == d.Ll() && h.dl == d.Dl() && Pos(h.c) == Pos(c) + |d.HeaderBits()|
            && h.c.si == Later(c.si, d.HeaderReach(Pos(c)))
  {
    hide Spells, Usable, RunBits, RunsCoded, ReadLengths, ReadMetaLengths, MetaBits, Partial, ReadCounts, NumBits,
      RunsReach, MetaReach, Later, Farther, Pos;
    var e := MetaBits(d.meta, 0, d.hclen);
    var f := RunBits(d.runs, d.meta);
    CountsDecode(src, c, d.hlit, d.hdist, d.hclen, e + f);
    SpellsSplit(src, Pos(c) + 14, e, f);
    var n := ReadCounts(src, c);
    PartialStart(d.meta);
    MetaDecodes(src, n.c, d.meta, 0, d.hclen, Repeat(0, 19));
    MetaReaches(src, n.c, 0, d.hclen, Repeat(0, 19));
    var m := ReadMetaLengths(src, n.c, 0, d.hclen, Repeat(0, 19));
    RunsDecode(src, m.1, d.meta, d.hlit + d.hdist, [], d.runs);
    LaterTwice(c.si, Pos(c) + 34, MetaReach(d.hclen, Pos(c) + 14));
    LaterTwice(c.si, Farther(Pos(c) + 34, MetaReach(d.hclen, Pos(c) + 14)),
               RunsReach(d.runs, d.meta, Pos(c) + 14 + 3 * d.hclen));
  }
}
