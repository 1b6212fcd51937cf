/**
 What the inflate decoder computes, on stream positions instead of buffers and on code lengths instead
 of tables. Every input is covered: malformed codes, distances before the start of the history, reads
 past the end of the source. The class `Tinf` is proved to compute exactly this.

 `UNDEFINED` stands for JavaScript's undefined in output data: a stored block copies it from beyond the
 end of the source.
 */
module Inflate {
  import opened Common
  import opened Bits
  import opened Huffman
  import opened Trees

  const WINDOW_SIZE := 32768
  // ----- cursor: next byte to fetch and number of bits read ahead -----

  datatype RawCursor = Cursor(si: nat, bc: nat)

  /** At most 31 bits are buffered, and only bits that were fetched. */
  type Cursor = c: RawCursor | c.bc <= 31 && c.bc <= 8 * c.si witness Cursor(0, 0)

  /** The logical bit position: everything fetched except what is still buffered */
  function Pos(c: Cursor): nat {
    8 * c.si - c.bc
  }

  /** Bytes fetched to buffer at least `min` bits */
  function Fetched(bc: nat, min: nat): nat {
    if bc < min then (min - bc + 7) / 8 else 0
  }

  function BitCursor(c: Cursor): (r: Cursor)
    ensures Pos(r) == Pos(c) + 1
  {
    if c.bc == 0 then Cursor(c.si + 1, 7) else Cursor(c.si, c.bc - 1)
  }

  /** Consuming n bits after buffering at least `min` */
  function Advance(c: Cursor, min: nat, n: nat): (r: Cursor)
    requires n <= min <= 24
    ensures Pos(r) == Pos(c) + n
  {
    var f := Fetched(c.bc, min);
    Cursor(c.si + f, c.bc + 8 * f - n)
  }

  function ReadCursor(c: Cursor, num: nat): (r: Cursor)
    requires num <= 16
    ensures Pos(r) == Pos(c) + num
  {
    if num == 0 then c else Advance(c, 24, num)
  }

  /** How far a read of `num` bits at p reads ahead; nothing is fetched for none. */
  function ReadReach(p: nat, num: nat): nat {
    if num == 0 then 0 else p + 24
  }

  function Farther(a: nat, b: nat): nat { if a < b then b else a }

  /** The byte index after reading ahead to bit `reach`; bytes fetched earlier stay fetched. */
  function Later(si: nat, reach: nat): (r: nat)
    ensures r >= si
  {
    Farther(si, (reach + 7) / 8)
  }

  /** The fetch index depends on bit positions alone, not on how the bits were buffered. */
  lemma AdvanceReaches(c: Cursor, min: nat, n: nat)
    requires n <= min <= 24
    ensures Advance(c, min, n).si == Later(c.si, Pos(c) + min)
  {
  }

  lemma LaterTwice(si: nat, a: nat, b: nat)
    ensures Later(Later(si, a), b) == Later(si, Farther(a, b)) && Later(si, 0) == si
  {
  }

  lemma ReadReaches(c: Cursor, num: nat)
    requires num <= 16
    ensures ReadCursor(c, num).si == Later(c.si, ReadReach(Pos(c), num))
  {
    hide Advance, Pos;
    if num > 0 {
      AdvanceReaches(c, 24, num);
    } else {
      LaterTwice(c.si, 0, 0);
    }
  }

  /** An unmatched code consumes 16 bits. */
  function SymbolLength(lens: seq<nat>, r: Option<nat>): (l: nat)
    requires CodeLengths(lens)
    requires r.Some? ==> r.value < |lens| && lens[r.value] > 0
    ensures 1 <= l <= 16
  {
    if r.Some? then lens[r.value] else 16
  }

  ghost function SymbolCursor(c: Cursor, lens: seq<nat>, src: seq<Byte>): (r: Cursor)
    requires CodeLengths(lens)
    ensures Pos(r) > Pos(c)
  {
    Advance(c, 16, SymbolLength(lens, Symbol(lens, src, Pos(c))))
  }

  // ----- length and distance codes (section 3.2.5 of RFC 1951) -----

  function ExtraBits(i: nat, delta: nat): nat
    requires delta > 0
  {
    if i < delta then 0 else (i - delta) / delta
  }

  function Base(i: nat, delta: nat, first: nat): nat
    requires delta > 0
  {
    if i == 0 then first else Base(i - 1, delta, first) + Pow2(ExtraBits(i - 1, delta))
  }

  function LengthBits(k: nat): (n: nat)
    requires k < 30
    ensures n <= 6
  {
    if k == 28 then 0 else ExtraBits(k, 4)
  }

  function LengthBase(k: nat): nat
    requires k < 30
  {
    if k == 28 then 258 else Base(k, 4, 3)
  }

  function DistBits(k: nat): (n: nat)
    requires k < 30
    ensures n <= 13
  {
    ExtraBits(k, 2)
  }

  function DistBase(k: nat): nat
    requires k < 30
  {
    Base(k, 2, 1)
  }

  lemma {:induction false} DistBaseEven(j: nat)
    requires j > 0
    ensures Base(2 * j, 2, 1) == 1 + Pow2(j)
  {
    if j == 1 {
      assert Base(1, 2, 1) == 2;
    } else {
      DistBaseEven(j - 1);
      assert Base(2 * j - 1, 2, 1) == Base(2 * j - 2, 2, 1) + Pow2(ExtraBits(2 * j - 2, 2));
      assert ExtraBits(2 * j - 2, 2) == j - 2 && ExtraBits(2 * j - 1, 2) == j - 2;
    }
  }

  lemma {:induction false} BaseMonotone(i: nat, j: nat, delta: nat, first: nat)
    requires i <= j && delta > 0
    ensures Base(i, delta, first) <= Base(j, delta, first)
    ensures i < j ==> Base(i, delta, first) + Pow2(ExtraBits(i, delta)) <= Base(j, delta, first)
    decreases j
  {
    if i < j {
      BaseMonotone(i, j - 1, delta, first);
    }
  }

  /** No distance code reaches beyond the window. */
  lemma DistanceInWindow(k: nat, extra: nat)
    requires k < 30 && extra < Pow2(DistBits(k))
    ensures 1 <= DistBase(k) + extra <= WINDOW_SIZE
  {
    BaseMonotone(0, k, 2, 1);
    BaseMonotone(k, 30, 2, 1);
    DistBaseEven(15);
    Pow2Values();
  }

  // ----- tokens -----

  datatype Token =
    | Literal(b: nat)
    | Copy(len: nat, dist: nat)
    | Nothing      // an undefined distance copies nothing
    | EndOfBlock

  datatype Read = Read(tok: Token, c: Cursor)

  /** The length and distance that follow literal/length symbol s. An undefined length copies nothing, like length 0. */
  ghost function MatchToken(src: seq<Byte>, c1: Cursor, s: Option<nat>, dl: seq<nat>): (r: Read)
    requires CodeLengths(dl)
    requires s.Some? ==> s.value > 256
    ensures Pos(r.c) > Pos(c1)
    ensures r.tok.Nothing? || (r.tok.Copy? && 1 <= r.tok.dist <= WINDOW_SIZE)
  {
    var k := if s.Some? then s.value - 257 else 30;
    var len := if k < 30 then LengthBase(k) + Lsb(src, Pos(c1), LengthBits(k)) else 0;
    var c2 := if k < 30 then ReadCursor(c1, LengthBits(k)) else c1;
    var d := Symbol(dl, src, Pos(c2));
    var c3 := SymbolCursor(c2, dl, src);
    if d.Some? && d.value < 30 then
      LsbBound(src, Pos(c3), DistBits(d.value));
      DistanceInWindow(d.value, Lsb(src, Pos(c3), DistBits(d.value)));
      Read(Copy(len, DistBase(d.value) + Lsb(src, Pos(c3), DistBits(d.value))), ReadCursor(c3, DistBits(d.value)))
    else Read(Nothing, c3)
  }

  /** One round of the loop in inflate_block_data */
  ghost function NextToken(src: seq<Byte>, c: Cursor, ll: seq<nat>, dl: seq<nat>): (r: Read)
    requires CodeLengths(ll) && CodeLengths(dl)
    ensures Pos(r.c) > Pos(c)
    ensures r.tok.Copy? ==> 1 <= r.tok.dist <= WINDOW_SIZE
    ensures r.tok.Literal? ==> r.tok.b < 256
  {
    var s := Symbol(ll, src, Pos(c));
    var c1 := SymbolCursor(c, ll, src);
    if s == Some(256) then Read(EndOfBlock, c1)
    else if s.Some? && s.value < 256 then Read(Literal(s.value), c1)
    else MatchToken(src, c1, s, dl)
  }

  /** What a copy appends: byte by byte, so it may read what it has just written. */
  function CopyOut(hist: seq<int>, len: nat, dist: nat): (out: seq<int>)
    requires 1 <= dist <= |hist|
    ensures |out| == len
    decreases len
  {
    if len == 0 then []
    else
      var b := hist[|hist| - dist];
      [b] + CopyOut(hist + [b], len - 1, dist)
  }

  /** The LZ77 equation: a copy starts with the last `dist` bytes and then repeats itself with that period. */
  lemma {:induction false} CopyIsPeriodic(hist: seq<int>, len: nat, dist: nat, i: nat)
    requires 1 <= dist <= |hist| && i < len
    ensures CopyOut(hist, len, dist)[i] == if i < dist then hist[|hist| - dist + i]
            else CopyOut(hist, len, dist)[i - dist]
    decreases len
  {
    if i > 0 {
      CopyIsPeriodic(hist + [hist[|hist| - dist]], len - 1, dist, i - 1);
    }
  }

  /** Copying from the front of the remaining match one byte at a time */
  lemma CopyOneByte(hist: seq<int>, len: nat, dist: nat)
    requires 1 <= dist <= |hist| && len > 0
    ensures var b := hist[|hist| - dist]; CopyOut(hist, len, dist) == [b] + CopyOut(hist + [b], len - 1, dist)
  {
  }

  // ----- blocks -----

  /** "Invalid zlib offset" */
  predicate Throws(tok: Token, hist: seq<int>) {
    tok.Copy? && tok.dist > |hist|
  }

  /** What a token appends to the output and to the history */
  function TokenOut(tok: Token, hist: seq<int>): seq<int>
    requires !Throws(tok, hist) && (tok.Copy? ==> tok.dist >= 1)
  {
    match tok
    case Literal(b) => [b]
    case Copy(len, dist) => CopyOut(hist, len, dist)
    case _ => []
  }

  datatype Status = Ok | DataError | Thrown

  datatype Outcome =
    | Unfinished    // no end-of-block code within the given number of tokens
    | Finished(status: Status, out: seq<int>, c: Cursor)
  {
    function After(before: seq<int>): Outcome {
      if Unfinished? then Unfinished else Finished(status, before + out, c)
    }
  }

  lemma AfterAfter(r: Outcome, a: seq<int>, b: seq<int>)
    ensures r.After(b).After(a) == r.After(a + b)
  {
    if r.Finished? { assert a + (b + r.out) == a + b + r.out; }
  }

  /** inflate_block_data, cut off after n tokens; `hist` is everything already in the history. */
  ghost function BlockData(src: seq<Byte>, c: Cursor, ll: seq<nat>, dl: seq<nat>, hist: seq<int>, n: nat): (r: Outcome)
    requires CodeLengths(ll) && CodeLengths(dl)
    ensures r.Finished? ==> Pos(r.c) > Pos(c)
    decreases n
  {
    if n == 0 then Unfinished
    else
      var t := NextToken(src, c, ll, dl);
      if t.tok.EndOfBlock? then Finished(Ok, [], t.c)
      else if Throws(t.tok, hist) then Finished(Thrown, [], t.c)
      else
        var more := TokenOut(t.tok, hist);
        BlockData(src, t.c, ll, dl, hist + more, n - 1).After(more)
  }

  function SourceAt(src: seq<Byte>, i: nat): int {
    if i < |src| then src[i] else UNDEFINED
  }

  function SourceSlice(src: seq<Byte>, i: nat, n: nat): (s: seq<int>)
    ensures |s| == n
  {
    seq(n, k requires 0 <= k < n => SourceAt(src, i + k))
  }

  /** The byte at which a stored block's header starts */
  function AlignedIndex(pos: nat): nat {
    (pos + 7) / 8
  }

  function Le16(lo: Byte, hi: Byte): (v: nat)
    ensures v <= 0xffff
  {
    var l: int, h: int := lo, hi;
    256 * h + l
  }

  /** LEN, or none when it lies beyond the source */
  function StoredLength(src: seq<Byte>, a: nat): Option<nat> {
    if a + 1 < |src| then Some(Le16(src[a], src[a + 1])) else None
  }

  /** `~invlength & 0xffff`; an undefined complement gives 0xffff. */
  function StoredCheck(src: seq<Byte>, a: nat): nat {
    if a + 3 < |src| then 0xffff - Le16(src[a + 2], src[a + 3]) else 0xffff
  }

  /** inflate_uncompressed_block (section 3.2.4 of RFC 1951) */
  function Stored(src: seq<Byte>, c: Cursor): (r: Outcome)
    ensures r.Finished? && r.status != Thrown
    ensures r.status == Ok ==> Pos(r.c) > Pos(c) && r.c.bc == 0
  {
    var a := AlignedIndex(Pos(c));
    var length := StoredLength(src, a);
    if length.None? || length.value != StoredCheck(src, a) then Finished(DataError, [], c)
    else Finished(Ok, SourceSlice(src, a + 4, length.value), Cursor(a + 4 + length.value, 0))
  }

  // ----- dynamic block headers (section 3.2.7 of RFC 1951) -----

  const CLCIDX: seq<nat> := [16, 17, 18, 0, 8, 7, 9, 6, 10, 5, 11, 4, 12, 3, 13, 2, 14, 1, 15]

  /** Code lengths of the code-length alphabet, read in the order of CLCIDX from the i-th on */
  function ReadMetaLengths(src: seq<Byte>, c: Cursor, i: nat, hclen: nat, acc: seq<nat>): (r: (seq<nat>, Cursor))
    requires i <= hclen <= 19 && |acc| == 19 && forall k :: 0 <= k < 19 ==> acc[k] <= 7
    ensures |r.0| == 19 && forall k :: 0 <= k < 19 ==> r.0[k] <= 7
    ensures Pos(r.1) >= Pos(c)
    decreases hclen - i
  {
    if i == hclen then (acc, c)
    else
      var v := Lsb(src, Pos(c), 3);
      LsbBound(src, Pos(c), 3);
      assert CLCIDX[i] < 19;
      ReadMetaLengths(src, ReadCursor(c, 3), i + 1, hclen, acc[CLCIDX[i] := v])
  }

  lemma UnfoldMeta(src: seq<Byte>, c: Cursor, i: nat, hclen: nat, acc: seq<nat>)
    requires i <= hclen <= 19 && |acc| == 19 && forall k :: 0 <= k < 19 ==> acc[k] <= 7
    ensures i == hclen ==> ReadMetaLengths(src, c, i, hclen, acc) == (acc, c)
    ensures i < hclen ==>
              var next := acc[CLCIDX[i] := Lsb(src, Pos(c), 3)];
              && CLCIDX[i] < 19 && (forall k :: 0 <= k < 19 ==> next[k] <= 7)
              && ReadMetaLengths(src, c, i, hclen, acc) == ReadMetaLengths(src, ReadCursor(c, 3), i + 1, hclen, next)
  {
    LsbBound(src, Pos(c), 3);
    assert Pow2(3) == 8;
  }

  /** One unfolding of `BlockData` when `done` has already been produced */
  function Repeat(v: nat, n: nat): (s: seq<nat>)
    ensures |s| == n && forall i :: 0 <= i < n ==> s[i] == v
  {
    seq(n, _ => v)
  }

  /** lengths[num - 1]; before the start it is undefined, which counts as unused. */
  function Previous(acc: seq<nat>): nat {
    if acc == [] then 0 else acc[|acc| - 1]
  }

  datatype Run = Run(c: Cursor, lens: seq<nat>)

  /** One symbol of the code-length alphabet and the code lengths it stands for */
  ghost function ReadRun(src: seq<Byte>, c: Cursor, meta: seq<nat>, acc: seq<nat>): (r: Run)
    requires |meta| == 19 && CodeLengths(meta)
    ensures 1 <= |r.lens| <= 138 && Pos(r.c) > Pos(c)
    ensures Previous(acc) <= MAXBITS ==> forall k :: 0 <= k < |r.lens| ==> r.lens[k] <= MAXBITS
  {
    var s := Symbol(meta, src, Pos(c));
    var c1 := SymbolCursor(c, meta, src);
    var p := Pos(c1);
    if s == Some(16) then LsbBound(src, p, 2); Run(ReadCursor(c1, 2), Repeat(Previous(acc), Lsb(src, p, 2) + 3))
    else if s == Some(17) then LsbBound(src, p, 3); Run(ReadCursor(c1, 3), Repeat(0, Lsb(src, p, 3) + 3))
    else if s == Some(18) then LsbBound(src, p, 7); assert Pow2(7) == 128; Run(ReadCursor(c1, 7),
        Repeat(0, Lsb(src, p, 7) + 11))
    else Run(c1, [if s.Some? then s.value else 0])
  }

  /** Run-length coded code lengths, read until at least `target` of them are known */
  ghost function ReadLengths(src: seq<Byte>, c: Cursor, meta: seq<nat>, target: nat,
          acc: seq<nat>): (r: (seq<nat>, Cursor))
    requires |meta| == 19 && CodeLengths(meta)
    requires forall k :: 0 <= k < |acc| ==> acc[k] <= MAXBITS
    ensures |r.0| >= target && acc <= r.0 && forall k :: 0 <= k < |r.0| ==> r.0[k] <= MAXBITS
    ensures Pos(r.1) >= Pos(c)
    decreases target - |acc|
  {
    if |acc| >= target then (acc, c)
    else
      var r := ReadRun(src, c, meta, acc);
      ReadLengths(src, r.c, meta, target, acc + r.lens)
  }

  datatype Counts = Counts(hlit: nat, hdist: nat, hclen: nat, c: Cursor)

  function ReadCounts(src: seq<Byte>, c: Cursor): (r: Counts)
    ensures 257 <= r.hlit <= 288 && 1 <= r.hdist <= 32 && 4 <= r.hclen <= 19 && Pos(r.c) == Pos(c) + 14
  {
    var c1 := ReadCursor(c, 5);
    var c2 := ReadCursor(c1, 5);
    LsbBound(src, Pos(c), 5);
    LsbBound(src, Pos(c1), 5);
    LsbBound(src, Pos(c2), 4);
    assert Pow2(4) == 16 && Pow2(5) == 32;
    Counts(257 + Lsb(src, Pos(c), 5), 1 + Lsb(src, Pos(c1), 5), 4 + Lsb(src, Pos(c2), 4), ReadCursor(c2, 4))
  }

  datatype Header = Header(ll: seq<nat>, dl: seq<nat>, c: Cursor)

  /** decode_trees */
  ghost function DynamicHeader(src: seq<Byte>, c: Cursor): (h: Header)
    ensures CodeLengths(h.ll) && CodeLengths(h.dl)
    ensures Pos(h.c) >= Pos(c)
  {
    var n := ReadCounts(src, c);
    var meta := ReadMetaLengths(src, n.c, 0, n.hclen, Repeat(0, 19));
    var lens := ReadLengths(src, meta.1, meta.0, n.hlit + n.hdist, []);
    Header(lens.0[..n.hlit], lens.0[n.hlit..n.hlit + n.hdist], lens.1)
  }

  // ----- the whole stream -----

  ghost function OneBlock(src: seq<Byte>, c: Cursor, hist: seq<int>, n: nat): (r: Outcome)
    ensures r.Finished? && r.status == Ok ==> Pos(r.c) > Pos(c)
  {
    var c1 := BitCursor(c);
    var btype := Lsb(src, Pos(c1), 2);
    var c2 := ReadCursor(c1, 2);
    if btype == 0 then Stored(src, c2)
    else if btype == 1 then BlockData(src, c2, FixedLiterals(), FixedDistances(), hist, n)
    else if btype == 2 then
      var h := DynamicHeader(src, c2);
      BlockData(src, h.c, h.ll, h.dl, hist, n)
    else Finished(DataError, [], c2)
  }

  /** The block loop of uncompress. It goes on while bytes are left to fetch, whatever is still buffered. */
  ghost function Blocks(src: seq<Byte>, c: Cursor, hist: seq<int>, n: nat): (r: Outcome)
    decreases 8 * |src| + 1 - Pos(c)
  {
    var b := OneBlock(src, c, hist, n);
    if b.Unfinished? || b.status != Ok then b
    else if Bit(src, Pos(c)) == 1 || b.c.si >= |src| then b
    else Blocks(src, b.c, hist + b.out, n).After(b.out)
  }

  /** Where the first block of a call starts: the two bytes of the zlib header are skipped once per stream. */
  function StartCursor(offset: nat, headerSeen: bool): (c: Cursor)
    ensures Pos(c) == 8 * offset + if headerSeen then 0 else 16
  {
    if headerSeen then Cursor(offset, 0) else ReadCursor(Cursor(offset, 0), 16)
  }

  /** One call of uncompress on a decoder with history `hist` */
  ghost function Uncompress(src: seq<Byte>, offset: nat, hist: seq<int>, headerSeen: bool, n: nat): Outcome {
    Blocks(src, StartCursor(offset, headerSeen), hist, n)
  }

  /** history.slice(-WINDOW_SIZE) */
  function Window(hist: seq<int>): seq<int> {
    if |hist| <= WINDOW_SIZE then hist else hist[|hist| - WINDOW_SIZE..]
  }

  /** The history a call leaves behind: it is cut only on success. */
  function HistoryAfter(hist: seq<int>, r: Outcome): seq<int>
    requires r.Finished?
  {
    if r.status == Ok then Window(hist + r.out) else hist + r.out
  }
}
