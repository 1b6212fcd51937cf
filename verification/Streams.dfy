/**
 Whole DEFLATE streams: blocks of all three types one after the other, calls of uncompress one after the
 other, when the block loop stops too early, and why cutting the history is never observed.
 */
module Streams {
  import opened Common
  import opened Bits
  import opened Huffman
  import opened Trees
  import opened Inflate
  import opened Deflate

  datatype Block =
    | StoredBlock(data: seq<Byte>)
    | FixedBlock(es: seq<Element>)
    | DynamicBlock(code: DynamicCode, es: seq<Element>)

  // ----- the fixed codes can be used -----

  lemma {:induction false} StaysComplete(lens: seq<nat>, k: nat, l: nat)
    requires k <= l
    requires First(lens, k) + Used(lens, k) == Pow2(k)
    requires forall j :: k < j <= l ==> Used(lens, j) == 0
    ensures First(lens, l) + Used(lens, l) == Pow2(l)
    decreases l
  {
    if k < l {
      StaysComplete(lens, k, l - 1);
    }
  }

  lemma FixedUsable()
    ensures Usable(FixedLiterals()) && Usable(FixedDistances())
  {
    hide FixedLiterals, FixedDistances, KraftSum, First, Used;
    var f, g := FixedLiterals(), FixedDistances();
    FixedLiteralShape();
    FixedDistanceShape();
    Pow2Values();
    forall j: nat ensures Used(f, j) == if j == 7 then 24 else if j == 8 then 152 else if j == 9 then 112 else 0 {
      UsedFixedLiterals(j);
    }
    forall j: nat ensures Used(g, j) == if j == 5 then 32 else 0 {
      UsedFixedDistances(j);
    }
    StaysComplete(f, 9, 15);
    StaysComplete(g, 5, 15);
    FirstIsKraft(f, 15);
    FirstIsKraft(g, 15);
  }

  // ----- one block -----

  /** The tokens of the block make sense after `hist`. */
  ghost predicate GoodBlock(b: Block, hist: seq<int>) {
    match b
    case StoredBlock(data) => |data| <= 0xffff
    case FixedBlock(es) => WellFormed(es, FixedLiterals(), FixedDistances(), hist)
    case DynamicBlock(d, es) =>
      && d.Valid() && Usable(d.Ll()) && Usable(d.Dl()) && HasCode(d.Ll(), 256)
      && WellFormed(es, d.Ll(), d.Dl(), hist)
  }

  ghost function BlockOut(b: Block, hist: seq<int>): seq<int>
    requires GoodBlock(b, hist)
  {
    match b
    case StoredBlock(data) => seq(|data|, i requires 0 <= i < |data| => data[i])
    case FixedBlock(es) => Expand(es, FixedLiterals(), FixedDistances(), hist)
    case DynamicBlock(d, es) => Expand(es, d.Ll(), d.Dl(), hist)
  }

  function BlockType(b: Block): nat {
    match b case StoredBlock(_) => 0 case FixedBlock(_) => 1 case DynamicBlock(_, _) => 2
  }

  lemma FixedHasAll()
    ensures forall s :: 0 <= s < 288 ==> HasCode(FixedLiterals(), s)
  {
  }

  /** The bits of a compressed block after its three header bits */
  ghost function BodyBits(b: Block, hist: seq<int>): seq<nat>
    requires GoodBlock(b, hist) && !b.StoredBlock?
  {
    FixedHasAll();
    match b
    case FixedBlock(es) => ContentBits(es, FixedLiterals(), FixedDistances(), hist)
    case DynamicBlock(d, es) => d.HeaderBits() + ContentBits(es, d.Ll(), d.Dl(), hist)
  }

  /** The byte boundary at or after bit p */
  function NextByte(p: nat): nat {
    if p % 8 == 0 then p / 8 else p / 8 + 1
  }

  lemma AlignedIsNext(p: nat)
    ensures AlignedIndex(p) == NextByte(p)
  {
  }

  /** A stored block at byte a: LEN, its complement, and the data (section 3.2.4 of RFC 1951) */
  ghost predicate StoredAt(src: seq<Byte>, a: nat, data: seq<Byte>) {
    && a + 4 + |data| <= |src|
    && src[a] == |data| % 256 && src[a + 1] == |data| / 256
    && src[a + 2] == 255 - |data| % 256 && src[a + 3] == 255 - |data| / 256
    && src[a + 4..a + 4 + |data|] == data
  }

  /** The source holds block b, with the given final flag, from bit p on. */
  ghost predicate HoldsBlock(src: seq<Byte>, p: nat, final: bool, b: Block, hist: seq<int>)
    requires GoodBlock(b, hist)
  {
    && Bit(src, p) == (if final then 1 else 0)
    && Lsb(src, p + 1, 2) == BlockType(b)
    && (if b.StoredBlock? then StoredAt(src, NextByte(p + 3), b.data) else Spells(src, p + 3, BodyBits(b, hist)))
  }

  ghost function BlockEnd(p: nat, b: Block, hist: seq<int>): nat
    requires GoodBlock(b, hist)
  {
    if b.StoredBlock? then 8 * (NextByte(p + 3) + 4 + |b.data|) else p + 3 + |BodyBits(b, hist)|
  }

  /** The farthest bit up to which reading a compressed block at bit p fetches the source */
  ghost function BlockReach(p: nat, b: Block, hist: seq<int>): nat
    requires GoodBlock(b, hist) && !b.StoredBlock?
  {
    match b
    case FixedBlock(es) => Farther(p + 25, ContentReach(es, FixedLiterals(), FixedDistances(), hist, p + 3))
    case DynamicBlock(d, es) =>
      var q := p + 3 + |d.HeaderBits()|;
      Farther(Farther(p + 25, d.HeaderReach(p + 3)), ContentReach(es, d.Ll(), d.Dl(), hist, q))
  }

  /** The index of the next byte to fetch after a block; a stored block gives back what was read ahead. */
  ghost function EndIndex(p: nat, si: nat, b: Block, hist: seq<int>): nat
    requires GoodBlock(b, hist)
  {
    if b.StoredBlock? then NextByte(p + 3) + 4 + |b.data| else Later(si, BlockReach(p, b, hist))
  }

  function Tokens(b: Block): nat {
    match b case StoredBlock(_) => 0 case FixedBlock(es) => |es| case DynamicBlock(_, es) => |es|
  }

  /** The three header bits of a block */
  lemma HeaderReaches(c: Cursor)
    ensures ReadCursor(BitCursor(c), 2).si == Later(c.si, Pos(c) + 25)
  {
    hide ReadCursor;
    ReadReaches(BitCursor(c), 2);
  }

  lemma StoredDecodes(src: seq<Byte>, c: Cursor, data: seq<Byte>)
    requires StoredAt(src, AlignedIndex(Pos(c)), data)
    ensures Stored(src, c) == Finished(Ok, seq(|data|, i requires 0 <= i < |data| => data[i]),
                                       Cursor(AlignedIndex(Pos(c)) + 4 + |data|, 0))
    ensures Pos(Stored(src, c).c) == 8 * (AlignedIndex(Pos(c)) + 4 + |data|)
  {
    var a := AlignedIndex(Pos(c));
    hide AlignedIndex;
    forall i | 0 <= i < |data| ensures SourceAt(src, a + 4 + i) == data[i] {
      assert src[a + 4..a + 4 + |data|][i] == src[a + 4 + i];
    }
    assert SourceSlice(src, a + 4, |data|) == seq(|data|, i requires 0 <= i < |data| => data[i]);
  }

  lemma DynamicDecodes(src: seq<Byte>, c: Cursor, d: DynamicCode, es: seq<Element>, hist: seq<int>, n: nat)
    requires d.Valid() && Usable(d.Ll()) && Usable(d.Dl()) && HasCode(d.Ll(), 256)
    requires WellFormed(es, d.Ll(), d.Dl(), hist) && n > |es|
    requires Spells(src, Pos(c), d.HeaderBits() + ContentBits(es, d.Ll(), d.Dl(), hist))
    ensures var h := DynamicHeader(src, c);
            var r := BlockData(src, h.c, h.ll, h.dl, hist, n);
            && r.Finished? && r.status == Ok && r.out == Expand(es, d.Ll(), d.Dl(), hist)
            && Pos(r.c) == Pos(c) + |d.HeaderBits() + ContentBits(es, d.Ll(), d.Dl(), hist)|
            && r.c.si == Later(Later(c.si, d.HeaderReach(Pos(c))),
                               ContentReach(es, d.Ll(), d.Dl(), hist, Pos(c) + |d.HeaderBits()|))
  {
    hide ContentReach, Later, DynamicCode.HeaderReach, Spells, BlockData, DynamicHeader, ContentBits, Expand,
      WellFormed, Usable, HasCode,
      DynamicCode.Valid, DynamicCode.HeaderBits, DynamicCode.Ll, DynamicCode.Dl;
    SpellsSplit(src, Pos(c), d.HeaderBits(), ContentBits(es, d.Ll(), d.Dl(), hist));
    HeaderDecodes(src, c, d);
    BlockDecodes(src, DynamicHeader(src, c).c, d.Ll(), d.Dl(), hist, es, n);
  }

  /** Every block type inflates to its expansion and leaves the cursor at its end. */
  lemma OneBlockDecodes(src: seq<Byte>, c: Cursor, final: bool, b: Block, hist: seq<int>, n: nat)
    requires GoodBlock(b, hist) && HoldsBlock(src, Pos(c), final, b, hist) && n > Tokens(b)
    ensures var r := OneBlock(src, c, hist, n);
            && r.Finished? && r.status == Ok && r.out == BlockOut(b, hist)
            && Pos(r.c) == BlockEnd(Pos(c), b, hist) && r.c.si == EndIndex(Pos(c), c.si, b, hist)
  {
    hide Bit, Lsb, Spells, BlockData, DynamicHeader, ContentBits, Expand, WellFormed, FixedLiterals, FixedDistances,
      CodeLengths, NotOversubscribed, DynamicCode.Valid, DynamicCode.HeaderBits, DynamicCode.Ll, DynamicCode.Dl, Stored,
      AlignedIndex, NextByte, StoredAt, HasCode, ContentReach, Later, Farther, Pos, ReadCursor, BitCursor,
          DynamicCode.HeaderReach;
    var c2 := ReadCursor(BitCursor(c), 2);
    HeaderReaches(c);
    match b
    case StoredBlock(data) =>
      AlignedIsNext(Pos(c2));
      StoredDecodes(src, c2, data);
    case FixedBlock(es) =>
      FixedUsable();
      FixedHasAll();
      BlockDecodes(src, c2, FixedLiterals(), FixedDistances(), hist, es, n);
      LaterTwice(c.si, Pos(c) + 25, ContentReach(es, FixedLiterals(), FixedDistances(), hist, Pos(c2)));
    case DynamicBlock(d, es) =>
      DynamicDecodes(src, c2, d, es, hist, n);
      var q := Pos(c2) + |d.HeaderBits()|;
      LaterTwice(c.si, Pos(c) + 25, d.HeaderReach(Pos(c2)));
      LaterTwice(c.si, Farther(Pos(c) + 25, d.HeaderReach(Pos(c2))), ContentReach(es, d.Ll(), d.Dl(), hist, q));
  }

  // ----- the block loop -----

  /** The source holds the blocks from bit p on; only the last one may carry the final flag. */
  ghost predicate Holds(src: seq<Byte>, p: nat, bs: seq<Block>, final: bool, hist: seq<int>)
    decreases bs
  {
    bs != [] && GoodBlock(bs[0], hist) && HoldsBlock(src, p, final && |bs| == 1, bs[0], hist) &&
    (|bs| > 1 ==> Holds(src, BlockEnd(p, bs[0], hist), bs[1..], final, hist + BlockOut(bs[0], hist)))
  }

  ghost function Output(src: seq<Byte>, p: nat, bs: seq<Block>, final: bool, hist: seq<int>): seq<int>
    requires Holds(src, p, bs, final, hist)
    decreases bs
  {
    var o := BlockOut(bs[0], hist);
    if |bs| == 1 then o else o + Output(src, BlockEnd(p, bs[0], hist), bs[1..], final, hist + o)
  }

  ghost function End(src: seq<Byte>, p: nat, bs: seq<Block>, final: bool, hist: seq<int>): nat
    requires Holds(src, p, bs, final, hist)
    decreases bs
  {
    var q := BlockEnd(p, bs[0], hist);
    if |bs| == 1 then q else End(src, q, bs[1..], final, hist + BlockOut(bs[0], hist))
  }

  /** Every block but the last ends at least 32 bits before the end of the source. */
  ghost predicate Roomy(src: seq<Byte>, p: nat, bs: seq<Block>, final: bool, hist: seq<int>)
    requires Holds(src, p, bs, final, hist)
    decreases bs
  {
    |bs| > 1 ==>
      var q := BlockEnd(p, bs[0], hist);
      q + 32 <= 8 * |src| && Roomy(src, q, bs[1..], final, hist + BlockOut(bs[0], hist))
  }

  ghost predicate TokensBelow(bs: seq<Block>, n: nat) {
    forall i :: 0 <= i < |bs| ==> Tokens(bs[i]) < n
  }

  lemma HeldFlag(src: seq<Byte>, p: nat, final: bool, b: Block, hist: seq<int>)
    requires GoodBlock(b, hist) && HoldsBlock(src, p, final, b, hist)
    ensures Bit(src, p) == if final then 1 else 0
  {
  }

  /** uncompress inflates a stream completely when the last block is final or ends the source. */
  lemma {:induction false} StreamDecodes(src: seq<Byte>, c: Cursor, bs: seq<Block>, final: bool, hist: seq<int>, n: nat)
    requires Holds(src, Pos(c), bs, final, hist) && TokensBelow(bs, n)
    requires Roomy(src, Pos(c), bs, final, hist)
    requires final || End(src, Pos(c), bs, final, hist) > 8 * |src| - 8
    ensures var r := Blocks(src, c, hist, n);
            && r.Finished? && r.status == Ok && r.out == Output(src, Pos(c), bs, final, hist)
            && Pos(r.c) == End(src, Pos(c), bs, final, hist)
    decreases bs
  {
    hide OneBlock, HoldsBlock, BlockOut, BlockEnd, GoodBlock, Tokens;
    assert Tokens(bs[0]) < n;
    OneBlockDecodes(src, c, final && |bs| == 1, bs[0], hist, n);
    HeldFlag(src, Pos(c), final && |bs| == 1, bs[0], hist);
    var b := OneBlock(src, c, hist, n);
    if |bs| > 1 {
      assert TokensBelow(bs[1..], n);
      StreamDecodes(src, b.c, bs[1..], final, hist + b.out, n);
    }
  }

  /** How many blocks are read: the loop stops after the first one that leaves no byte to be fetched. */
  ghost function BlocksRead(src: seq<Byte>, p: nat, si: nat, bs: seq<Block>, final: bool, hist: seq<int>): (k: nat)
    requires Holds(src, p, bs, final, hist)
    ensures 1 <= k <= |bs|
    decreases bs
  {
    var i := EndIndex(p, si, bs[0], hist);
    if |bs| == 1 || i >= |src| then 1
    else 1 + BlocksRead(src, BlockEnd(p, bs[0], hist), i, bs[1..], final, hist + BlockOut(bs[0], hist))
  }

  /** After every block but the last a byte of the source is left to be fetched. */
  ghost predicate GoesOn(src: seq<Byte>, p: nat, si: nat, bs: seq<Block>, final: bool, hist: seq<int>)
    requires Holds(src, p, bs, final, hist)
    decreases bs
  {
    |bs| > 1 ==>
      var i := EndIndex(p, si, bs[0], hist);
      i < |src| && GoesOn(src, BlockEnd(p, bs[0], hist), i, bs[1..], final, hist + BlockOut(bs[0], hist))
  }

  lemma {:induction false} GoesOnReadsAll(src: seq<Byte>, p: nat, si: nat, bs: seq<Block>, final: bool, hist: seq<int>)
    requires Holds(src, p, bs, final, hist)
    ensures GoesOn(src, p, si, bs, final, hist) <==> BlocksRead(src, p, si, bs, final, hist) == |bs|
    decreases bs
  {
    hide HoldsBlock, BlockOut, GoodBlock, BlockEnd, EndIndex;
    if |bs| > 1 {
      var i := EndIndex(p, si, bs[0], hist);
      GoesOnReadsAll(src, BlockEnd(p, bs[0], hist), i, bs[1..], final, hist + BlockOut(bs[0], hist));
    }
  }

  lemma {:induction false} EndsLater(src: seq<Byte>, p: nat, bs: seq<Block>, final: bool, hist: seq<int>)
    requires Holds(src, p, bs, final, hist)
    ensures End(src, p, bs, final, hist) > p
    decreases bs
  {
    hide HoldsBlock, BlockOut, GoodBlock, BodyBits;
    if |bs| > 1 {
      EndsLater(src, BlockEnd(p, bs[0], hist), bs[1..], final, hist + BlockOut(bs[0], hist));
    }
  }

  /** The first k blocks by themselves */
  lemma {:induction false} HoldsFirst(src: seq<Byte>, p: nat, bs: seq<Block>, final: bool, hist: seq<int>, k: nat)
    requires Holds(src, p, bs, final, hist) && 1 <= k <= |bs|
    ensures Holds(src, p, bs[..k], final && k == |bs|, hist)
    ensures var e := End(src, p, bs[..k], final && k == |bs|, hist);
            if k == |bs| then e == End(src, p, bs, final, hist) else p < e < End(src, p, bs, final, hist)
    decreases bs
  {
    hide HoldsBlock, BlockOut, GoodBlock, BodyBits;
    if k == |bs| {
      assert bs[..k] == bs;
    } else {
      var q, h := BlockEnd(p, bs[0], hist), hist + BlockOut(bs[0], hist);
      if k == 1 {
        assert bs[..1][0] == bs[0];
        EndsLater(src, q, bs[1..], final, h);
      } else {
        HoldsFirst(src, q, bs[1..], final, h, k - 1);
        assert bs[..k][1..] == bs[1..][..k - 1];
      }
    }
  }

  /**
   What uncompress does with every well-formed stream: it reads the blocks BlocksRead counts, returns exactly
   their expansion, reports success, and leaves fewer than 32 bits unread if any block is left.
   */
  lemma {:induction false} BlocksDecode(src: seq<Byte>, c: Cursor, bs: seq<Block>, final: bool, hist: seq<int>, n: nat)
    requires Holds(src, Pos(c), bs, final, hist) && TokensBelow(bs, n)
    requires final || End(src, Pos(c), bs, final, hist) > 8 * |src| - 8
    ensures var r := Blocks(src, c, hist, n);
            var k := BlocksRead(src, Pos(c), c.si, bs, final, hist);
            && Holds(src, Pos(c), bs[..k], final && k == |bs|, hist)
            && r.Finished? && r.status == Ok && r.out == Output(src, Pos(c), bs[..k], final && k == |bs|, hist)
            && Pos(r.c) == End(src, Pos(c), bs[..k], final && k == |bs|, hist)
            && (k < |bs| ==> 8 * |src| - Pos(r.c) < 32)
    decreases bs
  {
    hide OneBlock, HoldsBlock, BlockOut, BlockEnd, GoodBlock, Tokens, EndIndex;
    assert Tokens(bs[0]) < n;
    OneBlockDecodes(src, c, final && |bs| == 1, bs[0], hist, n);
    HeldFlag(src, Pos(c), final && |bs| == 1, bs[0], hist);
    var b := OneBlock(src, c, hist, n);
    var k := BlocksRead(src, Pos(c), c.si, bs, final, hist);
    HoldsFirst(src, Pos(c), bs, final, hist, k);
    if k == 1 {
      assert bs[..1] == [bs[0]];
    } else {
      assert TokensBelow(bs[1..], n);
      BlocksDecode(src, b.c, bs[1..], final, hist + b.out, n);
      assert bs[..k][1..] == bs[1..][..k - 1];
    }
  }

  /**
   Exactly when uncompress gets to the end of a well-formed stream: after every block but the last a byte is
   left to be fetched. This depends on the blocks and their positions alone.
   */
  lemma CompleteIff(src: seq<Byte>, c: Cursor, bs: seq<Block>, final: bool, hist: seq<int>, n: nat)
    requires Holds(src, Pos(c), bs, final, hist) && TokensBelow(bs, n)
    requires final || End(src, Pos(c), bs, final, hist) > 8 * |src| - 8
    ensures var r := Blocks(src, c, hist, n);
            && r.Finished? && r.status == Ok
            && (Pos(r.c) == End(src, Pos(c), bs, final, hist) <==> GoesOn(src, Pos(c), c.si, bs, final, hist))
            && (GoesOn(src, Pos(c), c.si, bs, final, hist) ==> r.out == Output(src, Pos(c), bs, final, hist))
  {
    hide Blocks, Holds, Output, End, TokensBelow, GoesOn, BlocksRead;
    BlocksDecode(src, c, bs, final, hist, n);
    GoesOnReadsAll(src, Pos(c), c.si, bs, final, hist);
    HoldsFirst(src, Pos(c), bs, final, hist, BlocksRead(src, Pos(c), c.si, bs, final, hist));
    assert bs[..|bs|] == bs;
  }

  /** A stream that ends with a stored block at the end of the source: what a zlib sync flush produces. */
  ghost predicate SyncFlushed(src: seq<Byte>, p: nat, bs: seq<Block>, hist: seq<int>) {
    && Holds(src, p, bs, false, hist)
    && bs[|bs| - 1].StoredBlock?
    && End(src, p, bs, false, hist) == 8 * |src|
  }

  lemma {:induction false} SyncFlushIsRoomy(src: seq<Byte>, p: nat, bs: seq<Block>, hist: seq<int>)
    requires SyncFlushed(src, p, bs, hist)
    ensures p + 35 <= 8 * |src| && Roomy(src, p, bs, false, hist)
    decreases bs
  {
    hide HoldsBlock, GoodBlock, BlockOut;
    if |bs| > 1 {
      SyncFlushIsRoomy(src, BlockEnd(p, bs[0], hist), bs[1..], hist + BlockOut(bs[0], hist));
    }
  }

  /** Sync-flushed data is never cut short by the loop's exit test: all of it is returned. */
  lemma SyncFlushDecodes(src: seq<Byte>, c: Cursor, bs: seq<Block>, hist: seq<int>, n: nat)
    requires SyncFlushed(src, Pos(c), bs, hist) && TokensBelow(bs, n)
    ensures var r := Blocks(src, c, hist, n);
            r.Finished? && r.status == Ok && r.out == Output(src, Pos(c), bs, false, hist)
  {
    hide Holds, Roomy, Output, Blocks, TokensBelow;
    SyncFlushIsRoomy(src, Pos(c), bs, hist);
    StreamDecodes(src, c, bs, false, hist, n);
  }

  // ----- when the loop stops too early -----

  /** Where the last block that the loop reads starts */
  ghost function LastStart(src: seq<Byte>, c: Cursor, hist: seq<int>, n: nat): Cursor
    decreases 8 * |src| + 1 - Pos(c)
  {
    var b := OneBlock(src, c, hist, n);
    if b.Unfinished? || b.status != Ok || Bit(src, Pos(c)) == 1 || b.c.si >= |src| then c
    else LastStart(src, b.c, hist + b.out, n)
  }

  /** On any input, the loop ends after a block with the final flag, or with fewer than 32 bits left. */
  lemma {:induction false} ExitIsLate(src: seq<Byte>, c: Cursor, hist: seq<int>, n: nat)
    requires var r := Blocks(src, c, hist, n); r.Finished? && r.status == Ok
    ensures Bit(src, Pos(LastStart(src, c, hist, n))) == 1 || 8 * |src| - Pos(Blocks(src, c, hist, n).c) < 32
    decreases 8 * |src| + 1 - Pos(c)
  {
    hide OneBlock, Bit;
    var b := OneBlock(src, c, hist, n);
    if Bit(src, Pos(c)) != 1 && b.c.si < |src| {
      ExitIsLate(src, b.c, hist + b.out, n);
    }
  }

  /** The eight bits of a byte in stream order */
  function ByteBits(b: nat): seq<nat> {
    [b % 2, b / 2 % 2, b / 4 % 2, b / 8 % 2, b / 16 % 2, b / 32 % 2, b / 64 % 2, b / 128 % 2]
  }

  lemma BitInByte(src: seq<Byte>, k: nat, j: nat)
    requires k < |src| && j < 8
    ensures Bit(src, 8 * k + j) == ByteBits(src[k])[j]
  {
    var b: nat := src[k];
    assert (8 * k + j) / 8 == k && (8 * k + j) % 8 == j;
    assert Shr(b, 1) == b / 2;
    assert Shr(b, 2) == b / 4;
    assert Shr(b, 3) == b / 8;
    assert Shr(b, 4) == b / 16;
    assert Shr(b, 5) == b / 32;
    assert Shr(b, 6) == b / 64;
    assert Shr(b, 7) == b / 128;
  }

  lemma BytesSpell(src: seq<Byte>, k: nat)
    requires k < |src|
    ensures Spells(src, 8 * k, ByteBits(src[k]))
  {
    forall j | 0 <= j < 8 ensures Bit(src, 8 * k + j) == ByteBits(src[k])[j] {
      BitInByte(src, k, j);
    }
  }

  lemma SpellsJoin(src: seq<Byte>, p: nat, a: seq<nat>, b: seq<nat>)
    requires Spells(src, p, a) && Spells(src, p + |a|, b)
    ensures Spells(src, p, a + b)
  {
    hide Bit;
    forall i | 0 <= i < |a + b| ensures Bit(src, p + i) == (a + b)[i] {
      if i >= |a| {
        assert Bit(src, p + |a| + (i - |a|)) == b[i - |a|];
      }
    }
  }

  /** An empty block, then a final block holding the literal 0: 28 bits in all */
  function Lost(): (s: seq<Byte>)
    ensures |s| == 4
  {
    [2, 140, 1, 0]
  }

  function LostBlocks(): seq<Block> {
    [FixedBlock([]), FixedBlock([Lit(0)])]
  }

  /**
   The two block headers, the end-of-block code, the code of literal 0, end-of-block again, and four bits of
   padding
   */
  lemma LostBits()
    ensures Spells(Lost(), 0, [0, 1, 0] + ([0,0,0,0,0,0,0] + ([1, 1, 0] +
            (([0,0,1,1,0,0,0,0] + [0,0,0,0,0,0,0]) + [0,0,0,0]))))
  {
    hide Spells;
    BytesSpell(Lost(), 0);
    BytesSpell(Lost(), 1);
    BytesSpell(Lost(), 2);
    BytesSpell(Lost(), 3);
    assert ByteBits(2) == [0,1,0,0,0,0,0,0] && ByteBits(140) == [0,0,1,1,0,0,0,1];
    assert ByteBits(1) == [1,0,0,0,0,0,0,0] && ByteBits(0) == [0,0,0,0,0,0,0,0];
    hide ByteBits;
    SpellsJoin(Lost(), 0, ByteBits(2), ByteBits(140));
    SpellsJoin(Lost(), 16, ByteBits(1), ByteBits(0));
    SpellsJoin(Lost(), 0, ByteBits(2) + ByteBits(140), ByteBits(1) + ByteBits(0));
    assert [0, 1, 0] + ([0,0,0,0,0,0,0] + ([1, 1, 0] + (([0,0,1,1,0,0,0,0] + [0,0,0,0,0,0,0]) + [0,0,0,0])))
        == ([0,1,0,0,0,0,0,0] + [0,0,1,1,0,0,0,1]) + ([1,0,0,0,0,0,0,0] + [0,0,0,0,0,0,0,0]);
  }

  lemma CodeBitsValues()
    ensures CodeBits(0, 7) == [0,0,0,0,0,0,0] && CodeBits(48, 8) == [0,0,1,1,0,0,0,0]
  {
    assert CodeBits(0, 2) == [0, 0];
    assert CodeBits(0, 4) == [0, 0, 0, 0];
    assert CodeBits(0, 6) == [0, 0, 0, 0, 0, 0];
    assert CodeBits(3, 4) == [0, 0, 1, 1];
    assert CodeBits(12, 6) == [0, 0, 1, 1, 0, 0];
  }

  lemma FixedLengthsAt()
    ensures FixedLiterals()[256] == 7 && FixedLiterals()[0] == 8
  {
  }

  lemma LostCodes()
    ensures SymbolBits(FixedLiterals(), 256) == [0,0,0,0,0,0,0]
    ensures SymbolBits(FixedLiterals(), 0) == [0,0,1,1,0,0,0,0]
  {
    hide First, Count, CodeBits, FixedLiterals;
    FixedLiteralShape();
    CountFixedLiterals(256, 7);
    CountFixedLiterals(0, 8);
    CodeBitsValues();
    FixedLengthsAt();
  }

  lemma LostContents()
    ensures GoodBlock(FixedBlock([]), []) && GoodBlock(FixedBlock([Lit(0)]), [])
    ensures BodyBits(FixedBlock([]), []) == [0,0,0,0,0,0,0]
    ensures BodyBits(FixedBlock([Lit(0)]), []) == [0,0,1,1,0,0,0,0] + [0,0,0,0,0,0,0]
    ensures BlockOut(FixedBlock([]), []) == [] && BlockOut(FixedBlock([Lit(0)]), []) == [0]
  {
    hide FixedLiterals, FixedDistances, SymbolBits;
    LostCodes();
    FixedHasAll();
    var f, g := FixedLiterals(), FixedDistances();
    assert [Lit(0)][1..] == [];
    assert WellFormed([], f, g, [0]);
    assert WellFormed([Lit(0)], f, g, []);
    assert ContentBits([], f, g, [0]) == SymbolBits(f, 256);
    assert Expand([], f, g, [0]) == [];
  }

  lemma BlockFlags(src: seq<Byte>, p: nat, x: nat)
    requires Spells(src, p, [x, 1, 0])
    ensures Bit(src, p) == x && Lsb(src, p + 1, 2) == 1
  {
    hide Bit;
    assert Bit(src, p + 0) == [x, 1, 0][0] && Bit(src, p + 1) == [x, 1, 0][1] && Bit(src, p + 2) == [x, 1, 0][2];
    assert Lsb(src, p + 2, 1) == 0;
  }

  /** Lost() holds the two blocks. */
  lemma LostHolds()
    ensures GoodBlock(FixedBlock([]), []) && HoldsBlock(Lost(), 0, false, FixedBlock([]), [])
    ensures Holds(Lost(), 0, LostBlocks(), true, []) && Output(Lost(), 0, LostBlocks(), true, []) == [0]
  {
    hide Spells, GoodBlock, BodyBits, BlockOut, Bit, Lsb;
    LostContents();
    LostBits();
    var c := [0,0,0,0,0,0,0];
    var d := [0,0,1,1,0,0,0,0] + [0,0,0,0,0,0,0];
    SpellsSplit(Lost(), 0, [0, 1, 0], c + ([1, 1, 0] + (d + [0,0,0,0])));
    SpellsSplit(Lost(), 3, c, [1, 1, 0] + (d + [0,0,0,0]));
    SpellsSplit(Lost(), 10, [1, 1, 0], d + [0,0,0,0]);
    SpellsSplit(Lost(), 13, d, [0,0,0,0]);
    BlockFlags(Lost(), 0, 0);
    BlockFlags(Lost(), 10, 1);
    var a, b := FixedBlock([]), FixedBlock([Lit(0)]);
    assert HoldsBlock(Lost(), 0, false, a, []);
    assert HoldsBlock(Lost(), 10, true, b, []);
    assert [a, b][1..] == [b];
    assert Holds(Lost(), 10, [b], true, []);
    assert Output(Lost(), 10, [b], true, []) == [0];
    assert BlockEnd(0, a, []) == 10;
    assert [] + BlockOut(a, []) == [];
    assert Holds(Lost(), 0, [a, b], true, []);
  }

  lemma ReachesHeader(p: nat, b: Block, hist: seq<int>)
    requires GoodBlock(b, hist) && !b.StoredBlock?
    ensures BlockReach(p, b, hist) >= p + 25
  {
    hide ContentReach, DynamicCode.HeaderReach, GoodBlock;
  }

  /** After a non-final compressed block, bytes that its header has read ahead are not looked at again. */
  lemma ReadAheadStops(src: seq<Byte>, c: Cursor, b: Block, hist: seq<int>, n: nat)
    requires GoodBlock(b, hist) && HoldsBlock(src, Pos(c), false, b, hist) && n > Tokens(b)
    requires !b.StoredBlock? && Later(c.si, Pos(c) + 25) >= |src|
    ensures var r := Blocks(src, c, hist, n); r.Finished? && r.status == Ok && r.out == BlockOut(b, hist)
  {
    hide Bit, OneBlock, BodyBits, Spells, GoodBlock, BlockOut, BlockEnd, HoldsBlock, BlockReach;
    OneBlockDecodes(src, c, false, b, hist, n);
    HeldFlag(src, Pos(c), false, b, hist);
    ReachesHeader(Pos(c), b, hist);
  }

  /** The header of the first block of a call reads ahead four bytes. */
  lemma StartReach(offset: nat, c: Cursor)
    requires c == StartCursor(offset, true)
    ensures Later(c.si, Pos(c) + 25) == offset + 4
  {
  }

  /**
   The exit test looks at fetched bytes, not at unread bits: a short final block that has been read ahead
   is dropped. Here the stream says [0] and uncompress returns nothing, reporting success.
   */
  lemma ShortFinalBlockIsLost(n: nat)
    requires n > 0
    ensures Holds(Lost(), 0, LostBlocks(), true, []) && Output(Lost(), 0, LostBlocks(), true, []) == [0]
    ensures var r := Uncompress(Lost(), 0, [], true, n); r.Finished? && r.status == Ok && r.out == []
  {
    hide Holds, Output, HoldsBlock, GoodBlock, BlockOut, Blocks, LostBlocks, StartCursor, Lost, Later;
    LostHolds();
    LostContents();
    var c := StartCursor(0, true);
    StartReach(0, c);
    ReadAheadStops(Lost(), c, FixedBlock([]), [], n);
  }
}
