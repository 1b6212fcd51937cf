/**
 The streaming inflate decoder TINF (novnc/include/jsunzip.js) with its buffers, tables and history,
 proved to compute `Inflate.Uncompress`.
 */
module TinfDecoder {
  import opened Common
  import opened Bits
  import opened Huffman
  import opened Trees
  import opened Inflate

  datatype Round = Again | Ended | Threw

  /** The bits table of build_bits_base */
  method BuildBits(bits: array<int>, delta: nat)
    requires bits.Length == 30 && 0 < delta <= 30
    modifies bits
    ensures forall k :: 0 <= k < 30 ==> bits[k] == ExtraBits(k, delta)
  {
    for i := 0 to delta
      invariant forall k :: 0 <= k < i ==> bits[k] == 0
    {
      bits[i] := 0;
    }
    assert forall k :: 0 <= k < delta ==> bits[k] == ExtraBits(k, delta);
    for i := 0 to 30 - delta
      invariant forall k :: 0 <= k < i + delta ==> bits[k] == ExtraBits(k, delta)
    {
      assert ExtraBits(i + delta, delta) == i / delta;
      hide ExtraBits;
      bits[i + delta] := i / delta;
    }
  }

  lemma BaseStarts(delta: nat, first: nat)
    requires delta > 0
    ensures Base(0, delta, first) == first
  {
  }

  lemma {:induction false} ShlOne(n: nat)
    ensures Shl(1, n) == Pow2(n)
  {
    if n > 0 { ShlOne(n - 1); }
  }

  lemma BaseGrows(i: nat, delta: nat, first: nat)
    requires delta > 0
    ensures Base(i + 1, delta, first) == Base(i, delta, first) + Shl(1, ExtraBits(i, delta))
  {
    ShlOne(ExtraBits(i, delta));
  }

  /** build_bits_base */
  method BuildBitsBase(bits: array<int>, base: array<int>, delta: nat, first: nat)
    requires bits.Length == 30 && base.Length == 30 && bits != base && 0 < delta <= 30
    modifies bits, base
    ensures forall k :: 0 <= k < 30 ==> bits[k] == ExtraBits(k, delta)
    ensures forall k :: 0 <= k < 30 ==> base[k] == Base(k, delta, first)
  {
    BuildBits(bits, delta);
    hide Pow2, Shl, ExtraBits, Base;
    var sum := first;
    BaseStarts(delta, first);
    for i := 0 to 30
      modifies base
      invariant sum == Base(i, delta, first)
      invariant forall k :: 0 <= k < i ==> base[k] == Base(k, delta, first)
    {
      base[i] := sum;
      BaseGrows(i, delta, first);
      sum := sum + Shl(1, bits[i]);
    }
  }

  /** The length and distance tables are those of RFC 1951, section 3.2.5. */
  ghost predicate CodeTables(lengthBits: array<int>, lengthBase: array<int>, distBits: array<int>, distBase: array<int>)
    reads lengthBits, lengthBase, distBits, distBase
  {
    && lengthBits.Length == 30 && lengthBase.Length == 30 && distBits.Length == 30 && distBase.Length == 30
    && (forall k :: 0 <= k < 30 ==> lengthBits[k] == LengthBits(k) && lengthBase[k] == LengthBase(k))
    && (forall k :: 0 <= k < 30 ==> distBits[k] == DistBits(k) && distBase[k] == DistBase(k))
  }

  /** The table part of init */
  method BuildCodeTables(lengthBits: array<int>, lengthBase: array<int>, distBits: array<int>, distBase: array<int>)
    requires lengthBits.Length == 30 && lengthBase.Length == 30 && distBits.Length == 30 && distBase.Length == 30
    requires lengthBits != lengthBase && distBits != distBase
    requires lengthBits != distBits && lengthBits != distBase && lengthBase != distBits && lengthBase != distBase
    modifies lengthBits, lengthBase, distBits, distBase
    ensures CodeTables(lengthBits, lengthBase, distBits, distBase)
  {
    hide ExtraBits, Base;
    BuildBitsBase(lengthBits, lengthBase, 4, 3);
    BuildBitsBase(distBits, distBase, 2, 1);
    lengthBits[28] := 0;
    lengthBase[28] := 258;
  }

  /** The static tables of the decoder, filled once by init */
  class Tables {
    const sltree: Tree
    const sdtree: Tree
    const lengthBits: array<int>
    const lengthBase: array<int>
    const distBits: array<int>
    const distBase: array<int>

    ghost const arrays: set<object>

    ghost predicate Right()
      reads arrays
    {
      && {sltree.table, sltree.trans, sdtree.table, sdtree.trans, lengthBits, lengthBase, distBits, distBase} <= arrays
      && sltree.Represents(FixedLiterals()) && sdtree.Represents(FixedDistances())
      && CodeTables(lengthBits, lengthBase, distBits, distBase)
    }

    constructor ()
      ensures Right() && fresh(arrays)
    {
      var lt := new Tree();
      var dt := new Tree();
      var lb, ls, db, ds := new int[30], new int[30], new int[30], new int[30];
      sltree, sdtree := lt, dt;
      lengthBits, lengthBase, distBits, distBase := lb, ls, db, ds;
      arrays := {lt.table, lt.trans, dt.table, dt.trans, lb, ls, db, ds};
      new;
      hide Tree.Represents, CodeTables, FixedLiterals, FixedDistances;
      BuildFixedTrees(lt, dt);
      BuildCodeTables(lb, ls, db, ds);
    }
  }

  lemma EmptyPlus(a: seq<int>)
    ensures [] + a == a
  {
  }

  lemma Assoc(a: seq<int>, b: seq<int>, c: seq<int>)
    ensures a + b + c == a + (b + c)
  {
  }

  /** One unfolding of `Blocks` when `done` has already been produced */
  lemma UnfoldBlocks(src: seq<Byte>, c: Cursor, hist: seq<int>, n: nat, done: seq<int>)
    requires Blocks(src, c, hist, n).Finished?
    ensures OneBlock(src, c, hist, n).Finished?
    ensures var b := OneBlock(src, c, hist, n);
            var all := Blocks(src, c, hist, n).After(done);
            if b.status != Ok || Bit(src, Pos(c)) == 1 || b.c.si >= |src|
                then all == Finished(b.status, done + b.out, b.c)
            else
              var rest := Blocks(src, b.c, hist + b.out, n);
              rest.Finished? && all == rest.After(done + b.out) && Pos(c) < Pos(b.c) < 8 * |src|
  {
    var b := OneBlock(src, c, hist, n);
    if b.status == Ok && Bit(src, Pos(c)) != 1 && b.c.si < |src| {
      AfterAfter(Blocks(src, b.c, hist + b.out, n), done, b.out);
    }
  }

  lemma UnfoldLengths(src: seq<Byte>, c: Cursor, meta: seq<nat>, target: nat, acc: seq<nat>)
    requires |meta| == 19 && CodeLengths(meta)
    requires forall k :: 0 <= k < |acc| ==> acc[k] <= MAXBITS
    ensures |acc| >= target ==> ReadLengths(src, c, meta, target, acc) == (acc, c)
    ensures |acc| < target ==>
              var r := ReadRun(src, c, meta, acc);
              && (forall k :: 0 <= k < |acc + r.lens| ==> (acc + r.lens)[k] <= MAXBITS)
              && ReadLengths(src, c, meta, target, acc) == ReadLengths(src, r.c, meta, target, acc + r.lens)
  {
  }

  lemma UnfoldBlock(src: seq<Byte>, c: Cursor, ll: seq<nat>, dl: seq<nat>, hist: seq<int>, n: nat, done: seq<int>)
    requires CodeLengths(ll) && CodeLengths(dl)
    requires BlockData(src, c, ll, dl, hist, n).Finished?
    ensures n > 0
    ensures var t := NextToken(src, c, ll, dl);
            var b := BlockData(src, c, ll, dl, hist, n).After(done);
            if t.tok.EndOfBlock? then b == Finished(Ok, done, t.c)
            else if Throws(t.tok, hist) then b == Finished(Thrown, done, t.c)
            else
              var more := TokenOut(t.tok, hist);
              var rest := BlockData(src, t.c, ll, dl, hist + more, n - 1);
              rest.Finished? && b == rest.After(done + more)
  {
    var t := NextToken(src, c, ll, dl);
    if !t.tok.EndOfBlock? && !Throws(t.tok, hist) {
      var more := TokenOut(t.tok, hist);
      AfterAfter(BlockData(src, t.c, ll, dl, hist + more, n - 1), done, more);
    }
  }

  lemma CopyNothing(hist: seq<int>, dist: nat)
    requires 1 <= dist <= |hist|
    ensures CopyOut(hist, 0, dist) == []
  {
  }

  lemma AdvanceIs(c: Cursor, min: nat, n: nat, si: nat, bc: nat)
    requires n <= min <= 24
    requires si == c.si + Fetched(c.bc, min) && 8 * si - bc == Pos(c) + n
    ensures Advance(c, min, n) == Cursor(si, bc)
  {
  }

  lemma NoBits(src: seq<Byte>, p: nat)
    ensures Lsb(src, p, 0) == 0
  {
  }

  /** The decoder's `cur`: how far the l-bit prefix lies above the last code of length l */
  ghost function Excess(lens: seq<nat>, src: seq<Byte>, p: nat, l: nat): int {
    Msb(src, p, l) - First(lens, l) - Used(lens, l)
  }

  /** No prefix shorter than l is a code. */
  ghost predicate Undecided(lens: seq<nat>, src: seq<Byte>, p: nat, l: nat) {
    forall k :: 0 <= k < l ==> Excess(lens, src, p, k) >= 0
  }

  lemma StartCode(lens: seq<nat>, src: seq<Byte>, p: nat)
    ensures Excess(lens, src, p, 0) == 0 && Shorter(lens, 1) == 0 && Undecided(lens, src, p, 0)
  {
  }

  /** How the decoder's running values move when the prefix grows by one bit */
  lemma LengthenCode(lens: seq<nat>, src: seq<Byte>, p: nat, l: nat)
    requires Undecided(lens, src, p, l) && Excess(lens, src, p, l) >= 0
    ensures Undecided(lens, src, p, l + 1) && Reachable(lens, l + 1)
    ensures Excess(lens, src, p, l + 1) == 2 * Excess(lens, src, p, l) + Bit(src, p + l) - Used(lens, l + 1)
    ensures Shorter(lens, l + 2) == Shorter(lens, l + 1) + Used(lens, l + 1)
  {
    MsbBound(src, p, l);
  }

  /** When no prefix falls below the end of the codes of its length, no code starts the stream. */
  lemma NoMatch(lens: seq<nat>, src: seq<Byte>, p: nat)
    requires CodeLengths(lens) && Undecided(lens, src, p, 16)
    ensures Symbol(lens, src, p) == None
  {
    if Symbol(lens, src, p).Some? {
      var s := Symbol(lens, src, p).value;
      assert Excess(lens, src, p, lens[s]) < 0 by { RankBound(lens, s); }
      assert false;
    }
  }

  /** The first prefix that does is the code of a symbol, and the tables hold it where the decoder looks. */
  lemma MatchAt(lens: seq<nat>, src: seq<Byte>, p: nat, l: nat, trans: seq<int>) returns (s: nat)
    requires CodeLengths(lens) && 1 <= l <= 15
    requires Undecided(lens, src, p, l) && Excess(lens, src, p, l) < 0
    requires Placed(lens, |lens|, trans)
    ensures s < |lens| && lens[s] == l && Symbol(lens, src, p) == Some(s)
    ensures 0 <= Shorter(lens, l + 1) + Excess(lens, src, p, l) < 288
    ensures trans[Shorter(lens, l + 1) + Excess(lens, src, p, l)] == s
  {
    assert Excess(lens, src, p, l - 1) >= 0;
    s := FindRank(lens, l, Msb(src, p, l) - First(lens, l));
    SymbolIs(lens, src, p, s);
    assert Slot(lens, s) == Shorter(lens, l + 1) + Excess(lens, src, p, l);
  }

  class Tinf {
    // the fields of DATA
    var source: seq<Byte>
    var sourceIndex: nat
    var tag: nat
    var bitcount: nat
    var dest: seq<int>
    var history: seq<int>
    var ltree: Tree
    var dtree: Tree
    // the decoder's own
    var header: Option<nat>
    const tables: Tables

    /** The buffered bits are the bits of the source just before the next byte to fetch. */
    ghost predicate Synced()
      reads this
    {
      && bitcount <= 31 && bitcount <= 8 * sourceIndex
      && tag == Lsb(source, 8 * sourceIndex - bitcount, bitcount)
    }

    /** Between blocks and between calls the tag may be stale, but then nothing of it is buffered. */
    ghost predicate Rested()
      reads this
    {
      bitcount == 0 || Synced()
    }

    ghost function At(): Cursor
      reads this
      requires Rested()
    {
      Cursor(sourceIndex, bitcount)
    }

    /** The static tables are right and not the decoder itself. */
    ghost predicate Ready()
      reads tables.arrays
    {
      this !in tables.arrays && tables.Right()
    }

    /** The dynamic trees have their own arrays. */
    ghost predicate OwnTrees()
      reads this
    {
      && ltree.table.Length == 16 && ltree.trans.Length == 288 && dtree.table.Length == 16 && dtree.trans.Length == 288
      && ltree.table != dtree.table && ltree.trans != dtree.trans
      && {ltree.table, ltree.trans, dtree.table, dtree.trans} !! tables.arrays
    }

    /** What holds between calls: before the zlib header is read nothing stale is in the tag. */
    ghost predicate Valid()
      reads this, tables.arrays
    {
      Ready() && OwnTrees() && (header.None? ==> tag == 0)
    }

    /** init */
    constructor ()
      ensures Valid()
      ensures header == None && history == []
      ensures fresh(tables.arrays) && fresh({ltree.table, ltree.trans, dtree.table, dtree.trans})
    {
      tables := new Tables();
      source, sourceIndex, tag, bitcount, dest, history := [], 0, 0, 0, [], [];
      ltree := new Tree();
      dtree := new Tree();
      header := None;
      new;
      hide Tables.Right;
    }

    /** reset: a new DATA object, and the zlib header is expected again */
    method Reset()
      requires Valid()
      modifies this
      ensures Valid()
      ensures header == None && history == []
      ensures fresh({ltree.table, ltree.trans, dtree.table, dtree.trans})
    {
      hide Tables.Right;
      source, sourceIndex, tag, bitcount, dest, history := [], 0, 0, 0, [], [];
      ltree := new Tree();
      dtree := new Tree();
      header := None;
    }

    // ----- bit reader -----

    /** getbit: the only reader that may start from a stale tag */
    method GetBit() returns (bit: nat)
      requires Rested()
      modifies this`sourceIndex, this`tag, this`bitcount
      ensures Synced()
      ensures bit == Bit(source, old(Pos(At())))
      ensures At() == BitCursor(old(At()))
    {
      hide Bit, Lsb, Shr;
      ghost var p := Pos(At());
      if bitcount == 0 {
        LoadByte(source, sourceIndex);
        tag := ByteAt(source, sourceIndex);
        sourceIndex := sourceIndex + 1;
        bitcount := 7;
      } else {
        bitcount := bitcount - 1;
      }
      TakeBit(source, p, bitcount + 1);
      bit := tag % 2;
      tag := Shr(tag, 1);
    }

    /** The refill loops of read_bits and decode_symbol */
    method Fetch(min: nat)
      requires Synced() && min <= 24
      modifies this`sourceIndex, this`tag, this`bitcount
      ensures Synced() && Pos(At()) == old(Pos(At())) && bitcount >= min
      ensures sourceIndex == old(sourceIndex) + Fetched(old(bitcount), min)
    {
      hide Lsb, Or, Shl;
      ghost var p := Pos(At());
      ghost var fetched := 0;
      while bitcount < min
        invariant Synced() && Pos(At()) == p
        invariant sourceIndex == old(sourceIndex) + fetched && bitcount == old(bitcount) + 8 * fetched
        invariant fetched <= Fetched(old(bitcount), min)
        invariant bitcount < min + 8 || fetched == 0
      {
        AppendByte(source, sourceIndex, bitcount);
        tag := Or(tag, Shl(ByteAt(source, sourceIndex), bitcount));
        sourceIndex := sourceIndex + 1;
        bitcount := bitcount + 8;
        fetched := fetched + 1;
      }
    }

    /** read_bits */
    method ReadBits(num: nat, base: nat) returns (v: nat)
      requires Synced() && num <= 16
      modifies this`sourceIndex, this`tag, this`bitcount
      ensures Synced()
      ensures v == base + Lsb(source, old(Pos(At())), num)
      ensures At() == ReadCursor(old(At()), num)
    {
      hide Lsb, And, Shr, Fetched, Advance;
      ghost var c := At();
      ghost var p := Pos(c);
      if num == 0 {
        NoBits(source, p);
        return base;
      }
      Fetch(24);
      TakeBits(source, p, bitcount, num);
      assert tag == Lsb(source, p, bitcount);
      v := And(tag, Shr(0xffff, 16 - num)) + base;
      AdvanceIs(c, 24, num, sourceIndex, bitcount - num);
      tag := Shr(tag, num);
      bitcount := bitcount - num;
    }

    /** The loop of decode_symbol: codes of growing length until one matches */
    method WalkCode(t: Tree, ghost lens: seq<nat>, ghost p: nat) returns (len: nat, index: nat)
      requires t.Represents(lens)
      requires 16 <= bitcount && tag == Lsb(source, p, bitcount)
      ensures var s := Symbol(lens, source, p);
              && len == SymbolLength(lens, s)
              && (len == 16 <==> s.None?)
              && (s.Some? ==> index < t.trans.Length && t.trans[index] == s.value)
    {
      hide Lsb, Bit, And, Shr, Shl, Excess, Undecided, Used, Shorter, Reachable, Symbol, Slot, Placed;
      var sum, cur := 0, 0;
      len := 0;
      StartCode(lens, source, p);
      while cur >= 0 && len < 16
        decreases 16 - len
        invariant len <= 16 && (cur < 0 ==> 0 < len < 16)
        invariant len <= 15 ==> cur == Excess(lens, source, p, len) && sum == Shorter(lens, len + 1)
        invariant Undecided(lens, source, p, len)
      {
        PeekBit(source, p, bitcount, len);
        LengthenCode(lens, source, p, len);
        cur := 2 * cur + Shr(And(tag, Shl(1, len)), len);
        len := len + 1;
        if len < 16 {
          sum := sum + t.table[len];
          cur := cur - t.table[len];
        }
      }
      if len == 16 {
        NoMatch(lens, source, p);
        index := 0;
      } else {
        ghost var s := MatchAt(lens, source, p, len, t.trans[..]);
        index := sum + cur;
      }
    }

    /** decode_symbol: none is JavaScript's undefined, after 16 bits that start no code */
    method DecodeSymbol(t: Tree, ghost lens: seq<nat>) returns (r: Option<nat>)
      requires Synced() && t.Represents(lens)
      modifies this`sourceIndex, this`tag, this`bitcount
      ensures Synced()
      ensures r == Symbol(lens, source, old(Pos(At())))
      ensures At() == SymbolCursor(old(At()), lens, source)
    {
      hide Lsb, Shr, Symbol, Fetched, Advance, Tree.Represents, CodeLengths;
      ghost var c := At();
      ghost var p := Pos(c);
      Fetch(16);
      assert tag == Lsb(source, p, bitcount);
      var len, index := WalkCode(t, lens, p);
      r := if len == 16 then None else Some(t.trans[index]);
      ShrLsb(source, p, bitcount, len);
      AdvanceIs(c, 16, len, sourceIndex, bitcount - len);
      tag := Shr(tag, len);
      bitcount := bitcount - len;
    }

    // ----- blocks -----

    /** The length and distance part of inflate_block_data; no distance stands for undefined */
    method ReadMatch(sym: Option<nat>, dt: Tree, ghost dl: seq<nat>) returns (length: nat, dist: Option<nat>)
      requires Synced() && Ready() && dt.Represents(dl)
      requires sym.Some? ==> sym.value > 256
      modifies this`sourceIndex, this`tag, this`bitcount
      ensures Synced()
      ensures MatchToken(source, old(At()), sym, dl) ==
              Read(if dist.Some? then Copy(length, dist.value) else Nothing, At())
    {
      hide Lsb, Symbol, ExtraBits, Base, SymbolCursor, LengthBits, LengthBase, DistBits, DistBase, ReadCursor,
        Tree.Represents, FixedLiterals, FixedDistances;
      length := 0;
      if sym.Some? && sym.value - 257 < 30 {
        var k := sym.value - 257;
        length := ReadBits(tables.lengthBits[k], tables.lengthBase[k]);
      }
      dist := DecodeSymbol(dt, dl);
      if dist.Some? && dist.value < 30 {
        var d := ReadBits(tables.distBits[dist.value], tables.distBase[dist.value]);
        dist := Some(d);
      } else {
        dist := None;
      }
    }

    /** The copy loop of inflate_block_data: it may read bytes it has just pushed. */
    method CopyMatch(offs: nat, length: nat)
      requires offs < |history|
      modifies this`dest, this`history
      ensures var more := CopyOut(old(history), length, old(|history|) - offs);
              dest == old(dest) + more && history == old(history) + more
    {
      hide CopyOut;
      ghost var dist := |history| - offs;
      ghost var done: seq<int> := [];
      for i := offs to offs + length
        invariant i < |history| && |history| == i + dist
        invariant dest == old(dest) + done && history == old(history) + done
        invariant CopyOut(old(history), length, dist) == done + CopyOut(history, offs + length - i, dist)
      {
        CopyOneByte(history, offs + length - i, dist);
        done := done + [history[i]];
        dest := dest + [history[i]];
        history := history + [history[i]];
      }
      CopyNothing(history, dist);
    }

    /** One round of the loop in inflate_block_data */
    method InflateToken(lt: Tree, dt: Tree, ghost ll: seq<nat>, ghost dl: seq<nat>) returns (r: Round)
      requires Synced() && Ready() && lt.Represents(ll) && dt.Represents(dl)
      modifies this`sourceIndex, this`tag, this`bitcount, this`dest, this`history
      ensures Synced()
      ensures var t := NextToken(source, old(At()), ll, dl);
              && At() == t.c
              && r == (if t.tok.EndOfBlock? then Ended else if Throws(t.tok, old(history)) then Threw else Again)
              && var more := if r == Again then TokenOut(t.tok, old(history)) else [];
                 dest == old(dest) + more && history == old(history) + more
    {
      hide MatchToken, CopyOut, Symbol, SymbolCursor, Tree.Represents, Tables.Right, Lsb, CodeLengths, Pos;
      var sym := DecodeSymbol(lt, ll);
      if sym == Some(256) {
        return Ended;
      }
      if sym.Some? && sym.value < 256 {
        dest := dest + [sym.value];
        history := history + [sym.value];
      } else {
        var length, dist := ReadMatch(sym, dt, dl);
        if dist.Some? {
          var offs := |history| - dist.value;
          if offs < 0 {
            return Threw;
          }
          CopyMatch(offs, length);
        }
      }
      return Again;
    }

    /**
     inflate_block_data. The source loops until an end-of-block code or an exception, so the caller must
     know that one comes: within n tokens the block ends. Returns false when it throws.
     */
    method InflateBlockData(lt: Tree, dt: Tree, ghost ll: seq<nat>, ghost dl: seq<nat>, ghost n: nat) returns (ok: bool)
      requires Synced() && Ready() && lt.Represents(ll) && dt.Represents(dl)
      requires BlockData(source, At(), ll, dl, history, n).Finished?
      modifies this`sourceIndex, this`tag, this`bitcount, this`dest, this`history
      ensures Synced()
      ensures var r := BlockData(source, old(At()), ll, dl, old(history), n);
              && r == Finished(if ok then Ok else Thrown, r.out, At())
              && dest == old(dest) + r.out && history == old(history) + r.out
    {
      hide NextToken, TokenOut, Throws, Tree.Represents, Tables.Right, CodeLengths, BlockData, Lsb;
      ghost var k := n;
      ghost var done: seq<int> := [];
      ghost var whole := BlockData(source, At(), ll, dl, history, n);
      assert whole == whole.After([]);
      while true
        invariant Synced()
        invariant BlockData(source, At(), ll, dl, history, k).Finished?
        invariant whole == BlockData(source, At(), ll, dl, history, k).After(done)
        invariant dest == old(dest) + done && history == old(history) + done
        decreases k
      {
        ghost var h, t := history, NextToken(source, At(), ll, dl);
        UnfoldBlock(source, At(), ll, dl, history, k, done);
        var r := InflateToken(lt, dt, ll, dl);
        if r != Again {
          return r == Ended;
        }
        done := done + TokenOut(t.tok, h);
        k := k - 1;
      }
    }

    /** inflate_uncompressed_block */
    method InflateUncompressedBlock() returns (ok: bool)
      requires Synced()
      modifies this`sourceIndex, this`tag, this`bitcount, this`dest, this`history
      ensures var r := Stored(source, old(At()));
              && ok == (r.status == Ok)
              && (ok ==> bitcount == 0 && At() == r.c)
              && dest == old(dest) + r.out && history == old(history) + r.out
    {
      hide Lsb;
      ghost var p := Pos(At());
      if bitcount > 7 {
        var overflow := bitcount / 8;
        sourceIndex := sourceIndex - overflow;
        bitcount := 0;
        tag := 0;
      }
      ghost var a := sourceIndex;
      assert a == AlignedIndex(p);
      var length := StoredLength(source, sourceIndex);
      if length.None? || length.value != StoredCheck(source, sourceIndex) {
        return false;
      }
      sourceIndex := sourceIndex + 4;
      for i := 0 to length.value
        invariant sourceIndex == a + 4 + i
        invariant dest == old(dest) + SourceSlice(source, a + 4, i)
        invariant history == old(history) + SourceSlice(source, a + 4, i)
      {
        assert SourceSlice(source, a + 4, i + 1) == SourceSlice(source, a + 4, i) + [SourceAt(source, sourceIndex)];
        history := history + [SourceAt(source, sourceIndex)];
        dest := dest + [SourceAt(source, sourceIndex)];
        sourceIndex := sourceIndex + 1;
      }
      bitcount := 0;
      return true;
    }

    /** The code-length part of decode_trees: 3-bit lengths in the order of CLCIDX, into the scratch array */
    method ReadMeta(lengths: array<nat>, hclen: nat)
      requires Synced() && hclen <= 19 <= lengths.Length
      requires lengths[..19] == Repeat(0, 19)
      modifies this`sourceIndex, this`tag, this`bitcount, lengths
      ensures Synced()
      ensures ReadMetaLengths(source, old(At()), 0, hclen, Repeat(0, 19)) == (lengths[..19], At())
    {
      hide Lsb, ReadMetaLengths, ReadCursor, Pos;
      ghost var whole := ReadMetaLengths(source, At(), 0, hclen, Repeat(0, 19));
      for i := 0 to hclen
        invariant Synced()
        invariant forall k :: 0 <= k < 19 ==> lengths[..19][k] <= 7
        invariant whole == ReadMetaLengths(source, At(), i, hclen, lengths[..19])
      {
        ghost var before := lengths[..19];
        UnfoldMeta(source, At(), i, hclen, before);
        var clen := ReadBits(3, 0);
        lengths[CLCIDX[i]] := clen;
        assert lengths[..19] == before[CLCIDX[i] := clen];
      }
      UnfoldMeta(source, At(), hclen, hclen, lengths[..19]);
    }

    /** `lengths[num++] = v`, `count` times */
    static method Fill(lengths: array<nat>, num: nat, v: nat, count: nat)
      requires num + count <= lengths.Length
      modifies lengths
      ensures lengths[..num + count] == old(lengths[..num]) + Repeat(v, count)
    {
      for i := 0 to count
        invariant lengths[..num + i] == old(lengths[..num]) + Repeat(v, i)
      {
        lengths[num + i] := v;
      }
    }

    /** One round of the run-length loop of decode_trees */
    method ReadOneRun(lengths: array<nat>, num: nat, codeTree: Tree, ghost meta: seq<nat>) returns (num': nat)
      requires Synced() && codeTree.Represents(meta) && |meta| == 19
      requires num + 138 <= lengths.Length
      modifies this`sourceIndex, this`tag, this`bitcount, lengths
      ensures Synced()
      ensures var r := ReadRun(source, old(At()), meta, old(lengths[..num]));
              && num' == num + |r.lens| && num' <= lengths.Length
              && lengths[..num'] == old(lengths[..num]) + r.lens && At() == r.c
    {
      hide Lsb, ReadCursor, Pos, Symbol, SymbolCursor, Tree.Represents, Repeat;
      ghost var run := ReadRun(source, At(), meta, lengths[..num]).lens;
      var sym := DecodeSymbol(codeTree, meta);
      if sym == Some(16) {
        var prev := if num == 0 then 0 else lengths[num - 1];
        var length := ReadBits(2, 3);
        assert run == Repeat(prev, length);
        Fill(lengths, num, prev, length);
        num' := num + length;
      } else if sym == Some(17) {
        var length := ReadBits(3, 3);
        assert run == Repeat(0, length);
        Fill(lengths, num, 0, length);
        num' := num + length;
      } else if sym == Some(18) {
        var length := ReadBits(7, 11);
        assert run == Repeat(0, length);
        Fill(lengths, num, 0, length);
        num' := num + length;
      } else {
        lengths[num] := if sym.Some? then sym.value else 0;
        num' := num + 1;
        assert lengths[..num'] == old(lengths[..num]) + [if sym.Some? then sym.value else 0];
      }
    }

    /** The run-length part of decode_trees; it overwrites the scratch array from the start. */
    method ReadRuns(lengths: array<nat>, codeTree: Tree, ghost meta: seq<nat>, target: nat)
      requires Synced() && codeTree.Represents(meta) && |meta| == 19
      requires target <= 320 && lengths.Length == 458
      modifies this`sourceIndex, this`tag, this`bitcount, lengths
      ensures Synced()
      ensures var r := ReadLengths(source, old(At()), meta, target, []);
              |r.0| <= 458 && lengths[..|r.0|] == r.0 && At() == r.1
    {
      hide Lsb, ReadLengths, ReadRun, Pos, Tree.Represents;
      ghost var whole := ReadLengths(source, At(), meta, target, []);
      var num := 0;
      assert lengths[..0] == [];
      while num < target
        invariant Synced() && num <= target + 137
        invariant forall k :: 0 <= k < num ==> lengths[k] <= MAXBITS
        invariant whole == ReadLengths(source, At(), meta, target, lengths[..num])
      {
        UnfoldLengths(source, At(), meta, target, lengths[..num]);
        num := ReadOneRun(lengths, num, codeTree, meta);
        assert forall k :: 0 <= k < num ==> lengths[k] == lengths[..num][k];
      }
      UnfoldLengths(source, At(), meta, target, lengths[..num]);
    }

    /** Everything decode_trees reads: the two counts and the code lengths of both alphabets in one sequence */
    method ReadTrees() returns (hlit: nat, hdist: nat, all: seq<nat>)
      requires Synced()
      modifies this`sourceIndex, this`tag, this`bitcount
      ensures Synced()
      ensures hlit <= 288 && hdist <= 288 && |all| == hlit + hdist && forall k :: 0 <= k < |all| ==> all[k] <= MAXBITS
      ensures DynamicHeader(source, old(At())) == Header(all[0..0 + hlit], all[hlit..hlit + hdist], At())
    {
      hide Lsb, ReadLengths, ReadMetaLengths, ReadCursor, Pos, Tree.Represents;
      var codeTree := new Tree();
      var lengths := new nat[458](_ => 0);   // JavaScript arrays grow on demand; a run can end 137 past hlit + hdist
      ghost var counts := ReadCounts(source, At());
      hlit := ReadBits(5, 257);
      hdist := ReadBits(5, 1);
      var hclen := ReadBits(4, 4);
      assert counts == Counts(hlit, hdist, hclen, At());
      hide ReadCounts;
      assert lengths[..19] == Repeat(0, 19);
      ReadMeta(lengths, hclen);
      ghost var meta, c := lengths[..19], At();
      assert meta[0..19] == meta;
      codeTree.Build(lengths[..19], 0, 19);
      ReadRuns(lengths, codeTree, meta, hlit + hdist);
      ghost var lens := ReadLengths(source, c, meta, hlit + hdist, []).0;
      all := lengths[..hlit + hdist];
      assert all == lens[..hlit + hdist];
    }

    /** decode_trees */
    method DecodeTrees(lt: Tree, dt: Tree)
      requires Synced()
      requires lt.table.Length == 16 && lt.trans.Length == 288 && dt.table.Length == 16 && dt.trans.Length == 288
      requires lt.table != dt.table && lt.trans != dt.trans
      modifies this`sourceIndex, this`tag, this`bitcount, lt.table, lt.trans, dt.table, dt.trans
      ensures Synced()
      ensures var h := DynamicHeader(source, old(At()));
              lt.Represents(h.ll) && dt.Represents(h.dl) && At() == h.c
    {
      hide Lsb, Pos, Tree.Represents, DynamicHeader;
      var hlit, hdist, all := ReadTrees();
      lt.Build(all, 0, hlit);
      dt.Build(all, hlit, hdist);
    }

    /** inflate_dynamic_block */
    method InflateDynamicBlock(ghost n: nat) returns (ok: bool)
      requires Synced() && Ready() && OwnTrees()
      requires var h := DynamicHeader(source, At()); BlockData(source, h.c, h.ll, h.dl, history, n).Finished?
      modifies this`sourceIndex, this`tag, this`bitcount, this`dest, this`history,
        ltree.table, ltree.trans, dtree.table, dtree.trans
      ensures Synced() && Ready() && OwnTrees()
      ensures var h := DynamicHeader(source, old(At()));
              var r := BlockData(source, h.c, h.ll, h.dl, old(history), n);
              && r == Finished(if ok then Ok else Thrown, r.out, At())
              && dest == old(dest) + r.out && history == old(history) + r.out
    {
      hide DynamicHeader, BlockData, Tables.Right, Tree.Represents, Lsb;
      ghost var h := DynamicHeader(source, At());
      DecodeTrees(ltree, dtree);
      ok := InflateBlockData(ltree, dtree, h.ll, h.dl, n);
    }

    /** The body of the block loop of uncompress */
    method InflateBlock(ghost n: nat) returns (bfinal: nat, status: Status)
      requires Rested() && Ready() && OwnTrees()
      requires OneBlock(source, At(), history, n).Finished?
      modifies this`sourceIndex, this`tag, this`bitcount, this`dest, this`history,
        ltree.table, ltree.trans, dtree.table, dtree.trans
      ensures Ready() && OwnTrees()
      ensures bfinal == Bit(source, Pos(old(At())))
      ensures var r := OneBlock(source, old(At()), old(history), n);
              && status == r.status && (status == Ok ==> Rested() && At() == r.c)
              && dest == old(dest) + r.out && history == old(history) + r.out
    {
      hide DynamicHeader, BlockData, Stored, Tree.Represents, CodeTables, Lsb, Bit, BitCursor, ReadCursor,
        FixedLiterals, FixedDistances, Pos;
      bfinal := GetBit();
      var btype := ReadBits(2, 0);
      var ok := true;
      if btype == 0 {
        ok := InflateUncompressedBlock();
        status := if ok then Ok else DataError;
      } else if btype == 1 {
        ok := InflateBlockData(tables.sltree, tables.sdtree, FixedLiterals(), FixedDistances(), n);
        status := if ok then Ok else Thrown;
      } else if btype == 2 {
        ok := InflateDynamicBlock(n);
        status := if ok then Ok else Thrown;
      } else {
        status := DataError;
      }
    }

    /** The block loop of uncompress */
    method InflateBlocks(ghost n: nat) returns (status: Status)
      requires Rested() && Ready() && OwnTrees()
      requires Blocks(source, At(), history, n).Finished?
      modifies this`sourceIndex, this`tag, this`bitcount, this`dest, this`history,
        ltree.table, ltree.trans, dtree.table, dtree.trans
      ensures Ready() && OwnTrees()
      ensures var r := Blocks(source, old(At()), old(history), n);
              && status == r.status
              && dest == old(dest) + r.out && history == old(history) + r.out
    {
      hide Blocks, OneBlock, Tables.Right, Lsb, Bit;
      ghost var done: seq<int> := [];
      ghost var whole := Blocks(source, At(), history, n);
      assert whole == whole.After([]);
      while true
        invariant Rested() && Ready() && OwnTrees()
        invariant Blocks(source, At(), history, n).Finished?
        invariant whole == Blocks(source, At(), history, n).After(done)
        invariant dest == old(dest) + done && history == old(history) + done
        decreases 8 * |source| + 1 - Pos(At())
      {
        UnfoldBlocks(source, At(), history, n, done);
        ghost var b := OneBlock(source, At(), history, n);
        var bfinal;
        bfinal, status := InflateBlock(n);
        Assoc(old(dest), done, b.out);
        Assoc(old(history), done, b.out);
        done := done + b.out;
        if status != Ok || bfinal == 1 || sourceIndex >= |source| {
          return;
        }
      }
    }

    /**
     uncompress. `n` bounds the tokens of every block: the source does not return on a block that never ends.
     The tag left by an earlier call or by a stored block is never observed.
     */
    method UncompressCall(src: seq<Byte>, offset: nat, ghost n: nat) returns (status: Status, data: seq<int>)
      requires Valid()
      requires Uncompress(src, offset, history, header.Some?, n).Finished?
      modifies this, ltree.table, ltree.trans, dtree.table, dtree.trans
      ensures Valid() && header.Some? && ltree == old(ltree) && dtree == old(dtree)
      ensures var r := Uncompress(src, offset, old(history), old(header.Some?), n);
              && status == r.status && data == (if status == Ok then r.out else [])
              && history == HistoryAfter(old(history), r)
    {
      hide Blocks, Tables.Right, Lsb, ReadCursor, Window;
      ghost var r := Uncompress(src, offset, history, header.Some?, n);
      source, sourceIndex, bitcount, dest := src, offset, 0, [];
      if header.None? {
        NoBits(src, 8 * offset);
        var h := ReadBits(16, 0);
        header := Some(h);
      }
      assert r == Blocks(src, At(), history, n);
      EmptyPlus(r.out);
      status := InflateBlocks(n);
      if status != Ok {
        return status, [];
      }
      history := Window(history);
      return Ok, dest;
    }
  }
}
