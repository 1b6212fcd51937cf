/**
 The decoder's Huffman tables and the two ways they are filled (novnc/include/jsunzip.js, TREE,
 build_tree and build_fixed_trees).
 */
module Trees {
  import opened Bits
  import opened Huffman

  /** The first i symbols have been put in their places. */
  ghost predicate Placed(lens: seq<nat>, i: nat, trans: seq<int>)
    requires i <= |lens|
  {
    |trans| == 288 && forall s :: 0 <= s < i && lens[s] > 0 ==> Slot(lens, s) < 288 && trans[Slot(lens, s)] == s
  }

  /** offs[l] is the next free place for a code of length l. */
  ghost predicate NextFree(lens: seq<nat>, i: nat, offs: seq<int>)
    requires i <= |lens|
  {
    |offs| == 16 && forall l :: 1 <= l < 16 ==> offs[l] == Shorter(lens, l) + Count(lens[..i], l)
  }

  lemma PlaceNext(lens: seq<nat>, i: nat, trans: seq<int>, offs: seq<int>)
    requires CodeLengths(lens) && i < |lens|
    requires Placed(lens, i, trans) && NextFree(lens, i, offs)
    ensures lens[i] == 0 ==> Placed(lens, i + 1, trans) && NextFree(lens, i + 1, offs)
    ensures lens[i] > 0 ==>
              && 0 <= offs[lens[i]] < 288
              && Placed(lens, i + 1, trans[offs[lens[i]] := i])
              && NextFree(lens, i + 1, offs[lens[i] := offs[lens[i]] + 1])
  {
    CountStepAll(lens, i);
    if lens[i] > 0 {
      SlotFree(lens, i);
      assert offs[lens[i]] == Slot(lens, i);
    }
  }

  class Tree {
    const table: array<int>   // count of codes per length
    const trans: array<int>   // code -> symbol translation

    constructor ()
      ensures fresh(table) && fresh(trans)
      ensures table.Length == 16 && trans.Length == 288
    {
      table := new int[16];
      trans := new int[288];
    }

    /** The tables decode `lens`: every entry the decoder can read is right. Other entries may be stale or undefined. */
    ghost predicate Represents(lens: seq<nat>): (b: bool)
      reads table, trans
      ensures b ==> CodeLengths(lens)
    {
      && table.Length == 16 && trans.Length == 288
      && CodeLengths(lens)
      && (forall l :: 1 <= l <= MAXBITS && Reachable(lens, l) ==> table[l] == Used(lens, l))
      && Placed(lens, |lens|, trans[..])
    }

    /** The distribution pass of build_tree */
    method Sort(lengths: seq<nat>, loffset: nat, num: nat, offs: array<int>)
      requires table.Length == 16 && trans.Length == 288 && offs.Length == 16
      requires offs != table && offs != trans && table != trans
      requires loffset + num <= |lengths| && num <= 288
      requires forall i :: 0 <= i < |lengths| ==> lengths[i] <= MAXBITS
      requires var lens := lengths[loffset..loffset + num];
               forall l :: 0 <= l < 16 ==> table[l] == Used(lens, l) && offs[l] == Shorter(lens, l)
      modifies trans, offs
      ensures Represents(lengths[loffset..loffset + num])
    {
      ghost var lens := lengths[loffset..loffset + num];
      assert table[..] == old(table[..]);
      for i := 0 to num
        invariant NextFree(lens, i, offs[..]) && Placed(lens, i, trans[..])
      {
        var l := lengths[loffset + i];
        assert l == lens[i];
        PlaceNext(lens, i, trans[..], offs[..]);
        if l != 0 {
          trans[offs[l]] := i;
          offs[l] := offs[l] + 1;
        }
      }
      assert Placed(lens, num, trans[..]);
    }

    /** build_tree: a counting sort of the symbols by code length */
    method Build(lengths: seq<nat>, loffset: nat, num: nat)
      requires table.Length == 16 && trans.Length == 288
      requires loffset + num <= |lengths| && num <= 288
      requires forall i :: 0 <= i < |lengths| ==> lengths[i] <= MAXBITS
      modifies table, trans
      ensures Represents(lengths[loffset..loffset + num])
    {
      ghost var lens := lengths[loffset..loffset + num];
      for i := 0 to 16
        invariant forall l :: 0 <= l < i ==> table[l] == 0
      {
        table[i] := 0;
      }
      for i := 0 to num
        invariant forall l :: 0 <= l < 16 ==> table[l] == Count(lens[..i], l)
      {
        assert lengths[loffset + i] == lens[i];
        CountStepAll(lens, i);
        table[lengths[loffset + i]] := table[lengths[loffset + i]] + 1;
      }
      assert lens[..num] == lens;
      table[0] := 0;
      assert forall l :: 0 <= l < 16 ==> table[l] == Used(lens, l);

      var offs := new int[16];
      var sum := 0;
      for i := 0 to 16
        invariant sum == Shorter(lens, i)
        invariant forall l :: 0 <= l < i ==> offs[l] == Shorter(lens, l)
        invariant forall l :: 0 <= l < 16 ==> table[l] == Used(lens, l)
      {
        offs[i] := sum;
        sum := sum + table[i];
      }
      Sort(lengths, loffset, num, offs);
    }
  }

  // ----- fixed trees (section 3.2.6 of RFC 1951) -----

  function FixedLength(s: nat): nat {
    if s < 144 then 8 else if s < 256 then 9 else if s < 280 then 7 else 8
  }

  function FixedLiterals(): (lens: seq<nat>)
    ensures CodeLengths(lens) && |lens| == 288
  {
    seq(288, s => if s < 0 then 0 else FixedLength(s))
  }

  function FixedDistances(): (lens: seq<nat>)
    ensures CodeLengths(lens) && |lens| == 32
  {
    seq(32, s => 5)
  }

  function Clamp(x: int, hi: nat): nat {
    if x < 0 then 0 else if x > hi then hi else x
  }

  lemma {:induction false} CountFixedLiterals(s: nat, l: nat)
    requires s <= 288
    ensures Count(FixedLiterals()[..s], l) ==
            if l == 7 then Clamp(s - 256, 24)
            else if l == 8 then Clamp(s, 144) + Clamp(s - 280, 8)
            else if l == 9 then Clamp(s - 144, 112)
            else 0
  {
    if s > 0 {
      CountFixedLiterals(s - 1, l);
      CountStep(FixedLiterals(), s - 1, l);
    }
  }

  lemma {:induction false} CountFixedDistances(s: nat, l: nat)
    requires s <= 32
    ensures Count(FixedDistances()[..s], l) == if l == 5 then s else 0
  {
    if s > 0 {
      CountFixedDistances(s - 1, l);
      CountStep(FixedDistances(), s - 1, l);
    }
  }

  lemma UsedFixedLiterals(l: nat)
    ensures Used(FixedLiterals(), l) == if l == 7 then 24 else if l == 8 then 152 else if l == 9 then 112 else 0
  {
    CountFixedLiterals(288, l);
    assert FixedLiterals()[..288] == FixedLiterals();
  }

  lemma UsedFixedDistances(l: nat)
    ensures Used(FixedDistances(), l) == if l == 5 then 32 else 0
  {
    CountFixedDistances(32, l);
    assert FixedDistances()[..32] == FixedDistances();
  }

  /** The fixed literal code is complete at 9 bits. */
  lemma FixedLiteralShape()
    ensures var f := FixedLiterals();
            First(f, 9) == 400 && First(f, 8) == 48 && First(f, 7) == 0 &&
            Shorter(f, 9) == 176 && Shorter(f, 8) == 24 && Shorter(f, 7) == 0
  {
    var f := FixedLiterals();
    forall l: nat ensures Used(f, l) == if l == 7 then 24 else if l == 8 then 152 else if l == 9 then 112 else 0 {
      UsedFixedLiterals(l);
    }
    assert First(f, 3) == 0 && Shorter(f, 3) == 0;
    assert First(f, 5) == 0 && Shorter(f, 5) == 0;
    assert First(f, 7) == 0 && Shorter(f, 7) == 0;
    assert First(f, 8) == 48 && Shorter(f, 8) == 24;
  }

  /** The codes that section 3.2.6 of RFC 1951 lists for the literal/length alphabet */
  lemma FixedCodesAreRfc(s: nat)
    requires s < 288
    ensures var f := FixedLiterals();
            (f[s], Code(f, s)) ==
            if s < 144 then (8, 0x30 + s)
            else if s < 256 then (9, 0x190 + (s - 144))
            else if s < 280 then (7, s - 256)
            else (8, 0xC0 + (s - 280))
  {
    hide First, Count;
    FixedLiteralShape();
    CountFixedLiterals(s, FixedLiterals()[s]);
  }

  lemma FixedDistanceShape()
    ensures var f := FixedDistances(); First(f, 5) == 0 && Shorter(f, 5) == 0
  {
    var f := FixedDistances();
    forall l: nat ensures Used(f, l) == if l == 5 then 32 else 0 {
      UsedFixedDistances(l);
    }
    assert First(f, 3) == 0 && Shorter(f, 3) == 0;
  }

  lemma Pow2Values()
    ensures Pow2(5) == 32 && Pow2(7) == 128 && Pow2(8) == 256 && Pow2(9) == 512 && Pow2(13) == 8192 && Pow2(15) == 32768
    ensures Pow2(0) == 1 && Pow2(1) == 2 && Pow2(2) == 4 && Pow2(3) == 8 && Pow2(4) == 16 && Pow2(6) == 64
  {
    assert Pow2(3) == 8;
    assert Pow2(5) == 32;
    assert Pow2(7) == 128;
    assert Pow2(9) == 512;
    assert Pow2(11) == 2048;
    assert Pow2(13) == 8192;
  }

  lemma FixedReach(l: nat)
    requires l > 0
    ensures Reachable(FixedLiterals(), l) ==> l <= 9
    ensures Reachable(FixedDistances(), l) ==> l <= 5
  {
    Pow2Values();
    FixedLiteralShape();
    FixedDistanceShape();
    UsedFixedLiterals(9);
    UsedFixedDistances(5);
    if l > 9 { CompleteStays(FixedLiterals(), 9, l - 1); }
    if l > 5 { CompleteStays(FixedDistances(), 5, l - 1); }
  }

  method BuildFixedLiterals(lt: Tree)
    requires lt.table.Length == 16 && lt.trans.Length == 288 && lt.table != lt.trans
    modifies lt.table, lt.trans
    ensures lt.Represents(FixedLiterals())
  {
    for i := 0 to 7
      invariant forall l :: 0 <= l < i ==> lt.table[l] == 0
    {
      lt.table[i] := 0;
    }
    lt.table[7] := 24;
    lt.table[8] := 152;
    lt.table[9] := 112;
    for i := 0 to 24
      modifies lt.trans
      invariant forall k :: 0 <= k < i ==> lt.trans[k] == 256 + k
    {
      lt.trans[i] := 256 + i;
    }
    for i := 0 to 144
      modifies lt.trans
      invariant forall k :: 0 <= k < 24 ==> lt.trans[k] == 256 + k
      invariant forall k :: 24 <= k < 24 + i ==> lt.trans[k] == k - 24
    {
      lt.trans[24 + i] := i;
    }
    for i := 0 to 8
      modifies lt.trans
      invariant forall k :: 0 <= k < 24 ==> lt.trans[k] == 256 + k
      invariant forall k :: 24 <= k < 168 ==> lt.trans[k] == k - 24
      invariant forall k :: 168 <= k < 168 + i ==> lt.trans[k] == 280 + (k - 168)
    {
      lt.trans[24 + 144 + i] := 280 + i;
    }
    for i := 0 to 112
      modifies lt.trans
      invariant forall k :: 0 <= k < 24 ==> lt.trans[k] == 256 + k
      invariant forall k :: 24 <= k < 168 ==> lt.trans[k] == k - 24
      invariant forall k :: 168 <= k < 176 ==> lt.trans[k] == 280 + (k - 168)
      invariant forall k :: 176 <= k < 176 + i ==> lt.trans[k] == 144 + (k - 176)
    {
      lt.trans[24 + 144 + 8 + i] := 144 + i;
    }
    ghost var f := FixedLiterals();
    FixedLiteralShape();
    forall s | 0 <= s < |f| && f[s] > 0
      ensures Slot(f, s) < 288 && lt.trans[Slot(f, s)] == s
    {
      CountFixedLiterals(s, f[s]);
    }
    forall l | 1 <= l <= MAXBITS && Reachable(f, l)
      ensures lt.table[l] == Used(f, l)
    {
      FixedReach(l);
      UsedFixedLiterals(l);
    }
  }

  method BuildFixedDistances(dt: Tree)
    requires dt.table.Length == 16 && dt.trans.Length == 288 && dt.table != dt.trans
    modifies dt.table, dt.trans
    ensures dt.Represents(FixedDistances())
  {
    for i := 0 to 5
      invariant forall l :: 0 <= l < i ==> dt.table[l] == 0
    {
      dt.table[i] := 0;
    }
    dt.table[5] := 32;
    for i := 0 to 32
      modifies dt.trans
      invariant forall k :: 0 <= k < i ==> dt.trans[k] == k
    {
      dt.trans[i] := i;
    }
    ghost var g := FixedDistances();
    FixedDistanceShape();
    forall s | 0 <= s < |g| && g[s] > 0
      ensures Slot(g, s) < 288 && dt.trans[Slot(g, s)] == s
    {
      CountFixedDistances(s, g[s]);
    }
    forall l | 1 <= l <= MAXBITS && Reachable(g, l)
      ensures dt.table[l] == Used(g, l)
    {
      FixedReach(l);
      UsedFixedDistances(l);
    }
  }

  /** build_fixed_trees: table entries beyond the longest fixed code stay undefined. */
  method BuildFixedTrees(lt: Tree, dt: Tree)
    requires lt.table.Length == 16 && lt.trans.Length == 288
    requires dt.table.Length == 16 && dt.trans.Length == 288
    requires lt.table != lt.trans && dt.table != dt.trans
    requires lt.table != dt.table && lt.table != dt.trans && lt.trans != dt.table && lt.trans != dt.trans
    modifies lt.table, lt.trans, dt.table, dt.trans
    ensures lt.Represents(FixedLiterals())
    ensures dt.Represents(FixedDistances())
  {
    BuildFixedLiterals(lt);
    BuildFixedDistances(dt);
  }
}
