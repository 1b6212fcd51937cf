/**
 Canonical Huffman codes (section 3.2.2 of RFC 1951), stated without reference to the decoder's tables.
 A code is given by the sequence of its code lengths; length 0 means "symbol not used".
 */
module Huffman {
  import opened Common
  import opened Bits

  /** Longest code length */
  const MAXBITS := 15

  ghost predicate CodeLengths(lens: seq<nat>) {
    |lens| <= 288 && forall i :: 0 <= i < |lens| ==> lens[i] <= MAXBITS
  }

  /** How many entries equal l */
  function Count(lens: seq<nat>, l: nat): nat {
    if |lens| == 0 then 0
    else Count(lens[..|lens| - 1], l) + (if lens[|lens| - 1] == l then 1 else 0)
  }

  /** bl_count of RFC 1951: unused symbols have no code. */
  function Used(lens: seq<nat>, l: nat): nat {
    if l == 0 then 0 else Count(lens, l)
  }

  /** next_code of RFC 1951: the first code of length l */
  function First(lens: seq<nat>, l: nat): nat {
    if l == 0 then 0 else 2 * (First(lens, l - 1) + Used(lens, l - 1))
  }

  /** Number of symbols whose code is shorter than l */
  function Shorter(lens: seq<nat>, l: nat): nat {
    if l == 0 then 0 else Shorter(lens, l - 1) + Used(lens, l - 1)
  }

  /** Number of smaller symbols with a code of the same length */
  function Rank(lens: seq<nat>, s: nat): nat
    requires s < |lens|
  {
    Count(lens[..s], lens[s])
  }

  /** The canonical code of symbol s */
  function Code(lens: seq<nat>, s: nat): nat
    requires s < |lens|
  {
    First(lens, lens[s]) + Rank(lens, s)
  }

  /** Position of symbol s when used symbols are sorted by (length, symbol) */
  function Slot(lens: seq<nat>, s: nat): nat
    requires s < |lens|
  {
    Shorter(lens, lens[s]) + Rank(lens, s)
  }

  /** The stream at p starts with the code of s. */
  ghost predicate Matches(lens: seq<nat>, src: seq<Byte>, p: nat, s: nat) {
    s < |lens| && lens[s] > 0 && Msb(src, p, lens[s]) == Code(lens, s)
  }

  /** The symbol whose code starts the stream at p, if there is one. */
  ghost function Symbol(lens: seq<nat>, src: seq<Byte>, p: nat): (r: Option<nat>)
    ensures r.Some? ==> Matches(lens, src, p, r.value)
    ensures r.None? ==> forall s :: !Matches(lens, src, p, s)
  {
    if s :| Matches(lens, src, p, s) then Some(s) else None
  }

  /** The number of strings of m bits that start with some code of at most m bits: each symbol takes 2^(m - length). */
  function KraftSum(lens: seq<nat>, m: nat): nat {
    if |lens| == 0 then 0
    else
      var l := lens[|lens| - 1];
      KraftSum(lens[..|lens| - 1], m) + (if 0 < l <= m then Pow2(m - l) else 0)
  }

  /** Kraft's inequality */
  ghost predicate NotOversubscribed(lens: seq<nat>) {
    KraftSum(lens, MAXBITS) <= Pow2(MAXBITS)
  }

  /** Some bit string of length l - 1 is longer than every code met so far. */
  ghost predicate Reachable(lens: seq<nat>, l: nat)
    requires l > 0
  {
    First(lens, l - 1) + Used(lens, l - 1) < Pow2(l - 1)
  }

  // ----- counting -----

  lemma {:induction false} CountMonotone(lens: seq<nat>, i: nat, j: nat, l: nat)
    requires i <= j <= |lens|
    ensures Count(lens[..i], l) <= Count(lens[..j], l)
    decreases j
  {
    if i < j {
      CountMonotone(lens, i, j - 1, l);
      assert lens[..j][..j - 1] == lens[..j - 1];
    }
  }

  lemma CountStep(lens: seq<nat>, i: nat, l: nat)
    requires i < |lens|
    ensures Count(lens[..i + 1], l) == Count(lens[..i], l) + (if lens[i] == l then 1 else 0)
  {
    assert lens[..i + 1][..i] == lens[..i];
  }

  lemma CountStepAll(lens: seq<nat>, i: nat)
    requires i < |lens|
    ensures forall l :: 0 <= l ==> Count(lens[..i + 1], l) == Count(lens[..i], l) + (if lens[i] == l then 1 else 0)
  {
    forall l | 0 <= l
      ensures Count(lens[..i + 1], l) == Count(lens[..i], l) + (if lens[i] == l then 1 else 0)
    {
      CountStep(lens, i, l);
    }
  }

  lemma RankBound(lens: seq<nat>, s: nat)
    requires s < |lens| && lens[s] > 0
    ensures Rank(lens, s) < Used(lens, lens[s])
  {
    CountStep(lens, s, lens[s]);
    CountMonotone(lens, s + 1, |lens|, lens[s]);
    assert lens[..|lens|] == lens;
  }

  lemma RankInjective(lens: seq<nat>, s: nat, t: nat)
    requires s < t < |lens| && lens[s] == lens[t]
    ensures Rank(lens, s) < Rank(lens, t)
  {
    CountStep(lens, s, lens[s]);
    CountMonotone(lens, s + 1, t, lens[s]);
  }

  /** The r-th symbol of length l */
  lemma {:induction false} FindRank(lens: seq<nat>, l: nat, r: nat) returns (s: nat)
    requires r < Count(lens, l)
    ensures s < |lens| && lens[s] == l && Rank(lens, s) == r
  {
    var n := |lens| - 1;
    if r < Count(lens[..n], l) {
      s := FindRank(lens[..n], l, r);
      assert lens[..n][..s] == lens[..s];
    } else {
      s := n;
    }
  }

  lemma {:induction false} ShorterMonotone(lens: seq<nat>, k: nat, l: nat)
    requires k < l
    ensures Shorter(lens, k) + Used(lens, k) <= Shorter(lens, l)
    decreases l
  {
    if k < l - 1 {
      ShorterMonotone(lens, k, l - 1);
    }
  }

  /** Appending a symbol adds at most one used code. */
  lemma {:induction false} ShorterAppend(lens: seq<nat>, l: nat)
    requires |lens| > 0
    ensures Shorter(lens, l) == Shorter(lens[..|lens| - 1], l) + (if 0 < lens[|lens| - 1] < l then 1 else 0)
  {
    if l > 0 {
      ShorterAppend(lens, l - 1);
    }
  }

  lemma {:induction false} ShorterEmpty(lens: seq<nat>, l: nat)
    requires |lens| == 0
    ensures Shorter(lens, l) == 0
  {
    if l > 0 { ShorterEmpty(lens, l - 1); }
  }

  lemma {:induction false} ShorterBound(lens: seq<nat>, l: nat)
    ensures Shorter(lens, l) <= |lens|
    decreases |lens|
  {
    if |lens| == 0 {
      ShorterEmpty(lens, l);
    } else {
      ShorterAppend(lens, l);
      ShorterBound(lens[..|lens| - 1], l);
    }
  }

  lemma SlotBound(lens: seq<nat>, s: nat)
    requires s < |lens| && lens[s] > 0
    ensures Slot(lens, s) < |lens|
  {
    RankBound(lens, s);
    ShorterMonotone(lens, lens[s], lens[s] + 1);
    ShorterBound(lens, lens[s] + 1);
  }

  /** Sorting puts different symbols in different places. */
  lemma SlotInjective(lens: seq<nat>, s: nat, t: nat)
    requires s < |lens| && t < |lens| && s != t && lens[s] > 0 && lens[t] > 0
    ensures Slot(lens, s) != Slot(lens, t)
  {
    RankBound(lens, s);
    RankBound(lens, t);
    if lens[s] < lens[t] {
      ShorterMonotone(lens, lens[s], lens[t]);
    } else if lens[t] < lens[s] {
      ShorterMonotone(lens, lens[t], lens[s]);
    } else if s < t {
      RankInjective(lens, s, t);
    } else {
      RankInjective(lens, t, s);
    }
  }

  /** The place of symbol i is inside the table and not yet taken by a smaller symbol. */
  lemma SlotFree(lens: seq<nat>, i: nat)
    requires i < |lens| && lens[i] > 0
    ensures Slot(lens, i) < |lens|
    ensures forall s :: 0 <= s < i && lens[s] > 0 ==> Slot(lens, s) != Slot(lens, i)
  {
    SlotBound(lens, i);
    forall s | 0 <= s < i && lens[s] > 0
      ensures Slot(lens, s) != Slot(lens, i)
    {
      SlotInjective(lens, s, i);
    }
  }

  // ----- the code is prefix-free -----

  /** A stream whose first k bits lie below the end of the codes of length k lies below every longer code. */
  lemma {:induction false} BelowStays(lens: seq<nat>, src: seq<Byte>, p: nat, k: nat, l: nat)
    requires k < l
    requires Msb(src, p, k) < First(lens, k) + Used(lens, k)
    ensures Msb(src, p, l) < First(lens, l)
    decreases l
  {
    if k < l - 1 {
      BelowStays(lens, src, p, k, l - 1);
    }
  }

  /** At most one symbol's code starts the stream, whatever the lengths are. */
  lemma PrefixFree(lens: seq<nat>, src: seq<Byte>, p: nat, s: nat, t: nat)
    requires Matches(lens, src, p, s) && Matches(lens, src, p, t)
    ensures s == t
  {
    RankBound(lens, s);
    RankBound(lens, t);
    if lens[s] < lens[t] {
      BelowStays(lens, src, p, lens[s], lens[t]);
    } else if lens[t] < lens[s] {
      BelowStays(lens, src, p, lens[t], lens[s]);
    } else if s < t {
      RankInjective(lens, s, t);
    } else if t < s {
      RankInjective(lens, t, s);
    }
  }

  lemma SymbolIs(lens: seq<nat>, src: seq<Byte>, p: nat, s: nat)
    requires Matches(lens, src, p, s)
    ensures Symbol(lens, src, p) == Some(s)
  {
    PrefixFree(lens, src, p, s, Symbol(lens, src, p).value);
  }

  // ----- codes fit their length -----

  lemma {:induction false} KraftStep(lens: seq<nat>, m: nat)
    ensures KraftSum(lens, m + 1) == 2 * KraftSum(lens, m) + Used(lens, m + 1)
  {
    if |lens| > 0 {
      KraftStep(lens[..|lens| - 1], m);
    }
  }

  lemma {:induction false} KraftZero(lens: seq<nat>)
    ensures KraftSum(lens, 0) == 0
  {
    if |lens| > 0 {
      KraftZero(lens[..|lens| - 1]);
    }
  }

  /** The RFC's running code counter computes the Kraft sum. */
  lemma {:induction false} FirstIsKraft(lens: seq<nat>, m: nat)
    ensures First(lens, m) + Used(lens, m) == KraftSum(lens, m)
  {
    if m == 0 {
      KraftZero(lens);
    } else {
      FirstIsKraft(lens, m - 1);
      KraftStep(lens, m - 1);
    }
  }

  lemma {:induction false} KraftDown(lens: seq<nat>, l: nat, m: nat)
    requires l <= m
    requires First(lens, m) + Used(lens, m) <= Pow2(m)
    ensures First(lens, l) + Used(lens, l) <= Pow2(l)
    decreases m
  {
    if l < m {
      KraftDown(lens, l, m - 1);
    }
  }

  /** In a code that is not over-subscribed every canonical code fits in its own length. */
  lemma CodeFits(lens: seq<nat>, s: nat)
    requires NotOversubscribed(lens)
    requires s < |lens| && 0 < lens[s] <= MAXBITS
    ensures Code(lens, s) < Pow2(lens[s])
  {
    RankBound(lens, s);
    FirstIsKraft(lens, MAXBITS);
    KraftDown(lens, lens[s], MAXBITS);
  }

  /** Once a code is complete no longer length can be reached. */
  lemma {:induction false} CompleteStays(lens: seq<nat>, k: nat, l: nat)
    requires k <= l
    requires First(lens, k) + Used(lens, k) >= Pow2(k)
    ensures First(lens, l) + Used(lens, l) >= Pow2(l)
    decreases l
  {
    if k < l {
      CompleteStays(lens, k, l - 1);
    }
  }
}
