/**
 The DES block function (novnc/include/des.js): a bit-twiddled sixteen-round Feistel network, refined to the
 network of FIPS 46-3 and proved to be undone by the reversed key pairs. The S-box tables and the key words
 are parameters, so the results hold for all of them.
 */
module DesBlock {
  /** The eight tables SP1 to SP8 */
  datatype Tables = Tables(sp1: seq<bv32>, sp2: seq<bv32>, sp3: seq<bv32>, sp4: seq<bv32>,
                           sp5: seq<bv32>, sp6: seq<bv32>, sp7: seq<bv32>, sp8: seq<bv32>)

  /** The two words of a round key */
  datatype Pair = Pair(first: bv32, second: bv32)

  datatype Halves = Halves(l: bv32, r: bv32)

  /** A table entry; one that is missing counts as 0 in a bitwise or. */
  function At(table: seq<bv32>, x: bv32): bv32 {
    var i := (x & 0x3f) as int;
    if i < |table| then table[i] else 0
  }

  /** The accumulator for the odd tables and for the even ones */
  function Odd(r: bv32, k: bv32): bv32 { ((r << 28) | (r >> 4)) ^ k }

  function Even(r: bv32, k: bv32): bv32 { r ^ k }

  function Down8(x: bv32): bv32 { x >> 8 }

  function Down16(x: bv32): bv32 { x >> 16 }

  function Down24(x: bv32): bv32 { x >> 24 }

  function Or8(a: bv32, b: bv32, c: bv32, d: bv32, e: bv32, f: bv32, g: bv32, h: bv32): bv32 {
    a | b | c | d | e | f | g | h
  }

  /** The round function of the source: two words of key, eight table lookups */
  function RoundValue(t: Tables, k: Pair, r: bv32): bv32 {
    var x, y := Odd(r, k.first), Even(r, k.second);
    Or8(At(t.sp7, x), At(t.sp5, Down8(x)), At(t.sp3, Down16(x)), At(t.sp1, Down24(x)),
        At(t.sp8, y), At(t.sp6, Down8(y)), At(t.sp4, Down16(y)), At(t.sp2, Down24(y)))
  }

  function RoundOf(t: Tables): (Pair, bv32) -> bv32 {
    (k: Pair, r: bv32) => RoundValue(t, k, r)
  }

  // ----- the Feistel network -----

  function Xor(a: bv32, b: bv32): bv32 { a ^ b }

  /** One round in the form of the standard: the halves change places. */
  function Round(f: (Pair, bv32) -> bv32, k: Pair, h: Halves): Halves {
    Halves(h.r, Xor(h.l, f(k, h.r)))
  }

  function Rounds(f: (Pair, bv32) -> bv32, keys: seq<Pair>, h: Halves): Halves {
    if keys == [] then h else Rounds(f, keys[1..], Round(f, keys[0], h))
  }

  function Reversed(keys: seq<Pair>): (r: seq<Pair>)
    ensures |r| == |keys|
  {
    if keys == [] then [] else Reversed(keys[1..]) + [keys[0]]
  }

  function Swap(h: Halves): Halves { Halves(h.r, h.l) }

  lemma NoRounds(f: (Pair, bv32) -> bv32, h: Halves)
    ensures Rounds(f, [], h) == h
  {
  }

  lemma {:induction false} RoundsAppend(f: (Pair, bv32) -> bv32, keys: seq<Pair>, k: Pair, h: Halves)
    ensures Rounds(f, keys + [k], h) == Round(f, k, Rounds(f, keys, h))
  {
    if keys == [] {
      assert [k][1..] == [];
    } else {
      assert (keys + [k])[1..] == keys[1..] + [k];
      RoundsAppend(f, keys[1..], k, Round(f, keys[0], h));
    }
  }

  lemma XorTwice(a: bv32, b: bv32)
    ensures Xor(Xor(a, b), b) == a
  {
  }

  /** For every round function, any number of rounds is undone by the same rounds with the keys reversed. */
  lemma {:induction false} RoundsUndone(f: (Pair, bv32) -> bv32, keys: seq<Pair>, h: Halves)
    ensures Rounds(f, Reversed(keys), Swap(Rounds(f, keys, h))) == Swap(h)
  {
    hide Xor;
    if keys != [] {
      var next := Round(f, keys[0], h);
      RoundsUndone(f, keys[1..], next);
      RoundsAppend(f, Reversed(keys[1..]), keys[0], Swap(Rounds(f, keys[1..], next)));
      XorTwice(h.l, f(keys[0], h.r));
    }
  }

  // ----- the swap networks -----

  /** The four exchanges, named by the distance of the bits they exchange */
  datatype Stage = By2 | By4 | By8 | By16

  /** Which bits differ between the masked half and the other half, moved down */
  function Differ(s: Stage, a: bv32, b: bv32): bv32 {
    match s
    case By2 => ((a >> 2) ^ b) & 0x33333333
    case By4 => ((a >> 4) ^ b) & 0x0f0f0f0f
    case By8 => ((a >> 8) ^ b) & 0x00ff00ff
    case By16 => ((a >> 16) ^ b) & 0x0000ffff
  }

  function FlipHigh(s: Stage, a: bv32, x: bv32): bv32 {
    match s
    case By2 => a ^ (x << 2)
    case By4 => a ^ (x << 4)
    case By8 => a ^ (x << 8)
    case By16 => a ^ (x << 16)
  }

  /** Exchanges the masked bits of the right half with the corresponding higher bits of the left. */
  function Exchange(s: Stage, h: Halves): Halves {
    var x := Differ(s, h.l, h.r);
    Halves(FlipHigh(s, h.l, x), Xor(h.r, x))
  }

  lemma DifferAgain(s: Stage, a: bv32, b: bv32)
    ensures var x := Differ(s, a, b); Differ(s, FlipHigh(s, a, x), Xor(b, x)) == x
  {
    match s
    case By2 =>
    case By4 =>
    case By8 =>
    case By16 =>
  }

  lemma FlipTwice(s: Stage, a: bv32, x: bv32)
    ensures FlipHigh(s, FlipHigh(s, a, x), x) == a
  {
    match s
    case By2 =>
    case By4 =>
    case By8 =>
    case By16 =>
  }

  lemma ExchangeUndone(s: Stage, h: Halves)
    ensures Exchange(s, Exchange(s, h)) == h
  {
    hide Differ, FlipHigh, Xor;
    var x := Differ(s, h.l, h.r);
    DifferAgain(s, h.l, h.r);
    FlipTwice(s, h.l, x);
    XorTwice(h.r, x);
  }

  function RotateLeft(x: bv32): bv32 { (x << 1) | ((x >> 31) & 1) }

  function RotateRight(x: bv32): bv32 { (x << 31) | (x >> 1) }

  function DifferOdd(a: bv32, b: bv32): bv32 { (a ^ b) & 0xaaaaaaaa }

  /** The last stage: alternate bits are exchanged between one half and the rotated other. */
  function Interleave(h: Halves): Halves {
    var r := RotateLeft(h.r);
    var x := DifferOdd(h.l, r);
    Halves(RotateLeft(Xor(h.l, x)), Xor(r, x))
  }

  function Uninterleave(h: Halves): Halves {
    var l := RotateRight(h.l);
    var x := DifferOdd(h.r, l);
    Halves(Xor(l, x), RotateRight(Xor(h.r, x)))
  }

  function Initial(h: Halves): Halves {
    Interleave(Swap(Exchange(By8, Exchange(By2, Swap(Exchange(By16, Exchange(By4, h)))))))
  }

  /** The final network, on the two words it writes out */
  function Final(h: Halves): Halves {
    Exchange(By4, Exchange(By16, Swap(Exchange(By2, Exchange(By8, Swap(Uninterleave(h)))))))
  }

  lemma RotateUndone(x: bv32)
    ensures RotateRight(RotateLeft(x)) == x && RotateLeft(RotateRight(x)) == x
  {
  }

  lemma DifferOddAgain(a: bv32, b: bv32)
    ensures var x := DifferOdd(a, b); DifferOdd(Xor(a, x), Xor(b, x)) == x && DifferOdd(Xor(b, x), Xor(a, x)) == x
  {
  }

  lemma InterleaveUndone(h: Halves)
    ensures Uninterleave(Interleave(h)) == h && Interleave(Uninterleave(h)) == h
  {
    hide RotateLeft, RotateRight, DifferOdd, Xor;
    RotateUndone(h.l);
    RotateUndone(h.r);
    var r := RotateLeft(h.r);
    var x := DifferOdd(h.l, r);
    DifferOddAgain(h.l, r);
    RotateUndone(Xor(h.l, x));
    XorTwice(h.l, x);
    XorTwice(r, x);
    var l := RotateRight(h.l);
    var y := DifferOdd(h.r, l);
    DifferOddAgain(h.r, l);
    RotateUndone(Xor(h.r, y));
    XorTwice(l, y);
    XorTwice(h.r, y);
  }

  /** The initial and the final network are inverse to each other. */
  lemma NetworksInverse(h: Halves)
    ensures Final(Initial(h)) == h && Initial(Final(h)) == h
  {
    hide Exchange, Interleave, Uninterleave;
    ExchangeUndone(By4, h);
    var a := Exchange(By4, h);
    ExchangeUndone(By16, a);
    var b := Swap(Exchange(By16, a));
    ExchangeUndone(By2, b);
    var c := Exchange(By2, b);
    ExchangeUndone(By8, c);
    InterleaveUndone(Swap(Exchange(By8, c)));
    InterleaveUndone(h);
    var d := Swap(Uninterleave(h));
    ExchangeUndone(By8, d);
    var e := Exchange(By8, d);
    ExchangeUndone(By2, e);
    var g := Swap(Exchange(By2, e));
    ExchangeUndone(By16, g);
    ExchangeUndone(By4, Exchange(By16, g));
  }

  // ----- the initial permutation of FIPS 46-3 -----

  /** The lowest bits of the eight bytes of a block, gathered in a byte from the last to the first */
  function Column(l: bv32, r: bv32): bv32 {
    ((r & 1) << 7) | (((r >> 8) & 1) << 6) | (((r >> 16) & 1) << 5) | (((r >> 24) & 1) << 4) |
    ((l & 1) << 3) | (((l >> 8) & 1) << 2) | (((l >> 16) & 1) << 1) | ((l >> 24) & 1)
  }

  /**
   The standard's table IP (58, 50, ..., 2, 60, ...): the left half holds the bits numbered 2, 4, 6 and 8 of
   every byte, the right half those numbered 1, 3, 5 and 7, where 1 is the highest.
   */
  function Permuted(h: Halves): Halves {
    Halves((Column(h.l >> 6, h.r >> 6) << 24) | (Column(h.l >> 4, h.r >> 4) << 16) |
           (Column(h.l >> 2, h.r >> 2) << 8) | Column(h.l, h.r),
           (Column(h.l >> 7, h.r >> 7) << 24) | (Column(h.l >> 5, h.r >> 5) << 16) |
           (Column(h.l >> 3, h.r >> 3) << 8) | Column(h.l >> 1, h.r >> 1))
  }

  /** The left half after an exchange, written with masks: it keeps some bits and takes the others. */
  function SelectHigh(s: Stage, a: bv32, b: bv32): bv32 {
    match s
    case By2 => (a & 0x33333333) | ((b & 0x33333333) << 2)
    case By4 => (a & 0x0f0f0f0f) | ((b & 0x0f0f0f0f) << 4)
    case By8 => (a & 0x00ff00ff) | ((b & 0x00ff00ff) << 8)
    case By16 => (a & 0x0000ffff) | ((b & 0x0000ffff) << 16)
  }

  function SelectLow(s: Stage, a: bv32, b: bv32): bv32 {
    match s
    case By2 => (b & 0xcccccccc) | ((a >> 2) & 0x33333333)
    case By4 => (b & 0xf0f0f0f0) | ((a >> 4) & 0x0f0f0f0f)
    case By8 => (b & 0xff00ff00) | ((a >> 8) & 0x00ff00ff)
    case By16 => (b & 0xffff0000) | ((a >> 16) & 0x0000ffff)
  }

  function Select(s: Stage, h: Halves): Halves {
    Halves(SelectHigh(s, h.l, h.r), SelectLow(s, h.l, h.r))
  }

  lemma HighSelects2(a: bv32, b: bv32)
    ensures FlipHigh(By2, a, Differ(By2, a, b)) == SelectHigh(By2, a, b)
  {
  }

  lemma HighSelects4(a: bv32, b: bv32)
    ensures FlipHigh(By4, a, Differ(By4, a, b)) == SelectHigh(By4, a, b)
  {
  }

  lemma HighSelects8(a: bv32, b: bv32)
    ensures FlipHigh(By8, a, Differ(By8, a, b)) == SelectHigh(By8, a, b)
  {
  }

  lemma HighSelects16(a: bv32, b: bv32)
    ensures FlipHigh(By16, a, Differ(By16, a, b)) == SelectHigh(By16, a, b)
  {
  }

  lemma HighSelects(s: Stage, a: bv32, b: bv32)
    ensures FlipHigh(s, a, Differ(s, a, b)) == SelectHigh(s, a, b)
  {
    hide FlipHigh, Differ, SelectHigh;
    match s
    case By2 => HighSelects2(a, b);
    case By4 => HighSelects4(a, b);
    case By8 => HighSelects8(a, b);
    case By16 => HighSelects16(a, b);
  }

  lemma LowSelects(s: Stage, a: bv32, b: bv32)
    ensures Xor(b, Differ(s, a, b)) == SelectLow(s, a, b)
  {
    match s
    case By2 =>
    case By4 =>
    case By8 =>
    case By16 =>
  }

  lemma ExchangeSelects(s: Stage, h: Halves)
    ensures Exchange(s, h) == Select(s, h)
  {
    hide Differ, FlipHigh, Xor, SelectHigh, SelectLow;
    HighSelects(s, h.l, h.r);
    LowSelects(s, h.l, h.r);
  }

  function SelectOdd(a: bv32, b: bv32): bv32 { (a & 0x55555555) | (b & 0xaaaaaaaa) }

  lemma OddBits(a: bv32, b: bv32)
    ensures Xor(a, DifferOdd(a, b)) == SelectOdd(a, b) && Xor(b, DifferOdd(a, b)) == SelectOdd(b, a)
  {
  }

  lemma InterleaveSelects(h: Halves)
    ensures var r := RotateLeft(h.r); Interleave(h) == Halves(RotateLeft(SelectOdd(h.l, r)), SelectOdd(r, h.l))
  {
    hide RotateLeft, Xor, DifferOdd, SelectOdd;
    OddBits(h.l, RotateLeft(h.r));
  }

  function Selected(h: Halves): Halves {
    Swap(Select(By8, Select(By2, Swap(Select(By16, Select(By4, h))))))
  }

  lemma SelectedPermutes(h: Halves)
    ensures var s := Selected(h);
            var r := RotateLeft(s.r);
            SelectOdd(s.l, r) == Permuted(h).l && SelectOdd(r, s.l) == RotateLeft(Permuted(h).r)
  {
  }

  /** The swap network is the initial permutation of the standard, with each half turned left by one bit. */
  lemma InitialIsStandard(h: Halves)
    ensures Initial(h) == Halves(RotateLeft(Permuted(h).l), RotateLeft(Permuted(h).r))
  {
    hide Exchange, Select, Interleave, RotateLeft, SelectOdd, Permuted;
    var a := Select(By4, h);
    var b := Swap(Select(By16, a));
    ExchangeSelects(By4, h);
    ExchangeSelects(By16, a);
    ExchangeSelects(By2, b);
    ExchangeSelects(By8, Select(By2, b));
    InterleaveSelects(Selected(h));
    SelectedPermutes(h);
  }

  /** The expansion E of the standard: the six bits for S-box j are bits 4j-4 to 4j+1, around the ends of the word. */
  function Expansion(w: bv32): (e: seq<bv32>)
    ensures |e| == 8
  {
    [((w & 1) << 5) | (w >> 27), (w >> 23) & 0x3f, (w >> 19) & 0x3f, (w >> 15) & 0x3f,
     (w >> 11) & 0x3f, (w >> 7) & 0x3f, (w >> 3) & 0x3f, ((w & 0x1f) << 1) | (w >> 31)]
  }

  /** The low six bits, which select a table entry */
  function Six(x: bv32): bv32 { x & 0x3f }

  /**
   On a half turned left by one bit, the table indexes of a round are the standard's expansion, with the key
   added.
   */
  lemma OddIndexes(w: bv32, k: bv32)
    ensures var r := RotateLeft(w);
            var x := ((r << 28) | (r >> 4)) ^ k;
            var e := Expansion(w);
            && (x >> 24) & 0x3f == e[0] ^ ((k >> 24) & 0x3f) && (x >> 16) & 0x3f == e[2] ^ ((k >> 16) & 0x3f)
            && (x >> 8) & 0x3f == e[4] ^ ((k >> 8) & 0x3f) && x & 0x3f == e[6] ^ (k & 0x3f)
  {
  }

  lemma EvenIndexes(w: bv32, k: bv32)
    ensures var y := RotateLeft(w) ^ k;
            var e := Expansion(w);
            && (y >> 24) & 0x3f == e[1] ^ ((k >> 24) & 0x3f) && (y >> 16) & 0x3f == e[3] ^ ((k >> 16) & 0x3f)
            && (y >> 8) & 0x3f == e[5] ^ ((k >> 8) & 0x3f) && y & 0x3f == e[7] ^ (k & 0x3f)
  {
  }

  lemma SixesOf(x: bv32)
    ensures Six(Down24(x)) == (x >> 24) & 0x3f && Six(Down16(x)) == (x >> 16) & 0x3f
    ensures Six(Down8(x)) == (x >> 8) & 0x3f && Six(x) == x & 0x3f
  {
  }

  lemma XorIs(a: bv32, b: bv32)
    ensures Xor(a, b) == a ^ b
  {
  }

  lemma OddSixes(w: bv32, k: bv32)
    ensures var x := Odd(RotateLeft(w), k);
            var e := Expansion(w);
            && Six(Down24(x)) == Xor(e[0], Six(Down24(k))) && Six(Down16(x)) == Xor(e[2], Six(Down16(k)))
            && Six(Down8(x)) == Xor(e[4], Six(Down8(k))) && Six(x) == Xor(e[6], Six(k))
  {
    hide Expansion, RotateLeft, Six, Down8, Down16, Down24, Xor;
    var e := Expansion(w);
    OddIndexes(w, k);
    SixesOf(Odd(RotateLeft(w), k));
    SixesOf(k);
    XorIs(e[0], Six(Down24(k)));
    XorIs(e[2], Six(Down16(k)));
    XorIs(e[4], Six(Down8(k)));
    XorIs(e[6], Six(k));
  }

  lemma EvenSixes(w: bv32, k: bv32)
    ensures var y := Even(RotateLeft(w), k);
            var e := Expansion(w);
            && Six(Down24(y)) == Xor(e[1], Six(Down24(k))) && Six(Down16(y)) == Xor(e[3], Six(Down16(k)))
            && Six(Down8(y)) == Xor(e[5], Six(Down8(k))) && Six(y) == Xor(e[7], Six(k))
  {
    hide Expansion, RotateLeft, Six, Down8, Down16, Down24, Xor;
    var e := Expansion(w);
    EvenIndexes(w, k);
    SixesOf(Even(RotateLeft(w), k));
    SixesOf(k);
    XorIs(e[1], Six(Down24(k)));
    XorIs(e[3], Six(Down16(k)));
    XorIs(e[5], Six(Down8(k)));
    XorIs(e[7], Six(k));
  }

  // ----- blocks of bytes -----

  /** A byte of the text; one that is missing counts as 0 in a shift. */
  function ByteAt(text: seq<bv8>, i: nat): bv8 {
    if i < |text| then text[i] else 0
  }

  function Join(a: bv8, b: bv8, c: bv8, d: bv8): bv32 {
    (a as bv32 << 24) | (b as bv32 << 16) | (c as bv32 << 8) | d as bv32
  }

  function Word(text: seq<bv8>, i: nat): bv32 {
    Join(ByteAt(text, i), ByteAt(text, i + 1), ByteAt(text, i + 2), ByteAt(text, i + 3))
  }

  function Squash(text: seq<bv8>): Halves {
    Halves(Word(text, 0), Word(text, 4))
  }

  function WordBytes(x: bv32): (b: seq<bv8>)
    ensures |b| == 4
  {
    [(x >> 24) as bv8, ((x >> 16) & 0xff) as bv8, ((x >> 8) & 0xff) as bv8, (x & 0xff) as bv8]
  }

  /** A word holds its first byte highest, so the first bit of a block is the first of the standard. */
  lemma FirstByteHighest(a: bv8, b: bv8, c: bv8, d: bv8)
    ensures Join(a, b, c, d) == 256 * (256 * (256 * (a as bv32) + b as bv32) + c as bv32) + d as bv32
  {
  }

  function Spread(h: Halves): (b: seq<bv8>)
    ensures |b| == 8
  {
    WordBytes(h.l) + WordBytes(h.r)
  }

  lemma JoinOfBytes(x: bv32)
    ensures var w := WordBytes(x); Join(w[0], w[1], w[2], w[3]) == x
  {
  }

  lemma BytesOfJoin(a: bv8, b: bv8, c: bv8, d: bv8)
    ensures WordBytes(Join(a, b, c, d)) == [a, b, c, d]
  {
  }

  lemma SquashOfSpread(h: Halves)
    ensures Squash(Spread(h)) == h
  {
    hide WordBytes, Join;
    JoinOfBytes(h.l);
    JoinOfBytes(h.r);
  }

  lemma SpreadOfSquash(text: seq<bv8>)
    requires |text| == 8
    ensures Spread(Squash(text)) == text
  {
    hide WordBytes, Join;
    BytesOfJoin(text[0], text[1], text[2], text[3]);
    BytesOfJoin(text[4], text[5], text[6], text[7]);
  }

  // ----- enc8 -----

  function KeyPairs(keys: seq<bv32>): (p: seq<Pair>)
    requires |keys| % 2 == 0
    ensures |p| == |keys| / 2
    ensures forall i :: 0 <= i < |p| ==> p[i] == Pair(keys[2 * i], keys[2 * i + 1])
  {
    if keys == [] then [] else
      var rest := KeyPairs(keys[2..]);
      [Pair(keys[0], keys[1])] + rest
  }

  /** The block function in the form of the standard: initial network, rounds, half swap, final network */
  function Encrypt(f: (Pair, bv32) -> bv32, keys: seq<Pair>, block: seq<bv8>): (r: seq<bv8>)
    ensures |r| == 8
  {
    Spread(Final(Swap(Rounds(f, keys, Initial(Squash(block))))))
  }

  /** Encryption again with the key pairs reversed returns the block. */
  lemma Decrypts(f: (Pair, bv32) -> bv32, keys: seq<Pair>, block: seq<bv8>)
    requires |block| == 8
    ensures Encrypt(f, Reversed(keys), Encrypt(f, keys, block)) == block
  {
    hide Initial, Final, Rounds, Squash, Spread, Reversed;
    var h := Initial(Squash(block));
    var out := Rounds(f, keys, h);
    SquashOfSpread(Final(Swap(out)));
    SpreadOfSquash(block);
    NetworksInverse(Swap(out));
    RoundsUndone(f, keys, h);
    NetworksInverse(Squash(block));
  }

  lemma {:induction false} ReversedAppend(keys: seq<Pair>, k: Pair)
    ensures Reversed(keys + [k]) == [k] + Reversed(keys)
  {
    if keys != [] {
      assert (keys + [k])[1..] == keys[1..] + [k];
      ReversedAppend(keys[1..], k);
    }
  }

  lemma {:induction false} ReversedTwice(keys: seq<Pair>)
    ensures Reversed(Reversed(keys)) == keys
  {
    if keys != [] {
      ReversedTwice(keys[1..]);
      ReversedAppend(Reversed(keys[1..]), keys[0]);
    }
  }

  /** For every key list the block function is a bijection: one block, and only one, encrypts to each block. */
  lemma Bijection(f: (Pair, bv32) -> bv32, keys: seq<Pair>, block: seq<bv8>, target: seq<bv8>)
    requires |block| == 8 && |target| == 8
    ensures Encrypt(f, keys, block) == target <==> block == Encrypt(f, Reversed(keys), target)
  {
    hide Encrypt;
    Decrypts(f, keys, block);
    Decrypts(f, Reversed(keys), target);
    ReversedTwice(keys);
  }

  // ----- the network of FIPS 46-3 -----

  /** The source works on halves turned left by one bit. */
  function Turn(h: Halves): Halves { Halves(RotateLeft(h.l), RotateLeft(h.r)) }

  /** The round function as the unturned halves see it */
  function Turned(f: (Pair, bv32) -> bv32): (Pair, bv32) -> bv32 {
    (k: Pair, w: bv32) => RotateRight(f(k, RotateLeft(w)))
  }

  lemma RotateXor(a: bv32, b: bv32)
    ensures RotateLeft(Xor(a, b)) == Xor(RotateLeft(a), RotateLeft(b))
  {
  }

  lemma TurnInjective(g: Halves, h: Halves)
    requires Turn(g) == Turn(h)
    ensures g == h
  {
    hide RotateLeft, RotateRight;
    RotateUndone(g.l);
    RotateUndone(g.r);
    RotateUndone(h.l);
    RotateUndone(h.r);
  }

  lemma {:induction false} RoundsTurn(f: (Pair, bv32) -> bv32, keys: seq<Pair>, h: Halves)
    ensures Rounds(f, keys, Turn(h)) == Turn(Rounds(Turned(f), keys, h))
  {
    hide RotateLeft, RotateRight, Xor;
    if keys != [] {
      var next := Round(Turned(f), keys[0], h);
      var v := f(keys[0], RotateLeft(h.r));
      RotateUndone(v);
      RotateXor(h.l, RotateRight(v));
      assert Round(f, keys[0], Turn(h)) == Turn(next);
      RoundsTurn(f, keys[1..], next);
    }
  }

  /**
   The block function is the standard's, for every round function: the initial permutation IP, the rounds on
   plain halves, the exchange of the halves, and the inverse of IP.
   */
  lemma RefinesStandard(f: (Pair, bv32) -> bv32, keys: seq<Pair>, block: seq<bv8>)
    ensures Permuted(Squash(Encrypt(f, keys, block))) == Swap(Rounds(Turned(f), keys, Permuted(Squash(block))))
  {
    hide Initial, Final, Rounds, Squash, Spread, Permuted, RotateLeft, Turned;
    var plain := Permuted(Squash(block));
    var done := Rounds(f, keys, Initial(Squash(block)));
    var out := Final(Swap(done));
    InitialIsStandard(Squash(block));
    RoundsTurn(f, keys, plain);
    SquashOfSpread(out);
    NetworksInverse(Swap(done));
    InitialIsStandard(out);
    TurnInjective(Permuted(out), Swap(Rounds(Turned(f), keys, plain)));
  }

  /** A round as the standard has it: each table is indexed by six bits of the expansion with six bits of key added. */
  function StandardValue(t: Tables, k: Pair, w: bv32): bv32 {
    var e, a, b := Expansion(w), k.first, k.second;
    RotateRight(
      Or8(At(t.sp7, Xor(e[6], Six(a))), At(t.sp5, Xor(e[4], Six(Down8(a)))),
          At(t.sp3, Xor(e[2], Six(Down16(a)))), At(t.sp1, Xor(e[0], Six(Down24(a)))),
          At(t.sp8, Xor(e[7], Six(b))), At(t.sp6, Xor(e[5], Six(Down8(b)))),
          At(t.sp4, Xor(e[3], Six(Down16(b)))), At(t.sp2, Xor(e[1], Six(Down24(b))))))
  }

  lemma SixTwice(x: bv32)
    ensures Six(x) & 0x3f == x & 0x3f
  {
  }

  lemma AtSix(table: seq<bv32>, x: bv32)
    ensures At(table, Six(x)) == At(table, x)
  {
    hide Six;
    SixTwice(x);
  }

  lemma RoundIsStandard(t: Tables, k: Pair, w: bv32)
    ensures Turned(RoundOf(t))(k, w) == StandardValue(t, k, w)
  {
    hide At, RotateLeft, RotateRight, Expansion, Odd, Even, Down8, Down16, Down24, Or8, Six, Xor;
    var r := RotateLeft(w);
    var x, y := Odd(r, k.first), Even(r, k.second);
    OddSixes(w, k.first);
    EvenSixes(w, k.second);
    AtSix(t.sp7, x);
    AtSix(t.sp5, Down8(x));
    AtSix(t.sp3, Down16(x));
    AtSix(t.sp1, Down24(x));
    AtSix(t.sp8, y);
    AtSix(t.sp6, Down8(y));
    AtSix(t.sp4, Down16(y));
    AtSix(t.sp2, Down24(y));
  }

  function StandardOf(t: Tables): (Pair, bv32) -> bv32 {
    (k: Pair, w: bv32) => StandardValue(t, k, w)
  }

  lemma {:induction false} RoundsAlike(f: (Pair, bv32) -> bv32, g: (Pair, bv32) -> bv32, keys: seq<Pair>, h: Halves)
    requires forall k, w :: f(k, w) == g(k, w)
    ensures Rounds(f, keys, h) == Rounds(g, keys, h)
  {
    if keys != [] {
      RoundsAlike(f, g, keys[1..], Round(f, keys[0], h));
    }
  }

  /** enc8 is the network of FIPS 46-3, with the eight tables in place of the S-boxes and the permutation P. */
  lemma EncryptIsStandard(t: Tables, keys: seq<Pair>, block: seq<bv8>)
    ensures Permuted(Squash(Encrypt(RoundOf(t), keys, block))) ==
            Swap(Rounds(StandardOf(t), keys, Permuted(Squash(block))))
  {
    hide Rounds, Squash, Permuted, Encrypt, StandardValue, RoundOf, Turned;
    RefinesStandard(RoundOf(t), keys, block);
    forall k, w
      ensures Turned(RoundOf(t))(k, w) == StandardOf(t)(k, w)
    {
      RoundIsStandard(t, k, w);
    }
    RoundsAlike(Turned(RoundOf(t)), StandardOf(t), keys, Permuted(Squash(block)));
  }

  class Des {
    var keys: seq<bv32>
    const tables: Tables

    predicate Valid()
      reads this
    {
      |keys| == 32
    }

    constructor (keys: seq<bv32>, tables: Tables)
      requires |keys| == 32
      ensures Valid() && this.keys == keys && this.tables == tables
    {
      this.keys, this.tables := keys, tables;
    }

    /** The loop of enc8 */
    method AllRounds(l0: bv32, r0: bv32) returns (l: bv32, r: bv32)
      requires Valid()
      ensures Halves(l, r) == Rounds(RoundOf(tables), KeyPairs(keys), Halves(l0, r0))
    {
      hide Rounds, RoundValue, Xor;
      ghost var f := RoundOf(tables);
      ghost var pairs := KeyPairs(keys);
      NoRounds(f, Halves(l0, r0));
      assert pairs[..0] == [];
      l, r := l0, r0;
      var i, keysi := 0, 0;
      while i < 8
        invariant 0 <= i <= 8 && keysi == 4 * i
        invariant Halves(l, r) == Rounds(f, pairs[..2 * i], Halves(l0, r0))
      {
        assert pairs[2 * i] == Pair(keys[keysi], keys[keysi + 1]);
        assert pairs[2 * i + 1] == Pair(keys[keysi + 2], keys[keysi + 3]);
        RoundsAppend(f, pairs[..2 * i], pairs[2 * i], Halves(l0, r0));
        RoundsAppend(f, pairs[..2 * i + 1], pairs[2 * i + 1], Halves(l0, r0));
        assert pairs[..2 * i] + [pairs[2 * i]] == pairs[..2 * i + 1];
        assert pairs[..2 * i + 1] + [pairs[2 * i + 1]] == pairs[..2 * i + 2];
        var fval := RoundValue(tables, Pair(keys[keysi], keys[keysi + 1]), r);
        l := Xor(l, fval);
        fval := RoundValue(tables, Pair(keys[keysi + 2], keys[keysi + 3]), l);
        r := Xor(r, fval);
        keysi := keysi + 4;
        i := i + 1;
      }
      assert pairs[..16] == pairs;
    }

    /** enc8: two rounds in place for each turn of the loop. Bytes after the eighth are left as they are. */
    method Enc8(text: seq<bv8>) returns (b: seq<bv8>)
      requires Valid()
      ensures b == Encrypt(RoundOf(tables), KeyPairs(keys), text) + (if |text| > 8 then text[8..] else [])
      ensures Permuted(Squash(b[..8])) == Swap(Rounds(StandardOf(tables), KeyPairs(keys), Permuted(Squash(text))))
    {
      hide Permuted, StandardOf, Word, WordBytes, Differ, FlipHigh, Xor, RotateLeft, RotateRight, DifferOdd, Rounds,
        KeyPairs;
      var l, r := Word(text, 0), Word(text, 4);
      var x := Differ(By4, l, r);
      r := Xor(r, x);
      l := FlipHigh(By4, l, x);
      x := Differ(By16, l, r);
      r := Xor(r, x);
      l := FlipHigh(By16, l, x);
      x := Differ(By2, r, l);
      l := Xor(l, x);
      r := FlipHigh(By2, r, x);
      x := Differ(By8, r, l);
      l := Xor(l, x);
      r := FlipHigh(By8, r, x);
      r := RotateLeft(r);
      x := DifferOdd(l, r);
      l := Xor(l, x);
      r := Xor(r, x);
      l := RotateLeft(l);
      l, r := AllRounds(l, r);
      r := RotateRight(r);
      x := DifferOdd(l, r);
      l := Xor(l, x);
      r := Xor(r, x);
      l := RotateRight(l);
      x := Differ(By8, l, r);
      r := Xor(r, x);
      l := FlipHigh(By8, l, x);
      x := Differ(By2, l, r);
      r := Xor(r, x);
      l := FlipHigh(By2, l, x);
      x := Differ(By16, r, l);
      l := Xor(l, x);
      r := FlipHigh(By16, r, x);
      x := Differ(By4, r, l);
      l := Xor(l, x);
      r := FlipHigh(By4, r, x);
      b := WordBytes(r) + WordBytes(l);
      assert b == Encrypt(RoundOf(tables), KeyPairs(keys), text);
      EncryptIsStandard(tables, KeyPairs(keys), text);
      b := b + if |text| > 8 then text[8..] else [];
    }
  }
}
