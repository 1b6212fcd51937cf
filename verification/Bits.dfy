/**
 Bit-level view of the compressed input.

 JavaScript's `&`, `|`, `<<` and `>>` are written out on natural numbers; the decoder keeps every
 operand below 2^31 (see `Tinf.Synced` and `LsbBound`), so 32-bit truncation never happens.
 The source is read as if it were followed by zero bytes, because `undefined & 0xff` is 0.
 */
module Bits {
  type Byte = b: int | 0 <= b < 256

  // ----- integer operators -----

  function Pow2(n: nat): (r: nat)
    ensures r >= 1
  {
    if n == 0 then 1 else 2 * Pow2(n - 1)
  }

  /** v << n */
  function Shl(v: nat, n: nat): nat {
    if n == 0 then v else 2 * Shl(v, n - 1)
  }

  /** v >> n */
  function Shr(v: nat, n: nat): nat {
    if n == 0 then v else Shr(v, n - 1) / 2
  }

  /** v | w */
  function Or(v: nat, w: nat): nat
    decreases v + w
  {
    if v == 0 && w == 0 then 0
    else (if v % 2 == 1 || w % 2 == 1 then 1 else 0) + 2 * Or(v / 2, w / 2)
  }

  /** v & w */
  function And(v: nat, w: nat): nat {
    if v == 0 then 0
    else (if v % 2 == 1 && w % 2 == 1 then 1 else 0) + 2 * And(v / 2, w / 2)
  }

  function BitOf(v: nat, i: nat): (b: nat)
    ensures b < 2
  {
    Shr(v, i) % 2
  }

  // ----- the stream -----

  function ByteAt(src: seq<Byte>, i: nat): Byte {
    if i < |src| then src[i] else 0
  }

  /** Bit p of the stream; bytes are filled from their low bit (section 3.1.1 of RFC 1951). */
  function Bit(src: seq<Byte>, p: nat): (b: nat)
    ensures b < 2
  {
    BitOf(ByteAt(src, p / 8), p % 8)
  }

  /** The n bits at p, first bit least significant: how numbers are stored. */
  function Lsb(src: seq<Byte>, p: nat, n: nat): nat
    decreases n
  {
    if n == 0 then 0 else Bit(src, p) + 2 * Lsb(src, p + 1, n - 1)
  }

  /** The n bits at p, first bit most significant: how Huffman codes are stored. */
  function Msb(src: seq<Byte>, p: nat, n: nat): nat {
    if n == 0 then 0 else 2 * Msb(src, p, n - 1) + Bit(src, p + n - 1)
  }

  lemma {:induction false} LsbBound(src: seq<Byte>, p: nat, n: nat)
    ensures Lsb(src, p, n) < Pow2(n)
    decreases n
  {
    if n > 0 {
      LsbBound(src, p + 1, n - 1);
    }
  }

  lemma {:induction false} MsbBound(src: seq<Byte>, p: nat, n: nat)
    ensures Msb(src, p, n) < Pow2(n)
  {
    if n > 0 {
      MsbBound(src, p, n - 1);
    }
  }

  lemma {:induction false} LsbOfByte(src: seq<Byte>, i: nat, j: nat)
    requires j <= 8
    ensures Lsb(src, 8 * i + j, 8 - j) == Shr(ByteAt(src, i), j)
    decreases 8 - j
  {
    var b := ByteAt(src, i);
    if j == 8 {
      assert Shr(b, 1) < 128;
      assert Shr(b, 2) < 64;
      assert Shr(b, 3) < 32;
      assert Shr(b, 4) < 16;
      assert Shr(b, 5) < 8;
      assert Shr(b, 6) < 4;
      assert Shr(b, 7) < 2;
    } else {
      LsbOfByte(src, i, j + 1);
      assert (8 * i + j) / 8 == i && (8 * i + j) % 8 == j;
      assert Shr(b, j + 1) == Shr(b, j) / 2;
    }
  }

  /** Dropping the low bits of buffered stream bits advances the position. */
  lemma {:induction false} ShrLsb(src: seq<Byte>, p: nat, n: nat, i: nat)
    requires i <= n
    ensures Shr(Lsb(src, p, n), i) == Lsb(src, p + i, n - i)
  {
    if i > 0 {
      ShrLsb(src, p, n, i - 1);
    }
  }

  lemma LoadByte(src: seq<Byte>, i: nat)
    ensures Lsb(src, 8 * i, 8) == ByteAt(src, i)
  {
    LsbOfByte(src, i, 0);
  }

  lemma TakeBit(src: seq<Byte>, p: nat, n: nat)
    requires n > 0
    ensures Lsb(src, p, n) % 2 == Bit(src, p)
    ensures Shr(Lsb(src, p, n), 1) == Lsb(src, p + 1, n - 1)
  {
    ShrLsb(src, p, n, 1);
  }

  /** n ones */
  function Ones(n: nat): nat {
    if n == 0 then 0 else 1 + 2 * Ones(n - 1)
  }

  lemma {:induction false} ShrOnes(n: nat, k: nat)
    requires k <= n
    ensures Shr(Ones(n), k) == Ones(n - k)
  {
    if k > 0 {
      ShrOnes(n, k - 1);
    }
  }

  lemma Mask(num: nat)
    requires num <= 16
    ensures Shr(0xffff, 16 - num) == Ones(num)
  {
    assert Ones(4) == 0xf;
    assert Ones(8) == 0xff by { assert Ones(6) == 0x3f; }
    assert Ones(12) == 0xfff by { assert Ones(10) == 0x3ff; }
    assert Ones(16) == 0xffff by { assert Ones(14) == 0x3fff; }
    ShrOnes(16, 16 - num);
  }

  lemma {:induction false} AndZero(v: nat)
    ensures And(v, 0) == 0
  {
    if v > 0 {
      AndZero(v / 2);
    }
  }

  lemma {:induction false} AndOnes(src: seq<Byte>, p: nat, n: nat, k: nat)
    requires k <= n
    ensures And(Lsb(src, p, n), Ones(k)) == Lsb(src, p, k)
    decreases k
  {
    var v := Lsb(src, p, n);
    if k == 0 {
      AndZero(v);
    } else {
      AndOnes(src, p + 1, n - 1, k - 1);
      assert v / 2 == Lsb(src, p + 1, n - 1) && v % 2 == Bit(src, p);
      assert Ones(k) / 2 == Ones(k - 1) && Ones(k) % 2 == 1;
      if v == 0 {
        assert And(v / 2, Ones(k - 1)) == 0;
      }
    }
  }

  /** `tag & (0xffff >> (16 - num))` reads the next num bits. */
  lemma TakeBits(src: seq<Byte>, p: nat, n: nat, num: nat)
    requires num <= 16 && num <= n
    ensures And(Lsb(src, p, n), Shr(0xffff, 16 - num)) == Lsb(src, p, num)
    ensures Shr(Lsb(src, p, n), num) == Lsb(src, p + num, n - num)
  {
    Mask(num);
    AndOnes(src, p, n, num);
    ShrLsb(src, p, n, num);
  }

  lemma {:induction false} BitOfLsb(src: seq<Byte>, p: nat, n: nat, i: nat)
    requires i < n
    ensures BitOf(Lsb(src, p, n), i) == Bit(src, p + i)
  {
    ShrLsb(src, p, n, i);
  }

  lemma {:induction false} ShrHalf(v: nat, i: nat)
    ensures Shr(v, i + 1) == Shr(v / 2, i)
  {
    if i > 0 { ShrHalf(v, i - 1); }
  }

  lemma {:induction false} ShrZero(i: nat)
    ensures Shr(0, i) == 0
  {
    if i > 0 { ShrZero(i - 1); }
  }

  lemma {:induction false} ShlZero(i: nat)
    ensures Shl(0, i) == 0
  {
    if i > 0 { ShlZero(i - 1); }
  }

  /** `(v & (1 << i)) >> i` is bit i of v. */
  lemma {:induction false} AndPower(v: nat, i: nat)
    ensures And(v, Shl(1, i)) == Shl(BitOf(v, i), i)
  {
    if i == 0 {
      if v > 0 { AndZero(v / 2); }
    } else {
      AndPower(v / 2, i - 1);
      ShrHalf(v, i - 1);
      assert Shl(1, i) / 2 == Shl(1, i - 1) && Shl(1, i) % 2 == 0;
      if v == 0 { ShrZero(i); ShlZero(i); }
    }
  }

  lemma {:induction false} ShrShl(v: nat, i: nat)
    ensures Shr(Shl(v, i), i) == v
  {
    if i > 0 {
      ShrShl(v, i - 1);
      ShrHalf(Shl(v, i), i - 1);
    }
  }

  lemma TestBit(v: nat, i: nat)
    ensures Shr(And(v, Shl(1, i)), i) == BitOf(v, i)
  {
    AndPower(v, i);
    ShrShl(BitOf(v, i), i);
  }

  /** `(tag & (1 << i)) >> i` looks i bits ahead. */
  lemma PeekBit(src: seq<Byte>, p: nat, n: nat, i: nat)
    requires i < n
    ensures Shr(And(Lsb(src, p, n), Shl(1, i)), i) == Bit(src, p + i)
  {
    BitOfLsb(src, p, n, i);
    TestBit(Lsb(src, p, n), i);
  }

  lemma {:induction false} OrZero(v: nat)
    ensures Or(0, v) == v
  {
    if v > 0 {
      OrZero(v / 2);
    }
  }

  lemma {:induction false} OrLsb(src: seq<Byte>, p: nat, n: nat, m: nat)
    ensures Or(Lsb(src, p, n), Shl(Lsb(src, p + n, m), n)) == Lsb(src, p, n + m)
    decreases n
  {
    var hi := Lsb(src, p + n, m);
    if n == 0 {
      OrZero(hi);
    } else {
      hide Bit;
      OrLsb(src, p + 1, n - 1, m);
      var lo := Lsb(src, p, n);
      var up := Shl(hi, n);
      assert lo / 2 == Lsb(src, p + 1, n - 1) && lo % 2 == Bit(src, p);
      assert up / 2 == Shl(hi, n - 1) && up % 2 == 0;
      if lo == 0 && up == 0 {
        assert Or(lo / 2, up / 2) == 0;
      }
    }
  }

  /** `tag | byte << bitcount` appends the next byte to the buffer. */
  lemma AppendByte(src: seq<Byte>, i: nat, n: nat)
    requires n <= 8 * i
    ensures Or(Lsb(src, 8 * i - n, n), Shl(ByteAt(src, i), n)) == Lsb(src, 8 * i - n, n + 8)
  {
    hide Lsb, Or, Shl, ByteAt;
    LoadByte(src, i);
    OrLsb(src, 8 * i - n, n, 8);
  }
}
