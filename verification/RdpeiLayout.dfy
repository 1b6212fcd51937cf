/** The forms of section 2.2.2 of MS-RDPEI byte by byte, with their literal limits and flags */
module TouchLayouts {
  import opened Common
  import opened Bits
  import opened TouchIntegers

  function Sign(v: int, bit: nat): nat { if v < 0 then bit else 0 }

  lemma Twice(m: nat)
    ensures m / 0x100 / 0x100 == m / 0x1_0000
  {
  }

  lemma {:induction false} LastOfDigits(v: nat, n: nat, i: nat)
    requires i < n
    ensures Digits(v, n)[n - 1 - i] == Shifted(v, i) % 256
    decreases n
  {
    if i > 0 {
      LastOfDigits(v / 256, n - 1, i - 1);
    }
  }

  lemma ShiftedIs(m: nat)
    ensures Shifted(m, 0) == m && Shifted(m, 1) == m / 0x100 && Shifted(m, 2) == m / 0x1_0000
  {
    assert Shifted(m, 2) == Shifted(m / 0x100, 1) == Shifted(m / 0x100 / 0x100, 0);
    Twice(m);
  }

  lemma DigitsAre(m: nat, n: nat)
    ensures var s := Digits(m, n);
            && (n == 1 ==> s == [Shifted(m, 0) % 0x100])
            && (n == 2 ==> s == [Shifted(m, 1) % 0x100, Shifted(m, 0) % 0x100])
            && (n == 3 ==> s == [Shifted(m, 2) % 0x100, Shifted(m, 1) % 0x100, Shifted(m, 0) % 0x100])
  {
    hide Digits, Shifted;
    if 1 <= n { LastOfDigits(m, n, 0); }
    if 2 <= n { LastOfDigits(m, n, 1); }
    if 3 <= n { LastOfDigits(m, n, 2); }
  }

  lemma Lowest(m: nat)
    ensures Digits(m, 1) == [m % 0x100]
    ensures Digits(m, 2) == [m / 0x100 % 0x100, m % 0x100]
    ensures Digits(m, 3) == [m / 0x1_0000 % 0x100, m / 0x100 % 0x100, m % 0x100]
  {
    ShiftedIs(m);
    hide Digits, Shifted;
    DigitsAre(m, 1);
    DigitsAre(m, 2);
    DigitsAre(m, 3);
  }

  /** The first byte is replaced by the header. */
  lemma Replaced(h: Byte, a: Byte, b: Byte, c: Byte)
    ensures [h] + [a][1..] == [h] && [h] + [a, b][1..] == [h, b] && [h] + [a, b, c][1..] == [h, b, c]
  {
  }

  lemma Laid(f: Form, v: int, s: seq<Byte>)
    requires var r := More(f, Magnitude(v)); r.Some? && s == Bytes(f, Magnitude(v), r.value + 1)
    ensures var n := More(f, Magnitude(v)).value;
            Written(f, v) == Some([Header(f, v, n, s[0])] + s[1..])
  {
  }

  lemma LowestMasked(m: nat)
    ensures Masked(m, 1, 0) == Digits(m, 1) && Masked(m, 2, 0) == Digits(m, 2) && Masked(m, 3, 0) == Digits(m, 3)
  {
    assert Masked(m / 0x100, 1, 1) == Digits(m / 0x100, 1);
    assert Masked(m / 0x100 / 0x100, 1, 2) == Digits(m / 0x100 / 0x100, 1);
  }

  /** One, two or three bytes */
  lemma Short(f: Form, v: int)
    requires var r := More(f, Magnitude(v)); r.Some? && r.value <= 2
    ensures var n, m := More(f, Magnitude(v)).value, Magnitude(v);
            && (n == 0 ==> Written(f, v) == Some([Header(f, v, n, m % 0x100)]))
            && (n == 1 ==> Written(f, v) == Some([Header(f, v, n, m / 0x100 % 0x100), m % 0x100]))
            && (n == 2 ==>
                  Written(f, v) == Some([Header(f, v, n, m / 0x1_0000 % 0x100), m / 0x100 % 0x100, m % 0x100]))
  {
    var n, m := More(f, Magnitude(v)).value, Magnitude(v);
    var top := if n == 0 then m % 0x100 else if n == 1 then m / 0x100 % 0x100 else m / 0x1_0000 % 0x100;
    Lowest(m);
    LowestMasked(m);
    HeaderIsByte(f, v, n, top);
    Replaced(Header(f, v, n, top), top, m / 0x100 % 0x100, m % 0x100);
    Replaced(Header(f, v, n, top), top, m % 0x100, 0);
    Laid(f, v, Bytes(f, m, n + 1));
    hide Header, More, Magnitude, Written;
  }

  lemma Refused(f: Form, v: int)
    requires More(f, Magnitude(v)).None?
    ensures Written(f, v).None?
  {
  }

  lemma TwoUnsignedLayout(v: nat)
    ensures Written(TwoUnsigned, v) ==
            if v < 0x7F then Some([v])
            else if v < 0x8000 then Some([0x80 + v / 0x100, v % 0x100])
            else None
  {
    hide Written;
    if v < 0x8000 {
      Short(TwoUnsigned, v);
    } else {
      Refused(TwoUnsigned, v);
    }
  }

  lemma TwoSignedLayout(v: int)
    ensures var m := Magnitude(v);
            Written(TwoSigned, v) ==
            if m < 0x3F then Some([Sign(v, 0x40) + m])
            else if m < 0x4000 then Some([0x80 + Sign(v, 0x40) + m / 0x100, m % 0x100])
            else None
  {
    hide Written;
    if Magnitude(v) < 0x4000 {
      Short(TwoSigned, v);
    } else {
      Refused(TwoSigned, v);
    }
  }

  lemma FourUnsignedLayout(v: nat)
    ensures Written(FourUnsigned, v) ==
            if v < 0x40 then Some([v])
            else if v < 0x4000 then Some([0x40 + v / 0x100, v % 0x100])
            else if v < 0x40_0000 then Some([0x80 + v / 0x1_0000, v / 0x100 % 0x100, v % 0x100])
            else None
  {
    hide Written;
    if v < 0x40_0000 {
      Short(FourUnsigned, v);
    } else {
      Refused(FourUnsigned, v);
    }
  }

  /** The sign is missing in the shortest form. */
  lemma FourSignedLayout(v: int)
    ensures var m := Magnitude(v);
            Written(FourSigned, v) ==
            if m < 0x20 then Some([m])
            else if m < 0x2000 then Some([0x40 + Sign(v, 0x20) + m / 0x100, m % 0x100])
            else if m < 0x20_0000 then
              Some([0x80 + Sign(v, 0x20) + m / 0x1_0000, m / 0x100 % 0x100, m % 0x100])
            else None
  {
    hide Written;
    if Magnitude(v) < 0x20_0000 {
      Short(FourSigned, v);
    } else {
      Refused(FourSigned, v);
    }
  }

  /** From 2^21 on a first byte of 0x80 or more says how many bytes follow, and bytes from the fourth up lose bits. */
  lemma EightUnsignedLayout(v: nat)
    requires v < 0x20_0000
    ensures Written(EightUnsigned, v) ==
            if v < 0x20 then Some([v])
            else if v < 0x2000 then Some([0x20 + v / 0x100, v % 0x100])
            else Some([0x40 + v / 0x1_0000, v / 0x100 % 0x100, v % 0x100])
  {
    hide Written;
    Short(EightUnsigned, v);
  }

  lemma {:induction false} LastOfMasked(v: nat, n: nat, at: nat, i: nat)
    requires i < n
    ensures Masked(v, n, at)[n - 1 - i] ==
            if at + i >= 3 then Shifted(v, i) % 32 else Shifted(v, i) % 256
    decreases n
  {
    if i > 0 {
      LastOfMasked(v / 256, n - 1, at + 1, i - 1);
    }
  }

  /**
   The long forms: the first byte holds the count of the others, and byte i from the end is v shifted by 8 * i
   bits.
   */
  lemma EightUnsignedLong(v: nat, i: nat)
    requires v >= 0x20_0000
    ensures var n := if v < 0x2000_0000 then 4 else if v < 0x20_0000_0000 then 5 else if v < 0x2000_0000_0000 then 6
                     else 7;
            var r := Written(EightUnsigned, v);
            if v >= 0x20_0000_0000_0000 then r.None?
            else
            && r.Some? && |r.value| == n + 1 && r.value[0] / 0x20 == n && r.value[0] % 0x20 == Shifted(v, n) % 0x20
            && (i < n ==> r.value[n - i] == if i >= 3 then Shifted(v, i) % 0x20 else Shifted(v, i) % 0x100)
  {
    if v < 0x20_0000_0000_0000 {
      var n := More(EightUnsigned, v).value;
      LastOfMasked(v, n + 1, 0, n);
      if i < n {
        LastOfMasked(v, n + 1, 0, i);
      }
    }
    hide Masked, Shifted;
  }

  function Low(b3: int, b2: int, b1: int, b0: int): int {
    0x100_0000 * b3 + 0x1_0000 * b2 + 0x100 * b1 + b0
  }

  lemma BigOfFive(t: Byte, b3: Byte, b2: Byte, b1: Byte, b0: Byte)
    ensures Big([t, b3, b2, b1, b0]) == 0x1_0000_0000 * (t as int) + Low(b3, b2, b1, b0)
  {
    BigLast([t, b3, b2, b1], b0);
    BigLast([t, b3, b2], b1);
    BigLast([t, b3], b2);
    BigLast([t], b3);
    BigLast([], t);
    assert [t, b3, b2, b1] + [b0] == [t, b3, b2, b1, b0] && [t, b3, b2] + [b1] == [t, b3, b2, b1];
    assert [t, b3] + [b2] == [t, b3, b2] && [t] + [b3] == [t, b3] && [] + [t] == [t];
    assert Big([]) == 0;
    hide Big;
  }

  lemma ExtendedIs(t: nat, low: nat, b3: Byte)
    requires low < 0x1_0000_0000
    ensures Extended(0x1_0000_0000 * t + low, b3) ==
            if b3 >= 0x80 then 0xFFFF_FFFF_0000_0000 + low else 0x1_0000_0000 * t + low
  {
  }

  /** A byte of 0x80 or more in the place of the fourth makes the reader set all bits above it. */
  lemma FourthByteExtends(t: Byte, b3: Byte, b2: Byte, b1: Byte, b0: Byte, rest: seq<Byte>)
    requires t < 0x20
    ensures var low := Low(b3, b2, b1, b0);
            Read(EightUnsigned, [0x80 + t, b3, b2, b1, b0] + rest) ==
            Reading(Some(if b3 >= 0x80 then 0xFFFF_FFFF_0000_0000 + low else 0x1_0000_0000 * (t as int) + low), 5)
  {
    var s := [0x80 + t, b3, b2, b1, b0] + rest;
    assert s[0] as int / 0x20 == 4 && s[0] as int % 0x20 == t;
    var d := [s[0] % 0x20] + s[1..5];
    assert d == [t, b3, b2, b1, b0];
    hide Big, Extended;
    BigOfFive(t, b3, b2, b1, b0);
    ExtendedIs(t, Low(b3, b2, b1, b0), b3);
    hide Low;
  }
}
