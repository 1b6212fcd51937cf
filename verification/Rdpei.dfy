/**
 The variable-length integers of the touch input channel (rdpstack-docker/FreeRDP/channels/rdpei/rdpei_common.c,
 section 2.2.2 of MS-RDPEI): five writers and five readers over a stream, and exactly which values survive.
 */
module TouchIntegers {
  import opened Common
  import opened Bits

  datatype Form = TwoUnsigned | TwoSigned | FourUnsigned | FourSigned | EightUnsigned

  /** The lowest n bytes of a value, highest first */
  function Digits(v: nat, n: nat): (s: seq<Byte>)
    ensures |s| == n
  {
    if n == 0 then [] else Digits(v / 256, n - 1) + [v % 256]
  }

  /**
   The same from byte `at` on, but bytes 3 and up keep only their low five bits, as the eight-byte writer masks
   them.
   */
  function Masked(v: nat, n: nat, at: nat): (s: seq<Byte>)
    ensures |s| == n
  {
    if n == 0 then [] else Masked(v / 256, n - 1, at + 1) + [if at >= 3 then v % 32 else v % 256]
  }

  function Big(s: seq<Byte>): nat {
    if s == [] then 0 else Big(s[..|s| - 1]) * 256 + s[|s| - 1]
  }

  /** Below 256^n times unit */
  predicate Fits(v: nat, n: nat, unit: nat) {
    if n == 0 then v < unit else Fits(v / 256, n - 1, unit)
  }

  // ----- the layout of the first byte -----

  /** Below Unit it holds the top of the magnitude, then comes the sign, and from Tag on the count of further bytes. */
  function Unit(f: Form): (u: nat)
    ensures u in {0x20, 0x40, 0x80}
  {
    match f
    case TwoUnsigned => 0x80
    case TwoSigned => 0x40
    case FourUnsigned => 0x40
    case FourSigned => 0x20
    case EightUnsigned => 0x20
  }

  function Tag(f: Form): (t: nat)
    ensures t in {0x20, 0x40, 0x80} && (t == Unit(f) || t == 2 * Unit(f))
  {
    match f
    case TwoUnsigned => 0x80
    case TwoSigned => 0x80
    case FourUnsigned => 0x40
    case FourSigned => 0x40
    case EightUnsigned => 0x20
  }

  predicate Signed(f: Form) { f == TwoSigned || f == FourSigned }

  // ----- writing -----

  function Magnitude(v: int): nat { if v < 0 then -v else v }

  /** How many bytes the writer puts after the first; None when it refuses. */
  function More(f: Form, m: nat): (r: Option<nat>)
    ensures r.Some? ==> r.value * Tag(f) + Tag(f) <= 256
  {
    match f
    case TwoUnsigned => if m > 0x7FFF then None else if m >= 0x7F then Some(1) else Some(0)
    case TwoSigned => if m > 0x3FFF then None else if m >= 0x3F then Some(1) else Some(0)
    case FourUnsigned =>
      if m <= 0x3F then Some(0) else if m <= 0x3FFF then Some(1) else if m <= 0x3FFFFF then Some(2) else None
    case FourSigned =>
      if m <= 0x1F then Some(0) else if m <= 0x1FFF then Some(1) else if m <= 0x1FFFFF then Some(2) else None
    case EightUnsigned =>
      if m <= 0x1F then Some(0) else if m <= 0x1FFF then Some(1) else if m <= 0x1FFFFF then Some(2)
      else if m <= 0x1FFFFFFF then Some(4) else if m <= 0x1FFFFFFFFF then Some(5)
      else if m <= 0x1FFFFFFFFFFF then Some(6) else if m <= 0x1FFFFFFFFFFFFF then Some(7) else None
  }

  /** 256^n times unit */
  function Limit(n: nat, unit: nat): nat {
    if n == 0 then unit else 256 * Limit(n - 1, unit)
  }

  lemma {:induction false} BelowLimit(v: nat, n: nat, unit: nat)
    requires v < Limit(n, unit)
    ensures Fits(v, n, unit)
  {
    if n > 0 {
      BelowLimit(v / 256, n - 1, unit);
    }
  }

  /** What is written has room for the top of the magnitude in the first byte. */
  lemma MoreFits(f: Form, m: nat)
    ensures var r := More(f, m); r.Some? ==> Fits(m, r.value, Unit(f))
  {
    hide Fits;
    var r := More(f, m);
    if r.Some? {
      assert m < Limit(r.value, Unit(f)) by {
        assert Limit(0, 0x20) == 0x20 && Limit(1, 0x20) == 0x2000 && Limit(2, 0x20) == 0x200000;
        assert Limit(4, 0x20) == 0x2000000000 && Limit(5, 0x20) == 0x200000000000;
        assert Limit(6, 0x20) == 0x20000000000000 && Limit(7, 0x20) == 0x2000000000000000;
        assert Limit(0, 0x40) == 0x40 && Limit(1, 0x40) == 0x4000 && Limit(2, 0x40) == 0x400000;
        assert Limit(0, 0x80) == 0x80 && Limit(1, 0x80) == 0x8000;
      }
      BelowLimit(m, r.value, Unit(f));
    }
  }

  /** The four-byte signed writer forgets the sign of a value it puts in one byte. */
  predicate SignWritten(f: Form, v: int, more: nat) {
    Signed(f) && v < 0 && !(f == FourSigned && more == 0)
  }

  function Header(f: Form, v: int, more: nat, top: Byte): int {
    more * Tag(f) + (if SignWritten(f, v, more) then Unit(f) else 0) + top % Unit(f)
  }

  lemma PlainHeader(more: nat, low: nat, unit: nat)
    requires unit in {0x20, 0x40, 0x80} && low < unit && more * unit + unit <= 256
    ensures var h := more * unit + low; 0 <= h < 256 && h / unit == more && h % unit == low
  {
    if unit == 0x20 {
    } else if unit == 0x40 {
    } else {
    }
  }

  lemma SignedHeader(more: nat, negative: bool, low: nat, unit: nat)
    requires unit in {0x20, 0x40} && low < unit && more * (2 * unit) + 2 * unit <= 256
    ensures var h := more * (2 * unit) + (if negative then unit else 0) + low;
            0 <= h < 256 && h / (2 * unit) == more && h % unit == low && (h / unit % 2 == 1 <==> negative)
  {
    if unit == 0x20 {
    } else {
    }
  }

  lemma HeaderIsByte(f: Form, v: int, more: nat, top: Byte)
    requires more * Tag(f) + Tag(f) <= 256
    ensures var h := Header(f, v, more, top);
            && 0 <= h < 256 && h / Tag(f) == more && h % Unit(f) == top % Unit(f)
            && (Signed(f) ==> (h / Unit(f) % 2 == 1 <==> SignWritten(f, v, more)))
  {
    if Signed(f) {
      SignedHeader(more, SignWritten(f, v, more), top % Unit(f), Unit(f));
    } else {
      PlainHeader(more, top % Unit(f), Unit(f));
    }
  }

  function Bytes(f: Form, m: nat, n: nat): (s: seq<Byte>)
    ensures |s| == n
  {
    if f == EightUnsigned then Masked(m, n, 0) else Digits(m, n)
  }

  /** The bytes a writer puts on the stream */
  function Written(f: Form, v: int): (r: Option<seq<Byte>>)
    ensures r.Some? ==> r.value != []
  {
    var m := Magnitude(v);
    match More(f, m)
    case None => None
    case Some(n) =>
      var s := Bytes(f, m, n + 1);
      HeaderIsByte(f, v, n, s[0]);
      Some([Header(f, v, n, s[0])] + s[1..])
  }

  // ----- reading -----

  /** The value read, None if the stream ends too early, and the bytes taken in either case */
  datatype Reading = Reading(value: Option<int>, taken: nat)

  /**
   In the eight-byte reader a byte of 0x80 or more moved up by 24 bits is a negative C int, which fills the
   upper half with ones.
   */
  function Extended(m: nat, fourth: Byte): nat {
    if fourth < 0x80 then m else 0xFFFF_FFFF_0000_0000 + m % 0x1_0000_0000
  }

  function Read(f: Form, s: seq<Byte>): (r: Reading)
    ensures r.taken <= |s|
  {
    if s == [] then Reading(None, 0)
    else
      var n := s[0] / Tag(f);
      if |s| - 1 < n then Reading(None, 1)
      else
        var plain := Big([s[0] % Unit(f)] + s[1..n + 1]);
        var m := if f == EightUnsigned && n >= 4 then Extended(plain, s[n - 3]) else plain;
        Reading(Some(if Signed(f) && s[0] / Unit(f) % 2 == 1 then -m else m), n + 1)
  }

  // ----- which values survive -----

  /** From byte 3 on, no byte has one of its high three bits. */
  predicate Small(v: nat, at: nat) {
    v == 0 || ((at >= 3 ==> v % 256 < 32) && Small(v / 256, at + 1))
  }

  /**
   The accepted values that are read back: all of the two-byte and four-byte unsigned forms; four-byte signed
   ones except -0x1F to -1; eight-byte ones whose bytes from the fourth lowest on are all below 0x20.
   */
  predicate Survives(f: Form, v: int) {
    match f
    case FourSigned => !(-0x1F <= v <= -1)
    case EightUnsigned => Small(Magnitude(v), 0)
    case _ => true
  }

  lemma {:induction false} BigOfDigits(v: nat, n: nat)
    requires Fits(v, n, 1)
    ensures Big(Digits(v, n)) == v
  {
    if n > 0 {
      BigOfDigits(v / 256, n - 1);
    }
  }

  lemma BigLast(s: seq<Byte>, b: Byte)
    ensures Big(s + [b]) == Big(s) * 256 + b
  {
    assert (s + [b])[..|s|] == s;
  }

  lemma ByteLowFive(b: nat)
    ensures b % 32 <= b && (b % 32 == b <==> b < 32)
  {
  }

  lemma LowBits5(x: nat)
    ensures x % 256 % 32 == x % 32
  {
  }

  lemma LowFive(v: nat)
    ensures v % 32 <= v % 256 && (v % 32 == v % 256 <==> v % 256 < 32)
  {
    LowBits5(v);
    ByteLowFive(v % 256);
  }

  /** Masking can only lower the value, and does exactly when a masked byte has a high bit. */
  lemma {:induction false} BigOfMasked(v: nat, n: nat, at: nat)
    requires Fits(v, n, 1)
    ensures Big(Masked(v, n, at)) <= v
    ensures Big(Masked(v, n, at)) == v <==> Small(v, at)
  {
    if n > 0 {
      BigOfMasked(v / 256, n - 1, at + 1);
      BigLast(Masked(v / 256, n - 1, at + 1), if at >= 3 then v % 32 else v % 256);
      LowFive(v);
    }
  }

  lemma {:induction false} FitsByte(v: nat, n: nat, unit: nat)
    requires Fits(v, n, unit) && unit <= 256
    ensures Fits(v, n + 1, 1)
  {
    if n > 0 {
      FitsByte(v / 256, n - 1, unit);
    }
  }

  /** The top byte of a value that fits leaves room for the count and the sign. */
  lemma {:induction false} TopFits(v: nat, n: nat, unit: nat, at: nat)
    requires Fits(v, n, unit) && unit <= 256
    ensures Digits(v, n + 1)[0] < unit
    ensures unit == 32 ==> Masked(v, n + 1, at)[0] < unit
  {
    if n > 0 {
      TopFits(v / 256, n - 1, unit, at + 1);
    }
  }

  lemma {:induction false} MaskedAt(v: nat, n: nat, at: nat, i: nat)
    requires i < n && at + (n - 1 - i) >= 3
    ensures Masked(v, n, at)[i] < 32
  {
    if i < n - 1 {
      MaskedAt(v / 256, n - 1, at + 1, i);
    }
  }

  lemma BytesBig(f: Form, m: nat, n: nat)
    requires Fits(m, n, Unit(f))
    ensures Bytes(f, m, n + 1)[0] < Unit(f)
    ensures Big(Bytes(f, m, n + 1)) == m <==> f != EightUnsigned || Small(m, 0)
  {
    hide Fits, Digits, Masked, Big, Small;
    FitsByte(m, n, Unit(f));
    TopFits(m, n, Unit(f), 0);
    if f == EightUnsigned {
      BigOfMasked(m, n + 1, 0);
    } else {
      BigOfDigits(m, n + 1);
    }
  }

  /** When the sign of a value is on the stream */
  lemma SignLost(f: Form, v: int)
    requires More(f, Magnitude(v)).Some? && (!Signed(f) ==> v >= 0)
    ensures SignWritten(f, v, More(f, Magnitude(v)).value) <==> v < 0 && !(f == FourSigned && -0x1F <= v <= -1)
  {
  }

  /** What a reader makes of the bytes of a writer: it takes exactly those, and gets the value back if it survives. */
  lemma ReadsBack(f: Form, v: int, rest: seq<Byte>)
    requires Written(f, v).Some? && (!Signed(f) ==> v >= 0)
    ensures var b := Written(f, v).value;
            var r := Read(f, b + rest);
            && r.taken == |b| && r.value.Some? && (r.value == Some(v) <==> Survives(f, v))
  {
    hide Fits, Digits, Masked, Big, Small, More, Header, SignWritten, Unit, Tag;
    var m := Magnitude(v);
    var n := More(f, m).value;
    MoreFits(f, m);
    SignLost(f, v);
    var s := Bytes(f, m, n + 1);
    BytesBig(f, m, n);
    HeaderIsByte(f, v, n, s[0]);
    var b := Written(f, v).value;
    var all := b + rest;
    hide Bytes, Magnitude;
    assert [all[0] % Unit(f)] + all[1..n + 1] == s;
    if f == EightUnsigned && n >= 4 {
      MaskedAt(m, n + 1, 0, n - 3);
      assert all[n - 3] == s[n - 3];
    }
  }

  // ----- lists of values -----

  datatype Item = Item(form: Form, value: int)

  /** A value the writer is called with: of the C type, except the smallest signed one, whose negation overflows */
  predicate InType(x: Item) {
    if Signed(x.form) then -0x8000_0000 < x.value < 0x8000_0000
    else 0 <= x.value < if x.form == EightUnsigned then 0x1_0000_0000_0000_0000 else 0x1_0000_0000
  }

  predicate Accepted(items: seq<Item>) {
    forall i :: 0 <= i < |items| ==> InType(items[i]) && Written(items[i].form, items[i].value).Some?
  }

  function WrittenAll(items: seq<Item>): seq<Byte>
    requires Accepted(items)
  {
    if items == [] then []
    else Written(items[0].form, items[0].value).value + WrittenAll(items[1..])
  }

  /** Reading a value of each form in turn */
  function ReadAll(items: seq<Item>, s: seq<Byte>): Option<(seq<int>, seq<Byte>)> {
    if items == [] then Some(([], s))
    else
      var r := Read(items[0].form, s);
      if r.value.None? then None
      else
        var tail := ReadAll(items[1..], s[r.taken..]);
        if tail.None? then None else Some(([r.value.value] + tail.value.0, tail.value.1))
  }

  function Values(items: seq<Item>): (v: seq<int>)
    ensures |v| == |items| && forall i :: 0 <= i < |v| ==> v[i] == items[i].value
  {
    if items == [] then [] else [items[0].value] + Values(items[1..])
  }

  predicate AllSurvive(items: seq<Item>) {
    items == [] || (Survives(items[0].form, items[0].value) && AllSurvive(items[1..]))
  }

  /**
   Any mixed list of accepted values is read to its end, with exactly the bytes written; the same list comes
   back if and only if every value in it survives.
   */
  lemma {:induction false} ListReadsBack(items: seq<Item>, rest: seq<Byte>)
    requires Accepted(items)
    ensures var r := ReadAll(items, WrittenAll(items) + rest);
            && r.Some? && r.value.1 == rest && |r.value.0| == |items|
            && (r.value.0 == Values(items) <==> AllSurvive(items))
  {
    if items == [] {
      assert WrittenAll(items) + rest == rest;
    } else {
      hide Read, Written, Survives;
      var x, others := items[0], items[1..];
      var b, t := Written(x.form, x.value).value, WrittenAll(others) + rest;
      assert WrittenAll(items) + rest == b + t;
      ReadsBack(x.form, x.value, t);
      assert (b + t)[|b|..] == t;
      ListReadsBack(others, rest);
      var r := Read(x.form, b + t).value.value;
      var back := ReadAll(others, t).value.0;
      assert [r] + back == [x.value] + Values(others) <==> r == x.value && back == Values(others) by {
        assert ([r] + back)[0] == r && ([r] + back)[1..] == back;
        assert ([x.value] + Values(others))[1..] == Values(others);
      }
    }
  }

  // ----- the stream -----

  /** v >> 8n */
  function Shifted(v: nat, n: nat): nat {
    if n == 0 then v else Shifted(v / 256, n - 1)
  }

  /** Byte n of a value as a writer puts it */
  function ByteOf(f: Form, v: nat, n: nat): Byte {
    if f == EightUnsigned && n >= 3 then Shifted(v, n) % 32 else Shifted(v, n) % 256
  }

  lemma {:induction false} DigitsFrom(v: nat, n: nat, i: nat)
    requires i < n
    ensures Digits(v, n)[i] == Shifted(v, n - 1 - i) % 256
  {
    if i < n - 1 {
      DigitsFrom(v / 256, n - 1, i);
    }
  }

  lemma {:induction false} MaskedFrom(v: nat, n: nat, at: nat, i: nat)
    requires i < n
    ensures Masked(v, n, at)[i] == if at + (n - 1 - i) >= 3 then Shifted(v, n - 1 - i) % 32
            else Shifted(v, n - 1 - i) % 256
  {
    if i < n - 1 {
      MaskedFrom(v / 256, n - 1, at + 1, i);
    }
  }

  lemma BytesFrom(f: Form, v: nat, n: nat, i: nat)
    requires i < n
    ensures Bytes(f, v, n)[i] == ByteOf(f, v, n - 1 - i)
  {
    DigitsFrom(v, n, i);
    MaskedFrom(v, n, 0, i);
  }

  /** A reader at a place of the stream */
  lemma ReadFrom(f: Form, all: seq<Byte>, at: nat)
    requires at <= |all|
    ensures var r := Read(f, all[at..]);
            if at == |all| then r == Reading(None, 0)
            else
              var n := all[at] / Tag(f);
              if |all| - at - 1 < n then r == Reading(None, 1)
              else
                var plain := Big([all[at] % Unit(f)] + all[at + 1..at + 1 + n]);
                var m := if f == EightUnsigned && n >= 4 then Extended(plain, all[at + n - 3]) else plain;
                r == Reading(Some(if Signed(f) && all[at] / Unit(f) % 2 == 1 then -m else m), n + 1)
  {
    hide Big, Tag, Unit, Extended;
    if at < |all| {
      var n := all[at] / Tag(f);
      if n <= |all| - at - 1 {
        assert all[at..][1..n + 1] == all[at + 1..at + 1 + n];
      }
    }
  }

  lemma LowBits6(x: nat)
    ensures x % 256 % 64 == x % 64
  {
  }

  lemma LowBits7(x: nat)
    ensures x % 256 % 128 == x % 128
  {
  }

  lemma LowBits(x: nat, unit: nat)
    requires unit in {0x20, 0x40, 0x80}
    ensures x % 256 % unit == x % unit && x % 32 % 32 == x % 32
  {
    if unit == 0x20 {
      LowBits5(x);
    } else if unit == 0x40 {
      LowBits6(x);
    } else {
      LowBits7(x);
    }
  }

  /** The first byte in terms of the shifted value */
  lemma HeaderFrom(f: Form, v: int, more: nat)
    ensures Header(f, v, more, ByteOf(f, Magnitude(v), more)) ==
            more * Tag(f) + (if SignWritten(f, v, more) then Unit(f) else 0) + Shifted(Magnitude(v), more) % Unit(f)
  {
    hide Shifted, SignWritten;
    LowBits(Shifted(Magnitude(v), more), Unit(f));
  }

  class Stream {
    var bytes: seq<Byte>
    var pos: nat

    predicate Valid()
      reads this
    {
      pos <= |bytes|
    }

    constructor ()
      ensures Valid() && bytes == [] && pos == 0
    {
      bytes, pos := [], 0;
    }

    /** The first byte, then the lower bytes of the value from the highest on */
    method Put(f: Form, v: int, more: nat, header: Byte)
      requires Valid() && More(f, Magnitude(v)) == Some(more)
      requires header == more * Tag(f) + (if SignWritten(f, v, more) then Unit(f) else 0) +
              Shifted(Magnitude(v), more) % Unit(f)
      modifies this`bytes
      ensures Valid() && Written(f, v).Some? && bytes == old(bytes) + Written(f, v).value
    {
      hide Header, ByteOf, Bytes, More, Tag, Unit, Shifted, SignWritten;
      HeaderFrom(f, v, more);
      var m := Magnitude(v);
      ghost var all := Bytes(f, m, more + 1);
      BytesFrom(f, m, more + 1, 0);
      bytes := bytes + [header];
      var k := 0;
      while k < more
        invariant 0 <= k <= more && Valid()
        invariant bytes == old(bytes) + ([header] + all[1..k + 1])
      {
        k := k + 1;
        BytesFrom(f, m, more + 1, k);
        bytes := bytes + [ByteOf(f, m, more - k)];
      }
      assert all[1..more + 1] == all[1..];
    }

    method WriteTwoUnsigned(value: int) returns (ok: bool)
      requires Valid() && 0 <= value < 0x1_0000_0000
      modifies this`bytes
      ensures Valid() && ok == Written(TwoUnsigned, value).Some?
      ensures bytes == old(bytes) + if ok then Written(TwoUnsigned, value).value else []
    {
      if value > 0x7FFF {
        return false;
      }
      if value >= 0x7F {
        Put(TwoUnsigned, value, 1, Shifted(value, 1) % 128 + 0x80);
      } else {
        Put(TwoUnsigned, value, 0, value % 128);
      }
      return true;
    }

    method WriteTwoSigned(v: int) returns (ok: bool)
      requires Valid() && -0x8000_0000 < v < 0x8000_0000
      modifies this`bytes
      ensures Valid() && ok == Written(TwoSigned, v).Some?
      ensures bytes == old(bytes) + if ok then Written(TwoSigned, v).value else []
    {
      var value, sign := v, 0;
      if v < 0 {
        value, sign := -v, 0x40;
      }
      if value > 0x3FFF {
        return false;
      }
      if value >= 0x3F {
        Put(TwoSigned, v, 1, Shifted(value, 1) % 64 + sign + 0x80);
      } else {
        Put(TwoSigned, v, 0, value % 64 + sign);
      }
      return true;
    }

    method WriteFourUnsigned(value: int) returns (ok: bool)
      requires Valid() && 0 <= value < 0x1_0000_0000
      modifies this`bytes
      ensures Valid() && ok == Written(FourUnsigned, value).Some?
      ensures bytes == old(bytes) + if ok then Written(FourUnsigned, value).value else []
    {
      if value <= 0x3F {
        Put(FourUnsigned, value, 0, value);
      } else if value <= 0x3FFF {
        Put(FourUnsigned, value, 1, Shifted(value, 1) % 64 + 0x40);
      } else if value <= 0x3FFFFF {
        Put(FourUnsigned, value, 2, Shifted(value, 2) % 64 + 0x80);
      } else {
        return false;
      }
      return true;
    }

    method WriteFourSigned(v: int) returns (ok: bool)
      requires Valid() && -0x8000_0000 < v < 0x8000_0000
      modifies this`bytes
      ensures Valid() && ok == Written(FourSigned, v).Some?
      ensures bytes == old(bytes) + if ok then Written(FourSigned, v).value else []
    {
      var value, sign := v, 0;
      if v < 0 {
        value, sign := -v, 0x20;
      }
      if value <= 0x1F {
        Put(FourSigned, v, 0, value);
      } else if value <= 0x1FFF {
        Put(FourSigned, v, 1, Shifted(value, 1) % 32 + sign + 0x40);
      } else if value <= 0x1FFFFF {
        Put(FourSigned, v, 2, Shifted(value, 2) % 32 + sign + 0x80);
      } else {
        return false;
      }
      return true;
    }

    method WriteEightUnsigned(value: int) returns (ok: bool)
      requires Valid() && 0 <= value < 0x1_0000_0000_0000_0000
      modifies this`bytes
      ensures Valid() && ok == Written(EightUnsigned, value).Some?
      ensures bytes == old(bytes) + if ok then Written(EightUnsigned, value).value else []
    {
      var more;
      if value <= 0x1F {
        more := 0;
      } else if value <= 0x1FFF {
        more := 1;
      } else if value <= 0x1FFFFF {
        more := 2;
      } else if value <= 0x1FFFFFFF {
        more := 4;
      } else if value <= 0x1FFFFFFFFF {
        more := 5;
      } else if value <= 0x1FFFFFFFFFFF {
        more := 6;
      } else if value <= 0x1FFFFFFFFFFFFF {
        more := 7;
      } else {
        return false;
      }
      Put(EightUnsigned, value, more, Shifted(value, more) % 32 + more * 32);
      return true;
    }

    /** The count of further bytes is known and they are there: the value they make under the top bits. */
    method Take(top: Byte, more: nat) returns (m: nat)
      requires Valid() && pos + more <= |bytes|
      modifies this`pos
      ensures Valid() && pos == old(pos) + more && m == Big([top] + bytes[old(pos)..pos])
    {
      m := top;
      var k := 0;
      assert Big([top]) == top && [top] + bytes[pos..pos] == [top];
      while k < more
        invariant 0 <= k <= more && pos == old(pos) + k && pos <= |bytes|
        invariant m == Big([top] + bytes[old(pos)..pos])
      {
        ghost var s := [top] + bytes[old(pos)..pos + 1];
        assert s[..|s| - 1] == [top] + bytes[old(pos)..pos];
        m := m * 256 + bytes[pos];
        pos := pos + 1;
        k := k + 1;
      }
    }

    method ReadTwoUnsigned() returns (r: Option<int>)
      requires Valid()
      modifies this`pos
      ensures Valid() && var rd := Read(TwoUnsigned, old(bytes[pos..])); r == rd.value && pos == old(pos) + rd.taken
    {
      hide Read, Big;
      ReadFrom(TwoUnsigned, bytes, pos);
      if |bytes| - pos < 1 {
        return None;
      }
      var byte := bytes[pos];
      pos := pos + 1;
      if byte >= 0x80 && |bytes| - pos < 1 {
        return None;
      }
      var m := Take(byte % 0x80, byte / 0x80);
      return Some(m);
    }

    method ReadTwoSigned() returns (r: Option<int>)
      requires Valid()
      modifies this`pos
      ensures Valid() && var rd := Read(TwoSigned, old(bytes[pos..])); r == rd.value && pos == old(pos) + rd.taken
    {
      hide Read, Big;
      ReadFrom(TwoSigned, bytes, pos);
      if |bytes| - pos < 1 {
        return None;
      }
      var byte := bytes[pos];
      pos := pos + 1;
      var negative := byte / 0x40 % 2 == 1;
      if byte >= 0x80 && |bytes| - pos < 1 {
        return None;
      }
      var m := Take(byte % 0x40, byte / 0x80);
      r := Some(m);
      if negative {
        var value: int := m;
        r := Some(-value);
      }
    }

    method ReadFourUnsigned() returns (r: Option<int>)
      requires Valid()
      modifies this`pos
      ensures Valid() && var rd := Read(FourUnsigned, old(bytes[pos..])); r == rd.value && pos == old(pos) + rd.taken
    {
      hide Read, Big;
      ReadFrom(FourUnsigned, bytes, pos);
      if |bytes| - pos < 1 {
        return None;
      }
      var byte := bytes[pos];
      pos := pos + 1;
      var count := byte / 0x40;
      if |bytes| - pos < count {
        return None;
      }
      var m := Take(byte % 0x40, count);
      return Some(m);
    }

    method ReadFourSigned() returns (r: Option<int>)
      requires Valid()
      modifies this`pos
      ensures Valid() && var rd := Read(FourSigned, old(bytes[pos..])); r == rd.value && pos == old(pos) + rd.taken
    {
      hide Read, Big;
      ReadFrom(FourSigned, bytes, pos);
      if |bytes| - pos < 1 {
        return None;
      }
      var byte := bytes[pos];
      pos := pos + 1;
      var count, negative := byte / 0x40, byte / 0x20 % 2 == 1;
      if |bytes| - pos < count {
        return None;
      }
      var m := Take(byte % 0x20, count);
      r := Some(m);
      if negative {
        var value: int := m;
        r := Some(-value);
      }
    }

    method ReadEightUnsigned() returns (r: Option<int>)
      requires Valid()
      modifies this`pos
      ensures Valid() && var rd := Read(EightUnsigned, old(bytes[pos..])); r == rd.value && pos == old(pos) + rd.taken
    {
      hide Read, Big;
      ReadFrom(EightUnsigned, bytes, pos);
      if |bytes| - pos < 1 {
        return None;
      }
      var byte := bytes[pos];
      pos := pos + 1;
      var count := byte / 0x20;
      if |bytes| - pos < count {
        return None;
      }
      var m := Take(byte % 0x20, count);
      if count >= 4 {
        m := Extended(m, bytes[pos - 4]);
      }
      return Some(m);
    }
  }
}
