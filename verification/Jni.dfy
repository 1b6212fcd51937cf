/**
 The UTF-8 to UTF-16 loop of the Android client (rdpstack-docker/FreeRDP/client/Android/android_jni_utils.c), which
 reads each 16-bit unit from one, two or three bytes and skips bytes that do not fit.
 */
module JniStrings {
  import opened Bits

  type Unit = u: int | 0 <= u < 0x10000

  predicate Continues(b: Byte) { b / 64 == 2 }

  function Two(one: int, two: int): Unit { one % 32 * 64 + two % 64 }

  function Three(one: int, two: int, three: int): Unit { one % 16 * 4096 + two % 64 * 64 + three % 64 }

  /** How many bytes are read at the start of the text, and the unit they make: none for a byte that is skipped */
  datatype Piece = Piece(size: nat, units: seq<Unit>)

  function First(s: seq<Byte>): (p: Piece)
    requires s != []
    ensures 1 <= p.size <= |s| && |p.units| <= 1
  {
    var one := s[0];
    if one / 16 < 8 then Piece(1, [one])
    else if one / 16 < 12 then Piece(1, [])
    else if one / 16 < 14 then
      if |s| > 1 && Continues(s[1]) then Piece(2, [Two(one, s[1])]) else Piece(1, [])
    else
      if |s| > 2 && Continues(s[1]) && Continues(s[2])
      then Piece(3, [Three(one, s[1], s[2])]) else Piece(1, [])
  }

  function Units(s: seq<Byte>): (u: seq<Unit>)
    ensures |u| <= |s|
    decreases |s|
  {
    if s == [] then [] else First(s).units + Units(s[First(s).size..])
  }

  /** One unit in its one, two or three bytes */
  function UnitBytes(u: Unit): (b: seq<Byte>)
    ensures b != [] && !Continues(b[0])
  {
    if u < 0x80 then [u]
    else if u < 0x800 then [0xc0 + u / 64, 0x80 + u % 64]
    else [0xe0 + u / 4096, 0x80 + u / 64 % 64, 0x80 + u % 64]
  }

  function Bytes(us: seq<Unit>): (b: seq<Byte>)
    ensures if us == [] then b == [] else b != [] && !Continues(b[0])
  {
    if us == [] then [] else UnitBytes(us[0]) + Bytes(us[1..])
  }

  lemma TwoJoins(u: int)
    requires 0x80 <= u < 0x800
    ensures Two(0xc0 + u / 64, 0x80 + u % 64) == u
  {
  }

  lemma ThreeJoins(u: int)
    requires 0x800 <= u < 0x10000
    ensures Three(0xe0 + u / 4096, 0x80 + u / 64 % 64, 0x80 + u % 64) == u
  {
  }

  lemma FirstOfUnit(u: Unit, rest: seq<Byte>)
    ensures First(UnitBytes(u) + rest) == Piece(|UnitBytes(u)|, [u])
  {
    hide Two, Three;
    var s := UnitBytes(u) + rest;
    if 0x80 <= u < 0x800 {
      TwoJoins(u);
      assert s[1] == 0x80 + u % 64;
    } else if u >= 0x800 {
      ThreeJoins(u);
      assert s[1] == 0x80 + u / 64 % 64 && s[2] == 0x80 + u % 64;
    }
  }

  /** Every sequence of units encoded one unit at a time is recovered. */
  lemma {:induction false} RoundTrip(us: seq<Unit>)
    ensures Units(Bytes(us)) == us
  {
    if us != [] {
      hide First, UnitBytes;
      FirstOfUnit(us[0], Bytes(us[1..]));
      RoundTrip(us[1..]);
      assert Bytes(us)[|UnitBytes(us[0])|..] == Bytes(us[1..]);
    }
  }

  /** What the first piece is does not depend on encoded text that follows. */
  lemma FirstIsLocal(s: seq<Byte>, t: seq<Byte>)
    requires s != [] && (t != [] ==> !Continues(t[0]))
    ensures First(s + t) == First(s)
  {
    if t != [] {
      assert (s + t)[|s|] == t[0];
    }
  }

  /** Decoding gets back in step: whatever bytes come before, encoded text is recovered in full. */
  lemma {:induction false} Resynchronises(s: seq<Byte>, us: seq<Unit>)
    ensures Units(s + Bytes(us)) == Units(s) + us
    decreases |s|
  {
    hide First, Bytes;
    var t := Bytes(us);
    if s == [] {
      assert s + t == t;
      RoundTrip(us);
    } else {
      FirstIsLocal(s, t);
      var n := First(s).size;
      assert (s + t)[n..] == s[n..] + t;
      Resynchronises(s[n..], us);
    }
  }

  lemma NoUnits(s: seq<Byte>)
    ensures s == [] ==> Units(s) == []
  {
  }

  /** The first piece of the text from i on */
  function PieceAt(s: seq<Byte>, i: nat): Piece
    requires i < |s|
  {
    var one := s[i];
    if one / 16 < 8 then Piece(1, [one])
    else if one / 16 < 12 then Piece(1, [])
    else if one / 16 < 14 then
      if i < |s| - 1 && Continues(s[i + 1]) then Piece(2, [Two(one, s[i + 1])]) else Piece(1, [])
    else
      if i < |s| - 2 && Continues(s[i + 1]) && Continues(s[i + 2])
      then Piece(3, [Three(one, s[i + 1], s[i + 2])]) else Piece(1, [])
  }

  lemma UnitsStep(done: seq<Unit>, s: seq<Byte>, i: nat)
    requires i < |s|
    ensures var p := PieceAt(s, i);
            i + p.size <= |s| && done + Units(s[i..]) == done + p.units + Units(s[i + p.size..])
  {
    hide Two, Three;
    var p := First(s[i..]);
    assert p == PieceAt(s, i);
    assert s[i..][p.size..] == s[i + p.size..];
    assert done + (p.units + Units(s[i + p.size..])) == done + p.units + Units(s[i + p.size..]);
  }

  /** strlen */
  function ZeroAt(s: seq<Byte>): (n: nat)
    ensures n <= |s|
  {
    if s == [] || s[0] == 0 then 0 else 1 + ZeroAt(s[1..])
  }

  /** jniNewStringUTF, with the text it may read: a negative length asks for everything up to the first zero byte. */
  method NewString(utf8: seq<Byte>, length: int) returns (out: seq<Unit>)
    requires length <= |utf8|
    ensures out == Units(utf8[..if length < 0 then ZeroAt(utf8) else length])
    ensures |out| <= if length < 0 then ZeroAt(utf8) else length
  {
    hide Two, Three, Units;
    var len := if length < 0 then ZeroAt(utf8) else length;
    var unicode := new Unit[len + 1];
    var size, i := 0, 0;
    ghost var s := utf8[..len];
    while i < len
      invariant 0 <= size <= i <= len
      invariant unicode[..size] + Units(s[i..]) == Units(s)
    {
      ghost var before, at := unicode[..size], i;
      UnitsStep(before, s, i);
      var one := utf8[i];
      if one / 16 < 8 {
        unicode[size] := one;
        size := size + 1;
      } else if one / 16 < 12 {
      } else if one / 16 >= 14 {
        if i < len - 2 {
          var two, three := utf8[i + 1], utf8[i + 2];
          if two / 64 == 2 && three / 64 == 2 {
            i := i + 2;
            unicode[size] := Three(one, two, three);
            size := size + 1;
          }
        }
      } else {
        if i < len - 1 {
          var two := utf8[i + 1];
          if two / 64 == 2 {
            i := i + 1;
            unicode[size] := Two(one, two);
            size := size + 1;
          }
        }
      }
      i := i + 1;
      assert unicode[..size] == before + PieceAt(s, at).units && i == at + PieceAt(s, at).size;
    }
    NoUnits(s[i..]);
    out := unicode[..size];
  }
}
