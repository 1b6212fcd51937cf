/**
 Base64 as the WebSocket layer uses it (novnc/include/base64.js, section 4 of RFC 4648), and the send queue
 (novnc/include/websock.js), whose frames are Base64 text.
 */
module Base64Text {
  import opened Common
  import opened Bits

  const PAD := '='

  datatype Result<+T> = Ok(value: T) | Corrupted

  /** toBase64Table */
  function Char(v: int): char
    requires 0 <= v < 64
  {
    if v < 26 then 'A' + v as char
    else if v < 52 then 'a' + (v - 26) as char
    else if v < 62 then '0' + (v - 52) as char
    else if v == 62 then '+' else '/'
  }

  /** toBinaryTable, looked up with the low seven bits of the character code; the padding counts as 0 */
  function Sextet(c: char): (v: int)
    ensures -1 <= v < 64
  {
    var code := c as int % 128;
    if 'A' as int <= code <= 'Z' as int then code - 'A' as int
    else if 'a' as int <= code <= 'z' as int then code - 'a' as int + 26
    else if '0' as int <= code <= '9' as int then code - '0' as int + 52
    else if code == '+' as int then 62 else if code == '/' as int then 63
    else if code == PAD as int then 0 else -1
  }

  lemma SextetOfChar(v: int)
    requires 0 <= v < 64
    ensures Sextet(Char(v)) == v && Char(v) != PAD
  {
  }

  /** Only the low seven bits of a character count. */
  lemma LowSevenBits(c: char, d: char)
    requires c as int % 128 == d as int % 128
    ensures Sextet(c) == Sextet(d)
  {
  }

  // ----- encoding -----

  function Group(a: Byte, b: Byte, c: Byte): (g: string)
    ensures |g| == 4
  {
    [Char(a / 4), Char(a % 4 * 16 + b / 16), Char(b % 16 * 4 + c / 64), Char(c % 64)]
  }

  /** The last one or two bytes, padded to four characters */
  function Tail(data: seq<Byte>): string
    requires 1 <= |data| <= 2
  {
    if |data| == 1 then [Char(data[0] / 4), Char(data[0] % 4 * 16), PAD, PAD]
    else [Char(data[0] / 4), Char(data[0] % 4 * 16 + data[1] / 16), Char(data[1] % 16 * 4), PAD]
  }

  /** Three bytes at a time, then the rest with padding */
  function Encoded(data: seq<Byte>): string {
    if |data| == 0 then []
    else if |data| <= 2 then Tail(data)
    else Group(data[0], data[1], data[2]) + Encoded(data[3..])
  }

  lemma EncodedGroup(text: string, data: seq<Byte>, i: nat)
    requires i + 3 <= |data|
    ensures text + Encoded(data[i..]) == text + Group(data[i], data[i + 1], data[i + 2]) + Encoded(data[i + 3..])
  {
    assert data[i..][3..] == data[i + 3..];
    hide Group;
  }

  lemma EncodedTail(data: seq<Byte>)
    ensures |data| == 0 ==> Encoded(data) == []
    ensures 1 <= |data| <= 2 ==> Encoded(data) == Tail(data)
  {
  }

  method Encode(data: seq<Byte>) returns (result: string)
    ensures result == Encoded(data)
  {
    hide Encoded, Group, Tail;
    result := [];
    var i := 0;
    assert data[i..] == data;
    while i < |data| - 2
      invariant 0 <= i <= |data| && i % 3 == 0
      invariant result + Encoded(data[i..]) == Encoded(data)
    {
      EncodedGroup(result, data, i);
      result := result + Group(data[i], data[i + 1], data[i + 2]);
      i := i + 3;
    }
    EncodedTail(data[i..]);
    if |data| % 3 != 0 {
      result := result + Tail(data[|data| - |data| % 3..]);
    }
  }

  // ----- decoding -----

  /** The loop's variables: bits decoded but not yet appended, and the bytes appended */
  datatype Decoder = Decoder(leftbits: nat, leftdata: nat, out: seq<int>)

  /** Two to the power of the bits that can be left over */
  function Unit(bits: nat): (u: nat)
    ensures u > 0
  {
    if bits == 0 then 1 else if bits == 2 then 4 else if bits == 4 then 16 else 64
  }

  /** The byte above the bits left over, and those bits */
  function Above(data: nat, left: nat): int { data / Unit(left) % 256 }

  function Below(data: nat, left: nat): nat { data % Unit(left) }

  /** One character: illegal ones are skipped, padding moves on without appending. */
  function Take(d: Decoder, c: char): (r: Decoder)
    requires d.leftbits in {0, 2, 4, 6}
    ensures r.leftbits in {0, 2, 4, 6}
  {
    var v := Sextet(c);
    if v == -1 then d
    else
      var data, bits := d.leftdata * 64 + v, d.leftbits + 6;
      if bits < 8 then Decoder(bits, data, d.out)
      else
        var left := bits - 8;
        Decoder(left, Below(data, left), if c == PAD then d.out else d.out + [Above(data, left)])
  }

  function TakeAll(d: Decoder, text: string): (r: Decoder)
    requires d.leftbits in {0, 2, 4, 6}
    ensures r.leftbits in {0, 2, 4, 6}
    decreases |text|
  {
    if text == [] then d else TakeAll(Take(d, text[0]), text[1..])
  }

  /** Where the first padding is, or the length */
  function DataLength(text: string): nat {
    if text == [] || text[0] == PAD then 0 else 1 + DataLength(text[1..])
  }

  /** The length the result array is made with */
  function ResultLength(n: nat): nat {
    n / 4 * 3 + n % 4 * 2 / 3
  }

  function Holes(n: int): (h: seq<int>)
    ensures |h| == Max(0, n) && forall i :: 0 <= i < |h| ==> h[i] == UNDEFINED
  {
    if n <= 0 then [] else [UNDEFINED] + Holes(n - 1)
  }

  /** Slots of the result that are not filled stay undefined; bits left over are an error. */
  function Decoded(text: string): Result<seq<int>> {
    var d := TakeAll(Decoder(0, 0, []), text);
    if d.leftbits != 0 then Corrupted else Ok(d.out + Holes(ResultLength(DataLength(text)) - |d.out|))
  }

  method Decode(text: string) returns (r: Result<seq<int>>)
    ensures r == Decoded(text)
  {
    hide Sextet, Holes, Above, Below;
    var dataLength := 0;
    while dataLength < |text| && text[dataLength] != PAD
      invariant 0 <= dataLength <= |text| && DataLength(text) == dataLength + DataLength(text[dataLength..])
    {
      dataLength := dataLength + 1;
    }
    var resultLength := dataLength / 4 * 3 + dataLength % 4 * 2 / 3;
    var result: seq<int>, leftbits: nat, leftdata: nat := [], 0, 0;
    var i := 0;
    assert text[0..] == text;
    while i < |text|
      invariant 0 <= i <= |text| && leftbits in {0, 2, 4, 6}
      invariant TakeAll(Decoder(leftbits, leftdata, result), text[i..]) == TakeAll(Decoder(0, 0, []), text)
    {
      assert text[i..][0] == text[i] && text[i..][1..] == text[i + 1..];
      var c, padding := Sextet(text[i]), text[i] == PAD;
      i := i + 1;
      if c == -1 {
        continue;
      }
      leftdata := leftdata * 64 + c;
      leftbits := leftbits + 6;
      if leftbits >= 8 {
        leftbits := leftbits - 8;
        if !padding {
          result := result + [Above(leftdata, leftbits)];
        }
        leftdata := Below(leftdata, leftbits);
      }
    }
    if leftbits != 0 {
      return Corrupted;
    }
    return Ok(result + Holes(resultLength - |result|));
  }

  // ----- the round trip -----

  lemma TakeOne(d: Decoder, c: char, rest: string)
    requires d.leftbits in {0, 2, 4, 6}
    ensures TakeAll(d, [c] + rest) == TakeAll(Take(d, c), rest)
  {
    assert ([c] + rest)[1..] == rest;
  }

  lemma TakeFour(d: Decoder, g: string, rest: string)
    requires d.leftbits in {0, 2, 4, 6} && |g| == 4
    ensures TakeAll(d, g + rest) == TakeAll(Take(Take(Take(Take(d, g[0]), g[1]), g[2]), g[3]), rest)
  {
    hide Take, TakeAll;
    assert g + rest == [g[0]] + ([g[1]] + ([g[2]] + ([g[3]] + rest)));
    TakeOne(d, g[0], [g[1]] + ([g[2]] + ([g[3]] + rest)));
    TakeOne(Take(d, g[0]), g[1], [g[2]] + ([g[3]] + rest));
    TakeOne(Take(Take(d, g[0]), g[1]), g[2], [g[3]] + rest);
    TakeOne(Take(Take(Take(d, g[0]), g[1]), g[2]), g[3], rest);
  }

  lemma Quotient(byte: nat, r: nat)
    requires byte < 256
    ensures r < 16 ==> (byte * 16 + r) / 16 == byte && (byte * 16 + r) % 16 == r
    ensures r < 4 ==> (byte * 4 + r) / 4 == byte && (byte * 4 + r) % 4 == r
  {
  }

  lemma Parts(byte: nat, r: nat)
    requires byte < 256
    ensures r < 16 ==> Above(byte * 16 + r, 4) == byte && Below(byte * 16 + r, 4) == r
    ensures r < 4 ==> Above(byte * 4 + r, 2) == byte && Below(byte * 4 + r, 2) == r
    ensures Above(byte, 0) == byte && Below(byte, 0) == 0
  {
    Quotient(byte, r);
  }

  /** The four places a character can have in a group */
  lemma TakeChar(out: seq<int>, x: nat, v: int, byte: nat, r: nat)
    requires 0 <= v < 64 && byte < 256
    ensures Take(Decoder(0, 0, out), Char(v)) == Decoder(6, v, out)
    ensures x * 64 + v == byte * 16 + r && r < 16 ==> Take(Decoder(6, x, out), Char(v)) == Decoder(4, r, out + [byte])
    ensures x * 64 + v == byte * 4 + r && r < 4 ==> Take(Decoder(4, x, out), Char(v)) == Decoder(2, r, out + [byte])
    ensures x * 64 + v == byte ==> Take(Decoder(2, x, out), Char(v)) == Decoder(0, 0, out + [byte])
  {
    hide Char, Sextet, Above, Below;
    SextetOfChar(v);
    Parts(byte, r);
  }

  lemma TakePad(out: seq<int>)
    ensures Take(Decoder(4, 0, out), PAD) == Decoder(2, 0, out) && Take(Decoder(2, 0, out), PAD) == Decoder(0, 0, out)
  {
  }

  lemma GroupDecodes(out: seq<int>, a: Byte, b: Byte, c: Byte, rest: string)
    ensures TakeAll(Decoder(0, 0, out), Group(a, b, c) + rest) == TakeAll(Decoder(0, 0, out + [a] + [b] + [c]), rest)
  {
    hide Take, TakeAll, Char;
    TakeFour(Decoder(0, 0, out), Group(a, b, c), rest);
    TakeChar(out, 0, a / 4, 0, 0);
    TakeChar(out, a / 4, a % 4 * 16 + b / 16, a, b / 16);
    TakeChar(out + [a], b / 16, b % 16 * 4 + c / 64, b, c / 64);
    TakeChar(out + [a] + [b], c / 64, c % 64, c, 0);
  }

  lemma TailDecodes(out: seq<int>, data: seq<Byte>)
    requires 1 <= |data| <= 2
    ensures TakeAll(Decoder(0, 0, out), Tail(data)) == Decoder(0, 0, out + data)
  {
    hide Take, Char;
    var a, t := data[0], Tail(data);
    TakeFour(Decoder(0, 0, out), t, []);
    assert t + [] == t;
    TakeChar(out, 0, a / 4, 0, 0);
    if |data| == 1 {
      TakeChar(out, a / 4, a % 4 * 16, a, 0);
      TakePad(out + [a]);
      assert out + [a] == out + data;
    } else {
      var b := data[1];
      TakeChar(out, a / 4, a % 4 * 16 + b / 16, a, b / 16);
      TakeChar(out + [a], b / 16, b % 16 * 4, b, 0);
      TakePad(out + [a] + [b]);
      assert out + [a] + [b] == out + data;
    }
  }

  lemma {:induction false} BytesDecode(out: seq<int>, data: seq<Byte>)
    ensures TakeAll(Decoder(0, 0, out), Encoded(data)) == Decoder(0, 0, out + data)
    decreases |data|
  {
    hide Group, Tail;
    if |data| == 0 {
      assert out + data == out;
    } else if |data| <= 2 {
      TailDecodes(out, data);
    } else {
      GroupDecodes(out, data[0], data[1], data[2], Encoded(data[3..]));
      BytesDecode(out + [data[0]] + [data[1]] + [data[2]], data[3..]);
      assert out + [data[0]] + [data[1]] + [data[2]] + data[3..] == out + data;
    }
  }

  lemma DataOne(c: char, rest: string)
    requires c != PAD
    ensures DataLength([c] + rest) == 1 + DataLength(rest)
  {
    assert ([c] + rest)[1..] == rest;
  }

  lemma DataFour(g: string, rest: string)
    requires |g| == 4 && PAD !in g
    ensures DataLength(g + rest) == 4 + DataLength(rest)
  {
    hide DataLength;
    assert g + rest == [g[0]] + ([g[1]] + ([g[2]] + ([g[3]] + rest)));
    assert g[0] != PAD && g[1] != PAD && g[2] != PAD && g[3] != PAD;
    DataOne(g[3], rest);
    DataOne(g[2], [g[3]] + rest);
    DataOne(g[1], [g[2]] + ([g[3]] + rest));
    DataOne(g[0], [g[1]] + ([g[2]] + ([g[3]] + rest)));
  }

  lemma TailLength(data: seq<Byte>)
    requires 1 <= |data| <= 2
    ensures DataLength(Tail(data)) == |data| + 1
  {
    hide Char;
    var a := data[0];
    assert DataLength([PAD]) == 0 && DataLength([PAD, PAD]) == 0;
    SextetOfChar(a / 4);
    if |data| == 1 {
      SextetOfChar(a % 4 * 16);
      DataOne(Char(a % 4 * 16), [PAD, PAD]);
      DataOne(Char(a / 4), [Char(a % 4 * 16)] + [PAD, PAD]);
      assert Tail(data) == [Char(a / 4)] + ([Char(a % 4 * 16)] + [PAD, PAD]);
    } else {
      var y, z := Char(a % 4 * 16 + data[1] / 16), Char(data[1] % 16 * 4);
      SextetOfChar(a % 4 * 16 + data[1] / 16);
      SextetOfChar(data[1] % 16 * 4);
      DataOne(z, [PAD]);
      DataOne(y, [z] + [PAD]);
      DataOne(Char(a / 4), [y] + ([z] + [PAD]));
      assert Tail(data) == [Char(a / 4)] + ([y] + ([z] + [PAD]));
    }
  }

  lemma GroupHasNoPad(a: Byte, b: Byte, c: Byte)
    ensures PAD !in Group(a, b, c)
  {
    hide Char;
    SextetOfChar(a / 4);
    SextetOfChar(a % 4 * 16 + b / 16);
    SextetOfChar(b % 16 * 4 + c / 64);
    SextetOfChar(c % 64);
  }

  /** The result array of an encoded text is made with exactly the length it will be filled to. */
  lemma {:induction false} LengthForeseen(data: seq<Byte>)
    ensures ResultLength(DataLength(Encoded(data))) == |data|
    decreases |data|
  {
    hide Group, Tail;
    if 1 <= |data| <= 2 {
      TailLength(data);
    } else if |data| > 2 {
      GroupHasNoPad(data[0], data[1], data[2]);
      DataFour(Group(data[0], data[1], data[2]), Encoded(data[3..]));
      LengthForeseen(data[3..]);
    }
  }

  /** Decoding inverts encoding, for every byte sequence. */
  lemma RoundTrip(data: seq<Byte>)
    ensures Decoded(Encoded(data)) == Ok(data)
  {
    hide Encoded, TakeAll, DataLength, ResultLength;
    BytesDecode([], data);
    LengthForeseen(data);
    assert Holes(0) == [] && [] + data == data && data + [] == data;
  }

  // ----- the send queue -----

  /** What a receiver gets from the frames, one after the other */
  function Arrived(frames: seq<string>): seq<int> {
    if frames == [] then []
    else
      var d := Decoded(frames[|frames| - 1]);
      Arrived(frames[..|frames| - 1]) + (if d.Ok? then d.value else [])
  }

  class Sender {
    var sQ: seq<Byte>
    var frames: seq<string>           // what was handed to the socket
    ghost var sent: seq<Byte>         // everything passed to Send
    const maxBufferedAmount: nat

    /** Nothing passed to Send is lost, repeated or reordered. */
    ghost predicate Valid()
      reads this
    {
      Arrived(frames) + sQ == sent
    }

    constructor (maxBufferedAmount: nat)
      ensures Valid() && sQ == [] && frames == [] && sent == []
    {
      sQ, frames, sent := [], [], [];
      this.maxBufferedAmount := maxBufferedAmount;
    }

    /** flush, with the amount the socket has buffered: everything queued goes in one frame, or nothing goes. */
    method Flush(bufferedAmount: nat) returns (flushed: bool)
      requires Valid()
      modifies this`sQ, this`frames
      ensures Valid() && flushed == (bufferedAmount < maxBufferedAmount)
      ensures sQ == if flushed then [] else old(sQ)
      ensures flushed ==> Arrived(frames) == sent
      ensures frames == old(frames) || (flushed && old(sQ) != [] && frames == old(frames) + [Encoded(old(sQ))])
    {
      hide Encoded, Decoded;
      flushed := bufferedAmount < maxBufferedAmount;
      if flushed && |sQ| > 0 {
        var text := Encode(sQ);
        frames := frames + [text];
        RoundTrip(sQ);
        sQ := [];
      }
    }

    method Send(arr: seq<Byte>, bufferedAmount: nat) returns (flushed: bool)
      requires Valid()
      modifies this
      ensures Valid() && sent == old(sent) + arr && flushed == (bufferedAmount < maxBufferedAmount)
      ensures flushed ==> Arrived(frames) == sent
    {
      sent := sent + arr;
      assert Arrived(frames) + (sQ + arr) == Arrived(frames) + sQ + arr;
      sQ := sQ + arr;
      flushed := Flush(bufferedAmount);
    }
  }
}
