/** The encoder against section 4 of RFC 4648, which is written down here on its own */
module Base64Standard {
  import opened Bits
  import opened Base64Text

  /** Table 1 of RFC 4648, eight characters a row */
  function Letter(v: int): char
    requires 0 <= v < 64
  {
    var row := if v < 8 then "ABCDEFGH" else if v < 16 then "IJKLMNOP" else if v < 24 then "QRSTUVWX"
               else if v < 32 then "YZabcdef" else if v < 40 then "ghijklmn" else if v < 48 then "opqrstuv"
               else if v < 56 then "wxyz0123" else "456789+/";
    row[v % 8]
  }

  lemma CharIsStandard(v: int)
    requires 0 <= v < 64
    ensures Char(v) == Letter(v)
  {
  }

  function Joined(a: int, b: int, c: int): int { 0x1_0000 * a + 0x100 * b + c }

  /** The four characters of a 24-bit number, six bits each, high bits first */
  function Quad(n: nat): (q: string)
    requires n < 0x100_0000
    ensures |q| == 4
  {
    [Letter(n / 0x4_0000), Letter(n / 0x1000 % 64), Letter(n / 64 % 64), Letter(n % 64)]
  }

  /** Three bytes are one 24-bit number; what is missing at the end counts as zero bits and is written as padding. */
  function Standard(data: seq<Byte>): string {
    if |data| == 0 then []
    else if |data| == 1 then Quad(Joined(data[0], 0, 0))[..2] + "=="
    else if |data| == 2 then Quad(Joined(data[0], data[1], 0))[..3] + "="
    else Quad(Joined(data[0], data[1], data[2])) + Standard(data[3..])
  }

  lemma JoinedParts(a: int, b: int, c: int)
    requires 0 <= a < 256 && 0 <= b < 256 && 0 <= c < 256
    ensures var n := Joined(a, b, c);
            && 0 <= n < 0x100_0000 && n / 0x4_0000 == a / 4 && n / 0x1000 % 64 == a % 4 * 16 + b / 16
            && n / 64 % 64 == b % 16 * 4 + c / 64 && n % 64 == c % 64
  {
    var n := Joined(a, b, c);
    assert n / 0x1000 == 16 * a + b / 16 && n / 64 == 1024 * a + 4 * b + c / 64;
  }

  lemma GroupIsStandard(a: Byte, b: Byte, c: Byte)
    ensures Group(a, b, c) == Quad(Joined(a, b, c))
  {
    hide Char, Letter;
    JoinedParts(a, b, c);
    hide Joined;
    CharIsStandard(a / 4);
    CharIsStandard(a % 4 * 16 + b / 16);
    CharIsStandard(b % 16 * 4 + c / 64);
    CharIsStandard(c % 64);
  }

  /** The encoder writes what the standard says, for all bytes. */
  lemma {:induction false} EncodedIsStandard(data: seq<Byte>)
    ensures Encoded(data) == Standard(data)
  {
    hide Char, Quad;
    if |data| == 1 {
      GroupIsStandard(data[0], 0, 0);
    } else if |data| == 2 {
      GroupIsStandard(data[0], data[1], 0);
    } else if |data| > 2 {
      hide Group;
      GroupIsStandard(data[0], data[1], data[2]);
      EncodedIsStandard(data[3..]);
    }
  }
}
