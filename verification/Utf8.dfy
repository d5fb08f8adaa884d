/** The UTF-8 form of a code point (RFC 3629, section 3), behind the byte lengths
    that chunking compares. */
module Utf8 {
  import opened Text

  type Byte = n: nat | n < 0x100

  /** Groups of six bits, the last first, behind a leading byte. */
  function Encode(c: char): seq<Byte> {
    var n := c as int;
    var m := n / 0x40;
    var l := m / 0x40;
    var k := l / 0x40;
    if n < 0x80 then [n]
    else if n < 0x800 then [0xC0 + m, 0x80 + n % 0x40]
    else if n < 0x1_0000 then [0xE0 + l, 0x80 + m % 0x40, 0x80 + n % 0x40]
    else [0xF0 + k, 0x80 + l % 0x40, 0x80 + m % 0x40, 0x80 + n % 0x40]
  }

  /** How many bytes the first byte announces. */
  function Announced(first: Byte): nat {
    if first < 0x80 then 1 else if first < 0xE0 then 2 else if first < 0xF0 then 3 else 4
  }

  /** What a byte carries beyond its marker. */
  function Bits(b: Byte, marker: int): int {
    (b as int) - marker
  }

  /** The number that a whole sequence stands for. */
  function Decode(bs: seq<Byte>): int
    requires |bs| > 0 && |bs| == Announced(bs[0])
  {
    if |bs| == 1 then Bits(bs[0], 0)
    else if |bs| == 2 then Bits(bs[0], 0xC0) * 0x40 + Bits(bs[1], 0x80)
    else if |bs| == 3 then (Bits(bs[0], 0xE0) * 0x40 + Bits(bs[1], 0x80)) * 0x40 + Bits(bs[2], 0x80)
    else ((Bits(bs[0], 0xF0) * 0x40 + Bits(bs[1], 0x80)) * 0x40 + Bits(bs[2], 0x80)) * 0x40 + Bits(bs[3], 0x80)
  }

  /** The first byte announces the length, the others are continuation bytes, and the
      code point comes back. */
  lemma EncodeDecode(c: char)
    ensures var bs := Encode(c);
            |bs| == Utf8Width(c) == Announced(bs[0]) && Decode(bs) == c as int
            && forall i :: 0 < i < |bs| ==> 0x80 <= bs[i] < 0xC0
  {}

  function EncodeAll(s: string): seq<Byte> {
    if s == "" then [] else Encode(s[0]) + EncodeAll(s[1..])
  }

  /** Go's `len(s)` is the number of bytes of the encoded text. */
  lemma {:induction false} ByteLenIsEncodedLength(s: string)
    ensures |EncodeAll(s)| == ByteLen(s)
  {
    hide Encode;
    if s != "" {
      EncodeDecode(s[0]);
      ByteLenIsEncodedLength(s[1..]);
    }
  }
}
