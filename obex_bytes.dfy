/** Octets and the bit masks the OBEX decoder applies to them, with the
    network-order integer reads. An octet is an integer in 0..255, and each
    C mask is written as the arithmetic it amounts to on such a value. */
module ObexBytes {

  type byte = x: int | 0 <= x < 0x100

  /** `b & 0x80`, the final bit of an opcode. */
  predicate Bit7(b: byte)
  {
    b >= 0x80
  }

  /** `b & 0x7f`: an opcode without its final bit. */
  function Low7(b: byte): (r: byte)
    ensures r < 0x80 && (r == b || r + 0x80 == b)
  {
    if Bit7(b) then b - 0x80 else b
  }

  /** `b & 0xc0`: the two encoding bits of a header identifier. */
  function High2(b: byte): (r: byte)
    ensures r == 0x00 || r == 0x40 || r == 0x80 || r == 0xc0
    ensures r <= b < r + 0x40
  {
    if b < 0x40 then 0x00 else if b < 0x80 then 0x40 else if b < 0xc0 then 0x80 else 0xc0
  }

  /** `b & 0x3f`: a header identifier without its two encoding bits. */
  function Low6(b: byte): (r: byte)
    ensures r < 0x40 && High2(b) + r == b
  {
    b - High2(b)
  }

  /** `b & 0x70`: the three bits between the final bit and the low nibble. */
  function Mid3(b: byte): (r: byte)
    ensures r % 0x10 == 0 && r <= Low7(b) < r + 0x10
  {
    Low7(b) / 0x10 * 0x10
  }

  /** `b >> 4` and `b & 0xf`: the high and the low nibble. */
  function HighNibble(b: byte): (r: nat)
    ensures r < 0x10
  {
    b / 0x10
  }

  function LowNibble(b: byte): (r: nat)
    ensures r < 0x10 && HighNibble(b) * 0x10 + r == b
  {
    b % 0x10
  }

  /** Two octets in network byte order. */
  function Be16(b0: byte, b1: byte): (v: nat)
    ensures v < 0x1_0000
  {
    b0 * 0x100 + b1
  }

  /** Four octets in network byte order. */
  function Be32(b0: byte, b1: byte, b2: byte, b3: byte): (v: nat)
    ensures v < 0x1_0000_0000
  {
    Be16(b0, b1) * 0x1_0000 + Be16(b2, b3)
  }

  /** The network-order encoding of a 16-bit value, the inverse of Be16. */
  function U16Octets(v: nat): (s: seq<byte>)
    requires v < 0x1_0000
    ensures |s| == 2 && Be16(s[0], s[1]) == v
  {
    [v / 0x100, v % 0x100]
  }

  /** The network-order encoding of a 32-bit value. */
  function U32Octets(v: nat): (s: seq<byte>)
    requires v < 0x1_0000_0000
    ensures |s| == 4
  {
    var hi, lo := v / 0x1_0000, v % 0x1_0000;
    [hi / 0x100, hi % 0x100, lo / 0x100, lo % 0x100]
  }

  /** U32Octets is the inverse of Be32. */
  lemma Be32Octets(v: nat)
    requires v < 0x1_0000_0000
    ensures var s := U32Octets(v); Be32(s[0], s[1], s[2], s[3]) == v
  {
  }

  /** Encoding the value read from two octets gives back those octets. */
  lemma Be16Octets(b0: byte, b1: byte)
    ensures U16Octets(Be16(b0, b1)) == [b0, b1]
  {
    var v := Be16(b0, b1);
    assert v / 0x100 == b0 && v % 0x100 == b1;
  }
}
