/** The frame cursor the decoder reads from: a buffer, a read position and a
    remaining-length counter, with the network-order reads `get_u8`,
    `get_u16` and `get_u32` and the explicit advance the header parser makes
    after rendering a payload. */
module ObexFrame {
  import opened ObexBytes

  /** One PDU as handed over by the transport layer. `data` is the buffer
      from where the cursor started; `ptr` is the read position within it
      and `len` the number of bytes left, so the two always add up to the
      size of the buffer. */
  class Frame {
    const data: seq<byte>
    var ptr: nat
    var len: nat

    ghost predicate Valid()
      reads this
    {
      ptr + len == |data|
    }

    /** The bytes not yet consumed. */
    function Rest(): (r: seq<byte>)
      reads this
      requires Valid()
      ensures |r| == len
    {
      data[ptr..]
    }

    constructor (data: seq<byte>)
      ensures Valid() && this.data == data && ptr == 0 && len == |data|
    {
      this.data := data;
      ptr := 0;
      len := |data|;
    }

    /** `get_u8`: one octet. */
    method GetU8() returns (v: byte)
      requires Valid() && 1 <= len
      modifies this
      ensures Valid() && ptr == old(ptr) + 1 && len == old(len) - 1
      ensures v == data[old(ptr)]
    {
      v := data[ptr];
      ptr, len := ptr + 1, len - 1;
    }

    /** `get_u16`: two octets in network byte order. */
    method GetU16() returns (v: nat)
      requires Valid() && 2 <= len
      modifies this
      ensures Valid() && ptr == old(ptr) + 2 && len == old(len) - 2
      ensures v == Be16(data[old(ptr)], data[old(ptr) + 1])
    {
      v := Be16(data[ptr], data[ptr + 1]);
      ptr, len := ptr + 2, len - 2;
    }

    /** `get_u32`: four octets in network byte order. */
    method GetU32() returns (v: nat)
      requires Valid() && 4 <= len
      modifies this
      ensures Valid() && ptr == old(ptr) + 4 && len == old(len) - 4
      ensures v == Be32(data[old(ptr)], data[old(ptr) + 1], data[old(ptr) + 2], data[old(ptr) + 3])
    {
      v := Be32(data[ptr], data[ptr + 1], data[ptr + 2], data[ptr + 3]);
      ptr, len := ptr + 4, len - 4;
    }

    /** `frm->ptr += n; frm->len -= n;` for an advance that stays inside the
        buffer. */
    method Skip(n: nat)
      requires Valid() && n <= len
      modifies this
      ensures Valid() && ptr == old(ptr) + n && len == old(len) - n
    {
      ptr, len := ptr + n, len - n;
    }
  }
}
