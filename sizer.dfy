/** The Sizer: the Encoder's calls, counting bytes instead of writing them. A request builder
    runs the same calls through a Sizer and then an Encoder, and allocates what the Sizer
    counted. */
module Sizing {

  import opened Bytes
  import opened Utf8
  import opened Fields

  class Sizer {

    var byteOffset: int

    constructor (offset: int := 0)
      ensures byteOffset == offset
    {
      byteOffset := offset;
    }

    method Boolean(value: bool)
      modifies this
      ensures byteOffset == old(byteOffset) + 1 == old(byteOffset) + Size(Bool(value))
    {
      byteOffset := byteOffset + 1;
    }

    /** Charges `value.length` UTF-16 code units, which is the UTF-8 byte count only for ASCII. */
    method String(value: seq<byte>)
      modifies this
      ensures byteOffset == old(byteOffset) + Size(Str(value))
      ensures IsAscii(value) ==> byteOffset == old(byteOffset) + 4 + |value|
    {
      byteOffset := byteOffset + 4;
      byteOffset := byteOffset + Utf16Length(value);
      if IsAscii(value) {
        AsciiUtf16Length(value);
      }
    }

    method Uint8(value: int)
      modifies this
      ensures byteOffset == old(byteOffset) + 1 == old(byteOffset) + Size(U8(value))
    {
      byteOffset := byteOffset + 1;
    }

    method Uint32(value: int)
      modifies this
      ensures byteOffset == old(byteOffset) + 4 == old(byteOffset) + Size(U32(value))
    {
      byteOffset := byteOffset + 4;
    }

    method Int16(value: int)
      modifies this
      ensures byteOffset == old(byteOffset) + 2 == old(byteOffset) + Size(I16(value))
    {
      byteOffset := byteOffset + 2;
    }

    method Int32(value: int)
      modifies this
      ensures byteOffset == old(byteOffset) + 4 == old(byteOffset) + Size(I32(value))
    {
      byteOffset := byteOffset + 4;
    }

    method Int64(value: int)
      modifies this
      ensures byteOffset == old(byteOffset) + 8 == old(byteOffset) + Size(I64(value))
    {
      byteOffset := byteOffset + 8;
    }

    /** Charges `end - start`; by default the whole of `b`, as `Encoder.write(b)` copies. */
    method Write(b: seq<byte>, start: int := 0, end: int := |b|)
      modifies this
      ensures byteOffset == old(byteOffset) + (end - start)
      ensures start <= end ==> byteOffset >= old(byteOffset)
      ensures start == 0 && end == |b| ==> byteOffset == old(byteOffset) + Size(Raw(b))
    {
      byteOffset := byteOffset + (end - start);
    }
  }
}
