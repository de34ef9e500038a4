/** The Encoder: a cursor that writes big-endian primitives into a pre-allocated buffer.
    The buffer is fixed for the encoder's lifetime; every write starts at `byteOffset`,
    advances it past the bytes written and leaves every other byte of the buffer alone. */
module Encoding {

  import opened Bytes
  import opened Utf8
  import opened NodeBuffer
  import opened Fields

  class Encoder {

    const buffer: array<byte>
    var byteOffset: nat

    ghost predicate Valid()
      reads this
    {
      byteOffset <= buffer.Length
    }

    constructor (b: array<byte>, offset: nat := 0)
      requires offset <= b.Length
      ensures Valid()
      ensures buffer == b && byteOffset == offset
    {
      buffer := b;
      byteOffset := offset;
    }

    /** The part of the buffer after the cursor. */
    function Remains(): (r: seq<byte>)
      requires Valid()
      reads this, buffer
      ensures |r| == buffer.Length - byteOffset
      ensures buffer[..byteOffset] + r == buffer[..]
    {
      buffer[byteOffset..]
    }

    method Boolean(value: bool)
      requires Valid() && byteOffset + 1 <= buffer.Length
      modifies this, buffer
      ensures Valid()
      ensures byteOffset == old(byteOffset) + |Encode(Bool(value))|
      ensures buffer[..byteOffset] == old(buffer[..byteOffset]) + Encode(Bool(value))
      ensures buffer[byteOffset..] == old(buffer[..])[byteOffset..]
    {
      var b := if value then 1 else 0;
      byteOffset := WriteUInt8(buffer, b, byteOffset);
    }

    /** Writes `value.length` (UTF-16 code units) as a 4-byte prefix, then the UTF-8 bytes of
        `value`, cut at a character boundary when they do not fit. The prefix matches the
        bytes written only for ASCII text. */
    method String(value: seq<byte>)
      requires Valid() && byteOffset + 4 <= buffer.Length
      requires IsInt32(Utf16Length(value))
      modifies this, buffer
      ensures Valid()
      ensures byteOffset == old(byteOffset) + 4 + Utf8Fit(value, buffer.Length - old(byteOffset) - 4)
      ensures buffer[..byteOffset]
           == old(buffer[..byteOffset]) + Int32BE(Utf16Length(value))
              + value[..byteOffset - old(byteOffset) - 4]
      ensures buffer[byteOffset..] == old(buffer[..])[byteOffset..]
      ensures old(byteOffset) + |Encode(Str(value))| <= buffer.Length ==>
                buffer[..byteOffset] == old(buffer[..byteOffset]) + Encode(Str(value))
    {
      byteOffset := WritePrefixedText(buffer, Utf16Length(value), value, byteOffset);
      assert Encode(Str(value)) == Int32BE(Utf16Length(value)) + value;
    }

    method Uint8(value: int)
      requires Valid() && byteOffset + 1 <= buffer.Length && IsUInt8(value)
      modifies this, buffer
      ensures Valid()
      ensures byteOffset == old(byteOffset) + |Encode(U8(value))|
      ensures buffer[..byteOffset] == old(buffer[..byteOffset]) + Encode(U8(value))
      ensures buffer[byteOffset..] == old(buffer[..])[byteOffset..]
    {
      byteOffset := WriteUInt8(buffer, value, byteOffset);
    }

    method Uint32(value: int)
      requires Valid() && byteOffset + 4 <= buffer.Length && IsUInt32(value)
      modifies this, buffer
      ensures Valid()
      ensures byteOffset == old(byteOffset) + |Encode(U32(value))|
      ensures buffer[..byteOffset] == old(buffer[..byteOffset]) + Encode(U32(value))
      ensures buffer[byteOffset..] == old(buffer[..])[byteOffset..]
    {
      byteOffset := WriteUInt32BE(buffer, value, byteOffset);
    }

    method Int16(value: int)
      requires Valid() && byteOffset + 2 <= buffer.Length && IsInt16(value)
      modifies this, buffer
      ensures Valid()
      ensures byteOffset == old(byteOffset) + |Encode(I16(value))|
      ensures buffer[..byteOffset] == old(buffer[..byteOffset]) + Encode(I16(value))
      ensures buffer[byteOffset..] == old(buffer[..])[byteOffset..]
    {
      byteOffset := WriteInt16BE(buffer, value, byteOffset);
    }

    method Int32(value: int)
      requires Valid() && byteOffset + 4 <= buffer.Length && IsInt32(value)
      modifies this, buffer
      ensures Valid()
      ensures byteOffset == old(byteOffset) + |Encode(I32(value))|
      ensures buffer[..byteOffset] == old(buffer[..byteOffset]) + Encode(I32(value))
      ensures buffer[byteOffset..] == old(buffer[..])[byteOffset..]
    {
      byteOffset := WriteInt32BE(buffer, value, byteOffset);
    }

    method Int64(value: int)
      requires Valid() && byteOffset + 8 <= buffer.Length && IsInt64(value)
      modifies this, buffer
      ensures Valid()
      ensures byteOffset == old(byteOffset) + |Encode(I64(value))|
      ensures buffer[..byteOffset] == old(buffer[..byteOffset]) + Encode(I64(value))
      ensures buffer[byteOffset..] == old(buffer[..])[byteOffset..]
    {
      byteOffset := WriteBigInt64BE(buffer, value, byteOffset);
    }

    /** `write(value, start, end)`: copies the window `[start, end)` of `value` at the cursor,
        or as much of it as exists and fits, and advances past the bytes copied. */
    method Write(value: seq<byte>, start: nat := 0, end: nat := |value|)
      requires Valid() && start <= |value|
      modifies this, buffer
      ensures Valid()
      ensures byteOffset == old(byteOffset) + CopyCount(|value|, start, end, buffer.Length - old(byteOffset))
      ensures buffer[..byteOffset] == old(buffer[..byteOffset])
                                      + value[start..start + byteOffset - old(byteOffset)]
      ensures buffer[byteOffset..] == old(buffer[..])[byteOffset..]
      ensures start <= end <= |value| && old(byteOffset) + (end - start) <= buffer.Length ==>
                byteOffset == old(byteOffset) + (end - start)
                && buffer[..byteOffset] == old(buffer[..byteOffset]) + value[start..end]
      ensures start == 0 && end == |value| && old(byteOffset) + |value| <= buffer.Length ==>
                buffer[..byteOffset] == old(buffer[..byteOffset]) + Encode(Raw(value))
    {
      var count := CopyInto(value, buffer, byteOffset, start, end);
      byteOffset := byteOffset + count;
    }
  }
}
