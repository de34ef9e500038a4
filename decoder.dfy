/** The Decoder: a cursor that reads the Encoder's primitives back out of a received buffer.
    Only `byteOffset` changes; the buffer itself is never written (every method's frame is
    `this` alone). The fixed-width reads advance the cursor before Node checks the bounds, so
    a read that fails has still moved it. */
module Decoding {

  import opened Bytes
  import opened Wrappers
  import opened NodeBuffer
  import opened Fields

  class Decoder {

    const buffer: array<byte>
    var byteOffset: int

    constructor (b: array<byte>, offset: int := 0)
      ensures buffer == b && byteOffset == offset
    {
      buffer := b;
      byteOffset := offset;
    }

    /** The unread part of the buffer. */
    function Remains(): (r: seq<byte>)
      reads this, buffer
      ensures 0 <= byteOffset <= buffer.Length ==> r == buffer[byteOffset..]
      ensures byteOffset >= buffer.Length ==> r == []
    {
      Subarray(buffer[..], byteOffset, buffer.Length)
    }

    method Boolean() returns (r: Result<bool>)
      modifies this
      ensures byteOffset == old(byteOffset) + 1
      ensures r == BoolAt(buffer[..], old(byteOffset))
      ensures WithOffset(r, byteOffset) == BoolNext(buffer[..], old(byteOffset))
      ensures r.Ok? <==> 0 <= old(byteOffset) < buffer.Length
      ensures r.Ok? ==> r.value == (buffer[old(byteOffset)] != 0)
    {
      var offset := byteOffset;
      byteOffset := byteOffset + 1;
      var v :- ReadUInt8(buffer[..], offset);
      r := Ok(v != 0);
    }

    /** Reads a signed 4-byte length `L`, then the `L` bytes after it (cut at the end of the
        buffer), and moves the cursor to just past them. */
    method String() returns (r: Result<seq<byte>>)
      modifies this
      ensures WithOffset(r, byteOffset) == StringAt(buffer[..], old(byteOffset))
      ensures r.Err? ==> byteOffset == old(byteOffset)
      ensures r.Ok? <==> InBounds(buffer[..], old(byteOffset), 4)
      ensures r.Ok? ==>
                var length := FromInt32BE(buffer[old(byteOffset)..old(byteOffset) + 4]);
                && byteOffset == old(byteOffset) + 4 + length
                && (0 <= length && byteOffset <= buffer.Length ==>
                      r.value == buffer[old(byteOffset) + 4..byteOffset])
    {
      var length :- ReadInt32BE(buffer[..], byteOffset);
      byteOffset := byteOffset + 4;
      var start := byteOffset;
      byteOffset := byteOffset + length;
      r := Ok(Utf8Slice(buffer[..], start, byteOffset));
    }

    method Uint8() returns (r: Result<int>)
      modifies this
      ensures byteOffset == old(byteOffset) + 1
      ensures r == ReadUInt8(buffer[..], old(byteOffset))
      ensures WithOffset(r, byteOffset) == UInt8Next(buffer[..], old(byteOffset))
      ensures r.Ok? <==> 0 <= old(byteOffset) < buffer.Length
      ensures r.Ok? ==> r.value == buffer[old(byteOffset)]
    {
      var offset := byteOffset;
      byteOffset := byteOffset + 1;
      r := ReadUInt8(buffer[..], offset);
    }

    method Int32() returns (r: Result<int>)
      modifies this
      ensures byteOffset == old(byteOffset) + 4
      ensures r == ReadInt32BE(buffer[..], old(byteOffset))
      ensures r.Ok? <==> InBounds(buffer[..], old(byteOffset), 4)
      ensures r.Ok? ==>
                IsInt32(r.value) && Int32BE(r.value) == buffer[old(byteOffset)..old(byteOffset) + 4]
    {
      var offset := byteOffset;
      byteOffset := byteOffset + 4;
      r := ReadInt32BE(buffer[..], offset);
      if r.Ok? {
        FromInt32BEInverse(buffer[offset..offset + 4]);
      }
    }

    method Int64() returns (r: Result<int>)
      modifies this
      ensures byteOffset == old(byteOffset) + 8
      ensures r == ReadBigInt64BE(buffer[..], old(byteOffset))
      ensures WithOffset(r, byteOffset) == Int64Next(buffer[..], old(byteOffset))
      ensures r.Ok? <==> InBounds(buffer[..], old(byteOffset), 8)
      ensures r.Ok? ==>
                IsInt64(r.value) && Int64BE(r.value) == buffer[old(byteOffset)..old(byteOffset) + 8]
    {
      var offset := byteOffset;
      byteOffset := byteOffset + 8;
      r := ReadBigInt64BE(buffer[..], offset);
      if r.Ok? {
        FromInt64BEInverse(buffer[offset..offset + 8]);
      }
    }

    /** The next `size` bytes (fewer at the end of the buffer); the cursor moves by `size`. */
    method Read(size: int) returns (r: seq<byte>)
      modifies this
      ensures byteOffset == old(byteOffset) + size
      ensures r == Subarray(buffer[..], old(byteOffset), byteOffset)
      ensures (r, byteOffset) == SliceNext(buffer[..], old(byteOffset), size)
      ensures 0 <= old(byteOffset) && 0 <= size && byteOffset <= buffer.Length ==>
                r == buffer[old(byteOffset)..byteOffset]
    {
      var start := byteOffset;
      byteOffset := byteOffset + size;
      r := Subarray(buffer[..], start, byteOffset);
    }
  }
}
