/** The length-prefixed string form used by the hand-built frames: a signed 4-byte big-endian
    UTF-8 byte count, then the UTF-8 bytes. Unlike `Encoder.string`, the prefix counts bytes,
    so the form round-trips for any text. */
module LengthPrefixed {

  import opened Bytes
  import opened Utf8
  import opened NodeBuffer
  import opened Fields

  /** `writeStringBE(b, s, offset)`: the offset after the prefix and the bytes that fit. */
  method WriteStringBE(b: array<byte>, s: seq<byte>, offset: nat := 0) returns (next: nat)
    requires IsInt32(|s|) && offset + 4 <= b.Length
    modifies b
    ensures next == offset + 4 + Utf8Fit(s, b.Length - offset - 4)
    ensures b[..next] == old(b[..offset]) + Int32BE(|s|) + s[..next - offset - 4]
    ensures b[next..] == old(b[..])[next..]
    ensures SizeStringBE(s, offset) <= b.Length ==>
              next == SizeStringBE(s, offset) && b[..next] == old(b[..offset]) + Encode(Text(s))
  {
    next := WritePrefixedText(b, |s|, s, offset);
    assert Encode(Text(s)) == Int32BE(|s|) + s;
  }

  /** `sizeStringBE(s, offset)`: the offset `writeStringBE` returns when `s` fits, which
      counts exactly the bytes it puts on the wire. */
  function SizeStringBE(s: seq<byte>, offset: int := 0): (r: int)
    ensures IsInt32(|s|) ==> r == offset + |Encode(Text(s))|
  {
    offset + 4 + |s|
  }

  /** A buffer of `sizeStringBE(s)` bytes holds `writeStringBE(b, s, 0)` exactly, whatever
      the text: the returned offset is the buffer's length. */
  method WriteStringFillsSizedBuffer(s: seq<byte>) returns (b: array<byte>, next: nat)
    requires IsInt32(|s|)
    ensures b.Length == SizeStringBE(s) && next == SizeStringBE(s)
    ensures b[..] == Encode(Text(s))
  {
    b := new byte[SizeStringBE(s)](_ => 0);
    next := WriteStringBE(b, s, 0);
    assert b[..] == b[..next];
  }
}
