/** Bytes and the fixed-width big-endian integer encodings the wire protocol uses.
    Every multi-byte integer on the wire is big-endian; signed fields are two's complement. */
module Bytes {

  type byte = x: int | 0 <= x < 256

  /** 256 to the power `n`: the number of distinct values of an `n`-byte field. */
  function Pow256(n: nat): (r: nat)
    ensures r >= 1
  {
    if n == 0 then 1 else 256 * Pow256(n - 1)
  }

  lemma Pow256Values()
    ensures Pow256(1) == 0x100 && Pow256(2) == 0x1_0000
    ensures Pow256(4) == 0x1_0000_0000 && Pow256(8) == 0x1_0000_0000_0000_0000
  {
  }

  /** `n` written in `width` bytes, most significant byte first. */
  function BigEndian(n: nat, width: nat): (r: seq<byte>)
    requires n < Pow256(width)
    ensures |r| == width
  {
    if width == 0 then [] else BigEndian(n / 256, width - 1) + [n % 256]
  }

  /** The unsigned value of a big-endian byte sequence. */
  function FromBigEndian(s: seq<byte>): (n: nat)
    ensures n < Pow256(|s|)
  {
    if s == [] then 0 else FromBigEndian(s[..|s| - 1]) * 256 + s[|s| - 1]
  }

  lemma {:induction false} FromBigEndianInverse(n: nat, width: nat)
    requires n < Pow256(width)
    ensures FromBigEndian(BigEndian(n, width)) == n
  {
    if width > 0 {
      var s := BigEndian(n, width);
      assert s[..width - 1] == BigEndian(n / 256, width - 1);
      FromBigEndianInverse(n / 256, width - 1);
    }
  }

  lemma {:induction false} BigEndianInverse(s: seq<byte>)
    ensures BigEndian(FromBigEndian(s), |s|) == s
  {
    if s != [] {
      var init := s[..|s| - 1];
      var n := FromBigEndian(s);
      assert n / 256 == FromBigEndian(init) && n % 256 == s[|s| - 1];
      BigEndianInverse(init);
      assert s == init + [s[|s| - 1]];
    }
  }

  /** Half the range of a `width`-byte field: the signed range is [-Half, Half). */
  function Half(width: nat): int
    requires width >= 1
  {
    128 * Pow256(width - 1)
  }

  predicate InSigned(v: int, width: nat)
    requires width >= 1
  {
    -Half(width) <= v < Half(width)
  }

  /** The bit pattern of `v` in two's complement over `width` bytes. */
  function TwosComplement(v: int, width: nat): (u: nat)
    requires width >= 1 && InSigned(v, width)
    ensures u < Pow256(width)
    ensures (v >= 0) == (u < Half(width))
  {
    if v >= 0 then v else v + Pow256(width)
  }

  /** The signed value whose two's complement bit pattern over `width` bytes is `u`. */
  function FromTwosComplement(u: nat, width: nat): (v: int)
    requires width >= 1 && u < Pow256(width)
    ensures InSigned(v, width)
  {
    if u < Half(width) then u else u - Pow256(width)
  }

  lemma TwosComplementInverse(v: int, width: nat)
    requires width >= 1 && InSigned(v, width)
    ensures FromTwosComplement(TwosComplement(v, width), width) == v
  {
  }

  lemma FromTwosComplementInverse(u: nat, width: nat)
    requires width >= 1 && u < Pow256(width)
    ensures TwosComplement(FromTwosComplement(u, width), width) == u
  {
  }

  // Ranges of the fixed-width fields Node's checked writes accept.

  predicate IsUInt8(v: int) { 0 <= v < 0x100 }
  predicate IsInt16(v: int) { -0x8000 <= v < 0x8000 }
  predicate IsInt32(v: int) { -0x8000_0000 <= v < 0x8000_0000 }
  predicate IsUInt32(v: int) { 0 <= v < 0x1_0000_0000 }
  predicate IsInt64(v: int) { -0x8000_0000_0000_0000 <= v < 0x8000_0000_0000_0000 }
  predicate IsUInt64(v: int) { 0 <= v < 0x1_0000_0000_0000_0000 }

  // The byte patterns of the fixed-width writes.

  function UInt8Bytes(v: int): seq<byte>
    requires IsUInt8(v)
  {
    [v]
  }

  function Int16BE(v: int): seq<byte>
    requires IsInt16(v)
  {
    Pow256Values();
    BigEndian(TwosComplement(v, 2), 2)
  }

  function Int32BE(v: int): seq<byte>
    requires IsInt32(v)
  {
    Pow256Values();
    BigEndian(TwosComplement(v, 4), 4)
  }

  function UInt32BE(v: int): seq<byte>
    requires IsUInt32(v)
  {
    Pow256Values();
    BigEndian(v, 4)
  }

  function Int64BE(v: int): seq<byte>
    requires IsInt64(v)
  {
    Pow256Values();
    BigEndian(TwosComplement(v, 8), 8)
  }

  function UInt64BE(v: int): seq<byte>
    requires IsUInt64(v)
  {
    Pow256Values();
    BigEndian(v, 8)
  }

  // The values of the fixed-width reads.

  function FromInt16BE(s: seq<byte>): int
    requires |s| == 2
  {
    Pow256Values();
    FromTwosComplement(FromBigEndian(s), 2)
  }

  function FromInt32BE(s: seq<byte>): int
    requires |s| == 4
  {
    FromTwosComplement(FromBigEndian(s), 4)
  }

  function FromInt64BE(s: seq<byte>): int
    requires |s| == 8
  {
    FromTwosComplement(FromBigEndian(s), 8)
  }

  lemma Int32BEInverse(v: int)
    requires IsInt32(v)
    ensures |Int32BE(v)| == 4 && FromInt32BE(Int32BE(v)) == v
  {
    Pow256Values();
    FromBigEndianInverse(TwosComplement(v, 4), 4);
  }

  lemma UInt32BEInverse(v: int)
    requires IsUInt32(v)
    ensures |UInt32BE(v)| == 4 && FromBigEndian(UInt32BE(v)) == v
  {
    Pow256Values();
    FromBigEndianInverse(v, 4);
  }

  lemma Int64BEInverse(v: int)
    requires IsInt64(v)
    ensures |Int64BE(v)| == 8 && FromInt64BE(Int64BE(v)) == v
  {
    Pow256Values();
    FromBigEndianInverse(TwosComplement(v, 8), 8);
  }

  lemma UInt64BEInverse(v: int)
    requires IsUInt64(v)
    ensures |UInt64BE(v)| == 8 && FromBigEndian(UInt64BE(v)) == v
  {
    Pow256Values();
    FromBigEndianInverse(v, 8);
  }

  lemma Int16BEInverse(v: int)
    requires IsInt16(v)
    ensures |Int16BE(v)| == 2 && FromInt16BE(Int16BE(v)) == v
  {
    Pow256Values();
    FromBigEndianInverse(TwosComplement(v, 2), 2);
  }

  /** Every 4-byte pattern is the encoding of exactly one 32-bit signed value. */
  lemma FromInt32BEInverse(s: seq<byte>)
    requires |s| == 4
    ensures IsInt32(FromInt32BE(s)) && Int32BE(FromInt32BE(s)) == s
  {
    Pow256Values();
    FromTwosComplementInverse(FromBigEndian(s), 4);
    BigEndianInverse(s);
  }

  /** Every 8-byte pattern is the encoding of exactly one 64-bit signed value. */
  lemma FromInt64BEInverse(s: seq<byte>)
    requires |s| == 8
    ensures IsInt64(FromInt64BE(s)) && Int64BE(FromInt64BE(s)) == s
  {
    Pow256Values();
    FromTwosComplementInverse(FromBigEndian(s), 8);
    BigEndianInverse(s);
  }
}
