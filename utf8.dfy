/** JavaScript strings, represented by their UTF-8 bytes.
    Two lengths matter to the library: `Buffer.byteLength(s)` is the number of UTF-8 bytes
    (`|s|` here) and `s.length` is the number of UTF-16 code units (`Utf16Length(s)`). */
module Utf8 {

  import opened Bytes

  /** A UTF-8 continuation byte (10xxxxxx): it never starts a character. */
  predicate IsContinuation(b: byte) {
    0x80 <= b < 0xC0
  }

  /** UTF-16 code units contributed by one byte of well-formed UTF-8: a lead byte of a
      4-byte sequence starts a surrogate pair, any other lead byte one unit. */
  function UnitsOf(b: byte): nat {
    if b < 0x80 then 1
    else if b < 0xC0 then 0
    else if b < 0xF0 then 1
    else 2
  }

  /** `s.length` of the string whose UTF-8 encoding is `s`. */
  function Utf16Length(s: seq<byte>): nat {
    if s == [] then 0 else Utf16Length(s[..|s| - 1]) + UnitsOf(s[|s| - 1])
  }

  predicate IsAscii(s: seq<byte>) {
    forall i :: 0 <= i < |s| ==> s[i] < 0x80
  }

  /** For ASCII text the two lengths coincide. */
  lemma {:induction false} AsciiUtf16Length(s: seq<byte>)
    requires IsAscii(s)
    ensures Utf16Length(s) == |s|
  {
    if s != [] {
      assert IsAscii(s[..|s| - 1]);
      AsciiUtf16Length(s[..|s| - 1]);
    }
  }

  /** The number of bytes `buf.write(s, offset)` copies when `room` bytes are left:
      all of `s` when it fits, otherwise the longest prefix that does not split a character. */
  function Utf8Fit(s: seq<byte>, room: nat): (n: nat)
    ensures n <= |s| && n <= room
    ensures n == |s| || n == 0 || !IsContinuation(s[n])
    ensures |s| <= room ==> n == |s|
    ensures room < |s| ==> forall j :: n < j <= room ==> IsContinuation(s[j])
  {
    if |s| <= room then |s| else LastBoundary(s, room)
  }

  /** The largest character boundary of `s` at or below `k`. */
  function LastBoundary(s: seq<byte>, k: nat): (n: nat)
    requires k < |s|
    ensures n <= k
    ensures n == 0 || !IsContinuation(s[n])
    ensures forall j :: n < j <= k ==> IsContinuation(s[j])
  {
    if k == 0 || !IsContinuation(s[k]) then k else LastBoundary(s, k - 1)
  }

  /** ASCII has a character boundary at every byte, so a write is cut exactly at the room left. */
  lemma AsciiFit(s: seq<byte>, room: nat)
    requires IsAscii(s)
    ensures Utf8Fit(s, room) == if |s| <= room then |s| else room
  {
  }
}
