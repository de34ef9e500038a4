/** The part of Node's `Buffer` API the library relies on.
    Checked writes (`writeUInt8`, `writeInt32BE`, ...) return the offset after the bytes they
    wrote; a value outside the field's range, or a field that does not fit, makes Node throw,
    so here both are preconditions of the write. `write(string)` and `copy` never throw for
    lack of room: they copy what fits. Checked reads throw when out of range (an `Err` here);
    `subarray` and `toString` clamp their bounds instead. */
module NodeBuffer {

  import opened Bytes
  import opened Utf8
  import opened Wrappers

  // ---- writes ----

  /** Copies `bytes` into `b` at `offset`; the rest of `b` is unchanged. */
  method Put(b: array<byte>, offset: nat, bytes: seq<byte>) returns (next: nat)
    requires offset + |bytes| <= b.Length
    modifies b
    ensures next == offset + |bytes|
    ensures b[..next] == old(b[..offset]) + bytes
    ensures b[next..] == old(b[next..])
  {
    var i := 0;
    while i < |bytes|
      invariant 0 <= i <= |bytes|
      invariant b[..offset] == old(b[..offset])
      invariant forall j :: 0 <= j < i ==> b[offset + j] == bytes[j]
      invariant b[offset + |bytes|..] == old(b[offset + |bytes|..])
    {
      b[offset + i] := bytes[i];
      i := i + 1;
    }
    next := offset + |bytes|;
    assert b[..next] == b[..offset] + b[offset..next];
    assert b[offset..next] == bytes;
  }

  method WriteUInt8(b: array<byte>, value: int, offset: nat) returns (next: nat)
    requires IsUInt8(value) && offset + 1 <= b.Length
    modifies b
    ensures next == offset + 1
    ensures b[..next] == old(b[..offset]) + UInt8Bytes(value)
    ensures b[next..] == old(b[next..])
  {
    next := Put(b, offset, UInt8Bytes(value));
  }

  method WriteInt16BE(b: array<byte>, value: int, offset: nat) returns (next: nat)
    requires IsInt16(value) && offset + 2 <= b.Length
    modifies b
    ensures next == offset + 2
    ensures b[..next] == old(b[..offset]) + Int16BE(value)
    ensures b[next..] == old(b[next..])
  {
    next := Put(b, offset, Int16BE(value));
  }

  method WriteInt32BE(b: array<byte>, value: int, offset: nat) returns (next: nat)
    requires IsInt32(value) && offset + 4 <= b.Length
    modifies b
    ensures next == offset + 4
    ensures b[..next] == old(b[..offset]) + Int32BE(value)
    ensures b[next..] == old(b[next..])
  {
    next := Put(b, offset, Int32BE(value));
  }

  method WriteUInt32BE(b: array<byte>, value: int, offset: nat) returns (next: nat)
    requires IsUInt32(value) && offset + 4 <= b.Length
    modifies b
    ensures next == offset + 4
    ensures b[..next] == old(b[..offset]) + UInt32BE(value)
    ensures b[next..] == old(b[next..])
  {
    next := Put(b, offset, UInt32BE(value));
  }

  method WriteBigInt64BE(b: array<byte>, value: int, offset: nat) returns (next: nat)
    requires IsInt64(value) && offset + 8 <= b.Length
    modifies b
    ensures next == offset + 8
    ensures b[..next] == old(b[..offset]) + Int64BE(value)
    ensures b[next..] == old(b[next..])
  {
    next := Put(b, offset, Int64BE(value));
  }

  method WriteBigUInt64BE(b: array<byte>, value: int, offset: nat) returns (next: nat)
    requires IsUInt64(value) && offset + 8 <= b.Length
    modifies b
    ensures next == offset + 8
    ensures b[..next] == old(b[..offset]) + UInt64BE(value)
    ensures b[next..] == old(b[next..])
  {
    next := Put(b, offset, UInt64BE(value));
  }

  /** `b.write(s, offset)`: writes as much of the UTF-8 text as fits without splitting a
      character and returns the number of bytes written. */
  method WriteString(b: array<byte>, s: seq<byte>, offset: nat) returns (count: nat)
    requires offset <= b.Length
    modifies b
    ensures count == Utf8Fit(s, b.Length - offset)
    ensures b[..offset + count] == old(b[..offset]) + s[..count]
    ensures b[offset + count..] == old(b[offset + count..])
  {
    count := Utf8Fit(s, b.Length - offset);
    var _ := Put(b, offset, s[..count]);
  }

  /** `writeInt32BE(prefix, offset)` followed by `write(s, offset + 4)`: the offset after the
      prefix and the bytes of `s` that fit. */
  method WritePrefixedText(b: array<byte>, prefix: int, s: seq<byte>, offset: nat)
    returns (next: nat)
    requires IsInt32(prefix) && offset + 4 <= b.Length
    modifies b
    ensures next == offset + 4 + Utf8Fit(s, b.Length - offset - 4)
    ensures b[..next] == old(b[..offset]) + Int32BE(prefix) + s[..next - offset - 4]
    ensures b[next..] == old(b[..])[next..]
    ensures offset + 4 + |s| <= b.Length ==>
              next == offset + 4 + |s| && b[..next] == old(b[..offset]) + Int32BE(prefix) + s
  {
    ghost var before := b[..];
    var o := WriteInt32BE(b, prefix, offset);
    ghost var mid := b[..];
    var count := WriteString(b, s, o);
    next := o + count;
    PrefixThenText(b, prefix, s, offset, o, count, next, before, mid, b[..]);
  }

  /** A 4-byte prefix written at `offset`, then as much of `s` as fits right after it: the
      buffer holds what it held before `offset`, the prefix and the first bytes of `s`, and
      nothing after them has changed. `before`, `mid` and `after` are the buffer's contents
      before the prefix, between the two writes and after the text. */
  lemma PrefixThenText(b: array<byte>, prefix: int, s: seq<byte>, offset: nat, o: nat,
                       count: nat, next: nat, before: seq<byte>, mid: seq<byte>,
                       after: seq<byte>)
    requires IsInt32(prefix) && offset + 4 <= b.Length
    requires |before| == |mid| == |after| == b.Length
    requires o == offset + 4
    requires mid[..o] == before[..offset] + Int32BE(prefix) && mid[o..] == before[o..]
    requires count == Utf8Fit(s, b.Length - o)
    requires after[..o + count] == mid[..o] + s[..count] && after[o + count..] == mid[o + count..]
    requires next == o + count
    ensures next == offset + 4 + Utf8Fit(s, b.Length - offset - 4)
    ensures after[..next] == before[..offset] + Int32BE(prefix) + s[..next - offset - 4]
    ensures after[next..] == before[next..]
    ensures offset + 4 + |s| <= b.Length ==>
              next == offset + 4 + |s| && after[..next] == before[..offset] + Int32BE(prefix) + s
  {
    assert mid[o..][count..] == mid[o + count..];
    assert before[o..][count..] == before[o + count..];
  }

  /** How many bytes `source.copy(b, offset, start, end)` copies when `room` bytes are left
      after `offset`: none for an empty window, otherwise the window cut to the end of the
      source and to the room left. */
  function CopyCount(length: nat, start: nat, end: nat, room: nat): (n: nat)
    requires start <= length
    ensures n <= room && start + n <= length
    ensures start < end ==> n <= end - start
    ensures start <= end <= length && end - start <= room ==> n == end - start
    ensures start == 0 && end == length ==> n == Min(length, room)
  {
    if end <= start then 0 else Min(Min(end, length) - start, room)
  }

  /** `source.copy(b, offset, start, end)`: copies the bytes of the window `[start, end)` of
      `source` that exist and fit, and returns how many. A negative `start` or `end`, or a
      `start` past the end of the source, makes Node throw; here they are preconditions. */
  method CopyInto(source: seq<byte>, b: array<byte>, offset: nat, start: nat := 0, end: nat := |source|)
    returns (count: nat)
    requires offset <= b.Length && start <= |source|
    modifies b
    ensures count == CopyCount(|source|, start, end, b.Length - offset)
    ensures b[..offset + count] == old(b[..offset]) + source[start..start + count]
    ensures b[offset + count..] == old(b[offset + count..])
  {
    count := CopyCount(|source|, start, end, b.Length - offset);
    var _ := Put(b, offset, source[start..start + count]);
  }

  function Min(x: int, y: int): int {
    if x <= y then x else y
  }

  /** `n` zero bytes: the contents of `Buffer.alloc(n)`. */
  function Zeros(n: nat): (z: seq<byte>)
    ensures |z| == n && forall i :: 0 <= i < n ==> z[i] == 0
  {
    seq(n, _ => 0)
  }

  // ---- reads ----

  predicate InBounds(s: seq<byte>, offset: int, width: nat) {
    0 <= offset && offset + width <= |s|
  }

  function ReadUInt8(s: seq<byte>, offset: int): Result<int> {
    if InBounds(s, offset, 1) then Ok(s[offset]) else Err(OutOfRange)
  }

  function ReadInt32BE(s: seq<byte>, offset: int): Result<int> {
    if InBounds(s, offset, 4) then Ok(FromInt32BE(s[offset..offset + 4])) else Err(OutOfRange)
  }

  function ReadBigInt64BE(s: seq<byte>, offset: int): Result<int> {
    if InBounds(s, offset, 8) then Ok(FromInt64BE(s[offset..offset + 8])) else Err(OutOfRange)
  }

  /** How `subarray` turns an index into a position: negative indexes count from the end,
      and the result is clamped to [0, len]. */
  function ClampIndex(i: int, len: nat): (p: nat)
    ensures p <= len
  {
    if i < 0 then (if len + i > 0 then len + i else 0)
    else if i < len then i else len
  }

  /** `buf.subarray(start, end)`, as the bytes it views. */
  function Subarray(s: seq<byte>, start: int, end: int): seq<byte> {
    var b := ClampIndex(start, |s|);
    var e := ClampIndex(end, |s|);
    if b < e then s[b..e] else []
  }

  /** `buf.toString("utf8", start, end)`, as the bytes it decodes: a non-positive start reads
      from 0, an end past the buffer stops at its end, and an empty range gives "". */
  function Utf8Slice(s: seq<byte>, start: int, end: int): seq<byte> {
    var b := if start <= 0 then 0 else start;
    if b >= |s| then []
    else
      var e := if end > |s| then |s| else end;
      if e <= b then [] else s[b..e]
  }

  /** `buf.indexOf(x)`: the first position holding `x`, or -1. */
  function IndexOf(s: seq<byte>, x: byte): (i: int)
    ensures -1 <= i < |s|
    ensures i >= 0 ==> s[i] == x && x !in s[..i]
    ensures i == -1 ==> x !in s
  {
    if s == [] then -1
    else if s[0] == x then 0
    else var j := IndexOf(s[1..], x); if j == -1 then -1 else j + 1
  }
}
