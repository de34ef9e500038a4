/** Value encoding by `typeof`: `valToBinaryAs` writes a value into a caller's buffer at an
    offset, `valToBinary` returns a fresh buffer for it. Booleans and numbers become 8-byte
    unsigned big-endian integers, bigints 8-byte two's complement, strings their UTF-8 bytes
    and Buffers their own bytes; any other kind is refused. */
module Values {

  import opened Bytes
  import opened Utf8
  import opened Wrappers
  import opened NodeBuffer

  /** A JavaScript value, by its `typeof`. Numbers are non-negative integers here. `VView`
      is a binary view that is not a Buffer (a typed array, a `DataView` or an
      `ArrayBuffer`): its `typeof` is `object`, `instanceof Buffer` is false, but
      `Buffer.byteLength` accepts it and gives its size in bytes. `VOther` is everything
      else, named by its `typeof`: `undefined`, `symbol`, `function`, or any other `object`
      (including `null`). */
  datatype Value =
    | VBool(b: bool)
    | VNumber(n: nat)
    | VBigInt(i: int)
    | VString(s: seq<byte>)
    | VBuffer(bytes: seq<byte>)
    | VView(viewBytes: seq<byte>)
    | VOther(typeName: string)

  /** The bytes `valToBinaryAs` writes when `room` bytes are left after the offset. */
  function AsBytes(v: Value, room: nat): (r: Result<seq<byte>>)
    ensures r.Ok? ==> |r.value| <= room
  {
    match v
    case VBool(x) =>
      if room < 8 then Err(OutOfRange) else Ok(UInt64BE(if x then 1 else 0))
    case VNumber(n) =>
      if !IsUInt64(n) || room < 8 then Err(OutOfRange) else Ok(UInt64BE(n))
    case VBigInt(i) =>
      if !IsInt64(i) || room < 8 then Err(OutOfRange) else Ok(Int64BE(i))
    case VString(s) => Ok(s[..Utf8Fit(s, room)])
    case VBuffer(x) => Ok(x[..Min(|x|, room)])
    case VView(_) => Err(Message("value to binary as error: invalid typeof object", []))
    case VOther(t) => Err(Message("value to binary as error: invalid typeof " + t, []))
  }

  /** `valToBinaryAs(v, b, offset)`: writes `v` at `offset` and returns the offset after it;
      on failure nothing is written. */
  method ValToBinaryAs(v: Value, b: array<byte>, offset: nat := 0) returns (r: Result<nat>)
    requires offset <= b.Length
    modifies b
    ensures match AsBytes(v, b.Length - offset)
      case Ok(bytes) =>
        && r == Ok(offset + |bytes|)
        && b[..offset + |bytes|] == old(b[..offset]) + bytes
        && b[offset + |bytes|..] == old(b[..])[offset + |bytes|..]
      case Err(e) => r == Err(e) && b[..] == old(b[..])
  {
    match v
    case VBool(x) =>
      var u := if x then 1 else 0;
      if b.Length - offset < 8 {
        return Err(OutOfRange);
      }
      var next := WriteBigUInt64BE(b, u, offset);
      r := Ok(next);
    case VNumber(n) =>
      if !IsUInt64(n) || b.Length - offset < 8 {
        return Err(OutOfRange);
      }
      var next := WriteBigUInt64BE(b, n, offset);
      r := Ok(next);
    case VBigInt(i) =>
      if !IsInt64(i) || b.Length - offset < 8 {
        return Err(OutOfRange);
      }
      var next := WriteBigInt64BE(b, i, offset);
      r := Ok(next);
    case VString(s) =>
      var count := WriteString(b, s, offset);
      r := Ok(offset + count);
    case VBuffer(x) =>
      var count := CopyInto(x, b, offset);
      r := Ok(offset + count);
    case VView(_) =>
      r := Err(Message("value to binary as error: invalid typeof object", []));
    case VOther(t) =>
      r := Err(Message("value to binary as error: invalid typeof " + t, []));
  }

  /** The offset `valToBinaryAs` returns as written. For a Buffer it returns what `v.copy`
      returns, which is the number of bytes copied rather than the offset after them. */
  function AsWrittenNext(v: Value, room: nat, offset: nat): (r: Result<nat>)
    ensures r.Ok? <==> AsBytes(v, room).Ok?
    ensures r.Ok? && v.VBuffer? ==> r.value == |AsBytes(v, room).value|
  {
    var bytes :- AsBytes(v, room);
    Ok(if v.VBuffer? then |bytes| else offset + |bytes|)
  }

  /** Outside a Buffer, the offset returned as written is the one `ValToBinaryAs` returns;
      an 8-byte Buffer copied at 17 into 12 bytes of room returns 8 instead of 25. */
  lemma AsWrittenNextLosesOffset(v: Value, room: nat, offset: nat)
    ensures !v.VBuffer? && AsBytes(v, room).Ok? ==>
              AsWrittenNext(v, room, offset) == Ok(offset + |AsBytes(v, room).value|)
    ensures var eight := VBuffer([1, 2, 3, 4, 5, 6, 7, 8]);
            AsWrittenNext(eight, 12, 17) == Ok(8) && |AsBytes(eight, 12).value| == 8
  {
    var x: seq<byte> := [1, 2, 3, 4, 5, 6, 7, 8];
    assert x[..Min(8, 12)] == x;
  }

  /** With room for 8 bytes, a boolean, number or bigint is written as exactly 8 bytes that
      read back as 1 or 0, the number, or the bigint; a string or Buffer is written whole
      when it fits and cut otherwise. */
  lemma AsBytesRoundTrip(v: Value, room: nat)
    requires room >= 8
    ensures v.VBool? ==> AsBytes(v, room) == Ok(UInt64BE(if v.b then 1 else 0))
                         && FromBigEndian(AsBytes(v, room).value) == (if v.b then 1 else 0)
    ensures v.VNumber? && IsUInt64(v.n) ==>
              AsBytes(v, room).Ok? && FromBigEndian(AsBytes(v, room).value) == v.n
    ensures v.VBigInt? && IsInt64(v.i) ==>
              AsBytes(v, room).Ok? && |AsBytes(v, room).value| == 8
              && FromInt64BE(AsBytes(v, room).value) == v.i
    ensures v.VString? ==>
              AsBytes(v, room).Ok? && (|v.s| <= room ==> AsBytes(v, room).value == v.s)
    ensures v.VBuffer? ==>
              AsBytes(v, room).Ok? && (|v.bytes| <= room ==> AsBytes(v, room).value == v.bytes)
    ensures v.VView? ==>
              AsBytes(v, room) == Err(Message("value to binary as error: invalid typeof object", []))
    ensures v.VOther? ==>
              AsBytes(v, room) == Err(Message("value to binary as error: invalid typeof " + v.typeName, []))
  {
    match v
    case VBool(x) => UInt64BEInverse(if x then 1 else 0);
    case VNumber(n) => if IsUInt64(n) { UInt64BEInverse(n); }
    case VBigInt(i) => if IsInt64(i) { Int64BEInverse(i); }
    case VString(_) =>
    case VBuffer(_) =>
    case VView(_) =>
    case VOther(_) =>
  }

  /** `valToBinary(v)`: a fresh buffer holding `v`. A string gets `v.length` bytes (UTF-16
      code units) into which its UTF-8 bytes are written as far as they fit; a Buffer is
      returned itself. */
  function ValToBinary(v: Value): Result<seq<byte>> {
    match v
    case VBool(x) => Ok(UInt64BE(if x then 1 else 0))
    case VNumber(n) => if IsUInt64(n) then Ok(UInt64BE(n)) else Err(OutOfRange)
    case VBigInt(i) => if IsInt64(i) then Ok(Int64BE(i)) else Err(OutOfRange)
    case VString(s) =>
      var length := Utf16Length(s);
      var count := Utf8Fit(s, length);
      Ok(s[..count] + Zeros(length - count))
    case VBuffer(x) => Ok(x)
    case VView(_) => Err(Message("value to binary error: invalid typeof object", []))
    case VOther(t) => Err(Message("value to binary error: invalid typeof " + t, []))
  }

  /** What `valToBinary` accepts and what it returns: booleans, numbers and bigints take 8
      bytes, a string `value.length` bytes, a Buffer is itself; a number or bigint out of its
      64-bit range throws a range error and a value of any other kind the typeof error. */
  lemma ValToBinaryOutcome(v: Value)
    ensures var r := ValToBinary(v);
            && (r.Ok? <==> v.VBool? || (v.VNumber? && IsUInt64(v.n)) || (v.VBigInt? && IsInt64(v.i))
                           || v.VString? || v.VBuffer?)
            && (r.Ok? && (v.VBool? || v.VNumber? || v.VBigInt?) ==> |r.value| == 8)
            && (v.VString? ==> r.Ok? && |r.value| == Utf16Length(v.s))
            && (v.VBuffer? ==> r == Ok(v.bytes))
            && (r.Err? && (v.VNumber? || v.VBigInt?) ==> r.error == OutOfRange)
            && (r.Err? && !v.VNumber? && !v.VBigInt? ==> r.error.Message?)
            && (v.VView? ==> r == Err(Message("value to binary error: invalid typeof object", [])))
            && (v.VOther? ==> r == Err(Message("value to binary error: invalid typeof " + v.typeName, [])))
  {
    match v
    case VBool(x) => UInt64BEInverse(if x then 1 else 0);
    case VNumber(n) => if IsUInt64(n) { UInt64BEInverse(n); }
    case VBigInt(i) => if IsInt64(i) { Int64BEInverse(i); }
    case _ =>
  }

  /** `valToBinary` and `valToBinaryAs` into a buffer of just the right size agree: exactly
      8 bytes for booleans, numbers and bigints, the Buffer itself, and the text of an ASCII
      string. Both refuse the same values. */
  lemma ValToBinaryAgreesWithAs(v: Value)
    ensures (v.VBool? || v.VNumber? || v.VBigInt?) ==>
              ValToBinary(v) == AsBytes(v, 8)
              && (ValToBinary(v).Ok? ==> |ValToBinary(v).value| == 8)
    ensures v.VBuffer? ==> ValToBinary(v) == AsBytes(v, |v.bytes|) == Ok(v.bytes)
    ensures v.VString? && IsAscii(v.s) ==> ValToBinary(v) == AsBytes(v, |v.s|) == Ok(v.s)
    ensures v.VView? || v.VOther? ==> ValToBinary(v).Err? && AsBytes(v, 8).Err?
  {
    match v
    case VString(x) =>
      if IsAscii(x) {
        AsciiUtf16Length(x);
        assert Utf8Fit(x, |x|) == |x|;
        assert |Zeros(0)| == 0;
        assert x[..|x|] == x;
        assert x[..|x|] + Zeros(0) == x;
        assert AsBytes(VString(x), |x|) == Ok(x);
        assert ValToBinary(v) == Ok(x);
      }
    case VBuffer(x) =>
      assert x[..Min(|x|, |x|)] == x;
    case _ =>
  }

  /** A non-ASCII string is cut: "é" (UTF-8 C3 A9, one code unit) gets a 1-byte buffer, the
      two-byte character does not fit, and the result is a single zero byte. */
  lemma NonAsciiStringValueIsCut()
    ensures ValToBinary(VString([0xC3, 0xA9])) == Ok([0])
  {
    var e: seq<byte> := [0xC3, 0xA9];
    assert Utf16Length(e) == 1 by {
      assert e[..1] == [0xC3];
    }
    assert Utf8Fit(e, 1) == 0;
    assert e[..0] + Zeros(1) == [0];
  }
}
