/** The primitives of the wire codec, shared by the Sizer, the Encoder, the Decoder and the
    length-prefixed string helpers: what each one puts on the wire, how many bytes the size
    computation charges for it, and how the decoder reads it back. */
module Fields {

  import opened Bytes
  import opened Utf8
  import opened Wrappers
  import opened NodeBuffer

  /** One primitive write. `Str` is `Encoder.string` / `Sizer.string` (length prefix =
      `value.length`); `Text` is `writeStringBE` / `sizeStringBE` (length prefix = UTF-8
      byte length); `Raw` is `Encoder.write` / `Sizer.write` of a whole buffer. */
  datatype Field =
    | Bool(b: bool)
    | U8(u8: int)
    | I16(i16: int)
    | I32(i32: int)
    | U32(u32: int)
    | I64(i64: int)
    | Str(str: seq<byte>)
    | Text(text: seq<byte>)
    | Raw(raw: seq<byte>)

  /** The values Node's checked writes accept for the field. */
  predicate Valid(f: Field) {
    match f
    case Bool(_) => true
    case U8(v) => IsUInt8(v)
    case I16(v) => IsInt16(v)
    case I32(v) => IsInt32(v)
    case U32(v) => IsUInt32(v)
    case I64(v) => IsInt64(v)
    case Str(s) => IsInt32(Utf16Length(s))
    case Text(s) => IsInt32(|s|)
    case Raw(_) => true
  }

  predicate AllValid(fs: seq<Field>) {
    forall i {:trigger Valid(fs[i])} :: 0 <= i < |fs| ==> Valid(fs[i])
  }

  /** A field whose size the library computes correctly: any field but a `Str` holding
      non-ASCII text. */
  predicate Sizable(f: Field) {
    f.Str? ==> IsAscii(f.str)
  }

  predicate AllSizable(fs: seq<Field>) {
    forall i {:trigger Sizable(fs[i])} :: 0 <= i < |fs| ==> Sizable(fs[i])
  }

  /** The bytes a field puts on the wire when the buffer has room for all of them. */
  function Encode(f: Field): seq<byte>
    requires Valid(f)
  {
    match f
    case Bool(b) => [if b then 1 else 0]
    case U8(v) => UInt8Bytes(v)
    case I16(v) => Int16BE(v)
    case I32(v) => Int32BE(v)
    case U32(v) => UInt32BE(v)
    case I64(v) => Int64BE(v)
    case Str(s) => Int32BE(Utf16Length(s)) + s
    case Text(s) => Int32BE(|s|) + s
    case Raw(r) => r
  }

  /** The number of bytes the size computation charges for a field: the `Sizer` for the
      Encoder's primitives, `sizeStringBE` for `Text`. */
  function Size(f: Field): int {
    match f
    case Bool(_) => 1
    case U8(_) => 1
    case I16(_) => 2
    case I32(_) => 4
    case U32(_) => 4
    case I64(_) => 8
    case Str(s) => 4 + Utf16Length(s)
    case Text(s) => 4 + |s|
    case Raw(r) => |r|
  }

  /** The bytes of a sequence of writes, in call order. */
  function EncodeAll(fs: seq<Field>): seq<byte>
    requires AllValid(fs)
  {
    if fs == [] then [] else Encode(fs[0]) + EncodeAll(fs[1..])
  }

  function SizeAll(fs: seq<Field>): int {
    if fs == [] then 0 else Size(fs[0]) + SizeAll(fs[1..])
  }

  /** `SizeAll` peeled one field at a time, for every suffix of `fs`. */
  lemma SizeAllUnfold(fs: seq<Field>)
    ensures forall i {:trigger SizeAll(fs[i..])} :: 0 <= i < |fs| ==>
              SizeAll(fs[i..]) == Size(fs[i]) + SizeAll(fs[i + 1..])
    ensures fs[0..] == fs && fs[|fs|..] == []
  {
    forall i | 0 <= i < |fs| ensures SizeAll(fs[i..]) == Size(fs[i]) + SizeAll(fs[i + 1..]) {
      assert fs[i..][0] == fs[i];
      assert fs[i..][1..] == fs[i + 1..];
    }
  }

  /** `EncodeAll` peeled one field at a time, for every suffix of `fs`. */
  lemma EncodeAllUnfold(fs: seq<Field>)
    requires AllValid(fs)
    ensures forall i {:trigger EncodeAll(fs[i..])} :: 0 <= i < |fs| ==>
              AllValid(fs[i..]) && EncodeAll(fs[i..]) == Encode(fs[i]) + EncodeAll(fs[i + 1..])
    ensures fs[0..] == fs && fs[|fs|..] == []
  {
    forall i | 0 <= i < |fs|
      ensures AllValid(fs[i..]) && EncodeAll(fs[i..]) == Encode(fs[i]) + EncodeAll(fs[i + 1..])
    {
      assert fs[i..][0] == fs[i];
      assert fs[i..][1..] == fs[i + 1..];
    }
  }

  /** Sizes add up: the size of two runs of writes is the sum of their sizes, and no run
      has a negative size. */
  lemma {:induction false} SizeAllConcat(fs: seq<Field>, gs: seq<Field>)
    ensures SizeAll(fs + gs) == SizeAll(fs) + SizeAll(gs)
    ensures SizeAll(fs) >= 0
    decreases |fs|
  {
    if fs == [] {
      assert fs + gs == gs;
    } else {
      var all := fs + gs;
      assert all[0] == fs[0] && all[1..] == fs[1..] + gs;
      SizeAllConcat(fs[1..], gs);
    }
  }

  /** The size charged for one write is the number of bytes it writes, unless it is a
      `Str` holding non-ASCII text. */
  lemma SizeMatchesEncode(f: Field)
    requires Valid(f) && Sizable(f)
    ensures Size(f) == |Encode(f)|
  {
    if f.Str? {
      AsciiUtf16Length(f.str);
    }
  }

  /** Sizer/Encoder parity: for the same calls, the size computed equals the bytes written. */
  lemma {:induction false} SizeAllMatchesEncodeAll(fs: seq<Field>)
    requires AllValid(fs) && AllSizable(fs)
    ensures SizeAll(fs) == |EncodeAll(fs)|
  {
    if fs != [] {
      var rest := fs[1..];
      assert AllValid(rest) && AllSizable(rest);
      SizeAllMatchesEncodeAll(rest);
      SizeMatchesEncode(fs[0]);
    }
  }

  /** What the size of a write depends on: its kind, and the length of a string or buffer. */
  function Shape(f: Field): (int, int) {
    match f
    case Bool(_) => (0, 0)
    case U8(_) => (1, 0)
    case I16(_) => (2, 0)
    case I32(_) => (3, 0)
    case U32(_) => (4, 0)
    case I64(_) => (5, 0)
    case Str(s) => (6, Utf16Length(s))
    case Text(s) => (7, |s|)
    case Raw(r) => (8, |r|)
  }

  /** The size of a sequence of writes never depends on the numbers or booleans written. */
  lemma {:induction false} SizeAllDependsOnShape(fs: seq<Field>, gs: seq<Field>)
    requires |fs| == |gs|
    requires forall i :: 0 <= i < |fs| ==> Shape(fs[i]) == Shape(gs[i])
    ensures SizeAll(fs) == SizeAll(gs)
  {
    if fs != [] {
      var fr, gr := fs[1..], gs[1..];
      assert forall i :: 0 <= i < |fr| ==> Shape(fr[i]) == Shape(gs[i + 1]) == Shape(gr[i]);
      SizeAllDependsOnShape(fr, gr);
      var f, g := fs[0], gs[0];
      assert Shape(f) == Shape(g);
      assert Size(f) == Size(g) by {
        match f
        case Bool(_) =>
        case U8(_) =>
        case I16(_) =>
        case I32(_) =>
        case U32(_) =>
        case I64(_) =>
        case Str(_) =>
        case Text(_) =>
        case Raw(_) =>
      }
    }
  }

  /** Concatenating two sequences of writes concatenates their bytes. */
  lemma {:induction false} EncodeAllConcat(fs: seq<Field>, gs: seq<Field>)
    requires AllValid(fs) && AllValid(gs)
    ensures AllValid(fs + gs)
    ensures EncodeAll(fs + gs) == EncodeAll(fs) + EncodeAll(gs)
    decreases |fs|
  {
    AllValidConcat(fs, gs);
    if fs == [] {
      assert fs + gs == gs;
    } else {
      var rest := fs[1..];
      assert AllValid(rest);
      EncodeAllConcat(rest, gs);
      var all := fs + gs;
      assert all[0] == fs[0] && all[1..] == rest + gs;
    }
  }

  lemma EncodeAllAppend(fs: seq<Field>, f: Field)
    requires AllValid(fs) && Valid(f)
    ensures AllValid(fs + [f])
    ensures EncodeAll(fs + [f]) == EncodeAll(fs) + Encode(f)
  {
    assert EncodeAll([f]) == Encode(f) by {
      assert [f][1..] == [];
    }
    EncodeAllConcat(fs, [f]);
  }

  lemma AllValidConcat(fs: seq<Field>, gs: seq<Field>)
    requires AllValid(fs) && AllValid(gs)
    ensures AllValid(fs + gs)
  {
    var all := fs + gs;
    forall i | 0 <= i < |all| ensures Valid(all[i]) {
      if i >= |fs| { assert all[i] == gs[i - |fs|]; }
    }
  }

  // ---- filling a fresh buffer ----

  /** `b` holds the writes `fs` before `offset`, and is still zero (as `Buffer.alloc` left it)
      from `offset` on. */
  ghost predicate Filled(b: seq<byte>, offset: int, fs: seq<Field>) {
    && 0 <= offset <= |b|
    && AllValid(fs)
    && b[..offset] == EncodeAll(fs)
    && b[offset..] == Zeros(|b| - offset)
  }

  lemma FilledStart(b: seq<byte>)
    requires forall i :: 0 <= i < |b| ==> b[i] == 0
    ensures Filled(b, 0, [])
  {
    assert b == Zeros(|b|);
  }

  /** Writing one more field right after the last one. */
  lemma FilledStep(before: seq<byte>, after: seq<byte>, offset: int, fs: seq<Field>, f: Field)
    requires Filled(before, offset, fs) && Valid(f)
    requires |after| == |before| && offset + |Encode(f)| <= |before|
    requires after[..offset + |Encode(f)|] == before[..offset] + Encode(f)
    requires after[offset + |Encode(f)|..] == before[offset + |Encode(f)|..]
    ensures Filled(after, offset + |Encode(f)|, fs + [f])
  {
    EncodeAllAppend(fs, f);
    var n := offset + |Encode(f)|;
    assert before[n..] == before[offset..][n - offset..];
    assert Zeros(|before| - offset)[n - offset..] == Zeros(|before| - n);
  }

  /** A buffer filled to its end holds exactly the writes. */
  lemma FilledEnd(b: seq<byte>, offset: int, fs: seq<Field>)
    requires Filled(b, offset, fs) && offset == |b|
    ensures b == EncodeAll(fs)
  {
    assert b[..|b|] == b;
  }

  // ---- reading back ----

  /** `x` occurs in `s` at `offset`. */
  predicate At(s: seq<byte>, offset: int, x: seq<byte>) {
    0 <= offset && offset + |x| <= |s| && s[offset..offset + |x|] == x
  }

  lemma AtSplit(s: seq<byte>, offset: int, x: seq<byte>, y: seq<byte>)
    requires At(s, offset, x + y)
    ensures At(s, offset, x) && At(s, offset + |x|, y)
  {
    assert s[offset..offset + |x|] == (x + y)[..|x|];
    assert s[offset + |x|..offset + |x| + |y|] == (x + y)[|x|..];
  }

  /** `Decoder.boolean()` at `offset`. */
  function BoolAt(s: seq<byte>, offset: int): Result<bool> {
    var v :- ReadUInt8(s, offset);
    Ok(v != 0)
  }

  /** `Decoder.string()` at `offset`: the text and the position after it. The length prefix
      is signed; the text is cut at the end of the buffer, and is empty for a negative length. */
  function StringAt(s: seq<byte>, offset: int): Result<(seq<byte>, int)> {
    var length :- ReadInt32BE(s, offset);
    var start := offset + 4;
    var end := start + length;
    Ok((Utf8Slice(s, start, end), end))
  }

  /** The fixed-width reads of the `Decoder`, with the position the cursor moves to; a
      reply is read by handing each read the position the previous one returned. */
  function BoolNext(s: seq<byte>, offset: int): Result<(bool, int)> {
    var v :- BoolAt(s, offset);
    Ok((v, offset + 1))
  }

  function UInt8Next(s: seq<byte>, offset: int): Result<(int, int)> {
    var v :- ReadUInt8(s, offset);
    Ok((v, offset + 1))
  }

  function Int64Next(s: seq<byte>, offset: int): Result<(int, int)> {
    var v :- ReadBigInt64BE(s, offset);
    Ok((v, offset + 8))
  }

  /** `Decoder.read(size)` at `offset`: the bytes `subarray` gives and the position after
      them, which moves by `size` whatever the bytes. */
  function SliceNext(s: seq<byte>, offset: int, size: int): (seq<byte>, int) {
    (Subarray(s, offset, offset + size), offset + size)
  }

  lemma BoolRoundTrip(s: seq<byte>, offset: int, v: bool)
    requires At(s, offset, Encode(Bool(v)))
    ensures BoolAt(s, offset) == Ok(v)
  {
    assert s[offset] == Encode(Bool(v))[0];
  }

  lemma UInt8RoundTrip(s: seq<byte>, offset: int, v: int)
    requires IsUInt8(v) && At(s, offset, Encode(U8(v)))
    ensures ReadUInt8(s, offset) == Ok(v)
  {
    assert s[offset] == Encode(U8(v))[0];
  }

  lemma Int32RoundTrip(s: seq<byte>, offset: int, v: int)
    requires IsInt32(v) && At(s, offset, Encode(I32(v)))
    ensures ReadInt32BE(s, offset) == Ok(v)
  {
    Int32BEInverse(v);
  }

  lemma Int64RoundTrip(s: seq<byte>, offset: int, v: int)
    requires IsInt64(v) && At(s, offset, Encode(I64(v)))
    ensures ReadBigInt64BE(s, offset) == Ok(v)
  {
    Int64BEInverse(v);
  }

  /** `Decoder.string()` over `writeStringBE` output returns the same bytes, for any text. */
  lemma TextRoundTrip(s: seq<byte>, offset: int, v: seq<byte>)
    requires IsInt32(|v|) && At(s, offset, Encode(Text(v)))
    ensures StringAt(s, offset) == Ok((v, offset + 4 + |v|))
  {
    AtSplit(s, offset, Int32BE(|v|), v);
    Int32BEInverse(|v|);
  }

  /** `Decoder.string()` over `Encoder.string` output returns the same text when it is ASCII. */
  lemma StrRoundTrip(s: seq<byte>, offset: int, v: seq<byte>)
    requires IsAscii(v) && IsInt32(Utf16Length(v)) && At(s, offset, Encode(Str(v)))
    ensures StringAt(s, offset) == Ok((v, offset + 4 + |v|))
  {
    AsciiUtf16Length(v);
    TextRoundTrip(s, offset, v);
  }

  /** `Decoder.read(n)` over `Encoder.write` output returns the bytes written. */
  lemma RawRoundTrip(s: seq<byte>, offset: int, v: seq<byte>)
    requires At(s, offset, Encode(Raw(v)))
    ensures Subarray(s, offset, offset + |v|) == v
  {
  }

  /** A 64-bit integer sent before `rest`: read back, with `rest` right after it. */
  lemma Int64Then(s: seq<byte>, offset: int, v: int, rest: seq<byte>)
    requires IsInt64(v) && At(s, offset, Int64BE(v) + rest)
    ensures ReadBigInt64BE(s, offset) == Ok(v) && At(s, offset + 8, rest)
  {
    Int64BEInverse(v);
    AtSplit(s, offset, Int64BE(v), rest);
    Int64RoundTrip(s, offset, v);
  }

  /** A boolean sent before `rest`: read back, with `rest` right after it. */
  lemma BoolThen(s: seq<byte>, offset: int, v: bool, rest: seq<byte>)
    requires At(s, offset, [if v then 1 else 0] + rest)
    ensures BoolAt(s, offset) == Ok(v) && At(s, offset + 1, rest)
  {
    AtSplit(s, offset, [if v then 1 else 0], rest);
    BoolRoundTrip(s, offset, v);
  }

  /** Raw bytes sent before `rest`: read back by `subarray`, with `rest` right after them. */
  lemma RawThen(s: seq<byte>, offset: int, x: seq<byte>, rest: seq<byte>)
    requires At(s, offset, x + rest)
    ensures Subarray(s, offset, offset + |x|) == x && At(s, offset + |x|, rest)
  {
    AtSplit(s, offset, x, rest);
    RawRoundTrip(s, offset, x);
  }

  /** A length-prefixed text sent before `rest`: read back, with `rest` right after it. */
  lemma TextThen(s: seq<byte>, offset: int, x: seq<byte>, rest: seq<byte>)
    requires IsInt32(|x|) && At(s, offset, (Int32BE(|x|) + x) + rest)
    ensures StringAt(s, offset) == Ok((x, offset + 4 + |x|)) && At(s, offset + 4 + |x|, rest)
  {
    TextSplit(s, offset, x, rest);
    TextRoundTrip(s, offset, x);
  }

  /** Two length-prefixed texts sent before `rest`: read back one after the other, with
      `rest` right after them. */
  lemma TwoTextsThen(s: seq<byte>, offset: int, x: seq<byte>, y: seq<byte>, rest: seq<byte>)
    requires IsInt32(|x|) && IsInt32(|y|)
    requires At(s, offset, (Int32BE(|x|) + x) + ((Int32BE(|y|) + y) + rest))
    ensures StringAt(s, offset) == Ok((x, offset + 4 + |x|))
    ensures StringAt(s, offset + 4 + |x|) == Ok((y, offset + 8 + |x| + |y|))
    ensures At(s, offset + 8 + |x| + |y|, rest)
  {
    TextThen(s, offset, x, (Int32BE(|y|) + y) + rest);
    TextThen(s, offset + 4 + |x|, y, rest);
  }

  /** A length-prefixed text sent before `rest`, and `rest` right after it. */
  lemma TextSplit(s: seq<byte>, offset: int, x: seq<byte>, rest: seq<byte>)
    requires IsInt32(|x|) && At(s, offset, (Int32BE(|x|) + x) + rest)
    ensures At(s, offset, Encode(Text(x))) && At(s, offset + 4 + |x|, rest)
  {
    Int32BEInverse(|x|);
    AtSplit(s, offset, Int32BE(|x|) + x, rest);
    AtSame(s, rest);
  }

  /** An occurrence at one offset is one at any offset equal to it. Stated over both offsets,
      so that an offset worked out one way is matched with the same offset worked out
      another way. */
  lemma AtSame(s: seq<byte>, x: seq<byte>)
    ensures forall o, p {:trigger At(s, o, x), At(s, p, x)} :: At(s, o, x) && o == p ==> At(s, p, x)
  {
  }

  /** `Encoder.string` with non-ASCII text, "é" (UTF-8 C3 A9): the prefix holds
      `value.length` = 1 while two bytes follow, so the Sizer charges one byte less than is
      written and `Decoder.string()` returns only the first byte and stops inside the text. */
  lemma NonAsciiStrIsMisframed()
    ensures var e := [0xC3, 0xA9];
      && Valid(Str(e))
      && Encode(Str(e)) == [0, 0, 0, 1, 0xC3, 0xA9]
      && Size(Str(e)) == 5 != |Encode(Str(e))|
      && StringAt(Encode(Str(e)), 0) == Ok(([0xC3], 5))
  {
    var e: seq<byte> := [0xC3, 0xA9];
    assert e[..1] == [0xC3];
    assert Utf16Length(e) == 1;
    Pow256Values();
    assert Int32BE(1) == [0, 0, 0, 1];
    var w := Encode(Str(e));
    assert w == [0, 0, 0, 1, 0xC3, 0xA9];
    assert At(w, 0, Int32BE(1));
    Int32RoundTrip(w, 0, 1);
    assert Utf8Slice(w, 4, 5) == w[4..5] == [0xC3];
  }

  // ---- a whole sequence of writes, read back in order ----

  /** What a reader must know to read a field back: its kind, and the length of raw bytes
      (which carry no prefix). */
  datatype Kind = KBool | KU8 | KI16 | KI32 | KU32 | KI64 | KStr | KText | KRaw(n: nat)

  function KindOf(f: Field): Kind {
    match f
    case Bool(_) => KBool
    case U8(_) => KU8
    case I16(_) => KI16
    case I32(_) => KI32
    case U32(_) => KU32
    case I64(_) => KI64
    case Str(_) => KStr
    case Text(_) => KText
    case Raw(r) => KRaw(|r|)
  }

  function KindsOf(fs: seq<Field>): seq<Kind> {
    if fs == [] then [] else [KindOf(fs[0])] + KindsOf(fs[1..])
  }

  /** `KindsOf` peeled one field at a time, for every suffix of `fs`. */
  lemma KindsOfUnfold(fs: seq<Field>)
    ensures forall i {:trigger KindsOf(fs[i..])} :: 0 <= i < |fs| ==>
              KindsOf(fs[i..]) == [KindOf(fs[i])] + KindsOf(fs[i + 1..])
    ensures fs[0..] == fs && fs[|fs|..] == []
  {
    forall i | 0 <= i < |fs| ensures KindsOf(fs[i..]) == [KindOf(fs[i])] + KindsOf(fs[i + 1..]) {
      assert fs[i..][0] == fs[i];
      assert fs[i..][1..] == fs[i + 1..];
    }
  }

  /** Reads one field of kind `k` at `offset`: the field and the position after it. */
  function FieldAt(s: seq<byte>, offset: int, k: Kind): Result<(Field, int)> {
    match k
    case KBool =>
      var v :- BoolAt(s, offset);
      Ok((Bool(v), offset + 1))
    case KU8 =>
      var v :- ReadUInt8(s, offset);
      Ok((U8(v), offset + 1))
    case KI16 =>
      if InBounds(s, offset, 2) then Ok((I16(FromInt16BE(s[offset..offset + 2])), offset + 2))
      else Err(OutOfRange)
    case KI32 =>
      var v :- ReadInt32BE(s, offset);
      Ok((I32(v), offset + 4))
    case KU32 =>
      if InBounds(s, offset, 4) then Ok((U32(FromBigEndian(s[offset..offset + 4])), offset + 4))
      else Err(OutOfRange)
    case KI64 =>
      var v :- ReadBigInt64BE(s, offset);
      Ok((I64(v), offset + 8))
    case KStr =>
      var p :- StringAt(s, offset);
      Ok((Str(p.0), p.1))
    case KText =>
      var p :- StringAt(s, offset);
      Ok((Text(p.0), p.1))
    case KRaw(n) =>
      Ok((Raw(Subarray(s, offset, offset + n)), offset + n))
  }

  /** Any field the size computation gets right is read back as written. */
  lemma FieldRoundTrip(s: seq<byte>, offset: int, f: Field)
    requires Valid(f) && Sizable(f) && At(s, offset, Encode(f))
    ensures FieldAt(s, offset, KindOf(f)) == Ok((f, offset + |Encode(f)|))
  {
    if f.Str? || f.Text? || f.Raw? {
      BytesFieldRoundTrip(s, offset, f);
    } else {
      FixedFieldRoundTrip(s, offset, f);
    }
  }

  /** `FieldRoundTrip` for the fixed-width fields. */
  lemma FixedFieldRoundTrip(s: seq<byte>, offset: int, f: Field)
    requires !(f.Str? || f.Text? || f.Raw?) && Valid(f) && At(s, offset, Encode(f))
    ensures FieldAt(s, offset, KindOf(f)) == Ok((f, offset + |Encode(f)|))
  {
    match f
    case Bool(v) => BoolRoundTrip(s, offset, v);
    case U8(v) => UInt8RoundTrip(s, offset, v);
    case I16(v) => Int16BEInverse(v);
    case I32(v) => Int32RoundTrip(s, offset, v);
    case U32(v) => UInt32BEInverse(v);
    case I64(v) => Int64RoundTrip(s, offset, v);
  }

  /** `FieldRoundTrip` for the fields that carry bytes. */
  lemma BytesFieldRoundTrip(s: seq<byte>, offset: int, f: Field)
    requires (f.Str? || f.Text? || f.Raw?) && Valid(f) && Sizable(f) && At(s, offset, Encode(f))
    ensures FieldAt(s, offset, KindOf(f)) == Ok((f, offset + |Encode(f)|))
  {
    match f
    case Str(v) => StrRoundTrip(s, offset, v);
    case Text(v) => TextRoundTrip(s, offset, v);
    case Raw(v) => RawRoundTrip(s, offset, v);
  }

  /** Something that reads one field of a given kind at an offset of a buffer. */
  type FieldReader = (seq<byte>, int, Kind) -> Result<(Field, int)>

  /** Reads fields of the kinds `ks` with `read`, in order, starting at `offset`. */
  function ReadAll(read: FieldReader, s: seq<byte>, offset: int, ks: seq<Kind>)
    : Result<(seq<Field>, int)>
    decreases |ks|
  {
    if ks == [] then Ok(([], offset))
    else
      var first :- read(s, offset, ks[0]);
      var rest :- ReadAll(read, s, first.1, ks[1..]);
      Ok(([first.0] + rest.0, rest.1))
  }

  /** Reads fields of the kinds `ks`, in order, starting at `offset`. */
  function FieldsFrom(s: seq<byte>, offset: int, ks: seq<Kind>): Result<(seq<Field>, int)> {
    ReadAll(FieldAt, s, offset, ks)
  }

  /** `read` reads back every field the size computation gets right, wherever in `s` it sits. */
  ghost predicate ReadsBack(read: FieldReader, s: seq<byte>) {
    forall offset, f | Valid(f) && Sizable(f) && At(s, offset, Encode(f)) ::
      read(s, offset, KindOf(f)) == Ok((f, offset + |Encode(f)|))
  }

  lemma FieldAtReadsBack(s: seq<byte>)
    ensures ReadsBack(FieldAt, s)
  {
    forall offset, f | Valid(f) && Sizable(f) && At(s, offset, Encode(f))
      ensures FieldAt(s, offset, KindOf(f)) == Ok((f, offset + |Encode(f)|))
    {
      FieldRoundTrip(s, offset, f);
    }
  }

  /** A sequence of writes is read back in order, field for field, when each field's size is
      computed right (no non-ASCII `Str`); the reader stops right after the last byte. */
  lemma FieldsRoundTrip(s: seq<byte>, offset: int, fs: seq<Field>)
    requires AllValid(fs) && AllSizable(fs) && At(s, offset, EncodeAll(fs))
    ensures FieldsFrom(s, offset, KindsOf(fs)) == Ok((fs, offset + |EncodeAll(fs)|))
  {
    FieldAtReadsBack(s);
    ReadAllRoundTrip(FieldAt, s, offset, fs);
  }

  /** Two runs of writes, one after the other, read back run by run by any reader that reads
      single fields back; `middle` is where the second run starts. */
  lemma HalvesRead(read: FieldReader, s: seq<byte>, offset: int, fs: seq<Field>, gs: seq<Field>,
                   bytes: seq<byte>)
    returns (middle: int)
    requires ReadsBack(read, s)
    requires AllValid(fs) && AllSizable(fs) && AllValid(gs) && AllSizable(gs)
    requires bytes == EncodeAll(fs) + EncodeAll(gs) && At(s, offset, bytes)
    ensures middle == offset + |EncodeAll(fs)|
    ensures ReadAll(read, s, offset, KindsOf(fs)) == Ok((fs, middle))
    ensures ReadAll(read, s, middle, KindsOf(gs)) == Ok((gs, offset + |bytes|))
  {
    var x, y := EncodeAll(fs), EncodeAll(gs);
    assert |bytes| == |x| + |y|;
    AtSplit(s, offset, x, y);
    ReadAllRoundTrip(read, s, offset, fs);
    middle := offset + |x|;
    ReadAllRoundTrip(read, s, middle, gs);
    ReadIs(ReadAll(read, s, middle, KindsOf(gs)), (gs, offset + |bytes|));
  }

  /** `bytes` are two runs of writes, each read back as written, one after the other. */
  predicate Halves(fs: seq<Field>, gs: seq<Field>, bytes: seq<byte>) {
    && AllValid(fs) && AllSizable(fs) && AllValid(gs) && AllSizable(gs)
    && bytes == EncodeAll(fs) + EncodeAll(gs)
  }

  /** `HalvesRead` for the library's own field reader. */
  lemma FieldHalvesRead(s: seq<byte>, offset: int, fs: seq<Field>, gs: seq<Field>, bytes: seq<byte>,
                        end: int)
    returns (middle: int)
    requires Halves(fs, gs, bytes) && At(s, offset, bytes) && end == offset + |bytes|
    ensures FieldsFrom(s, offset, KindsOf(fs)) == Ok((fs, middle))
    ensures FieldsFrom(s, middle, KindsOf(gs)) == Ok((gs, end))
  {
    FieldAtReadsBack(s);
    middle := HalvesRead(FieldAt, s, offset, fs, gs, bytes);
    ReadIs(FieldsFrom(s, middle, KindsOf(gs)), (gs, end));
  }

  /** `FieldsRoundTrip` for any reader that reads single fields back. */
  lemma {:induction false} ReadAllRoundTrip(read: FieldReader, s: seq<byte>, offset: int,
                                            fs: seq<Field>)
    requires ReadsBack(read, s)
    requires AllValid(fs) && AllSizable(fs) && At(s, offset, EncodeAll(fs))
    ensures ReadAll(read, s, offset, KindsOf(fs)) == Ok((fs, offset + |EncodeAll(fs)|))
    decreases |fs|
  {
    if fs == [] {
      assert KindsOf(fs) == [] && EncodeAll(fs) == [];
    } else {
      RestAt(s, offset, fs);
      var next := offset + |Encode(fs[0])|;
      ReadAllRoundTrip(read, s, next, fs[1..]);
      ReadAllStep(read, s, offset, fs, next, next + |EncodeAll(fs[1..])|);
    }
  }

  /** The first write sits at `offset` and the others right after it. */
  lemma RestAt(s: seq<byte>, offset: int, fs: seq<Field>)
    requires fs != [] && AllValid(fs) && AllSizable(fs) && At(s, offset, EncodeAll(fs))
    ensures Valid(fs[0]) && Sizable(fs[0]) && AllValid(fs[1..]) && AllSizable(fs[1..])
    ensures At(s, offset, Encode(fs[0]))
    ensures At(s, offset + |Encode(fs[0])|, EncodeAll(fs[1..]))
    ensures |EncodeAll(fs)| == |Encode(fs[0])| + |EncodeAll(fs[1..])|
  {
    TailValid(fs);
    EncodeAllFirst(fs);
    AtSplit(s, offset, Encode(fs[0]), EncodeAll(fs[1..]));
  }

  /** A run of writes puts its first write's bytes, then the rest's. */
  lemma EncodeAllFirst(fs: seq<Field>)
    requires fs != [] && AllValid(fs) && AllValid(fs[1..]) && Valid(fs[0])
    ensures EncodeAll(fs) == Encode(fs[0]) + EncodeAll(fs[1..])
  {
  }

  /** The fields after the first of a run are as valid and sizable as the run. */
  lemma TailValid(fs: seq<Field>)
    requires fs != [] && AllValid(fs) && AllSizable(fs)
    ensures Valid(fs[0]) && Sizable(fs[0]) && AllValid(fs[1..]) && AllSizable(fs[1..])
  {
    forall i | 0 <= i < |fs| - 1 ensures Valid(fs[1..][i]) && Sizable(fs[1..][i]) {
      assert fs[1..][i] == fs[i + 1];
    }
  }

  /** A run of writes that starts with `f` puts `f`'s bytes first, then the rest's. */
  lemma EncodeAllCons(f: Field, rest: seq<Field>)
    requires Valid(f) && AllValid(rest)
    ensures AllValid([f] + rest)
    ensures EncodeAll([f] + rest) == Encode(f) + EncodeAll(rest)
  {
    var fs := [f] + rest;
    assert fs[0] == f && fs[1..] == rest;
  }

  /** A run of one write puts that write's bytes. */
  lemma EncodeAllOne(f: Field)
    requires Valid(f)
    ensures AllValid([f]) && EncodeAll([f]) == Encode(f)
  {
    assert [f][1..] == [];
    assert Encode(f) + [] == Encode(f);
  }

  /** Fields read back as written: the first one first, then the rest after it. */
  lemma FieldsFromFirst(s: seq<byte>, offset: int, fs: seq<Field>, end: int)
    requires fs != [] && FieldsFrom(s, offset, KindsOf(fs)) == Ok((fs, end))
    ensures FieldAt(s, offset, KindOf(fs[0])).Ok? && FieldAt(s, offset, KindOf(fs[0])).value.0 == fs[0]
    ensures FieldsFrom(s, FieldAt(s, offset, KindOf(fs[0])).value.1, KindsOf(fs[1..])) == Ok((fs[1..], end))
  {
    var ks := KindsOf(fs);
    assert ks[0] == KindOf(fs[0]) && ks[1..] == KindsOf(fs[1..]);
    var first := FieldAt(s, offset, ks[0]).value;
    var rest := ReadAll(FieldAt, s, first.1, ks[1..]).value;
    assert fs == [first.0] + rest.0;
    assert fs[1..] == rest.0;
  }

  /** Reading a run of fields from its `i`-th on: field `i` comes back as written, and the
      rest follows it. */
  lemma FieldsFromAt(s: seq<byte>, offset: int, fs: seq<Field>, i: nat, end: int)
    requires i < |fs| && FieldsFrom(s, offset, KindsOf(fs[i..])) == Ok((fs[i..], end))
    ensures FieldAt(s, offset, KindOf(fs[i])).Ok? && FieldAt(s, offset, KindOf(fs[i])).value.0 == fs[i]
    ensures FieldsFrom(s, FieldAt(s, offset, KindOf(fs[i])).value.1, KindsOf(fs[i + 1..]))
         == Ok((fs[i + 1..], end))
  {
    FieldsFromFirst(s, offset, fs[i..], end);
    assert fs[i..][0] == fs[i] && fs[i..][1..] == fs[i + 1..];
  }

  /** Field `i` of a run read back, when it is a length-prefixed text. */
  lemma TakeText(s: seq<byte>, offset: int, fs: seq<Field>, i: nat, end: int) returns (next: int)
    requires i < |fs| && fs[i].Text? && FieldsFrom(s, offset, KindsOf(fs[i..])) == Ok((fs[i..], end))
    ensures StringAt(s, offset) == Ok((fs[i].text, next))
    ensures FieldsFrom(s, next, KindsOf(fs[i + 1..])) == Ok((fs[i + 1..], end))
  {
    assert KindOf(fs[i]) == KText;
    FieldsFromAt(s, offset, fs, i, end);
    var v := StringAt(s, offset);
    assert v.Ok? && FieldAt(s, offset, KText) == Ok((Text(v.value.0), v.value.1));
    next := v.value.1;
  }

  /** Field `i` of a run read back, when it is a 64-bit integer. */
  lemma TakeI64(s: seq<byte>, offset: int, fs: seq<Field>, i: nat, end: int)
    requires i < |fs| && fs[i].I64? && FieldsFrom(s, offset, KindsOf(fs[i..])) == Ok((fs[i..], end))
    ensures ReadBigInt64BE(s, offset) == Ok(fs[i].i64)
    ensures FieldsFrom(s, offset + 8, KindsOf(fs[i + 1..])) == Ok((fs[i + 1..], end))
  {
    assert KindOf(fs[i]) == KI64;
    FieldsFromAt(s, offset, fs, i, end);
    var v := ReadBigInt64BE(s, offset);
    assert v.Ok? && FieldAt(s, offset, KI64) == Ok((I64(v.value), offset + 8));
  }

  /** Field `i` of a run read back, when it is a byte. */
  lemma TakeU8(s: seq<byte>, offset: int, fs: seq<Field>, i: nat, end: int)
    requires i < |fs| && fs[i].U8? && FieldsFrom(s, offset, KindsOf(fs[i..])) == Ok((fs[i..], end))
    ensures ReadUInt8(s, offset) == Ok(fs[i].u8)
    ensures FieldsFrom(s, offset + 1, KindsOf(fs[i + 1..])) == Ok((fs[i + 1..], end))
  {
    assert KindOf(fs[i]) == KU8;
    FieldsFromAt(s, offset, fs, i, end);
    var v := ReadUInt8(s, offset);
    assert v.Ok? && FieldAt(s, offset, KU8) == Ok((U8(v.value), offset + 1));
  }

  /** Field `i` of a run read back, when it is a boolean. */
  lemma TakeBool(s: seq<byte>, offset: int, fs: seq<Field>, i: nat, end: int)
    requires i < |fs| && fs[i].Bool? && FieldsFrom(s, offset, KindsOf(fs[i..])) == Ok((fs[i..], end))
    ensures BoolAt(s, offset) == Ok(fs[i].b)
    ensures FieldsFrom(s, offset + 1, KindsOf(fs[i + 1..])) == Ok((fs[i + 1..], end))
  {
    assert KindOf(fs[i]) == KBool;
    FieldsFromAt(s, offset, fs, i, end);
    var v := BoolAt(s, offset);
    assert v.Ok? && FieldAt(s, offset, KBool) == Ok((Bool(v.value), offset + 1));
  }

  /** Once every field of a run is read, the reader stands at its end. */
  lemma TakeEnd(s: seq<byte>, offset: int, fs: seq<Field>, end: int)
    requires FieldsFrom(s, offset, KindsOf(fs[|fs|..])) == Ok((fs[|fs|..], end))
    ensures offset == end
  {
    assert fs[|fs|..] == [];
  }

  /** One step of `ReadAll`: reading the first field, then the rest. */
  lemma ReadAllStep(read: FieldReader, s: seq<byte>, offset: int, fs: seq<Field>, next: int,
                    end: int)
    requires fs != []
    requires read(s, offset, KindOf(fs[0])) == Ok((fs[0], next))
    requires ReadAll(read, s, next, KindsOf(fs[1..])) == Ok((fs[1..], end))
    ensures ReadAll(read, s, offset, KindsOf(fs)) == Ok((fs, end))
  {
    var ks := KindsOf(fs);
    assert ks[0] == KindOf(fs[0]) && ks[1..] == KindsOf(fs[1..]);
    assert [fs[0]] + fs[1..] == fs;
  }
}
