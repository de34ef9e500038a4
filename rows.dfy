/** `writeRow`: one row packed for the batched insert commands, as the series id, the class
    byte, the time, the value and the quality. Class 0 gives the value an 8-byte slot;
    class 1 sends it as a length-prefixed string. */
module PackedRows {

  import opened Bytes
  import opened Wrappers
  import opened NodeBuffer
  import opened Fields
  import opened LengthPrefixed
  import opened Records
  import opened Values
  import opened Requests

  /** The writes of a class-0 row whose value, already padded, is `slot`. */
  function SimpleRow(seriesId: int, t: int, q: int, slot: seq<byte>): seq<Field> {
    [I64(seriesId), U8(SimpleClass), I64(t), Raw(slot), U32(q)]
  }

  /** The writes of a class-1 row holding the string `s`. */
  function BlobRow(seriesId: int, t: int, q: int, s: seq<byte>): seq<Field> {
    [I64(seriesId), U8(BlobClass), I64(t), Text(s), U32(q)]
  }

  /** The 8-byte slot of a class-0 row: the value cut to the 12 bytes left before the end of
      the 29-byte buffer, which must fit the slot, zero-padded to it. */
  function SlotOf(value: Value): (r: Result<seq<byte>>)
    ensures r.Ok? ==> |r.value| == 8
  {
    var bytes :- AsBytes(value, 12);
    if |bytes| > 8 then Err(OutOfRange) else Ok(bytes + Zeros(8 - |bytes|))
  }

  /** The writes of a packed row: a class-0 row takes the slot of its value; a class-1 row
      takes only a string. */
  function RowFields(seriesId: int, cl: int, t: int, q: int, value: Value): (r: Result<seq<Field>>)
    requires IsInt64(seriesId) && IsInt64(t) && IsUInt32(q)
    ensures r.Ok? ==> AllValid(r.value) && AllSizable(r.value)
    ensures cl == SimpleClass ==>
              (r.Ok? <==> SlotOf(value).Ok?)
              && (r.Ok? ==> r.value == SimpleRow(seriesId, t, q, SlotOf(value).value))
    ensures r.Ok? && cl != SimpleClass ==>
              cl == BlobClass && value.VString? && r.value == BlobRow(seriesId, t, q, value.s)
    ensures cl != SimpleClass && cl != BlobClass ==> r == Err(Message("row encode: invalid class", []))
  {
    if cl == SimpleClass then
      var slot :- SlotOf(value);
      Ok(SimpleRow(seriesId, t, q, slot))
    else if cl == BlobClass then BlobFields(seriesId, t, q, value)
    else Err(Message("row encode: invalid class", []))
  }

  /** The class-1 case of `RowFields`: only a string is accepted, behind its byte length.
      A binary view passes `sizeStringBE` and is refused by the `typeof` switch; any other
      value is already refused by `Buffer.byteLength`. */
  function BlobFields(seriesId: int, t: int, q: int, value: Value): (r: Result<seq<Field>>)
    requires IsInt64(seriesId) && IsInt64(t) && IsUInt32(q)
    ensures r.Ok? <==> value.VString? && IsInt32(|value.s|)
    ensures r.Ok? ==> r.value == BlobRow(seriesId, t, q, value.s)
    ensures value.VBuffer? || value.VView? ==> r == Err(Message("row encode: invalid typeof value", []))
    ensures !value.VString? && !value.VBuffer? && !value.VView? ==> r == Err(InvalidArgType)
  {
    match value
    case VString(s) =>
      if IsInt32(|s|) then Ok(BlobRow(seriesId, t, q, s)) else Err(OutOfRange)
    case VBuffer(_) => Err(Message("row encode: invalid typeof value", []))
    case VView(_) => Err(Message("row encode: invalid typeof value", []))
    case _ => Err(InvalidArgType)
  }

  /** What a reader of packed rows expects for a class: the value is 8 raw bytes for class
      0 and a length-prefixed string otherwise. */
  function RowKinds(cl: int): seq<Kind> {
    [KI64, KU8, KI64, if cl == SimpleClass then KRaw(8) else KText, KU32]
  }

  /** Five writes read back field for field, in the kinds they were written with. */
  lemma FiveFieldsRoundTrip(fs: seq<Field>)
    requires |fs| == 5 && AllValid(fs) && AllSizable(fs)
    ensures FieldsFrom(EncodeAll(fs), 0, KindsOf(fs)) == Ok((fs, |EncodeAll(fs)|))
    ensures KindsOf(fs) == [KindOf(fs[0]), KindOf(fs[1]), KindOf(fs[2]), KindOf(fs[3]), KindOf(fs[4])]
    ensures |EncodeAll(fs)| == Size(fs[0]) + Size(fs[1]) + Size(fs[2]) + Size(fs[3]) + Size(fs[4])
  {
    var s := EncodeAll(fs);
    assert At(s, 0, s) by {
      assert s[0..|s|] == s;
    }
    FieldsRoundTrip(s, 0, fs);
    ReadIs(FieldsFrom(s, 0, KindsOf(fs)), (fs, |s|));
    KindsOfUnfold(fs);
    SizeAllMatchesEncodeAll(fs);
    SizeAllUnfold(fs);
  }

  /** A packed row reads back field for field with the class's layout, and fills exactly
      the buffer `writeRow` allocates: 29 bytes for class 0, `8+1+8+sizeStringBE(s)+4` for
      class 1. */
  lemma RowRoundTrip(seriesId: int, cl: int, t: int, q: int, value: Value)
    requires IsInt64(seriesId) && IsInt64(t) && IsUInt32(q)
    requires RowFields(seriesId, cl, t, q, value).Ok?
    ensures var fs := RowFields(seriesId, cl, t, q, value).value;
            && FieldsFrom(EncodeAll(fs), 0, RowKinds(cl)) == Ok((fs, |EncodeAll(fs)|))
            && (cl == SimpleClass ==> |EncodeAll(fs)| == 8 + 1 + 8 + 8 + 4)
            && (cl != SimpleClass ==> |EncodeAll(fs)| == 8 + 1 + 8 + SizeStringBE(value.s) + 4)
  {
    if cl == SimpleClass {
      SimpleRowRoundTrip(seriesId, t, q, SlotOf(value).value);
    } else {
      BlobRowRoundTrip(seriesId, t, q, value.s);
    }
  }

  /** A class-0 row reads back field for field and fills 29 bytes. */
  lemma SimpleRowRoundTrip(seriesId: int, t: int, q: int, slot: seq<byte>)
    requires IsInt64(seriesId) && IsInt64(t) && IsUInt32(q) && |slot| == 8
    ensures var fs := SimpleRow(seriesId, t, q, slot);
            && AllValid(fs)
            && FieldsFrom(EncodeAll(fs), 0, RowKinds(SimpleClass)) == Ok((fs, |EncodeAll(fs)|))
            && |EncodeAll(fs)| == 8 + 1 + 8 + 8 + 4
  {
    var fs := SimpleRow(seriesId, t, q, slot);
    assert AllValid(fs) && AllSizable(fs);
    FiveFieldsRoundTrip(fs);
  }

  /** A class-1 row reads back field for field and fills `8+1+8+sizeStringBE(s)+4` bytes. */
  lemma BlobRowRoundTrip(seriesId: int, t: int, q: int, s: seq<byte>)
    requires IsInt64(seriesId) && IsInt64(t) && IsUInt32(q) && IsInt32(|s|)
    ensures var fs := BlobRow(seriesId, t, q, s);
            && AllValid(fs)
            && FieldsFrom(EncodeAll(fs), 0, RowKinds(BlobClass)) == Ok((fs, |EncodeAll(fs)|))
            && |EncodeAll(fs)| == 8 + 1 + 8 + SizeStringBE(s) + 4
  {
    var fs := BlobRow(seriesId, t, q, s);
    assert AllValid(fs) && AllSizable(fs);
    FiveFieldsRoundTrip(fs);
  }

  /** Five writes encode one after the other. */
  lemma EncodeFive(fs: seq<Field>)
    requires |fs| == 5 && AllValid(fs)
    ensures EncodeAll(fs) == Encode(fs[0]) + (Encode(fs[1]) + (Encode(fs[2]) + (Encode(fs[3]) + Encode(fs[4]))))
  {
    EncodeAllUnfold(fs);
    assert EncodeAll(fs[4..]) == Encode(fs[4]);
  }

  /** Where the parts of five concatenated byte strings sit. */
  lemma SplitFive(a: seq<byte>, b: seq<byte>, c: seq<byte>, d: seq<byte>, e: seq<byte>)
    ensures var r := a + (b + (c + (d + e)));
            && |r| == |a| + |b| + |c| + |d| + |e|
            && r[..|a|] == a && r[|a|..|a| + |b|] == b && r[|a| + |b|..|a| + |b| + |c|] == c
            && r[|a| + |b| + |c|..|a| + |b| + |c| + |d|] == d && r[|a| + |b| + |c| + |d|..] == e
  {
    var r := a + (b + (c + (d + e)));
    assert r[|a|..] == b + (c + (d + e));
    assert r[|a| + |b|..] == c + (d + e);
    assert r[|a| + |b| + |c|..] == d + e;
  }

  /** The bytes of a class-0 row: series id, class 0 at 8, time, the 8-byte slot at 17..25,
      and the quality at 25..29. */
  lemma SimpleRowLayout(seriesId: int, t: int, q: int, slot: seq<byte>)
    requires IsInt64(seriesId) && IsInt64(t) && IsUInt32(q) && |slot| == 8
    ensures AllValid(SimpleRow(seriesId, t, q, slot))
    ensures var row := EncodeAll(SimpleRow(seriesId, t, q, slot));
            && |row| == 8 + 1 + 8 + 8 + 4
            && row[..8] == Int64BE(seriesId) && row[8] == 0 && row[9..17] == Int64BE(t)
            && row[17..25] == slot && row[25..] == UInt32BE(q)
  {
    var fs := SimpleRow(seriesId, t, q, slot);
    EncodeFive(fs);
    Int64BEInverse(seriesId);
    Int64BEInverse(t);
    UInt32BEInverse(q);
    SplitFive(Int64BE(seriesId), [0], Int64BE(t), slot, UInt32BE(q));
    assert EncodeAll(fs)[8..9] == [0];
  }

  /** The quality used in the examples below, as it is written. */
  lemma ExampleQuality()
    ensures UInt32BE(0x01020304) == [1, 2, 3, 4]
  {
    Pow256Values();
  }

  /** A raw value written right after `fs` into a zeroed tail, padded with `n` of the zeros
      that follow it. */
  lemma FilledPadded(before: seq<byte>, after: seq<byte>, offset: int, fs: seq<Field>,
                     x: seq<byte>, n: nat)
    requires Filled(before, offset, fs) && |after| == |before| && offset + |x| + n <= |before|
    requires after[..offset + |x|] == before[..offset] + x
    requires after[offset + |x|..] == before[offset + |x|..]
    ensures Filled(after, offset + |x| + n, fs + [Raw(x + Zeros(n))])
  {
    var m := offset + |x| + n;
    assert after[offset + |x|..m] == Zeros(n) by {
      assert after[offset + |x|..m] == before[offset + |x|..m] == before[offset..][|x|..m - offset];
      assert Zeros(|before| - offset)[|x|..m - offset] == Zeros(n);
    }
    assert after[..m] == after[..offset + |x|] + after[offset + |x|..m];
    assert after[m..] == before[m..];
    FilledStep(before, after, offset, fs, Raw(x + Zeros(n)));
  }

  /** The series id, the class byte and the time, at the start of a fresh buffer. */
  method WriteRowHead(b: array<byte>, seriesId: int, cl: int, t: int) returns (offset: int)
    requires IsInt64(seriesId) && IsUInt8(cl) && IsInt64(t)
    requires 8 + 1 + 8 <= b.Length && Filled(b[..], 0, [])
    modifies b
    ensures offset == 8 + 1 + 8 && Filled(b[..], offset, [I64(seriesId), U8(cl), I64(t)])
  {
    offset := WriteNext(b, 0, I64(seriesId), []);
    offset := WriteNext(b, offset, U8(cl), [I64(seriesId)]);
    offset := WriteNext(b, offset, I64(t), [I64(seriesId)] + [U8(cl)]);
    assert [I64(seriesId)] + [U8(cl)] + [I64(t)] == [I64(seriesId), U8(cl), I64(t)];
  }

  /** The value of a class-0 row at 17, through `ValToBinaryAs` with the 12 bytes left, which
      must end by 25; the slot is then the value and the zeros behind it. */
  method WriteSlot(b: array<byte>, value: Value, ghost fs: seq<Field>) returns (r: Result<()>)
    requires b.Length == 8 + 1 + 8 + 8 + 4 && Filled(b[..], 8 + 1 + 8, fs)
    modifies b
    ensures match SlotOf(value)
      case Err(e) => r == Err(e)
      case Ok(slot) => r.Ok? && Filled(b[..], 8 + 1 + 8 + 8, fs + [Raw(slot)])
  {
    ghost var before := b[..];
    var written := ValToBinaryAs(value, b, 8 + 1 + 8);
    if written.Err? {
      return Err(written.error);
    }
    if written.value > 8 + 1 + 8 + 8 {
      return Err(OutOfRange);
    }
    ghost var bytes := AsBytes(value, 12).value;
    FilledPadded(before, b[..], 8 + 1 + 8, fs, bytes, 8 - |bytes|);
    r := Ok(());
  }

  /** Class 0 with the corrected offsets: the header, the value at 17 (through
      `ValToBinaryAs`, which returns the offset after it), the quality at 25. */
  method WriteSimpleRow(seriesId: int, t: int, q: int, value: Value) returns (r: Result<array<byte>>)
    requires IsInt64(seriesId) && IsInt64(t) && IsUInt32(q)
    ensures var p := RowFields(seriesId, SimpleClass, t, q, value);
            && (r.Ok? <==> p.Ok?) && (p.Err? ==> r == Err(p.error))
            && (r.Ok? ==> fresh(r.value) && r.value[..] == EncodeAll(p.value))
  {
    var b := new byte[8 + 1 + 8 + 8 + 4](_ => 0);
    FilledStart(b[..]);
    var offset := WriteRowHead(b, seriesId, SimpleClass, t);
    ghost var fs := [I64(seriesId), U8(SimpleClass), I64(t)];
    var slot := WriteSlot(b, value, fs);
    if slot.Err? {
      return Err(slot.error);
    }
    WriteQuality(b, seriesId, t, q, SlotOf(value).value);
    r := Ok(b);
  }

  /** The quality at 25, the last field of a class-0 row. */
  method WriteQuality(b: array<byte>, seriesId: int, t: int, q: int, ghost slot: seq<byte>)
    requires IsInt64(seriesId) && IsInt64(t) && IsUInt32(q) && b.Length == 8 + 1 + 8 + 8 + 4
    requires Filled(b[..], 8 + 1 + 8 + 8, [I64(seriesId), U8(SimpleClass), I64(t)] + [Raw(slot)])
    modifies b
    ensures b[..] == EncodeAll(SimpleRow(seriesId, t, q, slot))
  {
    ghost var fs := [I64(seriesId), U8(SimpleClass), I64(t)] + [Raw(slot)];
    var offset := WriteNext(b, 8 + 1 + 8 + 8, U32(q), fs);
    FilledEnd(b[..], offset, fs + [U32(q)]);
    assert fs + [U32(q)] == SimpleRow(seriesId, t, q, slot);
  }

  /** The size of a class-1 row: what `writeRow` allocates for it. */
  lemma BlobRowSize(seriesId: int, t: int, q: int, s: seq<byte>)
    ensures SizeAll(BlobRow(seriesId, t, q, s)) == 8 + 1 + 8 + SizeStringBE(s) + 4
  {
    SizeAllUnfold(BlobRow(seriesId, t, q, s));
  }

  /** Class 1: the header, the string behind its byte length, the quality. */
  method WriteBlobRow(seriesId: int, t: int, q: int, value: Value) returns (r: Result<array<byte>>)
    requires IsInt64(seriesId) && IsInt64(t) && IsUInt32(q)
    ensures var p := BlobFields(seriesId, t, q, value);
            && (r.Ok? <==> p.Ok?) && (p.Err? ==> r == Err(p.error))
            && (r.Ok? ==> fresh(r.value) && r.value[..] == EncodeAll(p.value))
  {
    if !value.VString? && !value.VBuffer? && !value.VView? {
      return Err(InvalidArgType);
    }
    if value.VBuffer? || value.VView? {
      return Err(Message("row encode: invalid typeof value", []));
    }
    var s := value.s;
    if !IsInt32(|s|) {
      return Err(OutOfRange);
    }
    var fields := BlobRow(seriesId, t, q, s);
    BlobRowSize(seriesId, t, q, s);
    var b := new byte[8 + 1 + 8 + SizeStringBE(s) + 4](_ => 0);
    FilledStart(b[..]);
    var offset := WriteFields(b, 0, fields, []);
    assert [] + fields == fields;
    FilledEnd(b[..], offset, fields);
    r := Ok(b);
  }

  /** `writeRow(seriesId, cl, t, q, value)`: a class-0 or class-1 packed row; any other class
      is refused. */
  method WriteRow(seriesId: int, cl: int, t: int, q: int, value: Value) returns (r: Result<array<byte>>)
    requires IsInt64(seriesId) && IsInt64(t) && IsUInt32(q)
    ensures var p := RowFields(seriesId, cl, t, q, value);
            && (r.Ok? <==> p.Ok?) && (p.Err? ==> r == Err(p.error))
            && (r.Ok? ==> fresh(r.value) && r.value[..] == EncodeAll(p.value))
  {
    if cl == SimpleClass {
      r := WriteSimpleRow(seriesId, t, q, value);
    } else if cl == BlobClass {
      r := WriteBlobRow(seriesId, t, q, value);
    } else {
      r := Err(Message("row encode: invalid class", []));
    }
  }

  // ---- class 0 as written ----

  /** The 29 bytes of a class-0 row as written, before the quality: the header, then the
      value's bytes at 17, then zeros. */
  function Staged(seriesId: int, t: int, bytes: seq<byte>): (r: seq<byte>)
    requires IsInt64(seriesId) && IsInt64(t) && |bytes| <= 12
    ensures |r| == 8 + 1 + 8 + 8 + 4 && r[17..17 + |bytes|] == bytes
    ensures r[17 + |bytes|..] == Zeros(12 - |bytes|)
  {
    Int64BEInverse(seriesId);
    Int64BEInverse(t);
    var r := Int64BE(seriesId) + [SimpleClass as byte] + Int64BE(t) + bytes + Zeros(12 - |bytes|);
    assert r[17..] == bytes + Zeros(12 - |bytes|);
    r
  }

  /** Four bytes written over `s` at `at`. */
  function Overwrite(s: seq<byte>, at: nat, u: seq<byte>): (r: seq<byte>)
    requires |u| == 4 && at + 4 <= |s|
    ensures |r| == |s| && r[at..at + 4] == u && r[at + 4..] == s[at + 4..]
  {
    var r := s[..at] + u + s[at + 4..];
    assert r[at..] == u + s[at + 4..];
    r
  }

  /** Class 0 as written: the value is written at 17, and the quality at the offset
      `valToBinaryAs` returns (`AsWrittenNext`), over whatever is there. */
  function SimpleRowAsWritten(seriesId: int, t: int, q: int, value: Value): (r: Result<seq<byte>>)
    requires IsInt64(seriesId) && IsInt64(t) && IsUInt32(q)
    ensures r.Ok? ==> |r.value| == 8 + 1 + 8 + 8 + 4
  {
    var bytes :- AsBytes(value, 12);
    var at := AsWrittenNext(value, 12, 8 + 1 + 8).value;
    UInt32BEInverse(q);
    if at + 4 > 8 + 1 + 8 + 8 + 4 then Err(OutOfRange)
    else Ok(Overwrite(Staged(seriesId, t, bytes), at, UInt32BE(q)))
  }

  /** Class 0 as written, with a Buffer of at most 8 bytes: `valToBinaryAs` returns the byte
      count, so the quality lands at that count, inside the series id and class, and the
      last 4 bytes stay zero; the corrected row has class 0 at 8 and the quality at 25.
      With 8 bytes and the quality 0x01020304, the class byte reads 1. */
  lemma BufferValueOverwritesHeader(seriesId: int, t: int, q: int, x: seq<byte>)
    requires IsInt64(seriesId) && IsInt64(t) && IsUInt32(q) && |x| <= 8
    ensures var r := SimpleRowAsWritten(seriesId, t, q, VBuffer(x));
            && r.Ok? && r.value[|x|..|x| + 4] == UInt32BE(q) && r.value[25..] == [0, 0, 0, 0]
            && (|x| == 8 && q == 0x01020304 ==> r.value[8] == 1)
    ensures var p := RowFields(seriesId, SimpleClass, t, q, VBuffer(x));
            && p.Ok? && p.value == SimpleRow(seriesId, t, q, x + Zeros(8 - |x|))
            && |EncodeAll(p.value)| == 29 && EncodeAll(p.value)[8] == 0 && EncodeAll(p.value)[25..] == UInt32BE(q)
  {
    assert x[..Min(|x|, 12)] == x;
    SimpleRowLayout(seriesId, t, q, x + Zeros(8 - |x|));
    UInt32BEInverse(q);
    var staged := Staged(seriesId, t, x);
    assert staged[25..] == staged[17 + |x|..][8 - |x|..];
    var r := Overwrite(staged, |x|, UInt32BE(q));
    assert r[25..] == r[|x| + 4..][21 - |x|..];
    ExampleQuality();
  }

  /** Class 0 as written, with a value shorter than 8 bytes that is not a Buffer: the quality
      lands right behind the value, inside the 8-byte slot, and for a value of at most 4
      bytes the last 4 bytes stay zero. The corrected row is the same value zero-padded to
      8 bytes, with the quality after the slot (`SimpleRowLayout`). */
  lemma ShortValueShiftsQuality(seriesId: int, t: int, q: int, value: Value)
    requires IsInt64(seriesId) && IsInt64(t) && IsUInt32(q) && !value.VBuffer?
    requires AsBytes(value, 12).Ok? && |AsBytes(value, 12).value| < 8
    ensures var n := |AsBytes(value, 12).value|;
            var r := SimpleRowAsWritten(seriesId, t, q, value);
            && r.Ok? && r.value[17 + n..21 + n] == UInt32BE(q)
            && (n <= 4 ==> r.value[25..] == [0, 0, 0, 0])
    ensures var bytes := AsBytes(value, 12).value;
            RowFields(seriesId, SimpleClass, t, q, value) == Ok(SimpleRow(seriesId, t, q, bytes + Zeros(8 - |bytes|)))
  {
    var bytes := AsBytes(value, 12).value;
    var n := |bytes|;
    UInt32BEInverse(q);
    var staged := Staged(seriesId, t, bytes);
    if n <= 4 {
      var r := Overwrite(staged, 17 + n, UInt32BE(q));
      assert r[25..] == r[21 + n..][4 - n..];
      assert staged[25..] == staged[17 + n..][8 - n..];
    }
  }

  /** The two-letter string "ab" with the quality 0x01020304: as written the quality sits at
      19..23 and the last 4 bytes are zero. */
  lemma TwoLetterValueShiftsQuality()
    ensures var r := SimpleRowAsWritten(0, 0, 0x01020304, VString([0x61, 0x62]));
            r.Ok? && r.value[19..23] == [1, 2, 3, 4] && r.value[25..] == [0, 0, 0, 0]
  {
    ShortValueShiftsQuality(0, 0, 0x01020304, VString([0x61, 0x62]));
    ExampleQuality();
  }
}
