/** The request frames the library sends. Every command except the three handshake commands
    and `baseGetList` is framed the same way: the command byte, the payload length as a signed
    4-byte big-endian integer, then the payload. Each builder allocates a zeroed buffer of the
    exact frame size and fills it write by write. */
module Requests {

  import opened Bytes
  import opened Utf8
  import opened Wrappers
  import opened NodeBuffer
  import opened Fields
  import opened LengthPrefixed
  import opened Encoding
  import opened Sizing
  import opened Records
  import opened Values

  // ---- command bytes ----

  const LoginGetKeysCode: byte := 0
  const LoginValidPassCode: byte := 1
  const GetProtocolVersionCode: byte := 254

  const BaseCreateCode: byte := 1
  const BaseOpenCode: byte := 2
  const BaseGetInfoCode: byte := 3
  const BaseGetListCode: byte := 4
  const BaseRemoveCode: byte := 5
  const BaseUpdateCode: byte := 6
  const BaseCloseCode: byte := 7
  const SeriesCreateCode: byte := 8
  const DataGetBoundaryCode: byte := 21
  const DataGetCPCode: byte := 22
  const DataGetFromCPCode: byte := 23
  const DataGetRangeFromCPCode: byte := 24
  const DataGetRangeDirectionCode: byte := 25
  const DataAddRowCode: byte := 26
  const DataDeleteRowsCode: byte := 28
  const DataAddRowCacheCode: byte := 29
  const DataGetValueAtTimeCode: byte := 30
  const DataAddRowsCode: byte := 32

  // ---- frames ----

  /** A framed request: the command byte, the payload length, the payload. */
  function Frame(code: byte, payload: seq<Field>): seq<byte>
    requires AllValid(payload) && IsInt32(|EncodeAll(payload)|)
  {
    [code] + Int32BE(|EncodeAll(payload)|) + EncodeAll(payload)
  }

  /** `s` is the frame of `payload` under `code`. */
  predicate IsFrame(s: seq<byte>, code: byte, payload: seq<Field>) {
    AllValid(payload) && IsInt32(|EncodeAll(payload)|) && s == Frame(code, payload)
  }

  /** How the receiving end reads a frame whose payload shape it knows: the command byte, the
      length, then the payload fields, which must end exactly where the length says. */
  function ReadFrame(s: seq<byte>, ks: seq<Kind>): Result<(byte, seq<Field>)> {
    if !InBounds(s, 0, 1) then Err(OutOfRange)
    else
      var length :- ReadInt32BE(s, 1);
      var payload :- FieldsFrom(s, 5, ks);
      if payload.1 == 5 + length == |s| then Ok((s[0], payload.0))
      else Err(Message("frame length mismatch", []))
  }

  /** The length prefix counts exactly the payload bytes, and the payload reads back field
      for field (for any payload whose sizes are computed right). */
  lemma FrameRoundTrip(code: byte, payload: seq<Field>)
    requires AllValid(payload) && AllSizable(payload) && IsInt32(|EncodeAll(payload)|)
    ensures ReadFrame(Frame(code, payload), KindsOf(payload)) == Ok((code, payload))
  {
    var s := Frame(code, payload);
    var n := |EncodeAll(payload)|;
    assert At(s, 1, Encode(I32(n))) by {
      assert s[1..5] == Int32BE(n);
    }
    Int32RoundTrip(s, 1, n);
    assert At(s, 5, EncodeAll(payload)) by {
      assert s[5..5 + n] == EncodeAll(payload);
    }
    FieldsRoundTrip(s, 5, payload);
  }

  /** A buffer holding the writes `[code, length] + payload` that is `5 + length` long is the
      frame of `payload`: the length written is the payload's. */
  lemma FrameOf(b: seq<byte>, offset: int, fs: seq<Field>, code: byte, length: int,
                 payload: seq<Field>)
    requires IsInt32(length) && AllValid(payload)
    requires Filled(b, offset, fs) && offset == |b| && fs == [U8(code), I32(length)] + payload
    requires |b| == 5 + length
    ensures IsFrame(b, code, payload)
  {
    FilledEnd(b, offset, fs);
    var head := [U8(code), I32(length)];
    EncodeAllConcat(head, payload);
    assert EncodeAll(head) == [code] + Int32BE(length) by {
      assert head[1..] == [I32(length)] && head[1..][1..] == [];
    }
  }

  // ---- the handshake and list requests: no length prefix ----

  /** `protocolVersion`: the single command byte 254. */
  method ProtocolVersionRequest() returns (b: array<byte>)
    ensures fresh(b) && b[..] == [GetProtocolVersionCode]
  {
    b := new byte[1](_ => 0);
    var _ := WriteUInt8(b, GetProtocolVersionCode, 0);
  }

  /** `baseGetList`: the single command byte 4. */
  method BaseGetListRequest() returns (b: array<byte>)
    ensures fresh(b) && b[..] == [BaseGetListCode]
  {
    b := new byte[1](_ => 0);
    var _ := WriteUInt8(b, BaseGetListCode, 0);
  }

  /** `loginGetKeys`: the command byte, then the login as a length-prefixed string. */
  method LoginGetKeysRequest(login: seq<byte>) returns (b: array<byte>)
    requires IsInt32(|login|)
    ensures fresh(b) && b[..] == [LoginGetKeysCode] + Encode(Text(login))
  {
    b := new byte[1 + SizeStringBE(login)](_ => 0);
    var _ := WriteUInt8(b, LoginGetKeysCode, 0);
    var next := WriteStringBE(b, login, 1);
    assert b[..] == b[..next];
  }

  /** `loginValidPass`: the command byte, then the password hash as a length-prefixed string. */
  method LoginValidPassRequest(hash: seq<byte>) returns (b: array<byte>)
    requires IsInt32(|hash|)
    ensures fresh(b) && b[..] == [LoginValidPassCode] + Encode(Text(hash))
  {
    b := new byte[1 + SizeStringBE(hash)](_ => 0);
    var _ := WriteUInt8(b, LoginValidPassCode, 0);
    var next := WriteStringBE(b, hash, 1);
    assert b[..] == b[..next];
  }

  // ---- framed requests written with Node's Buffer methods ----

  /** One `offset = b.writeX(value, offset)` step of a builder (`writeStringBE` for `Text`,
      `offset += b.write(data, offset)` for `Raw`), with the Node method the field's kind calls; the buffer then holds the writes
      so far followed by zeros. */
  method WriteField(b: array<byte>, offset: nat, f: Field) returns (next: nat)
    requires Valid(f) && !f.Str? && offset + Size(f) <= b.Length
    modifies b
    ensures next == offset + |Encode(f)| == offset + Size(f)
    ensures b[..next] == old(b[..offset]) + Encode(f) && b[next..] == old(b[next..])
  {
    SizeMatchesEncode(f);
    match f {
      case Bool(v) => next := WriteUInt8(b, if v then 1 else 0, offset);
      case U8(v) => next := WriteUInt8(b, v, offset);
      case I16(v) => next := WriteInt16BE(b, v, offset);
      case I32(v) => next := WriteInt32BE(b, v, offset);
      case U32(v) => next := WriteUInt32BE(b, v, offset);
      case I64(v) => next := WriteBigInt64BE(b, v, offset);
      case Text(v) => next := WriteStringBE(b, v, offset);
      case Raw(v) =>
        var count := WriteString(b, v, offset);
        next := offset + count;
    }
  }

  /** `WriteField` after the writes `fs`: the buffer then holds `fs + [f]`, then zeros. */
  method WriteNext(b: array<byte>, offset: nat, f: Field, ghost fs: seq<Field>)
    returns (next: nat)
    requires Valid(f) && !f.Str? && offset + Size(f) <= b.Length
    requires Filled(b[..], offset, fs)
    modifies b
    ensures next == offset + Size(f) && Filled(b[..], next, fs + [f])
  {
    ghost var before := b[..];
    next := WriteField(b, offset, f);
    FilledStep(before, b[..], offset, fs, f);
  }

  /** Fields that a builder writes with Node's own Buffer methods: anything but the
      Encoder's `Str`. */
  predicate NodeWritable(fs: seq<Field>) {
    forall i :: 0 <= i < |fs| ==> Valid(fs[i]) && !fs[i].Str?
  }

  /** A builder's run of `offset = b.writeX(value, offset)` lines, one `WriteField` per field
      in the order the source writes them. */
  method WriteFields(b: array<byte>, offset: nat, fields: seq<Field>, ghost fs: seq<Field>)
    returns (next: nat)
    requires NodeWritable(fields) && offset + SizeAll(fields) <= b.Length
    requires Filled(b[..], offset, fs)
    modifies b
    ensures next == offset + SizeAll(fields) && Filled(b[..], next, fs + fields)
  {
    next := offset;
    assert fs + fields[..0] == fs;
    for i := 0 to |fields|
      invariant next == offset + SizeAll(fields[..i])
      invariant Filled(b[..], next, fs + fields[..i])
    {
      assert fields[..i + 1] == fields[..i] + [fields[i]];
      assert fields == fields[..i + 1] + fields[i + 1..];
      SizeAllConcat(fields[..i], [fields[i]]);
      SizeAllConcat(fields[..i + 1], fields[i + 1..]);
      SizeAllConcat(fields[i + 1..], []);
      next := WriteNext(b, next, fields[i], fs + fields[..i]);
      assert fs + fields[..i] + [fields[i]] == fs + fields[..i + 1];
    }
    assert fields[..|fields|] == fields;
  }

  /** The first two writes of every framed builder: the command byte at 0, the payload
      length at 1. */
  method WriteHeader(b: array<byte>, code: byte, length: int) returns (offset: nat)
    requires IsInt32(length) && 0 <= length && b.Length == 5 + length
    requires Filled(b[..], 0, [])
    modifies b
    ensures offset == 5 && Filled(b[..], 5, [U8(code), I32(length)])
  {
    offset := WriteNext(b, 0, U8(code), []);
    offset := WriteNext(b, offset, I32(length), [U8(code)]);
    assert [] + [U8(code)] + [I32(length)] == [U8(code), I32(length)];
  }

  /** A framed builder: a zeroed buffer of `1 + 4 + length` bytes, the header, then the
      payload writes in order. */
  method WriteFrame(code: byte, length: int, payload: seq<Field>) returns (b: array<byte>)
    requires IsInt32(length) && NodeWritable(payload) && SizeAll(payload) == length
    ensures fresh(b) && IsFrame(b[..], code, payload)
  {
    SizeAllConcat(payload, []);
    b := new byte[1 + 4 + length](_ => 0);
    FilledStart(b[..]);
    var offset := WriteHeader(b, code, length);
    offset := WriteFields(b, offset, payload, [U8(code), I32(length)]);
    FrameOf(b[..], offset, [U8(code), I32(length)] + payload, code, length, payload);
  }

  /** `baseOpen`: the session id for the database, then its name. */
  method BaseOpenRequest(id: int, name: seq<byte>) returns (b: array<byte>)
    requires IsInt64(id) && IsInt32(8 + SizeStringBE(name))
    ensures fresh(b) && IsFrame(b[..], BaseOpenCode, [I64(id), Text(name)])
  {
    var length := 8 + SizeStringBE(name);
    SizeAllUnfold([I64(id), Text(name)]);
    b := WriteFrame(BaseOpenCode, length, [I64(id), Text(name)]);
  }

  /** `baseRemove`: the name of the database to delete. */
  method BaseRemoveRequest(name: seq<byte>) returns (b: array<byte>)
    requires IsInt32(SizeStringBE(name))
    ensures fresh(b) && IsFrame(b[..], BaseRemoveCode, [Text(name)])
  {
    SizeAllUnfold([Text(name)]);
    b := WriteFrame(BaseRemoveCode, SizeStringBE(name), [Text(name)]);
  }

  /** `baseGetInfo`: the name of the database to describe. */
  method BaseGetInfoRequest(name: seq<byte>) returns (b: array<byte>)
    requires IsInt32(SizeStringBE(name))
    ensures fresh(b) && IsFrame(b[..], BaseGetInfoCode, [Text(name)])
  {
    var length := SizeStringBE(name);
    SizeAllUnfold([Text(name)]);
    b := WriteFrame(BaseGetInfoCode, length, [Text(name)]);
  }

  /** The payload of `baseUpdate`: the current name, then the new settings. The file-system
      type is not sent, and the two flags go as whole bytes. */
  function UpdateBaseFields(name: seq<byte>, base: Base): seq<Field> {
    [Text(name), Text(base.name), Text(base.comment), Text(base.path), Text(base.dbSize),
     U8(base.looping.kind), Text(base.looping.lt), U8(if base.autoAddSeries then 1 else 0),
     U8(if base.autoSave then 1 else 0), Text(base.autoSaveDuration),
     Text(base.autoSaveInterval)]
  }

  /** The payload length `baseUpdate` computes with `sizeStringBE`. */
  function UpdateBaseLength(name: seq<byte>, base: Base): int {
    SizeStringBE(name) + SizeStringBE(base.name) + SizeStringBE(base.comment)
    + SizeStringBE(base.path) + SizeStringBE(base.dbSize) + 1 + SizeStringBE(base.looping.lt)
    + 1 + 1 + SizeStringBE(base.autoSaveDuration) + SizeStringBE(base.autoSaveInterval)
  }

  /** The length `baseUpdate` adds up by hand is the size of the fields it then writes. */
  lemma UpdateBaseLengthIsSize(name: seq<byte>, base: Base)
    ensures SizeAll(UpdateBaseFields(name, base)) == UpdateBaseLength(name, base)
  {
    SizeAllUnfold(UpdateBaseFields(name, base));
  }

  /** `baseUpdate`: renames and reconfigures the database `name`. */
  method BaseUpdateRequest(name: seq<byte>, base: Base) returns (b: array<byte>)
    requires IsUInt8(base.looping.kind) && IsInt32(UpdateBaseLength(name, base))
    ensures fresh(b) && IsFrame(b[..], BaseUpdateCode, UpdateBaseFields(name, base))
  {
    var length := UpdateBaseLength(name, base);
    UpdateBaseLengthIsSize(name, base);
    b := WriteFrame(BaseUpdateCode, length, UpdateBaseFields(name, base));
  }

  /** `baseClose`: the session id of the database. */
  method BaseCloseRequest(baseId: int) returns (b: array<byte>)
    requires IsInt64(baseId)
    ensures fresh(b) && IsFrame(b[..], BaseCloseCode, [I64(baseId)])
  {
    SizeAllUnfold([I64(baseId)]);
    b := WriteFrame(BaseCloseCode, 8, [I64(baseId)]);
  }

  /** `dataGetBoundary`: the database and series ids. The source passes explicit offsets
      1, 5 and 13 rather than the returned ones; they are the same. */
  method DataGetBoundaryRequest(baseId: int, seriesId: int) returns (b: array<byte>)
    requires IsInt64(baseId) && IsInt64(seriesId)
    ensures fresh(b) && IsFrame(b[..], DataGetBoundaryCode, [I64(baseId), I64(seriesId)])
  {
    b := new byte[1 + 4 + 8 + 8](_ => 0);
    FilledStart(b[..]);
    var next := WriteNext(b, 0, U8(DataGetBoundaryCode), []);
    next := WriteNext(b, 1, I32(8 + 8), [U8(DataGetBoundaryCode)]);
    next := WriteNext(b, 1 + 4, I64(baseId), [U8(DataGetBoundaryCode)] + [I32(8 + 8)]);
    next := WriteNext(b, 1 + 4 + 8, I64(seriesId),
                   [U8(DataGetBoundaryCode)] + [I32(8 + 8)] + [I64(baseId)]);
    assert [U8(DataGetBoundaryCode)] + [I32(8 + 8)] + [I64(baseId)] + [I64(seriesId)]
        == [U8(DataGetBoundaryCode), I32(8 + 8)] + [I64(baseId), I64(seriesId)];
    FrameOf(b[..], next, [U8(DataGetBoundaryCode), I32(8 + 8)] + [I64(baseId), I64(seriesId)],
            DataGetBoundaryCode, 8 + 8, [I64(baseId), I64(seriesId)]);
  }

  /** `dataAddRowCache`: the database id, then the rows as raw text, unprefixed. */
  method DataAddRowCacheRequest(baseId: int, data: seq<byte>) returns (b: array<byte>)
    requires IsInt64(baseId) && IsInt32(8 + |data|)
    ensures fresh(b) && IsFrame(b[..], DataAddRowCacheCode, [I64(baseId), Raw(data)])
  {
    SizeAllUnfold([I64(baseId), Raw(data)]);
    b := WriteFrame(DataAddRowCacheCode, 8 + |data|, [I64(baseId), Raw(data)]);
  }

  /** `dataAddRows`: the same layout as `dataAddRowCache` under its own command byte. */
  method DataAddRowsRequest(baseId: int, data: seq<byte>) returns (b: array<byte>)
    requires IsInt64(baseId) && IsInt32(8 + |data|)
    ensures fresh(b) && IsFrame(b[..], DataAddRowsCode, [I64(baseId), Raw(data)])
  {
    SizeAllUnfold([I64(baseId), Raw(data)]);
    b := WriteFrame(DataAddRowsCode, 8 + |data|, [I64(baseId), Raw(data)]);
  }

  /** `dataGetValueAtTime`: database id, series id and time. */
  method DataGetValueAtTimeRequest(baseId: int, seriesId: int, t: int) returns (b: array<byte>)
    requires IsInt64(baseId) && IsInt64(seriesId) && IsInt64(t)
    ensures fresh(b) && IsFrame(b[..], DataGetValueAtTimeCode, [I64(baseId), I64(seriesId), I64(t)])
  {
    SizeAllUnfold([I64(baseId), I64(seriesId), I64(t)]);
    b := WriteFrame(DataGetValueAtTimeCode, 8 + 8 + 8, [I64(baseId), I64(seriesId), I64(t)]);
  }

  /** `dataGetRangeDirection`: database and series ids, direction byte, row limit, time
      range and points-per-interval. The class is not sent; it only steers the reply. */
  method DataGetRangeDirectionRequest(baseId: int, seriesId: int, direct: int, limit: int,
                                      min: int, max: int, dpi: int) returns (b: array<byte>)
    requires IsInt64(baseId) && IsInt64(seriesId) && IsUInt8(direct) && IsInt64(limit)
    requires IsInt64(min) && IsInt64(max) && IsInt16(dpi)
    ensures fresh(b) && IsFrame(b[..], DataGetRangeDirectionCode,
              [I64(baseId), I64(seriesId), U8(direct), I64(limit), I64(min), I64(max), I16(dpi)])
  {
    var length := 8 + 8 + 1 + 8 + 8 + 8 + 2;
    SizeAllUnfold([I64(baseId), I64(seriesId), U8(direct), I64(limit), I64(min), I64(max), I16(dpi)]);
    b := WriteFrame(DataGetRangeDirectionCode, length,
                    [I64(baseId), I64(seriesId), U8(direct), I64(limit), I64(min), I64(max), I16(dpi)]);
  }

  /** `dataDeleteRows`: database and series ids, then the time range. */
  method DataDeleteRowsRequest(baseId: int, seriesId: int, timeStart: int, timeEnd: int)
    returns (b: array<byte>)
    requires IsInt64(baseId) && IsInt64(seriesId) && IsInt64(timeStart) && IsInt64(timeEnd)
    ensures fresh(b) && IsFrame(b[..], DataDeleteRowsCode,
              [I64(baseId), I64(seriesId), I64(timeStart), I64(timeEnd)])
  {
    SizeAllUnfold([I64(baseId), I64(seriesId), I64(timeStart), I64(timeEnd)]);
    b := WriteFrame(DataDeleteRowsCode, 8 + 8 + 8 + 8,
                    [I64(baseId), I64(seriesId), I64(timeStart), I64(timeEnd)]);
  }

  /** `dataGetCP`: database id, series id and time. */
  method DataGetCPRequest(baseId: int, seriesId: int, t: int) returns (b: array<byte>)
    requires IsInt64(baseId) && IsInt64(seriesId) && IsInt64(t)
    ensures fresh(b) && IsFrame(b[..], DataGetCPCode, [I64(baseId), I64(seriesId), I64(t)])
  {
    SizeAllUnfold([I64(baseId), I64(seriesId), I64(t)]);
    b := WriteFrame(DataGetCPCode, 8 + 8 + 8, [I64(baseId), I64(seriesId), I64(t)]);
  }

  /** `dataGetFromCP`: database id, the checkpoint, direction byte and row limit. */
  method DataGetFromCPRequest(baseId: int, cp: seq<byte>, direct: int, limit: int)
    returns (b: array<byte>)
    requires IsInt64(baseId) && IsUInt8(direct) && IsInt64(limit)
    requires IsInt32(8 + SizeStringBE(cp) + 1 + 8)
    ensures fresh(b) && IsFrame(b[..], DataGetFromCPCode,
              [I64(baseId), Text(cp), U8(direct), I64(limit)])
  {
    var length := 8 + SizeStringBE(cp) + 1 + 8;
    SizeAllUnfold([I64(baseId), Text(cp), U8(direct), I64(limit)]);
    b := WriteFrame(DataGetFromCPCode, length, [I64(baseId), Text(cp), U8(direct), I64(limit)]);
  }

  /** `dataGetRangeFromCP`: database id, the checkpoint, direction byte, row limit, time
      range and points-per-interval. */
  method DataGetRangeFromCPRequest(baseId: int, cp: seq<byte>, direct: int, limit: int,
                                   min: int, max: int, dpi: int) returns (b: array<byte>)
    requires IsInt64(baseId) && IsUInt8(direct) && IsInt64(limit)
    requires IsInt64(min) && IsInt64(max) && IsInt16(dpi)
    requires IsInt32(8 + SizeStringBE(cp) + 1 + 8 + 8 + 8 + 2)
    ensures fresh(b) && IsFrame(b[..], DataGetRangeFromCPCode,
              [I64(baseId), Text(cp), U8(direct), I64(limit), I64(min), I64(max), I16(dpi)])
  {
    var length := 8 + SizeStringBE(cp) + 1 + 8 + 8 + 8 + 2;
    SizeAllUnfold([I64(baseId), Text(cp), U8(direct), I64(limit), I64(min), I64(max), I16(dpi)]);
    b := WriteFrame(DataGetRangeFromCPCode, length,
                    [I64(baseId), Text(cp), U8(direct), I64(limit), I64(min), I64(max), I16(dpi)]);
  }

  // ---- framed requests written with an Encoder, sized by a Sizer ----

  /** One `sizer.x(value)` call, with the Sizer method the field's kind calls. */
  method SizeField(sizer: Sizer, f: Field)
    requires !f.Text?
    modifies sizer
    ensures sizer.byteOffset == old(sizer.byteOffset) + Size(f)
  {
    match f {
      case Bool(v) => sizer.Boolean(v);
      case U8(v) => sizer.Uint8(v);
      case I16(v) => sizer.Int16(v);
      case I32(v) => sizer.Int32(v);
      case U32(v) => sizer.Uint32(v);
      case I64(v) => sizer.Int64(v);
      case Str(v) => sizer.String(v);
      case Raw(v) => sizer.Write(v);
    }
  }

  /** A builder's run of `sizer.x(value)` calls. */
  method SizeFields(sizer: Sizer, fields: seq<Field>)
    requires forall i :: 0 <= i < |fields| ==> !fields[i].Text?
    modifies sizer
    ensures sizer.byteOffset == old(sizer.byteOffset) + SizeAll(fields)
  {
    for i := 0 to |fields|
      invariant sizer.byteOffset == old(sizer.byteOffset) + SizeAll(fields[..i])
    {
      assert fields[..i + 1] == fields[..i] + [fields[i]];
      SizeAllConcat(fields[..i], [fields[i]]);
      SizeField(sizer, fields[i]);
    }
    assert fields[..|fields|] == fields;
  }

  /** Fields that a builder writes with an Encoder and sizes with a Sizer correctly: anything
      but `Text`, and `Str` only with ASCII text. */
  predicate EncoderWritable(fs: seq<Field>) {
    forall i :: 0 <= i < |fs| ==> Valid(fs[i]) && Sizable(fs[i]) && !fs[i].Text?
  }

  /** One `enc.x(value)` call, with the Encoder method the field's kind calls. */
  method EncodeField(enc: Encoder, f: Field)
    requires enc.Valid() && Valid(f) && Sizable(f) && !f.Text?
    requires enc.byteOffset + Size(f) <= enc.buffer.Length
    modifies enc, enc.buffer
    ensures enc.Valid() && enc.byteOffset == old(enc.byteOffset) + |Encode(f)|
    ensures enc.byteOffset == old(enc.byteOffset) + Size(f)
    ensures enc.buffer[..enc.byteOffset] == old(enc.buffer[..enc.byteOffset]) + Encode(f)
    ensures enc.buffer[enc.byteOffset..] == old(enc.buffer[..])[enc.byteOffset..]
  {
    SizeMatchesEncode(f);
    match f {
      case Bool(v) => enc.Boolean(v);
      case U8(v) => enc.Uint8(v);
      case I16(v) => enc.Int16(v);
      case I32(v) => enc.Int32(v);
      case U32(v) => enc.Uint32(v);
      case I64(v) => enc.Int64(v);
      case Str(v) => enc.String(v);
      case Raw(v) => enc.Write(v);
    }
  }

  /** `EncodeField` after the writes `fs`. */
  method EncodeNext(enc: Encoder, f: Field, ghost fs: seq<Field>)
    requires enc.Valid() && Valid(f) && Sizable(f) && !f.Text?
    requires enc.byteOffset + Size(f) <= enc.buffer.Length
    requires Filled(enc.buffer[..], enc.byteOffset, fs)
    modifies enc, enc.buffer
    ensures enc.Valid() && enc.byteOffset == old(enc.byteOffset) + Size(f)
    ensures Filled(enc.buffer[..], enc.byteOffset, fs + [f])
  {
    ghost var before, at := enc.buffer[..], enc.byteOffset;
    EncodeField(enc, f);
    FilledStep(before, enc.buffer[..], at, fs, f);
  }

  /** A builder's run of `enc.x(value)` calls. */
  method EncodeFields(enc: Encoder, fields: seq<Field>, ghost fs: seq<Field>)
    requires enc.Valid() && EncoderWritable(fields)
    requires enc.byteOffset + SizeAll(fields) <= enc.buffer.Length
    requires Filled(enc.buffer[..], enc.byteOffset, fs)
    modifies enc, enc.buffer
    ensures enc.Valid() && enc.byteOffset == old(enc.byteOffset) + SizeAll(fields)
    ensures Filled(enc.buffer[..], enc.byteOffset, fs + fields)
  {
    assert fs + fields[..0] == fs;
    for i := 0 to |fields|
      invariant enc.Valid() && enc.byteOffset == old(enc.byteOffset) + SizeAll(fields[..i])
      invariant Filled(enc.buffer[..], enc.byteOffset, fs + fields[..i])
    {
      assert fields[..i + 1] == fields[..i] + [fields[i]];
      assert fields == fields[..i + 1] + fields[i + 1..];
      SizeAllConcat(fields[..i], [fields[i]]);
      SizeAllConcat(fields[..i + 1], fields[i + 1..]);
      SizeAllConcat(fields[i + 1..], []);
      EncodeNext(enc, fields[i], fs + fields[..i]);
      assert fs + fields[..i] + [fields[i]] == fs + fields[..i + 1];
    }
    assert fields[..|fields|] == fields;
  }

  /** A Sizer-and-Encoder builder: the Sizer counts the payload, then `EncodeSized` writes. */
  method EncodeFrame(code: byte, payload: seq<Field>) returns (b: array<byte>)
    requires EncoderWritable(payload) && IsInt32(SizeAll(payload))
    ensures fresh(b) && IsFrame(b[..], code, payload)
  {
    var sizer := new Sizer();
    SizeFields(sizer, payload);
    b := EncodeSized(code, sizer.byteOffset, payload);
  }

  /** The Encoder half of a builder: a zeroed buffer of the counted size plus 5, and an
      Encoder that writes the command byte, the size, then the payload in order. */
  method EncodeSized(code: byte, size: int, payload: seq<Field>) returns (b: array<byte>)
    requires EncoderWritable(payload) && IsInt32(size) && size == SizeAll(payload)
    ensures fresh(b) && IsFrame(b[..], code, payload)
  {
    SizeAllConcat(payload, []);
    b := new byte[size + 5](_ => 0);
    FilledStart(b[..]);
    var enc := new Encoder(b);
    EncodeNext(enc, U8(code), []);
    EncodeNext(enc, I32(size), [U8(code)]);
    assert [] + [U8(code)] + [I32(size)] == [U8(code), I32(size)];
    EncodeFields(enc, payload, [U8(code), I32(size)]);
    FrameOf(b[..], enc.byteOffset, [U8(code), I32(size)] + payload, code, size, payload);
  }

  /** The payload of `baseCreate`, in the Sizer's and the Encoder's call order. */
  function CreateBaseFields(base: Base): seq<Field> {
    [Str(base.name), Str(base.comment), Str(base.path), Str(base.fsType), Str(base.dbSize),
     U8(base.looping.kind), Str(base.looping.lt), Bool(base.autoAddSeries),
     Bool(base.autoSave), Str(base.autoSaveDuration), Str(base.autoSaveInterval)]
  }

  /** `baseCreate`: the new database's descriptor. */
  method BaseCreateRequest(base: Base) returns (b: array<byte>)
    requires EncoderWritable(CreateBaseFields(base)) && IsInt32(SizeAll(CreateBaseFields(base)))
    ensures fresh(b) && IsFrame(b[..], BaseCreateCode, CreateBaseFields(base))
  {
    b := EncodeFrame(BaseCreateCode, CreateBaseFields(base));
  }

  /** The payload of `seriesCreate`, in the Sizer's and the Encoder's call order. */
  function CreateSeriesFields(baseName: seq<byte>, series: Series): seq<Field> {
    [Str(baseName), I64(series.id), Str(series.name), I64(series.kind), U8(series.viewTimeMod),
     Str(series.comment), U8(series.looping.kind), Str(series.looping.lt)]
  }

  /** `seriesCreate`: the database name, then the new series' descriptor. */
  method SeriesCreateRequest(baseName: seq<byte>, series: Series) returns (b: array<byte>)
    requires EncoderWritable(CreateSeriesFields(baseName, series))
    requires IsInt32(SizeAll(CreateSeriesFields(baseName, series)))
    ensures fresh(b) && IsFrame(b[..], SeriesCreateCode, CreateSeriesFields(baseName, series))
  {
    b := EncodeFrame(SeriesCreateCode, CreateSeriesFields(baseName, series));
  }

  /** The value part of `dataAddRow`'s payload. For class 0 it is an 8-byte buffer into
      which `valToBinaryAs` wrote the value, zero-padded; for any other class it is
      `valToBinary`'s bytes behind their byte length. */
  function AddRowValueFields(cl: int, val: Value): Result<seq<Field>> {
    if cl == SimpleClass then
      var bytes :- AsBytes(val, 8);
      Ok([Raw(bytes + Zeros(8 - |bytes|))])
    else
      var bb :- ValToBinary(val);
      if IsInt32(|bb|) then Ok([I32(|bb|), Raw(bb)]) else Err(OutOfRange)
  }

  /** The payload of `dataAddRow`: ids, class byte, time, value, quality. */
  function AddRowFields(baseId: int, seriesId: int, cl: int, t: int, q: int, val: Value)
    : Result<seq<Field>>
  {
    var value :- AddRowValueFields(cl, val);
    Ok([I64(baseId), I64(seriesId), U8(cl), I64(t)] + value + [U32(q)])
  }

  /** The value half of `dataAddRow`: `valToBinaryAs` into a fresh 8-byte buffer for class
      0, `valToBinary` otherwise. */
  method AddRowValue(cl: int, val: Value) returns (r: Result<seq<Field>>)
    ensures r == AddRowValueFields(cl, val)
  {
    if cl == SimpleClass {
      var bb := new byte[8](_ => 0);
      var written := ValToBinaryAs(val, bb);
      if written.Err? {
        return Err(written.error);
      }
      ghost var bytes := AsBytes(val, 8).value;
      assert bb[..|bytes|] == bytes;
      assert bb[|bytes|..] == Zeros(8 - |bytes|);
      assert bb[..] == bb[..|bytes|] + bb[|bytes|..];
      r := Ok([Raw(bb[..])]);
    } else {
      var bb :- ValToBinary(val);
      if !IsInt32(|bb|) {
        return Err(OutOfRange);
      }
      r := Ok([I32(|bb|), Raw(bb)]);
    }
  }

  /** `dataAddRow`: appends one row. It fails when the value cannot be converted, or when the
      size does not fit the signed 4-byte length. */
  method DataAddRowRequest(baseId: int, seriesId: int, cl: int, t: int, q: int, val: Value)
    returns (r: Result<array<byte>>)
    requires IsInt64(baseId) && IsInt64(seriesId) && IsUInt8(cl) && IsInt64(t) && IsUInt32(q)
    ensures var p := AddRowFields(baseId, seriesId, cl, t, q, val);
            && (r.Ok? <==> p.Ok? && IsInt32(SizeAll(p.value)))
            && (p.Err? ==> r == Err(p.error))
            && (r.Ok? ==> fresh(r.value) && IsFrame(r.value[..], DataAddRowCode, p.value))
  {
    var payload :- AddRowPayload(baseId, seriesId, cl, t, q, val);
    var sizer := new Sizer();
    SizeFields(sizer, payload);
    if !IsInt32(sizer.byteOffset) {
      return Err(OutOfRange);
    }
    var b := EncodeSized(DataAddRowCode, sizer.byteOffset, payload);
    r := Ok(b);
  }

  /** The payload of `dataAddRow`, in the order its Sizer and Encoder take the fields. */
  method AddRowPayload(baseId: int, seriesId: int, cl: int, t: int, q: int, val: Value)
    returns (r: Result<seq<Field>>)
    requires IsInt64(baseId) && IsInt64(seriesId) && IsUInt8(cl) && IsInt64(t) && IsUInt32(q)
    ensures r == AddRowFields(baseId, seriesId, cl, t, q, val)
    ensures r.Ok? ==> EncoderWritable(r.value)
  {
    var value :- AddRowValue(cl, val);
    var payload := [I64(baseId), I64(seriesId), U8(cl), I64(t)] + value + [U32(q)];
    assert EncoderWritable(payload) by {
      AddRowValueWritable(cl, val);
    }
    r := Ok(payload);
  }

  lemma AddRowValueWritable(cl: int, val: Value)
    requires AddRowValueFields(cl, val).Ok?
    ensures EncoderWritable(AddRowValueFields(cl, val).value)
  {
    if cl == SimpleClass {
      var bytes := AsBytes(val, 8).value;
      RawWritable(bytes + Zeros(8 - |bytes|));
    } else {
      var bb := ValToBinary(val).value;
      LengthThenRawWritable(bb);
    }
  }

  lemma RawWritable(x: seq<byte>)
    ensures EncoderWritable([Raw(x)])
  {
  }

  lemma LengthThenRawWritable(x: seq<byte>)
    requires IsInt32(|x|)
    ensures EncoderWritable([I32(|x|), Raw(x)])
  {
  }
}
