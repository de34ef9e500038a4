/** The replies to the commands: a status byte, then either a length-prefixed error message
    or the command's result. Each function reads a whole reply from its first byte, as the
    command's `Decoder` does, and returns what the command returns or throws. */
module Replies {

  import opened Bytes
  import opened Wrappers
  import opened NodeBuffer
  import opened Fields
  import opened Records

  /** Where a command reads the 4-byte length after the status byte: always, or only when
      the status reports a failure. */
  datatype Layout = Always | OnFailure

  /** Where the result starts in a successful reply. */
  function HeaderSize(layout: Layout): int {
    if layout == Always then 5 else 1
  }

  /** The status check every command runs: a non-zero status byte throws
      `"<command> error: "` followed by the server's message; a zero one gives the offset of
      the result. A reply too short for what is read throws Node's range error. */
  function StatusAt(s: seq<byte>, layout: Layout, command: string): (r: Result<int>)
    ensures r.Ok? <==> |s| >= HeaderSize(layout) && s[0] == 0
    ensures r.Ok? ==> r.value == HeaderSize(layout)
    ensures r.Err? && r.error.Message? ==>
              |s| >= 5 && s[0] != 0 && r.error.text == command + " error: "
  {
    var c :- ReadUInt8(s, 0);
    if layout == Always then
      var length :- ReadInt32BE(s, 1);
      if c != 0 then FailureAt(s, command) else Ok(5)
    else if c != 0 then
      var length :- ReadInt32BE(s, 1);
      FailureAt(s, command)
    else Ok(1)
  }

  /** The error a failure reply carries: the message that follows the status and length. */
  function FailureAt(s: seq<byte>, command: string): (r: Result<int>)
    ensures r.Err?
  {
    var message :- StringAt(s, 5);
    Err(Message(command + " error: ", message.0))
  }

  // ---- what the server sends ----

  /** A successful reply: status 0, the length (when the command reads it) and the result. */
  function SuccessReply(layout: Layout, length: int, result: seq<Field>): seq<Field> {
    if layout == Always then [U8(0), I32(length)] + result else [U8(0)] + result
  }

  /** A failure reply: a non-zero status, the length and the message. */
  function FailureReply(status: int, length: int, message: seq<byte>): seq<Field> {
    [U8(status), I32(length), Text(message)]
  }

  /** A successful reply passes the status check, and the result starts right after the
      header the command reads. */
  lemma SuccessRoundTrip(s: seq<byte>, layout: Layout, command: string, length: int,
                         result: seq<Field>)
    requires IsInt32(length) && AllValid(result)
    requires s == EncodeAll(SuccessReply(layout, length, result))
    ensures StatusAt(s, layout, command) == Ok(HeaderSize(layout))
    ensures At(s, HeaderSize(layout), EncodeAll(result))
  {
    SuccessBytes(layout, length, result);
    HeaderThen(s, layout, command, length, EncodeAll(result));
  }

  /** The bytes of a successful reply: its header, then its result. */
  lemma SuccessBytes(layout: Layout, length: int, result: seq<Field>)
    requires IsInt32(length) && AllValid(result)
    ensures AllValid(SuccessReply(layout, length, result))
    ensures EncodeAll(SuccessReply(layout, length, result)) == Header(layout, length) + EncodeAll(result)
  {
    var r := EncodeAll(result);
    if layout == Always {
      assert SuccessReply(layout, length, result) == [U8(0)] + ([I32(length)] + result);
      EncodeAllCons(I32(length), result);
      EncodeAllCons(U8(0), [I32(length)] + result);
      assert [0] + (Int32BE(length) + r) == ([0] + Int32BE(length)) + r;
    } else {
      EncodeAllCons(U8(0), result);
    }
  }

  /** The bytes of a successful reply's header: status 0, then the 4-byte length when the
      command reads it. */
  function Header(layout: Layout, length: int): (r: seq<byte>)
    requires IsInt32(length)
    ensures |r| == HeaderSize(layout)
  {
    if layout == Always then [0] + Int32BE(length) else [0]
  }

  /** A header followed by a body: the status check passes, and the body starts right after
      the header. */
  lemma HeaderThen(s: seq<byte>, layout: Layout, command: string, length: int, body: seq<byte>)
    requires IsInt32(length) && s == Header(layout, length) + body
    ensures StatusAt(s, layout, command) == Ok(HeaderSize(layout))
    ensures At(s, HeaderSize(layout), body)
  {
    assert s[0] == 0;
    assert s[HeaderSize(layout)..] == body;
  }

  /** Every command, whichever layout it reads, throws the message of a failure reply. */
  lemma FailureRoundTrip(s: seq<byte>, layout: Layout, command: string, status: int,
                         length: int, message: seq<byte>)
    requires 0 < status < 256 && IsInt32(length) && IsInt32(|message|)
    requires At(s, 0, EncodeAll(FailureReply(status, length, message)))
    ensures StatusAt(s, layout, command) == Err(Message(command + " error: ", message))
  {
    var m := Encode(Text(message));
    FailureBytes(status, length, message);
    AtSplit(s, 0, Encode(U8(status)), Encode(I32(length)) + m);
    UInt8RoundTrip(s, 0, status);
    AtSplit(s, 1, Encode(I32(length)), m);
    Int32RoundTrip(s, 1, length);
    TextRoundTrip(s, 5, message);
  }

  /** The bytes of a failure reply: the status, the length, then the message. */
  lemma FailureBytes(status: int, length: int, message: seq<byte>)
    requires 0 < status < 256 && IsInt32(length) && IsInt32(|message|)
    ensures AllValid(FailureReply(status, length, message))
    ensures EncodeAll(FailureReply(status, length, message))
         == Encode(U8(status)) + (Encode(I32(length)) + Encode(Text(message)))
  {
    assert FailureReply(status, length, message)
        == [U8(status)] + ([I32(length)] + [Text(message)]);
    EncodeAllOne(Text(message));
    EncodeAllCons(I32(length), [Text(message)]);
    EncodeAllCons(U8(status), [I32(length)] + [Text(message)]);
  }

  // ---- replies holding one value ----

  /** `protocolVersion`: the version byte. */
  function ProtocolVersionReply(s: seq<byte>): (r: Result<int>)
    ensures r.Ok? <==> |s| >= 6 && s[0] == 0
    ensures r.Ok? ==> r.value == s[5] as int
  {
    var at :- StatusAt(s, Always, "protocol version");
    ReadUInt8(s, at)
  }

  /** `loginValidPass`: the session string. */
  function LoginValidPassReply(s: seq<byte>): Result<seq<byte>> {
    var at :- StatusAt(s, Always, "login valid pass");
    var text :- StringAt(s, at);
    Ok(text.0)
  }

  /** `dataAddRowCache`: an int64 from the server. */
  function DataAddRowCacheReply(s: seq<byte>): Result<int> {
    var at :- StatusAt(s, Always, "data add row cache");
    ReadBigInt64BE(s, at)
  }

  /** `dataDeleteRows`: an int64 from the server. */
  function DataDeleteRowsReply(s: seq<byte>): Result<int> {
    var at :- StatusAt(s, Always, "data delete rows");
    ReadBigInt64BE(s, at)
  }

  /** `dataGetCP`: a checkpoint string. */
  function DataGetCPReply(s: seq<byte>): Result<seq<byte>> {
    var at :- StatusAt(s, Always, "data get CP");
    var text :- StringAt(s, at);
    Ok(text.0)
  }

  /** The commands that return nothing read the length only on failure: `baseOpen`,
      `baseRemove`, `baseCreate`, `baseUpdate`, `seriesCreate`, `dataAddRow`, `dataAddRows`
      and `baseClose`, each under its own `command` name. A zero status byte alone is a
      success, whatever follows it. */
  function AckReply(s: seq<byte>, command: string): (r: Result<()>)
    ensures r.Ok? <==> |s| >= 1 && s[0] == 0
    ensures r.Err? && r.error.Message? ==> r.error.text == command + " error: "
  {
    var _ :- StatusAt(s, OnFailure, command);
    Ok(())
  }

  /** A successful reply holding one field: the status check passes and the field follows
      the 5-byte header. */
  lemma OneValueRead(s: seq<byte>, command: string, length: int, f: Field)
    requires IsInt32(length) && Valid(f) && Sizable(f)
    requires s == EncodeAll(SuccessReply(Always, length, [f]))
    ensures StatusAt(s, Always, command) == Ok(5)
    ensures FieldAt(s, 5, KindOf(f)) == Ok((f, 5 + |Encode(f)|))
  {
    EncodeAllOne(f);
    SuccessRoundTrip(s, Always, command, length, [f]);
    FieldRoundTrip(s, 5, f);
  }

  /** `protocolVersion` returns the byte the server sent. */
  lemma ProtocolVersionRoundTrip(s: seq<byte>, length: int, version: int)
    requires IsInt32(length) && IsUInt8(version)
    requires s == EncodeAll(SuccessReply(Always, length, [U8(version)]))
    ensures ProtocolVersionReply(s) == Ok(version)
  {
    OneValueRead(s, "protocol version", length, U8(version));
  }

  /** `loginValidPass` and `dataGetCP` return the text the server sent. */
  lemma TextReplyRoundTrip(s: seq<byte>, length: int, text: seq<byte>)
    requires IsInt32(length) && IsInt32(|text|)
    requires s == EncodeAll(SuccessReply(Always, length, [Text(text)]))
    ensures LoginValidPassReply(s) == Ok(text) && DataGetCPReply(s) == Ok(text)
  {
    OneValueRead(s, "login valid pass", length, Text(text));
    OneValueRead(s, "data get CP", length, Text(text));
  }

  /** `dataAddRowCache` and `dataDeleteRows` return the 64-bit integer the server sent. */
  lemma CountReplyRoundTrip(s: seq<byte>, length: int, count: int)
    requires IsInt32(length) && IsInt64(count)
    requires s == EncodeAll(SuccessReply(Always, length, [I64(count)]))
    ensures DataAddRowCacheReply(s) == Ok(count) && DataDeleteRowsReply(s) == Ok(count)
  {
    OneValueRead(s, "data add row cache", length, I64(count));
    OneValueRead(s, "data delete rows", length, I64(count));
  }

  // ---- database descriptors ----

  /** `decodeBase` on a fresh `Base`: the descriptor's fields in the order the server sends
      them. The data size and the retention lifetime are not sent and keep their defaults. */
  function BaseAt(s: seq<byte>, offset: int): Result<(Base, int)> {
    var head :- BaseHeadAt(s, offset, DefaultBase);
    BaseTailAt(s, head.1, head.0)
  }

  /** The first six assignments of `decodeBase`: name, path, comment, status, retention kind
      and retention literal. */
  function BaseHeadAt(s: seq<byte>, offset: int, b: Base): Result<(Base, int)> {
    var name :- StringAt(s, offset);
    var path :- StringAt(s, name.1);
    var comment :- StringAt(s, path.1);
    var status :- Int64Next(s, comment.1);
    var kind :- UInt8Next(s, status.1);
    var lt :- StringAt(s, kind.1);
    Ok((b.(name := name.0, path := path.0, comment := comment.0, status := status.0,
           looping := b.looping.(kind := kind.0, lt := lt.0)),
        lt.1))
  }

  /** The last six assignments of `decodeBase`: database size, file system type, the two
      flags, and the autosave duration and interval. */
  function BaseTailAt(s: seq<byte>, offset: int, b: Base): Result<(Base, int)> {
    var dbSize :- StringAt(s, offset);
    var fsType :- StringAt(s, dbSize.1);
    var autoAddSeries :- BoolNext(s, fsType.1);
    var autoSave :- BoolNext(s, autoAddSeries.1);
    var duration :- StringAt(s, autoSave.1);
    var interval :- StringAt(s, duration.1);
    Ok((b.(dbSize := dbSize.0, fsType := fsType.0, autoAddSeries := autoAddSeries.0,
           autoSave := autoSave.0, autoSaveDuration := duration.0, autoSaveInterval := interval.0),
        interval.1))
  }

  /** The descriptors the server can send: strings of int32 length, a 64-bit status and a
      byte-sized retention kind. */
  predicate Sendable(b: Base) {
    && IsInt32(|b.name|) && IsInt32(|b.path|) && IsInt32(|b.comment|) && IsInt64(b.status)
    && IsUInt8(b.looping.kind) && IsInt32(|b.looping.lt|) && IsInt32(|b.dbSize|)
    && IsInt32(|b.fsType|) && IsInt32(|b.autoSaveDuration|) && IsInt32(|b.autoSaveInterval|)
  }

  /** How the server sends the first six fields of a descriptor. */
  function BaseHeadFields(b: Base): seq<Field> {
    [Text(b.name), Text(b.path), Text(b.comment), I64(b.status), U8(b.looping.kind),
     Text(b.looping.lt)]
  }

  /** How the server sends the last six fields of a descriptor. */
  function BaseTailFields(b: Base): seq<Field> {
    [Text(b.dbSize), Text(b.fsType), Bool(b.autoAddSeries), Bool(b.autoSave),
     Text(b.autoSaveDuration), Text(b.autoSaveInterval)]
  }

  /** What reading a descriptor back gives: the sent one, with the fields that are not sent
      at their defaults. */
  function Received(b: Base): Base {
    b.(dataSize := 0, looping := b.looping.(lifeTime := 0))
  }

  /** Two texts in a row, read back from field `i` of a run. */
  lemma TwoTexts(s: seq<byte>, offset: int, fs: seq<Field>, i: nat, end: int)
    returns (o1: int, o2: int)
    requires i + 1 < |fs| && fs[i].Text? && fs[i + 1].Text?
    requires FieldsFrom(s, offset, KindsOf(fs[i..])) == Ok((fs[i..], end))
    ensures StringAt(s, offset) == Ok((fs[i].text, o1)) && StringAt(s, o1) == Ok((fs[i + 1].text, o2))
    ensures FieldsFrom(s, o2, KindsOf(fs[i + 2..])) == Ok((fs[i + 2..], end))
  {
    o1 := TakeText(s, offset, fs, i, end);
    o2 := TakeText(s, o1, fs, i + 1, end);
  }

  /** The retention fields of a descriptor: a 64-bit integer, a byte and a text ending the
      run. */
  lemma RetentionReads(s: seq<byte>, offset: int, fs: seq<Field>, end: int)
    requires |fs| == 6 && fs[3].I64? && fs[4].U8? && fs[5].Text?
    requires FieldsFrom(s, offset, KindsOf(fs[3..])) == Ok((fs[3..], end))
    ensures ReadBigInt64BE(s, offset) == Ok(fs[3].i64) && ReadUInt8(s, offset + 8) == Ok(fs[4].u8)
    ensures StringAt(s, offset + 9) == Ok((fs[5].text, end))
  {
    TakeI64(s, offset, fs, 3, end);
    TakeU8(s, offset + 8, fs, 4, end);
    var o6 := TakeText(s, offset + 9, fs, 5, end);
    TakeEnd(s, o6, fs, end);
  }

  /** Reading back a run of fields laid out as the first half of a descriptor: three texts,
      a 64-bit integer, a byte and a text. */
  lemma HeadReads(s: seq<byte>, offset: int, fs: seq<Field>, end: int)
    returns (o1: int, o2: int, o3: int)
    requires |fs| == 6 && fs[0].Text? && fs[1].Text? && fs[2].Text? && fs[3].I64? && fs[4].U8?
    requires fs[5].Text? && FieldsFrom(s, offset, KindsOf(fs)) == Ok((fs, end))
    ensures StringAt(s, offset) == Ok((fs[0].text, o1)) && StringAt(s, o1) == Ok((fs[1].text, o2))
    ensures StringAt(s, o2) == Ok((fs[2].text, o3)) && ReadBigInt64BE(s, o3) == Ok(fs[3].i64)
    ensures ReadUInt8(s, o3 + 8) == Ok(fs[4].u8) && StringAt(s, o3 + 9) == Ok((fs[5].text, end))
  {
    assert fs[0..] == fs;
    o1, o2 := TwoTexts(s, offset, fs, 0, end);
    o3 := TakeText(s, o2, fs, 2, end);
    RetentionReads(s, o3, fs, end);
  }

  /** The two flags of a descriptor, read back from field 2 of a run. */
  lemma FlagReads(s: seq<byte>, offset: int, fs: seq<Field>, end: int)
    requires |fs| == 6 && fs[2].Bool? && fs[3].Bool?
    requires FieldsFrom(s, offset, KindsOf(fs[2..])) == Ok((fs[2..], end))
    ensures BoolAt(s, offset) == Ok(fs[2].b) && BoolAt(s, offset + 1) == Ok(fs[3].b)
    ensures FieldsFrom(s, offset + 2, KindsOf(fs[4..])) == Ok((fs[4..], end))
  {
    TakeBool(s, offset, fs, 2, end);
    TakeBool(s, offset + 1, fs, 3, end);
  }

  /** Reading back a run of fields laid out as the second half of a descriptor: two texts,
      two booleans and two texts. */
  lemma TailReads(s: seq<byte>, offset: int, fs: seq<Field>, end: int)
    returns (o1: int, o2: int, o5: int)
    requires |fs| == 6 && fs[0].Text? && fs[1].Text? && fs[2].Bool? && fs[3].Bool?
    requires fs[4].Text? && fs[5].Text? && FieldsFrom(s, offset, KindsOf(fs)) == Ok((fs, end))
    ensures StringAt(s, offset) == Ok((fs[0].text, o1)) && StringAt(s, o1) == Ok((fs[1].text, o2))
    ensures BoolAt(s, o2) == Ok(fs[2].b) && BoolAt(s, o2 + 1) == Ok(fs[3].b)
    ensures StringAt(s, o2 + 2) == Ok((fs[4].text, o5)) && StringAt(s, o5) == Ok((fs[5].text, end))
  {
    assert fs[0..] == fs;
    o1, o2 := TwoTexts(s, offset, fs, 0, end);
    FlagReads(s, o2, fs, end);
    var o6;
    o5, o6 := TwoTexts(s, o2 + 2, fs, 4, end);
    TakeEnd(s, o6, fs, end);
  }

  /** The first half of `decodeBase` reads back what the server sent. */
  lemma BaseHeadFromFields(s: seq<byte>, offset: int, b: Base, into: Base, end: int)
    requires FieldsFrom(s, offset, KindsOf(BaseHeadFields(b))) == Ok((BaseHeadFields(b), end))
    ensures BaseHeadAt(s, offset, into)
         == Ok((into.(name := b.name, path := b.path, comment := b.comment, status := b.status,
                      looping := into.looping.(kind := b.looping.kind, lt := b.looping.lt)), end))
  {
    var _, _, _ := HeadReads(s, offset, BaseHeadFields(b), end);
  }

  /** The second half of `decodeBase` reads back what the server sent. */
  lemma BaseTailFromFields(s: seq<byte>, offset: int, b: Base, into: Base, end: int)
    requires FieldsFrom(s, offset, KindsOf(BaseTailFields(b))) == Ok((BaseTailFields(b), end))
    ensures BaseTailAt(s, offset, into)
         == Ok((into.(dbSize := b.dbSize, fsType := b.fsType, autoAddSeries := b.autoAddSeries,
                      autoSave := b.autoSave, autoSaveDuration := b.autoSaveDuration,
                      autoSaveInterval := b.autoSaveInterval), end))
  {
    var _, _, _ := TailReads(s, offset, BaseTailFields(b), end);
  }

  /** `decodeBase` reads back both halves of what the server sent. */
  lemma BaseFromFields(s: seq<byte>, offset: int, b: Base, middle: int, end: int)
    requires FieldsFrom(s, offset, KindsOf(BaseHeadFields(b))) == Ok((BaseHeadFields(b), middle))
    requires FieldsFrom(s, middle, KindsOf(BaseTailFields(b))) == Ok((BaseTailFields(b), end))
    ensures BaseAt(s, offset) == Ok((Received(b), end))
  {
    BaseHeadFromFields(s, offset, b, DefaultBase, middle);
    var into := BaseHeadAt(s, offset, DefaultBase).value.0;
    BaseTailFromFields(s, middle, b, into, end);
  }

  /** Every field of a sendable descriptor can be written and read back. */
  lemma SendableFields(b: Base)
    requires Sendable(b)
    ensures AllValid(BaseHeadFields(b)) && AllSizable(BaseHeadFields(b))
    ensures AllValid(BaseTailFields(b)) && AllSizable(BaseTailFields(b))
  {
  }

  /** How the server sends a descriptor: its first half of fields, then its second half. */
  function BaseBytes(b: Base): seq<byte>
    requires Sendable(b)
  {
    SendableFields(b);
    EncodeAll(BaseHeadFields(b)) + EncodeAll(BaseTailFields(b))
  }

  /** Bytes that are the two halves of a descriptor's fields, one after the other, read
      back as the descriptor, and the reader stops right after them. */
  lemma BaseFromBytes(s: seq<byte>, offset: int, b: Base, bytes: seq<byte>, end: int)
    requires Halves(BaseHeadFields(b), BaseTailFields(b), bytes) && At(s, offset, bytes)
    requires end == offset + |bytes|
    ensures BaseAt(s, offset) == Ok((Received(b), end))
  {
    var middle := FieldHalvesRead(s, offset, BaseHeadFields(b), BaseTailFields(b), bytes, end);
    BaseFromFields(s, offset, b, middle, end);
  }

  /** A descriptor goes out as its first half of fields, then its second half. */
  lemma BaseBytesSplit(b: Base)
    requires Sendable(b)
    ensures Halves(BaseHeadFields(b), BaseTailFields(b), BaseBytes(b))
  {
    SendableFields(b);
  }

  /** A descriptor is read back as sent, and the reader stops right after it. */
  lemma BaseRoundTrip(s: seq<byte>, offset: int, b: Base)
    requires Sendable(b) && At(s, offset, BaseBytes(b))
    ensures BaseAt(s, offset) == Ok((Received(b), offset + |BaseBytes(b)|))
  {
    BaseBytesSplit(b);
    BaseFromBytes(s, offset, b, BaseBytes(b), offset + |BaseBytes(b)|);
    ReadIs(BaseAt(s, offset), (Received(b), offset + |BaseBytes(b)|));
  }
}
