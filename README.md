# Wire protocol of the AVADS time-series database client, in Dafny

This project models the protocol layer of the Node.js client for the AVADS time-series
database. The layer has two parts.

The first part is the byte codec, `src/binary/`. It has three cursors that move in step:

- `Sizer` counts bytes.
- `Encoder` writes big-endian primitives into a pre-allocated buffer.
- `Decoder` reads those primitives back.

Two helpers, `writeStringBE` and `sizeStringBE`, write and size a string behind a 4-byte
prefix that holds its UTF-8 byte length.

The second part is the command layer in `src/lib.ts`. For each of the 21 commands the model
covers, it models the request the command builds and the way it reads the reply. It also
models:

- value encoding by `typeof` (`valToBinaryAs`, `valToBinary`);
- the packed rows of `writeRow`;
- the descriptor decoder `decodeBase`;
- the counted lists of `baseGetList` and of the three range scans.

The model keeps the source's form:

- `Encoder`, `Decoder` and `Sizer` are Dafny classes whose methods update `byteOffset`; the
  Encoder also writes into its `array<byte>`.
- Each request builder is a method that allocates a zeroed array of the frame's size and fills
  it write by write, either with Node's checked writes (`NodeBuffer`) or with a Sizer and an
  Encoder (`Requests.EncodeFrame`).
- Each response is read by a method that runs a `Decoder` over the received array
  (`Parsers`, `Login`). The list and page loops become `while` loops.

Every method is proved against a function on bytes:

- `Fields.Encode` and `Fields.Size` say what a write puts on the wire and what the size
  computation charges for it.
- `Replies`, `Info`, `Pages` and `Login` say what each reply decodes to.
- `PackedRows.RowFields` and `Values.AsBytes` say what a row and a value become.

Round trips are proved against functions that describe what the server sends. For example,
`Pages.PageReplyRoundTrip` shows that every range scan returns the page the server sent.

Some conventions of the model:

- Strings are their UTF-8 bytes.
- `value.length` is `Utf8.Utf16Length`, the number of UTF-16 code units.
- `bigint` fields are unbounded integers, checked against their 64-bit range where Node checks
  them.
- Every exception becomes an `Err`:
  - Node's range errors are `OutOfRange`;
  - `Buffer.byteLength` of a value that is neither a string nor a binary view (a Buffer,
    another typed array, a `DataView` or an `ArrayBuffer`) is `InvalidArgType`;
  - `new Error(...)` is `Message`.

On these points the wire format is the one the client code produces, which differs from the
usual AVADS request shape (command byte, 4-byte payload length, payload):

- `protocolVersion` and `baseGetList` send the command byte alone, with no length.
- The two login requests send the command byte and a length-prefixed string, with no payload
  length before it.
- A failure reply is read as the status byte, a 4-byte length that is skipped, then a message
  with its own 4-byte prefix.
- The blob class of `writeRow` accepts only strings; a Buffer or other binary view is refused with
  "row encode: invalid typeof value".
- `seriesCreate` does not send the series class.

## Model

| member | source | states |
|---|---|---|
| Encoding.Encoder.constructor | src/binary/encoder.ts:6-9 | the encoder holds the given buffer and starts at the given offset |
| Encoding.Encoder.Remains | src/binary/encoder.ts:11-13 | the result is exactly the buffer after `byteOffset`: the written part followed by it is the whole buffer |
| Encoding.Encoder.Boolean | src/binary/encoder.ts:15-18 | writes one byte, 1 or 0, at the cursor; advances by 1; every other byte is unchanged |
| Encoding.Encoder.String | src/binary/encoder.ts:20-23 | writes `value.length` as a signed 4-byte big-endian prefix, then the UTF-8 bytes that fit without splitting a character; advances past them; nothing else changes; with room, the bytes are exactly `Encode(Str(value))` |
| Encoding.Encoder.Uint8 | src/binary/encoder.ts:25-27 | writes the byte and advances by 1; nothing else changes |
| Encoding.Encoder.Uint32 | src/binary/encoder.ts:29-31 | writes 4 big-endian bytes and advances by 4; nothing else changes |
| Encoding.Encoder.Int16 | src/binary/encoder.ts:33-35 | writes 2 two's-complement big-endian bytes and advances by 2; nothing else changes |
| Encoding.Encoder.Int32 | src/binary/encoder.ts:37-39 | writes 4 two's-complement big-endian bytes and advances by 4; nothing else changes |
| Encoding.Encoder.Int64 | src/binary/encoder.ts:41-43 | writes 8 two's-complement big-endian bytes and advances by 8; nothing else changes |
| Encoding.Encoder.Write | src/binary/encoder.ts:45-47 | copies the window `[start, end)` of `value` (the whole of it by default), cut to the source and to the room left, verbatim, and advances by the number of bytes copied; a window that exists and fits advances by `end - start`, what `Sizer.write(value, start, end)` charges; nothing else changes |
| Decoding.Decoder.constructor | src/binary/decoder.ts:6-9 | the decoder holds the given buffer and starts at the given offset |
| Decoding.Decoder.Remains | src/binary/decoder.ts:11-13 | the result is the buffer after the cursor, or empty once the cursor is past the end |
| Decoding.Decoder.Boolean | src/binary/decoder.ts:15-19 | advances by 1 even when the read fails; succeeds exactly when the byte exists, and then returns whether it is non-zero |
| Decoding.Decoder.String | src/binary/decoder.ts:21-26 | succeeds exactly when the 4-byte prefix exists; then advances by 4 plus the signed length L and returns the L bytes after the prefix when they lie inside the buffer; on every input the result is `Fields.StringAt`, which also states `toString`'s cut at the end of the buffer |
| Decoding.Decoder.Uint8 | src/binary/decoder.ts:28-32 | advances by 1; succeeds exactly when the byte exists and returns it |
| Decoding.Decoder.Int32 | src/binary/decoder.ts:34-38 | advances by 4; succeeds exactly when 4 bytes exist and returns the 32-bit value whose encoding they are |
| Decoding.Decoder.Int64 | src/binary/decoder.ts:40-44 | advances by 8; succeeds exactly when 8 bytes exist and returns the 64-bit value whose encoding they are |
| Decoding.Decoder.Read | src/binary/decoder.ts:46-50 | advances by exactly `size` and returns bytes `[offset, offset+size)` when they lie inside the buffer, else the clamped `subarray` |
| Sizing.Sizer.constructor | src/binary/sizer.ts:5-7 | the count starts at the given offset |
| Sizing.Sizer.Boolean | src/binary/sizer.ts:9-11 | adds 1, the size of a written boolean |
| Sizing.Sizer.String | src/binary/sizer.ts:13-16 | adds 4 plus `value.length`, which is 4 plus the byte count for ASCII text |
| Sizing.Sizer.Uint8 | src/binary/sizer.ts:18-20 | adds 1 |
| Sizing.Sizer.Uint32 | src/binary/sizer.ts:22-24 | adds 4 |
| Sizing.Sizer.Int16 | src/binary/sizer.ts:26-28 | adds 2 |
| Sizing.Sizer.Int32 | src/binary/sizer.ts:30-32 | adds 4 |
| Sizing.Sizer.Int64 | src/binary/sizer.ts:34-36 | adds 8 |
| Sizing.Sizer.Write | src/binary/sizer.ts:38-40 | adds `end - start`, never decreases when `start <= end`, and by default adds the size of the whole buffer |
| Fields.SizeAllMatchesEncodeAll | src/binary/sizer.ts:9-40 | Sizer/Encoder parity: for the same calls, without non-ASCII `string` calls, the count equals the number of bytes written |
| Fields.SizeMatchesEncode | src/binary/sizer.ts:9-40 | one call's charge equals the bytes it writes, unless it is a non-ASCII `string` |
| Fields.SizeAllConcat | src/binary/sizer.ts:9-40 | counts of consecutive calls add up, and no count is negative |
| Fields.SizeAllDependsOnShape | src/binary/sizer.ts:9-36 | the count depends only on the kinds of the calls and the lengths of strings and buffers, never on numbers or booleans |
| Utf8.AsciiUtf16Length | src/binary/sizer.ts:15 | for ASCII text `value.length` equals the UTF-8 byte count |
| Utf8.Utf8Fit | src/binary/index.ts:4 | the bytes `buf.write` copies: never more than the text or the room, all of the text when it fits, otherwise the longest prefix that fits and ends at a character boundary |
| NodeBuffer.WriteString | src/binary/index.ts:4 | `b.write(s, offset)` copies `Utf8Fit` bytes of `s` at `offset` and returns that count; nothing else changes |
| NodeBuffer.WritePrefixedText | src/binary/index.ts:2-4 | a 4-byte prefix then as much of the text as fits; with room, exactly the prefix and the text; nothing else changes |
| NodeBuffer.CopyInto | src/binary/encoder.ts:46 | `source.copy(b, offset, start, end)` copies the window, cut to the source and to the room, verbatim, and returns that count; nothing else changes |
| NodeBuffer.CopyCount | src/binary/encoder.ts:46 | the count `copy` returns: none for an empty window, never past the source or the room, exactly `end - start` when the window exists and fits, and min(source length, room) by default |
| NodeBuffer.IndexOf | src/lib.ts:107 | the first position holding the byte, or -1 exactly when the byte does not occur |
| LengthPrefixed.WriteStringBE | src/binary/index.ts:1-6 | writes the UTF-8 byte length as a 4-byte prefix, then the bytes that fit; returns the offset after them; with room it returns `sizeStringBE(s, offset)` and the bytes are `Encode(Text(s))`; nothing else changes |
| LengthPrefixed.SizeStringBE | src/binary/index.ts:8-12 | `offset` plus the number of bytes `writeStringBE` puts on the wire |
| LengthPrefixed.WriteStringFillsSizedBuffer | src/test/write_string.test.ts:8-16 | `writeStringBE(b, s, 0)` into `Buffer.alloc(sizeStringBE(s))` returns `sizeStringBE(s)` and fills the buffer exactly, for any text |
| Fields.BoolRoundTrip | src/binary/decoder.ts:15-19 | `boolean()` over `Encoder.boolean(v)` output returns `v` |
| Fields.UInt8RoundTrip | src/binary/decoder.ts:28-32 | `uint8()` over `Encoder.uint8(v)` output returns `v` |
| Fields.Int32RoundTrip | src/binary/decoder.ts:34-38 | `int32()` over `Encoder.int32(v)` output returns `v` |
| Fields.Int64RoundTrip | src/binary/decoder.ts:40-44 | `int64()` over `Encoder.int64(v)` output returns `v` |
| Fields.TextRoundTrip | src/binary/decoder.ts:21-26 | `string()` over `writeStringBE` output returns the same bytes, for any text, and stops right after them |
| Fields.StrRoundTrip | src/binary/decoder.ts:21-26 | `string()` over `Encoder.string(v)` output returns `v` when `v` is ASCII |
| Fields.RawRoundTrip | src/binary/decoder.ts:46-50 | `read(n)` over `Encoder.write` output returns the bytes written |
| Fields.NonAsciiStrIsMisframed | src/binary/encoder.ts:20-23 | for "é" the prefix says 1 while 2 bytes follow; the Sizer charges 5 of the 6 bytes written; `string()` reads back one byte |
| Fields.FieldRoundTrip | src/binary/decoder.ts:15-50 | every write the size computation gets right is read back by the matching Decoder read, which stops right after it |
| Fields.FieldsRoundTrip | src/binary/decoder.ts:15-50 | a whole sequence of such writes is read back in order, field for field, ending right after the last byte |
| Requests.FrameRoundTrip | src/lib.ts:156-162 | in every framed request the length after the command byte counts exactly the payload bytes, and the payload reads back field for field |
| Requests.ProtocolVersionRequest | src/lib.ts:82-83 | the request is the single byte 254 |
| Requests.BaseGetListRequest | src/lib.ts:135-136 | the request is the single byte 4 |
| Requests.LoginGetKeysRequest | src/lib.ts:95-97 | byte 0, then the login behind its byte length, filling `1+sizeStringBE(login)` bytes |
| Requests.LoginValidPassRequest | src/lib.ts:120-122 | byte 1, then the hash behind its byte length |
| Requests.WriteFields | src/lib.ts:239-251 | a run of `offset = b.writeX(v, offset)` lines writes the fields in order and ends at the offset their sizes add up to |
| Requests.WriteFrame | src/lib.ts:157-162 | the buffer of `1+4+length` bytes holds the command byte, the length and the payload, with no slack |
| Requests.BaseOpenRequest | src/lib.ts:156-162 | the frame of code 2 with the id and the name |
| Requests.BaseRemoveRequest | src/lib.ts:174-178 | the frame of code 5 with the name |
| Requests.BaseGetInfoRequest | src/lib.ts:263-268 | the frame of code 3 with the name |
| Requests.UpdateBaseLengthIsSize | src/lib.ts:230-237 | the length `baseUpdate` adds up by hand is the size of the fields it writes |
| Requests.BaseUpdateRequest | src/lib.ts:229-251 | the frame of code 6 with the old name and the new settings in the written order, the flags as whole bytes |
| Requests.BaseCloseRequest | src/lib.ts:799-802 | the frame of code 7 with the database id |
| Requests.DataGetBoundaryRequest | src/lib.ts:430-434 | the frame of code 21 with the two ids, written at the fixed offsets 1, 5 and 13 |
| Requests.DataAddRowCacheRequest | src/lib.ts:473-478 | the frame of code 29 with the id and the unprefixed data |
| Requests.DataAddRowsRequest | src/lib.ts:491-496 | the frame of code 32 with the id and the unprefixed data |
| Requests.DataGetValueAtTimeRequest | src/lib.ts:539-545 | the frame of code 30 with the ids and the time |
| Requests.DataGetRangeDirectionRequest | src/lib.ts:586-597 | the frame of code 25 with the ids, direction, limit, range and 16-bit dpi |
| Requests.DataDeleteRowsRequest | src/lib.ts:641-648 | the frame of code 28 with the ids and the time range |
| Requests.DataGetCPRequest | src/lib.ts:661-667 | the frame of code 22 with the ids and the time |
| Requests.DataGetFromCPRequest | src/lib.ts:680-688 | the frame of code 23 with the id, the checkpoint, direction and limit |
| Requests.DataGetRangeFromCPRequest | src/lib.ts:742-753 | the frame of code 24 with the id, the checkpoint, direction, limit, range and dpi |
| Requests.SizeFields | src/lib.ts:190-202 | a run of `sizer.x(v)` calls adds the size of the fields |
| Requests.EncodeFields | src/lib.ts:204-217 | a run of `enc.x(v)` calls writes the fields in order and advances by their size |
| Requests.EncodeSized | src/lib.ts:203-217 | a buffer of the counted size plus 5, filled by the Encoder, is exactly the frame |
| Requests.EncodeFrame | src/lib.ts:190-217 | a Sizer count followed by the Encoder yields the frame of the payload |
| Requests.BaseCreateRequest | src/lib.ts:190-217 | the frame of code 1 with the descriptor in the Sizer's and Encoder's order |
| Requests.SeriesCreateRequest | src/lib.ts:283-304 | the frame of code 8 with the database name and the series fields |
| Requests.AddRowValue | src/lib.ts:329-338 | class 0: the value through `valToBinaryAs` into 8 zeroed bytes; other classes: `valToBinary`'s bytes behind their byte length |
| Requests.AddRowPayload | src/lib.ts:324-339 | the `dataAddRow` payload in the Sizer's and Encoder's order (ids, class, time, value, quality), every field writable by the Encoder, or the value's conversion error |
| Requests.DataAddRowRequest | src/lib.ts:324-357 | succeeds exactly when the value converts and the size fits; then the frame of code 26 with ids, class, time, value and quality, and the header length is the Sizer total |
| Replies.StatusAt | src/lib.ts:99-105 | passes exactly when the header is there and the status is 0, and then gives the result offset; a server message is tagged `"<command> error: "` |
| Replies.SuccessRoundTrip | src/lib.ts:99-105 | a success reply passes the status check and its result starts right after the header the command reads |
| Replies.FailureRoundTrip | src/lib.ts:100-105 | a failure reply throws `"<command> error: "` with the server's message, whether the command reads the length always or only on failure |
| Replies.AckReply | src/lib.ts:164-170 | commands without a result succeed exactly on a zero status byte; their errors carry the command's tag |
| Replies.ProtocolVersionRoundTrip | src/lib.ts:85-91 | `protocolVersion` returns the version byte the server sent |
| Replies.TextReplyRoundTrip | src/lib.ts:124-131 | `loginValidPass` and `dataGetCP` return the text the server sent |
| Replies.CountReplyRoundTrip | src/lib.ts:480-487 | `dataAddRowCache` and `dataDeleteRows` return the 64-bit integer the server sent |
| Replies.BaseHeadFromFields | src/lib.ts:56-61 | the first six reads of `decodeBase` return the fields the server sent |
| Replies.BaseTailFromFields | src/lib.ts:62-67 | the last six reads of `decodeBase` return the fields the server sent |
| Replies.BaseRoundTrip | src/lib.ts:55-68 | `decodeBase` reads a descriptor back as sent, with the unsent fields at their defaults, and stops right after it |
| Info.BaseGetInfoRoundTrip | src/lib.ts:270-279 | `baseGetInfo` returns the descriptor the server sent |
| Info.BaseGetListRoundTrip | src/lib.ts:138-152 | `baseGetList` returns every descriptor sent, in order |
| Info.BaseGetListCount | src/lib.ts:145-147 | a count `new Array` refuses throws a range error before any read; a zero count returns an empty list |
| Info.BaseGetListFailsInRange | src/lib.ts:138-152 | after the status check `baseGetList` can only throw a range error |
| Info.BaseAtError | src/lib.ts:55-68 | any error `decodeBase` throws is a range error |
| Info.BaseGetInfoReply | src/lib.ts:270-279 | succeeds only after a zero status; a non-zero status always throws |
| Info.BaseGetListReply | src/lib.ts:138-152 | succeeds only after a zero status, with as many descriptors as the count at 5..13 says; a non-zero status always throws |
| Info.DataGetBoundaryReply | src/lib.ts:436-454 | succeeds only after a zero status; the minimum, maximum and row count are the int64s at 5, 13 and 21; a non-zero status always throws |
| Info.DataGetBoundaryRoundTrip | src/lib.ts:436-454 | `dataGetBoundary` returns the boundary the server sent |
| Counted.RepeatRoundTrip | src/lib.ts:611-631 | a counted loop reads back a list of items sent one after the other, in order, and stops right after them |
| Counted.RepeatExtends | src/lib.ts:611-631 | the loop's result extends what was already pushed by exactly `count` items, none for a non-positive count |
| Pages.RowRoundTrip | src/lib.ts:612-630 | a row is read back as sent (8 raw value bytes for class 0, a length-prefixed value for class 1) and the reader stops after its quality |
| Pages.PageRoundTrip | src/lib.ts:606-637 | a page is read back as sent: both checkpoints, the flag and exactly its rows |
| Pages.UnknownClassFailsOnRows | src/lib.ts:611-624 | with an unknown class a scan throws only a range error or the invalid-class error, and any page it returns holds no rows |
| Pages.EmptyPageIgnoresClass | src/lib.ts:611 | a page whose count runs no turn of the loop reads the same whatever the class |
| Pages.PageReplyRoundTrip | src/lib.ts:599-637 | every range scan returns the page the server sent |
| Pages.PageReply | src/lib.ts:599-637 | succeeds only after a zero status; a non-zero status always throws; a page with rows comes only from class 0 or 1 |
| Pages.ValueAtTimeReply | src/lib.ts:547-572 | succeeds only after a zero status and for class 0 or 1; a non-zero status always throws |
| Pages.ValueAtTimeRoundTrip | src/lib.ts:547-572 | `dataGetValueAtTime` returns the row the server sent |
| Parsers.CheckStatus | src/lib.ts:99-105 | the decoder's status check agrees with `StatusAt`, and on success leaves the cursor at the result |
| Replies.ProtocolVersionReply | src/lib.ts:85-91 | succeeds exactly when the status is 0 and the version byte exists, and returns byte 5 |
| Parsers.ProtocolVersionResponse | src/lib.ts:85-91 | agrees with `ProtocolVersionReply` on every reply |
| Parsers.LoginValidPassResponse | src/lib.ts:124-131 | agrees with `LoginValidPassReply` on every reply |
| Parsers.DataGetCPResponse | src/lib.ts:669-676 | agrees with `DataGetCPReply` on every reply |
| Parsers.DataAddRowCacheResponse | src/lib.ts:480-487 | agrees with `DataAddRowCacheReply` on every reply |
| Parsers.DataDeleteRowsResponse | src/lib.ts:650-657 | agrees with `DataDeleteRowsReply` on every reply |
| Parsers.AckResponse | src/lib.ts:164-170 | agrees with `AckReply` on every reply |
| Parsers.DecodeBase | src/lib.ts:55-68 | the twelve reads agree with `BaseHeadAt` then `BaseTailAt`, including where the cursor stops |
| Parsers.DecodeBaseHead | src/lib.ts:56-61 | the first six reads agree with `BaseHeadAt` |
| Parsers.DecodeBaseTail | src/lib.ts:62-67 | the last six reads agree with `BaseTailAt` |
| Parsers.BaseGetInfoResponse | src/lib.ts:270-279 | agrees with `BaseGetInfoReply` on every reply |
| Parsers.BaseGetListResponse | src/lib.ts:138-152 | the loop agrees with `BaseGetListReply` on every reply |
| Parsers.DataGetBoundaryResponse | src/lib.ts:436-454 | agrees with `DataGetBoundaryReply` on every reply |
| Parsers.ReadRow | src/lib.ts:612-630 | one turn of the row loop agrees with `RowAt`, including where the cursor stops |
| Parsers.ReadPage | src/lib.ts:606-637 | the row loop agrees with `PageAt` on every reply |
| Parsers.PageResponse | src/lib.ts:599-637 | each range scan agrees with `PageReply` on every reply |
| Parsers.DataGetValueAtTimeResponse | src/lib.ts:547-572 | agrees with `ValueAtTimeReply`, whose unknown-class message names the class |
| Login.LoginKeysReply | src/lib.ts:99-116 | succeeds exactly when the header is there with a zero status; a server message carries the `login get keys error: ` tag |
| Login.LoginGetKeysResponse | src/lib.ts:99-116 | agrees with `LoginKeysReply`: the status check, the remainder split at its first NUL, the two digests |
| Login.FirstNul | src/lib.ts:107 | the first NUL of `salt + [0] + challenge`, for a salt without NUL, sits right after the salt |
| Login.LoginKeysRoundTrip | src/lib.ts:106-116 | for a reply `salt NUL challenge` the keys are `md5hex(pass+salt)` and `md5hex(that+challenge)` |
| Login.LoginKeysWithoutNul | src/lib.ts:106-116 | without a NUL the salt loses the last byte and the challenge is the whole remainder |
| Values.AsBytes | src/lib.ts:370-394 | what `valToBinaryAs` writes never exceeds the room left |
| Values.ValToBinaryAs | src/lib.ts:369-395 | corrected: writes `AsBytes` at the offset and returns the offset after it, for a Buffer too (offset plus count, where the code returns the count; as written see `Values.AsWrittenNext`); on failure nothing is written; nothing else changes |
| Values.AsBytesRoundTrip | src/lib.ts:372-394 | with 8 bytes of room: a boolean becomes 8 bytes reading back 1 or 0; a number or bigint becomes 8 bytes reading back as itself; a string or Buffer is copied whole when it fits; any other kind throws "value to binary as error: invalid typeof " followed by its typeof (`object` for a non-Buffer binary view) |
| Values.AsWrittenNext | src/lib.ts:388-392 | as written, the Buffer case returns the byte count `copy` returns, not an offset |
| Values.AsWrittenNextLosesOffset | src/lib.ts:390 | outside the Buffer case the returned offset is the one after the bytes; an 8-byte Buffer at 17 returns 8, not 25 |
| Values.ValToBinaryOutcome | src/lib.ts:397-427 | succeeds exactly for a boolean, a number or bigint in its 64-bit range, a string or a Buffer; 8 bytes for the first three, the Buffer itself, `value.length` bytes for a string (its UTF-8 bytes as far as they fit, zero-padded); range errors for out-of-range numbers; any other kind throws "value to binary error: invalid typeof " followed by its typeof (`object` for a non-Buffer binary view) |
| Values.ValToBinaryAgreesWithAs | src/lib.ts:397-427 | `valToBinary` and `valToBinaryAs` agree: 8 bytes for booleans, numbers and bigints, the Buffer itself, the text of an ASCII string; both refuse the same values |
| Values.NonAsciiStringValueIsCut | src/lib.ts:417-420 | "é" gets a 1-byte buffer, the character does not fit, and the result is one zero byte |
| PackedRows.SlotOf | src/lib.ts:516 | corrected layout: the class-0 value slot has exactly 8 bytes |
| PackedRows.RowFields | src/lib.ts:510-535 | class 0 succeeds exactly when the value fits its slot; class 1 only with a string; any other class throws "row encode: invalid class"; the fields are always writable and sized right |
| PackedRows.BlobFields | src/lib.ts:519-532 | class 1 succeeds exactly for a string whose length fits the prefix; a Buffer or other binary view gets "row encode: invalid typeof value"; any other value the `Buffer.byteLength` error |
| PackedRows.RowRoundTrip | src/lib.ts:507-536 | a packed row reads back field for field and fills exactly the buffer `writeRow` allocates |
| PackedRows.SimpleRowLayout | src/lib.ts:512-518 | class 0: series id at 0..8, class 0 at 8, time at 9..17, slot at 17..25, quality at 25..29 |
| PackedRows.BlobRowSize | src/lib.ts:520 | the size of a class-1 row is `8+1+8+sizeStringBE(s)+4` |
| PackedRows.WriteSlot | src/lib.ts:516 | corrected layout: the value goes at 17 through `valToBinaryAs` and must end by 25; the buffer then holds the slot |
| PackedRows.WriteSimpleRow | src/lib.ts:511-518 | corrected layout: the class-0 row with the quality at 25, or the error `RowFields` gives |
| PackedRows.WriteBlobRow | src/lib.ts:519-532 | the class-1 row, or the error `BlobFields` gives |
| PackedRows.WriteRow | src/lib.ts:507-536 | corrected layout (8-byte slot, quality at 25; as written see `SimpleRowAsWritten`): succeeds exactly when `RowFields` does, then returns a fresh buffer holding exactly its fields; otherwise the same error |
| PackedRows.SimpleRowAsWritten | src/lib.ts:511-518 | the class-0 row as the code writes it is 29 bytes |
| PackedRows.BufferValueOverwritesHeader | src/lib.ts:388-392 | as written, a Buffer value puts the quality over the series id and class and leaves the last 4 bytes zero; the corrected row keeps class 0 at 8 and the quality at 25 |
| PackedRows.ShortValueShiftsQuality | src/lib.ts:516-517 | as written, a value shorter than 8 bytes puts the quality right after it, inside the slot; the corrected row pads the value to 8 bytes |
| PackedRows.TwoLetterValueShiftsQuality | src/lib.ts:516-517 | as written, "ab" with quality 0x01020304 puts the quality at 19..23 and leaves the last 4 bytes zero |

## Left out

- `send` (src/lib.ts:70-79) and every `await send(...)`: socket I/O. Each command is split into
  the request it builds and the way it reads a given reply.
- src/socket.ts, src/index.ts and the integration test: they sequence network calls against a
  live server.
- MD5 through `crypto`: `md5hex` is a parameter, any function from bytes to bytes. Only the NUL
  split and the order of concatenation are modelled.
- JavaScript strings are their UTF-8 bytes. `value.length` is computed from well-formed UTF-8.
  Lone surrogates and `toString`'s replacement of invalid UTF-8 by U+FFFD are not modelled, so
  a decoded string is the raw bytes between its bounds.
- The `number` path (`BigInt(v)`) holds only non-negative integers below 2^64. Floats,
  negative numbers and `BigInt`'s errors on them are not modelled.
- Node's checked writes throw on a value out of range or a field that does not fit. Here both
  are preconditions of the write, because the builders always allocate the exact frame size.
  A caller that passes an out-of-range number is not modelled.
- The records of src/base.ts, src/series.ts, src/row.ts, src/rec_with_cp.ts and src/boundary.ts
  are datatypes. Their `||` defaults are not modelled: a falsy field such as `""` stays what it
  is.
- `SimpleClass` and `BlobClass` come from a module that is not part of this model. They are the
  constants 0 and 1.
- Requests.BaseCreateRequest, Requests.SeriesCreateRequest: proved only for payloads whose
  strings are ASCII, because `Sizer.string` charges `value.length`. With non-ASCII text the
  frame is shorter than its content; `Fields.NonAsciiStrIsMisframed` shows this.
- Values.ValToBinaryAs: models the corrected Buffer case, which returns the offset after the
  bytes copied; the code returns the count (see Findings), and `Values.AsWrittenNext` models that.
- PackedRows.WriteRow, PackedRows.WriteSimpleRow, PackedRows.WriteSlot, PackedRows.SlotOf: model
  the corrected class-0 layout; the layout as written is `PackedRows.SimpleRowAsWritten`.
- Encoding.Encoder.Write, NodeBuffer.CopyInto: a negative window bound or a start past the source
  makes Node throw; here those are preconditions. The library never passes a window.
- Encoding.Encoder.String and the Encoder-based builders assume the prefix `value.length` fits
  a signed 32-bit integer.
- The Encoder's, Decoder's and Sizer's `byteOffset` is an unbounded integer. JavaScript
  numbers lose precision above 2^53, far beyond any buffer.

## Findings

| source | as written | input that shows it | evidently intended | confidence | as-written member | corrected member |
|---|---|---|---|---|---|---|
| src/binary/encoder.ts:20-23 | `string` writes `value.length` (UTF-16 code units) as the prefix, then the UTF-8 bytes | "é": prefix 1, then bytes C3 A9; `Decoder.string()` reads back C3 alone and stops inside the text | the prefix is the UTF-8 byte length, as `writeStringBE` writes it | high, not executed | Fields.NonAsciiStrIsMisframed | Fields.TextRoundTrip |
| src/lib.ts:388-392 | the Buffer case of `valToBinaryAs` returns `v.copy(b, offset)`, a byte count, not an offset | `writeRow(id, 0, t, 0x01020304, Buffer.alloc(8, 1))`: the quality goes to 8..12, over the class byte, and bytes 25..29 stay zero | return `offset` plus the count, like every other case | high, not executed | PackedRows.BufferValueOverwritesHeader | PackedRows.WriteRow |
| src/lib.ts:516-517 | the class-0 quality is written at the offset `valToBinaryAs` returns, right after the value | `writeRow(0n, 0, 0n, 0x01020304, "ab")`: the quality sits at 19..23 and bytes 25..29 stay zero | the value fills an 8-byte slot and the quality sits at 25..29 | medium, not executed | PackedRows.TwoLetterValueShiftsQuality | PackedRows.WriteRow |
