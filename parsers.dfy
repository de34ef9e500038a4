/** The response halves of the commands, as the library runs them: a `Decoder` over the
    received buffer, the status check, then the command's reads one after the other. Each
    method returns what the command returns, or the error it throws, and is proved to agree
    with the reply function that describes the same reads on the bytes. */
module Parsers {

  import opened Bytes
  import opened Wrappers
  import opened NodeBuffer
  import opened Fields
  import opened Records
  import opened Replies
  import opened Counted
  import opened Info
  import opened Pages
  import opened Decoding

  /** The status check at the start of every response: the status byte, the 4-byte length
      (always, or only on failure), and on a non-zero status the server's message behind
      `"<command> error: "`. On success the decoder stands at the first byte of the result. */
  method CheckStatus(dec: Decoder, layout: Layout, command: string) returns (r: Result<()>)
    requires dec.byteOffset == 0
    modifies dec
    ensures var st := StatusAt(dec.buffer[..], layout, command);
            && (r.Ok? <==> st.Ok?)
            && (st.Err? ==> r == Err(st.error))
            && (st.Ok? ==> dec.byteOffset == st.value)
  {
    var c :- dec.Uint8();
    if layout == Always {
      var _ :- dec.Int32();
      if c != 0 {
        var message :- dec.String();
        return Err(Message(command + " error: ", message));
      }
    } else if c != 0 {
      var _ :- dec.Int32();
      var message :- dec.String();
      return Err(Message(command + " error: ", message));
    }
    r := Ok(());
  }

  /** `protocolVersion`: the version byte after the header. */
  method ProtocolVersionResponse(b: array<byte>) returns (r: Result<int>)
    ensures r == ProtocolVersionReply(b[..])
  {
    var dec := new Decoder(b);
    var _ :- CheckStatus(dec, Always, "protocol version");
    r := dec.Uint8();
  }

  /** `loginValidPass`: the session text after the header. */
  method LoginValidPassResponse(b: array<byte>) returns (r: Result<seq<byte>>)
    ensures r == LoginValidPassReply(b[..])
  {
    var dec := new Decoder(b);
    var _ :- CheckStatus(dec, Always, "login valid pass");
    r := dec.String();
  }

  /** `dataGetCP`: the checkpoint text after the header. */
  method DataGetCPResponse(b: array<byte>) returns (r: Result<seq<byte>>)
    ensures r == DataGetCPReply(b[..])
  {
    var dec := new Decoder(b);
    var _ :- CheckStatus(dec, Always, "data get CP");
    r := dec.String();
  }

  /** `dataAddRowCache`: the 64-bit integer after the header. */
  method DataAddRowCacheResponse(b: array<byte>) returns (r: Result<int>)
    ensures r == DataAddRowCacheReply(b[..])
  {
    var dec := new Decoder(b);
    var _ :- CheckStatus(dec, Always, "data add row cache");
    r := dec.Int64();
  }

  /** `dataDeleteRows`: the 64-bit integer after the header. */
  method DataDeleteRowsResponse(b: array<byte>) returns (r: Result<int>)
    ensures r == DataDeleteRowsReply(b[..])
  {
    var dec := new Decoder(b);
    var _ :- CheckStatus(dec, Always, "data delete rows");
    r := dec.Int64();
  }

  /** The commands that return nothing: the status check alone, the length read only on
      failure. */
  method AckResponse(b: array<byte>, command: string) returns (r: Result<()>)
    ensures r == AckReply(b[..], command)
  {
    var dec := new Decoder(b);
    var _ :- CheckStatus(dec, OnFailure, command);
    r := Ok(());
  }

  // ---- database descriptors ----

  /** `decodeBase(dec, base)`: the twelve assignments in order, each reading the next field
      from the decoder; the first read that throws ends it. Returns the updated descriptor. */
  method DecodeBase(dec: Decoder, into: Base) returns (r: Result<Base>)
    modifies dec
    ensures var head := BaseHeadAt(dec.buffer[..], old(dec.byteOffset), into);
            match head
            case Err(e) => r == Err(e)
            case Ok(h) => WithOffset(r, dec.byteOffset) == BaseTailAt(dec.buffer[..], h.1, h.0)
  {
    var head :- DecodeBaseHead(dec, into);
    r := DecodeBaseTail(dec, head);
  }

  /** The first six assignments of `decodeBase`. */
  method DecodeBaseHead(dec: Decoder, into: Base) returns (r: Result<Base>)
    modifies dec
    ensures WithOffset(r, dec.byteOffset) == BaseHeadAt(dec.buffer[..], old(dec.byteOffset), into)
  {
    var name :- dec.String();
    var path :- dec.String();
    var comment :- dec.String();
    var status :- dec.Int64();
    var kind :- dec.Uint8();
    var lt :- dec.String();
    r := Ok(into.(name := name, path := path, comment := comment, status := status,
                  looping := into.looping.(kind := kind, lt := lt)));
  }

  /** The last six assignments of `decodeBase`. */
  method DecodeBaseTail(dec: Decoder, into: Base) returns (r: Result<Base>)
    modifies dec
    ensures WithOffset(r, dec.byteOffset) == BaseTailAt(dec.buffer[..], old(dec.byteOffset), into)
  {
    var dbSize :- dec.String();
    var fsType :- dec.String();
    var autoAddSeries :- dec.Boolean();
    var autoSave :- dec.Boolean();
    var duration :- dec.String();
    var interval :- dec.String();
    r := Ok(into.(dbSize := dbSize, fsType := fsType, autoAddSeries := autoAddSeries,
                  autoSave := autoSave, autoSaveDuration := duration,
                  autoSaveInterval := interval));
  }

  /** `baseGetInfo`: one descriptor decoded into a `new Base()`. */
  method BaseGetInfoResponse(b: array<byte>) returns (r: Result<Base>)
    ensures r == BaseGetInfoReply(b[..])
  {
    var dec := new Decoder(b);
    var _ :- CheckStatus(dec, Always, "base get info");
    r := DecodeBase(dec, DefaultBase);
  }

  /** `baseGetList`: the count, then a loop that decodes one descriptor per turn into a
      `new Base()` and stores it at the turn's index. */
  method BaseGetListResponse(b: array<byte>) returns (r: Result<seq<Base>>)
    ensures r == BaseGetListReply(b[..])
  {
    var dec := new Decoder(b);
    var _ :- CheckStatus(dec, Always, "base get list");
    var count :- dec.Int64();
    if count < 0 || count >= 0x1_0000_0000 {
      return Err(OutOfRange);
    }
    ghost var s := b[..];
    ghost var start := dec.byteOffset;
    var bases: seq<Base> := [];
    var i := 0;
    ghost var left := count;
    while i < count
      invariant 0 <= i <= count && |bases| == i && left == count - i
      invariant Repeat(BaseAt, s, start, count, []) == Repeat(BaseAt, s, dec.byteOffset, left, bases)
    {
      ghost var o, n := dec.byteOffset, left;
      left := left - 1;
      RepeatTurn(BaseAt, s, o, n, bases, left);
      var base := DecodeBase(dec, DefaultBase);
      assert WithOffset(base, dec.byteOffset) == BaseAt(s, o);
      if base.Err? {
        return Err(base.error);
      }
      bases := bases + [base.value];
      i := i + 1;
    }
    r := Ok(bases);
  }

  // ---- boundaries, rows and pages ----

  /** `dataGetBoundary`: three 64-bit integers and two texts after the header. */
  method DataGetBoundaryResponse(b: array<byte>) returns (r: Result<Boundary>)
    ensures r == DataGetBoundaryReply(b[..])
  {
    var dec := new Decoder(b);
    var _ :- CheckStatus(dec, Always, "data get boundary");
    var min :- dec.Int64();
    var max :- dec.Int64();
    var rowCount :- dec.Int64();
    var startCP :- dec.String();
    var endCP :- dec.String();
    r := Ok(Boundary(min, max, rowCount, startCP, endCP));
  }

  /** The body of the row loop (and of `dataGetValueAtTime`): the timestamp, then the value by
      class, then the 4 quality bytes; an unknown class throws `invalid`. */
  method ReadRow(dec: Decoder, cl: int, invalid: Error) returns (r: Result<Row>)
    modifies dec
    ensures WithOffset(r, dec.byteOffset) == RowAt(dec.buffer[..], old(dec.byteOffset), cl, invalid)
  {
    var t :- dec.Int64();
    var value;
    if cl == SimpleClass {
      value := dec.Read(8);
    } else if cl == BlobClass {
      value :- dec.String();
    } else {
      return Err(invalid);
    }
    var q := dec.Read(4);
    r := Ok(Row(t, value, q));
  }

  /** A page: the two checkpoints, the continuation flag, the row count, then a loop that
      pushes one row per turn. */
  method ReadPage(dec: Decoder, cl: int, invalid: Error) returns (r: Result<Page>)
    modifies dec
    ensures r == PageAt(dec.buffer[..], old(dec.byteOffset), RowReader(cl, invalid))
  {
    ghost var s := dec.buffer[..];
    var startCP :- dec.String();
    var endCP :- dec.String();
    var more :- dec.Boolean();
    var count :- dec.Int64();
    ghost var start := dec.byteOffset;
    var recs: seq<Row> := [];
    var i := 0;
    ghost var left := count;
    while i < count
      invariant 0 <= i && (count >= 0 ==> i <= count) && left == count - i
      invariant Repeat(RowReader(cl, invalid), s, start, count, [])
             == Repeat(RowReader(cl, invalid), s, dec.byteOffset, left, recs)
    {
      ghost var o, n := dec.byteOffset, left;
      left := left - 1;
      RepeatTurn(RowReader(cl, invalid), s, o, n, recs, left);
      var row := ReadRow(dec, cl, invalid);
      assert WithOffset(row, dec.byteOffset) == RowReader(cl, invalid)(s, o);
      if row.Err? {
        return Err(row.error);
      }
      recs := recs + [row.value];
      i := i + 1;
    }
    r := Ok(Page(recs, startCP, endCP, more));
  }

  /** `dataGetRangeDirection`, `dataGetFromCP` and `dataGetRangeFromCP`, each under its own
      `command` name: the header, then a page. */
  method PageResponse(b: array<byte>, cl: int, command: string) returns (r: Result<Page>)
    ensures r == PageReply(b[..], cl, command)
  {
    var dec := new Decoder(b);
    var _ :- CheckStatus(dec, Always, command);
    r := ReadPage(dec, cl, InvalidClass(command));
  }

  /** `dataGetValueAtTime`: the status (the length read only on failure), then one row. */
  method DataGetValueAtTimeResponse(b: array<byte>, cl: int) returns (r: Result<Row>)
    ensures r == ValueAtTimeReply(b[..], cl)
  {
    var dec := new Decoder(b);
    var _ :- CheckStatus(dec, OnFailure, "data get value at time");
    var row :- ReadRow(dec, cl, Message("data get value at time error: invalid class " + Decimal(cl), []));
    r := Ok(row);
  }
}
