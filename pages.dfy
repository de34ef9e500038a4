/** The replies that carry stored rows: one row for `dataGetValueAtTime`, and a page of rows
    for the range scans `dataGetRangeDirection`, `dataGetFromCP` and `dataGetRangeFromCP`.
    A row is its timestamp, its value (8 raw bytes for the simple class, a length-prefixed
    string for the blob class) and 4 raw quality bytes. */
module Pages {

  import opened Bytes
  import opened Wrappers
  import opened NodeBuffer
  import opened Fields
  import opened Records
  import opened Replies
  import opened Counted

  // ---- what the client reads ----

  /** One row at `offset`, read for a series of class `cl`: the timestamp, then the value,
      then the quality. The timestamp is read before the class is looked at, so a short reply
      fails with Node's range error before an unknown class fails with `invalid`. The raw
      reads clamp at the end of the reply, as `subarray` does. */
  function RowAt(s: seq<byte>, offset: int, cl: int, invalid: Error): Result<(Row, int)> {
    var t :- Int64Next(s, offset);
    if cl == SimpleClass then
      var v := SliceNext(s, t.1, 8);
      var q := SliceNext(s, v.1, 4);
      Ok((Row(t.0, v.0, q.0), q.1))
    else if cl == BlobClass then
      var v :- StringAt(s, t.1);
      var q := SliceNext(s, v.1, 4);
      Ok((Row(t.0, v.0, q.0), q.1))
    else
      Err(invalid)
  }

  /** Reads one row after another, as the row loop of a page does. */
  function RowReader(cl: int, invalid: Error): Reader<Row> {
    (s, offset) => RowAt(s, offset, cl, invalid)
  }

  /** A page at `offset`: the start and end checkpoints, the continuation flag, the row count
      and the rows. */
  function PageAt(s: seq<byte>, offset: int, readRow: Reader<Row>): Result<Page> {
    var startCP :- StringAt(s, offset);
    var endCP :- StringAt(s, startCP.1);
    var more :- BoolNext(s, endCP.1);
    var count :- Int64Next(s, more.1);
    var recs :- Repeat(readRow, s, count.1, count.0, []);
    Ok(Page(recs.0, startCP.0, endCP.0, more.0))
  }

  /** The reply of a range scan named `command` ("data get range direction",
      "data get from CP" or "data get range from CP"): the status check with the length
      always read, then a page. */
  function PageReply(s: seq<byte>, cl: int, command: string): (r: Result<Page>)
    ensures r.Ok? ==> |s| >= 5 && s[0] == 0
    ensures |s| >= 5 && s[0] != 0 ==> r.Err?
    ensures r.Ok? && r.value.recs != [] ==> cl == SimpleClass || cl == BlobClass
  {
    var at :- StatusAt(s, Always, command);
    PageAt(s, at, RowReader(cl, InvalidClass(command)))
  }

  /** The error a range scan throws for a class it does not know. */
  function InvalidClass(command: string): Error {
    Message(command + " error: invalid class", [])
  }

  /** The reply of `dataGetValueAtTime`: the status check with the length read only on
      failure, then one row. The unknown-class message names the class. */
  function ValueAtTimeReply(s: seq<byte>, cl: int): (r: Result<Row>)
    ensures r.Ok? ==> |s| >= 1 + 8 && s[0] == 0 && (cl == SimpleClass || cl == BlobClass)
    ensures |s| >= 1 && s[0] != 0 ==> r.Err?
  {
    var at :- StatusAt(s, OnFailure, "data get value at time");
    var row :- RowAt(s, at, cl, Message("data get value at time error: invalid class " + Decimal(cl), []));
    Ok(row.0)
  }

  /** A number as JavaScript's template literals print an integer. */
  function Decimal(n: int): string {
    if n < 0 then "-" + Digits(-n) else Digits(n)
  }

  function Digits(n: nat): string
    decreases n
  {
    if n < 10 then [DigitChar(n)] else Digits(n / 10) + [DigitChar(n % 10)]
  }

  function DigitChar(d: nat): char
    requires d < 10
  {
    "0123456789"[d]
  }

  // ---- what the server sends ----

  /** The rows a series of class `cl` can hold on the wire: an int64 timestamp, 4 quality
      bytes, and a value of 8 bytes (simple class) or of an int32 length (blob class). */
  predicate RowSendable(cl: int, r: Row) {
    && (cl == SimpleClass || cl == BlobClass)
    && IsInt64(r.t) && |r.q| == 4
    && (cl == SimpleClass ==> |r.value| == 8)
    && (cl == BlobClass ==> IsInt32(|r.value|))
  }

  predicate AllRowsSendable(cl: int, rows: seq<Row>) {
    forall i {:trigger RowSendable(cl, rows[i])} :: 0 <= i < |rows| ==> RowSendable(cl, rows[i])
  }

  /** How the server sends a row's value: 8 raw bytes, or a length-prefixed string. */
  function ValueBytes(cl: int, value: seq<byte>): seq<byte>
    requires cl != SimpleClass ==> IsInt32(|value|)
  {
    if cl == SimpleClass then value else Int32BE(|value|) + value
  }

  /** How the server sends a row. */
  function RowBytes(cl: int, r: Row): seq<byte>
    requires RowSendable(cl, r)
  {
    Int64BE(r.t) + (ValueBytes(cl, r.value) + r.q)
  }

  /** How the server sends each of a list of rows. */
  function RowParts(cl: int, rows: seq<Row>): (r: seq<seq<byte>>)
    requires AllRowsSendable(cl, rows)
    ensures |r| == |rows|
  {
    seq(|rows|, i requires 0 <= i < |rows| => RowBytes(cl, rows[i]))
  }

  /** How the server sends rows, one after the other. */
  function RowsBytes(cl: int, rows: seq<Row>): seq<byte>
    requires AllRowsSendable(cl, rows)
  {
    Flatten(RowParts(cl, rows))
  }

  predicate PageSendable(cl: int, p: Page) {
    && IsInt32(|p.startCP|) && IsInt32(|p.endCP|) && IsInt64(|p.recs|)
    && AllRowsSendable(cl, p.recs)
  }

  /** How the server sends what precedes the rows of a page: the two checkpoints, the
      continuation flag and the row count. */
  function PageHeadBytes(startCP: seq<byte>, endCP: seq<byte>, more: bool, count: int)
    : (r: seq<byte>)
    requires IsInt32(|startCP|) && IsInt32(|endCP|) && IsInt64(count)
    ensures |r| == 17 + |startCP| + |endCP|
  {
    (Int32BE(|startCP|) + startCP) + ((Int32BE(|endCP|) + endCP) + ([if more then 1 else 0]
      + Int64BE(count)))
  }

  /** How the server sends a page. */
  function PageBytes(cl: int, p: Page): seq<byte>
    requires PageSendable(cl, p)
  {
    PageHeadBytes(p.startCP, p.endCP, p.hasContinuation, |p.recs|) + RowsBytes(cl, p.recs)
  }

  // ---- round trips ----

  /** The three parts of a simple-class row read back from the bytes the server sent. */
  lemma SimpleRowReads(s: seq<byte>, offset: int, t: int, value: seq<byte>, q: seq<byte>)
    requires IsInt64(t) && At(s, offset, Int64BE(t) + (value + q))
    ensures ReadBigInt64BE(s, offset) == Ok(t)
    ensures Subarray(s, offset + 8, offset + 8 + |value|) == value
    ensures Subarray(s, offset + 8 + |value|, offset + 8 + |value| + |q|) == q
  {
    Int64Then(s, offset, t, value + q);
    RawThen(s, offset + 8, value, q);
    assert q + [] == q;
    RawThen(s, offset + 8 + |value|, q, []);
  }

  /** The three parts of a blob-class row read back from the bytes the server sent. */
  lemma BlobRowReads(s: seq<byte>, offset: int, t: int, value: seq<byte>, q: seq<byte>)
    requires IsInt64(t) && IsInt32(|value|)
    requires At(s, offset, Int64BE(t) + ((Int32BE(|value|) + value) + q))
    ensures ReadBigInt64BE(s, offset) == Ok(t)
    ensures StringAt(s, offset + 8) == Ok((value, offset + 12 + |value|))
    ensures Subarray(s, offset + 12 + |value|, offset + 12 + |value| + |q|) == q
  {
    Int64Then(s, offset, t, (Int32BE(|value|) + value) + q);
    TextThen(s, offset + 8, value, q);
    assert q + [] == q;
    RawThen(s, offset + 12 + |value|, q, []);
  }

  /** A row is read back as sent, and the reader stops right after it. */
  lemma RowRoundTrip(s: seq<byte>, offset: int, cl: int, r: Row, invalid: Error)
    requires RowSendable(cl, r) && At(s, offset, RowBytes(cl, r))
    ensures RowAt(s, offset, cl, invalid) == Ok((r, offset + |RowBytes(cl, r)|))
  {
    if cl == SimpleClass {
      SimpleRowReads(s, offset, r.t, r.value, r.q);
    } else {
      BlobRowReads(s, offset, r.t, r.value, r.q);
    }
  }

  /** `read` reads back every row of class `cl` the server can send, wherever in `s` it
      sits. */
  ghost predicate ReadsRows(read: Reader<Row>, s: seq<byte>, cl: int) {
    forall r, o {:trigger read(s, o), RowSendable(cl, r)} :: RowSendable(cl, r) && At(s, o, RowBytes(cl, r)) ==>
      read(s, o) == Ok((r, o + |RowBytes(cl, r)|))
  }

  /** The row loop's reader reads back every row the server can send. */
  lemma RowReaderReadsRows(s: seq<byte>, cl: int, invalid: Error)
    ensures ReadsRows(RowReader(cl, invalid), s, cl)
  {
    forall r, o | RowSendable(cl, r) && At(s, o, RowBytes(cl, r))
      ensures RowReader(cl, invalid)(s, o) == Ok((r, o + |RowBytes(cl, r)|))
    {
      RowReaderRoundTrip(s, o, cl, r, invalid);
    }
  }

  /** A reader of rows reads back each row of a list sent. */
  lemma RowsReadBack(read: Reader<Row>, s: seq<byte>, cl: int, rows: seq<Row>)
    requires ReadsRows(read, s, cl) && AllRowsSendable(cl, rows)
    ensures ReadsEach(read, s, rows, RowParts(cl, rows))
  {
    var parts := RowParts(cl, rows);
    forall i, o | 0 <= i < |rows| && At(s, o, parts[i])
      ensures read(s, o) == Ok((rows[i], o + |parts[i]|))
    {
      assert RowSendable(cl, rows[i]) && parts[i] == RowBytes(cl, rows[i]);
    }
  }

  /** `RowRoundTrip` through the row reader. */
  lemma RowReaderRoundTrip(s: seq<byte>, offset: int, cl: int, r: Row, invalid: Error)
    requires RowSendable(cl, r) && At(s, offset, RowBytes(cl, r))
    ensures RowReader(cl, invalid)(s, offset) == Ok((r, offset + |RowBytes(cl, r)|))
  {
    RowRoundTrip(s, offset, cl, r, invalid);
    assert RowReader(cl, invalid)(s, offset) == RowAt(s, offset, cl, invalid);
  }

  /** What precedes the rows of a page is read back as sent. */
  lemma PageHeadReads(s: seq<byte>, offset: int, startCP: seq<byte>, endCP: seq<byte>,
                      more: bool, count: int)
    requires IsInt32(|startCP|) && IsInt32(|endCP|) && IsInt64(count)
    requires At(s, offset, PageHeadBytes(startCP, endCP, more, count))
    ensures StringAt(s, offset) == Ok((startCP, offset + 4 + |startCP|))
    ensures StringAt(s, offset + 4 + |startCP|) == Ok((endCP, offset + 8 + |startCP| + |endCP|))
    ensures BoolAt(s, offset + 8 + |startCP| + |endCP|) == Ok(more)
    ensures ReadBigInt64BE(s, offset + 9 + |startCP| + |endCP|) == Ok(count)
  {
    TwoTextsThen(s, offset, startCP, endCP, [if more then 1 else 0] + Int64BE(count));
    FlagCountReads(s, offset, startCP, endCP, more, count);
  }

  /** The continuation flag and the row count, right after the two checkpoints. */
  lemma FlagCountReads(s: seq<byte>, offset: int, startCP: seq<byte>, endCP: seq<byte>,
                       more: bool, count: int)
    requires IsInt64(count)
    requires At(s, offset + 8 + |startCP| + |endCP|, [if more then 1 else 0] + Int64BE(count))
    ensures BoolAt(s, offset + 8 + |startCP| + |endCP|) == Ok(more)
    ensures ReadBigInt64BE(s, offset + 9 + |startCP| + |endCP|) == Ok(count)
  {
    var d := Int64BE(count);
    BoolThen(s, offset + 8 + |startCP| + |endCP|, more, d);
    assert d + [] == d;
    assert At(s, offset + 9 + |startCP| + |endCP|, d + []);
    Int64Then(s, offset + 9 + |startCP| + |endCP|, count, []);
  }

  /** The bytes of a page: what precedes the rows, then each row in turn. */
  lemma PageSplit(s: seq<byte>, offset: int, cl: int, p: Page)
    requires PageSendable(cl, p) && At(s, offset, PageBytes(cl, p))
    ensures At(s, offset, PageHeadBytes(p.startCP, p.endCP, p.hasContinuation, |p.recs|))
    ensures At(s, offset + 17 + |p.startCP| + |p.endCP|, Flatten(RowParts(cl, p.recs)))
  {
    var head := PageHeadBytes(p.startCP, p.endCP, p.hasContinuation, |p.recs|);
    var rows := RowsBytes(cl, p.recs);
    assert PageBytes(cl, p) == head + rows;
    AtSplit(s, offset, head, rows);
  }

  /** A page is read back as sent, by a row reader that reads back each of its rows: both
      checkpoints, the flag, and exactly its rows. */
  lemma PageRoundTrip(s: seq<byte>, offset: int, cl: int, p: Page, readRow: Reader<Row>)
    requires PageSendable(cl, p) && ReadsEach(readRow, s, p.recs, RowParts(cl, p.recs))
    requires At(s, offset, PageBytes(cl, p))
    ensures PageAt(s, offset, readRow) == Ok(p)
  {
    PageSplit(s, offset, cl, p);
    var at := offset + 17 + |p.startCP| + |p.endCP|;
    var rows := Flatten(RowParts(cl, p.recs));
    RepeatReadsAll(readRow, s, at, p.recs, RowParts(cl, p.recs), rows);
    PageFromHead(s, offset, readRow, p, at + |rows|);
  }

  /** `PageAt` returns the page whose head is sent at `offset` and whose rows the row loop
      reads right after it. */
  lemma PageFromHead(s: seq<byte>, offset: int, readRow: Reader<Row>, p: Page, end: int)
    requires IsInt32(|p.startCP|) && IsInt32(|p.endCP|) && IsInt64(|p.recs|)
    requires At(s, offset, PageHeadBytes(p.startCP, p.endCP, p.hasContinuation, |p.recs|))
    requires Repeat(readRow, s, offset + 17 + |p.startCP| + |p.endCP|, |p.recs|, [])
          == Ok((p.recs, end))
    ensures PageAt(s, offset, readRow) == Ok(p)
  {
    PageHeadReads(s, offset, p.startCP, p.endCP, p.hasContinuation, |p.recs|);
    PageFromParts(s, offset, readRow, p, end);
  }

  /** `PageAt` returns the page whose parts it reads, in order. */
  lemma PageFromParts(s: seq<byte>, offset: int, readRow: Reader<Row>, p: Page, end: int)
    requires StringAt(s, offset) == Ok((p.startCP, offset + 4 + |p.startCP|))
    requires StringAt(s, offset + 4 + |p.startCP|)
          == Ok((p.endCP, offset + 8 + |p.startCP| + |p.endCP|))
    requires BoolAt(s, offset + 8 + |p.startCP| + |p.endCP|) == Ok(p.hasContinuation)
    requires ReadBigInt64BE(s, offset + 9 + |p.startCP| + |p.endCP|) == Ok(|p.recs|)
    requires Repeat(readRow, s, offset + 17 + |p.startCP| + |p.endCP|, |p.recs|, [])
          == Ok((p.recs, end))
    ensures PageAt(s, offset, readRow) == Ok(p)
  {
  }

  /** A range scan for a class it does not know: what it throws is Node's range error or
      `invalid`, and a page it returns holds no rows. The class is only looked at once a row
      is read. */
  lemma UnknownClassFailsOnRows(s: seq<byte>, offset: int, cl: int, invalid: Error)
    requires cl != SimpleClass && cl != BlobClass
    ensures var p := PageAt(s, offset, RowReader(cl, invalid));
            && (p.Ok? ==> p.value.recs == [])
            && (p.Err? ==> p.error == OutOfRange || p.error == invalid)
  {
    var read := RowReader(cl, invalid);
    var startCP := StringAt(s, offset);
    if startCP.Ok? {
      var endCP := StringAt(s, startCP.value.1);
      if endCP.Ok? {
        var more := BoolNext(s, endCP.value.1);
        if more.Ok? {
          var count := Int64Next(s, more.value.1);
          if count.Ok? && count.value.0 > 0 {
            RepeatStep(read, s, count.value.1, count.value.0, []);
          }
        }
      }
    }
  }

  /** A page without rows reads the same whatever the class: a count of zero (or less) runs
      no turn of the row loop, so an unknown class throws nothing. */
  lemma EmptyPageIgnoresClass(s: seq<byte>, offset: int, cl: int, invalid: Error, other: int,
                              otherInvalid: Error)
    requires PageAt(s, offset, RowReader(cl, invalid)).Ok?
    requires PageAt(s, offset, RowReader(cl, invalid)).value.recs == []
    ensures PageAt(s, offset, RowReader(other, otherInvalid)) == PageAt(s, offset, RowReader(cl, invalid))
  {
    var startCP := StringAt(s, offset).value;
    var endCP := StringAt(s, startCP.1).value;
    var more := BoolNext(s, endCP.1).value;
    var count := Int64Next(s, more.1).value;
    RepeatExtends(RowReader(cl, invalid), s, count.1, count.0, []);
  }

  /** Every range scan returns the page the server sent. */
  lemma PageReplyRoundTrip(s: seq<byte>, cl: int, command: string, length: int, p: Page)
    requires IsInt32(length) && PageSendable(cl, p)
    requires s == Header(Always, length) + PageBytes(cl, p)
    ensures PageReply(s, cl, command) == Ok(p)
  {
    HeaderThen(s, Always, command, length, PageBytes(cl, p));
    RowReaderReadsRows(s, cl, InvalidClass(command));
    RowsReadBack(RowReader(cl, InvalidClass(command)), s, cl, p.recs);
    PageRoundTrip(s, 5, cl, p, RowReader(cl, InvalidClass(command)));
  }

  /** `dataGetValueAtTime` returns the row the server sent. */
  lemma ValueAtTimeRoundTrip(s: seq<byte>, cl: int, r: Row)
    requires RowSendable(cl, r) && s == Header(OnFailure, 0) + RowBytes(cl, r)
    ensures ValueAtTimeReply(s, cl) == Ok(r)
  {
    HeaderThen(s, OnFailure, "data get value at time", 0, RowBytes(cl, r));
    RowRoundTrip(s, 1, cl, r, Message("data get value at time error: invalid class " + Decimal(cl), []));
  }
}
