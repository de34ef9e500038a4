/** The replies that describe databases and series: `baseGetInfo` (one descriptor),
    `baseGetList` (a counted list of descriptors) and `dataGetBoundary` (the extent of a
    series). */
module Info {

  import opened Bytes
  import opened Wrappers
  import opened NodeBuffer
  import opened Fields
  import opened Records
  import opened Replies
  import opened Counted

  // ---- what the client reads ----

  /** `baseGetInfo`: the status check, then one descriptor decoded into a `new Base()`. */
  function BaseGetInfoReply(s: seq<byte>): (r: Result<Base>)
    ensures r.Ok? ==> |s| >= 5 && s[0] == 0
    ensures |s| >= 5 && s[0] != 0 ==> r.Err?
  {
    var at :- StatusAt(s, Always, "base get info");
    var b :- BaseAt(s, at);
    Ok(b.0)
  }

  /** `baseGetList`: the status check, an int64 count, then that many descriptors. The count
      becomes a JavaScript number and sizes `new Array(count)`, which throws a range error
      for a negative count or one of 2^32 or more. */
  function BaseGetListReply(s: seq<byte>): (r: Result<seq<Base>>)
    ensures r.Ok? ==> |s| >= 13 && s[0] == 0 && |r.value| == FromInt64BE(s[5..13])
    ensures |s| >= 5 && s[0] != 0 ==> r.Err?
  {
    var at :- StatusAt(s, Always, "base get list");
    var count :- ReadBigInt64BE(s, at);
    if count < 0 || count >= 0x1_0000_0000 then Err(OutOfRange)
    else
      RepeatExtends(BaseAt, s, at + 8, count, []);
      var bases :- Repeat(BaseAt, s, at + 8, count, []);
      Ok(bases.0)
  }

  /** `dataGetBoundary`: the status check, then the minimum and maximum timestamps, the row
      count and the start and end checkpoints. */
  function DataGetBoundaryReply(s: seq<byte>): (r: Result<Boundary>)
    ensures r.Ok? ==> |s| >= 5 + 8 + 8 + 8 + 4 && s[0] == 0
    ensures r.Ok? ==> r.value.min == FromInt64BE(s[5..13]) && r.value.max == FromInt64BE(s[13..21])
                      && r.value.rowCount == FromInt64BE(s[21..29])
    ensures |s| >= 5 && s[0] != 0 ==> r.Err?
  {
    var at :- StatusAt(s, Always, "data get boundary");
    BoundaryAt(s, at)
  }

  /** The five fields of a boundary, in the order `dataGetBoundary` reads them. */
  function BoundaryAt(s: seq<byte>, offset: int): Result<Boundary> {
    var min :- Int64Next(s, offset);
    var max :- Int64Next(s, min.1);
    var rowCount :- Int64Next(s, max.1);
    var startCP :- StringAt(s, rowCount.1);
    var endCP :- StringAt(s, startCP.1);
    Ok(Boundary(min.0, max.0, rowCount.0, startCP.0, endCP.0))
  }

  // ---- what the server sends ----

  predicate AllSendable(bases: seq<Base>) {
    forall i :: 0 <= i < |bases| ==> Sendable(bases[i])
  }

  /** How the server sends each of a list of descriptors. */
  function BaseParts(bases: seq<Base>): (r: seq<seq<byte>>)
    requires AllSendable(bases)
    ensures |r| == |bases|
  {
    seq(|bases|, i requires 0 <= i < |bases| => BaseBytes(bases[i]))
  }

  /** What reading each descriptor of a list back gives. */
  function AllReceived(bases: seq<Base>): (r: seq<Base>)
    ensures |r| == |bases|
  {
    seq(|bases|, i requires 0 <= i < |bases| => Received(bases[i]))
  }

  /** How the server sends a list of descriptors: the count, then each descriptor. */
  function ListBytes(bases: seq<Base>): seq<byte>
    requires AllSendable(bases) && |bases| < 0x1_0000_0000
  {
    Int64BE(|bases|) + Flatten(BaseParts(bases))
  }

  predicate BoundarySendable(bd: Boundary) {
    IsInt64(bd.min) && IsInt64(bd.max) && IsInt64(bd.rowCount)
    && IsInt32(|bd.startCP|) && IsInt32(|bd.endCP|)
  }

  /** How the server sends a boundary. */
  function BoundaryBytes(bd: Boundary): seq<byte>
    requires BoundarySendable(bd)
  {
    Int64BE(bd.min) + (Int64BE(bd.max) + (Int64BE(bd.rowCount)
      + ((Int32BE(|bd.startCP|) + bd.startCP) + (Int32BE(|bd.endCP|) + bd.endCP))))
  }

  // ---- round trips ----

  /** `baseGetInfo` returns the descriptor the server sent, with the fields it does not send
      at their defaults. */
  lemma BaseGetInfoRoundTrip(s: seq<byte>, length: int, b: Base)
    requires IsInt32(length) && Sendable(b) && s == Header(Always, length) + BaseBytes(b)
    ensures BaseGetInfoReply(s) == Ok(Received(b))
  {
    HeaderThen(s, Always, "base get info", length, BaseBytes(b));
    BaseRoundTrip(s, 5, b);
  }

  /** `read` reads back every descriptor the server can send, wherever in `s` it sits. */
  ghost predicate ReadsBases(read: Reader<Base>, s: seq<byte>) {
    forall b, o {:trigger read(s, o), Sendable(b)} :: Sendable(b) && At(s, o, BaseBytes(b)) ==>
      read(s, o) == Ok((Received(b), o + |BaseBytes(b)|))
  }

  /** `decodeBase` reads back every descriptor the server can send. */
  lemma BaseAtReadsBases(s: seq<byte>)
    ensures ReadsBases(BaseAt, s)
  {
    forall b, o | Sendable(b) && At(s, o, BaseBytes(b))
      ensures BaseAt(s, o) == Ok((Received(b), o + |BaseBytes(b)|))
    {
      BaseRoundTrip(s, o, b);
    }
  }

  /** A reader of descriptors reads back each descriptor of a list sent. */
  lemma BaseReaderReadsBack(read: Reader<Base>, s: seq<byte>, bases: seq<Base>)
    requires ReadsBases(read, s) && AllSendable(bases)
    ensures ReadsEach(read, s, AllReceived(bases), BaseParts(bases))
  {
    var parts, received := BaseParts(bases), AllReceived(bases);
    forall i, o | 0 <= i < |received| && At(s, o, parts[i])
      ensures read(s, o) == Ok((received[i], o + |parts[i]|))
    {
      assert parts[i] == BaseBytes(bases[i]);
    }
  }

  /** A list sent after the header: the count and the descriptors that follow it. */
  lemma ListSplit(s: seq<byte>, length: int, bases: seq<Base>)
    requires IsInt32(length) && AllSendable(bases) && |bases| < 0x1_0000_0000
    requires s == Header(Always, length) + ListBytes(bases)
    ensures StatusAt(s, Always, "base get list") == Ok(5)
    ensures ReadBigInt64BE(s, 5) == Ok(|bases|)
    ensures At(s, 13, Flatten(BaseParts(bases)))
  {
    var rest := Flatten(BaseParts(bases));
    HeaderThen(s, Always, "base get list", length, ListBytes(bases));
    assert ListBytes(bases) == Int64BE(|bases|) + rest;
    Int64Then(s, 5, |bases|, rest);
  }

  /** `baseGetList` returns every descriptor the server sent, in order, each with the fields
      it does not send at their defaults. */
  lemma BaseGetListRoundTrip(s: seq<byte>, length: int, bases: seq<Base>)
    requires IsInt32(length) && AllSendable(bases) && |bases| < 0x1_0000_0000
    requires s == Header(Always, length) + ListBytes(bases)
    ensures BaseGetListReply(s) == Ok(AllReceived(bases))
  {
    ListSplit(s, length, bases);
    BaseAtReadsBases(s);
    BaseReaderReadsBack(BaseAt, s, bases);
    var rest := Flatten(BaseParts(bases));
    RepeatReadsAll(BaseAt, s, 13, AllReceived(bases), BaseParts(bases), rest);
    ListFromParts(s, AllReceived(bases), 13 + |rest|);
  }

  /** `baseGetList` returns the list its loop reads. */
  lemma ListFromParts(s: seq<byte>, bases: seq<Base>, end: int)
    requires StatusAt(s, Always, "base get list") == Ok(5)
    requires ReadBigInt64BE(s, 5) == Ok(|bases|) && |bases| < 0x1_0000_0000
    requires Repeat(BaseAt, s, 13, |bases|, []) == Ok((bases, end))
    ensures BaseGetListReply(s) == Ok(bases)
  {
  }

  /** A count `new Array` refuses throws its range error before any descriptor is read, and
      a count of zero returns an empty list whatever follows it. */
  lemma BaseGetListCount(s: seq<byte>)
    requires StatusAt(s, Always, "base get list") == Ok(5) && ReadBigInt64BE(s, 5).Ok?
    ensures var count := ReadBigInt64BE(s, 5).value;
            && (count < 0 || count >= 0x1_0000_0000 ==> BaseGetListReply(s) == Err(OutOfRange))
            && (count == 0 ==> BaseGetListReply(s) == Ok([]))
  {
  }

  /** Once the status check passes, the only thing `baseGetList` can throw is a range error:
      from a reply cut short, or from the array size. */
  lemma BaseGetListFailsInRange(s: seq<byte>)
    requires StatusAt(s, Always, "base get list") == Ok(5)
    ensures BaseGetListReply(s).Err? ==> BaseGetListReply(s) == Err(OutOfRange)
  {
    var count := ReadBigInt64BE(s, 5);
    if count.Ok? {
      forall o | BaseAt(s, o).Err?
        ensures BaseAt(s, o).error == OutOfRange
      {
        BaseAtError(s, o);
      }
      RepeatErrorIs(BaseAt, s, 13, count.value, [], OutOfRange);
    }
  }

  /** Any error a descriptor read throws is Node's range error. */
  lemma BaseAtError(s: seq<byte>, offset: int)
    ensures BaseAt(s, offset).Err? ==> BaseAt(s, offset) == Err(OutOfRange)
  {
  }

  /** The fields of a boundary read back from the bytes the server sent. */
  lemma BoundaryReads(s: seq<byte>, offset: int, bd: Boundary)
    requires BoundarySendable(bd) && At(s, offset, BoundaryBytes(bd))
    ensures ReadBigInt64BE(s, offset) == Ok(bd.min)
    ensures ReadBigInt64BE(s, offset + 8) == Ok(bd.max)
    ensures ReadBigInt64BE(s, offset + 16) == Ok(bd.rowCount)
    ensures StringAt(s, offset + 24) == Ok((bd.startCP, offset + 24 + 4 + |bd.startCP|))
    ensures StringAt(s, offset + 24 + 4 + |bd.startCP|).Ok?
    ensures StringAt(s, offset + 24 + 4 + |bd.startCP|).value.0 == bd.endCP
  {
    var cps := (Int32BE(|bd.startCP|) + bd.startCP) + (Int32BE(|bd.endCP|) + bd.endCP);
    BoundaryCountsRead(s, offset, bd, cps);
    TwoTextsRead(s, offset + 24, bd.startCP, bd.endCP);
  }

  /** Two length-prefixed strings, one after the other, read back one after the other. */
  lemma TwoTextsRead(s: seq<byte>, offset: int, x: seq<byte>, y: seq<byte>)
    requires IsInt32(|x|) && IsInt32(|y|)
    requires At(s, offset, (Int32BE(|x|) + x) + (Int32BE(|y|) + y))
    ensures StringAt(s, offset) == Ok((x, offset + 4 + |x|))
    ensures StringAt(s, offset + 4 + |x|).Ok?
    ensures StringAt(s, offset + 4 + |x|).value.0 == y
  {
    assert (Int32BE(|y|) + y) + [] == Int32BE(|y|) + y;
    TwoTextsThen(s, offset, x, y, []);
  }

  /** The three 64-bit integers at the head of a boundary, and the checkpoints after them. */
  lemma BoundaryCountsRead(s: seq<byte>, offset: int, bd: Boundary, cps: seq<byte>)
    requires IsInt64(bd.min) && IsInt64(bd.max) && IsInt64(bd.rowCount)
    requires At(s, offset, Int64BE(bd.min) + (Int64BE(bd.max) + (Int64BE(bd.rowCount) + cps)))
    ensures ReadBigInt64BE(s, offset) == Ok(bd.min)
    ensures ReadBigInt64BE(s, offset + 8) == Ok(bd.max)
    ensures ReadBigInt64BE(s, offset + 16) == Ok(bd.rowCount)
    ensures At(s, offset + 24, cps)
  {
    var c := Int64BE(bd.rowCount) + cps;
    Int64Then(s, offset, bd.min, Int64BE(bd.max) + c);
    Int64Then(s, offset + 8, bd.max, c);
    assert At(s, offset + 16, c);
    Int64Then(s, offset + 16, bd.rowCount, cps);
  }

  /** `dataGetBoundary` returns the boundary the server sent. */
  lemma DataGetBoundaryRoundTrip(s: seq<byte>, length: int, bd: Boundary)
    requires IsInt32(length) && BoundarySendable(bd)
    requires s == Header(Always, length) + BoundaryBytes(bd)
    ensures DataGetBoundaryReply(s) == Ok(bd)
  {
    HeaderThen(s, Always, "data get boundary", length, BoundaryBytes(bd));
    BoundaryReads(s, 5, bd);
  }
}
