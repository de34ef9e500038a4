/** The plain records the commands send and return. Strings are their UTF-8 bytes; the
    64-bit `bigint` fields are unbounded integers. */
module Records {

  import opened Bytes

  /** The two storage classes of a series: fixed 8-byte values, or length-prefixed blobs. */
  const SimpleClass: int := 0
  const BlobClass: int := 1

  /** A retention policy (`Looping`): its kind byte, its literal and its lifetime. */
  datatype Looping = Looping(kind: int, lt: seq<byte>, lifeTime: int)

  /** A database descriptor (`Base`). */
  datatype Base = Base(
    name: seq<byte>,
    path: seq<byte>,
    comment: seq<byte>,
    status: int,
    dataSize: int,
    looping: Looping,
    dbSize: seq<byte>,
    fsType: seq<byte>,
    autoAddSeries: bool,
    autoSave: bool,
    autoSaveDuration: seq<byte>,
    autoSaveInterval: seq<byte>)

  /** `new Base()`: every field at its default. */
  const DefaultBase := Base([], [], [], 0, 0, Looping(0, [], 0), [], [], false, false, [], [])

  /** A series descriptor (`Series`). */
  datatype Series = Series(
    name: seq<byte>,
    kind: int,
    id: int,
    comment: seq<byte>,
    viewTimeMod: int,
    looping: Looping,
    seriesClass: int)

  /** One stored value (`Row`): timestamp, raw value bytes, raw quality bytes. */
  datatype Row = Row(t: int, value: seq<byte>, q: seq<byte>)

  /** One page of a range scan (`RecWitchCP`). */
  datatype Page = Page(recs: seq<Row>, startCP: seq<byte>, endCP: seq<byte>, hasContinuation: bool)

  /** The extent of a series (`Boundary`). */
  datatype Boundary = Boundary(min: int, max: int, rowCount: int, startCP: seq<byte>, endCP: seq<byte>)
}
