/** Failure-compatible result type shared by every decoding and encoding step.
    Each `Err` stands for an exception the library (or Node's Buffer) throws. */
module Wrappers {

  import opened Bytes

  /** What a failing step throws.
      - OutOfRange: Node's checked reads and writes (ERR_OUT_OF_RANGE, ERR_BUFFER_OUT_OF_BOUNDS)
        and `new Array(n)` with an invalid length (RangeError).
      - InvalidArgType: `Buffer.byteLength` given something that is neither a string nor a
        binary view (a Buffer, another typed array, a `DataView` or an `ArrayBuffer`).
      - Message: `new Error(text + detail)`, where `detail` is the message decoded from the
        server's reply (empty when the library builds the whole text itself). */
  datatype Error =
    | OutOfRange
    | InvalidArgType
    | Message(text: string, detail: seq<byte>)

  datatype Result<+T> = Ok(value: T) | Err(error: Error) {

    predicate IsFailure() {
      Err?
    }

    function PropagateFailure<U>(): Result<U>
      requires Err?
    {
      Err(error)
    }

    function Extract(): T
      requires Ok?
    {
      value
    }
  }

  /** Pairs a decoded value with the decoder position after it; failures pass through. */
  function WithOffset<T>(r: Result<T>, next: int): Result<(T, int)>
  {
    match r
    case Ok(v) => Ok((v, next))
    case Err(e) => Err(e)
  }

  /** A read result is the pair its components say it is. Stated on the pair, so that an
      offset worked out one way can stand for the same offset worked out another way. */
  lemma ReadIs<T>(r: Result<(T, int)>, p: (T, int))
    requires r.Ok? && r.value.0 == p.0 && r.value.1 == p.1
    ensures r == Ok(p)
  {
  }
}
