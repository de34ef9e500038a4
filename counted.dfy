/** Counted lists on the wire: a count, then that many items one after the other. The
    parsers read them with a `for (let i = 0; i < count; i++)` loop that pushes each item it
    decodes; `Repeat` is that loop, for any item reader. */
module Counted {

  import opened Bytes
  import opened Wrappers
  import opened Fields

  /** Reads one item at an offset: the item and the offset after it, or the error thrown. */
  type Reader<T> = (seq<byte>, int) -> Result<(T, int)>

  /** `n` more turns of the loop after the items already pushed into `acc`. A count that is
      zero or negative runs no turn. The first error ends the loop. */
  function Repeat<T>(read: Reader<T>, s: seq<byte>, offset: int, n: int, acc: seq<T>)
    : Result<(seq<T>, int)>
    decreases n
  {
    if n <= 0 then Ok((acc, offset))
    else
      var item :- read(s, offset);
      Repeat(read, s, item.1, n - 1, acc + [item.0])
  }

  /** Byte strings sent one after the other. */
  function Flatten(parts: seq<seq<byte>>): seq<byte> {
    if parts == [] then [] else parts[0] + Flatten(parts[1..])
  }

  /** One turn of the loop: the item read is pushed, and the loop goes on from after it. */
  lemma RepeatStep<T>(read: Reader<T>, s: seq<byte>, offset: int, n: int, acc: seq<T>)
    requires n > 0
    ensures read(s, offset).Err? ==> Repeat(read, s, offset, n, acc) == Err(read(s, offset).error)
    ensures read(s, offset).Ok? ==>
              var item := read(s, offset).value;
              Repeat(read, s, offset, n, acc) == Repeat(read, s, item.1, n - 1, acc + [item.0])
  {
  }

  /** `RepeatStep` with the count of the remaining turns named by the caller. */
  lemma RepeatTurn<T>(read: Reader<T>, s: seq<byte>, offset: int, n: int, acc: seq<T>, left: int)
    requires n > 0 && left == n - 1
    ensures read(s, offset).Err? ==> Repeat(read, s, offset, n, acc) == Err(read(s, offset).error)
    ensures read(s, offset).Ok? ==>
              var item := read(s, offset).value;
              Repeat(read, s, offset, n, acc) == Repeat(read, s, item.1, left, acc + [item.0])
  {
  }

  /** Whatever the loop returns extends what was already pushed. */
  lemma {:induction false} RepeatExtends<T>(read: Reader<T>, s: seq<byte>, offset: int, n: int,
                                            acc: seq<T>)
    ensures Repeat(read, s, offset, n, acc).Ok? ==>
              var r := Repeat(read, s, offset, n, acc).value.0;
              |r| == |acc| + (if n <= 0 then 0 else n) && r[..|acc|] == acc
    decreases n
  {
    if n > 0 {
      var item := read(s, offset);
      if item.Ok? {
        RepeatExtends(read, s, item.value.1, n - 1, acc + [item.value.0]);
        var r := Repeat(read, s, offset, n, acc);
        if r.Ok? {
          assert r.value.0[..|acc| + 1][..|acc|] == r.value.0[..|acc|];
        }
      }
    }
  }

  /** A loop whose reader only ever throws `e` only ever throws `e`. */
  lemma {:induction false} RepeatErrorIs<T>(read: Reader<T>, s: seq<byte>, offset: int, n: int,
                                            acc: seq<T>, e: Error)
    requires forall o :: read(s, o).Err? ==> read(s, o).error == e
    ensures Repeat(read, s, offset, n, acc).Err? ==> Repeat(read, s, offset, n, acc).error == e
    decreases n
  {
    if n > 0 {
      var first := read(s, offset);
      if first.Ok? {
        RepeatErrorIs(read, s, first.value.1, n - 1, acc + [first.value.0], e);
      }
    }
  }

  /** When the reader reads back each item from its bytes, the loop reads back the whole list
      sent as those bytes one after the other, in order, and stops right after it. */
  lemma {:induction false} RepeatRoundTrip<T>(read: Reader<T>, s: seq<byte>, offset: int,
                                              items: seq<T>, parts: seq<seq<byte>>, acc: seq<T>)
    requires |parts| == |items|
    requires forall i, o {:trigger At(s, o, parts[i])} :: 0 <= i < |items| && At(s, o, parts[i]) ==>
               read(s, o) == Ok((items[i], o + |parts[i]|))
    requires At(s, offset, Flatten(parts))
    ensures Repeat(read, s, offset, |items|, acc) == Ok((acc + items, offset + |Flatten(parts)|))
    decreases |items|
  {
    if items == [] {
      assert acc + items == acc;
    } else {
      var first, rest := parts[0], Flatten(parts[1..]);
      assert |Flatten(parts)| == |first| + |rest|;
      AtSplit(s, offset, first, rest);
      assert read(s, offset) == Ok((items[0], offset + |first|));
      var next := offset + |first|;
      forall i, o | 0 <= i < |items[1..]| && At(s, o, parts[1..][i])
        ensures read(s, o) == Ok((items[1..][i], o + |parts[1..][i]|))
      {
        assert parts[1..][i] == parts[i + 1];
      }
      RepeatRoundTrip(read, s, next, items[1..], parts[1..], acc + [items[0]]);
      assert acc + [items[0]] + items[1..] == acc + items;
    }
  }

  /** `read` reads back each item from its bytes, wherever in `s` they sit. */
  ghost predicate ReadsEach<T>(read: Reader<T>, s: seq<byte>, items: seq<T>, parts: seq<seq<byte>>) {
    && |parts| == |items|
    && forall i, o {:trigger At(s, o, parts[i])} :: 0 <= i < |items| && At(s, o, parts[i]) ==>
         read(s, o) == Ok((items[i], o + |parts[i]|))
  }

  /** `RepeatRoundTrip` from an empty list, for bytes known to be the parts one after the
      other. */
  lemma RepeatReadsAll<T>(read: Reader<T>, s: seq<byte>, offset: int, items: seq<T>,
                          parts: seq<seq<byte>>, bytes: seq<byte>)
    requires ReadsEach(read, s, items, parts) && bytes == Flatten(parts) && At(s, offset, bytes)
    ensures Repeat(read, s, offset, |items|, []) == Ok((items, offset + |bytes|))
  {
    RepeatRoundTrip(read, s, offset, items, parts, []);
    assert [] + items == items;
  }
}
