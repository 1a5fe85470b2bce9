/**
 * `Array<T, max_size>`: a fixed buffer of `max_size` slots and a count of
 * the ones in use. `push` stores into the next free slot; on a full buffer
 * the source's `assert` stops the program, which the model reports as a
 * refused push.
 */
module Containers {

  class Array<T(0)> {
    var data: array<T>
    var size: nat

    ghost predicate Valid()
      reads this
    {
      size <= data.Length
    }

    /** The elements pushed so far, oldest first. */
    function Contents(): seq<T>
      reads this, data
      requires Valid()
    {
      data[..size]
    }

    constructor (maxSize: nat)
      ensures Valid() && fresh(data) && data.Length == maxSize && Contents() == []
    {
      data := new T[maxSize];
      size := 0;
    }

    /** `push`: appends when a slot is free; a full buffer is left as it
        was and `ok` is false. */
    method Push(x: T) returns (ok: bool)
      requires Valid()
      modifies this`size, data
      ensures Valid() && data == old(data)
      ensures ok <==> old(size) < data.Length
      ensures Contents() == if ok then old(Contents()) + [x] else old(Contents())
    {
      ok := size < data.Length;
      if ok {
        data[size] := x;
        size := size + 1;
      }
    }

    /** `operator[]`, for an index below the count. */
    method Get(i: nat) returns (x: T)
      requires Valid() && i < size
      ensures x == Contents()[i]
    {
      x := data[i];
    }
  }
}
