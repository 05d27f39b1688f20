/** Serialized bytes and the bounded reader that both asset loaders use. */
module Bytes {

  type Byte = b: int | 0 <= b < 256

  function Word(low: Byte, high: Byte): nat {
    low as int + 256 * (high as int)
  }

  /** A position in a loaded file: reads fail instead of running past the end. */
  class Cursor {
    const data: seq<Byte>
    var pos: nat

    constructor (data: seq<Byte>)
      ensures this.data == data && pos == 0
    {
      this.data := data;
      pos := 0;
    }

    ghost predicate Valid()
      reads this
    {
      pos <= |data|
    }

    method Take(size: nat) returns (ok: bool, bytes: seq<Byte>)
      requires Valid()
      modifies this`pos
      ensures Valid() && (ok <==> size <= |data| - old(pos))
      ensures ok ==> pos == old(pos) + size && bytes == data[old(pos)..pos]
      ensures !ok ==> pos == old(pos)
    {
      if size > |data| - pos {
        return false, [];
      }
      bytes := data[pos..pos + size];
      pos := pos + size;
      ok := true;
    }
  }
}
