/** The read cursor: a position over an immutable byte buffer. */
module ReadonlyCursor {
  import opened Bytes
  import opened Errors

  /** What `read_bytes(n)` at `pos` returns: `Buffer.alloc(n)` filled by `data.copy(buffer, 0, pos, pos + n)`. */
  function BytesRead(data: seq<byte>, pos: nat, n: int): (r: Result<seq<byte>>)
    ensures n < 0 ==> r == Err(InvalidSize)
    ensures n >= 0 && pos <= |data| ==> r.Ok? && |r.value| == n
    ensures n >= 0 && pos + n <= |data| ==> r == Ok(data[pos..pos + n])
    ensures n >= 0 && pos <= |data| < pos + n ==> r == Ok(data[pos..] + Zeros(pos + n - |data|))
    ensures n > 0 && pos > |data| ==> r == Err(SourceStartOutOfRange)
  {
    if n < 0 then Err(InvalidSize)
    else
      var r := CopyBytes(data, Zeros(n), 0, pos, pos + n);
      assert n >= 0 && pos + n <= |data| ==> r == Ok(data[pos..pos + n]) by {
        if n >= 0 && pos + n <= |data| {
          assert r.value == data[pos..pos + n];
        }
      }
      assert n >= 0 && pos <= |data| < pos + n ==> r == Ok(data[pos..] + Zeros(pos + n - |data|)) by {
        if n >= 0 && pos <= |data| < pos + n {
          assert r.value == data[pos..] + Zeros(pos + n - |data|);
        }
      }
      r
  }

  /** The checks of `read_uint_be/le(size)`: `require_bytes`, then Node's byteLength range. */
  function UintReadCheck(size: int, pos: nat, length: nat): (r: Outcome)
    ensures r.Ok? <==> pos + size <= length && 1 <= size <= 6
  {
    if length < pos + size then Err(NotEnoughBytes)
    else if size < 1 || size > 6 then Err(ByteLengthOutOfRange)
    else Ok(())
  }

  class ReadonlyBufferCursor {
    var data: seq<byte>
    var position: nat

    constructor (data: seq<byte>)
      ensures this.data == data && position == 0
    {
      this.data := data;
      position := 0;
    }

    /** `remaining`: negative once the position has run past the end. */
    function Remaining(): (n: int)
      reads this
      ensures position + n == |data|
      ensures n >= 0 <==> position <= |data|
    {
      |data| - position
    }

    /** `read()`: no bounds check; past the end it yields `undefined`. */
    method Read() returns (b: Option<byte>)
      modifies this
      ensures data == old(data) && position == old(position) + 1
      ensures b == if old(position) < |data| then Some(data[old(position)]) else None
    {
      b := if position < |data| then Some(data[position]) else None;
      position := position + 1;
    }

    /** `read_bytes(n)`: always `n` bytes, zero-padded past the end, and the position advances by `n`. */
    method ReadBytes(n: int) returns (r: Result<seq<byte>>)
      modifies this
      ensures data == old(data)
      ensures r == BytesRead(data, old(position), n)
      ensures position == if r.Ok? then old(position) + n else old(position)
    {
      r := BytesRead(data, position, n);
      if r.Ok? {
        position := position + n;
      }
    }

    /** `read_bytes()` with its default argument: everything that remains. */
    method ReadRest() returns (r: Result<seq<byte>>)
      modifies this
      ensures data == old(data)
      ensures r == BytesRead(data, old(position), old(Remaining()))
      ensures old(position) <= |data| ==> r == Ok(data[old(position)..]) && Remaining() == 0
      ensures r.Err? ==> position == old(position)
    {
      assert position <= |data| ==> data[position..position + Remaining()] == data[position..];
      r := ReadBytes(Remaining());
    }

    /** `read_uint_be(size)`: the big-endian value of the next `size` bytes. */
    method ReadUintBE(size: int) returns (r: Result<nat>)
      modifies this
      ensures data == old(data)
      ensures r.Err? <==> UintReadCheck(size, old(position), |data|).Err?
      ensures r.Err? ==> r == Err(UintReadCheck(size, old(position), |data|).error) && position == old(position)
      ensures r.Ok? ==> position == old(position) + size && r.value == FromBigEndian(data[old(position)..position])
    {
      var check := UintReadCheck(size, position, |data|);
      if check.Err? {
        return Err(check.error);
      }
      r := Ok(FromBigEndian(data[position..position + size]));
      position := position + size;
    }

    /** `read_uint_le(size)`: the little-endian value of the next `size` bytes. */
    method ReadUintLE(size: int) returns (r: Result<nat>)
      modifies this
      ensures data == old(data)
      ensures r.Err? <==> UintReadCheck(size, old(position), |data|).Err?
      ensures r.Err? ==> r == Err(UintReadCheck(size, old(position), |data|).error) && position == old(position)
      ensures r.Ok? ==> position == old(position) + size && r.value == FromLittleEndian(data[old(position)..position])
    {
      var check := UintReadCheck(size, position, |data|);
      if check.Err? {
        return Err(check.error);
      }
      r := Ok(FromLittleEndian(data[position..position + size]));
      position := position + size;
    }

    /** `resize(start, end)`: narrow the buffer to a slice when the bounds allow it; the position stays. */
    method Resize(start: int, end: int) returns (ok: bool)
      modifies this
      ensures ok == (start >= 0 && end <= old(|data|))
      ensures data == if ok then Subarray(old(data), start, end) else old(data)
      ensures position == old(position)
    {
      if start >= 0 && end <= |data| {
        data := Subarray(data, start, end);
        return true;
      }
      return false;
    }
  }
}
