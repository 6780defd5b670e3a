/** The write cursor: a position over a zero-initialised byte buffer that can be reset and resized. */
module MutableCursor {
  import opened Bytes
  import opened Errors

  /** The checks of Node's `writeUIntBE/LE(value, offset, width)`, in its order: the value range, then the bounds. */
  function UintCheck(value: int, width: nat, offset: nat, length: nat): (r: Outcome)
    ensures r.Ok? <==> 0 <= value < Pow256(width) && offset + width <= length
  {
    if value < 0 || value >= Pow256(width) then Err(ValueOutOfRange)
    else if offset + width > length then Err(OffsetOutOfRange)
    else Ok(())
  }

  /** Whether the typed-array loop of `write_bytes`, started at `pos`, meets the exhausted position. */
  predicate LoopExhausts(pos: nat, length: nat, dataLength: nat) {
    pos <= dataLength + 1 < pos + length
  }

  class BufferCursor {
    var data: array<byte>
    var position: nat

    constructor (data: array<byte>)
      ensures this.data == data && position == 0
    {
      this.data := data;
      position := 0;
    }

    /** `BufferCursor.with_size`: a cursor over a fresh zero-filled buffer. */
    static method WithSize(size: nat) returns (c: BufferCursor)
      ensures fresh(c) && fresh(c.data)
      ensures c.data[..] == Zeros(size) && c.position == 0
    {
      var a := new byte[size](_ => 0);
      c := new BufferCursor(a);
    }

    /**
     * `is_exhausted`: true only at exactly one past the end of the buffer. A cursor two or more past
     * the end is not exhausted, so `Write` there advances without storing and without throwing.
     */
    predicate IsExhausted()
      reads this
      ensures IsExhausted() ==> position > data.Length
      ensures position <= data.Length ==> !IsExhausted()
      ensures position > data.Length + 1 ==> !IsExhausted()
    {
      position == data.Length + 1
    }

    method UsePosition(value: nat)
      modifies this
      ensures position == value && data == old(data)
    {
      position := value;
    }

    /** `view(start, end)`; `view()` is `View(0, position)`. */
    function View(start: int, end: int): (r: seq<byte>)
      reads this, data
      ensures 0 <= start <= end <= data.Length ==> r == data[start..end]
      ensures |r| <= data.Length
    {
      Subarray(data[..], start, end)
    }

    method Reset()
      modifies this
      ensures position == 0 && data == old(data)
    {
      position := 0;
    }

    /** `resize(newLen, ifSmaller)`: a new zero-filled buffer of length `newLen` that keeps the common prefix. */
    method Resize(newLen: nat, ifSmaller: bool) returns (resized: bool)
      modifies this
      ensures resized == (old(data.Length) < newLen || ifSmaller)
      ensures position == old(position)
      ensures resized ==> fresh(data) && data[..] == Resized(old(data[..]), newLen)
      ensures !resized ==> data == old(data)
    {
      if data.Length < newLen || ifSmaller {
        var newData := new byte[newLen];
        forall i | 0 <= i < newLen {
          newData[i] := if i < data.Length then data[i] else 0;
        }
        data := newData;
        return true;
      }
      return false;
    }

    /** `grow(size)`: make room for `size` more bytes after the position. */
    method Grow(size: nat) returns (grown: bool)
      modifies this
      ensures grown == (old(data.Length) < old(position) + size)
      ensures data.Length >= position + size
      ensures position == old(position)
      ensures grown ==> fresh(data) && data[..] == Resized(old(data[..]), position + size)
      ensures !grown ==> data == old(data)
    {
      grown := Resize(position + size, false);
    }

    /**
     * `write(byte)`: throws only one past the end; at the end itself the byte is dropped
     * (an out-of-range typed-array store) but the position still advances.
     */
    method Write(b: byte) returns (r: Outcome)
      modifies this, data
      ensures data == old(data)
      ensures r.Err? <==> old(IsExhausted())
      ensures r.Err? ==> r.error == Exhausted && position == old(position) && data[..] == old(data[..])
      ensures r.Ok? ==> position == old(position) + 1
      ensures r.Ok? ==> data[..] == if old(position) < data.Length then old(data[..])[old(position) := b] else old(data[..])
    {
      if IsExhausted() {
        return Err(Exhausted);
      }
      if position < data.Length {
        data[position] := b;
      }
      position := position + 1;
      r := Ok(());
    }

    /** The Buffer branch of `write_bytes`: `bytes.copy(data, position, offset, end)` and then `inc_pos(end)`. */
    method CopyFrom(bytes: seq<byte>, offset: nat, end: nat) returns (r: Outcome)
      modifies this, data
      ensures data == old(data)
      ensures var copied := CopyBytes(bytes, old(data[..]), old(position), offset, end);
              if copied.Err? then r == Err(copied.error) && position == old(position) && data[..] == old(data[..])
              else r == Ok(()) && data[..] == copied.value && position == old(position) + end
    {
      ghost var before := data[..];
      if position >= data.Length || offset >= end {
        position := position + end;
        return Ok(());
      }
      if offset > |bytes| {
        return Err(SourceStartOutOfRange);
      }
      var n := Min(Min(end - offset, data.Length - position), |bytes| - offset);
      forall i | 0 <= i < n {
        data[position + i] := bytes[offset + i];
      }
      assert data[..] == Splice(before, position, bytes[offset..offset + n]);
      position := position + end;
      r := Ok(());
    }

    /** The typed-array branch of `write_bytes`: `write(bytes[offset + i])` for each `i < length`. */
    method WriteEach(bytes: seq<byte>, offset: nat, length: nat) returns (r: Outcome)
      modifies this, data
      ensures data == old(data)
      ensures r.Err? <==> LoopExhausts(old(position), length, data.Length)
      ensures r.Err? ==> r.error == Exhausted
      ensures position == if r.Err? then data.Length + 1 else old(position) + length
      ensures forall j :: 0 <= j < data.Length ==>
                data[j] == if old(position) <= j < position then ByteAt(bytes, offset + j - old(position)) else old(data[j])
    {
      var i := 0;
      while i < length
        invariant 0 <= i <= length
        invariant data == old(data) && position == old(position) + i
        invariant !(old(position) <= data.Length + 1 < old(position) + i)
        invariant forall j :: 0 <= j < data.Length ==>
                    data[j] == if old(position) <= j < position then ByteAt(bytes, offset + j - old(position)) else old(data[j])
      {
        r := Write(ByteAt(bytes, offset + i));
        if r.Err? {
          return;
        }
        i := i + 1;
      }
      r := Ok(());
    }

    /**
     * `write_bytes(bytes, offset, length, offsetLength)`; `isBuffer` is the `bytes instanceof Buffer` test.
     * With the default arguments and room left, both branches write `bytes` at the position.
     */
    method WriteBytes(bytes: seq<byte>, offset: nat, length: nat, offsetLength: bool, isBuffer: bool) returns (r: Outcome)
      modifies this, data
      ensures data == old(data)
      ensures isBuffer ==>
                var end := if offsetLength then offset + length else length;
                var copied := CopyBytes(bytes, old(data[..]), old(position), offset, end);
                if copied.Err? then r == Err(copied.error) && position == old(position) && data[..] == old(data[..])
                else r == Ok(()) && data[..] == copied.value && position == old(position) + end
      ensures !isBuffer ==>
                (r.Err? <==> LoopExhausts(old(position), length, data.Length)) &&
                (r.Err? ==> r.error == Exhausted) &&
                position == (if r.Err? then data.Length + 1 else old(position) + length) &&
                forall j :: 0 <= j < data.Length ==>
                  data[j] == if old(position) <= j < position then ByteAt(bytes, offset + j - old(position)) else old(data[j])
      ensures offset == 0 && length == |bytes| && old(position) + |bytes| <= data.Length ==>
                r.Ok? && position == old(position) + |bytes| && data[..] == Splice(old(data[..]), old(position), bytes)
    {
      if isBuffer {
        var end := if offsetLength then offset + length else length;
        r := CopyFrom(bytes, offset, end);
        assert offset == 0 && length == |bytes| ==> bytes[offset..end] == bytes;
      } else {
        r := WriteEach(bytes, offset, length);
      }
    }

    /** `data.writeUintBE/LE(value, position, width)` followed by `inc_pos(width)`. */
    method WriteUint(value: int, width: nat, bigEndian: bool) returns (r: Outcome)
      modifies this, data
      ensures data == old(data)
      ensures r == UintCheck(value, width, old(position), data.Length)
      ensures r.Ok? ==> position == old(position) + width
      ensures r.Ok? ==> data[..] == Splice(old(data[..]), old(position), if bigEndian then BigEndian(value, width) else LittleEndian(value, width))
      ensures r.Err? ==> position == old(position) && data[..] == old(data[..])
    {
      r := UintCheck(value, width, position, data.Length);
      if r.Err? {
        return;
      }
      var bytes := if bigEndian then BigEndian(value, width) else LittleEndian(value, width);
      ghost var before := data[..];
      forall i | 0 <= i < width {
        data[position + i] := bytes[i];
      }
      assert data[..] == Splice(before, position, bytes);
      position := position + width;
    }

    method WriteUint16BE(value: int) returns (r: Outcome)
      modifies this, data
      ensures data == old(data)
      ensures r == UintCheck(value, 2, old(position), data.Length)
      ensures r.Ok? ==> position == old(position) + 2 && data[..] == Splice(old(data[..]), old(position), BigEndian(value, 2))
      ensures r.Err? ==> position == old(position) && data[..] == old(data[..])
    {
      r := WriteUint(value, 2, true);
    }

    method WriteUint32LE(value: int) returns (r: Outcome)
      modifies this, data
      ensures data == old(data)
      ensures r == UintCheck(value, 4, old(position), data.Length)
      ensures r.Ok? ==> position == old(position) + 4 && data[..] == Splice(old(data[..]), old(position), LittleEndian(value, 4))
      ensures r.Err? ==> position == old(position) && data[..] == old(data[..])
    {
      r := WriteUint(value, 4, false);
    }

    method WriteUint32BE(value: int) returns (r: Outcome)
      modifies this, data
      ensures data == old(data)
      ensures r == UintCheck(value, 4, old(position), data.Length)
      ensures r.Ok? ==> position == old(position) + 4 && data[..] == Splice(old(data[..]), old(position), BigEndian(value, 4))
      ensures r.Err? ==> position == old(position) && data[..] == old(data[..])
    {
      r := WriteUint(value, 4, true);
    }
  }
}
