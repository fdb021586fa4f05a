/** A cursor over a chunk of bytes. Exceptions are results; a failed call leaves the cursor where it was. */
module ByteReader {
  import opened Common

  datatype ReadError =
    | EndOfData
    | InvalidRead
    | InvalidSeek
    | OutOfBounds // a violated bounds contract of the span, which ends the program

  datatype Result<+T> = Ok(value: T) | Err(error: ReadError)

  /** Why `size` bytes cannot be taken when `left` bytes are left. Nothing can be taken from an exhausted
      chunk, not even zero bytes. */
  function Refusal(left: nat, size: nat): Option<ReadError> {
    if left == 0 then Some(EndOfData)
    else if size > left then Some(InvalidRead)
    else None
  }

  /** The same for `count` elements of `width` bytes: the check counts elements, the chunk is cut in bytes. */
  function SpanRefusal(left: nat, count: nat, width: nat): Option<ReadError> {
    if Refusal(left, count).Some? then Refusal(left, count)
    else if count * width > left then Some(OutOfBounds)
    else None
  }

  class Reader {
    const data: seq<Byte>

    // where this chunk starts in the buffer it was cut from
    const base: nat

    var index: nat

    ghost predicate Valid()
      reads this
    {
      index <= |data|
    }

    constructor (data: seq<Byte>, base: nat := 0)
      ensures Valid() && this.data == data && this.base == base && index == 0
    {
      this.data, this.base, index := data, base, 0;
    }

    function Size(): nat
      requires Valid()
      reads this
    {
      |data| - index
    }

    method Seek(i: nat) returns (r: Result<()>)
      requires Valid()
      modifies this
      ensures Valid()
      ensures i <= |data| ==> r == Ok(()) && index == i
      ensures i > |data| ==> r == Err(InvalidSeek) && index == old(index)
    {
      if i > |data| {
        return Err(InvalidSeek);
      }
      index := i;
      return Ok(());
    }

    method Skip(size: nat) returns (r: Result<()>)
      requires Valid()
      modifies this
      ensures Valid()
      ensures match Refusal(old(Size()), size)
              case Some(e) => r == Err(e) && index == old(index)
              case None => r == Ok(()) && index == old(index) + size
    {
      if Size() == 0 {
        return Err(EndOfData);
      }
      if size > Size() {
        return Err(InvalidRead);
      }
      index := index + size;
      return Ok(());
    }

    /** Cuts off `count` elements of `width` bytes. */
    method Subspan(count: nat, width: nat) returns (r: Result<seq<Byte>>)
      requires Valid()
      modifies this
      ensures Valid()
      ensures match SpanRefusal(old(Size()), count, width)
              case Some(e) => r == Err(e) && index == old(index)
              case None => r == Ok(data[old(index)..old(index) + count * width]) && index == old(index) + count * width
    {
      if Size() == 0 {
        return Err(EndOfData);
      }
      if count > Size() {
        return Err(InvalidRead);
      }
      var bytes := count * width;
      if bytes > Size() {
        return Err(OutOfBounds);
      }
      var cut := data[index..index + bytes];
      var _ := Skip(bytes);
      return Ok(cut);
    }

    /** Cuts off a chunk with a cursor of its own. */
    method Sub(size: nat) returns (r: Result<Reader>)
      requires Valid()
      modifies this
      ensures Valid()
      ensures match Refusal(old(Size()), size)
              case Some(e) => r == Err(e) && index == old(index)
              case None => r.Ok? && fresh(r.value) && r.value.Valid() && r.value.index == 0
                           && r.value.data == data[old(index)..old(index) + size]
                           && r.value.base == base + old(index) && index == old(index) + size
    {
      var at := base + index;
      var span := Subspan(size, 1);
      match span
      case Err(e) => return Err(e);
      case Ok(bytes) =>
        var reader := new Reader(bytes, at);
        return Ok(reader);
    }

    /** Copies the next `size` bytes. */
    method Read(size: nat) returns (r: Result<seq<Byte>>)
      requires Valid()
      modifies this
      ensures Valid()
      ensures match Refusal(old(Size()), size)
              case Some(e) => r == Err(e) && index == old(index)
              case None => r == Ok(data[old(index)..old(index) + size]) && index == old(index) + size
    {
      if Size() == 0 {
        return Err(EndOfData);
      }
      if size > Size() {
        return Err(InvalidRead);
      }
      r := Subspan(size, 1);
    }
  }
}
