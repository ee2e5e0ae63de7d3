/** The one `java.nio.ByteBuffer` operation the column reader uses: the
    absolute read `get(int index)`.  A buffer is modelled by its bytes up to
    its limit; position and mark play no part in an absolute read. */
module ByteBuffers {
  import opened JavaTypes

  /** Why a read failed: `IndexOutOfBoundsException` for the given index. */
  datatype ReadError = IndexOutOfBounds(index: int32)

  datatype Result<T> = Ok(value: T) | Err(error: ReadError)

  predicate InBounds(bytes: seq<uint8>, index: int32) {
    0 <= index as int < |bytes|
  }

  /** `buffer.get(index)`: the byte at `index`, read as a signed Java `byte`,
      or an out-of-bounds failure when `index` is negative or not below the
      limit.  The read does not change the buffer. */
  function Get(bytes: seq<uint8>, index: int32): (r: Result<int8>)
    ensures r.Ok? <==> InBounds(bytes, index)
    ensures r.Ok? ==> ToBits(r.value) == bytes[index]
    ensures r.Err? ==> r.error == IndexOutOfBounds(index)
  {
    if InBounds(bytes, index) then
      BitsRoundTrip(bytes[index]);
      Ok(FromBits(bytes[index]))
    else
      Err(IndexOutOfBounds(index))
  }
}
