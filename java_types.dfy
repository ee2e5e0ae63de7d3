/** Java's fixed-width integer types as they matter to the column reader:
    the signed `byte` that `ByteBuffer.get(int)` returns and the 32-bit `int`
    in which byte offsets are added. */
module JavaTypes {

  /** Java's `byte`: a signed 8-bit two's-complement value. */
  newtype int8 = x: int | -0x80 <= x < 0x80

  /** A raw 8-bit pattern as stored in a database page, read as unsigned. */
  newtype uint8 = x: int | 0 <= x < 0x100

  /** Java's `int`: a signed 32-bit two's-complement value. */
  newtype int32 = x: int | -0x8000_0000 <= x < 0x8000_0000

  /** The Java `byte` whose two's-complement bit pattern is `b`: the unique
      value of the byte range that is congruent to `b` modulo 256.  Bytes with
      the top bit set read as negative numbers. */
  function FromBits(b: uint8): (r: int8)
    ensures (b as int - r as int) % 0x100 == 0
    ensures r < 0 <==> b >= 0x80
  {
    if b < 0x80 then b as int8 else (b as int - 0x100) as int8
  }

  /** The bit pattern that stores the Java `byte` `x`. */
  function ToBits(x: int8): (b: uint8)
    ensures (b as int - x as int) % 0x100 == 0
    ensures b >= 0x80 <==> x < 0
  {
    if x < 0 then (x as int + 0x100) as uint8 else x as uint8
  }

  /** Reading a byte as signed loses nothing: its bits can be recovered. */
  lemma BitsRoundTrip(b: uint8)
    ensures ToBits(FromBits(b)) == b
  {
  }

  /** Every Java `byte` value is the signed reading of exactly one bit pattern. */
  lemma SignedRoundTrip(x: int8)
    ensures FromBits(ToBits(x)) == x
  {
  }

  /** Java's `a + b` on `int`: the exact sum wrapped into the 32-bit range. */
  function Int32Add(a: int32, b: int32): (r: int32)
    ensures (a as int + b as int - r as int) % 0x1_0000_0000 == 0
    ensures -0x8000_0000 <= a as int + b as int < 0x8000_0000 ==> r as int == a as int + b as int
  {
    var s := a as int + b as int;
    if s >= 0x8000_0000 then (s - 0x1_0000_0000) as int32
    else if s < -0x8000_0000 then (s + 0x1_0000_0000) as int32
    else s as int32
  }
}
