/** The column descriptor of a fixed-point numeric column: its precision
    (total digits) and scale (digits after the decimal point), read from the
    column's definition record inside a table-definition buffer. */
module NumericColumns {
  import opened JavaTypes
  import opened ByteBuffers

  /** The two entries of the database's format table that the reader uses:
      where, relative to the start of a column-definition record, the
      precision byte and the scale byte lie.  Their values depend on the
      format version of the open database. */
  datatype Format = Format(precisionOffset: int32, scaleOffset: int32)

  /** What a numeric column descriptor holds beyond the common column state. */
  datatype NumericAttributes = NumericAttributes(precision: int8, scale: int8)

  /** Absolute buffer index of the precision byte, added in 32-bit `int`. */
  function PrecisionIndex(offset: int32, format: Format): int32 {
    Int32Add(offset, format.precisionOffset)
  }

  /** Absolute buffer index of the scale byte, added in 32-bit `int`. */
  function ScaleIndex(offset: int32, format: Format): int32 {
    Int32Add(offset, format.scaleOffset)
  }

  /** The two reads the constructor performs, in its order: the precision
      byte first, then the scale byte.  Either read fails when its index is
      outside the buffer, and the first failure is the one reported.  The
      bytes are taken as read: signed, and with no check of one against the
      other. */
  function ParseNumeric(bytes: seq<uint8>, offset: int32, format: Format): (r: Result<NumericAttributes>)
    ensures r.Ok? <==> InBounds(bytes, PrecisionIndex(offset, format)) && InBounds(bytes, ScaleIndex(offset, format))
    ensures r.Ok? ==> ToBits(r.value.precision) == bytes[PrecisionIndex(offset, format)]
    ensures r.Ok? ==> ToBits(r.value.scale) == bytes[ScaleIndex(offset, format)]
    ensures r.Err? ==> r.error == IndexOutOfBounds(
                         if InBounds(bytes, PrecisionIndex(offset, format)) then ScaleIndex(offset, format)
                         else PrecisionIndex(offset, format))
  {
    match Get(bytes, PrecisionIndex(offset, format))
    case Err(e) => Err(e)
    case Ok(precision) =>
      match Get(bytes, ScaleIndex(offset, format))
      case Err(e) => Err(e)
      case Ok(scale) => Ok(NumericAttributes(precision, scale))
  }

  /** The outcome depends on the buffer's length and on the two bytes read,
      and on nothing else in the buffer. */
  lemma OnlyTwoBytesRead(b1: seq<uint8>, b2: seq<uint8>, offset: int32, format: Format)
    requires |b1| == |b2|
    requires InBounds(b1, PrecisionIndex(offset, format)) ==> b1[PrecisionIndex(offset, format)] == b2[PrecisionIndex(offset, format)]
    requires InBounds(b1, ScaleIndex(offset, format)) ==> b1[ScaleIndex(offset, format)] == b2[ScaleIndex(offset, format)]
    ensures ParseNumeric(b1, offset, format) == ParseNumeric(b2, offset, format)
  {
  }

  /** The two reads are independent: when the two format offsets put the
      bytes at different places, rewriting the scale byte leaves the
      precision alone and yields the new scale, and the other way round. */
  lemma ReadsAreIndependent(bytes: seq<uint8>, offset: int32, format: Format, b: uint8)
    requires ParseNumeric(bytes, offset, format).Ok?
    requires PrecisionIndex(offset, format) != ScaleIndex(offset, format)
    ensures var after := ParseNumeric(bytes[ScaleIndex(offset, format) := b], offset, format);
            && after.Ok?
            && after.value.precision == ParseNumeric(bytes, offset, format).value.precision
            && ToBits(after.value.scale) == b
    ensures var after := ParseNumeric(bytes[PrecisionIndex(offset, format) := b], offset, format);
            && after.Ok?
            && after.value.scale == ParseNumeric(bytes, offset, format).value.scale
            && ToBits(after.value.precision) == b
  {
  }

  /** No pair of values is refused: every precision and scale that a record
      can hold, including a negative precision or a scale above the
      precision, is what some buffer parses to. */
  lemma EveryBytePairAccepted(precision: int8, scale: int8, offset: int32, format: Format)
    requires PrecisionIndex(offset, format) >= 0 && ScaleIndex(offset, format) >= 0
    requires PrecisionIndex(offset, format) != ScaleIndex(offset, format) || precision == scale
    ensures exists bytes :: ParseNumeric(bytes, offset, format) == Ok(NumericAttributes(precision, scale))
  {
    var pi, si := PrecisionIndex(offset, format) as int, ScaleIndex(offset, format) as int;
    var n := if pi < si then si + 1 else pi + 1;
    var bytes := seq(n, i requires 0 <= i < n =>
                   if i == pi then ToBits(precision) else if i == si then ToBits(scale) else 0);
    SignedRoundTrip(precision);
    SignedRoundTrip(scale);
    assert ParseNumeric(bytes, offset, format) == Ok(NumericAttributes(precision, scale));
  }

  /** Two records read as they are: a scale byte of 0xFF is the scale -1,
      and a scale above the precision is kept. */
  lemma AcceptedAsRead()
    ensures ParseNumeric([0x0A, 0xFF], 0, Format(0, 1)) == Ok(NumericAttributes(10, -1))
    ensures ParseNumeric([0x02, 0x05], 0, Format(0, 1)) == Ok(NumericAttributes(2, 5))
  {
  }

  /** A numeric column.  Precision and scale are copied out of the buffer
      once, when the column is read, and never change afterwards; the ghost
      fields remember the record they were read from. */
  class NumericColumn {
    const precision: int8
    const scale: int8
    /** The buffer's bytes, up to its limit, when the column was read. */
    ghost const definition: seq<uint8>
    ghost const offset: int32
    ghost const format: Format

    ghost predicate Valid() {
      ParseNumeric(definition, offset, format) == Ok(NumericAttributes(precision, scale))
    }

    /** Reads the column at `offset` of `buffer`.  Both reads must be in
        bounds; `Create` covers the case where one is not.  The buffer is
        only read. */
    constructor (buffer: array<uint8>, offset: int32, format: Format)
      requires ParseNumeric(buffer[..], offset, format).Ok?
      ensures Valid()
      ensures definition == buffer[..] && this.offset == offset && this.format == format
      ensures ToBits(precision) == buffer[PrecisionIndex(offset, format)]
      ensures ToBits(scale) == buffer[ScaleIndex(offset, format)]
      ensures buffer[..] == old(buffer[..])
    {
      precision := FromBits(buffer[PrecisionIndex(offset, format)]);
      scale := FromBits(buffer[ScaleIndex(offset, format)]);
      definition := buffer[..];
      this.offset := offset;
      this.format := format;
    }

    /** Constructing the column with its failure path: the read of the
        precision byte, then of the scale byte, fails with an out-of-bounds
        error for the first index outside the buffer, and then no column is
        made. */
    static method Create(buffer: array<uint8>, offset: int32, format: Format) returns (r: Result<NumericColumn>)
      ensures r.Err? <==> ParseNumeric(buffer[..], offset, format).Err?
      ensures r.Err? ==> r.error == ParseNumeric(buffer[..], offset, format).error
      ensures r.Ok? ==> && fresh(r.value) && r.value.Valid()
                        && r.value.definition == buffer[..]
                        && r.value.offset == offset && r.value.format == format
      ensures buffer[..] == old(buffer[..])
    {
      var precisionIndex := PrecisionIndex(offset, format);
      var scaleIndex := ScaleIndex(offset, format);
      if !InBounds(buffer[..], precisionIndex) {
        r := Err(IndexOutOfBounds(precisionIndex));
      } else if !InBounds(buffer[..], scaleIndex) {
        r := Err(IndexOutOfBounds(scaleIndex));
      } else {
        var column := new NumericColumn(buffer, offset, format);
        r := Ok(column);
      }
    }

    /** `getPrecision()`: the signed byte at the precision index of the
        record as it was when the column was read. */
    function Precision(): (p: int8)
      requires Valid()
      ensures ToBits(p) == definition[PrecisionIndex(offset, format)]
    {
      precision
    }

    /** `getScale()`: the signed byte at the scale index of the record as it
        was when the column was read. */
    function Scale(): (s: int8)
      requires Valid()
      ensures ToBits(s) == definition[ScaleIndex(offset, format)]
    {
      scale
    }
  }

  /** The fields are copies: once a column has been read, by the
      constructor or by `Create`, overwriting any byte of any buffer,
      including the precision or scale byte of the buffer it was read from,
      leaves what the getters return as it was read. */
  method OverwriteAfterRead(column: NumericColumn, buffer: array<uint8>, index: int, b: uint8)
    requires column.Valid()
    requires 0 <= index < buffer.Length
    modifies buffer
    ensures buffer[..] == old(buffer[..])[index := b]
    ensures column.Valid()
    ensures ToBits(column.Precision()) == column.definition[PrecisionIndex(column.offset, column.format)]
    ensures ToBits(column.Scale()) == column.definition[ScaleIndex(column.offset, column.format)]
  {
    buffer[index] := b;
  }

  /** A column read from a buffer whose precision byte is then overwritten
      still reports the precision byte it read. */
  method OverwriteOwnPrecisionByte(buffer: array<uint8>, offset: int32, format: Format, b: uint8)
    returns (column: NumericColumn)
    requires ParseNumeric(buffer[..], offset, format).Ok?
    modifies buffer
    ensures buffer[..] == old(buffer[..])[PrecisionIndex(offset, format) := b]
    ensures column.Valid() && column.definition == old(buffer[..])
    ensures ToBits(column.Precision()) == old(buffer[PrecisionIndex(offset, format)])
    ensures ToBits(column.Scale()) == old(buffer[ScaleIndex(offset, format)])
  {
    column := new NumericColumn(buffer, offset, format);
    OverwriteAfterRead(column, buffer, PrecisionIndex(offset, format) as int, b);
  }
}
