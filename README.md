# Numeric column descriptor of the Jackcess Access-file reader

Jackcess reads Microsoft Access (JET/ACE) database files. When it opens a
table, it parses a descriptor for each column out of the table-definition
page. For a fixed-point numeric column, the descriptor also holds two single
bytes from the column's definition record:

- the **precision**, the total number of digits;
- the **scale**, the number of digits after the decimal point.

The database's format table says where these two bytes lie within the record.
This project models how those bytes are read and kept. The model has three
modules:

- `JavaTypes` (`java_types.dfy`) covers Java's signed `byte` and 32-bit `int`.
  - `FromBits` gives the two's-complement reading of a raw byte.
  - `Int32Add` is `int` addition with wrap-around, which is how Java adds
    `offset + OFFSET_COLUMN_PRECISION`.
- `ByteBuffers` (`byte_buffer.dfy`) models the absolute read
  `ByteBuffer.get(int)`. A read outside the buffer gives an `IndexOutOfBounds`
  error.
- `NumericColumns` (`numeric_column.dfy`) holds the rest:
  - `ParseNumeric` is the two reads the constructor performs. The precision
    byte is read first, then the scale byte.
  - `NumericColumn` is the class, with `const` fields for the Java `final`
    fields.
  - The lemmas state which byte lands in which field, and that the two reads
    are independent.
  - They also state that no byte pair is refused, and that the values stay
    frozen when the buffer changes later.

The format table (`getFormat()`) is passed in as a `Format` value that holds
the two offsets. The buffer is the sequence (or array) of its bytes up to its
limit.

Precision and scale are kept as the raw Java `byte`s read. A byte of 0x80 or
more reads as a negative number, and nothing relates one field to the other,
so a scale above the precision is kept (`EveryBytePairAccepted`,
`AcceptedAsRead`).

## Model

| member | source | states |
|---|---|---|
| `JavaTypes.FromBits` | src/main/java/com/healthmarketscience/jackcess/impl/NumericColumnImpl.java:35-37 | a stored byte becomes the Java `byte` congruent to it modulo 256, negative exactly when its top bit is set |
| `JavaTypes.SignedRoundTrip` | src/main/java/com/healthmarketscience/jackcess/impl/NumericColumnImpl.java:35-37 | every signed `byte` value is the reading of the bit pattern that stores it, so the signed fields lose no information |
| `JavaTypes.BitsRoundTrip` | src/main/java/com/healthmarketscience/jackcess/impl/NumericColumnImpl.java:35-37 | the bits of a stored byte can be recovered from its signed reading |
| `JavaTypes.Int32Add` | src/main/java/com/healthmarketscience/jackcess/impl/NumericColumnImpl.java:45-46 | the index `offset + OFFSET_…` is the exact sum wrapped into 32 bits, and equals the sum when that fits |
| `ByteBuffers.Get` | src/main/java/com/healthmarketscience/jackcess/impl/NumericColumnImpl.java:45-46 | `buffer.get(i)` succeeds exactly when 0 <= i < limit and then yields the byte stored at `i`; otherwise it fails with an out-of-bounds error for `i` |
| `NumericColumns.ParseNumeric` | src/main/java/com/healthmarketscience/jackcess/impl/NumericColumnImpl.java:45-46 | succeeds exactly when both indices are in bounds; precision is the byte at `offset + precision offset`, scale the byte at `offset + scale offset`; on failure the precision index is reported first, as it is read first |
| `NumericColumns.OnlyTwoBytesRead` | src/main/java/com/healthmarketscience/jackcess/impl/NumericColumnImpl.java:45-46 | the outcome depends only on the buffer's length and the two bytes read |
| `NumericColumns.ReadsAreIndependent` | src/main/java/com/healthmarketscience/jackcess/impl/NumericColumnImpl.java:45-46 | with distinct indices, rewriting the scale byte keeps the precision and yields the new scale, and the other way round |
| `NumericColumns.EveryBytePairAccepted` | src/main/java/com/healthmarketscience/jackcess/impl/NumericColumnImpl.java:45-46 | every pair of signed byte values, including scale > precision and negative values, is what some buffer parses to: there is no validation |
| `NumericColumns.AcceptedAsRead` | src/main/java/com/healthmarketscience/jackcess/impl/NumericColumnImpl.java:45-46 | a scale byte 0xFF reads as -1, and a scale above the precision is kept |
| `NumericColumns.NumericColumn.constructor` | src/main/java/com/healthmarketscience/jackcess/impl/NumericColumnImpl.java:39-47 | when both reads are in bounds, the precision field holds the byte at the precision index and the scale field the byte at the scale index; the buffer is unchanged |
| `NumericColumns.NumericColumn.Create` | src/main/java/com/healthmarketscience/jackcess/impl/NumericColumnImpl.java:39-47 | construction yields a fresh column exactly when both reads are in bounds, and otherwise the out-of-bounds error of the first failing read; the buffer is unchanged |
| `NumericColumns.NumericColumn.Precision` | src/main/java/com/healthmarketscience/jackcess/impl/NumericColumnImpl.java:50-52 | `getPrecision()` returns the byte at the precision index of the record as it was at construction |
| `NumericColumns.NumericColumn.Scale` | src/main/java/com/healthmarketscience/jackcess/impl/NumericColumnImpl.java:55-57 | `getScale()` returns the byte at the scale index of the record as it was at construction |
| `NumericColumns.OverwriteAfterRead` | src/main/java/com/healthmarketscience/jackcess/impl/NumericColumnImpl.java:35-37 | for any column already read, however it was made, overwriting any byte of any buffer leaves both getters' results unchanged and still equal to the bytes read at construction |
| `NumericColumns.OverwriteOwnPrecisionByte` | src/main/java/com/healthmarketscience/jackcess/impl/NumericColumnImpl.java:35-37 | a column whose own precision byte is overwritten after it was read still reports the precision and scale bytes it read |

## Left out

- The superclass constructor call `super(table, buffer, offset, displayIndex, type, flags)` is not part of this model. `ColumnImpl` is not shown, so the column's name, type, flags, length and display index are left out.
- `getFormat()` and the format table are not part of this model. The two offsets it supplies are parameters (`Format`).
- The constructor declares `IOException`. Only the superclass can throw it, so it is left out. The `IndexOutOfBoundsException` that the two reads can throw is modelled as `ReadError`.
- `ByteBuffer` position, mark and byte order are left out, because an absolute single-byte read does not use them.
- How precision and scale are later used to encode and decode numeric values is left out. That code is not shown.
- The class invariant `Valid()` is a precondition of the getters. Dafny has no implicit object invariants. `Valid()` holds for every column that the constructor or `Create` makes, and the fields are `const`, so it never stops holding.
