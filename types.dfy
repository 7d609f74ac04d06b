/** Java's fixed-width integers and the sample type shared by the store and its series. */
module Types {
  /** Java `int`. */
  newtype int32 = x: int | -0x8000_0000 <= x < 0x8000_0000

  /** Java `long`: series ids and timestamps. */
  newtype int64 = x: int | -0x8000_0000_0000_0000 <= x < 0x8000_0000_0000_0000

  /** A sample value: the raw 64-bit pattern of a Java `double`, compared bit for bit. */
  type Value = bv64

  /** One immutable (timestamp, value) sample. */
  datatype Point = Point(timestamp: int64, value: Value)
}
