/** Types that several parts of the model share. */
module Common {

  type Byte = b: int | 0 <= b < 256

  const TWO32: int := 0x1_0000_0000
  const TWO64: int := 0x1_0000_0000_0000_0000

  datatype Option<+T> = None | Some(value: T)

  /** The value of bytes in little-endian order. */
  function LittleEndian(bytes: seq<Byte>): (v: nat) {
    if bytes == [] then 0
    else
      var low: int := bytes[0];
      low + 256 * LittleEndian(bytes[1..])
  }
}
