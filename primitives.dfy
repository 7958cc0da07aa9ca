/** Machine integer ranges and an Option type shared by the firmware and the decoder models. */
module Primitives {

  /** A C `uint8_t`, and a byte as the payload decoder receives it. */
  type uint8 = x: int | 0 <= x < 0x100

  /** A C `int16_t`. */
  type int16 = x: int | -0x8000 <= x < 0x8000

  /** A value that may be missing: a float stream with no sample, a NaN reading,
      an array index past the end in the decoder. */
  datatype Option<T> = None | Some(value: T)

  /** C conversion of an integer to `uint8_t`: reduction modulo 256. */
  function ToUint8(x: int): (b: uint8)
    ensures (x - b) % 0x100 == 0
  {
    x % 0x100
  }
}
