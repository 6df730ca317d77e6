/**
 * Values shared by every cartridge format: bytes, JavaScript's `undefined`,
 * array reads that may fall outside the array, and the 12-bit address mask.
 */
module Basics {

  datatype Option<+T> = None | Some(value: T)

  /** An 8-bit value, as the ROM image, the data bus and the ports carry it. */
  type byte = b: int | 0 <= b < 256

  /**
   * JavaScript's `undefined`. The source reads arrays past their end in a few
   * places (a short ROM image, a short network response); such a read yields
   * `undefined`, which this model writes as a value no byte can take.
   */
  const UNDEFINED: int := -1

  /** The cartridge window is 4 KB: `address & 0x0FFF`. */
  const ADDRESS_MASK: int := 0x0FFF

  /** Reading `s[i]` from a JavaScript array. */
  function At(s: seq<int>, i: int): int
  {
    if 0 <= i < |s| then s[i] else UNDEFINED
  }

  /** Reading `m[k]` from a sparse JavaScript array. */
  function Get(m: map<int, int>, k: int): int
  {
    if k in m then m[k] else UNDEFINED
  }

  /**
   * `address & 0x0FFF`. Dafny's `%` is Euclidean, which agrees with the
   * two's-complement `&` of JavaScript for negative addresses as well.
   */
  function MaskAddress(address: int): (masked: int)
    ensures 0 <= masked <= ADDRESS_MASK
    ensures 0 <= address <= ADDRESS_MASK ==> masked == address
    ensures (masked - address) % 0x1000 == 0
  {
    address % 0x1000
  }

  /** `data & 0xFF` on the value the bus monitor sees. */
  function LowByte(data: int): (b: byte)
    ensures 0 <= data < 256 ==> b == data
    ensures (b - data) % 256 == 0
  {
    data % 256
  }
}
