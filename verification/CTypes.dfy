/** The unsigned integer types of the C sources, their wrap-around, and optional values. */
module CTypes {
  const U16: int := 0x1_0000
  const U32: int := 0x1_0000_0000
  const U64: int := 0x1_0000_0000_0000_0000

  type uint8 = x: int | 0 <= x < 0x100
  type uint16 = x: int | 0 <= x < 0x1_0000
  type uint32 = x: int | 0 <= x < 0x1_0000_0000
  type uint64 = x: int | 0 <= x < 0x1_0000_0000_0000_0000

  type Bytes = seq<uint8>

  /** The 16-bit value of two bytes, most significant first. */
  function Join(high: uint8, low: uint8): uint16 {
    256 * (high as int) + low as int
  }

  function Wrap32(x: int): uint32 { x % 0x1_0000_0000 }

  function Wrap64(x: int): uint64 { x % 0x1_0000_0000_0000_0000 }

  /** Unsigned 64-bit subtraction. */
  function Minus64(a: uint64, b: uint64): uint64 {
    Wrap64(a - b)
  }

  lemma NoBorrow(a: uint64, b: uint64)
    requires b <= a
    ensures Minus64(a, b) == a - b
  {}

  /** Wrapping an intermediate sum changes nothing. */
  lemma WrapAdd(a: nat, b: nat)
    ensures Wrap32(Wrap32(a) + b) == Wrap32(a + b)
  {}

  datatype Option<+T> = None | Some(value: T)
}
