/** Machine words of the interpreter and the C++ unsigned arithmetic on them.

    `uint8_t` and `uint16_t` are bounded integer newtypes; C++ wrap-around on
    assignment is written out with `Wrap8`/`Wrap16` (Dafny's `%` is Euclidean,
    which matches unsigned truncation).  A framebuffer cell, a `uint32_t` that is
    only ever XOR-ed with all ones, is a `bv32`. */
module Bits {

  newtype uint8 = x: int | 0 <= x < 0x100
  newtype uint16 = x: int | 0 <= x < 0x1_0000

  /** A register index, a sprite height: any 4-bit field of an opcode. */
  type Nibble = n: int | 0 <= n < 0x10

  /** Truncation of an `int` to `uint8_t`. */
  function Wrap8(v: int): uint8 {
    (v % 0x100) as uint8
  }

  /** Truncation of an `int` to `uint16_t`. */
  function Wrap16(v: int): uint16 {
    (v % 0x1_0000) as uint16
  }

  function Or8(a: uint8, b: uint8): uint8 {
    ((a as bv8) | (b as bv8)) as uint8
  }

  function And8(a: uint8, b: uint8): uint8 {
    ((a as bv8) & (b as bv8)) as uint8
  }

  function Xor8(a: uint8, b: uint8): uint8 {
    ((a as bv8) ^ (b as bv8)) as uint8
  }
}
