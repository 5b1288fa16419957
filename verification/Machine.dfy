/** Numbers as the machine has them. */
module Machine {

  const WRAP := 0x1_0000_0000      // unsigned arithmetic is modulo this

  type byte = x: int | 0 <= x < 256
  type Bytes = seq<byte>

  function Min(a: int, b: int): int {
    if a < b then a else b
  }

  function Max(a: int, b: int): int {
    if a < b then b else a
  }
}
