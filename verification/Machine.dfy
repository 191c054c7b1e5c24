/**
 Machine integers, bytes and result types shared by the other modules.

 Dafny's integers are unbounded, so every width the program relies on is written out:
 a Go `int` has 64 bits, and the length of a Go slice never exceeds MAX_INT.
 */
module Machine {

  const MAX_INT: int := 0x7FFF_FFFF_FFFF_FFFF
  const TWO_31: int := 0x8000_0000
  const TWO_32: int := 0x1_0000_0000
  const TWO_64: int := 0x1_0000_0000_0000_0000

  type byte = b: int | 0 <= b < 0x100
  type uint32 = x: int | 0 <= x < 0x1_0000_0000
  type uint64 = x: int | 0 <= x < 0x1_0000_0000_0000_0000
  type int32 = x: int | -0x8000_0000 <= x < 0x8000_0000

  datatype Option<+T> = None | Some(value: T)
  datatype Result<+T, +E> = Ok(value: T) | Err(error: E)

  /** Reads 64 bits as a signed integer (two's complement). */
  function ToInt64(x: uint64): int {
    if x > MAX_INT then x - TWO_64 else x
  }

  /** Reads 32 bits as a signed integer (two's complement). */
  function ToInt32(x: uint32): int32 {
    if x >= TWO_31 then x - TWO_32 else x
  }

  /** The 64 bits of a sign-extended int32, as Go's uint64(x) gives them. */
  function SignExtend(x: int32): uint64 {
    if x < 0 then x + TWO_64 else x
  }

  /** The sum of two non-negative Go ints, which wraps around to a negative number. */
  function AddInt(a: int, b: int): int
    requires 0 <= a <= MAX_INT && 0 <= b <= MAX_INT
  {
    if a + b > MAX_INT then a + b - TWO_64 else a + b
  }

  /** Narrowing a sign-extended int32 to its low 32 bits gives it back. */
  lemma SignExtendNarrows(x: int32)
    ensures ToInt32(SignExtend(x) % TWO_32) == x
  {
    if x < 0 {
      assert (x + TWO_64) % TWO_32 == x + TWO_32;
    }
  }
}
