/** Bytes and the fixed-width arithmetic that the C code relies on. */
module Bytes {
  type byte = b: int | 0 <= b < 256

  const TWO16 := 0x1_0000
  const TWO32 := 0x1_0000_0000
  const TWO64 := 0x1_0000_0000_0000_0000

  /** Unsigned 32-bit wrap-around. */
  function Wrap32(x: int): int {
    x % TWO32
  }

  /** The value of a byte read through a `signed char`. */
  function Signed(b: byte): int {
    if b < 128 then b else b - 256
  }

  predicate IsPowerOf2(n: nat) {
    n == 1 || (n > 1 && n % 2 == 0 && IsPowerOf2(n / 2))
  }

  function Zeros(n: nat): (z: seq<byte>)
    ensures |z| == n && forall i :: 0 <= i < n ==> z[i] == 0
  {
    seq<byte>(n, _ => 0)
  }

  lemma Associative<T>(a: seq<T>, b: seq<T>, c: seq<T>)
    ensures a + b + c == a + (b + c)
  {
  }
}
