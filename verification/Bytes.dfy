/**
 Bytes, machine integers and outcomes shared by the models of the wire parsers.
 */
module Bytes {

  type byte = b: int | 0 <= b < 256

  const MAX_INT := 0x7FFF_FFFF_FFFF_FFFF
  /** Lengths of buffers: no slice comes within two bytes of the largest int. */
  const MAX_LEN := MAX_INT - 2
  const TWO_32 := 0x1_0000_0000
  const TWO_63 := 0x8000_0000_0000_0000
  const TWO_64 := 0x1_0000_0000_0000_0000

  /** Nanoseconds in a second. */
  const SECOND := 1_000_000_000

  const CR: byte := 13
  const LF: byte := 10

  datatype Option<+T> = None | Some(value: T)

  /** What a Go call does: it returns a value, returns an error, or panics. */
  datatype Outcome<+T, +E> = Ok(value: T) | Fail(error: E) | Panic

  /** Two's complement wrap-around of Go's 64-bit `int`. */
  function WrapInt64(x: int): int
  {
    (x + TWO_63) % TWO_64 - TWO_63
  }

  /** Addition of two 64-bit ints, wrapping around. */
  function AddInt64(x: int, y: int): int
  {
    if x + y > MAX_INT then x + y - TWO_64
    else if x + y < -TWO_63 then x + y + TWO_64
    else x + y
  }

  function Pow2(n: nat): (p: nat)
    ensures p >= 1
  {
    if n == 0 then 1 else 2 * Pow2(n - 1)
  }

  /** The bytes of an ASCII literal. */
  function Ascii(s: string): seq<byte>
  {
    seq(|s|, i requires 0 <= i < |s| => s[i] as int % 256)
  }

  lemma {:induction false} Pow2Sum(a: nat, b: nat)
    ensures Pow2(a + b) == Pow2(a) * Pow2(b)
  {
    if a > 0 { Pow2Sum(a - 1, b); }
  }

  lemma Pow2Monotone(a: nat, b: nat)
    requires a <= b
    ensures Pow2(a) <= Pow2(b)
  {
    Pow2Sum(a, b - a);
    assert Pow2(a) * Pow2(b - a) >= Pow2(a) * 1;
  }

  lemma SmallPow2()
    ensures Pow2(1) == 2 && Pow2(4) == 16 && Pow2(5) == 32 && Pow2(6) == 64
  {
  }

  lemma Pow2Values()
    ensures Pow2(6) == 64 && Pow2(17) == 0x2_0000 && Pow2(34) == 0x4_0000_0000
    ensures Pow2(7) == 128 && Pow2(8) == 256 && Pow2(64) == TWO_64
    ensures Pow2(55) == 0x80_0000_0000_0000 && Pow2(56) == 0x100_0000_0000_0000
    ensures Pow2(62) == 0x4000_0000_0000_0000 && Pow2(63) == TWO_63
  {
    SmallPow2();
    hide Pow2;
    Pow2Sum(6, 5);
    Pow2Sum(6, 11);
    Pow2Sum(17, 17);
    Pow2Sum(34, 11);
    Pow2Sum(45, 17);
    Pow2Sum(62, 1);
    Pow2Sum(63, 1);
    Pow2Sum(6, 1);
    Pow2Sum(7, 1);
    Pow2Sum(6, 4);
    Pow2Sum(45, 10);
    Pow2Sum(55, 1);
  }
}
