/**
 The bit mask of AudioOutSetVolume, a signed 32-bit value that the loop tests
 with `& 1` and shifts right by one per channel.
 */
module Bits {

  /** 2 to the power `n`. */
  function Pow2(n: nat): (p: nat)
    ensures p >= 1
  {
    if n == 0 then 1 else 2 * Pow2(n - 1)
  }

  /** The mask after `n` right shifts. On a two's-complement value the shift
      is arithmetic, which is floor division by 2, and that is what Dafny's
      `/` by a positive divisor computes on every integer. */
  function Shr(flag: int, n: nat): int {
    if n == 0 then flag else Shr(flag, n - 1) / 2
  }

  /** Bit `i` of the mask, as the loop reads it: after `i` shifts, `& 1`
      keeps the lowest two's-complement bit, the remainder modulo 2. */
  predicate Bit(flag: int, i: nat) {
    Shr(flag, i) % 2 == 1
  }

  lemma DivUnique(a: int, d: int, q: int, r: int)
    requires d > 0 && a == q * d + r && 0 <= r < d
    ensures a / d == q && a % d == r
  {
    var q0, r0 := a / d, a % d;
    assert a == q0 * d + r0;
    assert (q - q0) * d == r0 - r by {
      assert (q - q0) * d == q * d - q0 * d;
    }
    if q0 < q {
      MulAtLeast(q - q0, d);
    } else if q < q0 {
      MulAtLeast(q0 - q, d);
    }
  }

  lemma MulAtLeast(k: int, d: int)
    requires k >= 1 && d > 0
    ensures k * d >= d
  {
  }

  lemma DivHalf(a: int, b: int)
    requires b > 0
    ensures (a / b) / 2 == a / (2 * b)
  {
    var q, r := a / b, a % b;
    var q2, r2 := q / 2, q % 2;
    assert q == 2 * q2 + r2;
    assert a == q * b + r;
    assert a == q2 * (2 * b) + (r2 * b + r) by {
      assert q * b == (2 * q2 + r2) * b;
    }
    assert 0 <= r2 * b + r < 2 * b by {
      assert r2 == 0 || r2 == 1;
    }
    DivUnique(a, 2 * b, q2, r2 * b + r);
  }

  /** Shifting right `n` times is dividing by 2^n, rounding toward minus
      infinity: so `Bit` is the `i`-th binary digit of the two's-complement value. */
  lemma {:induction false} ShrIsDivPow2(flag: int, n: nat)
    ensures Shr(flag, n) == flag / Pow2(n)
  {
    if n > 0 {
      ShrIsDivPow2(flag, n - 1);
      DivHalf(flag, Pow2(n - 1));
    }
  }

  /** The empty mask selects no channel. */
  lemma {:induction false} ZeroHasNoBits(i: nat)
    ensures Shr(0, i) == 0
    ensures !Bit(0, i)
  {
    if i > 0 {
      ZeroHasNoBits(i - 1);
    }
  }

  /** The mask 0b11110000 selects exactly channels 4 to 7 of the first eight. */
  lemma RearMaskBits(i: nat)
    requires i < 8
    ensures Bit(0xF0, i) <==> 4 <= i
  {
    ShrIsDivPow2(0xF0, i);
    assert Pow2(0) == 1 && Pow2(1) == 2 && Pow2(2) == 4 && Pow2(3) == 8;
    assert Pow2(4) == 16 && Pow2(5) == 32 && Pow2(6) == 64 && Pow2(7) == 128;
  }
}
