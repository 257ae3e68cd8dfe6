/**
 * C#'s `int` and its default (unchecked) arithmetic: every `+`, `-` and `*`
 * on two `int`s wraps around modulo 2^32 into the signed 32-bit range.
 */
module Int32 {
  const MinValue: int := -0x8000_0000
  const MaxValue: int := 0x7FFF_FFFF
  const Modulus: int := 0x1_0000_0000

  type Int32 = x: int | MinValue <= x <= MaxValue

  /** The two's-complement value an unchecked operation with exact result `x` yields. */
  function Wrap(x: int): (r: Int32)
    ensures MinValue <= x <= MaxValue ==> r == x
  {
    (x - MinValue) % Modulus + MinValue
  }

  /** The wrapped value differs from the exact one by a multiple of 2^32. */
  lemma WrapOffset(x: int)
    ensures Wrap(x) == x - ((x - MinValue) / Modulus) * Modulus
  {
  }

  /** Adding a multiple of 2^32 does not change the wrapped value. */
  lemma {:induction false} WrapShift(x: int, k: int)
    ensures Wrap(x + k * Modulus) == Wrap(x)
  {
    var q := (x - MinValue) / Modulus;
    var q' := (x + k * Modulus - MinValue) / Modulus;
    WrapOffset(x);
    WrapOffset(x + k * Modulus);
    assert x + k * Modulus - q' * Modulus == x - (q' - k) * Modulus;
    assert Wrap(x + k * Modulus) == x - (q' - k) * Modulus;
    assert q' - k == q by {
      assert Wrap(x) - Wrap(x + k * Modulus) == (q' - k - q) * Modulus;
    }
  }

  /** Wrapping an operand of an addition first gives the same result. */
  lemma WrapAdd(a: int, b: int)
    ensures Wrap(Wrap(a) + b) == Wrap(a + b)
  {
    var q := (a - MinValue) / Modulus;
    WrapOffset(a);
    assert Wrap(a) + b == a + b + (-q) * Modulus;
    WrapShift(a + b, -q);
  }

  /** Wrapping a factor of a multiplication first gives the same result. */
  lemma WrapMul(a: int, b: int)
    ensures Wrap(a * Wrap(b)) == Wrap(a * b)
  {
    var q := (b - MinValue) / Modulus;
    WrapOffset(b);
    calc {
      a * Wrap(b);
      a * (b - q * Modulus);
      a * b + (-(a * q)) * Modulus;
    }
    WrapShift(a * b, -(a * q));
  }
}
