/**
 * Shared vocabulary for the model: Java's null (Option), Java's
 * NullPointerException (Result), and Java's integer arithmetic where it
 * differs from Dafny's (truncating division, 32-bit wrap-around).
 */
module Base {

  /** A Java reference that may be null. */
  datatype Option<+T> = None | Some(value: T)

  /** The outcome of a Java call that either returns or throws a NullPointerException. */
  datatype Result<+T> = Ok(value: T) | NullPointer

  /** Java's `/` on integers: the quotient truncated toward zero. */
  function JavaDiv(a: int, b: int): (q: int)
    requires b > 0
    ensures a >= 0 ==> q * b <= a < q * b + b
    ensures a < 0 ==> q * b - b < a <= q * b
  {
    if a >= 0 then a / b else -((-a) / b)
  }

  /** Java's `%` on integers: the remainder takes the sign of the dividend. */
  function JavaRem(a: int, b: int): (r: int)
    requires b > 0
    ensures a == JavaDiv(a, b) * b + r
    ensures a >= 0 ==> r == a % b && 0 <= r < b
    ensures a < 0 ==> -b < r <= 0
  {
    a - b * JavaDiv(a, b)
  }

  const TWO_32: int := 0x1_0000_0000
  const INT_MIN: int := -0x8000_0000
  const INT_MAX: int := 0x7FFF_FFFF

  /** Java's `int` arithmetic: the value congruent to `x` modulo 2^32 in [-2^31, 2^31). */
  function Wrap32(x: int): (r: int)
    ensures INT_MIN <= r <= INT_MAX
    ensures (x - r) % TWO_32 == 0
    ensures INT_MIN <= x <= INT_MAX ==> r == x
  {
    (x - INT_MIN) % TWO_32 + INT_MIN
  }

  /** Values congruent modulo 2^32 wrap to the same `int`. */
  lemma Wrap32Congruent(x: int, y: int)
    requires (x - y) % TWO_32 == 0
    ensures Wrap32(x) == Wrap32(y)
  {
    var rx, ry := Wrap32(x), Wrap32(y);
    var d := (x - rx) - (y - ry) + (y - x);
    assert d == ry - rx;
    var qx, qy, q := (x - rx) / TWO_32, (y - ry) / TWO_32, (x - y) / TWO_32;
    assert x - rx == qx * TWO_32 && y - ry == qy * TWO_32 && x - y == q * TWO_32;
    assert ry - rx == (qx - qy - q) * TWO_32;
  }

  /** One step `31*h + c` of a 32-bit hash gives the same `int` from any congruent `h`. */
  lemma Wrap32HashStep(w: int, x: int, c: int)
    requires (x - w) % TWO_32 == 0
    ensures Wrap32(31 * w + c) == Wrap32(31 * x + c)
  {
    var q := (x - w) / TWO_32;
    assert x - w == q * TWO_32;
    assert (31 * x + c) - (31 * w + c) == (31 * q) * TWO_32;
    Wrap32Congruent(31 * w + c, 31 * x + c);
  }
}
