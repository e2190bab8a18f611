/** Java `int` arithmetic, stated on Dafny's unbounded integers.
    Java keeps the low-order 32 bits of a sum, difference or product
    (section 15.17.1 and 15.18.2 of the Java Language Specification),
    divides rounding toward zero (section 15.17.2), takes the remainder
    with the sign of the dividend (section 15.17.3), and narrows a
    `double` to `int` by rounding toward zero and saturating at the
    bounds (section 5.1.3). */
module JavaInt {

  const MIN: int := -0x8000_0000
  const MAX: int := 0x7fff_ffff
  const MODULUS: int := 0x1_0000_0000

  /** The values of a Java `int`. */
  type int32 = x: int | -0x8000_0000 <= x < 0x8000_0000

  function Abs(x: int): nat
  {
    if x < 0 then -x else x
  }

  /** The Java `int` that a mathematical result wraps to. */
  function Wrap(x: int): (r: int32)
    ensures (r - x) % MODULUS == 0
    ensures MIN <= x <= MAX ==> r == x
  {
    var k := x - MIN;
    assert k == MODULUS * (k / MODULUS) + k % MODULUS;
    assert (k % MODULUS + MIN) - x == MODULUS * -(k / MODULUS);
    k % MODULUS + MIN
  }

  /** Integer quotient rounded toward zero. */
  function TruncDiv(a: int, b: int): int
    requires b != 0
  {
    if (a < 0) == (b < 0) then Abs(a) / Abs(b) else -(Abs(a) / Abs(b))
  }

  /** Integer remainder whose sign follows the dividend. */
  function TruncRem(a: int, b: int): int
    requires b != 0
  {
    if a < 0 then -(Abs(a) % Abs(b)) else Abs(a) % Abs(b)
  }

  /** The quotient and remainder fit together as Java promises:
      `(a / b) * b + a % b == a`, the remainder is smaller than the
      divisor in magnitude and is zero or has the sign of the dividend,
      and the quotient never exceeds the dividend in magnitude. */
  lemma TruncDivision(a: int, b: int)
    requires b != 0
    ensures a == b * TruncDiv(a, b) + TruncRem(a, b)
    ensures Abs(TruncRem(a, b)) < Abs(b)
    ensures TruncRem(a, b) != 0 ==> (TruncRem(a, b) < 0 <==> a < 0)
    ensures Abs(TruncDiv(a, b)) <= Abs(a)
  {
    var A: int, B: int := Abs(a), Abs(b);
    var q, r := A / B, A % B;
    NaturalDivision(A, B);
    assert a == (if a < 0 then -A else A);
    assert b == (if b < 0 then -B else B);
    if a < 0 && b < 0 {
      Negate(B, q);
      assert a == b * q - r;
    } else if a < 0 {
      Negate(B, q);
      assert a == b * -q - r;
    } else if b < 0 {
      Negate(B, q);
      assert a == b * -q + r;
    }
  }

  /** Euclidean division on naturals, with the quotient bounded by the dividend. */
  lemma NaturalDivision(A: nat, B: nat)
    requires B > 0
    ensures A == B * (A / B) + A % B && 0 <= A % B < B
    ensures 0 <= A / B <= A
  {
    var q := A / B;
    assert A == B * q + A % B;
    MulNonnegative(B - 1, q);
    assert B * q == (B - 1) * q + q;
  }

  lemma MulNonnegative(x: nat, y: nat)
    ensures x * y >= 0
  {
  }

  lemma Negate(x: int, y: int)
    ensures (-x) * y == -(x * y) == x * (-y)
    ensures (-x) * (-y) == x * y
  {
  }

  /** Java's `a / b` on `int`. */
  function JavaDiv(a: int32, b: int32): (r: int32)
    requires b != 0
    ensures !(a == MIN && b == -1) ==> r == TruncDiv(a, b)
    ensures a == MIN && b == -1 ==> r == MIN
  {
    TruncDivision(a, b);
    Wrap(TruncDiv(a, b))
  }

  /** Java's `a % b` on `int`: the remainder always fits, so nothing wraps. */
  function JavaRem(a: int32, b: int32): (r: int32)
    requires b != 0
    ensures Abs(r) < Abs(b)
  {
    TruncDivision(a, b);
    TruncRem(a, b)
  }

  /** The one `int` division that overflows is `MIN / -1`, which gives back `MIN`. */
  lemma DivisionOverflow(a: int32, b: int32)
    requires b != 0
    ensures JavaDiv(a, b) != TruncDiv(a, b) <==> a == MIN && b == -1
    ensures a == MIN && b == -1 ==> JavaDiv(a, b) == MIN
  {
  }

  /** `a` raised to the power `n`, exactly. */
  function Power(a: int, n: nat): int
  {
    if n == 0 then 1 else a * Power(a, n - 1)
  }

  /** Narrowing of an integral `double` to `int`: out-of-range values stick at the bounds. */
  function Saturate(x: int): (r: int32)
    ensures MIN <= x <= MAX ==> r == x
    ensures x > MAX ==> r == MAX
    ensures x < MIN ==> r == MIN
  {
    if x < MIN then MIN else if x > MAX then MAX else x
  }

  /** `(int) Math.pow(a, b)` for `int` arguments.  Math.pow returns the
      exact power whenever it is representable as a `double`, and is
      within one ulp otherwise, so a non-negative exponent gives the
      exact power clamped to the `int` range.  A negative exponent gives
      a value strictly between -1 and 1 (truncated to 0) unless the base
      is 1 or -1; a zero base gives positive infinity, which narrows to
      `MAX`. */
  function JavaPow(a: int32, b: int32): (r: int32)
    ensures b >= 0 && MIN <= Power(a, b) <= MAX ==> r == Power(a, b)
    ensures b >= 0 && Power(a, b) > MAX ==> r == MAX
    ensures b >= 0 && Power(a, b) < MIN ==> r == MIN
    ensures b < 0 && a == 0 ==> r == MAX
    ensures b < 0 && a != 0 ==> -1 <= r <= 1 && (r == 0 <==> Abs(a) >= 2)
    ensures b < 0 && Abs(a) == 1 ==> r == Power(a, -(b as int))
  {
    if b >= 0 then Saturate(Power(a, b))
    else if a == 0 then MAX
    else if a == 1 || a == -1 then
      UnitPower(a, -(b as int));
      if a == 1 || b % 2 == 0 then 1 else -1
    else 0
  }

  /** A power of 1 is 1; a power of -1 is 1 for an even exponent and -1 for an odd one. */
  lemma {:induction false} UnitPower(a: int, n: nat)
    requires a == 1 || a == -1
    ensures Power(a, n) == if a == 1 || n % 2 == 0 then 1 else -1
  {
    if n > 0 {
      UnitPower(a, n - 1);
    }
  }

  lemma AbsMul(x: int, y: int)
    ensures Abs(x * y) == Abs(x) * Abs(y)
  {
    Negate(x, y);
    MulNonnegative(Abs(x), Abs(y));
  }

  /** While the exact power fits in an `int`, `^` agrees with repeated
      multiplication: `a ^ (b + 1) == a * (a ^ b)`. */
  lemma PowerStep(a: int32, b: int32)
    requires 0 <= b < MAX
    requires MIN <= Power(a, b + 1) <= MAX
    ensures JavaPow(a, b + 1) == Wrap(a as int * JavaPow(a, b) as int)
  {
    var p := Power(a, b);
    assert Power(a, b + 1) == a * p;
    if a == 1 || a == -1 {
      UnitPower(a, b);
    } else if a != 0 {
      AbsMul(a, p);
      MulNonnegative(Abs(a) - 2, Abs(p));
      assert Abs(a) * Abs(p) == (Abs(a) - 2) * Abs(p) + 2 * Abs(p);
      assert 2 * Abs(p) <= 0x8000_0000;
    }
    assert MIN <= p <= MAX;
  }
}
