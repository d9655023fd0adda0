/**
 * Java integer arithmetic as the timer service uses it.
 *
 * Java's `/` and `%` truncate toward zero, whereas Dafny's are Euclidean, so the
 * two operators are written out here.  The `(int)` cast that narrows a `long`
 * to a 32-bit `int` keeps the low 32 bits, read as a two's-complement value.
 */
module JavaMath {

  const INT_MIN: int := -0x8000_0000
  const INT_MAX: int := 0x7FFF_FFFF
  const TWO_32: int := 0x1_0000_0000

  /** True of the values a Java `int` can hold. */
  predicate IsInt(x: int) {
    INT_MIN <= x <= INT_MAX
  }

  /**
   * Java's `a / b` for a positive divisor: the quotient is rounded toward zero,
   * so the remainder left over has the sign of the dividend.
   */
  function Div(a: int, b: int): (q: int)
    requires b > 0
    ensures a >= 0 ==> 0 <= a - b * q < b
    ensures a < 0 ==> -b < a - b * q <= 0
  {
    if a >= 0 then
      a / b
    else
      var p := (-a) / b;
      assert b * -p == -(b * p);
      -p
  }

  /**
   * Java's `a % b` for a positive divisor: it differs from `a` by a multiple
   * of `b`, it is smaller than `b` in magnitude, and it is never of the
   * opposite sign to `a`.
   */
  function Rem(a: int, b: int): (r: int)
    requires b > 0
    ensures a >= 0 ==> 0 <= r < b
    ensures a < 0 ==> -b < r <= 0
    ensures r == if a >= 0 then a % b else -((-a) % b)
  {
    var q := Div(a, b);
    if a >= 0 then
      assert a == b * (a / b) + a % b;
      a - b * q
    else
      assert -a == b * ((-a) / b) + (-a) % b;
      a - b * q
  }

  /** Quotient and remainder recompose the dividend, as they do in Java. */
  lemma DivRem(a: int, b: int)
    requires b > 0
    ensures b * Div(a, b) + Rem(a, b) == a
  {
  }

  /**
   * Java's narrowing cast `(int) x` of a `long`: the result is an `int` that
   * agrees with `x` modulo 2^32, and an `x` that already fits is unchanged.
   */
  function ToInt(x: int): (r: int)
    ensures IsInt(r)
    ensures (x - r) % TWO_32 == 0
    ensures IsInt(x) ==> r == x
  {
    var low := (x - INT_MIN) % TWO_32;
    assert x - (low + INT_MIN) == TWO_32 * ((x - INT_MIN) / TWO_32);
    low + INT_MIN
  }

  /** On non-negative dividends Java's operators agree with Dafny's. */
  lemma DivRemNonNegative(a: int, b: int)
    requires a >= 0 && b > 0
    ensures Div(a, b) == a / b && Rem(a, b) == a % b
  {
  }

  /** Truncation is symmetric: negating the dividend negates both results. */
  lemma DivRemNegate(a: int, b: int)
    requires b > 0
    ensures Div(-a, b) == -Div(a, b)
    ensures Rem(-a, b) == -Rem(a, b)
  {
    var q := Div(a, b);
    var n := -a;
    if a > 0 {
      assert n < 0 && -n == a;
      assert Div(n, b) == -((-n) / b);
    } else if a < 0 {
      assert n > 0 && -a == n;
      assert Div(a, b) == -(n / b);
    }
    assert Div(n, b) == -q;
    assert b * -q == -(b * q);
  }

  /** Multiplying by a positive factor preserves order. */
  lemma MulMonotone(b: int, x: int, y: int)
    requires b > 0 && x <= y
    ensures b * x <= b * y
  {
    var d := y - x;
    assert b * y == b * x + b * d;
    assert b * d >= 0;
  }

  /** Truncating division by a positive divisor is monotone in the dividend. */
  lemma DivMonotone(a1: int, a2: int, b: int)
    requires b > 0 && a1 <= a2
    ensures Div(a1, b) <= Div(a2, b)
  {
    var q1, q2 := Div(a1, b), Div(a2, b);
    if q1 > q2 {
      MulMonotone(b, q2 + 1, q1);
      assert b * (q2 + 1) == b * q2 + b;
      if a2 < 0 || 0 <= a1 {
        // the two dividends would lie more than a quotient step apart
        assert false;
      } else {
        // a1 < 0 <= a2: then q1 <= 0 <= q2
        if q1 > 0 {
          MulMonotone(b, 1, q1);
        }
        if q2 < 0 {
          MulMonotone(b, q2, -1);
        }
        assert false;
      }
    }
  }

  /** Dividing by `x` and then by `y` equals dividing once by `x * y`, for non-negative values. */
  lemma DivDivNonNegative(a: nat, x: int, y: int)
    requires x > 0 && y > 0
    ensures (a / x) / y == a / (x * y)
  {
    var q := a / x;
    var r := a % x;
    var q2 := q / y;
    var r2 := q % y;
    assert a == x * q + r;
    assert q == y * q2 + r2;
    assert x * q == (x * y) * q2 + x * r2 by {
      assert x * (y * q2 + r2) == x * (y * q2) + x * r2;
    }
    MulMonotone(x, r2, y - 1);
    assert x * (y - 1) == x * y - x;
    assert 0 <= r2;
    MulMonotone(x, 0, r2);
    assert 0 <= x * r2 + r < x * y;
    MulMonotone(x, 1, y);
    DivUnique(a, x * y, q2, x * r2 + r);
  }

  /** Euclidean quotients are determined by the division equation. */
  lemma DivUnique(a: int, b: int, q: int, r: int)
    requires b > 0 && a == b * q + r && 0 <= r < b
    ensures a / b == q
  {
    var q0, r0 := a / b, a % b;
    var d := q0 - q;
    assert b * q0 == b * q + b * d;
    assert b * d == r - r0;
    if d >= 1 {
      MulMonotone(b, 1, d);
      assert false;
    } else if d <= -1 {
      MulMonotone(b, d, -1);
      assert false;
    }
  }

  /**
   * Truncating division by 60 twice is truncating division by 3600, for every
   * dividend: the hours figure of a formatted duration is its minutes figure
   * divided by 60.
   */
  lemma DivSixtyTwice(a: int)
    ensures Div(Div(a, 60), 60) == Div(a, 3600)
  {
    if a >= 0 {
      DivDivNonNegative(a, 60, 60);
    } else {
      DivDivNonNegative(-a, 60, 60);
      DivRemNegate(a, 60);
      DivRemNegate(Div(-a, 60), 60);
      DivRemNegate(a, 3600);
    }
  }
}
