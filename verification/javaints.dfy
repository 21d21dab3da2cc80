/** Java's 32-bit `int`, its narrowing cast from `long`, and its truncating division. */
module JavaInts {

  const IntMin: int := -0x8000_0000
  const IntMax: int := 0x7fff_ffff

  /** The values of a Java `int`. */
  type Int32 = x: int | -0x8000_0000 <= x <= 0x7fff_ffff

  /** `(int) x`: keeps the low 32 bits of `x` as a two's-complement value. */
  function WrapInt32(x: int): (r: Int32)
    ensures (r - x) % 0x1_0000_0000 == 0
    ensures IntMin <= x <= IntMax ==> r == x
  {
    var m := x % 0x1_0000_0000;
    if m <= IntMax then m else m - 0x1_0000_0000
  }

  /** Java's `/` on integers: the quotient rounded toward zero. */
  function TruncDiv(a: int, b: int): (q: int)
    requires b > 0
    ensures a >= 0 ==> q == a / b
    ensures a < 0 ==> q == -((-a) / b)
  {
    if a >= 0 then a / b else -((-a) / b)
  }

  /**
   * The truncated quotient brackets the dividend from the side of zero, and differs
   * from Dafny's floor-like division exactly for negative non-multiples.
   */
  lemma {:induction false} TruncDivBracket(a: int, b: int)
    requires b > 0
    ensures a >= 0 ==> TruncDiv(a, b) * b <= a < (TruncDiv(a, b) + 1) * b
    ensures a < 0 ==> (TruncDiv(a, b) - 1) * b < a <= TruncDiv(a, b) * b
    ensures TruncDiv(a, b) == (if a < 0 && a % b != 0 then a / b + 1 else a / b)
  {
    if a < 0 {
      NegativeQuotient(a, b);
    } else {
      var q := a / b;
      assert a == q * b + a % b;
      assert (q + 1) * b == q * b + b;
    }
  }

  /** For a negative dividend the truncated quotient is minus the quotient of its magnitude. */
  lemma {:induction false} NegativeQuotient(a: int, b: int)
    requires b > 0 && a < 0
    ensures (TruncDiv(a, b) - 1) * b < a <= TruncDiv(a, b) * b
    ensures TruncDiv(a, b) == (if a % b != 0 then a / b + 1 else a / b)
  {
    var p := (-a) / b;
    var r := (-a) % b;
    var pb := p * b;
    assert -a == pb + r && 0 <= r < b;
    assert TruncDiv(a, b) == -p;
    assert (-p) * b == -pb && (-p - 1) * b == -pb - b;
    if r == 0 {
      DivModUnique(a, b, -p, 0);
    } else {
      DivModUnique(a, b, -p - 1, b - r);
    }
  }

  /** Division and remainder are determined by any decomposition with a remainder in range. */
  lemma {:induction false} DivModUnique(a: int, b: int, q: int, r: int)
    requires b > 0 && a == q * b + r && 0 <= r < b
    ensures a / b == q && a % b == r
  {
    var q0 := a / b;
    var r0 := a % b;
    assert a == q0 * b + r0 && 0 <= r0 < b;
    assert (q - q0) * b == r0 - r;
    if q > q0 {
      MulAtLeast(q - q0, b);
    } else if q < q0 {
      MulAtLeast(q0 - q, b);
    }
  }

  lemma {:induction false} MulAtLeast(k: int, b: int)
    requires k >= 1 && b > 0
    ensures k * b >= b
  {
  }
}
