/** JavaScript integer arithmetic on whole numbers: `Math.floor(a / d)` and the truncating `%`. */
module JsNumber {

  /** `Math.floor(a / d)` for a positive divisor; Dafny's `/` already rounds down when `d > 0`. */
  function FloorDiv(a: int, d: int): (q: int)
    requires d > 0
    ensures q * d <= a < (q + 1) * d
  {
    var q := a / d;
    assert a == d * q + a % d;
    q
  }

  /** JavaScript `a % d`: the remainder takes the sign of the dividend, and the dividend minus it
      is a multiple of the divisor. */
  function JsRem(a: int, d: int): (r: int)
    requires d > 0
    ensures a >= 0 ==> 0 <= r < d
    ensures a < 0 ==> -d < r <= 0
    ensures (a - r) % d == 0
  {
    if a >= 0 then
      assert a - a % d == d * (a / d);
      MultipleRem(d, a / d);
      a % d
    else
      var b := -a;
      assert a + b % d == -(d * (b / d));
      MultipleRem(d, -(b / d));
      -(b % d)
  }

  /** A multiple of `d` leaves no remainder. */
  lemma MultipleRem(d: int, k: int)
    requires d > 0
    ensures (d * k) % d == 0
  {
    DivUnique(d * k, d, k, 0);
  }

  /** The sign, the bounds and the divisibility pin the remainder down: any value meeting them is
      `JsRem(a, d)`. */
  lemma JsRemUnique(a: int, d: int, r: int)
    requires d > 0
    requires a >= 0 ==> 0 <= r < d
    requires a < 0 ==> -d < r <= 0
    requires (a - r) % d == 0
    ensures r == JsRem(a, d)
  {
    var s := JsRem(a, d);
    var k, j := (a - r) / d, (a - s) / d;
    assert a - r == d * k + (a - r) % d;
    assert a - s == d * j + (a - s) % d;
    assert s - r == d * (k - j) by {
      assert d * (k - j) == d * k - d * j;
    }
    if k > j {
      MulAtLeast(d, k - j);
    } else if k < j {
      MulAtLeast(d, j - k);
    }
  }

  /** The truncating remainder is odd in the dividend, unlike Euclidean `%`. */
  lemma JsRemOdd(a: int, d: int)
    requires d > 0
    ensures JsRem(-a, d) == -JsRem(a, d)
  {
  }

  /** On non-negative numbers the two operators agree with Euclidean division. */
  lemma JsDivRemNonNegative(a: int, d: int)
    requires a >= 0 && d > 0
    ensures FloorDiv(a, d) * d + JsRem(a, d) == a
  {
    assert a == d * (a / d) + a % d;
  }

  /** Quotient and remainder are unique: the facts behind every "h and m" decomposition. */
  lemma DivUnique(a: int, d: int, q: int, r: int)
    requires d > 0 && 0 <= r < d && a == d * q + r
    ensures a / d == q && a % d == r
  {
    var q', r' := a / d, a % d;
    assert a == d * q' + r';
    assert d * (q - q') == r' - r by {
      assert d * (q - q') == d * q - d * q';
    }
    if q' < q {
      MulAtLeast(d, q - q');
    } else if q' > q {
      MulAtLeast(d, q' - q);
    }
  }

  lemma {:induction false} MulAtLeast(d: int, k: int)
    requires d > 0 && k >= 1
    ensures d * k >= d
    decreases k
  {
    if k > 1 {
      MulAtLeast(d, k - 1);
      assert d * k == d * (k - 1) + d;
    }
  }
}
