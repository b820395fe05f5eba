/**
 * Fixed-point decimal numbers: a mantissa with a base-10 scale exponent,
 * value = mant * 10^scale. The scale is a template parameter in the source;
 * here it is a field, and every operation states the scale of its result.
 * Integers are unbounded: the source's int/long widths are not modelled.
 */
module FixedPoint {

  datatype Fixed = Fixed(scale: int, mant: int)

  /** The scale of Money (Money{3} is 3 cents). */
  const MoneyScale: int := -2

  type Money = m: Fixed | m.scale == MoneyScale witness Fixed(MoneyScale, 0)

  /** Money{c}: c cents. */
  function Cents(c: int): Money
  {
    Fixed(MoneyScale, c)
  }

  function Min(a: int, b: int): int { if a <= b then a else b }
  function Max(a: int, b: int): int { if a <= b then b else a }
  function Abs(a: int): nat { if a < 0 then -a else a }

  /** 10^n, the exact integer value of std::pow(10, n) for n >= 0. */
  function Pow10(n: nat): (r: nat)
    ensures r >= 1
  {
    if n == 0 then 1 else 10 * Pow10(n - 1)
  }

  lemma {:induction false} Pow10Add(a: nat, b: nat)
    ensures Pow10(a + b) == Pow10(a) * Pow10(b)
  {
    if a > 0 {
      Pow10Add(a - 1, b);
      assert Pow10(a + b) == 10 * Pow10(a - 1 + b);
    }
  }

  /**
   * q is the C++ quotient of n by d: the quotient truncated toward zero, so
   * the remainder n - q * d is smaller than the divisor in magnitude and is
   * zero or has the sign of the dividend.
   */
  predicate IsTruncQuotient(n: int, d: int, q: int)
  {
    d != 0 && Abs(n - q * d) < Abs(d) && (n >= 0 ==> n - q * d >= 0) && (n <= 0 ==> n - q * d <= 0)
  }

  /** C++ integer division of a by b (b non-zero). */
  function TruncDiv(a: int, b: int): (q: int)
    requires b != 0
    ensures IsTruncQuotient(a, b, q)
  {
    var u := Abs(a) / Abs(b);
    DivNat(Abs(a), Abs(b));
    var q := if (a < 0) == (b < 0) then u else -u;
    TruncDivRemainder(a, b, u, q);
    q
  }

  lemma DivNat(n: int, d: int)
    requires n >= 0 && d > 0
    ensures 0 <= n - (n / d) * d < d
  {
  }

  lemma TruncDivRemainder(a: int, b: int, u: int, q: int)
    requires b != 0 && 0 <= Abs(a) - u * Abs(b) < Abs(b)
    requires q == if (a < 0) == (b < 0) then u else -u
    ensures Abs(a - q * b) < Abs(b)
    ensures a >= 0 ==> a - q * b >= 0
    ensures a <= 0 ==> a - q * b <= 0
  {
    SignedProduct(a, b, u, q);
    if a == 0 && u != 0 {
      ProductsApart(u, 0, Abs(b));
      assert false;
    }
    if a < 0 {
      assert a - q * b == -(Abs(a) - u * Abs(b));
    } else {
      assert a - q * b == Abs(a) - u * Abs(b);
    }
  }

  /** The signed quotient times the divisor is the unsigned product, with the sign of a. */
  lemma SignedProduct(a: int, b: int, u: int, q: int)
    requires b != 0 && q == if (a < 0) == (b < 0) then u else -u
    ensures q * b == if a < 0 then -(u * Abs(b)) else u * Abs(b)
  {
    if b < 0 {
      assert u * b == -(u * Abs(b));
    }
  }

  /** The quotient TruncDiv computes is the only one with the C++ remainder rules. */
  lemma {:induction false} TruncDivUnique(a: int, b: int, q: int)
    requires IsTruncQuotient(a, b, q)
    ensures q == TruncDiv(a, b)
  {
    var t := TruncDiv(a, b);
    SameSignClose(a, a - q * b, a - t * b, Abs(b));
    if q != t {
      ProductsApart(t, q, b);
      assert false;
    }
  }

  /** Two remainders with the dividend's sign, each below m in magnitude, differ by less than m. */
  lemma SameSignClose(a: int, r: int, s: int, m: int)
    requires Abs(r) < m && Abs(s) < m
    requires a >= 0 ==> r >= 0 && s >= 0
    requires a <= 0 ==> r <= 0 && s <= 0
    ensures Abs(s - r) < m
  {
  }

  /** Two different multiples of y are at least |y| apart. */
  lemma ProductsApart(x: int, z: int, y: int)
    requires x != z
    ensures Abs(x * y - z * y) >= Abs(y)
  {
    var k := x - z;
    assert k * y == x * y - z * y;
    if k > 0 && y >= 0 {
      assert k * y >= y;
    } else if k > 0 {
      assert k * y <= y;
    } else if y >= 0 {
      assert k * y <= -y;
    } else {
      assert k * y >= -y;
    }
  }

  /**
   * rescale<NewScaleExp>(): to a finer scale the mantissa is multiplied
   * exactly by 10^(scale - s); to a coarser scale it is divided by
   * 10^(s - scale) and the result truncated toward zero, as the source's
   * conversion of the std::pow product to int does.
   */
  function Rescale(x: Fixed, s: int): (r: Fixed)
    ensures r.scale == s
    ensures s <= x.scale ==> r.mant == x.mant * Pow10(x.scale - s)
    ensures s > x.scale ==> IsTruncQuotient(x.mant, Pow10(s - x.scale), r.mant)
  {
    if s <= x.scale then Fixed(s, x.mant * Pow10(x.scale - s))
    else Fixed(s, TruncDiv(x.mant, Pow10(s - x.scale)))
  }

  /** Rescaling to a value's own scale is the identity. */
  lemma RescaleSelf(x: Fixed)
    ensures Rescale(x, x.scale) == x
  {
  }

  /** Rescaling to a finer scale and back returns the original value. */
  lemma {:induction false} RescaleRoundTrip(x: Fixed, s: int)
    requires s <= x.scale
    ensures Rescale(Rescale(x, s), x.scale) == x
  {
    var y := Rescale(x, s);
    if s < x.scale {
      var d := Pow10(x.scale - s);
      assert y.mant == x.mant * d;
      TruncDivUnique(y.mant, d, x.mant);
    }
  }

  /** Same-scale and mixed-scale +: both operands go to the finer scale and their mantissas are added there exactly. */
  function Add(a: Fixed, b: Fixed): (r: Fixed)
    ensures r.scale == Min(a.scale, b.scale)
    ensures r.mant == a.mant * Pow10(a.scale - r.scale) + b.mant * Pow10(b.scale - r.scale)
  {
    var s := Min(a.scale, b.scale);
    Fixed(s, Rescale(a, s).mant + Rescale(b, s).mant)
  }

  /** Same-scale and mixed-scale -: as Add, with the mantissas subtracted. */
  function Sub(a: Fixed, b: Fixed): (r: Fixed)
    ensures r.scale == Min(a.scale, b.scale)
    ensures r.mant == a.mant * Pow10(a.scale - r.scale) - b.mant * Pow10(b.scale - r.scale)
  {
    var s := Min(a.scale, b.scale);
    Fixed(s, Rescale(a, s).mant - Rescale(b, s).mant)
  }

  /**
   * Same-scale and mixed-scale *: the mantissas are multiplied at the finer
   * scale and the product is then rescaled, truncating toward zero, to the
   * coarser scale. At one scale the result keeps that scale.
   */
  function Mul(a: Fixed, b: Fixed): (r: Fixed)
    ensures r.scale == Max(a.scale, b.scale)
    ensures
      var lo, hi := Min(a.scale, b.scale), Max(a.scale, b.scale);
      var p := (a.mant * Pow10(a.scale - lo)) * (b.mant * Pow10(b.scale - lo));
      IsTruncQuotient(p, Pow10(hi - lo), r.mant)
  {
    var lo, hi := Min(a.scale, b.scale), Max(a.scale, b.scale);
    Rescale(Fixed(lo, Rescale(a, lo).mant * Rescale(b, lo).mant), hi)
  }

  /**
   * Same-scale and mixed-scale /: the mantissas are divided at the finer
   * scale with C++ truncation, and the quotient is rescaled, truncating, to
   * the coarser scale. The divisor must be non-zero.
   */
  function Div(a: Fixed, b: Fixed): (r: Fixed)
    requires b.mant != 0
    ensures r.scale == Max(a.scale, b.scale)
    ensures
      var lo, hi := Min(a.scale, b.scale), Max(a.scale, b.scale);
      var q := TruncDiv(a.mant * Pow10(a.scale - lo), b.mant * Pow10(b.scale - lo));
      IsTruncQuotient(q, Pow10(hi - lo), r.mant)
  {
    var lo, hi := Min(a.scale, b.scale), Max(a.scale, b.scale);
    var bm := Rescale(b, lo).mant;
    assert bm != 0;
    Rescale(Fixed(lo, TruncDiv(Rescale(a, lo).mant, bm)), hi)
  }

  /**
   * Cross-scale ==: the right operand is rescaled to the left operand's
   * scale. When the right operand is the coarser one this compares the
   * represented values exactly.
   */
  function Equal(a: Fixed, b: Fixed): (r: bool)
    ensures a.scale <= b.scale ==> (r <==> a.mant == b.mant * Pow10(b.scale - a.scale))
  {
    a.mant == Rescale(b, a.scale).mant
  }

  /**
   * When the right operand is the finer one, its extra digits are truncated
   * away first: == holds exactly when the left mantissa is the truncated
   * quotient of the right one.
   */
  lemma {:induction false} EqualTruncates(a: Fixed, b: Fixed)
    requires a.scale > b.scale
    ensures Equal(a, b) <==> IsTruncQuotient(b.mant, Pow10(a.scale - b.scale), a.mant)
  {
    if IsTruncQuotient(b.mant, Pow10(a.scale - b.scale), a.mant) {
      TruncDivUnique(b.mant, Pow10(a.scale - b.scale), a.mant);
    }
  }

  /** At one scale, == compares mantissas. */
  lemma EqualSameScale(a: Fixed, b: Fixed)
    requires a.scale == b.scale
    ensures Equal(a, b) <==> a == b
  {
  }

  /** Without truncation == is symmetric: if the right operand is coarser and equal, the reverse comparison holds too. */
  lemma {:induction false} EqualSymmetricWhenExact(a: Fixed, b: Fixed)
    requires a.scale <= b.scale
    requires Equal(a, b)
    ensures Equal(b, a)
  {
    assert Rescale(b, a.scale) == a;
    RescaleRoundTrip(b, a.scale);
  }

  /** With truncation == is directional: 0@4 == 5@3 holds, 5@3 == 0@4 does not. */
  lemma EqualDirectional()
    ensures Equal(Fixed(4, 0), Fixed(3, 5))
    ensures !Equal(Fixed(3, 5), Fixed(4, 0))
  {
    assert Rescale(Fixed(3, 5), 4).mant == TruncDiv(5, 10);
    TruncDivUnique(5, 10, 0);
  }

  /** + is commutative, at one scale or across two. */
  lemma AddCommutes(a: Fixed, b: Fixed)
    ensures Add(a, b) == Add(b, a)
  {
  }

  /** Same-scale (a + b) - b == a. */
  lemma AddSubCancel(a: Fixed, b: Fixed)
    requires a.scale == b.scale
    ensures Sub(Add(a, b), b) == a
  {
  }

  /** Same-scale (a - b) + b == a. */
  lemma SubAddCancel(a: Fixed, b: Fixed)
    requires a.scale == b.scale
    ensures Add(Sub(a, b), b) == a
  {
  }

  /** At one scale the operators act on the mantissas and keep the scale. */
  lemma SameScaleOps(a: Fixed, b: Fixed)
    requires a.scale == b.scale
    ensures Add(a, b) == Fixed(a.scale, a.mant + b.mant)
    ensures Sub(a, b) == Fixed(a.scale, a.mant - b.mant)
    ensures Mul(a, b) == Fixed(a.scale, a.mant * b.mant)
    ensures b.mant != 0 ==> Div(a, b) == Fixed(a.scale, TruncDiv(a.mant, b.mant))
  {
    assert Pow10(0) == 1;
  }

  /** Same-scale / truncates toward zero with the C++ sign rules. */
  lemma DivSameScale(a: Fixed, b: Fixed)
    requires a.scale == b.scale && b.mant != 0
    ensures Div(a, b) == Fixed(a.scale, TruncDiv(a.mant, b.mant))
  {
  }

  /** Money{500} is five whole units under cross-scale ==, in both directions. */
  lemma {:induction false} MoneyWholeUnits(n: int)
    ensures Equal(Cents(100 * n), Fixed(0, n))
    ensures Equal(Fixed(0, n), Cents(100 * n))
  {
    assert Pow10(2) == 100;
    TruncDivUnique(100 * n, 100, n);
  }

  /** The rescaling examples of the source's tests. */
  lemma RescaleExamples()
    ensures Rescale(Fixed(4, 123), 4) == Fixed(4, 123)
    ensures Rescale(Fixed(4, 123), 3) == Fixed(3, 1230)
    ensures Rescale(Fixed(-3, 123), -4) == Fixed(-4, 1230)
    ensures Rescale(Fixed(3, 123), 4) == Fixed(4, 12)
    ensures Rescale(Fixed(-4, 123), -3) == Fixed(-3, 12)
  {
    TruncDivUnique(123, 10, 12);
  }

  /** The mixed-scale arithmetic examples of the source's tests. */
  lemma MixedArithmeticExamples()
    ensures Equal(Add(Fixed(3, 1), Fixed(4, 2)), Fixed(3, 21))
    ensures Equal(Add(Fixed(4, 1), Fixed(3, 2)), Fixed(3, 12))
    ensures Equal(Add(Fixed(-3, 1), Fixed(-4, 2)), Fixed(-4, 12))
    ensures Equal(Add(Fixed(-4, 1), Fixed(-3, 2)), Fixed(-4, 21))
    ensures Equal(Sub(Fixed(4, 3), Fixed(3, 2)), Fixed(3, 28))
    ensures Equal(Mul(Fixed(4, 3), Fixed(3, 2)), Fixed(4, 6))
    ensures Equal(Div(Fixed(4, 1), Fixed(3, 2)), Fixed(3, 5))
    ensures Equal(Div(Fixed(4, 1), Fixed(4, 2)), Fixed(3, 5))
    ensures Equal(Div(Fixed(4, -10), Fixed(4, 2)), Fixed(4, -5))
    ensures Equal(Div(Fixed(4, 10), Fixed(4, -2)), Fixed(4, -5))
  {
    TruncDivUnique(60, 10, 6);
    TruncDivUnique(10, 2, 5);
    TruncDivUnique(5, 10, 0);
    TruncDivUnique(1, 2, 0);
    TruncDivUnique(-10, 2, -5);
    TruncDivUnique(10, -2, -5);
  }

  /** Zero is zero at every scale: == holds between zeros at any two scales. */
  lemma {:induction false} EqualZeros(s: int, t: int)
    ensures Equal(Fixed(s, 0), Fixed(t, 0))
  {
    if s > t {
      var p := Pow10(s - t);
      assert 0 * p == 0;
      TruncDivUnique(0, p, 0);
    }
  }

  /** The cross-scale equalities of the source's tests between 10@3 and 1@4, in either order. */
  lemma CrossScaleEqualExamples()
    ensures Equal(Fixed(3, 10), Fixed(4, 1)) && Equal(Fixed(4, 1), Fixed(3, 10))
  {
    TruncDivUnique(10, 10, 1);
  }
}
