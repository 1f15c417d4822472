/** Elementary facts about products, quotients, squares and bounds of reals.
    `double` is modelled by `real`: rounding, NaN and infinities are not part of it. */
module RealArithmetic {

  function Mul(x: real, y: real): real {
    x * y
  }

  function Square(x: real): real {
    Mul(x, x)
  }

  function Abs(x: real): real {
    if x < 0.0 then -x else x
  }

  function Quotient(x: real, y: real): real
    requires y != 0.0
  {
    x / y
  }

  function Min(x: real, y: real): real {
    if y < x then y else x
  }

  function Max(x: real, y: real): real {
    if x < y then y else x
  }

  /** `std::clamp`; its caller must give `lo <= hi`. */
  function Clamp(x: real, lo: real, hi: real): real
    requires lo <= hi
  {
    if x < lo then lo else if hi < x then hi else x
  }

  lemma ProductPositive(x: real, y: real)
    requires x > 0.0 && y > 0.0
    ensures Mul(x, y) > 0.0
  {
  }

  lemma ProductOfNegatives(x: real, y: real)
    requires x < 0.0 && y < 0.0
    ensures Mul(x, y) > 0.0
  {
  }

  lemma ProductNonNegative(w: real, x: real)
    requires w >= 0.0 && x >= 0.0
    ensures w * x >= 0.0
  {
  }

  lemma ProductMonotone(w: real, x: real, y: real)
    requires w >= 0.0 && x <= y
    ensures w * x <= w * y
    ensures Mul(w, x) <= Mul(w, y)
  {
  }

  lemma SquareNonNegative(x: real)
    ensures Square(x) >= 0.0
    ensures x != 0.0 ==> Square(x) > 0.0
  {
    if x > 0.0 {
      ProductPositive(x, x);
    } else if x < 0.0 {
      ProductOfNegatives(x, x);
    }
  }

  lemma QuotientNonNegative(w: real, x: real)
    requires w >= 0.0 && x > 0.0
    ensures w / x >= 0.0
  {
  }

  /** `std::pow` with a natural exponent. */
  function Power(x: real, k: nat): real {
    if k == 0 then 1.0 else x * Power(x, k - 1)
  }

  lemma {:induction false} PowerPositive(x: real, k: nat)
    requires x > 0.0
    ensures Power(x, k) > 0.0
  {
    if k > 0 {
      PowerPositive(x, k - 1);
      ProductPositive(x, Power(x, k - 1));
      assert Power(x, k) == Mul(x, Power(x, k - 1));
    }
  }

  /** Dividing by a power is multiplying by the power of the inverse. */
  lemma {:induction false} InversePower(x: real, k: nat)
    requires x > 0.0
    ensures Power(x, k) > 0.0
    ensures Power(x, k) * Power(1.0 / x, k) == 1.0
  {
    PowerPositive(x, k);
    if k > 0 {
      InversePower(x, k - 1);
      var a, b, c, d := x, Power(x, k - 1), 1.0 / x, Power(1.0 / x, k - 1);
      assert a * c == 1.0;
      assert (a * b) * (c * d) == (a * c) * (b * d);
    }
  }

  lemma DivideByPower(w: real, x: real, k: nat)
    requires x > 0.0
    ensures Power(x, k) > 0.0
    ensures Quotient(w, Power(x, k)) == Mul(w, Power(Quotient(1.0, x), k))
  {
    InversePower(x, k);
    QuotientUnique(w, Power(x, k), Power(1.0 / x, k));
  }

  lemma QuotientIsProduct(x: real, y: real)
    requires y > 0.0
    ensures Quotient(x, y) == Mul(x, Quotient(1.0, y))
  {
    QuotientUnique(x, y, 1.0 / y);
  }

  lemma QuotientUnique(w: real, p: real, q: real)
    requires p != 0.0 && p * q == 1.0
    ensures Quotient(w, p) == Mul(w, q)
  {
    var d := w / p;
    assert d * p == w;
    assert d * (p * q) == w * q;
  }

  lemma DivideByPowers(w: real, x: real, k: nat, y: real, l: nat)
    requires x > 0.0 && y > 0.0
    ensures Mul(Power(x, k), Power(y, l)) > 0.0
    ensures Quotient(w, Mul(Power(x, k), Power(y, l)))
         == Mul(w, Mul(Power(Quotient(1.0, x), k), Power(Quotient(1.0, y), l)))
  {
    InversePower(x, k);
    InversePower(y, l);
    var a, b, c, d := Power(x, k), Power(y, l), Power(1.0 / x, k), Power(1.0 / y, l);
    ProductPositive(a, b);
    assert (a * b) * (c * d) == (a * c) * (b * d);
    QuotientUnique(w, Mul(a, b), Mul(c, d));
  }

  lemma SignOfFactor(d: real, w: real)
    requires w > 0.0
    ensures Mul(d, w) >= 0.0 ==> d >= 0.0
  {
    if d < 0.0 {
      ProductPositive(-d, w);
    }
  }

  lemma QuotientTimes(x: real, p: real)
    requires p != 0.0
    ensures Mul(Quotient(x, p), p) == x
  {
  }

  lemma QuotientBetween(x: real, w: real, lo: real, hi: real)
    requires w > 0.0 && Mul(lo, w) <= x <= Mul(hi, w)
    ensures lo <= Quotient(x, w) <= hi
  {
    var q := Quotient(x, w);
    QuotientTimes(x, w);
    assert Mul(q - lo, w) == Mul(q, w) - Mul(lo, w);
    assert Mul(hi - q, w) == Mul(hi, w) - Mul(q, w);
    SignOfFactor(q - lo, w);
    SignOfFactor(hi - q, w);
  }

  /** A quotient is the only factor with its product. */
  lemma QuotientOfProduct(q: real, w: real)
    requires w != 0.0
    ensures Quotient(Mul(q, w), w) == q
  {
  }

  lemma QuotientOrder(x: real, y: real, w: real)
    requires x <= y && w > 0.0
    ensures Quotient(x, w) <= Quotient(y, w)
  {
    QuotientTimes(y, w);
    QuotientTimes(x, w);
    assert Mul(Quotient(y, w) - Quotient(x, w), w) == Mul(Quotient(y, w), w) - Mul(Quotient(x, w), w);
    SignOfFactor(Quotient(y, w) - Quotient(x, w), w);
  }
}
