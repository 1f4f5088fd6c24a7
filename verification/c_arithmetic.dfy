// Integer arithmetic as C does it.
module CArithmetic {
  /** C division truncates toward zero. */
  function CDiv(a: int, b: int): int
    requires b != 0
  {
    if a >= 0 then a / b else -((-a) / b)
  }

  function Abs(a: int): nat {
    if a < 0 then -a else a
  }

  lemma Product(a: int, b: int)
    ensures a >= 0 && b >= 0 ==> a * b >= 0
    ensures a <= 0 && b <= 0 ==> a * b >= 0
    ensures a >= 0 && b <= 0 ==> a * b <= 0
    ensures a <= 0 && b >= 0 ==> a * b <= 0
  {
  }

  /** What the quotient leaves over has the sign of the dividend and is smaller than the
      divisor. */
  lemma CDivRemainder(a: int, b: int)
    requires b != 0
    ensures var r := a - b * CDiv(a, b);
            Abs(r) < Abs(b) && (a >= 0 ==> r >= 0) && (a <= 0 ==> r <= 0)
  {
    var q := Abs(a) / b;
    assert Abs(a) == b * q + Abs(a) % b;
    if a < 0 { assert b * -q == -(b * q); }
  }

  lemma CDivNegated(a: int, b: int)
    requires b != 0
    ensures CDiv(-a, -b) == CDiv(a, b)
  {
    var n := Abs(a);
    assert n / -b == -(n / b);
  }

  /** A quotient of a product by something at least as large lies between 0 and the other
      factor. */
  lemma CDivScaled(a: int, n: int, d: int)
    requires d != 0 && (if d > 0 then 0 <= n <= d else d <= n <= 0)
    ensures a >= 0 ==> 0 <= CDiv(a * n, d) <= a
    ensures a <= 0 ==> a <= CDiv(a * n, d) <= 0
  {
    if d < 0 {
      CDivNegated(a * n, d);
      assert -(a * n) == a * -n;
      CDivScaledUp(a, -n, -d);
    } else {
      CDivScaledUp(a, n, d);
    }
  }

  lemma CDivScaledUp(a: int, n: int, d: int)
    requires 0 <= n <= d && d > 0
    ensures a >= 0 ==> 0 <= CDiv(a * n, d) <= a
    ensures a <= 0 ==> a <= CDiv(a * n, d) <= 0
  {
    var m := Abs(a);
    ScaledDown(m, n, d);
    if a < 0 { assert a * n == -(m * n); }
    Product(m, n);
  }

  lemma ScaledDown(m: nat, n: nat, d: nat)
    requires n <= d && d > 0
    ensures 0 <= m * n && 0 <= (m * n) / d <= m
  {
    Product(m, n);
    Product(m, d - n);
    assert m * n <= m * d;
    QuotientBelow(m * n, d, m);
  }

  lemma QuotientBelow(x: nat, d: nat, m: nat)
    requires d > 0 && x <= m * d
    ensures x / d <= m
  {
  }
}
