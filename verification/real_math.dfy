/** Exact-real stand-ins for `math.exp` and `math.log`. Nothing here is assumed globally: a caller
    passes any pair of functions, and the results hold for the pairs that obey the usual laws. */
module RealMath {

  datatype Math = Math(exp: real -> real, ln: real -> real)

  ghost predicate ExpOfSum(m: Math, x: real, y: real) {
    m.exp(x + y) == m.exp(x) * m.exp(y)
  }

  ghost predicate ExpAboveTangent(m: Math, x: real) {
    m.exp(x) > 0.0 && m.exp(x) >= 1.0 + x
  }

  ghost predicate LnInvertsExp(m: Math, x: real) {
    m.ln(m.exp(x)) == x && (x > 0.0 ==> m.exp(m.ln(x)) == x)
  }

  /** The laws of the real exponential and its inverse. */
  ghost predicate Lawful(m: Math) {
    && (forall x: real, y: real :: ExpOfSum(m, x, y))
    && (forall x: real :: ExpAboveTangent(m, x))
    && (forall x: real :: LnInvertsExp(m, x))
  }

  lemma ExpPositive(m: Math, x: real)
    requires Lawful(m)
    ensures m.exp(x) > 0.0
  {
    assert ExpAboveTangent(m, x);
  }

  lemma LnOfProduct(m: Math, x: real, y: real)
    requires Lawful(m) && x > 0.0 && y > 0.0
    ensures m.ln(x * y) == m.ln(x) + m.ln(y)
  {
    assert LnInvertsExp(m, x) && LnInvertsExp(m, y);
    assert ExpOfSum(m, m.ln(x), m.ln(y));
    assert LnInvertsExp(m, m.ln(x) + m.ln(y));
    assert m.exp(m.ln(x) + m.ln(y)) == x * y by {
      var a, b := m.exp(m.ln(x)), m.exp(m.ln(y));
      assert a == x && b == y;
    }
  }

  lemma LnOfQuotient(m: Math, x: real, y: real)
    requires Lawful(m) && x > 0.0 && y > 0.0
    ensures x / y > 0.0 && m.ln(x / y) == m.ln(x) - m.ln(y)
  {
    var ratio := x / y;
    assert ratio * y == x;
    assert ratio > 0.0;
    LnOfProduct(m, ratio, y);
  }

  lemma LnOfOne(m: Math)
    requires Lawful(m)
    ensures m.ln(1.0) == 0.0
  {
    LnOfProduct(m, 1.0, 1.0);
  }

  lemma LnBelowTangent(m: Math, x: real)
    requires Lawful(m) && x > 0.0
    ensures m.ln(x) <= x - 1.0
  {
    assert LnInvertsExp(m, x);
    assert ExpAboveTangent(m, m.ln(x));
  }

  lemma Scale(p: real, a: real, b: real)
    requires p >= 0.0 && a <= b
    ensures p * a <= p * b
  {
  }

  lemma Expand(p: real, x: real, lp: real, lq: real, lr: real)
    ensures p * (lq + lr - lp) == p * lq + p * lr - p * lp
    ensures p * (x - 1.0) == p * x - p
    ensures p * (lp - lq) == p * lp - p * lq
    ensures p * (lr + 1.0) == p * lr + p
  {
  }

  /** The tangent-line bound behind the log-sum inequality: for every slope `r`,
      p ln(p/q) >= p ln r + p - r q. */
  lemma DivergenceTangent(m: Math, p: real, q: real, r: real)
    requires Lawful(m) && p > 0.0 && q > 0.0 && r > 0.0
    ensures p * (m.ln(p) - m.ln(q)) >= p * (m.ln(r) + 1.0) - r * q
  {
    var x := q * r / p;
    LnOfProduct(m, q, r);
    LnOfQuotient(m, q * r, p);
    LnBelowTangent(m, x);
    Scale(p, m.ln(x), x - 1.0);
    assert p * x == q * r;
    Expand(p, x, m.ln(p), m.ln(q), m.ln(r));
  }
}
