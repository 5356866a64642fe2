/** Small facts about multiplication and division that the solver does not find unaided. */
module Arith {

  lemma MulMono(k: nat, a: nat, b: nat)
    requires a <= b
    ensures k * a <= k * b
  {
  }

  lemma StrictMulMono(k: nat, a: nat, b: nat)
    requires k > 0 && a < b
    ensures k * a < k * b
  {
  }

  lemma MulSwap(a: nat, b: nat, c: nat)
    ensures a * (b * c) == b * (a * c)
  {
  }

  lemma MulSucc(a: nat, b: nat)
    ensures (a + 1) * b == a * b + b
  {
  }

  lemma CancelLe(k: nat, a: nat, b: nat)
    requires k > 0 && k * a <= k * b
    ensures a <= b
  {
    if a > b {
      StrictMulMono(k, b, a);
    }
  }

  lemma CancelLt(k: nat, a: nat, b: nat)
    requires k > 0 && k * a < k * b
    ensures a < b
  {
    if a >= b {
      MulMono(k, b, a);
    }
  }

  lemma RealCancelLe(k: real, a: real, b: real)
    requires k > 0.0 && k * a <= k * b
    ensures a <= b
  {
    assert k * (b - a) >= 0.0;
  }

  lemma RealCancelLt(k: real, a: real, b: real)
    requires k > 0.0 && k * a < k * b
    ensures a < b
  {
    assert k * (b - a) > 0.0;
  }

  /** For n > 0, a / n <= p exactly when a <= p * n. */
  lemma DivLe(a: real, p: real, n: real)
    requires n > 0.0
    ensures a / n <= p <==> a <= p * n
  {
    var q := a / n;
    assert q * n == a;
    if q <= p {
      assert n * (p - q) >= 0.0;
    }
    if a <= p * n {
      RealCancelLe(n, q, p);
    }
  }

  /** For n > 0, p < a / n exactly when p * n < a. */
  lemma LtDiv(p: real, a: real, n: real)
    requires n > 0.0
    ensures p < a / n <==> p * n < a
  {
    var q := a / n;
    assert q * n == a;
    if p < q {
      assert n * (q - p) > 0.0;
    }
    if p * n < a {
      RealCancelLt(n, p, q);
    }
  }

  /** For n > 0, a / n < p exactly when a < p * n. */
  lemma DivLt(a: real, p: real, n: real)
    requires n > 0.0
    ensures a / n < p <==> a < p * n
  {
    DivLe(a, p, n);
    var q := a / n;
    assert q * n == a;
    if q == p {
      assert a == p * n;
    }
  }

  /** For n > 0, p <= a / n exactly when p * n <= a. */
  lemma LeDiv(p: real, a: real, n: real)
    requires n > 0.0
    ensures p <= a / n <==> p * n <= a
  {
    LtDiv(p, a, n);
    var q := a / n;
    assert q * n == a;
    if p == q {
      assert p * n == a;
    }
  }
}
