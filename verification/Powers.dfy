/** Powers of two, and what quotients and products do: shared by the arithmetic of the models. */
module Powers {

  function Pow2(n: nat): nat
    ensures Pow2(n) >= 1
  {
    if n == 0 then 1 else 2 * Pow2(n - 1)
  }

  lemma {:induction false} Pow2Add(i: nat, j: nat)
    ensures Pow2(i + j) == Pow2(i) * Pow2(j)
  {
    if j > 0 {
      Pow2Add(i, j - 1);
      assert i + j - 1 == i + (j - 1);
      assert 2 * (Pow2(i) * Pow2(j - 1)) == Pow2(i) * (2 * Pow2(j - 1));
    }
  }

  lemma {:induction false} Pow2Mono(i: nat, j: nat)
    requires i <= j
    ensures Pow2(i) <= Pow2(j)
    decreases j
  {
    if i < j {
      Pow2Mono(i, j - 1);
    }
  }

  /** Quotient and remainder are unique. */
  lemma QuotientRemainder(x: nat, d: nat, q: nat, r: nat)
    requires d > 0 && x == q * d + r && r < d
    ensures x / d == q && x % d == r
  {
    var p := x / d;
    assert x == p * d + x % d;
    assert p < q ==> (p + 1) * d <= q * d;
    assert p > q ==> (q + 1) * d <= p * d;
  }

  lemma MultipleMod(q: nat, p: nat)
    requires p > 0
    ensures (q * p) % p == 0
  {
    QuotientRemainder(q * p, p, q, 0);
  }

  lemma DivRest(x: nat, d: nat)
    requires d > 0
    ensures (x / d) * d <= x < (x / d) * d + d
  {
    assert x == (x / d) * d + x % d;
  }

  lemma TwiceAlgebra(q: nat, r: nat, p: nat, s: nat, a: nat, b: nat)
    requires q == p * b + s && r < a && s < b
    ensures q * a + r == p * (a * b) + (s * a + r) && s * a + r < a * b
  {
    assert (p * b + s) * a == p * (a * b) + s * a;
    assert (s + 1) * a <= b * a;
  }

  lemma DivTwice(x: nat, a: nat, b: nat)
    requires a > 0 && b > 0
    ensures a * b > 0 && (x / a) / b == x / (a * b)
  {
    var q, r := x / a, x % a;
    TwiceAlgebra(q, r, q / b, q % b, a, b);
    QuotientRemainder(x, a * b, q / b, (q % b) * a + r);
  }

  lemma MulLess(x: nat, y: nat, z: nat)
    requires x <= y
    ensures x * z <= y * z
  {
  }

  lemma StrictLess(x: nat, y: nat, z: nat)
    requires x < y && z > 0
    ensures x * z < y * z
  {
  }

  lemma CompareProducts(x: nat, y: nat, z: nat)
    requires z > 0
    ensures x >= y <==> x * z >= y * z
  {
    if x >= y {
      MulLess(y, x, z);
    } else {
      StrictLess(x, y, z);
    }
  }

  lemma DivCompare(x: nat, y: nat, d: nat)
    requires d > 0
    ensures x / d >= y <==> x >= y * d
  {
    var q := x / d;
    assert x == q * d + x % d;
    if q >= y {
      MulLess(y, q, d);
    } else {
      MulLess(q + 1, y, d);
      assert (q + 1) * d == q * d + d;
    }
  }

  lemma TimesAtLeast(q: nat, d: nat)
    requires d >= 1
    ensures q <= q * d
  {
  }

  function Div(x: nat, d: nat): (q: nat)
    requires d >= 1
    ensures q <= x
  {
    TimesAtLeast(x / d, d);
    x / d
  }
}
