/** Numbers as little-endian sequences of 32-bit limbs, powers of two, and bitwise or on numbers. */
module LimbMath {
  import opened Powers

  const BASE: nat := 0x1_0000_0000

  type Limb = x: nat | x < 0x1_0000_0000

  /** BASE to the power i. */
  function P(i: nat): nat
    ensures P(i) >= 1
  {
    if i == 0 then 1 else BASE * P(i - 1)
  }

  /** The number a sequence of limbs stands for. */
  function V(s: seq<Limb>): nat {
    if |s| == 0 then 0 else V(s[..|s| - 1]) + s[|s| - 1] * P(|s| - 1)
  }

  // ----- Powers -----

  lemma {:induction false} PAdd(i: nat, j: nat)
    ensures P(i + j) == P(i) * P(j)
  {
    if j > 0 {
      PAdd(i, j - 1);
      assert i + j - 1 == i + (j - 1);
      assert BASE * (P(i) * P(j - 1)) == P(i) * (BASE * P(j - 1));
    }
  }

  lemma Pow32()
    ensures Pow2(32) == BASE && Pow2(8) == 256 && Pow2(16) == 65536 && Pow2(23) == 0x80_0000 && Pow2(24) == 0x100_0000
  {
    assert Pow2(4) == 16;
    Pow2Add(4, 4);
    Pow2Add(8, 8);
    Pow2Add(16, 8);
    Pow2Add(16, 16);
    assert Pow2(24) == 2 * Pow2(23);
  }

  lemma {:induction false} PIsPow2(i: nat)
    ensures P(i) == Pow2(32 * i)
  {
    if i > 0 {
      PIsPow2(i - 1);
      Pow2Add(32 * (i - 1), 32);
      Pow32();
      assert 32 * (i - 1) + 32 == 32 * i;
    }
  }

  // ----- Values -----

  lemma VNext(s: seq<Limb>, i: nat)
    requires i < |s|
    ensures V(s[..i + 1]) == V(s[..i]) + s[i] * P(i)
  {
    assert s[..i + 1][..i] == s[..i];
  }

  lemma TopLimb(v: nat, x: Limb, p: nat)
    requires v < p
    ensures v + x * p < BASE * p
  {
    assert x * p <= (BASE - 1) * p;
  }

  lemma {:induction false} VBound(s: seq<Limb>)
    ensures V(s) < P(|s|)
  {
    if |s| > 0 {
      var n := |s| - 1;
      VBound(s[..n]);
      TopLimb(V(s[..n]), s[n], P(n));
    }
  }

  lemma {:induction false} VUpdate(s: seq<Limb>, i: nat, x: Limb)
    requires i < |s|
    ensures V(s[i := x]) + s[i] * P(i) == V(s) + x * P(i)
  {
    var n := |s| - 1;
    var t := s[i := x];
    if i == n {
      assert t[..n] == s[..n];
    } else {
      assert t[..n] == s[..n][i := x];
      VUpdate(s[..n], i, x);
    }
  }

  lemma {:induction false} VSplit(s: seq<Limb>, j: nat)
    requires j <= |s|
    ensures V(s) == V(s[..j]) + P(j) * V(s[j..])
  {
    var n := |s| - 1;
    if j == |s| {
      assert s[..j] == s;
    } else {
      VSplit(s[..n], j);
      assert s[..n][..j] == s[..j];
      assert s[..n][j..] == s[j..][..n - j];
      PAdd(j, n - j);
      Spread(P(j), V(s[j..][..n - j]), s[n], P(n - j));
    }
  }

  lemma Spread(p: nat, v: nat, x: nat, q: nat)
    ensures p * (v + x * q) == p * v + x * (p * q)
  {
  }

  lemma {:induction false} VZero(s: seq<Limb>)
    requires forall i :: 0 <= i < |s| ==> s[i] == 0
    ensures V(s) == 0
  {
    if |s| > 0 {
      VZero(s[..|s| - 1]);
    }
  }

  /** A number below BASE is its own remainder. */
  lemma SmallMod(x: nat)
    requires x < BASE
    ensures x % (BASE * BASE) == x && x % BASE == x
  {
    QuotientRemainder(x, BASE * BASE, 0, x);
    QuotientRemainder(x, BASE, 0, x);
  }

  // ----- Shifts of one limb -----

  function ShrLimb(x: Limb, n: nat): Limb {
    Div(x, Pow2(n))
  }

  function ShlLimb(x: Limb, n: nat): Limb {
    x * Pow2(n) % BASE
  }

  // ----- Bitwise or -----

  function Or(x: nat, y: nat): nat {
    if x == 0 then y else if y == 0 then x
    else (if x % 2 == 1 || y % 2 == 1 then 1 else 0) + 2 * Or(x / 2, y / 2)
  }

  lemma {:induction false} OrBound(x: nat, y: nat, n: nat)
    requires x < Pow2(n) && y < Pow2(n)
    ensures Or(x, y) < Pow2(n)
    decreases n
  {
    if x != 0 && y != 0 {
      OrBound(x / 2, y / 2, n - 1);
    }
  }

  /** Bitwise or of two limbs. */
  function OrLimb(x: Limb, y: Limb): Limb {
    Pow32();
    OrBound(x, y, 32);
    Or(x, y)
  }

  /** Bits of x all below those of y: the or is the sum. */
  lemma {:induction false} OrDisjoint(x: nat, y: nat, n: nat)
    requires x < Pow2(n) && y % Pow2(n) == 0
    ensures Or(x, y) == x + y && Or(y, x) == x + y
    decreases n
  {
    if x != 0 && y != 0 {
      EvenMultiple(y, Pow2(n - 1));
      OrDisjoint(x / 2, y / 2, n - 1);
    }
  }

  lemma EvenMultiple(y: nat, p: nat)
    requires p > 0 && y % (2 * p) == 0
    ensures y % 2 == 0 && (y / 2) % p == 0
  {
    var q := y / (2 * p);
    assert y == q * (2 * p) == 2 * (q * p);
    MultipleMod(q, p);
  }
}
