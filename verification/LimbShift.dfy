/** Shifting a number held in limbs: what one limb contributes and what a whole pass computes. */
module LimbShift {
  import opened LimbMath
  import opened Powers

  const WIDTH: nat := 8

  // ----- One limb -----

  /** Moving a limb up by s bits: the bits that leave it and the bits that stay. */
  lemma LimbUp(x: Limb, s: nat)
    requires 0 < s < 32
    ensures var hi, lo := x / Pow2(32 - s), x * Pow2(s) % BASE;
            lo + hi * BASE == x * Pow2(s) && lo % Pow2(s) == 0 && hi < Pow2(s)
  {
    hide Pow2;
    var d, e := Pow2(32 - s), Pow2(s);
    Pow2Add(32 - s, s);
    Pow32();
    LimbAlgebra(x, x / d, x % d, d, e);
  }

  lemma UpAlgebra(x: Limb, q: nat, r: nat, d: nat, e: nat)
    requires d > 0 && e > 0 && d * e == BASE && x == q * d + r && r < d
    ensures x * e == q * BASE + r * e && r * e < BASE && q < e
  {
    assert (q * d + r) * e == q * (d * e) + r * e;
    assert (r + 1) * e <= d * e;
    assert q >= e ==> q * d >= e * d;
  }

  lemma LimbAlgebra(x: Limb, q: nat, r: nat, d: nat, e: nat)
    requires d > 0 && e > 0 && d * e == BASE && x == q * d + r && r < d
    ensures x * e % BASE == r * e && (r * e) % e == 0 && q < e
    ensures r * e + q * BASE == x * e && (r * e) * d == r * BASE
  {
    UpAlgebra(x, q, r, d, e);
    QuotientRemainder(x * e, BASE, q, r * e);
    MultipleMod(r, e);
    assert (r * e) * d == r * (d * e);
  }

  /** Moving a limb down by s bits. */
  lemma LimbDown(x: Limb, s: nat)
    requires 0 < s < 32
    ensures var hi, lo := x / Pow2(s), x * Pow2(32 - s) % BASE;
            && lo == (x % Pow2(s)) * Pow2(32 - s) && lo % Pow2(32 - s) == 0
            && hi < Pow2(32 - s) && lo * Pow2(s) == (x % Pow2(s)) * BASE
  {
    hide Pow2;
    var d, e := Pow2(s), Pow2(32 - s);
    Pow2Add(s, 32 - s);
    Pow32();
    LimbAlgebra(x, x / d, x % d, d, e);
  }

  /** The bits that leave a limb and those that stay, for a shift by less than a limb. */
  function HighPart(x: Limb, s: nat): Limb
    requires s < 32
  {
    if s == 0 then 0 else ShrLimb(x, 32 - s)
  }

  function LowPart(x: Limb, s: nat): Limb
    requires s < 32
  {
    ShlLimb(x, s)
  }

  lemma Parts(x: Limb, s: nat)
    requires s < 32
    ensures LowPart(x, s) + HighPart(x, s) * BASE == x * Pow2(s)
    ensures LowPart(x, s) % Pow2(s) == 0 && HighPart(x, s) < Pow2(s)
  {
    if s > 0 {
      LimbUp(x, s);
    }
  }

  // ----- A left shift -----

  /** One round of the left shift: limb x goes to place p, its high bits to the place above. */
  function UpStep(t: seq<Limb>, x: Limb, s: nat, p: nat): seq<Limb>
    requires |t| == WIDTH && s < 32
  {
    var u := if p + 1 < WIDTH && s != 0 then t[p + 1 := OrLimb(t[p + 1], ShrLimb(x, 32 - s))] else t;
    if p < WIDTH then u[p := OrLimb(u[p], ShlLimb(x, s))] else u
  }

  /** The lowest i limbs of a are shifted, up to what fell off the top. */
  ghost predicate Up(t: seq<Limb>, a: seq<Limb>, k: nat, s: nat, i: nat, lost: nat) {
    && |t| == |a| == WIDTH && i <= WIDTH
    && V(t) + lost * P(WIDTH) == V(a[..i]) * (Pow2(s) * P(k))
    && (forall m :: i + k < m < WIDTH ==> t[m] == 0)
    && (i + k < WIDTH ==> t[i + k] < Pow2(s))
  }

  /** In place p there is room for the low part, and the place above is empty. */
  lemma UpWrite(t: seq<Limb>, x: Limb, s: nat, p: nat)
    requires |t| == WIDTH && s < 32 && p < WIDTH && t[p] < Pow2(s) && (p + 1 < WIDTH ==> t[p + 1] == 0)
    ensures var lo, hi := LowPart(x, s), HighPart(x, s);
            && t[p] + lo < BASE
            && UpStep(t, x, s, p) == if p + 1 < WIDTH then t[p + 1 := hi][p := t[p] + lo] else t[p := t[p] + lo]
  {
    hide Pow2, Or;
    Parts(x, s);
    OrDisjoint(t[p], LowPart(x, s), s);
    Pow2Zero();
    OrDisjoint(0, HighPart(x, s), 0);
    var sum: nat := OrLimb(t[p], LowPart(x, s));
  }

  lemma Pow2Zero()
    ensures Pow2(0) == 1 && forall x: nat :: x % 1 == 0
  {
  }

  lemma UpValue(t: seq<Limb>, x: Limb, s: nat, p: nat)
    requires |t| == WIDTH && s < 32 && p < WIDTH && t[p] < Pow2(s) && (p + 1 < WIDTH ==> t[p + 1] == 0)
    ensures p + 1 < WIDTH ==> V(UpStep(t, x, s, p)) == V(t) + LowPart(x, s) * P(p) + HighPart(x, s) * P(p + 1)
    ensures p + 1 == WIDTH ==> V(UpStep(t, x, s, p)) == V(t) + LowPart(x, s) * P(p)
  {
    hide V, P, LowPart, HighPart, UpStep, Pow2;
    UpWrite(t, x, s, p);
    var lo, hi := LowPart(x, s), HighPart(x, s);
    var u := if p + 1 < WIDTH then t[p + 1 := hi] else t;
    if p + 1 < WIDTH {
      VUpdate(t, p + 1, hi);
    }
    VUpdate(u, p, t[p] + lo);
    var y: nat := t[p];
    assert (y + lo) * P(p) == y * P(p) + lo * P(p);
  }

  /** What a limb adds to the shifted value. */
  lemma UpTarget(a: seq<Limb>, k: nat, s: nat, i: nat)
    requires i < |a| && s < 32
    ensures V(a[..i + 1]) * (Pow2(s) * P(k))
         == V(a[..i]) * (Pow2(s) * P(k)) + (LowPart(a[i], s) + HighPart(a[i], s) * BASE) * P(i + k)
  {
    hide V, P, Pow2, LowPart, HighPart;
    VNext(a, i);
    Parts(a[i], s);
    PAdd(i, k);
    Regroup(V(a[..i]), a[i], P(i), Pow2(s), P(k));
  }

  lemma Regroup(v: nat, x: nat, pi: nat, e: nat, pk: nat)
    ensures (v + x * pi) * (e * pk) == v * (e * pk) + (x * e) * (pi * pk)
  {
    assert (x * pi) * (e * pk) == (x * e) * (pi * pk);
  }

  /** A round below the top: nothing is lost but the high part at the last place. */
  lemma UpNextIn(t: seq<Limb>, a: seq<Limb>, k: nat, s: nat, i: nat, lost: nat) returns (more: nat)
    requires i + k < WIDTH && s < 32 && Up(t, a, k, s, i, lost)
    ensures Up(UpStep(t, a[i], s, i + k), a, k, s, i + 1, more)
  {
    hide V, LowPart, HighPart, Pow2, P, UpStep;
    var p := i + k;
    var lo, hi := LowPart(a[i], s), HighPart(a[i], s);
    UpTarget(a, k, s, i);
    UpWrite(t, a[i], s, p);
    UpValue(t, a[i], s, p);
    Parts(a[i], s);
    PNext(lo, hi, p);
    more := if p + 1 < WIDTH then lost else lost + hi;
    assert p + 1 == WIDTH ==> more * P(WIDTH) == lost * P(WIDTH) + hi * P(WIDTH);
  }

  lemma PNext(lo: nat, hi: nat, p: nat)
    ensures (lo + hi * BASE) * P(p) == lo * P(p) + hi * P(p + 1)
  {
    Times(lo, hi, BASE, P(p));
  }

  /** A round past the top: all of it is lost. */
  lemma UpNextOut(t: seq<Limb>, a: seq<Limb>, k: nat, s: nat, i: nat, lost: nat) returns (more: nat)
    requires i < WIDTH <= i + k && s < 32 && Up(t, a, k, s, i, lost)
    ensures Up(UpStep(t, a[i], s, i + k), a, k, s, i + 1, more)
  {
    hide V, LowPart, HighPart, Pow2, P;
    var p := i + k;
    var x := LowPart(a[i], s) + HighPart(a[i], s) * BASE;
    UpTarget(a, k, s, i);
    PAdd(p - WIDTH, WIDTH);
    more := lost + x * P(p - WIDTH);
    Times(lost, x, P(p - WIDTH), P(WIDTH));
  }

  lemma Times(l: nat, x: nat, p: nat, w: nat)
    ensures (l + x * p) * w == l * w + x * (p * w)
  {
  }

  // ----- A right shift -----

  /** The bits of a limb that go to the place below. */
  function DownPart(x: Limb, s: nat): Limb
    requires s < 32
  {
    if s == 0 then 0 else ShlLimb(x, 32 - s)
  }

  lemma DownParts(x: Limb, s: nat)
    requires s < 32
    ensures x == ShrLimb(x, s) * Pow2(s) + x % Pow2(s)
    ensures DownPart(x, s) * Pow2(s) == (x % Pow2(s)) * BASE
    ensures DownPart(x, s) % Pow2(32 - s) == 0 && ShrLimb(x, s) < Pow2(32 - s)
  {
    hide Pow2;
    if s > 0 {
      LimbDown(x, s);
      assert x == (x / Pow2(s)) * Pow2(s) + x % Pow2(s);
    } else {
      Pow2Zero();
      Pow32();
      QuotientRemainder(x, 1, x, 0);
      QuotientRemainder(0, Pow2(32), 0, 0);
    }
  }

  /** One round of the right shift: limb i goes k places down, its low bits one more. */
  function DownStep(t: seq<Limb>, x: Limb, k: nat, s: nat, i: nat): seq<Limb>
    requires |t| == WIDTH && s < 32 && i < WIDTH
  {
    var u := if i >= k + 1 && s != 0 then t[i - k - 1 := OrLimb(t[i - k - 1], ShlLimb(x, 32 - s))] else t;
    if i >= k then u[i - k := OrLimb(u[i - k], ShrLimb(x, s))] else u
  }

  /** The lowest i limbs of a are shifted; rest is what fell off the bottom. */
  ghost predicate Down(t: seq<Limb>, a: seq<Limb>, k: nat, s: nat, i: nat, rest: nat) {
    && |t| == |a| == WIDTH && i <= WIDTH && s < 32
    && V(t) * (Pow2(s) * P(k)) + rest == V(a[..i])
    && rest < Pow2(s) * P(k)
    && (i <= k ==> rest < P(i))
    && (forall m :: 0 <= m < WIDTH && m + k >= i ==> t[m] == 0)
    && (i > k ==> t[i - k - 1] < Pow2(32 - s))
  }

  /** Below the first place: everything goes to the rest. */
  lemma DownNextOut(t: seq<Limb>, a: seq<Limb>, k: nat, s: nat, i: nat, rest: nat) returns (more: nat)
    requires i < WIDTH && i < k && Down(t, a, k, s, i, rest)
    ensures Down(DownStep(t, a[i], k, s, i), a, k, s, i + 1, more)
  {
    hide V, P, Pow2;
    VNext(a, i);
    more := rest + a[i] * P(i);
    assert more < P(i + 1) by {
      VBound(a[..i + 1]);
      VZero(t);
      assert 0 * (Pow2(s) * P(k)) == 0;
    }
    PUpTo(i + 1, k, Pow2(s));
  }

  lemma PUpTo(i: nat, k: nat, e: nat)
    requires i <= k && e >= 1
    ensures P(i) <= e * P(k)
  {
    hide P;
    PAdd(i, k - i);
    TimesAtLeast(P(i), P(k - i));
    assert e * P(k) == P(k) * e;
    TimesAtLeast(P(k), e);
  }

  /** The first limb that stays: its low bits join the rest. */
  lemma DownNextFirst(t: seq<Limb>, a: seq<Limb>, k: nat, s: nat, rest: nat) returns (more: nat)
    requires k < WIDTH && Down(t, a, k, s, k, rest)
    ensures Down(DownStep(t, a[k], k, s, k), a, k, s, k + 1, more)
  {
    hide V, P, Pow2, ShrLimb, Or;
    var q, r := ShrLimb(a[k], s), a[k] % Pow2(s);
    VNext(a, k);
    VZero(t);
    VUpdate(t, 0, q);
    DownParts(a[k], s);
    Pow2Zero();
    OrDisjoint(0, q, 0);
    assert DownStep(t, a[k], k, s, k) == t[0 := q];
    more := rest + r * P(k);
    FirstAlgebra(q, r, Pow2(s), P(k), rest);
    assert P(0) == 1 by { POne(); }
  }

  lemma POne()
    ensures P(0) == 1
  {
  }

  lemma FirstAlgebra(q: nat, r: nat, e: nat, p: nat, rest: nat)
    requires r < e && rest < p
    ensures q * (e * p) + (rest + r * p) == rest + (q * e + r) * p
    ensures rest + r * p < e * p
  {
    assert (q * e + r) * p == q * (e * p) + r * p;
    assert (r + 1) * p <= e * p;
  }

  /** Above the first place nothing more is lost. */
  lemma DownNextIn(t: seq<Limb>, a: seq<Limb>, k: nat, s: nat, i: nat, rest: nat)
    requires k < i < WIDTH && Down(t, a, k, s, i, rest)
    ensures Down(DownStep(t, a[i], k, s, i), a, k, s, i + 1, rest)
  {
    hide V, P, Pow2, ShrLimb, DownPart, DownStep;
    var x, p := a[i], i - k;
    var q, lo := ShrLimb(x, s), DownPart(x, s);
    DownWrite(t, x, k, s, i);
    DownValue(t, p, lo, q);
    DownParts(x, s);
    VNext(a, i);
    PAdd(p - 1, k);
    PAdd(p, k);
    PStep(i - 1);
    DownAlgebra(V(t), lo, q, x % Pow2(s), Pow2(s), P(p - 1), P(p), P(k), P(i - 1), P(i));
  }

  lemma DownValue(t: seq<Limb>, p: nat, lo: Limb, q: Limb)
    requires 0 < p < |t| && t[p] == 0 && t[p - 1] + lo < BASE
    ensures V(t[p - 1 := t[p - 1] + lo][p := q]) == V(t) + lo * P(p - 1) + q * P(p)
  {
    hide V, P;
    var y: nat := t[p - 1];
    VUpdate(t, p - 1, y + lo);
    VUpdate(t[p - 1 := y + lo], p, q);
    assert (y + lo) * P(p - 1) == y * P(p - 1) + lo * P(p - 1);
    assert 0 * P(p) == 0;
  }

  lemma PStep(i: nat)
    ensures P(i + 1) == BASE * P(i)
  {
  }

  lemma DownWrite(t: seq<Limb>, x: Limb, k: nat, s: nat, i: nat)
    requires |t| == WIDTH && s < 32 && k < i < WIDTH && t[i - k] == 0 && t[i - k - 1] < Pow2(32 - s)
    ensures t[i - k - 1] + DownPart(x, s) < BASE
    ensures DownStep(t, x, k, s, i) == t[i - k - 1 := t[i - k - 1] + DownPart(x, s)][i - k := ShrLimb(x, s)]
  {
    hide Pow2, Or, ShrLimb;
    DownParts(x, s);
    OrDisjoint(t[i - k - 1], DownPart(x, s), 32 - s);
    Pow2Zero();
    OrDisjoint(0, ShrLimb(x, s), 0);
    var sum: nat := OrLimb(t[i - k - 1], DownPart(x, s));
  }

  lemma DownAlgebra(v: nat, lo: nat, q: nat, r: nat, e: nat, pb: nat, pp: nat, pk: nat, pi1: nat, pi: nat)
    requires pb * pk == pi1 && pp * pk == pi && pi == BASE * pi1 && lo * e == r * BASE
    ensures (v + lo * pb + q * pp) * (e * pk) == v * (e * pk) + (q * e + r) * pi
  {
    assert (lo * pb) * (e * pk) == (lo * e) * (pb * pk);
    assert (q * pp) * (e * pk) == (q * e) * (pp * pk);
    assert (r * BASE) * pi1 == r * (BASE * pi1);
    assert (v + lo * pb + q * pp) * (e * pk) == v * (e * pk) + (lo * pb) * (e * pk) + (q * pp) * (e * pk);
    assert (q * e + r) * pi == (q * e) * pi + r * pi;
  }
}
