/** Big-endian positional numbers in any base, and how many digits a change of base needs. */
module Positional {
  import opened Powers

  function Pow(b: nat, n: nat): nat {
    if n == 0 then 1 else b * Pow(b, n - 1)
  }

  ghost predicate DigitsOk(d: seq<nat>, b: nat) {
    forall i :: 0 <= i < |d| ==> d[i] < b
  }

  /** The number that digits stand for, most significant first. */
  function Num(d: seq<nat>, b: nat): nat {
    if |d| == 0 then 0 else Num(d[..|d| - 1], b) * b + d[|d| - 1]
  }

  /** The digits of a number, without leading zeros. */
  function Digits(v: nat, b: nat): (d: seq<nat>)
    requires b >= 2
    decreases v
  {
    if v == 0 then []
    else
      Smaller(v, b);
      Digits(v / b, b) + [v % b]
  }

  lemma {:induction false} DigitsValue(v: nat, b: nat)
    requires b >= 2
    ensures Num(Digits(v, b), b) == v && DigitsOk(Digits(v, b), b)
    ensures v > 0 ==> |Digits(v, b)| > 0 && Digits(v, b)[0] > 0
    decreases v
  {
    if v > 0 {
      Smaller(v, b);
      DigitsValue(v / b, b);
      var d := Digits(v, b);
      assert d[..|d| - 1] == Digits(v / b, b);
    }
  }

  lemma Smaller(v: nat, b: nat)
    requires v > 0 && b >= 2
    ensures v / b < v && v == (v / b) * b + v % b
  {
    if v / b >= v {
      MulLess(v, v / b, b);
      MulLess(2, b, v);
    }
  }

  /** Digits without a leading zero are the digits of their number. */
  lemma {:induction false} DigitsUnique(d: seq<nat>, b: nat)
    requires b >= 2 && DigitsOk(d, b) && (d != [] ==> d[0] > 0)
    ensures Digits(Num(d, b), b) == d
    ensures d != [] ==> Num(d, b) > 0
  {
    if d != [] {
      var n := |d| - 1;
      var p := d[..n];
      DigitsUnique(p, b);
      QuotientRemainder(Num(d, b), b, Num(p, b), d[n]);
      if n > 0 {
        TimesAtLeast(Num(p, b), b);
      }
      assert d == p + [d[n]];
    }
  }

  lemma {:induction false} NumBound(d: seq<nat>, b: nat)
    requires b >= 1 && DigitsOk(d, b)
    ensures Num(d, b) < Pow(b, |d|)
  {
    if |d| > 0 {
      var n := |d| - 1;
      NumBound(d[..n], b);
      MulLess(Num(d[..n], b) + 1, Pow(b, n), b);
    }
  }

  lemma {:induction false} NumZeros(d: seq<nat>, b: nat)
    requires forall i :: 0 <= i < |d| ==> d[i] == 0
    ensures Num(d, b) == 0
  {
    if |d| > 0 {
      NumZeros(d[..|d| - 1], b);
    }
  }

  lemma {:induction false} NumSplit(d: seq<nat>, e: seq<nat>, b: nat)
    ensures Num(d + e, b) == Num(d, b) * Pow(b, |e|) + Num(e, b)
  {
    if |e| == 0 {
      assert d + e == d;
    } else {
      var n := |e| - 1;
      assert (d + e)[..|d + e| - 1] == d + e[..n];
      NumSplit(d, e[..n], b);
      SplitAlgebra(Num(d, b), Pow(b, n), Num(e[..n], b), b);
    }
  }

  lemma SplitAlgebra(x: nat, p: nat, y: nat, b: nat)
    ensures (x * p + y) * b == x * (b * p) + y * b
  {
    assert (x * p) * b == x * (b * p);
  }

  lemma {:induction false} PowAdd(b: nat, i: nat, j: nat)
    ensures Pow(b, i + j) == Pow(b, i) * Pow(b, j)
  {
    if j > 0 {
      PowAdd(b, i, j - 1);
      assert i + j - 1 == i + (j - 1);
      assert b * (Pow(b, i) * Pow(b, j - 1)) == Pow(b, i) * (b * Pow(b, j - 1));
    }
  }

  lemma {:induction false} PowMono(b: nat, i: nat, j: nat)
    requires b >= 1 && i <= j
    ensures 1 <= Pow(b, i) <= Pow(b, j)
    decreases j
  {
    if i < j {
      PowMono(b, i, j - 1);
      MulLess(1, b, Pow(b, j - 1));
    } else if i > 0 {
      PowMono(b, i - 1, j - 1);
      MulLess(1, b, Pow(b, j - 1));
    }
  }

  // ----- Room for a change of base -----

  /** If k digits to base a fit in m to base b, then so do q times as many. */
  lemma {:induction false} Blocks(a: nat, k: nat, b: nat, m: nat, q: nat)
    requires Pow(a, k) <= Pow(b, m)
    ensures Pow(a, k * q) <= Pow(b, m * q)
  {
    if q == 0 {
      assert k * q == 0 && m * q == 0;
    } else {
      Blocks(a, k, b, m, q - 1);
      assert k * q == k * (q - 1) + k && m * q == m * (q - 1) + m;
      PowAdd(a, k * (q - 1), k);
      PowAdd(b, m * (q - 1), m);
      Fits2(Pow(a, k * (q - 1)), Pow(b, m * (q - 1)), Pow(a, k), Pow(b, m));
    }
  }

  lemma Fits2(x: nat, y: nat, u: nat, v: nat)
    requires x <= y && u <= v
    ensures x * u <= y * v
  {
    MulLess(x, y, u);
    assert y * u <= y * v;
  }

  lemma Both(a: nat, i: nat, j: nat, b: nat, m: nat, n: nat)
    requires Pow(a, i) <= Pow(b, m) && Pow(a, j) <= Pow(b, n)
    ensures Pow(a, i + j) <= Pow(b, m + n)
  {
    PowAdd(a, i, j);
    PowAdd(b, m, n);
    Fits2(Pow(a, i), Pow(b, m), Pow(a, j), Pow(b, n));
  }

  /** Bytes to base 58: eight bytes fit in eleven digits. */
  lemma BytesBlock()
    ensures Pow(256, 8) <= Pow(58, 11)
  {
  }

  lemma BytesRest(r: nat)
    requires r < 8
    ensures Pow(256, r) <= Pow(58, r * 138 / 100 + 1)
  {
    assert Pow(256, 1) <= Pow(58, 2) && Pow(256, 2) <= Pow(58, 3) && Pow(256, 3) <= Pow(58, 5);
    assert Pow(256, 4) <= Pow(58, 6) && Pow(256, 5) <= Pow(58, 7) && Pow(256, 6) <= Pow(58, 9);
    assert Pow(256, 7) <= Pow(58, 10) && Pow(256, 0) <= Pow(58, 1);
  }

  /** The 138/100 estimate always suffices. */
  lemma EncodeRoom(n: nat)
    ensures Pow(256, n) <= Pow(58, n * 138 / 100 + 1)
  {
    hide Pow;
    var q, r := n / 8, n % 8;
    BytesBlock();
    Blocks(256, 8, 58, 11, q);
    BytesRest(r);
    Both(256, 8 * q, r, 58, 11 * q, r * 138 / 100 + 1);
    PowMono(58, 11 * q + (r * 138 / 100 + 1), n * 138 / 100 + 1);
  }

  /** Squares and products of known powers. */
  lemma Join(b: nat, i: nat, j: nat, x: nat, y: nat)
    requires Pow(b, i) == x && Pow(b, j) == y
    ensures Pow(b, i + j) == x * y
  {
    PowAdd(b, i, j);
  }

  lemma SmallPowers()
    ensures Pow(58, 7) == 2207984167552 && Pow(58, 8) == 128063081718016
    ensures Pow(256, 4) == 4294967296 && Pow(256, 3) == 16777216
  {
  }

  /** Base 58 to bytes: 71 digits fit in 52 bytes, and fifteen in eleven. */
  lemma CharsBlock()
    ensures Pow(58, 71) <= Pow(256, 52) && Pow(58, 15) <= Pow(256, 11)
  {
    hide Pow;
    SmallPowers();
    Join(58, 8, 8, 128063081718016, 128063081718016);
    Join(58, 16, 16, 16400152899115243850138976256, 16400152899115243850138976256);
    Join(58, 32, 32, 268965015114358137726910587140455987105619365599731777536, 268965015114358137726910587140455987105619365599731777536);
    Join(58, 64, 7, 72342179355466901471258927612150153907721848234316445933056526044582001260898145151856420451025374266490194231296, 2207984167552);
    Join(58, 8, 7, 128063081718016, 2207984167552);
    Join(256, 4, 4, 4294967296, 4294967296);
    Join(256, 8, 8, 18446744073709551616, 18446744073709551616);
    Join(256, 16, 16, 340282366920938463463374607431768211456, 340282366920938463463374607431768211456);
    Join(256, 32, 16, 115792089237316195423570985008687907853269984665640564039457584007913129639936, 340282366920938463463374607431768211456);
    Join(256, 48, 4, 39402006196394479212279040100143613805079739270465446667948293404245721771497210611414266254884915640806627990306816, 4294967296);
    Join(256, 8, 3, 18446744073709551616, 16777216);
  }

  lemma CharsFew(s: nat)
    requires s < 15
    ensures s > 0 ==> Pow(58, s) <= Pow(256, s * 733 / 1000 + 1)
    ensures Pow(58, 0) <= Pow(256, 0)
  {
    assert Pow(58, 1) <= Pow(256, 1) && Pow(58, 2) <= Pow(256, 2) && Pow(58, 3) <= Pow(256, 3) && Pow(58, 4) <= Pow(256, 3);
    assert Pow(58, 5) <= Pow(256, 4) && Pow(58, 6) <= Pow(256, 5) && Pow(58, 7) <= Pow(256, 6) && Pow(58, 8) <= Pow(256, 6);
    assert Pow(58, 9) <= Pow(256, 7) && Pow(58, 10) <= Pow(256, 8) && Pow(58, 11) <= Pow(256, 9) && Pow(58, 12) <= Pow(256, 9);
    assert Pow(58, 13) <= Pow(256, 10) && Pow(58, 14) <= Pow(256, 11);
  }

  /** Five blocks at most: the shortfall of the estimate never reaches a whole byte. */
  lemma RestFits(p: nat, s: nat)
    requires p < 5 && s < 15
    ensures 11 * p + (if s == 0 then 0 else s * 733 / 1000 + 1) <= (15 * p + s) * 733 / 1000 + 1
  {
    assert s > 0 ==> s * 733 % 1000 >= 20;
  }

  lemma CharsRest(r: nat)
    requires r < 71
    ensures Pow(58, r) <= Pow(256, r * 733 / 1000 + 1)
  {
    hide Pow;
    var p, s := r / 15, r % 15;
    var e := if s == 0 then 0 else s * 733 / 1000 + 1;
    CharsBlock();
    Blocks(58, 15, 256, 11, p);
    CharsFew(s);
    Both(58, 15 * p, s, 256, 11 * p, e);
    RestFits(p, s);
    PowMono(256, 11 * p + e, r * 733 / 1000 + 1);
  }

  /** The 733/1000 estimate always suffices. */
  lemma DecodeRoom(n: nat)
    ensures Pow(58, n) <= Pow(256, n * 733 / 1000 + 1)
  {
    hide Pow;
    var q, r := n / 71, n % 71;
    CharsBlock();
    Blocks(58, 71, 256, 52, q);
    CharsRest(r);
    Both(58, 71 * q, r, 256, 52 * q, r * 733 / 1000 + 1);
    PowMono(256, 52 * q + (r * 733 / 1000 + 1), n * 733 / 1000 + 1);
  }

  // ----- Changing base while keeping leading zeros -----

  function LeadingZeros(d: seq<nat>): (z: nat)
    ensures z <= |d| && (forall i :: 0 <= i < z ==> d[i] == 0) && (z < |d| ==> d[z] != 0)
  {
    if d == [] || d[0] != 0 then 0 else 1 + LeadingZeros(d[1..])
  }

  function Zeros(n: nat): seq<nat> {
    seq(n, _ => 0)
  }

  /** As many leading zeros as there were, then the digits of the number to the new base. */
  function Rebased(d: seq<nat>, a: nat, b: nat): seq<nat>
    requires b >= 2
  {
    Zeros(LeadingZeros(d)) + Digits(Num(d, a), b)
  }

  lemma {:induction false} CountZeros(n: nat, d: seq<nat>)
    requires d != [] ==> d[0] != 0
    ensures LeadingZeros(Zeros(n) + d) == n
  {
    if n == 0 {
      assert Zeros(0) + d == d;
    } else {
      assert (Zeros(n) + d)[1..] == Zeros(n - 1) + d;
      CountZeros(n - 1, d);
    }
  }

  lemma NumAfterZeros(n: nat, d: seq<nat>, b: nat)
    ensures Num(Zeros(n) + d, b) == Num(d, b)
  {
    NumZeros(Zeros(n), b);
    NumSplit(Zeros(n), d, b);
  }

  /** Changing base there and back gives the same digits. */
  lemma RebasedBack(d: seq<nat>, a: nat, b: nat)
    requires a >= 2 && b >= 2 && DigitsOk(d, a)
    ensures DigitsOk(Rebased(d, a, b), b)
    ensures Rebased(Rebased(d, a, b), b, a) == d
  {
    hide Num, Digits, LeadingZeros, Zeros;
    var z, v := LeadingZeros(d), Num(d, a);
    AfterZeros(d, a);
    DigitsValue(v, b);
    DigitsOfZero(b);
    CountZeros(z, Digits(v, b));
    NumAfterZeros(z, Digits(v, b), b);
    ZerosOk(z, Digits(v, b), b);
  }

  /** A sequence is its leading zeros and the digits of its number. */
  lemma AfterZeros(d: seq<nat>, a: nat)
    requires a >= 2 && DigitsOk(d, a)
    ensures d == Zeros(LeadingZeros(d)) + Digits(Num(d, a), a)
  {
    hide Num, Digits, LeadingZeros;
    var z := LeadingZeros(d);
    var rest := d[z..];
    assert d == Zeros(z) + rest;
    NumAfterZeros(z, rest, a);
    DigitsUnique(rest, a);
  }

  lemma ZerosOk(z: nat, d: seq<nat>, b: nat)
    requires b >= 1 && DigitsOk(d, b)
    ensures DigitsOk(Zeros(z) + d, b)
  {
  }

  lemma DigitsOfZero(b: nat)
    requires b >= 2
    ensures Digits(0, b) == []
  {
  }
}
