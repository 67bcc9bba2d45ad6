/**
 Compact targets (src/arith_uint256.cpp) and the work a block proves (src/chain.cpp): a 32-bit
 number made of a byte count, a sign bit and a 23-bit mantissa.
 */
module CompactTarget {
  import opened LimbMath
  import opened LimbShift
  import opened Powers
  import opened ArithUint256

  function ByteCount(c: Limb): nat {
    c / 0x100_0000
  }

  function Mantissa(c: Limb): nat {
    c % 0x80_0000
  }

  predicate SignBit(c: Limb) {
    c / 0x80_0000 % 2 == 1
  }

  /** The number a compact target stands for, however large. */
  function Target(c: Limb): nat {
    if ByteCount(c) <= 3 then Div(Mantissa(c), Pow2(8 * (3 - ByteCount(c))))
    else Mantissa(c) * Pow2(8 * (ByteCount(c) - 3))
  }

  predicate Negative(c: Limb) {
    SignBit(c) && Target(c) != 0
  }

  /** The overflow test of the code, on the mantissa as it stands after the shift. */
  predicate OverflowTest(word: nat, size: nat) {
    word != 0 && (size > 34 || (word > 0xff && size > 33) || (word > 0xffff && size > 32))
  }

  /** The test is exact: it holds when and only when the number needs more than 256 bits. */
  lemma OverflowExact(word: nat, size: nat)
    requires word < 0x80_0000 && size > 3
    ensures OverflowTest(word, size) <==> word * Pow2(8 * (size - 3)) >= P(WIDTH)
  {
    hide P, Pow2;
    PIsPow2(WIDTH);
    Pow32();
    if size > 34 {
      PastTop(word, 8 * (size - 3));
    } else if size == 34 {
      AtTop(word, 8, 248);
    } else if size == 33 {
      AtTop(word, 16, 240);
    } else {
      BelowTop(word, 8 * (size - 3));
    }
  }

  lemma PastTop(word: nat, n: nat)
    requires n >= 256
    ensures word != 0 <==> word * Pow2(n) >= Pow2(256)
  {
    hide Pow2;
    Pow2Mono(256, n);
    CompareProducts(word, 1, Pow2(n));
    assert 0 * Pow2(n) == 0;
  }

  lemma AtTop(word: nat, k: nat, n: nat)
    requires k + n == 256
    ensures word >= Pow2(k) <==> word * Pow2(n) >= Pow2(256)
  {
    hide Pow2;
    Pow2Add(k, n);
    CompareProducts(word, Pow2(k), Pow2(n));
  }

  lemma BelowTop(word: nat, n: nat)
    requires word < 0x80_0000 && n <= 232
    ensures word * Pow2(n) < Pow2(256)
  {
    hide Pow2;
    Pow32();
    Pow2Add(24, n);
    Pow2Mono(24 + n, 256);
    CompareProducts(word, Pow2(24), Pow2(n));
  }

  lemma ProductZero(x: nat, z: nat)
    requires z > 0
    ensures x * z == 0 <==> x == 0
  {
  }

  /** A small word: nothing is dropped. */
  lemma SmallTarget(v: nat)
    requires v < BASE
    ensures v < P(WIDTH) && v % P(WIDTH) == v
  {
    hide P, Pow2;
    PIsPow2(WIDTH);
    Pow32();
    Pow2Mono(32, 256);
    QuotientRemainder(v, P(WIDTH), 0, v);
  }

  /** Reads a compact target into t: its value, whether it is negative, whether it overflows. */
  method SetCompact(t: ArithUint256, c: Limb) returns (negative: bool, overflow: bool)
    requires t.Valid()
    modifies t
    ensures t.Valid() && t.Value() == Target(c) % P(WIDTH)
    ensures negative == Negative(c)
    ensures overflow <==> Target(c) >= P(WIDTH)
  {
    hide V, P, Pow2;
    var size, word := ByteCount(c), Mantissa(c);
    if size <= 3 {
      word := Div(word, Pow2(8 * (3 - size)));
      SmallTarget(word);
      t.SetLow(word);
    } else {
      t.SetLow(word);
      t.ShiftLeft(8 * (size - 3));
      OverflowExact(word, size);
      ProductZero(word, Pow2(8 * (size - 3)));
    }
    negative := word != 0 && SignBit(c);
    overflow := OverflowTest(word, size);
  }

  // ----- Block proof -----

  /** A target that fits is never the largest number, so adding one does not wrap. */
  lemma TargetPlusOne(c: Limb)
    requires Target(c) < P(WIDTH)
    ensures Target(c) + 1 < P(WIDTH)
  {
    hide P, Pow2;
    PIsPow2(WIDTH);
    Pow32();
    if ByteCount(c) <= 3 {
      Pow2Mono(32, 256);
      var q := Div(Mantissa(c), Pow2(8 * (3 - ByteCount(c))));
    } else {
      var n := 8 * (ByteCount(c) - 3);
      EvenPower(n);
      EvenPower(256);
      EvenProduct(Mantissa(c), Pow2(n));
    }
  }

  lemma EvenPower(n: nat)
    requires n > 0
    ensures Pow2(n) % 2 == 0
  {
  }

  lemma EvenProduct(x: nat, y: nat)
    requires y % 2 == 0
    ensures (x * y) % 2 == 0
  {
    assert x * y == (x * (y / 2)) * 2;
  }

  /** 2^256 / (t + 1) without 2^256: (2^256 - 1 - t) / (t + 1) + 1. */
  lemma ProofFormula(p: nat, t: nat)
    requires 0 < t && t + 1 < p
    ensures (p - 1 - t) / (t + 1) + 1 == p / (t + 1) && p / (t + 1) < p
  {
    var d := t + 1;
    var q, r := (p - d) / d, (p - d) % d;
    assert (q + 1) * d == q * d + d;
    QuotientRemainder(p, d, q + 1, r);
    assert (p / d) * d >= (p / d) * 2;
  }

  /** The work of a block: zero for a bad target, else the floor of 2^256 over target plus one. */
  method GetBlockProof(nBits: Limb) returns (r: ArithUint256)
    ensures r.Valid()
    ensures r.Value() ==
            if Negative(nBits) || Target(nBits) == 0 || Target(nBits) >= P(WIDTH) then 0
            else P(WIDTH) / (Target(nBits) + 1)
  {
    hide V, P, Pow2, Target;
    var target := new ArithUint256(0);
    var negative, overflow := SetCompact(target, nBits);
    var zero := new ArithUint256(0);
    r := zero;
    if negative || overflow {
      return;
    }
    ghost var t := Target(nBits);
    QuotientRemainder(t, P(WIDTH), 0, t);
    var order := target.CompareTo(zero);
    if order == 0 {
      return;
    }
    TargetPlusOne(nBits);
    ProofFormula(P(WIDTH), t);
    QuotientRemainder(t + 1, P(WIDTH), 0, t + 1);
    var one := new ArithUint256(1);
    r := target.Not();
    target.Add(one);
    var thrown := r.Div(target);
    QuotientRemainder(P(WIDTH) / (t + 1), P(WIDTH), 0, P(WIDTH) / (t + 1));
    r.Add(one);
  }

  // ----- Writing a compact target -----

  function BitLength(x: nat): nat {
    if x == 0 then 0 else 1 + BitLength(x / 2)
  }

  lemma {:induction false} BitLengthIs(x: nat, n: nat)
    requires n > 0 && Pow2(n - 1) <= x < Pow2(n)
    ensures BitLength(x) == n
  {
    if n > 1 {
      BitLengthIs(x / 2, n - 1);
    } else {
      assert Pow2(0) == 1 && Pow2(1) == 2;
      assert BitLength(1) == 1 + BitLength(0);
    }
  }

  /** How many low bits the compact form of a number of b bits drops. */
  function Dropped(b: nat): nat {
    if b < 24 then 0 else 8 * (b / 8 - 2)
  }

  /** The number with those bits cleared. */
  function Rounded(x: nat): nat {
    Div(x, Pow2(Dropped(BitLength(x)))) * Pow2(Dropped(BitLength(x)))
  }

  lemma RoundedClose(x: nat)
    ensures Rounded(x) <= x < Rounded(x) + Pow2(Dropped(BitLength(x)))
  {
    hide Pow2;
    DivRest(x, Pow2(Dropped(BitLength(x))));
  }

  /** The byte count and the mantissa that the compact form of a number of b bits ends up with. */
  function SizeFor(b: nat): nat {
    if b == 0 then 0 else b / 8 + 1
  }

  function MantissaFor(x: nat, b: nat): nat {
    if SizeFor(b) <= 3 then x * Pow2(8 * (3 - SizeFor(b))) else Div(x, Pow2(8 * (SizeFor(b) - 3)))
  }

  /** The mantissa before the sign bit is looked at, for a number of size bytes. */
  function FirstMantissa(x: nat, size: nat): nat {
    if size <= 3 then x * Pow2(8 * (3 - size)) else Div(x, Pow2(8 * (size - 3)))
  }

  /** x has exactly b bits. */
  ghost predicate HasBits(x: nat, b: nat) {
    if b == 0 then x == 0 else Pow2(b - 1) <= x < Pow2(b)
  }

  /** The first mantissa has at most 24 bits, and the last of them just when the bits fill the bytes. */
  lemma FirstMantissaBits(x: nat, b: nat)
    requires HasBits(x, b)
    ensures var m := FirstMantissa(x, (b + 7) / 8);
            m < 0x100_0000 && (m >= 0x80_0000 <==> b > 0 && b % 8 == 0)
  {
    hide Pow2;
    Pow32();
    var size := (b + 7) / 8;
    if b == 0 {
      assert 0 * Pow2(24) == 0;
    } else {
      MantissaAgainst(x, size, 24);
      MantissaAgainst(x, size, 23);
      Pow2Mono(b, 8 * size);
      if b % 8 != 0 {
        Pow2Mono(b, 8 * size - 1);
      }
    }
  }

  /** Comparing the first mantissa with a power of two compares the number with another. */
  lemma MantissaAgainst(x: nat, size: nat, k: nat)
    requires size > 0 && 23 <= k <= 24
    ensures FirstMantissa(x, size) >= Pow2(k) <==> x >= Pow2(8 * size - 24 + k)
  {
    hide Pow2;
    if size <= 3 {
      var n := 8 * (3 - size);
      Pow2Add(8 * size - 24 + k, n);
      CompareProducts(x, Pow2(8 * size - 24 + k), Pow2(n));
    } else {
      var n := 8 * (size - 3);
      Pow2Add(k, n);
      DivCompare(x, Pow2(k), Pow2(n));
    }
  }

  /** Making room for the sign bit: the final mantissa. */
  lemma FinalMantissa(x: nat, b: nat)
    requires HasBits(x, b)
    ensures var m := FirstMantissa(x, (b + 7) / 8);
            MantissaFor(x, b) == if b > 0 && b % 8 == 0 then m / 256 else m
    ensures (b > 0 && b % 8 == 0) ==> SizeFor(b) == (b + 7) / 8 + 1
    ensures !(b > 0 && b % 8 == 0) ==> SizeFor(b) == (b + 7) / 8
  {
    hide Pow2;
    if b > 0 && b % 8 == 0 {
      Pow32();
      var size := b / 8;
      if size < 3 {
        Pow2Add(8 * (2 - size), 8);
        assert x * (Pow2(8 * (2 - size)) * 256) == (x * Pow2(8 * (2 - size))) * 256;
      } else {
        Pow2Add(8 * (size - 3), 8);
        DivTwice(x, Pow2(8 * (size - 3)), 256);
        if size == 3 {
          Pow2Zero();
        }
      }
    }
  }

  /** Reading the final form back gives the rounded number. */
  lemma ReadsBack(x: nat, b: nat, c: Limb)
    requires HasBits(x, b) && ByteCount(c) == SizeFor(b) && Mantissa(c) == MantissaFor(x, b)
    ensures Target(c) == Rounded(x)
  {
    hide Pow2;
    if b > 0 {
      BitLengthIs(x, b);
    }
    Pow2Zero();
    if SizeFor(b) <= 3 {
      var d := Pow2(8 * (3 - SizeFor(b)));
      QuotientRemainder(x * d, d, x, 0);
      QuotientRemainder(x, 1, x, 0);
    }
  }

  /** The whole compact form, once its parts are or-ed together. */
  lemma Assembled(m: nat, size: nat, sign: bool)
    requires m < 0x80_0000 && size < 256
    ensures Or(m, size * 0x100_0000) == m + size * 0x100_0000
    ensures var c := Or(m + size * 0x100_0000, if sign then 0x80_0000 else 0);
            c < BASE && c / 0x100_0000 == size && c % 0x80_0000 == m && (c / 0x80_0000 % 2 == 1) == sign
  {
    hide Or, Pow2;
    Pow32();
    MultipleMod(size, 0x100_0000);
    OrDisjoint(m, size * 0x100_0000, 24);
    if sign {
      OrMiddle(m, size * 0x100_0000, 23);
    } else {
      Pow2Zero();
      OrDisjoint(0, m + size * 0x100_0000, 0);
    }
  }

  lemma {:induction false} OrMiddle(m: nat, hi: nat, n: nat)
    requires m < Pow2(n) && hi % Pow2(n + 1) == 0
    ensures Or(m + hi, Pow2(n)) == m + hi + Pow2(n)
    decreases n
  {
    if n == 0 {
      OrDisjoint(1, hi, 1);
    } else {
      assert hi % 2 == 0 && (hi / 2) % Pow2(n) == 0 by { EvenMultiple(hi, Pow2(n)); }
      assert (m + hi) / 2 == m / 2 + hi / 2 && (m + hi) % 2 == m % 2;
      OrMiddle(m / 2, hi / 2, n - 1);
    }
  }

  /** The compact form of a number: it reads back as the number rounded down, with its sign. */
  method GetCompact(t: ArithUint256, fNegative: bool) returns (c: Limb)
    requires t.Valid()
    ensures Target(c) == Rounded(t.Value())
    ensures Negative(c) <==> fNegative && Rounded(t.Value()) != 0
  {
    hide V, P, Pow2, Or, FirstMantissa, MantissaFor, Target, Rounded;
    ghost var x := V(t.pn);
    var bits := t.Bits();
    var size := (bits + 7) / 8;
    FirstMantissaBits(x, bits);
    FinalMantissa(x, bits);
    var compact := ThreeBytes(t, size);
    if compact / 0x80_0000 % 2 == 1 {
      compact := compact / 256;
      size := size + 1;
    }
    assert compact < 0x80_0000 && size < 256;
    Assembled(compact, size, fNegative && compact != 0);
    compact := Or(compact, size * 0x100_0000);
    compact := Or(compact, if fNegative && compact % 0x80_0000 != 0 then 0x80_0000 else 0);
    c := compact;
    ReadsBack(x, bits, c);
    NoMantissa(c);
  }

  lemma NoMantissa(c: Limb)
    ensures Mantissa(c) == 0 ==> Target(c) == 0
  {
    hide Pow2;
    if Mantissa(c) == 0 && ByteCount(c) > 3 {
      assert 0 * Pow2(8 * (ByteCount(c) - 3)) == 0;
    }
  }

  /** The number moved so that three bytes of it are left. */
  method ThreeBytes(t: ArithUint256, size: nat) returns (compact: nat)
    requires t.Valid() && FirstMantissa(t.Value(), size) < 0x100_0000
    ensures compact == FirstMantissa(t.Value(), size)
  {
    hide V, P, Pow2;
    ghost var x := V(t.pn);
    if size <= 3 {
      var low := t.GetLow64();
      TimesAtLeast(x, Pow2(8 * (3 - size)));
      SmallMod(x);
      SmallMod(x * Pow2(8 * (3 - size)));
      compact := low * Pow2(8 * (3 - size)) % BASE;
    } else {
      var bn := new ArithUint256.Copy(t);
      bn.ShiftRight(8 * (size - 3));
      var low := bn.GetLow64();
      SmallMod(V(bn.pn));
      compact := low % BASE;
    }
  }
}
