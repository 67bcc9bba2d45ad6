/**
 256-bit unsigned arithmetic on eight 32-bit limbs (src/arith_uint256.h, src/arith_uint256.cpp).
 The limbs are stored in the object itself, so two operands share them only when they are the same
 object; pn is a sequence the operations rewrite limb by limb.
 */
module ArithUint256 {
  import opened LimbMath
  import opened LimbShift
  import opened Powers

  // ----- One limb at a time -----

  /** Replacing limb i of a number whose lower limbs are settled. */
  lemma WriteLimb(s: seq<Limb>, i: nat, x: Limb)
    requires i < |s|
    ensures V(s[i := x][..i + 1]) == V(s[..i]) + x * P(i)
    ensures s[i := x][i + 1..] == s[i + 1..]
  {
    VNext(s[i := x], i);
    assert s[i := x][..i] == s[..i];
  }

  /** Splitting n into a limb and a carry loses nothing. */
  lemma CarryStep(lo: nat, t: nat, carry: nat, x: nat, n: nat, p: nat)
    requires lo + carry * p == t && n == carry + x
    ensures lo + (n % BASE) * p + (n / BASE) * (BASE * p) == t + x * p
  {
    assert n == n % BASE + (n / BASE) * BASE;
    assert n * p == (n % BASE) * p + ((n / BASE) * BASE) * p;
    assert ((n / BASE) * BASE) * p == (n / BASE) * (BASE * p);
    assert n * p == carry * p + x * p;
  }

  lemma LimbProduct(x: Limb, y: Limb)
    ensures x * y <= 0xFFFF_FFFE_0000_0001
  {
    SquareBound(x, y, 0xFFFF_FFFF);
  }

  lemma SquareBound(x: nat, y: nat, m: nat)
    requires x <= m && y <= m
    ensures x * y <= m * m
  {
    assert x * y <= x * m;
    assert x * m <= m * m;
  }

  /** Multiply and accumulate: never more than 64 bits. */
  function Mac(carry: nat, y: Limb, x: Limb, z: Limb): nat {
    carry + y + x * z
  }

  lemma MacBound(carry: nat, y: Limb, x: Limb, z: Limb)
    requires carry < BASE
    ensures Mac(carry, y, x, z) < BASE * BASE && Mac(carry, y, x, z) / BASE < BASE
    ensures Mac(0, 0, x, 0) == 0
  {
    LimbProduct(x, z);
  }

  /** The value modulo the size, from the value with the lost carry. */
  lemma LostCarry(s: seq<Limb>, carry: nat, t: nat)
    requires V(s) + carry * P(|s|) == t
    ensures V(s) == t % P(|s|) && carry == t / P(|s|)
  {
    VBound(s);
    QuotientRemainder(t, P(|s|), carry, V(s));
  }

  class ArithUint256 {
    var pn: seq<Limb>

    ghost predicate Valid()
      reads this
    {
      |pn| == WIDTH
    }

    ghost function Value(): nat
      reads this
    {
      V(pn)
    }

    /** From a 64-bit number. */
    constructor (b: nat)
      requires b < BASE * BASE
      ensures Valid() && Value() == b
    {
      pn := [b % BASE, b / BASE, 0, 0, 0, 0, 0, 0];
      new;
      TwoLimbs(pn, b);
    }

    constructor Copy(b: ArithUint256)
      ensures pn == b.pn
    {
      pn := b.pn;
    }

    /** Assignment of a 64-bit number. */
    method SetLow(b: nat)
      requires b < BASE * BASE
      modifies this
      ensures Valid() && Value() == b
    {
      pn := [b % BASE, b / BASE, 0, 0, 0, 0, 0, 0];
      TwoLimbs(pn, b);
    }

    /** The two lowest limbs as one number. */
    method GetLow64() returns (r: nat)
      requires Valid()
      ensures r == Value() % (BASE * BASE)
    {
      hide V, Or;
      r := Or(pn[0], pn[1] * BASE);
      LowLimbs(pn);
    }

    /** operator+=: works when an object is added to itself. */
    method Add(b: ArithUint256)
      requires Valid() && b.Valid()
      modifies this
      ensures Valid() && Value() == (old(Value()) + old(b.Value())) % P(WIDTH)
    {
      hide V, P;
      ghost var a0, b0 := pn, b.pn;
      var carry := 0;
      SumStart(a0, b0);
      for i := 0 to WIDTH
        invariant |pn| == |b.pn| == WIDTH && pn[i..] == a0[i..] && b.pn[i..] == b0[i..]
        invariant 0 <= carry <= 1
        invariant V(pn[..i]) + carry * P(i) == V(a0[..i]) + V(b0[..i])
      {
        assert pn[i] == a0[i] && b.pn[i] == b0[i];
        var n := carry + pn[i] + b.pn[i];
        WriteLimb(pn, i, n % BASE);
        SumStep(a0, b0, i, V(pn[..i]), carry, n);
        pn := pn[i := n % BASE];
        carry := n / BASE;
      }
      assert pn[..WIDTH] == pn && a0[..WIDTH] == a0 && b0[..WIDTH] == b0;
      LostCarry(pn, carry, V(a0) + V(b0));
    }

    /** operator*= by a 32-bit number. */
    method MulSmall(b32: Limb)
      requires Valid()
      modifies this
      ensures Valid() && Value() == old(Value()) * b32 % P(WIDTH)
    {
      hide V, P;
      ghost var a0 := pn;
      var carry := 0;
      SumStart(a0, a0);
      for i := 0 to WIDTH
        invariant |pn| == WIDTH && pn[i..] == a0[i..] && 0 <= carry < BASE
        invariant V(pn[..i]) + carry * P(i) == V(a0[..i]) * b32
      {
        assert pn[i] == a0[i];
        MacBound(carry, 0, b32, pn[i]);
        var n := Mac(carry, 0, b32, pn[i]);
        WriteLimb(pn, i, n % BASE);
        ProductStep(a0, b32, i, V(pn[..i]), carry, n);
        pn := pn[i := n % BASE];
        carry := n / BASE;
      }
      assert pn[..WIDTH] == pn && a0[..WIDTH] == a0;
      LostCarry(pn, carry, V(a0) * b32);
    }

    // ----- Complement, increment, subtraction, comparison -----

    /** operator~ */
    method Not() returns (r: ArithUint256)
      requires Valid()
      ensures fresh(r) && r.Valid() && r.Value() == P(WIDTH) - 1 - Value()
    {
      r := new ArithUint256(0);
      for i := 0 to WIDTH
        invariant |r.pn| == WIDTH
        invariant forall j :: 0 <= j < i ==> r.pn[j] == BASE - 1 - pn[j]
      {
        r.pn := r.pn[i := BASE - 1 - pn[i]];
      }
      VNot(pn, r.pn);
    }

    /** operator++ */
    method Increment()
      requires Valid()
      modifies this
      ensures Valid() && Value() == (old(Value()) + 1) % P(WIDTH)
    {
      hide V, P;
      SumStart(pn, pn);
      ghost var v := V(pn) + 1;
      var i := 0;
      while i < WIDTH
        invariant 0 <= i <= WIDTH && |pn| == WIDTH
        invariant V(pn) + P(i) == v
      {
        IncrementStep(pn, i, v);
        pn := pn[i := (pn[i] + 1) % BASE];
        if pn[i] != 0 {
          assert V(pn) + 0 * P(WIDTH) == v;
          LostCarry(pn, 0, v);
          return;
        }
        i := i + 1;
      }
      LostCarry(pn, 1, v);
    }

    /** operator- with one operand */
    method Negate() returns (r: ArithUint256)
      requires Valid()
      ensures fresh(r) && r.Valid() && r.Value() == (P(WIDTH) - Value()) % P(WIDTH)
      ensures Value() < P(WIDTH)
    {
      hide V, P;
      VBound(pn);
      r := Not();
      r.Increment();
    }

    /** operator-= */
    method Sub(b: ArithUint256)
      requires Valid() && b.Valid()
      modifies this
      ensures Valid()
      ensures Value() == old(Value()) - old(b.Value()) + (if old(Value()) >= old(b.Value()) then 0 else P(WIDTH))
    {
      hide V, P;
      VBound(pn);
      VBound(b.pn);
      SubMod(V(pn), V(b.pn), P(WIDTH));
      var negated := b.Negate();
      Add(negated);
    }

    method CompareTo(b: ArithUint256) returns (r: int)
      requires Valid() && b.Valid()
      ensures r == if Value() < b.Value() then -1 else if Value() > b.Value() then 1 else 0
    {
      var i := WIDTH;
      while i > 0
        invariant 0 <= i <= WIDTH && pn[i..] == b.pn[i..]
      {
        i := i - 1;
        if pn[i] < b.pn[i] {
          CompareAt(pn, b.pn, i);
          return -1;
        }
        if pn[i] > b.pn[i] {
          CompareAt(b.pn, pn, i);
          return 1;
        }
      }
      assert pn == b.pn;
      return 0;
    }

    // ----- Multiplication -----

    /** The inner loop: add x times b, moved up by j limbs, and drop what does not fit. */
    method AddRow(x: Limb, j: nat, b: ArithUint256) returns (ghost lost: nat)
      requires Valid() && b.Valid() && j < WIDTH
      modifies this
      ensures Valid()
      ensures b != this ==> V(pn) + lost * P(WIDTH) == old(V(pn)) + (x * P(j)) * V(b.pn)
      ensures b == this && AllZero(old(pn)) ==> AllZero(pn)
    {
      hide V, P, Row, Mac;
      ghost var q := pn;
      ghost var m := b.pn;
      var carry := 0;
      RowStart(q, m, x, j);
      var i := 0;
      while i + j < WIDTH
        invariant 0 <= i <= WIDTH - j && |pn| == WIDTH && 0 <= carry < BASE
        invariant b != this ==> b.pn == m && Row(pn, q, m, x, j, i, carry)
        invariant b == this && AllZero(q) ==> AllZero(pn) && carry == 0
      {
        MacBound(carry, pn[i + j], x, b.pn[i]);
        var n := Mac(carry, pn[i + j], x, b.pn[i]);
        if b != this {
          RowNext(pn, q, m, x, j, i, carry, n);
        }
        pn := pn[i + j := n % BASE];
        carry := n / BASE;
        i := i + 1;
      }
      lost := 0;
      if b != this {
        lost := RowEnd(pn, q, m, x, j, carry);
      }
    }

    /** operator*=: the product modulo 2^256, except that an object multiplied by itself is zeroed
        before it is read. */
    method Mul(b: ArithUint256)
      requires Valid() && b.Valid()
      modifies this
      ensures Valid()
      ensures Value() == if b == this then 0 else old(Value()) * old(b.Value()) % P(WIDTH)
    {
      hide V, P;
      var a := pn;
      ghost var m := b.pn;
      pn := ZERO;
      VZero(ZERO);
      SumStart(a, a);
      ghost var k: nat := 0;
      for j := 0 to WIDTH
        invariant |pn| == WIDTH && |b.pn| == WIDTH
        invariant b != this ==> b.pn == m && V(pn) + k * P(WIDTH) == V(a[..j]) * V(m)
        invariant b == this ==> AllZero(pn)
      {
        ghost var before := V(pn);
        ghost var lost := AddRow(a[j], j, b);
        if b != this {
          MulStep(a, V(m), j, before, V(pn), k, lost);
          k := k + lost;
        }
      }
      assert a[..WIDTH] == a;
      if b != this {
        LostCarry(pn, k, V(a) * V(m));
      } else {
        VZero(pn);
      }
    }

    // ----- Shifts -----

    /** operator<<= */
    method ShiftLeft(shift: nat)
      requires Valid()
      modifies this
      ensures Valid() && Value() == old(Value()) * Pow2(shift) % P(WIDTH)
    {
      hide V, P, Pow2, Up;
      var a := pn;
      pn := ZERO;
      var k, s := shift / 32, shift % 32;
      ghost var lost: nat := 0;
      UpStart(a, k, s);
      for i := 0 to WIDTH
        invariant |pn| == WIDTH && Up(pn, a, k, s, i, lost)
      {
        ghost var t := pn;
        if i + k + 1 < WIDTH && s != 0 {
          pn := pn[i + k + 1 := OrLimb(pn[i + k + 1], ShrLimb(a[i], 32 - s))];
        }
        if i + k < WIDTH {
          pn := pn[i + k := OrLimb(pn[i + k], ShlLimb(a[i], s))];
          lost := UpNextIn(t, a, k, s, i, lost);
        } else {
          lost := UpNextOut(t, a, k, s, i, lost);
        }
      }
      UpEnd(pn, a, shift, lost);
    }

    /** operator>>= */
    method ShiftRight(shift: nat)
      requires Valid()
      modifies this
      ensures Valid() && Value() == old(Value()) / Pow2(shift)
    {
      hide V, P, Pow2, Down;
      var a := pn;
      pn := ZERO;
      var k, s := shift / 32, shift % 32;
      ghost var rest: nat := 0;
      DownStart(a, k, s);
      for i := 0 to WIDTH
        invariant |pn| == WIDTH && Down(pn, a, k, s, i, rest)
      {
        ghost var t := pn;
        if i - k - 1 >= 0 && s != 0 {
          pn := pn[i - k - 1 := OrLimb(pn[i - k - 1], ShlLimb(a[i], 32 - s))];
        }
        if i - k >= 0 {
          pn := pn[i - k := OrLimb(pn[i - k], ShrLimb(a[i], s))];
        }
        if i < k {
          rest := DownNextOut(t, a, k, s, i, rest);
        } else if i == k {
          rest := DownNextFirst(t, a, k, s, rest);
        } else {
          DownNextIn(t, a, k, s, i, rest);
        }
      }
      DownEnd(pn, a, shift, rest);
    }

    // ----- The number of bits -----

    /** One more than the position of the highest set bit. */
    method Bits() returns (n: nat)
      requires Valid()
      ensures n <= 32 * WIDTH && (n == 0 <==> Value() == 0)
      ensures n > 0 ==> Pow2(n - 1) <= Value() < Pow2(n)
    {
      hide V, P, Pow2;
      var pos := WIDTH;
      while pos > 0
        invariant 0 <= pos <= WIDTH
        invariant forall j :: pos <= j < WIDTH ==> pn[j] == 0
      {
        pos := pos - 1;
        if pn[pos] != 0 {
          var nbits := 31;
          Pow32();
          while nbits > 0
            invariant 0 <= nbits <= 31 && pn[pos] < Pow2(nbits + 1)
          {
            BitTest(pn[pos], nbits);
            if ShrLimb(pn[pos], nbits) % 2 == 1 {
              break;
            }
            nbits := nbits - 1;
          }
          Pow2Zero();
          TopBit(pn, pos, nbits);
          return 32 * pos + nbits + 1;
        }
      }
      VZero(pn);
      return 0;
    }

    // ----- Division -----

    /** operator/=: the exact floor; dividing by zero throws after the quotient was cleared. */
    method Div(b: ArithUint256) returns (thrown: bool)
      requires Valid() && b.Valid()
      modifies this
      ensures Valid()
      ensures thrown <==> old(b.Value()) == 0
      ensures Value() == if thrown then 0 else old(Value()) / old(b.Value())
    {
      hide V, P, Pow2, Clear, Dividing, AllZero;
      ghost var N, D := V(pn), V(b.pn);
      var div := new ArithUint256.Copy(b);
      var num := new ArithUint256.Copy(this);
      pn := ZERO;
      VZero(ZERO);
      var numBits := num.Bits();
      var divBits := div.Bits();
      if divBits == 0 {
        return true;
      }
      thrown := false;
      if divBits > numBits {
        QuotientZero(N, D, numBits, divBits);
        return;
      }
      var shift: int := numBits - divBits;
      DivideStart(N, D, numBits, divBits);
      div.ShiftLeft(shift);
      while shift >= 0
        invariant -1 <= shift < 32 * WIDTH && Valid() && num.Valid() && div.Valid()
        invariant Dividing(V(pn), V(num.pn), N, D, shift + 1)
        invariant shift >= 0 ==> V(div.pn) == D * Pow2(shift)
        invariant Clear(pn, shift + 1)
      {
        var order := num.CompareTo(div);
        SetBitValue(pn, shift);
        DivideStep(V(pn), V(num.pn), N, D, shift);
        if order >= 0 {
          num.Sub(div);
          pn := pn[shift / 32 := OrLimb(pn[shift / 32], OneBit(shift % 32))];
        }
        HalfOf(D, shift);
        div.ShiftRight(1);
        shift := shift - 1;
      }
      DivideEnd(V(pn), V(num.pn), N, D);
    }
  }

  // ----- Division -----

  /** Quotient and remainder so far: bits of the quotient from t up are decided. */
  ghost predicate Dividing(q: nat, num: nat, N: nat, D: nat, t: nat) {
    N == q * D + num && num < D * Pow2(t)
  }

  /** The lowest n bits are zero. */
  ghost predicate Clear(s: seq<Limb>, n: nat) {
    && (forall m :: 0 <= m < |s| && m < n / 32 ==> s[m] == 0)
    && (n / 32 < |s| ==> s[n / 32] % Pow2(n % 32) == 0)
  }

  function OneBit(j: nat): Limb
    requires j < 32
  {
    Pow2Mono(j, 31);
    Pow32();
    Pow2(j)
  }

  lemma QuotientZero(N: nat, D: nat, nb: nat, db: nat)
    requires db > nb && Pow2(db - 1) <= D && (nb == 0 ==> N == 0) && (nb > 0 ==> N < Pow2(nb))
    ensures D > 0 && N / D == 0
  {
    hide Pow2;
    Pow2Mono(nb, db - 1);
    QuotientRemainder(N, D, 0, N);
  }

  lemma DivideStart(N: nat, D: nat, nb: nat, db: nat)
    requires 0 < db <= nb <= 32 * WIDTH && Pow2(db - 1) <= D < Pow2(db) && Pow2(nb - 1) <= N < Pow2(nb)
    ensures Dividing(0, N, N, D, nb - db + 1)
    ensures D * Pow2(nb - db) % P(WIDTH) == D * Pow2(nb - db)
    ensures Clear(ZERO, nb - db + 1)
  {
    hide Pow2, P;
    var s := nb - db;
    Pow2Add(db - 1, s + 1);
    Pow2Add(db, s);
    MulLess(Pow2(db - 1), D, Pow2(s + 1));
    StrictLess(D, Pow2(db), Pow2(s));
    PIsPow2(WIDTH);
    Pow2Mono(nb, 32 * WIDTH);
    QuotientRemainder(D * Pow2(s), P(WIDTH), 0, D * Pow2(s));
    QuotientRemainder(0, Pow2((s + 1) % 32), 0, 0);
  }

  lemma DivideStep(q: nat, num: nat, N: nat, D: nat, t: nat)
    requires Dividing(q, num, N, D, t + 1)
    ensures num < D * Pow2(t) ==> Dividing(q, num, N, D, t)
    ensures num >= D * Pow2(t) ==> Dividing(q + Pow2(t), num - D * Pow2(t), N, D, t)
  {
    assert D * (2 * Pow2(t)) == D * Pow2(t) + D * Pow2(t);
    assert (q + Pow2(t)) * D == q * D + D * Pow2(t);
  }

  lemma DivideEnd(q: nat, num: nat, N: nat, D: nat)
    requires D > 0 && Dividing(q, num, N, D, 0)
    ensures q == N / D
  {
    assert D * Pow2(0) == D;
    QuotientRemainder(N, D, q, num);
  }

  lemma HalfOf(D: nat, t: nat)
    ensures t >= 1 ==> D * Pow2(t) / Pow2(1) == D * Pow2(t - 1)
  {
    if t >= 1 {
      assert D * Pow2(t) == (D * Pow2(t - 1)) * 2;
    }
  }

  /** Setting a bit whose place and everything below it is clear adds its power of two. */
  lemma SetBitValue(s: seq<Limb>, n: nat)
    requires n < 32 * |s| && Clear(s, n + 1)
    ensures V(s[n / 32 := OrLimb(s[n / 32], OneBit(n % 32))]) == V(s) + Pow2(n)
    ensures Clear(s[n / 32 := OrLimb(s[n / 32], OneBit(n % 32))], n)
    ensures Clear(s, n)
  {
    hide V, P, Pow2, Clear, Or;
    var i, j := n / 32, n % 32;
    ClearLimb(s, n);
    var x: nat := s[i];
    OrDisjoint(Pow2(j), x, j + 1);
    VUpdate(s, i, OrLimb(s[i], OneBit(j)));
    assert (x + Pow2(j)) * P(i) == x * P(i) + Pow2(j) * P(i);
    ShiftAmount(n);
    ClearWith(s, n, OrLimb(s[i], OneBit(j)));
    ClearWith(s, n, s[i]);
    assert s[i := s[i]] == s;
  }

  lemma ClearWith(s: seq<Limb>, n: nat, y: Limb)
    requires n < 32 * |s| && Clear(s, n + 1) && y % Pow2(n % 32) == 0
    ensures Clear(s[n / 32 := y], n)
  {
    hide Pow2;
  }

  lemma ClearLimb(s: seq<Limb>, n: nat)
    requires n < 32 * |s| && Clear(s, n + 1)
    ensures var x: nat := s[n / 32]; var d := Pow2(n % 32);
            && x % Pow2(n % 32 + 1) == 0 && d < Pow2(n % 32 + 1)
            && x % d == 0 && (x + d) % d == 0
  {
    hide Pow2;
    var x: nat, j := s[n / 32], n % 32;
    Doubled(j);
    if j == 31 {
      assert n / 32 < (n + 1) / 32;
      QuotientRemainder(0, Pow2(32), 0, 0);
    } else {
      assert (n + 1) / 32 == n / 32 && (n + 1) % 32 == j + 1;
    }
    DoubleMultiple(x, Pow2(j));
  }

  lemma Doubled(j: nat)
    ensures Pow2(j + 1) == 2 * Pow2(j)
  {
  }

  lemma DoubleMultiple(x: nat, d: nat)
    requires d > 0 && x % (2 * d) == 0
    ensures x % d == 0 && (x + d) % d == 0
  {
    var q := x / (2 * d);
    assert x == q * (2 * d) == (2 * q) * d;
    QuotientRemainder(x, d, 2 * q, 0);
    assert x + d == (2 * q + 1) * d;
    QuotientRemainder(x + d, d, 2 * q + 1, 0);
  }

  // ----- Shifts -----

  lemma ShiftAmount(shift: nat)
    ensures Pow2(shift % 32) * P(shift / 32) == Pow2(shift)
  {
    PIsPow2(shift / 32);
    Pow2Add(shift % 32, 32 * (shift / 32));
  }

  lemma UpStart(a: seq<Limb>, k: nat, s: nat)
    requires |a| == WIDTH
    ensures Up(ZERO, a, k, s, 0, 0)
  {
    VZero(ZERO);
    VZero(a[..0]);
    assert 0 * (Pow2(s) * P(k)) == 0;
  }

  lemma UpEnd(t: seq<Limb>, a: seq<Limb>, shift: nat, lost: nat)
    requires Up(t, a, shift / 32, shift % 32, WIDTH, lost)
    ensures V(t) == V(a) * Pow2(shift) % P(WIDTH)
  {
    hide V, P, Pow2;
    ShiftAmount(shift);
    assert a[..WIDTH] == a;
    LostCarry(t, lost, V(a) * Pow2(shift));
  }

  lemma DownStart(a: seq<Limb>, k: nat, s: nat)
    requires |a| == WIDTH && s < 32
    ensures Down(ZERO, a, k, s, 0, 0)
  {
    hide Pow2, V;
    VZero(ZERO);
    VZero(a[..0]);
    PUpTo(0, k, Pow2(s));
  }

  lemma DownEnd(t: seq<Limb>, a: seq<Limb>, shift: nat, rest: nat)
    requires Down(t, a, shift / 32, shift % 32, WIDTH, rest)
    ensures V(t) == V(a) / Pow2(shift)
  {
    hide V, P, Pow2;
    ShiftAmount(shift);
    assert a[..WIDTH] == a;
    QuotientRemainder(V(a), Pow2(shift), V(t), rest);
  }

  /** The top bit of a limb is set exactly when the limb reaches its power of two. */
  lemma BitTest(x: Limb, n: nat)
    requires x < Pow2(n + 1)
    ensures ShrLimb(x, n) % 2 == 1 <==> x >= Pow2(n)
  {
    if x < Pow2(n) {
      QuotientRemainder(x, Pow2(n), 0, x);
    } else {
      QuotientRemainder(x, Pow2(n), 1, x - Pow2(n));
    }
  }

  lemma TopBit(s: seq<Limb>, pos: nat, n: nat)
    requires pos < |s| && (forall j :: pos < j < |s| ==> s[j] == 0) && Pow2(n) <= s[pos] < Pow2(n + 1)
    ensures Pow2(32 * pos + n) <= V(s) < Pow2(32 * pos + n + 1)
  {
    hide V, P, Pow2;
    VSplit(s, pos + 1);
    VZero(s[pos + 1..]);
    VNext(s, pos);
    VBound(s[..pos]);
    PIsPow2(pos);
    Pow2Add(32 * pos, n);
    Pow2Add(32 * pos, n + 1);
    assert P(pos + 1) * 0 == 0;
    Between(V(s[..pos]), s[pos], P(pos), Pow2(n), Pow2(n + 1));
  }

  lemma Between(v: nat, x: nat, p: nat, lo: nat, hi: nat)
    requires v < p && lo <= x < hi
    ensures p * lo <= v + x * p < p * hi
  {
    assert lo * p <= x * p;
    assert (x + 1) * p <= hi * p;
  }

  ghost predicate AllZero(s: seq<Limb>) {
    forall i :: 0 <= i < |s| ==> s[i] == 0
  }

  const ZERO: seq<Limb> := [0, 0, 0, 0, 0, 0, 0, 0]

  /** The lowest i limbs of x times m are added to q from limb j on, up to the carry. */
  ghost predicate Row(s: seq<Limb>, q: seq<Limb>, m: seq<Limb>, x: Limb, j: nat, i: nat, carry: nat) {
    && i + j <= |s| == |q| == |m|
    && s[..j] == q[..j] && s[i + j..] == q[i + j..]
    && V(s[j..][..i]) + carry * P(i) == V(q[j..][..i]) + x * V(m[..i])
  }

  lemma RowStart(q: seq<Limb>, m: seq<Limb>, x: Limb, j: nat)
    requires j <= |q| == |m|
    ensures Row(q, q, m, x, j, 0, 0)
  {
    SumStart(q[j..], m);
  }

  lemma RowNext(s: seq<Limb>, q: seq<Limb>, m: seq<Limb>, x: Limb, j: nat, i: nat, carry: nat, n: nat)
    requires i + j < |s| && Row(s, q, m, x, j, i, carry) && n == Mac(carry, s[i + j], x, m[i])
    ensures Row(s[i + j := n % BASE], q, m, x, j, i + 1, n / BASE)
  {
    hide V, P;
    var t := s[i + j := n % BASE];
    assert s[i + j] == q[j..][i];
    WriteLimb(s[j..], i, n % BASE);
    RowStep(q[j..], m, x, i, V(s[j..][..i]), carry, n);
    assert t[j..] == s[j..][i := n % BASE];
    assert t[i + 1 + j..] == s[i + j..][1..];
  }

  lemma RowStep(q: seq<Limb>, m: seq<Limb>, x: Limb, i: nat, lo: nat, carry: nat, n: nat)
    requires i < |q| && i < |m| && lo + carry * P(i) == V(q[..i]) + x * V(m[..i]) && n == carry + q[i] + x * m[i]
    ensures lo + (n % BASE) * P(i) + (n / BASE) * P(i + 1) == V(q[..i + 1]) + x * V(m[..i + 1])
  {
    assert P(i + 1) == BASE * P(i);
    hide V, P;
    VNext(q, i);
    VNext(m, i);
    RowSum(lo, V(q[..i]), V(m[..i]), x, carry, q[i], m[i], n, P(i));
  }

  lemma RowSum(lo: nat, vq: nat, vm: nat, x: nat, carry: nat, q: nat, m: nat, n: nat, p: nat)
    requires lo + carry * p == vq + x * vm && n == carry + q + x * m
    ensures lo + (n % BASE) * p + (n / BASE) * (BASE * p) == (vq + q * p) + x * (vm + m * p)
  {
    CarryStep(lo, vq + x * vm, carry, q + x * m, n, p);
    Spread(x, vm, m, p);
    LimbTimes(q, x, m, p);
  }

  lemma LimbTimes(q: nat, x: nat, m: nat, p: nat)
    ensures (q + x * m) * p == q * p + m * (x * p)
  {
    assert (q + x * m) * p == q * p + (x * m) * p;
    assert (x * m) * p == m * (x * p);
  }

  lemma RowEnd(s: seq<Limb>, q: seq<Limb>, m: seq<Limb>, x: Limb, j: nat, carry: nat) returns (lost: nat)
    requires j <= |s| && Row(s, q, m, x, j, |s| - j, carry)
    ensures V(s) + lost * P(|s|) == V(q) + (x * P(j)) * V(m)
  {
    hide V, P;
    var h := |s| - j;
    assert s[j..][..h] == s[j..] && q[j..][..h] == q[j..];
    VSplit(s, j);
    VSplit(q, j);
    VSplit(m, h);
    PAdd(j, h);
    lost := carry + x * V(m[h..]);
    RowAlgebra(V(s[j..]), V(q[j..]), V(m[..h]), V(m[h..]), x, carry, P(j), P(h));
  }

  lemma RowAlgebra(s: nat, q: nat, lo: nat, hi: nat, x: nat, carry: nat, pj: nat, ph: nat)
    requires s + carry * ph == q + x * lo
    ensures pj * s + (carry + x * hi) * (pj * ph) == pj * q + (x * pj) * (lo + ph * hi)
  {
    assert pj * (s + carry * ph) == pj * s + carry * (pj * ph);
    assert pj * (q + x * lo) == pj * q + (x * pj) * lo;
    assert (carry + x * hi) * (pj * ph) == carry * (pj * ph) + (x * pj) * (ph * hi) by {
      assert (x * hi) * (pj * ph) == (x * pj) * (ph * hi);
    }
  }

  lemma MulStep(a: seq<Limb>, m: nat, j: nat, before: nat, after: nat, k: nat, lost: nat)
    requires j < |a| && before + k * P(WIDTH) == V(a[..j]) * m
    requires after + lost * P(WIDTH) == before + (a[j] * P(j)) * m
    ensures after + (k + lost) * P(WIDTH) == V(a[..j + 1]) * m
  {
    hide V, P;
    VNext(a, j);
    assert (k + lost) * P(WIDTH) == k * P(WIDTH) + lost * P(WIDTH);
    assert (V(a[..j]) + a[j] * P(j)) * m == V(a[..j]) * m + (a[j] * P(j)) * m;
  }

  lemma SubMod(a: nat, b: nat, p: nat)
    requires a < p && b < p
    ensures (a + (p - b) % p) % p == if a >= b then a - b else p + a - b
  {
    if b == 0 {
      QuotientRemainder(p, p, 1, 0);
      QuotientRemainder(a, p, 0, a);
    } else {
      QuotientRemainder(p - b, p, 0, p - b);
      if a >= b {
        QuotientRemainder(a + (p - b), p, 1, a - b);
      } else {
        QuotientRemainder(a + (p - b), p, 0, a + (p - b));
      }
    }
  }

  lemma {:induction false} VNot(s: seq<Limb>, t: seq<Limb>)
    requires |t| == |s| && forall i :: 0 <= i < |s| ==> t[i] == BASE - 1 - s[i]
    ensures V(t) == P(|s|) - 1 - V(s)
  {
    if |s| > 0 {
      var n := |s| - 1;
      VNot(s[..n], t[..n]);
      assert P(n + 1) == BASE * P(n);
      NotLimb(s[n], t[n], P(n));
    }
  }

  lemma NotLimb(s: nat, t: nat, p: nat)
    requires t == BASE - 1 - s
    ensures t * p + p + s * p == BASE * p
  {
    assert (t + 1 + s) * p == t * p + p + s * p;
  }

  /** Incrementing a limb: either it stops there or the limb wraps to zero. */
  lemma IncrementStep(s: seq<Limb>, i: nat, v: nat)
    requires i < |s| && V(s) + P(i) == v
    ensures s[i] < BASE - 1 ==> V(s[i := s[i] + 1]) == v
    ensures s[i] == BASE - 1 ==> V(s[i := 0]) + P(i + 1) == v
  {
    hide V;
    var y: nat := s[i];
    VUpdate(s, i, (y + 1) % BASE);
    assert (y + 1) * P(i) == y * P(i) + P(i);
  }

  /** Equal upper limbs: the value is decided by the limbs below. */
  lemma {:induction false} CompareAt(s: seq<Limb>, t: seq<Limb>, i: nat)
    requires i < |s| == |t| && s[i + 1..] == t[i + 1..] && s[i] < t[i]
    ensures V(s) < V(t)
  {
    hide V, P;
    VSplit(s, i + 1);
    VSplit(t, i + 1);
    VNext(s, i);
    VNext(t, i);
    VBound(s[..i]);
    assert (s[i] + 1) * P(i) <= t[i] * P(i);
    assert (s[i] + 1) * P(i) == s[i] * P(i) + P(i);
  }

  lemma LowLimbs(s: seq<Limb>)
    requires |s| == WIDTH
    ensures Or(s[0], s[1] * BASE) == V(s) % (BASE * BASE)
  {
    hide Or, V, P, Pow2;
    VSplit(s, 2);
    VNext(s, 0);
    VNext(s, 1);
    VZero(s[..0]);
    FirstPowers();
    Pow32();
    MultipleMod(s[1], BASE);
    OrDisjoint(s[0], s[1] * BASE, 32);
    var low: nat := s[0] + s[1] * BASE;
    assert V(s[2..]) * (BASE * BASE) == (BASE * BASE) * V(s[2..]);
    QuotientRemainder(V(s), BASE * BASE, V(s[2..]), low);
  }

  lemma FirstPowers()
    ensures P(0) == 1 && P(1) == BASE && P(2) == BASE * BASE
  {
  }

  lemma TwoLimbs(s: seq<Limb>, b: nat)
    requires b < BASE * BASE && s == [b % BASE, b / BASE, 0, 0, 0, 0, 0, 0]
    ensures V(s) == b
  {
    VSplit(s, 2);
    VZero(s[2..]);
    assert s[..2] == [b % BASE, b / BASE];
    VNext(s, 0);
    VNext(s, 1);
    assert V(s[..0]) == 0 && P(0) == 1 && P(1) == BASE;
  }

  lemma SumStart(a: seq<Limb>, b: seq<Limb>)
    ensures V(a[..0]) == 0 && V(b[..0]) == 0 && P(0) == 1
  {
  }

  lemma SumStep(a: seq<Limb>, b: seq<Limb>, i: nat, lo: nat, carry: nat, n: nat)
    requires i < |a| && i < |b| && lo + carry * P(i) == V(a[..i]) + V(b[..i]) && n == carry + a[i] + b[i]
    ensures lo + (n % BASE) * P(i) + (n / BASE) * P(i + 1) == V(a[..i + 1]) + V(b[..i + 1])
  {
    hide V;
    VNext(a, i);
    VNext(b, i);
    var x: nat := n - carry;
    CarryStep(lo, V(a[..i]) + V(b[..i]), carry, x, n, P(i));
    assert x * P(i) == a[i] * P(i) + b[i] * P(i);
  }

  lemma ProductStep(a: seq<Limb>, x: Limb, i: nat, lo: nat, carry: nat, n: nat)
    requires i < |a| && lo + carry * P(i) == V(a[..i]) * x && n == carry + x * a[i]
    ensures lo + (n % BASE) * P(i) + (n / BASE) * P(i + 1) == V(a[..i + 1]) * x
  {
    hide V;
    VNext(a, i);
    CarryStep(lo, V(a[..i]) * x, carry, x * a[i], n, P(i));
    Spread(x, V(a[..i]), a[i], P(i));
    assert (x * a[i]) * P(i) == a[i] * (x * P(i));
  }
}
