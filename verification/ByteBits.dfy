/** Single bits of a byte, as the flag vectors of the node read and write them. */
module ByteBits {

  function BitMask(i: nat): bv8
    requires i < 8
  {
    1 << i
  }

  predicate Bit(b: bv8, i: nat)
    requires i < 8
  {
    b & BitMask(i) != 0
  }

  /** The byte with bit i raised if v. */
  function WithBit(b: bv8, i: nat, v: bool): bv8
    requires i < 8
  {
    b | (if v then BitMask(i) else 0)
  }

  /** The byte with bit i cleared. */
  function WithoutBit(b: bv8, i: nat): bv8
    requires i < 8
  {
    b & !BitMask(i)
  }

  lemma Masks(i: nat, j: nat)
    requires i < 8 && j < 8
    ensures BitMask(i) != 0
    ensures i != j ==> BitMask(i) & BitMask(j) == 0
  {
    assert forall k | 0 <= k < 8 :: BitMask(k) == [1, 2, 4, 8, 16, 32, 64, 128][k];
  }

  lemma Same(b: bv8, i: nat)
    requires i < 8
    ensures Bit(WithBit(b, i, true), i) && !Bit(WithoutBit(b, i), i)
  {
    hide BitMask;
    Masks(i, i);
    MaskSame(b, BitMask(i));
  }

  lemma MaskSame(b: bv8, x: bv8)
    requires x != 0
    ensures (b | x) & x != 0 && (b & !x) & x == 0
  {
  }

  lemma Other(b: bv8, i: nat, j: nat)
    requires i < 8 && j < 8 && i != j
    ensures Bit(WithBit(b, i, true), j) == Bit(b, j) == Bit(WithoutBit(b, i), j)
  {
    hide BitMask;
    Masks(i, j);
    MaskOther(b, BitMask(i), BitMask(j));
  }

  lemma MaskOther(b: bv8, x: bv8, y: bv8)
    requires x & y == 0
    ensures (b | x) & y == b & y && (b & !x) & y == b & y
  {
  }

  lemma SetBit(b: bv8, i: nat, v: bool, j: nat)
    requires i < 8 && j < 8
    ensures Bit(WithBit(b, i, v), j) <==> (i == j && v) || Bit(b, j)
  {
    if !v {
      assert b | 0 == b;
    } else {
      hide Bit, WithBit;
      if i == j {
        Same(b, i);
      } else {
        Other(b, i, j);
      }
    }
  }

  lemma ClearBit(b: bv8, i: nat, j: nat)
    requires i < 8 && j < 8
    ensures Bit(WithoutBit(b, i), j) <==> i != j && Bit(b, j)
  {
    hide Bit, WithoutBit;
    if i == j {
      Same(b, i);
    } else {
      Other(b, i, j);
    }
  }

  lemma ConstantBits(j: nat)
    requires j < 8
    ensures !Bit(0, j) && Bit(0xFF, j)
  {
    hide BitMask;
    Masks(j, j);
    assert 0 & BitMask(j) == 0 && 0xFF & BitMask(j) == BitMask(j);
  }
}
