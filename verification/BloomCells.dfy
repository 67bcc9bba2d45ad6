/**
 The two-bit cells of the rolling bloom filter (src/bloom.cpp): bit b of two neighbouring 64-bit
 words holds the number, 1 to 3, of the generation that last wrote the cell, or 0.
 */
module BloomCells {

  // Word operations by name, so that proofs can work bit by bit.

  function And(x: bv64, y: bv64): bv64 { x & y }

  function Or(x: bv64, y: bv64): bv64 { x | y }

  function Xor(x: bv64, y: bv64): bv64 { x ^ y }

  function Not(x: bv64): bv64 { !x }

  function Shl(x: bv64, i: bv64): bv64
    requires i < 64
  {
    x << i
  }

  function Minus(x: bv64): bv64 { 0 - x }

  predicate Get(w: bv64, b: bv64)
    requires b < 64
  {
    (w >> b) & 1 == 1
  }

  /** The value of the cell at bit b of two words. */
  function Cell(p1: bv64, p2: bv64, b: bv64): nat
    requires b < 64
  {
    (if Get(p1, b) then 1 else 0) + (if Get(p2, b) then 2 else 0)
  }

  lemma BitAnd(x: bv64, y: bv64, b: bv64)
    requires b < 64
    ensures Get(x & y, b) == (Get(x, b) && Get(y, b))
  {
  }

  lemma GetAnd(x: bv64, y: bv64, b: bv64)
    requires b < 64
    ensures Get(And(x, y), b) == (Get(x, b) && Get(y, b))
  {
    hide Get;
    BitAnd(x, y, b);
  }

  lemma BitOr(x: bv64, y: bv64, b: bv64)
    requires b < 64
    ensures Get(x | y, b) == (Get(x, b) || Get(y, b))
  {
  }

  lemma GetOr(x: bv64, y: bv64, b: bv64)
    requires b < 64
    ensures Get(Or(x, y), b) == (Get(x, b) || Get(y, b))
  {
    hide Get;
    BitOr(x, y, b);
  }

  lemma BitXor(x: bv64, y: bv64, b: bv64)
    requires b < 64
    ensures Get(x ^ y, b) == (Get(x, b) != Get(y, b))
  {
  }

  lemma GetXor(x: bv64, y: bv64, b: bv64)
    requires b < 64
    ensures Get(Xor(x, y), b) == (Get(x, b) != Get(y, b))
  {
    hide Get;
    BitXor(x, y, b);
  }

  lemma GetNot(x: bv64, b: bv64)
    requires b < 64
    ensures Get(Not(x), b) == !Get(x, b)
  {
  }

  lemma GetShifted(g: bv64, i: bv64, b: bv64)
    requires i < 64 && b < 64 && g <= 1
    ensures Get(Shl(g, i), b) == (g == 1 && i == b)
  {
  }

  lemma GetSpread(g: bv64, b: bv64)
    requires b < 64 && g <= 1
    ensures Get(Minus(g), b) == (g == 1)
  {
  }

  /** The word with bit i replaced by g. */
  function Written(w: bv64, i: bv64, g: bv64): bv64
    requires i < 64
  {
    Or(And(w, Not(Shl(1, i))), Shl(g, i))
  }

  lemma GetWritten(w: bv64, i: bv64, g: bv64, b: bv64)
    requires i < 64 && b < 64 && g <= 1
    ensures Get(Written(w, i, g), b) == if i == b then g == 1 else Get(w, b)
  {
    hide Get, And, Or, Not, Shl;
    GetOr(And(w, Not(Shl(1, i))), Shl(g, i), b);
    GetAnd(w, Not(Shl(1, i)), b);
    GetNot(Shl(1, i), b);
    GetShifted(1, i, b);
    GetShifted(g, i, b);
  }

  /** A generation number as a cell value. */
  function Number(g: bv64): nat {
    (if g & 1 == 1 then 1 else 0) + (if g >> 1 == 1 then 2 else 0)
  }

  function WipeMask(p1: bv64, p2: bv64, g: bv64): bv64 {
    Or(Xor(p1, Minus(g & 1)), Xor(p2, Minus(g >> 1)))
  }

  /** Wiping clears exactly the cells that hold the generation's number. */
  lemma CellWiped(p1: bv64, p2: bv64, g: bv64, b: bv64)
    requires b < 64 && 1 <= g <= 3
    ensures var mask := WipeMask(p1, p2, g);
            Cell(And(p1, mask), And(p2, mask), b) == if Cell(p1, p2, b) == Number(g) then 0 else Cell(p1, p2, b)
  {
    hide Get, And, Or, Xor, Minus;
    var mask := WipeMask(p1, p2, g);
    var g1, g2 := g & 1, g >> 1;
    assert g1 <= 1 && g2 <= 1;
    GetOr(Xor(p1, Minus(g1)), Xor(p2, Minus(g2)), b);
    GetXor(p1, Minus(g1), b);
    GetXor(p2, Minus(g2), b);
    GetSpread(g1, b);
    GetSpread(g2, b);
    GetAnd(p1, mask, b);
    GetAnd(p2, mask, b);
  }
}
