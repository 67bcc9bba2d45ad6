/**
 The rolling bloom filter (src/bloom.cpp, src/bloom.h). Three generations share two-bit cells:
 starting a generation wipes the cells of the one three before it, and marking a key overwrites
 cells of older generations. Keys of the current and the two previous generations stay marked.
 */
module RollingBloom {
  import opened BloomCells

  type Key = seq<bv8>

  /** Hash number, tweak and key to a 32-bit word. */
  type Hasher = (nat, nat, Key) -> bv32

  ghost predicate Sized(d: seq<bv64>) {
    |d| > 0 && |d| % 2 == 0
  }

  function BitOf(h: bv32): (b: bv64)
    ensures b < 64
  {
    (h & 0x3F) as bv64
  }

  /** The words 2q and 2q + 1 hold the cell of a hash. */
  function PairOf(n: nat, h: bv32): nat
    requires n > 0
  {
    (h >> 6) as nat % n / 2
  }

  function At(d: seq<bv64>, q: nat, b: bv64): nat
    requires 2 * q + 1 < |d| && b < 64
  {
    Cell(d[2 * q], d[2 * q + 1], b)
  }

  lemma PairInRange(n: nat, h: bv32)
    requires n > 0 && n % 2 == 0
    ensures 2 * PairOf(n, h) + 1 < n
  {
  }

  /** The cell of a hash. */
  function CellOf(d: seq<bv64>, h: bv32): nat
    requires |d| > 0 && |d| % 2 == 0
  {
    PairInRange(|d|, h);
    At(d, PairOf(|d|, h), BitOf(h))
  }

  // ----- Wiping and writing -----

  /** A cell after wiping a generation. */
  function WipedCell(v: nat, g: bv64): nat {
    if v == Number(g) then 0 else v
  }

  ghost predicate Wiped(d: seq<bv64>, e: seq<bv64>, g: bv64) {
    && |e| == |d|
    && forall q: nat, b: bv64 :: 2 * q + 1 < |d| && b < 64 ==> At(e, q, b) == WipedCell(At(d, q, b), g)
  }

  method Wipe(d: seq<bv64>, g: bv64) returns (e: seq<bv64>)
    requires |d| % 2 == 0 && 1 <= g <= 3
    ensures Wiped(d, e, g)
  {
    hide Cell, Number, WipeMask, And;
    e := d;
    var p := 0;
    while p < |d|
      invariant p % 2 == 0 && 0 <= p <= |d| == |e|
      invariant e[p..] == d[p..]
      invariant forall q: nat, b: bv64 :: 2 * q + 1 < p && b < 64 ==> At(e, q, b) == WipedCell(At(d, q, b), g)
    {
      var p1, p2 := e[p], e[p + 1];
      assert p1 == d[p] && p2 == d[p + 1];
      var mask := WipeMask(p1, p2, g);
      forall b: bv64 | b < 64 ensures Cell(And(p1, mask), And(p2, mask), b) == WipedCell(Cell(p1, p2, b), g) {
        CellWiped(p1, p2, g, b);
      }
      e := e[p := And(p1, mask)][p + 1 := And(p2, mask)];
      p := p + 2;
    }
  }

  /** Give the cell of a hash a generation's number. */
  function Marked(d: seq<bv64>, h: bv32, g: bv64): seq<bv64>
    requires |d| > 0 && |d| % 2 == 0
  {
    PairInRange(|d|, h);
    var p := 2 * PairOf(|d|, h);
    d[p := Written(d[p], BitOf(h), g & 1)][p + 1 := Written(d[p + 1], BitOf(h), g >> 1)]
  }

  /** Marking changes that cell and no other. */
  lemma MarkedCell(d: seq<bv64>, h: bv32, g: bv64, k: bv32)
    requires Sized(d) && 1 <= g <= 3
    ensures |Marked(d, h, g)| == |d|
    ensures CellOf(Marked(d, h, g), k) ==
            if SameCell(|d|, h, k) then Number(g) else CellOf(d, k)
  {
    hide Get, Written, PairOf, BitOf;
    PairInRange(|d|, h);
    PairInRange(|d|, k);
    var p := 2 * PairOf(|d|, h);
    assert g & 1 <= 1 && g >> 1 <= 1;
    GetWritten(d[p], BitOf(h), g & 1, BitOf(k));
    GetWritten(d[p + 1], BitOf(h), g >> 1, BitOf(k));
  }

  // ----- The words themselves -----

  /** The hash names bit b of word w: its word is (h >> 6) % n or the other of that pair, its bit h & 63. */
  predicate Names(n: nat, h: bv32, w: nat, b: bv64)
    requires n > 0
  {
    w / 2 == (h >> 6) as nat % n / 2 && b == (h & 0x3F) as bv64
  }

  /** The bit of a generation number that goes to even or to odd words. */
  predicate GenerationBit(g: bv64, w: nat) {
    if w % 2 == 0 then g & 1 == 1 else g >> 1 == 1
  }

  /** The bit the hash names is set in one of its two words. */
  predicate Seen(d: seq<bv64>, h: bv32)
    requires |d| > 0 && |d| % 2 == 0
  {
    var pos := (h >> 6) as nat % |d|;
    var even := pos - pos % 2;
    Get(d[even], (h & 0x3F) as bv64) || Get(d[even + 1], (h & 0x3F) as bv64)
  }

  /** The words after marking: bits named by one of the first `funcs` hashes of the key hold the
      generation, all others are as before. */
  ghost predicate WordsMarked(hash: Hasher, funcs: nat, tweak: nat, d: seq<bv64>, e: seq<bv64>, g: bv64, key: Key)
    requires Sized(d)
  {
    && |e| == |d|
    && forall w: nat, b: bv64 :: w < |d| && b < 64 ==>
         (Get(e[w], b) <==>
            if exists n :: 0 <= n < funcs && Names(|d|, hash(n, tweak, key), w, b) then GenerationBit(g, w) else Get(d[w], b))
  }

  lemma MarkedWord(d: seq<bv64>, h: bv32, g: bv64, w: nat, b: bv64)
    requires Sized(d) && 1 <= g <= 3 && w < |d| && b < 64
    ensures |Marked(d, h, g)| == |d|
    ensures Get(Marked(d, h, g)[w], b) <==> if Names(|d|, h, w, b) then GenerationBit(g, w) else Get(d[w], b)
  {
    hide Get, Written;
    PairInRange(|d|, h);
    var p := 2 * PairOf(|d|, h);
    assert g & 1 <= 1 && g >> 1 <= 1;
    GetWritten(d[p], BitOf(h), g & 1, b);
    GetWritten(d[p + 1], BitOf(h), g >> 1, b);
    assert w / 2 == PairOf(|d|, h) <==> w == p || w == p + 1;
  }

  lemma WordsMarkedMore(hash: Hasher, n: nat, tweak: nat, d: seq<bv64>, e: seq<bv64>, g: bv64, key: Key)
    requires Sized(d) && 1 <= g <= 3 && WordsMarked(hash, n, tweak, d, e, g, key)
    ensures WordsMarked(hash, n + 1, tweak, d, Marked(e, hash(n, tweak, key), g), g, key)
  {
    hide Get, Marked, Names, GenerationBit;
    var h := hash(n, tweak, key);
    MarkedCell(e, h, g, h);
    forall w: nat, b: bv64 | w < |d| && b < 64
      ensures Get(Marked(e, h, g)[w], b) <==>
        if exists m :: 0 <= m < n + 1 && Names(|d|, hash(m, tweak, key), w, b) then GenerationBit(g, w) else Get(d[w], b)
    {
      MarkedWord(e, h, g, w, b);
      if exists m :: 0 <= m < n && Names(|d|, hash(m, tweak, key), w, b) {
        var m :| 0 <= m < n && Names(|d|, hash(m, tweak, key), w, b);
        assert 0 <= m < n + 1 && Names(|d|, hash(m, tweak, key), w, b);
      } else if Names(|d|, h, w, b) {
        assert 0 <= n < n + 1 && Names(|d|, hash(n, tweak, key), w, b);
      }
    }
  }

  lemma NothingMarked(hash: Hasher, tweak: nat, d: seq<bv64>, g: bv64, key: Key)
    requires Sized(d)
    ensures WordsMarked(hash, 0, tweak, d, d, g, key)
  {
  }

  // ----- Where a set cell comes from -----

  /** Two hashes name the same bit of the same pair of words. */
  predicate SamePosition(n: nat, h: bv32, k: bv32)
    requires n > 0
  {
    (h >> 6) as nat % n / 2 == (k >> 6) as nat % n / 2 && h & 0x3F == k & 0x3F
  }

  /** Some key of the three last generations has this cell, and its generation wrote it. */
  ghost predicate Origin(hash: Hasher, funcs: nat, tweak: nat, size: nat, keys: seq<Key>, gens: seq<nat>, current: nat,
          h: bv32, v: nat, i: nat, n: nat)
    requires size > 0 && |gens| == |keys|
  {
    && i < |keys| && n < funcs && gens[i] <= current <= gens[i] + 2 && v == NumberOf(gens[i])
    && SamePosition(size, hash(n, tweak, keys[i]), h)
  }

  /** Every set cell comes from some key of the three last generations. */
  ghost predicate Traced(hash: Hasher, funcs: nat, tweak: nat, d: seq<bv64>, keys: seq<Key>, gens: seq<nat>, current: nat)
    requires Sized(d) && |gens| == |keys|
  {
    forall h: bv32 :: CellOf(d, h) != 0 ==>
      exists i: nat, n: nat :: Origin(hash, funcs, tweak, |d|, keys, gens, current, h, CellOf(d, h), i, n)
  }

  lemma TracedStart(hash: Hasher, funcs: nat, tweak: nat, size: nat)
    requires size > 0 && size % 2 == 0
    ensures Traced(hash, funcs, tweak, seq(size, _ => 0), [], [], 0)
  {
    hide PairOf, BitOf;
    var d: seq<bv64> := seq(size, _ => 0);
    forall h: bv32 ensures CellOf(d, h) == 0 {
      PairInRange(|d|, h);
      NoBits(BitOf(h));
    }
  }

  lemma NoBits(b: bv64)
    requires b < 64
    ensures Cell(0, 0, b) == 0
  {
  }

  /** The generation that goes out of the window is the one that is wiped. */
  lemma TracedThroughWipe(hash: Hasher, funcs: nat, tweak: nat, d: seq<bv64>, e: seq<bv64>, g: bv64, keys: seq<Key>,
          gens: seq<nat>, k: nat)
    requires Sized(d) && Wiped(d, e, g) && Number(g) == NumberOf(k + 1) && |gens| == |keys|
    requires Traced(hash, funcs, tweak, d, keys, gens, k)
    ensures Traced(hash, funcs, tweak, e, keys, gens, k + 1)
  {
    hide At, Number, PairOf, BitOf, SamePosition;
    var next: nat := k + 1;
    forall h: bv32 | CellOf(e, h) != 0
      ensures exists i: nat, n: nat :: Origin(hash, funcs, tweak, |e|, keys, gens, next, h, CellOf(e, h), i, n)
    {
      PairInRange(|d|, h);
      assert CellOf(e, h) == CellOf(d, h) && CellOf(d, h) != Number(g);
      var i: nat, n: nat :| Origin(hash, funcs, tweak, |d|, keys, gens, k, h, CellOf(d, h), i, n);
      assert Origin(hash, funcs, tweak, |e|, keys, gens, next, h, CellOf(e, h), i, n);
    }
  }

  /** Marking a cell of a key that is among those remembered. */
  lemma TracedThroughMark(hash: Hasher, funcs: nat, tweak: nat, d: seq<bv64>, g: bv64, keys: seq<Key>, gens: seq<nat>,
          k: nat, i: nat, n: nat)
    requires Sized(d) && 1 <= g <= 3 && Number(g) == NumberOf(k) && |gens| == |keys|
    requires i < |keys| && gens[i] == k && n < funcs && Traced(hash, funcs, tweak, d, keys, gens, k)
    ensures |Marked(d, hash(n, tweak, keys[i]), g)| == |d|
    ensures Traced(hash, funcs, tweak, Marked(d, hash(n, tweak, keys[i]), g), keys, gens, k)
  {
    hide CellOf, Number, Marked, SamePosition, SameCell;
    var m := hash(n, tweak, keys[i]);
    var e := Marked(d, m, g);
    MarkedCell(d, m, g, m);
    forall h: bv32 | CellOf(e, h) != 0
      ensures exists j: nat, r: nat :: Origin(hash, funcs, tweak, |e|, keys, gens, k, h, CellOf(e, h), j, r)
    {
      MarkedCell(d, m, g, h);
      if SameCell(|d|, m, h) {
        SameCellPosition(|d|, m, h);
        assert Origin(hash, funcs, tweak, |e|, keys, gens, k, h, CellOf(e, h), i, n);
      } else {
        var j: nat, r: nat :| Origin(hash, funcs, tweak, |d|, keys, gens, k, h, CellOf(d, h), j, r);
        assert Origin(hash, funcs, tweak, |e|, keys, gens, k, h, CellOf(e, h), j, r);
      }
    }
  }

  lemma SameCellPosition(n: nat, h: bv32, k: bv32)
    requires n > 0
    ensures SameCell(n, h, k) <==> SamePosition(n, h, k)
  {
    LowBits(h & 0x3F, k & 0x3F);
  }

  lemma LowBits(a: bv32, b: bv32)
    ensures a as bv64 == b as bv64 <==> a == b
  {
  }

  /** One more key takes nothing away. */
  lemma TracedMoreKeys(hash: Hasher, funcs: nat, tweak: nat, d: seq<bv64>, keys: seq<Key>, gens: seq<nat>, k: nat, key: Key)
    requires Sized(d) && |gens| == |keys| && Traced(hash, funcs, tweak, d, keys, gens, k)
    ensures Traced(hash, funcs, tweak, d, keys + [key], gens + [k], k)
  {
    hide CellOf, SamePosition;
    forall h: bv32 | CellOf(d, h) != 0
      ensures exists i: nat, n: nat :: Origin(hash, funcs, tweak, |d|, keys + [key], gens + [k], k, h, CellOf(d, h), i, n)
    {
      var i: nat, n: nat :| Origin(hash, funcs, tweak, |d|, keys, gens, k, h, CellOf(d, h), i, n);
      assert Origin(hash, funcs, tweak, |d|, keys + [key], gens + [k], k, h, CellOf(d, h), i, n);
    }
  }

  // ----- What the filter remembers -----

  /** The number of a generation, counted from zero since the last reset. */
  function NumberOf(j: nat): nat {
    j % 3 + 1
  }

  /** The cell was last written in one of the generations lo to k. */
  ghost predicate Since(v: nat, lo: nat, k: nat) {
    exists j {:trigger NumberOf(j)} :: lo <= j <= k && v == NumberOf(j)
  }

  /** All cells of a key were last written in generations lo to k. */
  ghost predicate KeyHeld(hash: Hasher, funcs: nat, tweak: nat, d: seq<bv64>, key: Key, lo: nat, k: nat)
    requires Sized(d)
  {
    forall n :: 0 <= n < funcs ==> Since(CellOf(d, hash(n, tweak, key)), lo, k)
  }

  predicate SameCell(n: nat, h: bv32, k: bv32)
    requires n > 0
  {
    PairOf(n, k) == PairOf(n, h) && BitOf(k) == BitOf(h)
  }

  /** Only cells of the key differ. */
  ghost predicate OnlyMarked(hash: Hasher, funcs: nat, tweak: nat, d: seq<bv64>, e: seq<bv64>, key: Key)
    requires Sized(d)
  {
    && |e| == |d|
    && forall k: bv32 :: CellOf(e, k) == CellOf(d, k) || exists n :: 0 <= n < funcs && SameCell(|d|, hash(n, tweak, key), k)
  }

  lemma OnlyMarkedMore(hash: Hasher, n: nat, tweak: nat, d: seq<bv64>, e: seq<bv64>, g: bv64, key: Key)
    requires Sized(d) && 1 <= g <= 3 && OnlyMarked(hash, n, tweak, d, e, key)
    ensures OnlyMarked(hash, n + 1, tweak, d, Marked(e, hash(n, tweak, key), g), key)
  {
    hide CellOf, Number, Marked, SameCell;
    var h := hash(n, tweak, key);
    MarkedCell(e, h, g, h);
    forall k: bv32
      ensures CellOf(Marked(e, h, g), k) == CellOf(d, k) || exists m :: 0 <= m < n + 1 && SameCell(|d|, hash(m, tweak, key), k)
    {
      MarkedCell(e, h, g, k);
      if CellOf(e, k) != CellOf(d, k) {
        var m :| 0 <= m < n && SameCell(|d|, hash(m, tweak, key), k);
      } else if CellOf(Marked(e, h, g), k) != CellOf(d, k) {
        assert SameCell(|d|, hash(n, tweak, key), k);
      }
    }
  }

  /** Starting the next generation clears no cell of the two generations before it. */
  lemma HeldThroughWipe(hash: Hasher, funcs: nat, tweak: nat, d: seq<bv64>, e: seq<bv64>, g: bv64, key: Key,
          lo: nat, k: nat)
    requires Sized(d) && Wiped(d, e, g) && Number(g) == NumberOf(k + 1)
    requires KeyHeld(hash, funcs, tweak, d, key, lo, k) && lo + 1 >= k
    ensures KeyHeld(hash, funcs, tweak, e, key, lo, k + 1)
  {
    hide At, Number, PairOf, BitOf;
    forall n | 0 <= n < funcs ensures Since(CellOf(e, hash(n, tweak, key)), lo, k + 1) {
      var h := hash(n, tweak, key);
      PairInRange(|d|, h);
      var j :| lo <= j <= k && CellOf(d, h) == NumberOf(j);
      assert CellOf(e, h) == CellOf(d, h);
    }
  }

  /** Marking another key's cell in the current generation. */
  lemma HeldThroughMark(hash: Hasher, funcs: nat, tweak: nat, d: seq<bv64>, h: bv32, g: bv64, key: Key, lo: nat, k: nat)
    requires Sized(d) && 1 <= g <= 3 && Number(g) == NumberOf(k) && lo <= k
    requires KeyHeld(hash, funcs, tweak, d, key, lo, k)
    ensures |Marked(d, h, g)| == |d| && KeyHeld(hash, funcs, tweak, Marked(d, h, g), key, lo, k)
  {
    hide CellOf, Number, Marked;
    MarkedCell(d, h, g, h);
    forall n | 0 <= n < funcs ensures Since(CellOf(Marked(d, h, g), hash(n, tweak, key)), lo, k) {
      MarkedCell(d, h, g, hash(n, tweak, key));
    }
  }

  /** The keys of the three last generations have all their cells set. */
  ghost predicate AllHeld(hash: Hasher, funcs: nat, tweak: nat, d: seq<bv64>, keys: seq<Key>, gens: seq<nat>, current: nat)
    requires Sized(d) && |gens| == |keys|
  {
    forall i :: 0 <= i < |keys| && gens[i] + 2 >= current ==> KeyHeld(hash, funcs, tweak, d, keys[i], gens[i], current)
  }

  lemma AllHeldThroughMark(hash: Hasher, funcs: nat, tweak: nat, d: seq<bv64>, h: bv32, g: bv64, keys: seq<Key>,
          gens: seq<nat>, k: nat)
    requires Sized(d) && 1 <= g <= 3 && Number(g) == NumberOf(k) && |gens| == |keys|
    requires AllHeld(hash, funcs, tweak, d, keys, gens, k) && forall i :: 0 <= i < |gens| ==> gens[i] <= k
    ensures |Marked(d, h, g)| == |d| && AllHeld(hash, funcs, tweak, Marked(d, h, g), keys, gens, k)
  {
    hide CellOf, Number, Marked, KeyHeld;
    MarkedCell(d, h, g, h);
    forall i | 0 <= i < |keys| && gens[i] + 2 >= k
      ensures KeyHeld(hash, funcs, tweak, Marked(d, h, g), keys[i], gens[i], k)
    {
      HeldThroughMark(hash, funcs, tweak, d, h, g, keys[i], gens[i], k);
    }
  }

  /** With the first n cells of a key marked. */
  ghost predicate Marking(hash: Hasher, funcs: nat, tweak: nat, was: seq<bv64>, d: seq<bv64>, g: bv64, key: Key,
          keys: seq<Key>, gens: seq<nat>, k: nat, n: nat)
    requires Sized(was) && |gens| == |keys|
  {
    && |d| == |was|
    && AllHeld(hash, funcs, tweak, d, keys, gens, k)
    && KeyHeld(hash, n, tweak, d, key, k, k)
    && OnlyMarked(hash, n, tweak, was, d, key)
    && WordsMarked(hash, n, tweak, was, d, g, key)
    && Traced(hash, funcs, tweak, d, keys + [key], gens + [k], k)
  }

  lemma MarkingStart(hash: Hasher, funcs: nat, tweak: nat, d: seq<bv64>, g: bv64, key: Key, keys: seq<Key>,
          gens: seq<nat>, k: nat)
    requires Sized(d) && |gens| == |keys| && AllHeld(hash, funcs, tweak, d, keys, gens, k)
    requires Traced(hash, funcs, tweak, d, keys, gens, k)
    ensures Marking(hash, funcs, tweak, d, d, g, key, keys, gens, k, 0)
  {
    hide KeyHeld, CellOf, OnlyMarked, WordsMarked, Traced, AllHeld;
    HeldNone(hash, tweak, d, key, k);
    NothingMarked(hash, tweak, d, g, key);
    TracedMoreKeys(hash, funcs, tweak, d, keys, gens, k, key);
  }

  lemma MarkingStep(hash: Hasher, funcs: nat, tweak: nat, was: seq<bv64>, d: seq<bv64>, g: bv64, key: Key,
          keys: seq<Key>, gens: seq<nat>, k: nat, n: nat)
    requires Sized(was) && |gens| == |keys| && 1 <= g <= 3 && Number(g) == NumberOf(k) && n < funcs
    requires Marking(hash, funcs, tweak, was, d, g, key, keys, gens, k, n)
    requires forall i :: 0 <= i < |gens| ==> gens[i] <= k
    ensures Sized(d) && Sized(Marked(d, hash(n, tweak, key), g))
    ensures Marking(hash, funcs, tweak, was, Marked(d, hash(n, tweak, key), g), g, key, keys, gens, k, n + 1)
  {
    hide Number, NumberOf, Marked, KeyHeld, CellOf, OnlyMarked, WordsMarked, Traced, AllHeld;
    var h := hash(n, tweak, key);
    AllHeldThroughMark(hash, funcs, tweak, d, h, g, keys, gens, k);
    HeldThroughMark(hash, n, tweak, d, h, g, key, k, k);
    HeldOneMore(hash, n, tweak, d, h, g, key, k);
    OnlyMarkedMore(hash, n, tweak, was, d, g, key);
    WordsMarkedMore(hash, n, tweak, was, d, g, key);
    TracedThroughMark(hash, funcs, tweak, d, g, keys + [key], gens + [k], k, |keys|, n);
  }

  lemma MarkingEnd(hash: Hasher, funcs: nat, tweak: nat, was: seq<bv64>, d: seq<bv64>, g: bv64, key: Key,
          keys: seq<Key>, gens: seq<nat>, k: nat)
    requires Sized(was) && |gens| == |keys| && Marking(hash, funcs, tweak, was, d, g, key, keys, gens, k, funcs)
    ensures Sized(d) && |d| == |was|
    ensures AllHeld(hash, funcs, tweak, d, keys, gens, k) && KeyHeld(hash, funcs, tweak, d, key, k, k)
    ensures OnlyMarked(hash, funcs, tweak, was, d, key) && WordsMarked(hash, funcs, tweak, was, d, g, key)
    ensures Traced(hash, funcs, tweak, d, keys + [key], gens + [k], k)
  {
  }

  class RollingBloomFilter {
    const hash: Hasher
    const nHashFuncs: nat
    const nEntriesPerGeneration: nat
    var nEntriesThisGeneration: nat
    var nGeneration: bv64
    var data: seq<bv64>
    var nTweak: nat
    /** Keys inserted since the last reset, the generation of each, and the current one. */
    ghost var keys: seq<Key>
    ghost var gens: seq<nat>
    ghost var current: nat

    /** Every set cell comes from a remembered key, and every remembered key has its cells set. */
    ghost predicate Valid()
      reads this
    {
      Held() && Traced(hash, nHashFuncs, nTweak, data, keys, gens, current)
    }

    ghost predicate Held()
      reads this
    {
      && Sized(data)
      && 1 <= nGeneration <= 3 && Number(nGeneration) == NumberOf(current)
      && |gens| == |keys| && Windows(keys, gens, current, nEntriesPerGeneration, nEntriesThisGeneration)
      && AllHeld(hash, nHashFuncs, nTweak, data, keys, gens, current)
    }

    /** The current generation has all its entries. */
    predicate Full()
      reads this
    {
      nEntriesThisGeneration == nEntriesPerGeneration
    }

    /** The sizing formula is a parameter: the number of filter bits and of hash functions. */
    constructor (hash: Hasher, nElements: nat, nHashFuncs: nat, nFilterBits: nat, tweak: nat)
      requires nFilterBits >= 1
      ensures Valid() && keys == []
      ensures this.hash == hash && this.nHashFuncs == nHashFuncs && nEntriesPerGeneration == (nElements + 1) / 2
      ensures data == seq(2 * ((nFilterBits + 63) / 64), _ => 0)
      ensures nTweak == tweak && nEntriesThisGeneration == 0 && nGeneration == 1
    {
      this.hash, this.nHashFuncs := hash, nHashFuncs;
      nEntriesPerGeneration := (nElements + 1) / 2;
      data := seq(2 * ((nFilterBits + 63) / 64), _ => 0);
      nTweak, nEntriesThisGeneration, nGeneration := tweak, 0, 1;
      keys, gens, current := [], [], 0;
      TracedStart(hash, nHashFuncs, tweak, 2 * ((nFilterBits + 63) / 64));
    }

    method Reset(tweak: nat)
      requires Valid()
      modifies this
      ensures Valid() && keys == [] && nTweak == tweak && nEntriesThisGeneration == 0 && nGeneration == 1
      ensures data == seq(|old(data)|, _ => 0)
    {
      nTweak, nEntriesThisGeneration, nGeneration := tweak, 0, 1;
      data := seq(|data|, _ => 0);
      keys, gens, current := [], [], 0;
      TracedStart(hash, nHashFuncs, tweak, |data|);
    }

    /** Start the next generation. */
    method Rotate()
      requires Valid() && nEntriesThisGeneration == nEntriesPerGeneration
      modifies this
      ensures Valid() && keys == old(keys) && gens == old(gens) && nTweak == old(nTweak)
      ensures nEntriesThisGeneration == 0 && current == old(current) + 1
      ensures Wiped(old(data), data, nGeneration) && |data| == |old(data)|
    {
      hide KeyHeld, Wiped, Windows, Traced;
      nEntriesThisGeneration := 0;
      nGeneration := nGeneration + 1;
      if nGeneration == 4 {
        nGeneration := 1;
      }
      ghost var before := data;
      data := Wipe(data, nGeneration);
      WipedSize(before, data, nGeneration);
      WindowsRotate(keys, gens, current, nEntriesPerGeneration);
      forall i | 0 <= i < |keys| && gens[i] + 2 >= current + 1
        ensures KeyHeld(hash, nHashFuncs, nTweak, data, keys[i], gens[i], current + 1)
      {
        HeldThroughWipe(hash, nHashFuncs, nTweak, before, data, nGeneration, keys[i], gens[i], current);
      }
      TracedThroughWipe(hash, nHashFuncs, nTweak, before, data, nGeneration, keys, gens, current);
      current := current + 1;
    }

    /** Mark every cell of a key with the current generation. */
    method MarkAll(key: Key)
      requires Valid()
      modifies this`data
      ensures OnlyMarked(hash, nHashFuncs, nTweak, old(data), data, key)
      ensures WordsMarked(hash, nHashFuncs, nTweak, old(data), data, nGeneration, key)
      ensures Held() && |data| == |old(data)| && KeyHeld(hash, nHashFuncs, nTweak, data, key, current, current)
      ensures Traced(hash, nHashFuncs, nTweak, data, keys + [key], gens + [current], current)
    {
      hide Marked, KeyHeld, Windows, OnlyMarked, WordsMarked, Traced, AllHeld, Marking;
      ghost var was := data;
      WindowsGens(keys, gens, current, nEntriesPerGeneration, nEntriesThisGeneration);
      MarkingStart(hash, nHashFuncs, nTweak, was, nGeneration, key, keys, gens, current);
      for n := 0 to nHashFuncs
        invariant Sized(data)
        invariant Marking(hash, nHashFuncs, nTweak, was, data, nGeneration, key, keys, gens, current, n)
      {
        MarkingStep(hash, nHashFuncs, nTweak, was, data, nGeneration, key, keys, gens, current, n);
        data := Marked(data, hash(n, nTweak, key), nGeneration);
      }
      MarkingEnd(hash, nHashFuncs, nTweak, was, data, nGeneration, key, keys, gens, current);
    }

    /** Between wiping and marking the cells are those of kept. */
    method Insert(key: Key) returns (ghost kept: seq<bv64>)
      requires Valid()
      modifies this
      ensures Valid() && keys == old(keys) + [key] && nTweak == old(nTweak) && |data| == |old(data)|
      ensures nEntriesThisGeneration == if old(Full()) then 1 else old(nEntriesThisGeneration) + 1
      ensures if old(Full()) then Wiped(old(data), kept, nGeneration) else kept == old(data)
      ensures Sized(kept) && OnlyMarked(hash, nHashFuncs, nTweak, kept, data, key)
      ensures WordsMarked(hash, nHashFuncs, nTweak, kept, data, nGeneration, key)
      ensures forall n :: 0 <= n < nHashFuncs ==> CellOf(data, hash(n, nTweak, key)) == Number(nGeneration)
    {
      hide KeyHeld, Windows, Wiped, OnlyMarked, CellOf, Number, Traced, WordsMarked;
      if nEntriesThisGeneration == nEntriesPerGeneration {
        Rotate();
      }
      kept := data;
      MarkAll(key);
      WindowsInsert(keys, gens, current, nEntriesPerGeneration, nEntriesThisGeneration, key);
      nEntriesThisGeneration := nEntriesThisGeneration + 1;
      keys, gens := keys + [key], gens + [current];
      HeldNow(hash, nHashFuncs, nTweak, data, key, current);
    }

    /** The lookup, by the words: nothing remembered is missed, and what is found is covered by keys
        that are remembered. */
    method Contains(key: Key) returns (found: bool)
      requires Valid()
      ensures found == forall n :: 0 <= n < nHashFuncs ==> Seen(data, hash(n, nTweak, key))
      ensures key in Recent() ==> found
      ensures found ==> forall n :: 0 <= n < nHashFuncs ==> Shared(hash(n, nTweak, key))
      ensures keys == [] && nHashFuncs >= 1 ==> !found
    {
      hide CellOf, Windows, Traced, RollingBloomFilter.Shared, Seen;
      found := true;
      for n := 0 to nHashFuncs
        invariant forall m :: 0 <= m < n ==> Seen(data, hash(m, nTweak, key))
      {
        var h := hash(n, nTweak, key);
        var bit, pos := h & 0x3F, (h >> 6) as nat % |data|;
        // The even word of the pair and the odd one after it.
        SeenWords(data, h, pos - pos % 2);
        if !Get(Or(data[pos - pos % 2], data[pos - pos % 2 + 1]), bit as bv64) {
          found := false;
          break;
        }
      }
      forall n | 0 <= n < nHashFuncs
        ensures Seen(data, hash(n, nTweak, key)) <==> CellOf(data, hash(n, nTweak, key)) != 0
        ensures Seen(data, hash(n, nTweak, key)) ==> Shared(hash(n, nTweak, key))
      {
        SeenCell(data, hash(n, nTweak, key));
        if CellOf(data, hash(n, nTweak, key)) != 0 {
          SharedCell(hash(n, nTweak, key));
        }
      }
      if key in Recent() {
        RecentFound(key);
      }
      if keys == [] && nHashFuncs >= 1 && found {
        assert Shared(hash(0, nTweak, key));
        NothingShared(hash(0, nTweak, key));
      }
    }

    /** The position of a hash is also a position of some remembered key. */
    ghost predicate Shared(h: bv32)
      requires |data| > 0
      reads this
    {
      exists key, n: nat :: key in Recent() && n < nHashFuncs && SamePosition(|data|, hash(n, nTweak, key), h)
    }

    lemma NothingShared(h: bv32)
      requires |data| > 0 && Shared(h)
      ensures keys != []
    {
    }

    lemma SharedCell(h: bv32)
      requires Valid() && CellOf(data, h) != 0
      ensures Shared(h)
    {
      hide CellOf, SamePosition;
      var i: nat, n: nat :| Origin(hash, nHashFuncs, nTweak, |data|, keys, gens, current, h, CellOf(data, h), i, n);
      var m := 2 * nEntriesPerGeneration + nEntriesThisGeneration;
      assert i + m >= |keys|;
      assert m <= |keys| ==> Recent()[i - (|keys| - m)] == keys[i];
      assert keys[i] in Recent();
    }

    /** The keys of the last two full generations' length and of this generation so far. */
    ghost function Recent(): seq<Key>
      reads this
    {
      var n := 2 * nEntriesPerGeneration + nEntriesThisGeneration;
      if n <= |keys| then keys[|keys| - n..] else keys
    }

    lemma RecentFound(key: Key)
      requires Valid() && key in Recent()
      ensures forall n :: 0 <= n < nHashFuncs ==> CellOf(data, hash(n, nTweak, key)) != 0
    {
      hide CellOf;
      var n := 2 * nEntriesPerGeneration + nEntriesThisGeneration;
      var i :| 0 <= i < |keys| && i + n >= |keys| && keys[i] == key;
      assert KeyHeld(hash, nHashFuncs, nTweak, data, keys[i], gens[i], current);
    }
  }

  lemma WipedSize(d: seq<bv64>, e: seq<bv64>, g: bv64)
    requires Wiped(d, e, g)
    ensures |e| == |d|
  {
  }

  /** The bit is set in the or of the two words exactly when it is set in either. */
  lemma SeenWords(d: seq<bv64>, h: bv32, even: nat)
    requires Sized(d) && even == (h >> 6) as nat % |d| - (h >> 6) as nat % |d| % 2
    ensures even + 1 < |d|
    ensures Seen(d, h) <==> Get(Or(d[even], d[even + 1]), (h & 0x3F) as bv64)
  {
    hide Get, Or;
    GetOr(d[even], d[even + 1], BitOf(h));
  }

  lemma SeenCell(d: seq<bv64>, h: bv32)
    requires Sized(d)
    ensures Seen(d, h) <==> CellOf(d, h) != 0
  {
    hide Get;
    PairInRange(|d|, h);
    var pos := (h >> 6) as nat % |d|;
    assert 2 * PairOf(|d|, h) == pos - pos % 2;
  }

  lemma HeldNone(hash: Hasher, tweak: nat, d: seq<bv64>, key: Key, k: nat)
    requires Sized(d)
    ensures KeyHeld(hash, 0, tweak, d, key, k, k) && OnlyMarked(hash, 0, tweak, d, d, key)
  {
  }

  lemma HeldNow(hash: Hasher, funcs: nat, tweak: nat, d: seq<bv64>, key: Key, k: nat)
    requires Sized(d) && KeyHeld(hash, funcs, tweak, d, key, k, k)
    ensures forall n :: 0 <= n < funcs ==> CellOf(d, hash(n, tweak, key)) == NumberOf(k)
  {
    hide CellOf;
  }

  lemma HeldOneMore(hash: Hasher, n: nat, tweak: nat, d: seq<bv64>, h: bv32, g: bv64, key: Key, k: nat)
    requires Sized(d) && 1 <= g <= 3 && Number(g) == NumberOf(k) && h == hash(n, tweak, key)
    requires |Marked(d, h, g)| == |d| && KeyHeld(hash, n, tweak, Marked(d, h, g), key, k, k)
    ensures KeyHeld(hash, n + 1, tweak, Marked(d, h, g), key, k, k)
  {
    hide CellOf, Number, Marked;
    MarkedCell(d, h, g, h);
  }

  /** The last m keys are those of the current generation, the per keys before them those of the
      previous one, and the per keys before those of the one before that. */
  ghost predicate Windows(keys: seq<Key>, gens: seq<nat>, current: nat, per: nat, m: nat) {
    && |gens| == |keys|
    && (forall i :: 0 <= i < |gens| ==> gens[i] <= current)
    && (forall i :: 0 <= i < |gens| ==> (i + m >= |gens| <==> gens[i] == current))
    && (forall i :: 0 <= i < |gens| ==> (i + m + per >= |gens| <==> gens[i] + 1 >= current))
    && (forall i :: 0 <= i < |gens| ==> (i + m + 2 * per >= |gens| <==> gens[i] + 2 >= current))
  }

  lemma WindowsGens(keys: seq<Key>, gens: seq<nat>, current: nat, per: nat, m: nat)
    requires Windows(keys, gens, current, per, m)
    ensures |gens| == |keys| && forall i :: 0 <= i < |gens| ==> gens[i] <= current
  {
  }

  lemma WindowsRotate(keys: seq<Key>, gens: seq<nat>, current: nat, per: nat)
    requires Windows(keys, gens, current, per, per)
    ensures Windows(keys, gens, current + 1, per, 0)
  {
  }

  lemma WindowsInsert(keys: seq<Key>, gens: seq<nat>, current: nat, per: nat, m: nat, key: Key)
    requires Windows(keys, gens, current, per, m)
    ensures Windows(keys + [key], gens + [current], current, per, m + 1)
  {
  }
}
