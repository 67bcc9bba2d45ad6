/**
 Shape and hashes of the Merkle tree over a list of transaction ids, as src/merkleblock.cpp
 computes them. Node (h, pos) stands above the leaves pos * 2^h up to (pos + 1) * 2^h - 1.
 */
module MerkleTree {
  import opened Powers

  /** A 256-bit hash, as a number. */
  type Hash = nat

  /** The hash of two hashes, left uninterpreted. */
  type PairHash = (Hash, Hash) -> Hash

  ghost predicate Injective(H: PairHash) {
    forall a, b, c, d :: H(a, b) == H(c, d) ==> a == c && b == d
  }

  /** The number of nodes at a height. */
  function CalcTreeWidth(n: nat, h: nat): nat {
    (n + Pow2(h) - 1) / Pow2(h)
  }

  /** The first leaf under a node. */
  function First(h: nat, pos: nat): nat {
    pos * Pow2(h)
  }

  /** A position is a node of the tree exactly when its first leaf exists. */
  lemma WidthRange(n: nat, h: nat, pos: nat)
    ensures pos < CalcTreeWidth(n, h) <==> First(h, pos) < n
  {
    var m := Pow2(h);
    DivCompare(n + m - 1, pos + 1, m);
    assert (pos + 1) * m == pos * m + m;
  }

  predicate Node(n: nat, h: nat, pos: nat) {
    First(h, pos) < n
  }

  /** The first leaf past those under a node. */
  function End(n: nat, h: nat, pos: nat): nat {
    var e := First(h, pos + 1);
    if e < n then e else n
  }

  lemma NodeEnd(n: nat, h: nat, pos: nat)
    requires Node(n, h, pos)
    ensures First(h, pos) < End(n, h, pos) <= n
    ensures h == 0 ==> First(h, pos) == pos && End(n, h, pos) == pos + 1
  {
    assert (pos + 1) * Pow2(h) == pos * Pow2(h) + Pow2(h);
  }

  lemma Halves(pos: nat, m: nat)
    ensures (2 * pos) * m == pos * (2 * m)
    ensures (2 * pos + 1) * m == (2 * pos) * m + m
    ensures (2 * pos + 1 + 1) * m == (pos + 1) * (2 * m)
  {
  }

  /** The children of a node split its leaves; a missing right child stands above none. */
  lemma Children(n: nat, h: nat, pos: nat)
    requires h > 0 && Node(n, h, pos)
    ensures Node(n, h - 1, 2 * pos) && First(h - 1, 2 * pos) == First(h, pos)
    ensures Node(n, h - 1, 2 * pos + 1) <==> 2 * pos + 1 < CalcTreeWidth(n, h - 1)
    ensures Node(n, h - 1, 2 * pos + 1) ==> End(n, h - 1, 2 * pos) == First(h - 1, 2 * pos + 1)
    ensures Node(n, h - 1, 2 * pos + 1) ==> End(n, h - 1, 2 * pos + 1) == End(n, h, pos)
    ensures !Node(n, h - 1, 2 * pos + 1) ==> End(n, h - 1, 2 * pos) == End(n, h, pos) == n
  {
    hide CalcTreeWidth;
    WidthRange(n, h - 1, 2 * pos + 1);
    Halves(pos, Pow2(h - 1));
  }

  /** The hash of a node: the left child stands in for a missing right one. */
  function CalcHash(H: PairHash, txids: seq<Hash>, h: nat, pos: nat): Hash
    requires Node(|txids|, h, pos)
    decreases h
  {
    NodeEnd(|txids|, h, pos);
    if h == 0 then txids[pos]
    else
      Children(|txids|, h, pos);
      var left := CalcHash(H, txids, h - 1, 2 * pos);
      var right := if 2 * pos + 1 < CalcTreeWidth(|txids|, h - 1) then CalcHash(H, txids, h - 1, 2 * pos + 1) else left;
      H(left, right)
  }

  /** The least height, from h on, at which the tree has at most one node. */
  function HeightFrom(n: nat, h: nat): (r: nat)
    ensures CalcTreeWidth(n, r) <= 1
    decreases n - Pow2(h)
  {
    if CalcTreeWidth(n, h) <= 1 then h
    else
      WidthRange(n, h, 1);
      HeightFrom(n, h + 1)
  }

  function Height(n: nat): nat {
    HeightFrom(n, 0)
  }

  /** The root stands above all leaves. */
  lemma RootCovers(n: nat)
    requires n > 0
    ensures Node(n, Height(n), 0) && End(n, Height(n), 0) == n
  {
    WidthRange(n, Height(n), 1);
  }

  // ----- The same root, level by level -----

  /** Hash neighbours pairwise; an odd last hash is paired with itself. */
  function NextLevel(H: PairHash, s: seq<Hash>): (r: seq<Hash>)
    ensures |r| == (|s| + 1) / 2
  {
    seq((|s| + 1) / 2, i requires 0 <= i < (|s| + 1) / 2 => H(s[2 * i], if 2 * i + 1 < |s| then s[2 * i + 1] else s[2 * i]))
  }

  function LevelRoot(H: PairHash, s: seq<Hash>): Hash
    requires |s| > 0
    decreases |s|
  {
    if |s| == 1 then s[0] else LevelRoot(H, NextLevel(H, s))
  }

  function Level(H: PairHash, txids: seq<Hash>, h: nat): seq<Hash> {
    if h == 0 then txids else NextLevel(H, Level(H, txids, h - 1))
  }

  lemma FirstChild(h: nat, pos: nat)
    requires h > 0
    ensures First(h - 1, 2 * pos) == First(h, pos)
  {
    Halves(pos, Pow2(h - 1));
  }

  /** A level holds the hashes of the nodes at its height. */
  lemma {:induction false} LevelNodes(H: PairHash, txids: seq<Hash>, h: nat, pos: nat)
    ensures pos < |Level(H, txids, h)| <==> Node(|txids|, h, pos)
    ensures Node(|txids|, h, pos) ==> Level(H, txids, h)[pos] == CalcHash(H, txids, h, pos)
    decreases h
  {
    hide First, CalcTreeWidth, End, NextLevel;
    if h == 0 {
      LeafNode(|txids|, pos);
    } else {
      var below := Level(H, txids, h - 1);
      FirstChild(h, pos);
      LevelNodes(H, txids, h - 1, 2 * pos);
      if Node(|txids|, h, pos) {
        Children(|txids|, h, pos);
        LevelNodes(H, txids, h - 1, 2 * pos + 1);
        NextLevelAt(H, below, pos);
      }
    }
  }

  lemma LeafNode(n: nat, pos: nat)
    ensures Node(n, 0, pos) <==> pos < n
  {
  }

  lemma NextLevelAt(H: PairHash, s: seq<Hash>, i: nat)
    requires 2 * i < |s|
    ensures NextLevel(H, s)[i] == H(s[2 * i], if 2 * i + 1 < |s| then s[2 * i + 1] else s[2 * i])
  {
  }

  lemma {:induction false} LevelRootFrom(H: PairHash, txids: seq<Hash>, h: nat)
    requires |txids| > 0 && |Level(H, txids, h)| > 0
    ensures Node(|txids|, HeightFrom(|txids|, h), 0)
    ensures LevelRoot(H, Level(H, txids, h)) == CalcHash(H, txids, HeightFrom(|txids|, h), 0)
    decreases |txids| - Pow2(h)
  {
    hide CalcTreeWidth, CalcHash;
    var n := |txids|;
    WidthRange(n, h, 1);
    LevelNodes(H, txids, h, 0);
    LevelNodes(H, txids, h, 1);
    if |Level(H, txids, h)| > 1 {
      LevelRootFrom(H, txids, h + 1);
    }
  }

  /** The recursive root is the root computed level by level. */
  lemma RootByLevels(H: PairHash, txids: seq<Hash>)
    requires |txids| > 0
    ensures Node(|txids|, Height(|txids|), 0)
    ensures CalcHash(H, txids, Height(|txids|), 0) == LevelRoot(H, txids)
  {
    assert Level(H, txids, 0) == txids;
    LevelRootFrom(H, txids, 0);
  }
}
