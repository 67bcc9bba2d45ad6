/**
 The block index tree with its skip pointers, and the active chain (src/chain.h, src/chain.cpp).
 A block's parent and height never change once it is attached; its skip pointer is set later.
 */
module BlockChain {
  import opened Powers

  /** Bitwise and. */
  function BitAnd(x: nat, y: nat): nat {
    if x == 0 || y == 0 then 0 else (if x % 2 == 1 && y % 2 == 1 then 1 else 0) + 2 * BitAnd(x / 2, y / 2)
  }

  lemma {:induction false} BitAndBelow(x: nat, y: nat)
    ensures BitAnd(x, y) <= y
  {
    if x != 0 && y != 0 {
      BitAndBelow(x / 2, y / 2);
    }
  }

  /** Clears the lowest set bit; zero has none. */
  function InvertLowestOne(n: nat): nat {
    if n == 0 then 0 else BitAnd(n, n - 1)
  }

  lemma {:induction false} BitAndSelf(x: nat)
    ensures BitAnd(x, x) == x
  {
    if x > 0 {
      BitAndSelf(x / 2);
    }
  }

  lemma InvertDouble(m: nat)
    requires m >= 1
    ensures InvertLowestOne(2 * m) == 2 * InvertLowestOne(m)
  {
    assert BitAnd(2 * m, 2 * m - 1) == 2 * BitAnd(m, m - 1);
  }

  /** The number 2^k (2j + 1) becomes 2^k 2j. */
  lemma {:induction false} LowestOneCleared(j: nat, k: nat)
    ensures InvertLowestOne(Pow2(k) * (2 * j + 1)) == Pow2(k) * (2 * j)
  {
    if k == 0 {
      BitAndSelf(j);
      assert BitAnd(2 * j + 1, 2 * j) == 2 * BitAnd(j, j);
    } else {
      hide InvertLowestOne;
      LowestOneCleared(j, k - 1);
      var p, x := Pow2(k - 1), 2 * j + 1;
      TimesAtLeast(p, x);
      InvertDouble(p * x);
      Reassociate(p, x);
      Reassociate(p, 2 * j);
    }
  }

  lemma Reassociate(p: nat, x: nat)
    ensures (2 * p) * x == 2 * (p * x)
  {
  }

  function GetSkipHeight(height: nat): (r: nat)
    ensures height > 0 ==> r < height
  {
    if height < 2 then 0
    else
      BitAndBelow(height, height - 1);
      BitAndBelow(height - 1, height - 2);
      var once := InvertLowestOne(height - 1);
      if once > 0 then BitAndBelow(once, once - 1); Jump(height) else Jump(height)
  }

  function Jump(height: nat): nat {
    if height % 2 == 1 then InvertLowestOne(InvertLowestOne(height - 1)) + 1 else InvertLowestOne(height)
  }

  class BlockIndex {
    const pprev: BlockIndex?
    const nHeight: nat
    var pskip: BlockIndex?

    /** A new block on top of another, or a first block. */
    constructor (pprev: BlockIndex?)
      requires pprev == null || Linked(pprev)
      ensures this.pprev == pprev && pskip == null && Linked(this)
    {
      this.pprev := pprev;
      nHeight := if pprev == null then 0 else pprev.nHeight + 1;
      pskip := null;
    }

    /** The ancestor at a height, by skip pointers where they do not overshoot. */
    method GetAncestor(ghost tree: set<BlockIndex>, height: int) returns (r: BlockIndex?)
      requires TreeOk(tree) && this in tree
      ensures r == if 0 <= height <= nHeight then Ancestor(this, height) else null
    {
      if height > nHeight || height < 0 {
        return null;
      }
      var walk: BlockIndex := this;
      var heightWalk := nHeight;
      while heightWalk > height
        invariant height <= heightWalk == walk.nHeight <= nHeight
        invariant walk in tree && Ancestor(this, height) == Ancestor(walk, height)
        decreases heightWalk
      {
        var skip := GetSkipHeight(heightWalk);
        var skipPrev := GetSkipHeight(heightWalk - 1);
        if walk.pskip != null && (skip == height || (skip > height && !(skipPrev < skip - 2 && skipPrev >= height))) {
          AncestorVia(walk, skip, height);
          AncestorInTree(tree, walk, skip);
          walk := walk.pskip;
          heightWalk := skip;
        } else {
          walk := walk.pprev;
          heightWalk := heightWalk - 1;
        }
      }
      r := walk;
    }

    method BuildSkip(ghost tree: set<BlockIndex>)
      requires TreeOk(tree) && Linked(this) && (pprev != null ==> pprev in tree)
      modifies this`pskip
      ensures pskip == if pprev == null then old(pskip) else Ancestor(this, GetSkipHeight(nHeight))
    {
      if pprev != null {
        pskip := pprev.GetAncestor(tree, GetSkipHeight(nHeight));
      }
    }
  }

  // ----- Walking parents -----

  /** Heights count the steps down to a first block. */
  predicate Linked(b: BlockIndex)
    decreases b.nHeight
  {
    if b.pprev == null then b.nHeight == 0 else b.nHeight == b.pprev.nHeight + 1 && Linked(b.pprev)
  }

  /** The ancestor at a height, by walking parents one by one. */
  function Ancestor(b: BlockIndex, h: nat): (r: BlockIndex)
    requires Linked(b) && h <= b.nHeight
    ensures r.nHeight == h && Linked(r)
    decreases b.nHeight
  {
    if h == b.nHeight then b else Ancestor(b.pprev, h)
  }

  lemma {:induction false} AncestorVia(b: BlockIndex, mid: nat, h: nat)
    requires Linked(b) && h <= mid <= b.nHeight
    ensures Ancestor(Ancestor(b, mid), h) == Ancestor(b, h)
    decreases b.nHeight
  {
    if mid < b.nHeight {
      AncestorVia(b.pprev, mid, h);
    }
  }

  /** Every block of the tree is linked and so is its parent, and skip pointers lead to ancestors. */
  ghost predicate TreeOk(tree: set<BlockIndex>)
    reads tree
  {
    forall b :: b in tree ==>
      && Linked(b)
      && (b.pprev != null ==> b.pprev in tree)
      && (b.pskip != null ==> b.pskip == Ancestor(b, GetSkipHeight(b.nHeight)))
  }

  lemma {:induction false} AncestorInTree(tree: set<BlockIndex>, b: BlockIndex, h: nat)
    requires TreeOk(tree) && b in tree && h <= b.nHeight
    ensures Ancestor(b, h) in tree
    decreases b.nHeight
  {
    if h < b.nHeight {
      AncestorInTree(tree, b.pprev, h);
    }
  }

  /** The blocks known to the node. */
  class BlockTree {
    var blocks: set<BlockIndex>

    constructor ()
      ensures TreeOk(blocks) && blocks == {}
    {
      blocks := {};
    }

    /** Attach a block to a known parent, or start a tree, and set its skip pointer. */
    method Attach(pprev: BlockIndex?) returns (b: BlockIndex)
      requires TreeOk(blocks) && (pprev != null ==> pprev in blocks)
      modifies this
      ensures TreeOk(blocks) && fresh(b) && blocks == old(blocks) + {b}
      ensures b.pprev == pprev && b.nHeight == if pprev == null then 0 else pprev.nHeight + 1
    {
      b := new BlockIndex(pprev);
      b.BuildSkip(blocks);
      blocks := blocks + {b};
    }
  }

  // ----- Common ancestors -----

  ghost predicate IsAncestor(a: BlockIndex, b: BlockIndex)
    requires Linked(b)
  {
    a.nHeight <= b.nHeight && Ancestor(b, a.nHeight) == a
  }

  /** r is the highest block that is an ancestor of, or equal to, both; null when there is none. */
  ghost predicate HighestCommon(a: BlockIndex, b: BlockIndex, r: BlockIndex?)
    requires Linked(a) && Linked(b)
  {
    && (r != null ==> IsAncestor(r, a) && IsAncestor(r, b))
    && (forall h: nat :: h <= a.nHeight && h <= b.nHeight && Ancestor(a, h) == Ancestor(b, h) ==> r != null && h <= r.nHeight)
  }

  /** Blocks of different heights: the higher one's ancestor at the lower height will do. */
  lemma HighestFromLower(a: BlockIndex, b: BlockIndex, c: BlockIndex, r: BlockIndex?)
    requires Linked(a) && Linked(b) && Linked(c) && IsAncestor(c, a) && c.nHeight == b.nHeight
    requires HighestCommon(c, b, r)
    ensures HighestCommon(a, b, r)
  {
    forall h: nat | h <= b.nHeight ensures Ancestor(a, h) == Ancestor(c, h) {
      AncestorVia(a, c.nHeight, h);
    }
  }

  lemma CommonSymmetric(a: BlockIndex, b: BlockIndex, r: BlockIndex?)
    requires Linked(a) && Linked(b) && HighestCommon(a, b, r)
    ensures HighestCommon(b, a, r)
  {
  }

  /** The walk of two blocks of one height, parent by parent, until they meet or both run out. */
  method MeetDown(a: BlockIndex, b: BlockIndex) returns (r: BlockIndex?)
    requires Linked(a) && Linked(b) && a.nHeight == b.nHeight
    ensures HighestCommon(a, b, r)
  {
    hide Ancestor, Linked;
    var pa: BlockIndex?, pb: BlockIndex? := a, b;
    ghost var h: int := a.nHeight;
    AncestorSelf(a);
    AncestorSelf(b);
    while pa != pb && pa != null && pb != null
      invariant -1 <= h <= a.nHeight
      invariant h < 0 ==> pa == null && pb == null
      invariant h >= 0 ==> pa == Ancestor(a, h) && pb == Ancestor(b, h)
      invariant forall k: nat :: h < k <= a.nHeight ==> Ancestor(a, k) != Ancestor(b, k)
      decreases h
    {
      ParentOf(a, h);
      ParentOf(b, h);
      pa, pb := pa.pprev, pb.pprev;
      h := h - 1;
    }
    assert pa == pb;
    return pa;
  }

  method LastCommonAncestor(ghost tree: set<BlockIndex>, pa: BlockIndex, pb: BlockIndex) returns (r: BlockIndex?)
    requires TreeOk(tree) && pa in tree && pb in tree
    ensures HighestCommon(pa, pb, r)
  {
    hide Ancestor, HighestCommon;
    AncestorSelf(pa);
    AncestorSelf(pb);
    if pa.nHeight > pb.nHeight {
      var a := pa.GetAncestor(tree, pb.nHeight);
      r := MeetDown(a, pb);
      HighestFromLower(pa, pb, a, r);
    } else if pb.nHeight > pa.nHeight {
      var b := pb.GetAncestor(tree, pa.nHeight);
      r := MeetDown(pa, b);
      CommonSymmetric(pa, b, r);
      HighestFromLower(pb, pa, b, r);
      CommonSymmetric(pb, pa, r);
    } else {
      r := MeetDown(pa, pb);
    }
  }

  lemma AncestorSelf(b: BlockIndex)
    requires Linked(b)
    ensures Ancestor(b, b.nHeight) == b
  {
  }

  lemma ParentOf(b: BlockIndex, h: nat)
    requires Linked(b) && h <= b.nHeight
    ensures if h == 0 then Ancestor(b, h).pprev == null else Ancestor(b, h).pprev == Ancestor(b, h - 1)
  {
    if h > 0 {
      AncestorVia(b, h, h - 1);
    }
  }

  // ----- The active chain -----

  /** Slot i of a chain is the tip's ancestor at height i. */
  ghost predicate PathOf(v: seq<BlockIndex?>, tip: BlockIndex) {
    && Linked(tip)
    && |v| == tip.nHeight + 1
    && forall i :: 0 <= i < |v| ==> v[i] == Ancestor(tip, i)
  }

  class Chain {
    var vChain: seq<BlockIndex?>

    ghost predicate Valid()
      reads this
    {
      vChain == [] || exists tip :: tip == vChain[|vChain| - 1] && PathOf(vChain, tip)
    }

    constructor ()
      ensures Valid() && vChain == []
    {
      vChain := [];
    }

    /** The block at a height, or null outside the chain. */
    function At(h: int): BlockIndex?
      reads this
    {
      if h < 0 || h >= |vChain| then null else vChain[h]
    }

    predicate Contains(b: BlockIndex)
      reads this
    {
      At(b.nHeight) == b
    }

    function Tip(): BlockIndex?
      reads this
    {
      At(|vChain| - 1)
    }

    /** A block is in the chain exactly when it is the tip or an ancestor of it. */
    lemma ContainsMeans(b: BlockIndex)
      requires Valid()
      ensures Contains(b) <==> vChain != [] && Linked(Tip()) && IsAncestor(b, Tip())
    {
      hide Ancestor, Linked;
    }

    /** The successor of a block in the chain. */
    method Next(b: BlockIndex) returns (r: BlockIndex?)
      requires Valid()
      ensures r != null <==> Contains(b) && b != Tip()
      ensures r != null ==> Contains(r) && r.pprev == b
    {
      r := if Contains(b) then At(b.nHeight + 1) else null;
      if Contains(b) {
        var tip: BlockIndex := Tip();
        if b.nHeight < tip.nHeight {
          ParentOf(tip, b.nHeight + 1);
        } else {
          AncestorSelf(tip);
        }
      }
    }

    /** Setting the tip rewrites slots down to the first that is already right. */
    method SetTip(pindex: BlockIndex?)
      requires Valid() && (pindex != null ==> Linked(pindex))
      modifies this
      ensures Valid()
      ensures pindex == null ==> vChain == []
      ensures pindex != null ==> PathOf(vChain, pindex)
    {
      hide Ancestor, Linked;
      if pindex == null {
        vChain := [];
        return;
      }
      var tip: BlockIndex := pindex;
      ghost var before := vChain;
      var n := tip.nHeight + 1;
      vChain := if n <= |vChain| then vChain[..n] else vChain + seq(n - |vChain|, _ => null);
      var p: BlockIndex? := tip;
      ghost var h: int := tip.nHeight;
      AncestorSelf(tip);
      while p != null && vChain[p.nHeight] != p
        invariant -1 <= h <= tip.nHeight && |vChain| == n
        invariant if h < 0 then p == null else p == Ancestor(tip, h)
        invariant forall i :: h < i < n ==> vChain[i] == Ancestor(tip, i)
        invariant forall i :: 0 <= i <= h ==> vChain[i] == if i < |before| then before[i] else null
        decreases h
      {
        vChain := vChain[p.nHeight := p];
        ParentOf(tip, h);
        p := p.pprev;
        h := h - 1;
      }
      if p != null {
        SharedBelow(before, tip, h);
      }
      assert PathOf(vChain, tip) && vChain[n - 1] == tip;
    }

    /** The last block that a block's own chain shares with this one. */
    method FindFork(ghost tree: set<BlockIndex>, pindex: BlockIndex?) returns (r: BlockIndex?)
      requires Valid() && TreeOk(tree) && (pindex != null ==> pindex in tree)
      ensures pindex == null || vChain == [] ==> r == null
      ensures pindex != null && vChain != [] ==> Linked(Tip()) && HighestCommon(pindex, Tip(), r)
    {
      hide Ancestor, Linked;
      if pindex == null {
        return null;
      }
      var p: BlockIndex? := pindex;
      if pindex.nHeight > |vChain| - 1 {
        p := pindex.GetAncestor(tree, |vChain| - 1);
      }
      ghost var top := if pindex.nHeight > |vChain| - 1 then |vChain| - 1 else pindex.nHeight;
      ghost var h: int := top;
      InTreeLinked(tree, pindex);
      AncestorSelf(pindex);
      while p != null && !Contains(p)
        invariant -1 <= h <= top
        invariant if h < 0 then p == null else p == Ancestor(pindex, h)
        invariant forall k: nat :: h < k <= top ==> Ancestor(pindex, k) != vChain[k]
        decreases h
      {
        ParentOf(pindex, h);
        p := p.pprev;
        h := h - 1;
      }
      return p;
    }
  }

  lemma InTreeLinked(tree: set<BlockIndex>, b: BlockIndex)
    requires TreeOk(tree) && b in tree
    ensures Linked(b)
  {
  }

  /** A slot of the old chain that holds an ancestor of the new tip: below it both agree. */
  lemma SharedBelow(before: seq<BlockIndex?>, tip: BlockIndex, h: nat)
    requires Linked(tip) && h <= tip.nHeight && h < |before| && before[h] == Ancestor(tip, h)
    requires exists last :: last == before[|before| - 1] && PathOf(before, last)
    ensures forall i :: 0 <= i <= h ==> before[i] == Ancestor(tip, i)
  {
    hide Ancestor, Linked;
    var last: BlockIndex :| last == before[|before| - 1] && PathOf(before, last);
    forall i | 0 <= i <= h ensures before[i] == Ancestor(tip, i) {
      AncestorVia(last, h, i);
      AncestorVia(tip, h, i);
    }
  }
}
