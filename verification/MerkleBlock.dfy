/**
 The partial Merkle tree of BIP 37 (src/merkleblock.h, src/merkleblock.cpp): the encoder, the
 decoder and the packing of flag bits into bytes. A decoder that returns the real root reports
 only real leaves, whatever it was fed; what the encoder writes, the decoder reads back.
 */
module MerkleBlock {
  import opened ByteBits
  import opened MerkleTree
  import opened Powers

  /** Flag bits and hashes, in depth-first order. */
  datatype Partial = Partial(bits: seq<bool>, hashes: seq<Hash>)

  /** Positions in [lo, hi) that the mask selects, in order. */
  function Matched(mask: seq<bool>, lo: nat, hi: nat): (r: seq<nat>)
    requires lo <= hi <= |mask|
    decreases hi - lo
  {
    if lo == hi then [] else (if mask[lo] then [lo] else []) + Matched(mask, lo + 1, hi)
  }

  function TxidsAt(txids: seq<Hash>, indexes: seq<nat>): (r: seq<Hash>)
    requires forall k :: 0 <= k < |indexes| ==> indexes[k] < |txids|
  {
    seq(|indexes|, k requires 0 <= k < |indexes| => txids[indexes[k]])
  }

  /** The matched positions are exactly those the mask selects, each once and in order. */
  lemma {:induction false} MatchedExactly(mask: seq<bool>, lo: nat, hi: nat)
    requires lo <= hi <= |mask|
    ensures Increasing(Matched(mask, lo, hi), lo, hi)
    ensures forall p :: p in Matched(mask, lo, hi) <==> lo <= p < hi && mask[p]
    decreases hi - lo
  {
    if lo < hi {
      MatchedExactly(mask, lo + 1, hi);
    }
  }

  lemma {:induction false} MatchedSplit(mask: seq<bool>, lo: nat, mid: nat, hi: nat)
    requires lo <= mid <= hi <= |mask|
    ensures Matched(mask, lo, hi) == Matched(mask, lo, mid) + Matched(mask, mid, hi)
    decreases mid - lo
  {
    if lo < mid {
      MatchedSplit(mask, lo + 1, mid, hi);
    }
  }

  ghost predicate Increasing(s: seq<nat>, lo: nat, hi: nat) {
    && (forall k :: 0 <= k < |s| ==> lo <= s[k] < hi)
    && (forall j, k :: 0 <= j < k < |s| ==> s[j] < s[k])
  }

  /** Does the node stand above a matched leaf? */
  predicate ParentOfMatch(mask: seq<bool>, h: nat, pos: nat) {
    exists p :: First(h, pos) <= p < End(|mask|, h, pos) && mask[p]
  }

  /** What TraverseAndBuild appends for a node. */
  function Built(H: PairHash, txids: seq<Hash>, mask: seq<bool>, h: nat, pos: nat): Partial
    requires |mask| == |txids| && Node(|txids|, h, pos)
    decreases h
  {
    var parent := ParentOfMatch(mask, h, pos);
    if h == 0 || !parent then Partial([parent], [CalcHash(H, txids, h, pos)])
    else
      Children(|txids|, h, pos);
      var left := Built(H, txids, mask, h - 1, 2 * pos);
      if 2 * pos + 1 < CalcTreeWidth(|txids|, h - 1) then
        var right := Built(H, txids, mask, h - 1, 2 * pos + 1);
        Partial([true] + left.bits + right.bits, left.hashes + right.hashes)
      else
        Partial([true] + left.bits, left.hashes)
  }

  /** What a decoding traversal returns, consumes and reports. */
  datatype Extraction = Extraction(hash: Hash, bad: bool, bits: nat, hashes: nat, matches: seq<Hash>, indexes: seq<nat>)

  /** What TraverseAndExtract does at a node, from positions b in the bits and s in the hashes. */
  function Extracted(H: PairHash, n: nat, t: Partial, h: nat, pos: nat, b: nat, s: nat): Extraction
    requires Node(n, h, pos)
    decreases h
  {
    if b >= |t.bits| then Extraction(0, true, b, s, [], [])
    else if h == 0 || !t.bits[b] then
      if s >= |t.hashes| then Extraction(0, true, b + 1, s, [], [])
      else if h == 0 && t.bits[b] then Extraction(t.hashes[s], false, b + 1, s + 1, [t.hashes[s]], [pos])
      else Extraction(t.hashes[s], false, b + 1, s + 1, [], [])
    else
      Children(n, h, pos);
      var left := Extracted(H, n, t, h - 1, 2 * pos, b + 1, s);
      if 2 * pos + 1 < CalcTreeWidth(n, h - 1) then
        var right := Extracted(H, n, t, h - 1, 2 * pos + 1, left.bits, left.hashes);
        Joined(H, left, right)
      else
        left.(hash := H(left.hash, left.hash))
  }

  /** Two equal branches are refused: a real tree never has them. */
  function Joined(H: PairHash, left: Extraction, right: Extraction): Extraction {
    Extraction(H(left.hash, right.hash), left.bad || right.bad || left.hash == right.hash,
               right.bits, right.hashes, left.matches + right.matches, left.indexes + right.indexes)
  }

  /** The decoder at a node it does not descend into. */
  lemma ExtractedOuter(H: PairHash, n: nat, t: Partial, h: nat, pos: nat, b: nat, s: nat)
    requires Node(n, h, pos)
    ensures b >= |t.bits| ==> Extracted(H, n, t, h, pos, b, s) == Extraction(0, true, b, s, [], [])
    ensures b < |t.bits| && (h == 0 || !t.bits[b]) ==>
              var matched := h == 0 && t.bits[b];
              Extracted(H, n, t, h, pos, b, s) ==
              if s >= |t.hashes| then Extraction(0, true, b + 1, s, [], [])
              else Extraction(t.hashes[s], false, b + 1, s + 1,
                              if matched then [t.hashes[s]] else [], if matched then [pos] else [])
  {
    hide CalcTreeWidth, First;
  }

  /** One step of the decoder at a node it descends into. */
  lemma ExtractedInner(H: PairHash, n: nat, t: Partial, h: nat, pos: nat, b: nat, s: nat)
    requires Node(n, h, pos) && h > 0 && b < |t.bits| && t.bits[b]
    ensures Node(n, h - 1, 2 * pos)
    ensures 2 * pos + 1 < CalcTreeWidth(n, h - 1) <==> Node(n, h - 1, 2 * pos + 1)
    ensures var left := Extracted(H, n, t, h - 1, 2 * pos, b + 1, s);
            Extracted(H, n, t, h, pos, b, s) ==
            if 2 * pos + 1 < CalcTreeWidth(n, h - 1) then
              Joined(H, left, Extracted(H, n, t, h - 1, 2 * pos + 1, left.bits, left.hashes))
            else left.(hash := H(left.hash, left.hash))
  {
    hide CalcTreeWidth, First;
    Children(n, h, pos);
  }

  lemma BuiltOuter(H: PairHash, txids: seq<Hash>, mask: seq<bool>, h: nat, pos: nat)
    requires |mask| == |txids| && Node(|txids|, h, pos) && (h == 0 || !ParentOfMatch(mask, h, pos))
    ensures Built(H, txids, mask, h, pos) == Partial([ParentOfMatch(mask, h, pos)], [CalcHash(H, txids, h, pos)])
  {
    hide CalcTreeWidth, First, ParentOfMatch, CalcHash;
  }

  /** One step of the encoder at a node it descends into. */
  lemma BuiltInner(H: PairHash, txids: seq<Hash>, mask: seq<bool>, h: nat, pos: nat)
    requires |mask| == |txids| && Node(|txids|, h, pos) && h > 0 && ParentOfMatch(mask, h, pos)
    ensures Node(|txids|, h - 1, 2 * pos)
    ensures 2 * pos + 1 < CalcTreeWidth(|txids|, h - 1) <==> Node(|txids|, h - 1, 2 * pos + 1)
    ensures var p, left := Built(H, txids, mask, h, pos), Built(H, txids, mask, h - 1, 2 * pos);
            if 2 * pos + 1 < CalcTreeWidth(|txids|, h - 1) then
              var right := Built(H, txids, mask, h - 1, 2 * pos + 1);
              p.bits == [true] + left.bits + right.bits && p.hashes == left.hashes + right.hashes
            else p.bits == [true] + left.bits && p.hashes == left.hashes
  {
    hide CalcTreeWidth, First, ParentOfMatch;
    Children(|txids|, h, pos);
  }

  // ----- Soundness -----

  /** Every reported pair is a leaf of the real list, in order. */
  ghost predicate Real(x: Extraction, txids: seq<Hash>, lo: nat, hi: nat) {
    && hi <= |txids|
    && Increasing(x.indexes, lo, hi)
    && |x.matches| == |x.indexes|
    && (forall k :: 0 <= k < |x.matches| ==> x.matches[k] == txids[x.indexes[k]])
  }

  lemma RealJoin(x: Extraction, y: Extraction, z: Extraction, txids: seq<Hash>, lo: nat, mid: nat, hi: nat)
    requires lo <= mid <= hi
    requires Real(x, txids, lo, mid) && Real(y, txids, mid, hi)
    requires z.matches == x.matches + y.matches && z.indexes == x.indexes + y.indexes
    ensures Real(z, txids, lo, hi)
  {
  }

  lemma SoundLeaf(H: PairHash, txids: seq<Hash>, t: Partial, h: nat, pos: nat, b: nat, s: nat)
    requires Node(|txids|, h, pos) && b < |t.bits| && (h == 0 || !t.bits[b])
    requires Extracted(H, |txids|, t, h, pos, b, s).hash == CalcHash(H, txids, h, pos)
    ensures Real(Extracted(H, |txids|, t, h, pos, b, s), txids, First(h, pos), End(|txids|, h, pos))
  {
    hide First, End, CalcTreeWidth;
    NodeEnd(|txids|, h, pos);
  }

  lemma SamePair(H: PairHash, a: Hash, b: Hash, c: Hash, d: Hash)
    requires Injective(H) && H(a, b) == H(c, d)
    ensures a == c && b == d
  {
  }

  /** A traversal that computes the real hash of its node reports only real leaves below it. */
  lemma {:induction false} TraverseSound(H: PairHash, txids: seq<Hash>, t: Partial, h: nat, pos: nat, b: nat, s: nat)
    requires Injective(H) && Node(|txids|, h, pos)
    requires !Extracted(H, |txids|, t, h, pos, b, s).bad
    requires Extracted(H, |txids|, t, h, pos, b, s).hash == CalcHash(H, txids, h, pos)
    ensures Real(Extracted(H, |txids|, t, h, pos, b, s), txids, First(h, pos), End(|txids|, h, pos))
    decreases h
  {
    hide First, CalcTreeWidth, End, Injective, Real, Extracted;
    var n := |txids|;
    var x := Extracted(H, n, t, h, pos, b, s);
    ExtractedOuter(H, n, t, h, pos, b, s);
    if h == 0 || !t.bits[b] {
      SoundLeaf(H, txids, t, h, pos, b, s);
    } else {
      Children(n, h, pos);
      ExtractedInner(H, n, t, h, pos, b, s);
      var left := Extracted(H, n, t, h - 1, 2 * pos, b + 1, s);
      var realLeft := CalcHash(H, txids, h - 1, 2 * pos);
      if 2 * pos + 1 < CalcTreeWidth(n, h - 1) {
        var right := Extracted(H, n, t, h - 1, 2 * pos + 1, left.bits, left.hashes);
        SamePair(H, left.hash, right.hash, realLeft, CalcHash(H, txids, h - 1, 2 * pos + 1));
        TraverseSound(H, txids, t, h - 1, 2 * pos, b + 1, s);
        TraverseSound(H, txids, t, h - 1, 2 * pos + 1, left.bits, left.hashes);
        NodeEnd(n, h - 1, 2 * pos);
        NodeEnd(n, h - 1, 2 * pos + 1);
        RealJoin(left, right, x, txids, First(h, pos), First(h - 1, 2 * pos + 1), End(n, h, pos));
      } else {
        SamePair(H, left.hash, left.hash, realLeft, realLeft);
        TraverseSound(H, txids, t, h - 1, 2 * pos, b + 1, s);
        SameReport(left, x, txids, First(h, pos), End(n, h, pos));
      }
    }
  }

  lemma SameReport(x: Extraction, y: Extraction, txids: seq<Hash>, lo: nat, hi: nat)
    requires Real(x, txids, lo, hi) && y.matches == x.matches && y.indexes == x.indexes
    ensures Real(y, txids, lo, hi)
  {
  }

  // ----- Completeness -----

  /** No node the encoder descends into has two children with equal hashes. */
  predicate SiblingsDiffer(H: PairHash, txids: seq<Hash>, mask: seq<bool>, h: nat, pos: nat)
    requires |mask| == |txids| && Node(|txids|, h, pos)
    decreases h
  {
    if h == 0 || !ParentOfMatch(mask, h, pos) then true
    else
      Children(|txids|, h, pos);
      && SiblingsDiffer(H, txids, mask, h - 1, 2 * pos)
      && (2 * pos + 1 < CalcTreeWidth(|txids|, h - 1) ==>
            && SiblingsDiffer(H, txids, mask, h - 1, 2 * pos + 1)
            && CalcHash(H, txids, h - 1, 2 * pos) != CalcHash(H, txids, h - 1, 2 * pos + 1))
  }

  /** The list t holds the part p from bit b and hash s on. */
  ghost predicate Holds(t: Partial, p: Partial, b: nat, s: nat) {
    && b + |p.bits| <= |t.bits| && s + |p.hashes| <= |t.hashes|
    && t.bits[b..b + |p.bits|] == p.bits
    && t.hashes[s..s + |p.hashes|] == p.hashes
  }

  lemma HoldsTwo(t: Partial, p: Partial, l: Partial, r: Partial, b: nat, s: nat)
    requires Holds(t, p, b, s)
    requires p.bits == [true] + l.bits + r.bits && p.hashes == l.hashes + r.hashes
    ensures t.bits[b]
    ensures Holds(t, l, b + 1, s)
    ensures Holds(t, r, b + 1 + |l.bits|, s + |l.hashes|)
  {
    assert t.bits[b] == p.bits[0];
    assert p.bits[1..1 + |l.bits|] == l.bits && p.bits[1 + |l.bits|..] == r.bits;
    assert p.hashes[..|l.hashes|] == l.hashes && p.hashes[|l.hashes|..] == r.hashes;
  }

  /** The result of decoding what was built for a node. */
  function Expected(H: PairHash, txids: seq<Hash>, mask: seq<bool>, h: nat, pos: nat, b: nat, s: nat): Extraction
    requires |mask| == |txids| && Node(|txids|, h, pos)
  {
    NodeEnd(|txids|, h, pos);
    var p := Built(H, txids, mask, h, pos);
    var indexes := Matched(mask, First(h, pos), End(|txids|, h, pos));
    MatchedExactly(mask, First(h, pos), End(|txids|, h, pos));
    Extraction(CalcHash(H, txids, h, pos), !SiblingsDiffer(H, txids, mask, h, pos),
               b + |p.bits|, s + |p.hashes|, TxidsAt(txids, indexes), indexes)
  }

  lemma {:induction false} NoneMatched(mask: seq<bool>, lo: nat, hi: nat)
    requires lo <= hi <= |mask|
    requires forall p :: lo <= p < hi ==> !mask[p]
    ensures Matched(mask, lo, hi) == []
    decreases hi - lo
  {
    if lo < hi {
      NoneMatched(mask, lo + 1, hi);
    }
  }

  /** A traversal over what was built for a node returns its hash, its matches and where it ends. */
  lemma {:induction false} TraverseComplete(H: PairHash, txids: seq<Hash>, mask: seq<bool>, t: Partial, h: nat,
          pos: nat, b: nat, s: nat)
    requires |mask| == |txids| && Node(|txids|, h, pos)
    requires Holds(t, Built(H, txids, mask, h, pos), b, s)
    ensures Extracted(H, |txids|, t, h, pos, b, s) == Expected(H, txids, mask, h, pos, b, s)
    decreases h
  {
    hide First, CalcTreeWidth, End, Holds, ParentOfMatch;
    if h == 0 || !ParentOfMatch(mask, h, pos) {
      LeafComplete(H, txids, mask, t, h, pos, b, s);
    } else {
      InnerComplete(H, txids, mask, t, h, pos, b, s);
    }
  }

  lemma LeafComplete(H: PairHash, txids: seq<Hash>, mask: seq<bool>, t: Partial, h: nat, pos: nat, b: nat, s: nat)
    requires |mask| == |txids| && Node(|txids|, h, pos)
    requires Holds(t, Built(H, txids, mask, h, pos), b, s)
    requires h == 0 || !ParentOfMatch(mask, h, pos)
    ensures Extracted(H, |txids|, t, h, pos, b, s) == Expected(H, txids, mask, h, pos, b, s)
  {
    hide First, CalcTreeWidth, CalcHash, End, ParentOfMatch, Matched;
    var p := Built(H, txids, mask, h, pos);
    assert t.bits[b] == p.bits[0] && t.hashes[s] == p.hashes[0];
    LeafMatched(mask, h, pos);
    NodeEnd(|txids|, h, pos);
    if h == 0 {
      assert CalcHash(H, txids, h, pos) == txids[pos] by { LeafHash(H, txids, pos); }
    }
  }

  lemma LeafHash(H: PairHash, txids: seq<Hash>, pos: nat)
    requires Node(|txids|, 0, pos)
    ensures pos < |txids| && CalcHash(H, txids, 0, pos) == txids[pos]
  {
    NodeEnd(|txids|, 0, pos);
  }

  lemma LeafMatched(mask: seq<bool>, h: nat, pos: nat)
    requires Node(|mask|, h, pos) && (h == 0 || !ParentOfMatch(mask, h, pos))
    ensures First(h, pos) <= End(|mask|, h, pos) <= |mask|
    ensures Matched(mask, First(h, pos), End(|mask|, h, pos)) == if ParentOfMatch(mask, h, pos) then [pos] else []
  {
    hide First, End, CalcTreeWidth, Matched;
    NodeEnd(|mask|, h, pos);
    if !ParentOfMatch(mask, h, pos) {
      NoneMatched(mask, First(h, pos), End(|mask|, h, pos));
    } else {
      OneMatched(mask, pos);
    }
  }

  lemma OneMatched(mask: seq<bool>, pos: nat)
    requires pos < |mask| && mask[pos]
    ensures Matched(mask, pos, pos + 1) == [pos]
  {
    assert Matched(mask, pos, pos + 1) == [pos] + Matched(mask, pos + 1, pos + 1);
  }

  lemma TxidsAtJoin(txids: seq<Hash>, a: seq<nat>, b: seq<nat>)
    requires forall k :: 0 <= k < |a| ==> a[k] < |txids|
    requires forall k :: 0 <= k < |b| ==> b[k] < |txids|
    ensures forall k :: 0 <= k < |a + b| ==> (a + b)[k] < |txids|
    ensures TxidsAt(txids, a + b) == TxidsAt(txids, a) + TxidsAt(txids, b)
  {
  }

  /** What is expected of a node with two children comes from what is expected of them. */
  lemma ExpectedTwo(H: PairHash, txids: seq<Hash>, mask: seq<bool>, h: nat, pos: nat, b: nat, s: nat)
    requires |mask| == |txids| && Node(|txids|, h, pos)
    requires h > 0 && ParentOfMatch(mask, h, pos) && Node(|txids|, h - 1, 2 * pos) && Node(|txids|, h - 1, 2 * pos + 1)
    ensures var left := Expected(H, txids, mask, h - 1, 2 * pos, b + 1, s);
            Expected(H, txids, mask, h, pos, b, s)
            == Joined(H, left, Expected(H, txids, mask, h - 1, 2 * pos + 1, left.bits, left.hashes))
  {
    hide First, CalcTreeWidth, End, ParentOfMatch, Matched, TxidsAt;
    var n := |txids|;
    Children(n, h, pos);
    NodeEnd(n, h - 1, 2 * pos);
    NodeEnd(n, h - 1, 2 * pos + 1);
    var mid := First(h - 1, 2 * pos + 1);
    MatchedExactly(mask, First(h, pos), mid);
    MatchedExactly(mask, mid, End(n, h, pos));
    MatchedSplit(mask, First(h, pos), mid, End(n, h, pos));
    TxidsAtJoin(txids, Matched(mask, First(h, pos), mid), Matched(mask, mid, End(n, h, pos)));
  }

  lemma ExpectedOne(H: PairHash, txids: seq<Hash>, mask: seq<bool>, h: nat, pos: nat, b: nat, s: nat)
    requires |mask| == |txids| && Node(|txids|, h, pos)
    requires h > 0 && ParentOfMatch(mask, h, pos) && Node(|txids|, h - 1, 2 * pos) && !Node(|txids|, h - 1, 2 * pos + 1)
    ensures var left := Expected(H, txids, mask, h - 1, 2 * pos, b + 1, s);
            Expected(H, txids, mask, h, pos, b, s) == left.(hash := H(left.hash, left.hash))
  {
    hide First, CalcTreeWidth, End, ParentOfMatch, Matched, TxidsAt;
    Children(|txids|, h, pos);
    NodeEnd(|txids|, h - 1, 2 * pos);
  }

  lemma {:induction false} InnerComplete(H: PairHash, txids: seq<Hash>, mask: seq<bool>, t: Partial, h: nat,
          pos: nat, b: nat, s: nat)
    requires |mask| == |txids| && Node(|txids|, h, pos)
    requires Holds(t, Built(H, txids, mask, h, pos), b, s)
    requires h > 0 && ParentOfMatch(mask, h, pos)
    ensures Extracted(H, |txids|, t, h, pos, b, s) == Expected(H, txids, mask, h, pos, b, s)
    decreases h, 0
  {
    hide First, CalcTreeWidth, End, Holds, ParentOfMatch, CalcHash, Expected, Joined, Built, Extracted, Node;
    var n := |txids|;
    BuiltInner(H, txids, mask, h, pos);
    var p, l := Built(H, txids, mask, h, pos), Built(H, txids, mask, h - 1, 2 * pos);
    ghost var left := Expected(H, txids, mask, h - 1, 2 * pos, b + 1, s);
    EndsAt(H, txids, mask, h - 1, 2 * pos, b + 1, s);
    if 2 * pos + 1 < CalcTreeWidth(n, h - 1) {
      var r := Built(H, txids, mask, h - 1, 2 * pos + 1);
      HoldsTwo(t, p, l, r, b, s);
      ExtractedInner(H, n, t, h, pos, b, s);
      TraverseComplete(H, txids, mask, t, h - 1, 2 * pos, b + 1, s);
      TraverseComplete(H, txids, mask, t, h - 1, 2 * pos + 1, left.bits, left.hashes);
      ExpectedTwo(H, txids, mask, h, pos, b, s);
    } else {
      HoldsTwo(t, p, l, Partial([], []), b, s);
      ExtractedInner(H, n, t, h, pos, b, s);
      TraverseComplete(H, txids, mask, t, h - 1, 2 * pos, b + 1, s);
      ExpectedOne(H, txids, mask, h, pos, b, s);
    }
  }

  lemma EndsAt(H: PairHash, txids: seq<Hash>, mask: seq<bool>, h: nat, pos: nat, b: nat, s: nat)
    requires |mask| == |txids| && Node(|txids|, h, pos)
    ensures Expected(H, txids, mask, h, pos, b, s).bits == b + |Built(H, txids, mask, h, pos).bits|
    ensures Expected(H, txids, mask, h, pos, b, s).hashes == s + |Built(H, txids, mask, h, pos).hashes|
  {
  }

  /** A part holds at most one hash per leaf below its node, and at least one bit per hash. */
  lemma {:induction false} BuiltSize(H: PairHash, txids: seq<Hash>, mask: seq<bool>, h: nat, pos: nat)
    requires |mask| == |txids| && Node(|txids|, h, pos)
    ensures var p := Built(H, txids, mask, h, pos);
            1 <= |p.hashes| <= End(|txids|, h, pos) - First(h, pos) && |p.hashes| <= |p.bits|
    decreases h
  {
    hide First, CalcTreeWidth, End, ParentOfMatch, CalcHash;
    var n := |txids|;
    NodeEnd(n, h, pos);
    if h > 0 && ParentOfMatch(mask, h, pos) {
      Children(n, h, pos);
      BuiltSize(H, txids, mask, h - 1, 2 * pos);
      if 2 * pos + 1 < CalcTreeWidth(n, h - 1) {
        BuiltSize(H, txids, mask, h - 1, 2 * pos + 1);
      }
    }
  }

  // ----- The decoder's checks -----

  /** The weight limit of a block over the least weight of a transaction. */
  const MAX_TRANSACTIONS: nat := 6000000 / 240

  /** What ExtractMatches returns and reports; root 0 is a refusal. */
  datatype Report = Report(root: Hash, matches: seq<Hash>, indexes: seq<nat>)

  function Outcome(H: PairHash, n: nat, t: Partial, bad: bool): Report {
    if n == 0 || n > MAX_TRANSACTIONS || |t.hashes| > n || |t.bits| < |t.hashes| then Report(0, [], [])
    else
      RootCovers(n);
      var x := Extracted(H, n, t, Height(n), 0, 0, 0);
      var ok := !bad && !x.bad && (x.bits + 7) / 8 == (|t.bits| + 7) / 8 && x.hashes == |t.hashes|;
      Report(if ok then x.hash else 0, x.matches, x.indexes)
  }

  /** The decoder never reads past the bits or the hashes. */
  lemma {:induction false} UsesBits(H: PairHash, n: nat, t: Partial, h: nat, pos: nat, b: nat, s: nat)
    requires Node(n, h, pos) && b <= |t.bits| && s <= |t.hashes|
    ensures b <= Extracted(H, n, t, h, pos, b, s).bits <= |t.bits|
    ensures s <= Extracted(H, n, t, h, pos, b, s).hashes <= |t.hashes|
    decreases h
  {
    hide Extracted, First, End, CalcTreeWidth, Node;
    ExtractedOuter(H, n, t, h, pos, b, s);
    if b < |t.bits| && h > 0 && t.bits[b] {
      ExtractedInner(H, n, t, h, pos, b, s);
      UsesBits(H, n, t, h - 1, 2 * pos, b + 1, s);
      if 2 * pos + 1 < CalcTreeWidth(n, h - 1) {
        var left := Extracted(H, n, t, h - 1, 2 * pos, b + 1, s);
        UsesBits(H, n, t, h - 1, 2 * pos + 1, left.bits, left.hashes);
      }
    }
  }

  /** An accepted tree uses every hash and leaves fewer than eight bits, all in the last byte. */
  lemma AcceptedUsesAll(H: PairHash, n: nat, t: Partial, bad: bool)
    requires Outcome(H, n, t, bad).root != 0
    ensures 0 < n <= MAX_TRANSACTIONS && |t.hashes| <= n && |t.hashes| <= |t.bits| && !bad
    ensures Node(n, Height(n), 0)
    ensures var x := Extracted(H, n, t, Height(n), 0, 0, 0);
      && !x.bad && x.hash == Outcome(H, n, t, bad).root
      && x.hashes == |t.hashes| && x.bits <= |t.bits| < x.bits + 8
  {
    hide Extracted, First, End, CalcTreeWidth;
    RootCovers(n);
    UsesBits(H, n, t, Height(n), 0, 0, 0);
  }

  function Root(H: PairHash, txids: seq<Hash>): Hash
    requires |txids| > 0
  {
    RootCovers(|txids|);
    CalcHash(H, txids, Height(|txids|), 0)
  }

  function WholeTree(H: PairHash, txids: seq<Hash>, mask: seq<bool>): Partial
    requires |mask| == |txids| > 0
  {
    RootCovers(|txids|);
    Built(H, txids, mask, Height(|txids|), 0)
  }

  lemma WholeRange(n: nat)
    requires n > 0
    ensures Node(n, Height(n), 0) && First(Height(n), 0) == 0 && End(n, Height(n), 0) == n
  {
    RootCovers(n);
  }

  /** Whatever was received: the real root comes only with real leaves, in order. */
  lemma ExtractSound(H: PairHash, txids: seq<Hash>, t: Partial, bad: bool)
    requires Injective(H) && |txids| > 0
    requires Outcome(H, |txids|, t, bad).root == Root(H, txids) != 0
    ensures var r := Outcome(H, |txids|, t, bad);
            && Increasing(r.indexes, 0, |txids|)
            && r.matches == TxidsAt(txids, r.indexes)
  {
    hide First, End, CalcTreeWidth, CalcHash, Extracted, Injective, Height;
    var n := |txids|;
    WholeRange(n);
    TraverseSound(H, txids, t, Height(n), 0, 0, 0);
  }

  /** What was built is accepted, padded or not, exactly when no visited siblings have equal hashes. */
  lemma ExtractComplete(H: PairHash, txids: seq<Hash>, mask: seq<bool>, t: Partial)
    requires 0 < |mask| == |txids| <= MAX_TRANSACTIONS
    requires WholeTree(H, txids, mask).hashes == t.hashes
    requires WholeTree(H, txids, mask).bits <= t.bits
    requires (|WholeTree(H, txids, mask).bits| + 7) / 8 == (|t.bits| + 7) / 8
    ensures Node(|txids|, Height(|txids|), 0)
    ensures Increasing(Matched(mask, 0, |mask|), 0, |txids|)
    ensures var indexes := Matched(mask, 0, |mask|);
            var root := if SiblingsDiffer(H, txids, mask, Height(|txids|), 0) then Root(H, txids) else 0;
            Outcome(H, |txids|, t, false) == Report(root, TxidsAt(txids, indexes), indexes)
  {
    hide First, End, CalcTreeWidth, CalcHash, Extracted, Built, Matched, SiblingsDiffer, Height;
    var n := |txids|;
    var whole := WholeTree(H, txids, mask);
    WholeRange(n);
    BuiltSize(H, txids, mask, Height(n), 0);
    MatchedExactly(mask, 0, n);
    assert Holds(t, whole, 0, 0);
    TraverseComplete(H, txids, mask, t, Height(n), 0, 0, 0);
  }

  // ----- Flag bits in bytes -----

  /** Bit p % 8 of byte p / 8 is flag p; the padding is clear. */
  ghost predicate Packed(bits: seq<bool>, bytes: seq<bv8>) {
    && |bytes| == (|bits| + 7) / 8
    && forall p :: 0 <= p < 8 * |bytes| ==> Bit(bytes[p / 8], p % 8) == (p < |bits| && bits[p])
  }

  ghost predicate Unpacked(bytes: seq<bv8>, bits: seq<bool>) {
    && |bits| == 8 * |bytes|
    && forall p :: 0 <= p < |bits| ==> bits[p] == Bit(bytes[p / 8], p % 8)
  }

  /** Flags below k are in the bytes, and no others. */
  ghost predicate PackedUpTo(bits: seq<bool>, bytes: seq<bv8>, k: nat) {
    && |bytes| == (|bits| + 7) / 8
    && k <= |bits|
    && forall p :: 0 <= p < 8 * |bytes| ==> Bit(bytes[p / 8], p % 8) == (p < k && bits[p])
  }

  lemma PackStep(bits: seq<bool>, bytes: seq<bv8>, k: nat, next: seq<bv8>)
    requires k < |bits| && PackedUpTo(bits, bytes, k)
    requires next == bytes[k / 8 := WithBit(bytes[k / 8], k % 8, bits[k])]
    ensures PackedUpTo(bits, next, k + 1)
  {
    hide Bit, WithBit;
    forall p | 0 <= p < 8 * |bytes| ensures Bit(next[p / 8], p % 8) == (p < k + 1 && bits[p]) {
      SetBit(bytes[p / 8], k % 8, bits[k], p % 8);
      assert p / 8 == k / 8 && p % 8 == k % 8 ==> p == k;
    }
  }

  method PackBits(bits: seq<bool>) returns (bytes: seq<bv8>)
    ensures Packed(bits, bytes)
  {
    hide Bit, WithBit;
    bytes := seq((|bits| + 7) / 8, _ => 0);
    assert PackedUpTo(bits, bytes, 0) by {
      forall p | 0 <= p < 8 * |bytes| ensures !Bit(bytes[p / 8], p % 8) {
        ConstantBits(p % 8);
      }
    }
    for k := 0 to |bits|
      invariant PackedUpTo(bits, bytes, k)
    {
      ghost var before := bytes;
      bytes := bytes[k / 8 := WithBit(bytes[k / 8], k % 8, bits[k])];
      PackStep(bits, before, k, bytes);
    }
  }

  method UnpackBits(bytes: seq<bv8>) returns (bits: seq<bool>)
    ensures Unpacked(bytes, bits)
  {
    bits := [];
    for k := 0 to 8 * |bytes|
      invariant |bits| == k
      invariant forall p :: 0 <= p < k ==> bits[p] == Bit(bytes[p / 8], p % 8)
    {
      bits := bits + [bytes[k / 8] & BitMask(k % 8) != 0];
    }
  }

  /** Build, pack, unpack and extract: the root and exactly the matched leaves come back. */
  lemma WireRoundTrip(H: PairHash, txids: seq<Hash>, mask: seq<bool>, bytes: seq<bv8>, received: seq<bool>)
    requires 0 < |mask| == |txids| <= MAX_TRANSACTIONS
    requires Packed(WholeTree(H, txids, mask).bits, bytes) && Unpacked(bytes, received)
    ensures Node(|txids|, Height(|txids|), 0)
    ensures Increasing(Matched(mask, 0, |mask|), 0, |txids|)
    ensures var indexes := Matched(mask, 0, |mask|);
            var root := if SiblingsDiffer(H, txids, mask, Height(|txids|), 0) then Root(H, txids) else 0;
            Outcome(H, |txids|, Partial(received, WholeTree(H, txids, mask).hashes), false)
              == Report(root, TxidsAt(txids, indexes), indexes)
  {
    hide Bit, WholeTree, Outcome, Root;
    var whole := WholeTree(H, txids, mask);
    forall p | 0 <= p < |whole.bits| ensures received[p] == whole.bits[p] {
      assert received[p] == Bit(bytes[p / 8], p % 8);
    }
    ExtractComplete(H, txids, mask, Partial(received, whole.hashes));
  }

  class PartialMerkleTree {
    const H: PairHash
    var nTransactions: nat
    var vBits: seq<bool>
    var vHash: seq<Hash>
    var fBad: bool

    method TreeHeight() returns (height: nat)
      ensures height == Height(nTransactions)
    {
      height := 0;
      while CalcTreeWidth(nTransactions, height) > 1
        invariant HeightFrom(nTransactions, height) == Height(nTransactions)
        decreases nTransactions - Pow2(height)
      {
        WidthRange(nTransactions, height, 1);
        height := height + 1;
      }
    }

    method IsParentOfMatch(h: nat, pos: nat, mask: seq<bool>) returns (found: bool)
      requires |mask| == nTransactions && Node(nTransactions, h, pos)
      ensures found == ParentOfMatch(mask, h, pos)
    {
      NodeEnd(nTransactions, h, pos);
      found := false;
      var p := First(h, pos);
      while p < First(h, pos + 1) && p < nTransactions
        invariant First(h, pos) <= p <= End(nTransactions, h, pos)
        invariant found <==> exists q :: First(h, pos) <= q < p && mask[q]
      {
        found := found || mask[p];
        p := p + 1;
      }
    }

    method TraverseAndBuild(h: nat, pos: nat, txids: seq<Hash>, mask: seq<bool>)
      requires nTransactions == |txids| == |mask| && Node(|txids|, h, pos)
      modifies this`vBits, this`vHash
      ensures vBits == old(vBits) + Built(H, txids, mask, h, pos).bits
      ensures vHash == old(vHash) + Built(H, txids, mask, h, pos).hashes
      decreases h
    {
      hide ParentOfMatch, First, End, CalcTreeWidth, CalcHash, Built, Node;
      var parent := IsParentOfMatch(h, pos, mask);
      vBits := vBits + [parent];
      if h == 0 || !parent {
        BuiltOuter(H, txids, mask, h, pos);
        vHash := vHash + [CalcHash(H, txids, h, pos)];
      } else {
        BuiltInner(H, txids, mask, h, pos);
        TraverseAndBuild(h - 1, 2 * pos, txids, mask);
        if 2 * pos + 1 < CalcTreeWidth(nTransactions, h - 1) {
          TraverseAndBuild(h - 1, 2 * pos + 1, txids, mask);
        }
      }
    }

    method TraverseAndExtract(h: nat, pos: nat, bitsIn: nat, hashIn: nat, matchIn: seq<Hash>, indexIn: seq<nat>)
      returns (hash: Hash, bitsUsed: nat, hashUsed: nat, vMatch: seq<Hash>, vnIndex: seq<nat>)
      requires Node(nTransactions, h, pos)
      modifies this`fBad
      ensures var x := Extracted(H, nTransactions, Partial(vBits, vHash), h, pos, bitsIn, hashIn);
              && fBad == (old(fBad) || x.bad) && hash == x.hash && bitsUsed == x.bits && hashUsed == x.hashes
              && vMatch == matchIn + x.matches && vnIndex == indexIn + x.indexes
      decreases h
    {
      hide First, CalcTreeWidth, Extracted, Node;
      ghost var t := Partial(vBits, vHash);
      ExtractedOuter(H, nTransactions, t, h, pos, bitsIn, hashIn);
      hash, bitsUsed, hashUsed, vMatch, vnIndex := 0, bitsIn, hashIn, matchIn, indexIn;
      if bitsUsed >= |vBits| {
        fBad := true;
        return;
      }
      var parent := vBits[bitsUsed];
      bitsUsed := bitsUsed + 1;
      if h == 0 || !parent {
        if hashUsed >= |vHash| {
          fBad := true;
          return;
        }
        hash := vHash[hashUsed];
        hashUsed := hashUsed + 1;
        if h == 0 && parent {
          vMatch, vnIndex := vMatch + [hash], vnIndex + [pos];
        }
      } else {
        ExtractedInner(H, nTransactions, t, h, pos, bitsIn, hashIn);
        var left, right;
        left, bitsUsed, hashUsed, vMatch, vnIndex := TraverseAndExtract(h - 1, 2 * pos, bitsUsed, hashUsed, vMatch, vnIndex);
        if 2 * pos + 1 < CalcTreeWidth(nTransactions, h - 1) {
          right, bitsUsed, hashUsed, vMatch, vnIndex :=
            TraverseAndExtract(h - 1, 2 * pos + 1, bitsUsed, hashUsed, vMatch, vnIndex);
          if right == left {
            fBad := true;
          }
        } else {
          right := left;
        }
        hash := H(left, right);
      }
    }

    constructor (H: PairHash, txids: seq<Hash>, mask: seq<bool>)
      requires |mask| == |txids| > 0
      ensures this.H == H && nTransactions == |txids| && !fBad
      ensures Partial(vBits, vHash) == WholeTree(H, txids, mask)
    {
      hide Built;
      this.H, nTransactions, vBits, vHash, fBad := H, |txids|, [], [], false;
      new;
      var height := TreeHeight();
      RootCovers(|txids|);
      TraverseAndBuild(height, 0, txids, mask);
    }

    /** Writing: the count, the hashes and the packed flags. */
    method Serialize() returns (n: nat, hashes: seq<Hash>, bytes: seq<bv8>)
      ensures n == nTransactions && hashes == vHash && Packed(vBits, bytes)
    {
      n, hashes := nTransactions, vHash;
      bytes := PackBits(vBits);
    }

    /** Reading clears the failure flag. */
    constructor Deserialize(H: PairHash, n: nat, hashes: seq<Hash>, bytes: seq<bv8>)
      ensures this.H == H && nTransactions == n && vHash == hashes && Unpacked(bytes, vBits) && !fBad
    {
      var bits := UnpackBits(bytes);
      this.H, nTransactions, vHash, vBits, fBad := H, n, hashes, bits, false;
    }

    /** The list of matches is replaced; the list of positions is only added to. */
    method ExtractMatches(indexIn: seq<nat>) returns (root: Hash, vMatch: seq<Hash>, vnIndex: seq<nat>)
      modifies this`fBad
      ensures var r := Outcome(H, nTransactions, Partial(vBits, vHash), old(fBad));
              root == r.root && vMatch == r.matches && vnIndex == indexIn + r.indexes
    {
      hide Extracted, CalcTreeWidth, First, End, Height;
      root, vMatch, vnIndex := 0, [], indexIn;
      if nTransactions == 0 || nTransactions > MAX_TRANSACTIONS {
        return;
      }
      if |vHash| > nTransactions || |vBits| < |vHash| {
        return;
      }
      var height := TreeHeight();
      RootCovers(nTransactions);
      var hash, bitsUsed, hashUsed;
      hash, bitsUsed, hashUsed, vMatch, vnIndex := TraverseAndExtract(height, 0, 0, 0, vMatch, vnIndex);
      if fBad || (bitsUsed + 7) / 8 != (|vBits| + 7) / 8 || hashUsed != |vHash| {
        return;
      }
      root := hash;
    }
  }
}
