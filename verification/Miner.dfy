/**
 Block assembly (src/miner.cpp): greedy selection of ancestor packages by fee rate, with a side table
 of totals adjusted for the ancestors that are already in the block.
 */
module Miner {
  import opened Mempool
  import opened PackageTable
  import opened Sets

  const COINBASE_WEIGHT := 4000
  const COINBASE_SIGOPS := 400
  const MAX_BLOCK_WEIGHT := 6000000
  const MAX_BLOCK_SIGOPS := 80000
  const MAX_CONSECUTIVE_FAILURES := 1000

  function Members(txs: seq<Tx>): set<Tx> {
    set t | t in txs
  }

  /** The package fits when its cached totals do. */
  lemma {:induction false} PackageWeight(pool: Pool, t: Tx, e: ModEntry, included: set<Tx>)
    requires pool.Valid() && t in pool.entries && t in pool.ancestors && Covers(pool, t, e, included)
    ensures pool.Sum(Weight, Remaining(pool, t, included)) <= 4 * e.size
    ensures pool.Sum(SigOps, Remaining(pool, t, included)) <= e.sigOps
    ensures 0 <= e.size && 0 <= e.sigOps
  {
    pool.WeightBound(Remaining(pool, t, included));
    pool.SumNonNegative(Size, Remaining(pool, t, included));
    pool.SumNonNegative(SigOps, Remaining(pool, t, included));
  }

  /** Every transaction comes after all its ancestors. */
  ghost predicate Ordered(pool: Pool, vtx: seq<Tx>) {
    forall i :: 0 <= i < |vtx| ==> vtx[i] in pool.ancestors && pool.ancestors[vtx[i]] <= Members(vtx[..i])
  }

  lemma {:induction false} OrderedClosed(pool: Pool, vtx: seq<Tx>)
    requires Ordered(pool, vtx)
    ensures pool.Closed(Members(vtx))
  {
    forall t | t in Members(vtx) && t in pool.ancestors
      ensures pool.ancestors[t] <= Members(vtx)
    {
      var i :| 0 <= i < |vtx| && vtx[i] == t;
      assert Members(vtx[..i]) <= Members(vtx);
    }
  }

  /** Distinct transactions of the pool, each after all its ancestors. */
  ghost predicate ListOk(pool: Pool, vtx: seq<Tx>) {
    && Members(vtx) <= pool.entries.Keys
    && (forall i, j :: 0 <= i < j < |vtx| ==> vtx[i] != vtx[j])
    && Ordered(pool, vtx)
  }

  lemma {:induction false} ListGrows(pool: Pool, vtx: seq<Tx>, t: Tx)
    requires ListOk(pool, vtx) && t in pool.entries && t in pool.ancestors && t !in Members(vtx)
    requires pool.ancestors[t] <= Members(vtx)
    ensures ListOk(pool, vtx + [t]) && Members(vtx + [t]) == Members(vtx) + {t}
  {
    var vtx' := vtx + [t];
    forall i | 0 <= i < |vtx'|
      ensures vtx'[i] in pool.ancestors && pool.ancestors[vtx'[i]] <= Members(vtx'[..i])
    {
      assert vtx'[..i] == vtx[..i];
      assert vtx[..|vtx|] == vtx;
    }
    assert forall i :: 0 <= i < |vtx| ==> vtx[i] in Members(vtx);
  }

  /** The per-transaction lists of a block template. */
  ghost predicate TemplateOk(pool: Pool, vtx: seq<Tx>, fees: seq<int>, sigOps: seq<int>) {
    && |fees| == |sigOps| == |vtx|
    && (forall i :: 0 <= i < |vtx| ==> fees[i] == pool.Get(Fee, vtx[i]) && sigOps[i] == pool.Get(SigOps, vtx[i]))
  }

  // ---- ordering a package ----

  function CountOf(pool: Pool, t: Tx): int {
    if t in pool.entries then pool.entries[t].countWithAncestors else 0
  }

  ghost predicate Sorted(pool: Pool, txs: seq<Tx>) {
    forall i, j :: 0 <= i < j < |txs| ==> txs[i] != txs[j] && CountOf(pool, txs[i]) <= CountOf(pool, txs[j])
  }

  lemma {:induction false} FewestAncestors(pool: Pool, txs: set<Tx>) returns (t: Tx)
    requires txs != {}
    ensures t in txs && forall u :: u in txs ==> CountOf(pool, t) <= CountOf(pool, u)
    decreases txs
  {
    var x :| x in txs;
    t := x;
    if txs - {x} != {} {
      var u := FewestAncestors(pool, txs - {x});
      if CountOf(pool, u) < CountOf(pool, x) {
        t := u;
      }
    }
    assert forall u :: u in txs ==> u == x || u in txs - {x};
  }

  /** Sort a package by ancestor count; ties fall either way. */
  method SortForBlock(pool: Pool, package: set<Tx>) returns (sorted: seq<Tx>)
    ensures Members(sorted) == package && Sorted(pool, sorted)
  {
    sorted := [];
    var rest := package;
    while rest != {}
      invariant rest <= package && Members(sorted) == package - rest
      invariant Sorted(pool, sorted)
      invariant forall i, u :: 0 <= i < |sorted| && u in rest ==> CountOf(pool, sorted[i]) <= CountOf(pool, u)
      decreases rest
    {
      ghost var least := FewestAncestors(pool, rest);
      var t :| t in rest && forall u :: u in rest ==> CountOf(pool, t) <= CountOf(pool, u);
      assert forall i :: 0 <= i < |sorted| ==> sorted[i] in Members(sorted);
      assert Members(sorted + [t]) == Members(sorted) + {t};
      OneFewer(package, rest, t);
      sorted := sorted + [t];
      rest := rest - {t};
    }
  }

  /** In a sorted package every ancestor is in the block already or comes earlier. */
  lemma {:induction false} AncestorsEarlier(pool: Pool, included: set<Tx>, package: set<Tx>, sorted: seq<Tx>, i: int)
    requires pool.Valid() && pool.Closed(included + package) && package <= pool.entries.Keys
    requires Members(sorted) == package && Sorted(pool, sorted) && 0 <= i < |sorted|
    ensures sorted[i] in pool.ancestors && pool.ancestors[sorted[i]] <= included + Members(sorted[..i])
  {
    hide Pool.Closed, Pool.Valid;
    var t := sorted[i];
    assert t in Members(sorted);
    AncestorKeys(pool, t);
    pool.ClosedAt(included + package, t);
    forall a | a in pool.ancestors[t] && a !in included
      ensures a in Members(sorted[..i])
    {
      pool.FewerAncestors(t, a);
      assert a in package && a in sorted;
      var j :| 0 <= j < |sorted| && sorted[j] == a;
      assert sorted[..i][j] == a;
    }
  }

  // ---- the course of a selection ----

  /** A block being filled: the rules, the totals so far and the transactions in it. */
  datatype Block = Block(
    pool: Pool,
    minFee: int -> int,
    acceptable: Tx -> bool,
    maxWeight: int,
    weight: int,
    sigOps: int,
    txs: set<Tx>)
  {
    predicate Fits(e: ModEntry) {
      weight + 4 * e.size < maxWeight && sigOps + e.sigOps < MAX_BLOCK_SIGOPS
    }

    predicate NearlyFull() {
      weight > maxWeight - 4000
    }

    /** The block once a transaction and its missing ancestors are in it. */
    ghost function With(t: Tx): Block
      requires t in pool.ancestors
    {
      var package := Remaining(pool, t, txs);
      this.(weight := weight + pool.Sum(Weight, package), sigOps := sigOps + pool.Sum(SigOps, package),
            txs := txs + package)
    }
  }

  /** With its ancestors it would not fit into the block as it is, or one of them may not be
      included at all. */
  ghost predicate LeftOut(b: Block, t: Tx) {
    && t in b.pool.entries && t in b.pool.ancestors
    && (|| b.weight + 4 * FullEntry(b.pool, t).size >= b.maxWeight
        || b.sigOps + FullEntry(b.pool, t).sigOps >= MAX_BLOCK_SIGOPS
        || exists a :: a in b.pool.ancestors[t] + {t} && !b.acceptable(a))
  }

  /** Every entry passed so far is in the block, in the side table, or left out for a reason. */
  ghost predicate Accounted(b: Block, order: seq<Tx>, mi: nat, table: set<Tx>, failed: set<Tx>) {
    && mi <= |order|
    && (forall k :: 0 <= k < mi ==> order[k] in b.txs || order[k] in table || LeftOut(b, order[k]))
    && (forall t :: t in failed ==> LeftOut(b, t))
  }

  /** The first has the higher fee rate, or the same and the smaller hash. */
  predicate Better(a: ModEntry, t: Tx, b: ModEntry, u: Tx) {
    var f1, f2 := a.modFees * b.size, b.modFees * a.size;
    if f1 == f2 then t < u else f1 > f2
  }

  /** Every size is positive, and the order is that of the fee rates of whole packages. */
  ghost predicate Scored(pool: Pool, order: seq<Tx>) {
    && (forall t :: t in pool.entries ==> pool.entries[t].size > 0)
    && (forall i :: 0 <= i < |order| ==> order[i] in pool.entries)
    && (forall i, j :: 0 <= i < j < |order| ==>
          !Better(FullEntry(pool, order[j]), order[j], FullEntry(pool, order[i]), order[i]))
  }

  /** What would be added for `u` now is no better a choice than `t` with totals `e`. */
  ghost predicate NoBetter(b: Block, u: Tx, t: Tx, e: ModEntry) {
    && u in b.pool.entries && u in b.pool.ancestors
    && exists f :: Tracked(b.pool, u, f, b.txs, true) && !Better(f, u, e, t)
  }

  /** Nothing that could still be included is a better choice. */
  ghost predicate Best(b: Block, order: seq<Tx>, t: Tx, e: ModEntry) {
    forall u :: u in order ==> u in b.txs || LeftOut(b, u) || NoBetter(b, u, t, e)
  }

  datatype Event = Selected | TooBig | NotAllowed | FeeTooLow

  /** What becomes of a candidate: its fee rate is too low, it does not fit, a part of it may not
      be included, or it is selected. */
  ghost function Verdict(b: Block, t: Tx, e: ModEntry): Event
    requires t in b.pool.ancestors
  {
    if e.modFees < b.minFee(e.size) then FeeTooLow
    else if !b.Fits(e) then TooBig
    else if exists a :: a in Remaining(b.pool, t, b.txs) && !b.acceptable(a) then NotAllowed
    else Selected
  }

  /** A transaction to look at, with its totals: nothing else is a better choice. */
  ghost predicate Candidate(b: Block, order: seq<Tx>, t: Tx, e: ModEntry, failed: set<Tx>) {
    && t in b.pool.entries && t in b.pool.ancestors && t !in b.txs
    && Tracked(b.pool, t, e, b.txs, t !in failed)
    && (Scored(b.pool, order) ==> Best(b, order, t, e))
  }

  /** One candidate, looked at with these totals when the block was like this. */
  datatype Step = Step(block: Block, t: Tx, e: ModEntry, event: Event) {
    ghost predicate Ok(order: seq<Tx>, failed: set<Tx>) {
      Candidate(block, order, t, e, failed) && event == Verdict(block, t, e)
    }

    ghost function After(): Block {
      if event == Selected && t in block.pool.ancestors then block.With(t) else block
    }
  }

  /** How many candidates did not fit since the last one that was selected. */
  function Misses(trail: seq<Step>): nat {
    if trail == [] then 0 else
    var n := |trail| - 1;
    match trail[n].event
    case Selected => 0
    case TooBig => Misses(trail[..n]) + 1
    case _ => Misses(trail[..n])
  }

  function Selections(trail: seq<Step>): nat {
    if trail == [] then 0 else
    var n := |trail| - 1;
    Selections(trail[..n]) + if trail[n].event == Selected then 1 else 0
  }

  /** The last candidate ended the selection. */
  predicate Ended(trail: seq<Step>) {
    && trail != []
    && var last := trail[|trail| - 1];
       || last.event == FeeTooLow
       || (last.event == TooBig && Misses(trail) > MAX_CONSECUTIVE_FAILURES && last.block.NearlyFull())
  }

  ghost function BlockAt(start: Block, trail: seq<Step>): Block {
    if trail == [] then start else trail[|trail| - 1].After()
  }

  ghost predicate StepAt(start: Block, order: seq<Tx>, trail: seq<Step>, i: nat, failed: set<Tx>)
    requires i < |trail|
  {
    trail[i].Ok(order, failed) && trail[i].block == BlockAt(start, trail[..i]) && !Ended(trail[..i])
  }

  /** A selection: every candidate is judged by the rules on the block its predecessors left. */
  ghost predicate Course(start: Block, order: seq<Tx>, trail: seq<Step>, failed: set<Tx>) {
    forall i :: 0 <= i < |trail| ==> StepAt(start, order, trail, i, failed)
  }

  lemma CourseStarts(start: Block, order: seq<Tx>)
    ensures Course(start, order, [], {}) && BlockAt(start, []) == start && !Ended([])
    ensures Misses([]) == 0 && Selections([]) == 0
  {
  }

  lemma CourseGrows(start: Block, order: seq<Tx>, trail: seq<Step>, failed: set<Tx>, s: Step)
    requires Course(start, order, trail, failed) && s.Ok(order, failed)
    requires s.block == BlockAt(start, trail) && !Ended(trail)
    ensures Course(start, order, trail + [s], failed) && BlockAt(start, trail + [s]) == s.After()
    ensures Selections(trail + [s]) == Selections(trail) + if s.event == Selected then 1 else 0
    ensures Misses(trail + [s]) == match s.event case Selected => 0 case TooBig => Misses(trail) + 1 case _ => Misses(trail)
    ensures Ended(trail + [s]) <==> (s.event == FeeTooLow
      || (s.event == TooBig && Misses(trail + [s]) > MAX_CONSECUTIVE_FAILURES && s.block.NearlyFull()))
  {
    hide Step.Ok, Step.After;
    var trail' := trail + [s];
    assert trail'[..|trail|] == trail;
    forall i | 0 <= i < |trail'|
      ensures StepAt(start, order, trail', i, failed)
    {
      if i < |trail| {
        assert StepAt(start, order, trail, i, failed);
        assert trail'[..i] == trail[..i];
      }
    }
  }

  /** One more refusal excuses more, and no step is judged anew. */
  lemma CourseRefused(start: Block, order: seq<Tx>, trail: seq<Step>, failed: set<Tx>, t: Tx)
    requires Course(start, order, trail, failed)
    ensures Course(start, order, trail, failed + {t})
  {
    hide Ended, Best, Scored, Verdict;
    forall i | 0 <= i < |trail|
      ensures StepAt(start, order, trail, i, failed + {t})
    {
      assert StepAt(start, order, trail, i, failed);
    }
  }

  /** Every transaction of the block was in it at the start or came with a selected package, all of
      which may be included and pays its fee. */
  lemma {:induction false} FromSelected(start: Block, order: seq<Tx>, trail: seq<Step>, failed: set<Tx>, t: Tx)
    requires Course(start, order, trail, failed) && t in BlockAt(start, trail).txs && t !in start.txs
    ensures exists i :: 0 <= i < |trail| && InPackage(trail[i], t)
    decreases |trail|
  {
    hide Candidate, Ended;
    var n := |trail| - 1;
    assert StepAt(start, order, trail, n, failed);
    if t in trail[n].block.txs {
      var init := trail[..n];
      CoursePrefix(start, order, trail, failed, n);
      FromSelected(start, order, init, failed, t);
      var i :| 0 <= i < |init| && InPackage(init[i], t);
      assert InPackage(trail[i], t);
    } else {
      assert Candidate(trail[n].block, order, trail[n].t, trail[n].e, failed);
      assert InPackage(trail[n], t);
    }
  }

  lemma {:induction false} SamePool(start: Block, order: seq<Tx>, trail: seq<Step>, failed: set<Tx>)
    requires Course(start, order, trail, failed)
    ensures BlockAt(start, trail).pool == start.pool
    decreases |trail|
  {
    hide Step.Ok, Ended;
    if trail != [] {
      var n := |trail| - 1;
      assert StepAt(start, order, trail, n, failed);
      CoursePrefix(start, order, trail, failed, n);
      SamePool(start, order, trail[..n], failed);
    }
  }

  lemma CoursePrefix(start: Block, order: seq<Tx>, trail: seq<Step>, failed: set<Tx>, n: nat)
    requires Course(start, order, trail, failed) && n <= |trail|
    ensures Course(start, order, trail[..n], failed)
  {
    hide Step.Ok, Ended, BlockAt;
    forall i | 0 <= i < n
      ensures StepAt(start, order, trail[..n], i, failed)
    {
      assert StepAt(start, order, trail, i, failed);
      assert trail[..n][..i] == trail[..i];
    }
  }

  /** The step selected a package with this transaction. */
  ghost predicate InPackage(s: Step, t: Tx) {
    && s.event == Selected && s.t in s.block.pool.ancestors
    && t in Remaining(s.block.pool, s.t, s.block.txs)
    && s.e.modFees >= s.block.minFee(s.e.size) && s.block.Fits(s.e) && s.block.acceptable(t)
  }

  /** When the selection ends on a fee that is too low, whatever could still be included has no higher
      fee rate than the transaction it ended on. */
  lemma {:induction false} NothingBetterLeft(start: Block, order: seq<Tx>, trail: seq<Step>, failed: set<Tx>, u: Tx)
    returns (f: ModEntry)
    requires Course(start, order, trail, failed) && Scored(start.pool, order) && u in order && trail != []
    requires trail[|trail| - 1].event == FeeTooLow
    requires u !in BlockAt(start, trail).txs && !LeftOut(BlockAt(start, trail), u)
    ensures u in start.pool.entries && u in start.pool.ancestors
    ensures var b, e := BlockAt(start, trail), trail[|trail| - 1].e;
      && Tracked(start.pool, u, f, b.txs, true)
      && e.modFees < b.minFee(e.size) && f.modFees * e.size <= e.modFees * f.size
  {
    hide Ended, LeftOut, Tracked, Scored;
    SamePool(start, order, trail, failed);
    var last := trail[|trail| - 1];
    assert StepAt(start, order, trail, |trail| - 1, failed);
    assert NoBetter(last.block, u, last.t, last.e);
    f :| Tracked(start.pool, u, f, last.block.txs, true) && !Better(f, u, last.e, last.t);
  }

  // ---- the better candidate ----

  lemma CrossMultiplied(f1: int, s1: int, f2: int, s2: int, f3: int, s3: int)
    requires s1 > 0 && s2 > 0 && s3 > 0 && f1 * s2 <= f2 * s1 && f2 * s3 <= f3 * s2
    ensures f1 * s3 <= f3 * s1
    ensures f1 * s3 == f3 * s1 ==> f1 * s2 == f2 * s1 && f2 * s3 == f3 * s2
  {
    assert f1 * s3 * s2 == f1 * s2 * s3 <= f2 * s1 * s3 == f2 * s3 * s1 <= f3 * s2 * s1 == f3 * s1 * s2;
    assert f1 * s3 > f3 * s1 ==> (f1 * s3 - f3 * s1) * s2 > 0;
  }

  /** Not being better is transitive. */
  lemma NoBetterTrans(a: ModEntry, t: Tx, b: ModEntry, u: Tx, c: ModEntry, v: Tx)
    requires a.size > 0 && b.size > 0 && c.size > 0 && !Better(a, t, b, u) && !Better(b, u, c, v)
    ensures !Better(a, t, c, v)
  {
    CrossMultiplied(a.modFees, a.size, b.modFees, b.size, c.modFees, c.size);
  }

  /** The best entry of the side table. */
  method BestModified(mod: Modified) returns (best: Tx)
    requires mod != map[]
    ensures best in mod
    ensures (forall t :: t in mod ==> mod[t].size > 0) ==> forall u :: u in mod ==> !Better(mod[u], u, mod[best], best)
  {
    hide Better;
    best :| best in mod;
    var rest := mod.Keys - {best};
    BetterIrreflexive(mod[best], best);
    while rest != {}
      invariant best in mod && rest <= mod.Keys
      invariant (forall t :: t in mod ==> mod[t].size > 0) ==>
        forall u :: u in mod.Keys - rest ==> !Better(mod[u], u, mod[best], best)
      decreases rest
    {
      var t :| t in rest;
      rest := rest - {t};
      if Better(mod[t], t, mod[best], best) {
        BestReplaced(mod, mod.Keys - rest - {t}, best, t);
        best := t;
      }
    }
  }

  lemma BetterIrreflexive(a: ModEntry, t: Tx)
    ensures !Better(a, t, a, t)
  {
  }

  lemma BestReplaced(mod: Modified, seen: set<Tx>, best: Tx, t: Tx)
    requires seen <= mod.Keys && best in mod && t in mod && Better(mod[t], t, mod[best], best)
    ensures (forall u :: u in mod ==> mod[u].size > 0) && (forall u :: u in seen ==> !Better(mod[u], u, mod[best], best))
      ==> forall u :: u in seen + {t} ==> !Better(mod[u], u, mod[t], t)
  {
    if (forall u :: u in mod ==> mod[u].size > 0) && (forall u :: u in seen ==> !Better(mod[u], u, mod[best], best)) {
      forall u | u in seen + {t}
        ensures !Better(mod[u], u, mod[t], t)
      {
        if u != t {
          NoBetterTrans(mod[u], u, mod[best], best, mod[t], t);
        }
      }
    }
  }

  /** With positive sizes in the pool, the totals in the table are positive too. */
  lemma {:induction false} PositiveTable(pool: Pool, mod: Modified, included: set<Tx>, failed: set<Tx>)
    requires pool.Valid() && TableOk(pool, mod, included, failed)
    requires forall t :: t in pool.entries ==> pool.entries[t].size > 0
    ensures forall t :: t in mod ==> mod[t].size > 0
    ensures forall t :: t in pool.entries ==> FullEntry(pool, t).size > 0
  {
    hide Pool.Valid, TableOk, RowOk, Pool.Sum;
    forall t | t in mod
      ensures mod[t].size > 0
    {
      RowCovers(pool, mod, included, failed, t);
      PositiveSum(pool, t, Remaining(pool, t, included));
    }
    forall t | t in pool.entries
      ensures FullEntry(pool, t).size > 0
    {
      FullTotals(pool, t);
      PositiveSum(pool, t, pool.ancestors[t] + {t});
    }
  }

  lemma {:induction false} PositiveSum(pool: Pool, t: Tx, txs: set<Tx>)
    requires pool.Valid() && t in pool.entries && pool.entries[t].size > 0 && t in txs
    ensures pool.Sum(Size, txs) > 0
  {
    pool.SumWithout(Size, txs, t);
    pool.SumNonNegative(Size, txs - {t});
  }

  lemma {:induction false} RowCovers(pool: Pool, mod: Modified, included: set<Tx>, failed: set<Tx>, t: Tx)
    requires pool.Valid() && TableOk(pool, mod, included, failed) && t in mod
    ensures t in pool.entries && t in pool.ancestors && t !in included
    ensures Tracked(pool, t, mod[t], included, t !in failed)
    ensures Covers(pool, t, mod[t], included) && AtMostFull(pool, t, mod[t])
  {
    hide Covers, AtMostFull, Pool.Valid;
    assert RowOk(pool, mod, included, failed, t);
    TrackedCovers(pool, t, mod[t], included, t !in failed);
  }

  /** A candidate that is neither in the table nor refused has no ancestor in the block. */
  lemma {:induction false} FullTracked(pool: Pool, mod: Modified, included: set<Tx>, failed: set<Tx>, t: Tx)
    requires pool.Valid() && TableOk(pool, mod, included, failed)
    requires t in pool.entries && t !in mod && t !in included && t !in failed
    ensures t in pool.ancestors && Tracked(pool, t, FullEntry(pool, t), included, true)
  {
    assert RowOk(pool, mod, included, failed, t);
    assert TakenOff(pool, t, FullEntry(pool, t), {}, t);
  }

  /** Which entry the loop looks at: the best of the table or the next of the order, if that is better. */
  ghost predicate Chosen(pool: Pool, mod: Modified, order: seq<Tx>, mi: nat, usingModified: bool, best: Tx, iter: Tx) {
    && mi <= |order| && (mi < |order| ==> order[mi] in pool.entries)
    && (mod != map[] ==> best in mod)
    && ((forall t :: t in mod ==> mod[t].size > 0) ==> forall u :: u in mod ==> !Better(mod[u], u, mod[best], best))
    && if usingModified then
         && iter == best && best in mod
         && (mi < |order| ==> Better(mod[best], best, FullEntry(pool, order[mi]), order[mi]))
       else
         && mi < |order| && iter == order[mi]
         && (mod != map[] ==> !Better(mod[best], best, FullEntry(pool, iter), iter))
  }

  /** The loop looks at the best candidate there is. */
  lemma {:induction false} ChosenBest(b: Block, order: seq<Tx>, mi: nat, mod: Modified, failed: set<Tx>,
          usingModified: bool, best: Tx, iter: Tx)
    requires b.pool.Valid() && TableOk(b.pool, mod, b.txs, failed)
    requires Chosen(b.pool, mod, order, mi, usingModified, best, iter)
    requires Accounted(b, order, mi, mod.Keys, failed) && Scored(b.pool, order)
    ensures iter in b.pool.entries
    ensures Best(b, order, iter, if usingModified then mod[iter] else FullEntry(b.pool, iter))
  {
    hide Pool.Valid, TableOk, RowOk, Pool.Sum, LeftOut, Better;
    PositiveTable(b.pool, mod, b.txs, failed);
    if usingModified {
      RowCovers(b.pool, mod, b.txs, failed, iter);
    }
    var e := if usingModified then mod[iter] else FullEntry(b.pool, iter);
    forall u | u in order && u !in b.txs && !LeftOut(b, u)
      ensures NoBetter(b, u, iter, e)
    {
      var k :| 0 <= k < |order| && order[k] == u;
      if u in mod {
        RowCovers(b.pool, mod, b.txs, failed, u);
        if !usingModified {
          NoBetterTrans(mod[u], u, mod[best], best, e, iter);
        }
        assert !Better(mod[u], u, e, iter);
      } else {
        FullTracked(b.pool, mod, b.txs, failed, u);
        OrderNoBetter(b.pool, order, mi, mod, usingModified, best, iter, k);
      }
    }
  }

  lemma {:induction false} OrderNoBetter(pool: Pool, order: seq<Tx>, mi: nat, mod: Modified, usingModified: bool,
          best: Tx, iter: Tx, k: nat)
    requires Chosen(pool, mod, order, mi, usingModified, best, iter) && Scored(pool, order) && mi <= k < |order|
    requires forall t :: t in mod ==> mod[t].size > 0
    requires forall t :: t in pool.entries ==> FullEntry(pool, t).size > 0
    ensures var e := if usingModified then mod[iter] else FullEntry(pool, iter);
            !Better(FullEntry(pool, order[k]), order[k], e, iter)
  {
    var next := order[mi];
    if usingModified {
      BetterAsymmetric(mod[iter], iter, FullEntry(pool, next), next);
      if k != mi {
        NoBetterTrans(FullEntry(pool, order[k]), order[k], FullEntry(pool, next), next, mod[iter], iter);
      }
    }
  }

  lemma BetterAsymmetric(a: ModEntry, t: Tx, b: ModEntry, u: Tx)
    requires Better(a, t, b, u)
    ensures !Better(b, u, a, t)
  {
  }

  class BlockAssembler {
    const pool: Pool
    const maxWeight: int
    /** The least fee for a package of this size. */
    const minFee: int -> int
    /** Locktime and premature-witness checks on one transaction. */
    const acceptable: Tx -> bool

    var vtx: seq<Tx>
    var vTxFees: seq<int>
    var vTxSigOps: seq<int>
    var inBlock: set<Tx>
    var nBlockWeight: int
    var nBlockTx: int
    var nBlockSigOps: int
    var nFees: int

    /** The block holds distinct transactions in a valid order, and the counters are exact. */
    ghost predicate Sound()
      reads this
    {
      && pool.Valid()
      && ListOk(pool, vtx) && inBlock == Members(vtx)
      && TemplateOk(pool, vtx, vTxFees, vTxSigOps) && nBlockTx == |vtx|
      && nBlockWeight == COINBASE_WEIGHT + pool.Sum(Weight, inBlock)
      && nBlockSigOps == COINBASE_SIGOPS + pool.Sum(SigOps, inBlock)
      && nFees == pool.Sum(Fee, inBlock)
    }

    ghost predicate WithinLimits()
      reads this
    {
      nBlockWeight <= maxWeight && nBlockSigOps < MAX_BLOCK_SIGOPS
    }

    constructor (pool: Pool, maxWeight: int, minFee: int -> int, acceptable: Tx -> bool)
      requires pool.Valid()
      ensures this.pool == pool && this.minFee == minFee && this.acceptable == acceptable
      ensures COINBASE_WEIGHT <= this.maxWeight <= MAX_BLOCK_WEIGHT - 4000
      ensures this.maxWeight == maxWeight <==> COINBASE_WEIGHT <= maxWeight <= MAX_BLOCK_WEIGHT - 4000
      ensures Sound() && WithinLimits() && vtx == []
    {
      this.pool := pool;
      var capped := if maxWeight < MAX_BLOCK_WEIGHT - 4000 then maxWeight else MAX_BLOCK_WEIGHT - 4000;
      this.maxWeight := if capped < COINBASE_WEIGHT then COINBASE_WEIGHT else capped;
      this.minFee := minFee;
      this.acceptable := acceptable;
      inBlock, vtx, vTxFees, vTxSigOps := {}, [], [], [];
      nBlockWeight, nBlockSigOps, nBlockTx, nFees := COINBASE_WEIGHT, COINBASE_SIGOPS, 0, 0;
    }

    /** Whether a package with these totals would fit. */
    predicate TestPackage(packageSize: int, packageSigOps: int)
      reads this
    {
      nBlockWeight + 4 * packageSize < maxWeight && nBlockSigOps + packageSigOps < MAX_BLOCK_SIGOPS
    }

    method AddToBlock(t: Tx)
      requires Sound() && t in pool.entries && t in pool.ancestors && t !in inBlock && pool.ancestors[t] <= inBlock
      modifies this
      ensures Sound() && vtx == old(vtx) + [t] && inBlock == old(inBlock) + {t}
    {
      hide ListOk, Members, Pool.Valid, Pool.Sum;
      pool.SumAdd(Weight, inBlock, t);
      pool.SumAdd(SigOps, inBlock, t);
      pool.SumAdd(Fee, inBlock, t);
      ListGrows(pool, vtx, t);
      vtx := vtx + [t];
      vTxFees := vTxFees + [pool.Get(Fee, t)];
      vTxSigOps := vTxSigOps + [pool.Get(SigOps, t)];
      nBlockWeight := nBlockWeight + pool.Get(Weight, t);
      nBlockTx := nBlockTx + 1;
      nBlockSigOps := nBlockSigOps + pool.Get(SigOps, t);
      nFees := nFees + pool.Get(Fee, t);
      inBlock := inBlock + {t};
    }

    /** Add a sorted package and take its members out of the side table. */
    method IncludePackage(package: set<Tx>, sorted: seq<Tx>, modIn: Modified) returns (mod: Modified)
      requires Sound() && package <= pool.entries.Keys && package !! inBlock
      requires pool.Closed(inBlock + package) && Members(sorted) == package && Sorted(pool, sorted)
      modifies this
      ensures Sound() && vtx == old(vtx) + sorted && inBlock == old(inBlock) + package
      ensures mod == modIn - package
    {
      hide Sound, Pool.Closed, Pool.Valid, Pool.Ancestry, TableOk;
      SoundPool();
      mod := modIn;
      assert modIn - {} == modIn && Members(sorted[..0]) == {};
      for i := 0 to |sorted|
        invariant Sound() && vtx == old(vtx) + sorted[..i] && inBlock == old(inBlock) + Members(sorted[..i])
        invariant mod == modIn - Members(sorted[..i])
      {
        var t := sorted[i];
        assert t in Members(sorted);
        AncestorsEarlier(pool, old(inBlock), package, sorted, i);
        MembersGrow(sorted, i);
        forall j | 0 <= j < i
          ensures sorted[j] != t
        {
        }
        AddToBlock(t);
        mod := mod - {t};
      }
      assert sorted[..|sorted|] == sorted;
    }

    /** Add the package of `t`, which is known to fit, and bring the side table up to date. */
    method SelectPackage(t: Tx, e: ModEntry, modIn: Modified, ghost failed: set<Tx>)
      returns (mod: Modified, updated: nat)
      requires Sound() && WithinLimits() && TableOk(pool, modIn, inBlock, failed)
      requires t in pool.entries && t in pool.ancestors && t !in inBlock
      requires Covers(pool, t, e, inBlock) && TestPackage(e.size, e.sigOps)
      modifies this
      ensures Sound() && WithinLimits() && TableOk(pool, mod, inBlock, failed)
      ensures Filling() == old(Filling()).With(t)
      ensures inBlock == old(inBlock) + Remaining(pool, t, old(inBlock)) && t in inBlock
      ensures old(vtx) <= vtx && modIn.Keys <= mod.Keys + inBlock
      ensures nBlockWeight >= old(nBlockWeight) && nBlockSigOps >= old(nBlockSigOps)
    {
      hide Remaining, Covers, Pool.Closed, Pool.Valid, TableOk, Pool.Sum, ListOk, TemplateOk, Members, Sorted;
      SoundPool();
      ghost var was := inBlock;
      var package := pool.ancestors[t] - inBlock + {t};
      PackageFacts(pool, inBlock, t, e);
      var sorted := SortForBlock(pool, package);
      mod := IncludePackage(package, sorted, modIn);
      TableWithout(pool, modIn, was, failed, package);
      assert inBlock - package == was;
      ghost var without := mod;
      mod, updated := UpdatePackagesForAdded(pool, package, mod, inBlock, failed + package);
      TableIncluded(pool, mod, inBlock, failed, package);
      KeysStay(pool, without, mod, package);
      pool.SumUnion(Weight, was, package);
      pool.SumUnion(SigOps, was, package);
      pool.SumMonotone(Weight, was, inBlock);
      pool.SumMonotone(SigOps, was, inBlock);
    }

    /** The state of the selection that decides what is left out. */
    ghost function Filling(): Block
      reads this
    {
      Block(pool, minFee, acceptable, maxWeight, nBlockWeight, nBlockSigOps, inBlock)
    }

    /**
     The selection loop. `order` is the pool in the order of its own ancestor score. The ghost
     results are every candidate that was looked at and those that were refused from the table.
     */
    method AddPackageTxs(order: seq<Tx>)
      returns (packagesSelected: nat, descendantsUpdated: nat, ghost trail: seq<Step>, ghost refused: set<Tx>)
      requires Sound() && WithinLimits() && Members(order) <= pool.entries.Keys
      modifies this
      ensures Sound() && WithinLimits() && old(vtx) <= vtx
      ensures Course(old(Filling()), order, trail, refused) && Filling() == BlockAt(old(Filling()), trail)
      ensures packagesSelected == Selections(trail)
      ensures forall t :: t in refused ==> LeftOut(Filling(), t)
      ensures forall t :: t in inBlock ==> t in old(inBlock) || acceptable(t)
      ensures !Ended(trail) ==> forall t :: t in order ==> t in inBlock || LeftOut(Filling(), t)
    {
      hide Sound, WithinLimits, TableOk, Pool.Valid, Pool.Closed, Pool.Sum, Covers, LeftOut, Accounted, AtMostFull;
      hide Course, Ended, Candidate, Misses, Selections, Remaining;
      SoundPool();
      ghost var start := Filling();
      packagesSelected, descendantsUpdated, trail := 0, 0, [];
      EmptyTable(pool, inBlock);
      var mod, unused := UpdatePackagesForAdded(pool, inBlock, map[], inBlock, {});
      var failed: set<Tx> := {};
      var mi := 0;
      var consecutiveFailed := 0;
      NoneYet(start, order, mod.Keys);
      CourseStarts(start, order);
      while mi < |order| || mod != map[]
        invariant Sound() && WithinLimits() && TableOk(pool, mod, inBlock, failed)
        invariant 0 <= mi <= |order| && old(vtx) <= vtx
        invariant Accounted(Filling(), order, mi, mod.Keys, failed)
        invariant Course(start, order, trail, failed) && Filling() == BlockAt(start, trail) && !Ended(trail)
        invariant packagesSelected == Selections(trail) && consecutiveFailed == Misses(trail)
        invariant forall t :: t in inBlock ==> t in old(inBlock) || acceptable(t)
        decreases pool.entries.Keys - inBlock, |order| - mi, mod.Keys
      {
        if mi < |order| && (order[mi] in mod || order[mi] in inBlock || order[mi] in failed) {
          Passed(Filling(), order, mi, mod.Keys, failed);
          mi := mi + 1;
          continue;
        }
        ghost var here := mi;
        var usingModified, iter := NextCandidate(order, mi, mod, failed);
        if !usingModified {
          mi := mi + 1;
        }
        var e := if usingModified then mod[iter] else FullEntry(pool, iter);
        ghost var s := Step(Filling(), iter, e, Verdict(Filling(), iter, e));
        CourseGrows(start, order, trail, failed, s);
        trail := trail + [s];
        if e.modFees < minFee(e.size) {
          Accounts(Filling(), order, here, mod.Keys, failed);
          refused := failed;
          return;
        }
        if !TestPackage(e.size, e.sigOps) {
          DoesNotFit(Filling(), iter, e);
          if usingModified {
            TableRefused(pool, mod, inBlock, failed, iter);
            Refused(Filling(), order, here, mod.Keys, failed, iter);
            CourseRefused(start, order, trail, failed, iter);
            mod := mod - {iter};
            failed := failed + {iter};
          } else {
            Passed(Filling(), order, here, mod.Keys, failed);
          }
          consecutiveFailed := consecutiveFailed + 1;
          if consecutiveFailed > MAX_CONSECUTIVE_FAILURES && nBlockWeight > maxWeight - 4000 {
            Accounts(Filling(), order, mi, mod.Keys, failed);
            refused := failed;
            return;
          }
          continue;
        }
        var package := pool.ancestors[iter] - inBlock + {iter};
        PackageIs(pool, iter, inBlock, package);
        if exists t :: t in package && !acceptable(t) {
          NotAcceptable(Filling(), iter, package);
          if usingModified {
            TableRefused(pool, mod, inBlock, failed, iter);
            Refused(Filling(), order, here, mod.Keys, failed, iter);
            CourseRefused(start, order, trail, failed, iter);
            mod := mod - {iter};
            failed := failed + {iter};
          } else {
            Passed(Filling(), order, here, mod.Keys, failed);
          }
          continue;
        }
        consecutiveFailed := 0;
        ghost var left := pool.entries.Keys - inBlock;
        var n;
        ghost var table, before := mod.Keys, Filling();
        mod, n := SelectPackage(iter, e, mod, failed);
        StillAccounted(before, Filling(), order, here, table, failed, mod.Keys);
        if !usingModified {
          Passed(Filling(), order, here, mod.Keys, failed);
        }
        assert iter in left && iter !in pool.entries.Keys - inBlock;
        packagesSelected := packagesSelected + 1;
        descendantsUpdated := descendantsUpdated + n;
      }
      assert mod.Keys == {};
      AllAccounted(Filling(), order, failed);
      Accounts(Filling(), order, mi, mod.Keys, failed);
      refused := failed;
    }

    /** The next entry of the order, or the best of the side table if that is better. */
    method NextCandidate(order: seq<Tx>, mi: nat, mod: Modified, ghost failed: set<Tx>)
      returns (usingModified: bool, iter: Tx)
      requires Sound() && TableOk(pool, mod, inBlock, failed) && Accounted(Filling(), order, mi, mod.Keys, failed)
      requires Members(order) <= pool.entries.Keys && (mi < |order| || mod != map[])
      requires mi < |order| ==> order[mi] !in mod && order[mi] !in inBlock && order[mi] !in failed
      ensures if usingModified then iter in mod else mi < |order| && iter == order[mi]
      ensures iter in pool.entries && iter in pool.ancestors && iter !in inBlock
      ensures var e := if usingModified then mod[iter] else FullEntry(pool, iter);
        && Candidate(Filling(), order, iter, e, failed)
        && Covers(pool, iter, e, inBlock) && AtMostFull(pool, iter, e)
    {
      hide Sound, TableOk, Pool.Valid, Pool.Closed, Pool.Sum, Covers, LeftOut, Accounted, AtMostFull;
      hide Tracked, Better, Scored, Best, Candidate;
      SoundPool();
      AccountedRange(Filling(), order, mi, mod.Keys, failed);
      usingModified := false;
      var best := 0;
      if mod != map[] {
        best := BestModified(mod);
      }
      iter := best;
      if mi == |order| {
        usingModified := true;
      } else {
        iter := order[mi];
        assert iter in Members(order);
        if mod != map[] && Better(mod[best], best, FullEntry(pool, iter), iter) {
          iter := best;
          usingModified := true;
        }
      }
      CandidateOk(Filling(), order, mi, mod, failed, usingModified, best, iter);
    }

    lemma SoundPool()
      requires Sound()
      ensures pool.Valid()
      ensures inBlock <= pool.entries.Keys && pool.Closed(inBlock)
    {
      OrderedClosed(pool, vtx);
    }
  }

  lemma MembersGrow(txs: seq<Tx>, i: int)
    requires 0 <= i < |txs|
    ensures Members(txs[..i + 1]) == Members(txs[..i]) + {txs[i]}
    ensures txs[..i + 1] == txs[..i] + [txs[i]]
  {
  }

  lemma {:induction false} AncestorKeys(pool: Pool, t: Tx)
    requires pool.Valid() && t in pool.entries
    ensures t in pool.ancestors && pool.ancestors[t] <= pool.entries.Keys
  {
    forall a | a in pool.ancestors[t]
      ensures a in pool.entries
    {
      pool.Transitive(t, a);
    }
  }

  lemma DoesNotFit(b: Block, t: Tx, e: ModEntry)
    requires t in b.pool.entries && t in b.pool.ancestors && AtMostFull(b.pool, t, e)
    requires b.weight + 4 * e.size >= b.maxWeight || b.sigOps + e.sigOps >= MAX_BLOCK_SIGOPS
    ensures LeftOut(b, t)
  {
  }

  lemma NotAcceptable(b: Block, t: Tx, package: set<Tx>)
    requires t in b.pool.entries && t in b.pool.ancestors && package <= b.pool.ancestors[t] + {t}
    requires exists a :: a in package && !b.acceptable(a)
    ensures LeftOut(b, t)
  {
    var a :| a in package && !b.acceptable(a);
    assert a in b.pool.ancestors[t] + {t} && !b.acceptable(a);
  }

  lemma NoneYet(b: Block, order: seq<Tx>, table: set<Tx>)
    ensures Accounted(b, order, 0, table, {})
  {
  }

  lemma AllAccounted(b: Block, order: seq<Tx>, failed: set<Tx>)
    requires Accounted(b, order, |order|, {}, failed)
    ensures forall t :: t in order ==> t in b.txs || LeftOut(b, t)
  {
    hide LeftOut;
  }

  /** One more entry is accounted for. */
  lemma Passed(b: Block, order: seq<Tx>, mi: nat, table: set<Tx>, failed: set<Tx>)
    requires Accounted(b, order, mi, table, failed) && mi < |order|
    requires order[mi] in b.txs || order[mi] in table || order[mi] in failed || LeftOut(b, order[mi])
    ensures Accounted(b, order, mi + 1, table, failed)
  {
    hide LeftOut;
  }

  lemma Refused(b: Block, order: seq<Tx>, mi: nat, table: set<Tx>, failed: set<Tx>, t: Tx)
    requires Accounted(b, order, mi, table, failed) && LeftOut(b, t)
    ensures Accounted(b, order, mi, table - {t}, failed + {t})
  {
    hide LeftOut;
  }

  /** A block that only grows keeps out what it kept out. */
  lemma StillAccounted(b: Block, c: Block, order: seq<Tx>, mi: nat, table: set<Tx>, failed: set<Tx>, now: set<Tx>)
    requires c == b.(weight := c.weight, sigOps := c.sigOps, txs := c.txs)
    requires b.weight <= c.weight && b.sigOps <= c.sigOps && b.txs <= c.txs && table <= now + c.txs
    requires Accounted(b, order, mi, table, failed)
    ensures Accounted(c, order, mi, now, failed)
  {
    assert forall t :: LeftOut(b, t) ==> LeftOut(c, t);
    hide LeftOut;
  }

  lemma PackageIs(pool: Pool, t: Tx, included: set<Tx>, package: set<Tx>)
    requires t in pool.ancestors && t !in included && package == pool.ancestors[t] - included + {t}
    ensures package == Remaining(pool, t, included) && package <= pool.ancestors[t] + {t}
  {
  }

  /** A refused entry leaves the table and is excused. */
  lemma TableRefused(pool: Pool, mod: Modified, included: set<Tx>, failed: set<Tx>, t: Tx)
    requires TableOk(pool, mod, included, failed)
    ensures TableOk(pool, mod - {t}, included, failed + {t})
  {
    TableWithout(pool, mod, included, failed, {t});
  }

  lemma Accounts(b: Block, order: seq<Tx>, mi: nat, table: set<Tx>, failed: set<Tx>)
    requires Accounted(b, order, mi, table, failed)
    ensures forall t :: t in failed ==> LeftOut(b, t)
  {
  }

  lemma AccountedRange(b: Block, order: seq<Tx>, mi: nat, table: set<Tx>, failed: set<Tx>)
    requires Accounted(b, order, mi, table, failed)
    ensures mi <= |order|
  {
  }

  /** Either candidate comes with totals that are exact, unless it was refused before, and cover what
      remains of its package; and nothing is a better choice. */
  lemma {:induction false} CandidateOk(b: Block, order: seq<Tx>, mi: nat, mod: Modified, failed: set<Tx>,
          usingModified: bool, best: Tx, iter: Tx)
    requires b.pool.Valid() && TableOk(b.pool, mod, b.txs, failed)
    requires Chosen(b.pool, mod, order, mi, usingModified, best, iter)
    requires mi < |order| ==> order[mi] !in mod && order[mi] !in b.txs && order[mi] !in failed
    requires Accounted(b, order, mi, mod.Keys, failed)
    ensures iter in b.pool.entries && iter in b.pool.ancestors && iter !in b.txs
    ensures var e := if usingModified then mod[iter] else FullEntry(b.pool, iter);
      && Candidate(b, order, iter, e, failed)
      && Covers(b.pool, iter, e, b.txs) && AtMostFull(b.pool, iter, e)
  {
    hide Pool.Valid, TableOk, RowOk, Pool.Sum, LeftOut, Better, Covers, AtMostFull, Tracked, Accounted, Best, Scored;
    if usingModified {
      RowCovers(b.pool, mod, b.txs, failed, iter);
    } else {
      FullTracked(b.pool, mod, b.txs, failed, iter);
      TrackedCovers(b.pool, iter, FullEntry(b.pool, iter), b.txs, true);
    }
    if Scored(b.pool, order) {
      ChosenBest(b, order, mi, mod, failed, usingModified, best, iter);
    }
  }

  /** What is needed of a package before it is added. */
  lemma {:induction false} PackageFacts(pool: Pool, included: set<Tx>, t: Tx, e: ModEntry)
    requires pool.Valid() && pool.Closed(included)
    requires t in pool.entries && t in pool.ancestors && t !in included && Covers(pool, t, e, included)
    ensures var package := pool.ancestors[t] - included + {t};
      && package == Remaining(pool, t, included) && package <= pool.entries.Keys && package !! included
      && pool.Closed(included + package)
      && pool.Sum(Weight, included + package) <= pool.Sum(Weight, included) + 4 * e.size
      && pool.Sum(SigOps, included + package) <= pool.Sum(SigOps, included) + e.sigOps
  {
    hide Pool.Valid, Pool.Closed, Pool.Sum, Covers;
    var package := pool.ancestors[t] - included + {t};
    assert package == Remaining(pool, t, included);
    AncestorKeys(pool, t);
    PackageWeight(pool, t, e, included);
    pool.PackageClosed(included, t);
    pool.SumUnion(Weight, included, package);
    pool.SumUnion(SigOps, included, package);
  }
}
