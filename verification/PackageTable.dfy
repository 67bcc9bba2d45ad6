/**
 The side table of package selection (src/miner.h and UpdatePackagesForAdded of src/miner.cpp):
 for every descendant of the block so far, its package totals with the included ancestors taken off.
 */
module PackageTable {
  import opened Mempool
  import opened Sets

  /** Totals of a transaction with those of its ancestors that are not yet in the block. */
  datatype ModEntry = ModEntry(size: int, modFees: int, sigOps: int)

  type Modified = map<Tx, ModEntry>

  function FullEntry(pool: Pool, t: Tx): ModEntry
    requires t in pool.entries
  {
    var e := pool.entries[t];
    ModEntry(e.sizeWithAncestors, e.modFeesWithAncestors, e.sigOpsWithAncestors)
  }

  /** The ancestors still to be added for a transaction, and the transaction itself. */
  ghost function Remaining(pool: Pool, t: Tx, included: set<Tx>): set<Tx>
    requires t in pool.ancestors
  {
    pool.ancestors[t] + {t} - included
  }

  /** The cached totals do not understate what is still to be added. */
  ghost predicate Covers(pool: Pool, t: Tx, e: ModEntry, included: set<Tx>)
    requires t in pool.ancestors
  {
    && e.size >= pool.Sum(Size, Remaining(pool, t, included))
    && e.sigOps >= pool.Sum(SigOps, Remaining(pool, t, included))
  }

  /** Cached totals never exceed those of the whole package. */
  ghost predicate AtMostFull(pool: Pool, t: Tx, e: ModEntry)
    requires t in pool.entries
  {
    e.size <= FullEntry(pool, t).size && e.sigOps <= FullEntry(pool, t).sigOps
  }

  /** The totals once the ancestors in `gone` were taken off. The first of them goes with its
      modified fee, the others with their base fee. */
  ghost function Reduced(pool: Pool, t: Tx, gone: set<Tx>, first: Tx): ModEntry
    requires t in pool.entries
  {
    var full := FullEntry(pool, t);
    ModEntry(
      full.size - pool.Sum(Size, gone),
      full.modFees - pool.Sum(Fee, gone) - (if gone == {} then 0 else pool.Get(Priority, first)),
      full.sigOps - pool.Sum(SigOps, gone))
  }

  ghost predicate TakenOff(pool: Pool, t: Tx, e: ModEntry, gone: set<Tx>, first: Tx)
    requires t in pool.entries
  {
    (gone != {} ==> first in gone) && e == Reduced(pool, t, gone, first)
  }

  /** Included ancestors were taken off; all of them, if the totals are exact. */
  ghost predicate Tracked(pool: Pool, t: Tx, e: ModEntry, included: set<Tx>, exact: bool)
    requires t in pool.entries && t in pool.ancestors
  {
    exists gone, first :: TakenOff(pool, t, e, gone, first)
      && gone <= pool.ancestors[t] * included && (exact ==> gone == pool.ancestors[t] * included)
  }

  /** At least one ancestor was taken off. */
  ghost predicate InTable(pool: Pool, t: Tx, e: ModEntry, included: set<Tx>, exact: bool)
    requires t in pool.entries && t in pool.ancestors
  {
    exists gone, first :: TakenOff(pool, t, e, gone, first) && gone != {}
      && gone <= pool.ancestors[t] * included && (exact ==> gone == pool.ancestors[t] * included)
  }

  ghost predicate RowOk(pool: Pool, mod: Modified, included: set<Tx>, failed: set<Tx>, t: Tx) {
    if t in mod then
      && t in pool.entries && t in pool.ancestors && t !in included
      && InTable(pool, t, mod[t], included, t !in failed)
    else
      t in pool.ancestors && t !in included && t !in failed ==> pool.ancestors[t] * included == {}
  }

  /** The table holds every descendant of the block that is not in it and was not refused, with
      exact totals, and maybe some that were refused. */
  ghost predicate TableOk(pool: Pool, mod: Modified, included: set<Tx>, failed: set<Tx>) {
    forall t :: RowOk(pool, mod, included, failed, t)
  }

  lemma FullTotals(pool: Pool, t: Tx)
    requires pool.Valid() && t in pool.entries
    ensures t in pool.ancestors
    ensures FullEntry(pool, t).size == pool.Sum(Size, pool.ancestors[t] + {t})
    ensures FullEntry(pool, t).sigOps == pool.Sum(SigOps, pool.ancestors[t] + {t})
  {
  }

  /** Tracked totals understate nothing that remains, and never exceed those of the whole package. */
  lemma {:induction false} TrackedCovers(pool: Pool, t: Tx, e: ModEntry, included: set<Tx>, exact: bool)
    requires pool.Valid() && t in pool.entries && t in pool.ancestors && Tracked(pool, t, e, included, exact)
    ensures Covers(pool, t, e, included) && AtMostFull(pool, t, e)
  {
    hide Pool.Sum, Pool.Valid;
    FullTotals(pool, t);
    var gone, first :| TakenOff(pool, t, e, gone, first) && gone <= pool.ancestors[t] * included;
    var rest := Remaining(pool, t, included);
    pool.SumUnion(Size, rest, gone);
    pool.SumUnion(SigOps, rest, gone);
    pool.SumMonotone(Size, rest + gone, pool.ancestors[t] + {t});
    pool.SumMonotone(SigOps, rest + gone, pool.ancestors[t] + {t});
    pool.SumNonNegative(Size, gone);
    pool.SumNonNegative(SigOps, gone);
  }

  /** Exact totals are those of the package that would be added. */
  lemma {:induction false} TrackedExact(pool: Pool, t: Tx, e: ModEntry, included: set<Tx>)
    requires pool.Valid() && t in pool.entries && t in pool.ancestors && t !in included
    requires Tracked(pool, t, e, included, true)
    ensures e.size == pool.Sum(Size, Remaining(pool, t, included))
    ensures e.sigOps == pool.Sum(SigOps, Remaining(pool, t, included))
  {
    hide Pool.Sum, Pool.Valid;
    FullTotals(pool, t);
    var gone, first :| TakenOff(pool, t, e, gone, first) && gone == pool.ancestors[t] * included;
    var rest := Remaining(pool, t, included);
    assert rest + gone == pool.ancestors[t] + {t};
    pool.SumUnion(Size, rest, gone);
    pool.SumUnion(SigOps, rest, gone);
  }

  /**
   Exact totals have the modified fees of the package that would be added, if and only if the fee
   changes of the included ancestors, without the one that was taken off first, cancel out: all
   but the first are taken off with their base fee.
   */
  lemma {:induction false} CachedFees(pool: Pool, t: Tx, e: ModEntry, included: set<Tx>) returns (first: Tx)
    requires pool.Valid() && t in pool.entries && t in pool.ancestors && t !in included
    requires pool.entries[t].modFeesWithAncestors == pool.Sum(ModifiedFee, pool.ancestors[t] + {t})
    requires Tracked(pool, t, e, included, true)
    ensures var gone := pool.ancestors[t] * included;
      && (gone != {} ==> first in gone)
      && (e.modFees == pool.Sum(ModifiedFee, Remaining(pool, t, included))
          <==> pool.Sum(Priority, gone - {first}) == 0)
  {
    hide Pool.Sum, Pool.Valid;
    var gone := pool.ancestors[t] * included;
    var f :| TakenOff(pool, t, e, gone, f);
    first := f;
    var rest := Remaining(pool, t, included);
    assert rest + gone == pool.ancestors[t] + {t};
    pool.SumUnion(ModifiedFee, rest, gone);
    SumPriority(pool, gone);
    if gone == {} {
      assert gone - {first} == {};
    } else {
      pool.SumWithout(Priority, gone, first);
    }
  }

  /** Two prioritised parents, each with its fee raised by five, and a child that pays nothing. */
  function PrioritisedParents(): Pool {
    var parent := Entry(1, 4, 0, 0, 5, 1, 1, 0, 5);
    Pool(map[0 := parent, 1 := parent, 2 := Entry(1, 4, 0, 0, 0, 3, 3, 0, 10)],
         map[0 := {}, 1 := {}, 2 := {0, 1}], map[0 := {}, 1 := {}, 2 := {0, 1}])
  }

  /** With both parents in the block the child counts as paying five, which it does not pay. */
  lemma CachedFeesOff()
    ensures var pool, e := PrioritisedParents(), ModEntry(1, 5, 0);
      && pool.Valid() && Tracked(pool, 2, e, {0, 1}, true)
      && pool.entries[2].modFeesWithAncestors == pool.Sum(ModifiedFee, pool.ancestors[2] + {2})
      && pool.Sum(ModifiedFee, Remaining(pool, 2, {0, 1})) == 0
  {
    hide Pool.Sum, Pool.Valid;
    var pool := PrioritisedParents();
    PrioritisedSums(Size);
    PrioritisedSums(SigOps);
    PrioritisedSums(Fee);
    PrioritisedSums(ModifiedFee);
    PrioritisedValid();
    assert Remaining(pool, 2, {0, 1}) == {2};
    assert pool.ancestors[2] * {0, 1} == {0, 1} && pool.ancestors[2] + {2} == {0, 1, 2};
    assert TakenOff(pool, 2, ModEntry(1, 5, 0), {0, 1}, 0);
  }

  lemma PrioritisedValid()
    ensures PrioritisedParents().Valid()
  {
    hide Pool.Sum;
    var pool := PrioritisedParents();
    PrioritisedSums(Size);
    PrioritisedSums(SigOps);
    assert {} + {0} == {0} && {} + {1} == {1} && {0, 1} + {2} == {0, 1, 2};
    assert |{0, 1}| == 2;
  }

  lemma PrioritisedSums(field: Field)
    ensures var pool := PrioritisedParents();
      && pool.Sum(field, {0}) == pool.Get(field, 0) && pool.Sum(field, {1}) == pool.Get(field, 1)
      && pool.Sum(field, {2}) == pool.Get(field, 2)
      && pool.Sum(field, {0, 1}) == pool.Get(field, 0) + pool.Get(field, 1)
      && pool.Sum(field, {0, 1, 2}) == pool.Get(field, 0) + pool.Get(field, 1) + pool.Get(field, 2)
  {
    var pool := PrioritisedParents();
    pool.SumAdd(field, {}, 0);
    pool.SumAdd(field, {}, 1);
    pool.SumAdd(field, {}, 2);
    pool.SumAdd(field, {0}, 1);
    pool.SumAdd(field, {0, 1}, 2);
    assert {} + {0} == {0} && {} + {1} == {1} && {} + {2} == {2} && {0} + {1} == {0, 1} && {0, 1} + {2} == {0, 1, 2};
  }

  lemma {:induction false} SumPriority(pool: Pool, txs: set<Tx>)
    ensures pool.Sum(ModifiedFee, txs) == pool.Sum(Fee, txs) + pool.Sum(Priority, txs)
    decreases txs
  {
    if txs != {} {
      var t :| t in txs;
      pool.SumWithout(ModifiedFee, txs, t);
      pool.SumWithout(Fee, txs, t);
      pool.SumWithout(Priority, txs, t);
      SumPriority(pool, txs - {t});
    }
  }

  // ---- the side table after some transactions were added ----

  /** The fee total after the ancestors in `gone` were taken off an entry, which was in the table or not. */
  ghost predicate FeesDeducted(pool: Pool, base: int, fees: int, gone: set<Tx>, known: bool) {
    if known || gone == {} then fees == base - pool.Sum(Fee, gone)
    else exists first :: first in gone && fees == base - pool.Sum(Fee, gone) - pool.Get(Priority, first)
  }

  /** The deducted totals after the ancestors in `done` were taken off. */
  ghost predicate Deducted(pool: Pool, t: Tx, base: ModEntry, e: ModEntry, done: set<Tx>, known: bool)
    requires t in pool.ancestors
  {
    && e.size == base.size - pool.Sum(Size, pool.ancestors[t] * done)
    && e.sigOps == base.sigOps - pool.Sum(SigOps, pool.ancestors[t] * done)
    && FeesDeducted(pool, base.modFees, e.modFees, pool.ancestors[t] * done, known)
  }

  ghost function Base(pool: Pool, mod: Modified, t: Tx): ModEntry
    requires t in pool.entries
  {
    if t in mod then mod[t] else FullEntry(pool, t)
  }

  /** The table at `t`, after the descendants of `done` were updated. */
  ghost predicate UpdatedAt(pool: Pool, before: Modified, mod: Modified, added: set<Tx>, done: set<Tx>, t: Tx) {
    if t in mod
    then t in pool.entries && t in pool.ancestors
         && Deducted(pool, t, Base(pool, before, t), mod[t], done, t in before)
         && (t in before || (t !in added && pool.ancestors[t] * done != {}))
    else t !in before && (t in pool.ancestors && t !in added ==> pool.ancestors[t] * done == {})
  }

  ghost predicate Updated(pool: Pool, before: Modified, mod: Modified, added: set<Tx>, done: set<Tx>) {
    forall t :: UpdatedAt(pool, before, mod, added, done, t)
  }

  /** The transactions whose totals an added parent changes. */
  ghost function Affected(pool: Pool, it: Tx, added: set<Tx>): set<Tx> {
    set d | d in pool.entries && d in pool.ancestors && it in pool.ancestors[d] && d !in added
  }

  /** The totals of `d` once one more included ancestor is taken off. */
  function LessParent(pool: Pool, mod: Modified, it: Tx, d: Tx): ModEntry
    requires it in pool.entries && d in pool.entries
  {
    var p := pool.entries[it];
    if d !in mod then
      var full := FullEntry(pool, d);
      ModEntry(full.size - p.size, full.modFees - p.modifiedFee, full.sigOps - p.sigOps)
    else
      ModEntry(mod[d].size - p.size, mod[d].modFees - p.fee, mod[d].sigOps - p.sigOps)
  }

  /** Deducting one more ancestor from one entry. */
  lemma {:induction false} DeductOne(pool: Pool, before: Modified, mod: Modified, added: set<Tx>, done: set<Tx>,
                                     it: Tx, d: Tx)
    requires UpdatedAt(pool, before, mod, added, done, d) && it !in done && d in Affected(pool, it, added)
    requires it in pool.entries
    ensures UpdatedAt(pool, before, mod[d := LessParent(pool, mod, it, d)], added, done + {it}, d)
  {
    var gone := pool.ancestors[d] * done;
    assert pool.ancestors[d] * (done + {it}) == gone + {it};
    pool.SumAdd(Size, gone, it);
    pool.SumAdd(SigOps, gone, it);
    pool.SumAdd(Fee, gone, it);
    if d in mod && d !in before {
      var first :| first in gone
        && mod[d].modFees == Base(pool, before, d).modFees - pool.Sum(Fee, gone) - pool.Get(Priority, first);
      assert first in gone + {it};
    } else if d !in mod {
      assert gone == {};
      assert it in gone + {it};
    }
  }

  /** Entries that do not descend from the added parent need no change. */
  lemma {:induction false} UnaffectedSame(pool: Pool, before: Modified, mod: Modified, added: set<Tx>,
          done: set<Tx>, it: Tx, t: Tx)
    requires UpdatedAt(pool, before, mod, added, done, t) && before.Keys !! added
    requires t !in Affected(pool, it, added) && pool.ancestors.Keys == pool.entries.Keys
    ensures UpdatedAt(pool, before, mod, added, done + {it}, t)
  {
    if t in pool.ancestors && it !in pool.ancestors[t] {
      assert pool.ancestors[t] * (done + {it}) == pool.ancestors[t] * done;
    }
  }

  /** Taking newly included ancestors off an entry of the table keeps it tracked. */
  lemma {:induction false} DeductedKnown(pool: Pool, t: Tx, base: ModEntry, e: ModEntry, included: set<Tx>,
          added: set<Tx>, exact: bool)
    requires t in pool.entries && t in pool.ancestors && added <= included
    requires InTable(pool, t, base, included - added, exact) && Deducted(pool, t, base, e, added, true)
    ensures InTable(pool, t, e, included, exact)
  {
    var gone, first :| TakenOff(pool, t, base, gone, first) && gone != {}
      && gone <= pool.ancestors[t] * (included - added) && (exact ==> gone == pool.ancestors[t] * (included - added));
    var more := pool.ancestors[t] * added;
    pool.SumUnion(Size, gone, more);
    pool.SumUnion(SigOps, gone, more);
    pool.SumUnion(Fee, gone, more);
    assert exact ==> gone + more == pool.ancestors[t] * included;
    assert TakenOff(pool, t, e, gone + more, first);
  }

  /** An entry without included ancestors enters the table with the added ones taken off. */
  lemma {:induction false} DeductedNewly(pool: Pool, t: Tx, e: ModEntry, included: set<Tx>, added: set<Tx>, exact: bool)
    requires t in pool.entries && t in pool.ancestors && added <= included && pool.ancestors[t] * added != {}
    requires exact ==> pool.ancestors[t] * (included - added) == {}
    requires Deducted(pool, t, FullEntry(pool, t), e, added, false)
    ensures InTable(pool, t, e, included, exact)
  {
    var gone := pool.ancestors[t] * added;
    var first :| first in gone
      && e.modFees == FullEntry(pool, t).modFees - pool.Sum(Fee, gone) - pool.Get(Priority, first);
    assert pool.ancestors[t] * included == pool.ancestors[t] * (included - added) + gone;
    assert TakenOff(pool, t, e, gone, first);
  }

  lemma {:induction false} UpdatedOk(pool: Pool, before: Modified, mod: Modified, included: set<Tx>, added: set<Tx>,
          failed: set<Tx>)
    requires pool.Valid() && pool.Closed(included - added) && added <= included
    requires TableOk(pool, before, included - added, failed) && before.Keys !! added
    requires Updated(pool, before, mod, added, added)
    ensures TableOk(pool, mod, included, failed)
  {
    hide RowOk, UpdatedAt, Pool.Valid, Pool.Closed;
    forall t
      ensures RowOk(pool, mod, included, failed, t)
    {
      assert UpdatedAt(pool, before, mod, added, added, t);
      assert RowOk(pool, before, included - added, failed, t);
      UpdatedRow(pool, before, mod, included, added, failed, t);
    }
  }

  lemma {:induction false} UpdatedRow(pool: Pool, before: Modified, mod: Modified, included: set<Tx>, added: set<Tx>,
          failed: set<Tx>, t: Tx)
    requires pool.Closed(included - added) && added <= included
    requires RowOk(pool, before, included - added, failed, t) && before.Keys !! added
    requires UpdatedAt(pool, before, mod, added, added, t)
    ensures RowOk(pool, mod, included, failed, t)
  {
    hide InTable, Deducted;
    if t in before {
      DeductedKnown(pool, t, before[t], mod[t], included, added, t !in failed);
    } else if t in mod {
      var a :| a in pool.ancestors[t] * added;
      assert t in included - added ==> a in included - added;
      DeductedNewly(pool, t, mod[t], included, added, t !in failed);
    } else if t in pool.ancestors {
      assert pool.ancestors[t] * included == pool.ancestors[t] * (included - added) + pool.ancestors[t] * added;
    }
  }

  // ---- updating the side table ----

  /** Half-way: the descendants in `handled` have the parent taken off, the others not yet. */
  ghost predicate Partly(pool: Pool, before: Modified, mod: Modified, added: set<Tx>, done: set<Tx>, it: Tx,
          handled: set<Tx>) {
    forall t :: UpdatedAt(pool, before, mod, added, if t in handled then done + {it} else done, t)
  }

  lemma {:induction false} PartlyStep(pool: Pool, before: Modified, mod: Modified, added: set<Tx>, done: set<Tx>,
                                      it: Tx, handled: set<Tx>, d: Tx)
    requires Partly(pool, before, mod, added, done, it, handled) && it in pool.entries
    requires it !in done && d in Affected(pool, it, added) && d !in handled
    ensures Partly(pool, before, mod[d := LessParent(pool, mod, it, d)], added, done, it, handled + {d})
  {
    hide UpdatedAt;
    var mod' := mod[d := LessParent(pool, mod, it, d)];
    assert UpdatedAt(pool, before, mod, added, if d in handled then done + {it} else done, d);
    DeductOne(pool, before, mod, added, done, it, d);
    forall t
      ensures UpdatedAt(pool, before, mod', added, if t in handled + {d} then done + {it} else done, t)
    {
      if t != d {
        assert UpdatedAt(pool, before, mod, added, if t in handled then done + {it} else done, t);
        ElsewhereSame(pool, before, mod, mod', added, if t in handled then done + {it} else done, t);
      }
    }
  }

  lemma {:induction false} PartlyEnd(pool: Pool, before: Modified, mod: Modified, added: set<Tx>, done: set<Tx>, it: Tx)
    requires Partly(pool, before, mod, added, done, it, Affected(pool, it, added))
    requires before.Keys !! added && pool.ancestors.Keys == pool.entries.Keys
    ensures Updated(pool, before, mod, added, done + {it})
  {
    hide UpdatedAt;
    var affected := Affected(pool, it, added);
    forall t
      ensures UpdatedAt(pool, before, mod, added, done + {it}, t)
    {
      assert UpdatedAt(pool, before, mod, added, if t in affected then done + {it} else done, t);
      if t !in affected {
        UnaffectedSame(pool, before, mod, added, done, it, t);
      }
    }
  }

  lemma {:induction false} PartlyStart(pool: Pool, before: Modified, mod: Modified, added: set<Tx>,
          done: set<Tx>, it: Tx)
    requires Updated(pool, before, mod, added, done)
    ensures Partly(pool, before, mod, added, done, it, {})
  {
  }

  function Descendants(pool: Pool, it: Tx): set<Tx> {
    set d | d in pool.entries && d in pool.ancestors && it in pool.ancestors[d]
  }

  lemma {:induction false} AffectedFacts(pool: Pool, it: Tx, added: set<Tx>)
    requires pool.Valid()
    ensures Affected(pool, it, added) == Descendants(pool, it) - added
    ensures Descendants(pool, it) <= pool.entries.Keys && pool.ancestors.Keys == pool.entries.Keys
  {
  }

  /** Take one added parent off the totals of all its descendants that are not added with it. */
  method UpdateDescendants(pool: Pool, it: Tx, added: set<Tx>, modIn: Modified, ghost before: Modified,
          ghost done: set<Tx>)
    returns (mod: Modified, updated: nat)
    requires pool.Valid() && it in pool.entries && it !in done && before.Keys !! added
    requires Updated(pool, before, modIn, added, done)
    ensures Updated(pool, before, mod, added, done + {it})
    ensures updated == |Affected(pool, it, added)|
  {
    hide Updated, Partly, Pool.Valid, Affected, Descendants;
    mod, updated := modIn, 0;
    PartlyStart(pool, before, mod, added, done, it);
    var rest := Descendants(pool, it);
    ghost var affected := Affected(pool, it, added);
    AffectedFacts(pool, it, added);
    assert affected - rest == {};
    while rest != {}
      invariant rest <= Descendants(pool, it)
      invariant Partly(pool, before, mod, added, done, it, affected - rest)
      invariant updated == |affected - rest|
      decreases rest
    {
      var d :| d in rest;
      if d in added {
        NotThere(affected, rest, d);
      } else {
        updated := updated + 1;
        PartlyStep(pool, before, mod, added, done, it, affected - rest, d);
        mod := mod[d := LessParent(pool, mod, it, d)];
        OneFewer(affected, rest, d);
      }
      rest := rest - {d};
    }
    assert affected - rest == affected;
    PartlyEnd(pool, before, mod, added, done, it);
  }

  lemma ElsewhereSame(pool: Pool, before: Modified, was: Modified, mod: Modified, added: set<Tx>, done: set<Tx>, t: Tx)
    requires UpdatedAt(pool, before, was, added, done, t)
    requires (t in mod <==> t in was) && (t in mod ==> mod[t] == was[t])
    ensures UpdatedAt(pool, before, mod, added, done, t)
  {
  }

  /** Bring the side table up to date with a set of transactions that just entered the block. */
  method UpdatePackagesForAdded(pool: Pool, added: set<Tx>, before: Modified, ghost included: set<Tx>,
          ghost failed: set<Tx>)
    returns (mod: Modified, updated: nat)
    requires pool.Valid() && added <= included && added <= pool.entries.Keys && pool.Closed(included - added)
    requires TableOk(pool, before, included - added, failed) && before.Keys !! added
    ensures TableOk(pool, mod, included, failed)
    ensures Updated(pool, before, mod, added, added)
  {
    mod, updated := before, 0;
    NothingDone(pool, before, added, included, failed);
    hide Updated, TableOk, Pool.Valid, Pool.Closed;
    var rest := added;
    while rest != {}
      invariant rest <= added
      invariant Updated(pool, before, mod, added, added - rest)
      decreases rest
    {
      var it :| it in rest;
      var n;
      assert it in added;
      mod, n := UpdateDescendants(pool, it, added, mod, before, added - rest);
      updated := updated + n;
      OneFewer(added, rest, it);
      rest := rest - {it};
    }
    assert added - {} == added;
    UpdatedOk(pool, before, mod, included, added, failed);
  }

  lemma {:induction false} NothingDone(pool: Pool, before: Modified, added: set<Tx>, included: set<Tx>, failed: set<Tx>)
    requires pool.Valid() && TableOk(pool, before, included - added, failed)
    ensures Updated(pool, before, before, added, added - added)
  {
    hide UpdatedAt, RowOk, Pool.Valid;
    forall t
      ensures UpdatedAt(pool, before, before, added, added - added, t)
    {
      assert RowOk(pool, before, included - added, failed, t);
      NothingTaken(pool, before, added, included - added, failed, t);
    }
  }

  lemma NothingTaken(pool: Pool, before: Modified, added: set<Tx>, included: set<Tx>, failed: set<Tx>, t: Tx)
    requires RowOk(pool, before, included, failed, t)
    ensures UpdatedAt(pool, before, before, added, added - added, t)
  {
    hide InTable;
    if t in pool.ancestors {
      assert pool.ancestors[t] * (added - added) == {};
    }
  }

  lemma KeysStay(pool: Pool, before: Modified, mod: Modified, added: set<Tx>)
    requires Updated(pool, before, mod, added, added)
    ensures before.Keys <= mod.Keys
  {
    forall t | t in before ensures t in mod {
      assert UpdatedAt(pool, before, mod, added, added, t);
    }
  }

  /** A package on its way into the block leaves the table before the others are updated. */
  lemma TableWithout(pool: Pool, mod: Modified, included: set<Tx>, failed: set<Tx>, package: set<Tx>)
    requires TableOk(pool, mod, included, failed)
    ensures TableOk(pool, mod - package, included, failed + package) && (mod - package).Keys !! package
  {
    hide InTable;
    forall t
      ensures RowOk(pool, mod - package, included, failed + package, t)
    {
      assert RowOk(pool, mod, included, failed, t);
    }
  }

  /** Once the package is in the block, its members need no exception. */
  lemma TableIncluded(pool: Pool, mod: Modified, included: set<Tx>, failed: set<Tx>, package: set<Tx>)
    requires TableOk(pool, mod, included, failed + package) && package <= included
    ensures TableOk(pool, mod, included, failed)
  {
    hide InTable;
    forall t
      ensures RowOk(pool, mod, included, failed, t)
    {
      assert RowOk(pool, mod, included, failed + package, t);
    }
  }

  lemma EmptyTable(pool: Pool, included: set<Tx>)
    ensures TableOk(pool, map[], included - included, {}) && pool.Closed(included - included)
  {
  }
}
