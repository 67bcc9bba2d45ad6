/**
 The memory pool as package selection sees it: a finite acyclic parent relation with the
 ancestor sets and totals that src/txmempool.h keeps for every entry.
 */
module Mempool {
  import opened Sets

  type Tx = nat

  datatype Entry = Entry(
    size: int,
    weight: int,
    sigOps: int,
    fee: int,
    modifiedFee: int,
    countWithAncestors: int,
    sizeWithAncestors: int,
    sigOpsWithAncestors: int,
    modFeesWithAncestors: int)

  datatype Field = Size | Weight | SigOps | Fee | ModifiedFee | Priority

  datatype Pool = Pool(entries: map<Tx, Entry>, parents: map<Tx, set<Tx>>, ancestors: map<Tx, set<Tx>>) {

    function Get(field: Field, t: Tx): int {
      if t !in entries then 0 else
      match field
      case Size => entries[t].size
      case Weight => entries[t].weight
      case SigOps => entries[t].sigOps
      case Fee => entries[t].fee
      case ModifiedFee => entries[t].modifiedFee
      case Priority => entries[t].modifiedFee - entries[t].fee
    }

    /** The total of a field over a set of transactions. */
    ghost function Sum(field: Field, txs: set<Tx>): int {
      if txs == {} then 0 else
      var t :| t in txs;
      Get(field, t) + Sum(field, txs - {t})
    }

    /** Ancestors are exactly the parents and the parents' ancestors; no transaction is its own ancestor. */
    ghost predicate Ancestry() {
      && parents.Keys == entries.Keys && ancestors.Keys == entries.Keys
      && (forall t :: t in entries ==> parents[t] <= entries.Keys && t !in ancestors[t])
      && (forall t, a {:trigger Via(t, a)} :: t in entries ==> (a in ancestors[t] <==> Via(t, a)))
    }

    /** One step up, or one step and then further. */
    ghost predicate Via(t: Tx, a: Tx) {
      t in parents && (a in parents[t] || exists p :: p in parents[t] && p in ancestors && a in ancestors[p])
    }

    ghost predicate Valid() {
      && Ancestry()
      && forall t :: t in entries ==> EntryOk(t, entries[t])
    }

    ghost predicate EntryOk(t: Tx, e: Entry)
      requires t in ancestors
    {
      && 0 <= e.size && 0 <= e.sigOps && 0 <= e.weight <= 4 * e.size
      && e.countWithAncestors == |ancestors[t]| + 1
      && e.sizeWithAncestors == Sum(Size, ancestors[t] + {t})
      && e.sigOpsWithAncestors == Sum(SigOps, ancestors[t] + {t})
    }

    /** No member has an ancestor outside. */
    ghost predicate Closed(txs: set<Tx>)
    {
      forall t :: t in txs && t in ancestors ==> ancestors[t] <= txs
    }

    lemma ClosedAt(txs: set<Tx>, t: Tx)
      requires Closed(txs) && t in txs && t in ancestors
      ensures ancestors[t] <= txs
    {
    }

    lemma {:induction false} SumWithout(field: Field, txs: set<Tx>, t: Tx)
      requires t in txs
      ensures Sum(field, txs) == Get(field, t) + Sum(field, txs - {t})
      decreases txs
    {
      var u :| u in txs && Sum(field, txs) == Get(field, u) + Sum(field, txs - {u});
      if u != t {
        SumWithout(field, txs - {u}, t);
        SumWithout(field, txs - {t}, u);
        assert txs - {u} - {t} == txs - {t} - {u};
      }
    }

    lemma SumAdd(field: Field, txs: set<Tx>, t: Tx)
      requires t !in txs
      ensures Sum(field, txs + {t}) == Sum(field, txs) + Get(field, t)
    {
      SumWithout(field, txs + {t}, t);
      assert txs + {t} - {t} == txs;
    }

    lemma {:induction false} SumUnion(field: Field, a: set<Tx>, b: set<Tx>)
      requires a !! b
      ensures Sum(field, a + b) == Sum(field, a) + Sum(field, b)
      decreases b
    {
      if b == {} {
        assert a + b == a;
      } else {
        var t :| t in b;
        SumUnion(field, a, b - {t});
        SumWithout(field, b, t);
        SumWithout(field, a + b, t);
        assert a + b - {t} == a + (b - {t});
      }
    }

    lemma {:induction false} SumNonNegative(field: Field, txs: set<Tx>)
      requires Valid() && (field == Size || field == SigOps || field == Weight)
      ensures 0 <= Sum(field, txs)
      decreases txs
    {
      if txs != {} {
        var t :| t in txs;
        SumWithout(field, txs, t);
        SumNonNegative(field, txs - {t});
      }
    }

    lemma SumMonotone(field: Field, a: set<Tx>, b: set<Tx>)
      requires Valid() && (field == Size || field == SigOps || field == Weight) && a <= b
      ensures Sum(field, a) <= Sum(field, b)
    {
      SumUnion(field, a, b - a);
      assert a + (b - a) == b;
      SumNonNegative(field, b - a);
    }

    /** Weight is at most four times the size, so the same holds of totals. */
    lemma {:induction false} WeightBound(txs: set<Tx>)
      requires Valid()
      ensures Sum(Weight, txs) <= 4 * Sum(Size, txs)
      decreases txs
    {
      if txs != {} {
        var t :| t in txs;
        SumWithout(Weight, txs, t);
        SumWithout(Size, txs, t);
        WeightBound(txs - {t});
      }
    }

    lemma ParentFirst(t: Tx, p: Tx)
      requires Ancestry() && t in entries && p in parents[t]
      ensures p in ancestors[t] && p in entries && ancestors[p] < ancestors[t]
    {
      assert Via(t, p);
      forall a | a in ancestors[p]
        ensures a in ancestors[t]
      {
        assert Via(t, a);
      }
    }

    /** Ancestors of ancestors are ancestors. */
    lemma {:induction false} Transitive(t: Tx, a: Tx)
      requires Ancestry() && t in entries && a in ancestors[t]
      ensures a in entries && ancestors[a] <= ancestors[t]
      decreases ancestors[t]
    {
      assert Via(t, a);
      if a in parents[t] {
        ParentFirst(t, a);
      } else {
        var p :| p in parents[t] && a in ancestors[p];
        ParentFirst(t, p);
        Transitive(p, a);
      }
    }

    /** An ancestor has strictly fewer ancestors, so sorting by that number puts it first. */
    lemma {:induction false} FewerAncestors(t: Tx, a: Tx)
      requires Valid() && t in entries && a in ancestors[t]
      ensures a in entries && entries[a].countWithAncestors < entries[t].countWithAncestors
    {
      Transitive(t, a);
      SubsetSize(ancestors[a] + {a}, ancestors[t]);
    }

    /** A transaction together with the ancestors not yet in a closed set keeps that set closed. */
    lemma {:induction false} PackageClosed(included: set<Tx>, t: Tx)
      requires Valid() && t in entries && Closed(included)
      ensures Closed(included + (ancestors[t] - included + {t}))
    {
      assert Ancestry() && ancestors.Keys == entries.Keys;
      hide Valid, Ancestry, Sum;
      var package := ancestors[t] - included + {t};
      var all := included + package;
      forall u | u in all && u in ancestors
        ensures ancestors[u] <= all
      {
        if u in included {
          ClosedAt(included, u);
        } else {
          if u != t {
            Transitive(t, u);
          }
          assert ancestors[u] <= ancestors[t];
        }
      }
    }
  }
}
